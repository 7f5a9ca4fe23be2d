/**
The list of explicitly allocated descriptors of a connection, Descrs: MADB_DescInit adds
to it, and MADB_DescFree deletes from it, also when it frees only the records and the
descriptor lives on.
*/
module DescriptorList {
  import opened Common
  import opened LinkedList

  /** The ListItem of a descriptor, which stands for the descriptor. */
  type Item = Node<nat>

  lemma WithoutHas<X>(xs: seq<X>, k: nat)
    requires NoDuplicates(xs) && k < |xs|
    ensures forall x :: x in Without(xs, k) <==> x in xs && x != xs[k]
  {
    var rest := Without(xs, k);
    forall x | x in xs && x != xs[k]
      ensures x in rest
    {
      var i :| 0 <= i < |xs| && xs[i] == x;
      assert rest[if i < k then i else i - 1] == x;
    }
  }

  class Connection {
    const descrs: List<nat>
    ghost var live: set<Item>         // allocated and not freed
    ghost var unlinked: set<Item>     // live, and deleted from the list

    /** The list holds exactly the live descriptors that have not been deleted from it, each once. */
    ghost predicate Kept()
      reads this, descrs, descrs.nodes
    {
      && descrs.Valid() && unlinked <= live
      && (forall d :: d in descrs.nodes ==> d in live && d !in unlinked)
      && (forall d :: d in live && d !in unlinked ==> d in descrs.nodes)
    }

    constructor ()
      ensures Kept() && live == {} && unlinked == {} && fresh(descrs) && descrs.nodes == []
    {
      descrs := new List();
      live, unlinked := {}, {};
    }

    /** MADB_DescInit for an explicit descriptor. */
    method Alloc(number: nat) returns (d: Item)
      requires Kept()
      modifies this, descrs, descrs.nodes
      ensures Kept() && fresh(d) && live == old(live) + {d} && unlinked == old(unlinked)
      ensures descrs.nodes == [d] + old(descrs.nodes)
    {
      d := new Node(number);
      var root := descrs.Add(descrs.root, d, 0);
      live := live + {d};
    }

    /**
    MADB_DescFree.  The first free of a descriptor deletes it from the list.  After a free
    of its records only, another one leaves the list as it is if and only if the neighbours
    the descriptor had in the list follow each other now, or have both left it.
    */
    method Free(d: Item, recordsOnly: bool)
      requires Kept() && d in live
      modifies this, descrs, descrs.nodes, if d.prev == null then {} else {d.prev}
      modifies if d.next == null then {} else {d.next}
      ensures live == if recordsOnly then old(live) else old(live) - {d}
      ensures unlinked == if recordsOnly then old(unlinked) + {d} else old(unlinked) - {d}
      ensures d.prev == old(d.prev) && d.next == old(d.next)
      ensures descrs.root == if d.prev == null then d.next else old(descrs.root)
      ensures d !in old(unlinked) ==> Kept() && forall x :: x in descrs.nodes <==> x in old(descrs.nodes) && x != d
      ensures d in old(unlinked) ==> (Kept() <==> Apart(old(descrs.nodes), old(d.prev), old(d.next)))
    {
      var k := descrs.Delete(d);
      if d !in unlinked {
        WithoutHas(old(descrs.nodes), k);
      }
      if recordsOnly {
        unlinked := unlinked + {d};
      } else {
        live, unlinked := live - {d}, unlinked - {d};
      }
    }
  }

  /** The list is that of the live descriptors exactly as long as no descriptor has had its records freed. */
  lemma AllListedIff(c: Connection)
    requires c.Kept()
    ensures (forall d :: d in c.live ==> d in c.descrs.nodes) <==> c.unlinked == {}
  {
    if c.unlinked != {} {
      var d :| d in c.unlinked;
      assert d in c.live && d !in c.descrs.nodes;
    }
  }

  /**
  Two descriptors, the first one's records freed before the second is allocated, and then
  the first freed: the list is empty, and the second descriptor lives.
  */
  method LostDescriptor(c: Connection) returns (second: Item)
    requires c.Kept() && c.descrs.nodes == []
    modifies c, c.descrs
    ensures second in c.live && c.descrs.root == null && !c.Kept()
  {
    var first := c.Alloc(1);
    c.Free(first, true);
    second := c.Alloc(2);
    c.Free(first, false);
  }
}
