/** The intrusive doubly linked list of ma_legacy_helpers.c. */
module LinkedList {
  import opened Common

  class Node<T> {
    var prev: Node?<T>
    var next: Node?<T>
    const data: T

    constructor (data: T)
      ensures this.data == data && prev == null && next == null
    {
      this.data, prev, next := data, null, null;
    }
  }

  /** The k-th node, or null beyond either end. */
  function At<T>(nodes: seq<Node<T>>, k: int): Node?<T> { if 0 <= k < |nodes| then nodes[k] else null }

  function Reversed<X>(xs: seq<X>): (r: seq<X>)
    ensures |r| == |xs| && forall k :: 0 <= k < |xs| ==> r[k] == xs[|xs| - 1 - k]
  {
    seq(|xs|, k requires 0 <= k < |xs| => xs[|xs| - 1 - k])
  }

  /** These nodes, one after the other: the root, and what next and prev of each have to be. */
  ghost predicate Linked<T>(nodes: seq<Node<T>>, root: Node?<T>, nexts: seq<Node?<T>>, prevs: seq<Node?<T>>) {
    && NoDuplicates(nodes) && root == At(nodes, 0) && |nexts| == |prevs| == |nodes|
    && (forall i :: 0 <= i < |nodes| ==> nexts[i] == At(nodes, i + 1))
    && (forall i :: 0 <= i < |nodes| ==> prevs[i] == At(nodes, i - 1))
  }

  /** What deleting an element with these neighbours writes: next of the one before, prev of the one behind. */
  ghost function Renexted<T>(nodes: seq<Node<T>>, nexts: seq<Node?<T>>, p: Node?<T>, n: Node?<T>): (r: seq<Node?<T>>)
    requires |nexts| == |nodes|
    ensures |r| == |nodes|
  {
    seq(|nodes|, i requires 0 <= i < |nodes| => if nodes[i] == p then n else nexts[i])
  }

  /** The neighbours of an element no longer in the list follow each other now, or neither is in the list. */
  ghost predicate Apart<T>(nodes: seq<Node<T>>, p: Node?<T>, n: Node?<T>) {
    || (exists i :: 0 <= i <= |nodes| && p == At(nodes, i - 1) && n == At(nodes, i))
    || (p != null && p !in nodes && n !in nodes)
  }

  lemma UnlinkedIff<T>(nodes: seq<Node<T>>, root: Node?<T>, nexts: seq<Node?<T>>, prevs: seq<Node?<T>>, p: Node?<T>,
                       n: Node?<T>)
    requires Linked(nodes, root, nexts, prevs)
    ensures Linked(nodes, if p == null then n else root, Renexted(nodes, nexts, p, n), Renexted(nodes, prevs, n, p))
            <==> Apart(nodes, p, n)
  {
    var root' := if p == null then n else root;
    var nexts', prevs' := Renexted(nodes, nexts, p, n), Renexted(nodes, prevs, n, p);
    assert forall y :: 0 <= y < |nodes| && nodes[y] == n ==> prevs'[y] == p;
    if Linked(nodes, root', nexts', prevs') {
      if p == null {
        assert p == At(nodes, 0 - 1) && n == At(nodes, 0);
      } else if p in nodes {
        var x :| 0 <= x < |nodes| && nodes[x] == p;
        assert nexts'[x] == n && p == At(nodes, x + 1 - 1) && n == At(nodes, x + 1);
      }
    }
  }

  /** Without the k-th. */
  ghost function Without<X>(xs: seq<X>, k: nat): (r: seq<X>)
    requires k < |xs|
    ensures |r| == |xs| - 1 && forall i :: 0 <= i < |r| ==> r[i] == xs[if i < k then i else i + 1]
  {
    xs[..k] + xs[k + 1..]
  }

  lemma WithoutLinked<T>(nodes: seq<Node<T>>, root: Node?<T>, nexts: seq<Node?<T>>, prevs: seq<Node?<T>>, k: nat)
    requires Linked(nodes, root, nexts, prevs) && k < |nodes|
    ensures var p, n := At(nodes, k - 1), At(nodes, k + 1);
            Linked(Without(nodes, k), if p == null then n else root, Without(Renexted(nodes, nexts, p, n), k),
                   Without(Renexted(nodes, prevs, n, p), k))
  {
    hide Without;
    var p, n, rest := At(nodes, k - 1), At(nodes, k + 1), Without(nodes, k);
    var nexts', prevs' := Without(Renexted(nodes, nexts, p, n), k), Without(Renexted(nodes, prevs, n, p), k);
    forall i | 0 <= i < |rest|
      ensures nexts'[i] == At(rest, i + 1)
    {
      var x := if i < k then i else i + 1;
      assert nodes[x] == p <==> x == k - 1;
    }
    forall i | 0 <= i < |rest|
      ensures prevs'[i] == At(rest, i - 1)
    {
      var x := if i < k then i else i + 1;
      assert nodes[x] == n <==> x == k + 1;
    }
  }

  class List<T> {
    var root: Node?<T>
    ghost var nodes: seq<Node<T>>         // the traversal from the root

    ghost function Nexts(of: seq<Node<T>>): (r: seq<Node?<T>>)
      reads of
      ensures |r| == |of| && forall i {:trigger of[i].next} :: 0 <= i < |of| ==> r[i] == of[i].next
    {
      seq(|of|, i requires 0 <= i < |of| reads of => of[i].next)
    }

    ghost function Prevs(of: seq<Node<T>>): (r: seq<Node?<T>>)
      reads of
      ensures |r| == |of| && forall i {:trigger of[i].prev} :: 0 <= i < |of| ==> r[i] == of[i].prev
    {
      seq(|of|, i requires 0 <= i < |of| reads of => of[i].prev)
    }

    /** Traversal from the root along next gives `nodes`, and prev leads back. */
    ghost predicate Valid()
      reads this, nodes
    {
      && NoDuplicates(nodes) && root == At(nodes, 0)
      && (forall i {:trigger nodes[i].next} :: 0 <= i < |nodes| ==> nodes[i].next == At(nodes, i + 1))
      && (forall i {:trigger nodes[i].prev} :: 0 <= i < |nodes| ==> nodes[i].prev == At(nodes, i - 1))
    }

    lemma ValidIff()
      ensures Valid() <==> Linked(nodes, root, Nexts(nodes), Prevs(nodes))
    {
      if Linked(nodes, root, Nexts(nodes), Prevs(nodes)) {
        assert forall i {:trigger nodes[i].next} :: 0 <= i < |nodes| ==> nodes[i].next == Nexts(nodes)[i];
        assert forall i {:trigger nodes[i].prev} :: 0 <= i < |nodes| ==> nodes[i].prev == Prevs(nodes)[i];
      }
    }

    constructor ()
      ensures Valid() && nodes == []
    {
      root, nodes := null, [];
    }

    /**
    MADB_ListAdd, in front of the k-th node.  The answer is the element, wherever it stands:
    the root of the list only if `at` was.
    */
    method Add(at: Node?<T>, element: Node<T>, ghost k: nat) returns (answer: Node<T>)
      requires Valid() && element !in nodes && k <= |nodes| && at == At(nodes, k) && (at == null ==> nodes == [])
      modifies this, nodes, element
      ensures Valid() && nodes == old(nodes)[..k] + [element] + old(nodes)[k..]
      ensures answer == element == nodes[k] && (root == answer <==> k == 0)
    {
      if at != null {
        if at.prev != null {
          at.prev.next := element;
        }
        element.prev := at.prev;
        at.prev := element;
      } else {
        element.prev := null;
      }
      element.next := at;
      if at == root {
        root := element;
      }
      nodes := nodes[..k] + [element] + nodes[k..];
      answer := element;
    }

    /** MADB_ListDelete: what it writes, whether the element is in the list or not. */
    method Unlink(element: Node<T>)
      modifies this`root, if element.prev == null then {} else {element.prev}
      modifies if element.next == null then {} else {element.next}
      ensures root == if old(element.prev) == null then old(element.next) else old(root)
      ensures element.prev == old(element.prev) && element.next == old(element.next)
      ensures Nexts(nodes) == Renexted(nodes, old(Nexts(nodes)), old(element.prev), old(element.next))
      ensures Prevs(nodes) == Renexted(nodes, old(Prevs(nodes)), old(element.next), old(element.prev))
    {
      if element.prev != null {
        element.prev.next := element.next;
      } else {
        root := element.next;
      }
      if element.next != null {
        element.next.prev := element.prev;
      }
    }

    lemma Neighbours(k: nat)
      requires Valid() && k < |nodes|
      ensures nodes[k].prev == At(nodes, k - 1) && nodes[k].next == At(nodes, k + 1)
    {
    }

    /**
    An element of the list is deleted.  If it has been deleted before, the list stays as it is
    if and only if the neighbours it had follow each other, or are both gone.
    */
    method Delete(element: Node<T>) returns (ghost k: int)
      requires Valid()
      modifies this, nodes, if element.prev == null then {} else {element.prev}
      modifies if element.next == null then {} else {element.next}
      ensures element in old(nodes) ==>
                0 <= k < |old(nodes)| && old(nodes)[k] == element && Valid() && nodes == Without(old(nodes), k)
      ensures root == if old(element.prev) == null then old(element.next) else old(root)
      ensures element.prev == old(element.prev) && element.next == old(element.next)
      ensures element !in old(nodes) ==>
                nodes == old(nodes) && (Valid() <==> Apart(nodes, old(element.prev), old(element.next)))
    {
      hide Linked, Renexted, Without, Apart, Valid;
      ghost var all, nexts, prevs := nodes, Nexts(nodes), Prevs(nodes);
      ValidIff();
      k := -1;
      if element in nodes {
        k :| 0 <= k < |nodes| && nodes[k] == element;
        Neighbours(k);
        WithoutLinked(nodes, root, nexts, prevs, k);
      } else {
        UnlinkedIff(nodes, root, nexts, prevs, element.prev, element.next);
      }
      Unlink(element);
      if element in nodes {
        nodes := Without(nodes, k);
        assert Nexts(nodes) == Without(Nexts(all), k) && Prevs(nodes) == Without(Prevs(all), k);
      }
      ValidIff();
    }

    /** MADB_ListReverse */
    method Reverse()
      requires Valid()
      modifies this, nodes
      ensures Valid() && nodes == Reversed(old(nodes))
    {
      var last, r := root, root;
      ghost var i := 0;
      while r != null
        invariant 0 <= i <= |nodes| && nodes == old(nodes) && r == At(nodes, i)
        invariant last == if i == 0 then At(nodes, 0) else At(nodes, i - 1)
        invariant forall j {:trigger nodes[j].next} :: 0 <= j < |nodes| ==>
                    nodes[j].next == if j < i then At(nodes, j - 1) else At(nodes, j + 1)
        invariant forall j {:trigger nodes[j].prev} :: 0 <= j < |nodes| ==>
                    nodes[j].prev == if j < i then At(nodes, j + 1) else At(nodes, j - 1)
        decreases |nodes| - i
      {
        last := r;
        r := r.next;
        last.next := last.prev;
        last.prev := r;
        i := i + 1;
      }
      root := last;
      nodes := Reversed(nodes);
    }
  }

  /** Reversing a list twice gives its traversal back. */
  method ReverseTwice<T>(list: List<T>)
    requires list.Valid()
    modifies list, list.nodes
    ensures list.Valid() && list.nodes == old(list.nodes)
  {
    list.Reverse();
    list.Reverse();
  }

  /** Deleting an element just added gives the list back as it was. */
  method AddAndDelete<T>(list: List<T>, element: Node<T>)
    requires list.Valid() && element !in list.nodes
    modifies list, list.nodes, element
    ensures list.Valid() && list.nodes == old(list.nodes)
  {
    var _ := list.Add(list.root, element, 0);
    var _ := list.Delete(element);
  }
}
