/**
Statements and application descriptors: the pointers Apd and Ard of a statement and the
array Stmts of an explicitly allocated descriptor, kept in step by MADB_StmtSetStmtAttr,
MADB_StmtFree and MADB_DescFree.
*/
module Association {
  import opened Common

  // ---------------------------------------------------------------------------------
  // Removing references from an array
  // ---------------------------------------------------------------------------------

  /** xs without its first `x`. */
  ghost function Without<X>(xs: seq<X>, x: X): seq<X> {
    if xs == [] then [] else if xs[0] == x then xs[1..] else [xs[0]] + Without(xs[1..], x)
  }

  lemma {:induction false} WithoutHas<X>(xs: seq<X>, x: X)
    requires NoDuplicates(xs)
    ensures NoDuplicates(Without(xs, x)) && x !in Without(xs, x)
    ensures forall y :: y in Without(xs, x) <==> y in xs && y != x
  {
    if xs != [] {
      assert xs == [xs[0]] + xs[1..];
      assert xs[0] !in xs[1..];
      if xs[0] != x {
        WithoutHas(xs[1..], x);
        var rest := Without(xs[1..], x);
        assert forall y :: y in [xs[0]] + rest <==> y == xs[0] || y in rest;
      }
    }
  }

  /** The loop that removes every `x`: the element behind a removed one is stepped over. */
  ghost function Skipping<X>(xs: seq<X>, x: X): seq<X> {
    if xs == [] then []
    else if xs[0] != x then [xs[0]] + Skipping(xs[1..], x)
    else if |xs| == 1 then []
    else [xs[1]] + Skipping(xs[2..], x)
  }

  /** Two `x` in a row. */
  ghost predicate Adjacent<X>(xs: seq<X>, x: X) {
    exists i :: 0 <= i && i + 1 < |xs| && xs[i] == x && xs[i + 1] == x
  }

  lemma AdjacentTail<X>(xs: seq<X>, x: X)
    requires xs != [] && (xs[0] != x || (|xs| > 1 && xs[1] != x))
    ensures Adjacent(xs, x) <==> Adjacent(xs[1..], x)
  {
    if Adjacent(xs, x) {
      var i :| 0 <= i && i + 1 < |xs| && xs[i] == x && xs[i + 1] == x;
      assert xs[1..][i - 1] == x && xs[1..][i - 1 + 1] == x;
    }
    if Adjacent(xs[1..], x) {
      var i :| 0 <= i && i + 1 < |xs[1..]| && xs[1..][i] == x && xs[1..][i + 1] == x;
      assert xs[i + 1] == x && xs[i + 1 + 1] == x;
    }
  }

  /** The loop leaves an `x` behind exactly when two stand next to each other. */
  lemma {:induction false} SkippingLeavesIff<X>(xs: seq<X>, x: X)
    ensures x in Skipping(xs, x) <==> Adjacent(xs, x)
  {
    if xs == [] || (xs[0] == x && |xs| == 1) {
    } else if xs[0] != x {
      SkippingLeavesIff(xs[1..], x);
      AdjacentTail(xs, x);
    } else if xs[1] == x {
      assert xs[0] == x && xs[0 + 1] == x;
      assert ([xs[1]] + Skipping(xs[2..], x))[0] == x;
    } else {
      SkippingLeavesIff(xs[2..], x);
      AdjacentTail(xs[1..], x);
      assert xs[1..][1..] == xs[2..];
      AdjacentTail(xs, x);
    }
  }

  lemma {:induction false} NothingToSkip<X>(xs: seq<X>, x: X)
    requires x !in xs
    ensures Skipping(xs, x) == xs
  {
    if xs != [] {
      NothingToSkip(xs[1..], x);
    }
  }

  /** Without duplicates the loop removes exactly the one reference there is. */
  lemma {:induction false} SkippingIsWithout<X>(xs: seq<X>, x: X)
    requires NoDuplicates(xs)
    ensures Skipping(xs, x) == Without(xs, x)
  {
    if xs != [] {
      if xs[0] != x {
        SkippingIsWithout(xs[1..], x);
      } else if |xs| > 1 {
        NothingToSkip(xs[2..], x);
        assert xs[1..] == [xs[1]] + xs[2..];
      }
    }
  }

  /** The loop stands at `i` of what is left of `before`; behind a last `x` it is one past the end. */
  ghost predicate Removing<X>(before: seq<X>, xs: seq<X>, i: nat, x: X, all: bool) {
    if !all then i <= |xs| && Without(before, x) == xs[..i] + Without(xs[i..], x)
    else if i <= |xs| then Skipping(before, x) == xs[..i] + Skipping(xs[i..], x)
    else i == |xs| + 1 && Skipping(before, x) == xs
  }

  lemma RemovingStart<X>(xs: seq<X>, x: X, all: bool)
    ensures Removing(xs, xs, 0, x, all)
  {
    assert xs[..0] == [] && xs[0..] == xs;
  }

  lemma RemovingOther<X>(before: seq<X>, xs: seq<X>, i: nat, x: X, all: bool)
    requires Removing(before, xs, i, x, all) && i < |xs| && xs[i] != x
    ensures Removing(before, xs, i + 1, x, all)
  {
    assert xs[i..][1..] == xs[i + 1..] && xs[..i + 1] == xs[..i] + [xs[i]];
  }

  lemma RemovingOne<X>(before: seq<X>, xs: seq<X>, i: nat, x: X, all: bool)
    requires Removing(before, xs, i, x, all) && i < |xs| && xs[i] == x
    ensures var ys := xs[..i] + xs[i + 1..];
            if all then Removing(before, ys, i + 1, x, all) else ys == Without(before, x)
  {
    var t, ys := xs[i..], xs[..i] + xs[i + 1..];
    assert t[1..] == xs[i + 1..];
    if all && i + 1 < |xs| {
      assert t[2..] == ys[i + 1..] && ys[..i + 1] == xs[..i] + [t[1]];
    }
  }

  lemma RemovingDone<X>(before: seq<X>, xs: seq<X>, i: nat, x: X, all: bool)
    requires Removing(before, xs, i, x, all) && i >= |xs|
    ensures xs == if all then Skipping(before, x) else Without(before, x)
  {
    assert i == |xs| ==> xs[..i] == xs && xs[i..] == [];
  }

  // ---------------------------------------------------------------------------------
  // Handles
  // ---------------------------------------------------------------------------------

  /** SQL_ATTR_APP_PARAM_DESC or SQL_ATTR_APP_ROW_DESC */
  datatype Role = Param | Row

  datatype DescType = Unknown | Apd | Ard

  function TypeFor(role: Role): DescType { if role.Param? then Apd else Ard }

  class Desc {
    const appType: bool           // allocated by the application
    var descType: DescType
    var stmts: seq<Stmt>

    constructor (appType: bool, descType: DescType)
      ensures this.appType == appType && this.descType == descType && stmts == []
    {
      this.appType, this.descType, stmts := appType, descType, [];
    }

    /** RemoveStmtRefFromDesc */
    method RemoveRef(s: Stmt, all: bool)
      modifies this`stmts
      ensures !appType ==> stmts == old(stmts)
      ensures appType && !all ==> stmts == Without(old(stmts), s)
      ensures appType && all ==> stmts == Skipping(old(stmts), s)
    {
      hide Removing, Without, Skipping;
      if !appType {
        return;
      }
      ghost var before := stmts;
      var i := 0;
      RemovingStart(stmts, s, all);
      while i < |stmts|
        invariant Removing(before, stmts, i, s, all)
        decreases |stmts| + 1 - i
      {
        if stmts[i] == s {
          RemovingOne(before, stmts, i, s, all);
          stmts := stmts[..i] + stmts[i + 1..];
          if !all {
            return;
          }
        } else {
          RemovingOther(before, stmts, i, s, all);
        }
        i := i + 1;
      }
      RemovingDone(before, stmts, i, s, all);
    }
  }

  class Stmt {
    var apd: Desc
    var ard: Desc
    const iapd: Desc              // allocated with the statement
    const iard: Desc

    constructor (iapd: Desc, iard: Desc)
      ensures this.iapd == iapd && this.iard == iard && apd == iapd && ard == iard
    {
      this.iapd, this.iard, apd, ard := iapd, iard, iapd, iard;
    }

    function Uses(role: Role): Desc
      reads this
    {
      if role.Param? then apd else ard
    }

    function Own(role: Role): Desc { if role.Param? then iapd else iard }

    method Use(role: Role, d: Desc)
      modifies this
      ensures apd == (if role.Param? then d else old(apd)) && ard == (if role.Row? then d else old(ard))
    {
      if role.Param? {
        apd := d;
      } else {
        ard := d;
      }
    }
  }

  class Connection {
    ghost var descs: set<Desc>    // explicitly allocated and not freed
    ghost var stmts: set<Stmt>    // not dropped

    /** What a statement points at: its own descriptors or live ones of the right type. */
    ghost predicate StmtOk(s: Stmt)
      reads this, s, descs
    {
      && !s.iapd.appType && !s.iard.appType
      && (s.apd == s.iapd || (s.apd in descs && s.apd.descType == Apd))
      && (s.ard == s.iard || (s.ard in descs && s.ard.descType == Ard))
    }

    /** The array of a descriptor: exactly the statements pointing at it, each once. */
    ghost predicate DescOk(d: Desc)
      reads this, d, stmts
    {
      && d.appType && NoDuplicates(d.stmts)
      && (forall s :: s in d.stmts ==> s in stmts && (s.apd == d || s.ard == d))
      && (forall s :: s in stmts && (s.apd == d || s.ard == d) ==> s in d.stmts)
    }

    ghost predicate Valid()
      reads this, descs, stmts
    {
      && (forall s :: s in stmts ==> StmtOk(s))
      && (forall d :: d in descs ==> DescOk(d))
    }

    constructor ()
      ensures Valid() && descs == {} && stmts == {}
    {
      descs, stmts := {}, {};
    }

    /** SQLAllocHandle(SQL_HANDLE_DESC) */
    method AllocDesc() returns (d: Desc)
      requires Valid()
      modifies this`descs
      ensures Valid() && fresh(d) && descs == old(descs) + {d} && d.descType == Unknown && d.stmts == []
    {
      d := new Desc(true, Unknown);
      descs := descs + {d};
    }

    /** SQLAllocHandle(SQL_HANDLE_STMT) */
    method AllocStmt() returns (s: Stmt)
      requires Valid()
      modifies this`stmts
      ensures Valid() && fresh(s) && stmts == old(stmts) + {s} && s.apd == s.iapd && s.ard == s.iard
    {
      var iapd := new Desc(false, Apd);
      var iard := new Desc(false, Ard);
      s := new Stmt(iapd, iard);
      stmts := stmts + {s};
    }

    /** Detaches the descriptor in use and falls back on the statement's own. */
    method Detach(s: Stmt, role: Role)
      requires Valid() && s in stmts
      modifies s, s.Uses(role)`stmts
      ensures Valid() && s.Uses(role) == s.Own(role) && (forall r :: r != role ==> s.Uses(r) == old(s.Uses(r)))
    {
      var d := s.Uses(role);
      assert StmtOk(s);
      if d.appType {
        assert DescOk(d);
        WithoutHas(d.stmts, s);
      }
      d.RemoveRef(s, false);
      s.Use(role, s.Own(role));
      forall t | t in stmts
        ensures StmtOk(t)
      {
        assert old(StmtOk(t));
      }
      forall e | e in descs
        ensures DescOk(e)
      {
        assert old(DescOk(e));
        if e == d {
          WithoutHas(old(d.stmts), s);
          assert forall x :: x in d.stmts ==> x in old(d.stmts);
        } else {
          assert e.stmts == old(e.stmts);
        }
        forall x | x in e.stmts
          ensures x in stmts && (x.apd == e || x.ard == e)
        {
          assert x in old(e.stmts);
        }
      }
    }

    /** The descriptor becomes the statement's, and learns of it. */
    method Attach(s: Stmt, role: Role, d: Desc)
      requires Valid() && s in stmts && s.Uses(role) == s.Own(role)
      requires d == s.Own(role) || d in descs
      requires d.descType == TypeFor(role) || d.descType == Unknown
      modifies s, d
      ensures Valid() && s.Uses(role) == d && (forall r :: r != role ==> s.Uses(r) == old(s.Uses(r)))
      ensures d.descType == TypeFor(role)
    {
      assert StmtOk(s);
      s.Use(role, d);
      d.descType := TypeFor(role);
      if d != s.Own(role) {
        d.stmts := d.stmts + [s];
      }
      assert d in descs ==> old(DescOk(d));
      forall t | t in stmts
        ensures StmtOk(t)
      {
        assert old(StmtOk(t));
        assert d in descs && (t.apd == d || t.ard == d) && t != s ==> t in old(d.stmts);
      }
      forall e | e in descs
        ensures DescOk(e)
      {
        assert old(DescOk(e));
        assert e == d ==> forall x :: x in d.stmts <==> x in old(d.stmts) || x == s;
      }
    }

    /** MADB_StmtSetStmtAttr for the two descriptor attributes. */
    method SetStmtAttr(s: Stmt, role: Role, d: Desc?) returns (ret: Return, state: string)
      requires Valid() && s in stmts && (d != null && d.appType ==> d in descs)
      modifies s, s.Uses(role)`stmts, if d == null then {} else {d}
      ensures Valid() && (forall r :: r != role ==> s.Uses(r) == old(s.Uses(r)))
      ensures ret.Error? <==> d != null && ((!d.appType && d != s.Own(role))
                                            || (old(d.descType) != TypeFor(role) && old(d.descType) != Unknown))
      ensures ret.Error? ==> s.Uses(role) == old(s.Uses(role)) && (d.appType || d == s.Own(role) ==> state == "HY024")
      ensures ret.Error? ==> (!d.appType && d != s.Own(role) ==> state == "HY017")
      ensures !ret.Error? ==> ret == Success && s.Uses(role) == (if d == null then s.Own(role) else d)
    {
      if d != null {
        if !d.appType && d != s.Own(role) {
          return Error, "HY017";
        }
        if d.descType != TypeFor(role) && d.descType != Unknown {
          return Error, "HY024";
        }
      }
      Detach(s, role);
      if d != null {
        Attach(s, role, d);
      }
      ret, state := Success, "00000";
    }

    /** The loop of MADB_DescFree over the statements of the descriptor. */
    method FallBack(d: Desc)
      requires Valid() && d in descs
      modifies d.stmts
      ensures forall s :: s in stmts ==> s.apd == if old(s.apd) == d then s.iapd else old(s.apd)
      ensures forall s :: s in stmts ==> s.ard == if old(s.ard) == d then s.iard else old(s.ard)
    {
      assert DescOk(d);
      var i := 0;
      while i < |d.stmts|
        invariant 0 <= i <= |d.stmts|
        invariant forall s :: s in stmts ==>
                    s.apd == if s in d.stmts[..i] && d.descType == Apd then s.iapd else old(s.apd)
        invariant forall s :: s in stmts ==>
                    s.ard == if s in d.stmts[..i] && d.descType == Ard then s.iard else old(s.ard)
      {
        var s := d.stmts[i];
        match d.descType {
          case Ard => s.Use(Row, s.iard);
          case Apd => s.Use(Param, s.iapd);
          case Unknown =>
        }
        assert forall x :: x in d.stmts[..i + 1] <==> x in d.stmts[..i] || x == s;
        i := i + 1;
      }
      assert d.stmts[..i] == d.stmts;
      forall s | s in stmts
        ensures s.apd == if old(s.apd) == d then s.iapd else old(s.apd)
        ensures s.ard == if old(s.ard) == d then s.iard else old(s.ard)
      {
        assert old(StmtOk(s));
      }
    }

    /** MADB_DescFree for an explicitly allocated descriptor: every statement falls back on its own. */
    method DescFree(d: Desc, recordsOnly: bool)
      requires Valid() && d in descs
      modifies this`descs, d`stmts, d.stmts
      ensures Valid() && d.stmts == [] && descs == if recordsOnly then old(descs) else old(descs) - {d}
      ensures forall s :: s in stmts ==> s.apd == if old(s.apd) == d then s.iapd else old(s.apd)
      ensures forall s :: s in stmts ==> s.ard == if old(s.ard) == d then s.iard else old(s.ard)
    {
      FallBack(d);
      d.stmts := [];
      if !recordsOnly {
        descs := descs - {d};
      }
      assert old(DescOk(d));
      forall t | t in stmts
        ensures StmtOk(t)
      {
        assert old(StmtOk(t));
      }
      forall e | e in descs
        ensures DescOk(e)
      {
        assert old(DescOk(e));
      }
    }

    /** SQLFreeStmt(SQL_UNBIND) and SQLFreeStmt(SQL_RESET_PARAMS) free the records of the descriptor in use. */
    method FreeRecords(s: Stmt, role: Role)
      requires Valid() && s in stmts
      modifies this`descs, s.Uses(role)`stmts, s.Uses(role).stmts
      ensures Valid() && descs == old(descs) && s.Uses(role) == s.Own(role)
      ensures var d := old(s.Uses(role)); d.appType ==> d.stmts == []
      ensures forall t :: t in stmts ==>
                t.apd == if old(t.apd) == old(s.Uses(role)) && old(t.apd).appType then t.iapd else old(t.apd)
      ensures forall t :: t in stmts ==>
                t.ard == if old(t.ard) == old(s.Uses(role)) && old(t.ard).appType then t.iard else old(t.ard)
    {
      var d := s.Uses(role);
      assert StmtOk(s);
      if d.appType {
        DescFree(d, true);
      }
    }

    /** What SQL_DROP does to a descriptor in use; one the statement owns goes with it. */
    method Forget(d: Desc, s: Stmt)
      requires d.appType ==> NoDuplicates(d.stmts)
      modifies d`stmts
      ensures d.appType ==> NoDuplicates(d.stmts) && (forall x :: x in d.stmts <==> x in old(d.stmts) && x != s)
      ensures !d.appType ==> d.stmts == old(d.stmts)
    {
      if d.appType {
        SkippingIsWithout(d.stmts, s);
        d.RemoveRef(s, true);
        WithoutHas(old(d.stmts), s);
      }
    }

    /** SQLFreeStmt(SQL_DROP) */
    method Drop(s: Stmt)
      requires Valid() && s in stmts
      modifies this`stmts, s.apd`stmts, s.ard`stmts
      ensures Valid() && stmts == old(stmts) - {s} && forall d :: d in descs ==> s !in d.stmts
    {
      assert StmtOk(s);
      assert s.apd.appType ==> DescOk(s.apd);
      assert s.ard.appType ==> DescOk(s.ard);
      Forget(s.apd, s);
      Forget(s.ard, s);
      stmts := stmts - {s};
      forall t | t in stmts
        ensures StmtOk(t)
      {
        assert old(StmtOk(t));
      }
      forall e | e in descs
        ensures DescOk(e)
      {
        assert old(DescOk(e));
      }
    }
  }
}
