/**
Data-at-execution parameters on the client-side path: SQLExecute, SQLParamData and
SQLPutData as a state machine over PutParam, Status and the buffers in the IPD records
(MADB_StmtExecute, MADB_StmtParamData, MADB_StmtPutData, MADB_CspsFreeDAE,
MADB_StmtBindParam).

One statement, one parameter set. How the bytes of a parameter become a literal, and
whether the server accepts the query, are parameters of the model.
*/
module DataAtExec {
  import opened Common
  import opened CString
  import C = ClientSide
  import T = Tokenizer

  /** The data-at-execution parameters before `k`, in order. */
  function DaeParams(dae: seq<bool>, k: int): seq<int>
    requires 0 <= k <= |dae|
  {
    if k == 0 then []
    else if dae[k - 1] then DaeParams(dae, k - 1) + [k - 1]
    else DaeParams(dae, k - 1)
  }

  /** Each of them once, in increasing order. */
  lemma {:induction false} DaeParamsOnce(dae: seq<bool>, k: int)
    requires 0 <= k <= |dae|
    ensures var r := DaeParams(dae, k);
            && (forall x :: x in r <==> 0 <= x < k && dae[x])
            && (forall i, j :: 0 <= i < j < |r| ==> r[i] < r[j])
  {
    if k > 0 {
      DaeParamsOnce(dae, k - 1);
      var rest := DaeParams(dae, k - 1);
      if dae[k - 1] {
        assert forall x :: x in rest + [k - 1] <==> x in rest || x == k - 1;
        assert forall i :: 0 <= i < |rest| ==> rest[i] in rest;
      }
    }
  }

  /** The first data-at-execution parameter from `from` on, or the number of parameters. */
  function NextDae(dae: seq<bool>, from: int): (i: int)
    requires 0 <= from <= |dae|
    ensures from <= i <= |dae| && (i < |dae| ==> dae[i]) && forall x :: from <= x < i ==> !dae[x]
    decreases |dae| - from
  {
    if from == |dae| || dae[from] then from else NextDae(dae, from + 1)
  }

  lemma {:induction false} NoMoreParams(dae: seq<bool>, j: int, k: int)
    requires 0 <= j <= k <= |dae| && forall x :: j <= x < k ==> !dae[x]
    ensures DaeParams(dae, k) == DaeParams(dae, j)
    decreases k
  {
    if j < k {
      NoMoreParams(dae, j, k - 1);
    }
  }

  /** What SQLParamData answers: the parameter it wants, or the outcome of the execution. */
  datatype Answer = Wants(param: int) | Done(ret: Return)

  /** MADB_InsertParam for each parameter, when PutParam is `put`. */
  function Pieces(dae: seq<bool>, bound: seq<C.Piece>, data: seq<string>, convert: (int, string) -> C.Piece, put: int)
    : (r: seq<C.Piece>)
    requires |dae| == |bound| == |data|
    ensures |r| == |dae|
  {
    seq(|dae|, i requires 0 <= i < |dae| =>
      if dae[i] then (if put >= |dae| then convert(i, data[i]) else C.Failure(NeedData)) else bound[i])
  }

  /** Nothing sent while a parameter is pending. */
  lemma PendingParam(dae: seq<bool>, bound: seq<C.Piece>, data: seq<string>,
                     convert: (int, string) -> C.Piece, put: int)
    requires |dae| == |bound| == |data| && put < |dae| && true in dae
    ensures var pieces := Pieces(dae, bound, data, convert, put);
            && !C.AllLiteral(pieces)
            && ((forall i :: 0 <= i < |dae| && !dae[i] ==> bound[i].Literal?) ==>
                  forall i :: 0 <= i < |dae| && !pieces[i].Literal? ==> C.ReturnOf(pieces[i]) == NeedData)
  {
    var d :| 0 <= d < |dae| && dae[d];
    assert Pieces(dae, bound, data, convert, put)[d] == C.Failure(NeedData);
  }

  function Texts(n: nat): (r: seq<string>)
    ensures |r| == n && forall i :: 0 <= i < n ==> r[i] == ""
  {
    seq(n, _ => "")
  }

  // ---------------------------------------------------------------------------------
  // The calls an application has made
  // ---------------------------------------------------------------------------------

  /** Calls that bear on the buffers: a chunk accepted, a close, a binding, and the end of a run or a reset. */
  datatype Event = Put(param: int, chunk: string) | Closed | Bound(param: int) | Ended

  /** Does the call empty the buffer of parameter `i`? */
  predicate Empties(e: Event, i: int) { e.Ended? || e == Bound(i) }

  /** The chunks in the buffer of parameter `i`: all since it was emptied. */
  function Stored(history: seq<Event>, i: int): seq<string> {
    if history == [] then []
    else
      var k := |history| - 1;
      if Empties(history[k], i) then []
      else if history[k].Put? && history[k].param == i then Stored(history[..k], i) + [history[k].chunk]
      else Stored(history[..k], i)
  }

  /** The chunks the application means parameter `i` to have: those since the run began. */
  function Given(history: seq<Event>, i: int): seq<string> {
    if history == [] then []
    else
      var k := |history| - 1;
      if Empties(history[k], i) || history[k].Closed? then []
      else if history[k].Put? && history[k].param == i then Given(history[..k], i) + [history[k].chunk]
      else Given(history[..k], i)
  }

  /** A chunk that is not empty was put for parameter `i` at call `a`, and nothing has emptied the buffer since. */
  ghost predicate Held(history: seq<Event>, i: int, a: int) {
    && 0 <= a < |history| && history[a].Put? && history[a].param == i && history[a].chunk != ""
    && forall x :: a < x < |history| ==> !Empties(history[x], i)
  }

  /** Such a chunk, and a close since. */
  ghost predicate Stale(history: seq<Event>, i: int) {
    exists a, b :: Held(history, i, a) && a < b < |history| && history[b].Closed?
  }

  lemma HeldMore(history: seq<Event>, i: int, a: int)
    requires history != [] && a < |history|
    ensures var k := |history| - 1;
            if a < k then Held(history, i, a) <==> Held(history[..k], i, a) && !Empties(history[k], i)
            else Held(history, i, a) <==> history[k].Put? && history[k].param == i && history[k].chunk != ""
  {
    var k := |history| - 1;
    if a < k && Held(history, i, a) {
      assert !Empties(history[k], i);
    }
  }

  /** The buffer holds something exactly when a chunk is held. */
  lemma {:induction false} StoredIff(history: seq<Event>, i: int)
    ensures Concat(Stored(history, i)) != "" <==> exists a :: Held(history, i, a)
  {
    if history != [] {
      var k := |history| - 1;
      StoredIff(history[..k], i);
      HeldMore(history, i, k);
      forall a | a < k
        ensures Held(history, i, a) <==> Held(history[..k], i, a) && !Empties(history[k], i)
      {
        HeldMore(history, i, a);
      }
      if history[k].Put? && history[k].param == i {
        ConcatMore(Stored(history[..k], i), history[k].chunk);
      }
      hide Held;
      assert (exists a :: Held(history, i, a)) <==> Held(history, i, k) || (exists a :: a < k && Held(history, i, a));
    }
  }

  lemma HeldInside(history: seq<Event>, i: int, a: int)
    requires Held(history, i, a)
    ensures 0 <= a < |history|
  {
  }

  lemma StaleMore(history: seq<Event>, i: int)
    requires history != []
    ensures var k := |history| - 1;
            Stale(history, i) <==> !Empties(history[k], i)
                                   && (Stale(history[..k], i)
                                       || (history[k].Closed? && exists a :: Held(history[..k], i, a)))
  {
    var k := |history| - 1;
    forall a | a < k
      ensures Held(history, i, a) <==> Held(history[..k], i, a) && !Empties(history[k], i)
    {
      HeldMore(history, i, a);
    }
    hide Held;
    if Stale(history, i) {
      var a, b :| Held(history, i, a) && a < b < |history| && history[b].Closed?;
      assert Held(history[..k], i, a);
      if b < k {
        assert history[..k][b].Closed?;
      }
    }
    if Stale(history[..k], i) && !Empties(history[k], i) {
      var a, b :| Held(history[..k], i, a) && a < b < k && history[..k][b].Closed?;
      assert Held(history, i, a) && history[b].Closed?;
    }
    if !Empties(history[k], i) && history[k].Closed? && exists a :: Held(history[..k], i, a) {
      var a :| Held(history[..k], i, a);
      HeldInside(history[..k], i, a);
      assert Held(history, i, a) && history[k].Closed?;
    }
  }

  lemma NotStaleAtFirst(i: int)
    ensures !Stale([], i)
  {
  }

  lemma SameEnd(a: string, b: string, c: string)
    ensures a + c == b + c <==> a == b
  {
    if a + c == b + c {
      assert a == (a + c)[..|a|] && b == (b + c)[..|b|];
    }
  }

  /**
  The buffer of parameter `i` holds something else than the chunks of this run if and only
  if a chunk that is not empty was put for it, then SQL_CLOSE called, and the parameter
  not bound, the parameters not reset and no run completed since.
  */
  lemma {:induction false} StaleIff(history: seq<Event>, i: int)
    ensures Concat(Stored(history, i)) != Concat(Given(history, i)) <==> Stale(history, i)
  {
    hide Held;
    if history == [] {
      NotStaleAtFirst(i);
    } else {
      var k := |history| - 1;
      hide Stale;
      StaleIff(history[..k], i);
      StaleMore(history, i);
      StoredIff(history[..k], i);
      if history[k].Put? && history[k].param == i {
        ConcatMore(Stored(history[..k], i), history[k].chunk);
        ConcatMore(Given(history[..k], i), history[k].chunk);
        SameEnd(Concat(Stored(history[..k], i)), Concat(Given(history[..k], i)), history[k].chunk);
      }
    }
  }

  // ---------------------------------------------------------------------------------
  // The statement
  // ---------------------------------------------------------------------------------

  /** A run: parameters up to `putParam` have been asked for, and the buffers hold what has been put. */
  ghost predicate Run(dae: seq<bool>, data: seq<string>, history: seq<Event>, putParam: int, visited: seq<int>) {
    && |dae| == |data| && -1 <= putParam < |dae|
    && (putParam >= 0 ==> dae[putParam]) && visited == DaeParams(dae, putParam + 1)
    && (forall i :: 0 <= i < |data| ==> data[i] == Concat(Stored(history, i)))
    && (forall i :: 0 <= i < |data| && !(i <= putParam && dae[i]) ==> Given(history, i) == [])
  }

  lemma StoredMore(history: seq<Event>, e: Event, i: int)
    ensures Stored(history + [e], i)
            == if Empties(e, i) then []
               else if e.Put? && e.param == i then Stored(history, i) + [e.chunk]
               else Stored(history, i)
    ensures Given(history + [e], i)
            == if Empties(e, i) || e.Closed? then []
               else if e.Put? && e.param == i then Given(history, i) + [e.chunk]
               else Given(history, i)
  {
    assert (history + [e])[..|history|] == history;
  }

  lemma RunEnded(dae: seq<bool>, history: seq<Event>)
    ensures Run(dae, Texts(|dae|), history + [Ended], -1, [])
  {
    forall i | 0 <= i < |dae| {
      StoredMore(history, Ended, i);
    }
  }

  lemma RunClosed(dae: seq<bool>, data: seq<string>, history: seq<Event>, putParam: int, visited: seq<int>)
    requires Run(dae, data, history, putParam, visited)
    ensures Run(dae, data, history + [Closed], -1, [])
  {
    forall i | 0 <= i < |dae| {
      StoredMore(history, Closed, i);
    }
  }

  lemma RunBound(dae: seq<bool>, data: seq<string>, history: seq<Event>, visited: seq<int>, p: nat, isDae: bool)
    requires Run(dae, data, history, -1, visited) && p < |dae|
    ensures Run(dae[p := isDae], data[p := ""], history + [Bound(p)], -1, visited)
  {
    forall i | 0 <= i < |dae| {
      StoredMore(history, Bound(p), i);
    }
  }

  lemma RunNext(dae: seq<bool>, data: seq<string>, history: seq<Event>, putParam: int, visited: seq<int>)
    requires Run(dae, data, history, putParam, visited)
    ensures 0 <= putParam + 1 <= |dae|
    ensures var next := NextDae(dae, putParam + 1);
            if next < |dae| then Run(dae, data, history, next, visited + [next])
            else visited == DaeParams(dae, |dae|)
  {
    NoMoreParams(dae, putParam + 1, NextDae(dae, putParam + 1));
  }

  lemma RunChunk(dae: seq<bool>, data: seq<string>, history: seq<Event>, p: int, visited: seq<int>, chunk: string)
    requires Run(dae, data, history, p, visited) && p >= 0
    ensures Run(dae, data[p := data[p] + chunk], history + [Put(p, chunk)], p, visited)
  {
    hide Concat, DaeParams, Stored, Given;
    forall i | 0 <= i < |dae| {
      StoredMore(history, Put(p, chunk), i);
    }
    ConcatMore(Stored(history, p), chunk);
  }

  /** What the application passes to SQLPutData. */
  datatype Argument =
    | Data(chunk: string)
    | NullData                    // SQL_NULL_DATA
    | NoPointer                   // a NULL pointer and a length other than 0
    | BadLength                   // a negative length that means nothing

  class Statement {
    const text: string
    const positions: seq<int>
    const convert: (int, string) -> C.Piece

    var dae: seq<bool>            // bound with SQL_DATA_AT_EXEC or SQL_LEN_DATA_AT_EXEC
    var strings: seq<bool>        // character or binary parameters
    var bound: seq<C.Piece>       // the others, as MADB_InsertParam writes them

    var putParam: int
    var needData: bool            // Status == SQL_NEED_DATA
    var data: seq<string>         // DataPtr and InternalLength of the IPD records
    var sent: seq<string>         // the queries sent to the server

    ghost var visited: seq<int>         // the parameters asked for in this run
    ghost var history: seq<Event>       // the calls made

    ghost predicate Valid()
      reads this
    {
      && |dae| == |strings| == |bound| == |data| == |positions|
      && C.Marks(positions, 0, StrChr(text, T.NUL, 0))
      && -1 <= putParam < |positions| && (needData <==> putParam >= 0)
      && Run(dae, data, history, putParam, visited)
    }

    /** Nothing pending, nothing stored. */
    ghost predicate Idle()
      reads this
    {
      putParam == -1 && !needData && visited == [] && data == Texts(|positions|)
    }

    constructor (text: string, positions: seq<int>, convert: (int, string) -> C.Piece)
      requires C.Marks(positions, 0, StrChr(text, T.NUL, 0))
      ensures Valid() && Idle() && sent == [] && history == []
      ensures this.text == text && this.positions == positions && this.convert == convert
    {
      this.text, this.positions, this.convert := text, positions, convert;
      dae, strings := seq(|positions|, _ => false), seq(|positions|, _ => true);
      bound, data := seq(|positions|, _ => C.Unbound), Texts(|positions|);
      putParam, needData, sent := -1, false, [];
      visited, history := [], [];
    }

    /** MADB_StmtBindParam, which an application may call between runs. */
    method Bind(i: nat, isDae: bool, isString: bool, piece: C.Piece)
      requires Valid() && putParam == -1 && i < |positions|
      modifies this`dae, this`strings, this`bound, this`data, this`history
      ensures Valid() && dae == old(dae)[i := isDae] && strings == old(strings)[i := isString]
      ensures bound == old(bound)[i := piece] && data == old(data)[i := ""] && history == old(history) + [Bound(i)]
    {
      hide StrChr, Run;
      RunBound(dae, data, history, visited, i, isDae);
      data := data[i := ""];
      dae, strings, bound := dae[i := isDae], strings[i := isString], bound[i := piece];
      history := history + [Bound(i)];
    }

    /** The query that MADB_InsertParams builds, or why it does not. */
    ghost predicate Built(pieces: seq<C.Piece>, before: seq<string>, after: seq<string>, accepts: bool, ret: Return)
      requires |pieces| == |positions| && C.Marks(positions, 0, StrChr(text, T.NUL, 0))
    {
      if C.AllLiteral(pieces) then
        && after == before + [C.Splice(text, 0, StrChr(text, T.NUL, 0), positions, C.Lits(pieces))]
        && ret == if accepts then Success else Error
      else
        && after == before
        && exists i :: 0 <= i < |pieces| && !pieces[i].Literal? && C.AllLiteral(pieces[..i])
                       && ret == C.ReturnOf(pieces[i])
    }

    /** MADB_StmtExecute when PutParam is `put`. */
    method RunQuery(put: int, accepts: bool) returns (ret: Return)
      requires |dae| == |bound| == |data| == |positions| && C.Marks(positions, 0, StrChr(text, T.NUL, 0))
      modifies this`sent
      ensures Built(Pieces(dae, bound, data, convert, put), old(sent), sent, accepts, ret)
    {
      hide StrChr, Pieces;
      var pieces := Pieces(dae, bound, data, convert, put);
      assert positions[0..|positions|] == positions;
      var r := C.InsertParams(text, 0, positions, 0, |positions|, pieces);
      if r.NotBuilt? {
        return r.ret;
      }
      sent := sent + [r.text];
      ret := if accepts then Success else Error;
    }

    /** SQLExecute: with a data-at-execution parameter nothing is sent. */
    method Execute(accepts: bool) returns (ret: Return)
      requires Valid()
      modifies this`sent
      ensures Valid()
      ensures Built(Pieces(dae, bound, data, convert, putParam), old(sent), sent, accepts, ret)
      ensures true in dae ==> sent == old(sent)
      ensures true in dae && (forall i :: 0 <= i < |dae| && !dae[i] ==> bound[i].Literal?) ==> ret == NeedData
    {
      hide StrChr, Pieces, Run;
      ret := RunQuery(putParam, accepts);
      if true in dae {
        PendingParam(dae, bound, data, convert, putParam);
      }
    }

    /** MADB_CspsFreeDAE */
    method FreeDae()
      modifies this`data
      ensures data == Texts(|old(data)|)
    {
      for i := 0 to |data|
        invariant |data| == |old(data)| && forall k :: 0 <= k < i ==> data[k] == ""
      {
        data := data[i := ""];
      }
    }

    /** RESET_DAE_STATUS and MADB_CspsFreeDAE */
    method Reset()
      requires |dae| == |data| == |positions|
      modifies this`putParam, this`needData, this`data, this`visited, this`history
      ensures Idle() && history == old(history) + [Ended] && Run(dae, data, history, putParam, visited)
    {
      hide Texts, Run;
      putParam, needData := -1, false;
      FreeDae();
      RunEnded(dae, history);
      visited, history := [], history + [Ended];
    }

    /** The loop of MADB_StmtParamData. */
    method FindNext(from: int) returns (i: int)
      requires 0 <= from <= |dae| == |positions|
      ensures i == NextDae(dae, from)
    {
      i := from;
      while i < |positions| && !dae[i]
        invariant from <= i <= |positions| && NextDae(dae, from) == NextDae(dae, i)
      {
        i := i + 1;
      }
    }

    /** MADB_StmtParamData */
    method ParamData(accepts: bool) returns (a: Answer)
      requires Valid()
      modifies this
      ensures Valid() && dae == old(dae) && strings == old(strings) && bound == old(bound)
      ensures |dae| == 0 ==> a == Done(Error) && sent == old(sent) && history == old(history)
      ensures var next := NextDae(old(dae), old(putParam) + 1);
              if next < |dae| then
                && a == Wants(next) && putParam == next && visited == old(visited) + [next]
                && sent == old(sent) && data == old(data) && history == old(history)
              else
                && a.Done? && old(visited) == DaeParams(dae, |dae|)
                && (|dae| > 0 ==>
                      && Idle() && history == old(history) + [Ended]
                      && Built(Pieces(dae, bound, old(data), convert, |dae|), old(sent), sent, accepts, a.ret))
    {
      hide StrChr, Pieces, Run, DaeParams, NextDae;
      RunNext(dae, data, history, putParam, visited);
      if |positions| == 0 {
        return Done(Error);
      }
      var i := FindNext(putParam + 1);
      if i < |positions| {
        putParam, needData := i, true;
        visited := visited + [i];
        return Wants(i);
      }
      putParam, needData := |positions|, false;
      var ret := RunQuery(putParam, accepts);
      Reset();
      a := Done(ret);
    }

    /**
    MADB_StmtPutData for the parameter SQLParamData asked for. The check against a NULL
    behind data looks at a length that nothing sets, so SQL_NULL_DATA is always accepted,
    and nothing of it reaches the query.
    */
    method PutData(arg: Argument) returns (ret: Return)
      requires Valid() && needData
      modifies this`data, this`history
      ensures Valid()
      ensures ret == Success || (ret == Error && data == old(data) && history == old(history))
      ensures ret == Error <==> arg.NoPointer? || arg.BadLength?
                                || (arg.Data? && old(data)[putParam] != "" && !strings[putParam])
      ensures ret == Success ==>
                if arg.Data? then
                  && data == old(data)[putParam := old(data)[putParam] + arg.chunk]
                  && history == old(history) + [Put(putParam, arg.chunk)]
                else data == old(data) && history == old(history)
    {
      hide StrChr, Run;
      match arg {
        case BadLength => return Error;
        case NullData => return Success;
        case NoPointer => return Error;
        case Data(chunk) =>
          RunChunk(dae, data, history, putParam, visited, chunk);
          var i := putParam;
          if data[i] == "" {
            assert data[i] + chunk == chunk;
            data := data[i := chunk];
          } else if !strings[i] {
            return Error;
          } else {
            data := data[i := data[i] + chunk];
          }
          history := history + [Put(i, chunk)];
          ret := Success;
      }
    }

    /** SQLFreeStmt(SQL_CLOSE): the run is given up, the buffers stay. */
    method Close()
      requires Valid()
      modifies this`putParam, this`needData, this`visited, this`history
      ensures Valid() && putParam == -1 && history == old(history) + [Closed]
    {
      hide StrChr, Run;
      RunClosed(dae, data, history, putParam, visited);
      putParam, needData := -1, false;
      visited, history := [], history + [Closed];
    }

    /** SQLFreeStmt(SQL_RESET_PARAMS) */
    method ResetParams()
      requires Valid()
      modifies this
      ensures Valid() && Idle() && sent == old(sent) && history == old(history) + [Ended]
      ensures dae == seq(|positions|, _ => false) && bound == seq(|positions|, _ => C.Unbound)
    {
      hide StrChr, Run;
      dae, bound := seq(|positions|, _ => false), seq(|positions|, _ => C.Unbound);
      Reset();
    }
  }

  // ---------------------------------------------------------------------------------
  // Whole runs
  // ---------------------------------------------------------------------------------

  /** What the server is meant to get: for each pending parameter its chunks, joined. */
  function Intended(dae: seq<bool>, bound: seq<C.Piece>, chunks: seq<seq<string>>, convert: (int, string) -> C.Piece)
    : (r: seq<C.Piece>)
    requires |dae| == |bound| == |chunks|
    ensures |r| == |dae|
  {
    seq(|dae|, i requires 0 <= i < |dae| => if dae[i] then convert(i, Concat(chunks[i])) else bound[i])
  }

  /** The chunks given in this run, parameter by parameter. */
  function GivenAll(history: seq<Event>, n: nat): (r: seq<seq<string>>)
    ensures |r| == n
  {
    seq(n, i requires 0 <= i < n => Given(history, i))
  }

  /** Different bytes make different literals. */
  ghost predicate OneToOne(convert: (int, string) -> C.Piece) {
    forall i, x, y :: convert(i, x) == convert(i, y) ==> x == y
  }

  ghost predicate NoneStale(dae: seq<bool>, history: seq<Event>) {
    forall i :: 0 <= i < |dae| && dae[i] ==> !Stale(history, i)
  }

  /** What is sent at the end of a run is what was meant, if and only if no pending parameter is stale. */
  lemma SendsWhatWasGivenIff(dae: seq<bool>, bound: seq<C.Piece>, data: seq<string>, history: seq<Event>,
                             putParam: int, visited: seq<int>, convert: (int, string) -> C.Piece)
    requires Run(dae, data, history, putParam, visited) && |bound| == |dae|
    ensures NoneStale(dae, history) ==>
              Pieces(dae, bound, data, convert, |dae|) == Intended(dae, bound, GivenAll(history, |dae|), convert)
    ensures OneToOne(convert) && Pieces(dae, bound, data, convert, |dae|)
                                 == Intended(dae, bound, GivenAll(history, |dae|), convert) ==>
              NoneStale(dae, history)
  {
    hide Stale, Concat, Stored, Given, DaeParams;
    var pieces := Pieces(dae, bound, data, convert, |dae|);
    var meant := Intended(dae, bound, GivenAll(history, |dae|), convert);
    forall i | 0 <= i < |dae| && dae[i]
      ensures pieces[i] == convert(i, data[i]) && meant[i] == convert(i, Concat(Given(history, i)))
      ensures !Stale(history, i) <==> data[i] == Concat(Given(history, i))
    {
      StaleIff(history, i);
    }
  }

  lemma OnePiece(dae: seq<bool>, bound: seq<C.Piece>, data: seq<string>, convert: (int, string) -> C.Piece)
    requires |dae| == |bound| == |data| == 1 && dae == [true]
    ensures Pieces(dae, bound, data, convert, 1) == [convert(0, data[0])]
  {
  }

  /** A statement with one parameter, character data at execution. */
  ghost predicate Single(s: Statement)
    reads s
  {
    s.Valid() && |s.positions| == 1 && s.dae == [true] && s.strings == [true]
  }

  /** The parameter is asked for and given one chunk. */
  method GiveOne(s: Statement, chunk: string)
    requires Single(s) && s.putParam == -1
    modifies s
    ensures Single(s) && s.putParam == 0 && s.data[0] == old(s.data[0]) + chunk && s.sent == old(s.sent)
    ensures s.history == old(s.history) + [Put(0, chunk)]
  {
    hide StrChr, Run, DaeParams;
    assert NextDae([true], 0) == 0;
    var a := s.ParamData(true);
    var ret := s.PutData(Data(chunk));
  }

  /** The query is sent. */
  method SendOne(s: Statement) returns (ret: Return)
    requires Single(s) && s.putParam == 0
    modifies s
    ensures Single(s) && s.history == old(s.history) + [Ended]
    ensures s.Built([s.convert(0, old(s.data[0]))], old(s.sent), s.sent, true, ret)
  {
    hide StrChr, Run, DaeParams, Pieces;
    assert NextDae([true], 1) == 1;
    OnePiece(s.dae, s.bound, s.data, s.convert);
    var a := s.ParamData(true);
    ret := a.ret;
  }

  /** Abandoned by SQL_CLOSE after a chunk, the next run sends that chunk too. */
  method CloseLeavesChunks(s: Statement) returns (ret: Return)
    requires Single(s) && s.Idle()
    modifies s
    ensures Single(s) && s.history == old(s.history) + [Put(0, "a"), Closed, Put(0, "b"), Ended]
    ensures s.Built([s.convert(0, "ab")], old(s.sent), s.sent, true, ret)
  {
    hide StrChr, Run, DaeParams;
    GiveOne(s, "a");
    s.Close();
    GiveOne(s, "b");
    assert "" + "a" + "b" == "ab";
    ret := SendOne(s);
  }

  /** Bound anew in between, it does not. */
  method BindDropsChunks(s: Statement, piece: C.Piece) returns (ret: Return)
    requires Single(s) && s.Idle()
    modifies s
    ensures Single(s) && s.history == old(s.history) + [Put(0, "a"), Closed, Bound(0), Put(0, "b"), Ended]
    ensures s.Built([s.convert(0, "b")], old(s.sent), s.sent, true, ret)
  {
    hide StrChr, Run, DaeParams;
    GiveOne(s, "a");
    s.Close();
    s.Bind(0, true, true, piece);
    GiveOne(s, "b");
    assert "" + "b" == "b";
    ret := SendOne(s);
  }

  /** The application's side of parameter `i`: all chunks it has for it. */
  method GiveChunks(s: Statement, give: seq<string>)
    requires s.Valid() && s.needData && s.data[s.putParam] == "" && (!s.strings[s.putParam] ==> |give| <= 1)
    modifies s`data, s`history
    ensures s.Valid() && s.data == old(s.data)[s.putParam := Concat(give)]
  {
    hide StrChr, Run;
    assert give[..0] == [];
    for k := 0 to |give|
      invariant s.Valid() && s.data == old(s.data)[s.putParam := Concat(give[..k])]
    {
      ConcatMore(give[..k], give[k]);
      assert give[..k + 1] == give[..k] + [give[k]];
      var ret := s.PutData(Data(give[k]));
    }
    assert give[..|give|] == give;
  }

  /** Parameters up to `last` have their chunks in the buffer, the others nothing. */
  ghost predicate Filled(s: Statement, give: seq<seq<string>>, last: int)
    reads s
  {
    && |give| == |s.data| == |s.dae|
    && forall i :: 0 <= i < |give| ==> s.data[i] == if i <= last && s.dae[i] then Concat(give[i]) else ""
  }

  lemma PendingIs(dae: seq<bool>, data: seq<string>, history: seq<Event>, putParam: int, visited: seq<int>)
    requires Run(dae, data, history, putParam, visited)
    ensures putParam >= 0 ==> dae[putParam]
  {
  }

  lemma FilledPieces(dae: seq<bool>, bound: seq<C.Piece>, data: seq<string>, give: seq<seq<string>>,
                     convert: (int, string) -> C.Piece)
    requires |dae| == |bound| == |data| == |give| && forall i :: 0 <= i < |dae| && dae[i] ==> data[i] == Concat(give[i])
    ensures Pieces(dae, bound, data, convert, |dae|) == Intended(dae, bound, give, convert)
  {
  }

  /** The application gives its chunks for one parameter and goes on to the next. */
  method AnswerOne(s: Statement, give: seq<seq<string>>, accepts: bool) returns (a: Answer)
    requires s.Valid() && s.needData && Filled(s, give, s.putParam - 1)
    requires forall i :: 0 <= i < |give| && s.dae[i] && !s.strings[i] ==> |give[i]| <= 1
    modifies s
    ensures s.Valid() && s.dae == old(s.dae) && s.bound == old(s.bound) && s.strings == old(s.strings)
    ensures a.Wants? ==> a.param == s.putParam > old(s.putParam) && Filled(s, give, s.putParam - 1)
                         && s.visited == old(s.visited) + [a.param] && s.sent == old(s.sent)
    ensures a.Done? ==> s.Idle() && old(s.visited) == DaeParams(s.dae, |s.dae|)
                        && s.Built(Intended(s.dae, s.bound, give, s.convert), old(s.sent), s.sent, accepts, a.ret)
  {
    hide StrChr, Run, DaeParams, NextDae, Pieces, Intended, Concat;
    PendingIs(s.dae, s.data, s.history, s.putParam, s.visited);
    GiveChunks(s, give[s.putParam]);
    if NextDae(s.dae, s.putParam + 1) == |s.dae| {
      FilledPieces(s.dae, s.bound, s.data, give, s.convert);
    }
    a := s.ParamData(accepts);
  }

  /**
  A whole run: the application answers every request with its chunks. Every pending
  parameter is asked for once, in order; one query is sent, carrying all chunks; nothing
  is left for the next execution.
  */
  method RunWithData(s: Statement, give: seq<seq<string>>, accepts: bool) returns (asked: seq<int>, ret: Return)
    requires s.Valid() && s.Idle() && |give| == |s.dae| && true in s.dae
    requires forall i :: 0 <= i < |give| && s.dae[i] && !s.strings[i] ==> |give[i]| <= 1
    modifies s
    ensures s.Valid() && s.Idle() && s.dae == old(s.dae) && s.bound == old(s.bound)
    ensures asked == DaeParams(s.dae, |s.dae|)
    ensures s.Built(Intended(s.dae, s.bound, give, s.convert), old(s.sent), s.sent, accepts, ret)
  {
    hide StrChr, Run, DaeParams, NextDae, Pieces, Intended, Concat;
    ret := s.Execute(accepts);
    asked := [];
    var a := s.ParamData(accepts);
    while a.Wants?
      invariant s.Valid() && s.dae == old(s.dae) && s.bound == old(s.bound) && s.strings == old(s.strings)
      invariant a.Wants? ==> a.param == s.putParam >= 0 && Filled(s, give, s.putParam - 1)
                             && asked + [a.param] == s.visited && s.sent == old(s.sent)
      invariant a.Done? ==> s.Idle() && asked == DaeParams(s.dae, |s.dae|)
                            && s.Built(Intended(s.dae, s.bound, give, s.convert), old(s.sent), s.sent, accepts, a.ret)
      decreases a.Wants?, |s.dae| - s.putParam
    {
      asked := asked + [a.param];
      a := AnswerOne(s, give, accepts);
    }
    ret := a.ret;
  }
}
