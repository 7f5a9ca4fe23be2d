/**
The block cursor of MADB_StmtFetchScroll and MADB_StmtFetch.

Three layers are related here:
- `Statement` is the driver's own code.  It moves the client library's row pointer with
  row_tell, row_seek, data_seek and fetch, and reads the first row of a scrollable
  rowset last.
- `Step` is the cursor an application sees: a rowset start and the number of rows in it.
  It mentions neither the library pointer nor the remembered `Cursor.Next`.
- `OdbcStart` is the table "Cursor Positioning Rules" of SQLFetchScroll in the ODBC
  Programmer's Reference.
*/
module BlockCursor {
  import opened Common

  datatype Orientation = Next | Prior | Relative | Absolute | First | Last | Other

  /** One SQLFetchScroll call; `size` is SQL_ATTR_ROW_ARRAY_SIZE at that moment. */
  datatype Call = Call(orientation: Orientation, offset: int, size: nat)

  datatype Outcome =
    | Rowset(start: nat, count: nat)  // SQL_SUCCESS with `count` rows, from result row `start`
    | Untouched                       // SQL_SUCCESS for a row array of size 0
    | NoRowset                        // SQL_NO_DATA
    | Rejected                        // SQLSTATE HY106

  datatype RowStatus = RowSuccess | NoRow

  /** The cast (SQLINTEGER)ArraySize. */
  function AsInt32(x: nat): int {
    var m := x % 0x1_0000_0000;
    if m >= 0x8000_0000 then m - 0x1_0000_0000 else m
  }

  // ---------------------------------------------------------------------------------
  // The cursor an application sees
  // ---------------------------------------------------------------------------------

  /**
  `pos` is -1 before the first row and n after the last; `last` is LastRowFetched.  NEXT
  reads `drift` rows behind the row it positions on; a call with array size 0 moves the
  position and not the library, and makes it drift.  `fixed` says that the library holds
  the place NEXT reads from; otherwise it is sought anew from the position.
  */
  datatype View = View(pos: int, last: nat, drift: nat, fixed: bool)

  const INITIAL := View(-1, 0, 0, false)

  /** Where no NEXT will read a row, the library's place is of no concern. */
  function Settled(n: nat, pos: int, last: nat, drift: nat, fixed: bool): View {
    if 0 <= pos && pos + last < n then View(pos, last, drift, fixed) else View(pos, last, 0, false)
  }

  /** The row, counted from 0, at which the requested rowset would start. */
  function Target(n: nat, v: View, c: Call): int {
    match c.orientation
    case Next => if v.pos < 0 then 0 else v.pos + v.last
    case Prior => if v.pos < 0 then -1 else v.pos - Max(1, c.size)
    case Relative =>
      var p := v.pos + c.offset;
      if p < 0 && v.pos > 0 && -c.offset <= AsInt32(c.size) then 0 else p
    case Absolute =>
      if c.offset < 0 then
        if n - 1 + c.offset < 0 && -c.offset <= c.size then 0 else n + c.offset
      else c.offset - 1
    case First => 0
    case Last => n - Max(1, c.size)
    case Other => 0
  }

  /** How far behind its target the call reads. */
  function Lag(v: View, c: Call): nat { if c.orientation == Next && v.pos >= 0 then v.drift else 0 }

  /** The place NEXT reads from after a call with array size 0 that positions on row `t`. */
  function Skipped(n: nat, v: View, c: Call, t: nat): View {
    if c.orientation == Next && v.pos >= 0 then
      Settled(n, t, v.last, if v.fixed then v.drift + v.last else 0, v.fixed)
    else if v.last > 1 then Settled(n, t, v.last, 0, false)
    else Settled(n, t, v.last, v.last, true)
  }

  /** A view the driver can be in: NEXT reads no row before the first. */
  predicate Sound(v: View) { (v.pos >= 0 ==> v.drift <= v.pos + v.last) && (!v.fixed ==> v.drift == 0) }

  function Step(n: nat, v: View, c: Call): (r: (View, Outcome))
    requires Sound(v)
    ensures Sound(r.0)
    ensures r.1.Rowset? ==>
              && c.size >= 1
              && r.1.start == Target(n, v, c) - Lag(v, c)
              && 1 <= r.1.count == Min(c.size, n - Target(n, v, c))
              && r.0.pos == Target(n, v, c) && r.0.last == r.1.count
  {
    var t := Target(n, v, c);
    if c.orientation == Other then (if v.last > 1 then Settled(n, v.pos, v.last, 0, false) else v, Rejected)
    else if t < 0 then (View(-1, v.last, 0, false), NoRowset)
    else if t >= n then
      (View(n, v.last, 0, false), if n == 0 && c.size == 0 && c.orientation == Next then Untouched else NoRowset)
    else if c.size == 0 then (Skipped(n, v, c, t), Untouched)
    else
      var count := Min(c.size, n - t);
      (Settled(n, t, count, Lag(v, c), true), Rowset(t - Lag(v, c), count))
  }

  function After(n: nat, v: View, calls: seq<Call>): (r: View)
    requires Sound(v)
    ensures Sound(r)
  {
    if calls == [] then v else Step(n, After(n, v, calls[..|calls| - 1]), calls[|calls| - 1]).0
  }

  function Trace(n: nat, v: View, calls: seq<Call>): (t: seq<Outcome>)
    requires Sound(v)
    ensures |t| == |calls|
  {
    if calls == [] then []
    else
      var rest := calls[..|calls| - 1];
      Trace(n, v, rest) + [Step(n, After(n, v, rest), calls[|calls| - 1]).1]
  }

  // ---------------------------------------------------------------------------------
  // The driver's code
  // ---------------------------------------------------------------------------------

  function RowsOf(o: Outcome): nat { if o.Rowset? then o.count else 0 }

  /** What a streaming cursor answers to NEXT, `consumed` rows having been read. */
  function StreamOutcome(n: nat, consumed: nat, size: nat): Outcome {
    if size == 0 then Untouched else if consumed < n then Rowset(consumed, Min(size, n - consumed)) else NoRowset
  }

  /** The rows an outcome stands for. */
  function Delivered<Row>(rows: seq<Row>, o: Outcome): seq<Row> {
    if o.Rowset? && o.start + o.count <= |rows| then rows[o.start..o.start + o.count] else []
  }

  function DeliveredBy<Row>(rows: seq<Row>, trace: seq<Outcome>): seq<seq<Row>> {
    seq(|trace|, i requires 0 <= i < |trace| => Delivered(rows, trace[i]))
  }

  lemma DeliveredOneMore<Row>(rows: seq<Row>, trace: seq<Outcome>, o: Outcome)
    ensures DeliveredBy(rows, trace + [o]) == DeliveredBy(rows, trace) + [Delivered(rows, o)]
  {
  }

  lemma NoCalls<Row>(rows: seq<Row>, v: View, calls: seq<Call>)
    requires Sound(v)
    ensures Trace(|rows|, v, calls[..0]) == [] && After(|rows|, v, calls[..0]) == v && DeliveredBy(rows, []) == []
  {
  }

  lemma TraceOneMore(n: nat, v: View, calls: seq<Call>, i: nat)
    requires i < |calls| && Sound(v)
    ensures var step := Step(n, After(n, v, calls[..i]), calls[i]);
            && Trace(n, v, calls[..i + 1]) == Trace(n, v, calls[..i]) + [step.1]
            && After(n, v, calls[..i + 1]) == step.0
  {
    assert calls[..i + 1][..i] == calls[..i];
  }

  /**
  The statement fields the fetch path reads and writes.  A row pointer of the client
  library is an index into `rows`; the NULL pointer is |rows|, both for the library's
  result_cursor and for a forgotten `Cursor.Next`.
  */
  class Statement<Row> {
    const rows: seq<Row>
    const scrollable: bool          // CursorType != SQL_CURSOR_FORWARD_ONLY
    const noCache: bool             // NO_CACHE(Stmt): forward-only, rows streamed from the server
    var position: int               // Cursor.Position
    var lastRowFetched: nat
    var next: nat                   // Cursor.Next
    var lib: nat                    // stmt->result_cursor
    var slots: seq<Row>             // the application's bound row buffers
    var status: seq<RowStatus>      // its row status array

    /** NEXT seeks to Cursor.Next, or where it is forgotten to the new position. */
    function Seeks(): bool
      reads this
    {
      scrollable && lastRowFetched > 1
    }

    /** The row a NEXT would read first. */
    function NextRow(): int
      reads this
    {
      if !Seeks() then lib else if next == |rows| then position + lastRowFetched else next
    }

    /** How position, rowset size, Cursor.Next and the library pointer stay in step. */
    ghost predicate Valid()
      reads this
    {
      && (noCache ==> !scrollable)
      && next <= |rows| && lib <= |rows|
      && if noCache then
           && -1 <= position <= 0
           && lastRowFetched <= lib
           && (position == -1 ==> lib == 0)
           && (position == 0 && lastRowFetched == 0 ==> lib == |rows|)
         else
           && -1 <= position <= |rows|
           && (position == -1 ==> lib == 0 && next == |rows| && (!scrollable ==> lastRowFetched == 0))
           && (0 <= position && position + lastRowFetched < |rows| ==> NextRow() <= position + lastRowFetched)
           && (rows == [] ==> lastRowFetched == 0)
    }

    constructor (rows: seq<Row>, scrollable: bool, noCache: bool, slots: seq<Row>, status: seq<RowStatus>)
      requires noCache ==> !scrollable
      ensures Valid()
      ensures this.rows == rows && this.scrollable == scrollable && this.noCache == noCache
      ensures this.slots == slots && this.status == status
      ensures position == -1 && lastRowFetched == 0
    {
      this.rows, this.scrollable, this.noCache := rows, scrollable, noCache;
      this.slots, this.status := slots, status;
      position, lastRowFetched, next, lib := -1, 0, |rows|, 0;
    }

    function AsView(): View
      reads this
      requires Valid() && !noCache
      ensures Sound(AsView())
    {
      if 0 <= position && position + lastRowFetched < |rows| then
        View(position, lastRowFetched, position + lastRowFetched - NextRow(), !(Seeks() && next == |rows|))
      else View(position, lastRowFetched, 0, false)
    }

    /** MADB_RowsToFetch */
    function RowsToFetch(size: nat): nat
      reads this
    {
      var p := if position >= 0 then position else 0;
      if p + size > |rows| then
        if |rows| > p then |rows| - p else 1
      else size
    }

    /** MADB_StmtDataSeek: fails when the stored result holds no row. */
    method DataSeek(offset: nat) returns (ok: bool)
      modifies this`lib
      ensures ok <==> rows != []
      ensures ok ==> lib == Min(offset, |rows|)
      ensures !ok ==> lib == old(lib)
    {
      if rows == [] {
        return false;
      }
      lib := Min(offset, |rows|);
      return true;
    }

    /** The library's fetch into slot `rowNum`, and the bookkeeping that follows it. */
    method FetchRow(rowNum: nat) returns (fetched: bool)
      requires rowNum < |slots| && rowNum < |status|
      requires lib <= |rows|
      modifies this`lib, this`position, this`lastRowFetched, this`slots, this`status
      ensures fetched <==> old(lib) < |rows|
      ensures position == Max(old(position), 0)
      ensures fetched ==>
                && lib == old(lib) + 1
                && lastRowFetched == old(lastRowFetched) + 1
                && slots == old(slots)[rowNum := rows[old(lib)]]
                && status == old(status)[rowNum := RowSuccess]
      ensures !fetched ==>
                && lib == old(lib) && lastRowFetched == old(lastRowFetched)
                && slots == old(slots) && status == old(status)
    {
      fetched := lib < |rows|;
      if fetched {
        slots := slots[rowNum := rows[lib]];
        lib := lib + 1;
      }
      if position < 0 {
        position := 0;
      }
      if fetched {
        lastRowFetched := lastRowFetched + 1;
        status := status[rowNum := RowSuccess];
      }
    }

    /** MADB_InitStatusPtr */
    method InitStatus(size: nat)
      requires size <= |status|
      modifies this`status
      ensures status == seq(size, _ => NoRow) + old(status)[size..]
    {
      for i := 0 to size
        invariant |status| == |old(status)|
        invariant forall x :: 0 <= x < |status| ==> status[x] == if x < i then NoRow else old(status)[x]
      {
        status := status[i := NoRow];
      }
    }

    /** Fields after `j` rounds of the fetch loop. */
    ghost predicate LoopState(position0: int, next0: nat, start: nat, save: nat, wanted: nat, j: nat)
      reads this
    {
      var avail := Min(wanted, |rows| - start);
      var saved := save != |rows|;
      && start <= |rows|
      && (saved <==> wanted > 1 && scrollable)
      && (saved ==> save == start && start + wanted <= |rows|)
      && lastRowFetched == Min(j, avail)
      && position == (if j == 0 then position0 else Max(position0, 0))
      && next == (if saved && j == wanted then start + wanted else next0)
      && lib == (if !saved then start + Min(j, avail) else if j == wanted then start + 1 else start + 1 + j)
    }

    /** Slots already read after `done` rounds of the fetch loop. */
    static ghost predicate Done(saved: bool, wanted: nat, done: nat, x: nat) {
      if saved then (1 <= x <= done && x < wanted) || (x == 0 && done == wanted) else x < done
    }

    ghost predicate SlotIs(slots: seq<Row>, status: seq<RowStatus>, start: nat, x: nat, read: bool) {
      && x < |slots| && x < |status|
      && if read then start + x < |rows| && slots[x] == rows[start + x] && status[x] == RowSuccess
         else status[x] == NoRow
    }

    /** The slots named by `Done` are read, the others still say NOROW. */
    ghost predicate ReadSoFar(slots: seq<Row>, status: seq<RowStatus>, size: nat, start: nat,
                              saved: bool, wanted: nat, done: nat)
    {
      && size <= |slots| && size <= |status|
      && forall x :: 0 <= x < size ==> SlotIs(slots, status, start, x, Done(saved, wanted, done, x))
    }

    lemma ReadOneMore(slots: seq<Row>, status: seq<RowStatus>, size: nat, start: nat,
                      saved: bool, wanted: nat, done: nat, x: nat)
      requires ReadSoFar(slots, status, size, start, saved, wanted, done)
      requires done < wanted <= size && start + x < |rows|
      requires x == (if !saved then done else if done + 1 == wanted then 0 else done + 1)
      ensures ReadSoFar(slots[x := rows[start + x]], status[x := RowSuccess], size, start, saved, wanted, done + 1)
    {
      var slots', status', done' := slots[x := rows[start + x]], status[x := RowSuccess], done + 1;
      forall y | 0 <= y < size
        ensures SlotIs(slots', status', start, y, Done(saved, wanted, done', y))
      {
        assert SlotIs(slots, status, start, y, Done(saved, wanted, done, y));
        assert slots'[y] == if y == x then rows[start + x] else slots[y];
        assert status'[y] == if y == x then RowSuccess else status[y];
        assert Done(saved, wanted, done', y) <==> y == x || Done(saved, wanted, done, y);
      }
    }

    /** Round `j` of the fetch loop; `stop` when the first row of the rowset does not exist. */
    method Round(j: nat, rows2Fetch: nat, save: nat, size: nat,
                 ghost position0: int, ghost next0: nat, ghost start: nat)
      returns (stop: bool)
      requires j < rows2Fetch <= size <= |slots| && size <= |status|
      requires LoopState(position0, next0, start, save, rows2Fetch, j)
      requires j > 0 ==> start < |rows|
      requires ReadSoFar(slots, status, size, start, save != |rows|, rows2Fetch, Min(j, |rows| - start))
      modifies this
      ensures |slots| == |old(slots)| && |status| == |old(status)|
      ensures stop <==> start == |rows|
      ensures stop ==> position == Max(position0, 0) && lastRowFetched == 0 && next == next0 && lib == start
      ensures stop ==> slots == old(slots)
      ensures !stop ==>
                && LoopState(position0, next0, start, save, rows2Fetch, j + 1)
                && ReadSoFar(slots, status, size, start, save != |rows|, rows2Fetch,
                             Min(j + 1, |rows| - start))
    {
      var rowNum := j;
      if save != |rows| {
        rowNum := j + 1;
        if rowNum == rows2Fetch {
          rowNum := 0;
          next := lib;
          lib := save;
        }
      }
      ghost var slots0, status0 := slots, status;
      var fetched := FetchRow(rowNum);
      if !fetched {
        return rowNum == 0;
      }
      ReadOneMore(slots0, status0, size, start, save != |rows|, rows2Fetch, j, rowNum);
      return false;
    }

    /** Fields after MADB_StmtFetch of `wanted` rows from library pointer `start`. */
    ghost predicate Fetched(position0: int, next0: nat, start: nat, wanted: nat)
      reads this
    {
      var count := Min(wanted, |rows| - start);
      && position == Max(position0, 0)
      && lastRowFetched == count
      && lib == (if scrollable && count > 0 then start + 1 else start + count)
      && next == (if scrollable && wanted > 1 then start + count else next0)
    }

    /** Slot i holds result row start + i, for every i below count; the rest is NOROW. */
    ghost predicate Filled(size: nat, start: nat, count: nat)
      reads this
    {
      && count <= size <= |slots| && size <= |status| && start + count <= |rows|
      && slots[..count] == rows[start..start + count]
      && (forall x :: 0 <= x < count ==> status[x] == RowSuccess)
      && (forall x :: count <= x < size ==> status[x] == NoRow)
    }

    lemma ReadAll(size: nat, start: nat, saved: bool, wanted: nat, done: nat)
      requires ReadSoFar(slots, status, size, start, saved, wanted, done)
      requires 0 < done <= wanted <= size && start + done <= |rows| && (saved ==> done == wanted)
      ensures Filled(size, start, done)
    {
      forall x | 0 <= x < size
        ensures x < done ==> slots[x] == rows[start + x] && status[x] == RowSuccess
        ensures x >= done ==> status[x] == NoRow
      {
        assert SlotIs(slots, status, start, x, Done(saved, wanted, done, x));
        assert Done(saved, wanted, done, x) <==> x < done;
      }
    }

    /**
    MADB_StmtFetch: fills the application's row slots from the library pointer.  For a
    scrollable cursor and more than one row, slot 0 is filled last, after seeking back.
    */
    method Fetch(size: nat) returns (outcome: Outcome)
      requires size <= |slots| && size <= |status|
      requires lib <= |rows|
      requires noCache ==> !scrollable
      requires scrollable && size > 0 && RowsToFetch(size) > 1 ==> lib + RowsToFetch(size) <= |rows|
      modifies this
      ensures |slots| == |old(slots)| && |status| == |old(status)|
      ensures size == 0 ==> outcome == Untouched && unchanged(this)
      ensures size > 0 ==>
                Fetched(old(position), old(next), old(lib), if noCache then size else old(RowsToFetch(size)))
      ensures size > 0 ==> outcome == if lastRowFetched == 0 then NoRowset else Rowset(old(lib), lastRowFetched)
      ensures outcome == NoRowset ==> slots == old(slots)
      ensures outcome.Rowset? ==> Filled(size, outcome.start, outcome.count)
    {
      if size == 0 {
        return Untouched;
      }
      lastRowFetched := 0;
      var rows2Fetch := if noCache then size else RowsToFetch(size);
      InitStatus(size);
      var start := lib;               // kept for the outcome only
      var save := |rows|;
      if rows2Fetch > 1 && scrollable {
        save := lib;
        lib := lib + 1;               // MoveNext
      }
      for j := 0 to rows2Fetch
        invariant |slots| == |old(slots)| && |status| == |old(status)|
        invariant LoopState(old(position), old(next), start, save, rows2Fetch, j)
        invariant if j > 0 then start < |rows| else slots == old(slots)
        invariant ReadSoFar(slots, status, size, start, save != |rows|, rows2Fetch,
                            Min(j, |rows| - start))
      {
        var stop := Round(j, rows2Fetch, save, size, old(position), old(next), start);
        if stop {
          return NoRowset;
        }
      }
      outcome := Rowset(start, lastRowFetched);
      ReadAll(size, start, save != |rows|, rows2Fetch, Min(rows2Fetch, |rows| - start));
    }

    /** The switch over the orientation: it reads the position and the rows last fetched. */
    function TargetOf(c: Call): int
      reads this
    {
      Target(|rows|, View(position, lastRowFetched, 0, false), c)
    }

    /** Where the call goes does not depend on what the library remembers. */
    lemma TargetFacts(c: Call)
      requires Valid()
      ensures c.orientation == Next ==> TargetOf(c) == if position < 0 then 0 else position + lastRowFetched
      ensures !noCache ==> TargetOf(c) == Target(|rows|, AsView(), c)
    {
    }

    /**
    MADB_StmtFetchScroll up to the fetch: checks the orientation, computes the new
    position and moves the library pointer there.
    */
    method Seek(c: Call) returns (done: bool, outcome: Outcome)
      requires Valid()
      modifies this`position, this`next, this`lib
      ensures done ==> Valid() && (outcome == Rejected || outcome == NoRowset)
      ensures noCache && c.orientation == Next ==> !done
      ensures !scrollable && c.orientation != Next ==> done && outcome == Rejected && unchanged(this)
      ensures done && !noCache && (scrollable || c.orientation == Next) ==>
                (AsView(), outcome) == Step(|rows|, old(AsView()), c)
      ensures !done && noCache ==> unchanged(this)
      ensures !done && !noCache ==>
                && c.orientation != Other
                && 0 <= Target(|rows|, old(AsView()), c)
                && position == Min(Target(|rows|, old(AsView()), c), |rows|)
                && lib == position - Lag(old(AsView()), c)
                && next == (if c.orientation == Next then old(next) else |rows|)
                && (rows == [] ==> c.orientation == Next)
                && (rows != [] ==> position < |rows|)
    {
      hide Target, Skipped, AsInt32;
      TargetFacts(c);
      var rowsProcessed := lastRowFetched;
      if !scrollable && c.orientation != Next {
        return true, Rejected;
      }
      if c.orientation != Next {
        next := |rows|;
      }
      if c.orientation == Other {
        return true, Rejected;
      }
      var target := TargetOf(c);
      if target < 0 {
        position, next := -1, |rows|;
      } else if !noCache {
        position := Min(target, |rows|);
      }
      // For an empty result the unsigned mysql_stmt_num_rows() - 1 wraps, and this test fails.
      if target < 0 || (!noCache && |rows| > 0 && target > |rows| - 1) {
        if target < 0 {
          var _ := DataSeek(0);
        }
        return true, NoRowset;
      }
      var sought := true;
      if c.orientation != Next || (rowsProcessed > 1 && scrollable) {
        if next != |rows| {
          lib := next;
        } else {
          sought := DataSeek(position);
        }
      }
      return !sought, NoRowset;
    }

    /** What Seek leaves for the fetch. */
    ghost predicate SoughtFrom(c: Call, v: View)
      reads this
    {
      && c.orientation != Other && 0 <= Target(|rows|, v, c)
      && position == Min(Target(|rows|, v, c), |rows|) && lib == position - Lag(v, c)
      && lastRowFetched == v.last && (rows == [] ==> c.orientation == Next && v.last == 0)
      && (rows != [] ==> position < |rows|)
      && (c.orientation != Next || v.pos < 0 ==> next == |rows|)
      && (c.orientation == Next && v.pos >= 0 && position + lastRowFetched < |rows| && v.last > 1 && scrollable ==>
            if v.fixed then next == position - v.drift else next == |rows|)
      && (!scrollable && v.pos < 0 ==> v.last == 0) && (!scrollable ==> c.orientation == Next)
      && (c.orientation == Next && v.pos >= 0 && !(v.last > 1 && scrollable) && position < |rows| ==> v.fixed)
    }

    /** The fetch that follows a seek, on a stored result seen as `v` before. */
    method FetchStored(c: Call, ghost v: View) returns (outcome: Outcome)
      requires !noCache && c.size <= |slots| && c.size <= |status| && lib <= |rows| && next <= |rows|
      requires Sound(v) && SoughtFrom(c, v)
      modifies this
      ensures |slots| == |old(slots)| && |status| == |old(status)|
      ensures Valid() && (AsView(), outcome) == Step(|rows|, v, c)
      ensures if outcome.Rowset? then Filled(c.size, outcome.start, outcome.count) else slots == old(slots)
    {
      hide Target, AsInt32, Filled;
      outcome := Fetch(c.size);
    }

    /** MADB_StmtFetchScroll */
    method FetchScroll(c: Call) returns (outcome: Outcome)
      requires Valid()
      requires c.size <= |slots| && c.size <= |status|
      modifies this
      ensures |slots| == |old(slots)| && |status| == |old(status)|
      ensures Valid()
      ensures !scrollable && c.orientation != Next ==> outcome == Rejected && unchanged(this)
      ensures !noCache && (scrollable || c.orientation == Next) ==>
                (AsView(), outcome) == Step(|rows|, old(AsView()), c)
      ensures noCache && c.orientation == Next ==>
                outcome == StreamOutcome(|rows|, old(lib), c.size) && lib == old(lib) + RowsOf(outcome)
      ensures if outcome.Rowset? then Filled(c.size, outcome.start, outcome.count) else slots == old(slots)
    {
      hide Target, AsInt32, Filled, Step, Skipped;
      ghost var v := if noCache then INITIAL else AsView();
      TargetFacts(c);
      var done;
      done, outcome := Seek(c);
      if !done {
        if noCache {
          outcome := Fetch(c.size);
        } else {
          outcome := FetchStored(c, v);
        }
        // SQL_NO_DATA would become SQL_SUCCESS here if rows had been fetched; there are none.
      }
    }

    /** Any history of SQLFetchScroll calls on a scrollable cursor. */
    method RunScrolls(calls: seq<Call>) returns (trace: seq<Outcome>, fetched: seq<seq<Row>>)
      requires Valid() && scrollable
      requires forall i :: 0 <= i < |calls| ==> calls[i].size <= Min(|slots|, |status|)
      modifies this
      ensures Valid()
      ensures trace == Trace(|rows|, old(AsView()), calls)
      ensures fetched == DeliveredBy(rows, trace)
    {
      hide Step, AsView, NextRow, Trace, After, DeliveredBy;
      trace, fetched := [], [];
      NoCalls(rows, AsView(), calls);
      for i := 0 to |calls|
        invariant Valid() && |slots| == |old(slots)| && |status| == |old(status)|
        invariant trace == Trace(|rows|, old(AsView()), calls[..i])
        invariant AsView() == After(|rows|, old(AsView()), calls[..i])
        invariant fetched == DeliveredBy(rows, trace)
      {
        TraceOneMore(|rows|, old(AsView()), calls, i);
        var outcome := FetchScroll(calls[i]);
        var got := if outcome.Rowset? then slots[..outcome.count] else [];
        assert got == Delivered(rows, outcome);
        DeliveredOneMore(rows, trace, outcome);
        trace, fetched := trace + [outcome], fetched + [got];
      }
      assert calls[..|calls|] == calls;
    }
  }

  // ---------------------------------------------------------------------------------
  // SQL_FETCH_NEXT alone
  // ---------------------------------------------------------------------------------

  /** Rows delivered so far, how far the position is ahead of them, and the size of the last rowset. */
  datatype Reader = Reader(taken: nat, drift: nat, last: nat)

  /** One NEXT, on a stored or a streamed result. */
  function NextStep(n: nat, stored: bool, s: Reader, size: nat): (Reader, Outcome) {
    var t := s.taken + s.drift;
    if !stored then
      var o := StreamOutcome(n, s.taken, size);
      (Reader(s.taken + RowsOf(o), 0, RowsOf(o)), o)
    else if t >= n then (s, if n == 0 && size == 0 then Untouched else NoRowset)
    else if size == 0 then (Reader(s.taken, s.drift + s.last, s.last), Untouched)
    else
      var count := Min(size, n - t);
      (Reader(s.taken + count, s.drift, count), Rowset(s.taken, count))
  }

  ghost predicate Sizes(sizes: seq<int>) { forall i :: 0 <= i < |sizes| ==> 0 <= sizes[i] }

  function NextReader(n: nat, stored: bool, sizes: seq<int>): (s: Reader)
    requires Sizes(sizes)
  {
    if sizes == [] then Reader(0, 0, 0)
    else
      var k := |sizes| - 1;
      NextStep(n, stored, NextReader(n, stored, sizes[..k]), sizes[k]).0
  }

  /** What a cursor answers to SQL_FETCH_NEXT calls with these array sizes. */
  function NextTrace(n: nat, stored: bool, sizes: seq<int>): (t: seq<Outcome>)
    requires Sizes(sizes)
    ensures |t| == |sizes|
  {
    if sizes == [] then []
    else
      var k := |sizes| - 1;
      NextTrace(n, stored, sizes[..k]) + [NextStep(n, stored, NextReader(n, stored, sizes[..k]), sizes[k]).1]
  }

  /** The abstract cursor and the reader of a stored result stand at the same place. */
  ghost predicate SamePlace(n: nat, v: View, s: Reader) {
    if v.pos < 0 then v.last == 0 && s == Reader(0, 0, 0)
    else if v.pos + v.last < n then
      v.fixed && v.drift == s.drift && v.last == s.last && v.pos + v.last == s.taken + s.drift
    else s.taken + s.drift >= n
  }

  lemma StepIsNextStep(n: nat, v: View, s: Reader, size: nat)
    requires Sound(v) && SamePlace(n, v, s)
    ensures var (v', o) := Step(n, v, Call(Next, 1, size));
            && o == NextStep(n, true, s, size).1 && SamePlace(n, v', NextStep(n, true, s, size).0)
  {
  }

  lemma NextOneMore(n: nat, stored: bool, sizes: seq<int>, i: nat)
    requires i < |sizes| && Sizes(sizes)
    ensures Sizes(sizes[..i]) && Sizes(sizes[..i + 1])
    ensures var step := NextStep(n, stored, NextReader(n, stored, sizes[..i]), sizes[i]);
            && NextReader(n, stored, sizes[..i + 1]) == step.0
            && NextTrace(n, stored, sizes[..i + 1]) == NextTrace(n, stored, sizes[..i]) + [step.1]
  {
    assert sizes[..i + 1][..i] == sizes[..i];
  }

  /** The statement stands where the reader does. */
  ghost predicate ReadsAs<Row>(st: Statement<Row>, s: Reader)
    requires st.Valid()
    reads st
  {
    if st.noCache then st.lib == s.taken && s.drift == 0 else SamePlace(|st.rows|, st.AsView(), s)
  }

  /** SQLFetch: `got` is what the slots now hold. */
  method FetchNext<Row>(st: Statement<Row>, size: nat, ghost s: Reader) returns (outcome: Outcome, got: seq<Row>)
    requires st.Valid() && ReadsAs(st, s) && size <= |st.slots| && size <= |st.status|
    modifies st
    ensures |st.slots| == |old(st.slots)| && |st.status| == |old(st.status)| && st.Valid()
    ensures var step := NextStep(|st.rows|, !st.noCache, s, size);
            outcome == step.1 && ReadsAs(st, step.0)
    ensures got == Delivered(st.rows, outcome)
  {
    hide Step, Sound;
    if !st.noCache {
      StepIsNextStep(|st.rows|, st.AsView(), s, size);
    }
    outcome := st.FetchScroll(Call(Next, 1, size));
    got := if outcome.Rowset? then st.slots[..outcome.count] else [];
  }

  /** Rows delivered never overtake the result, and a rowset carries the next ones. */
  lemma NextCarriesOn<Row>(rows: seq<Row>, stored: bool, s: Reader, size: nat)
    requires s.taken <= |rows|
    ensures var step := NextStep(|rows|, stored, s, size);
            && s.taken <= step.0.taken <= |rows|
            && rows[..s.taken] + Delivered(rows, step.1) == rows[..step.0.taken]
  {
  }

  /** SQL_FETCH_NEXT alone, with any array sizes, on a cursor of any kind: a prefix of the rows, in order. */
  method RunNexts<Row>(st: Statement<Row>, sizes: seq<int>) returns (trace: seq<Outcome>, fetched: seq<Row>)
    requires st.Valid() && ReadsAs(st, Reader(0, 0, 0)) && Sizes(sizes)
    requires forall i :: 0 <= i < |sizes| ==> sizes[i] <= Min(|st.slots|, |st.status|)
    modifies st
    ensures st.Valid()
    ensures trace == NextTrace(|st.rows|, !st.noCache, sizes)
    ensures NextReader(|st.rows|, !st.noCache, sizes).taken <= |st.rows|
    ensures fetched == st.rows[..NextReader(|st.rows|, !st.noCache, sizes).taken]
  {
    hide NextStep, ReadsAs, Delivered;
    trace, fetched := [], [];
    ghost var s := Reader(0, 0, 0);
    for i := 0 to |sizes|
      invariant st.Valid() && |st.slots| == |old(st.slots)| && |st.status| == |old(st.status)|
      invariant Sizes(sizes[..i]) && s == NextReader(|st.rows|, !st.noCache, sizes[..i]) && ReadsAs(st, s)
      invariant trace == NextTrace(|st.rows|, !st.noCache, sizes[..i])
      invariant s.taken <= |st.rows| && fetched == st.rows[..s.taken]
    {
      NextOneMore(|st.rows|, !st.noCache, sizes, i);
      NextCarriesOn(st.rows, !st.noCache, s, sizes[i]);
      var outcome, got := FetchNext(st, sizes[i], s);
      s := NextStep(|st.rows|, !st.noCache, s, sizes[i]).0;
      trace := trace + [outcome];
      fetched := fetched + got;
    }
    assert sizes[..|sizes|] == sizes;
  }

  /** The result rows named by a trace, in order. */
  function RowNumbers(t: seq<Outcome>): seq<int> {
    if t == [] then []
    else
      var o := t[|t| - 1];
      RowNumbers(t[..|t| - 1]) + (if o.Rowset? then seq(o.count, i requires 0 <= i => o.start + i) else [])
  }

  /** No row twice, none out of order. */
  lemma {:induction false} NextDeliversPrefix(n: nat, stored: bool, sizes: seq<int>)
    requires Sizes(sizes)
    ensures NextReader(n, stored, sizes).taken <= n
    ensures RowNumbers(NextTrace(n, stored, sizes)) == seq(NextReader(n, stored, sizes).taken, i requires 0 <= i => i)
  {
    if sizes != [] {
      var k := |sizes| - 1;
      NextDeliversPrefix(n, stored, sizes[..k]);
      assert NextTrace(n, stored, sizes)[..k] == NextTrace(n, stored, sizes[..k]);
    }
  }

  /** A call with array size 0 when some rows, but not all, have been asked for. */
  ghost predicate ZeroInBetween(n: nat, sizes: seq<int>) {
    exists j :: 0 <= j < |sizes| && sizes[j] == 0 && 0 < Sum(sizes[..j]) < n
  }

  lemma ZeroInBetweenMore(n: nat, sizes: seq<int>, k: int)
    requires k == |sizes| - 1 >= 0
    ensures ZeroInBetween(n, sizes) <==> ZeroInBetween(n, sizes[..k]) || (sizes[k] == 0 && 0 < Sum(sizes[..k]) < n)
  {
    assert forall j :: 0 <= j < k ==> sizes[..k][..j] == sizes[..j] && sizes[..k][j] == sizes[j];
    if ZeroInBetween(n, sizes[..k]) {
      var j :| 0 <= j < k && sizes[..k][j] == 0 && 0 < Sum(sizes[..k][..j]) < n;
      assert sizes[j] == 0 && 0 < Sum(sizes[..j]) < n;
    }
  }

  lemma {:induction false} SumOf(sizes: seq<int>)
    requires Sizes(sizes)
    ensures 0 <= Sum(sizes)
  {
    if sizes != [] {
      SumOf(sizes[..|sizes| - 1]);
    }
  }

  /** Until such a call everything asked for is delivered; from then on the last rows are out of reach. */
  lemma {:induction false} ReaderAfter(n: nat, sizes: seq<int>)
    requires Sizes(sizes)
    ensures var s := NextReader(n, true, sizes);
            if ZeroInBetween(n, sizes) then 0 < s.drift && 0 < s.last && s.taken < n
            else s.drift == 0 && s.taken == Min(n, Sum(sizes)) && (s.last == 0 <==> s.taken == 0)
  {
    if sizes != [] {
      var k := |sizes| - 1;
      ReaderAfter(n, sizes[..k]);
      ZeroInBetweenMore(n, sizes, k);
      SumOf(sizes[..k]);
    }
  }

  /** On a streamed result every row asked for is delivered. */
  lemma {:induction false} StreamDeliversAll(n: nat, sizes: seq<int>)
    requires Sizes(sizes)
    ensures NextReader(n, false, sizes).taken == Min(n, Sum(sizes))
  {
    if sizes != [] {
      StreamDeliversAll(n, sizes[..|sizes| - 1]);
    }
  }

  /**
  An application that fetches until SQL_NO_DATA has got every row of a stored result, if
  and only if it made no call with array size 0 between the first row and the last.
  */
  lemma CompleteIff(n: nat, sizes: seq<int>, size: nat)
    requires Sizes(sizes) && NextStep(n, true, NextReader(n, true, sizes), size).1 == NoRowset
    ensures RowNumbers(NextTrace(n, true, sizes)) == seq(n, i requires 0 <= i => i) <==> !ZeroInBetween(n, sizes)
  {
    NextDeliversPrefix(n, true, sizes);
    ReaderAfter(n, sizes);
    var s := NextReader(n, true, sizes);
    assert |seq(n, i requires 0 <= i => i)| == n && |seq(s.taken, i requires 0 <= i => i)| == s.taken;
  }

  /** Three rows, fetched one by one with a call of array size 0 after the first: the last is never delivered. */
  lemma ZeroArraySizeLosesRow()
    ensures NextTrace(3, true, [1, 0, 1, 1]) == [Rowset(0, 1), Untouched, Rowset(1, 1), NoRowset]
  {
    var sizes := [1, 0, 1, 1];
    assert sizes[..3] == [1, 0, 1] && sizes[..3][..2] == [1, 0] && sizes[..3][..2][..1] == [1];
    assert sizes[..3][..2][..1][..0] == [];
    assert NextReader(3, true, [1]) == Reader(1, 0, 1);
    assert NextReader(3, true, [1, 0]) == Reader(1, 1, 1);
    assert NextReader(3, true, [1, 0, 1]) == Reader(2, 1, 1);
    assert NextTrace(3, true, [1]) == [Rowset(0, 1)];
    assert NextTrace(3, true, [1, 0]) == [Rowset(0, 1), Untouched];
  }

  /** SQL_NO_DATA exactly from the call that finds all rows delivered on. */
  lemma {:induction false} NoDataFromTheEndOn(n: nat, stored: bool, sizes: seq<int>, i: nat)
    requires Sizes(sizes) && i < |sizes| && sizes[i] >= 1 && (stored ==> !ZeroInBetween(n, sizes[..i]))
    ensures NextTrace(n, stored, sizes)[i] == NoRowset <==> Sum(sizes[..i]) >= n
    decreases |sizes|
  {
    hide ZeroInBetween, Sum;
    var k := |sizes| - 1;
    if i < k {
      assert sizes[..k][..i] == sizes[..i];
      NoDataFromTheEndOn(n, stored, sizes[..k], i);
    } else {
      ReaderAfter(n, sizes[..i]);
      StreamDeliversAll(n, sizes[..i]);
    }
  }

  /** With array sizes of at least 1, streamed and stored results answer alike. */
  lemma {:induction false} EveryKindAlike(n: nat, sizes: seq<int>)
    requires forall i :: 0 <= i < |sizes| ==> sizes[i] >= 1
    ensures NextTrace(n, true, sizes) == NextTrace(n, false, sizes)
  {
    if sizes != [] {
      var k := |sizes| - 1;
      EveryKindAlike(n, sizes[..k]);
      ReaderAfter(n, sizes[..k]);
      StreamDeliversAll(n, sizes[..k]);
    }
  }

  // ---------------------------------------------------------------------------------
  // Laws of the scrollable cursor
  // ---------------------------------------------------------------------------------

  /** Every rowset lies inside the result and is as long as the array size and the position allow. */
  lemma {:induction false} RowsetsAreFull(n: nat, v: View, calls: seq<Call>, i: nat)
    requires Sound(v) && i < |calls| && Trace(n, v, calls)[i].Rowset?
    ensures var o, w, w' := Trace(n, v, calls)[i], After(n, v, calls[..i]), After(n, v, calls[..i + 1]);
            && o.start + o.count <= n && o.start == w'.pos - Lag(w, calls[i])
            && w'.last == o.count == Min(calls[i].size, n - w'.pos) >= 1
    decreases |calls|
  {
    hide Target, Skipped;
    var k := |calls| - 1;
    if i < k {
      RowsetsAreFull(n, v, calls[..k], i);
      assert calls[..k][..i + 1] == calls[..i + 1] && calls[..k][..i] == calls[..i];
    } else {
      assert calls[..i + 1] == calls;
    }
  }

  /** Without calls of array size 0 the rowset starts at the position. */
  lemma {:induction false} AlwaysAligned(n: nat, v: View, calls: seq<Call>)
    requires Sound(v) && v.drift == 0 && forall i :: 0 <= i < |calls| ==> calls[i].size >= 1
    ensures After(n, v, calls).drift == 0
  {
    hide Target, Skipped;
    if calls != [] {
      AlwaysAligned(n, v, calls[..|calls| - 1]);
    }
  }

  /** `times` calls in one direction with one array size. */
  function Walk(direction: Orientation, size: nat, times: nat): seq<Call> {
    seq(times, _ => Call(direction, 0, size))
  }

  lemma {:induction false} AfterAppend(n: nat, v: View, a: seq<Call>, b: seq<Call>)
    requires Sound(v)
    ensures After(n, v, a + b) == After(n, After(n, v, a), b)
  {
    if b == [] {
      assert a + b == a;
    } else {
      var k := |b| - 1;
      AfterAppend(n, v, a, b[..k]);
      assert (a + b)[..|a + b| - 1] == a + b[..k];
    }
  }

  lemma {:induction false} WalkForth(n: nat, v: View, size: nat, times: nat)
    requires Sound(v) && 0 <= v.pos && v.last == size >= 1 && v.drift == 0 && v.pos + times * size < n
    ensures var p := v.pos + times * size;
            times > 0 ==> After(n, v, Walk(Next, size, times)) == Settled(n, p, Min(size, n - p), 0, true)
  {
    if times > 0 {
      assert Walk(Next, size, times)[..times - 1] == Walk(Next, size, times - 1);
      assert times * size == (times - 1) * size + size;
      WalkForth(n, v, size, times - 1);
      assert Walk(Next, size, 0) == [];
    }
  }

  lemma {:induction false} WalkBack(n: nat, v: View, size: nat, times: nat)
    requires Sound(v) && v.pos < n && size >= 1 && times * size <= v.pos
    ensures times > 0 ==>
              After(n, v, Walk(Prior, size, times)) == Settled(n, v.pos - times * size, size, 0, true)
  {
    if times > 0 {
      assert Walk(Prior, size, times)[..times - 1] == Walk(Prior, size, times - 1);
      assert times * size == (times - 1) * size + size;
      WalkBack(n, v, size, times - 1);
      assert Walk(Prior, size, 0) == [];
    }
  }

  lemma NoWalk(n: nat, v: View, size: nat)
    requires Sound(v)
    ensures After(n, v, Walk(Next, size, 0) + Walk(Prior, size, 0)) == v
  {
    assert Walk(Next, size, 0) + Walk(Prior, size, 0) == [];
  }

  /** Any number of NEXTs and as many PRIORs, with one array size, come back to the same rowset. */
  lemma NextsThenPriorsReturn(n: nat, v: View, size: nat, times: nat)
    requires Sound(v) && 0 <= v.pos && v.last == size >= 1 && v.drift == 0 && v.pos + times * size < n
    ensures var w := After(n, v, Walk(Next, size, times) + Walk(Prior, size, times));
            w.pos == v.pos && w.last == v.last && w.drift == 0
  {
    hide Step, Walk;
    if times == 0 {
      NoWalk(n, v, size);
    } else {
      AfterAppend(n, v, Walk(Next, size, times), Walk(Prior, size, times));
      WalkForth(n, v, size, times);
      assert times * size >= 0;
      WalkBack(n, After(n, v, Walk(Next, size, times)), size, times);
    }
  }

  // ---------------------------------------------------------------------------------
  // The table of the standard
  // ---------------------------------------------------------------------------------

  /** A rowset start in the words of the standard; rows count from 1. */
  datatype Place = BeforeStart | AtRow(row: int) | AfterEnd

  function PlaceOf(n: nat, pos: int): Place {
    if pos < 0 then BeforeStart else if pos >= n then AfterEnd else AtRow(pos + 1)
  }

  function OdbcAbsolute(n: nat, offset: int, size: nat): Place {
    if offset < 0 then
      if -offset <= n then AtRow(n + offset + 1)
      else if -offset > size then BeforeStart
      else AtRow(1)
    else if offset == 0 then BeforeStart
    else if offset <= n then AtRow(offset)
    else AfterEnd
  }

  /** `previous` is the rowset size of the previous fetch, which NEXT uses. */
  function OdbcStart(n: nat, at: Place, previous: nat, c: Call): Place {
    match c.orientation
    case Next =>
      (match at
       case BeforeStart => AtRow(1)
       case AtRow(row) => if row + previous <= n then AtRow(row + previous) else AfterEnd
       case AfterEnd => AfterEnd)
    case Prior =>
      (match at
       case BeforeStart => BeforeStart
       case AtRow(row) =>
         if row == 1 then BeforeStart
         else if row <= c.size then AtRow(1)
         else AtRow(row - c.size)
       case AfterEnd => if n < c.size then AtRow(1) else AtRow(n - c.size + 1))
    case Relative =>
      (match at
       case BeforeStart => if c.offset > 0 then OdbcAbsolute(n, c.offset, c.size) else BeforeStart
       case AtRow(row) =>
         if row + c.offset < 1 then
           if row == 1 || -c.offset > c.size then BeforeStart else AtRow(1)
         else if row + c.offset <= n then AtRow(row + c.offset)
         else AfterEnd
       case AfterEnd => if c.offset < 0 then OdbcAbsolute(n, c.offset, c.size) else AfterEnd)
    case Absolute => OdbcAbsolute(n, c.offset, c.size)
    case First => AtRow(1)
    case Last => if c.size <= n then AtRow(n - c.size + 1) else AtRow(1)
    case Other => at
  }

  /** Where the driver answers SQL_NO_DATA and the standard shortens the way to row 1. */
  predicate StartsBeforeFirstRow(n: nat, v: View, c: Call) {
    || (c.orientation == Prior && 0 < v.pos < c.size)
    || (c.orientation == Last && c.size > n)
  }

  /** The driver follows the table of the standard except exactly there. */
  lemma FollowsOdbcTable(n: nat, v: View, previous: nat, c: Call)
    requires Sound(v) && n >= 1 && -1 <= v.pos <= n
    requires 0 <= v.pos < n ==> previous >= 1 && v.last == Min(previous, n - v.pos)
    requires 1 <= c.size < 0x8000_0000 && c.orientation != Other
    ensures PlaceOf(n, Step(n, v, c).0.pos) == OdbcStart(n, PlaceOf(n, v.pos), previous, c)
            <==> !StartsBeforeFirstRow(n, v, c)
    ensures StartsBeforeFirstRow(n, v, c) ==>
              Step(n, v, c).1 == NoRowset && OdbcStart(n, PlaceOf(n, v.pos), previous, c) == AtRow(1)
  {
    assert AsInt32(c.size) == c.size;
  }

  /** An empty result has no row for any call. */
  lemma EmptyResultHasNoRows(v: View, calls: seq<Call>, i: nat)
    requires Sound(v) && i < |calls|
    ensures !Trace(0, v, calls)[i].Rowset?
    decreases |calls|
  {
    if i < |calls| - 1 {
      EmptyResultHasNoRows(v, calls[..|calls| - 1], i);
    }
  }
}
