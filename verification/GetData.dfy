/**
SQLGetData in pieces: the character and binary branch of MADB_StmtGetData with the
checks of SQLGetData in front of it, over the columns of the current row.
*/
module GetData {
  import opened Common
  import opened CString

  const TRUNCATED := SuccessWithInfo      // with SQLSTATE 01004

  /** The bytes of `value` from `offset` on that fit into `room` bytes. */
  function Piece(value: string, offset: int, room: int): string
    requires 0 <= offset <= |value| && room >= 0
  {
    value[offset..Min(|value|, offset + room)]
  }

  /**
  SQL_SUCCESS_WITH_INFO exactly when bytes remain.  Only without an indicator this is not told
  of a buffer that has no room for a byte, and SQL_SUCCESS answered.
  */
  function Told(left: int, size: int, terminator: int, hasIndicator: bool): Return {
    if hasIndicator && size == 0 then TRUNCATED
    else if left > size - terminator && (hasIndicator || size > terminator) then TRUNCATED
    else Success
  }

  class Row {
    var values: seq<string>       // the columns of the current row, none of them NULL
    var offsets: seq<int>         // CharOffset
    var lengths: seq<int>         // Lengths
    var lastColumn: int           // LastSQLGetDataColumn

    ghost predicate Valid()
      reads this
    {
      && |values| == |offsets| == |lengths|
      && forall c :: 0 <= c < |values| ==>
           0 <= offsets[c] && (lengths[c] == |values[c]| || (lengths[c] == 0 && offsets[c] == 0))
    }

    /** A successful fetch: a new row, nothing of it delivered. */
    method Fetch(row: seq<string>)
      modifies this
      ensures Valid() && values == row && lastColumn == old(lastColumn)
      ensures forall c :: 0 <= c < |row| ==> offsets[c] == lengths[c] == 0
    {
      values := row;
      offsets, lengths := seq(|row|, _ => 0), seq(|row|, _ => 0);
    }

    /** Has column `c` been delivered to its end? */
    predicate Finished(c: nat)
      requires c < |offsets| == |lengths|
      reads this
    {
      offsets[c] > 0 && offsets[c] >= lengths[c]
    }

    /** Where the next piece of column `c` starts: going back to a column starts it over. */
    function Start(c: nat): int
      requires c < |offsets|
      reads this
    {
      if lastColumn == c then offsets[c] else 0
    }

    /** The branch of MADB_StmtGetData; the library copies from the current offset and reports the whole length. */
    method GetPiece(c: nat, size: int, terminator: int, hasIndicator: bool)
      returns (ret: Return, chunk: string, indicator: int)
      requires Valid() && c < |values| && (terminator == 0 || terminator == 1) && size >= 0 && !Finished(c)
      requires hasIndicator || size >= terminator
      modifies this`offsets, this`lengths
      ensures Valid()
      ensures var start, n := old(offsets)[c], |values[c]|;
              && 0 <= start <= n && indicator == n - start && lengths == old(lengths)[c := n]
              && chunk == Piece(values[c], start, Max(0, size - terminator))
              && ret == Told(n - start, size, terminator, hasIndicator)
              && (if size == 0 then offsets == old(offsets)[c := start]
                  else if n == 0 then offsets == old(offsets)[c := size]
                  else offsets == old(offsets)[c := start + Min(size - terminator, n)])
    {
      var start, n := offsets[c], |values[c]|;
      if start == 0 {
        lengths := lengths[c := n];
      }
      indicator := n - start;
      if size == 0 && hasIndicator {
        return TRUNCATED, "", lengths[c] - offsets[c];
      }
      chunk := Piece(values[c], start, size - terminator);
      offsets := offsets[c := start + Min(size - terminator, n)];
      if size - terminator > 0 && lengths[c] > offsets[c] {
        return TRUNCATED, chunk, indicator;
      }
      if hasIndicator && size - terminator < indicator {
        return TRUNCATED, chunk, indicator;
      }
      if lengths[c] == 0 {
        offsets := offsets[c := Max(size, n)];
      }
      ret := Success;
    }

    /**
    SQLGetData with a buffer of `size` bytes; `terminator` is 1 for the character types
    that get a terminating NUL, else 0.
    */
    method Get(c: nat, size: int, terminator: int, hasIndicator: bool)
      returns (ret: Return, chunk: string, indicator: int)
      requires Valid() && c < |values| && (terminator == 0 || terminator == 1)
      requires size != 0 || terminator == 0 || hasIndicator
      modifies this`offsets, this`lengths, this`lastColumn
      ensures Valid()
      ensures old(Finished(c)) ==> ret == NoData && chunk == "" && offsets == old(offsets) && lengths == old(lengths)
      ensures !old(Finished(c)) && size < 0 ==> ret == Error && offsets == old(offsets) && lengths == old(lengths)
      ensures !old(Finished(c)) && size >= 0 ==>
                var start, n := old(Start(c)), |values[c]|;
                && 0 <= start <= n && indicator == n - start && lastColumn == c && lengths == old(lengths)[c := n]
                && chunk == Piece(values[c], start, Max(0, size - terminator))
                && ret == Told(n - start, size, terminator, hasIndicator)
                && (if size == 0 then offsets == old(offsets)[c := start]
                    else if n == 0 then offsets == old(offsets)[c := size]
                    else offsets == old(offsets)[c := start + Min(size - terminator, n)])
    {
      chunk, indicator := "", 0;
      if Finished(c) {
        return NoData, chunk, indicator;
      }
      if size < 0 {
        return Error, chunk, indicator;
      }
      if lastColumn != c {
        offsets := offsets[c := 0];
      }
      lastColumn := c;
      ret, chunk, indicator := GetPiece(c, size, terminator, hasIndicator);
    }
  }

  /** The calls so far: they delivered the first `upto` bytes, and all but perhaps the last were truncated. */
  ghost predicate Delivered(value: string, upto: int, chunks: seq<string>, indicators: seq<int>, rets: seq<Return>,
                            last: Return)
  {
    && |chunks| == |indicators| == |rets| && 0 <= upto <= |value| && Concat(chunks) == value[..upto]
    && (forall k :: 0 <= k < |chunks| ==> indicators[k] == |value| - |Concat(chunks[..k])|)
    && (forall k :: 0 <= k < |chunks| ==> rets[k] == if k == |chunks| - 1 then last else TRUNCATED)
  }

  lemma DeliverOne(value: string, upto: int, chunks: seq<string>, indicators: seq<int>, rets: seq<Return>,
                   room: int, ret: Return)
    requires Delivered(value, upto, chunks, indicators, rets, TRUNCATED) && room >= 0
    ensures Delivered(value, Min(|value|, upto + room), chunks + [Piece(value, upto, room)],
                      indicators + [|value| - upto], rets + [ret], ret)
  {
    hide Concat;
    var chunk := Piece(value, upto, room);
    var more := chunks + [chunk];
    ConcatMore(chunks, chunk);
    assert value[..upto] + chunk == value[..Min(|value|, upto + room)];
    assert more[..|chunks|] == chunks;
    forall k | 0 <= k < |more|
      ensures (indicators + [|value| - upto])[k] == |value| - |Concat(more[..k])|
    {
      if k < |chunks| {
        assert more[..k] == chunks[..k];
      }
    }
  }

  lemma NothingDelivered(value: string)
    ensures Delivered(value, 0, [], [], [], TRUNCATED)
  {
  }

  /** Every byte of the value arrives, and the indicators count down what is left. */
  lemma WholeValue(value: string, chunks: seq<string>, indicators: seq<int>, rets: seq<Return>)
    requires Delivered(value, |value|, chunks, indicators, rets, Success)
    ensures Concat(chunks) == value
  {
    assert value[..|value|] == value;
  }

  /**
  An application that reads column `c` of a fresh row piece by piece, with buffers of any
  sizes that have room for at least one byte, gets the whole value: each indicator, where
  one is asked for, is what was still undelivered, and all calls but the last are truncated.
  */
  method ReadWhole(row: Row, c: nat, terminator: int, size: int -> int, hasIndicator: bool)
    returns (chunks: seq<string>, indicators: seq<int>, rets: seq<Return>)
    requires row.Valid() && c < |row.values| && row.offsets[c] == 0 && (terminator == 0 || terminator == 1)
    requires forall k :: size(k) > terminator
    modifies row`offsets, row`lengths, row`lastColumn
    ensures row.Valid() && row.Finished(c) && chunks != []
    ensures Concat(chunks) == row.values[c]
    ensures Delivered(row.values[c], |row.values[c]|, chunks, indicators, rets, Success)
  {
    hide Delivered, Piece, Concat;
    chunks, indicators, rets := [], [], [];
    var ret := TRUNCATED;
    ghost var value := row.values[c];
    NothingDelivered(value);
    while ret == TRUNCATED
      invariant row.Valid() && (ret == TRUNCATED || ret == Success)
      invariant ret == TRUNCATED ==> row.offsets[c] <= |value| && !row.Finished(c) && row.Start(c) == row.offsets[c]
      invariant ret == TRUNCATED ==> Delivered(value, row.offsets[c], chunks, indicators, rets, TRUNCATED)
      invariant ret == Success ==>
                  row.Finished(c) && chunks != [] && Delivered(value, |value|, chunks, indicators, rets, Success)
      decreases ret == TRUNCATED, |value| - row.offsets[c]
    {
      ghost var start := row.offsets[c];
      var chunk, indicator;
      var room := size(|chunks|) - terminator;
      ret, chunk, indicator := row.Get(c, size(|chunks|), terminator, hasIndicator);
      DeliverOne(value, start, chunks, indicators, rets, room, ret);
      chunks, indicators, rets := chunks + [chunk], indicators + [indicator], rets + [ret];
    }
    WholeValue(value, chunks, indicators, rets);
  }
}
