/**
Client-side execution of prepared statements: MADB_InsertParams, the split of a
multi-statement, the loop over parameter rows and the rewrite of array INSERTs into
multi-row batches (MADB_StmtExecute).

What a parameter becomes when written into the query, and whether the server accepts a
query, are parameters of the model.
*/
module ClientSide {
  import opened Common
  import opened CString
  import T = Tokenizer

  // ---------------------------------------------------------------------------------
  // Parameter substitution
  // ---------------------------------------------------------------------------------

  /** What MADB_InsertParam makes of one parameter of one row. */
  datatype Piece = Unbound | Literal(text: string) | Failure(ret: Return)

  datatype Built =
    | Built(text: string)
    | NotBuilt(ret: Return)
    | Overrun                   // MADB_DynstrAppendMem is passed a length below zero

  /** Markers inside [from, to), in increasing order. */
  ghost predicate Marks(marks: seq<int>, from: int, to: int) {
    && (forall i :: 0 <= i < |marks| ==> from <= marks[i] < to)
    && (forall i, j :: 0 <= i < j < |marks| ==> marks[i] < marks[j])
  }

  /** The text between `from` and `to` with the i-th marker replaced by the i-th literal. */
  ghost function Splice(text: string, from: int, to: int, marks: seq<int>, lits: seq<string>): string
    requires 0 <= from <= to <= |text| && |marks| == |lits| && Marks(marks, from, to)
    decreases |marks|
  {
    if marks == [] then text[from..to]
    else
      var k := |marks| - 1;
      Splice(text, from, marks[k], marks[..k], lits[..k]) + lits[k] + text[marks[k] + 1..to]
  }

  lemma SpliceLast(text: string, from: int, to: int, marks: seq<int>, lits: seq<string>)
    requires 0 <= from <= to <= |text| && |marks| == |lits| > 0 && Marks(marks, from, to)
    ensures var k := |marks| - 1;
            Splice(text, from, to, marks, lits)
            == Splice(text, from, marks[k], marks[..k], lits[..k]) + lits[k] + text[marks[k] + 1..to]
  {
  }

  /** How far the literals put in front of offset `j` move it. */
  ghost function Shift(marks: seq<int>, lits: seq<string>, j: int): int
    requires |marks| == |lits|
    decreases |marks|
  {
    if marks == [] then 0
    else
      var k := |marks| - 1;
      Shift(marks[..k], lits[..k], j) + if marks[k] < j then |lits[k]| - 1 else 0
  }

  lemma SpliceNone(text: string, from: int, to: int, j: int)
    requires 0 <= from <= to <= |text|
    ensures Splice(text, from, to, [], []) == text[from..to] && Shift([], [], j) == 0
  {
  }

  /** Text behind the last marker is appended as it is. */
  lemma SpliceExtend(text: string, from: int, mid: int, to: int, marks: seq<int>, lits: seq<string>)
    requires 0 <= from <= mid <= to <= |text| && |marks| == |lits| && Marks(marks, from, mid)
    ensures Splice(text, from, to, marks, lits) == Splice(text, from, mid, marks, lits) + text[mid..to]
  {
    hide Splice;
    if marks == [] {
      SpliceNone(text, from, to, to);
      SpliceNone(text, from, mid, mid);
      assert text[from..to] == text[from..mid] + text[mid..to];
    } else {
      var k := |marks| - 1;
      SpliceLast(text, from, to, marks, lits);
      SpliceLast(text, from, mid, marks, lits);
      assert text[marks[k] + 1..to] == text[marks[k] + 1..mid] + text[mid..to];
    }
  }

  lemma SpliceMarker(text: string, from: int, mark: int, marks: seq<int>, lits: seq<string>, lit: string)
    requires 0 <= from <= mark < |text| && |marks| == |lits| && Marks(marks, from, mark)
    ensures Splice(text, from, mark + 1, marks + [mark], lits + [lit]) == Splice(text, from, mark, marks, lits) + lit
  {
    var marks', lits' := marks + [mark], lits + [lit];
    assert marks'[..|marks|] == marks && lits'[..|marks|] == lits;
    assert text[mark + 1..mark + 1] == [];
  }

  /** Offsets behind all markers are shifted alike. */
  lemma {:induction false} ShiftBehind(marks: seq<int>, lits: seq<string>, a: int, b: int)
    requires |marks| == |lits| && a <= b && forall i :: 0 <= i < |marks| ==> marks[i] < a
    ensures Shift(marks, lits, a) == Shift(marks, lits, b)
    decreases |marks|
  {
    if marks != [] {
      ShiftBehind(marks[..|marks| - 1], lits[..|marks| - 1], a, b);
    }
  }

  lemma {:induction false} SpliceLength(text: string, from: int, to: int, marks: seq<int>, lits: seq<string>)
    requires 0 <= from <= to <= |text| && |marks| == |lits| && Marks(marks, from, to)
    ensures |Splice(text, from, to, marks, lits)| == to - from + Shift(marks, lits, to)
    decreases |marks|
  {
    if marks != [] {
      var k := |marks| - 1;
      SpliceLength(text, from, marks[k], marks[..k], lits[..k]);
      ShiftBehind(marks[..k], lits[..k], marks[k], to);
    }
  }

  lemma ShiftLast(marks: seq<int>, lits: seq<string>, j: int)
    requires |marks| == |lits| > 0
    ensures var k := |marks| - 1;
            Shift(marks, lits, j) == Shift(marks[..k], lits[..k], j) + if marks[k] < j then |lits[k]| - 1 else 0
  {
  }

  /** Every byte that is no marker is carried over, shifted by the literals in front of it. */
  lemma {:induction false} SpliceKeepsBytes(text: string, from: int, to: int, marks: seq<int>, lits: seq<string>,
                                            j: int)
    requires 0 <= from <= j < to <= |text| && |marks| == |lits| && Marks(marks, from, to) && j !in marks
    ensures var p := j - from + Shift(marks, lits, j);
            0 <= p < |Splice(text, from, to, marks, lits)| && Splice(text, from, to, marks, lits)[p] == text[j]
    decreases |marks|
  {
    hide Splice, Shift;
    if marks == [] {
      SpliceNone(text, from, to, j);
    } else {
      var k := |marks| - 1;
      SpliceLast(text, from, to, marks, lits);
      ShiftLast(marks, lits, j);
      assert marks[k] in marks;
      if j < marks[k] {
        SpliceKeepsBytes(text, from, marks[k], marks[..k], lits[..k], j);
      } else {
        SpliceLength(text, from, marks[k], marks[..k], lits[..k]);
        ShiftBehind(marks[..k], lits[..k], marks[k], j);
      }
    }
  }

  /** The i-th literal stands where the i-th marker stood. */
  lemma {:induction false} SplicePutsLiterals(text: string, from: int, to: int, marks: seq<int>, lits: seq<string>,
                                              i: nat)
    requires 0 <= from <= to <= |text| && |marks| == |lits| && Marks(marks, from, to) && i < |marks|
    ensures var p := marks[i] - from + Shift(marks, lits, marks[i]);
            && 0 <= p <= p + |lits[i]| <= |Splice(text, from, to, marks, lits)|
            && Splice(text, from, to, marks, lits)[p..p + |lits[i]|] == lits[i]
    decreases |marks|
  {
    hide Splice, Shift;
    var k := |marks| - 1;
    var left := Splice(text, from, marks[k], marks[..k], lits[..k]);
    SpliceLast(text, from, to, marks, lits);
    ShiftLast(marks, lits, marks[i]);
    if i < k {
      SplicePutsLiterals(text, from, marks[k], marks[..k], lits[..k], i);
      var p := marks[i] - from + Shift(marks, lits, marks[i]);
      assert Splice(text, from, to, marks, lits)[p..p + |lits[i]|] == left[p..p + |lits[i]|];
    } else {
      SpliceLength(text, from, marks[k], marks[..k], lits[..k]);
    }
  }

  ghost predicate AllLiteral(pieces: seq<Piece>) { forall i :: 0 <= i < |pieces| ==> pieces[i].Literal? }

  ghost function Lits(pieces: seq<Piece>): (r: seq<string>)
    requires AllLiteral(pieces)
    ensures |r| == |pieces|
  {
    seq(|pieces|, i requires 0 <= i < |pieces| => pieces[i].text)
  }

  /** What a parameter that is not written makes the call return. */
  function ReturnOf(p: Piece): Return
    requires !p.Literal?
  {
    if p.Unbound? then Error else p.ret
  }

  lemma NoLits(pieces: seq<Piece>)
    ensures AllLiteral(pieces[..0]) && Lits(pieces[..0]) == []
  {
  }

  lemma InsertOne(text: string, from: int, query: int, marks: seq<int>, pieces: seq<Piece>, i: nat)
    requires i < |marks| == |pieces| && Marks(marks, from, |text|) && 0 <= from <= query <= marks[i]
    requires AllLiteral(pieces[..i]) && pieces[i].Literal? && Marks(marks[..i], from, query)
    ensures AllLiteral(pieces[..i + 1]) && Marks(marks[..i + 1], from, marks[i] + 1)
    ensures Splice(text, from, marks[i] + 1, marks[..i + 1], Lits(pieces[..i + 1]))
            == Splice(text, from, query, marks[..i], Lits(pieces[..i])) + text[query..marks[i]] + pieces[i].text
  {
    SpliceExtend(text, from, query, marks[i], marks[..i], Lits(pieces[..i]));
    SpliceMarker(text, from, marks[i], marks[..i], Lits(pieces[..i]), pieces[i].text);
    assert marks[..i + 1] == marks[..i] + [marks[i]];
    assert pieces[..i + 1] == pieces[..i] + [pieces[i]];
    assert Lits(pieces[..i + 1]) == Lits(pieces[..i]) + [pieces[i].text];
  }

  /** What comes of the statement from `from` on, given its markers and what becomes of their parameters. */
  ghost predicate IsBuilt(text: string, from: nat, marks: seq<int>, pieces: seq<Piece>, r: Built)
    requires from <= |text| && |marks| == |pieces|
  {
    var end := StrChr(text, T.NUL, from);
    && (r.NotBuilt? <==> !AllLiteral(pieces))
    && (r.Built? <==> AllLiteral(pieces) && Marks(marks, from, end))
    && (r.Built? ==> r.text == Splice(text, from, end, marks, Lits(pieces)))
    && (r.NotBuilt? ==>
          exists i :: 0 <= i < |pieces| && !pieces[i].Literal? && AllLiteral(pieces[..i])
                      && r.ret == ReturnOf(pieces[i]))
  }

  /**
  MADB_InsertParams for the statement starting at `queryOffset`, whose markers are
  positions[offset..offset + count].  A marker may lie behind the statement's NUL; then
  the length of what follows the last one is negative.
  */
  method InsertParams(text: string, queryOffset: nat, positions: seq<int>, offset: nat, count: nat, pieces: seq<Piece>)
    returns (r: Built)
    requires queryOffset <= |text| && offset + count <= |positions| && |pieces| == count
    requires Marks(positions[offset..offset + count], queryOffset, |text|)
    ensures IsBuilt(text, queryOffset, positions[offset..offset + count], pieces, r)
  {
    hide Splice, Lits, StrChr;
    var end := StrChr(text, T.NUL, queryOffset);
    var query := queryOffset;
    var out := "";
    ghost var marks := positions[offset..offset + count];
    NoLits(pieces);
    SpliceNone(text, queryOffset, query, query);
    for i := 0 to count
      invariant queryOffset <= query <= |text| && AllLiteral(pieces[..i])
      invariant i > 0 ==> query == marks[i - 1] + 1
      invariant i == 0 ==> query == queryOffset
      invariant Marks(marks[..i], queryOffset, query)
      invariant out == Splice(text, queryOffset, query, marks[..i], Lits(pieces[..i]))
    {
      if !pieces[i].Literal? {
        return NotBuilt(ReturnOf(pieces[i]));
      }
      var mark := positions[offset + i];
      InsertOne(text, queryOffset, query, marks, pieces, i);
      out := out + text[query..mark] + pieces[i].text;
      query := mark + 1;
    }
    assert marks[..count] == marks && pieces[..count] == pieces;
    if end < query {
      return Overrun;
    }
    SpliceExtend(text, queryOffset, query, end, marks, Lits(pieces));
    return Built(out + text[query..end]);
  }

  // ---------------------------------------------------------------------------------
  // Multi-statements
  // ---------------------------------------------------------------------------------

  /** One statement of the batch, and the range of parameters it is given. */
  datatype Part = Part(start: nat, end: nat, offset: nat, count: nat)

  ghost predicate Positions(text: string, positions: seq<int>) {
    && Marks(positions, 0, |text|)
    && forall i :: 0 <= i < |positions| ==> text[positions[i]] != T.NUL
  }

  /** The parameters of a statement are exactly those whose markers lie inside it. */
  ghost predicate OwnsItsMarkers(p: Part, positions: seq<int>) {
    && p.offset + p.count <= |positions|
    && forall i :: 0 <= i < |positions| ==>
         (p.offset <= i < p.offset + p.count <==> p.start <= positions[i] < p.end)
  }

  /** Where the next statement starts, and its first parameter. */
  ghost function NextStart(parts: seq<Part>): nat { if parts == [] then 0 else parts[|parts| - 1].end + 1 }
  ghost function NextParam(parts: seq<Part>): nat {
    if parts == [] then 0 else parts[|parts| - 1].offset + parts[|parts| - 1].count
  }

  /** Statements follow each other, and so do their parameters. */
  ghost predicate Chained(parts: seq<Part>)
    decreases |parts|
  {
    parts == [] ||
    var k := |parts| - 1;
    Chained(parts[..k]) && parts[k].start == NextStart(parts[..k]) && parts[k].offset == NextParam(parts[..k])
  }

  /** A statement runs up to the next NUL. */
  ghost predicate IsStatement(text: string, p: Part) {
    p.start < |text| && p.end == StrChr(text, T.NUL, p.start)
  }

  function NulCount(text: string, from: nat): nat
    decreases |text| - from
  {
    if from >= |text| then 0 else (if text[from] == T.NUL then 1 else 0) + NulCount(text, from + 1)
  }

  lemma {:induction false} NulCountToNext(text: string, from: nat)
    requires from <= |text|
    ensures var end := StrChr(text, T.NUL, from);
            NulCount(text, from) == if end < |text| then 1 + NulCount(text, end + 1) else 0
    decreases |text| - from
  {
    if from < |text| && text[from] != T.NUL {
      NulCountToNext(text, from + 1);
    }
  }

  /** Which parameters belong to the text in front of `cur`. */
  ghost predicate SplitAt(positions: seq<int>, id: nat, cur: nat) {
    && id <= |positions|
    && (forall i :: 0 <= i < id ==> positions[i] < cur)
    && (forall i :: id <= i < |positions| ==> positions[i] >= cur)
  }

  /** CspsInitStatementFromMultistatement: counts the markers in front of the statement's end. */
  method CountParams(text: string, positions: seq<int>, cur: nat, id: nat) returns (end: nat, id': nat)
    requires cur <= |text| && Positions(text, positions) && SplitAt(positions, id, cur)
    ensures end == StrChr(text, T.NUL, cur) && id <= id' && SplitAt(positions, id', end + 1)
    ensures OwnsItsMarkers(Part(cur, end, id, id' - id), positions)
  {
    end := StrChr(text, T.NUL, cur);
    id' := id;
    while id' < |positions| && positions[id'] < end
      invariant id <= id' <= |positions|
      invariant forall i :: 0 <= i < id' ==> positions[i] < end
    {
      id' := id' + 1;
    }
    if id' < |positions| {
      assert text[positions[id']] != T.NUL;
    }
  }

  /** After `n` rounds of the statement loop. */
  ghost predicate Walked(text: string, positions: seq<int>, parts: seq<Part>, cur: nat, id: nat, n: nat) {
    && cur <= |text| + 1 && SplitAt(positions, id, cur)
    && |parts| <= n && Chained(parts) && (cur < |text| ==> |parts| == n)
    && cur == NextStart(parts) && id == NextParam(parts)
    && (forall s :: 0 <= s < |parts| ==> IsStatement(text, parts[s]) && OwnsItsMarkers(parts[s], positions))
    && |parts| + (if cur <= |text| then NulCount(text, cur) else -1) == NulCount(text, 0)
  }

  lemma WalkOn(text: string, positions: seq<int>, parts: seq<Part>, cur: nat, id: nat, n: nat, p: Part)
    requires Walked(text, positions, parts, cur, id, n) && cur < |text|
    requires p.start == cur && p.offset == id && IsStatement(text, p) && OwnsItsMarkers(p, positions)
    requires SplitAt(positions, id + p.count, p.end + 1)
    ensures Walked(text, positions, parts + [p], p.end + 1, id + p.count, n + 1)
  {
    hide SplitAt, OwnsItsMarkers;
    NulCountToNext(text, cur);
    assert (parts + [p])[..|parts|] == parts;
  }

  lemma WalkedSome(text: string, positions: seq<int>, parts: seq<Part>, cur: nat, id: nat, n: nat)
    requires Walked(text, positions, parts, cur, id, n)
    ensures |parts| <= n && Chained(parts)
    ensures forall s :: 0 <= s < |parts| ==> IsStatement(text, parts[s]) && OwnsItsMarkers(parts[s], positions)
  {
  }

  lemma {:induction false} NulBehind(text: string, from: nat)
    requires from < |text| && text[|text| - 1] == T.NUL
    ensures NulCount(text, from) >= 1
    decreases |text| - from
  {
    if from + 1 < |text| {
      NulBehind(text, from + 1);
    }
  }

  /** Number of statements the NULs cut the text into; behind a last NUL there is none. */
  ghost function Cuts(text: string): nat {
    NulCount(text, 0) + if text == [] || text[|text| - 1] == T.NUL then 0 else 1
  }

  /** The walk reaches the end of the text, and has given out all parameters, if it has enough rounds. */
  lemma WalkedAll(text: string, positions: seq<int>, parts: seq<Part>, cur: nat, id: nat, n: nat)
    requires Positions(text, positions) && Walked(text, positions, parts, cur, id, n)
    ensures NextStart(parts) >= |text| <==> n >= Cuts(text)
    ensures NextStart(parts) >= |text| ==> NextParam(parts) == |positions|
  {
    hide Chained, OwnsItsMarkers;
    assert parts != [] ==> IsStatement(text, parts[|parts| - 1]);
    if cur < |text| && text[|text| - 1] == T.NUL {
      NulBehind(text, cur);
    }
    assert positions != [] ==> positions[|positions| - 1] < |text|;
  }

  /** A single statement that runs up to the first NUL. */
  lemma OneStatement(text: string)
    requires text != []
    ensures StrChr(text, T.NUL, 0) + 1 >= |text| <==> 1 >= Cuts(text)
  {
    var end := StrChr(text, T.NUL, 0);
    NulCountToNext(text, 0);
    if end + 1 < |text| && text[|text| - 1] == T.NUL {
      NulBehind(text, end + 1);
    }
  }

  lemma WalkedNone(text: string, positions: seq<int>)
    requires Positions(text, positions)
    ensures Walked(text, positions, [], 0, 0, 0)
  {
  }

  lemma WalkedAt(text: string, positions: seq<int>, parts: seq<Part>, cur: nat, id: nat, n: nat)
    requires Walked(text, positions, parts, cur, id, n)
    ensures SplitAt(positions, id, cur)
  {
  }

  /** A round behind the end of the text. */
  lemma WalkedPast(text: string, positions: seq<int>, parts: seq<Part>, cur: nat, id: nat, n: nat)
    requires Walked(text, positions, parts, cur, id, n) && cur >= |text|
    ensures Walked(text, positions, parts, cur, id, n + 1)
  {
  }

  /** A single statement, given all parameters. */
  function Single(text: string, params: seq<int>): Part { Part(0, StrChr(text, T.NUL, 0), 0, |params|) }

  /**
  The statement loop of MADB_StmtExecute, as far as it cuts text and parameters.  Only with
  two statements or more are the parameters counted out; a single one is given them all.
  */
  method SplitStatements(text: string, positions: seq<int>, stmtCount: nat) returns (parts: seq<Part>)
    requires Positions(text, positions) && (stmtCount > 0 ==> text != [])
    ensures |parts| <= stmtCount && Chained(parts)
    ensures forall s :: 0 <= s < |parts| ==> IsStatement(text, parts[s])
    ensures stmtCount == 1 ==> parts == [Single(text, positions)]
    ensures stmtCount != 1 ==> forall s :: 0 <= s < |parts| ==> OwnsItsMarkers(parts[s], positions)
    ensures NextStart(parts) >= |text| <==> stmtCount >= Cuts(text)
    ensures NextStart(parts) >= |text| ==> NextParam(parts) == |positions|
  {
    hide Walked, NulCount, OwnsItsMarkers, Positions, Cuts;
    if stmtCount == 1 {
      OneStatement(text);
      return [Single(text, positions)];
    }
    parts := [];
    var cur: nat, id: nat := 0, 0;
    WalkedNone(text, positions);
    for n := 0 to stmtCount
      invariant Walked(text, positions, parts, cur, id, n)
    {
      WalkedAt(text, positions, parts, cur, id, n);
      if cur >= |text| {
        WalkedPast(text, positions, parts, cur, id, n);
        continue;
      }
      var end, id' := CountParams(text, positions, cur, id);
      WalkOn(text, positions, parts, cur, id, n, Part(cur, end, id, id' - id));
      parts := parts + [Part(cur, end, id, id' - id)];
      cur, id := end + 1, id';
    }
    WalkedAll(text, positions, parts, cur, id, stmtCount);
    WalkedSome(text, positions, parts, cur, id, stmtCount);
  }

  /** The NULs counted are as many as the offsets that list them. */
  lemma {:induction false} NulCountIs(text: string, from: nat, offsets: seq<int>)
    requires from <= |text| && T.Increasing(offsets)
    requires forall x :: x in offsets ==> from <= x < |text|
    requires forall k :: from <= k < |text| ==> (text[k] == T.NUL <==> k in offsets)
    ensures NulCount(text, from) == |offsets|
    decreases |text| - from
  {
    assert offsets != [] ==> offsets[0] in offsets;
    if from == |text| {
    } else if text[from] == T.NUL {
      var i :| 0 <= i < |offsets| && offsets[i] == from;
      assert i == 0;
      var rest := offsets[1..];
      forall x | x in offsets ensures x == from || x in rest {
        var j :| 0 <= j < |offsets| && offsets[j] == x;
        assert j > 0 ==> rest[j - 1] == x;
      }
      forall x | x in rest ensures from < x < |text| && x in offsets {
        var j :| 0 <= j < |rest| && rest[j] == x;
        assert offsets[j + 1] == x && offsets[j + 1] in offsets && offsets[0] < offsets[j + 1];
      }
      NulCountIs(text, from + 1, rest);
    } else {
      NulCountIs(text, from + 1, offsets);
    }
  }

  lemma SameLength(t0: string, text: string, edits: map<int, char>)
    requires T.BufferIs(t0, text, |text|, edits)
    ensures |text| == |t0|
  {
  }

  /** In the finished buffer the separators are the NULs, and no marker is one. */
  lemma BatchPositions(t0: string, text: string, params: seq<int>, edits: map<int, char>, separators: seq<int>,
                       echoes: seq<int>)
    requires T.BufferIs(t0, text, |text|, edits) && T.EditsOk(t0, edits, separators, echoes)
    requires params == T.PlainOffsets(t0, '?', 0) && separators <= T.PlainOffsets(t0, ';', 0)
    requires forall k :: 0 <= k < |t0| ==> t0[k] != T.NUL
    ensures Positions(text, params) && T.Increasing(separators) && forall x :: x in separators ==> 0 <= x < |text|
    ensures forall k :: 0 <= k < |text| ==> (text[k] == T.NUL <==> k in separators)
  {
    hide T.BufferIs, T.EditsOk, T.PlainOffsets, T.InComment, T.InString;
    T.OffsetsArePlaces(t0, '?', 0);
    T.OffsetsArePlaces(t0, ';', 0);
    SameLength(t0, text, edits);
    var all := T.PlainOffsets(t0, ';', 0);
    assert forall i :: 0 <= i < |separators| ==> separators[i] == all[i] && all[i] in all;
    forall k | 0 <= k < |text|
      ensures text[k] == T.NUL <==> k in separators
      ensures k in params ==> text[k] == '?'
    {
      T.FinishedBuffer(t0, text, edits, separators, echoes, k);
    }
    forall i | 0 <= i < |params|
      ensures 0 <= params[i] < |text| && text[params[i]] != T.NUL
    {
      assert params[i] in params;
    }
  }

  /** Where the first statement ends, and how many there are, in terms of the separators. */
  lemma CutsAre(text: string, separators: seq<int>)
    requires T.Increasing(separators) && forall x :: x in separators ==> 0 <= x < |text|
    requires forall k :: 0 <= k < |text| ==> (text[k] == T.NUL <==> k in separators)
    ensures StrChr(text, T.NUL, 0) == if separators == [] then |text| else separators[0]
    ensures Cuts(text) == |separators| + if T.EndBefore(separators, |separators|) == |text| - 1 then 0 else 1
  {
    NulCountIs(text, 0, separators);
    var end := StrChr(text, T.NUL, 0);
    if separators != [] {
      assert separators[0] in separators && separators[|separators| - 1] in separators;
    }
    if end < |text| {
      var i :| 0 <= i < |separators| && separators[i] == end;
      assert separators[0] <= separators[i];
    }
    if text != [] && text[|text| - 1] == T.NUL {
      var i :| 0 <= i < |separators| && separators[i] == |text| - 1;
      var last := separators[|separators| - 1];
      assert separators[i] <= last && last in separators;
    }
  }

  /** How a query is executed: refused, sent as it is, or statement by statement. */
  datatype Plan = Refused | Whole | Statements(parts: seq<Part>)

  /** INSERT, UPDATE or DELETE among the statements. */
  predicate HasDml(subQueries: seq<T.SubQuery>) {
    exists s :: 0 <= s < |subQueries| && subQueries[s].kind in {T.Insert, T.Update, T.Delete}
  }

  ghost predicate FirstAt(text: string, tokens: seq<int>, word: string, i: int)
    requires 0 <= i < |tokens| && forall i :: 0 <= i < |tokens| ==> 0 <= tokens[i]
  {
    T.WordAt(text, tokens[i], word) && forall k :: 0 <= k < i ==> !T.WordAt(text, tokens[k], word)
  }

  /** `offset` is the first token beginning with `word`, or 0 when there is none. */
  ghost predicate FirstToken(text: string, tokens: seq<int>, word: string, offset: int)
    requires forall i :: 0 <= i < |tokens| ==> 0 <= tokens[i]
  {
    || (exists i :: 0 <= i < |tokens| && FirstAt(text, tokens, word, i) && tokens[i] == offset)
    || (offset == 0 && forall i :: 0 <= i < |tokens| ==> !T.WordAt(text, tokens[i], word))
  }

  const RETURNING := "RETURNING"
  const ON_DUPLICATE := "ON DUPLICATE KEY UPDATE"

  /** Does the query return a result? A RETURNING counts if there is DML, unless it starts the text. */
  ghost predicate Answers(q: T.Query)
    requires forall i :: 0 <= i < |q.tokens| ==> 0 <= q.tokens[i]
    reads q
  {
    q.returnsResult || (HasDml(q.subQueries) && !FirstToken(q.text, q.tokens, RETURNING, 0))
  }

  /** Statements are prepared one by one: more than one, batches allowed, and a marker or a result among them. */
  ghost predicate OneByOne(q: T.Query)
    requires forall i :: 0 <= i < |q.tokens| ==> 0 <= q.tokens[i]
    reads q
  {
    |q.subQueries| > 1 && q.batchAllowed && (q.params != [] || Answers(q))
  }

  /** No marker stands behind the first separator. */
  ghost predicate MarkersInFirst(q: T.Query)
    reads q
  {
    q.separators == [] || forall i :: 0 <= i < |q.params| ==> q.params[i] < q.separators[0]
  }

  lemma NotFirst(text: string, tokens: seq<int>, word: string, offset: int)
    requires forall i :: 0 <= i < |tokens| ==> 0 <= tokens[i]
    requires FirstToken(text, tokens, word, offset) && offset != 0
    ensures !FirstToken(text, tokens, word, 0)
  {
    hide T.WordAt;
  }

  lemma SomeText(q: T.Query, t0: string, replaceCall: bool)
    requires q.Parsed(t0, replaceCall)
    ensures |q.text| == |t0| && (q.subQueries != [] ==> t0 != [])
  {
    hide T.PlainOffsets, T.TokensOk, T.EditsOk, T.SkipEnd, T.Calls, T.StatementSizes;
    if q.subQueries != [] {
      assert T.IsHead(q.tokens, q.ends, q.heads[0]);
    }
  }

  /** A single statement given all parameters. */
  lemma SingleOwns(text: string, params: seq<int>)
    requires Positions(text, params)
    ensures OwnsItsMarkers(Single(text, params), params) <==>
              forall i :: 0 <= i < |params| ==> params[i] < StrChr(text, T.NUL, 0)
  {
    hide StrChr;
  }

  /** The markers of the part and, of one row, what becomes of its parameters. */
  ghost predicate PartOk(text: string, params: seq<int>, p: Part) {
    && p.start <= |text| && p.offset + p.count <= |params|
    && Marks(params[p.offset..p.offset + p.count], p.start, |text|)
  }

  lemma OwnIsOk(text: string, params: seq<int>, p: Part)
    requires Positions(text, params) && IsStatement(text, p)
    requires OwnsItsMarkers(p, params) || p == Single(text, params)
    ensures PartOk(text, params, p)
  {
    hide StrChr;
  }

  /** A statement that owns its markers is built from its literals; a single one that does not never is. */
  lemma OverrunIff(text: string, params: seq<int>, p: Part, pieces: seq<Piece>, r: Built)
    requires Positions(text, params) && IsStatement(text, p) && PartOk(text, params, p) && |pieces| == p.count
    requires OwnsItsMarkers(p, params) || p == Single(text, params)
    requires IsBuilt(text, p.start, params[p.offset..p.offset + p.count], pieces, r)
    ensures r.Overrun? <==> AllLiteral(pieces) && !OwnsItsMarkers(p, params)
  {
    hide StrChr, Splice, Lits, AllLiteral;
    var marks := params[p.offset..p.offset + p.count];
    assert forall i :: 0 <= i < p.count ==> marks[i] == params[p.offset + i];
    assert p == Single(text, params) ==> marks == params;
  }

  /** Every part is a statement and owns its markers. */
  ghost predicate AllOwn(parts: seq<Part>, params: seq<int>) {
    forall s :: 0 <= s < |parts| ==> OwnsItsMarkers(parts[s], params)
  }

  /** Every statement has two tokens or more; behind a last semicolon there need be none. */
  ghost predicate AllCounted(q: T.Query, t0: string)
    reads q
  {
    forall i :: 0 <= i <= |q.ends| ==> T.SizeOf(q, t0, i) >= 2 || T.NothingBehind(q, t0, i)
  }

  /** What the separators say about the buffer of a parsed query. */
  lemma ParsedCuts(q: T.Query, t0: string, replaceCall: bool)
    requires q.Parsed(t0, replaceCall) && forall k :: 0 <= k < |t0| ==> t0[k] != T.NUL
    ensures Positions(q.text, q.params) && |q.text| == |t0| && (q.subQueries != [] ==> t0 != [])
    ensures StrChr(q.text, T.NUL, 0) == if q.separators == [] then |q.text| else q.separators[0]
    ensures |q.subQueries| >= Cuts(q.text) <==>
              if q.batchAllowed then AllCounted(q, t0) else q.subQueries != [] || t0 == []
  {
    hide T.PlainOffsets, T.TokensOk, T.BufferIs, T.EditsOk, Sum, T.AtLeastTwo, T.SkipEnd, T.TokenOffsets, T.Calls;
    hide T.StatementSizes, T.SizeOf, T.HeadsOk, Cuts, Positions, StrChr, T.TypeIs;
    BatchPositions(t0, q.text, q.params, q.edits, q.separators, q.echoes);
    CutsAre(q.text, q.separators);
    SomeText(q, t0, replaceCall);
    T.EveryStatementCounted(q, t0, replaceCall);
  }

  /**
  The statements of a parsed query that is executed one by one: each is given exactly the
  markers lying inside it if and only if there is not exactly one, or no marker stands
  behind the first separator.  The whole text is executed, with all parameters, if and only
  if each statement has two tokens or more, its semicolon being one of them; where batches
  are not allowed the text is one statement.
  */
  method CutStatements(q: T.Query, ghost t0: string, ghost replaceCall: bool) returns (parts: seq<Part>)
    requires q.Parsed(t0, replaceCall) && forall k :: 0 <= k < |t0| ==> t0[k] != T.NUL
    ensures Chained(parts) && forall s :: 0 <= s < |parts| ==> IsStatement(q.text, parts[s])
    ensures |q.subQueries| == 1 ==> parts == [Single(q.text, q.params)]
    ensures forall s :: 0 <= s < |parts| ==> PartOk(q.text, q.params, parts[s])
    ensures AllOwn(parts, q.params) <==> |q.subQueries| != 1 || MarkersInFirst(q)
    ensures NextStart(parts) >= |q.text| <==>
              if q.batchAllowed then AllCounted(q, t0) else q.subQueries != [] || t0 == []
    ensures NextStart(parts) >= |q.text| ==> NextParam(parts) == |q.params|
  {
    hide T.Query.Parsed, Cuts, Chained, IsStatement, OwnsItsMarkers, StrChr, AllCounted, PartOk;
    ParsedCuts(q, t0, replaceCall);
    parts := SplitStatements(q.text, q.params, |q.subQueries|);
    forall s | 0 <= s < |parts|
      ensures PartOk(q.text, q.params, parts[s])
    {
      OwnIsOk(q.text, q.params, parts[s]);
    }
    if |q.subQueries| == 1 {
      SingleOwns(q.text, q.params);
      assert parts[0] == Single(q.text, q.params);
    }
    ParsedCuts(q, t0, replaceCall);
  }

  /** MADB_FindToken */
  method FindToken(text: string, tokens: seq<int>, word: string) returns (offset: int)
    requires forall i :: 0 <= i < |tokens| ==> 0 <= tokens[i]
    ensures FirstToken(text, tokens, word, offset)
  {
    for i := 0 to |tokens|
      invariant forall k :: 0 <= k < i ==> !T.WordAt(text, tokens[k], word)
    {
      if T.WordAt(text, tokens[i], word) {
        assert FirstAt(text, tokens, word, i);
        return tokens[i];
      }
    }
    return 0;
  }

  /** The markers of a parsed text are where a ? stands. */
  lemma ParsedMarkers(q: T.Query, t0: string, replaceCall: bool)
    requires q.Parsed(t0, replaceCall) && forall k :: 0 <= k < |t0| ==> t0[k] != T.NUL
    ensures T.TokensOk(q.text, q.tokens, q.params, |q.text| + 1) && T.Increasing(q.params)
    ensures forall x :: x in q.params ==> 0 <= x < |q.text| && q.text[x] == '?'
    ensures forall i :: 0 <= i < |q.tokens| ==> 0 <= q.tokens[i]
    ensures q.hasParameters <==> q.params != []
  {
    T.OffsetsArePlaces(t0, '?', 0);
    forall x | x in q.params
      ensures 0 <= x < |q.text| && q.text[x] == '?'
    {
      T.FinishedBuffer(t0, q.text, q.edits, q.separators, q.echoes, x);
    }
    forall i | 0 <= i < |q.tokens|
      ensures 0 <= q.tokens[i]
    {
      assert q.tokens[i] in q.tokens;
    }
  }

  /**
  What MADB_StmtPrepare and MADB_StmtExecute make of a parsed query: several statements are
  refused for a streaming cursor, and SET NAMES unless it comes in a batch executed one by
  one; without markers and results the text is sent as it is.
  */
  method SplitBatch(q: T.Query, noCache: bool, ghost t0: string, ghost replaceCall: bool) returns (plan: Plan)
    requires q.Parsed(t0, replaceCall) && forall k :: 0 <= k < |t0| ==> t0[k] != T.NUL
    ensures forall i :: 0 <= i < |q.tokens| ==> 0 <= q.tokens[i]
    ensures plan.Refused? <==> (|q.subQueries| > 1 && noCache) || (q.queryType == T.SetNames && !OneByOne(q))
    ensures plan.Whole? <==>
              !plan.Refused? && q.params == [] && !Answers(q) && (|q.subQueries| <= 1 || q.batchAllowed)
    ensures plan.Statements? ==>
              && Chained(plan.parts) && (forall s :: 0 <= s < |plan.parts| ==> IsStatement(q.text, plan.parts[s]))
              && (AllOwn(plan.parts, q.params) <==> |q.subQueries| != 1 || MarkersInFirst(q))
    ensures plan.Statements? ==>
              && (NextStart(plan.parts) >= |q.text| ==> NextParam(plan.parts) == |q.params|)
              && (NextStart(plan.parts) >= |q.text| <==>
                    if q.batchAllowed then AllCounted(q, t0) else q.subQueries != [] || t0 == [])
  {
    hide T.Query.Parsed, Chained, IsStatement, AllOwn, StrChr, AllCounted, FirstToken, HasDml, MarkersInFirst;
    ParsedMarkers(q, t0, replaceCall);
    var returning := FindToken(q.text, q.tokens, RETURNING);
    if returning != 0 {
      NotFirst(q.text, q.tokens, RETURNING, returning);
    }
    var answers := q.returnsResult || (HasDml(q.subQueries) && returning != 0);
    if |q.subQueries| > 1 && noCache {
      return Refused;
    }
    if |q.subQueries| <= 1 || (!answers && !q.hasParameters) || !q.batchAllowed {
      if q.queryType == T.SetNames {
        return Refused;
      }
      if !answers && !q.hasParameters && (|q.subQueries| <= 1 || q.batchAllowed) {
        return Whole;
      }
    }
    var parts := CutStatements(q, t0, replaceCall);
    plan := Statements(parts);
  }

  /** A letter at `i` that is not the first of the word. */
  lemma NotWord(t: string, i: nat, word: string)
    requires i < |t| && word != "" && Upper(t[i]) != word[0]
    ensures !T.WordAt(t, i, word)
  {
    assert Upper(t[i + 0]) != word[0];
  }

  lemma LeadingOffsets(t: string)
    requires t == ";SELECT ?"
    ensures T.PlainOffsets(t, '?', 0) == [8] && T.PlainOffsets(t, ';', 0) == [0]
    ensures forall k :: 0 <= k < 9 ==> !T.InComment(t, 0, k)
  {
    assert forall k :: 1 <= k < 7 ==> T.IsLetter(t[k]);
    T.LettersArePlain(t, '?', 1, 6);
    T.LettersArePlain(t, ';', 1, 6);
    assert T.PlainAt(t, 0) && T.PlainAt(t, 7) && T.PlainAt(t, 8);
    assert T.PlainOffsets(t, '?', 8) == [8] && T.PlainOffsets(t, ';', 8) == [];
    forall k | 0 <= k < 9
      ensures !T.InComment(t, 0, k)
    {
      assert !T.InComment(t, 8, k) && !T.InComment(t, 7, k);
    }
  }

  lemma LeadingTokens(t: string)
    requires t == ";SELECT ?"
    ensures T.TokenOffsets(t, 0, false) == [0, 1, 8]
  {
    assert forall k :: 1 <= k < 7 ==> T.IsLetter(t[k]);
    T.TokenLetters(t, 2, 5);
    assert T.SkipEnd(t, 8) == 8 && T.SkipEnd(t, 7) == 8 && T.SkipEnd(t, 1) == 1 && T.SkipEnd(t, 0) == 0;
    assert T.AfterToken(t, 8) == [] && T.TokenOffsets(t, 7, true) == [8];
    assert T.AfterToken(t, 1) == [8];
    assert T.TokenOffsets(t, 1, false) == [1] + [8];
    assert T.AfterToken(t, 0) == [1, 8];
  }

  lemma SelectAt(u: string, first: nat, second: nat)
    requires |u| == 9 && u[1..] == "SELECT ?" && first <= 1 && (first == 0 ==> u[0] == ';')
    ensures T.QueryTypeAt(u, first, second) == T.Select
  {
    assert forall k :: 0 <= k < 6 ==> u[1 + k] == u[1..][k] == "SELECT"[k];
    assert T.FirstLetter(u, 1) == 1 && T.FirstLetter(u, first) == 1;
    NotWord(u, 1, "DO");
    assert T.WordAt(u, 1, "SELECT");
  }

  lemma NoCallThere(t: string, tokens: seq<int>, ends: seq<int>, m: int)
    requires t == ";SELECT ?" && tokens == [0, 1, 8]
    ensures !T.LeadingCall(t, tokens, ends, m)
  {
    if 0 <= m < 3 {
      NotWord(t, tokens[m], T.CALL);
    }
  }

  lemma ParsedFacts(q: T.Query, t: string, replaceCall: bool)
    requires q.Parsed(t, replaceCall)
    ensures |q.text| == |t| && q.tokens == T.TokenOffsets(t, 0, false) && q.params == T.PlainOffsets(t, '?', 0)
    ensures q.ends <= T.PlainOffsets(t, ';', 0) && q.separators == if q.batchAllowed then q.ends else []
    ensures T.PossiblyMulti(q.queryType) ==> q.ends == T.PlainOffsets(t, ';', 0)
    ensures !T.PossiblyMulti(q.queryType) ==> |q.subQueries| == 1
    ensures T.HeadsOk(t, q.text, q.tokens, q.ends, q.subQueries, q.heads)
    ensures q.subQueries != [] ==> q.queryType == q.subQueries[0].kind
    ensures |q.subQueries| == T.AtLeastTwo(T.StatementSizes(q.tokens, q.ends, |t|))
  {
    hide T.TokensOk, T.EditsOk, T.PlainOffsets, T.TokenOffsets, T.SkipEnd, T.Calls, T.StatementSizes, T.HeadsOk;
  }

  /** The buffer behind the semicolon is as it was. */
  lemma LeadingText(q: T.Query, t: string, replaceCall: bool)
    requires t == ";SELECT ?" && q.Parsed(t, replaceCall)
    ensures |q.text| == 9 && q.text[1..] == t[1..] && (0 !in q.ends ==> q.text[0] == ';')
  {
    LeadingOffsets(t);
    LeadingTokens(t);
    hide T.Query.Parsed, T.LeadingCall, T.InComment, T.PlainOffsets;
    ParsedFacts(q, t, replaceCall);
    T.OffsetsArePlaces(t, ';', 0);
    forall k | 0 <= k < 9 && k !in q.separators
      ensures q.text[k] == t[k]
    {
      T.Overwritten(q, t, replaceCall, k);
      forall m ensures !T.LeadingCall(t, q.tokens, q.ends, m) { NoCallThere(t, q.tokens, q.ends, m); }
    }
  }

  lemma LeadingKind(q: T.Query, t: string, replaceCall: bool)
    requires t == ";SELECT ?" && q.Parsed(t, replaceCall)
    ensures T.PossiblyMulti(q.queryType)
  {
    LeadingOffsets(t);
    LeadingTokens(t);
    LeadingText(q, t, replaceCall);
    ParsedFacts(q, t, replaceCall);
    hide T.Query.Parsed, T.QueryTypeAt, T.WordAt, T.PlainOffsets, T.TokenOffsets, T.StatementSizes;
    if !T.PossiblyMulti(q.queryType) {
      var m := q.heads[0];
      assert T.IsHead(q.tokens, q.ends, m) && q.queryType == T.KindOf(t, q.text, q.tokens, q.ends, m);
      var u := T.BufferAt(t, q.text, q.tokens[m + 1]);
      assert u[1..] == "SELECT ?";
      SelectAt(u, q.tokens[m], q.tokens[m + 1]);
    }
  }

  lemma LeadingSizes()
    ensures T.AtLeastTwo(T.StatementSizes([0, 1, 8], [0], 9)) == 1
  {
    var tokens := [0, 1, 8];
    assert tokens[..2] == [0, 1] && [0, 1][..1] == [0] && [0][..0] == [];
    assert T.TokensIn([0], -1, 0) == 1 && T.TokensIn([0], 0, 9) == 0;
    assert T.TokensIn([0, 1], -1, 0) == 1 && T.TokensIn([0, 1], 0, 9) == 1;
    var sizes := T.StatementSizes(tokens, [0], 9);
    assert sizes == [1, 2];
    assert sizes[..1] == [1] && [1][..0] == [];
  }

  /**
  A semicolon in front of SELECT ?: its only sub-query is given the marker, and the text
  executed is the empty one in front of the separator.
  */
  lemma LeadingSeparator(q: T.Query, replaceCall: bool)
    requires q.Parsed(";SELECT ?", replaceCall) && q.batchAllowed
    ensures q.params == [8] && q.separators == [0] && |q.subQueries| == 1 && !MarkersInFirst(q)
  {
    hide T.Query.Parsed, T.HeadsOk, T.TokenOffsets, T.PlainOffsets, T.PossiblyMulti, T.StatementSizes;
    var t := ";SELECT ?";
    LeadingOffsets(t);
    LeadingTokens(t);
    LeadingKind(q, t, replaceCall);
    LeadingSizes();
    ParsedFacts(q, t, replaceCall);
    assert q.params[0] >= q.separators[0];
  }

  // ---------------------------------------------------------------------------------
  // Parameter rows, one query each
  // ---------------------------------------------------------------------------------

  /** One row of the parameter array: marked SQL_PARAM_IGNORE, or what its query text came to. */
  datatype ParamRow = Ignored | Row(query: Built)

  datatype ParamStatus = ParamSuccess | ParamError | ParamUnused | ParamUnavailable

  ghost predicate Buildable(rows: seq<ParamRow>) {
    forall j :: 0 <= j < |rows| ==> rows[j].Row? ==> rows[j].query.Built?
  }

  /** The queries of the rows that are not ignored. */
  ghost function Queries(rows: seq<ParamRow>): seq<string>
    requires Buildable(rows)
  {
    if rows == [] then []
    else
      var k := |rows| - 1;
      var rest := Queries(rows[..k]);
      if rows[k].Ignored? then rest else rest + [rows[k].query.text]
  }

  ghost function Rejected(rows: seq<ParamRow>, accepts: seq<bool>): nat
    requires |rows| == |accepts|
  {
    if rows == [] then 0
    else
      var k := |rows| - 1;
      Rejected(rows[..k], accepts[..k]) + if rows[k].Row? && !accepts[k] then 1 else 0
  }

  lemma {:induction false} RejectedBound(rows: seq<ParamRow>, accepts: seq<bool>)
    requires |rows| == |accepts|
    ensures Rejected(rows, accepts) <= |rows|
    ensures Rejected(rows, accepts) == |rows| <==> forall j :: 0 <= j < |rows| ==> rows[j].Row? && !accepts[j]
    ensures Rejected(rows, accepts) == 0 <==> forall j :: 0 <= j < |rows| ==> rows[j].Ignored? || accepts[j]
  {
    if rows != [] {
      var k := |rows| - 1;
      RejectedBound(rows[..k], accepts[..k]);
      assert forall j :: 0 <= j < k ==> rows[..k][j] == rows[j] && accepts[..k][j] == accepts[j];
    }
  }

  /** The return code at the label `end` of MADB_StmtExecute. */
  function Aggregate(ret: Return, errorCount: nat, arraySize: nat): Return {
    if errorCount == 0 then ret else if errorCount < arraySize then SuccessWithInfo else Error
  }

  function Fate(row: ParamRow, accepted: bool, last: bool): ParamStatus {
    if row.Ignored? then ParamUnused
    else if accepted then ParamSuccess
    else if last then ParamError
    else ParamUnavailable
  }

  /** What the application reads in the status array for row `j`. */
  ghost predicate StatusOk(row: ParamRow, accepted: bool, last: bool, status: ParamStatus) {
    && (status == ParamUnused <==> row.Ignored?)
    && (status == ParamSuccess <==> row.Row? && accepted)
    && (status == ParamError <==> row.Row? && !accepted && last)
  }

  /** The first row whose query cannot be built. */
  ghost predicate StopsAt(rows: seq<ParamRow>, j: nat) {
    j < |rows| && Buildable(rows[..j]) && rows[j].Row? && !rows[j].query.Built?
  }

  lemma RowsOneMore(rows: seq<ParamRow>, accepts: seq<bool>, j: nat)
    requires j < |rows| == |accepts| && Buildable(rows[..j])
    ensures Rejected(rows[..j + 1], accepts[..j + 1])
            == Rejected(rows[..j], accepts[..j]) + if rows[j].Row? && !accepts[j] then 1 else 0
    ensures rows[j].Ignored? ==> Buildable(rows[..j + 1]) && Queries(rows[..j + 1]) == Queries(rows[..j])
    ensures rows[j].Row? && rows[j].query.Built? ==>
              Buildable(rows[..j + 1]) && Queries(rows[..j + 1]) == Queries(rows[..j]) + [rows[j].query.text]
  {
    assert rows[..j + 1][..j] == rows[..j] && accepts[..j + 1][..j] == accepts[..j];
  }

  /** What the loop has done to the rows before `j`: a query sent for each not ignored, and its status. */
  ghost predicate RanRows(rows: seq<ParamRow>, arraySize: nat, accepts: seq<bool>, j: nat, errors: nat,
                          status: seq<ParamStatus>, status0: seq<ParamStatus>, sent: seq<string>)
  {
    && j <= |rows| == |accepts| && |rows| <= |status| == |status0| && Buildable(rows[..j])
    && sent == Queries(rows[..j]) && errors == Rejected(rows[..j], accepts[..j])
    && (forall x :: 0 <= x < j ==> StatusOk(rows[x], accepts[x], x == arraySize - 1, status[x]))
    && (forall x :: j <= x < |status| ==> status[x] == status0[x])
  }

  lemma RanMore(rows: seq<ParamRow>, arraySize: nat, accepts: seq<bool>, j: nat, errors: nat,
                status: seq<ParamStatus>, status0: seq<ParamStatus>, sent: seq<string>, fate: ParamStatus)
    requires RanRows(rows, arraySize, accepts, j, errors, status, status0, sent) && j < |rows|
    requires rows[j].Row? ==> rows[j].query.Built?
    requires StatusOk(rows[j], accepts[j], j == arraySize - 1, fate)
    ensures RanRows(rows, arraySize, accepts, j + 1, errors + if rows[j].Row? && !accepts[j] then 1 else 0,
                    status[j := fate], status0, if rows[j].Row? then sent + [rows[j].query.text] else sent)
  {
    hide Queries, Rejected;
    RowsOneMore(rows, accepts, j);
  }

  lemma RanNone(rows: seq<ParamRow>, arraySize: nat, accepts: seq<bool>, status0: seq<ParamStatus>)
    requires |rows| == |accepts| <= |status0|
    ensures RanRows(rows, arraySize, accepts, 0, 0, status0, status0, [])
  {
  }

  lemma RanBuildable(rows: seq<ParamRow>, arraySize: nat, accepts: seq<bool>, j: nat, errors: nat,
                     status: seq<ParamStatus>, status0: seq<ParamStatus>, sent: seq<string>)
    requires RanRows(rows, arraySize, accepts, j, errors, status, status0, sent)
    ensures j <= |rows| && Buildable(rows[..j])
  {
  }

  lemma StatusIs(row: ParamRow, accepted: bool, last: bool, status: ParamStatus)
    ensures StatusOk(row, accepted, last, status) <==> status == Fate(row, accepted, last)
  {
  }

  /**
  The loop over the parameter rows of one statement, for an INSERT that is not rewritten or
  any other statement; `accepts` is what the server answers to each row's query.  A status
  is ERROR only in the last row of the array, which a statement without parameters, run
  once, reaches only if the array has one.
  */
  method RunRows(rows: seq<ParamRow>, arraySize: nat, accepts: seq<bool>, status0: seq<ParamStatus>)
    returns (stopped: bool, ret: Return, errors: nat, processed: nat, status: seq<ParamStatus>, sent: seq<string>)
    requires |rows| == |accepts| <= |status0|
    ensures |status| == |status0| && (stopped <==> !Buildable(rows))
    ensures Buildable(rows) ==>
              processed == |rows| && RanRows(rows, arraySize, accepts, |rows|, errors, status, status0, sent)
    ensures !Buildable(rows) ==>
              exists j: nat :: StopsAt(rows, j) && processed == j + 1
                && RanRows(rows, arraySize, accepts, j, errors, status, status0, sent)
                && (rows[j].query.NotBuilt? ==> ret == rows[j].query.ret)
  {
    hide Queries, Rejected, RanRows, StatusOk;
    stopped, ret, errors, processed, status, sent := false, Success, 0, 0, status0, [];
    RanNone(rows, arraySize, accepts, status0);
    for j := 0 to |rows|
      invariant processed == j && |status| == |status0|
      invariant RanRows(rows, arraySize, accepts, j, errors, status, status0, sent)
    {
      RanBuildable(rows, arraySize, accepts, j, errors, status, status0, sent);
      processed := processed + 1;
      if rows[j].Ignored? {
        StatusIs(rows[j], accepts[j], j == arraySize - 1, ParamUnused);
        RanMore(rows, arraySize, accepts, j, errors, status, status0, sent, ParamUnused);
        status := status[j := ParamUnused];
        continue;
      }
      if !rows[j].query.Built? {
        assert StopsAt(rows, j);
        ret := if rows[j].query.NotBuilt? then rows[j].query.ret else Error;
        return true, ret, errors, processed, status, sent;
      }
      var fate := if accepts[j] then ParamSuccess else if j == arraySize - 1 then ParamError else ParamUnavailable;
      StatusIs(rows[j], accepts[j], j == arraySize - 1, fate);
      RanMore(rows, arraySize, accepts, j, errors, status, status0, sent, fate);
      sent := sent + [rows[j].query.text];
      if !accepts[j] {
        errors := errors + 1;
      }
      status := status[j := fate];
    }
    RanBuildable(rows, arraySize, accepts, |rows|, errors, status, status0, sent);
    assert rows[..|rows|] == rows;
  }

  /** How often the row loop runs: once per row of the array, or once without parameters. */
  function RowsRun(paramCount: nat, arraySize: nat): nat { if paramCount > 0 then arraySize else 1 }

  /**
  SQL_SUCCESS if no row is rejected.  SQL_ERROR needs as many rejected rows as the array
  has: all of them, or the one run of a statement without parameters if the array is no
  larger than that.
  */
  lemma ReturnTellsHowManyFailed(rows: seq<ParamRow>, accepts: seq<bool>, paramCount: nat, arraySize: nat)
    requires |rows| == |accepts| == RowsRun(paramCount, arraySize)
    ensures var ret := Aggregate(Success, Rejected(rows, accepts), arraySize);
            && (ret == Success <==> forall j :: 0 <= j < |rows| ==> rows[j].Ignored? || accepts[j])
            && (ret == Error <==>
                  && rows != [] && (forall j :: 0 <= j < |rows| ==> rows[j].Row? && !accepts[j])
                  && (paramCount > 0 || arraySize <= 1))
            && (ret == Success || ret == Error || ret == SuccessWithInfo)
  {
    RejectedBound(rows, accepts);
  }

  /** Without parameters, an array of two: rejected, and still SQL_SUCCESS_WITH_INFO and no ERROR status. */
  lemma RejectedWithInfo(query: string)
    ensures var rows := [Row(Built(query))];
            && |rows| == RowsRun(0, 2) && Aggregate(Success, Rejected(rows, [false]), 2) == SuccessWithInfo
            && Fate(rows[0], false, 0 == 2 - 1) == ParamUnavailable
  {
    assert [Row(Built(query))][..0] == [] && [false][..0] == [];
  }

  // ---------------------------------------------------------------------------------
  // Statements one by one
  // ---------------------------------------------------------------------------------

  /** The rows of a part as they are given: ignored, or what the parameters of the row make of it. */
  ghost predicate RowsGiven(rows: seq<ParamRow>, text: string, params: seq<int>, p: Part, pieces: seq<seq<Piece>>,
                            ignored: seq<bool>)
    requires PartOk(text, params, p)
  {
    && |rows| <= |pieces| == |ignored|
    && forall j :: 0 <= j < |rows| ==>
         && (rows[j].Ignored? <==> ignored[j]) && |pieces[j]| == |params|
         && (rows[j].Row? ==> IsBuilt(text, p.start, params[p.offset..p.offset + p.count],
                                      pieces[j][p.offset..p.offset + p.count], rows[j].query))
  }

  /** MADB_InsertParams for every row of the parameter array that is not ignored. */
  method BuildRows(text: string, params: seq<int>, p: Part, n: nat, pieces: seq<seq<Piece>>, ignored: seq<bool>)
    returns (rows: seq<ParamRow>)
    requires PartOk(text, params, p) && n <= |pieces| == |ignored|
    requires forall j :: 0 <= j < |pieces| ==> |pieces[j]| == |params|
    ensures |rows| == n && RowsGiven(rows, text, params, p, pieces, ignored)
  {
    hide IsBuilt, Marks;
    rows := [];
    for j := 0 to n
      invariant |rows| == j && RowsGiven(rows, text, params, p, pieces, ignored)
    {
      if ignored[j] {
        rows := rows + [Ignored];
      } else {
        var built := InsertParams(text, p.start, params, p.offset, p.count, pieces[j][p.offset..p.offset + p.count]);
        rows := rows + [Row(built)];
      }
    }
  }

  /** What the statements have in common: the prepared text, and an array of parameters. */
  datatype Job = Job(text: string, params: seq<int>, arraySize: nat, pieces: seq<seq<Piece>>, ignored: seq<bool>)

  ghost predicate JobOk(job: Job) {
    && |job.pieces| == |job.ignored| == Max(job.arraySize, 1)
    && forall j :: 0 <= j < |job.pieces| ==> |job.pieces[j]| == |job.params|
  }

  /** These are all the rows of the part. */
  ghost predicate RowsOfPart(job: Job, p: Part, rows: seq<ParamRow>) {
    && PartOk(job.text, job.params, p) && |rows| == RowsRun(p.count, job.arraySize)
    && RowsGiven(rows, job.text, job.params, p, job.pieces, job.ignored)
  }

  /** One answer for every row a statement may run. */
  ghost predicate AnswersOk(rows: seq<seq<ParamRow>>, accepts: seq<seq<bool>>, k: nat) {
    k <= |rows| && k <= |accepts| && forall s :: 0 <= s < k ==> |rows[s]| <= |accepts[s]|
  }

  /** Rejected queries of the first k statements. */
  ghost function Errors(rows: seq<seq<ParamRow>>, accepts: seq<seq<bool>>, k: nat): nat
    requires AnswersOk(rows, accepts, k)
  {
    if k == 0 then 0 else Errors(rows, accepts, k - 1) + Rejected(rows[k - 1], accepts[k - 1][..|rows[k - 1]|])
  }

  /** The status of row `j`: its fate in the last of the first k statements that ran it. */
  ghost function StatusAfter(rows: seq<seq<ParamRow>>, accepts: seq<seq<bool>>, arraySize: nat,
                             status0: seq<ParamStatus>, k: nat, j: nat): ParamStatus
    requires AnswersOk(rows, accepts, k) && j < |status0|
  {
    if k == 0 then status0[j]
    else if j < |rows[k - 1]| then Fate(rows[k - 1][j], accepts[k - 1][j], j == arraySize - 1)
    else StatusAfter(rows, accepts, arraySize, status0, k - 1, j)
  }

  /** The first k statements have run: all their rows, in order, one query for each that is not ignored. */
  ghost predicate RanStatements(job: Job, parts: seq<Part>, accepts: seq<seq<bool>>, status0: seq<ParamStatus>, k: nat,
                                rows: seq<seq<ParamRow>>, sent: seq<seq<string>>, errors: nat,
                                status: seq<ParamStatus>)
  {
    && k <= |parts| == |accepts| && |rows| == |sent| == k && AnswersOk(rows, accepts, k) && |status| == |status0|
    && (forall s :: 0 <= s < k ==>
          RowsOfPart(job, parts[s], rows[s]) && Buildable(rows[s]) && sent[s] == Queries(rows[s]))
    && errors == Errors(rows, accepts, k)
    && (forall j :: 0 <= j < |status0| ==> status[j] == StatusAfter(rows, accepts, job.arraySize, status0, k, j))
  }

  lemma {:induction false} ErrorsKept(rows: seq<seq<ParamRow>>, accepts: seq<seq<bool>>, arraySize: nat,
                                      status0: seq<ParamStatus>, k: nat, more: seq<ParamRow>)
    requires AnswersOk(rows, accepts, k)
    ensures Errors(rows + [more], accepts, k) == Errors(rows, accepts, k)
    ensures forall j :: 0 <= j < |status0| ==>
              StatusAfter(rows + [more], accepts, arraySize, status0, k, j)
              == StatusAfter(rows, accepts, arraySize, status0, k, j)
  {
    hide Rejected, Fate;
    if k > 0 {
      ErrorsKept(rows, accepts, arraySize, status0, k - 1, more);
      assert (rows + [more])[k - 1] == rows[k - 1];
    }
  }

  /** The rows of one statement, all run. */
  lemma RanAll(rows: seq<ParamRow>, arraySize: nat, accepts: seq<bool>, errors: nat, status: seq<ParamStatus>,
               status0: seq<ParamStatus>, sent: seq<string>)
    requires RanRows(rows, arraySize, accepts, |rows|, errors, status, status0, sent)
    ensures Buildable(rows) && sent == Queries(rows) && errors == Rejected(rows, accepts) && |status| == |status0|
    ensures forall j :: 0 <= j < |status| ==>
              status[j] == if j < |rows| then Fate(rows[j], accepts[j], j == arraySize - 1) else status0[j]
  {
    hide Queries, Rejected, Fate;
    assert rows[..|rows|] == rows && accepts[..|rows|] == accepts;
    forall j | 0 <= j < |rows|
      ensures status[j] == Fate(rows[j], accepts[j], j == arraySize - 1)
    {
      StatusIs(rows[j], accepts[j], j == arraySize - 1, status[j]);
    }
  }

  lemma RanStatement(job: Job, parts: seq<Part>, accepts: seq<seq<bool>>, status0: seq<ParamStatus>, k: nat,
                     rows: seq<seq<ParamRow>>, sent: seq<seq<string>>, errors: nat, status: seq<ParamStatus>,
                     own: seq<ParamRow>, errors': nat, status': seq<ParamStatus>, queries: seq<string>)
    requires RanStatements(job, parts, accepts, status0, k, rows, sent, errors, status)
    requires k < |parts| && RowsOfPart(job, parts[k], own) && |own| <= |accepts[k]| && |own| <= |status0|
    requires RanRows(own, job.arraySize, accepts[k][..|own|], |own|, errors', status', status, queries)
    ensures RanStatements(job, parts, accepts, status0, k + 1, rows + [own], sent + [queries], errors + errors',
                          status')
  {
    hide RowsOfPart, Queries, Rejected, Buildable, RanRows, Fate;
    RanAll(own, job.arraySize, accepts[k][..|own|], errors', status', status, queries);
    ErrorsKept(rows, accepts, job.arraySize, status0, k, own);
  }

  lemma RanNoStatement(job: Job, parts: seq<Part>, accepts: seq<seq<bool>>, status0: seq<ParamStatus>)
    requires |accepts| == |parts|
    ensures RanStatements(job, parts, accepts, status0, 0, [], [], 0, status0)
  {
  }

  /** Row `j` of the last statement begun cannot be built: the rows before it have run, and what follows does not. */
  ghost predicate StoppedIn(job: Job, p: Part, accepts: seq<bool>, errors: nat, own: seq<ParamRow>,
                            queries: seq<string>, ret: Return, j: nat)
  {
    && RowsOfPart(job, p, own) && |own| <= |accepts| && StopsAt(own, j) && queries == Queries(own[..j])
    && (own[j].query.NotBuilt? ==>
          ret == Aggregate(own[j].query.ret, errors + Rejected(own[..j], accepts[..j]), job.arraySize))
  }

  lemma StoppedHere(job: Job, p: Part, accepts: seq<bool>, errors: nat, own: seq<ParamRow>, errors': nat,
                    status': seq<ParamStatus>, status: seq<ParamStatus>, queries: seq<string>, ret': Return,
                    ret: Return)
    requires RowsOfPart(job, p, own) && |own| <= |accepts| && ret == Aggregate(ret', errors + errors', job.arraySize)
    requires exists j: nat :: StopsAt(own, j)
               && RanRows(own, job.arraySize, accepts[..|own|], j, errors', status', status, queries)
               && (own[j].query.NotBuilt? ==> ret' == own[j].query.ret)
    ensures exists j: nat :: StoppedIn(job, p, accepts, errors, own, queries, ret, j)
  {
    hide RowsOfPart, Queries, Rejected, Buildable;
    var j: nat :| StopsAt(own, j)
                  && RanRows(own, job.arraySize, accepts[..|own|], j, errors', status', status, queries)
                  && (own[j].query.NotBuilt? ==> ret' == own[j].query.ret);
    assert accepts[..|own|][..j] == accepts[..j];
    assert StoppedIn(job, p, accepts, errors, own, queries, ret, j);
  }

  /**
  The loop of MADB_StmtExecute over statements that are not rewritten: every statement runs
  its rows, and the return code compares all rejected queries with the size of the array.
  A row that cannot be built ends everything.
  */
  method RunStatements(job: Job, parts: seq<Part>, accepts: seq<seq<bool>>, status0: seq<ParamStatus>)
    returns (ret: Return, status: seq<ParamStatus>, rows: seq<seq<ParamRow>>, sent: seq<seq<string>>, k: nat,
             errors: nat)
    requires JobOk(job) && |status0| == |job.pieces| && |accepts| == |parts|
    requires forall s :: 0 <= s < |parts| ==> PartOk(job.text, job.params, parts[s])
    requires forall s :: 0 <= s < |accepts| ==> |accepts[s]| == |job.pieces|
    ensures k <= |parts| && |rows| == |sent| == Min(k + 1, |parts|)
    ensures k == |parts| ==>
              && RanStatements(job, parts, accepts, status0, k, rows, sent, errors, status)
              && ret == Aggregate(Success, errors, job.arraySize)
    ensures k < |parts| ==>
              && (exists before :: RanStatements(job, parts, accepts, status0, k, rows[..k], sent[..k], errors, before))
              && (exists j: nat :: StoppedIn(job, parts[k], accepts[k], errors, rows[k], sent[k], ret, j))
  {
    hide PartOk, RowsGiven, Queries, Rejected, RanStatements, RanRows, Buildable;
    status, rows, sent, k, errors := status0, [], [], 0, 0;
    RanNoStatement(job, parts, accepts, status0);
    while k < |parts|
      invariant k <= |parts| && |rows| == |sent| == k && |status| == |status0|
      invariant RanStatements(job, parts, accepts, status0, k, rows, sent, errors, status)
    {
      var n := RowsRun(parts[k].count, job.arraySize);
      var own := BuildRows(job.text, job.params, parts[k], n, job.pieces, job.ignored);
      var stopped, ret', errors', _, status', queries := RunRows(own, job.arraySize, accepts[k][..n], status);
      if stopped {
        assert (rows + [own])[..k] == rows && (sent + [queries])[..k] == sent;
        ret := Aggregate(ret', errors + errors', job.arraySize);
        StoppedHere(job, parts[k], accepts[k], errors, own, errors', status', status, queries, ret', ret);
        rows, sent := rows + [own], sent + [queries];
        assert rows[k] == own && sent[k] == queries;
        assert RanStatements(job, parts, accepts, status0, k, rows[..k], sent[..k], errors, status);
        status := status';
        return;
      }
      RanStatement(job, parts, accepts, status0, k, rows, sent, errors, status, own, errors', status', queries);
      rows, sent, errors, status := rows + [own], sent + [queries], errors + errors', status';
      k := k + 1;
    }
    ret := Aggregate(Success, errors, job.arraySize);
  }

  // ---------------------------------------------------------------------------------
  // Array INSERTs rewritten into multi-row batches
  // ---------------------------------------------------------------------------------

  const MAX_PARAMS: nat := 1024000        // S2_MAX_PARAMS

  /** The row's query behind the word VALUES. */
  function Tuple(row: ParamRow, valuesOffset: nat): string
    requires row.Row? && row.query.Built? && valuesOffset <= |row.query.text|
  {
    row.query.text[valuesOffset..]
  }

  /** Rows from..till are ignored or have their query, with something behind the word VALUES. */
  ghost predicate Rewritable(rows: seq<ParamRow>, valuesOffset: nat, from: nat, till: nat) {
    && from <= till <= |rows|
    && forall j :: from <= j < till && rows[j].Row? ==> rows[j].query.Built? && valuesOffset <= |rows[j].query.text|
  }

  /** The tuples of the rows from..till that are not ignored. */
  ghost function Tuples(rows: seq<ParamRow>, valuesOffset: nat, from: nat, till: nat): seq<string>
    requires Rewritable(rows, valuesOffset, from, till)
    decreases till
  {
    if from == till then []
    else
      var rest := Tuples(rows, valuesOffset, from, till - 1);
      if rows[till - 1].Ignored? then rest else rest + [Tuple(rows[till - 1], valuesOffset)]
  }

  /** Tuples separated by commas. */
  ghost function Join(tuples: seq<string>): string
    decreases |tuples|
  {
    if |tuples| == 0 then ""
    else if |tuples| == 1 then tuples[0]
    else Join(tuples[..|tuples| - 1]) + "," + tuples[|tuples| - 1]
  }

  lemma JoinOneMore(tuples: seq<string>, t: string)
    ensures Join(tuples + [t]) == if tuples == [] then t else Join(tuples) + "," + t
  {
    assert (tuples + [t])[..|tuples|] == tuples;
  }

  /** The texts between the commas, where the loop puts a comma in front of every row but the first. */
  ghost function Combined(rows: seq<ParamRow>, valuesOffset: nat, from: nat, till: nat): string
    requires Rewritable(rows, valuesOffset, from, till)
    decreases till
  {
    if from == till then ""
    else
      var rest := Combined(rows, valuesOffset, from, till - 1);
      if rows[till - 1].Ignored? then rest
      else rest + (if till - 1 == from then "" else ",") + Tuple(rows[till - 1], valuesOffset)
  }

  lemma CommaInFront(first: bool, rest: seq<string>, t: string)
    requires !first ==> rest != []
    ensures ((if first && rest != [] then "," else "") + Join(rest)) + "," + t
            == (if first then "," else "") + (if rest == [] then t else Join(rest) + "," + t)
  {
    assert Join([]) == "";
    if rest == [] {
      assert "" + "" + "," + t == "," + t;
    }
  }

  /**
  The combined text is the comma-separated list of the tuples exactly when the
  first row of the batch is not ignored, or all are; otherwise a stray comma leads it.
  */
  lemma {:induction false} CombinedIsJoin(rows: seq<ParamRow>, valuesOffset: nat, from: nat, till: nat)
    requires Rewritable(rows, valuesOffset, from, till) && from < till
    ensures var tuples := Tuples(rows, valuesOffset, from, till);
            Combined(rows, valuesOffset, from, till)
            == (if rows[from].Ignored? && tuples != [] then "," else "") + Join(tuples)
    ensures rows[from].Row? ==> Tuples(rows, valuesOffset, from, till) != []
    decreases till
  {
    var rest := Tuples(rows, valuesOffset, from, till - 1);
    if from + 1 == till {
      assert rest == [] && Combined(rows, valuesOffset, from, till - 1) == "";
      if rows[from].Row? {
        JoinOneMore([], Tuple(rows[from], valuesOffset));
        assert [] + [Tuple(rows[from], valuesOffset)] == [Tuple(rows[from], valuesOffset)];
      }
    } else {
      CombinedIsJoin(rows, valuesOffset, from, till - 1);
      if rows[till - 1].Row? {
        JoinOneMore(rest, Tuple(rows[till - 1], valuesOffset));
        CommaInFront(rows[from].Ignored?, rest, Tuple(rows[till - 1], valuesOffset));
      }
    }
  }

  lemma CombinedIsJoinIff(rows: seq<ParamRow>, valuesOffset: nat, from: nat, till: nat)
    requires Rewritable(rows, valuesOffset, from, till) && from < till
    ensures Combined(rows, valuesOffset, from, till) == Join(Tuples(rows, valuesOffset, from, till))
            <==> rows[from].Row? || Tuples(rows, valuesOffset, from, till) == []
  {
    CombinedIsJoin(rows, valuesOffset, from, till);
  }

  const VALUES := "VALUES"

  /** An ignored first row: the batch begins with a comma. */
  lemma IgnoredFirstRowLeavesComma()
    ensures var rows := [Ignored, Row(Built("INSERT INTO t VALUES(1)"))];
            && Rewritable(rows, 20, 0, 2) && Join(Tuples(rows, 20, 0, 2)) == "(1)"
            && Combined(rows, 20, 0, 2) == ",(1)"
  {
    var rows := [Ignored, Row(Built("INSERT INTO t VALUES(1)"))];
    assert Rewritable(rows, 20, 0, 2);
    assert Tuple(rows[1], 20) == "(1)";
    assert Tuples(rows, 20, 0, 2) == [] + ["(1)"] == ["(1)"];
    assert Combined(rows, 20, 0, 1) == "";
  }

  /** Number of batches: (numParamRows + rowsInBatch - 1) / rowsInBatch */
  function BatchCount(n: nat, rowsInBatch: nat): nat
    requires rowsInBatch > 0
  {
    (n + rowsInBatch - 1) / rowsInBatch
  }

  /** The rows of batch b. */
  function BatchFrom(rowsInBatch: nat, b: nat): nat { b * rowsInBatch }
  function BatchTo(n: nat, rowsInBatch: nat, b: nat): nat { Min(n, b * rowsInBatch + rowsInBatch) }

  lemma DivBounds(a: int, r: int)
    requires r > 0
    ensures a / r * r <= a < a / r * r + r
  {
  }

  lemma Times(a: int, c: int, r: int)
    requires 0 <= r && a <= c
    ensures a * r <= c * r && (a - 1) * r == a * r - r
  {
  }

  lemma BatchBounds(n: nat, rowsInBatch: nat, b: nat)
    requires rowsInBatch > 0 && b < BatchCount(n, rowsInBatch)
    ensures BatchFrom(rowsInBatch, b) < BatchTo(n, rowsInBatch, b) <= n
    ensures b + 1 < BatchCount(n, rowsInBatch) ==> BatchTo(n, rowsInBatch, b) == BatchFrom(rowsInBatch, b + 1)
    ensures b + 1 == BatchCount(n, rowsInBatch) ==> BatchTo(n, rowsInBatch, b) == n
  {
    var r, c := rowsInBatch, BatchCount(n, rowsInBatch);
    DivBounds(n + r - 1, r);
    Times(b + 1, c, r);
    if b + 1 < c {
      Times(b + 2, c, r);
    }
  }

  lemma PlaceInBatch(b: nat, r: nat, j: nat)
    requires b * r <= j < b * r + r
    ensures j % r == j - b * r
  {
    var q := j / r;
    DivBounds(j, r);
    if q < b {
      Times(q + 1, b, r);
    } else if b < q {
      Times(b + 1, q, r);
    }
  }

  /** Every row whose query was built has text behind the word VALUES. */
  ghost predicate LongEnough(rows: seq<ParamRow>, valuesOffset: nat) {
    forall j :: 0 <= j < |rows| && rows[j].Row? && rows[j].query.Built? ==> valuesOffset <= |rows[j].query.text|
  }

  /** The status a batch leaves for its rows: theirs is the fate of the batch. */
  ghost predicate BatchStatus(rows: seq<ParamRow>, status: seq<ParamStatus>, accepted: bool, from: nat, till: nat)
    requires from <= till <= |rows| == |status|
  {
    forall j :: from <= j < till ==>
      status[j] == if rows[j].Ignored? then ParamUnused else if accepted then ParamSuccess else ParamError
  }

  /** Rows till..|rows| still have the status they came with; ignored ones before are marked. */
  ghost predicate Untouched(status: seq<ParamStatus>, status0: seq<ParamStatus>, from: nat, till: nat)
    requires from <= till <= |status| == |status0|
  {
    forall j :: 0 <= j < |status| && !(from <= j < till) ==> status[j] == status0[j]
  }

  /** What the inner loop over rows from..till has done when it stands at `stop`. */
  ghost predicate Combining(rows: seq<ParamRow>, valuesOffset: nat, from: nat, stop: nat, till: nat, text: string,
                            status: seq<ParamStatus>, status0: seq<ParamStatus>)
    requires |status0| == |rows|
  {
    && stop <= till && Rewritable(rows, valuesOffset, from, stop) && till <= |rows| == |status|
    && text == Combined(rows, valuesOffset, from, stop)
    && Untouched(status, status0, from, till)
    && (forall j :: from <= j < stop && rows[j].Ignored? ==> status[j] == ParamUnused)
  }

  /** The inner loop: the text behind VALUES for the rows of a batch, or the row that cannot be built. */
  method CombineRows(rows: seq<ParamRow>, valuesOffset: nat, b: nat, rowsInBatch: nat, status0: seq<ParamStatus>)
    returns (text: string, stop: nat, status: seq<ParamStatus>)
    requires LongEnough(rows, valuesOffset) && |status0| == |rows| && rowsInBatch > 0
    requires BatchFrom(rowsInBatch, b) <= |rows|
    ensures var from, till := BatchFrom(rowsInBatch, b), BatchTo(|rows|, rowsInBatch, b);
            && Combining(rows, valuesOffset, from, stop, till, text, status, status0)
            && (stop < till ==> rows[stop].Row? && !rows[stop].query.Built?)
  {
    var from, till := BatchFrom(rowsInBatch, b), BatchTo(|rows|, rowsInBatch, b);
    text, status, stop := "", status0, from;
    while stop < till
      invariant Combining(rows, valuesOffset, from, stop, till, text, status, status0)
    {
      PlaceInBatch(b, rowsInBatch, stop);
      if rows[stop].Ignored? {
        status := status[stop := ParamUnused];
      } else if !rows[stop].query.Built? {
        return;
      } else {
        if stop % rowsInBatch != 0 {
          text := text + ",";
        }
        text := text + Tuple(rows[stop], valuesOffset);
      }
      stop := stop + 1;
    }
  }

  /** Once the batch is sent, its rows that are not ignored get the batch's fate. */
  method MarkRows(rows: seq<ParamRow>, accepted: bool, from: nat, till: nat, status0: seq<ParamStatus>)
    returns (status: seq<ParamStatus>)
    requires from <= till <= |rows| == |status0|
    requires forall j :: from <= j < till && rows[j].Ignored? ==> status0[j] == ParamUnused
    ensures |status| == |rows| && BatchStatus(rows, status, accepted, from, till)
    ensures Untouched(status, status0, from, till)
  {
    status := status0;
    for j := from to till
      invariant |status| == |rows| && Untouched(status, status0, from, till)
      invariant BatchStatus(rows, status, accepted, from, j)
      invariant forall x :: j <= x < till ==> status[x] == status0[x]
    {
      if !rows[j].Ignored? {
        status := status[j := if accepted then ParamSuccess else ParamError];
      }
    }
  }

  /** Rejected queries among the first k. */
  ghost function RejectedBatches(accepts: seq<bool>, k: nat): nat
    requires k <= |accepts|
  {
    if k == 0 then 0 else RejectedBatches(accepts, k - 1) + if accepts[k - 1] then 0 else 1
  }

  lemma {:induction false} RejectedBatchesBound(accepts: seq<bool>, k: nat)
    requires k <= |accepts|
    ensures RejectedBatches(accepts, k) <= k
    ensures RejectedBatches(accepts, k) == 0 <==> forall b :: 0 <= b < k ==> accepts[b]
    ensures k > 0 && accepts[k - 1] ==> RejectedBatches(accepts, k) < k
  {
    if k > 0 {
      RejectedBatchesBound(accepts, k - 1);
    }
  }

  ghost predicate SentBatch(rows: seq<ParamRow>, prefix: string, valuesOffset: nat, from: nat, till: nat,
                            accepted: bool, query: string, status: seq<ParamStatus>)
  {
    && Rewritable(rows, valuesOffset, from, till) && |status| == |rows|
    && query == prefix + Combined(rows, valuesOffset, from, till)
    && BatchStatus(rows, status, accepted, from, till)
  }

  /** Batches 0..k have been sent and have marked their rows. */
  ghost predicate SentBatches(rows: seq<ParamRow>, prefix: string, valuesOffset: nat, rowsInBatch: nat,
                              accepts: seq<bool>, k: nat, sent: seq<string>, status: seq<ParamStatus>)
    requires rowsInBatch > 0
  {
    && |sent| == k <= BatchCount(|rows|, rowsInBatch) <= |accepts| && |status| == |rows|
    && forall b :: 0 <= b < k ==>
         SentBatch(rows, prefix, valuesOffset, BatchFrom(rowsInBatch, b), BatchTo(|rows|, rowsInBatch, b),
                   accepts[b], sent[b], status)
  }

  lemma BatchBefore(n: nat, rowsInBatch: nat, b: nat, k: nat)
    requires b < k
    ensures BatchTo(n, rowsInBatch, b) <= BatchFrom(rowsInBatch, k)
  {
    Times(b + 1, k, rowsInBatch);
  }

  /** A later batch leaves what the earlier ones did. */
  lemma SentKept(rows: seq<ParamRow>, prefix: string, valuesOffset: nat, rowsInBatch: nat, accepts: seq<bool>,
                 k: nat, sent: seq<string>, status: seq<ParamStatus>, status': seq<ParamStatus>)
    requires rowsInBatch > 0 && k < BatchCount(|rows|, rowsInBatch)
    requires SentBatches(rows, prefix, valuesOffset, rowsInBatch, accepts, k, sent, status)
    requires BatchFrom(rowsInBatch, k) <= BatchTo(|rows|, rowsInBatch, k) <= |rows| == |status'|
    requires Untouched(status', status, BatchFrom(rowsInBatch, k), BatchTo(|rows|, rowsInBatch, k))
    ensures SentBatches(rows, prefix, valuesOffset, rowsInBatch, accepts, k, sent, status')
  {
    forall b | 0 <= b < k
      ensures SentBatch(rows, prefix, valuesOffset, BatchFrom(rowsInBatch, b), BatchTo(|rows|, rowsInBatch, b),
                        accepts[b], sent[b], status')
    {
      BatchBefore(|rows|, rowsInBatch, b, k);
      assert SentBatch(rows, prefix, valuesOffset, BatchFrom(rowsInBatch, b), BatchTo(|rows|, rowsInBatch, b),
                       accepts[b], sent[b], status);
    }
  }

  lemma SentOneMore(rows: seq<ParamRow>, prefix: string, valuesOffset: nat, rowsInBatch: nat, accepts: seq<bool>,
                    k: nat, sent: seq<string>, status: seq<ParamStatus>, query: string)
    requires rowsInBatch > 0 && k < BatchCount(|rows|, rowsInBatch)
    requires SentBatches(rows, prefix, valuesOffset, rowsInBatch, accepts, k, sent, status)
    requires SentBatch(rows, prefix, valuesOffset, BatchFrom(rowsInBatch, k), BatchTo(|rows|, rowsInBatch, k),
                       accepts[k], query, status)
    ensures SentBatches(rows, prefix, valuesOffset, rowsInBatch, accepts, k + 1, sent + [query], status)
  {
    hide SentBatch;
  }

  /** The return code for a rewritten INSERT all of whose rows could be built. */
  function BatchReturn(accepts: seq<bool>, count: nat): Return
    requires 0 < count <= |accepts|
  {
    if !accepts[count - 1] then Error
    else if exists b :: 0 <= b < count && !accepts[b] then SuccessWithInfo
    else Success
  }

  /** Rows in the first b batches. */
  function RowsBefore(n: nat, rowsInBatch: nat, b: nat): nat {
    if b == 0 then 0 else BatchTo(n, rowsInBatch, b - 1)
  }

  lemma BatchesStart(rows: seq<ParamRow>, prefix: string, valuesOffset: nat, rowsInBatch: nat, accepts: seq<bool>,
                     status: seq<ParamStatus>)
    requires rowsInBatch > 0 && BatchCount(|rows|, rowsInBatch) <= |accepts| && |status| == |rows|
    ensures SentBatches(rows, prefix, valuesOffset, rowsInBatch, accepts, 0, [], status)
    ensures Rewritable(rows, valuesOffset, 0, 0) && RowsBefore(|rows|, rowsInBatch, 0) == 0
    ensures RejectedBatches(accepts, 0) == 0
  {
  }

  lemma BatchStart(n: nat, rowsInBatch: nat, b: nat)
    requires rowsInBatch > 0 && b < BatchCount(n, rowsInBatch)
    ensures BatchFrom(rowsInBatch, b) <= n
  {
    BatchBounds(n, rowsInBatch, b);
  }

  lemma CombinedSoFar(rows: seq<ParamRow>, prefix: string, valuesOffset: nat, rowsInBatch: nat, accepts: seq<bool>,
                      b: nat, sent: seq<string>, status: seq<ParamStatus>, stop: nat, text: string,
                      status': seq<ParamStatus>)
    requires rowsInBatch > 0 && b < BatchCount(|rows|, rowsInBatch) && LongEnough(rows, valuesOffset)
    requires SentBatches(rows, prefix, valuesOffset, rowsInBatch, accepts, b, sent, status)
    requires Rewritable(rows, valuesOffset, 0, RowsBefore(|rows|, rowsInBatch, b))
    requires Combining(rows, valuesOffset, BatchFrom(rowsInBatch, b), stop, BatchTo(|rows|, rowsInBatch, b), text,
                       status', status)
    ensures SentBatches(rows, prefix, valuesOffset, rowsInBatch, accepts, b, sent, status')
    ensures BatchFrom(rowsInBatch, b) <= stop <= BatchTo(|rows|, rowsInBatch, b) <= |rows| == |status'|
    ensures Rewritable(rows, valuesOffset, 0, stop)
    ensures forall j :: BatchFrom(rowsInBatch, b) <= j < stop && rows[j].Ignored? ==> status'[j] == ParamUnused
    ensures text == Combined(rows, valuesOffset, BatchFrom(rowsInBatch, b), stop)
  {
    SentKept(rows, prefix, valuesOffset, rowsInBatch, accepts, b, sent, status, status');
    if b > 0 {
      BatchBounds(|rows|, rowsInBatch, b - 1);
    }
  }

  lemma BatchSent(rows: seq<ParamRow>, prefix: string, valuesOffset: nat, rowsInBatch: nat, accepts: seq<bool>,
                  b: nat, sent: seq<string>, status: seq<ParamStatus>, status': seq<ParamStatus>, text: string)
    requires rowsInBatch > 0 && b < BatchCount(|rows|, rowsInBatch)
    requires SentBatches(rows, prefix, valuesOffset, rowsInBatch, accepts, b, sent, status)
    requires Rewritable(rows, valuesOffset, BatchFrom(rowsInBatch, b), BatchTo(|rows|, rowsInBatch, b))
    requires text == Combined(rows, valuesOffset, BatchFrom(rowsInBatch, b), BatchTo(|rows|, rowsInBatch, b))
    requires |status'| == |rows|
    requires Untouched(status', status, BatchFrom(rowsInBatch, b), BatchTo(|rows|, rowsInBatch, b))
    requires BatchStatus(rows, status', accepts[b], BatchFrom(rowsInBatch, b), BatchTo(|rows|, rowsInBatch, b))
    ensures SentBatches(rows, prefix, valuesOffset, rowsInBatch, accepts, b + 1, sent + [prefix + text], status')
    ensures RejectedBatches(accepts, b + 1) == RejectedBatches(accepts, b) + if accepts[b] then 0 else 1
    ensures RowsBefore(|rows|, rowsInBatch, b + 1) == BatchTo(|rows|, rowsInBatch, b)
  {
    SentKept(rows, prefix, valuesOffset, rowsInBatch, accepts, b, sent, status, status');
    SentOneMore(rows, prefix, valuesOffset, rowsInBatch, accepts, b, sent, status', prefix + text);
  }

  lemma BatchCountBounds(n: nat, r: nat)
    requires n > 0 && r > 0
    ensures 0 < BatchCount(n, r) <= n
  {
    var c := BatchCount(n, r);
    DivBounds(n + r - 1, r);
    if c == 0 {
      Times(1, 1, r);
    } else if n < c {
      Times(n + 1, c, r);
      Times(1, r, n);
    }
  }

  lemma LastReturn(rows: seq<ParamRow>, rowsInBatch: nat, accepts: seq<bool>)
    requires |rows| > 0 && rowsInBatch > 0 && BatchCount(|rows|, rowsInBatch) <= |accepts|
    ensures var c := BatchCount(|rows|, rowsInBatch);
            && c > 0 && RowsBefore(|rows|, rowsInBatch, c) == |rows|
            && BatchReturn(accepts, c)
               == if accepts[c - 1] then Aggregate(Success, RejectedBatches(accepts, c), |rows|)
                  else Aggregate(Error, |rows|, |rows|)
  {
    var c := BatchCount(|rows|, rowsInBatch);
    BatchCountBounds(|rows|, rowsInBatch);
    BatchBounds(|rows|, rowsInBatch, c - 1);
    RejectedBatchesBound(accepts, c);
  }

  /** Row j, the first that cannot be built, lies in batch b. */
  ghost predicate StopsInBatch(rows: seq<ParamRow>, valuesOffset: nat, rowsInBatch: nat, j: nat, b: nat) {
    && j < |rows| && Rewritable(rows, valuesOffset, 0, j) && rows[j].Row? && !rows[j].query.Built?
    && BatchFrom(rowsInBatch, b) <= j < BatchTo(|rows|, rowsInBatch, b)
  }

  lemma StopsHere(rows: seq<ParamRow>, valuesOffset: nat, rowsInBatch: nat, j: nat, b: nat)
    requires j < |rows| && Rewritable(rows, valuesOffset, 0, j) && rows[j].Row? && !rows[j].query.Built?
    requires BatchFrom(rowsInBatch, b) <= j < BatchTo(|rows|, rowsInBatch, b)
    ensures StopsInBatch(rows, valuesOffset, rowsInBatch, j, b) && !Rewritable(rows, valuesOffset, 0, |rows|)
  {
  }

  /** At least one row fits, and what fits stays within the limit. */
  function RowsInBatch(paramCount: nat): (r: nat)
    requires 1 <= paramCount <= 32767
    ensures r > 0 && r * paramCount <= MAX_PARAMS
  {
    DivBounds(MAX_PARAMS, paramCount);
    assert MAX_PARAMS / paramCount > 0 by {
      if MAX_PARAMS / paramCount <= 0 {
        Times(MAX_PARAMS / paramCount, 0, paramCount);
      }
    }
    MAX_PARAMS / paramCount
  }

  /**
  The rewritten INSERT: as many rows as fit into S2_MAX_PARAMS parameters are sent as one
  query; `accepts` is what the server answers to each.
  */
  method RunBatches(rows: seq<ParamRow>, paramCount: nat, prefix: string, valuesOffset: nat, accepts: seq<bool>,
                    status0: seq<ParamStatus>)
    returns (ret: Return, processed: nat, status: seq<ParamStatus>, sent: seq<string>)
    requires |rows| > 1 && |status0| == |rows| && 1 <= paramCount <= 32767 && LongEnough(rows, valuesOffset)
    requires BatchCount(|rows|, RowsInBatch(paramCount)) <= |accepts|
    ensures Rewritable(rows, valuesOffset, 0, |rows|) ==>
              var r := RowsInBatch(paramCount);
              && processed == |rows| && ret == BatchReturn(accepts, BatchCount(|rows|, r))
              && SentBatches(rows, prefix, valuesOffset, r, accepts, BatchCount(|rows|, r), sent, status)
    ensures !Rewritable(rows, valuesOffset, 0, |rows|) ==>
              exists j: nat, b: nat :: StopsInBatch(rows, valuesOffset, RowsInBatch(paramCount), j, b)
                && processed == j + 1
                && SentBatches(rows, prefix, valuesOffset, RowsInBatch(paramCount), accepts, b, sent, status)
                && (rows[j].query.NotBuilt? ==>
                      ret == Aggregate(rows[j].query.ret, RejectedBatches(accepts, b), |rows|))
  {
    hide *;
    var rowsInBatch := RowsInBatch(paramCount);
    var count := BatchCount(|rows|, rowsInBatch);
    ret, processed, status, sent := Success, 0, status0, [];
    var errorCount := 0;
    BatchesStart(rows, prefix, valuesOffset, rowsInBatch, accepts, status0);
    LastReturn(rows, rowsInBatch, accepts);
    for b := 0 to count
      invariant SentBatches(rows, prefix, valuesOffset, rowsInBatch, accepts, b, sent, status)
      invariant processed == RowsBefore(|rows|, rowsInBatch, b) && Rewritable(rows, valuesOffset, 0, processed)
      invariant errorCount == RejectedBatches(accepts, b) && |status| == |rows|
      invariant ret == if b == 0 || accepts[b - 1] then Success else Error
    {
      BatchStart(|rows|, rowsInBatch, b);
      var text, stop, marked := CombineRows(rows, valuesOffset, b, rowsInBatch, status);
      CombinedSoFar(rows, prefix, valuesOffset, rowsInBatch, accepts, b, sent, status, stop, text, marked);
      if stop < BatchTo(|rows|, rowsInBatch, b) {
        StopsHere(rows, valuesOffset, rowsInBatch, stop, b);
        ret := if rows[stop].query.NotBuilt? then Aggregate(rows[stop].query.ret, errorCount, |rows|) else Error;
        return ret, stop + 1, marked, sent;
      }
      processed := stop;
      status := MarkRows(rows, accepts[b], BatchFrom(rowsInBatch, b), stop, marked);
      BatchSent(rows, prefix, valuesOffset, rowsInBatch, accepts, b, sent, marked, status, text);
      sent := sent + [prefix + text];
      if accepts[b] {
        ret := Success;
      } else {
        errorCount := errorCount + 1;
        ret := Error;
      }
    }
    if ret == Error {
      errorCount := |rows|;
    }
    ret := Aggregate(ret, errorCount, |rows|);
  }

  // ---------------------------------------------------------------------------------
  // What the batches amount to
  // ---------------------------------------------------------------------------------

  /** No batch carries more than S2_MAX_PARAMS parameters. */
  lemma BatchWithinLimit(n: nat, paramCount: nat, b: nat)
    requires 1 <= paramCount <= 32767 && b < BatchCount(n, RowsInBatch(paramCount))
    ensures var r := RowsInBatch(paramCount);
            (BatchTo(n, r, b) - BatchFrom(r, b)) * paramCount <= MAX_PARAMS
  {
    var r := RowsInBatch(paramCount);
    BatchBounds(n, r, b);
    Times(BatchTo(n, r, b) - BatchFrom(r, b), r, paramCount);
  }

  /** The tuples of batches 0..k, one behind the other. */
  ghost function BatchTuples(rows: seq<ParamRow>, valuesOffset: nat, rowsInBatch: nat, k: nat): seq<string>
    requires rowsInBatch > 0 && k <= BatchCount(|rows|, rowsInBatch) && Rewritable(rows, valuesOffset, 0, |rows|)
  {
    if k == 0 then []
    else
      BatchBounds(|rows|, rowsInBatch, k - 1);
      BatchTuples(rows, valuesOffset, rowsInBatch, k - 1)
      + Tuples(rows, valuesOffset, BatchFrom(rowsInBatch, k - 1), BatchTo(|rows|, rowsInBatch, k - 1))
  }

  lemma {:induction false} TuplesAppend(rows: seq<ParamRow>, valuesOffset: nat, a: nat, b: nat, c: nat)
    requires Rewritable(rows, valuesOffset, a, c) && a <= b <= c
    ensures Tuples(rows, valuesOffset, a, b) + Tuples(rows, valuesOffset, b, c) == Tuples(rows, valuesOffset, a, c)
    decreases c
  {
    if b < c {
      TuplesAppend(rows, valuesOffset, a, b, c - 1);
    }
  }

  /** The batches carry the tuples of all rows that are not ignored, in order, each once. */
  lemma {:induction false} BatchesCoverRows(rows: seq<ParamRow>, valuesOffset: nat, rowsInBatch: nat, k: nat)
    requires rowsInBatch > 0 && k <= BatchCount(|rows|, rowsInBatch) && Rewritable(rows, valuesOffset, 0, |rows|)
    ensures RowsBefore(|rows|, rowsInBatch, k) <= |rows|
    ensures BatchTuples(rows, valuesOffset, rowsInBatch, k)
            == Tuples(rows, valuesOffset, 0, RowsBefore(|rows|, rowsInBatch, k))
    ensures k == BatchCount(|rows|, rowsInBatch) > 0 ==> RowsBefore(|rows|, rowsInBatch, k) == |rows|
  {
    if k > 0 {
      BatchBounds(|rows|, rowsInBatch, k - 1);
      BatchesCoverRows(rows, valuesOffset, rowsInBatch, k - 1);
      if k > 1 {
        BatchBounds(|rows|, rowsInBatch, k - 2);
      }
      TuplesAppend(rows, valuesOffset, 0, BatchFrom(rowsInBatch, k - 1), BatchTo(|rows|, rowsInBatch, k - 1));
    }
  }

  lemma LetterOf(text: string, i: nat, word: string, k: nat)
    requires T.WordAt(text, i, word) && k < |word|
    ensures word[k] == '?' <==> text[i + k] == '?'
  {
    assert Upper(text[i + k]) == word[k];
  }

  /** The first ? token is the first marker. */
  lemma FirstMarker(text: string, tokens: seq<int>, params: seq<int>, marker: int)
    requires T.TokensOk(text, tokens, params, |text| + 1) && T.Increasing(params)
    requires forall x :: x in params ==> 0 <= x < |text| && text[x] == '?'
    requires forall i :: 0 <= i < |tokens| ==> 0 <= tokens[i]
    requires FirstToken(text, tokens, "?", marker) && 0 < marker
    ensures params != [] && marker == params[0]
  {
    var i :| 0 <= i < |tokens| && FirstAt(text, tokens, "?", i) && tokens[i] == marker;
    LetterOf(text, marker, "?", 0);
    assert tokens[i] in params;
    assert params[0] in params;
    var k :| 0 <= k < |tokens| && tokens[k] == params[0];
    assert T.WordAt(text, tokens[k], "?");
  }

  lemma NoMarkerInValues(text: string, values: nat, marker: int)
    requires T.WordAt(text, values, VALUES) && values < marker < |text| && text[marker] == '?'
    ensures values + |VALUES| <= marker
  {
    if marker < values + |VALUES| {
      LetterOf(text, values, VALUES, marker - values);
    }
  }

  /** When VALUES stands before the first ? token, all markers stand behind the word VALUES. */
  lemma MarkersBehindValues(text: string, tokens: seq<int>, params: seq<int>, values: int, marker: int)
    requires T.TokensOk(text, tokens, params, |text| + 1) && T.Increasing(params)
    requires forall x :: x in params ==> 0 <= x < |text| && text[x] == '?'
    requires forall i :: 0 <= i < |tokens| ==> 0 <= tokens[i]
    requires FirstToken(text, tokens, VALUES, values) && FirstToken(text, tokens, "?", marker)
    requires 0 < values < marker
    ensures params != [] && marker == params[0] && T.WordAt(text, values, VALUES)
    ensures forall i :: 0 <= i < |params| ==> values + |VALUES| <= params[i]
  {
    hide T.TokensOk;
    FirstMarker(text, tokens, params, marker);
    assert params[0] in params;
    NoMarkerInValues(text, values, marker);
  }

  lemma FirstTokenUnique(text: string, tokens: seq<int>, word: string, a: int, b: int)
    requires forall i :: 0 <= i < |tokens| ==> 0 <= tokens[i]
    requires FirstToken(text, tokens, word, a) && FirstToken(text, tokens, word, b)
    ensures a == b
  {
    hide T.WordAt;
  }

  /** No token begins with the word, unless the text itself does: offset 0 also stands for "not found". */
  ghost predicate OnlyAtStart(text: string, tokens: seq<int>, word: string) {
    forall i :: 0 <= i < |tokens| && 0 <= tokens[i] && T.WordAt(text, tokens[i], word) ==> T.WordAt(text, 0, word)
  }

  /** VALUES behind the start and before the first ?, and neither RETURNING nor ON DUPLICATE KEY UPDATE found. */
  ghost predicate MayRewrite(text: string, tokens: seq<int>)
    requires forall i :: 0 <= i < |tokens| ==> 0 <= tokens[i]
  {
    && FirstToken(text, tokens, RETURNING, 0) && FirstToken(text, tokens, ON_DUPLICATE, 0)
    && exists values, marker :: FirstToken(text, tokens, VALUES, values) && FirstToken(text, tokens, "?", marker)
                                && 0 < values < marker
  }

  lemma MayRewriteIff(text: string, tokens: seq<int>, values: int, marker: int, returning: int, onDuplicate: int)
    requires forall i :: 0 <= i < |tokens| ==> 0 <= tokens[i]
    requires FirstToken(text, tokens, VALUES, values) && FirstToken(text, tokens, "?", marker)
    requires FirstToken(text, tokens, RETURNING, returning) && FirstToken(text, tokens, ON_DUPLICATE, onDuplicate)
    ensures MayRewrite(text, tokens) <==> 0 < values < marker && returning == 0 && onDuplicate == 0
  {
    hide FirstToken;
    if MayRewrite(text, tokens) {
      var v, m :| FirstToken(text, tokens, VALUES, v) && FirstToken(text, tokens, "?", m) && 0 < v < m;
      FirstTokenUnique(text, tokens, VALUES, v, values);
      FirstTokenUnique(text, tokens, "?", m, marker);
      FirstTokenUnique(text, tokens, RETURNING, 0, returning);
      FirstTokenUnique(text, tokens, ON_DUPLICATE, 0, onDuplicate);
    }
  }

  lemma NoTokenBehindStart(text: string, tokens: seq<int>, word: string)
    requires forall i :: 0 <= i < |tokens| ==> 0 <= tokens[i]
    requires FirstToken(text, tokens, word, 0)
    ensures OnlyAtStart(text, tokens, word)
  {
  }

  /** Is the INSERT rewritten, and where does its common prefix end? */
  method ChooseRewrite(q: T.Query, numParamRows: nat, ghost t0: string, ghost replaceCall: bool)
    returns (rewrite: bool, valuesOffset: int)
    requires q.Parsed(t0, replaceCall) && forall k :: 0 <= k < |t0| ==> t0[k] != T.NUL
    ensures forall i :: 0 <= i < |q.tokens| ==> 0 <= q.tokens[i]
    ensures rewrite <==>
              numParamRows > 1 && q.queryType == T.Insert && |q.subQueries| <= 1 && MayRewrite(q.text, q.tokens)
    ensures rewrite ==>
              && q.params != [] && (forall i :: 0 <= i < |q.params| ==> valuesOffset <= q.params[i])
              && valuesOffset >= |VALUES| && T.WordAt(q.text, valuesOffset - |VALUES|, VALUES)
              && OnlyAtStart(q.text, q.tokens, RETURNING) && OnlyAtStart(q.text, q.tokens, ON_DUPLICATE)
  {
    hide T.TokensOk, T.PlainOffsets, T.BufferIs, T.EditsOk, T.WordAt, T.HeadsOk, T.StatementSizes, T.Calls;
    hide T.TokenOffsets, T.SkipEnd, T.AtLeastTwo, Sum, OnlyAtStart, FirstToken;
    ParsedMarkers(q, t0, replaceCall);
    var values := FindToken(q.text, q.tokens, VALUES);
    var marker := FindToken(q.text, q.tokens, "?");
    var returning := FindToken(q.text, q.tokens, RETURNING);
    var onDuplicate := FindToken(q.text, q.tokens, ON_DUPLICATE);
    rewrite := numParamRows > 1 && q.queryType == T.Insert && 0 < values < marker && returning == 0
               && onDuplicate == 0 && |q.subQueries| <= 1;
    valuesOffset := values + |VALUES|;
    MayRewriteIff(q.text, q.tokens, values, marker, returning, onDuplicate);
    if rewrite {
      MarkersBehindValues(q.text, q.tokens, q.params, values, marker);
      NoTokenBehindStart(q.text, q.tokens, RETURNING);
      NoTokenBehindStart(q.text, q.tokens, ON_DUPLICATE);
    }
  }

  /** Text in front of all markers is carried over unchanged. */
  lemma {:induction false} SplicePrefix(text: string, end: int, marks: seq<int>, lits: seq<string>, v: nat)
    requires v <= end <= |text| && |marks| == |lits| && Marks(marks, v, end)
    ensures Marks(marks, 0, end)
    ensures v <= |Splice(text, 0, end, marks, lits)| && Splice(text, 0, end, marks, lits)[..v] == text[..v]
    decreases |marks|
  {
    if marks != [] {
      var k := |marks| - 1;
      SplicePrefix(text, marks[k], marks[..k], lits[..k], v);
    }
  }

  /** A row that could be built is the parsed text with the literals of that row, up to the end of the statement. */
  ghost predicate RowsOf(rows: seq<ParamRow>, text: string, params: seq<int>, lits: seq<seq<string>>) {
    && |lits| >= |rows|
    && forall j :: 0 <= j < |rows| && rows[j].Row? && rows[j].query.Built? ==>
         && |lits[j]| == |params| && Marks(params, 0, StrChr(text, T.NUL, 0))
         && rows[j].query.text == Splice(text, 0, StrChr(text, T.NUL, 0), params, lits[j])
  }

  /**
  The rewrite keeps the INSERT: every row sent on its own would be the common prefix
  followed by its tuple, and a batch whose first row is not ignored is the same prefix
  followed by the comma-separated tuples of its rows.
  */
  lemma RewriteKeepsInsert(rows: seq<ParamRow>, text: string, params: seq<int>, lits: seq<seq<string>>, values: nat)
    requires RowsOf(rows, text, params, lits) && values + |VALUES| <= |text| && params != []
    requires forall i :: 0 <= i < |params| ==> values + |VALUES| <= params[i]
    ensures var v := values + |VALUES|;
            && LongEnough(rows, v) && (Buildable(rows) ==> Rewritable(rows, v, 0, |rows|))
            && (forall j :: 0 <= j < |rows| && rows[j].Row? && rows[j].query.Built? ==>
                  rows[j].query.text == text[..v] + Tuple(rows[j], v))
            && (forall from, till {:trigger Combined(rows, v, from, till)} ::
                  0 <= from < till <= |rows| && Rewritable(rows, v, from, till) && rows[from].Row? ==>
                    Combined(rows, v, from, till) == Join(Tuples(rows, v, from, till)))
  {
    var v := values + |VALUES|;
    var end := StrChr(text, T.NUL, 0);
    forall j | 0 <= j < |rows| && rows[j].Row? && rows[j].query.Built?
      ensures v <= |rows[j].query.text| && rows[j].query.text[..v] == text[..v]
    {
      SplicePrefix(text, end, params, lits[j], v);
    }
    forall from, till | 0 <= from < till <= |rows| && Rewritable(rows, v, from, till) && rows[from].Row?
      ensures Combined(rows, v, from, till) == Join(Tuples(rows, v, from, till))
    {
      CombinedIsJoin(rows, v, from, till);
    }
  }

  /**
  Sent from token 0 on, the prefix is the text up to behind VALUES: the text has been
  stripped of leading blanks and comments, so token 0 starts it.
  */
  lemma PrefixStartsTheText(whole: string)
    ensures T.SkipEnd(whole[T.SkipEnd(whole, 0)..], 0) == 0
  {
    var e := T.SkipEnd(whole, 0);
    var t := whole[e..];
    if t != [] {
      assert t[0] == whole[e] && (|t| > 1 ==> t[1] == whole[e + 1]);
    }
  }

  // ---------------------------------------------------------------------------------
  // An array INSERT from the parsed query to the server
  // ---------------------------------------------------------------------------------

  /** The literals of the rows that have one for every parameter. */
  ghost function RowLits(pieces: seq<seq<Piece>>): (r: seq<seq<string>>)
    ensures |r| == |pieces|
  {
    seq(|pieces|, j requires 0 <= j < |pieces| => if AllLiteral(pieces[j]) then Lits(pieces[j]) else [])
  }

  lemma GivenRowsOf(rows: seq<ParamRow>, text: string, params: seq<int>, pieces: seq<seq<Piece>>, ignored: seq<bool>)
    requires PartOk(text, params, Single(text, params))
    requires RowsGiven(rows, text, params, Single(text, params), pieces, ignored)
    ensures RowsOf(rows, text, params, RowLits(pieces))
  {
    hide StrChr, Splice, AllLiteral;
    assert params[0..|params|] == params;
    forall j | 0 <= j < |rows| && rows[j].Row? && rows[j].query.Built?
      ensures AllLiteral(pieces[j]) && RowLits(pieces)[j] == Lits(pieces[j]) && |pieces[j]| == |params|
      ensures Marks(params, 0, StrChr(text, T.NUL, 0))
      ensures rows[j].query.text == Splice(text, 0, StrChr(text, T.NUL, 0), params, Lits(pieces[j]))
    {
      assert pieces[j][0..|params|] == pieces[j];
    }
  }

  /**
  One query sent for a batch: the text up to `v`, and the tuples of its rows that are not
  ignored, joined by commas; a comma leads them if the first row of the batch is ignored.
  */
  ghost predicate IsBatch(prefix: string, rows: seq<ParamRow>, v: nat, from: nat, till: nat, query: string) {
    && from < till && Rewritable(rows, v, from, till)
    && var tuples := Tuples(rows, v, from, till);
    && query == prefix + (if rows[from].Ignored? && tuples != [] then "," else "") + Join(tuples)
  }

  /** The first k batches. */
  ghost predicate AreBatches(text: string, v: nat, rows: seq<ParamRow>, rowsInBatch: nat, sent: seq<string>)
    requires rowsInBatch > 0
  {
    && v <= |text| && |sent| <= BatchCount(|rows|, rowsInBatch)
    && forall b :: 0 <= b < |sent| ==>
         IsBatch(text[..v], rows, v, BatchFrom(rowsInBatch, b), BatchTo(|rows|, rowsInBatch, b), sent[b])
  }

  /**
  What the server gets from a rewritten INSERT: every row's own query is the text up to
  `v` and its tuple; every batch is the same text and the tuples of its rows; and the
  batches together hold the tuples of all rows, in order, each once.  If a row cannot be
  built, the batches before its own are sent and no other.
  */
  ghost predicate SameInsert(text: string, v: nat, rows: seq<ParamRow>, rowsInBatch: nat, sent: seq<string>)
    requires rowsInBatch > 0
  {
    && AreBatches(text, v, rows, rowsInBatch, sent) && LongEnough(rows, v)
    && (forall j :: 0 <= j < |rows| && rows[j].Row? && rows[j].query.Built? ==>
          rows[j].query.text == text[..v] + Tuple(rows[j], v))
    && (Buildable(rows) ==>
          && |sent| == BatchCount(|rows|, rowsInBatch) && Rewritable(rows, v, 0, |rows|)
          && BatchTuples(rows, v, rowsInBatch, |sent|) == Tuples(rows, v, 0, |rows|))
    && (!Buildable(rows) ==> exists j: nat :: StopsInBatch(rows, v, rowsInBatch, j, |sent|))
  }

  lemma OneBatchIsSame(rows: seq<ParamRow>, prefix: string, v: nat, from: nat, till: nat, accepted: bool,
                       query: string, status: seq<ParamStatus>)
    requires SentBatch(rows, prefix, v, from, till, accepted, query, status) && from < till
    ensures IsBatch(prefix, rows, v, from, till, query)
  {
    hide Combined, Tuples, Join;
    CombinedIsJoin(rows, v, from, till);
    var comma := if rows[from].Ignored? && Tuples(rows, v, from, till) != [] then "," else "";
    var joined := Join(Tuples(rows, v, from, till));
    assert prefix + (comma + joined) == prefix + comma + joined;
  }

  /** The batches sent are the ones meant. */
  lemma BatchesAreSame(rows: seq<ParamRow>, text: string, v: nat, rowsInBatch: nat, accepts: seq<bool>, k: nat,
                       sent: seq<string>, status: seq<ParamStatus>)
    requires rowsInBatch > 0 && v <= |text| && SentBatches(rows, text[..v], v, rowsInBatch, accepts, k, sent, status)
    ensures AreBatches(text, v, rows, rowsInBatch, sent)
  {
    hide Join, Tuples, Combined, BatchCount, BatchFrom, BatchTo, SentBatch, IsBatch;
    forall b | 0 <= b < |sent|
      ensures IsBatch(text[..v], rows, v, BatchFrom(rowsInBatch, b), BatchTo(|rows|, rowsInBatch, b), sent[b])
    {
      BatchBounds(|rows|, rowsInBatch, b);
      OneBatchIsSame(rows, text[..v], v, BatchFrom(rowsInBatch, b), BatchTo(|rows|, rowsInBatch, b), accepts[b],
                     sent[b], status);
    }
  }

  lemma BuildableIff(rows: seq<ParamRow>, v: nat)
    requires LongEnough(rows, v)
    ensures Buildable(rows) <==> Rewritable(rows, v, 0, |rows|)
  {
  }

  lemma AllBatchesSent(rows: seq<ParamRow>, prefix: string, v: nat, rowsInBatch: nat, accepts: seq<bool>, k: nat,
                       sent: seq<string>, status: seq<ParamStatus>)
    requires rowsInBatch > 0 && SentBatches(rows, prefix, v, rowsInBatch, accepts, k, sent, status)
    ensures |sent| == k
  {
  }

  /** The rewritten branch. */
  method RunRewritten(text: string, params: seq<int>, rows: seq<ParamRow>, v: nat, accepts: seq<bool>,
                      status0: seq<ParamStatus>, ghost lits: seq<seq<string>>)
    returns (ret: Return, sent: seq<string>)
    requires RowsOf(rows, text, params, lits) && |rows| > 1
    requires |VALUES| <= v <= |text| && forall i :: 0 <= i < |params| ==> v <= params[i]
    requires 1 <= |params| <= 32767 && |accepts| == |status0| == |rows|
    ensures SameInsert(text, v, rows, RowsInBatch(|params|), sent)
  {
    hide RowsOf, StrChr, SentBatches, BatchCount, AreBatches, RowsInBatch, Combined, Tuples, Join, BatchTuples;
    hide StopsInBatch, Buildable, Rewritable, LongEnough;
    ghost var r := RowsInBatch(|params|);
    RewriteKeepsInsert(rows, text, params, lits, v - |VALUES|);
    BuildableIff(rows, v);
    BatchCountBounds(|rows|, r);
    var processed, status;
    ret, processed, status, sent := RunBatches(rows, |params|, text[..v], v, accepts, status0);
    if Buildable(rows) {
      BatchesAreSame(rows, text, v, r, accepts, BatchCount(|rows|, r), sent, status);
      AllBatchesSent(rows, text[..v], v, r, accepts, BatchCount(|rows|, r), sent, status);
      BatchesCoverRows(rows, v, r, |sent|);
    } else {
      var j: nat, b: nat :| StopsInBatch(rows, v, r, j, b)
                            && SentBatches(rows, text[..v], v, r, accepts, b, sent, status);
      BatchesAreSame(rows, text, v, r, accepts, b, sent, status);
      AllBatchesSent(rows, text[..v], v, r, accepts, b, sent, status);
    }
  }

  lemma SingleOk(q: T.Query, t0: string, replaceCall: bool)
    requires q.Parsed(t0, replaceCall) && forall k :: 0 <= k < |t0| ==> t0[k] != T.NUL
    ensures PartOk(q.text, q.params, Single(q.text, q.params))
  {
    hide T.Query.Parsed, StrChr;
    ParsedCuts(q, t0, replaceCall);
    assert q.params[0..|q.params|] == q.params;
  }

  lemma NoneBuilt(q: T.Query, t0: string, replaceCall: bool, rows: seq<ParamRow>, pieces: seq<seq<Piece>>,
                  ignored: seq<bool>)
    requires q.Parsed(t0, replaceCall) && forall k :: 0 <= k < |t0| ==> t0[k] != T.NUL
    requires PartOk(q.text, q.params, Single(q.text, q.params))
    requires RowsGiven(rows, q.text, q.params, Single(q.text, q.params), pieces, ignored)
    ensures !MarkersInFirst(q) ==> forall j :: 0 <= j < |rows| && rows[j].Row? ==> !rows[j].query.Built?
  {
    hide T.Query.Parsed, StrChr, Splice, Lits, AllLiteral;
    ParsedCuts(q, t0, replaceCall);
    assert q.params[0..|q.params|] == q.params;
  }

  lemma FirstTokenStarts(q: T.Query, t0: string, replaceCall: bool)
    requires q.Parsed(t0, replaceCall) && T.SkipEnd(t0, 0) == 0 && q.params != []
    ensures q.tokens != [] && q.tokens[0] == 0 && q.params[0] < |q.text|
  {
    hide T.TokenOffsets, T.TokensOk, T.EditsOk, T.SkipEnd, T.Calls, T.StatementSizes, T.HeadsOk, T.TypeIs;
    hide T.PlainOffsets;
    T.OffsetsArePlaces(t0, '?', 0);
    assert q.params[0] in q.params;
  }

  lemma RanSent(rows: seq<ParamRow>, arraySize: nat, accepts: seq<bool>, errors: nat, status: seq<ParamStatus>,
                status0: seq<ParamStatus>, sent: seq<string>)
    requires Buildable(rows) ==> RanRows(rows, arraySize, accepts, |rows|, errors, status, status0, sent)
    requires !Buildable(rows) ==>
               exists j: nat :: StopsAt(rows, j) && RanRows(rows, arraySize, accepts, j, errors, status, status0, sent)
    ensures Buildable(rows) ==> sent == Queries(rows)
    ensures !Buildable(rows) ==> exists j: nat :: StopsAt(rows, j) && sent == Queries(rows[..j])
  {
    hide Queries, Rejected;
    assert rows[..|rows|] == rows;
  }

  /**
  The loop of MADB_StmtExecute for a single statement with an array of parameters: an INSERT
  is rewritten or not, and the server gets the same tuples behind the same text, up to the
  first row that cannot be built.  A marker behind the first separator lets no row be built.
  */
  method ExecuteArrayInsert(q: T.Query, arraySize: nat, pieces: seq<seq<Piece>>, ignored: seq<bool>,
                            accepts: seq<bool>, status0: seq<ParamStatus>, ghost t0: string, ghost replaceCall: bool)
    returns (rewritten: bool, valuesOffset: int, rows: seq<ParamRow>, sent: seq<string>)
    requires q.Parsed(t0, replaceCall) && (forall k :: 0 <= k < |t0| ==> t0[k] != T.NUL) && T.SkipEnd(t0, 0) == 0
    requires |q.subQueries| == 1 && 1 <= |q.params| <= 32767
    requires |ignored| == |accepts| == |status0| == |pieces| == arraySize
    requires forall j :: 0 <= j < |pieces| ==> |pieces[j]| == |q.params|
    ensures PartOk(q.text, q.params, Single(q.text, q.params)) && |rows| == arraySize
    ensures RowsGiven(rows, q.text, q.params, Single(q.text, q.params), pieces, ignored)
    ensures !MarkersInFirst(q) ==> forall j :: 0 <= j < |rows| && rows[j].Row? ==> !rows[j].query.Built?
    ensures rewritten ==> valuesOffset >= 0 && SameInsert(q.text, valuesOffset, rows, RowsInBatch(|q.params|), sent)
    ensures !rewritten && Buildable(rows) ==> sent == Queries(rows)
    ensures !rewritten && !Buildable(rows) ==> exists j: nat :: StopsAt(rows, j) && sent == Queries(rows[..j])
  {
    hide T.Query.Parsed, StrChr, SameInsert, RowsInBatch, Queries, RowLits, T.WordAt, T.SkipEnd, OnlyAtStart, Rejected;
    hide IsBuilt, RowsGiven, RowsOf, RanRows, Marks;
    SingleOk(q, t0, replaceCall);
    rows := BuildRows(q.text, q.params, Single(q.text, q.params), arraySize, pieces, ignored);
    GivenRowsOf(rows, q.text, q.params, pieces, ignored);
    NoneBuilt(q, t0, replaceCall, rows, pieces, ignored);
    rewritten, valuesOffset := ChooseRewrite(q, arraySize, t0, replaceCall);
    if rewritten {
      FirstTokenStarts(q, t0, replaceCall);
      assert q.text[0..] == q.text;
      var ret;
      ret, sent := RunRewritten(q.text[q.tokens[0]..], q.params, rows, valuesOffset, accepts, status0, RowLits(pieces));
    } else {
      var stopped, ret, errors, processed, status;
      stopped, ret, errors, processed, status, sent := RunRows(rows, arraySize, accepts, status0);
      RanSent(rows, arraySize, accepts, errors, status, status0, sent);
    }
  }
}
