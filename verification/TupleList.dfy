/**
When a rewritten INSERT is one: the text behind the word VALUES has to be a list of tuples,
so that the texts of several rows, joined by commas, are again a list of tuples.
*/
module TupleList {
  import opened CString
  import C = ClientSide
  import T = Tokenizer

  // ---------------------------------------------------------------------------------
  // Lists of tuples
  // ---------------------------------------------------------------------------------

  /** Before a tuple, in one, in a string in one, and behind one. */
  datatype Place =
    | Before | Inside(depth: nat) | Quoted(quote: char, depth: nat) | Escaped(quote: char, depth: nat)
    | Behind | Astray

  function Next(s: Place, c: char): Place {
    match s
    case Before => if IsSpace(c) then Before else if c == '(' then Inside(1) else Astray
    case Inside(d) =>
      if c == '(' then Inside(d + 1)
      else if c == ')' then (if d <= 1 then Behind else Inside(d - 1))
      else if T.IsQuote(c) then Quoted(c, d)
      else Inside(d)
    case Quoted(q, d) => if c == q then Inside(d) else if c == '\\' && q != '`' then Escaped(q, d) else s
    case Escaped(q, d) => Quoted(q, d)
    case Behind => if IsSpace(c) then Behind else if c == ',' then Before else Astray
    case Astray => Astray
  }

  function Run(s: Place, t: string): Place
    decreases t
  {
    if t == [] then s else Run(Next(s, t[0]), t[1..])
  }

  /** Tuples in parentheses, separated by commas. */
  predicate IsTuples(t: string) { Run(Before, t) == Behind }

  lemma {:induction false} RunAppend(s: Place, a: string, b: string)
    ensures Run(s, a + b) == Run(Run(s, a), b)
    decreases a
  {
    if a == [] {
      assert a + b == b;
    } else {
      assert (a + b)[0] == a[0] && (a + b)[1..] == a[1..] + b;
      RunAppend(Next(s, a[0]), a[1..], b);
    }
  }

  lemma {:induction false} RunAstray(t: string)
    ensures Run(Astray, t) == Astray
  {
    if t != [] {
      RunAstray(t[1..]);
    }
  }

  lemma RunOne(s: Place, c: char)
    ensures Run(s, [c]) == Next(s, c)
  {
    assert [c][1..] == [];
  }

  // ---------------------------------------------------------------------------------
  // Rows
  // ---------------------------------------------------------------------------------

  /** A literal as the driver writes it: a number, a string or NULL, nothing that opens or closes a tuple. */
  ghost predicate Atomic(lit: string) {
    && (forall d: nat :: d >= 1 ==> Run(Inside(d), lit) == Inside(d))
    && Run(Before, lit) == Astray && Run(Behind, lit) == Astray
  }

  /** No marker stands inside a string of the text from `from` on. */
  ghost predicate Unquoted(text: string, from: nat, marks: seq<int>) {
    forall i :: 0 <= i < |marks| && from <= marks[i] <= |text| ==>
      !Run(Before, text[from..marks[i]]).Quoted? && !Run(Before, text[from..marks[i]]).Escaped?
  }

  lemma {:induction false} RunPlaces(s: Place, t: string)
    requires (s.Inside? || s.Quoted? || s.Escaped?) ==> s.depth >= 1
    ensures var r := Run(s, t); (r.Inside? || r.Quoted? || r.Escaped?) ==> r.depth >= 1
    decreases t
  {
    if t != [] {
      RunPlaces(Next(s, t[0]), t[1..]);
    }
  }

  /** A literal in place of a marker leads to the same place. */
  lemma LiteralLikeMarker(s: Place, lit: string)
    requires Atomic(lit) && !s.Quoted? && !s.Escaped? && (s.Inside? ==> s.depth >= 1)
    ensures Run(s, lit) == Next(s, '?')
  {
    RunAstray(lit);
  }

  /** So the text of a row leads where the text with markers leads. */
  lemma {:induction false} RunSplice(text: string, from: nat, to: int, marks: seq<int>, lits: seq<string>)
    requires from <= to <= |text| && |marks| == |lits| && C.Marks(marks, from, to) && Unquoted(text, from, marks)
    requires (forall i :: 0 <= i < |marks| ==> text[marks[i]] == '?') && forall i :: 0 <= i < |lits| ==> Atomic(lits[i])
    ensures Run(Before, C.Splice(text, from, to, marks, lits)) == Run(Before, text[from..to])
    decreases |marks|
  {
    hide Run, Atomic, Next;
    if marks != [] {
      var k := |marks| - 1;
      var m := marks[k];
      RunSplice(text, from, m, marks[..k], lits[..k]);
      var left, rest := C.Splice(text, from, m, marks[..k], lits[..k]), text[m + 1..to];
      var s := Run(Before, text[from..m]);
      RunPlaces(Before, text[from..m]);
      LiteralLikeMarker(s, lits[k]);
      RunAppend(Before, left, lits[k]);
      RunAppend(Before, left + lits[k], rest);
      RunOne(s, '?');
      RunAppend(Before, text[from..m], "?");
      RunAppend(Before, text[from..m] + "?", rest);
      assert text[from..to] == text[from..m] + "?" + rest;
      assert C.Splice(text, from, to, marks, lits) == left + lits[k] + rest;
    }
  }

  /** What stands behind `v` in the text of a row. */
  lemma {:induction false} SpliceSuffix(text: string, v: nat, end: int, marks: seq<int>, lits: seq<string>)
    requires v <= end <= |text| && |marks| == |lits| && C.Marks(marks, v, end)
    ensures C.Marks(marks, 0, end)
    ensures C.Splice(text, 0, end, marks, lits) == text[..v] + C.Splice(text, v, end, marks, lits)
    decreases |marks|
  {
    if marks == [] {
      assert text[0..end] == text[..v] + text[v..end];
    } else {
      var k := |marks| - 1;
      SpliceSuffix(text, v, marks[k], marks[..k], lits[..k]);
    }
  }

  /** A row's query, in front of `v` and behind it. */
  lemma RowParts(rows: seq<C.ParamRow>, text: string, params: seq<int>, lits: seq<seq<string>>, v: nat, j: nat)
    requires C.RowsOf(rows, text, params, lits) && params != [] && forall i :: 0 <= i < |params| ==> v <= params[i]
    requires j < |rows| && rows[j].Row? && rows[j].query.Built?
    ensures var end := StrChr(text, T.NUL, 0);
            && v <= end <= |text| && j < |lits| && |lits[j]| == |params| && C.Marks(params, v, end)
            && rows[j].query.text == text[..v] + C.Splice(text, v, end, params, lits[j])
  {
    hide StrChr, C.Splice;
    var end := StrChr(text, T.NUL, 0);
    assert v <= params[0] < end;
    SpliceSuffix(text, v, end, params, lits[j]);
  }

  /** The text behind `v` can be rewritten: markers outside strings, and literals that are atoms. */
  ghost predicate Plain(text: string, v: nat, params: seq<int>) {
    && params != [] && Unquoted(text, v, params)
    && forall i :: 0 <= i < |params| ==> v <= params[i] < |text| && text[params[i]] == '?'
  }

  ghost predicate AllAtomic(lits: seq<string>) { forall i :: 0 <= i < |lits| ==> Atomic(lits[i]) }

  /** A row's tuple is a list of tuples exactly when the text behind VALUES is. */
  lemma TupleIff(rows: seq<C.ParamRow>, text: string, params: seq<int>, lits: seq<seq<string>>, v: nat, j: nat)
    requires C.RowsOf(rows, text, params, lits) && Plain(text, v, params)
    requires j < |rows| && rows[j].Row? && rows[j].query.Built? && AllAtomic(lits[j])
    ensures var end := StrChr(text, T.NUL, 0);
            && v <= end <= |text| && v <= |rows[j].query.text|
            && (IsTuples(C.Tuple(rows[j], v)) <==> IsTuples(text[v..end]))
  {
    hide StrChr, Run, Atomic, C.Splice, C.RowsOf, Unquoted, C.Marks;
    var end := StrChr(text, T.NUL, 0);
    RowParts(rows, text, params, lits, v, j);
    RunSplice(text, v, end, params, lits[j]);
    var own := C.Splice(text, v, end, params, lits[j]);
    assert (text[..v] + own)[v..] == own;
  }

  /** Lists of tuples joined by commas are a list of tuples. */
  lemma {:induction false} JoinIsTuples(tuples: seq<string>)
    requires tuples != [] && forall i :: 0 <= i < |tuples| ==> IsTuples(tuples[i])
    ensures IsTuples(C.Join(tuples))
  {
    var k := |tuples| - 1;
    if k > 0 {
      JoinIsTuples(tuples[..k]);
      var front := C.Join(tuples[..k]);
      RunAppend(Before, front, ",");
      RunOne(Behind, ',');
      RunAppend(Before, front + ",", tuples[k]);
    }
  }

  lemma {:induction false} AllTuples(rows: seq<C.ParamRow>, v: nat, from: nat, till: nat)
    requires C.Rewritable(rows, v, from, till)
    requires forall j :: from <= j < till && rows[j].Row? ==> IsTuples(C.Tuple(rows[j], v))
    ensures forall i :: 0 <= i < |C.Tuples(rows, v, from, till)| ==> IsTuples(C.Tuples(rows, v, from, till)[i])
    decreases till
  {
    hide IsTuples;
    if from < till {
      AllTuples(rows, v, from, till - 1);
    }
  }

  /** Every batch that starts with a row not ignored carries a list of tuples. */
  ghost predicate BatchesAreTuples(rows: seq<C.ParamRow>, v: nat) {
    forall from: nat, till: nat {:trigger C.Combined(rows, v, from, till)} ::
      from < till && C.Rewritable(rows, v, from, till) && rows[from].Row? ==> IsTuples(C.Combined(rows, v, from, till))
  }

  lemma BatchIsTuples(rows: seq<C.ParamRow>, text: string, params: seq<int>, lits: seq<seq<string>>, v: nat,
                      from: nat, till: nat)
    requires C.RowsOf(rows, text, params, lits) && Plain(text, v, params)
    requires forall j :: 0 <= j < |rows| ==> AllAtomic(lits[j])
    requires from < till && C.Rewritable(rows, v, from, till) && rows[from].Row?
    requires v <= StrChr(text, T.NUL, 0) && IsTuples(text[v..StrChr(text, T.NUL, 0)])
    ensures IsTuples(C.Combined(rows, v, from, till))
  {
    hide C.RowsOf, StrChr, IsTuples, AllAtomic, Plain, C.Combined, C.Tuples, C.Join, C.Tuple;
    forall j | from <= j < till && rows[j].Row?
      ensures IsTuples(C.Tuple(rows[j], v))
    {
      TupleIff(rows, text, params, lits, v, j);
    }
    AllTuples(rows, v, from, till);
    C.CombinedIsJoin(rows, v, from, till);
    JoinIsTuples(C.Tuples(rows, v, from, till));
    assert "" + C.Join(C.Tuples(rows, v, from, till)) == C.Join(C.Tuples(rows, v, from, till));
  }

  lemma OneRow(rows: seq<C.ParamRow>, v: nat, one: nat)
    requires one < |rows| && rows[one].Row? && rows[one].query.Built? && v <= |rows[one].query.text|
    ensures C.Rewritable(rows, v, one, one + 1) && C.Combined(rows, v, one, one + 1) == C.Tuple(rows[one], v)
  {
    assert C.Combined(rows, v, one, one) == "";
  }

  /**
  The rewrite of an INSERT sends a list of tuples behind the common prefix, whatever the
  batches, if and only if a list of tuples is what stands behind the word VALUES found.
  */
  lemma BatchesAreTuplesIff(rows: seq<C.ParamRow>, text: string, params: seq<int>, lits: seq<seq<string>>, v: nat,
                            one: nat)
    requires C.RowsOf(rows, text, params, lits) && Plain(text, v, params)
    requires forall j :: 0 <= j < |rows| ==> AllAtomic(lits[j])
    requires one < |rows| && rows[one].Row? && rows[one].query.Built?
    ensures v <= StrChr(text, T.NUL, 0) <= |text|
    ensures BatchesAreTuples(rows, v) <==> IsTuples(text[v..StrChr(text, T.NUL, 0)])
  {
    hide C.RowsOf, StrChr, IsTuples, AllAtomic, Plain, C.Combined, C.Tuples, C.Join, C.Tuple;
    var end := StrChr(text, T.NUL, 0);
    TupleIff(rows, text, params, lits, v, one);
    if IsTuples(text[v..end]) {
      forall from: nat, till: nat | from < till && C.Rewritable(rows, v, from, till) && rows[from].Row?
        ensures IsTuples(C.Combined(rows, v, from, till))
      {
        BatchIsTuples(rows, text, params, lits, v, from, till);
      }
    } else {
      OneRow(rows, v, one);
      assert !IsTuples(C.Combined(rows, v, one, one + 1));
    }
  }

  // ---------------------------------------------------------------------------------
  // Texts that are rewritten and should not be
  // ---------------------------------------------------------------------------------

  /** Behind the word stands a blank or a parenthesis, so VALUES is not the beginning of a name. */
  lemma WholeWord(t: string)
    requires IsTuples(t)
    ensures t != "" && (IsSpace(t[0]) || t[0] == '(')
  {
    if t != "" && !IsSpace(t[0]) && t[0] != '(' {
      RunAstray(t[1..]);
    }
  }

  /** A clause behind the tuple leads astray. */
  lemma NothingElse(t: string, tuple: string, clause: string)
    requires t == tuple + clause && IsTuples(tuple) && clause != "" && !IsSpace(clause[0]) && clause[0] != ','
    ensures !IsTuples(t)
  {
    RunAppend(Before, tuple, clause);
    RunAstray(clause[1..]);
  }

  lemma ValuesAt(t: string, i: nat)
    requires i + 6 <= |t| && Upper(t[i]) == 'V' && Upper(t[i + 1]) == 'A' && Upper(t[i + 2]) == 'L'
    requires Upper(t[i + 3]) == 'U' && Upper(t[i + 4]) == 'E' && Upper(t[i + 5]) == 'S'
    ensures T.WordAt(t, i, C.VALUES)
  {
  }

  /** INSERT INTO values2 VALUES(?): the first token that begins with VALUES is the name of the table. */
  lemma TableNamedValues(t: string, tokens: seq<int>)
    requires t == "INSERT INTO values2 VALUES(?)" && tokens == [0, 7, 12, 20, 27, 28]
    ensures C.FirstToken(t, tokens, C.VALUES, 12) && !IsTuples(t[18..])
  {
    hide IsTuples, T.WordAt;
    C.NotWord(t, 0, C.VALUES);
    C.NotWord(t, 7, C.VALUES);
    ValuesAt(t, 12);
    assert C.FirstAt(t, tokens, C.VALUES, 2);
    assert t[18..][0] == t[18] == '2';
    if IsTuples(t[18..]) {
      WholeWord(t[18..]);
    }
  }

  lemma TupleThenClause(rest: string)
    requires |rest| > 5 && rest[..4] == "(?) " && rest[4] == 'O'
    ensures !IsTuples(rest)
  {
    assert "(?) "[0] == '(' && "(?) "[1] == '?' && "(?) "[2] == ')' && "(?) "[3] == ' ';
    assert "(?) "[1..] == "?) " && "?) "[1..] == ") " && ") "[1..] == " " && " "[1..] == "";
    assert IsTuples("(?) ");
    NothingElse(rest, "(?) ", rest[4..]);
  }

  lemma SecondBlank(t: string, i: nat)
    requires i + 3 < |t| && t[i + 3] == ' '
    ensures !T.WordAt(t, i, C.ON_DUPLICATE)
  {
    assert Upper(t[i + 3]) != C.ON_DUPLICATE[3];
  }

  lemma NotFound(t: string, tokens: seq<int>)
    requires t == "INSERT t VALUES" + "(?) " + "ON  DUPLICATE KEY UPDATE a=1"
    requires tokens == [0, 7, 9, 16, 17, 19, 23, 33, 37, 44]
    ensures C.FirstToken(t, tokens, C.ON_DUPLICATE, 0)
  {
    hide T.WordAt;
    assert t[0] == 'I' && t[7] == 't' && t[9] == 'V' && t[16] == '?' && t[17] == ')';
    assert t[22] == ' ' && t[23] == 'D' && t[33] == 'K' && t[37] == 'U' && t[44] == 'a';
    C.NotWord(t, 0, C.ON_DUPLICATE);
    C.NotWord(t, 7, C.ON_DUPLICATE);
    C.NotWord(t, 9, C.ON_DUPLICATE);
    C.NotWord(t, 16, C.ON_DUPLICATE);
    C.NotWord(t, 17, C.ON_DUPLICATE);
    SecondBlank(t, 19);
    C.NotWord(t, 23, C.ON_DUPLICATE);
    C.NotWord(t, 33, C.ON_DUPLICATE);
    C.NotWord(t, 37, C.ON_DUPLICATE);
    C.NotWord(t, 44, C.ON_DUPLICATE);
  }

  /** VALUES(?) ON  DUPLICATE with two blanks: the clause is not recognised, and stands behind the tuple. */
  lemma TwoBlanks(t: string, tokens: seq<int>)
    requires t == "INSERT t VALUES" + "(?) " + "ON  DUPLICATE KEY UPDATE a=1"
    requires tokens == [0, 7, 9, 16, 17, 19, 23, 33, 37, 44]
    ensures C.FirstToken(t, tokens, C.ON_DUPLICATE, 0) && C.FirstToken(t, tokens, C.VALUES, 9) && !IsTuples(t[15..])
  {
    hide IsTuples, T.WordAt;
    NotFound(t, tokens);
    assert t[0] == 'I' && t[7] == 't';
    C.NotWord(t, 0, C.VALUES);
    C.NotWord(t, 7, C.VALUES);
    ValuesAt(t, 9);
    assert C.FirstAt(t, tokens, C.VALUES, 2);
    assert t[15..] == "(?) " + "ON  DUPLICATE KEY UPDATE a=1";
    TupleThenClause(t[15..]);
  }
}
