/**
ODBC escape sequences: MADB_UnescapeQuery, which walks the query with a shared iterator,
calls itself for every opening brace, and hands what stood between a pair of braces to the
escape grammar. The grammar itself (yyparse) is a parameter.
*/
module Escape {
  import T = Tokenizer

  /** What the grammar makes of the text between two braces. */
  datatype Parsed = Good(text: string) | Bad

  // ---------------------------------------------------------------------------------
  // Which braces count, and when they balance
  // ---------------------------------------------------------------------------------

  /** The end of the element at `i`: a quoted string, closed or not, or one character. */
  function ItemEnd(t: string, i: nat): (e: nat)
    requires i < |t|
    ensures i < e <= |t|
  {
    if T.IsQuote(t[i]) then
      var k := T.QuoteClose(t, t[i], i + 1);
      if k < |t| then k + 1 else |t|
    else i + 1
  }

  /** Do the braces outside quoted strings balance from `i` on, `open` of them being open? */
  predicate Balanced(t: string, i: nat, open: nat)
    decreases |t| - i
  {
    if i >= |t| then open == 0
    else if t[i] == '{' then Balanced(t, i + 1, open + 1)
    else if t[i] == '}' then open > 0 && Balanced(t, i + 1, open - 1)
    else Balanced(t, ItemEnd(t, i), open)
  }

  /** The index behind the brace that closes the last of `open` open pairs, or |t| + 1. */
  function Close(t: string, i: nat, open: nat): (e: nat)
    requires open > 0
    ensures e <= |t| ==> i < e
    decreases |t| - i
  {
    if i >= |t| then |t| + 1
    else if t[i] == '{' then Close(t, i + 1, open + 1)
    else if t[i] == '}' then (if open == 1 then i + 1 else Close(t, i + 1, open - 1))
    else Close(t, ItemEnd(t, i), open)
  }

  /** Is `k` the start of an element when elements are passed from `i` on, braces one by one? */
  predicate Visits(t: string, i: nat, k: nat)
    decreases |t| - i
  {
    i == k || (i < |t| && i < k && Visits(t, if t[i] == '{' || t[i] == '}' then i + 1 else ItemEnd(t, i), k))
  }

  lemma VisitsOrder(t: string, i: nat, k: nat)
    requires Visits(t, i, k)
    ensures i <= k
  {
  }

  lemma {:induction false} VisitsFurther(t: string, i: nat, k: nat, m: nat)
    requires Visits(t, i, k) && Visits(t, k, m)
    ensures Visits(t, i, m)
    decreases |t| - i
  {
    hide ItemEnd;
    if i != k {
      VisitsOrder(t, k, m);
      VisitsFurther(t, if t[i] == '{' || t[i] == '}' then i + 1 else ItemEnd(t, i), k, m);
    }
  }

  lemma VisitsNext(t: string, i: nat, k: nat)
    requires Visits(t, i, k) && k < |t|
    ensures Visits(t, i, if t[k] == '{' || t[k] == '}' then k + 1 else ItemEnd(t, k))
  {
    hide ItemEnd;
    var m := if t[k] == '{' || t[k] == '}' then k + 1 else ItemEnd(t, k);
    assert Visits(t, m, m);
    VisitsFurther(t, i, k, m);
  }

  /** Closing one pair and then the others is closing them all. */
  lemma {:induction false} CloseOneFirst(t: string, i: nat, open: nat)
    requires open > 1
    ensures var c := Close(t, i, open - 1);
            Close(t, i, open) == if c <= |t| then Close(t, c, 1) else |t| + 1
    decreases |t| - i
  {
    if i < |t| {
      if t[i] == '{' {
        CloseOneFirst(t, i + 1, open + 1);
      } else if t[i] == '}' {
        if open > 2 {
          CloseOneFirst(t, i + 1, open - 1);
        }
      } else {
        CloseOneFirst(t, ItemEnd(t, i), open);
      }
    }
  }

  lemma {:induction false} BalancedByClose(t: string, i: nat, open: nat)
    requires open > 0
    ensures Balanced(t, i, open) <==> Close(t, i, open) <= |t| && Balanced(t, Close(t, i, open), 0)
    decreases |t| - i
  {
    if i < |t| {
      if t[i] == '{' {
        BalancedByClose(t, i + 1, open + 1);
      } else if t[i] == '}' {
        if open > 1 {
          BalancedByClose(t, i + 1, open - 1);
        }
      } else {
        BalancedByClose(t, ItemEnd(t, i), open);
      }
    }
  }

  // ---------------------------------------------------------------------------------
  // What a query with braces means
  // ---------------------------------------------------------------------------------

  /** Text outside braces, and pairs of braces, in the order of the query. */
  datatype Forest = Nil | Text(text: string, rest: Forest) | Group(inner: Forest, rest: Forest)

  /** The query as written. */
  function Flatten(f: Forest): string {
    match f
    case Nil => ""
    case Text(t, rest) => t + Flatten(rest)
    case Group(inner, rest) => "{" + Flatten(inner) + "}" + Flatten(rest)
  }

  function TextOf(p: Parsed): string { if p.Good? then p.text else "" }

  /** The query with every pair of braces replaced by what the grammar makes of its inside. */
  function Eval(f: Forest, grammar: string -> Parsed): string {
    match f
    case Nil => ""
    case Text(t, rest) => t + Eval(rest, grammar)
    case Group(inner, rest) => TextOf(grammar(Eval(inner, grammar))) + Eval(rest, grammar)
  }

  /** The grammar steps, the inside of a pair before the pair itself. */
  function Steps(f: Forest, grammar: string -> Parsed): seq<string> {
    match f
    case Nil => []
    case Text(_, rest) => Steps(rest, grammar)
    case Group(inner, rest) => Steps(inner, grammar) + [Eval(inner, grammar)] + Steps(rest, grammar)
  }

  /** One step for every pair. */
  function Pairs(f: Forest): nat {
    match f
    case Nil => 0
    case Text(_, rest) => Pairs(rest)
    case Group(inner, rest) => Pairs(inner) + 1 + Pairs(rest)
  }

  lemma {:induction false} OneStepPerPair(f: Forest, grammar: string -> Parsed)
    ensures |Steps(f, grammar)| == Pairs(f)
  {
    match f
    case Nil =>
    case Text(_, rest) => OneStepPerPair(rest, grammar);
    case Group(inner, rest) =>
      OneStepPerPair(inner, grammar);
      OneStepPerPair(rest, grammar);
  }

  /**
  `f` is the reading of t[i..e]: a quoted string is one piece of text, every other
  character but a brace too, and an opening brace goes up to the brace that closes it.
  */
  predicate Reads(t: string, i: nat, e: nat, f: Forest)
    decreases f
  {
    && i <= e <= |t|
    && match f
       case Nil => i == e
       case Text(x, rest) =>
         && i < e && t[i] != '{' && t[i] != '}' && x == t[i..ItemEnd(t, i)] && Reads(t, ItemEnd(t, i), e, rest)
       case Group(inner, rest) =>
         && i < e && t[i] == '{'
         && var c := Close(t, i + 1, 1);
         && i + 1 < c <= e && t[c - 1] == '}' && Reads(t, i + 1, c - 1, inner) && Reads(t, c, e, rest)
  }

  /** There is only one reading. */
  lemma {:induction false} ReadsUnique(t: string, i: nat, e: nat, f: Forest, g: Forest)
    requires Reads(t, i, e, f) && Reads(t, i, e, g)
    ensures f == g
    decreases f
  {
    hide ItemEnd, Close;
    match f
    case Nil =>
    case Text(x, rest) => ReadsUnique(t, ItemEnd(t, i), e, rest, g.rest);
    case Group(inner, rest) =>
      ReadsUnique(t, i + 1, Close(t, i + 1, 1) - 1, inner, g.inner);
      ReadsUnique(t, Close(t, i + 1, 1), e, rest, g.rest);
  }

  lemma Cut(t: string, i: nat, m: nat, e: nat)
    requires i <= m <= e <= |t|
    ensures t[i..e] == t[i..m] + t[m..e]
  {
  }

  lemma CutGroup(t: string, i: nat, c: nat, e: nat)
    requires i + 1 < c <= e <= |t| && t[i] == '{' && t[c - 1] == '}'
    ensures t[i..e] == "{" + t[i + 1..c - 1] + "}" + t[c..e]
  {
  }

  /** And it is a reading of the text. */
  lemma {:induction false} ReadsFlatten(t: string, i: nat, e: nat, f: Forest)
    requires Reads(t, i, e, f)
    ensures t[i..e] == Flatten(f)
    decreases f
  {
    hide Close, ItemEnd;
    match f
    case Nil =>
    case Text(x, rest) =>
      ReadsFlatten(t, ItemEnd(t, i), e, rest);
      Cut(t, i, ItemEnd(t, i), e);
    case Group(inner, rest) =>
      var c := Close(t, i + 1, 1);
      ReadsFlatten(t, i + 1, c - 1, inner);
      ReadsFlatten(t, c, e, rest);
      CutGroup(t, i, c, e);
  }

  function Append(f: Forest, g: Forest): Forest {
    match f
    case Nil => g
    case Text(t, rest) => Text(t, Append(rest, g))
    case Group(inner, rest) => Group(inner, Append(rest, g))
  }

  lemma {:induction false} AppendReads(t: string, i: nat, m: nat, e: nat, f: Forest, g: Forest)
    requires Reads(t, i, m, f) && Reads(t, m, e, g)
    ensures Reads(t, i, e, Append(f, g))
    decreases f
  {
    hide ItemEnd, Close;
    match f
    case Nil =>
    case Text(x, rest) => AppendReads(t, ItemEnd(t, i), m, e, rest, g);
    case Group(inner, rest) => AppendReads(t, Close(t, i + 1, 1), m, e, rest, g);
  }

  lemma {:induction false} AppendEval(f: Forest, g: Forest, grammar: string -> Parsed)
    ensures Eval(Append(f, g), grammar) == Eval(f, grammar) + Eval(g, grammar)
  {
    match f
    case Nil =>
    case Text(_, rest) => AppendEval(rest, g, grammar);
    case Group(_, rest) => AppendEval(rest, g, grammar);
  }

  lemma {:induction false} AppendSteps(f: Forest, g: Forest, grammar: string -> Parsed)
    ensures Steps(Append(f, g), grammar) == Steps(f, grammar) + Steps(g, grammar)
  {
    hide Eval;
    match f
    case Nil =>
    case Text(_, rest) => AppendSteps(rest, g, grammar);
    case Group(inner, rest) =>
      AppendSteps(rest, g, grammar);
      var own := Steps(inner, grammar) + [Eval(inner, grammar)];
      assert own + (Steps(rest, grammar) + Steps(g, grammar)) == own + Steps(rest, grammar) + Steps(g, grammar);
  }

  // ---------------------------------------------------------------------------------
  // The scan
  // ---------------------------------------------------------------------------------

  datatype Outcome = Ok(text: string) | Unbalanced | Rejected(inside: string)

  /** One level of the scan: from `start` to `src` the text reads `f`, and the steps taken are those of `f`. */
  ghost predicate Scanned(t: string, start: nat, src: nat, f: Forest, out: string, before: seq<string>,
                          steps: seq<string>, grammar: string -> Parsed)
  {
    && Reads(t, start, src, f) && out == Eval(f, grammar) && steps == before + Steps(f, grammar)
    && forall x :: x in Steps(f, grammar) ==> grammar(x).Good?
  }

  /**
  The pair of braces outside quoted strings whose inside starts at `at` is the first the
  grammar does not accept: it is called on what the pairs inside it have left of it.
  */
  ghost predicate BadPair(t: string, at: nat, f: Forest, inside: string, grammar: string -> Parsed) {
    && 0 < at <= |t| && t[at - 1] == '{' && at < Close(t, at, 1) <= |t|
    && Reads(t, at, Close(t, at, 1) - 1, f) && Eval(f, grammar) == inside && grammar(inside).Bad?
    && forall x :: x in Steps(f, grammar) ==> grammar(x).Good?
  }

  /** The last step failed, and none before it. */
  ghost predicate FailedLast(before: seq<string>, steps: seq<string>, inside: string, grammar: string -> Parsed) {
    && |before| < |steps| && steps[..|before|] == before && steps[|steps| - 1] == inside && grammar(inside).Bad?
    && forall k :: |before| <= k < |steps| - 1 ==> grammar(steps[k]).Good?
  }

  /** What was called before on this level did not fail. */
  lemma FailedWithin(t: string, start: nat, src: nat, f: Forest, out: string, before: seq<string>, was: seq<string>,
                     steps: seq<string>, inside: string, grammar: string -> Parsed)
    requires Scanned(t, start, src, f, out, before, was, grammar) && FailedLast(was, steps, inside, grammar)
    ensures FailedLast(before, steps, inside, grammar)
  {
    hide Steps, Eval, Reads;
    assert steps[..|before|] == was[..|before|] == before;
    forall k | |before| <= k < |steps| - 1
      ensures grammar(steps[k]).Good?
    {
      if k < |was| {
        assert steps[k] == was[k] == Steps(f, grammar)[k - |before|];
      }
    }
  }

  lemma FailedHere(t: string, start: nat, src: nat, f: Forest, out: string, before: seq<string>, steps: seq<string>,
                   grammar: string -> Parsed)
    requires Scanned(t, start, src, f, out, before, steps, grammar) && grammar(out).Bad?
    ensures FailedLast(before, steps + [out], out, grammar)
  {
    hide Steps, Eval, Reads;
    assert forall k :: |before| <= k < |steps| ==> steps[k] == Steps(f, grammar)[k - |before|];
  }

  lemma ScanNothing(t: string, start: nat, before: seq<string>, grammar: string -> Parsed)
    requires start <= |t|
    ensures Scanned(t, start, start, Nil, "", before, before, grammar)
  {
    assert before + [] == before;
  }

  lemma OneText(t: string, i: nat, grammar: string -> Parsed)
    requires i < |t| && t[i] != '{' && t[i] != '}'
    ensures var f := Text(t[i..ItemEnd(t, i)], Nil);
            Reads(t, i, ItemEnd(t, i), f) && Eval(f, grammar) == t[i..ItemEnd(t, i)] && Steps(f, grammar) == []
  {
    hide ItemEnd;
  }

  lemma ScanItem(t: string, start: nat, src: nat, f: Forest, out: string, before: seq<string>, steps: seq<string>,
                 grammar: string -> Parsed)
    requires Scanned(t, start, src, f, out, before, steps, grammar) && src < |t| && t[src] != '{' && t[src] != '}'
    ensures var e := ItemEnd(t, src);
            Scanned(t, start, e, Append(f, Text(t[src..e], Nil)), out + t[src..e], before, steps, grammar)
  {
    hide ItemEnd, Append, Eval, Steps, Reads;
    var e := ItemEnd(t, src);
    OneText(t, src, grammar);
    AppendReads(t, start, src, e, f, Text(t[src..e], Nil));
    AppendEval(f, Text(t[src..e], Nil), grammar);
    AppendSteps(f, Text(t[src..e], Nil), grammar);
    assert Steps(f, grammar) + [] == Steps(f, grammar);
  }

  lemma OneGroup(t: string, i: nat, inner: Forest, grammar: string -> Parsed)
    requires i < |t| && t[i] == '{'
    requires var c := Close(t, i + 1, 1); i + 1 < c <= |t| && t[c - 1] == '}' && Reads(t, i + 1, c - 1, inner)
    ensures Reads(t, i, Close(t, i + 1, 1), Group(inner, Nil))
    ensures Eval(Group(inner, Nil), grammar) == TextOf(grammar(Eval(inner, grammar)))
    ensures Steps(Group(inner, Nil), grammar) == Steps(inner, grammar) + [Eval(inner, grammar)]
  {
    hide Close;
    assert Steps(inner, grammar) + [Eval(inner, grammar)] + [] == Steps(inner, grammar) + [Eval(inner, grammar)];
  }

  lemma ScanGroup(t: string, start: nat, src: nat, f: Forest, out: string, before: seq<string>, steps: seq<string>,
                  inner: Forest, src': nat, steps': seq<string>, grammar: string -> Parsed)
    requires Scanned(t, start, src, f, out, before, steps, grammar) && src < |t| && t[src] == '{'
    requires src' == Close(t, src + 1, 1) <= |t| && src + 1 < src' && t[src' - 1] == '}'
    requires Reads(t, src + 1, src' - 1, inner)
    requires steps' == steps + Steps(inner, grammar) + [Eval(inner, grammar)]
    requires grammar(Eval(inner, grammar)).Good? && forall x :: x in Steps(inner, grammar) ==> grammar(x).Good?
    ensures Scanned(t, start, src', Append(f, Group(inner, Nil)), out + grammar(Eval(inner, grammar)).text, before,
                    steps', grammar)
  {
    hide Append, Eval, Steps, Reads, Close;
    OneGroup(t, src, inner, grammar);
    AppendReads(t, start, src, src', f, Group(inner, Nil));
    AppendEval(f, Group(inner, Nil), grammar);
    AppendSteps(f, Group(inner, Nil), grammar);
    var own := Steps(inner, grammar) + [Eval(inner, grammar)];
    assert before + Steps(f, grammar) + Steps(inner, grammar) + [Eval(inner, grammar)]
           == before + (Steps(f, grammar) + own);
    forall x | x in Steps(f, grammar) + own
      ensures grammar(x).Good?
    {
    }
  }

  /** Depth seen from position `i` of a level: will it close, or at the outermost level, does the rest balance? */
  predicate Closes(t: string, i: nat, open: nat) {
    if open > 0 then Close(t, i, 1) <= |t| else Balanced(t, i, 0)
  }

  /** Where a level that closes ends. */
  function LevelEnd(t: string, i: nat, open: nat): nat { if open > 0 then Close(t, i, 1) else |t| }

  /** Passing an element, or a whole pair of braces, keeps the level's fate. */
  lemma PassItem(t: string, i: nat, open: nat)
    requires i < |t| && t[i] != '{' && t[i] != '}'
    ensures Closes(t, i, open) == Closes(t, ItemEnd(t, i), open)
    ensures LevelEnd(t, i, open) == LevelEnd(t, ItemEnd(t, i), open)
  {
    hide ItemEnd;
  }

  lemma PassPair(t: string, i: nat, open: nat)
    requires i < |t| && t[i] == '{'
    ensures var c := LevelEnd(t, i + 1, open + 1);
            if Closes(t, i + 1, open + 1) then
              Closes(t, i, open) == Closes(t, c, open) && LevelEnd(t, i, open) == LevelEnd(t, c, open)
            else !Closes(t, i, open)
  {
    hide ItemEnd;
    CloseOneFirst(t, i + 1, 2);
    BalancedByClose(t, i + 1, 1);
  }

  lemma InnerLevel(t: string, i: nat, open: nat)
    requires open > 0
    ensures LevelEnd(t, i, open) == Close(t, i, 1) && (Closes(t, i, open) <==> Close(t, i, 1) <= |t|)
  {
    hide Close;
  }

  lemma PassClosing(t: string, i: nat, open: nat)
    requires i < |t| && t[i] == '}'
    ensures Closes(t, i, open) == (open > 0) && (open > 0 ==> LevelEnd(t, i, open) == i + 1)
  {
  }

  lemma PassEnd(t: string, open: nat)
    ensures Closes(t, |t|, open) == (open == 0) && LevelEnd(t, |t|, 0) == |t|
  {
  }

  lemma ScannedLevel(t: string, start: nat, src: nat, f: Forest, out: string, before: seq<string>, steps: seq<string>,
                     grammar: string -> Parsed)
    requires Scanned(t, start, src, f, out, before, steps, grammar)
    ensures Reads(t, start, src, f) && out == Eval(f, grammar)
    ensures steps == before + Steps(f, grammar) && forall x :: x in Steps(f, grammar) ==> grammar(x).Good?
  {
  }

  lemma VisitsStart(t: string, i: nat)
    ensures Visits(t, i, i)
  {
  }

  lemma BadPairHere(t: string, start: nat, end: nat, open: nat, f: Forest, out: string, before: seq<string>,
                    steps: seq<string>, grammar: string -> Parsed)
    requires 0 < start < end <= |t| && open > 0 && LevelEnd(t, start, open) == end && t[start - 1] == '{'
    requires Scanned(t, start, end - 1, f, out, before, steps, grammar) && grammar(out).Bad?
    ensures BadPair(t, start, f, out, grammar)
  {
    hide Reads, Eval, Steps, Close;
  }

  class Scanner {
    const text: string
    const grammar: string -> Parsed
    var src: nat
    ghost var steps: seq<string>      // what the grammar has been called on

    constructor (text: string, grammar: string -> Parsed)
      ensures this.text == text && this.grammar == grammar && src == 0 && steps == []
    {
      this.text, this.grammar, src, steps := text, grammar, 0, [];
    }

    /**
    MADB_UnescapeQuery. A nested call reads up to the brace that closes its level and
    answers with what the grammar makes of it; the outermost one reads the whole query.
    */
    method Unescape(open: nat) returns (r: Outcome, ghost f: Forest, ghost at: nat)
      requires src <= |text| && (open > 0 ==> src > 0 && text[src - 1] == '{')
      modifies this
      ensures old(src) <= src <= |text|
      ensures r.Unbalanced? ==> !Closes(text, old(src), open)
      ensures r.Rejected? ==>
                && 0 < at && BadPair(text, at, f, r.inside, grammar)
                && ((open > 0 && at == old(src)) || Visits(text, old(src), at - 1))
                && FailedLast(old(steps), steps, r.inside, grammar)
      ensures r.Ok? ==>
                && Closes(text, old(src), open) && src == LevelEnd(text, old(src), open)
                && Visits(text, old(src), src)
                && (forall x :: x in Steps(f, grammar) ==> grammar(x).Good?)
                && (if open == 0 then
                      && Reads(text, old(src), src, f) && r.text == Eval(f, grammar)
                      && steps == old(steps) + Steps(f, grammar)
                    else
                      && old(src) < src && text[src - 1] == '}' && Reads(text, old(src), src - 1, f)
                      && grammar(Eval(f, grammar)) == Good(r.text)
                      && steps == old(steps) + Steps(f, grammar) + [Eval(f, grammar)])
      decreases |text| - src
    {
      hide ItemEnd, Append, Eval, Steps, Reads, Closes, LevelEnd, Scanned, Balanced, Close, Visits, FailedLast, BadPair;
      ghost var start, before := src, steps;
      var res := "";
      f, at := Nil, start;
      ScanNothing(text, start, before, grammar);
      VisitsStart(text, start);
      while src < |text|
        invariant start <= src <= |text| && Scanned(text, start, src, f, res, before, steps, grammar)
        invariant Closes(text, start, open) == Closes(text, src, open)
        invariant LevelEnd(text, start, open) == LevelEnd(text, src, open)
        invariant Visits(text, start, src)
        decreases |text| - src
      {
        VisitsNext(text, start, src);
        match text[src] {
          case '{' =>
            PassPair(text, src, open);
            InnerLevel(text, src + 1, open + 1);
            ghost var opening, was := src, steps;
            src := src + 1;
            ghost var inner;
            r, inner, at := Unescape(open + 1);
            if r.Rejected? {
              FailedWithin(text, start, opening, f, res, before, was, steps, r.inside, grammar);
              if at != opening + 1 {
                VisitsFurther(text, start, opening + 1, at - 1);
              }
            }
            if !r.Ok? {
              f := inner;
              return;
            }
            VisitsFurther(text, start, opening + 1, src);
            ScanGroup(text, start, opening, f, res, before, was, inner, src, steps, grammar);
            f := Append(f, Group(inner, Nil));
            res := res + r.text;
          case '}' =>
            PassClosing(text, src, open);
            ScannedLevel(text, start, src, f, res, before, steps, grammar);
            if open == 0 {
              return Unbalanced, f, at;
            }
            src := src + 1;
            var parsed := grammar(res);
            if parsed.Bad? {
              FailedHere(text, start, src - 1, f, res, before, steps, grammar);
              BadPairHere(text, start, src, open, f, res, before, steps, grammar);
            }
            steps := steps + [res];
            return if parsed.Good? then Ok(parsed.text) else Rejected(res), f, start;
          case _ =>
            PassItem(text, src, open);
            ScanItem(text, start, src, f, res, before, steps, grammar);
            var e := ItemEnd(text, src);
            f := Append(f, Text(text[src..e], Nil));
            res := res + text[src..e];
            src := e;
        }
      }
      PassEnd(text, open);
      ScannedLevel(text, start, src, f, res, before, steps, grammar);
      r := if open != 0 then Unbalanced else Ok(res);
    }
  }

  /**
  The whole query: unless the grammar fails on a pair, it succeeds exactly when the braces
  balance, and answers with the meaning of the one reading of the query.  The grammar is
  called on the pairs, innermost first, up to the first on which it fails.
  */
  method UnescapeQuery(query: string, grammar: string -> Parsed)
    returns (r: Outcome, ghost f: Forest, ghost at: nat, ghost steps: seq<string>)
    ensures r.Ok? ==> Balanced(query, 0, 0)
    ensures r.Unbalanced? ==> !Balanced(query, 0, 0)
    ensures r.Ok? ==> Reads(query, 0, |query|, f) && Eval(f, grammar) == r.text && steps == Steps(f, grammar)
    ensures r.Rejected? ==> 0 < at && BadPair(query, at, f, r.inside, grammar) && Visits(query, 0, at - 1)
    ensures r.Rejected? ==> FailedLast([], steps, r.inside, grammar)
    ensures r.Ok? ==> forall x :: x in steps ==> grammar(x).Good?
  {
    hide Balanced, Close, Eval, Reads, BadPair, Visits, Steps, FailedLast;
    var scanner := new Scanner(query, grammar);
    r, f, at := scanner.Unescape(0);
    steps := scanner.steps;
  }

  /** Text without braces outside quoted strings is copied unchanged. */
  lemma {:induction false} NoBracesUnchanged(t: string, i: nat, f: Forest, grammar: string -> Parsed)
    requires Reads(t, i, |t|, f) && Pairs(f) == 0
    ensures Eval(f, grammar) == t[i..]
    decreases f
  {
    hide Close;
    match f
    case Nil =>
    case Text(x, rest) =>
      NoBracesUnchanged(t, ItemEnd(t, i), rest, grammar);
      assert t[i..] == t[i..ItemEnd(t, i)] + t[ItemEnd(t, i)..];
  }
}
