/**
The SQL tokenizer: ParseQuery with SkipSpacesAndComments, StripLeadingComments and
SkipQuotedString.

The scanner walks the query buffer once and writes into it: comments become blanks, batch
separators become NUL, and a leading CALL becomes ECHO.  Its specification is stated on
the text it was given, element by element: a comment, a quoted string, or one character.
*/
module Tokenizer {
  import opened Common
  import opened CString

  // ---------------------------------------------------------------------------------
  // Comments and quoted strings
  // ---------------------------------------------------------------------------------

  predicate Hash(t: string, i: nat) { i < |t| && t[i] == '#' }
  predicate Dashes(t: string, i: nat) { i + 1 < |t| && t[i] == '-' && t[i + 1] == '-' }
  predicate Block(t: string, i: nat) { i + 1 < |t| && t[i] == '/' && t[i + 1] == '*' }

  predicate CommentAt(t: string, i: nat) { Hash(t, i) || Dashes(t, i) || Block(t, i) }

  /** strstr for the two characters that close a block comment; |t| for NULL. */
  function BlockClose(t: string, from: nat): (k: nat)
    requires from <= |t|
    ensures from <= k <= |t|
    ensures k < |t| ==> k + 1 < |t|
    decreases |t| - from
  {
    if from + 1 >= |t| then |t|
    else if t[from] == '*' && t[from + 1] == '/' then from
    else BlockClose(t, from + 1)
  }

  /** The end of the comment at `i`: behind its newline or closing mark, or the end of the text. */
  function CommentEnd(t: string, i: nat): (e: nat)
    requires CommentAt(t, i)
    ensures i < e <= |t|
  {
    if Block(t, i) then
      var k := BlockClose(t, i + 2);
      if k < |t| then k + 2 else |t|
    else
      var k := StrChr(t, '\n', if Hash(t, i) then i + 1 else i + 2);
      if k < |t| then k + 1 else |t|
  }

  predicate IsQuote(c: char) { c == '"' || c == '\'' || c == '`' }

  /** Index of the quote closing the string that `from` lies in, or |t|. */
  function QuoteClose(t: string, quote: char, from: nat): (k: nat)
    requires from <= |t|
    ensures from <= k <= |t|
    decreases |t| - from
  {
    if from == |t| || t[from] == quote then from
    else if t[from] == '\\' && quote != '`' then
      if from + 1 == |t| then |t| else QuoteClose(t, quote, from + 2)
    else QuoteClose(t, quote, from + 1)
  }

  /**
  Where scanning goes on after a quote at `i`: behind the closing quote.  Without one, the
  quote and the next character are passed and scanning goes on behind them.
  */
  function QuoteEnd(t: string, i: nat): (e: nat)
    requires i < |t|
    ensures i < e <= |t|
  {
    var k := QuoteClose(t, t[i], i + 1);
    if k < |t| then k + 1 else if i + 1 == |t| then |t| else i + 2
  }

  predicate PlainAt(t: string, i: nat) { i < |t| && !CommentAt(t, i) && !IsQuote(t[i]) }

  /** The end of the lexical element at `i`. */
  function ElementEnd(t: string, i: nat): (e: nat)
    requires i < |t|
    ensures i < e <= |t|
  {
    if CommentAt(t, i) then CommentEnd(t, i)
    else if IsQuote(t[i]) then QuoteEnd(t, i)
    else i + 1
  }

  // ---------------------------------------------------------------------------------
  // What the scanner has to find
  // ---------------------------------------------------------------------------------

  ghost predicate Increasing(s: seq<int>) { forall i, j :: 0 <= i < j < |s| ==> s[i] < s[j] }

  /** Offsets of the character `c` outside strings and comments, from element `i` on. */
  function PlainOffsets(t: string, c: char, i: nat): seq<int>
    decreases |t| - i
  {
    if i >= |t| then []
    else
      var rest := PlainOffsets(t, c, ElementEnd(t, i));
      if PlainAt(t, i) && t[i] == c then [i] + rest else rest
  }

  /** Does offset `k` lie in a comment, when scanning elements from `i` on? */
  predicate InComment(t: string, i: nat, k: nat)
    decreases |t| - i
  {
    i < |t| && if k < ElementEnd(t, i) then CommentAt(t, i) else InComment(t, ElementEnd(t, i), k)
  }

  /** Does offset `k` lie in a string? */
  predicate InString(t: string, i: nat, k: nat)
    decreases |t| - i
  {
    i < |t|
    && if k < ElementEnd(t, i) then !CommentAt(t, i) && IsQuote(t[i]) else InString(t, ElementEnd(t, i), k)
  }

  /** The end of the blanks and comments from `i` on. */
  function SkipEnd(t: string, i: nat): (e: nat)
    ensures i <= e && (i <= |t| ==> e <= |t|)
    ensures e < |t| ==> !IsSpace(t[e]) && !CommentAt(t, e)
    decreases |t| - i
  {
    if i < |t| && (CommentAt(t, i) || IsSpace(t[i])) then SkipEnd(t, ElementEnd(t, i)) else i
  }

  // ---------------------------------------------------------------------------------
  // None of this depends on what lies behind the scanner
  // ---------------------------------------------------------------------------------

  ghost predicate Agree(t: string, u: string, i: nat) {
    |t| == |u| && forall k :: i <= k < |t| ==> t[k] == u[k]
  }

  lemma {:induction false} StrChrAgrees(t: string, u: string, c: char, i: nat)
    requires Agree(t, u, i) && i <= |t|
    ensures StrChr(t, c, i) == StrChr(u, c, i)
    decreases |t| - i
  {
    if i < |t| {
      StrChrAgrees(t, u, c, i + 1);
    }
  }

  lemma {:induction false} BlockCloseAgrees(t: string, u: string, i: nat)
    requires Agree(t, u, i) && i <= |t|
    ensures BlockClose(t, i) == BlockClose(u, i)
    decreases |t| - i
  {
    if i < |t| {
      BlockCloseAgrees(t, u, i + 1);
    }
  }

  lemma {:induction false} QuoteCloseAgrees(t: string, u: string, quote: char, i: nat)
    requires Agree(t, u, i) && i <= |t|
    ensures QuoteClose(t, quote, i) == QuoteClose(u, quote, i)
    decreases |t| - i
  {
    if i < |t| {
      QuoteCloseAgrees(t, u, quote, i + 1);
      if i + 1 < |t| {
        QuoteCloseAgrees(t, u, quote, i + 2);
      }
    }
  }

  lemma ElementAgrees(t: string, u: string, i: nat)
    requires Agree(t, u, i) && i < |t|
    ensures CommentAt(t, i) == CommentAt(u, i) && PlainAt(t, i) == PlainAt(u, i)
    ensures ElementEnd(t, i) == ElementEnd(u, i)
  {
    if Block(t, i) {
      BlockCloseAgrees(t, u, i + 2);
    } else if CommentAt(t, i) {
      StrChrAgrees(t, u, '\n', if Hash(t, i) then i + 1 else i + 2);
    } else if IsQuote(t[i]) {
      QuoteCloseAgrees(t, u, t[i], i + 1);
    }
  }

  lemma {:induction false} OffsetsAgree(t: string, u: string, c: char, i: nat)
    requires Agree(t, u, i)
    ensures PlainOffsets(t, c, i) == PlainOffsets(u, c, i)
    decreases |t| - i
  {
    if i < |t| {
      ElementAgrees(t, u, i);
      OffsetsAgree(t, u, c, ElementEnd(t, i));
    }
  }

  lemma {:induction false} CommentsAgree(t: string, u: string, i: nat, k: nat)
    requires Agree(t, u, i)
    ensures InComment(t, i, k) == InComment(u, i, k)
    decreases |t| - i
  {
    if i < |t| {
      ElementAgrees(t, u, i);
      CommentsAgree(t, u, ElementEnd(t, i), k);
    }
  }

  lemma {:induction false} SkipAgrees(t: string, u: string, i: nat)
    requires Agree(t, u, i)
    ensures SkipEnd(t, i) == SkipEnd(u, i)
    decreases |t| - i
  {
    if i < |t| {
      ElementAgrees(t, u, i);
      SkipAgrees(t, u, ElementEnd(t, i));
    }
  }

  // ---------------------------------------------------------------------------------
  // Skipping blanks and comments finds nothing
  // ---------------------------------------------------------------------------------

  lemma SpaceElement(t: string, i: nat)
    requires i < |t| && IsSpace(t[i])
    ensures PlainAt(t, i) && ElementEnd(t, i) == i + 1
  {
  }

  lemma {:induction false} SkipKeepsOffsets(t: string, c: char, i: nat)
    requires !IsSpace(c)
    ensures PlainOffsets(t, c, i) == PlainOffsets(t, c, SkipEnd(t, i))
    decreases |t| - i
  {
    if i < |t| && (CommentAt(t, i) || IsSpace(t[i])) {
      SkipKeepsOffsets(t, c, ElementEnd(t, i));
    }
  }

  lemma {:induction false} SkipKeepsComments(t: string, i: nat, k: nat)
    requires SkipEnd(t, i) <= k
    ensures InComment(t, i, k) == InComment(t, SkipEnd(t, i), k)
    decreases |t| - i
  {
    if i < |t| && (CommentAt(t, i) || IsSpace(t[i])) {
      SkipKeepsComments(t, ElementEnd(t, i), k);
    }
  }

  // ---------------------------------------------------------------------------------
  // An independent definition: a character automaton
  // ---------------------------------------------------------------------------------

  datatype Lex =
    | Code | CodeDash | CodeSlash           // outside; the last character was - or /
    | InQuote(quote: char) | Escaped(quote: char)
    | InLine                                // in a comment up to the newline
    | InBlock | InBlockStar                 // in a block comment; the last character was *

  predicate IsCode(s: Lex) { s.Code? || s.CodeDash? || s.CodeSlash? }

  function Delta(s: Lex, c: char): Lex {
    match s
    case InQuote(q) => if c == q then Code else if c == '\\' && q != '`' then Escaped(q) else s
    case Escaped(q) => InQuote(q)
    case InLine => if c == '\n' then Code else InLine
    case InBlock => if c == '*' then InBlockStar else InBlock
    case InBlockStar => if c == '/' then Code else if c == '*' then InBlockStar else InBlock
    case _ =>
      if s.CodeDash? && c == '-' then InLine
      else if s.CodeSlash? && c == '*' then InBlock
      else if c == '#' then InLine
      else if IsQuote(c) then InQuote(c)
      else if c == '-' then CodeDash
      else if c == '/' then CodeSlash
      else Code
  }

  /** Offsets of `c` where the automaton, in state `s` at `i`, is outside strings and comments. */
  function LexOffsets(t: string, c: char, i: nat, s: Lex): seq<int>
    decreases |t| - i
  {
    if i >= |t| then []
    else
      var rest := LexOffsets(t, c, i + 1, Delta(s, t[i]));
      if IsCode(s) && t[i] == c then [i] + rest else rest
  }

  function FinalState(t: string, i: nat, s: Lex): Lex
    decreases |t| - i
  {
    if i >= |t| then s else FinalState(t, i + 1, Delta(s, t[i]))
  }

  /** Every string that is opened is closed. */
  predicate QuotesClosed(t: string) {
    var s := FinalState(t, 0, Code);
    !s.InQuote? && !s.Escaped?
  }

  /** The quote that is never closed, or the end of the text. */
  function UnclosedAt(t: string, i: nat): (q: nat)
    ensures i <= |t| ==> q <= |t|
    decreases |t| - i
  {
    if i >= |t| then i
    else if !CommentAt(t, i) && IsQuote(t[i]) && QuoteClose(t, t[i], i + 1) == |t| then i
    else UnclosedAt(t, ElementEnd(t, i))
  }

  /** No comment opener is cut in two at `i`. */
  ghost predicate Fresh(t: string, i: nat, s: Lex) {
    || s.Code?
    || (s.CodeDash? && !(i < |t| && t[i] == '-'))
    || (s.CodeSlash? && !(i < |t| && t[i] == '*'))
  }

  /** Two runs of the automaton find and end the same. */
  ghost predicate SameRun(t: string, c: char, i: nat, s: Lex, j: nat, s': Lex) {
    && LexOffsets(t, c, i, s) == LexOffsets(t, c, j, s')
    && FinalState(t, i, s) == FinalState(t, j, s')
  }

  lemma {:induction false} RunLine(t: string, c: char, i: nat)
    requires i <= |t|
    ensures var k := StrChr(t, '\n', i);
            if k < |t| then SameRun(t, c, i, InLine, k + 1, Code) else SameRun(t, c, i, InLine, |t|, InLine)
    decreases |t| - i
  {
    if i < |t| && t[i] != '\n' {
      RunLine(t, c, i + 1);
    }
  }

  lemma {:induction false} RunBlock(t: string, c: char, i: nat, s: Lex)
    requires i <= |t| && (s == InBlock || (s == InBlockStar && !(i < |t| && t[i] == '/')))
    ensures var k := BlockClose(t, i);
            if k < |t| then SameRun(t, c, i, s, k + 2, Code)
            else LexOffsets(t, c, i, s) == [] && !IsCode(FinalState(t, i, s))
                 && !FinalState(t, i, s).InQuote? && !FinalState(t, i, s).Escaped?
    decreases |t| - i
  {
    if i < |t| {
      var s1 := Delta(s, t[i]);
      if i + 1 < |t| && t[i] == '*' && t[i + 1] == '/' {
        assert s1 == InBlockStar && Delta(s1, t[i + 1]) == Code;
        assert SameRun(t, c, i, s, i + 1, s1) && SameRun(t, c, i + 1, s1, i + 2, Code);
      } else {
        RunBlock(t, c, i + 1, s1);
      }
    }
  }

  lemma {:induction false} RunQuote(t: string, c: char, q: char, i: nat)
    requires i <= |t| && c != q
    ensures var k := QuoteClose(t, q, i);
            if k < |t| then SameRun(t, c, i, InQuote(q), k + 1, Code)
            else
              && LexOffsets(t, c, i, InQuote(q)) == []
              && (FinalState(t, i, InQuote(q)).InQuote? || FinalState(t, i, InQuote(q)).Escaped?)
    decreases |t| - i
  {
    if i < |t| && t[i] != q {
      if t[i] == '\\' && q != '`' {
        assert Delta(InQuote(q), t[i]) == Escaped(q);
        if i + 1 < |t| {
          RunQuote(t, c, q, i + 2);
        }
      } else {
        RunQuote(t, c, q, i + 1);
      }
    }
  }

  /** A character with no meaning to the scanner, such as ? or ; */
  predicate Ordinary(c: char) {
    !IsQuote(c) && !IsSpace(c) && c != '#' && c != '-' && c != '/' && c != '*' && c != '\\'
  }

  lemma BlockRun(t: string, c: char, i: nat, s: Lex)
    requires Ordinary(c) && Fresh(t, i, s) && Block(t, i)
    ensures SameRun(t, c, i, s, i + 2, InBlock)
  {
    assert Delta(s, '/') == CodeSlash && Delta(CodeSlash, '*') == InBlock;
    assert SameRun(t, c, i, s, i + 1, CodeSlash) && SameRun(t, c, i + 1, CodeSlash, i + 2, InBlock);
  }

  lemma LineRun(t: string, c: char, i: nat, s: Lex)
    requires Ordinary(c) && Fresh(t, i, s) && (Hash(t, i) || Dashes(t, i))
    ensures SameRun(t, c, i, s, if Hash(t, i) then i + 1 else i + 2, InLine)
  {
    if Hash(t, i) {
      assert Delta(s, '#') == InLine;
    } else {
      assert Delta(s, '-') == CodeDash && Delta(CodeDash, '-') == InLine;
      assert SameRun(t, c, i, s, i + 1, CodeDash) && SameRun(t, c, i + 1, CodeDash, i + 2, InLine);
    }
  }

  lemma CommentRun(t: string, c: char, i: nat, s: Lex)
    requires Ordinary(c) && Fresh(t, i, s) && CommentAt(t, i)
    ensures if CommentEnd(t, i) < |t| then SameRun(t, c, i, s, CommentEnd(t, i), Code)
            else
              && LexOffsets(t, c, i, s) == []
              && !FinalState(t, i, s).InQuote? && !FinalState(t, i, s).Escaped?
  {
    if Block(t, i) {
      BlockRun(t, c, i, s);
      RunBlock(t, c, i + 2, InBlock);
    } else {
      LineRun(t, c, i, s);
      RunLine(t, c, if Hash(t, i) then i + 1 else i + 2);
    }
  }

  ghost predicate EndsInQuote(s: Lex) { s.InQuote? || s.Escaped? }

  /**
  The scanner finds what the automaton finds, and then, behind a quote that is never
  closed and the character after it, whatever the elements from there on hold.
  */
  ghost predicate FindsTheSame(t: string, c: char, i: nat, s: Lex) {
    && PlainOffsets(t, c, i) == LexOffsets(t, c, i, s) + PlainOffsets(t, c, UnclosedAt(t, i) + 2)
    && (UnclosedAt(t, i) >= |t| <==> !EndsInQuote(FinalState(t, i, s)))
  }

  lemma SameAfterComment(t: string, c: char, i: nat, s: Lex)
    requires Ordinary(c) && Fresh(t, i, s) && CommentAt(t, i)
    requires FindsTheSame(t, c, CommentEnd(t, i), Code)
    ensures FindsTheSame(t, c, i, s)
  {
    CommentRun(t, c, i, s);
  }

  lemma QuoteRun(t: string, c: char, i: nat, s: Lex)
    requires Ordinary(c) && Fresh(t, i, s) && i < |t| && IsQuote(t[i]) && QuoteClose(t, t[i], i + 1) < |t|
    ensures SameRun(t, c, i, s, QuoteEnd(t, i), Code)
  {
    assert Delta(s, t[i]) == InQuote(t[i]);
    RunQuote(t, c, t[i], i + 1);
  }

  lemma SameAfterQuote(t: string, c: char, i: nat, s: Lex)
    requires Ordinary(c) && Fresh(t, i, s) && i < |t| && !CommentAt(t, i) && IsQuote(t[i])
    requires QuoteClose(t, t[i], i + 1) < |t| && FindsTheSame(t, c, QuoteEnd(t, i), Code)
    ensures FindsTheSame(t, c, i, s)
  {
    hide LexOffsets, FinalState, Delta, QuoteClose, CommentAt;
    QuoteRun(t, c, i, s);
    assert PlainOffsets(t, c, i) == PlainOffsets(t, c, QuoteEnd(t, i));
    assert UnclosedAt(t, i) == UnclosedAt(t, QuoteEnd(t, i));
  }

  lemma NothingInUnclosedQuote(t: string, c: char, i: nat, s: Lex)
    requires Ordinary(c) && Fresh(t, i, s) && i < |t| && !CommentAt(t, i) && IsQuote(t[i])
    requires QuoteClose(t, t[i], i + 1) == |t|
    ensures FindsTheSame(t, c, i, s)
  {
    assert Delta(s, t[i]) == InQuote(t[i]);
    hide QuoteClose, CommentAt;
    RunQuote(t, c, t[i], i + 1);
    assert UnclosedAt(t, i) == i && LexOffsets(t, c, i, s) == [];
    assert PlainOffsets(t, c, i) == PlainOffsets(t, c, i + 2);
  }

  lemma SameAfterPlain(t: string, c: char, i: nat, s: Lex)
    requires Ordinary(c) && Fresh(t, i, s) && PlainAt(t, i)
    requires FindsTheSame(t, c, i + 1, Delta(s, t[i]))
    ensures FindsTheSame(t, c, i, s)
  {
  }

  /** For every text. */
  lemma {:induction false} ScannerAndAutomaton(t: string, c: char, i: nat, s: Lex)
    requires Ordinary(c) && i <= |t| && Fresh(t, i, s)
    ensures FindsTheSame(t, c, i, s)
    decreases |t| - i
  {
    if i < |t| {
      if CommentAt(t, i) {
        ScannerAndAutomaton(t, c, CommentEnd(t, i), Code);
        SameAfterComment(t, c, i, s);
      } else if IsQuote(t[i]) {
        if QuoteClose(t, t[i], i + 1) < |t| {
          ScannerAndAutomaton(t, c, QuoteEnd(t, i), Code);
          SameAfterQuote(t, c, i, s);
        } else {
          NothingInUnclosedQuote(t, c, i, s);
        }
      } else {
        ScannerAndAutomaton(t, c, i + 1, Delta(s, t[i]));
        SameAfterPlain(t, c, i, s);
      }
    } else {
      assert !EndsInQuote(s);
    }
  }

  /** With closed quotes, the plain offsets are exactly those of the automaton. */
  lemma ClosedQuotesAgree(t: string, c: char)
    requires Ordinary(c) && QuotesClosed(t)
    ensures PlainOffsets(t, c, 0) == LexOffsets(t, c, 0, Code)
  {
    ScannerAndAutomaton(t, c, 0, Code);
    assert LexOffsets(t, c, 0, Code) + [] == LexOffsets(t, c, 0, Code);
  }

  /** An unclosed quote does not hide a marker behind it: the text '?? has one. */
  lemma UnclosedQuoteLeaks()
    ensures !QuotesClosed("'??") && PlainOffsets("'??", '?', 0) == [2] && LexOffsets("'??", '?', 0, Code) == []
  {
    var t := "'??";
    assert QuoteClose(t, '\'', 1) == 3;
    assert ElementEnd(t, 0) == 2;
    assert PlainOffsets(t, '?', 3) == [];
    assert LexOffsets(t, '?', 3, InQuote('\'')) == [];
    assert LexOffsets(t, '?', 1, InQuote('\'')) == [];
    assert FinalState(t, 3, InQuote('\'')) == InQuote('\'');
    assert FinalState(t, 1, InQuote('\'')) == InQuote('\'');
  }

  // ---------------------------------------------------------------------------------
  // Query types
  // ---------------------------------------------------------------------------------

  datatype QueryType =
    | NoResult | Insert | Update | Delete | CreateProc | CreateFunc | CreateDefiner | Set | SetNames
    | SelectInto | Select | Show | Echo | CallProc | Analyze | Explain | Check | Execute | Optimize
    | Describe | NotAtomicBlock | AnonymousBlock

  const NUL: char := '\0'
  const CALL := "CALL"
  const ECHO := "ECHO"

  predicate IsLetter(c: char) { 'a' <= c <= 'z' || 'A' <= c <= 'Z' }

  /** _strnicmp(t + i, word, strlen(word)) == 0 */
  predicate WordAt(t: string, i: nat, word: string) {
    i + |word| <= |t| && forall k :: 0 <= k < |word| ==> Upper(t[i + k]) == word[k]
  }

  function FirstLetter(t: string, i: nat): nat
    decreases |t| - i
  {
    if i >= |t| || t[i] == NUL || IsLetter(t[i]) then i else FirstLetter(t, i + 1)
  }

  /** MADB_GetQueryType on the tokens at `first` and `second`. */
  function QueryTypeAt(t: string, first: nat, second: nat): QueryType {
    var i := FirstLetter(t, first);
    if WordAt(t, i, "DO") then AnonymousBlock
    else if WordAt(t, i, "SELECT") || WordAt(t, i, "WITH") then Select
    else if WordAt(t, i, "INSERT") || WordAt(t, i, "REPLACE") then Insert
    else if WordAt(t, i, "UPDATE") then Update
    else if WordAt(t, i, "DELETE") then Delete
    else if WordAt(t, i, "CALL") then CallProc
    else if WordAt(t, i, "ECHO") then Echo
    else if WordAt(t, i, "SHOW") then Show
    else if WordAt(t, i, "ANALYZE") then Analyze
    else if WordAt(t, i, "EXPLAIN") then Explain
    else if WordAt(t, i, "CHECK") then Check
    else if WordAt(t, i, "EXECUTE") then Execute
    else if WordAt(t, i, "OPTIMIZ") then Optimize     // seven characters are compared
    else if WordAt(t, i, "CREATE") && WordAt(t, second, "PROCEDURE") then CreateProc
    else if WordAt(t, i, "CREATE") && WordAt(t, second, "FUNCTION") then CreateFunc
    else if WordAt(t, i, "CREATE") && WordAt(t, second, "DEFINER") then CreateDefiner
    else if WordAt(t, i, "SET") then (if WordAt(t, second, "NAMES") then SetNames else Set)
    else if WordAt(t, i, "DESC") then Describe
    else if WordAt(t, i, "BEGIN") && WordAt(t, second, "NOT") then NotAtomicBlock
    else NoResult
  }

  /** !QUERY_DOESNT_RETURN_RESULT: the types from SELECT on. */
  predicate ReturnsRows(q: QueryType) {
    && q != NoResult && q != Insert && q != Update && q != Delete && q != CreateProc && q != CreateFunc
    && q != CreateDefiner && q != Set && q != SetNames && q != SelectInto
  }

  /** QueryIsPossiblyMultistmt */
  predicate PossiblyMulti(q: QueryType) {
    q != CreateProc && q != CreateFunc && q != CreateDefiner && q != NotAtomicBlock && q != AnonymousBlock
  }

  // ---------------------------------------------------------------------------------
  // Tokens and statements
  // ---------------------------------------------------------------------------------

  /** Characters that may end a token and start the next. */
  predicate BreaksToken(c: char) { c in "?\"'` \t\r\n-#/;" }

  /**
  The tokens from `i` on, `reading` telling whether `i` lies inside one: a token starts
  behind blanks and comments and goes up to a character that breaks it.  A string at its
  start belongs to it; a marker and a semicolon are tokens of their own.
  */
  function TokenOffsets(t: string, i: nat, reading: bool): seq<int>
    decreases |t| - i, if reading then 2 else 1
  {
    if i >= |t| then []
    else if !reading then [SkipEnd(t, i)] + AfterToken(t, SkipEnd(t, i))
    else if BreaksToken(t[i]) then TokenOffsets(t, i, false)
    else TokenOffsets(t, i + 1, true)
  }

  /** The tokens behind the one that starts at `q`. */
  function AfterToken(t: string, q: nat): seq<int>
    requires q <= |t|
    decreases |t| - q, 0
  {
    if q == |t| then []
    else if IsQuote(t[q]) then
      var k := QuoteClose(t, t[q], q + 1);
      if k < |t| then TokenOffsets(t, k + 1, true) else TokenOffsets(t, q + 2, false)
    else TokenOffsets(t, q + 1, t[q] != '?' && t[q] != ';')
  }

  lemma {:induction false} TokensAgree(t: string, u: string, i: nat, reading: bool)
    requires Agree(t, u, i)
    ensures TokenOffsets(t, i, reading) == TokenOffsets(u, i, reading)
    decreases |t| - i, if reading then 2 else 1
  {
    if i < |t| {
      if !reading {
        SkipAgrees(t, u, i);
        AfterAgrees(t, u, SkipEnd(t, i));
      } else if BreaksToken(t[i]) {
        TokensAgree(t, u, i, false);
      } else {
        TokensAgree(t, u, i + 1, true);
      }
    }
  }

  lemma {:induction false} AfterAgrees(t: string, u: string, q: nat)
    requires Agree(t, u, q) && q <= |t|
    ensures AfterToken(t, q) == AfterToken(u, q)
    decreases |t| - q, 0
  {
    hide SkipEnd;
    if q < |t| {
      if IsQuote(t[q]) {
        QuoteCloseAgrees(t, u, t[q], q + 1);
        var k := QuoteClose(t, t[q], q + 1);
        if k < |t| {
          TokensAgree(t, u, k + 1, true);
        } else {
          TokensAgree(t, u, q + 2, false);
        }
      } else {
        TokensAgree(t, u, q + 1, t[q] != '?' && t[q] != ';');
      }
    }
  }

  /** Letters do not break a token. */
  lemma {:induction false} TokenLetters(t: string, i: nat, n: nat)
    requires i + n <= |t| && forall k :: i <= k < i + n ==> IsLetter(t[k])
    ensures TokenOffsets(t, i, true) == TokenOffsets(t, i + n, true)
    decreases n
  {
    if n > 0 {
      TokenLetters(t, i + 1, n - 1);
    }
  }

  /** The m-th token is the first of its statement; `ends` are the tokens that end one. */
  predicate Leads(tokens: seq<int>, ends: seq<int>, m: int) {
    0 <= m < |tokens| && (m == 0 || tokens[m - 1] in ends)
  }

  /** The m-th token begins a statement, with CALL. */
  predicate LeadingCall(t: string, tokens: seq<int>, ends: seq<int>, m: int) {
    Leads(tokens, ends, m) && tokens[m] >= 0 && WordAt(t, tokens[m], CALL)
  }

  /** Offsets of the statements that begin with CALL. */
  function Calls(t: string, tokens: seq<int>, ends: seq<int>): seq<int> {
    if tokens == [] then []
    else
      var k := |tokens| - 1;
      Calls(t, tokens[..k], ends) + if LeadingCall(t, tokens, ends, k) then [tokens[k]] else []
  }

  /** Number of tokens behind offset `lo` and up to offset `hi`. */
  function TokensIn(tokens: seq<int>, lo: int, hi: int): nat {
    if tokens == [] then 0
    else
      var k := |tokens| - 1;
      TokensIn(tokens[..k], lo, hi) + if lo < tokens[k] <= hi then 1 else 0
  }

  /** The end of the statement before the i-th. */
  function EndBefore(ends: seq<int>, i: nat): int
    requires i <= |ends|
  {
    if i == 0 then -1 else ends[i - 1]
  }

  /** How many tokens each statement has; the semicolon that ends it is one of them. */
  function StatementSizes(tokens: seq<int>, ends: seq<int>, n: nat): (r: seq<int>)
    ensures |r| == |ends| + 1
  {
    seq(|ends| + 1, i requires 0 <= i <= |ends| =>
      TokensIn(tokens, EndBefore(ends, i), if i < |ends| then ends[i] else n))
  }

  lemma {:induction false} CallsMore(t: string, tokens: seq<int>, ends: seq<int>, q: int)
    ensures Calls(t, tokens + [q], ends)
            == Calls(t, tokens, ends)
               + if (tokens == [] || tokens[|tokens| - 1] in ends) && q >= 0 && WordAt(t, q, CALL) then [q] else []
  {
    assert (tokens + [q])[..|tokens|] == tokens;
  }

  /** A new end behind all tokens but the last leads nothing yet. */
  lemma {:induction false} CallsKept(t: string, tokens: seq<int>, ends: seq<int>, q: int)
    requires forall m :: 0 <= m < |tokens| - 1 ==> tokens[m] != q
    ensures Calls(t, tokens, ends + [q]) == Calls(t, tokens, ends)
  {
    if tokens != [] {
      var k := |tokens| - 1;
      CallsKept(t, tokens[..k], ends, q);
      assert k > 0 ==> tokens[k - 1] != q;
    }
  }

  lemma TokensInMore(tokens: seq<int>, q: int, lo: int, hi: int)
    ensures TokensIn(tokens + [q], lo, hi) == TokensIn(tokens, lo, hi) + if lo < q <= hi then 1 else 0
  {
    assert (tokens + [q])[..|tokens|] == tokens;
  }

  lemma {:induction false} TokensInUpTo(tokens: seq<int>, lo: int, hi: int, hi': int)
    requires forall x :: x in tokens ==> x <= hi <= hi'
    ensures TokensIn(tokens, lo, hi) == TokensIn(tokens, lo, hi')
    ensures TokensIn(tokens, hi, hi') == 0
  {
    if tokens != [] {
      var k := |tokens| - 1;
      assert tokens[k] in tokens && forall x :: x in tokens[..k] ==> x in tokens;
      TokensInUpTo(tokens[..k], lo, hi, hi');
    }
  }

  /** What has been counted when `count` tokens of the current statement are saved. */
  ghost predicate Tallied(tokens: seq<int>, ends: seq<int>, n: nat, statements: seq<int>, count: nat) {
    && statements + [count] == StatementSizes(tokens, ends, n)
    && (forall x :: x in ends ==> x in tokens)
    && (count == 0 <==> tokens == [] || tokens[|tokens| - 1] in ends)
  }

  ghost function AtLeastTwo(s: seq<int>): int {
    if s == [] then 0 else AtLeastTwo(s[..|s| - 1]) + (if s[|s| - 1] >= 2 then 1 else 0)
  }

  lemma {:induction false} CountsAreNatural(s: seq<int>)
    ensures 0 <= AtLeastTwo(s) <= |s|
  {
    if s != [] {
      CountsAreNatural(s[..|s| - 1]);
    }
  }

  /** How many tokens and sub-queries there are, and what the type of the query says about them. */
  ghost predicate Totals(statements: seq<int>, tokens: nat, subQueries: nat, queryType: QueryType, count: nat,
                         kind: QueryType)
  {
    && 0 <= Sum(statements) == tokens - count
    && subQueries == AtLeastTwo(statements) + (if count >= 2 then 1 else 0)
    && (subQueries == 0 ==> queryType == NoResult)
    && (subQueries == 1 && count >= 2 ==> queryType == kind)
    && (!PossiblyMulti(queryType) ==> AtLeastTwo(statements) == 0 && count >= 2)
  }

  lemma TotalsFacts(statements: seq<int>, tokens: nat, subQueries: nat, queryType: QueryType, count: nat,
                    kind: QueryType)
    requires Totals(statements, tokens, subQueries, queryType, count, kind)
    ensures subQueries == 0 ==> PossiblyMulti(queryType)
  {
    hide Sum, AtLeastTwo;
  }

  lemma TotalsMore(statements: seq<int>, tokens: nat, subQueries: nat, queryType: QueryType, count: nat,
                   kind: QueryType, subQueries': nat, queryType': QueryType, kind': QueryType)
    requires Totals(statements, tokens, subQueries, queryType, count, kind)
    requires subQueries' == subQueries + if count == 1 then 1 else 0
    requires count != 1 ==> kind' == kind || (count >= 2 && kind' == SelectInto)
    requires queryType' == if subQueries' == 1 && (count == 1 || kind' != kind) then kind' else queryType
    ensures Totals(statements, tokens + 1, subQueries', queryType', count + 1, kind')
  {
    hide Sum, AtLeastTwo;
    CountsAreNatural(statements);
  }

  lemma TalliedStart(n: nat)
    ensures Tallied([], [], n, [], 0)
  {
    assert StatementSizes([], [], n) == [0];
  }

  lemma TalliedToken(tokens: seq<int>, ends: seq<int>, n: nat, statements: seq<int>, count: nat, q: int)
    requires Tallied(tokens, ends, n, statements, count) && (forall x :: x in tokens ==> x < q <= n) && 0 <= q <= n
    ensures Tallied(tokens + [q], ends, n, statements, count + 1) && q !in ends
  {
    var more := tokens + [q];
    var was, now := StatementSizes(tokens, ends, n), StatementSizes(more, ends, n);
    forall i | 0 <= i <= |ends|
      ensures now[i] == was[i] + if i == |ends| then 1 else 0
    {
      assert i > 0 ==> ends[i - 1] in ends;
      assert i < |ends| ==> ends[i] in ends;
      TokensInMore(tokens, q, EndBefore(ends, i), if i < |ends| then ends[i] else n);
    }
    assert statements == was[..|ends|] == now[..|ends|];
    assert now == statements + [count + 1];
    assert forall x :: x in more <==> x in tokens || x == q;
    assert q !in ends;
  }

  lemma TalliedEnd(tokens: seq<int>, ends: seq<int>, n: nat, statements: seq<int>, count: nat, q: int)
    requires Tallied(tokens, ends, n, statements, count) && 0 <= q <= n
    requires tokens != [] && tokens[|tokens| - 1] == q && forall x :: x in tokens ==> x <= q
    ensures Tallied(tokens, ends + [q], n, statements + [count], 0)
  {
    var more := ends + [q];
    var was, now := StatementSizes(tokens, ends, n), StatementSizes(tokens, more, n);
    TokensInUpTo(tokens, EndBefore(ends, |ends|), q, n);
    forall i | 0 <= i < |ends|
      ensures now[i] == was[i]
    {
      assert EndBefore(more, i) == EndBefore(ends, i) && more[i] == ends[i];
    }
    assert EndBefore(more, |ends|) == EndBefore(ends, |ends|) && more[|ends|] == q;
    assert was == statements + [count];
    assert now == was + [0];
    assert forall x :: x in more <==> x in ends || x == q;
  }

  // ---------------------------------------------------------------------------------
  // The types of the statements
  // ---------------------------------------------------------------------------------

  /** One statement of the batch: where its first token stands, and its type. */
  datatype SubQuery = SubQuery(offset: nat, kind: QueryType)

  /** The m-th token begins a statement that has a second token. */
  predicate IsHead(tokens: seq<int>, ends: seq<int>, m: int) {
    Leads(tokens, ends, m) && m + 1 < |tokens| && tokens[m] !in ends
  }

  /** The buffer when the scanner stands at `q`: overwritten in front of it, and the text from there on. */
  function BufferAt(t0: string, text: string, q: int): string {
    if 0 <= q <= |text| && q <= |t0| then text[..q] + t0[q..] else text
  }

  /** The j-th token is INTO, behind the second token of the statement that begins with the m-th. */
  predicate IntoAt(t0: string, tokens: seq<int>, ends: seq<int>, m: int, j: int) {
    && 0 <= m && m + 2 <= j < |tokens| && (forall x :: m <= x < j ==> tokens[x] !in ends)
    && tokens[j - 1] + 4 < |t0| && 0 <= tokens[j] && WordAt(t0, tokens[j], "INTO")
  }

  predicate HeadInRange(tokens: seq<int>, m: int) {
    0 <= m && m + 1 < |tokens| && 0 <= tokens[m] && 0 <= tokens[m + 1]
  }

  /** The type its first two tokens give a statement; a SELECT with INTO is one of its own. */
  ghost function KindOf(t0: string, text: string, tokens: seq<int>, ends: seq<int>, m: int): QueryType
    requires HeadInRange(tokens, m)
  {
    var kind := QueryTypeAt(BufferAt(t0, text, tokens[m + 1]), tokens[m], tokens[m + 1]);
    if kind == Select && exists j :: IntoAt(t0, tokens, ends, m, j) then SelectInto else kind
  }

  ghost predicate Naturals(s: seq<int>) { forall i :: 0 <= i < |s| ==> 0 <= s[i] }

  /** A SELECT counts as returning rows from its second token on; INTO does not take that back. */
  predicate Yields(q: QueryType) { ReturnsRows(q) || q == SelectInto }

  /** The type of the query is that of its first statement, and it returns a result if any statement yields one. */
  ghost predicate TypeIs(queryType: QueryType, returnsResult: bool, subQueries: seq<SubQuery>) {
    && (subQueries != [] ==> queryType == subQueries[0].kind)
    && (returnsResult <==> exists s :: 0 <= s < |subQueries| && Yields(subQueries[s].kind))
  }

  lemma TypeAdded(queryType: QueryType, returnsResult: bool, subQueries: seq<SubQuery>, sub: SubQuery)
    requires TypeIs(queryType, returnsResult, subQueries) && sub.kind != SelectInto
    ensures TypeIs(if subQueries == [] then sub.kind else queryType, returnsResult || ReturnsRows(sub.kind),
                   subQueries + [sub])
  {
    var more := subQueries + [sub];
    assert forall s :: 0 <= s < |subQueries| ==> more[s] == subQueries[s];
    assert more[|subQueries|] == sub;
  }

  lemma TypeInto(queryType: QueryType, returnsResult: bool, subQueries: seq<SubQuery>)
    requires TypeIs(queryType, returnsResult, subQueries) && subQueries != []
    requires subQueries[|subQueries| - 1].kind == Select
    ensures var last := |subQueries| - 1;
            TypeIs(if last == 0 then SelectInto else queryType, returnsResult,
                   subQueries[last := subQueries[last].(kind := SelectInto)])
  {
    var last := |subQueries| - 1;
    var into := subQueries[last := subQueries[last].(kind := SelectInto)];
    assert Yields(subQueries[last].kind) && Yields(into[last].kind);
    assert forall s :: 0 <= s < last ==> into[s] == subQueries[s];
  }

  lemma NeverInto(t: string, first: nat, second: nat)
    ensures QueryTypeAt(t, first, second) != SelectInto
  {
    hide WordAt;
  }

  /** `heads` are the statements with two tokens or more, and `subQueries` says where each begins and its type. */
  ghost predicate HeadsOk(t0: string, text: string, tokens: seq<int>, ends: seq<int>, subQueries: seq<SubQuery>,
                          heads: seq<int>)
  {
    && Naturals(tokens) && |subQueries| == |heads| && Increasing(heads)
    && (forall m :: IsHead(tokens, ends, m) ==> m in heads)
    && (forall s :: 0 <= s < |heads| ==>
          && IsHead(tokens, ends, heads[s]) && subQueries[s].offset == tokens[heads[s]]
          && subQueries[s].kind == KindOf(t0, text, tokens, ends, heads[s]))
  }

  /** The last `count` tokens are those of the current statement. */
  ghost predicate Current(tokens: seq<int>, ends: seq<int>, count: nat) {
    && count <= |tokens| && (count < |tokens| ==> tokens[|tokens| - count - 1] in ends)
    && forall x :: |tokens| - count <= x < |tokens| ==> tokens[x] !in ends
  }

  /** The sub-queries when `count` tokens of the current statement, of type `kind` and from `cur` on, are saved. */
  ghost predicate Typed(t0: string, text: string, tokens: seq<int>, ends: seq<int>, subQueries: seq<SubQuery>,
                        heads: seq<int>, count: nat, cur: int, kind: QueryType)
  {
    && HeadsOk(t0, text, tokens, ends, subQueries, heads) && Current(tokens, ends, count)
    && (count >= 1 ==> cur == tokens[|tokens| - count])
    && (count >= 2 ==>
          heads != [] && heads[|heads| - 1] == |tokens| - count && kind == subQueries[|subQueries| - 1].kind)
  }

  /** A head other than that of the current statement has an end behind it. */
  lemma HeadBefore(tokens: seq<int>, ends: seq<int>, count: nat, m: int)
    requires Current(tokens, ends, count) && Leads(tokens, ends, m) && m != |tokens| - count
    ensures m < |tokens| - count && tokens[|tokens| - count - 1] in ends
  {
  }

  /** One more token: INTO is new only for the current statement. */
  lemma IntoMore(t0: string, tokens: seq<int>, ends: seq<int>, count: nat, q: int, m: int)
    requires Current(tokens, ends, count) && IsHead(tokens, ends, m)
    ensures (exists j :: IntoAt(t0, tokens + [q], ends, m, j)) <==>
              || (exists j :: IntoAt(t0, tokens, ends, m, j))
              || (m == |tokens| - count && IntoAt(t0, tokens + [q], ends, m, |tokens|))
  {
    hide WordAt;
    var more := tokens + [q];
    forall j | j < |tokens|
      ensures IntoAt(t0, more, ends, m, j) <==> IntoAt(t0, tokens, ends, m, j)
    {
      assert forall x :: 0 <= x < |tokens| ==> more[x] == tokens[x];
    }
    if m != |tokens| - count {
      HeadBefore(tokens, ends, count, m);
      assert more[|tokens| - count - 1] in ends;
    }
  }

  lemma KindMore(t0: string, text: string, tokens: seq<int>, ends: seq<int>, count: nat, q: nat, m: int)
    requires Current(tokens, ends, count) && IsHead(tokens, ends, m) && Naturals(tokens)
    ensures KindOf(t0, text, tokens + [q], ends, m)
            == if m == |tokens| - count && KindOf(t0, text, tokens, ends, m) == Select
                  && IntoAt(t0, tokens + [q], ends, m, |tokens|)
               then SelectInto else KindOf(t0, text, tokens, ends, m)
  {
    hide WordAt, QueryTypeAt, IntoAt, Current;
    IntoMore(t0, tokens, ends, count, q, m);
    assert (tokens + [q])[m] == tokens[m] && (tokens + [q])[m + 1] == tokens[m + 1];
  }

  lemma HeadMore(tokens: seq<int>, ends: seq<int>, count: nat, q: int, m: int)
    requires Current(tokens, ends, count)
    ensures IsHead(tokens + [q], ends, m) <==> IsHead(tokens, ends, m) || (count == 1 && m == |tokens| - 1)
  {
    if m == |tokens| - 1 >= 0 && count != 1 {
      assert count >= 2 ==> tokens[m - 1] !in ends;
    }
  }

  lemma CurrentMore(tokens: seq<int>, ends: seq<int>, count: nat, q: int)
    requires Current(tokens, ends, count) && q !in ends
    ensures Current(tokens + [q], ends, count + 1)
  {
  }

  /** The heads there were stay, with their types but for the current one. */
  lemma HeadsMore(t0: string, text: string, tokens: seq<int>, ends: seq<int>, subQueries: seq<SubQuery>,
                  heads: seq<int>, count: nat, q: nat, s: int)
    requires HeadsOk(t0, text, tokens, ends, subQueries, heads) && Current(tokens, ends, count) && 0 <= s < |heads|
    ensures Naturals(tokens + [q]) && IsHead(tokens + [q], ends, heads[s])
    ensures subQueries[s].offset == (tokens + [q])[heads[s]]
    ensures heads[s] != |tokens| - count ==>
              subQueries[s].kind == KindOf(t0, text, tokens + [q], ends, heads[s])
  {
    hide KindOf, Current;
    HeadMore(tokens, ends, count, q, heads[s]);
    KindMore(t0, text, tokens, ends, count, q, heads[s]);
  }

  lemma HeadInside(tokens: seq<int>, ends: seq<int>, m: int)
    requires IsHead(tokens, ends, m)
    ensures 0 <= m < |tokens| - 1
  {
  }

  lemma CurrentBegins(tokens: seq<int>, ends: seq<int>, count: nat)
    requires Current(tokens, ends, count)
    ensures count <= |tokens|
  {
  }

  lemma TypedFirst(t0: string, text: string, tokens: seq<int>, ends: seq<int>, subQueries: seq<SubQuery>,
                   heads: seq<int>, cur: int, kind: QueryType, q: nat)
    requires Typed(t0, text, tokens, ends, subQueries, heads, 0, cur, kind) && q !in ends
    ensures Typed(t0, text, tokens + [q], ends, subQueries, heads, 1, q, kind)
  {
    hide KindOf, Current, IsHead;
    var more := tokens + [q];
    CurrentMore(tokens, ends, 0, q);
    CurrentBegins(tokens, ends, 0);
    assert Naturals(more);
    forall m | IsHead(more, ends, m)
      ensures m in heads
    {
      HeadMore(tokens, ends, 0, q, m);
    }
    forall s | 0 <= s < |heads|
      ensures HeadInRange(more, heads[s]) && IsHead(more, ends, heads[s])
      ensures subQueries[s].offset == more[heads[s]] && subQueries[s].kind == KindOf(t0, text, more, ends, heads[s])
    {
      HeadInside(tokens, ends, heads[s]);
      HeadsMore(t0, text, tokens, ends, subQueries, heads, 0, q, s);
    }
  }

  /** With two tokens there is no INTO yet, and the buffer is as it was read. */
  lemma NewKind(t0: string, text: string, tokens: seq<int>, ends: seq<int>, m: int)
    requires HeadInRange(tokens, m) && m + 2 == |tokens| && |text| == |t0| && tokens[m + 1] <= |t0|
    requires forall k :: tokens[m + 1] <= k < |t0| ==> text[k] == t0[k]
    ensures KindOf(t0, text, tokens, ends, m) == QueryTypeAt(text, tokens[m], tokens[m + 1])
  {
    hide QueryTypeAt, WordAt;
    assert BufferAt(t0, text, tokens[m + 1]) == text;
  }

  lemma TypedSecond(t0: string, text: string, tokens: seq<int>, ends: seq<int>, subQueries: seq<SubQuery>,
                    heads: seq<int>, cur: nat, kind: QueryType, q: nat, kind': QueryType)
    requires Typed(t0, text, tokens, ends, subQueries, heads, 1, cur, kind) && q !in ends
    requires |text| == |t0| && q <= |t0| && forall k :: q <= k < |t0| ==> text[k] == t0[k]
    requires kind' == QueryTypeAt(text, cur, q)
    ensures Typed(t0, text, tokens + [q], ends, subQueries + [SubQuery(cur, kind')], heads + [|tokens| - 1], 2, cur,
                  kind')
  {
    hide Current, IsHead, QueryTypeAt, KindOf;
    var more, subs, hs := tokens + [q], subQueries + [SubQuery(cur, kind')], heads + [|tokens| - 1];
    var last := |tokens| - 1;
    CurrentMore(tokens, ends, 1, q);
    CurrentBegins(tokens, ends, 1);
    assert Naturals(more);
    forall m | IsHead(more, ends, m)
      ensures m in hs
    {
      HeadMore(tokens, ends, 1, q, m);
    }
    HeadMore(tokens, ends, 1, q, last);
    NewKind(t0, text, more, ends, last);
    forall s | 0 <= s < |hs|
      ensures HeadInRange(more, hs[s]) && IsHead(more, ends, hs[s])
      ensures subs[s].offset == more[hs[s]] && subs[s].kind == KindOf(t0, text, more, ends, hs[s])
      ensures s < |heads| ==> hs[s] < last
    {
      if s < |heads| {
        HeadInside(tokens, ends, heads[s]);
        HeadsMore(t0, text, tokens, ends, subQueries, heads, 1, q, s);
      }
    }
  }

  lemma IntoNow(t0: string, tokens: seq<int>, ends: seq<int>, count: nat, q: nat)
    requires Current(tokens, ends, count) && count >= 2
    ensures IntoAt(t0, tokens + [q], ends, |tokens| - count, |tokens|)
            <==> tokens[|tokens| - 1] + 4 < |t0| && WordAt(t0, q, "INTO")
  {
    hide WordAt;
    var more := tokens + [q];
    assert forall x :: |tokens| - count <= x < |tokens| ==> more[x] == tokens[x] && tokens[x] !in ends;
  }

  lemma TypedMore(t0: string, text: string, tokens: seq<int>, ends: seq<int>, subQueries: seq<SubQuery>,
                  heads: seq<int>, count: nat, cur: int, kind: QueryType, q: nat, into: bool)
    requires count >= 2 && Typed(t0, text, tokens, ends, subQueries, heads, count, cur, kind) && q !in ends
    requires into <==> kind == Select && tokens[|tokens| - 1] + 4 < |t0| && WordAt(t0, q, "INTO")
    ensures var last := |subQueries| - 1;
            Typed(t0, text, tokens + [q], ends,
                  if into then subQueries[last := subQueries[last].(kind := SelectInto)] else subQueries, heads,
                  count + 1, cur, if into then SelectInto else kind)
  {
    hide IsHead, QueryTypeAt, KindOf, WordAt;
    var more, last, m := tokens + [q], |subQueries| - 1, |tokens| - count;
    var subs := if into then subQueries[last := subQueries[last].(kind := SelectInto)] else subQueries;
    CurrentMore(tokens, ends, count, q);
    assert Naturals(more);
    forall x | IsHead(more, ends, x)
      ensures x in heads
    {
      HeadMore(tokens, ends, count, q, x);
    }
    IntoNow(t0, tokens, ends, count, q);
    forall s | 0 <= s < |heads|
      ensures HeadInRange(more, heads[s]) && IsHead(more, ends, heads[s])
      ensures subs[s].offset == more[heads[s]] && subs[s].kind == KindOf(t0, text, more, ends, heads[s])
    {
      HeadInside(tokens, ends, heads[s]);
      HeadsMore(t0, text, tokens, ends, subQueries, heads, count, q, s);
      KindMore(t0, text, tokens, ends, count, q, heads[s]);
      assert s < last ==> heads[s] < heads[last];
    }
  }

  /** The last token ends the statement. */
  lemma TypedEnd(t0: string, text: string, tokens: seq<int>, ends: seq<int>, subQueries: seq<SubQuery>,
                 heads: seq<int>, count: nat, cur: int, kind: QueryType, q: int)
    requires Typed(t0, text, tokens, ends, subQueries, heads, count, cur, kind)
    requires tokens != [] && tokens[|tokens| - 1] == q && forall m :: 0 <= m < |tokens| - 1 ==> tokens[m] != q
    ensures Typed(t0, text, tokens, ends + [q], subQueries, heads, 0, cur, kind)
  {
    hide QueryTypeAt, WordAt, BufferAt;
    var more := ends + [q];
    assert forall m :: 0 <= m < |tokens| - 1 ==> (tokens[m] in more <==> tokens[m] in ends);
    assert forall m :: IsHead(tokens, more, m) <==> IsHead(tokens, ends, m);
    forall s | 0 <= s < |heads|
      ensures KindOf(t0, text, tokens, more, heads[s]) == KindOf(t0, text, tokens, ends, heads[s])
    {
      assert forall j :: IntoAt(t0, tokens, more, heads[s], j) <==> IntoAt(t0, tokens, ends, heads[s], j);
    }
  }

  lemma TypedFacts(t0: string, text: string, tokens: seq<int>, ends: seq<int>, subQueries: seq<SubQuery>,
                   heads: seq<int>, count: nat, cur: int, kind: QueryType)
    requires Typed(t0, text, tokens, ends, subQueries, heads, count, cur, kind)
    ensures count <= |tokens| && |subQueries| == |heads|
    ensures count >= 1 ==> cur == tokens[|tokens| - count]
    ensures count >= 2 ==> subQueries != [] && kind == subQueries[|subQueries| - 1].kind
  {
  }

  lemma SameWord(t0: string, text: string, q: nat, word: string)
    requires |text| == |t0| && forall k :: q <= k < |t0| ==> text[k] == t0[k]
    ensures WordAt(t0, q, word) <==> WordAt(text, q, word)
  {
  }

  lemma TypedStart(t0: string)
    ensures Typed(t0, t0, [], [], [], [], 0, 0, NoResult)
  {
    hide KindOf;
  }

  /** What is written at `p` or behind changes no type. */
  lemma TypedText(t0: string, text: string, text': string, p: nat, tokens: seq<int>, ends: seq<int>,
                  subQueries: seq<SubQuery>, heads: seq<int>, count: nat, cur: int, kind: QueryType)
    requires Typed(t0, text, tokens, ends, subQueries, heads, count, cur, kind)
    requires |text'| == |text| == |t0| && p <= |text| && forall k :: 0 <= k < p ==> text'[k] == text[k]
    requires forall x :: x in tokens ==> 0 <= x <= p
    ensures Typed(t0, text', tokens, ends, subQueries, heads, count, cur, kind)
  {
    hide QueryTypeAt, WordAt, IntoAt, Current;
    forall s | 0 <= s < |heads|
      ensures KindOf(t0, text', tokens, ends, heads[s]) == KindOf(t0, text, tokens, ends, heads[s])
    {
      var q := tokens[heads[s] + 1];
      assert q in tokens;
      assert BufferAt(t0, text', q) == BufferAt(t0, text, q);
    }
  }

  // ---------------------------------------------------------------------------------
  // How the scanner's position relates the buffer to the text it was given
  // ---------------------------------------------------------------------------------

  /** What is found up to `p`, and what lies ahead in the buffer, make up what is to be found. */
  ghost predicate Finds(t0: string, text: string, p: nat, c: char, found: seq<int>) {
    found + PlainOffsets(text, c, p) == PlainOffsets(t0, c, 0)
  }

  /** Ahead of `p`, comments are where they were. */
  ghost predicate CommentsAhead(t0: string, text: string, p: nat) {
    forall k :: p <= k < |text| ==> InComment(text, p, k) == InComment(t0, 0, k)
  }

  /** The buffer is the text with comments behind `p` blanked, and the given edits. */
  ghost predicate BufferIs(t0: string, text: string, p: nat, edits: map<int, char>) {
    && |text| == |t0|
    && forall k :: 0 <= k < |text| ==>
         text[k] == if k in edits then edits[k] else if k < p && InComment(t0, 0, k) then ' ' else t0[k]
  }

  /** An edit at or ahead of `p` belongs to a word the scanner stands in. */
  ghost predicate EditsBehind(text: string, p: nat, edits: map<int, char>) {
    forall k :: k in edits ==>
      0 <= k < |text| && forall j :: p <= j <= k ==> IsLetter(text[j])
  }

  /** Everything said about the buffer at position `p`. */
  ghost predicate Consistent(t0: string, text: string, p: nat, edits: map<int, char>) {
    BufferIs(t0, text, p, edits) && CommentsAhead(t0, text, p) && EditsBehind(text, p, edits)
  }

  lemma ConsistentStart(t: string)
    ensures Consistent(t, t, 0, map[]) && Finds(t, t, 0, '?', []) && Finds(t, t, 0, ';', [])
  {
  }

  /** Past one plain character. */
  lemma PlainStep(t0: string, text: string, p: nat, edits: map<int, char>)
    requires Consistent(t0, text, p, edits) && PlainAt(text, p)
    ensures Consistent(t0, text, p + 1, edits)
  {
    assert InComment(text, p, p) == InComment(t0, 0, p);
    forall k | p + 1 <= k < |text|
      ensures InComment(text, p + 1, k) == InComment(t0, 0, k)
    {
      assert InComment(text, p, k) == InComment(text, p + 1, k);
    }
  }

  lemma PlainFinds(t0: string, text: string, p: nat, c: char, found: seq<int>)
    requires Finds(t0, text, p, c, found) && PlainAt(text, p)
    ensures Finds(t0, text, p + 1, c, if text[p] == c then found + [p] else found)
  {
    var rest := PlainOffsets(text, c, p + 1);
    assert (found + [p]) + rest == found + ([p] + rest);
  }

  /** Past a quoted string. */
  lemma QuoteStep(t0: string, text: string, p: nat, edits: map<int, char>)
    requires Consistent(t0, text, p, edits) && p < |text| && !CommentAt(text, p) && IsQuote(text[p])
    ensures Consistent(t0, text, QuoteEnd(text, p), edits)
  {
    var e := QuoteEnd(text, p);
    forall k | p <= k < |text|
      ensures k < e ==> !InComment(t0, 0, k)
      ensures k >= e ==> InComment(text, e, k) == InComment(t0, 0, k)
    {
      assert InComment(text, p, k) == InComment(t0, 0, k);
    }
  }

  lemma QuoteFinds(t0: string, text: string, p: nat, c: char, found: seq<int>)
    requires Finds(t0, text, p, c, found) && p < |text| && !CommentAt(text, p) && IsQuote(text[p])
    ensures Finds(t0, text, QuoteEnd(text, p), c, found)
  {
  }

  /** The buffer with comments between `p` and `q` overwritten. */
  ghost predicate SkippedTo(t: string, text: string, p: nat, q: nat) {
    && |text| == |t|
    && forall k :: 0 <= k < |t| ==> text[k] == if p <= k < q && InComment(t, p, k) then ' ' else t[k]
  }

  /** Past blanks and comments, which are overwritten. */
  lemma SkipStep(t0: string, text: string, text': string, p: nat, edits: map<int, char>)
    requires Consistent(t0, text, p, edits) && SkippedTo(text, text', p, SkipEnd(text, p))
    requires forall k :: k in edits ==> k < p
    ensures Consistent(t0, text', SkipEnd(text, p), edits)
  {
    var q := SkipEnd(text, p);
    assert Agree(text, text', q);
    forall k | q <= k < |text|
      ensures InComment(text', q, k) == InComment(t0, 0, k)
    {
      CommentsAgree(text, text', q, k);
      SkipKeepsComments(text, p, k);
    }
  }

  lemma SkipFinds(t0: string, text: string, text': string, p: nat, c: char, found: seq<int>)
    requires Finds(t0, text, p, c, found) && !IsSpace(c) && SkippedTo(text, text', p, SkipEnd(text, p))
    ensures Finds(t0, text', SkipEnd(text, p), c, found)
  {
    SkipKeepsOffsets(text, c, p);
    OffsetsAgree(text, text', c, SkipEnd(text, p));
  }

  /** A separator overwritten with NUL, and passed. */
  lemma SeparatorStep(t0: string, text: string, p: nat, edits: map<int, char>)
    requires Consistent(t0, text, p, edits) && PlainAt(text, p) && text[p] == ';'
    ensures Consistent(t0, text[p := NUL], p + 1, edits[p := NUL])
  {
    PlainStep(t0, text, p, edits);
    var text' := text[p := NUL];
    forall k | p + 1 <= k < |text|
      ensures InComment(text', p + 1, k) == InComment(t0, 0, k)
    {
      CommentsAgree(text, text', p + 1, k);
    }
    assert forall k :: k in edits ==> k < p;
  }

  lemma SeparatorFinds(t0: string, text: string, p: nat, c: char, found: seq<int>)
    requires Finds(t0, text, p, c, found) && PlainAt(text, p)
    ensures Finds(t0, text[p := NUL], p + 1, c, if text[p] == c then found + [p] else found)
  {
    PlainFinds(t0, text, p, c, found);
    OffsetsAgree(text, text[p := NUL], c, p + 1);
  }

  /** memcpy(p, "ECHO", 4) */
  function Echoed(t: string, p: nat): (u: string)
    requires p + 4 <= |t|
    ensures |u| == |t| && forall k :: 0 <= k < |t| ==> u[k] == if p <= k < p + 4 then ECHO[k - p] else t[k]
  {
    t[..p] + ECHO + t[p + 4..]
  }

  lemma {:induction false} LettersArePlain(t: string, c: char, p: nat, n: nat)
    requires p + n <= |t| && (forall k :: p <= k < p + n ==> IsLetter(t[k])) && !IsLetter(c)
    ensures PlainOffsets(t, c, p) == PlainOffsets(t, c, p + n)
    ensures forall k :: p <= k < |t| ==> InComment(t, p, k) == (k >= p + n && InComment(t, p + n, k))
    decreases n
  {
    if n > 0 {
      assert PlainAt(t, p) && ElementEnd(t, p) == p + 1;
      LettersArePlain(t, c, p + 1, n - 1);
    }
  }

  ghost function EchoEdits(edits: map<int, char>, p: nat): map<int, char> {
    edits[p := 'E'][p + 1 := 'C'][p + 2 := 'H'][p + 3 := 'O']
  }

  lemma EchoLetters(text: string, p: nat)
    requires WordAt(text, p, CALL)
    ensures forall k :: p <= k < p + 4 ==> IsLetter(text[k]) && IsLetter(Echoed(text, p)[k])
  {
    forall k | p <= k < p + 4
      ensures IsLetter(text[k])
    {
      assert Upper(text[p + (k - p)]) == CALL[k - p];
    }
  }

  /** A leading CALL overwritten, the scanner staying in front of it. */
  lemma EchoStep(t0: string, text: string, p: nat, edits: map<int, char>)
    requires Consistent(t0, text, p, edits) && WordAt(text, p, CALL) && forall k :: k in edits ==> k < p
    ensures Consistent(t0, Echoed(text, p), p, EchoEdits(edits, p))
  {
    hide InComment, PlainOffsets;
    var text', edits' := Echoed(text, p), EchoEdits(edits, p);
    EchoLetters(text, p);
    LettersArePlain(text, '?', p, 4);
    LettersArePlain(text', '?', p, 4);
    forall k | p <= k < |text|
      ensures InComment(text', p, k) == InComment(t0, 0, k)
    {
      CommentsAgree(text, text', p + 4, k);
    }
    assert forall k :: k in edits' <==> k in edits || p <= k < p + 4;
    assert forall k :: p <= k < p + 4 ==> edits'[k] == ECHO[k - p];
  }

  lemma EchoFinds(t0: string, text: string, p: nat, c: char, found: seq<int>)
    requires Finds(t0, text, p, c, found) && WordAt(text, p, CALL) && !IsLetter(c)
    ensures Finds(t0, Echoed(text, p), p, c, found)
  {
    var text' := Echoed(text, p);
    EchoLetters(text, p);
    LettersArePlain(text, c, p, 4);
    LettersArePlain(text', c, p, 4);
    OffsetsAgree(text, text', c, p + 4);
  }

  /** Edits are exactly NULs on separators, and ECHO on leading CALLs. */
  ghost predicate EditsOk(t0: string, edits: map<int, char>, separators: seq<int>, echoes: seq<int>) {
    && (forall k :: k in edits ==> k in separators || exists e :: e in echoes && e <= k < e + 4)
    && (forall x :: x in separators ==> x in edits && edits[x] == NUL && 0 <= x < |t0| && t0[x] == ';')
    && (forall e :: e in echoes ==> 0 <= e)
    && (forall e :: e in echoes ==> WordAt(t0, e, CALL))
    && (forall e, k :: e in echoes && e <= k < e + 4 ==> k in edits && edits[k] == ECHO[k - e])
  }

  lemma EditsStart(t0: string)
    ensures EditsOk(t0, map[], [], [])
  {
  }

  lemma CallInText(t0: string, text: string, q: nat, edits: map<int, char>)
    requires Consistent(t0, text, q, edits) && forall k :: k in edits ==> k < q
    ensures WordAt(t0, q, CALL) <==> WordAt(text, q, CALL)
    ensures |text| == |t0| && forall k :: q <= k < |t0| ==> text[k] == t0[k]
  {
    assert forall k :: q <= k < |text| ==> text[k] == t0[k];
  }

  /** Overwriting a CALL moves no token behind it. */
  lemma EchoKeepsTokens(text: string, q: nat)
    requires WordAt(text, q, CALL)
    ensures AfterToken(Echoed(text, q), q) == AfterToken(text, q)
  {
    hide SkipEnd, QuoteClose;
    var text' := Echoed(text, q);
    EchoLetters(text, q);
    TokenLetters(text, q + 1, 3);
    TokenLetters(text', q + 1, 3);
    TokensAgree(text, text', q + 4, true);
  }

  lemma NoTokensBehind(t: string, i: nat, reading: bool)
    requires i >= |t|
    ensures TokenOffsets(t, i, reading) == []
  {
  }

  lemma EchoEditsOk(t0: string, text: string, q: nat, edits: map<int, char>, separators: seq<int>, echoes: seq<int>)
    requires Consistent(t0, text, q, edits) && WordAt(text, q, CALL) && forall k :: k in edits ==> k < q
    requires EditsOk(t0, edits, separators, echoes)
    ensures EditsOk(t0, EchoEdits(edits, q), separators, echoes + [q])
  {
    hide EditsBehind, CommentsAhead, BufferIs, WordAt;
    var edits', echoes' := EchoEdits(edits, q), echoes + [q];
    CallInText(t0, text, q, edits);
    assert q in echoes';
    assert forall e :: e in echoes' <==> e in echoes || e == q;
    assert forall k :: k in edits' <==> k in edits || q <= k < q + 4;
    assert forall k :: q <= k < q + 4 ==> edits'[k] == ECHO[k - q];
    assert forall k :: k in edits ==> edits'[k] == edits[k];
    forall e, k | e in echoes' && e <= k < e + 4
      ensures k in edits' && edits'[k] == ECHO[k - e]
    {
      if e in echoes {
        assert k in edits;
      }
    }
  }

  /** Token offsets increase, and the parameter markers are exactly the tokens that are a ? */
  ghost predicate TokensOk(text: string, tokens: seq<int>, params: seq<int>, p: nat) {
    && Increasing(tokens)
    && (forall x :: x in tokens ==> 0 <= x < p)
    && (forall x :: x in params ==> x in tokens)
    && (forall x :: x in tokens && x < |text| && text[x] == '?' ==> x in params)
  }

  /** The token at `q` comes last. */
  lemma LastToken(text: string, saved: seq<int>, params: seq<int>, q: nat)
    requires TokensOk(text, saved, params, q)
    ensures forall x :: x in saved ==> 0 <= x < q
    ensures forall x :: x in saved + [q] ==> x <= q
    ensures forall m :: 0 <= m < |saved| ==> (saved + [q])[m] != q
  {
    assert forall m :: 0 <= m < |saved| ==> saved[m] in saved;
  }

  lemma TokensKept(text: string, text': string, tokens: seq<int>, params: seq<int>, p: nat, q: nat)
    requires TokensOk(text, tokens, params, p) && p <= q && p <= |text| == |text'|
    requires forall k :: 0 <= k < p ==> text'[k] == text[k]
    ensures TokensOk(text', tokens, params, q)
  {
  }

  lemma StatementDone(statements: seq<int>, count: int)
    ensures Sum(statements + [count]) == Sum(statements) + count
    ensures AtLeastTwo(statements + [count]) == AtLeastTwo(statements) + (if count >= 2 then 1 else 0)
  {
    assert (statements + [count])[..|statements|] == statements;
  }

  /** One more token; a ? among the tokens goes to the parameters. */
  lemma TokensMore(text: string, saved: seq<int>, params: seq<int>, q: nat, params': seq<int>)
    requires TokensOk(text, saved, params, q) && q <= |text|
    requires params' == if q < |text| && text[q] == '?' then params + [q] else params
    ensures TokensOk(text, saved + [q], params', q + 1)
  {
    var tokens := saved + [q];
    assert forall x :: x in tokens <==> x in saved || x == q;
    assert forall x :: x in params' <==> x in params || (q < |text| && text[q] == '?' && x == q);
    forall i, j | 0 <= i < j < |tokens|
      ensures tokens[i] < tokens[j]
    {
      assert tokens[i] in saved;
    }
  }

  lemma SeparatorEditsOk(t0: string, text: string, q: nat, edits: map<int, char>, separators: seq<int>,
                         echoes: seq<int>)
    requires Consistent(t0, text, q, edits) && EditsOk(t0, edits, separators, echoes)
    requires q < |text| && text[q] == ';' && forall k :: k in edits ==> k < q
    ensures EditsOk(t0, edits[q := NUL], separators + [q], echoes)
  {
    assert text[q] == t0[q];
    var edits', separators' := edits[q := NUL], separators + [q];
    assert forall x :: x in separators' <==> x in separators || x == q;
    forall e, k | e in echoes && e <= k < e + 4
      ensures k in edits' && edits'[k] == ECHO[k - e]
    {
      assert k in edits;
    }
  }

  /** The token reached is neither blank nor comment in the overwritten buffer either. */
  lemma SkipAgreesAt(t: string, text: string, p: nat)
    requires p <= |t| && SkippedTo(t, text, p, SkipEnd(t, p))
    ensures var q := SkipEnd(t, p);
            && Agree(t, text, q) && (q < |text| ==> !IsSpace(text[q]) && !CommentAt(text, q))
            && forall k :: 0 <= k < p ==> text[k] == t[k]
  {
    var q := SkipEnd(t, p);
    if q < |t| {
      ElementAgrees(t, text, q);
    }
  }

  /** Skipping from `start` leads over `p`, with comments overwritten up to there. */
  ghost predicate Reached(t: string, text: string, start: nat, p: nat) {
    && start <= p <= |t|
    && SkippedTo(t, text, start, p)
    && SkipEnd(t, start) == SkipEnd(t, p)
    && forall k :: p <= k < |t| ==> InComment(t, start, k) == InComment(t, p, k)
  }

  lemma SkippedNothing(t: string, start: nat)
    requires start <= |t|
    ensures Reached(t, t, start, start)
  {
  }

  lemma ReachedComment(t: string, text: string, text': string, start: nat, p: nat)
    requires Reached(t, text, start, p) && p < |t|
    requires var e := if CommentAt(text, p) then CommentEnd(text, p) else p;
             |text'| == |text| && forall k :: 0 <= k < |text| ==> text'[k] == if p <= k < e then ' ' else text[k]
    ensures Reached(t, text', start, if CommentAt(t, p) then CommentEnd(t, p) else p)
    ensures CommentAt(t, p) == CommentAt(text, p) && (CommentAt(t, p) ==> CommentEnd(t, p) == CommentEnd(text, p))
  {
    ElementAgrees(t, text, p);
    if CommentAt(t, p) {
      forall k | p <= k < |t|
        ensures InComment(t, p, k) == if k < CommentEnd(t, p) then true else InComment(t, CommentEnd(t, p), k)
      {
      }
    }
  }

  lemma {:induction false} ReachedTrim(t: string, text: string, start: nat, p: nat, q: nat)
    requires Reached(t, text, start, p) && p <= q <= |t| && forall k :: p <= k < q ==> IsSpace(text[k])
    ensures Reached(t, text, start, q)
    decreases q - p
  {
    if p < q {
      assert t[p] == text[p];
      SpaceElement(t, p);
      forall k | p <= k < |t|
        ensures InComment(t, p, k) == (k > p && InComment(t, p + 1, k))
      {
      }
      ReachedTrim(t, text, start, p + 1, q);
    }
  }

  // ---------------------------------------------------------------------------------
  // The scanner
  // ---------------------------------------------------------------------------------

  /** The query buffer and what ParseQuery collects about it. */
  class Query {
    var text: string                  // RefinedText, without its terminating NUL
    var tokens: seq<int>              // offsets
    var params: seq<int>              // ParamPositions
    var subQueries: seq<SubQuery>
    var hasParameters: bool
    var queryType: QueryType
    var returnsResult: bool
    const batchAllowed: bool

    ghost var ends: seq<int>          // offsets of the ; that end a statement
    ghost var separators: seq<int>    // those overwritten with NUL
    ghost var edits: map<int, char>   // characters written for separators and CALL
    ghost var echoes: seq<int>        // offsets of the CALLs overwritten
    ghost var statements: seq<int>    // number of tokens of each finished statement
    ghost var heads: seq<int>         // which tokens begin the sub-queries

    constructor (text: string, batchAllowed: bool)
      ensures this.text == text && this.batchAllowed == batchAllowed
    {
      this.text, this.batchAllowed := text, batchAllowed;
    }

    /** StripLeadingComments, with the comment overwritten: where the comment at `str` ends. */
    method StripLeadingComments(str: nat) returns (res: nat)
      requires str < |text|
      modifies this`text
      ensures |text| == |old(text)|
      ensures res == if CommentAt(old(text), str) then CommentEnd(old(text), str) else str
      ensures forall k :: 0 <= k < |text| ==> text[k] == if str <= k < res then ' ' else old(text)[k]
    {
      var found, closing := str, 1;
      if Dashes(text, str) {
        found := StrChr(text, '\n', str + 2);
      } else if Hash(text, str) {
        found := StrChr(text, '\n', str + 1);
      } else if Block(text, str) {
        found := BlockClose(text, str + 2);
        closing := 2;
      }
      res := str;
      if found != str {
        res := if found < |text| then found + closing else |text|;
        text := text[..str] + seq(res - str, _ => ' ') + text[res..];
      }
    }

    /** ltrim */
    method TrimLeft(from: nat) returns (p: nat)
      requires from <= |text|
      ensures from <= p <= |text| && (p < |text| ==> !IsSpace(text[p]))
      ensures forall k :: from <= k < p ==> IsSpace(text[k])
    {
      p := from;
      while p < |text| && IsSpace(text[p])
        invariant from <= p <= |text|
        invariant forall k :: from <= k < p ==> IsSpace(text[k])
      {
        p := p + 1;
      }
    }

    /** SkipSpacesAndComments with OverWrite. */
    method SkipSpacesAndComments(start: nat) returns (p: nat)
      requires start <= |text|
      modifies this`text
      ensures p == SkipEnd(old(text), start)
      ensures SkippedTo(old(text), text, start, p)
    {
      ghost var t := text;
      var prev := |text| + 1;
      p := start;
      SkippedNothing(t, start);
      while p < |text| && p != prev
        invariant Reached(t, text, start, p)
        invariant p == prev ==> SkipEnd(t, p) == p
        decreases |text| - p, if p == prev then 0 else 1
      {
        prev := p;
        ghost var before := text;
        p := StripLeadingComments(p);
        ReachedComment(t, before, text, start, prev);
        ghost var q := p;
        p := TrimLeft(p);
        ReachedTrim(t, text, start, q, p);
      }
    }

    /** The buffer, and the offsets found, at scanner position `p`. */
    ghost predicate Found(t0: string, p: nat)
      reads this`text, this`edits, this`ends, this`separators, this`echoes
      reads this`params, this`hasParameters, this`queryType
    {
      && Consistent(t0, text, p, edits)
      && EditsOk(t0, edits, separators, echoes)
      && Finds(t0, text, p, '?', params)
      && (hasParameters <==> params != [])
      && ends <= PlainOffsets(t0, ';', 0)
      && (PossiblyMulti(queryType) ==> Finds(t0, text, p, ';', ends))
      && separators == if batchAllowed then ends else []
    }

    /** The statements the tokens make up; `count` tokens belong to the current one. */
    ghost predicate Counted(count: nat, kind: QueryType)
      reads this`tokens, this`ends, this`text, this`statements, this`subQueries, this`queryType
    {
      && Tallied(tokens, ends, |text|, statements, count)
      && Totals(statements, |tokens|, |subQueries|, queryType, count, kind)
    }

    /** The sub-queries and the type of the query. */
    ghost predicate Kinds(t0: string, count: nat, cur: int, kind: QueryType)
      reads this`text, this`tokens, this`ends, this`subQueries, this`heads, this`queryType, this`returnsResult
    {
      && Typed(t0, text, tokens, ends, subQueries, heads, count, cur, kind)
      && TypeIs(queryType, returnsResult, subQueries)
    }

    /** The tokens saved up to `p`, and the CALLs overwritten among them. */
    ghost predicate Scanned(t0: string, p: nat, reading: bool, replaceCall: bool)
      reads this`tokens, this`text, this`echoes, this`ends
    {
      && tokens + TokenOffsets(text, p, reading) == TokenOffsets(t0, 0, false)
      && echoes == if replaceCall then Calls(t0, tokens, ends) else []
    }

    /** What holds of every round of the scanner's loop, at position `p`. */
    ghost predicate Scanning(t0: string, p: nat, reading: bool, count: nat, cur: int, kind: QueryType,
                             replaceCall: bool)
      reads this
    {
      && p <= |text| + 1 && |text| == |t0|
      && Found(t0, p) && Counted(count, kind) && TokensOk(text, tokens, params, p)
      && Scanned(t0, p, reading, replaceCall) && Kinds(t0, count, cur, kind)
      && (!reading ==> forall k :: k in edits ==> k < p)
    }

    /** memcpy(p, "ECHO", 4) */
    method WriteEcho(ghost t0: string, q: nat)
      requires Found(t0, q) && WordAt(text, q, CALL) && forall k :: k in edits ==> k < q
      modifies this`text, this`edits, this`echoes
      ensures Found(t0, q) && text == Echoed(old(text), q) && echoes == old(echoes) + [q]
      ensures IsLetter(text[q]) && !IsSpace(text[q]) && !CommentAt(text, q)
      ensures AfterToken(text, q) == AfterToken(old(text), q)
    {
      hide AfterToken, TokenOffsets, Consistent, EditsOk, Finds;
      EchoKeepsTokens(text, q);
      EchoLetters(text, q);
      EchoStep(t0, text, q, edits);
      EchoFinds(t0, text, q, '?', params);
      if PossiblyMulti(queryType) {
        EchoFinds(t0, text, q, ';', ends);
      }
      EchoEditsOk(t0, text, q, edits, separators, echoes);
      text, edits, echoes := Echoed(text, q), EchoEdits(edits, q), echoes + [q];
    }

    /** SkipSpacesAndComments in front of a token. */
    method SkipToToken(ghost t0: string, p: nat) returns (q: nat)
      requires p <= |text| && Found(t0, p) && TokensOk(text, tokens, params, p) && forall k :: k in edits ==> k < p
      modifies this`text
      ensures p <= q <= |text| == |old(text)| && Found(t0, q) && TokensOk(text, tokens, params, q)
      ensures q == SkipEnd(old(text), p) && AfterToken(text, q) == AfterToken(old(text), q)
      ensures forall k :: 0 <= k < p ==> text[k] == old(text)[k]
      ensures q < |text| ==> !IsSpace(text[q]) && !CommentAt(text, q)
    {
      hide AfterToken, TokenOffsets, Consistent, EditsOk, Finds, SkippedTo, SkipEnd, CommentAt, TokensOk, PlainOffsets;
      ghost var before := text;
      q := SkipSpacesAndComments(p);
      SkipStep(t0, before, text, p, edits);
      SkipFinds(t0, before, text, p, '?', params);
      if PossiblyMulti(queryType) {
        SkipFinds(t0, before, text, p, ';', ends);
      }
      SkipAgreesAt(before, text, p);
      AfterAgrees(before, text, q);
      TokensKept(before, text, tokens, params, p, q);
    }

    /** Skipping to a token, and a leading CALL overwritten. */
    method ReachToken(ghost t0: string, p: nat, replaceCall: bool, count: nat, ghost kind: QueryType)
      returns (q: nat)
      requires p <= |text| && Found(t0, p) && TokensOk(text, tokens, params, p) && Counted(count, kind)
      requires forall k :: k in edits ==> k < p
      modifies this`text, this`edits, this`echoes
      ensures p <= q <= |text| == |old(text)| && Found(t0, q) && TokensOk(text, tokens, params, q)
      ensures Counted(count, kind) && |text| == |t0|
      ensures forall k :: 0 <= k < p ==> text[k] == old(text)[k]
      ensures count > 0 ==> forall k :: q <= k < |t0| ==> text[k] == t0[k]
      ensures q == SkipEnd(old(text), p) && AfterToken(text, q) == AfterToken(old(text), q)
      ensures q < |text| ==> !IsSpace(text[q]) && !CommentAt(text, q)
      ensures q == |text| || !IsLetter(text[q]) ==> forall k :: k in edits ==> k < q
      ensures echoes == old(echoes) + if replaceCall && count == 0 && WordAt(t0, q, CALL) then [q] else []
    {
      hide Consistent, EditsOk, Finds, TokensOk, WordAt, IsLetter, AfterToken, SkipEnd, CommentAt, Tallied;
      hide Sum, AtLeastTwo, PlainOffsets;
      q := SkipToToken(t0, p);
      CallInText(t0, text, q, edits);
      if replaceCall && count == 0 && WordAt(text, q, CALL) {
        ghost var before := text;
        WriteEcho(t0, q);
        TokensKept(before, text, tokens, params, q, q);
      }
    }

    /** The type of the first statement is that of the query. */
    method SetQueryType(ghost t0: string, ghost q: nat, kind: QueryType)
      requires Found(t0, q) && (|subQueries| == 1 ==> PossiblyMulti(queryType))
      modifies this`queryType
      ensures Found(t0, q) && queryType == if |subQueries| == 1 then kind else old(queryType)
    {
      hide Consistent, EditsOk, Finds, PlainOffsets;
      if |subQueries| == 1 {
        queryType := kind;
      }
    }

    /** The second token of a statement: its type is known. */
    method TypeStatement(ghost t0: string, q: nat, cur: nat, ghost kind: QueryType, ghost saved: seq<int>)
      returns (kind': QueryType)
      requires tokens == saved + [q] && saved != [] && q !in ends && cur == tokens[|tokens| - 2] && Found(t0, q)
      requires Typed(t0, text, saved, ends, subQueries, heads, 1, cur, kind)
      requires q <= |text| == |t0| && forall k :: q <= k < |t0| ==> text[k] == t0[k]
      requires (subQueries == [] ==> PossiblyMulti(queryType)) && TypeIs(queryType, returnsResult, subQueries)
      modifies this`subQueries, this`queryType, this`heads, this`returnsResult
      ensures Found(t0, q) && Kinds(t0, 2, cur, kind') && |subQueries| == |old(subQueries)| + 1
      ensures queryType == if |subQueries| == 1 then kind' else old(queryType)
    {
      hide QueryTypeAt, Found, Typed, PossiblyMulti, TypeIs, ReturnsRows;
      kind' := QueryTypeAt(text, tokens[|tokens| - 2], q);
      NeverInto(text, tokens[|tokens| - 2], q);
      TypeAdded(queryType, returnsResult, subQueries, SubQuery(cur, kind'));
      returnsResult := returnsResult || ReturnsRows(kind');
      TypedSecond(t0, text, saved, ends, subQueries, heads, cur, kind, q, kind');
      subQueries, heads := subQueries + [SubQuery(cur, kind')], heads + [|saved| - 1];
      SetQueryType(t0, q, kind');
    }

    /** A later token: INTO in a SELECT. */
    method CheckInto(ghost t0: string, q: nat, ghost count: nat, ghost cur: nat, kind: QueryType, ghost saved: seq<int>)
      returns (kind': QueryType)
      requires tokens == saved + [q] && saved != [] && q !in ends && count >= 2 && Found(t0, q)
      requires Typed(t0, text, saved, ends, subQueries, heads, count, cur, kind)
      requires q <= |text| == |t0| && forall k :: q <= k < |t0| ==> text[k] == t0[k]
      requires TypeIs(queryType, returnsResult, subQueries)
      modifies this`subQueries, this`queryType
      ensures Found(t0, q) && Kinds(t0, count + 1, cur, kind') && |subQueries| == |old(subQueries)|
      ensures if kind' == kind then queryType == old(queryType)
              else kind' == SelectInto && queryType == if |subQueries| == 1 then kind' else old(queryType)
    {
      hide WordAt, Found, Typed, Yields;
      TypedFacts(t0, text, saved, ends, subQueries, heads, count, cur, kind);
      SameWord(t0, text, q, "INTO");
      kind' := kind;
      var into := kind == Select && tokens[|tokens| - 2] + 4 < |text| && WordAt(text, q, "INTO");
      TypedMore(t0, text, saved, ends, subQueries, heads, count, cur, kind, q, into);
      if into {
        TypeInto(queryType, returnsResult, subQueries);
        kind' := SelectInto;
        subQueries := subQueries[|subQueries| - 1 := subQueries[|subQueries| - 1].(kind := kind')];
        SetQueryType(t0, q, kind');
      }
    }

    /** SAVE_TOKEN, and the type of the statement once its second token is there. */
    method SaveToken(ghost t0: string, q: nat, count: nat, cur: nat, kind: QueryType)
      returns (count': nat, cur': nat, kind': QueryType)
      requires q <= |text| == |t0| && Found(t0, q) && Counted(count, kind) && Kinds(t0, count, cur, kind)
      requires forall x :: x in tokens ==> 0 <= x < q
      requires count > 0 ==> forall k :: q <= k < |t0| ==> text[k] == t0[k]
      modifies this`tokens, this`subQueries, this`queryType, this`heads, this`returnsResult
      ensures tokens == old(tokens) + [q] && count' == count + 1
      ensures Found(t0, q) && Counted(count', kind') && Kinds(t0, count', cur', kind')
    {
      hide Found, Tallied, Totals, Typed, PossiblyMulti, TypeIs;
      TalliedToken(tokens, ends, |text|, statements, count, q);
      TotalsFacts(statements, |tokens|, |subQueries|, queryType, count, kind);
      TypedFacts(t0, text, tokens, ends, subQueries, heads, count, cur, kind);
      ghost var saved := tokens;
      tokens := tokens + [q];
      count', cur', kind' := count + 1, cur, kind;
      if count' == 1 {
        TypedFirst(t0, text, saved, ends, subQueries, heads, cur, kind, q);
        cur' := q;
      } else if count' == 2 {
        kind' := TypeStatement(t0, q, cur, kind, saved);
      } else {
        kind' := CheckInto(t0, q, count, cur, kind, saved);
      }
      TotalsMore(statements, |saved|, |old(subQueries)|, old(queryType), count, kind, |subQueries|, queryType, kind');
    }

    /** A ? outside strings and comments: recorded, and a token of its own. */
    method PassMarker(ghost t0: string, q: nat, ghost saved: seq<int>)
      requires q < |text| && PlainAt(text, q) && text[q] == '?' && Found(t0, q)
      requires tokens == saved + [q] && TokensOk(text, saved, params, q)
      modifies this`params, this`hasParameters
      ensures Found(t0, q + 1) && TokensOk(text, tokens, params, q + 1)
    {
      PlainStep(t0, text, q, edits);
      PlainFinds(t0, text, q, '?', params);
      if PossiblyMulti(queryType) {
        PlainFinds(t0, text, q, ';', ends);
      }
      TokensMore(text, saved, params, q, params + [q]);
      hasParameters := true;
      params := params + [q];
    }

    /** *p= '\0' on a separator. */
    method WriteNul(ghost t0: string, q: nat)
      requires q < |text| && PlainAt(text, q) && text[q] == ';' && Found(t0, q)
      requires batchAllowed && PossiblyMulti(queryType) && forall k :: k in edits ==> k < q
      modifies this`text, this`edits, this`separators, this`ends
      ensures Found(t0, q + 1) && text == old(text)[q := NUL]
      ensures edits == old(edits)[q := NUL] && ends == old(ends) + [q]
    {
      hide Consistent, EditsOk;
      SeparatorStep(t0, text, q, edits);
      SeparatorFinds(t0, text, q, '?', params);
      SeparatorFinds(t0, text, q, ';', ends);
      SeparatorEditsOk(t0, text, q, edits, separators, echoes);
      text := text[q := NUL];
      edits, separators, ends := edits[q := NUL], separators + [q], ends + [q];
    }

    /** A separator where batches are not allowed: it ends the statement, and stays. */
    ghost method KeepSeparator(t0: string, q: nat)
      requires PlainAt(text, q) && text[q] == ';' && Found(t0, q) && !batchAllowed && PossiblyMulti(queryType)
      modifies this`ends
      ensures Found(t0, q + 1) && ends == old(ends) + [q]
    {
      hide Consistent, EditsOk;
      PlainStep(t0, text, q, edits);
      PlainFinds(t0, text, q, '?', params);
      PlainFinds(t0, text, q, ';', ends);
      ends := ends + [q];
    }

    method EndStatement(ghost t0: string, q: nat, ghost saved: seq<int>)
      requires q < |text| && PlainAt(text, q) && text[q] == ';' && Found(t0, q) && TokensOk(text, saved, params, q)
      requires PossiblyMulti(queryType) && forall k :: k in edits ==> k < q
      modifies this`text, this`edits, this`separators, this`ends
      ensures Found(t0, q + 1) && ends == old(ends) + [q] && TokensOk(text, saved, params, q)
      ensures |text| == |old(text)| && text[q] != '?' && forall k :: k in edits ==> k < q + 1
      ensures forall k :: 0 <= k < q ==> text[k] == old(text)[k]
      ensures TokenOffsets(text, q + 1, false) == TokenOffsets(old(text), q + 1, false)
    {
      hide Found, TokensOk, PlainAt, TokenOffsets;
      if batchAllowed {
        ghost var before := text;
        WriteNul(t0, q);
        TokensKept(before, text, saved, params, q, q);
        TokensAgree(before, text, q + 1, false);
      } else {
        KeepSeparator(t0, q);
      }
    }

    /** Any other character outside strings and comments, or a separator that stays. */
    lemma PassOther(t0: string, q: nat)
      requires PlainAt(text, q) && text[q] != '?' && Found(t0, q)
      requires text[q] == ';' ==> !PossiblyMulti(queryType)
      ensures Found(t0, q + 1)
    {
      PlainStep(t0, text, q, edits);
      PlainFinds(t0, text, q, '?', params);
      if PossiblyMulti(queryType) {
        PlainFinds(t0, text, q, ';', ends);
      }
    }

    /** A ; outside strings and comments: it ends the statement, and becomes NUL in a batch. */
    method PassSeparator(ghost t0: string, q: nat, count: nat, ghost kind: QueryType, ghost saved: seq<int>)
      returns (count': nat)
      requires q < |text| && PlainAt(text, q) && text[q] == ';' && Found(t0, q) && Counted(count, kind)
      requires tokens == saved + [q] && TokensOk(text, saved, params, q)
      requires forall k :: k in edits ==> k < q
      modifies this`text, this`edits, this`separators, this`ends, this`statements
      ensures Found(t0, q + 1) && Counted(count', kind) && TokensOk(text, tokens, params, q + 1)
      ensures |text| == |old(text)| && forall k :: k in edits ==> k < q + 1
      ensures TokenOffsets(text, q + 1, false) == TokenOffsets(old(text), q + 1, false)
      ensures Calls(t0, tokens, ends) == Calls(t0, tokens, old(ends))
      ensures forall k :: 0 <= k < q ==> text[k] == old(text)[k]
      ensures (ends == old(ends) && count' == count) || (ends == old(ends) + [q] && count' == 0)
    {
      hide Found, TokensOk, Tallied, Calls, Sum, AtLeastTwo, PlainAt, TokenOffsets;
      count' := count;
      if PossiblyMulti(queryType) {
        LastToken(text, saved, params, q);
        TalliedEnd(tokens, ends, |text|, statements, count, q);
        CallsKept(t0, tokens, ends, q);
        StatementDone(statements, count);
        EndStatement(t0, q, saved);
        statements := statements + [count];
        count' := 0;
      } else {
        PassOther(t0, q);
      }
      TokensMore(text, saved, params, q, params);
    }

    /** Past the end of the text. */
    lemma PassEnd(t0: string, q: nat)
      requires q == |text| && Found(t0, q)
      ensures Found(t0, q + 1)
    {
      assert BufferIs(t0, text, q + 1, edits);
    }

    lemma PassQuote(t0: string, q: nat, p: nat)
      requires q < |text| && !CommentAt(text, q) && IsQuote(text[q]) && Found(t0, q)
      requires var close := QuoteClose(text, text[q], q + 1);
               p == if close < |text| then close + 1 else q + 2
      ensures Found(t0, p)
    {
      hide QuoteClose, CommentAt, Consistent, EditsOk, Finds;
      QuoteStep(t0, text, q, edits);
      QuoteFinds(t0, text, q, '?', params);
      if PossiblyMulti(queryType) {
        QuoteFinds(t0, text, q, ';', ends);
      }
      if p == |text| + 1 {
        PassEnd(t0, |text|);
      }
    }

    /** The switch on the token's first character: passes one lexical element. */
    method PassElement(ghost t0: string, q: nat, count: nat, ghost kind: QueryType, ghost saved: seq<int>)
      returns (p: nat, reading: bool, count': nat)
      requires q <= |text| && (q < |text| ==> !CommentAt(text, q)) && Found(t0, q) && Counted(count, kind)
      requires tokens == saved + [q] && TokensOk(text, saved, params, q)
      requires q == |text| || !IsLetter(text[q]) ==> forall k :: k in edits ==> k < q
      modifies this`text, this`edits, this`separators, this`ends, this`statements, this`params, this`hasParameters
      ensures q < p <= |text| + 1 && |text| == |old(text)|
      ensures Found(t0, p) && Counted(count', kind) && TokensOk(text, tokens, params, p)
      ensures !reading ==> forall k :: k in edits ==> k < p
      ensures AfterToken(old(text), q) == TokenOffsets(text, p, reading)
      ensures Calls(t0, tokens, ends) == Calls(t0, tokens, old(ends))
      ensures forall k :: 0 <= k < q ==> text[k] == old(text)[k]
      ensures (ends == old(ends) && count' == count) || (ends == old(ends) + [q] && count' == 0)
    {
      hide Found, Counted, TokensOk, QuoteClose, QuoteEnd, TokenOffsets, Calls;
      p, reading, count' := q + 1, true, count;
      if q == |text| {
        PassEnd(t0, q);
        NoTokensBehind(text, q + 1, true);
        TokensMore(text, saved, params, q, params);
      } else if IsQuote(text[q]) {
        var close := QuoteClose(text, text[q], q + 1);
        if close < |text| {
          p := close + 1;
        } else {
          p, reading := q + 2, false;
        }
        PassQuote(t0, q, p);
        TokensMore(text, saved, params, q, params);
        TokensKept(text, text, tokens, params, q + 1, p);
      } else if text[q] == '?' {
        PassMarker(t0, q, saved);
        reading := false;
      } else if text[q] == ';' {
        count' := PassSeparator(t0, q, count, kind, saved);
        reading := false;
      } else {
        PassOther(t0, q);
        TokensMore(text, saved, params, q, params);
      }
    }

    /**
    What ParseQuery makes of the text `t0`: the parameter markers recorded are exactly the
    ? outside strings and comments, and the buffer is the text with comments blanked,
    separators turned to NUL, and CALL turned to ECHO where it begins a statement.  Tokens
    and the number of them in each statement are those of the text; a statement is counted
    when it has two tokens or more.  A query of a type that may hold semicolons of its own,
    such as CREATE PROCEDURE, is not cut behind the statement that has this type.
    */
    ghost predicate Parsed(t0: string, replaceCall: bool)
      reads this
    {
      && params == PlainOffsets(t0, '?', 0) && (hasParameters <==> params != [])
      && TokensOk(text, tokens, params, |text| + 1)
      && BufferIs(t0, text, |text|, edits) && EditsOk(t0, edits, separators, echoes)
      && tokens == TokenOffsets(t0, 0, false)
      && (t0 != [] ==> tokens != [] && tokens[0] == SkipEnd(t0, 0))
      && ends <= PlainOffsets(t0, ';', 0)
      && (PossiblyMulti(queryType) ==> ends == PlainOffsets(t0, ';', 0))
      && (forall x :: x in ends ==> x in tokens)
      && separators == (if batchAllowed then ends else [])
      && echoes == (if replaceCall then Calls(t0, tokens, ends) else [])
      && statements == StatementSizes(tokens, ends, |t0|)
      && |tokens| == Sum(statements) && |subQueries| == AtLeastTwo(statements)
      && (!PossiblyMulti(queryType) ==> |subQueries| == 1 && statements[|ends|] >= 2)
      && HeadsOk(t0, text, tokens, ends, subQueries, heads)
      && (subQueries == [] ==> queryType == NoResult) && TypeIs(queryType, returnsResult, subQueries)
    }

    /** At the end of the text everything is found. */
    lemma FoundAll(t0: string, p: nat)
      requires p >= |text| && Found(t0, p)
      ensures params == PlainOffsets(t0, '?', 0) && (hasParameters <==> params != [])
      ensures |text| == |t0| && BufferIs(t0, text, |text|, edits) && EditsOk(t0, edits, separators, echoes)
      ensures ends <= PlainOffsets(t0, ';', 0) && (PossiblyMulti(queryType) ==> ends == PlainOffsets(t0, ';', 0))
      ensures separators == if batchAllowed then ends else []
    {
      hide EditsOk, InComment;
      assert PlainOffsets(text, '?', p) == PlainOffsets(text, ';', p) == [];
    }

    /** The last statement ends with the text. */
    ghost method Finish(t0: string, p: nat, reading: bool, count: nat, cur: int, kind: QueryType, replaceCall: bool)
      requires |text| <= p && Scanning(t0, p, reading, count, cur, kind, replaceCall)
      modifies this`statements
      ensures Parsed(t0, replaceCall)
    {
      hide Found, EditsOk, Calls, SkipEnd, StatementSizes, BufferIs, PlainOffsets, Sum, AtLeastTwo, HeadsOk, Current;
      FoundAll(t0, p);
      NoTokensBehind(text, p, reading);
      assert tokens == TokenOffsets(t0, 0, false);
      assert statements + [count] == StatementSizes(tokens, ends, |t0|);
      StatementDone(statements, count);
      statements := statements + [count];
      assert statements[|ends|] == count;
    }

    lemma ScanStart(t0: string, replaceCall: bool)
      requires text == t0 && tokens == [] && params == [] && subQueries == []
      requires ends == [] && separators == [] && echoes == [] && statements == [] && heads == []
      requires !hasParameters && queryType == NoResult && !returnsResult && edits == map[]
      ensures Scanning(t0, 0, false, 0, 0, NoResult, replaceCall)
    {
      hide Consistent, EditsOk, Finds, Tallied, Typed, TokenOffsets, PlainOffsets;
      assert [] + TokenOffsets(t0, 0, false) == TokenOffsets(t0, 0, false);
      ConsistentStart(t0);
      EditsStart(t0);
      TypedStart(t0);
      TalliedStart(|t0|);
    }

    /** One round of the scanner's loop inside a token. */
    method InToken(ghost t0: string, p: nat, ghost replaceCall: bool) returns (p': nat, reading: bool)
      requires p < |text| && Found(t0, p) && TokensOk(text, tokens, params, p) && Scanned(t0, p, true, replaceCall)
      ensures if reading then p' == p + 1 else p' == p && forall k :: k in edits ==> k < p
      ensures Found(t0, p') && TokensOk(text, tokens, params, p') && Scanned(t0, p', reading, replaceCall)
    {
      if BreaksToken(text[p]) {
        assert !IsLetter(text[p]);
        return p, false;
      }
      PassOther(t0, p);
      TokensKept(text, text, tokens, params, p, p + 1);
      return p + 1, true;
    }

    lemma KindsAre(t0: string, count: nat, cur: int, kind: QueryType)
      requires Kinds(t0, count, cur, kind)
      ensures Typed(t0, text, tokens, ends, subQueries, heads, count, cur, kind)
      ensures TypeIs(queryType, returnsResult, subQueries)
    {
    }

    /** Text written at `p` or behind. */
    lemma KindsBehind(t0: string, before: string, p: nat, count: nat, cur: int, kind: QueryType)
      requires Typed(t0, before, tokens, ends, subQueries, heads, count, cur, kind)
      requires TypeIs(queryType, returnsResult, subQueries)
      requires |before| == |text| == |t0| && p <= |text| && forall k :: 0 <= k < p ==> text[k] == before[k]
      requires forall x :: x in tokens ==> 0 <= x <= p
      ensures Kinds(t0, count, cur, kind)
    {
      hide Typed;
      TypedText(t0, before, text, p, tokens, ends, subQueries, heads, count, cur, kind);
    }

    /** The last token, at `q`, passed: it may have ended the statement. */
    lemma KindsPassed(t0: string, before: string, ends0: seq<int>, q: nat, count: nat, count': nat, cur: int,
                      kind: QueryType)
      requires Typed(t0, before, tokens, ends0, subQueries, heads, count, cur, kind)
      requires TypeIs(queryType, returnsResult, subQueries)
      requires |before| == |text| == |t0| && q <= |text| && forall k :: 0 <= k < q ==> text[k] == before[k]
      requires (forall x :: x in tokens ==> 0 <= x <= q) && tokens != [] && tokens[|tokens| - 1] == q
      requires forall m :: 0 <= m < |tokens| - 1 ==> tokens[m] != q
      requires (ends == ends0 && count' == count) || (ends == ends0 + [q] && count' == 0)
      ensures Kinds(t0, count', cur, kind)
    {
      hide Typed;
      TypedText(t0, before, text, q, tokens, ends0, subQueries, heads, count, cur, kind);
      if ends != ends0 {
        TypedEnd(t0, text, tokens, ends0, subQueries, heads, count, cur, kind, q);
      }
    }

    lemma NextTokenStarts(t0: string, p: nat, replaceCall: bool, count: nat, kind: QueryType)
      requires p < |text| && Scanned(t0, p, false, replaceCall) && Counted(count, kind)
      ensures var q := SkipEnd(text, p);
              && q <= |text| && tokens + [q] + AfterToken(text, q) == TokenOffsets(t0, 0, false)
              && Calls(t0, tokens + [q], ends)
                 == Calls(t0, tokens, ends) + if count == 0 && WordAt(t0, q, CALL) then [q] else []
      ensures echoes == if replaceCall then Calls(t0, tokens, ends) else []
    {
      hide SkipEnd, AfterToken, Calls, Sum, AtLeastTwo, StatementSizes, WordAt;
      var q := SkipEnd(text, p);
      CallsMore(t0, tokens, ends, q);
      assert tokens + ([q] + AfterToken(text, q)) == tokens + [q] + AfterToken(text, q);
    }

    lemma NextTokenScanned(t0: string, p: nat, reading: bool, replaceCall: bool)
      requires tokens + TokenOffsets(text, p, reading) == TokenOffsets(t0, 0, false)
      requires echoes == if replaceCall then Calls(t0, tokens, ends) else []
      ensures Scanned(t0, p, reading, replaceCall)
    {
    }

    /** One round of the scanner's loop outside a token. */
    method NextToken(ghost t0: string, p: nat, replaceCall: bool, count: nat, cur: nat, kind: QueryType)
      returns (p': nat, reading: bool, count': nat, cur': nat, kind': QueryType)
      requires p < |text| && Found(t0, p) && Counted(count, kind) && TokensOk(text, tokens, params, p)
      requires Scanned(t0, p, false, replaceCall) && Kinds(t0, count, cur, kind) && forall k :: k in edits ==> k < p
      modifies this
      ensures p < p' <= |text| + 1 && |text| == |old(text)|
      ensures Found(t0, p') && Counted(count', kind') && TokensOk(text, tokens, params, p')
      ensures Scanned(t0, p', reading, replaceCall) && Kinds(t0, count', cur', kind')
      ensures !reading ==> forall k :: k in edits ==> k < p'
    {
      hide *;
      ghost var saved, before := tokens, text;
      NextTokenStarts(t0, p, replaceCall, count, kind);
      LastToken(text, saved, params, p);
      KindsAre(t0, count, cur, kind);
      var q := ReachToken(t0, p, replaceCall, count, kind);
      KindsBehind(t0, before, p, count, cur, kind);
      LastToken(text, saved, params, q);
      count', cur', kind' := SaveToken(t0, q, count, cur, kind);
      KindsAre(t0, count', cur', kind');
      ghost var read, ends0, count0 := text, ends, count';
      p', reading, count' := PassElement(t0, q, count', kind', saved);
      KindsPassed(t0, read, ends0, q, count0, count', cur', kind');
      NextTokenScanned(t0, p', reading, replaceCall);
    }

    ghost method StartGhosts()
      modifies this`ends, this`separators, this`edits, this`echoes, this`statements, this`heads
      ensures ends == [] && separators == [] && edits == map[] && echoes == [] && statements == [] && heads == []
    {
      ends, separators, edits, echoes, statements, heads := [], [], map[], [], [], [];
    }

    /** Nothing is found yet. */
    method Start(ghost replaceCall: bool)
      modifies this
      ensures text == old(text) && Scanning(text, 0, false, 0, 0, NoResult, replaceCall)
    {
      hide *;
      tokens, params, subQueries, hasParameters, queryType, returnsResult := [], [], [], false, NoResult, false;
      StartGhosts();
      ScanStart(text, replaceCall);
    }

    /** One round of the scanner's loop. */
    method Step(ghost t0: string, p: nat, reading: bool, count: nat, cur: nat, kind: QueryType, replaceCall: bool)
      returns (p': nat, reading': bool, count': nat, cur': nat, kind': QueryType)
      requires p < |text| == |t0| && Scanning(t0, p, reading, count, cur, kind, replaceCall)
      modifies this
      ensures |text| == |t0| && Scanning(t0, p', reading', count', cur', kind', replaceCall)
      ensures p < p' || (p == p' && reading && !reading')
    {
      hide Found, Counted, TokensOk, Scanned, Kinds;
      if !reading {
        p', reading', count', cur', kind' := NextToken(t0, p, replaceCall, count, cur, kind);
      } else {
        count', cur', kind' := count, cur, kind;
        p', reading' := InToken(t0, p, replaceCall);
      }
    }

    /** ParseQuery */
    method ParseQuery(replaceCall: bool)
      requires forall k :: 0 <= k < |text| ==> text[k] != NUL
      modifies this
      ensures Parsed(old(text), replaceCall)
    {
      hide *;
      ghost var t0 := text;
      Start(replaceCall);
      var p: nat, reading, count: nat, cur: nat, kind := 0, false, 0, 0, NoResult;
      while p < |text|
        invariant Scanning(t0, p, reading, count, cur, kind, replaceCall) && |text| == |t0|
        decreases |text| - p, reading
      {
        p, reading, count, cur, kind := Step(t0, p, reading, count, cur, kind, replaceCall);
      }
      Finish(t0, p, reading, count, cur, kind, replaceCall);
    }
  }

  // ---------------------------------------------------------------------------------
  // What the offsets found are worth
  // ---------------------------------------------------------------------------------

  /** The offsets found increase, and are exactly the occurrences outside comments and strings. */
  lemma {:induction false} OffsetsArePlaces(t: string, c: char, i: nat)
    ensures Increasing(PlainOffsets(t, c, i))
    ensures forall x :: x in PlainOffsets(t, c, i) ==>
              i <= x < |t| && t[x] == c && !InComment(t, i, x) && !InString(t, i, x)
    ensures forall x :: i <= x < |t| && t[x] == c && !InComment(t, i, x) && !InString(t, i, x) ==>
              x in PlainOffsets(t, c, i)
    decreases |t| - i
  {
    if i < |t| {
      var e := ElementEnd(t, i);
      OffsetsArePlaces(t, c, e);
      var rest, all := PlainOffsets(t, c, e), PlainOffsets(t, c, i);
      hide PlainOffsets, ElementEnd;
      assert all == if PlainAt(t, i) && t[i] == c then [i] + rest else rest;
      assert forall x :: x in all <==> (PlainAt(t, i) && t[i] == c && x == i) || x in rest;
      forall a, b | 0 <= a < b < |all|
        ensures all[a] < all[b]
      {
        if all != rest {
          assert all[b] == rest[b - 1] && rest[b - 1] in rest;
          assert a > 0 ==> all[a] == rest[a - 1];
        }
      }
    }
  }

  lemma CallLetter(t: string, e: nat, k: nat)
    requires WordAt(t, e, CALL) && k < 4
    ensures IsLetter(t[e + k])
  {
    assert Upper(t[e + k]) == CALL[k];
  }

  /** In the finished buffer, the NULs are exactly the separators, and a marker is still a ? */
  lemma FinishedBuffer(t0: string, text: string, edits: map<int, char>, separators: seq<int>, echoes: seq<int>, k: nat)
    requires BufferIs(t0, text, |text|, edits) && EditsOk(t0, edits, separators, echoes)
    requires k < |text| && t0[k] != NUL
    ensures text[k] == NUL <==> k in separators
    ensures k in PlainOffsets(t0, '?', 0) ==> text[k] == '?'
  {
    hide PlainOffsets, InComment;
    OffsetsArePlaces(t0, '?', 0);
    if k in edits && k !in separators {
      var e :| e in echoes && e <= k < e + 4;
      assert edits[k] == ECHO[k - e];
      CallLetter(t0, e, k - e);
    }
  }

  lemma {:induction false} CallsAre(t: string, tokens: seq<int>, ends: seq<int>)
    ensures forall m :: LeadingCall(t, tokens, ends, m) ==> tokens[m] in Calls(t, tokens, ends)
    ensures forall x :: x in Calls(t, tokens, ends) ==> exists m :: LeadingCall(t, tokens, ends, m) && tokens[m] == x
  {
    if tokens != [] {
      var k := |tokens| - 1;
      var front := tokens[..k];
      CallsAre(t, front, ends);
      assert forall m :: 0 <= m < k ==> (LeadingCall(t, front, ends, m) <==> LeadingCall(t, tokens, ends, m));
      forall x | x in Calls(t, tokens, ends)
        ensures exists m :: LeadingCall(t, tokens, ends, m) && tokens[m] == x
      {
        if x in Calls(t, front, ends) {
          var m :| LeadingCall(t, front, ends, m) && front[m] == x;
          assert LeadingCall(t, tokens, ends, m);
        }
      }
    }
  }

  /**
  Every character of the finished buffer: NUL on a separator, ECHO over a CALL that begins
  a statement if calls are to be replaced, a blank in a comment, and otherwise the text's.
  */
  lemma Overwritten(q: Query, t0: string, replaceCall: bool, k: nat)
    requires q.Parsed(t0, replaceCall) && k < |t0|
    ensures k in q.separators ==> q.text[k] == NUL
    ensures forall m :: replaceCall && LeadingCall(t0, q.tokens, q.ends, m) && q.tokens[m] <= k < q.tokens[m] + 4 ==>
              q.text[k] == ECHO[k - q.tokens[m]]
    ensures k !in q.separators && (!replaceCall || forall m :: LeadingCall(t0, q.tokens, q.ends, m) ==>
              !(q.tokens[m] <= k < q.tokens[m] + 4)) ==>
              q.text[k] == if InComment(t0, 0, k) then ' ' else t0[k]
  {
    hide PlainOffsets, TokenOffsets, TokensOk, StatementSizes, Calls, LeadingCall, Sum, AtLeastTwo, SkipEnd, WordAt;
    hide HeadsOk;
    CallsAre(t0, q.tokens, q.ends);
  }

  lemma {:induction false} AllAtLeastTwo(s: seq<int>)
    ensures AtLeastTwo(s) == |s| <==> forall i :: 0 <= i < |s| ==> s[i] >= 2
  {
    if s != [] {
      var k := |s| - 1;
      AllAtLeastTwo(s[..k]);
      CountsAreNatural(s[..k]);
      assert forall i :: 0 <= i < k ==> s[..k][i] == s[i];
    }
  }

  /** The i-th statement of the text: how many of its tokens lie behind the separator before it. */
  ghost function SizeOf(q: Query, t0: string, i: nat): nat
    requires i <= |q.ends|
    reads q
  {
    TokensIn(TokenOffsets(t0, 0, false), EndBefore(q.ends, i), if i < |q.ends| then q.ends[i] else |t0|)
  }

  /** Nothing stands behind the last semicolon, so what is behind it is no statement. */
  ghost predicate NothingBehind(q: Query, t0: string, i: nat)
    reads q
  {
    i == |q.ends| && EndBefore(q.ends, i) == |t0| - 1
  }

  /** No token stands behind a semicolon that ends the text. */
  lemma {:induction false} TokensEnd(t: string, i: nat, reading: bool)
    requires t != [] && t[|t| - 1] == ';' && |t| - 1 in TokenOffsets(t, i, reading)
    ensures forall x :: x in TokenOffsets(t, i, reading) ==> x < |t|
    decreases |t| - i, if reading then 2 else 1
  {
    hide SkipEnd;
    if i < |t| {
      if !reading {
        var q := SkipEnd(t, i);
        assert |t| - 1 in [q] + AfterToken(t, q);
        TokensEndBehind(t, q);
      } else if BreaksToken(t[i]) {
        TokensEnd(t, i, false);
      } else {
        TokensEnd(t, i + 1, true);
      }
    }
  }

  lemma {:induction false} TokensEndBehind(t: string, q: nat)
    requires t != [] && t[|t| - 1] == ';' && q <= |t| && |t| - 1 in [q] + AfterToken(t, q)
    ensures forall x :: x in [q] + AfterToken(t, q) ==> x < |t|
    decreases |t| - q, 0
  {
    hide SkipEnd;
    if q < |t| - 1 {
      if IsQuote(t[q]) {
        var k := QuoteClose(t, t[q], q + 1);
        if k < |t| {
          TokensEnd(t, k + 1, true);
        } else {
          TokensEnd(t, q + 2, false);
        }
      } else {
        TokensEnd(t, q + 1, t[q] != '?' && t[q] != ';');
      }
    }
  }

  lemma {:induction false} NoneIn(tokens: seq<int>, n: int)
    requires forall x :: x in tokens ==> x < n
    ensures TokensIn(tokens, n - 1, n) == 0
  {
    if tokens != [] {
      var k := |tokens| - 1;
      assert tokens[k] in tokens && forall x :: x in tokens[..k] ==> x in tokens;
      NoneIn(tokens[..k], n);
    }
  }

  /** Then the last statement has no tokens. */
  lemma NothingHasNoTokens(q: Query, t0: string, replaceCall: bool)
    requires q.Parsed(t0, replaceCall) && NothingBehind(q, t0, |q.ends|)
    ensures SizeOf(q, t0, |q.ends|) == 0
  {
    hide TokenOffsets, TokensOk, Calls, BufferIs, EditsOk, Sum, AtLeastTwo, SkipEnd, TokensIn, StatementSizes, HeadsOk;
    hide PlainOffsets;
    if t0 == [] {
      NoTokensBehind(t0, 0, false);
    } else {
      var last := q.ends[|q.ends| - 1];
      OffsetsArePlaces(t0, ';', 0);
      assert last == PlainOffsets(t0, ';', 0)[|q.ends| - 1];
      assert last in q.ends;
      TokensEnd(t0, 0, false);
    }
    NoneIn(q.tokens, |t0|);
  }

  lemma {:induction false} AllButLast(s: seq<int>)
    requires s != [] && s[|s| - 1] == 0
    ensures AtLeastTwo(s) <= |s| - 1
    ensures AtLeastTwo(s) == |s| - 1 <==> forall i :: 0 <= i < |s| - 1 ==> s[i] >= 2
  {
    var front := s[..|s| - 1];
    AllAtLeastTwo(front);
    CountsAreNatural(front);
    assert forall i :: 0 <= i < |front| ==> front[i] == s[i];
  }

  /**
  A statement that has fewer than two tokens is not entered as a sub-query: there are as
  many sub-queries as the semicolons cut out statements if and only if each has two.
  */
  lemma EveryStatementCounted(q: Query, t0: string, replaceCall: bool)
    requires q.Parsed(t0, replaceCall)
    ensures |q.subQueries| <= |q.ends| + 1
    ensures NothingBehind(q, t0, |q.ends|) ==> |q.subQueries| <= |q.ends|
    ensures |q.subQueries| >= |q.ends| + (if NothingBehind(q, t0, |q.ends|) then 0 else 1) <==>
              forall i :: 0 <= i <= |q.ends| ==> SizeOf(q, t0, i) >= 2 || NothingBehind(q, t0, i)
  {
    hide PlainOffsets, TokenOffsets, TokensOk, Calls, BufferIs, EditsOk, Sum, AtLeastTwo, SkipEnd, TokensIn, EndBefore;
    hide HeadsOk;
    AllAtLeastTwo(q.statements);
    CountsAreNatural(q.statements);
    assert forall i :: 0 <= i <= |q.ends| ==> q.statements[i] == SizeOf(q, t0, i);
    if NothingBehind(q, t0, |q.ends|) {
      NothingHasNoTokens(q, t0, replaceCall);
      AllButLast(q.statements);
    }
  }
}
