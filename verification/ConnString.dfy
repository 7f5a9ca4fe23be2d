/**
Connection strings: MADB_ParseConnString, which reads key=value pairs into a data source,
and MADB_DsnToString, which prints one (ma_dsn.c). The delimiter is the semicolon.
*/
module ConnString {
  import opened CString
  import opened DsnKeys
  import opened Dsn

  // ---------------------------------------------------------------------------------
  // What a connection string says
  // ---------------------------------------------------------------------------------

  /** A value, and where the next key begins; beyond the text there is none. */
  datatype Reading = Reading(value: string, next: nat)

  /** A value in braces, from behind the opening one; two closing braces stand for one. */
  function Unbrace(s: string, from: nat): (r: Reading)
    requires from <= |s|
    ensures from < r.next
    decreases |s| - from
  {
    var p := StrChr(s, '}', from);
    if p == |s| then Reading("", |s| + 1)
    else if p + 1 < |s| && s[p + 1] == '}' then
      var rest := Unbrace(s, p + 2);
      Reading(s[from..p] + "}" + rest.value, rest.next)
    else Reading(s[from..p], p + 2)
  }

  function ReadValue(s: string, from: nat): (r: Reading)
    requires from <= |s|
    ensures from < r.next
  {
    var q := Blanks(s, from);
    if q < |s| && s[q] == '{' then Unbrace(s, q + 1)
    else
      var p := StrChr(s, ';', q);
      Reading(s[q..p], p + 1)
  }

  /** The pairs in a connection string, and whether every key is followed by an equals sign. */
  datatype Scanned = Scanned(pairs: seq<Pair>, ok: bool)

  ghost function Scan(s: string, k: nat): (r: Scanned)
    ensures Proper(r.pairs)
    decreases |s| - k
  {
    hide KeyAt, MainKey, KeyNamed, Trim, StrChr, ReadValue;
    if k >= |s| then Scanned([], true)
    else if s[k] == ';' then Scan(s, k + 1)
    else
      var e := StrChr(s, '=', k);
      if e == |s| then Scanned([], false)
      else
        var i := KeyNamed(Trim(s[k..e]));
        if i == COUNT then Scan(s, StrChr(s, ';', e + 1) + 1)
        else
          var v := ReadValue(s, e + 1);
          var rest := Scan(s, v.next);
          Scanned([Pair(MainKey(i), Trim(v.value))] + rest.pairs, rest.ok)
  }

  // ---------------------------------------------------------------------------------
  // The parser
  // ---------------------------------------------------------------------------------

  lemma UnbraceStep(s: string, from: nat)
    requires from <= |s|
    ensures var p := StrChr(s, '}', from);
            && (p == |s| ==> Unbrace(s, from) == Reading("", |s| + 1))
            && (p + 1 < |s| && s[p + 1] == '}' ==>
                  Unbrace(s, from) == Reading(s[from..p] + "}" + Unbrace(s, p + 2).value, Unbrace(s, p + 2).next))
            && (p < |s| && !(p + 1 < |s| && s[p + 1] == '}') ==> Unbrace(s, from) == Reading(s[from..p], p + 2))
  {
  }

  /** The loop that copies a braced value. */
  method CopyBraced(s: string, from: nat) returns (r: Reading)
    requires from <= |s|
    ensures r == Unbrace(s, from)
  {
    hide Unbrace, StrChr;
    var buffer, prev := "", from;
    while true
      invariant from <= prev <= |s|
      invariant Unbrace(s, from) == Reading(buffer + Unbrace(s, prev).value, Unbrace(s, prev).next)
      decreases |s| - prev
    {
      var p := StrChr(s, '}', prev);
      UnbraceStep(s, prev);
      if p == |s| {
        return Reading(buffer, |s| + 1);
      }
      buffer := buffer + s[prev..p];
      if p + 1 < |s| && s[p + 1] == '}' {
        buffer := buffer + "}";
        prev := p + 2;
      } else {
        return Reading(buffer, p + 2);
      }
    }
  }

  /** The value at `from`: what the parser cuts out of its buffer. */
  method TakeValue(s: string, from: nat) returns (r: Reading)
    requires from <= |s|
    ensures r == ReadValue(s, from)
  {
    var q := Blanks(s, from);
    if q < |s| && s[q] == '{' {
      r := CopyBraced(s, q + 1);
    } else {
      var p := StrChr(s, ';', q);
      r := Reading(s[q..p], p + 1);
    }
  }

  ghost predicate Applied(st: State, done: seq<Pair>, now: State) {
    Sized(st) && Proper(done) && now == Apply(st, done)
  }

  lemma ApplyMore(st: State, done: seq<Pair>, p: Pair)
    requires Sized(st) && Proper(done) && p.key < COUNT && KeyAt(p.key).Key?
    ensures Proper(done + [p]) && Apply(st, done + [p]) == Assign(Apply(st, done), p.key, p.value)
  {
    assert (done + [p])[..|done|] == done;
  }

  /** One pair goes into the data source. */
  method StorePair(dsn: DataSource, i: nat, value: string, ghost st: State, ghost done: seq<Pair>)
    requires dsn.Valid() && i < COUNT && KeyAt(i).Key? && Applied(st, done, dsn.View())
    modifies dsn
    ensures dsn.Valid() && Applied(st, done + [Pair(i, value)], dsn.View())
  {
    hide KeyAt, Store, Refresh;
    ghost var before := dsn.View();
    var _ := dsn.StoreValue(i, value);
    if i == OPTIONS_KEY {
      dsn.UpdateOptionsFields();
    }
    assert dsn.View() == Assign(before, i, value);
    ApplyMore(st, done, Pair(i, value));
  }

  lemma AllApplied(st: State, done: seq<Pair>, now: State)
    requires Applied(st, done, now)
    ensures Sized(st) && Proper(done) && now == Apply(st, done)
  {
  }

  /** Pairs `done` come first, those from `key` on are still to come. */
  ghost predicate Ahead(s: string, done: seq<Pair>, key: nat) {
    Proper(done) && Scan(s, 0) == Scanned(done + Scan(s, key).pairs, Scan(s, key).ok)
  }

  lemma NothingDone(st: State, s: string)
    requires Sized(st)
    ensures Ahead(s, [], 0) && Applied(st, [], st)
  {
    assert [] + Scan(s, 0).pairs == Scan(s, 0).pairs;
  }

  lemma SkipDelimiter(s: string, done: seq<Pair>, key: nat)
    requires Ahead(s, done, key) && key < |s| && s[key] == ';'
    ensures Ahead(s, done, key + 1)
  {
  }

  lemma NoEquals(s: string, done: seq<Pair>, key: nat)
    requires Ahead(s, done, key) && key < |s| && s[key] != ';' && StrChr(s, '=', key) == |s|
    ensures Scan(s, 0) == Scanned(done, false)
  {
    assert done + [] == done;
  }

  lemma SkipUnknown(s: string, done: seq<Pair>, key: nat, e: nat, i: nat)
    requires Ahead(s, done, key) && key < |s| && s[key] != ';' && e == StrChr(s, '=', key) < |s|
    requires IsKey(Trim(s[key..e]), i) && i == COUNT
    ensures Ahead(s, done, StrChr(s, ';', e + 1) + 1)
  {
    hide KeyAt, SameName, IsKey, Trim;
    KeyIsUnique(Trim(s[key..e]), i);
  }

  lemma ScanKnown(s: string, key: nat, e: nat, i: nat)
    requires key < |s| && s[key] != ';' && e == StrChr(s, '=', key) < |s|
    requires IsKey(Trim(s[key..e]), i) && i < COUNT
    ensures var v := ReadValue(s, e + 1);
            Scan(s, key)
            == Scanned([Pair(MainKey(i), Trim(v.value))] + Scan(s, v.next).pairs, Scan(s, v.next).ok)
  {
    hide KeyAt, SameName, IsKey, Trim, ReadValue, MainKey, Proper;
    KeyIsUnique(Trim(s[key..e]), i);
  }

  lemma OnePair(s: string, done: seq<Pair>, key: nat, e: nat, i: nat)
    requires Ahead(s, done, key) && key < |s| && s[key] != ';' && e == StrChr(s, '=', key) < |s|
    requires IsKey(Trim(s[key..e]), i) && i < COUNT
    ensures var v := ReadValue(s, e + 1);
            Ahead(s, done + [Pair(MainKey(i), Trim(v.value))], v.next)
  {
    hide KeyAt, IsKey, Trim, ReadValue, Scan, StrChr, MainKey;
    ScanKnown(s, key, e, i);
    var v := ReadValue(s, e + 1);
    var p := Pair(MainKey(i), Trim(v.value));
    assert done + ([p] + Scan(s, v.next).pairs) == (done + [p]) + Scan(s, v.next).pairs;
  }

  lemma AllDone(s: string, done: seq<Pair>, key: nat)
    requires Ahead(s, done, key) && key >= |s|
    ensures Scan(s, 0) == Scanned(done, true)
  {
    assert done + [] == done;
  }

  /** MADB_ParseConnString */
  method ParseConnString(dsn: DataSource, s: string) returns (ok: bool)
    requires dsn.Valid()
    modifies dsn
    ensures dsn.Valid() && ok == Scan(s, 0).ok
    ensures dsn.View() == Apply(old(dsn.View()), Scan(s, 0).pairs)
  {
    hide *;
    ok := true;
    var key := 0;
    ghost var done: seq<Pair>, st := [], dsn.View();
    NothingDone(st, s);
    while key < |s|
      invariant dsn.Valid() && Ahead(s, done, key) && Applied(st, done, dsn.View())
      decreases |s| - key
    {
      if s[key] == ';' {
        SkipDelimiter(s, done, key);
        key := key + 1;
        continue;
      }
      var e := StrChr(s, '=', key);
      if e == |s| {
        NoEquals(s, done, key);
        AllApplied(st, done, dsn.View());
        return false;
      }
      var i := FindKey(Trim(s[key..e]));
      if i == COUNT {
        SkipUnknown(s, done, key, e, i);
        key := StrChr(s, ';', e + 1) + 1;
      } else {
        var v := TakeValue(s, e + 1);
        OnePair(s, done, key, e, i);
        StorePair(dsn, MainKey(i), Trim(v.value), st, done);
        done := done + [Pair(MainKey(i), Trim(v.value))];
        key := v.next;
      }
    }
    AllDone(s, done, key);
    AllApplied(st, done, dsn.View());
  }

  // ---------------------------------------------------------------------------------
  // The printer
  // ---------------------------------------------------------------------------------

  function Digits(n: nat): (t: string)
    ensures t != "" && forall k :: 0 <= k < |t| ==> IsDigit(t[k])
  {
    (if n < 10 then "" else Digits(n / 10)) + [DigitChar(n % 10)]
  }

  /** %d of a 32-bit word */
  function Signed(n: int): string
    requires 0 <= n < WORD
  {
    if n < WORD / 2 then Digits(n) else "-" + Digits(WORD - n)
  }

  /** %hu of a char widened to short */
  function Widened(b: int): string
    requires 0 <= b < 256
  {
    Digits(if b < 128 then b else 65280 + b)
  }

  /** Numbers fit their fields. */
  ghost predicate Fits(st: State) {
    && Sized(st)
    && forall i :: 0 <= i < COUNT && KeyAt(i).Key? ==>
         && (KeyAt(i).kind.Number? ==> 0 <= st.nums[i] < WORD)
         && (KeyAt(i).kind.Group? ==> 0 <= st.nums[i] < 256)
  }

  /** What the field of key `i` reads like; empty fields are not printed. */
  function FieldText(st: State, i: nat): string
    requires Fits(st) && i < COUNT
  {
    match KeyAt(i)
    case Alias(_, _) => ""
    case Key(_, Text) => st.texts[i]
    case Key(_, Number) =>
      var n := if i == OPTIONS_KEY then st.options as int else st.nums[i];
      if n == 0 then "" else Signed(n)
    case Key(_, Flag) => if st.nums[i] == 0 then "" else "1"
    case Key(_, Group) => if st.nums[i] == 0 then "" else Widened(st.nums[i])
    case Key(_, Option(_)) => ""
  }

  predicate Special(v: string) { ' ' in v || ';' in v || '@' in v }

  function Quote(v: string): string { if Special(v) then "{" + v + "}" else v }

  function Entry(i: nat, v: string): string
    requires i < COUNT
  {
    KeyAt(i).name + "=" + Quote(v)
  }

  /** The entries from key `i` on, a semicolon in front of each. */
  ghost function Rest(st: State, i: nat): string
    requires Fits(st) && i <= COUNT
    decreases COUNT - i
  {
    if i == COUNT then ""
    else if FieldText(st, i) == "" then Rest(st, i + 1)
    else ";" + Entry(i, FieldText(st, i)) + Rest(st, i + 1)
  }

  ghost function Printed(st: State): string
    requires Fits(st)
  {
    if Rest(st, 0) == "" then "" else Rest(st, 0)[1..]
  }

  /** `out` holds the entries of the keys before `i`. */
  ghost predicate Printing(st: State, i: nat, out: string)
    requires Fits(st) && i <= COUNT
  {
    Rest(st, 0) == (if out == "" then "" else ";" + out) + Rest(st, i)
  }

  lemma PrintNone(st: State)
    requires Fits(st)
    ensures Printing(st, 0, "")
  {
    hide KeyAt, FieldText, Fits;
  }

  lemma RestAt(st: State, i: nat)
    requires Fits(st) && i < COUNT && FieldText(st, i) != ""
    ensures Rest(st, i) == ";" + Entry(i, FieldText(st, i)) + Rest(st, i + 1)
  {
    hide KeyAt, FieldText, Fits, Entry;
  }

  lemma Regroup(out: string, entry: string, rest: string)
    ensures (if out == "" then "" else ";" + out) + (";" + entry + rest)
            == ";" + (out + (if out == "" then "" else ";") + entry) + rest
  {
  }

  lemma EntryNotEmpty(i: nat, v: string)
    requires i < COUNT
    ensures Entry(i, v) != ""
  {
    hide KeyAt;
  }

  lemma PrintOne(st: State, i: nat, out: string)
    requires Fits(st) && i < COUNT && Printing(st, i, out)
    ensures var v := FieldText(st, i);
            Printing(st, i + 1, if v == "" then out else out + (if out == "" then "" else ";") + Entry(i, v))
  {
    hide KeyAt, FieldText, Fits, Entry;
    var v := FieldText(st, i);
    if v != "" {
      EntryNotEmpty(i, v);
      RestAt(st, i);
      Regroup(out, Entry(i, v), Rest(st, i + 1));
    }
  }

  lemma PrintAll(st: State, out: string)
    requires Fits(st) && Printing(st, COUNT, out)
    ensures out == Printed(st)
  {
    hide KeyAt, FieldText, Fits, Entry;
  }

  /** MADB_DsnToString */
  method DsnToString(dsn: DataSource) returns (out: string)
    requires dsn.Valid() && Fits(dsn.View())
    ensures out == Printed(dsn.View())
  {
    hide KeyAt, FieldText, Entry, Fits, Printing, Printed, Rest;
    ghost var st := dsn.View();
    out := "";
    var i := 0;
    PrintNone(st);
    while i < COUNT
      invariant i <= COUNT && Printing(st, i, out)
    {
      var value := FieldText(State(dsn.texts, dsn.nums, dsn.options), i);
      PrintOne(st, i, out);
      if value != "" {
        out := out + (if out == "" then "" else ";") + Entry(i, value);
      }
      i := i + 1;
    }
    PrintAll(st, out);
  }

  // ---------------------------------------------------------------------------------
  // Quoting
  // ---------------------------------------------------------------------------------

  predicate Trimmed(v: string) { v == "" || (!IsSpace(v[0]) && !IsSpace(v[|v| - 1])) }

  /** A value the parser reads back as it was printed. */
  predicate Quotable(v: string) {
    Trimmed(v) && (v == "" || if Special(v) then '}' !in v else v[0] != '{')
  }

  lemma TrimmedStays(v: string)
    requires Trimmed(v)
    ensures Trim(v) == v
  {
  }

  lemma TrimTrims(v: string)
    ensures Trimmed(Trim(v)) && |Trim(v)| <= |v|
  {
    var t := LTrim(v);
    var u := RTrim(t);
    if u != "" {
      assert u[0] == t[0];
    }
  }

  lemma StrChrIs(s: string, c: char, from: nat, k: nat)
    requires from <= k <= |s| && (k < |s| ==> s[k] == c) && forall i :: from <= i < k ==> s[i] != c
    ensures StrChr(s, c, from) == k
  {
  }

  lemma BlanksNone(s: string, from: nat)
    requires from <= |s| && (from < |s| ==> !IsSpace(s[from]))
    ensures Blanks(s, from) == from
  {
  }

  lemma SliceOfSlice(s: string, a: nat, b: nat, c: nat, d: nat)
    requires a <= b <= |s| && c <= d <= b - a
    ensures s[a..b][c..d] == s[a + c..a + d]
  {
    var t := s[a..b];
    forall i | 0 <= i < d - c
      ensures t[c..d][i] == s[a + c..a + d][i]
    {
      assert t[c..d][i] == t[c + i] == s[a + c + i];
    }
  }

  lemma ReadsBraced(s: string, from: nat, v: string)
    requires '}' !in v && from + |v| + 2 <= |s| && s[from] == '{' && s[from + |v| + 1] == '}'
    requires s[from + 1..from + 1 + |v|] == v
    requires from + |v| + 2 < |s| ==> s[from + |v| + 2] == ';'
    ensures ReadValue(s, from) == Reading(v, from + |v| + 3)
  {
    hide StrChr, Blanks;
    BlanksNone(s, from);
    forall i | from + 1 <= i < from + 1 + |v|
      ensures s[i] != '}'
    {
      assert s[i] == s[from + 1..from + 1 + |v|][i - from - 1];
    }
    StrChrIs(s, '}', from + 1, from + |v| + 1);
  }

  lemma ReadsPlain(s: string, from: nat, v: string)
    requires v != "" && ';' !in v && v[0] != '{' && !IsSpace(v[0])
    requires from + |v| <= |s| && s[from..from + |v|] == v && (from + |v| < |s| ==> s[from + |v|] == ';')
    ensures ReadValue(s, from) == Reading(v, from + |v| + 1)
  {
    hide StrChr, Blanks, Unbrace;
    assert forall i :: from <= i < from + |v| ==> s[i] == s[from..from + |v|][i - from];
    BlanksNone(s, from);
    StrChrIs(s, ';', from, from + |v|);
  }

  /** A quotable value, printed and followed by a semicolon or nothing, is read back. */
  lemma ReadsQuoted(s: string, from: nat, v: string)
    requires Quotable(v) && v != "" && from + |Quote(v)| <= |s| && s[from..from + |Quote(v)|] == Quote(v)
    requires from + |Quote(v)| < |s| ==> s[from + |Quote(v)|] == ';'
    ensures ReadValue(s, from) == Reading(v, from + |Quote(v)| + 1)
  {
    hide ReadValue, StrChr, Blanks, Unbrace;
    if Special(v) {
      var q := Quote(v);
      assert q[0] == '{' && q[|v| + 1] == '}' && q[1..|v| + 1] == v;
      assert s[from] == s[from..from + |q|][0] && s[from + |v| + 1] == s[from..from + |q|][|v| + 1];
      SliceOfSlice(s, from, from + |q|, 1, |v| + 1);
      ReadsBraced(s, from, v);
    } else {
      ReadsPlain(s, from, v);
    }
  }

  /** Every doubled brace makes the value read shorter than the text it was read from. */
  lemma {:induction false} UnbracedLength(s: string, from: nat)
    requires from <= |s| && Unbrace(s, from).next <= |s|
    ensures var r := Unbrace(s, from);
            && from + 2 <= r.next
            && |r.value| <= r.next - 2 - from
            && (|r.value| == r.next - 2 - from ==> forall i :: from <= i < r.next - 2 ==> s[i] != '}')
    decreases |s| - from
  {
    var p := StrChr(s, '}', from);
    if p + 1 < |s| && s[p + 1] == '}' {
      UnbracedLength(s, p + 2);
    }
  }

  /** Is a printed value read back, up to the semicolon behind it? */
  ghost predicate ReadsBack(v: string, rest: string) {
    var r := ReadValue(Quote(v) + rest, 0);
    Trim(r.value) == v && r.next == |Quote(v)| + 1
  }

  lemma NotReadBack(v: string, rest: string)
    requires v != "" && rest != "" && rest[0] == ';' && Trimmed(v) && !Quotable(v)
    ensures !ReadsBack(v, rest)
  {
    hide Unbrace, Blanks, StrChr, Trim;
    var s := Quote(v) + rest;
    assert s[0] == '{';
    BlanksNone(s, 0);
    var r := Unbrace(s, 1);
    if r.next == |Quote(v)| + 1 {
      UnbracedLength(s, 1);
      TrimTrims(r.value);
      if Special(v) {
        var i :| 0 <= i < |v| && v[i] == '}';
        assert s[1 + i] == '}';
      }
    }
  }

  /** A value in front of another entry is read back exactly when it is quotable. */
  lemma ReadsBackIff(v: string, rest: string)
    requires v != "" && rest != "" && rest[0] == ';'
    ensures ReadsBack(v, rest) <==> Quotable(v)
  {
    var s := Quote(v) + rest;
    if Quotable(v) {
      ReadsQuoted(s, 0, v);
      TrimmedStays(v);
    } else if Trimmed(v) {
      NotReadBack(v, rest);
    } else {
      TrimTrims(ReadValue(s, 0).value);
    }
  }

  // ---------------------------------------------------------------------------------
  // Printed entries are scanned back
  // ---------------------------------------------------------------------------------

  lemma FieldIsMain(st: State, i: nat)
    requires Fits(st) && i < COUNT && FieldText(st, i) != ""
    ensures KeyAt(i).Key? && MainKey(i) == i
  {
  }

  ghost function Entries(st: State, i: nat): (pairs: seq<Pair>)
    requires Fits(st) && i <= COUNT
    ensures Proper(pairs)
    decreases COUNT - i
  {
    hide FieldText;
    if i == COUNT then []
    else if FieldText(st, i) == "" then Entries(st, i + 1)
    else
      FieldIsMain(st, i);
      [Pair(i, FieldText(st, i))] + Entries(st, i + 1)
  }

  /** The text from `k` on begins with this entry, and nothing or a semicolon follows. */
  ghost predicate EntryAt(s: string, k: nat, i: nat, v: string)
    requires i < COUNT
  {
    var e := Entry(i, v);
    && k + |e| <= |s| && s[k..k + |e|] == e
    && (k + |e| < |s| ==> s[k + |e|] == ';')
  }

  lemma NameAt(s: string, k: nat, i: nat, v: string)
    requires i < COUNT && EntryAt(s, k, i, v)
    ensures var e := k + |KeyAt(i).name|;
            && k < e < |s| && s[k] != ';' && s[e] == '='
            && s[k..e] == KeyAt(i).name && StrChr(s, '=', k) == e
            && e + 1 + |Quote(v)| <= |s| && s[e + 1..e + 1 + |Quote(v)|] == Quote(v)
            && k + |Entry(i, v)| == e + 1 + |Quote(v)|
  {
    hide KeyAt, Quote, StrChr;
    NamesArePlain(i);
    var name, q := KeyAt(i).name, Quote(v);
    var t := Entry(i, v);
    var e := k + |name|;
    assert t[..|name|] == name && t[|name|] == '=' && t[|name| + 1..|t|] == q;
    SliceOfSlice(s, k, k + |t|, 0, |name|);
    SliceOfSlice(s, k, k + |t|, |name| + 1, |t|);
    assert s[e] == s[k..k + |t|][|name|];
    assert forall x :: k <= x < e ==> s[x] == s[k..e][x - k] && NameChar(s[x]);
    StrChrIs(s, '=', k, e);
  }

  lemma PlainIsTrimmed(name: string)
    requires NameChars(name)
    ensures Trimmed(name)
  {
    assert name != "" ==> NameChar(name[0]) && NameChar(name[|name| - 1]);
  }

  lemma SameAsItself(name: string)
    ensures SameName(name, name)
  {
  }

  lemma PlainNameTrims(i: nat)
    requires i < COUNT
    ensures Trim(KeyAt(i).name) == KeyAt(i).name && IsKey(KeyAt(i).name, i)
  {
    hide KeyAt, Trim, NameChars, Trimmed, SameName;
    NamesArePlain(i);
    PlainIsTrimmed(KeyAt(i).name);
    TrimmedStays(KeyAt(i).name);
    SameAsItself(KeyAt(i).name);
  }

  lemma QuotableTrims(v: string)
    requires Quotable(v)
    ensures Trim(v) == v
  {
    TrimmedStays(v);
  }

  lemma EntryEnds(s: string, k: nat, i: nat, v: string)
    requires i < COUNT && EntryAt(s, k, i, v)
    ensures k + |Entry(i, v)| < |s| ==> s[k + |Entry(i, v)|] == ';'
  {
  }

  /** One printed entry is scanned as one pair. */
  lemma ScanEntry(s: string, k: nat, i: nat, v: string)
    requires i < COUNT && MainKey(i) == i && EntryAt(s, k, i, v) && v != "" && Quotable(v)
    ensures var r := Scan(s, k + |Entry(i, v)| + 1);
            Scan(s, k) == Scanned([Pair(i, v)] + r.pairs, r.ok)
  {
    hide KeyAt, Quote, Quotable, Scan, StrChr, Trim, ReadValue, IsKey, EntryAt, Entry;
    NameAt(s, k, i, v);
    PlainNameTrims(i);
    var e := k + |KeyAt(i).name|;
    EntryEnds(s, k, i, v);
    ReadsQuoted(s, e + 1, v);
    QuotableTrims(v);
    ScanKnown(s, k, e, i);
  }

  /** Values the parser reads back. */
  ghost predicate AllQuotable(st: State)
    requires Fits(st)
  {
    forall i :: 0 <= i < COUNT ==> Quotable(FieldText(st, i))
  }

  lemma {:induction false} ScanRest(st: State, i: nat, s: string, k: nat)
    requires Fits(st) && AllQuotable(st) && i <= COUNT && k <= |s| && s[k..] == Rest(st, i)
    ensures Scan(s, k) == Scanned(Entries(st, i), true)
    ensures k < |s| ==> s[k] == ';' && Scan(s, k) == Scan(s, k + 1)
    decreases COUNT - i
  {
    hide KeyAt, FieldText, Fits, Entry, Quotable, Trim, ReadValue, StrChr;
    if i < COUNT && FieldText(st, i) == "" {
      ScanRest(st, i + 1, s, k);
    } else if i < COUNT {
      RestAt(st, i);
      ScanHead(st, i, s, k + 1);
    }
  }

  lemma ScanBehind(s: string, k: nat)
    requires k >= |s|
    ensures Scan(s, k) == Scan(s, k + 1)
  {
  }

  lemma SplitSuffix(s: string, k: nat, a: string, b: string)
    requires k <= |s| && s[k..] == a + b
    ensures k + |a| <= |s| && s[k..k + |a|] == a && s[k + |a|..] == b
  {
    assert |s| - k == |a| + |b|;
    assert s[k..k + |a|] == s[k..][..|a|];
    assert s[k + |a|..] == s[k..][|a|..];
  }

  lemma {:induction false} RestStarts(st: State, i: nat)
    requires Fits(st) && i <= COUNT
    ensures Rest(st, i) == "" || Rest(st, i)[0] == ';'
    decreases COUNT - i
  {
    hide KeyAt, FieldText, Fits, Entry;
    if i < COUNT && FieldText(st, i) == "" {
      RestStarts(st, i + 1);
    }
  }

  /** The text from `k` on is entry `i` and what follows it. */
  lemma ScanHead(st: State, i: nat, s: string, k: nat)
    requires Fits(st) && AllQuotable(st) && i < COUNT && FieldText(st, i) != ""
    requires k <= |s| && s[k..] == Entry(i, FieldText(st, i)) + Rest(st, i + 1)
    ensures Scan(s, k) == Scanned(Entries(st, i), true)
    decreases COUNT - i, 0
  {
    hide KeyAt, FieldText, Fits, Entry, Quotable, Scan, Rest;
    var v := FieldText(st, i);
    var e := Entry(i, v);
    SplitSuffix(s, k, e, Rest(st, i + 1));
    RestStarts(st, i + 1);
    FieldIsMain(st, i);
    assert EntryAt(s, k, i, v);
    ScanEntry(s, k, i, v);
    ScanRest(st, i + 1, s, k + |e|);
    ScanBehind(s, |s|);
  }

  lemma PrintedAt(st: State, i: nat)
    requires Fits(st) && i < COUNT && FieldText(st, i) != ""
    ensures Rest(st, i) != "" && Rest(st, i)[1..][0..] == Entry(i, FieldText(st, i)) + Rest(st, i + 1)
  {
    hide KeyAt, FieldText, Fits, Entry, Rest;
    RestAt(st, i);
    var t := Entry(i, FieldText(st, i)) + Rest(st, i + 1);
    assert Rest(st, i) == ";" + t;
    assert (";" + t)[1..] == t && t[0..] == t;
  }

  lemma ScanNothing()
    ensures Scan("", 0) == Scanned([], true)
  {
  }

  /** Printing and scanning gives one pair for every field that is not empty. */
  lemma {:induction false} ScanPrinted(st: State, i: nat)
    requires Fits(st) && AllQuotable(st) && i <= COUNT
    ensures var s := if Rest(st, i) == "" then "" else Rest(st, i)[1..];
            Scan(s, 0) == Scanned(Entries(st, i), true)
    decreases COUNT - i
  {
    hide KeyAt, FieldText, Fits, Entry, Quotable, AllQuotable, Scan;
    if i == COUNT {
      ScanNothing();
    } else if FieldText(st, i) == "" {
      ScanPrinted(st, i + 1);
    } else {
      PrintedAt(st, i);
      ScanHead(st, i, Rest(st, i)[1..], 0);
    }
  }

  // ---------------------------------------------------------------------------------
  // Printed numbers are read back
  // ---------------------------------------------------------------------------------

  lemma {:induction false} DigitsValue(s: string, i: nat, e: nat, n: nat)
    requires i <= e <= |s| && s[i..e] == Digits(n)
    ensures forall k :: i <= k < e ==> IsDigit(s[k])
    ensures Decimal(s, i, e) == n
    decreases n
  {
    assert forall k :: i <= k < e ==> s[k] == s[i..e][k - i];
    assert s[e - 1] == Digits(n)[|Digits(n)| - 1] == DigitChar(n % 10);
    if n < 10 {
      assert e == i + 1 && Decimal(s, i, e - 1) == 0;
    } else {
      assert s[i..e - 1] == s[i..e][..e - 1 - i] == Digits(n / 10);
      DigitsValue(s, i, e - 1, n / 10);
    }
  }

  lemma AllDigits(s: string, i: nat)
    requires i <= |s| && forall k :: i <= k < |s| ==> IsDigit(s[k])
    ensures DigitsEnd(s, i) == |s|
  {
  }

  lemma DigitsRead(n: nat)
    ensures Magnitude(Digits(n)) == n && !Negative(Digits(n))
  {
    var s := Digits(n);
    assert s[0..|s|] == s;
    hide Digits, Decimal, DigitsEnd, Blanks;
    DigitsValue(s, 0, |s|, n);
    BlanksNone(s, 0);
    AllDigits(s, 0);
  }

  lemma MinusRead(n: nat)
    ensures Magnitude("-" + Digits(n)) == n && Negative("-" + Digits(n))
  {
    var s := "-" + Digits(n);
    assert s[1..|s|] == Digits(n);
    hide Digits, Decimal, DigitsEnd, Blanks;
    DigitsValue(s, 1, |s|, n);
    BlanksNone(s, 0);
    AllDigits(s, 1);
  }

  lemma SignedRead(n: int)
    requires 0 <= n < WORD
    ensures Word(Strtoul(Signed(n))) == n
  {
    hide Digits, Magnitude, Negative;
    if n < WORD / 2 {
      DigitsRead(n);
    } else {
      MinusRead(WORD - n);
    }
  }

  lemma WidenedRead(b: int)
    requires 0 <= b < 256
    ensures Byte(Atoi(Widened(b))) == b
  {
    hide Digits, Magnitude, Negative;
    DigitsRead(if b < 128 then b else 65280 + b);
  }

  lemma OneRead()
    ensures Byte(Atoi("1")) == 1
  {
    assert Digits(1) == "1";
    hide Digits, Magnitude, Negative;
    DigitsRead(1);
  }

  predicate NumberChars(v: string) { v != "" && forall k :: 0 <= k < |v| ==> IsDigit(v[k]) || v[k] == '-' }

  lemma NumbersQuotable(v: string)
    requires NumberChars(v)
    ensures Quotable(v)
  {
  }

  // ---------------------------------------------------------------------------------
  // The round trip
  // ---------------------------------------------------------------------------------

  /** What a field of its kind does not use is empty. */
  ghost predicate Shaped(st: State, i: nat)
    requires Sized(st) && i < COUNT
  {
    match KeyAt(i)
    case Alias(_, _) => st.texts[i] == "" && st.nums[i] == 0
    case Key(_, Text) => st.nums[i] == 0
    case Key(_, _) => st.texts[i] == "" && (i == OPTIONS_KEY ==> st.nums[i] == 0)
  }

  /** Flags are 0 or 1, and option fields equal their bits. */
  ghost predicate Tidy(st: State, i: nat)
    requires Sized(st) && i < COUNT
  {
    match KeyAt(i)
    case Key(_, Flag) => st.nums[i] == 0 || st.nums[i] == 1
    case Key(_, Option(mask)) => st.nums[i] == Bit(st.options, mask)
    case _ => true
  }

  /** A field as the driver keeps it, with a text that can be quoted. */
  ghost predicate Clean(st: State, i: nat)
    requires Sized(st) && i < COUNT
  {
    Shaped(st, i) && Tidy(st, i) && Quotable(st.texts[i])
  }

  /**
  Option fields equal their bits, and texts can be quoted.  If Options is printed, TCPIP
  must be the opposite of NamedPipe.
  */
  ghost predicate Printable(st: State) {
    && Sized(st) && Fits(st)
    && (forall i :: 0 <= i < COUNT ==> Clean(st, i))
    && (st.options == 0 || st.nums[TCPIP_KEY] == 1 - st.nums[NAMEDPIPE_KEY])
  }

  lemma EmptyQuotable()
    ensures Quotable("")
  {
  }

  lemma FieldQuotable(st: State, i: nat)
    requires Fits(st) && i < COUNT && Clean(st, i)
    ensures Quotable(FieldText(st, i))
  {
    hide KeyAt, Quotable, Digits, Bit;
    EmptyQuotable();
    if FieldText(st, i) != "" && !KeyAt(i).kind.Text? {
      NumbersQuotable(FieldText(st, i));
    }
  }

  lemma PrintableQuotable(st: State)
    requires Printable(st)
    ensures AllQuotable(st)
  {
    hide KeyAt, Fits;
    forall i | 0 <= i < COUNT
      ensures Quotable(FieldText(st, i))
    {
      FieldQuotable(st, i);
    }
  }

  /** What the field of key `k` holds once the keys before `i` have been read. */
  ghost function ExpectedNum(st: State, i: nat, k: nat): int
    requires Sized(st) && k < COUNT
  {
    if IsOption(k) then (if i > OPTIONS_KEY then st.nums[k] else 0)
    else if k == TCPIP_KEY then
      (if i > TCPIP_KEY || (i > OPTIONS_KEY && st.options != 0) then st.nums[k] else 0)
    else if k < i then st.nums[k] else 0
  }

  ghost predicate Rebuilt(st: State, i: nat, now: State)
    requires Sized(st)
  {
    && Sized(now) && now.options == (if i > OPTIONS_KEY then st.options else 0)
    && (forall k :: 0 <= k < COUNT ==> now.texts[k] == if k < i then st.texts[k] else "")
    && (forall k :: 0 <= k < COUNT ==> now.nums[k] == ExpectedNum(st, i, k))
  }

  lemma NoBits(m: bv32)
    ensures Bit(0, m) == 0
  {
  }

  lemma NoOptions(st: State)
    requires Printable(st) && st.options == 0
    ensures forall k: nat :: IsOption(k) ==> st.nums[k] == 0
  {
    hide KeyAt, Fits, Bit, Quotable;
    forall k: nat | IsOption(k)
      ensures st.nums[k] == 0
    {
      assert Clean(st, k);
      NoBits(KeyAt(k).kind.mask);
    }
  }

  lemma ZeroWord(o: bv32)
    ensures o as int == 0 ==> o == 0
  {
  }

  lemma SignedNotEmpty(n: int)
    requires 0 <= n < WORD
    ensures Signed(n) != ""
  {
    hide Digits;
  }

  lemma OptionsEmpty(st: State)
    requires Fits(st) && FieldText(st, OPTIONS_KEY) == ""
    ensures st.options == 0
  {
    hide KeyAt, Signed, Fits;
    LinkedKeys();
    SignedNotEmpty(st.options as int);
    ZeroWord(st.options);
  }

  lemma NumberNotEmpty(st: State, i: nat)
    requires Fits(st) && i < COUNT && KeyAt(i).Key? && KeyAt(i).kind.Number? && FieldText(st, i) == ""
    ensures if i == OPTIONS_KEY then st.options == 0 else st.nums[i] == 0
  {
    hide KeyAt, Signed;
    if i == OPTIONS_KEY {
      OptionsEmpty(st);
    } else if st.nums[i] != 0 {
      SignedNotEmpty(st.nums[i]);
    }
  }

  lemma GroupNotEmpty(st: State, i: nat)
    requires Fits(st) && i < COUNT && KeyAt(i).Key? && KeyAt(i).kind.Group? && FieldText(st, i) == ""
    ensures st.nums[i] == 0
  {
    hide KeyAt, Digits;
  }

  lemma EmptyField(st: State, i: nat)
    requires Printable(st) && i < COUNT && FieldText(st, i) == ""
    ensures st.texts[i] == "" && (!IsOption(i) ==> st.nums[i] == 0)
    ensures i == OPTIONS_KEY ==> st.options == 0
  {
    hide KeyAt, Bit, Signed, Widened, Quotable, Fits;
    LinkedKeys();
    assert Clean(st, i);
    if KeyAt(i).Key? && KeyAt(i).kind.Number? {
      NumberNotEmpty(st, i);
    } else if KeyAt(i).Key? && KeyAt(i).kind.Group? {
      GroupNotEmpty(st, i);
    }
  }

  lemma RebuildSkip(st: State, i: nat, now: State)
    requires Printable(st) && i < COUNT && FieldText(st, i) == "" && Rebuilt(st, i, now)
    ensures Rebuilt(st, i + 1, now)
  {
    hide KeyAt, Fits, Clean, FieldText;
    LinkedKeys();
    EmptyField(st, i);
    if i == OPTIONS_KEY {
      NoOptions(st);
    }
  }

  lemma RebuildText(st: State, i: nat, now: State)
    requires Printable(st) && i < COUNT && Rebuilt(st, i, now) && KeyAt(i).Key? && KeyAt(i).kind.Text?
    ensures Rebuilt(st, i + 1, Assign(now, i, st.texts[i]))
  {
    hide KeyAt, Fits, Bit, Digits, Quotable;
    LinkedKeys();
    assert Clean(st, i);
  }

  /** A number, a flag or a group that is not linked to others. */
  lemma RebuildNum(st: State, i: nat, now: State, value: string)
    requires Printable(st) && i < COUNT && Rebuilt(st, i, now) && KeyAt(i).Key?
    requires !KeyAt(i).kind.Text? && !KeyAt(i).kind.Option? && i != OPTIONS_KEY && i != TCPIP_KEY
    requires Assign(now, i, value) == now.(nums := now.nums[i := st.nums[i]])
    ensures Rebuilt(st, i + 1, Assign(now, i, value))
  {
    hide KeyAt, Fits, Bit, Digits, Quotable, Assign;
    assert Clean(st, i);
  }

  lemma StoreOptions(now: State, o: bv32)
    requires Sized(now)
    ensures KeyAt(OPTIONS_KEY).Key? && Store(now, OPTIONS_KEY, Signed(o as int)) == now.(options := o)
  {
    hide KeyAt, Signed, Strtoul;
    LinkedKeys();
    SignedRead(o as int);
  }

  lemma RefreshedNum(st: State, stored: State, k: nat)
    requires Printable(st) && Sized(stored) && stored.options == st.options && k < COUNT
    requires !IsOption(k) && k != TCPIP_KEY ==> stored.nums[k] == ExpectedNum(st, OPTIONS_KEY, k)
    requires st.options != 0
    ensures RefreshedField(stored, k) == ExpectedNum(st, OPTIONS_KEY + 1, k)
  {
    hide KeyAt, Fits, Bit, Quotable;
    LinkedKeys();
    assert Clean(st, k) && Clean(st, NAMEDPIPE_KEY) && Clean(st, OPTIONS_KEY);
  }

  lemma NoText(st: State, i: nat)
    requires Printable(st) && i < COUNT && KeyAt(i).Key? && !KeyAt(i).kind.Text?
    ensures st.texts[i] == ""
  {
    hide KeyAt, Fits, Bit, Quotable;
    assert Clean(st, i);
  }

  lemma RebuildOptions(st: State, now: State)
    requires Printable(st) && Rebuilt(st, OPTIONS_KEY, now) && st.options != 0
    ensures KeyAt(OPTIONS_KEY).Key?
    ensures Rebuilt(st, OPTIONS_KEY + 1, Assign(now, OPTIONS_KEY, Signed(st.options as int)))
  {
    hide KeyAt, Fits, Clean, Signed, Store, ExpectedNum, RefreshedField;
    LinkedKeys();
    StoreOptions(now, st.options);
    var stored := now.(options := st.options);
    var r := Refresh(stored);
    assert Refreshed(stored, r);
    NoText(st, OPTIONS_KEY);
    forall k | 0 <= k < COUNT
      ensures r.nums[k] == ExpectedNum(st, OPTIONS_KEY + 1, k)
    {
      RefreshedNum(st, stored, k);
    }
  }

  lemma WithoutSame(o: bv32, m: bv32)
    requires Bit(o, m) == 0
    ensures Without(o, m) == o
  {
  }

  lemma RebuildTcpip(st: State, now: State)
    requires Printable(st) && Rebuilt(st, TCPIP_KEY, now) && st.nums[TCPIP_KEY] != 0
    ensures Rebuilt(st, TCPIP_KEY + 1, Assign(now, TCPIP_KEY, "1"))
  {
    hide KeyAt, Fits, Bit, Digits, Quotable, Without, Byte, Atoi;
    LinkedKeys();
    OneRead();
    assert Clean(st, TCPIP_KEY) && Clean(st, NAMEDPIPE_KEY);
    NoBits(NAMED_PIPE);
    WithoutSame(st.options, NAMED_PIPE);
  }

  lemma TextField(st: State, i: nat)
    requires Fits(st) && i < COUNT && KeyAt(i).Key? && KeyAt(i).kind.Text?
    ensures FieldText(st, i) == st.texts[i]
  {
    hide KeyAt;
  }

  lemma OptionsSet(st: State)
    requires Fits(st) && FieldText(st, OPTIONS_KEY) != ""
    ensures st.options != 0 && FieldText(st, OPTIONS_KEY) == Signed(st.options as int)
  {
    hide KeyAt;
    LinkedKeys();
  }

  lemma TcpipSet(st: State)
    requires Fits(st) && FieldText(st, TCPIP_KEY) != ""
    ensures st.nums[TCPIP_KEY] != 0 && FieldText(st, TCPIP_KEY) == "1"
  {
    hide KeyAt;
    LinkedKeys();
  }

  lemma AssignNum(st: State, i: nat, now: State)
    requires Printable(st) && i < COUNT && FieldText(st, i) != "" && Sized(now) && KeyAt(i).Key?
    requires !KeyAt(i).kind.Text? && i != OPTIONS_KEY && i != TCPIP_KEY
    ensures !KeyAt(i).kind.Option?
    ensures Assign(now, i, FieldText(st, i)) == now.(nums := now.nums[i := st.nums[i]])
  {
    hide KeyAt, Bit, Digits, Quotable, Signed, Widened, Byte, Word, Atoi, Strtoul;
    LinkedKeys();
    assert Clean(st, i);
    match KeyAt(i).kind {
      case Number => SignedRead(st.nums[i]);
      case Flag => OneRead();
      case Group => WidenedRead(st.nums[i]);
      case _ =>
    }
  }

  lemma RebuildStore(st: State, i: nat, now: State)
    requires Printable(st) && i < COUNT && FieldText(st, i) != "" && Sized(now) && Rebuilt(st, i, now)
    ensures KeyAt(i).Key? && Rebuilt(st, i + 1, Assign(now, i, FieldText(st, i)))
  {
    hide KeyAt, Bit, Digits, Quotable, Rebuilt, Signed, Widened, Byte, Word, Atoi, Strtoul, Clean, Fits, FieldText;
    hide Assign;
    FieldIsMain(st, i);
    LinkedKeys();
    if KeyAt(i).kind.Text? {
      TextField(st, i);
      RebuildText(st, i, now);
    } else if i == OPTIONS_KEY {
      OptionsSet(st);
      RebuildOptions(st, now);
    } else if i == TCPIP_KEY {
      TcpipSet(st);
      RebuildTcpip(st, now);
    } else {
      AssignNum(st, i, now);
      RebuildNum(st, i, now, FieldText(st, i));
    }
  }

  lemma ProperParts(p: Pair, rest: seq<Pair>)
    requires Proper([p] + rest)
    ensures p.key < COUNT && KeyAt(p.key).Key? && Proper(rest)
    ensures rest != [] ==> Proper([p] + rest[..|rest| - 1]) && rest[|rest| - 1].key < COUNT
                           && KeyAt(rest[|rest| - 1].key).Key?
  {
    hide KeyAt;
    var all := [p] + rest;
    assert all[0] == p;
    assert forall k :: 0 <= k < |rest| ==> rest[k] == all[k + 1];
  }

  lemma {:induction false} ApplyFirst(st: State, p: Pair, rest: seq<Pair>)
    requires Sized(st) && Proper([p] + rest) && p.key < COUNT && KeyAt(p.key).Key?
    ensures Proper(rest)
    ensures Apply(st, [p] + rest) == Apply(Assign(st, p.key, p.value), rest)
    decreases |rest|
  {
    hide KeyAt, Assign;
    ProperParts(p, rest);
    if rest == [] {
      assert [p] + rest == [] + [p];
      ApplyMore(st, [], p);
    } else {
      var k := |rest| - 1;
      assert rest == rest[..k] + [rest[k]];
      assert [p] + rest == ([p] + rest[..k]) + [rest[k]];
      ApplyFirst(st, p, rest[..k]);
      ApplyMore(st, [p] + rest[..k], rest[k]);
      ApplyMore(Assign(st, p.key, p.value), rest[..k], rest[k]);
    }
  }

  lemma RebuiltAll(st: State, now: State)
    requires Printable(st) && Rebuilt(st, COUNT, now)
    ensures now == st && Apply(now, []) == now
  {
    hide KeyAt, Fits, Bit;
    assert now.nums == st.nums;
    assert now.texts == st.texts;
  }

  lemma {:induction false} Rebuild(st: State, i: nat, now: State)
    requires Printable(st) && i <= COUNT && Rebuilt(st, i, now)
    ensures Apply(now, Entries(st, i)) == st
    decreases COUNT - i
  {
    hide KeyAt, Fits, Bit, FieldText, Apply, Assign;
    if i == COUNT {
      RebuiltAll(st, now);
    } else if FieldText(st, i) == "" {
      RebuildSkip(st, i, now);
      Rebuild(st, i + 1, now);
    } else {
      RebuildStore(st, i, now);
      Rebuild(st, i + 1, Assign(now, i, FieldText(st, i)));
      ApplyFirst(now, Pair(i, FieldText(st, i)), Entries(st, i + 1));
    }
  }

  lemma RebuiltNone(st: State)
    requires Printable(st)
    ensures Rebuilt(st, 0, ZERO)
  {
    hide KeyAt, Fits, Clean;
  }

  /** Printing a data source and parsing the text into an all-zero one gives it back. */
  lemma RoundTrip(st: State)
    requires Printable(st)
    ensures Scan(Printed(st), 0).ok && Apply(ZERO, Scan(Printed(st), 0).pairs) == st
  {
    hide KeyAt, Fits, Clean, Scan, Apply, Rebuilt;
    PrintableQuotable(st);
    ScanPrinted(st, 0);
    RebuiltNone(st);
    Rebuild(st, 0, ZERO);
  }

  /** The round trip as the driver would make it. */
  method PrintAndParse(dsn: DataSource) returns (copy: DataSource)
    requires dsn.Valid() && Printable(dsn.View())
    ensures fresh(copy) && copy.Valid() && copy.View() == dsn.View()
  {
    hide Fits, Clean, Scan, Apply;
    var text := DsnToString(dsn);
    copy := new DataSource.Zero();
    RoundTrip(dsn.View());
    var ok := ParseConnString(copy, text);
    assert ok;
  }

  // ---------------------------------------------------------------------------------
  // What does not come back
  // ---------------------------------------------------------------------------------

  /** Only fields that are printed come back, each with its own text. */
  lemma {:induction false} EntriesAre(st: State, i: nat, x: nat)
    requires Fits(st) && i <= COUNT && x < |Entries(st, i)|
    ensures var p := Entries(st, i)[x]; p.key < COUNT && p.value == FieldText(st, p.key) != ""
    decreases COUNT - i
  {
    hide KeyAt, FieldText, Fits;
    if FieldText(st, i) == "" {
      EntriesAre(st, i + 1, x);
    } else if x > 0 {
      EntriesAre(st, i + 1, x - 1);
    }
  }

  lemma {:induction false} EntryOf(st: State, i: nat, k: nat) returns (x: nat)
    requires Fits(st) && i <= k < COUNT && FieldText(st, k) != ""
    ensures x < |Entries(st, i)| && Entries(st, i)[x].key == k
    decreases COUNT - i
  {
    hide KeyAt, FieldText, Fits;
    if i == k {
      x := 0;
    } else {
      x := EntryOf(st, i + 1, k);
      x := if FieldText(st, i) == "" then x else x + 1;
    }
  }

  lemma {:induction false} ApplyMirrors(st: State, pairs: seq<Pair>, i: nat)
    requires Sized(st) && Proper(pairs) && IsOption(i) && Mirrors(st, i)
    ensures Mirrors(Apply(st, pairs), i)
  {
    hide KeyAt, Assign, Mirrors;
    if pairs != [] {
      var n := |pairs| - 1;
      ApplyMirrors(st, pairs[..n], i);
      AssignMirrors(Apply(st, pairs[..n]), pairs[n].key, pairs[n].value, i);
    }
  }

  lemma AssignOptionsLinks(st: State, value: string)
    requires Sized(st)
    ensures KeyAt(OPTIONS_KEY).Key? && Linked(Assign(st, OPTIONS_KEY, value))
  {
    hide KeyAt, Bit, Store;
    LinkedKeys();
    assert Refreshed(Store(st, OPTIONS_KEY, value), Assign(st, OPTIONS_KEY, value));
    BitIsBit(Assign(st, OPTIONS_KEY, value).options, NAMED_PIPE);
  }

  /** Once OPTIONS has been read, the two switches are opposed. */
  lemma {:induction false} OptionsLink(st: State, pairs: seq<Pair>, x: nat)
    requires Sized(st) && Proper(pairs) && x < |pairs| && pairs[x].key == OPTIONS_KEY
    ensures Linked(Apply(st, pairs))
  {
    hide KeyAt, Assign, Linked;
    var n := |pairs| - 1;
    if x == n {
      AssignOptionsLinks(Apply(st, pairs[..n]), pairs[n].value);
    } else {
      OptionsLink(st, pairs[..n], x);
      AssignKeepsLinked(Apply(st, pairs[..n]), pairs[n].key, pairs[n].value);
    }
  }

  lemma FlagText(st: State, i: nat)
    requires Fits(st) && i < COUNT && KeyAt(i).Key? && KeyAt(i).kind.Flag? && FieldText(st, i) != ""
    ensures FieldText(st, i) == "1"
  {
    hide KeyAt, Fits, Signed, Widened;
  }

  lemma OptionHasNoText(st: State, i: nat)
    requires Fits(st) && IsOption(i)
    ensures FieldText(st, i) == ""
  {
    hide KeyAt, Fits, Signed, Widened;
  }

  /** What a flag is decided to be, if the pair comes from what was printed. */
  lemma FlagDecided(st: State, now: State, i: nat, p: Pair)
    requires Fits(st) && Sized(now) && i < COUNT && KeyAt(i).Key? && KeyAt(i).kind.Flag? && i != OPTIONS_KEY
    requires Bears(p.key, i) && p.key < COUNT && p.value == FieldText(st, p.key) != "" && Decided(now, i, p)
    ensures now.nums[i] == 0 || now.nums[i] == 1
  {
    hide KeyAt, Fits, FieldText, Byte, Atoi, Strtoul, Word, Bit, TlsBits;
    LinkedKeys();
    OptionHasNoText(st, NAMEDPIPE_KEY);
    if p.key == i {
      FlagText(st, i);
      OneRead();
    } else {
      BitIsBit(Word(Strtoul(p.value)) as bv32, NAMED_PIPE);
    }
  }

  /** A flag that comes back is 0 or 1. */
  lemma FlagReadBack(st: State, i: nat)
    requires Fits(st) && i < COUNT && KeyAt(i).Key? && KeyAt(i).kind.Flag?
    ensures Apply(ZERO, Entries(st, 0)).nums[i] == 0 || Apply(ZERO, Entries(st, 0)).nums[i] == 1
  {
    hide KeyAt, Apply, Fits, Entries, LastOn, Decided, Bears, FieldText;
    LinkedKeys();
    var pairs := Entries(st, 0);
    LastOccurrenceDecides(ZERO, pairs, i);
    var k := LastOn(pairs, i);
    if k >= 0 {
      EntriesAre(st, 0, k);
      FlagDecided(st, Apply(ZERO, pairs), i, pairs[k]);
    }
  }

  lemma ReadBackIsTidy(st: State, i: nat)
    requires Fits(st) && Apply(ZERO, Entries(st, 0)) == st && i < COUNT
    ensures Tidy(st, i)
  {
    hide KeyAt, Apply, Fits, Entries, Bit;
    if IsOption(i) {
      NoBits(KeyAt(i).kind.mask);
      ApplyMirrors(ZERO, Entries(st, 0), i);
    } else if KeyAt(i).Key? && KeyAt(i).kind.Flag? {
      FlagReadBack(st, i);
    }
  }

  lemma ReadBackIsOpposed(st: State)
    requires Fits(st) && Apply(ZERO, Entries(st, 0)) == st && st.options != 0
    ensures st.nums[TCPIP_KEY] == 1 - st.nums[NAMEDPIPE_KEY]
  {
    hide KeyAt, Apply, Fits, Entries, Bit, FieldText;
    LinkedKeys();
    if FieldText(st, OPTIONS_KEY) == "" {
      OptionsEmpty(st);
    }
    var x := EntryOf(st, 0, OPTIONS_KEY);
    OptionsLink(ZERO, Entries(st, 0), x);
    FlagReadBack(st, TCPIP_KEY);
    BitIsBit(st.options, NAMED_PIPE);
  }

  lemma TidyIsClean(st: State, i: nat)
    requires Fits(st) && i < COUNT && Shaped(st, i) && Tidy(st, i) && Quotable(FieldText(st, i))
    ensures Clean(st, i)
  {
    hide KeyAt, Bit, Quotable, Signed, Widened;
    EmptyQuotable();
  }

  /** Flags are 0 or 1, option fields equal their bits, and TCPIP is the opposite of NamedPipe unless Options is 0. */
  ghost predicate AllTidy(st: State)
    requires Sized(st)
  {
    && (forall i :: 0 <= i < COUNT ==> Tidy(st, i))
    && (st.options == 0 || st.nums[TCPIP_KEY] == 1 - st.nums[NAMEDPIPE_KEY])
  }

  lemma TidyIsPrintable(st: State)
    requires Fits(st) && AllQuotable(st) && (forall i :: 0 <= i < COUNT ==> Shaped(st, i)) && AllTidy(st)
    ensures Printable(st)
  {
    hide KeyAt, Clean, Quotable, FieldText, Shaped, Tidy;
    forall i | 0 <= i < COUNT
      ensures Clean(st, i)
    {
      TidyIsClean(st, i);
    }
  }

  lemma ReadBackIsAllTidy(st: State)
    requires Fits(st) && Apply(ZERO, Entries(st, 0)) == st
    ensures AllTidy(st)
  {
    hide KeyAt, Apply, Tidy, Entries;
    forall i | 0 <= i < COUNT
      ensures Tidy(st, i)
    {
      ReadBackIsTidy(st, i);
    }
    if st.options != 0 {
      ReadBackIsOpposed(st);
    }
  }

  /** For texts that can be quoted, exactly the tidy data sources come back. */
  lemma RoundTripIff(st: State)
    requires Fits(st) && AllQuotable(st) && forall i :: 0 <= i < COUNT ==> Shaped(st, i)
    ensures Scan(Printed(st), 0).ok
    ensures Apply(ZERO, Scan(Printed(st), 0).pairs) == st <==> AllTidy(st)
  {
    hide KeyAt, Printable, AllTidy, AllQuotable, Scan, Apply, Shaped, Entries;
    ScanPrinted(st, 0);
    if AllTidy(st) {
      TidyIsPrintable(st);
      RoundTrip(st);
    } else if Apply(ZERO, Entries(st, 0)) == st {
      ReadBackIsAllTidy(st);
    }
  }

  lemma DefaultField(i: nat)
    requires i < COUNT && Fits(Defaults(ZERO))
    ensures Shaped(Defaults(ZERO), i) && Quotable(FieldText(Defaults(ZERO), i))
  {
    hide Quotable, Signed, Widened;
    EmptyQuotable();
    NumbersQuotable("1");
  }

  /** The default data source does not come back: NO_CACHE is an option, and its bit is not set. */
  lemma DefaultsDoNotReturn()
    ensures Fits(Defaults(ZERO)) && Scan(Printed(Defaults(ZERO)), 0).ok
    ensures Apply(ZERO, Scan(Printed(Defaults(ZERO)), 0).pairs) != Defaults(ZERO)
  {
    hide KeyAt, Scan, Apply, FieldText, Quotable, Shaped, Printed;
    var st := Defaults(ZERO);
    assert Fits(st);
    forall i | 0 <= i < COUNT
      ensures Shaped(st, i) && Quotable(FieldText(st, i))
    {
      DefaultField(i);
    }
    DefaultsLinked();
    assert !Tidy(st, NO_CACHE_KEY);
    assert !AllTidy(st);
    RoundTripIff(st);
  }

  /** A closing brace in a value that needs braces cuts it off. */
  lemma ClosingBraceCuts(v: string, rest: string, i: nat)
    requires Special(v) && i + 1 < |v| && v[i] == '}' && v[i + 1] != '}' && forall k :: 0 <= k < i ==> v[k] != '}'
    ensures ReadValue(Quote(v) + rest, 0) == Reading(v[..i], i + 3)
  {
    hide Blanks, StrChr, Special;
    var s := Quote(v) + rest;
    assert s[0] == '{' && forall k :: 0 <= k < |v| ==> s[k + 1] == v[k];
    BlanksNone(s, 0);
    assert forall k :: 1 <= k < i + 1 ==> s[k] == v[k - 1];
    StrChrIs(s, '}', 1, i + 1);
    assert s[1..i + 1] == v[..i];
  }

  lemma ClosingBraceCutsValue()
    ensures !Quotable("a}b c") && ReadValue(Quote("a}b c") + ";PORT=1", 0).value == "a"
  {
    var v := "a}b c";
    assert v[3] == ' ' && v[1] == '}' && v[..1] == "a";
    hide ReadValue, Quote;
    ClosingBraceCuts(v, ";PORT=1", 1);
  }

  /**
  From the defaults, after every pair of any connection string, read whole or not,
  exactly one of NamedPipe and TCPIP is set and NamedPipe equals its Options bit.
  */
  lemma AlwaysLinked(s: string, k: nat)
    requires k <= |Scan(s, 0).pairs|
    ensures Proper(Scan(s, 0).pairs[..k]) && Linked(Apply(Defaults(ZERO), Scan(s, 0).pairs[..k]))
  {
    hide Scan, Linked;
    DefaultsLinked();
    PrefixesKeepLinked(Defaults(ZERO), Scan(s, 0).pairs, k);
  }
}
