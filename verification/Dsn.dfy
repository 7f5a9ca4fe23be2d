/**
A data source: the fields behind the connection string keys, the Options bitmap that
mirrors the option fields, and the two keys that exclude each other (ma_dsn.c).
*/
module Dsn {
  import opened CString
  import opened DsnKeys

  // ---------------------------------------------------------------------------------
  // Numbers in values
  // ---------------------------------------------------------------------------------

  const WORD: int := 0x1_0000_0000
  const LONG: int := 0x1_0000_0000_0000_0000

  /** The index behind the blanks from `i` on. */
  function Blanks(s: string, i: nat): (e: nat)
    requires i <= |s|
    ensures i <= e <= |s| && (e < |s| ==> !IsSpace(s[e])) && forall k :: i <= k < e ==> IsSpace(s[k])
    decreases |s| - i
  {
    if i < |s| && IsSpace(s[i]) then Blanks(s, i + 1) else i
  }

  /** The index behind the digits from `i` on. */
  function DigitsEnd(s: string, i: nat): (e: nat)
    requires i <= |s|
    ensures i <= e <= |s| && (e < |s| ==> !IsDigit(s[e])) && forall k :: i <= k < e ==> IsDigit(s[k])
    decreases |s| - i
  {
    if i < |s| && IsDigit(s[i]) then DigitsEnd(s, i + 1) else i
  }

  /** The number written in s[i..e]. */
  function Decimal(s: string, i: nat, e: nat): (n: nat)
    requires i <= e <= |s| && forall k :: i <= k < e ==> IsDigit(s[k])
    decreases e
  {
    if i == e then 0 else Decimal(s, i, e - 1) * 10 + Digit(s[e - 1])
  }

  function SignAt(s: string): (i: nat)
    ensures i <= |s|
  {
    Blanks(s, 0)
  }

  predicate Negative(s: string) { SignAt(s) < |s| && s[SignAt(s)] == '-' }

  function Magnitude(s: string): (m: int)
    ensures m >= 0
  {
    var i := SignAt(s);
    var d := if i < |s| && (s[i] == '-' || s[i] == '+') then i + 1 else i;
    Decimal(s, d, DigitsEnd(s, d))
  }

  /** strtoul(s, NULL, 10) with a 64-bit long. */
  function Strtoul(s: string): (n: int)
    ensures 0 <= n < LONG
  {
    var m := Magnitude(s);
    if m >= LONG then LONG - 1 else if Negative(s) && m > 0 then LONG - m else m
  }

  /** atoi(s), by way of a 64-bit strtol. */
  function Atoi(s: string): int {
    var m := Magnitude(s);
    if Negative(s) then (if m > LONG / 2 then -(LONG / 2) else -m)
    else if m > LONG / 2 - 1 then LONG / 2 - 1 else m
  }

  /** What is left of a number in a my_bool or char, and in an int. */
  function Byte(n: int): (b: int)
    ensures 0 <= b < 256
  {
    n % 256
  }

  function Word(n: int): (w: int)
    ensures 0 <= w < WORD
  {
    n % WORD
  }

  /** strcasestr(s + i, word) != NULL */
  predicate Mentions(s: string, word: string, i: nat)
    decreases |s| - i
  {
    i + |word| <= |s| && (SameName(s[i..i + |word|], word) || (i < |s| && Mentions(s, word, i + 1)))
  }

  /** The bits of the TLS versions named in the value. */
  function TlsBits(value: string): (b: int)
    ensures 0 <= b < 8
  {
    (if Mentions(value, "TLSv1.1", 0) then 1 else 0) + (if Mentions(value, "TLSv1.2", 0) then 2 else 0)
    + (if Mentions(value, "TLSv1.3", 0) then 4 else 0)
  }

  // ---------------------------------------------------------------------------------
  // What storing a value means
  // ---------------------------------------------------------------------------------

  /** One entry per key: text fields, fields holding a number, and the Options word. */
  datatype State = State(texts: seq<string>, nums: seq<int>, options: bv32)

  predicate Sized(st: State) { |st.texts| == |st.nums| == COUNT }

  predicate IsOption(i: nat) { i < COUNT && KeyAt(i).Key? && KeyAt(i).kind.Option? }

  function And(options: bv32, mask: bv32): bv32 { options & mask }
  function With(options: bv32, mask: bv32): bv32 { options | mask }
  function Without(options: bv32, mask: bv32): bv32 { options & !mask }

  function Bit(options: bv32, mask: bv32): int { if And(options, mask) != 0 then 1 else 0 }

  function SetOption(st: State, i: nat, on: bool): (r: State)
    requires Sized(st) && IsOption(i)
    ensures Sized(r)
  {
    State(st.texts, st.nums[i := if on then 1 else 0],
          if on then With(st.options, KeyAt(i).kind.mask) else Without(st.options, KeyAt(i).kind.mask))
  }

  /** The switched pair: setting one resets the other. */
  function Switch(st: State, i: nat): (r: State)
    requires Sized(st)
    ensures Sized(r)
  {
    if i == NAMEDPIPE_KEY then st.(nums := st.nums[TCPIP_KEY := if st.nums[NAMEDPIPE_KEY] == 0 then 1 else 0])
    else if i == TCPIP_KEY then SetOption(st, NAMEDPIPE_KEY, st.nums[TCPIP_KEY] == 0)
    else st
  }

  function StoreField(st: State, i: nat, value: string): (r: State)
    requires Sized(st) && i < COUNT && KeyAt(i).Key?
    ensures Sized(r)
  {
    match KeyAt(i).kind
    case Text => st.(texts := st.texts[i := value])
    case Flag => st.(nums := st.nums[i := Byte(Atoi(value))])
    case Group => st.(nums := st.nums[i := if Byte(Atoi(value)) != 0 then Byte(Atoi(value)) else TlsBits(value)])
    case Number =>
      if i == OPTIONS_KEY then st.(options := Word(Strtoul(value)) as bv32)
      else st.(nums := st.nums[i := Word(Strtoul(value))])
    case Option(_) => SetOption(st, i, Strtoul(value) != 0)
  }

  function Store(st: State, i: nat, value: string): (r: State)
    requires Sized(st) && i < COUNT && KeyAt(i).Key?
    ensures Sized(r)
  {
    Switch(StoreField(st, i, value), i)
  }

  function RefreshedField(st: State, k: nat): int
    requires Sized(st) && k < COUNT
  {
    if IsOption(k) then Bit(st.options, KeyAt(k).kind.mask)
    else if k == TCPIP_KEY then 1 - Bit(st.options, NAMED_PIPE)
    else st.nums[k]
  }

  /** Every option field takes the value of its bit, and TCPIP follows NamedPipe. */
  ghost predicate Refreshed(st: State, r: State) {
    && Sized(st) && Sized(r) && r.texts == st.texts && r.options == st.options
    && forall k :: 0 <= k < COUNT ==> r.nums[k] == RefreshedField(st, k)
  }

  function Refresh(st: State): (r: State)
    requires Sized(st)
    ensures Refreshed(st, r)
  {
    st.(nums := seq(COUNT, k requires 0 <= k < COUNT => RefreshedField(st, k)))
  }

  /** What one key=value of a connection string does. */
  function Assign(st: State, i: nat, value: string): (r: State)
    requires Sized(st) && i < COUNT && KeyAt(i).Key?
    ensures Sized(r)
  {
    if i == OPTIONS_KEY then Refresh(Store(st, i, value)) else Store(st, i, value)
  }

  /** A key of the table that is no alias, and the value given to it. */
  datatype Pair = Pair(key: nat, value: string)

  ghost predicate Proper(pairs: seq<Pair>) {
    forall k :: 0 <= k < |pairs| ==> pairs[k].key < COUNT && KeyAt(pairs[k].key).Key?
  }

  ghost function Apply(st: State, pairs: seq<Pair>): (r: State)
    requires Sized(st) && Proper(pairs)
    ensures Sized(r)
  {
    if pairs == [] then st
    else
      var k := |pairs| - 1;
      Assign(Apply(st, pairs[..k]), pairs[k].key, pairs[k].value)
  }

  const ZERO: State := State(seq(COUNT, _ => ""), seq(COUNT, _ => 0), 0)

  function Defaults(st: State): (r: State)
    requires Sized(st)
    ensures Sized(r)
  {
    st.(nums := st.nums[TCPIP_KEY := 1][NO_SSPS_KEY := 1][NO_CACHE_KEY := 1])
  }

  /** Exactly one of NamedPipe and TCPIP is set, and NamedPipe equals its bit. */
  ghost predicate Linked(st: State) {
    && Sized(st)
    && (st.nums[NAMEDPIPE_KEY] == 0 <==> st.nums[TCPIP_KEY] != 0)
    && st.nums[NAMEDPIPE_KEY] == Bit(st.options, NAMED_PIPE)
  }

  /** The field of option key `i` equals its bit. */
  ghost predicate Mirrors(st: State, i: nat)
    requires IsOption(i)
  {
    Sized(st) && st.nums[i] == Bit(st.options, KeyAt(i).kind.mask)
  }

  lemma WithHas(o: bv32, m: bv32)
    ensures And(With(o, m), m) == m
  {
  }

  lemma WithoutLacks(o: bv32, m: bv32)
    ensures And(Without(o, m), m) == 0
  {
  }

  lemma WithKeeps(o: bv32, m: bv32, k: bv32)
    requires And(m, k) == 0
    ensures And(With(o, m), k) == And(o, k)
  {
  }

  lemma WithoutKeeps(o: bv32, m: bv32, k: bv32)
    requires And(m, k) == 0
    ensures And(Without(o, m), k) == And(o, k)
  {
  }

  lemma MasksApart(i: nat, k: nat)
    requires IsOption(i) && IsOption(k) && i != k
    ensures And(KeyAt(i).kind.mask, KeyAt(k).kind.mask) == 0
  {
    hide KeyAt;
    MasksDiffer(i, k);
  }

  /** Setting an option sets its bit or clears it, and leaves the bits of the others alone. */
  lemma SetOptionBits(st: State, i: nat, on: bool, k: nat)
    requires Sized(st) && IsOption(i) && IsOption(k)
    ensures And(SetOption(st, i, on).options, KeyAt(k).kind.mask)
            == if k != i then And(st.options, KeyAt(k).kind.mask) else if on then KeyAt(k).kind.mask else 0
  {
    hide KeyAt, And, With, Without;
    var o, m := st.options, KeyAt(i).kind.mask;
    if k == i {
      WithHas(o, m);
      WithoutLacks(o, m);
    } else {
      MasksApart(i, k);
      WithKeeps(o, m, KeyAt(k).kind.mask);
      WithoutKeeps(o, m, KeyAt(k).kind.mask);
    }
  }

  /** Setting an option makes its field mirror its bit; other fields that do go on doing so. */
  lemma SetOptionMirrors(st: State, j: nat, on: bool, i: nat)
    requires Sized(st) && IsOption(i) && IsOption(j) && (i == j || Mirrors(st, i))
    ensures Mirrors(SetOption(st, j, on), i)
  {
    hide KeyAt, And, With, Without, OptionMask;
    WhichAreOptions(j);
    SetOptionBits(st, j, on, i);
  }

  // ---------------------------------------------------------------------------------
  // The operations
  // ---------------------------------------------------------------------------------

  /** DsnKeysSwitch */
  datatype Dependency = Dependency(key: nat, dependent: nat, same: int)

  const DEPENDENCIES := [Dependency(NAMEDPIPE_KEY, TCPIP_KEY, 0), Dependency(TCPIP_KEY, NAMEDPIPE_KEY, 0)]

  class DataSource {
    var texts: seq<string>
    var nums: seq<int>
    var options: bv32

    ghost predicate Valid()
      reads this
    {
      |texts| == |nums| == COUNT
    }

    ghost function View(): (st: State)
      requires Valid()
      reads this
      ensures Sized(st)
    {
      State(texts, nums, options)
    }

    /** All zero. */
    constructor Zero()
      ensures Valid() && View() == ZERO
    {
      texts, nums, options := seq(COUNT, _ => ""), seq(COUNT, _ => 0), 0;
    }

    /** MADB_DSN_SetDefaults */
    method SetDefaults()
      requires Valid()
      modifies this`nums
      ensures Valid() && View() == Defaults(old(View()))
      ensures nums[TCPIP_KEY] == nums[NO_SSPS_KEY] == nums[NO_CACHE_KEY] == 1
      ensures forall k :: 0 <= k < COUNT && k != TCPIP_KEY && k != NO_SSPS_KEY && k != NO_CACHE_KEY ==>
                nums[k] == old(nums[k])
      ensures Linked(View()) <==> old(nums[NAMEDPIPE_KEY]) == 0 && Bit(options, NAMED_PIPE) == 0
    {
      nums := nums[TCPIP_KEY := 1][NO_SSPS_KEY := 1][NO_CACHE_KEY := 1];
    }

    /** MADB_SetOptionValue */
    method SetOptionValue(i: nat, on: bool)
      requires Valid() && IsOption(i)
      modifies this
      ensures Valid() && View() == SetOption(old(View()), i, on)
      ensures Mirrors(View(), i) && nums[i] == (if on then 1 else 0)
      ensures texts == old(texts) && forall k :: 0 <= k < COUNT && k != i ==> nums[k] == old(nums[k])
      ensures forall k :: IsOption(k) && k != i ==>
                Bit(options, KeyAt(k).kind.mask) == Bit(old(options), KeyAt(k).kind.mask)
    {
      hide KeyAt, And, With, Without;
      SetOptionMirrors(View(), i, on, i);
      forall k | IsOption(k) && k != i
        ensures And(SetOption(View(), i, on).options, KeyAt(k).kind.mask) == And(options, KeyAt(k).kind.mask)
      {
        SetOptionBits(View(), i, on, k);
      }
      nums := nums[i := if on then 1 else 0];
      if on {
        options := With(options, KeyAt(i).kind.mask);
      } else {
        options := Without(options, KeyAt(i).kind.mask);
      }
    }

    /** How the changed field reads to MADB_DsnSwitchDependents. */
    function KeySet(i: nat): int
      requires Valid() && i < COUNT && KeyAt(i).Key?
      reads this
    {
      match KeyAt(i).kind
      case Text => if texts[i] != "" then 1 else 0
      case Number => if nums[i] != 0 then 1 else 0
      case _ => nums[i]
    }

    method SwitchOne(dep: Dependency) returns (ok: bool)
      requires Valid() && dep in DEPENDENCIES
      modifies this
      ensures ok && Valid() && View() == Switch(old(View()), dep.key)
    {
      var keySet := KeySet(dep.key);
      match KeyAt(dep.dependent) {
        case Alias(_, _) => return false;
        case Key(_, Flag) =>
          nums := nums[dep.dependent := if dep.same == keySet then 1 else 0];
        case Key(_, Option(_)) =>
          SetOptionValue(dep.dependent, dep.same == keySet);
        case _ => return false;
      }
      return true;
    }

    /** MADB_DsnSwitchDependents: one pass over the dependencies. */
    method SwitchDependents(changed: nat) returns (ok: bool)
      requires Valid() && changed < COUNT && KeyAt(changed).Key?
      modifies this
      ensures ok && Valid() && View() == Switch(old(View()), changed)
    {
      ok := true;
      var d := 0;
      while d < |DEPENDENCIES|
        invariant d <= |DEPENDENCIES| && ok && Valid()
        invariant View() == if d == 2 || (d == 1 && changed == NAMEDPIPE_KEY) then Switch(old(View()), changed)
                            else old(View())
      {
        var dep := DEPENDENCIES[d];
        if dep.key == changed {
          ok := SwitchOne(dep);
          if !ok {
            return;
          }
        }
        d := d + 1;
      }
    }

    /** MADB_DsnStoreValue, overwriting. */
    method StoreValue(i: nat, value: string) returns (ok: bool)
      requires Valid() && i < COUNT
      modifies this
      ensures Valid() && (ok <==> KeyAt(i).Key?)
      ensures View() == if ok then Store(old(View()), i, value) else old(View())
    {
      match KeyAt(i) {
        case Alias(_, _) => return false;
        case Key(_, kind) =>
          match kind {
            case Text => texts := texts[i := value];
            case Flag => nums := nums[i := Byte(Atoi(value))];
            case Group =>
              var b := Byte(Atoi(value));
              if b == 0 {
                b := TlsBits(value);
              }
              nums := nums[i := b];
            case Number =>
              if i == OPTIONS_KEY {
                options := Word(Strtoul(value)) as bv32;
              } else {
                nums := nums[i := Word(Strtoul(value))];
              }
            case Option(_) => SetOptionValue(i, Strtoul(value) != 0);
          }
      }
      ok := SwitchDependents(i);
    }

    /** MADB_DsnUpdateOptionsFields */
    method UpdateOptionsFields()
      requires Valid()
      modifies this
      ensures Valid() && View() == Refresh(old(View()))
    {
      ghost var st := View();
      var i := 0;
      while i < COUNT
        invariant i <= COUNT && Valid() && texts == st.texts && options == st.options
        invariant forall k :: 0 <= k < COUNT ==>
                    nums[k] == if k < i || (k == TCPIP_KEY && i > NAMEDPIPE_KEY) then RefreshedField(st, k)
                               else st.nums[k]
      {
        if IsOption(i) {
          nums := nums[i := Bit(options, KeyAt(i).kind.mask)];
          var _ := SwitchDependents(i);
        }
        i := i + 1;
      }
      assert nums == Refresh(st).nums;
    }
  }

  // ---------------------------------------------------------------------------------
  // What every connection string keeps
  // ---------------------------------------------------------------------------------

  lemma LinkedKeys()
    ensures KeyAt(OPTIONS_KEY) == Key("OPTIONS", Number) && KeyAt(TCPIP_KEY) == Key("TCPIP", Flag)
    ensures KeyAt(NAMEDPIPE_KEY) == Key("NamedPipe", Option(NAMED_PIPE))
    ensures IsOption(NAMEDPIPE_KEY) && !IsOption(TCPIP_KEY) && !IsOption(OPTIONS_KEY)
  {
  }

  /** A field that mirrors its bit goes on doing so; setting it or OPTIONS makes it do so. */
  lemma AssignMirrors(st: State, j: nat, value: string, i: nat)
    requires Sized(st) && j < COUNT && KeyAt(j).Key? && IsOption(i)
    requires Mirrors(st, i) || j == i || j == OPTIONS_KEY
    ensures Mirrors(Assign(st, j, value), i)
  {
    hide KeyAt, Bit, With, Without, Atoi, Strtoul;
    LinkedKeys();
    if j == OPTIONS_KEY {
      assert Refreshed(Store(st, j, value), Assign(st, j, value));
    } else if IsOption(j) {
      SetOptionMirrors(st, j, Strtoul(value) != 0, i);
    } else if j == TCPIP_KEY {
      var st' := StoreField(st, j, value);
      SetOptionMirrors(st', NAMEDPIPE_KEY, st'.nums[TCPIP_KEY] == 0, i);
    }
  }

  lemma BitIsBit(o: bv32, m: bv32)
    ensures Bit(o, m) == 0 || Bit(o, m) == 1
  {
  }

  /** Every key=value keeps the two switches opposed and NamedPipe equal to its bit. */
  lemma AssignKeepsLinked(st: State, j: nat, value: string)
    requires Linked(st) && j < COUNT && KeyAt(j).Key?
    ensures Linked(Assign(st, j, value))
  {
    hide KeyAt, Bit, With, Without, Atoi, Strtoul;
    LinkedKeys();
    AssignMirrors(st, j, value, NAMEDPIPE_KEY);
    BitIsBit(Assign(st, j, value).options, NAMED_PIPE);
    if j == OPTIONS_KEY {
      assert Refreshed(Store(st, j, value), Assign(st, j, value));
    }
  }

  lemma NoCacheIsOption()
    ensures IsOption(NO_CACHE_KEY)
  {
  }

  /** NO_CACHE is set by default, its bit is not. */
  lemma DefaultsLinked()
    ensures Linked(Defaults(ZERO))
    ensures forall i :: IsOption(i) ==> (Mirrors(Defaults(ZERO), i) <==> i != NO_CACHE_KEY)
    ensures IsOption(NO_CACHE_KEY)
  {
    hide KeyAt;
    LinkedKeys();
    NoCacheIsOption();
    forall i | IsOption(i)
      ensures Mirrors(Defaults(ZERO), i) <==> i != NO_CACHE_KEY
    {
      WhichAreOptions(i);
    }
  }

  /** So does every prefix of the pairs of a connection string. */
  lemma {:induction false} PrefixesKeepLinked(st: State, pairs: seq<Pair>, k: nat)
    requires Linked(st) && Proper(pairs) && k <= |pairs|
    ensures Proper(pairs[..k]) && Linked(Apply(st, pairs[..k]))
    decreases k
  {
    hide Bit, Assign, KeyAt;
    assert pairs[..0] == [];
    if k > 0 {
      PrefixesKeepLinked(st, pairs, k - 1);
      assert pairs[..k][..k - 1] == pairs[..k - 1];
      AssignKeepsLinked(Apply(st, pairs[..k - 1]), pairs[k - 1].key, pairs[k - 1].value);
    }
  }

  // ---------------------------------------------------------------------------------
  // The last occurrence decides
  // ---------------------------------------------------------------------------------

  /** Does a value for key `j` bear on the field of key `i`? */
  predicate Bears(j: nat, i: nat) {
    || j == i
    || (IsOption(i) && j == OPTIONS_KEY)
    || (i == NAMEDPIPE_KEY && j == TCPIP_KEY)
    || (i == TCPIP_KEY && (j == NAMEDPIPE_KEY || j == OPTIONS_KEY))
  }

  /** The last pair that bears on key `i`, or -1. */
  function LastOn(pairs: seq<Pair>, i: nat): (k: int)
    ensures -1 <= k < |pairs| && (k >= 0 ==> Bears(pairs[k].key, i))
    ensures forall x :: k < x < |pairs| ==> !Bears(pairs[x].key, i)
  {
    if pairs == [] then -1
    else
      var n := |pairs| - 1;
      if Bears(pairs[n].key, i) then n else LastOn(pairs[..n], i)
  }

  /** What the field of key `i` is after pair `p`, whatever it was before. */
  ghost predicate Decided(st: State, i: nat, p: Pair)
    requires Sized(st) && i < COUNT && KeyAt(i).Key? && i != OPTIONS_KEY && Bears(p.key, i)
  {
    match KeyAt(i).kind
    case Text => st.texts[i] == p.value
    case Flag =>
      if p.key == OPTIONS_KEY then st.nums[i] == 1 - Bit(Word(Strtoul(p.value)) as bv32, NAMED_PIPE)
      else if p.key == i then st.nums[i] == Byte(Atoi(p.value))
      else st.nums[i] == if Strtoul(p.value) != 0 then 0 else 1
    case Group => st.nums[i] == if Byte(Atoi(p.value)) != 0 then Byte(Atoi(p.value)) else TlsBits(p.value)
    case Number => st.nums[i] == Word(Strtoul(p.value))
    case Option(mask) =>
      if p.key == OPTIONS_KEY then st.nums[i] == Bit(Word(Strtoul(p.value)) as bv32, mask)
      else if p.key == i then st.nums[i] == if Strtoul(p.value) != 0 then 1 else 0
      else st.nums[i] == if Byte(Atoi(p.value)) != 0 then 0 else 1
  }

  lemma AssignDecides(st: State, j: nat, value: string, i: nat)
    requires Sized(st) && j < COUNT && KeyAt(j).Key? && i < COUNT && KeyAt(i).Key? && i != OPTIONS_KEY && Bears(j, i)
    ensures Decided(Assign(st, j, value), i, Pair(j, value))
  {
    hide KeyAt, Bit, With, Without, Atoi, Strtoul, Byte, TlsBits;
    LinkedKeys();
    if j == OPTIONS_KEY {
      assert Refreshed(Store(st, j, value), Assign(st, j, value));
    }
  }

  lemma AssignLeaves(st: State, j: nat, value: string, i: nat)
    requires Sized(st) && j < COUNT && KeyAt(j).Key? && i < COUNT && KeyAt(i).Key? && i != OPTIONS_KEY && !Bears(j, i)
    ensures Assign(st, j, value).texts[i] == st.texts[i] && Assign(st, j, value).nums[i] == st.nums[i]
  {
    hide KeyAt, Bit, With, Without, Atoi, Strtoul, Byte, TlsBits;
    LinkedKeys();
    if j == OPTIONS_KEY {
      assert Refreshed(Store(st, j, value), Assign(st, j, value));
    }
  }

  /** Every field has the value its last occurrence gives it, or the one it had. */
  lemma {:induction false} LastOccurrenceDecides(st: State, pairs: seq<Pair>, i: nat)
    requires Sized(st) && Proper(pairs) && i < COUNT && KeyAt(i).Key? && i != OPTIONS_KEY
    ensures var k := LastOn(pairs, i);
            if k >= 0 then Decided(Apply(st, pairs), i, pairs[k])
            else Apply(st, pairs).texts[i] == st.texts[i] && Apply(st, pairs).nums[i] == st.nums[i]
  {
    hide Assign, KeyAt, Bears, Bit, Byte, Atoi, Strtoul, TlsBits, Word;
    if pairs != [] {
      var n := |pairs| - 1;
      var before := Apply(st, pairs[..n]);
      LastOccurrenceDecides(st, pairs[..n], i);
      if Bears(pairs[n].key, i) {
        AssignDecides(before, pairs[n].key, pairs[n].value, i);
      } else {
        AssignLeaves(before, pairs[n].key, pairs[n].value, i);
      }
    }
  }

  /** A key outside the linked group is decided by its own last occurrence alone. */
  lemma OwnOccurrenceDecides(st: State, pairs: seq<Pair>, i: nat, k: nat)
    requires Sized(st) && Proper(pairs) && i < COUNT && KeyAt(i).Key?
    requires !IsOption(i) && i != TCPIP_KEY && i != OPTIONS_KEY
    requires k < |pairs| && pairs[k].key == i && forall x :: k < x < |pairs| ==> pairs[x].key != i
    ensures Bears(pairs[k].key, i) && Decided(Apply(st, pairs), i, pairs[k])
  {
    hide KeyAt, Decided, LastOn, Apply;
    LinkedKeys();
    LastOccurrenceDecides(st, pairs, i);
    var n := LastOn(pairs, i);
    assert Bears(pairs[k].key, i) && (n >= 0 ==> pairs[n].key == i);
  }

  // ---------------------------------------------------------------------------------
  // The Options word, bit by bit
  // ---------------------------------------------------------------------------------

  /** What pair `p` leaves in the bits of option key `i`. */
  function BitsGiven(i: nat, p: Pair): bv32
    requires IsOption(i)
  {
    var m := KeyAt(i).kind.mask;
    if p.key == OPTIONS_KEY then And(Word(Strtoul(p.value)) as bv32, m)
    else if (if p.key == i then Strtoul(p.value) != 0 else Byte(Atoi(p.value)) == 0) then m else 0
  }

  lemma AssignBits(st: State, j: nat, value: string, i: nat)
    requires Sized(st) && j < COUNT && KeyAt(j).Key? && IsOption(i)
    ensures And(Assign(st, j, value).options, KeyAt(i).kind.mask)
            == if Bears(j, i) then BitsGiven(i, Pair(j, value)) else And(st.options, KeyAt(i).kind.mask)
  {
    hide KeyAt, And, With, Without, Atoi, Strtoul, Byte, TlsBits;
    LinkedKeys();
    if IsOption(j) {
      SetOptionBits(st, j, Strtoul(value) != 0, i);
    } else if j == TCPIP_KEY {
      var st' := StoreField(st, j, value);
      SetOptionBits(st', NAMEDPIPE_KEY, st'.nums[TCPIP_KEY] == 0, i);
    }
  }

  /** The bits of an option are those its last occurrence gives them: its own, OPTIONS, or TCPIP for NamedPipe. */
  lemma {:induction false} LastOccurrenceDecidesBits(st: State, pairs: seq<Pair>, i: nat)
    requires Sized(st) && Proper(pairs) && IsOption(i)
    ensures var k := LastOn(pairs, i);
            And(Apply(st, pairs).options, KeyAt(i).kind.mask)
            == if k >= 0 then BitsGiven(i, pairs[k]) else And(st.options, KeyAt(i).kind.mask)
  {
    hide Assign, KeyAt, Bears, And, BitsGiven;
    if pairs != [] {
      var n := |pairs| - 1;
      LastOccurrenceDecidesBits(st, pairs[..n], i);
      AssignBits(Apply(st, pairs[..n]), pairs[n].key, pairs[n].value, i);
    }
  }

  /** Bits that belong to no option. */
  ghost predicate NoOptionsBits(rest: bv32) {
    forall i :: IsOption(i) ==> And(KeyAt(i).kind.mask, rest) == 0
  }

  lemma AssignRest(st: State, j: nat, value: string, rest: bv32)
    requires Sized(st) && j < COUNT && KeyAt(j).Key? && NoOptionsBits(rest) && j != OPTIONS_KEY
    ensures And(Assign(st, j, value).options, rest) == And(st.options, rest)
  {
    hide KeyAt, And, With, Without, Atoi, Strtoul, Byte, TlsBits;
    LinkedKeys();
    if IsOption(j) || j == TCPIP_KEY {
      var m := KeyAt(if j == TCPIP_KEY then NAMEDPIPE_KEY else j).kind.mask;
      WithKeeps(st.options, m, rest);
      WithoutKeeps(st.options, m, rest);
    }
  }

  /** All other bits are those of the last OPTIONS. */
  lemma {:induction false} LastOptionsDecidesRest(st: State, pairs: seq<Pair>, rest: bv32)
    requires Sized(st) && Proper(pairs) && NoOptionsBits(rest)
    ensures var k := LastOn(pairs, OPTIONS_KEY);
            And(Apply(st, pairs).options, rest)
            == And(if k >= 0 then Word(Strtoul(pairs[k].value)) as bv32 else st.options, rest)
  {
    hide KeyAt, And, NoOptionsBits, Strtoul, Word;
    LinkedKeys();
    if pairs != [] {
      var n := |pairs| - 1;
      LastOptionsDecidesRest(st, pairs[..n], rest);
      if pairs[n].key != OPTIONS_KEY {
        AssignRest(Apply(st, pairs[..n]), pairs[n].key, pairs[n].value, rest);
      }
    }
  }
}
