/** The connection string keys: the table DsnKeys of ma_dsn.c. */
module DsnKeys {
  import opened CString

  datatype Kind =
    | Text                    // DSN_TYPE_STRING, DSN_TYPE_COMBO
    | Number                  // DSN_TYPE_INT
    | Flag                    // DSN_TYPE_BOOL
    | Option(mask: bv32)      // DSN_TYPE_OPTION
    | Group                   // DSN_TYPE_CBOXGROUP

  /** A key with a field of its own, or another name for the key at index `target`. */
  datatype Key = Key(name: string, kind: Kind) | Alias(name: string, target: nat)

  const NAMED_PIPE: bv32 := 8192
  const AUTO_RECONNECT: bv32 := 4194304
  const NO_PROMPT: bv32 := 16
  const USE_CNF: bv32 := 65536
  const FORWARD_CURSOR: bv32 := 2097152
  const NO_CACHE: bv32 := 1048576

  const COUNT: nat := 58

  const OPTIONS_KEY: nat := 3
  const NAMEDPIPE_KEY: nat := 5
  const TCPIP_KEY: nat := 6
  const NO_SSPS_KEY: nat := 39
  const NO_CACHE_KEY: nat := 40

  function KeyAt(i: nat): Key
    requires i < COUNT
  {
    match i
    case 0 => Key("DSN", Text)
    case 1 => Key("DESCRIPTION", Text)
    case 2 => Key("DRIVER", Text)
    case 3 => Key("OPTIONS", Number)
    case 4 => Alias("OPTION", 3)
    case 5 => Key("NamedPipe", Option(NAMED_PIPE))
    case 6 => Key("TCPIP", Flag)
    case 7 => Key("SERVER", Text)
    case 8 => Key("UID", Text)
    case 9 => Key("PWD", Text)
    case 10 => Key("DATABASE", Text)
    case 11 => Key("PORT", Number)
    case 12 => Key("INITSTMT", Text)
    case 13 => Key("CONN_TIMEOUT", Number)
    case 14 => Key("AUTO_RECONNECT", Option(AUTO_RECONNECT))
    case 15 => Key("NO_PROMPT", Option(NO_PROMPT))
    case 16 => Key("CHARSET", Text)
    case 17 => Key("TRACE", Text)
    case 18 => Key("PLUGIN_DIR", Text)
    case 19 => Key("SSLKEY", Text)
    case 20 => Key("SSLCERT", Text)
    case 21 => Key("SSLCA", Text)
    case 22 => Key("SSLCAPATH", Text)
    case 23 => Key("SSLCIPHER", Text)
    case 24 => Key("SSLVERIFY", Flag)
    case 25 => Key("TLSPEERFP", Text)
    case 26 => Key("TLSPEERFPLIST", Text)
    case 27 => Key("SSLCRL", Text)
    case 28 => Key("SSLCRLPATH", Text)
    case 29 => Key("SOCKET", Text)
    case 30 => Key("SAVEFILE", Text)
    case 31 => Key("USE_MYCNF", Option(USE_CNF))
    case 32 => Key("TLSVERSION", Group)
    case 33 => Key("FORCETLS", Flag)
    case 34 => Key("SERVERKEY", Text)
    case 35 => Key("TLSKEYPWD", Text)
    case 36 => Key("INTERACTIVE", Flag)
    case 37 => Key("FORWARDONLY", Option(FORWARD_CURSOR))
    case 38 => Key("COMPAT_MODE", Flag)
    case 39 => Key("NO_SSPS", Flag)
    case 40 => Key("NO_CACHE", Option(NO_CACHE))
    case 41 => Key("APP", Text)
    case 42 => Key("CONN_ATTRS", Text)
    case 43 => Key("BROWSER_SSO", Flag)
    case 44 => Key("IGNORE_KEYRING_SSO", Flag)
    case 45 => Key("JWT", Text)
    case 46 => Key("REWRITE_CALL_SP", Flag)
    case 47 => Key("USE_WCHAR_TYPES", Flag)
    case 48 => Key("FALLBACK_CSPS_STMT", Flag)
    case 49 => Key("TEST_MODE", Number)
    case 50 => Key("READ_TIMEOUT", Number)
    case 51 => Key("WRITE_TIMEOUT", Number)
    case 52 => Alias("SERVERNAME", 7)
    case 53 => Alias("USER", 8)
    case 54 => Alias("PASSWORD", 9)
    case 55 => Alias("DB", 10)
    case 56 => Alias("SSLFP", 25)
    case _ => Alias("SSLFPLIST", 26)
  }

  /** The key whose field is meant. */
  function MainKey(i: nat): (m: nat)
    requires i < COUNT
    ensures m < COUNT && KeyAt(m).Key? && (KeyAt(i).Key? ==> m == i)
  {
    if KeyAt(i).Alias? then KeyAt(i).target else i
  }

  function OptionMask(i: nat): bv32 {
    if i == 5 then NAMED_PIPE else if i == 14 then AUTO_RECONNECT else if i == 15 then NO_PROMPT
    else if i == 31 then USE_CNF else if i == 37 then FORWARD_CURSOR else NO_CACHE
  }

  lemma WhichAreOptions(i: nat)
    requires i < COUNT && KeyAt(i).Key?
    ensures KeyAt(i).kind.Option? <==> i in [5, 14, 15, 31, 37, 40]
    ensures KeyAt(i).kind.Option? ==> KeyAt(i).kind.mask == OptionMask(i) != 0
  {
  }

  /** The option keys have different bits. */
  lemma MasksDiffer(i: nat, j: nat)
    requires i < COUNT && j < COUNT && i != j && KeyAt(i).Key? && KeyAt(j).Key?
    requires KeyAt(i).kind.Option? && KeyAt(j).kind.Option?
    ensures KeyAt(i).kind.mask & KeyAt(j).kind.mask == 0
  {
    hide KeyAt;
    WhichAreOptions(i);
    WhichAreOptions(j);
  }

  // ---------------------------------------------------------------------------------
  // Names
  // ---------------------------------------------------------------------------------

  /** _stricmp(a, b) == 0 */
  predicate SameName(a: string, b: string) {
    |a| == |b| && forall k :: 0 <= k < |a| ==> Upper(a[k]) == Upper(b[k])
  }

  predicate NameChar(c: char) { 'a' <= c <= 'z' || 'A' <= c <= 'Z' || c == '_' }
  predicate NameChars(s: string) { forall k :: 0 <= k < |s| ==> NameChar(s[k]) }

  lemma Names0()
    ensures NameChars("DSN")
    ensures NameChars("DESCRIPTION")
    ensures NameChars("DRIVER")
    ensures NameChars("OPTIONS")
    ensures NameChars("OPTION")
    ensures NameChars("NamedPipe")
    ensures NameChars("TCPIP")
    ensures NameChars("SERVER")
    ensures NameChars("UID")
    ensures NameChars("PWD")
  {
  }

  lemma Names1()
    ensures NameChars("DATABASE")
    ensures NameChars("PORT")
    ensures NameChars("INITSTMT")
    ensures NameChars("CONN_TIMEOUT")
    ensures NameChars("AUTO_RECONNECT")
    ensures NameChars("NO_PROMPT")
    ensures NameChars("CHARSET")
    ensures NameChars("TRACE")
    ensures NameChars("PLUGIN_DIR")
    ensures NameChars("SSLKEY")
  {
  }

  lemma Names2()
    ensures NameChars("SSLCERT")
    ensures NameChars("SSLCA")
    ensures NameChars("SSLCAPATH")
    ensures NameChars("SSLCIPHER")
    ensures NameChars("SSLVERIFY")
    ensures NameChars("TLSPEERFP")
    ensures NameChars("TLSPEERFPLIST")
    ensures NameChars("SSLCRL")
    ensures NameChars("SSLCRLPATH")
    ensures NameChars("SOCKET")
  {
  }

  lemma Names3()
    ensures NameChars("SAVEFILE")
    ensures NameChars("USE_MYCNF")
    ensures NameChars("TLSVERSION")
    ensures NameChars("FORCETLS")
    ensures NameChars("SERVERKEY")
    ensures NameChars("TLSKEYPWD")
    ensures NameChars("INTERACTIVE")
    ensures NameChars("FORWARDONLY")
    ensures NameChars("COMPAT_MODE")
    ensures NameChars("NO_SSPS")
  {
  }

  lemma Names4()
    ensures NameChars("NO_CACHE")
    ensures NameChars("APP")
    ensures NameChars("CONN_ATTRS")
    ensures NameChars("BROWSER_SSO")
    ensures NameChars("IGNORE_KEYRING_SSO")
    ensures NameChars("JWT")
    ensures NameChars("REWRITE_CALL_SP")
    ensures NameChars("USE_WCHAR_TYPES")
    ensures NameChars("FALLBACK_CSPS_STMT")
    ensures NameChars("TEST_MODE")
  {
  }

  lemma Names5()
    ensures NameChars("READ_TIMEOUT")
    ensures NameChars("WRITE_TIMEOUT")
    ensures NameChars("SERVERNAME")
    ensures NameChars("USER")
    ensures NameChars("PASSWORD")
    ensures NameChars("DB")
    ensures NameChars("SSLFP")
    ensures NameChars("SSLFPLIST")
  {
  }

  /** Names consist of letters and underscores. */
  lemma NamesArePlain(i: nat)
    requires i < COUNT
    ensures NameChars(KeyAt(i).name) && |KeyAt(i).name| >= 2
  {
    hide NameChars;
    Names0();
    Names1();
    Names2();
    Names3();
    Names4();
    Names5();
  }

  /** Length, third and last but one letter tell the names apart. */
  function Slot(n: nat, c: char, e: char): int {
    match n
    case 2 => 55
    case 3 => if c == 'N' then 0 else if c == 'D' && e == 'I' then 8 else
              if c == 'D' && e == 'W' then 9 else if c == 'P' then 41 else 45
    case 4 => if c == 'R' then 11 else 53
    case 5 => if c == 'P' then 6 else if c == 'A' then 17 else if c == 'L' && e == 'C' then 21 else 56
    case 6 => if c == 'I' then 2 else if c == 'T' then 4 else if c == 'R' then 7 else
              if c == 'L' && e == 'E' then 19 else if c == 'L' && e == 'R' then 27 else 29
    case 7 => if c == 'T' then 3 else if c == 'A' then 16 else if c == 'L' then 20 else 39
    case 8 => if c == 'T' then 10 else if c == 'I' then 12 else if c == 'V' then 30 else
              if c == 'R' then 33 else if c == '_' then 40 else 54
    case 9 => if c == 'M' then 5 else if c == '_' then 15 else if c == 'L' && e == 'T' then 22 else
              if c == 'L' && e == 'E' then 23 else if c == 'L' && e == 'F' then 24 else
              if c == 'S' && e == 'F' then 25 else if c == 'E' then 31 else if c == 'R' then 34 else
              if c == 'S' && e == 'W' then 35 else if c == 'S' && e == 'D' then 49 else 57
    case 10 => if c == 'U' then 18 else if c == 'L' then 28 else if c == 'S' then 32 else
              if c == 'N' then 42 else 52
    case 11 => if c == 'S' then 1 else if c == 'T' then 36 else if c == 'R' then 37 else
              if c == 'M' then 38 else 43
    case 12 => if c == 'N' then 13 else 50
    case 13 => if c == 'S' then 26 else 51
    case 14 => 14
    case 15 => if c == 'W' then 46 else 47
    case 18 => if c == 'N' then 44 else 48
    case _ => COUNT
  }

  function SlotOf(name: string): int
    requires |name| >= 2
  {
    Slot(|name|, if |name| == 2 then '-' else Upper(name[2]), Upper(name[|name| - 2]))
  }

  lemma Slots0(i: nat)
    requires i < 15
    ensures |KeyAt(i).name| >= 2 && SlotOf(KeyAt(i).name) == i
  {
  }

  lemma Slots1(i: nat)
    requires 15 <= i < 30
    ensures |KeyAt(i).name| >= 2 && SlotOf(KeyAt(i).name) == i
  {
  }

  lemma Slots2(i: nat)
    requires 30 <= i < 42
    ensures |KeyAt(i).name| >= 2 && SlotOf(KeyAt(i).name) == i
  {
  }

  lemma Slots3(i: nat)
    requires 42 <= i < 50
    ensures |KeyAt(i).name| >= 2 && SlotOf(KeyAt(i).name) == i
  {
  }

  lemma Slots4(i: nat)
    requires 50 <= i < COUNT
    ensures |KeyAt(i).name| >= 2 && SlotOf(KeyAt(i).name) == i
  {
  }

  lemma SlotIs(i: nat)
    requires i < COUNT
    ensures |KeyAt(i).name| >= 2 && SlotOf(KeyAt(i).name) == i
  {
    hide *;
    if i < 15 {
      Slots0(i);
    } else if i < 30 {
      Slots1(i);
    } else if i < 42 {
      Slots2(i);
    } else if i < 50 {
      Slots3(i);
    } else {
      Slots4(i);
    }
  }

  /** No two keys have the same name, upper or lower case. */
  lemma NamesDiffer(i: nat, j: nat)
    requires i < COUNT && j < COUNT && SameName(KeyAt(i).name, KeyAt(j).name)
    ensures i == j
  {
    hide Slot, KeyAt;
    SlotIs(i);
    SlotIs(j);
    var a, b := KeyAt(i).name, KeyAt(j).name;
    assert Upper(a[|a| - 2]) == Upper(b[|a| - 2]);
  }

  ghost predicate IsKey(name: string, i: nat) {
    && (i < COUNT ==> SameName(KeyAt(i).name, name))
    && (i >= COUNT ==> i == COUNT && forall k :: 0 <= k < COUNT ==> !SameName(KeyAt(k).name, name))
  }

  /** The loop over the table: the first key of that name, or COUNT. */
  method FindKey(name: string) returns (i: nat)
    ensures i <= COUNT && IsKey(name, i)
  {
    hide KeyAt;
    i := 0;
    while i < COUNT
      invariant i <= COUNT && forall k :: 0 <= k < i ==> !SameName(KeyAt(k).name, name)
    {
      if SameName(KeyAt(i).name, name) {
        return;
      }
      i := i + 1;
    }
  }

  /** The key of that name, or COUNT. */
  ghost function KeyNamed(name: string): (i: nat)
    ensures i <= COUNT
  {
    if exists k :: 0 <= k < COUNT && SameName(KeyAt(k).name, name) then
      var k :| 0 <= k < COUNT && SameName(KeyAt(k).name, name);
      k
    else COUNT
  }

  /** A name belongs to at most one key. */
  lemma KeyIsUnique(name: string, i: nat)
    requires IsKey(name, i)
    ensures i == KeyNamed(name)
  {
    hide KeyAt;
    var j := KeyNamed(name);
    if i < COUNT && j < COUNT {
      assert SameName(KeyAt(i).name, KeyAt(j).name);
      NamesDiffer(i, j);
    }
  }
}
