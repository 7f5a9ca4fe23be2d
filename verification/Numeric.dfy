/**
Decimal text to SQL_NUMERIC_STRUCT: MADB_CharToSQLNumeric.

The digits are copied to a buffer, which is halved in place once per bit; the remainders
make up the little-endian bytes of the struct.  Digits are held here by their value.
*/
module Numeric {
  import opened Common
  import opened CString

  const DEFAULT_PRECISION: nat := 38   // MADB_DEFAULT_PRECISION
  const MAX_NUMERIC_LEN: nat := 16     // SQL_MAX_NUMERIC_LEN

  // ---------------------------------------------------------------------------------
  // What digits and bytes stand for
  // ---------------------------------------------------------------------------------

  predicate AreDigits(s: seq<int>) { forall i :: 0 <= i < |s| ==> 0 <= s[i] <= 9 }

  /** The number written by decimal digits, most significant first. */
  function Dec(s: seq<int>): int {
    if s == [] then 0 else 10 * Dec(s[..|s| - 1]) + s[|s| - 1]
  }

  function Pow(base: int, e: nat): (p: int)
    ensures base > 0 ==> p > 0
  {
    if e == 0 then 1 else base * Pow(base, e - 1)
  }

  /** The number stored in little-endian bytes. */
  function Bytes(s: seq<int>): int {
    if s == [] then 0 else Bytes(s[..|s| - 1]) + Pow(256, |s| - 1) * s[|s| - 1]
  }

  lemma DecAppend(s: seq<int>, d: int)
    ensures Dec(s + [d]) == 10 * Dec(s) + d
  {
    assert (s + [d])[..|s|] == s;
  }

  /** A digit in front weighs a power of ten; leading zeros weigh nothing. */
  lemma {:induction false} DecCons(d: int, s: seq<int>)
    ensures Dec([d] + s) == d * Pow(10, |s|) + Dec(s)
  {
    if s == [] {
      assert [d] + s == [] + [d];
    } else {
      var k := |s| - 1;
      DecCons(d, s[..k]);
      assert ([d] + s)[..|s|] == [d] + s[..k];
      assert d * Pow(10, |s|) == 10 * (d * Pow(10, k));
    }
  }

  lemma {:induction false} DecLeadingZeros(s: seq<int>, z: nat)
    requires z <= |s| && forall i :: 0 <= i < z ==> s[i] == 0
    ensures Dec(s) == Dec(s[z..])
  {
    if z > 0 {
      DecCons(0, s[1..]);
      assert s == [0] + s[1..];
      DecLeadingZeros(s[1..], z - 1);
      assert s[1..][z - 1..] == s[z..];
    }
  }

  lemma {:induction false} DecConcat(s: seq<int>, t: seq<int>)
    ensures Dec(s + t) == Dec(s) * Pow(10, |t|) + Dec(t)
  {
    if t == [] {
      assert s + t == s;
    } else {
      var k := |t| - 1;
      DecConcat(s, t[..k]);
      assert (s + t)[..|s + t| - 1] == s + t[..k];
      assert 10 * (Dec(s) * Pow(10, k)) == Dec(s) * Pow(10, |t|);
    }
  }

  lemma {:induction false} DecBound(s: seq<int>)
    requires AreDigits(s)
    ensures 0 <= Dec(s) < Pow(10, |s|)
  {
    if s != [] {
      DecBound(s[..|s| - 1]);
    }
  }

  lemma {:induction false} DecZero(s: seq<int>)
    requires AreDigits(s)
    ensures Dec(s) == 0 <==> forall i :: 0 <= i < |s| ==> s[i] == 0
  {
    if s != [] {
      DecZero(s[..|s| - 1]);
      DecBound(s[..|s| - 1]);
      assert forall i :: 0 <= i < |s| - 1 ==> s[..|s| - 1][i] == s[i];
    }
  }

  lemma {:induction false} BytesTrailingZeros(s: seq<int>, n: nat)
    requires n <= |s| && forall i :: n <= i < |s| ==> s[i] == 0
    ensures Bytes(s) == Bytes(s[..n])
  {
    if n < |s| {
      BytesTrailingZeros(s[..|s| - 1], n);
      assert s[..|s| - 1][..n] == s[..n];
    } else {
      assert s[..n] == s;
    }
  }

  // ---------------------------------------------------------------------------------
  // The halving loop
  // ---------------------------------------------------------------------------------

  method HalfAndRemainder(tv: nat) returns (half: int, dig: int)
    ensures tv == 2 * half + dig && 0 <= dig <= 1
  {
    half, dig := tv / 2, tv % 2;
  }

  /** One pass of the inner loop: halves the digits from `from` on and returns the remainder. */
  method HalvePass(digits: array<int>, from: nat, count: nat) returns (dig: int, sta: nat)
    requires from <= count <= digits.Length && forall x :: from <= x < count ==> 0 <= digits[x] <= 9
    modifies digits
    ensures forall x :: from <= x < count ==> 0 <= digits[x] <= 9
    ensures 0 <= dig <= 1 && Dec(old(digits[from..count])) == 2 * Dec(digits[from..count]) + dig
    ensures from <= sta <= count && forall i :: from <= i < sta ==> digits[i] == 0
    ensures Dec(old(digits[from..count])) == 0 ==> sta == count
  {
    dig, sta := 0, from;
    ghost var read: seq<int>, halved: seq<int> := [], [];
    for i := from to count
      invariant 0 <= dig <= 1
      invariant |read| == |halved| == i - from && AreDigits(halved)
      invariant forall x :: from <= x < i ==> read[x - from] == old(digits[x]) && halved[x - from] == digits[x]
      invariant forall x :: i <= x < count ==> digits[x] == old(digits[x])
      invariant Dec(read) == 2 * Dec(halved) + dig
      invariant from <= sta <= i && forall x :: from <= x < sta ==> digits[x] == 0
      invariant Dec(read) == 0 ==> sta == i
    {
      DecAppend(read, digits[i]);
      DecBound(halved);
      read := read + [digits[i]];
      var tv := dig * 10 + digits[i];
      var half;
      half, dig := HalfAndRemainder(tv);
      digits[i] := half;
      DecAppend(halved, half);
      halved := halved + [half];
      if i == sta && tv < 2 {
        sta := sta + 1;
      }
    }
    assert read == old(digits[from..count]) && halved == digits[from..count];
  }

  /** The number still to be emitted, given the bits already collected for the current byte. */
  ghost function Pending(hval: int, bit: int, rest: int): int { hval + bit * rest }

  lemma TakeBit(hval: int, bit: int, rest: int, rest': int, dig: int)
    requires rest == 2 * rest' + dig
    ensures Pending(hval, bit, rest) == Pending(hval + bit * dig, 2 * bit, rest')
  {
    assert bit * rest == bit * (2 * rest') + bit * dig;
    assert bit * (2 * rest') == (2 * bit) * rest';
  }

  lemma EmitByte(val: seq<int>, olen: nat, hval: int, rest: int)
    requires olen < |val|
    ensures Bytes(val[olen := hval][..olen + 1]) + Pow(256, olen + 1) * Pending(0, 1, rest)
            == Bytes(val[..olen]) + Pow(256, olen) * Pending(hval, 256, rest)
  {
    var v' := val[olen := hval][..olen + 1];
    assert v'[..olen] == val[..olen];
    assert Pow(256, olen) * (hval + 256 * rest) == Pow(256, olen) * hval + Pow(256, olen) * (256 * rest);
    assert Pow(256, olen) * (256 * rest) == Pow(256, olen + 1) * rest;
  }

  predicate IsBit(bit: int) { bit in {1, 2, 4, 8, 16, 32, 64, 128} }

  predicate AreBytes(s: seq<int>) { forall i :: 0 <= i < |s| ==> 0 <= s[i] <= 255 }

  lemma {:induction false} BytesBound(s: seq<int>)
    requires AreBytes(s)
    ensures 0 <= Bytes(s) < Pow(256, |s|)
  {
    if s != [] {
      var k := |s| - 1;
      BytesBound(s[..k]);
      assert Pow(256, k) * s[k] <= Pow(256, k) * 255;
    }
  }

  lemma MulAssoc(a: int, b: int, c: int)
    ensures (a * b) * c == a * (b * c)
  {
  }

  lemma MulMonotonic(a: int, x: int, y: int)
    requires 0 <= a && x <= y
    ensures a * x <= a * y
  {
  }

  lemma ModFrom(v: int, m: int, q: int, r: int)
    requires 0 <= r < m && v == r + m * q
    ensures v % m == r
  {
    var d := v / m;
    assert v == m * d + v % m;
    if d < q {
      MulMonotonic(m, d + 1, q);
    } else if d > q {
      MulMonotonic(m, q + 1, d);
    }
  }

  /** What the halving loop keeps: the input is what is emitted plus what is pending. */
  ghost predicate Emitted(v: int, val: seq<int>, olen: nat, hval: int, bit: int, rest: int) {
    && olen < MAX_NUMERIC_LEN == |val|
    && IsBit(bit) && 0 <= hval < bit
    && AreBytes(val) && (forall i :: olen <= i < |val| ==> val[i] == 0)
    && v == Bytes(val[..olen]) + Pow(256, olen) * Pending(hval, bit, rest)
  }

  /** One more bit, and a whole byte when the eighth bit is taken. */
  lemma EmittedBit(v: int, val: seq<int>, olen: nat, hval: int, bit: int, rest: int, rest': int, dig: int)
    requires Emitted(v, val, olen, hval, bit, rest) && olen < MAX_NUMERIC_LEN - 1
    requires rest == 2 * rest' + dig && 0 <= dig <= 1
    ensures var hval' := if dig > 0 then hval + bit else hval;
            if bit < 128 then Emitted(v, val, olen, hval', 2 * bit, rest')
            else Emitted(v, val[olen := hval'], olen + 1, 0, 1, rest')
  {
    var hval' := if dig > 0 then hval + bit else hval;
    assert hval' == hval + bit * dig;
    TakeBit(hval, bit, rest, rest', dig);
    if bit == 128 {
      EmitByte(val, olen, hval', rest');
    }
  }

  lemma BytesLast(val: seq<int>, olen: nat, hval: int)
    requires olen < |val| && forall i :: olen <= i < |val| ==> val[i] == 0
    ensures Bytes(val[olen := hval]) == Bytes(val[..olen]) + Pow(256, olen) * hval
  {
    var last := val[olen := hval];
    BytesTrailingZeros(last, olen + 1);
    assert last[..olen + 1][..olen] == val[..olen];
  }

  /** When everything is emitted, or fifteen bytes are full, the bytes hold the input modulo 2^120. */
  lemma EmittedAll(v: int, val: seq<int>, olen: nat, hval: int, bit: int, rest: int)
    requires Emitted(v, val, olen, hval, bit, rest)
    requires rest == 0 || (olen == MAX_NUMERIC_LEN - 1 && hval == 0 && bit == 1)
    requires olen == MAX_NUMERIC_LEN - 1 ==> hval == 0
    ensures AreBytes(val[olen := hval]) && val[olen] == 0
    ensures Bytes(val[olen := hval]) == v % Pow(256, MAX_NUMERIC_LEN - 1)
  {
    hide Pow, Bytes;
    var m := MAX_NUMERIC_LEN - 1;
    var last := val[olen := hval];
    BytesLast(val, olen, hval);
    assert last[m] == 0;
    BytesTrailingZeros(last, m);
    BytesBound(last[..m]);
    if rest == 0 {
      ModFrom(v, Pow(256, m), 0, Bytes(last));
    } else {
      ModFrom(v, Pow(256, m), rest, Bytes(last));
    }
  }

  /** MADB_CharToSQLNumeric, the loop that empties the digit buffer into the struct's bytes. */
  method Halve(digits: array<int>, count: nat, val: array<int>)
    requires count <= digits.Length && forall x :: 0 <= x < count ==> 0 <= digits[x] <= 9
    requires val.Length == MAX_NUMERIC_LEN && digits != val && forall i :: 0 <= i < val.Length ==> val[i] == 0
    modifies digits, val
    ensures Bytes(val[..]) == Dec(old(digits[..count])) % Pow(256, MAX_NUMERIC_LEN - 1)
    ensures AreBytes(val[..])
  {
    ghost var v := Dec(digits[..count]);
    var hval, bit, sta: nat, olen: nat := 0, 1, 0, 0;
    assert digits[0..count] == digits[..count];
    assert Emitted(v, val[..], olen, hval, bit, Dec(digits[sta..count]));
    assert Dec([]) == 0;
    hide Emitted, Dec, Bytes, Pow;
    while sta < count
      invariant sta <= count && forall x :: sta <= x < count ==> 0 <= digits[x] <= 9
      invariant olen < MAX_NUMERIC_LEN - 1 && IsBit(bit) && 0 <= hval < bit
      invariant Emitted(v, val[..], olen, hval, bit, Dec(digits[sta..count]))
      decreases Dec(digits[sta..count]), count - sta
    {
      ghost var rest, sta0 := Dec(digits[sta..count]), sta;
      DecBound(digits[sta..count]);
      var dig;
      dig, sta := HalvePass(digits, sta, count);
      ghost var rest' := Dec(digits[sta..count]);
      assert rest' == Dec(digits[sta0..count]) by {
        DecLeadingZeros(digits[sta0..count], sta - sta0);
        assert digits[sta0..count][sta - sta0..] == digits[sta..count];
      }
      EmittedBit(v, val[..], olen, hval, bit, rest, rest', dig);
      if dig > 0 {
        hval := hval + bit;           // hval |= bit; every bit of hval lies below bit
      }
      bit := bit * 2;
      if bit >= 256 {
        ghost var bytes := val[..];
        val[olen] := hval;
        assert val[..] == bytes[olen := hval];
        olen, hval, bit := olen + 1, 0, 1;
        if olen >= MAX_NUMERIC_LEN - 1 {
          break;
        }
      }
    }
    assert sta == count ==> digits[sta..count] == [];
    EmittedAll(v, val[..], olen, hval, bit, Dec(digits[sta..count]));
    ghost var bytes := val[..];
    if hval > 0 && olen < MAX_NUMERIC_LEN - 1 {
      val[olen] := hval;
    }
    assert val[..] == bytes[olen := hval];
  }

  // ---------------------------------------------------------------------------------
  // Decimal text
  // ---------------------------------------------------------------------------------

  /** A decimal number as the server writes it: sign, whole digits, and digits after a dot. */
  datatype Decimal = Decimal(neg: bool, whole: seq<int>, dot: bool, frac: seq<int>)

  predicate IsDecimal(d: Decimal) {
    AreDigits(d.whole) && AreDigits(d.frac) && (d.frac != [] ==> d.dot)
  }

  function Chars(s: seq<int>): (t: string)
    requires AreDigits(s)
    ensures |t| == |s| && forall i :: 0 <= i < |s| ==> t[i] == DigitChar(s[i])
  {
    seq(|s|, i requires 0 <= i < |s| => DigitChar(s[i]))
  }

  function Written(d: Decimal): string
    requires IsDecimal(d)
  {
    (if d.neg then "-" else "") + Chars(d.whole) + (if d.dot then "." + Chars(d.frac) else "")
  }

  /** Number of leading zeros. */
  function LeadingZeros(s: seq<int>): (z: nat)
    ensures z <= |s| && (forall i :: 0 <= i < z ==> s[i] == 0) && (z < |s| ==> s[z] != 0)
  {
    if s == [] || s[0] != 0 then 0 else 1 + LeadingZeros(s[1..])
  }

  /** Number of digits up to the last one that is not zero. */
  function Significant(s: seq<int>): (f: nat)
    ensures f <= |s| && (forall i :: f <= i < |s| ==> s[i] == 0) && (f > 0 ==> s[f - 1] != 0)
  {
    if s == [] then 0 else if s[|s| - 1] != 0 then |s| else Significant(s[..|s| - 1])
  }

  /** The whole digits without leading zeros. */
  function Whole(d: Decimal): seq<int> { d.whole[LeadingZeros(d.whole)..] }

  // ---------------------------------------------------------------------------------
  // The conversion
  // ---------------------------------------------------------------------------------

  datatype Conversion =
    | Number(negative: bool, scale: nat, val: seq<int>)  // the filled SQL_NUMERIC_STRUCT
    | Overflow                                           // SQLSTATE 22003
    | Unwritten                                          // bytes of the local buffer are read that nothing wrote

  /** The struct denotes exactly the number written: sign * val * 10^-scale is its value. */
  ghost predicate Denotes(r: Conversion, d: Decimal) {
    && r.Number?
    && r.negative == d.neg
    && Bytes(r.val) * Pow(10, |d.frac|) == Dec(d.whole + d.frac) * Pow(10, r.scale)
  }

  /** The number written, times 10^scale, is an integer. */
  ghost function Scaled(d: Decimal, scale: nat): int
    requires Significant(d.frac) <= scale
  {
    var f := Significant(d.frac);
    Dec(d.whole) * Pow(10, scale) + Dec(d.frac[..f]) * Pow(10, scale - f)
  }

  const LIMIT: int := Pow(256, MAX_NUMERIC_LEN - 1)   // 2^120

  /** What a caller can check on the text beforehand. */
  ghost predicate Representable(d: Decimal, scale: nat) {
    && Significant(d.frac) <= scale
    && (scale > 0 && Dec(d.whole) > 0 ==> d.dot)
    && Scaled(d, scale) < LIMIT
  }

  lemma {:induction false} PowAdd(base: int, a: nat, b: nat)
    ensures Pow(base, a + b) == Pow(base, a) * Pow(base, b)
  {
    if a > 0 {
      PowAdd(base, a - 1, b);
      MulAssoc(base, Pow(base, a - 1), Pow(base, b));
    }
  }

  /** Trailing zeros of the fraction only multiply. */
  lemma DecSignificant(d: Decimal)
    ensures var f := Significant(d.frac);
            Dec(d.whole + d.frac) == Dec(d.whole + d.frac[..f]) * Pow(10, |d.frac| - f)
  {
    var f := Significant(d.frac);
    assert d.whole + d.frac == (d.whole + d.frac[..f]) + d.frac[f..];
    DecConcat(d.whole + d.frac[..f], d.frac[f..]);
    DecZero(d.frac[f..]);
  }

  lemma DecWholeAndFraction(d: Decimal)
    ensures var f := Significant(d.frac);
            Dec(d.whole + d.frac[..f]) == Dec(d.whole) * Pow(10, f) + Dec(d.frac[..f])
  {
    DecConcat(d.whole, d.frac[..Significant(d.frac)]);
  }

  lemma MulSwap(a: int, b: int, c: int, d: int)
    ensures (a * b) * (c * d) == (a * c) * (d * b)
  {
    calc {
      (a * b) * (c * d);
      a * (b * (c * d));
      { assert b * (c * d) == c * (d * b); }
      a * (c * (d * b));
      (a * c) * (d * b);
    }
  }

  lemma Distribute(w: int, p: int, x: int, q: int)
    ensures (w * p + x) * q == w * (q * p) + x * q
  {
    assert (w * p) * q == w * (q * p);
  }

  /** A number with at most `scale` significant decimals is Scaled * 10^-scale. */
  lemma ScaledDenotes(d: Decimal, scale: nat)
    requires Significant(d.frac) <= scale
    ensures Dec(d.whole + d.frac) * Pow(10, scale) == Scaled(d, scale) * Pow(10, |d.frac|)
  {
    var f := Significant(d.frac);
    var y, g := Dec(d.whole + d.frac[..f]), |d.frac| - f;
    DecSignificant(d);
    DecWholeAndFraction(d);
    PowAdd(10, scale - f, f);
    PowAdd(10, f, g);
    var w, x, pf, pg, ps := Dec(d.whole), Dec(d.frac[..f]), Pow(10, f), Pow(10, g), Pow(10, scale - f);
    MulSwap(y, pg, ps, pf);
    Distribute(w, pf, x, ps);
  }

  lemma NeverEndsInZero(b: int, p: int, k: int, digit: int)
    requires 1 <= digit <= 9
    ensures b * (10 * p) != 10 * k + digit
  {
    var q := b * p;
    assert b * (10 * p) == 10 * q;
  }

  lemma RegroupFactors(b: int, y: int, pd: int, ps: int, pg: int)
    ensures b * ((pd * ps) * pg) == (b * pd) * (ps * pg)
    ensures y * pg * ps == y * (ps * pg)
  {
    assert (pd * ps) * pg == pd * (ps * pg);
    assert b * (pd * (ps * pg)) == (b * pd) * (ps * pg);
    assert y * pg * ps == y * (pg * ps);
  }

  lemma CancelFactor(a: int, b: int, m: int)
    requires m > 0 && a * m == b * m
    ensures a == b
  {
    if a < b {
      MulMonotonic(m, a + 1, b);
    } else if b < a {
      MulMonotonic(m, b + 1, a);
    }
  }

  lemma StaysDifferent(b: int, y: int, pd: int, ps: int, pg: int)
    requires ps > 0 && pg > 0 && b * pd != y
    ensures b * ((pd * ps) * pg) != y * pg * ps
  {
    RegroupFactors(b, y, pd, ps, pg);
    if (b * pd) * (ps * pg) == y * (ps * pg) {
      CancelFactor(b * pd, y, ps * pg);
    }
  }

  lemma LastDigit(d: Decimal)
    requires Significant(d.frac) > 0
    ensures var f := Significant(d.frac);
            Dec(d.whole + d.frac[..f]) == 10 * Dec(d.whole + d.frac[..f - 1]) + d.frac[f - 1]
  {
    var f := Significant(d.frac);
    assert d.whole + d.frac[..f] == (d.whole + d.frac[..f - 1]) + [d.frac[f - 1]];
    DecAppend(d.whole + d.frac[..f - 1], d.frac[f - 1]);
  }

  /** A number with more significant decimals than `scale` is no multiple of 10^-scale. */
  lemma TooManyDecimals(d: Decimal, scale: nat, b: int)
    requires Significant(d.frac) > scale && AreDigits(d.frac)
    ensures b * Pow(10, |d.frac|) != Dec(d.whole + d.frac) * Pow(10, scale)
  {
    var f := Significant(d.frac);
    var y, g := Dec(d.whole + d.frac[..f]), |d.frac| - f;
    DecSignificant(d);
    PowAdd(10, f, g);
    PowAdd(10, f - scale, scale);
    LastDigit(d);
    NeverEndsInZero(b, Pow(10, f - scale - 1), Dec(d.whole + d.frac[..f - 1]), d.frac[f - 1]);
    StaysDifferent(b, y, Pow(10, f - scale), Pow(10, scale), Pow(10, g));
  }

  /** 10^36 < 2^120 <= 10^38 */
  lemma Limit()
    ensures Pow(10, 36) < LIMIT <= Pow(10, 38)
  {
    assert Pow(256, 1) == 256 && Pow(256, 2) == 65536 && Pow(256, 3) == 16777216;
    PowAdd(256, 3, 3);
    PowAdd(256, 6, 6);
    PowAdd(256, 12, 3);
    assert LIMIT == 1329227995784915872903807060280344576;
    assert Pow(10, 1) == 10 && Pow(10, 2) == 100 && Pow(10, 3) == 1000;
    PowAdd(10, 3, 3);
    PowAdd(10, 6, 6);
    PowAdd(10, 12, 12);
    PowAdd(10, 24, 12);
    PowAdd(10, 36, 2);
  }

  lemma {:induction false} PowMonotonic(base: int, a: nat, b: nat)
    requires base >= 1 && a <= b
    ensures Pow(base, a) <= Pow(base, b)
  {
    if a < b {
      PowMonotonic(base, a, b - 1);
      MulMonotonic(Pow(base, b - 1), 1, base);
    }
  }

  /** The halving loop is exact for every number of up to 36 digits. */
  lemma ExactUpTo36Digits(s: seq<int>)
    requires AreDigits(s) && |s| <= 36
    ensures Dec(s) % LIMIT == Dec(s)
  {
    DecBound(s);
    PowMonotonic(10, |s|, 36);
    Limit();
    ModFrom(Dec(s), LIMIT, 0, Dec(s));
  }

  // ---------------------------------------------------------------------------------
  // Which digits the buffer holds, and when they denote the number written
  // ---------------------------------------------------------------------------------

  function Zeros(n: nat): (s: seq<int>)
    ensures |s| == n && forall i :: 0 <= i < n ==> s[i] == 0
  {
    seq(n, _ => 0)
  }

  /** The number of whole digits the source counts, and the number of decimals that matter. */
  ghost predicate Overflows(d: Decimal, precision: nat, scale: nat) {
    || |Whole(d)| > precision
    || (d.dot && scale > 0 && |Whole(d)| + scale > precision && Significant(d.frac) > 0)
  }

  ghost predicate ReadsUnwritten(d: Decimal, precision: nat, scale: nat) {
    && |Whole(d)| <= precision && Significant(d.frac) == 0
    && d.dot && scale > 0 && precision < Min(|Whole(d)| + scale, DEFAULT_PRECISION)
  }

  /** The digits emptied into the struct. */
  ghost function Taken(d: Decimal, precision: nat, scale: nat): seq<int>
    requires precision <= DEFAULT_PRECISION
    requires !Overflows(d, precision, scale) && !ReadsUnwritten(d, precision, scale)
  {
    var w, f := Whole(d), Significant(d.frac);
    if d.dot && scale > 0 then
      var t := w + d.frac[..f] + Zeros(if f < scale then Min(precision, |w| + scale) - |w| - f else 0);
      t[..Min(|t|, DEFAULT_PRECISION)]
    else w
  }

  lemma DecWhole(d: Decimal)
    ensures Dec(Whole(d)) == Dec(d.whole)
  {
    DecLeadingZeros(d.whole, LeadingZeros(d.whole));
  }

  /** Enough room: the digits taken are the scaled number. */
  lemma TakenIsScaled(d: Decimal, precision: nat, scale: nat)
    requires IsDecimal(d) && precision <= DEFAULT_PRECISION
    requires d.dot && 0 < scale && Significant(d.frac) <= scale && |Whole(d)| + scale <= precision
    ensures Dec(Taken(d, precision, scale)) == Scaled(d, scale)
  {
    var w, f := Whole(d), Significant(d.frac);
    var t := w + d.frac[..f] + Zeros(scale - f);
    assert Taken(d, precision, scale) == t;
    assert t == w + (d.frac[..f] + Zeros(scale - f));
    DecConcat(w, d.frac[..f] + Zeros(scale - f));
    DecConcat(d.frac[..f], Zeros(scale - f));
    DecZero(Zeros(scale - f));
    DecWhole(d);
  }

  lemma DecAtLeast(w: seq<int>)
    requires AreDigits(w) && w != [] && w[0] > 0
    ensures Dec(w) >= Pow(10, |w| - 1)
  {
    hide Pow, Dec;
    assert w == [w[0]] + w[1..];
    DecCons(w[0], w[1..]);
    DecBound(w[1..]);
    MulMonotonic(Pow(10, |w| - 1), 1, w[0]);
  }

  /** A number with a whole part and more than 38 digits in all is out of reach. */
  lemma OutOfReach(d: Decimal, scale: nat)
    requires IsDecimal(d) && Whole(d) != [] && |Whole(d)| + scale > DEFAULT_PRECISION
    ensures Dec(d.whole) * Pow(10, scale) >= LIMIT
  {
    hide Pow, Dec;
    var w := Whole(d);
    DecWhole(d);
    DecAtLeast(w);
    MulMonotonic(Pow(10, scale), Pow(10, |w| - 1), Dec(w));
    PowAdd(10, |w| - 1, scale);
    PowMonotonic(10, DEFAULT_PRECISION, |w| - 1 + scale);
    Limit();
  }

  lemma WholeIsNothing(d: Decimal)
    requires IsDecimal(d)
    ensures Dec(d.whole) >= 0 && (Dec(d.whole) == 0 <==> Whole(d) == [])
  {
    DecBound(d.whole);
    DecZero(d.whole);
  }

  lemma InLimitOrNot(v: int, b: int)
    requires 0 <= v && b == v % LIMIT
    ensures b == v <==> v < LIMIT
  {
    if v < LIMIT {
      ModFrom(v, LIMIT, 0, v);
    }
  }

  lemma WithoutRoom(d: Decimal, precision: nat, scale: nat, b: int)
    requires IsDecimal(d) && precision <= DEFAULT_PRECISION && Significant(d.frac) == 0
    requires !Overflows(d, precision, scale) && !ReadsUnwritten(d, precision, scale)
    requires d.dot && scale > 0 && |Whole(d)| + scale > precision
    requires b == Dec(Taken(d, precision, scale)) % LIMIT
    ensures b == Scaled(d, scale) <==> Representable(d, scale)
  {
    assert d.frac[..0] == [] && Dec([]) == 0;
    WholeIsNothing(d);
    if Whole(d) == [] {
      DecZero(Taken(d, precision, scale));
    } else {
      OutOfReach(d, scale);
    }
  }

  lemma WithoutDecimals(d: Decimal, precision: nat, scale: nat, b: int)
    requires IsDecimal(d) && precision <= DEFAULT_PRECISION && Significant(d.frac) <= scale
    requires !Overflows(d, precision, scale) && !(d.dot && scale > 0)
    requires b == Dec(Whole(d)) % LIMIT
    ensures b == Scaled(d, scale) <==> Representable(d, scale)
  {
    var v := Dec(d.whole);
    assert d.frac[..Significant(d.frac)] == [] && Dec([]) == 0;
    assert Scaled(d, scale) == v * Pow(10, scale);
    WholeIsNothing(d);
    DecWhole(d);
    InLimitOrNot(v, b);
    if scale == 0 {
      assert Pow(10, 0) == 1;
    } else if v > 0 {
      assert Pow(10, scale) >= 10;
      MulMonotonic(v, 10, Pow(10, scale));
    }
  }

  lemma ScaledNat(d: Decimal, scale: nat)
    requires IsDecimal(d) && Significant(d.frac) <= scale
    ensures Scaled(d, scale) >= 0
  {
    hide Pow, Dec;
    var f := Significant(d.frac);
    DecBound(d.whole);
    DecBound(d.frac[..f]);
    MulMonotonic(Pow(10, scale), 0, Dec(d.whole));
    MulMonotonic(Pow(10, scale - f), 0, Dec(d.frac[..f]));
  }

  lemma ScaledOrNot(d: Decimal, precision: nat, scale: nat, b: int)
    requires IsDecimal(d) && precision <= DEFAULT_PRECISION && Significant(d.frac) <= scale
    requires !Overflows(d, precision, scale) && !ReadsUnwritten(d, precision, scale)
    requires b == Dec(Taken(d, precision, scale)) % LIMIT
    ensures b == Scaled(d, scale) <==> Representable(d, scale)
  {
    if !(d.dot && scale > 0) {
      WithoutDecimals(d, precision, scale, b);
    } else if |Whole(d)| + scale <= precision {
      TakenIsScaled(d, precision, scale);
      ScaledNat(d, scale);
      InLimitOrNot(Scaled(d, scale), b);
    } else {
      WithoutRoom(d, precision, scale, b);
    }
  }

  /** The bytes of the digits taken denote the number written exactly when it is representable. */
  lemma ExactIfRepresentable(d: Decimal, precision: nat, scale: nat, b: int)
    requires IsDecimal(d) && precision <= DEFAULT_PRECISION
    requires !Overflows(d, precision, scale) && !ReadsUnwritten(d, precision, scale)
    requires b == Dec(Taken(d, precision, scale)) % LIMIT
    ensures b * Pow(10, |d.frac|) == Dec(d.whole + d.frac) * Pow(10, scale) <==> Representable(d, scale)
  {
    if Significant(d.frac) > scale {
      TooManyDecimals(d, scale, b);
    } else {
      ScaledDenotes(d, scale);
      if b * Pow(10, |d.frac|) == Scaled(d, scale) * Pow(10, |d.frac|) {
        CancelFactor(b, Scaled(d, scale), Pow(10, |d.frac|));
      }
      ScaledOrNot(d, precision, scale, b);
    }
  }

  // ---------------------------------------------------------------------------------
  // Scanning the text
  // ---------------------------------------------------------------------------------

  /** Index of the first whole digit, and of the dot or the end. */
  function WholeAt(d: Decimal): nat { if d.neg then 1 else 0 }
  function DotAt(d: Decimal): nat { WholeAt(d) + |d.whole| }

  /** Where the parts of `d` stand in its text. */
  ghost predicate LaidOut(text: string, d: Decimal) {
    && IsDecimal(d)
    && |text| == DotAt(d) + (if d.dot then 1 + |d.frac| else 0)
    && (d.neg <==> text != [] && text[0] == '-')
    && (forall k :: WholeAt(d) <= k < DotAt(d) ==> text[k] == DigitChar(d.whole[k - WholeAt(d)]))
    && (d.dot ==> text[DotAt(d)] == '.')
    && (forall k :: DotAt(d) < k < |text| ==> text[k] == DigitChar(d.frac[k - DotAt(d) - 1]))
  }

  lemma WrittenIsLaidOut(d: Decimal)
    requires IsDecimal(d)
    ensures LaidOut(Written(d), d)
  {
  }

  /** while (*p=='0') p++ */
  method SkipZeros(text: string, from: nat, ghost d: Decimal) returns (p: nat)
    requires LaidOut(text, d) && from == WholeAt(d)
    ensures p == WholeAt(d) + LeadingZeros(d.whole)
  {
    p := from;
    while p < |text| && text[p] == '0'
      invariant from <= p <= from + LeadingZeros(d.whole)
    {
      p := p + 1;
    }
  }

  /** Counts the fraction's digits up to the last one that is not zero. */
  method ScanFraction(text: string, dot: nat, ghost d: Decimal) returns (significant: nat)
    requires LaidOut(text, d) && d.dot && dot == DotAt(d)
    ensures significant == Significant(d.frac)
  {
    var p := dot + 1;
    significant := 0;
    while p < |text| && IsDigit(text[p])
      invariant dot + 1 + significant <= p <= |text|
      invariant forall i :: significant <= i < p - dot - 1 ==> d.frac[i] == 0
      invariant significant > 0 ==> d.frac[significant - 1] != 0
    {
      if text[p] != '0' {
        significant := p - dot;
      }
      p := p + 1;
    }
  }

  /** p while it points to a digit */
  method ScanDigits(text: string, from: nat, ghost d: Decimal) returns (end: nat)
    requires LaidOut(text, d) && WholeAt(d) <= from <= DotAt(d)
    ensures end == DotAt(d)
  {
    end := from;
    while end < |text| && IsDigit(text[end])
      invariant from <= end <= DotAt(d)
    {
      end := end + 1;
    }
  }

  function DigitAt(text: string, i: nat): int
    requires i < |text|
  {
    text[i] as int - '0' as int
  }

  /** memcpy of `count` digits of the text into the buffer at `at`. */
  method CopyDigits(text: string, from: nat, count: nat, digits: array<int>, at: nat)
    requires from + count <= |text| && at + count <= digits.Length
    modifies digits
    ensures forall i :: 0 <= i < digits.Length ==>
              digits[i] == if at <= i < at + count then DigitAt(text, from + i - at) else old(digits[i])
  {
    forall i | at <= i < at + count {
      digits[i] := DigitAt(text, from + i - at);
    }
  }

  method CopyWhole(text: string, p: nat, end: nat, digits: array<int>, ghost d: Decimal)
    requires LaidOut(text, d) && p == WholeAt(d) + LeadingZeros(d.whole) && end == DotAt(d)
    requires end - p <= digits.Length
    modifies digits
    ensures digits[..end - p] == Whole(d)
  {
    CopyDigits(text, p, end - p, digits, 0);
  }

  /** Is there a digit other than 0 among the significant decimals? */
  method HasNonZero(text: string, dot: nat, significant: nat, ghost d: Decimal) returns (found: bool)
    requires LaidOut(text, d) && d.dot && dot == DotAt(d) && significant == Significant(d.frac)
    ensures found <==> significant > 0
  {
    for i := 1 to significant + 1
      invariant forall x :: 0 <= x < i - 1 ==> d.frac[x] == 0
    {
      if text[dot + i] != '0' {
        return true;
      }
    }
    return false;
  }

  /** for (i= from; i < to; ++i) digits[i]= '0' */
  method FillZeros(digits: array<int>, from: nat, to: nat)
    requires from <= to <= digits.Length
    modifies digits
    ensures digits[..to] == old(digits[..from]) + Zeros(to - from)
  {
    for i := from to to
      invariant forall x :: 0 <= x < from ==> digits[x] == old(digits[x])
      invariant forall x :: from <= x < i ==> digits[x] == 0
    {
      digits[i] := 0;
    }
  }

  /** The fraction's digits, and zeros up to the scale or the precision. */
  method FillFraction(text: string, dot: nat, whole: nat, significant: nat, precision: nat, scale: nat,
                      digits: array<int>, ghost d: Decimal)
    returns (count: nat)
    requires LaidOut(text, d) && d.dot && scale > 0 && dot == DotAt(d)
    requires precision <= DEFAULT_PRECISION && |text| <= 100 == digits.Length
    requires !Overflows(d, precision, scale) && !ReadsUnwritten(d, precision, scale)
    requires whole == |Whole(d)| && digits[..whole] == Whole(d) && significant == Significant(d.frac)
    modifies digits
    ensures count <= DEFAULT_PRECISION && digits[..count] == Taken(d, precision, scale)
  {
    CopyDigits(text, dot + 1, significant, digits, whole);
    var copied := whole + significant;
    assert digits[..copied] == Whole(d) + d.frac[..significant];
    count := copied;
    if scale > significant {
      FillZeros(digits, copied, Min(precision, whole + scale));
      count := whole + scale;
    }
    count := Min(count, DEFAULT_PRECISION);
  }

  /** The digit buffer of MADB_CharToSQLNumeric, filled from the text of `d`. */
  method FillDigits(text: string, p: nat, dot: nat, precision: nat, scale: nat, digits: array<int>, ghost d: Decimal)
    returns (failure: Conversion, count: nat)
    requires LaidOut(text, d) && p == WholeAt(d) + LeadingZeros(d.whole) && dot == DotAt(d)
    requires dot < |text| ==> dot - p <= precision
    requires precision <= DEFAULT_PRECISION && |text| <= 100 == digits.Length
    modifies digits
    ensures failure.Overflow? <==> Overflows(d, precision, scale)
    ensures failure.Unwritten? <==> ReadsUnwritten(d, precision, scale)
    ensures failure.Number? ==> count <= DEFAULT_PRECISION && digits[..count] == Taken(d, precision, scale)
  {
    failure := Number(false, 0, []);
    if dot < |text| && scale > 0 {
      CopyWhole(text, p, dot, digits, d);
      var significant := ScanFraction(text, dot, d);
      if dot - p + scale > precision {
        var nonZero := HasNonZero(text, dot, significant, d);
        if nonZero {
          return Overflow, 0;
        }
        if precision < Min(dot - p + scale, DEFAULT_PRECISION) {
          return Unwritten, 0;
        }
      }
      count := FillFraction(text, dot, dot - p, significant, precision, scale, digits, d);
    } else {
      var end := ScanDigits(text, p, d);
      if end - p > precision {
        return Overflow, 0;
      }
      count := end - p;
      CopyWhole(text, p, end, digits, d);
    }
  }

  lemma TakenAreDigits(d: Decimal, precision: nat, scale: nat)
    requires IsDecimal(d) && precision <= DEFAULT_PRECISION
    requires !Overflows(d, precision, scale) && !ReadsUnwritten(d, precision, scale)
    ensures AreDigits(Taken(d, precision, scale))
  {
  }

  /** From the first digit that is not a leading zero on. */
  method ConvertDigits(text: string, p: nat, dot: nat, precision: nat, scale: nat, negative: bool, ghost d: Decimal)
    returns (r: Conversion)
    requires LaidOut(text, d) && p == WholeAt(d) + LeadingZeros(d.whole) && dot == DotAt(d) && negative == d.neg
    requires dot < |text| ==> dot - p <= precision
    requires precision <= DEFAULT_PRECISION && |text| <= 100
    ensures r.Overflow? <==> Overflows(d, precision, scale)
    ensures r.Unwritten? <==> ReadsUnwritten(d, precision, scale)
    ensures r.Number? ==> r.negative == d.neg && r.scale == scale && |r.val| == MAX_NUMERIC_LEN && AreBytes(r.val)
    ensures r.Number? ==> (Denotes(r, d) <==> Representable(d, scale))
  {
    assert IsDecimal(d);
    hide LaidOut, IsDecimal, Representable, Bytes, Dec, Pow, Taken, ReadsUnwritten, Overflows, LeadingZeros, DotAt;
    var digits := new int[100];
    var count;
    r, count := FillDigits(text, p, dot, precision, scale, digits, d);
    if r.Number? {
      TakenAreDigits(d, precision, scale);
      assert forall i :: 0 <= i < count ==> digits[i] == digits[..count][i];
      var val := new int[MAX_NUMERIC_LEN](_ => 0);
      Halve(digits, count, val);
      ExactIfRepresentable(d, precision, scale, Bytes(val[..]));
      r := Number(negative, scale, val[..]);
    }
  }

  /** No digit but zeros, and no dot: the number is 0, and so are the bytes. */
  lemma NothingWritten(d: Decimal, precision: nat, scale: nat, val: seq<int>)
    requires IsDecimal(d) && !d.dot && LeadingZeros(d.whole) == |d.whole|
    requires forall i :: 0 <= i < |val| ==> val[i] == 0
    ensures AreBytes(val) && Bytes(val) == 0 && Dec(d.whole + d.frac) == 0
    ensures Representable(d, scale) && !Overflows(d, precision, scale) && !ReadsUnwritten(d, precision, scale)
  {
    assert d.whole + d.frac == d.whole;
    DecZero(d.whole);
    BytesTrailingZeros(val, 0);
    Limit();
    assert d.frac[..Significant(d.frac)] == [];
  }

  /** The dot, or the end of the text when there is none. */
  lemma DotFound(text: string, from: nat, d: Decimal)
    requires LaidOut(text, d) && WholeAt(d) <= from <= DotAt(d)
    ensures StrChr(text, '.', from) == DotAt(d)
  {
    var k := StrChr(text, '.', from);
    assert k < DotAt(d) ==> IsDigit(text[k]);
  }

  /**
  MADB_CharToSQLNumeric on the text of a decimal number, surrounded by any white space.
  The struct denotes exactly the number written if and only if it has at most `scale`
  significant decimals, a dot when a scale is asked of a non-zero whole part, and fits
  into 120 bits once scaled.
  */
  method CharToSqlNumeric(buffer: string, ardPrecision: nat, scale: nat, ghost d: Decimal) returns (r: Conversion)
    requires IsDecimal(d) && Trim(buffer) == Written(d)
    requires ardPrecision <= DEFAULT_PRECISION && |Trim(buffer)| <= 100
    ensures var precision := if ardPrecision == 0 then DEFAULT_PRECISION else ardPrecision;
            && (r.Overflow? <==> Overflows(d, precision, scale))
            && (r.Unwritten? <==> ReadsUnwritten(d, precision, scale))
    ensures r.Number? ==> r.negative == d.neg && r.scale == scale && |r.val| == MAX_NUMERIC_LEN && AreBytes(r.val)
    ensures r.Number? ==> (Denotes(r, d) <==> Representable(d, scale))
  {
    var text := Trim(buffer);
    WrittenIsLaidOut(d);
    hide Written, RTrim, LTrim, Representable, ReadsUnwritten, Bytes, Dec, Pow;
    var negative := |text| > 0 && text[0] == '-';
    var p := if negative then 1 else 0;
    var zeros := Zeros(MAX_NUMERIC_LEN);
    var precision := if ardPrecision == 0 then DEFAULT_PRECISION else ardPrecision;
    if p == |text| {
      NothingWritten(d, precision, scale, zeros);
      return Number(negative, scale, zeros);
    }
    p := SkipZeros(text, p, d);
    if p == |text| {
      NothingWritten(d, precision, scale, zeros);
      return Number(negative, scale, zeros);
    }
    DotFound(text, p, d);
    var dot := StrChr(text, '.', p);
    if dot < |text| && dot - p > precision {
      return Overflow;
    }
    r := ConvertDigits(text, p, dot, precision, scale, negative, d);
  }
}
