/** Doubles as strings that are ordered like the numbers. */
module FloatEncoding {
  import opened Wrappers
  import opened KeyOrder

  const WORD := 0x1_0000_0000
  const TOP := 0x8000_0000

  type Word = w: nat | w < WORD

  // ----- doubles

  /** A double is its 64 bits: sign, 11 bits of exponent, 52 bits of fraction (IEEE 754, section 3.4). */
  datatype Double = Double(high: Word, low: Word)

  predicate Sign(d: Double) { d.high >= TOP }

  /** Exponent and fraction together. */
  function Magnitude(d: Double): (m: nat)
    ensures m < TOP * WORD
  {
    (if Sign(d) then d.high - TOP else d.high) * WORD + d.low
  }

  const FRACTION := 0x10_0000_0000_0000
  const INFINITY := 0x7ff * FRACTION

  predicate IsNaN(d: Double) { Magnitude(d) > INFINITY }

  /** All bits of the exponent are set, and some of the fraction; with none of them it is infinity. */
  lemma NaNIs(d: Double)
    ensures IsNaN(d) <==> Magnitude(d) / FRACTION == 0x7ff && Magnitude(d) % FRACTION != 0
  {
    assert Magnitude(d) < 0x800 * FRACTION;
  }

  function Pow2(n: nat): (r: nat)
    ensures r > 0
  {
    if n == 0 then 1 else 2 * Pow2(n - 1)
  }

  /** The absolute value, in units of the smallest positive double; infinity is the power of two that would be next. */
  function Scaled(m: nat): nat {
    if m < FRACTION then m else (FRACTION + m % FRACTION) * Pow2(m / FRACTION - 1)
  }

  function Value(d: Double): int {
    if Sign(d) then 0 - Scaled(Magnitude(d)) else Scaled(Magnitude(d))
  }

  /** The total order on numbers, with -0 before +0 (IEEE 754, section 5.10). */
  predicate Before(x: Double, y: Double) {
    Value(x) < Value(y) || (Value(x) == Value(y) && Sign(x) && !Sign(y))
  }

  lemma {:induction false} PowersGrow(a: nat, b: nat)
    requires a <= b
    ensures Pow2(a) <= Pow2(b)
  {
    if a < b { PowersGrow(a, b - 1); }
  }

  lemma TimesGrows(a: nat, b: nat, c: nat, d: nat)
    requires a <= b && c <= d
    ensures a * c <= b * d
  {
    assert a * c <= b * c;
    assert b * c <= b * d;
  }

  lemma TimesGrowsStrictly(a: nat, b: nat, c: nat)
    requires a < b && c > 0
    ensures a * c < b * c
  {
  }

  lemma BelowNextPower(m: nat, e: nat)
    requires e == m / FRACTION
    ensures Scaled(m) < FRACTION * Pow2(e)
  {
    if e > 0 {
      assert FRACTION + m % FRACTION < 2 * FRACTION;
      TimesGrowsStrictly(FRACTION + m % FRACTION, 2 * FRACTION, Pow2(e - 1));
      assert 2 * FRACTION * Pow2(e - 1) == FRACTION * (2 * Pow2(e - 1));
    }
  }

  /** The bits of a positive double are ordered like its value. */
  lemma ScaledGrows(m: nat, n: nat)
    requires m < n
    ensures Scaled(m) < Scaled(n)
  {
    var (e, f) := (m / FRACTION, n / FRACTION);
    assert e <= f;
    if e == f {
      if e > 0 { TimesGrowsStrictly(FRACTION + m % FRACTION, FRACTION + n % FRACTION, Pow2(e - 1)); }
    } else {
      BelowNextPower(m, e);
      PowersGrow(e, f - 1);
      TimesGrows(FRACTION, FRACTION + n % FRACTION, Pow2(e), Pow2(f - 1));
    }
  }

  /** Up to the second power of two the bits are the value, and from the first one on the next exponent doubles it. */
  lemma ScaledIs(m: nat)
    ensures m < 2 * FRACTION ==> Scaled(m) == m
    ensures m >= FRACTION ==> Scaled(m + FRACTION) == 2 * Scaled(m)
  {
    var e := m / FRACTION;
    assert (m + FRACTION) / FRACTION == e + 1 && (m + FRACTION) % FRACTION == m % FRACTION;
    if m >= FRACTION {
      var f := FRACTION + m % FRACTION;
      assert Pow2(e) == 2 * Pow2(e - 1);
      assert f * (2 * Pow2(e - 1)) == 2 * (f * Pow2(e - 1));
    }
  }

  lemma ScaledIsPositive(m: nat)
    ensures Scaled(m) == 0 <==> m == 0
  {
    if m > 0 { ScaledGrows(0, m); }
  }

  // ----- digits

  function Digit(n: nat): char
    requires n < 36
  {
    if n < 10 then '0' + n as char else 'a' + (n - 10) as char
  }

  /** `parseInt` of one character. */
  function DigitValue(c: char): Option<nat> {
    if '0' <= c <= '9' then Some((c - '0') as nat)
    else if 'a' <= c <= 'z' then Some((c - 'a') as nat + 10)
    else if 'A' <= c <= 'Z' then Some((c - 'A') as nat + 10)
    else None
  }

  /** The character codes: digits, then small letters; capitals are read likewise. */
  lemma DigitIs(n: nat, c: char)
    requires n < 36
    ensures Digit(n) as int == if n < 10 then 48 + n else 87 + n
    ensures DigitValue(c) == Some(n) <==> c == Digit(n) || (n >= 10 && c as int == 55 + n)
  {
  }

  predicate IsDigit(c: char) {
    48 <= c as int <= 57 || 65 <= c as int <= 90 || 97 <= c as int <= 122
  }

  lemma DigitsAreOrdered(a: nat, b: nat)
    requires a < 36 && b < 36
    ensures (a < b <==> Digit(a) < Digit(b)) && DigitValue(Digit(a)) == Some(a)
  {
  }

  /** `toString(36)`: without leading zeros. */
  function ToString36(n: nat): (s: string)
    ensures s != []
  {
    (if n < 36 then [] else ToString36(n / 36)) + [Digit(n % 36)]
  }

  /** `padStart` with zeros */
  function PadStart(s: string, width: nat): string
    decreases width - |s|
  {
    if |s| >= width then s else PadStart(['0'] + s, width)
  }

  function Digits(n: nat, width: nat): (s: string)
    ensures |s| == width
  {
    if width == 0 then [] else Digits(n / 36, width - 1) + [Digit(n % 36)]
  }

  function Pow36(n: nat): (r: nat)
    ensures r > 0
  {
    if n == 0 then 1 else 36 * Pow36(n - 1)
  }

  /** Each digit, from the most significant one. */
  lemma {:induction false} DigitAt(n: nat, width: nat, k: nat)
    requires k < width
    ensures Digits(n, width)[k] == Digit(n / Pow36(width - 1 - k) % 36)
  {
    if k < width - 1 {
      DigitAt(n / 36, width - 1, k);
      DivideTwice(n, 36, Pow36(width - 2 - k));
    }
  }

  lemma DivideTwice(n: nat, a: nat, b: nat)
    requires a > 0 && b > 0
    ensures a * b > 0 && n / a / b == n / (a * b)
  {
    var (q, r) := (n / a, n % a);
    var (q', r') := (q / b, q % b);
    Regroup(n, a, b, q, r, q', r');
    Quotient(n, a * b, q', a * r' + r);
  }

  lemma Regroup(n: nat, a: nat, b: nat, q: nat, r: nat, q': nat, r': nat)
    requires n == a * q + r && r < a && q == b * q' + r' && r' < b
    ensures 0 < a * b && n == (a * b) * q' + (a * r' + r) && a * r' + r < a * b
  {
    assert a * (b * q' + r') == (a * b) * q' + a * r';
    TimesGrows(a, a, r' + 1, b);
    assert a * (r' + 1) == a * r' + a;
  }

  lemma Quotient(n: nat, d: nat, q: nat, r: nat)
    requires d > 0 && n == d * q + r && r < d
    ensures n / d == q
  {
    var k := n / d;
    assert d * k <= n < d * k + d;
    assert d * (k - q) == d * k - d * q;
    Below(d, k - q, n - d * q);
  }

  lemma Below(d: nat, x: int, r: nat)
    requires d > 0 && r < d && d * x <= r < d * x + d
    ensures x == 0
  {
    if x > 0 { TimesGrows(d, d, 1, x); }
  }

  function Zeros(n: nat): (s: string)
    ensures |s| == n
  {
    seq(n, _ => '0')
  }

  lemma {:induction false} PadStartIs(s: string, width: nat)
    requires |s| <= width
    ensures PadStart(s, width) == Zeros(width - |s|) + s
    decreases width - |s|
  {
    if |s| < width {
      PadStartIs(['0'] + s, width);
      assert Zeros(width - |s|) + s == Zeros(width - |s| - 1) + (['0'] + s);
    }
  }

  lemma {:induction false} ZeroDigits(width: nat)
    ensures Digits(0, width) == Zeros(width)
  {
    if width > 0 { ZeroDigits(width - 1); }
  }

  lemma {:induction false} PaddedDigits(n: nat, width: nat)
    requires n < Pow36(width) && width > 0
    ensures |ToString36(n)| <= width && Zeros(width - |ToString36(n)|) + ToString36(n) == Digits(n, width)
  {
    if n < 36 {
      ZeroDigits(width - 1);
      assert n / 36 == 0;
    } else {
      assert width > 1;
      PaddedDigits(n / 36, width - 1);
    }
  }

  lemma {:induction false} CompareLast(s: string, t: string, x: char, y: char)
    requires |s| == |t|
    ensures CompareUtf8(s + [x], t + [y]) < 0 <==> CompareUtf8(s, t) < 0 || (s == t && x < y)
  {
    if s == [] {
      assert s + [x] == [x] && t + [y] == [y];
    } else {
      assert (s + [x])[1..] == s[1..] + [x] && (t + [y])[1..] == t[1..] + [y];
      assert s == [s[0]] + s[1..] && t == [t[0]] + t[1..];
      CompareLast(s[1..], t[1..], x, y);
    }
  }

  /** Numbers of the same width compare like their digits. */
  lemma {:induction false} DigitsCompare(a: nat, b: nat, width: nat)
    requires a < Pow36(width) && b < Pow36(width)
    ensures CompareUtf8(Digits(a, width), Digits(b, width)) < 0 <==> a < b
    ensures Digits(a, width) == Digits(b, width) ==> a == b
  {
    if width > 0 {
      DigitsCompare(a / 36, b / 36, width - 1);
      DigitsAreOrdered(a % 36, b % 36);
      DigitsAreOrdered(b % 36, a % 36);
      var (s, t) := (Digits(a / 36, width - 1), Digits(b / 36, width - 1));
      CompareLast(s, t, Digit(a % 36), Digit(b % 36));
      assert (s + [Digit(a % 36)])[..width - 1] == s && (t + [Digit(b % 36)])[..width - 1] == t;
      assert (s + [Digit(a % 36)])[width - 1] == Digit(a % 36) && (t + [Digit(b % 36)])[width - 1] == Digit(b % 36);
    }
  }

  // ----- parsing

  function Parsed(s: string): Option<nat> {
    if s == [] then Some(0) else
      var (front, last) := (Parsed(s[..|s| - 1]), DigitValue(s[|s| - 1]));
      if front.None? || last.None? then None else Some(front.value * 36 + last.value)
  }

  /** A string is a number exactly if all of its characters are digits. */
  lemma {:induction false} ParsedIs(s: string)
    ensures Parsed(s).Some? <==> forall i :: 0 <= i < |s| ==> IsDigit(s[i])
  {
    if s != [] { ParsedIs(s[..|s| - 1]); }
  }

  /** What is further left counts for more. */
  lemma {:induction false} ParsedJoin(a: string, b: string)
    requires Parsed(a).Some? && Parsed(b).Some?
    ensures Parsed(a + b) == Some(Parsed(a).value * Pow36(|b|) + Parsed(b).value)
  {
    if b == [] {
      assert a + b == a;
    } else {
      var n := |b| - 1;
      assert (a + b)[..|a + b| - 1] == a + b[..n];
      assert (a + b)[|a + b| - 1] == b[n];
      ParsedJoin(a, b[..n]);
      Distribute(Parsed(a).value, Pow36(n), Parsed(b[..n]).value);
    }
  }

  lemma Distribute(x: nat, p: nat, y: nat)
    ensures (x * p + y) * 36 == x * (36 * p) + y * 36
  {
  }

  /** `parseBigInt` with radix 36; None stands for the exception about a character that is not a digit. */
  method ParseBigInt(s: string) returns (r: Option<nat>)
    ensures r == Parsed(s)
  {
    var result := 0;
    for i := 0 to |s|
      invariant Parsed(s[..i]) == Some(result)
    {
      assert s[..i + 1][..i] == s[..i];
      var digit := DigitValue(s[i]);
      if digit.None? {
        NoDigit(s, i);
        return None;
      }
      result := result * 36;
      result := result + digit.value;
    }
    assert s[..|s|] == s;
    return Some(result);
  }

  lemma {:induction false} NoDigit(s: string, i: nat)
    requires i < |s| && DigitValue(s[i]).None?
    ensures Parsed(s).None?
  {
    if i < |s| - 1 { NoDigit(s[..|s| - 1], i); }
  }

  lemma {:induction false} ParsedDigits(n: nat, width: nat)
    requires n < Pow36(width)
    ensures Parsed(Digits(n, width)) == Some(n)
  {
    if width > 0 {
      ParsedDigits(n / 36, width - 1);
      DigitsAreOrdered(n % 36, n % 36);
      var s := Digits(n, width);
      assert s[..|s| - 1] == Digits(n / 36, width - 1);
    }
  }

  // ----- encoding and decoding

  /** Exclusive or, bit by bit. */
  function Xor(a: nat, b: nat, bits: nat): (r: nat)
    ensures r < Pow2(bits)
  {
    if bits == 0 then 0 else 2 * Xor(a / 2, b / 2, bits - 1) + (if a % 2 == b % 2 then 0 else 1)
  }

  function FlipAll(w: Word): Word { WORD - 1 - w }

  function FlipTop(w: Word): Word { if w >= TOP then w - TOP else w + TOP }

  lemma Halves(h: nat, bit: nat)
    requires bit < 2
    ensures (2 * h + bit) / 2 == h && (2 * h + bit) % 2 == bit
  {
  }

  lemma {:induction false} XorOnes(a: nat, bits: nat)
    requires a < Pow2(bits)
    ensures Xor(a, Pow2(bits) - 1, bits) == Pow2(bits) - 1 - a
  {
    if bits > 0 {
      var p := Pow2(bits - 1);
      Halves(p - 1, 1);
      Halves(a / 2, a % 2);
      assert Pow2(bits) - 1 == 2 * (p - 1) + 1;
      XorOnes(a / 2, bits - 1);
    }
  }

  lemma {:induction false} XorTop(a: nat, bits: nat)
    requires a < Pow2(bits + 1)
    ensures Xor(a, Pow2(bits), bits + 1) == if a >= Pow2(bits) then a - Pow2(bits) else a + Pow2(bits)
  {
    if bits > 0 {
      var p := Pow2(bits - 1);
      Halves(p, 0);
      Halves(a / 2, a % 2);
      assert Pow2(bits) == 2 * p + 0;
      XorTop(a / 2, bits - 1);
    } else {
      assert Xor(a / 2, 0, 0) == 0;
    }
  }

  lemma WordPowers()
    ensures Pow2(32) == WORD && Pow2(31) == TOP
  {
    assert Pow2(8) == 256;
    assert Pow2(16) == 65536;
    assert Pow2(24) == 16777216;
  }

  /** `^ 0xffffffff` flips every bit of a word, `^ (1 << 31)` its sign. */
  lemma Flips(w: Word)
    ensures Xor(w, WORD - 1, 32) == FlipAll(w) && Xor(w, TOP, 32) == FlipTop(w)
  {
    hide Pow2, Xor;
    WordPowers();
    XorOnes(w, 32);
    XorTop(w, 31);
  }

  predicate MinusZero(d: Double) { Sign(d) && Magnitude(d) == 0 }

  predicate IsNegative(d: Double) { !IsNaN(d) && Value(d) < 0 }

  /** The bits as one number. */
  function Bits(high: Word, low: Word): nat { high * WORD + low }

  /** Where a double stands among all of them. */
  function Rank(d: Double): (r: nat)
    ensures r < WORD * WORD
  {
    if IsNegative(d) || MinusZero(d) then TOP * WORD - 1 - Magnitude(d)
    else if Sign(d) then Magnitude(d)
    else TOP * WORD + Magnitude(d)
  }

  function Encoded(d: Double): string { Digits(Rank(d), 13) }

  lemma ThirteenDigits()
    ensures Pow36(13) >= WORD * WORD
  {
    assert Pow36(4) == 1679616;
    assert Pow36(8) == 1679616 * 1679616;
    assert Pow36(12) == 1679616 * 1679616 * 1679616;
  }

  /** `encodeFloat64AsString`, through the shared view of two words; whatever was in the view before does not matter. */
  method EncodeFloat64AsString(view: array<Word>, n: Double) returns (s: string)
    requires view.Length == 2
    modifies view
    ensures s == Encoded(n)
  {
    hide Pow2, Xor, Pow36, Digits, ToString36, PadStart, Value, IsNaN;
    view[0], view[1] := n.high, n.low;
    var high := view[0];
    var low := view[1];
    WordPowers();
    Flips(high);
    Flips(low);
    if IsNegative(n) || MinusZero(n) {
      view[0] := Xor(high, WORD - 1, 32);
      view[1] := Xor(low, WORD - 1, 32);
      NegativeHasSign(n);
    } else {
      view[0] := Xor(high, TOP, 32);
    }
    var bigint := Bits(view[0], view[1]);
    ThirteenDigits();
    PaddedDigits(bigint, 13);
    PadStartIs(ToString36(bigint), 13);
    s := PadStart(ToString36(bigint), 13);
  }

  lemma NegativeHasSign(d: Double)
    ensures IsNegative(d) || MinusZero(d) <==> !IsNaN(d) && Sign(d)
  {
    ScaledIsPositive(Magnitude(d));
  }

  function DecodedBits(high: Word, low: Word): Double {
    if high >= TOP then Double(FlipTop(high), low) else Double(FlipAll(high), FlipAll(low))
  }

  /** What a string stands for; None stands for the exceptions about its length and its characters. */
  function Decoded(s: string): Option<Double> {
    if |s| != 13 || Parsed(s).None? then None else
      var bigint := Parsed(s).value % (WORD * WORD);
      Some(DecodedBits(bigint / WORD, bigint % WORD))
  }

  /** `decodeFloat64AsString` */
  method DecodeFloat64AsString(view: array<Word>, s: string) returns (n: Option<Double>)
    requires view.Length == 2
    modifies view
    ensures n == Decoded(s)
  {
    if |s| != 13 {
      return None;
    }
    var bigint := ParseBigInt(s);
    if bigint.None? {
      return None;
    }
    view[0], view[1] := bigint.value % (WORD * WORD) / WORD, bigint.value % (WORD * WORD) % WORD;
    var high := view[0];
    var low := view[1];
    WordPowers();
    Flips(high);
    Flips(low);
    if high >= TOP {
      view[0] := Xor(high, TOP, 32);
    } else {
      view[0] := Xor(high, WORD - 1, 32);
      view[1] := Xor(low, WORD - 1, 32);
    }
    return Some(Double(view[0], view[1]));
  }

  // ----- order and round trip

  lemma RankOrders(x: Double, y: Double)
    requires !IsNaN(x) && !IsNaN(y)
    ensures Rank(x) < Rank(y) <==> Before(x, y)
  {
    NegativeHasSign(x);
    NegativeHasSign(y);
    var (m, n) := (Magnitude(x), Magnitude(y));
    ScaledIsPositive(m);
    ScaledIsPositive(n);
    if m < n { ScaledGrows(m, n); } else if n < m { ScaledGrows(n, m); }
  }

  /** Encodings compare exactly as the numbers do, with -0 before +0. */
  lemma OrderKept(x: Double, y: Double)
    requires !IsNaN(x) && !IsNaN(y)
    ensures CompareUtf8(Encoded(x), Encoded(y)) < 0 <==> Before(x, y)
  {
    ThirteenDigits();
    DigitsCompare(Rank(x), Rank(y), 13);
    RankOrders(x, y);
  }

  lemma SplitBits(high: Word, low: Word)
    ensures Bits(high, low) < WORD * WORD
    ensures Bits(high, low) / WORD == high && Bits(high, low) % WORD == low
  {
  }

  lemma DecodedRank(d: Double, high: Word, low: Word)
    requires Rank(d) == Bits(high, low)
    ensures Decoded(Encoded(d)) == Some(DecodedBits(high, low))
  {
    hide Rank, Parsed, Digits, Pow36, DecodedBits;
    ThirteenDigits();
    ParsedDigits(Rank(d), 13);
    SplitBits(high, low);
  }

  lemma RankBits(d: Double)
    ensures Rank(d) == if !IsNaN(d) && Sign(d) then Bits(FlipAll(d.high), FlipAll(d.low)) else Bits(FlipTop(d.high), d.low)
  {
    hide Value, IsNaN;
    NegativeHasSign(d);
  }

  /** Decoding gives back the same bits, for every double but a NaN with its sign bit set. */
  lemma RoundTrip(d: Double)
    ensures Decoded(Encoded(d)) == Some(d) <==> !(IsNaN(d) && Sign(d))
  {
    hide Rank, Decoded, Encoded, Bits, IsNaN;
    RankBits(d);
    if !IsNaN(d) && Sign(d) {
      DecodedRank(d, FlipAll(d.high), FlipAll(d.low));
    } else {
      DecodedRank(d, FlipTop(d.high), d.low);
    }
  }

  /**
   A string of 13 digits is decoded to the double that stands at that number, modulo 2^64, among all of them, unless that is a
   NaN with its sign bit set.
   */
  lemma DecodedIs(s: string)
    ensures Decoded(s).Some? <==> |s| == 13 && forall i :: 0 <= i < 13 ==> IsDigit(s[i])
    ensures Decoded(s).Some? ==>
      var d := Decoded(s).value;
      Rank(d) == Parsed(s).value % (WORD * WORD) <==> !(IsNaN(d) && Sign(d))
  {
    hide Parsed, Rank, IsNaN;
    ParsedIs(s);
    if Decoded(s).Some? {
      var bigint := Parsed(s).value % (WORD * WORD);
      RankBits(DecodedBits(bigint / WORD, bigint % WORD));
    }
  }
}
