/**
 * The JavaScript operators the decoder relies on, written out: substring and
 * prefix tests on strings, `Number.isInteger`, the 32-bit conversions that
 * `>>>`, `&` and `^` apply to their operands, the bitwise operators
 * themselves, and decimal text for integers. A JavaScript number is a `real`
 * here (NaN, the infinities and rounding are not represented).
 */
module JsOps {

  // ---------------------------------------------------------------- strings

  /** `s.startsWith(p)` */
  predicate StartsWith(s: string, p: string)
  {
    |p| <= |s| && s[..|p|] == p
  }

  /** `s.includes(sub)`: `sub` starts some suffix of `s`. */
  predicate Contains(s: string, sub: string)
    decreases |s|
  {
    StartsWith(s, sub) || (|s| > 0 && Contains(s[1..], sub))
  }

  /** `sub` occurs in `s` starting at index `i`. */
  predicate OccursAt(s: string, sub: string, i: nat)
  {
    i + |sub| <= |s| && s[i..i + |sub|] == sub
  }

  /** An occurrence of `sub` at index `i` makes `s` contain it. */
  lemma {:induction false} ContainsAt(s: string, sub: string, i: nat)
    requires OccursAt(s, sub, i)
    ensures Contains(s, sub)
    decreases i
  {
    if i == 0 {
      assert s[..|sub|] == s[0..|sub|];
    } else {
      assert s[1..][i - 1..i - 1 + |sub|] == s[i..i + |sub|];
      ContainsAt(s[1..], sub, i - 1);
    }
  }

  /** `Contains` agrees with the definition by an occurrence at some index. */
  lemma {:induction false} ContainsIff(s: string, sub: string)
    ensures Contains(s, sub) <==> exists i: nat :: OccursAt(s, sub, i)
    decreases |s|
  {
    if Contains(s, sub) {
      if StartsWith(s, sub) {
        assert s[0..0 + |sub|] == sub;
        assert OccursAt(s, sub, 0);
      } else {
        ContainsIff(s[1..], sub);
        var i: nat :| OccursAt(s[1..], sub, i);
        assert s[i + 1..i + 1 + |sub|] == s[1..][i..i + |sub|];
        assert OccursAt(s, sub, i + 1);
      }
    }
    if exists i: nat :: OccursAt(s, sub, i) {
      var i: nat :| OccursAt(s, sub, i);
      ContainsAt(s, sub, i);
    }
  }

  /** A string never contains anything longer than itself. */
  lemma {:induction false} NotContainsLonger(s: string, sub: string)
    requires |s| < |sub|
    ensures !Contains(s, sub)
  {
    ContainsIff(s, sub);
  }

  // ---------------------------------------------------------------- numbers

  /** `Number.isInteger(x)` for a finite number. */
  predicate IsInteger(x: real)
  {
    x.Floor as real == x
  }

  /** Truncation toward zero, the first step of `ToInt32`/`ToUint32`. */
  function Trunc(x: real): int
  {
    if x >= 0.0 then x.Floor else -((-x).Floor)
  }

  /** Truncation leaves an integer as it is. */
  lemma TruncInteger(x: real)
    requires IsInteger(x)
    ensures Trunc(x) as real == x
  {
    if x < 0.0 {
      var n := x.Floor;
      assert -x == (-n) as real;
      assert (-x).Floor == -n;
    }
  }

  const TWO_31: nat := 0x8000_0000
  const TWO_32: nat := 0x1_0000_0000

  /** `x >>> 0`: the operand read as an unsigned 32-bit integer. */
  function ToUint32(x: real): (u: nat)
    ensures u < TWO_32
  {
    Trunc(x) % TWO_32
  }

  /** The signed 32-bit integer with the same 32 low bits as `u`. */
  function Signed32(u: nat): (n: int)
    ensures -(TWO_31 as int) <= n < TWO_31
    ensures (n - u) % TWO_32 == 0
  {
    var w := u % TWO_32;
    if w >= TWO_31 then w - TWO_32 else w
  }

  /** Reading back what `Signed32` produced gives the same 32 bits. */
  lemma Signed32RoundTrip(u: nat)
    requires u < TWO_32
    ensures ToUint32(Signed32(u) as real) == u
  {
  }

  // ---------------------------------------------------------------- bits

  function Pow2(n: nat): (p: nat)
    ensures p >= 1
  {
    if n == 0 then 1 else 2 * Pow2(n - 1)
  }

  lemma {:induction false} Pow2Add(a: nat, b: nat)
    ensures Pow2(a + b) == Pow2(a) * Pow2(b)
    decreases a
  {
    if a > 0 {
      Pow2Add(a - 1, b);
    }
  }

  lemma Pow2Values()
    ensures Pow2(8) == 0x100 && Pow2(16) == 0x1_0000
    ensures Pow2(31) == TWO_31 && Pow2(32) == TWO_32
  {
    Pow2Add(8, 8);
    Pow2Add(16, 15);
    assert Pow2(15) == 0x8000;
  }

  /** A number below `2^32` is its own unsigned 32-bit reading. */
  lemma ToUint32Small(u: nat)
    requires u < TWO_32
    ensures ToUint32(u as real) == u
  {
    assert (u as real).Floor == u;
  }

  /** A signed 32-bit integer is its own signed reading of its unsigned 32 bits. */
  lemma Signed32OfInt32(x: real)
    requires IsInteger(x) && -(TWO_31 as real) <= x < TWO_31 as real
    ensures Signed32(ToUint32(x)) as real == x
  {
    TruncInteger(x);
  }

  /** Absence of the first character of `sub` rules out every occurrence. */
  lemma NotContainsWithoutFirst(s: string, sub: string)
    requires |sub| > 0 && forall k :: 0 <= k < |s| ==> s[k] != sub[0]
    ensures !Contains(s, sub)
  {
    ContainsIff(s, sub);
    forall i: nat ensures !OccursAt(s, sub, i) {
      if i + |sub| <= |s| {
        assert s[i..i + |sub|][0] == s[i];
      }
    }
  }

  /** Bit `i` (counting from the least significant) of `a`. */
  predicate Bit(a: nat, i: nat)
  {
    if i == 0 then a % 2 == 1 else Bit(a / 2, i - 1)
  }

  /** Bitwise and of two non-negative integers. */
  function AndNat(a: nat, b: nat): nat
    decreases a
  {
    if a == 0 || b == 0 then 0
    else 2 * AndNat(a / 2, b / 2) + (if a % 2 == 1 && b % 2 == 1 then 1 else 0)
  }

  /** Bitwise exclusive or of two non-negative integers. */
  function XorNat(a: nat, b: nat): nat
    decreases a + b
  {
    if a == 0 then b
    else if b == 0 then a
    else 2 * XorNat(a / 2, b / 2) + (if a % 2 != b % 2 then 1 else 0)
  }

  /** `x & y` on two numbers. */
  function BitAnd(x: real, y: real): int
  {
    Signed32(AndNat(ToUint32(x), ToUint32(y)))
  }

  /** `x ^ y` on two numbers. */
  function BitXor(x: real, y: real): int
  {
    Signed32(XorNat(ToUint32(x), ToUint32(y)))
  }

  lemma {:induction false} BitOfAnd(a: nat, b: nat, i: nat)
    ensures Bit(AndNat(a, b), i) == (Bit(a, i) && Bit(b, i))
    decreases a
  {
    if a == 0 || b == 0 {
      ZeroHasNoBits(i);
    } else if i > 0 {
      BitOfAnd(a / 2, b / 2, i - 1);
    }
  }

  lemma {:induction false} BitOfXor(a: nat, b: nat, i: nat)
    ensures Bit(XorNat(a, b), i) == (Bit(a, i) != Bit(b, i))
    decreases a + b
  {
    if a == 0 || b == 0 {
      ZeroHasNoBits(i);
    } else if i > 0 {
      BitOfXor(a / 2, b / 2, i - 1);
    }
  }

  lemma {:induction false} ZeroHasNoBits(i: nat)
    ensures !Bit(0, i)
  {
    if i > 0 { ZeroHasNoBits(i - 1); }
  }

  /** Two numbers with the same bits are equal. */
  lemma {:induction false} BitsDetermine(a: nat, b: nat)
    requires forall i: nat :: Bit(a, i) == Bit(b, i)
    ensures a == b
    decreases a + b
  {
    if a != 0 || b != 0 {
      assert Bit(a, 0) == Bit(b, 0);
      forall i: nat ensures Bit(a / 2, i) == Bit(b / 2, i) {
        assert Bit(a, i + 1) == Bit(b, i + 1);
      }
      BitsDetermine(a / 2, b / 2);
    }
  }

  /** The and with a single-bit mask is non-zero exactly when that bit is set. */
  lemma {:induction false} AndSingleBit(a: nat, i: nat)
    ensures AndNat(a, Pow2(i)) != 0 <==> Bit(a, i)
    decreases i
  {
    if a == 0 {
      ZeroHasNoBits(i);
    } else if i > 0 {
      AndSingleBit(a / 2, i - 1);
    }
  }

  /** A number below `2^k` has no bit at or above `k`. */
  lemma {:induction false} NoBitAbove(m: nat, k: nat, i: nat)
    requires m < Pow2(k) && k <= i
    ensures !Bit(m, i)
    decreases k
  {
    if k == 0 {
      assert m == 0;
      ZeroHasNoBits(i);
    } else {
      NoBitAbove(m / 2, k - 1, i - 1);
    }
  }

  /** Exclusive or of two numbers below `2^k` stays below `2^k`. */
  lemma {:induction false} XorBelow(a: nat, b: nat, k: nat)
    requires a < Pow2(k) && b < Pow2(k)
    ensures XorNat(a, b) < Pow2(k)
    decreases k
  {
    if a != 0 && b != 0 {
      XorBelow(a / 2, b / 2, k - 1);
    }
  }

  lemma {:induction false} AndBelow(a: nat, b: nat)
    ensures AndNat(a, b) <= a && AndNat(a, b) <= b
    decreases a
  {
    if a != 0 && b != 0 {
      AndBelow(a / 2, b / 2);
    }
  }

  lemma {:induction false} AndCommutes(a: nat, b: nat)
    ensures AndNat(a, b) == AndNat(b, a)
    decreases a
  {
    if a != 0 && b != 0 {
      AndCommutes(a / 2, b / 2);
    }
  }

  /** Powers of two grow with the exponent. */
  lemma Pow2Monotone(i: nat, k: nat)
    requires i <= k
    ensures Pow2(i) <= Pow2(k)
  {
    Pow2Add(i, k - i);
  }

  lemma Pow2BelowTwo32(i: nat)
    requires i < 32
    ensures Pow2(i) < TWO_32
  {
    Pow2Values();
    Pow2Monotone(i, 31);
    assert Pow2(32) == 2 * Pow2(31);
  }

  /**
   * On 32-bit operands, `(Pow2(i) & w) !== 0` tests bit `i` of `w`: the
   * JavaScript and of a single-bit mask.
   */
  lemma BitAndSingleBit(i: nat, w: nat)
    requires i < 31 && w < TWO_32
    ensures BitAnd(Pow2(i) as real, w as real) != 0 <==> Bit(w, i)
  {
    Pow2Values();
    Pow2Monotone(i, 30);
    assert Pow2(31) == 2 * Pow2(30);
    ToUint32Small(Pow2(i));
    ToUint32Small(w);
    var a := AndNat(Pow2(i), w);
    assert BitAnd(Pow2(i) as real, w as real) == Signed32(a);
    AndCommutes(Pow2(i), w);
    AndSingleBit(w, i);
    AndBelow(Pow2(i), w);
    Signed32Small(a);
  }

  lemma Signed32Small(u: nat)
    requires u < TWO_31
    ensures Signed32(u) == u
  {
  }

  /** `u & 0xffff` on an unsigned 32-bit value keeps its low 16 bits. */
  lemma AndLowSixteen(u: nat)
    requires u < TWO_32
    ensures BitAnd(u as real, 0xffff as real) == u % 0x1_0000
  {
    Pow2Values();
    AndLowMask(u, 16);
    AndBelow(u, 0xffff);
    ToUint32Small(u);
    assert ToUint32(0xffff as real) == 0xffff;
  }

  /** Integers whose difference is a multiple of `n` leave the same remainder. */
  lemma ModOfShift(a: int, b: int, n: nat)
    requires n > 0 && (a - b) % n == 0
    ensures a % n == b % n
  {
    var t := (a - b) / n;
    assert a - b == n * t;
    var q := b / n;
    assert b == n * q + b % n;
    assert a == n * (t + q) + b % n;
    ModUnique(a, n, t + q, b % n);
  }

  /** Exclusive or with the same operand twice gives the first operand back. */
  lemma XorTwice(a: nat, b: nat)
    ensures XorNat(XorNat(a, b), b) == a
  {
    forall i: nat ensures Bit(XorNat(XorNat(a, b), b), i) == Bit(a, i) {
      BitOfXor(XorNat(a, b), b, i);
      BitOfXor(a, b, i);
    }
    BitsDetermine(XorNat(XorNat(a, b), b), a);
  }

  /** `a % 2m` in terms of `a / 2`. */
  lemma ModDouble(a: nat, m: nat)
    requires m > 0
    ensures a % (2 * m) == 2 * ((a / 2) % m) + a % 2
  {
    var q, r := a / 2, a % 2;
    var t, u := q / m, q % m;
    assert a == (2 * m) * t + (2 * u + r);
    ModUnique(a, 2 * m, t, 2 * u + r);
  }

  /** The remainder is the only one in range. */
  lemma ModUnique(a: int, n: int, t: int, r: int)
    requires n > 0 && 0 <= r < n && a == n * t + r
    ensures a % n == r
  {
    var q := a / n;
    assert a == n * q + a % n;
    if t > q {
      MulAtLeast(n, t - q);
    } else if t < q {
      MulAtLeast(n, q - t);
    }
  }

  lemma {:induction false} MulAtLeast(n: int, d: int)
    requires n > 0 && d >= 1
    ensures n * d >= n
    decreases d
  {
    if d > 1 {
      MulAtLeast(n, d - 1);
      assert n * d == n * (d - 1) + n;
    }
  }

  /** Bits below `k` survive reduction modulo `2^k`. */
  lemma {:induction false} BitOfMod(a: nat, k: nat, i: nat)
    requires i < k
    ensures Bit(a % Pow2(k), i) == Bit(a, i)
    decreases i
  {
    ModDouble(a, Pow2(k - 1));
    if i > 0 {
      BitOfMod(a / 2, k - 1, i - 1);
    }
  }

  /** And with `2^k - 1` keeps exactly the low `k` bits, that is, reduces modulo `2^k`. */
  lemma AndLowMask(a: nat, k: nat)
    ensures AndNat(a, Pow2(k) - 1) == a % Pow2(k)
  {
    var mask: nat := Pow2(k) - 1;
    forall i: nat
      ensures Bit(AndNat(a, mask), i) == Bit(a % Pow2(k), i)
    {
      BitOfAnd(a, mask, i);
      LowMaskBits(k, i);
      if i < k {
        BitOfMod(a, k, i);
      } else {
        NoBitAbove(a % Pow2(k), k, i);
      }
    }
    BitsDetermine(AndNat(a, mask), a % Pow2(k));
  }

  /** `2^k - 1` has exactly the bits below `k`. */
  lemma {:induction false} LowMaskBits(k: nat, i: nat)
    ensures Bit(Pow2(k) - 1, i) <==> i < k
    decreases k
  {
    if k == 0 {
      ZeroHasNoBits(i);
    } else {
      var p := Pow2(k - 1);
      assert Pow2(k) == 2 * p;
      LowMaskHalves(p);
      if i > 0 {
        LowMaskBits(k - 1, i - 1);
      }
    }
  }

  lemma LowMaskHalves(p: nat)
    requires p >= 1
    ensures (2 * p - 1) / 2 == p - 1 && (2 * p - 1) % 2 == 1
  {
  }

  /** Reducing modulo `m * n` and then modulo `m` is reducing modulo `m`. */
  lemma ModOfMod(a: int, m: nat, n: nat)
    requires m > 0 && n > 0
    ensures (a % (m * n)) % m == a % m
  {
    var q := a / (m * n);
    var r := a % (m * n);
    assert a == m * (n * q) + r;
    var s := r % m;
    assert r == m * (r / m) + s;
    assert a == m * (n * q + r / m) + s;
    ModUnique(a, m, n * q + r / m, s);
  }

  // ---------------------------------------------------------------- decimal text

  predicate IsDigit(c: char)
  {
    '0' <= c <= '9'
  }

  predicate AllDigits(s: string)
  {
    forall k :: 0 <= k < |s| ==> IsDigit(s[k])
  }

  function DigitChar(d: nat): (c: char)
    requires d < 10
    ensures IsDigit(c) && c as int - '0' as int == d
  {
    ('0' as int + d) as char
  }

  /** Decimal digits of `n`, most significant first, no leading zeros. */
  function NatText(n: nat): string
    decreases n
  {
    if n < 10 then [DigitChar(n)] else NatText(n / 10) + [DigitChar(n % 10)]
  }

  /** `String(n)` / `${n}` for an integer (positional notation). */
  function IntText(n: int): string
  {
    if n < 0 then "-" + NatText(-n) else NatText(n)
  }

  /** The value of a string of decimal digits. */
  function DigitsValue(s: string): nat
    requires AllDigits(s)
  {
    if s == [] then 0 else 10 * DigitsValue(s[..|s| - 1]) + (s[|s| - 1] as int - '0' as int)
  }

  /** Decimal text is digits only, non-empty, and reads back as the number it came from. */
  lemma {:induction false} NatTextRoundTrip(n: nat)
    ensures |NatText(n)| > 0 && AllDigits(NatText(n))
    ensures DigitsValue(NatText(n)) == n
    decreases n
  {
    if n >= 10 {
      NatTextRoundTrip(n / 10);
      var s := NatText(n);
      assert s[..|s| - 1] == NatText(n / 10);
    }
  }

  /**
   * `Number(s)` for the strings this model reads: a non-empty run of decimal
   * digits is its value; every other string is read as 0, which is what the
   * bitwise operators make of the NaN JavaScript produces for most of them.
   */
  function TextToNumber(s: string): (x: real)
    ensures x >= 0.0
  {
    if |s| > 0 && AllDigits(s) then DigitsValue(s) as real else 0.0
  }

  /** Text produced by `IntText` for a non-negative integer converts back to it. */
  lemma TextToNumberOfText(n: nat)
    ensures TextToNumber(IntText(n)) == n as real
  {
    NatTextRoundTrip(n);
  }

  // ---------------------------------------------------------------- fixed-point text

  function Pow10(f: nat): (p: nat)
    ensures p >= 1
  {
    if f == 0 then 1 else 10 * Pow10(f - 1)
  }

  /** `f` zero digits. */
  function Zeros(f: nat): (z: string)
    ensures |z| == f
  {
    seq(f, _ => '0')
  }

  /** `text` with zeros put in front until it has at least `width` characters. */
  function PadDigits(text: string, width: nat): (r: string)
    ensures |r| >= width && |r| >= |text|
    decreases width - |text|
  {
    if |text| >= width then text else PadDigits("0" + text, width)
  }

  /**
   * The integer `toFixed(f)` writes for a non-negative `x`: `x * 10^f`
   * rounded to the nearest integer, a tie going to the larger one.
   */
  function FixedScaled(x: real, f: nat): (n: nat)
    requires x >= 0.0
    ensures n as real - 0.5 <= x * Pow10(f) as real < n as real + 0.5
  {
    (x * Pow10(f) as real + 0.5).Floor
  }

  /** `x.toFixed(f)`: a sign for a negative `x`, the rounded digits, and `f` of them after the point. */
  function ToFixed(x: real, f: nat): (r: string)
    ensures |r| > f
  {
    var digits := PadDigits(NatText(FixedScaled(if x < 0.0 then -x else x, f)), f + 1);
    (if x < 0.0 then "-" else "") +
    (if f == 0 then digits else digits[..|digits| - f] + "." + digits[|digits| - f..])
  }

  /** Ten times a positive number is written with one more zero. */
  lemma NatTextTimesTen(m: nat)
    requires m >= 1
    ensures NatText(m * 10) == NatText(m) + Zeros(1)
  {
    assert (m * 10) / 10 == m && (m * 10) % 10 == 0;
  }

  lemma MulTen(n: nat, p: nat)
    ensures n * (10 * p) == (n * p) * 10
  {
  }

  /** Multiplying a positive number by `10^f` appends `f` zeros to its text. */
  lemma {:induction false} NatTextTimesPow10(n: nat, f: nat)
    requires n >= 1
    ensures NatText(n * Pow10(f)) == NatText(n) + Zeros(f)
  {
    if f > 0 {
      var m := n * Pow10(f - 1);
      NatTextTimesPow10(n, f - 1);
      MulTen(n, Pow10(f - 1));
      assert m >= 1;
      NatTextTimesTen(m);
      assert Zeros(f - 1) + Zeros(1) == Zeros(f);
    }
  }

  /** Zeros padded with zeros are zeros. */
  lemma {:induction false} PadZeros(k: nat, width: nat)
    ensures PadDigits(Zeros(k), width) == Zeros(if k >= width then k else width)
    decreases width - k
  {
    if k < width {
      assert "0" + Zeros(k) == Zeros(k + 1);
      PadZeros(k + 1, width);
    }
  }

  /** A natural number needs no rounding. */
  lemma FixedScaledNat(a: nat, f: nat)
    ensures FixedScaled(a as real, f) == a * Pow10(f)
  {
    var p := Pow10(f);
    assert (a * p) as real == a as real * p as real;
  }

  /** Text with at least one digit before `f` zeros is not padded and splits back. */
  lemma SplitAfterPad(u: string, f: nat)
    requires |u| >= 1
    ensures var d := PadDigits(u + Zeros(f), f + 1);
      d[..|d| - f] == u && d[|d| - f..] == Zeros(f)
  {
  }

  /** Zero is padded to `f + 1` zeros: `0` before the point and `f` zeros after it. */
  lemma ZeroDigits(f: nat)
    ensures var d := PadDigits(NatText(0), f + 1);
      d[..|d| - f] == NatText(0) && d[|d| - f..] == Zeros(f)
  {
    assert NatText(0) == Zeros(1);
    PadZeros(1, f + 1);
    var d := Zeros(f + 1);
    assert d[..1] == Zeros(1) && d[1..] == Zeros(f);
  }

  /** The padded digits of a natural number times `10^f`: its own text, then `f` zeros. */
  lemma FixedDigitsOfNat(a: nat, f: nat)
    ensures var d := PadDigits(NatText(a * Pow10(f)), f + 1);
      d[..|d| - f] == NatText(a) && d[|d| - f..] == Zeros(f)
  {
    if a == 0 {
      assert a * Pow10(f) == 0;
      ZeroDigits(f);
    } else {
      NatTextTimesPow10(a, f);
      NatTextRoundTrip(a);
      SplitAfterPad(NatText(a), f);
    }
  }

  /** An integer is written in full, followed by `.` and `f` zeros when `f > 0`. */
  lemma ToFixedInteger(n: int, f: nat)
    ensures ToFixed(n as real, f) == IntText(n) + (if f == 0 then "" else "." + Zeros(f))
  {
    var a: nat := if n < 0 then -n else n;
    assert (if (n as real) < 0.0 then -(n as real) else n as real) == a as real;
    FixedScaledNat(a, f);
    FixedDigitsOfNat(a, f);
  }
}
