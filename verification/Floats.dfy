/**
  Integers as IEEE 754 singles and doubles, which is how json_number_value and the fixed-width fields of
  the encoder see them: rounded to nearest, ties to even.
 */
module Floats {
  import opened Bytes

  function Pow2(k: nat): (r: nat)
    ensures r >= 1
  {
    if k == 0 then 1 else 2 * Pow2(k - 1)
  }

  /** The number of binary digits. */
  function Size(n: nat): nat {
    if n == 0 then 0 else 1 + Size(n / 2)
  }

  /** `n` rounded to `p` significant binary digits. */
  function Rounded(n: nat, p: nat): nat {
    if Size(n) <= p then n else RoundTo(n, Pow2(Size(n) - p))
  }

  /** `n` rounded to a multiple of `u`, to an even one in the middle between two. */
  function RoundTo(n: nat, u: nat): nat
    requires u >= 1
  {
    var q, r := n / u, n % u;
    if 2 * r > u || (2 * r == u && q % 2 == 1) then Times(q + 1, u) else Times(q, u)
  }

  /** The first `p` binary digits. */
  function Leading(n: nat, p: nat): nat {
    if Size(n) <= p then Times(n, Pow2(p - Size(n))) else Over(n, Pow2(Size(n) - p))
  }

  function Times(a: nat, b: nat): nat { a * b }

  function Over(a: nat, u: nat): nat
    requires u >= 1
  {
    a / u
  }

  /** The biased exponent followed by the fraction, of a number of at most `p` significant digits. */
  function Word(n: nat, p: nat, bias: nat): nat
    requires p >= 1 && bias >= 2
  {
    if n == 0 then 0 else Times(Size(n) + bias - 2, Pow2(p - 1)) + Leading(n, p)
  }

  /** The integer part of the number that such a word stands for. */
  function ValueOf(w: nat, p: nat, bias: nat): nat
    requires p >= 1 && bias >= 2
  {
    var h := Pow2(p - 1);
    var e, digits := w / h - bias, w % h + h;
    if e < 0 then 0
    else if e < p - 1 then Over(digits, Pow2(p - 1 - e))
    else Times(digits, Pow2(e - (p - 1)))
  }

  // ---------- digits ----------

  lemma {:induction false} SizeBounds(n: nat)
    requires n > 0
    ensures Size(n) >= 1 && Pow2(Size(n) - 1) <= n < Pow2(Size(n))
  {
    if n > 1 {
      SizeBounds(n / 2);
    } else {
      assert Size(1) == 1 && Pow2(1) == 2 * Pow2(0);
    }
  }

  lemma {:induction false} Pow2Grows(a: nat, b: nat)
    requires a <= b
    ensures Pow2(a) <= Pow2(b)
    decreases b
  {
    if a < b {
      Pow2Grows(a, b - 1);
    }
  }

  lemma {:induction false} Pow2Add(a: nat, b: nat)
    ensures Pow2(a + b) == Pow2(a) * Pow2(b)
    decreases a
  {
    if a > 0 {
      Pow2Add(a - 1, b);
      assert Pow2(a + b) == 2 * Pow2(a + b - 1) && a + b - 1 == (a - 1) + b;
    }
  }

  lemma SizeIs(n: nat, k: nat)
    requires n < Pow2(k)
    ensures Size(n) <= k
  {
    hide Pow2, Size;
    if n > 0 {
      SizeBounds(n);
      if Size(n) > k {
        Pow2Grows(k, Size(n) - 1);
      }
    } else {
      NoDigits();
    }
  }

  lemma NoDigits()
    ensures Size(0) == 0
  {
  }

  /** Quotient and remainder are unique. */
  lemma Unique(n: nat, u: nat, q: nat, r: nat)
    requires u >= 1 && n == q * u + r && r < u
    ensures n / u == q && n % u == r
  {
    DivMod(n, u);
    var d := q - n / u;
    assert d * u == n % u - r by { Distribute(q, n / u, u); }
    if d >= 1 {
      Factor(1, d, u);
    } else if d <= -1 {
      Factor(1, -d, u);
    }
  }

  lemma Distribute(a: int, b: int, u: int)
    ensures (a - b) * u == a * u - b * u
  {
  }

  lemma DivMul(a: nat, u: nat)
    requires u >= 1
    ensures a * u / u == a && a * u % u == 0
  {
    Unique(a * u, u, a, 0);
  }

  lemma Quotient(n: nat, u: nat, x: nat)
    requires u >= 1 && x * u <= n
    ensures x <= n / u
  {
    if n / u < x {
      Factor(n / u + 1, x, u);
    }
  }

  lemma QuotientBelow(n: nat, u: nat, y: nat)
    requires u >= 1 && n < y * u
    ensures n / u < y
  {
    if n / u >= y {
      Factor(y, n / u, u);
    }
  }

  lemma LeadingBounds(n: nat, p: nat)
    requires n > 0 && p >= 1
    ensures Pow2(p - 1) <= Leading(n, p) < Pow2(p)
  {
    hide Pow2, Size;
    SizeBounds(n);
    var s := Size(n);
    if s <= p {
      Pow2Add(s - 1, p - s);
      Pow2Add(s, p - s);
      Ordered(Pow2(s - 1), n, Pow2(s), Pow2(p - s));
    } else {
      Pow2Add(p - 1, s - p);
      Pow2Add(p, s - p);
      Quotient(n, Pow2(s - p), Pow2(p - 1));
      QuotientBelow(n, Pow2(s - p), Pow2(p));
    }
  }

  lemma Ordered(a: nat, n: nat, b: nat, u: nat)
    requires a <= n < b && u >= 1
    ensures a * u <= n * u < b * u
  {
  }

  // ---------- rounding ----------

  lemma Multiple(a: nat, u: nat)
    requires u >= 1
    ensures RoundTo(a * u, u) == a * u
  {
    DivMul(a, u);
  }

  /** A multiple of a power of two with few enough digits is what it is rounded to. */
  lemma RoundedExact(a: nat, k: nat, p: nat)
    requires p >= 1 && a <= Pow2(p)
    ensures Rounded(a * Pow2(k), p) == a * Pow2(k)
  {
    hide Pow2, Size, RoundTo;
    var m := a * Pow2(k);
    if Size(m) > p {
      var j := Size(m) - p;
      SizeOf(a, k, p);
      if j <= k {
        Pow2Add(k - j, j);
        Assoc(a, Pow2(k - j), Pow2(j));
        Multiple(a * Pow2(k - j), Pow2(j));
      } else {
        Multiple(Pow2(p - 1), Pow2(j));
      }
    }
  }

  lemma SizeOf(a: nat, k: nat, p: nat)
    requires p >= 1 && a <= Pow2(p) && Size(a * Pow2(k)) > p
    ensures var j := Size(a * Pow2(k)) - p; j <= k || (j == k + 1 && a * Pow2(k) == Pow2(p - 1) * Pow2(j))
  {
    hide Pow2, Size;
    var m := a * Pow2(k);
    Pow2Add(p, k);
    Pow2Step(p + k);
    Factor(a, Pow2(p), Pow2(k));
    SizeIs(m, p + k + 1);
    if m < Pow2(p + k) {
      SizeIs(m, p + k);
    } else {
      Pow2Add(p - 1, k + 1);
    }
  }

  lemma Pow2Step(k: nat)
    ensures Pow2(k + 1) == 2 * Pow2(k)
  {
  }

  lemma Factor(a: nat, b: nat, u: nat)
    requires a <= b
    ensures a * u <= b * u
  {
  }

  lemma Assoc(a: nat, b: nat, c: nat)
    ensures a * (b * c) == (a * b) * c
  {
  }

  /** Rounding keeps what is already rounded. */
  lemma RoundedTwice(n: nat, p: nat)
    requires p >= 1
    ensures Rounded(Rounded(n, p), p) == Rounded(n, p)
  {
    hide Pow2, Size, RoundTo;
    if Size(n) > p {
      var k := Size(n) - p;
      var u := Pow2(k);
      RoundToMeans(n, u);
      var a: nat :| a <= n / u + 1 && Rounded(n, p) == a * u;
      NoDigits();
      SizeBounds(n);
      Pow2Add(p, k);
      QuotientBelow(n, u, Pow2(p));
      RoundedExact(a, k, p);
    }
  }

  /** The result is a multiple of `u`, and none is nearer. */
  lemma RoundToMeans(n: nat, u: nat)
    requires u >= 1
    ensures exists a: nat :: a <= n / u + 1 && RoundTo(n, u) == a * u
    ensures var d := RoundTo(n, u) - n; -(u as int) <= 2 * d <= u
  {
    var q, r := n / u, n % u;
    var a := if 2 * r > u || (2 * r == u && q % 2 == 1) then q + 1 else q;
    assert RoundTo(n, u) == a * u;
    DivMod(n, u);
    NextMultiple(q, u);
  }

  lemma DivMod(n: nat, u: nat)
    requires u >= 1
    ensures n == n / u * u + n % u && 0 <= n % u < u && n / u >= 0
  {
  }

  lemma NextMultiple(q: nat, u: nat)
    ensures (q + 1) * u == q * u + u
  {
  }

  /** Rounding moves a number by at most half a unit of its last digit, and not at all up to `p` digits. */
  lemma RoundedIsNear(n: nat, p: nat)
    ensures Size(n) <= p ==> Rounded(n, p) == n
    ensures Size(n) > p ==> var d := Rounded(n, p) - n; -(Pow2(Size(n) - p) as int) <= 2 * d <= Pow2(Size(n) - p)
  {
    hide Pow2, Size, RoundTo;
    if Size(n) > p {
      RoundToMeans(n, Pow2(Size(n) - p));
    }
  }

  lemma SmallIsExact(n: nat, p: nat)
    requires p >= 1 && n <= Pow2(p)
    ensures Rounded(n, p) == n
  {
    hide Rounded, Pow2;
    RoundedExact(n, 0, p);
    assert n * Pow2(0) == n by { One(n); }
  }

  lemma One(n: nat)
    ensures n * Pow2(0) == n
  {
  }

  // ---------- words ----------

  /** The word of a number of at most `p` significant digits stands for that number. */
  lemma WordRoundTrip(n: nat, p: nat, bias: nat)
    requires p >= 1 && bias >= 2 && Rounded(n, p) == n
    ensures ValueOf(Word(n, p, bias), p, bias) == n
  {
    hide Pow2, Size, Leading, Rounded;
    if n == 0 {
      ZeroWord(p, bias);
    } else {
      var h, s, l := Pow2(p - 1), Size(n), Leading(n, p);
      LeadingBounds(n, p);
      SizeBounds(n);
      Pow2Step(p - 1);
      WordParts(s + bias - 2, h, l);
      LeadingBack(n, p);
    }
  }

  lemma ZeroWord(p: nat, bias: nat)
    requires p >= 1 && bias >= 2
    ensures ValueOf(0, p, bias) == 0
  {
    hide Pow2;
    Unique(0, Pow2(p - 1), 0, 0);
  }

  lemma WordParts(e: nat, h: nat, l: nat)
    requires h >= 1 && h <= l < 2 * h
    ensures (e * h + l) / h == e + 1 && (e * h + l) % h == l - h
  {
    Unique(e * h + l, h, e + 1, l - h);
  }

  lemma LeadingBack(n: nat, p: nat)
    requires n > 0 && p >= 1 && Rounded(n, p) == n
    ensures Size(n) >= 1
    ensures Size(n) <= p ==> Leading(n, p) / Pow2(p - Size(n)) == n
    ensures Size(n) >= p ==> Leading(n, p) * Pow2(Size(n) - p) == n
  {
    hide Pow2, Size;
    SizeBounds(n);
    if Size(n) <= p {
      DivMul(n, Pow2(p - Size(n)));
      if Size(n) == p {
        One(n);
      }
    } else {
      RoundedDivides(n, Pow2(Size(n) - p));
    }
  }

  lemma RoundedDivides(n: nat, u: nat)
    requires u >= 1 && RoundTo(n, u) == n
    ensures n / u * u == n
  {
    DivMod(n, u);
    NextMultiple(n / u, u);
  }

  // ---------- blocks of bytes ----------

  /** The lowest `n` bytes of a word, least significant first. */
  function LittleEndian(w: nat, n: nat): (s: seq<byte>)
    ensures |s| == n
    decreases n
  {
    if n == 0 then [] else [w % 0x100] + LittleEndian(w / 0x100, n - 1)
  }

  function FromLittleEndian(s: seq<byte>): nat {
    if s == [] then 0 else s[0] + 0x100 * FromLittleEndian(s[1..])
  }

  lemma {:induction false} BlockRoundTrip(w: nat, n: nat)
    requires w < Pow2(8 * n)
    ensures FromLittleEndian(LittleEndian(w, n)) == w
    decreases n
  {
    if n > 0 {
      assert Pow2(8 * n) == 0x100 * Pow2(8 * (n - 1)) by { Pow2Byte(n - 1); }
      BlockRoundTrip(w / 0x100, n - 1);
    }
  }

  lemma Pow2Byte(n: nat)
    ensures Pow2(8 * (n + 1)) == 0x100 * Pow2(8 * n)
  {
    var k := 8 * n;
    assert Pow2(k + 8) == 2 * Pow2(k + 7) && Pow2(k + 7) == 2 * Pow2(k + 6) && Pow2(k + 6) == 2 * Pow2(k + 5)
      && Pow2(k + 5) == 2 * Pow2(k + 4);
    assert Pow2(k + 4) == 2 * Pow2(k + 3) && Pow2(k + 3) == 2 * Pow2(k + 2) && Pow2(k + 2) == 2 * Pow2(k + 1);
  }

  function Abs(i: int): nat { if i < 0 then -i else i }

  /** The double nearest to an integer; an integer itself. */
  function Near(i: int): int {
    if i < 0 then 0 - Rounded(-i, 53) else Rounded(i, 53)
  }

  /** An integer as a double: its sign, exponent and fraction. */
  function DoubleOfInt(i: int): (s: seq<byte>)
    ensures |s| == 8
  {
    LittleEndian((if i < 0 then TWO63 else 0) + Word(Rounded(Abs(i), 53), 53, 1023), 8)
  }

  /** As a single, which it becomes by way of a double. */
  function SingleOfInt(i: int): (s: seq<byte>)
    ensures |s| == 4
  {
    LittleEndian((if i < 0 then TWO31 else 0) + Word(Rounded(Rounded(Abs(i), 53), 24), 24, 127), 4)
  }

  /** The integer part of a double, and of a single. */
  function IntOfDouble(s: seq<byte>): int {
    Signed(FromLittleEndian(s), TWO63, 53, 1023)
  }

  function IntOfSingle(s: seq<byte>): int {
    Signed(FromLittleEndian(s), TWO31, 24, 127)
  }

  /** A word whose sign bit is worth `sign`. */
  function Signed(w: nat, sign: nat, p: nat, bias: nat): int
    requires p >= 1 && bias >= 2
  {
    if w < sign then ValueOf(w, p, bias) else 0 - ValueOf(w - sign, p, bias)
  }

  lemma Powers()
    ensures Pow2(8) == 0x100 && Pow2(23) == 0x80_0000 && Pow2(24) == 0x100_0000 && Pow2(32) == TWO32
    ensures Pow2(52) == 0x10_0000_0000_0000 && Pow2(53) == TWO53 && Pow2(63) == TWO63 && Pow2(64) == TWO64
  {
    hide Pow2;
    assert Pow2(8) == 0x100 by { Pow2Byte(0); assert Pow2(0) == 1 by { First(); } }
    assert Pow2(16) == 0x1_0000 by { Pow2Byte(1); }
    assert Pow2(24) == 0x100_0000 by { Pow2Byte(2); }
    Pow2Step(23);
    Pow2Byte(3);
    Pow2Add(24, 24);
    assert Pow2(48) == 0x1_0000_0000_0000;
    Pow2Step(48); Pow2Step(49); Pow2Step(50); Pow2Step(51); Pow2Step(52);
    Pow2Add(32, 32);
    Pow2Step(63);
  }

  lemma First()
    ensures Pow2(0) == 1
  {
  }

  lemma RoundedBelow(n: nat, p: nat, k: nat)
    requires p >= 1 && n <= Pow2(k)
    ensures Rounded(n, p) <= Pow2(k)
  {
    hide Pow2, Size, RoundTo;
    var s := Size(n);
    if s > p {
      NoDigits();
      SizeBounds(n);
      if s <= k {
        var u := Pow2(s - p);
        RoundToMeans(n, u);
        var a: nat :| a <= n / u + 1 && Rounded(n, p) == a * u;
        Pow2Add(p, s - p);
        QuotientBelow(n, u, Pow2(p));
        Factor(a, Pow2(p), u);
        Pow2Grows(s, k);
      } else {
        Pow2Grows(k, s - 1);
        Pow2Grows(0, p);
        First();
        RoundedExact(1, k, p);
      }
    }
  }

  /** The word of a number up to 2^63 leaves room for a sign. */
  lemma WordFits(n: nat, p: nat, bias: nat)
    requires p >= 1 && bias >= 2 && n <= TWO63
    ensures Word(n, p, bias) < (bias + 64) * Pow2(p - 1)
  {
    hide Pow2, Size, Leading;
    Powers();
    if n > 0 {
      SizeIs(n, 64);
      SizeBounds(n);
      LeadingBounds(n, p);
      Pow2Step(p - 1);
      Factor(Size(n) + bias - 2, bias + 62, Pow2(p - 1));
      assert (bias + 64) * Pow2(p - 1) == (bias + 62) * Pow2(p - 1) + 2 * Pow2(p - 1);
    }
  }

  /**
    A 64-bit integer written as a double stands for the nearest double, which is the integer itself up
    to 2^53.
   */
  lemma DoubleRoundTrip(i: int)
    requires Abs(i) <= TWO63
    ensures IntOfDouble(DoubleOfInt(i)) == Near(i)
    ensures Abs(i) <= TWO53 ==> Near(i) == i
  {
    hide Pow2, Rounded, Word, ValueOf, FromLittleEndian, LittleEndian;
    Powers();
    var n := Rounded(Abs(i), 53);
    RoundedBelow(Abs(i), 53, 63);
    RoundedTwice(Abs(i), 53);
    WordFits(n, 53, 1023);
    WordRoundTrip(n, 53, 1023);
    var w := (if i < 0 then TWO63 else 0) + Word(n, 53, 1023);
    BlockRoundTrip(w, 8);
    if Abs(i) <= TWO53 {
      SmallIsExact(Abs(i), 53);
    }
  }

  /** Written as a single it stands for the single nearest to the double; it is the integer itself up to 2^24. */
  lemma SingleRoundTrip(i: int)
    requires Abs(i) <= TWO63
    ensures Abs(IntOfSingle(SingleOfInt(i))) == Rounded(Abs(Near(i)), 24) && (IntOfSingle(SingleOfInt(i)) < 0 ==> i < 0)
    ensures Abs(i) <= 0x100_0000 ==> IntOfSingle(SingleOfInt(i)) == i
  {
    hide Pow2, Rounded, Word, ValueOf, FromLittleEndian, LittleEndian;
    Powers();
    var m := Rounded(Abs(i), 53);
    var n := Rounded(m, 24);
    RoundedBelow(Abs(i), 53, 63);
    RoundedBelow(m, 24, 63);
    RoundedTwice(m, 24);
    WordFits(n, 24, 127);
    WordRoundTrip(n, 24, 127);
    BlockRoundTrip((if i < 0 then TWO31 else 0) + Word(n, 24, 127), 4);
    if Abs(i) <= 0x100_0000 {
      SmallIsExact(Abs(i), 53);
      SmallIsExact(Abs(i), 24);
    }
  }

  lemma NearTwice(i: int)
    ensures Near(Near(i)) == Near(i)
  {
    hide Rounded;
    RoundedTwice(Abs(i), 53);
    ZeroIsExact();
  }

  lemma ZeroIsExact()
    ensures Rounded(0, 53) == 0
  {
  }

  lemma NearSmall(i: int)
    requires Abs(i) <= TWO53
    ensures Near(i) == i
  {
    hide Rounded, Pow2;
    Powers();
    SmallIsExact(Abs(i), 53);
  }

  /** 1 and -2 as IEEE 754 has them: 0x3FF0000000000000 and 0xC000000000000000, 0x3F800000 and 0xC0000000, lowest byte first. */
  lemma Examples()
    ensures DoubleOfInt(1) == [0, 0, 0, 0, 0, 0, 0xF0, 0x3F] && DoubleOfInt(-2) == [0, 0, 0, 0, 0, 0, 0, 0xC0]
    ensures SingleOfInt(1) == [0, 0, 0x80, 0x3F] && SingleOfInt(-2) == [0, 0, 0, 0xC0]
  {
    hide Word, Rounded, LittleEndian, Pow2, Size;
    Words();
    Eight(0x3FF0_0000_0000_0000);
    Eight(0xC000_0000_0000_0000);
    Four(0x3F80_0000);
    Four(0xC000_0000);
  }

  lemma Words()
    ensures Rounded(1, 53) == 1 && Rounded(2, 53) == 2 && Rounded(1, 24) == 1 && Rounded(2, 24) == 2
    ensures Word(1, 53, 1023) == 0x3FF0_0000_0000_0000 && Word(2, 53, 1023) == 0x4000_0000_0000_0000
    ensures Word(1, 24, 127) == 0x3F80_0000 && Word(2, 24, 127) == 0x4000_0000
  {
    Powers();
    assert Size(1) == 1 && Size(2) == 2;
    hide Pow2, Size;
    Pow2Step(51);
    Pow2Step(22);
  }

  lemma Eight(w: nat)
    ensures LittleEndian(w, 8) == [w % 0x100, w / 0x100 % 0x100, w / 0x1_0000 % 0x100, w / 0x100_0000 % 0x100,
                                   w / 0x1_0000_0000 % 0x100, w / 0x100_0000_0000 % 0x100, w / 0x1_0000_0000_0000 % 0x100, w / 0x100_0000_0000_0000 % 0x100]
  {
    Four(w);
    Four(w / 0x1_0000_0000);
    LowFirst(w, 4, 4);
    assert w / 0x1_0000_0000 / 0x100 == w / 0x100_0000_0000;
    assert w / 0x1_0000_0000 / 0x1_0000 == w / 0x1_0000_0000_0000;
    assert w / 0x1_0000_0000 / 0x100_0000 == w / 0x100_0000_0000_0000;
    assert Over256(w, 4) == w / 0x1_0000_0000 by { FourTimes(w); }
  }

  function Over256(w: nat, n: nat): nat {
    if n == 0 then w else Over256(w / 0x100, n - 1)
  }

  lemma FourTimes(w: nat)
    ensures Over256(w, 4) == w / 0x1_0000_0000
  {
    assert Over256(w, 4) == w / 0x100 / 0x100 / 0x100 / 0x100 by {
      assert Over256(w / 0x100, 3) == Over256(w / 0x100 / 0x100, 2);
      assert Over256(w / 0x100 / 0x100, 2) == Over256(w / 0x100 / 0x100 / 0x100, 1);
    }
  }

  /** The lowest `m` bytes come first. */
  lemma {:induction false} LowFirst(w: nat, m: nat, n: nat)
    ensures LittleEndian(w, m + n) == LittleEndian(w, m) + LittleEndian(Over256(w, m), n)
    decreases m
  {
    if m > 0 {
      LowFirst(w / 0x100, m - 1, n);
    }
  }

  lemma Four(w: nat)
    ensures LittleEndian(w, 4) == [w % 0x100, w / 0x100 % 0x100, w / 0x1_0000 % 0x100, w / 0x100_0000 % 0x100]
  {
    assert w / 0x100 / 0x100 == w / 0x1_0000 && w / 0x1_0000 / 0x100 == w / 0x100_0000;
    assert LittleEndian(w / 0x100_0000, 1) == [w / 0x100_0000 % 0x100];
    assert LittleEndian(w / 0x1_0000, 2) == [w / 0x1_0000 % 0x100, w / 0x100_0000 % 0x100];
    assert LittleEndian(w / 0x100, 3) == [w / 0x100 % 0x100, w / 0x1_0000 % 0x100, w / 0x100_0000 % 0x100];
  }
}
