/**
  Base-128 varints and ZigZag (sections "Base 128 Varints" and "Signed Integers" of the Protocol
  Buffers Encoding specification), as written by src/pb-encode.c and read by src/pb-decode.c.
 */
module Varints {
  import opened Bytes

  /** Least significant group first; every byte but the last has its top bit set. */
  function Varint(v: nat): (s: seq<byte>)
    ensures |s| >= 1
  {
    if v < 128 then [v] else [v % 128 + 128] + Varint(v / 128)
  }

  function Pow128(n: nat): (p: nat)
    ensures p >= 1
  {
    if n == 0 then 1 else 128 * Pow128(n - 1)
  }

  lemma {:induction false} VarintLength(v: nat, n: nat)
    requires n >= 1 && v < Pow128(n)
    ensures |Varint(v)| <= n
  {
    if v >= 128 {
      assert Pow128(1) == 128 * Pow128(0);
      VarintLength(v / 128, n - 1);
    }
  }

  lemma Pow128Values()
    ensures Pow128(1) == 0x80 && Pow128(2) == 0x4000 && Pow128(3) == 0x20_0000 && Pow128(4) == 0x1000_0000
    ensures Pow128(5) == 0x8_0000_0000 && Pow128(9) == TWO63 && Pow128(10) == 128 * TWO63
  {
    assert Pow128(4) == 128 * Pow128(3) && Pow128(3) == 128 * Pow128(2) && Pow128(2) == 128 * Pow128(1);
    assert Pow128(1) == 128 * Pow128(0);
    assert Pow128(8) == 128 * Pow128(7) && Pow128(7) == 128 * Pow128(6) && Pow128(6) == 128 * Pow128(5);
  }

  /** A 64-bit value takes at most ten bytes, so `buffer[10]` in pb_encode_varint is enough. */
  lemma VarintFits(v: nat)
    requires v < TWO64
    ensures |Varint(v)| <= 10
  {
    Pow128Values();
    VarintLength(v, 10);
  }

  /** Where a reader stands: `left` more bytes may be read from position `pos`. */
  datatype Cursor = Cursor(pos: nat, left: nat) {
    ghost predicate In(buf: seq<byte>) { pos + left <= |buf| }
    function Skip(n: nat): Cursor requires n <= left { Cursor(pos + n, left - n) }
    ghost predicate At(buf: seq<byte>, s: seq<byte>) {
      In(buf) && |s| <= left && buf[pos..pos + |s|] == s
    }
  }

  /** On failure the cursor is where reading stopped. */
  datatype VarintRead = VarintRead(ok: bool, value: nat, at: Cursor)

  /** `(uint64_t)(byte & 0x7F) << 7 * i`, before it is cut to 64 bits. */
  function Digit(b: byte, i: nat): nat {
    b % 128 * Pow128(i)
  }

  /**
    pb_decode_varint from its `i`-th byte on. `acc < Pow128(i)`, so the bits or-ed in by the source
    are disjoint from those of `acc` and the disjunction is a sum, cut to 64 bits by the shift.
   */
  function ReadFrom(buf: seq<byte>, c: Cursor, i: nat, acc: nat): (r: VarintRead)
    requires c.In(buf) && acc < TWO64
    ensures r.value < TWO64
    ensures r.at.pos + r.at.left == c.pos + c.left && r.at.pos >= c.pos
    ensures r.ok ==> r.at.pos > c.pos
    decreases c.left
  {
    if i >= 10 || c.left == 0 then VarintRead(false, acc, c)
    else
      var b := buf[c.pos];
      var acc' := (acc + Digit(b, i)) % TWO64;
      if b < 128 then VarintRead(true, acc', c.Skip(1)) else ReadFrom(buf, c.Skip(1), i + 1, acc')
  }

  function ReadVarint(buf: seq<byte>, c: Cursor): (r: VarintRead)
    requires c.In(buf)
    ensures r.value < TWO64
    ensures r.at.pos + r.at.left == c.pos + c.left && r.at.pos >= c.pos
    ensures r.ok ==> r.at.pos > c.pos
  {
    ReadFrom(buf, c, 0, 0)
  }

  lemma ReadStep(buf: seq<byte>, c: Cursor, i: nat, acc: nat)
    requires c.In(buf) && c.left > 0 && i < 10
    requires acc + Digit(buf[c.pos], i) < TWO64
    ensures ReadFrom(buf, c, i, acc) ==
      var acc' := acc + Digit(buf[c.pos], i);
      if buf[c.pos] < 128 then VarintRead(true, acc', c.Skip(1)) else ReadFrom(buf, c.Skip(1), i + 1, acc')
  {
    hide Digit;
    assert (acc + Digit(buf[c.pos], i)) % TWO64 == acc + Digit(buf[c.pos], i);
  }

  lemma {:induction false} ReadFromVarint(buf: seq<byte>, c: Cursor, v: nat, i: nat, acc: nat)
    requires c.At(buf, Varint(v)) && i + |Varint(v)| <= 10
    requires acc < TWO64 && acc + v * Pow128(i) < TWO64
    ensures ReadFrom(buf, c, i, acc) == VarintRead(true, acc + v * Pow128(i), c.Skip(|Varint(v)|))
    decreases v
  {
    hide Pow128, ReadFrom;
    var s, p := Varint(v), Pow128(i);
    assert buf[c.pos] == s[0] by { assert buf[c.pos..c.pos + |s|][0] == s[0]; }
    DigitOf(v, i);
    if v < 128 {
      ReadStep(buf, c, i, acc);
    } else {
      ReadStep(buf, c, i, acc);
      assert s[1..] == Varint(v / 128);
      assert buf[c.pos + 1..c.pos + |s|] == s[1..] by { assert buf[c.pos..c.pos + |s|][1..] == s[1..]; }
      ReadFromVarint(buf, c.Skip(1), v / 128, i + 1, acc + Digit(s[0], i));
    }
  }

  /** The first digit of `v` and what is left of it. */
  lemma DigitOf(v: nat, i: nat)
    ensures v < 128 ==> Digit(v, i) == v * Pow128(i)
    ensures v >= 128 ==> v * Pow128(i) == Digit(v % 128 + 128, i) + v / 128 * Pow128(i + 1)
    ensures v / 128 * Pow128(i + 1) >= 0
  {
    var p := Pow128(i);
    assert v == v % 128 + v / 128 * 128;
    assert v * p == (v % 128 + v / 128 * 128) * p == v % 128 * p + v / 128 * 128 * p;
    assert Pow128(i + 1) == 128 * p;
    assert v / 128 * 128 * p == v / 128 * (128 * p);
  }

  /** Reading what was written gives back the value and consumes exactly its bytes. */
  lemma ReadWritten(buf: seq<byte>, c: Cursor, v: nat)
    requires v < TWO64 && c.At(buf, Varint(v))
    ensures ReadVarint(buf, c) == VarintRead(true, v, c.Skip(|Varint(v)|))
  {
    VarintFits(v);
    ReadFromVarint(buf, c, v, 0, 0);
  }

  /** Signed values interleaved with the naturals: `~(v << 1)` for a negative `v`, `v << 1` otherwise. */
  function ZigZag(v: int): (u: nat) {
    if v < 0 then -2 * v - 1 else 2 * v
  }

  function UnZigZag(u: nat): (v: int) {
    if u % 2 == 1 then -(u / 2) - 1 else u / 2
  }

  lemma ZigZagRoundTrip(v: int, u: nat)
    ensures UnZigZag(ZigZag(v)) == v
    ensures ZigZag(UnZigZag(u)) == u
    ensures -(TWO63 as int) <= v < TWO63 <==> ZigZag(v) < TWO64
  {
  }
}
