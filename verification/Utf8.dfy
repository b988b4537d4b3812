/**
  The UTF-8 codec of the vendored jansson (deps/jansson/src/utf.c), and the proof that its
  checker accepts exactly the concatenations of encoded scalar values, each in one way only
  (sections 3 and 4 of RFC 3629).
 */
module Utf8 {
  import opened Bytes

  /** A Unicode scalar value: a code point that is not a UTF-16 surrogate half. */
  predicate IsScalar(c: int) {
    0 <= c <= 0x10FFFF && !(0xD800 <= c <= 0xDFFF)
  }

  /** utf8_encode; surrogates are encoded like any other code point. */
  function EncodeCodePoint(c: int): (r: Option<seq<byte>>)
    ensures r.Some? <==> 0 <= c <= 0x10FFFF
    ensures r.Some? ==> 1 <= |r.value| <= 4
  {
    if c < 0 then None
    else if c < 0x80 then Some([c])
    else if c < 0x800 then Some([0xC0 + c / 64, 0x80 + c % 64])
    else if c < 0x10000 then Some([0xE0 + c / 4096, 0x80 + c / 64 % 64, 0x80 + c % 64])
    else if c <= 0x10FFFF then
      Some([0xF0 + c / 0x40000, 0x80 + c / 4096 % 64, 0x80 + c / 64 % 64, 0x80 + c % 64])
    else None
  }

  /** utf8_check_first: the length announced by a first byte, 0 when it cannot start a sequence. */
  function CheckFirst(u: byte): (n: nat)
    ensures n <= 4
  {
    if u < 0x80 then 1
    else if u <= 0xC1 then 0
    else if u <= 0xDF then 2
    else if u <= 0xEF then 3
    else if u <= 0xF4 then 4
    else 0
  }

  function LeadBits(u: byte, size: nat): nat {
    if size == 2 then u % 0x20 else if size == 3 then u % 0x10 else u % 8
  }

  /** The value accumulated over the continuation bytes of `s`, None when one is not a continuation byte. */
  function Continue(value: nat, s: seq<byte>): Option<nat>
    decreases s
  {
    if s == [] then Some(value)
    else if s[0] < 0x80 || s[0] > 0xBF then None
    else Continue(value * 64 + s[0] % 64, s[1..])
  }

  predicate Acceptable(value: nat, size: nat) {
    && IsScalar(value)
    && !(size == 2 && value < 0x80)
    && !(size == 3 && value < 0x800)
    && !(size == 4 && value < 0x10000)
  }

  /** utf8_check_full as a function: the code point of a multi-byte sequence. */
  function Full(s: seq<byte>): Option<nat>
    requires s != []
  {
    if 2 <= |s| <= 4 then
      var v :- Continue(LeadBits(s[0], |s|), s[1..]);
      if Acceptable(v, |s|) then Some(v) else None
    else None
  }

  method CheckFull(buffer: seq<byte>) returns (codepoint: Option<nat>)
    requires buffer != []
    ensures codepoint == Full(buffer)
  {
    var size := |buffer|;
    var value: nat := 0;
    if size == 2 {
      value := buffer[0] % 0x20;
    } else if size == 3 {
      value := buffer[0] % 0x10;
    } else if size == 4 {
      value := buffer[0] % 8;
    } else {
      return None;
    }
    var i := 1;
    while i < size
      invariant 1 <= i <= size
      invariant Continue(LeadBits(buffer[0], size), buffer[1..]) == Continue(value, buffer[i..])
    {
      var u := buffer[i];
      if u < 0x80 || u > 0xBF {
        return None;
      }
      value := value * 64 + u % 64;
      i := i + 1;
    }
    if value > 0x10FFFF || 0xD800 <= value <= 0xDFFF {
      return None;
    }
    if (size == 2 && value < 0x80) || (size == 3 && value < 0x800) || (size == 4 && value < 0x10000) {
      return None;
    }
    return Some(value);
  }

  /** The code point at the head of `s` and its length, as utf8_iterate finds them. */
  function Head(s: seq<byte>): (r: Option<(nat, nat)>)
    requires s != []
    ensures r.Some? ==> 1 <= r.value.1 <= |s|
  {
    var n := CheckFirst(s[0]);
    if n == 0 || n > |s| then None
    else if n == 1 then Some((s[0], 1))
    else
      var v :- Full(s[..n]);
      Some((v, n))
  }

  /** The code points of `s`, None when `s` is not UTF-8. */
  function Decode(s: seq<byte>): Option<seq<nat>> {
    if s == [] then Some([])
    else
      var h :- Head(s);
      var rest :- Decode(s[h.1..]);
      Some([h.0] + rest)
  }

  predicate IsUtf8(s: seq<byte>) {
    Decode(s).Some?
  }

  /** Text that jansson accepts as a string or key: a C string in UTF-8. */
  predicate IsCText(t: Text) {
    0 !in t && IsUtf8(t)
  }

  /** utf8_check_string over a buffer of known length. */
  method CheckString(s: seq<byte>) returns (ok: bool)
    ensures ok <==> IsUtf8(s)
  {
    var i := 0;
    while i < |s|
      invariant 0 <= i <= |s|
      invariant IsUtf8(s) <==> IsUtf8(s[i..])
    {
      var count := CheckFirst(s[i]);
      if count == 0 {
        return false;
      } else if count > 1 {
        if i + count > |s| {
          return false;
        }
        var cp := CheckFull(s[i..i + count]);
        assert s[i..][..count] == s[i..i + count];
        if cp.None? {
          return false;
        }
        assert s[i..][count..] == s[i + count..];
        i := i + count - 1;
      } else {
        assert s[i..][1..] == s[i + 1..];
      }
      i := i + 1;
    }
    return true;
  }

  predicate Scalars(cps: seq<nat>) {
    forall i :: 0 <= i < |cps| ==> IsScalar(cps[i])
  }

  /** The bytes of a list of scalar values. */
  function EncodeAll(cps: seq<nat>): (s: seq<byte>)
    requires Scalars(cps)
  {
    if cps == [] then []
    else
      assert IsScalar(cps[0]);
      EncodeCodePoint(cps[0]).value + EncodeAll(cps[1..])
  }

  predicate IsTail(u: byte) {
    0x80 <= u <= 0xBF
  }

  function Low6(u: byte): (n: int) {
    u - 0x80
  }

  function Value2(s: seq<byte>): int requires |s| == 2 {
    LeadBits(s[0], 2) * 64 + Low6(s[1])
  }

  function Value3(s: seq<byte>): int requires |s| == 3 {
    LeadBits(s[0], 3) * 4096 + Low6(s[1]) * 64 + Low6(s[2])
  }

  function Value4(s: seq<byte>): int requires |s| == 4 {
    LeadBits(s[0], 4) * 0x40000 + Low6(s[1]) * 4096 + Low6(s[2]) * 64 + Low6(s[3])
  }

  lemma Continue1(v: nat, s: seq<byte>)
    requires |s| == 1
    ensures Continue(v, s) == if IsTail(s[0]) then Some(v * 64 + Low6(s[0])) else None
  {
  }

  lemma Continue2(v: nat, s: seq<byte>)
    requires |s| == 2
    ensures Continue(v, s) ==
      if IsTail(s[0]) && IsTail(s[1]) then Some(v * 4096 + Low6(s[0]) * 64 + Low6(s[1])) else None
  {
    if IsTail(s[0]) { Continue1(v * 64 + Low6(s[0]), s[1..]); }
  }

  lemma Continue3(v: nat, s: seq<byte>)
    requires |s| == 3
    ensures Continue(v, s) ==
      if IsTail(s[0]) && IsTail(s[1]) && IsTail(s[2])
      then Some(v * 0x40000 + Low6(s[0]) * 4096 + Low6(s[1]) * 64 + Low6(s[2])) else None
  {
    if IsTail(s[0]) { Continue2(v * 64 + Low6(s[0]), s[1..]); }
  }

  /** The multi-byte checker in closed form. */
  lemma FullForm(s: seq<byte>)
    requires 2 <= |s| <= 4
    ensures forall k :: 1 <= k < |s| && !IsTail(s[k]) ==> Full(s).None?
    ensures |s| == 2 && IsTail(s[1]) ==>
      Full(s) == if Acceptable(Value2(s), 2) then Some(Value2(s)) else None
    ensures |s| == 3 && IsTail(s[1]) && IsTail(s[2]) ==>
      Full(s) == if Acceptable(Value3(s), 3) then Some(Value3(s)) else None
    ensures |s| == 4 && IsTail(s[1]) && IsTail(s[2]) && IsTail(s[3]) ==>
      Full(s) == if Acceptable(Value4(s), 4) then Some(Value4(s)) else None
  {
    var v := LeadBits(s[0], |s|);
    if |s| == 2 { Continue1(v, s[1..]); }
    else if |s| == 3 { Continue2(v, s[1..]); }
    else { Continue3(v, s[1..]); }
  }

  lemma Encoded2(c: nat)
    requires 0x80 <= c < 0x800
    ensures var e := EncodeCodePoint(c).value; |e| == 2 && CheckFirst(e[0]) == 2 && IsTail(e[1]) && Value2(e) == c
  {
  }

  lemma Encoded3(c: nat)
    requires 0x800 <= c < 0x10000
    ensures var e := EncodeCodePoint(c).value;
      |e| == 3 && CheckFirst(e[0]) == 3 && IsTail(e[1]) && IsTail(e[2]) && Value3(e) == c
  {
    assert c / 64 == c / 4096 * 64 + c / 64 % 64;
  }

  lemma Encoded4(c: nat)
    requires 0x10000 <= c <= 0x10FFFF
    ensures var e := EncodeCodePoint(c).value;
      |e| == 4 && CheckFirst(e[0]) == 4 && IsTail(e[1]) && IsTail(e[2]) && IsTail(e[3]) && Value4(e) == c
  {
    assert c / 64 == c / 4096 * 64 + c / 64 % 64;
    assert c / 4096 == c / 0x40000 * 64 + c / 4096 % 64;
  }

  /** Whatever follows it, an encoded scalar value is read back whole. */
  lemma HeadOfEncoded(c: nat, rest: seq<byte>)
    requires IsScalar(c)
    ensures EncodeCodePoint(c).value + rest != []
    ensures Head(EncodeCodePoint(c).value + rest) == Some((c, |EncodeCodePoint(c).value|))
  {
    var e := EncodeCodePoint(c).value;
    assert (e + rest)[..|e|] == e;
    if c >= 0x80 {
      if c < 0x800 { Encoded2(c); } else if c < 0x10000 { Encoded3(c); } else { Encoded4(c); }
      FullForm(e);
    }
  }

  lemma Base64Digits(a: nat, b: nat, c: nat, d: nat)
    requires a < 8 && b < 64 && c < 64 && d < 64
    ensures var v := a * 0x40000 + b * 4096 + c * 64 + d;
      v % 64 == d && v / 64 % 64 == c && v / 4096 % 64 == b && v / 0x40000 == a
  {
    var v := a * 0x40000 + b * 4096 + c * 64 + d;
    assert v / 64 == (a * 64 + b) * 64 + c;
    assert v / 4096 == a * 64 + b;
  }

  lemma Decoded2(e: seq<byte>)
    requires |e| == 2 && CheckFirst(e[0]) == 2 && IsTail(e[1]) && Acceptable(Value2(e), 2)
    ensures EncodeCodePoint(Value2(e)) == Some(e)
  {
    var v := Value2(e);
    assert v / 64 == e[0] - 0xC0 && v % 64 == e[1] - 0x80;
    assert EncodeCodePoint(v).value == e;
  }

  lemma Decoded3(e: seq<byte>)
    requires |e| == 3 && CheckFirst(e[0]) == 3 && IsTail(e[1]) && IsTail(e[2]) && Acceptable(Value3(e), 3)
    ensures EncodeCodePoint(Value3(e)) == Some(e)
  {
    var v := Value3(e);
    Base64Digits(0, LeadBits(e[0], 3), Low6(e[1]), Low6(e[2]));
    assert v / 4096 == LeadBits(e[0], 3);
    assert EncodeCodePoint(v).value == e;
  }

  lemma Decoded4(e: seq<byte>)
    requires |e| == 4 && CheckFirst(e[0]) == 4 && IsTail(e[1]) && IsTail(e[2]) && IsTail(e[3])
    requires Acceptable(Value4(e), 4)
    ensures EncodeCodePoint(Value4(e)) == Some(e)
  {
    var v := Value4(e);
    Base64Digits(LeadBits(e[0], 4), Low6(e[1]), Low6(e[2]), Low6(e[3]));
    assert EncodeCodePoint(v).value == e;
  }

  /** Conversely, whatever head the checker accepts is the encoding of the scalar value it reports. */
  lemma HeadIsEncoded(s: seq<byte>)
    requires s != [] && Head(s).Some?
    ensures IsScalar(Head(s).value.0)
    ensures EncodeCodePoint(Head(s).value.0) == Some(s[..Head(s).value.1])
  {
    var n := CheckFirst(s[0]);
    var e := s[..n];
    if n > 1 {
      FullForm(e);
      assert forall k :: 1 <= k < n ==> IsTail(e[k]);
    }
    if n == 1 { assert e == [s[0]]; } else if n == 2 { Decoded2(e); } else if n == 3 { Decoded3(e); } else if n == 4 { Decoded4(e); }
  }

  lemma {:induction false} DecodeOfEncoded(cps: seq<nat>)
    requires Scalars(cps)
    ensures Decode(EncodeAll(cps)) == Some(cps)
  {
    if cps != [] {
      var e := EncodeCodePoint(cps[0]).value;
      HeadOfEncoded(cps[0], EncodeAll(cps[1..]));
      assert (e + EncodeAll(cps[1..]))[|e|..] == EncodeAll(cps[1..]);
      DecodeOfEncoded(cps[1..]);
      assert [cps[0]] + cps[1..] == cps;
    }
  }

  lemma {:induction false} EncodedOfDecode(s: seq<byte>)
    requires IsUtf8(s)
    ensures Scalars(Decode(s).value) && EncodeAll(Decode(s).value) == s
  {
    hide EncodeCodePoint, Head;
    if s != [] {
      var (c, n) := Head(s).value;
      HeadIsEncoded(s);
      EncodedOfDecode(s[n..]);
      EncodedCons(c, Decode(s[n..]).value);
      assert s == s[..n] + s[n..];
    }
  }

  lemma EncodedCons(c: nat, cps: seq<nat>)
    requires IsScalar(c) && Scalars(cps)
    ensures Scalars([c] + cps) && EncodeAll([c] + cps) == EncodeCodePoint(c).value + EncodeAll(cps)
  {
    assert ([c] + cps)[1..] == cps;
  }

  ghost predicate Decomposes(s: seq<byte>, cps: seq<nat>) {
    Scalars(cps) && EncodeAll(cps) == s
  }

  /** The checker accepts exactly the byte strings that decompose into encoded scalar values. */
  lemma AcceptsExactlyEncodings(s: seq<byte>)
    ensures IsUtf8(s) <==> exists cps :: Decomposes(s, cps)
  {
    if IsUtf8(s) {
      EncodedOfDecode(s);
      assert Decomposes(s, Decode(s).value);
    }
    if cps :| Decomposes(s, cps) {
      DecodeOfEncoded(cps);
    }
  }

  lemma DecompositionIsUnique(s: seq<byte>, a: seq<nat>, b: seq<nat>)
    requires Decomposes(s, a) && Decomposes(s, b)
    ensures a == b
  {
    DecodeOfEncoded(a);
    DecodeOfEncoded(b);
  }

  lemma HeadOfPrefix(a: seq<byte>, b: seq<byte>)
    requires a != [] && Head(a).Some?
    ensures Head(a + b) == Head(a)
  {
    hide Full;
    var n := CheckFirst(a[0]);
    assert (a + b)[..n] == a[..n];
  }

  lemma {:induction false} ConcatIsUtf8(a: seq<byte>, b: seq<byte>)
    requires IsUtf8(a) && IsUtf8(b)
    ensures IsUtf8(a + b)
    decreases |a|
  {
    hide Head;
    if a == [] {
      assert a + b == b;
    } else {
      HeadOfPrefix(a, b);
      var n := Head(a).value.1;
      assert (a + b)[n..] == a[n..] + b;
      ConcatIsUtf8(a[n..], b);
    }
  }

  lemma {:induction false} AsciiIsUtf8(s: seq<byte>)
    requires forall i :: 0 <= i < |s| ==> s[i] < 0x80
    ensures IsUtf8(s)
    decreases |s|
  {
    if s != [] {
      AsciiIsUtf8(s[1..]);
    }
  }
}
