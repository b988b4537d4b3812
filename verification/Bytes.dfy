/** Bytes, C strings and the optional result shared by every module of the model. */
module Bytes {
  type byte = x: int | 0 <= x < 0x100

  /** The bytes of a C string, without its terminating NUL. */
  type Text = seq<byte>

  const TWO31: nat := 0x8000_0000
  const TWO32: nat := 0x1_0000_0000
  const TWO53: nat := 0x20_0000_0000_0000
  const TWO63: nat := 0x8000_0000_0000_0000
  const TWO64: nat := 0x1_0000_0000_0000_0000

  datatype Option<+T> = None | Some(value: T) {
    predicate IsFailure() { None? }
    function PropagateFailure<U>(): Option<U> requires None? { None }
    function Extract(): T requires Some? { value }
  }

  /** A 64-bit word read as a two's complement `int64_t`. */
  function Signed64(u: nat): (i: int)
    requires u < TWO64
    ensures -(TWO63 as int) <= i < TWO63
    ensures i % TWO64 == u
  {
    if u < TWO63 then u else u - TWO64
  }

  /** An `int64_t` converted to `uint64_t`. */
  function Unsigned64(i: int): (u: nat)
    ensures u < TWO64
    ensures -(TWO63 as int) <= i < TWO63 ==> Signed64(u) == i
  {
    i % TWO64
  }

  /** What `strlen` and `strcpy` see of a buffer: everything before its first NUL. */
  function CString(s: seq<byte>): (t: Text)
    ensures |t| <= |s| && t == s[..|t|] && 0 !in t
    ensures |t| < |s| ==> s[|t|] == 0
  {
    if s == [] || s[0] == 0 then []
    else
      var t := CString(s[1..]);
      [s[0]] + t
  }

  lemma CStringOfText(t: Text)
    requires 0 !in t
    ensures CString(t) == t
  {
  }

  /** `s` with the bytes from position `p` on overwritten by `a`. */
  ghost function Splice(s: seq<byte>, p: nat, a: seq<byte>): (r: seq<byte>)
    requires p + |a| <= |s|
    ensures |r| == |s|
  {
    s[..p] + a + s[p + |a|..]
  }

  lemma SpliceNothing(s: seq<byte>, p: nat)
    requires p <= |s|
    ensures Splice(s, p, []) == s
  {
  }

  lemma SpliceOne(s: seq<byte>, p: nat, a: seq<byte>, b: byte)
    requires p + |a| < |s|
    ensures Splice(s, p, a)[p + |a| := b] == Splice(s, p, a + [b])
  {
  }

  lemma SpliceTwice(s: seq<byte>, p: nat, a: seq<byte>, b: seq<byte>)
    requires p + |a| + |b| <= |s|
    ensures Splice(Splice(s, p, a), p + |a|, b) == Splice(s, p, a + b)
  {
  }

  /** memcpy into a buffer. */
  method Memcpy(buf: array<byte>, at: nat, src: seq<byte>)
    requires at + |src| <= buf.Length
    modifies buf
    ensures buf[..] == Splice(old(buf[..]), at, src)
    ensures buf[..at] == old(buf[..at]) && buf[at..at + |src|] == src && buf[at + |src|..] == old(buf[at + |src|..])
  {
    hide Splice;
    SpliceNothing(buf[..], at);
    for i := 0 to |src|
      invariant buf[..] == Splice(old(buf[..]), at, src[..i])
    {
      SpliceOne(old(buf[..]), at, src[..i], src[i]);
      assert src[..i + 1] == src[..i] + [src[i]];
      assert buf[..][at + i := src[i]] == Splice(old(buf[..]), at, src[..i + 1]);
      buf[at + i] := src[i];
    }
    assert src[..|src|] == src;
    SpliceParts(old(buf[..]), at, src);
    assert buf[..at] == buf[..][..at] && buf[at + |src|..] == buf[..][at + |src|..];
  }

  lemma SpliceParts(s: seq<byte>, p: nat, a: seq<byte>)
    requires p + |a| <= |s|
    ensures var r := Splice(s, p, a); r[..p] == s[..p] && r[p..p + |a|] == a && r[p + |a|..] == s[p + |a|..]
  {
  }
}
