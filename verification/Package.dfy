/**
  The framing layer (src/package.c): four bytes of head, one for the type and three for the length of
  the body in big-endian order, then the body. The parser is fed the chunks that TCP delivers.
 */
module Package {
  import opened Bytes

  const HEAD_BYTES: nat := 4
  const MAX_BODY: nat := 0x100_0000

  datatype Package = Package(kind: byte, body: seq<byte>)

  function Length3(n: nat): (s: seq<byte>)
    requires n < MAX_BODY
    ensures |s| == 3
  {
    [n / 0x10000, n / 0x100 % 0x100, n % 0x100]
  }

  /** The bytes of a package; None for a body that is too long. */
  function PackageBytes(p: Package): Option<seq<byte>> {
    if |p.body| >= MAX_BODY then None else Some([p.kind] + Length3(|p.body|) + p.body)
  }

  /** pc_pkg_encode: the length is written backwards from the last head byte. */
  method Encode(kind: nat, data: seq<byte>) returns (r: Option<seq<byte>>)
    ensures r == PackageBytes(Package(kind % 0x100, data))
  {
    var len := |data|;
    if len >= MAX_BODY {
      return None;
    }
    var buf := new byte[HEAD_BYTES + len](_ => 0);
    buf[0] := kind % 0x100;
    if len != 0 {
      var size := len;
      for i := 0 to 3
        invariant buf[0] == kind % 0x100
        invariant size == if i == 0 then len else if i == 1 then len / 0x100 else if i == 2 then len / 0x10000 else 0
        invariant i >= 1 ==> buf[3] == len % 0x100
        invariant i >= 2 ==> buf[2] == len / 0x100 % 0x100
        invariant i >= 3 ==> buf[1] == len / 0x10000
      {
        buf[HEAD_BYTES - 1 - i] := size % 0x100;
        size := size / 0x100;
      }
      assert buf[..HEAD_BYTES] == [kind % 0x100] + Length3(len);
      Memcpy(buf, HEAD_BYTES, data);
      assert buf[HEAD_BYTES..] == buf[HEAD_BYTES..HEAD_BYTES + len];
    } else {
      assert buf[..HEAD_BYTES] == [kind % 0x100] + Length3(0);
      assert buf[HEAD_BYTES..] == data;
    }
    assert buf[..] == buf[..HEAD_BYTES] + buf[HEAD_BYTES..];
    return Some(buf[..]);
  }

  // ---- the parser, one byte at a time ----

  /** `AtHead(s)`: the head bytes `s` have arrived; `AtBody(h, n, s)`: `s` of the `n` bytes of the body have. */
  datatype State = AtHead(head: seq<byte>) | AtBody(kind: byte, size: nat, body: seq<byte>) | Closed

  predicate Reachable(s: State) {
    match s
    case AtHead(h) => |h| < HEAD_BYTES
    case AtBody(_, n, b) => |b| < n < MAX_BODY
    case Closed => true
  }

  function LengthOf(h: seq<byte>): (n: nat)
    requires |h| == HEAD_BYTES
    ensures n < MAX_BODY
  {
    (h[1] as int * 0x100 + h[2]) * 0x100 + h[3]
  }

  datatype Fed = Fed(state: State, out: seq<Package>)

  /** One byte; an empty body is delivered with the last byte of its head. */
  function Step(s: State, b: byte): (r: Fed)
    requires Reachable(s)
    ensures Reachable(r.state)
  {
    match s
    case AtHead(h) =>
      var h' := h + [b];
      if |h'| < HEAD_BYTES then Fed(AtHead(h'), [])
      else if LengthOf(h') == 0 then Fed(AtHead([]), [Package(h'[0], [])])
      else Fed(AtBody(h'[0], LengthOf(h'), []), [])
    case AtBody(kind, n, body) =>
      var body' := body + [b];
      if |body'| < n then Fed(AtBody(kind, n, body'), []) else Fed(AtHead([]), [Package(kind, body')])
    case Closed => Fed(Closed, [])
  }

  function Run(s: State, data: seq<byte>): (r: Fed)
    requires Reachable(s)
    ensures Reachable(r.state)
    decreases |data|
  {
    if data == [] then Fed(s, [])
    else
      var first := Step(s, data[0]);
      var rest := Run(first.state, data[1..]);
      Fed(rest.state, first.out + rest.out)
  }

  /** Feeding `a` then `b` leaves the same state and delivers the same packages as feeding `a + b`. */
  lemma {:induction false} RunSplit(s: State, a: seq<byte>, b: seq<byte>)
    requires Reachable(s)
    ensures Run(s, a + b)
      == var x := Run(s, a); var y := Run(x.state, b); Fed(y.state, x.out + y.out)
    decreases |a|
  {
    if a == [] {
      assert a + b == b;
      assert [] + Run(s, b).out == Run(s, b).out;
    } else {
      assert (a + b)[1..] == a[1..] + b;
      var first := Step(s, a[0]);
      RunSplit(first.state, a[1..], b);
      var x := Run(first.state, a[1..]);
      var y := Run(x.state, b);
      assert first.out + (x.out + y.out) == (first.out + x.out) + y.out;
    }
  }

  /** A first byte that delivers nothing. */
  lemma {:induction false} QuietStep(s: State, data: seq<byte>)
    requires Reachable(s) && data != [] && Step(s, data[0]).out == []
    ensures Run(s, data) == Run(Step(s, data[0]).state, data[1..])
  {
    hide Step;
    var rest := Run(Step(s, data[0]).state, data[1..]);
    assert [] + rest.out == rest.out;
  }

  /** A run of head bytes that does not complete the head. */
  lemma {:induction false} RunHead(h: seq<byte>, data: seq<byte>)
    requires |h| + |data| < HEAD_BYTES
    ensures Run(AtHead(h), data) == Fed(AtHead(h + data), [])
    decreases |data|
  {
    hide LengthOf, Run;
    if data == [] {
      RunNothing(AtHead(h));
      assert h + data == h;
    } else {
      assert Step(AtHead(h), data[0]) == Fed(AtHead(h + [data[0]]), []);
      RunHead(h + [data[0]], data[1..]);
      QuietStep(AtHead(h), data);
      assert h + [data[0]] + data[1..] == h + data;
    }
  }

  /** A run of bytes that does not complete the body. */
  lemma {:induction false} RunBody(kind: byte, n: nat, body: seq<byte>, data: seq<byte>)
    requires |body| + |data| < n < MAX_BODY
    ensures Run(AtBody(kind, n, body), data) == Fed(AtBody(kind, n, body + data), [])
    decreases |data|
  {
    hide LengthOf, Run;
    if data == [] {
      RunNothing(AtBody(kind, n, body));
      assert body + data == body;
    } else {
      assert Step(AtBody(kind, n, body), data[0]) == Fed(AtBody(kind, n, body + [data[0]]), []);
      RunBody(kind, n, body + [data[0]], data[1..]);
      QuietStep(AtBody(kind, n, body), data);
      assert body + [data[0]] + data[1..] == body + data;
    }
  }

  /** The bytes that complete a head. */
  lemma RunHeadEnd(h: seq<byte>, data: seq<byte>)
    requires |h| < HEAD_BYTES && |h| + |data| == HEAD_BYTES
    ensures Run(AtHead(h), data) ==
      var full := h + data;
      if LengthOf(full) == 0 then Fed(AtHead([]), [Package(full[0], [])])
      else Fed(AtBody(full[0], LengthOf(full), []), [])
  {
    hide LengthOf, Run;
    var k := |data| - 1;
    RunHead(h, data[..k]);
    assert data == data[..k] + [data[k]];
    RunSplit(AtHead(h), data[..k], [data[k]]);
    RunOne(AtHead(h + data[..k]), data[k]);
    assert h + data[..k] + [data[k]] == h + data;
  }

  lemma RunOne(s: State, b: byte)
    requires Reachable(s)
    ensures Run(s, [b]) == Step(s, b)
  {
    hide Step;
    var first := Step(s, b);
    assert [b][1..] == [];
    assert Run(first.state, []) == Fed(first.state, []);
    assert first.out + [] == first.out;
  }

  /** The bytes that complete a body. */
  lemma RunBodyEnd(kind: byte, n: nat, body: seq<byte>, data: seq<byte>)
    requires |body| < n < MAX_BODY && |body| + |data| == n
    ensures Run(AtBody(kind, n, body), data) == Fed(AtHead([]), [Package(kind, body + data)])
  {
    hide LengthOf, Run;
    var k := |data| - 1;
    RunBody(kind, n, body, data[..k]);
    assert data == data[..k] + [data[k]];
    RunSplit(AtBody(kind, n, body), data[..k], [data[k]]);
    RunOne(AtBody(kind, n, body + data[..k]), data[k]);
    assert body + data[..k] + [data[k]] == body + data;
  }

  // ---- the parser of the source ----

  /** The big-endian length in a complete head. */
  method HeadLength(head: array<byte>) returns (n: nat)
    requires head.Length == HEAD_BYTES
    ensures n == LengthOf(head[..])
  {
    n := 0;
    for i := 1 to HEAD_BYTES
      invariant n == if i == 1 then 0 else if i == 2 then head[1] as int
                     else if i == 3 then head[1] as int * 0x100 + head[2] else LengthOf(head[..])
    {
      if i > 1 {
        n := n * 0x100;
      }
      n := n + head[i] as int;
    }
  }

  datatype Phase = PHead | PBody | PClosed

  /** pc_pkg_parser_t; `delivered` is what the package callback has been given. */
  class Parser {
    const headBuf: array<byte>
    var pkgBuf: array<byte>
    var headOffset: nat
    var pkgOffset: nat
    var pkgSize: nat
    var phase: Phase
    var delivered: seq<Package>

    /** Between calls: a body is being read only if it is not complete. */
    ghost predicate Valid()
      reads this, headBuf, pkgBuf
    {
      && headBuf.Length == HEAD_BYTES
      && headBuf != pkgBuf
      && (phase.PHead? ==> headOffset < HEAD_BYTES)
      && (phase.PBody? ==> InBody() && pkgOffset < pkgSize)
    }

    /** The head is complete and its length is the size of the body buffer. */
    ghost predicate InBody()
      reads this, headBuf, pkgBuf
    {
      && headBuf.Length == HEAD_BYTES && headOffset == HEAD_BYTES && headBuf != pkgBuf
      && pkgSize == LengthOf(headBuf[..]) && pkgBuf.Length == pkgSize && pkgOffset <= pkgSize
    }

    ghost function Abstract(): (s: State)
      requires Valid()
      reads this, headBuf, pkgBuf
      ensures Reachable(s)
    {
      match phase
      case PHead => AtHead(headBuf[..headOffset])
      case PBody => AtBody(headBuf[0], pkgSize, pkgBuf[..pkgOffset])
      case PClosed => Closed
    }

    constructor ()
      ensures Valid() && Abstract() == AtHead([]) && delivered == []
      ensures fresh(headBuf) && fresh(pkgBuf)
    {
      headBuf := new byte[HEAD_BYTES];
      pkgBuf := new byte[0];
      headOffset, pkgOffset, pkgSize, phase, delivered := 0, 0, 0, PHead, [];
    }

    /** pc_pkg_parser_close. */
    method Close()
      requires Valid()
      modifies this
      ensures Valid() && Abstract() == Closed && delivered == old(delivered)
      ensures pkgBuf == old(pkgBuf)
    {
      phase := PClosed;
    }

    /** pc_pkg_parser_reset: back to the initial state, unless closed. */
    method Reset()
      requires headBuf.Length == HEAD_BYTES && headBuf != pkgBuf
      modifies this
      ensures Valid() && delivered == old(delivered) && (pkgBuf == old(pkgBuf) || fresh(pkgBuf))
      ensures Abstract() == if old(phase).PClosed? then Closed else AtHead([])
    {
      if phase.PClosed? {
        return;
      }
      pkgBuf := new byte[0];
      headOffset, pkgOffset, pkgSize, phase := 0, 0, 0, PHead;
    }

    /** pc__pkg_head: copies what is missing of the head, and prepares the body once it is complete. */
    method ReadHead(data: seq<byte>, offset: nat) returns (next: nat)
      requires Valid() && phase.PHead? && offset < |data|
      modifies this, headBuf
      ensures offset < next <= |data| && delivered == old(delivered) && (pkgBuf == old(pkgBuf) || fresh(pkgBuf))
      ensures var h := old(headBuf[..headOffset]) + data[offset..next];
        if |h| < HEAD_BYTES then Valid() && phase.PHead? && Abstract() == AtHead(h)
        else InBody() && phase.PBody? && pkgOffset == 0 && headBuf[..] == h
    {
      var need := HEAD_BYTES - headOffset;
      var len := if need <= |data| - offset then need else |data| - offset;
      ghost var h0 := headBuf[..headOffset];
      Memcpy(headBuf, headOffset, data[offset..offset + len]);
      assert headBuf[..headOffset + len] == h0 + data[offset..offset + len];
      headOffset := headOffset + len;
      if headOffset == HEAD_BYTES {
        assert headBuf[..] == headBuf[..HEAD_BYTES];
        var n := HeadLength(headBuf);
        pkgBuf := new byte[n];
        pkgOffset, pkgSize, phase := 0, n, PBody;
      }
      next := offset + len;
    }

    /** pc__pkg_body: copies what is missing of the body, and delivers it once it is complete. */
    method ReadBody(data: seq<byte>, offset: nat) returns (next: nat)
      requires InBody() && phase.PBody? && offset <= |data|
      modifies this, pkgBuf
      ensures offset <= next <= |data| && (next == |data| || next - offset == old(pkgSize - pkgOffset))
      ensures Valid() && (pkgBuf == old(pkgBuf) || fresh(pkgBuf))
      ensures var body := old(pkgBuf[..pkgOffset]) + data[offset..next];
        if |body| < old(pkgSize) then
          Abstract() == AtBody(old(headBuf[0]), old(pkgSize), body) && delivered == old(delivered)
        else
          && |body| == old(pkgSize)
          && Abstract() == AtHead([]) && delivered == old(delivered) + [Package(old(headBuf[0]), body)]
    {
      var need := pkgSize - pkgOffset;
      var len := if need <= |data| - offset then need else |data| - offset;
      ghost var body0 := pkgBuf[..pkgOffset];
      Memcpy(pkgBuf, pkgOffset, data[offset..offset + len]);
      assert pkgBuf[..pkgOffset + len] == body0 + data[offset..offset + len];
      pkgOffset := pkgOffset + len;
      next := offset + len;
      if pkgOffset == pkgSize {
        assert pkgBuf[..] == pkgBuf[..pkgOffset];
        delivered := delivered + [Package(headBuf[0], pkgBuf[..])];
        Reset();
      }
    }

    /** One turn of the loop of pc_pkg_parser_feed. */
    method Advance(data: seq<byte>, offset: nat) returns (next: nat)
      requires Valid() && !phase.PClosed? && offset < |data|
      modifies this, headBuf, pkgBuf
      ensures Valid() && offset < next <= |data| && (pkgBuf == old(pkgBuf) || fresh(pkgBuf)) && !phase.PClosed?
      ensures var r := Run(old(Abstract()), data[offset..next]);
        Abstract() == r.state && delivered == old(delivered) + r.out
    {
      hide LengthOf, Run;
      next := offset;
      ghost var s0 := Abstract();
      if phase.PHead? {
        next := ReadHead(data, offset);
        if phase.PHead? {
          RunHead(s0.head, data[offset..next]);
        } else {
          RunHeadEnd(s0.head, data[offset..next]);
        }
      }
      if phase.PBody? {
        ghost var kind, n, body0, mid := headBuf[0], pkgSize, pkgBuf[..pkgOffset], next;
        assert s0.AtHead? ==> pkgBuf[..pkgOffset] == [];
        next := ReadBody(data, next);
        ghost var more := data[mid..next];
        if n != 0 {
          if |body0| + |more| < n {
            RunBody(kind, n, body0, more);
          } else {
            RunBodyEnd(kind, n, body0, more);
          }
          if s0.AtHead? {
            RunSplit(s0, data[offset..mid], more);
            assert data[offset..mid] + more == data[offset..next];
          }
        } else {
          assert body0 + more == [];
        }
      }
    }

    /** pc_pkg_parser_feed: whatever the chunk, the parser behaves as if fed one byte at a time. */
    method Feed(data: seq<byte>)
      requires Valid()
      modifies this, headBuf, pkgBuf
      ensures Valid() && (pkgBuf == old(pkgBuf) || fresh(pkgBuf))
      ensures var r := Run(old(Abstract()), data);
        Abstract() == r.state && delivered == old(delivered) + r.out
    {
      hide LengthOf, Run;
      ghost var s0 := Abstract();
      var offset := 0;
      RunNothing(s0);
      while offset < |data|
        invariant offset <= |data| && Valid() && (pkgBuf == old(pkgBuf) || fresh(pkgBuf))
        invariant Abstract() == Run(s0, data[..offset]).state
        invariant delivered == old(delivered) + Run(s0, data[..offset]).out
        decreases |data| - offset, if phase.PClosed? then 0 else 1
      {
        if phase.PClosed? {
          RunClosed(data[offset..]);
          RunSplit(s0, data[..offset], data[offset..]);
          assert data[..offset] + data[offset..] == data;
          return;
        }
        ghost var before := offset;
        offset := Advance(data, offset);
        RunSplit(s0, data[..before], data[before..offset]);
        assert data[..before] + data[before..offset] == data[..offset];
      }
      assert data[..offset] == data;
    }
  }

  lemma RunNothing(s: State)
    requires Reachable(s)
    ensures Run(s, []) == Fed(s, [])
  {
  }

  lemma {:induction false} RunClosed(data: seq<byte>)
    ensures Run(Closed, data) == Fed(Closed, [])
  {
    if data != [] {
      RunClosed(data[1..]);
    }
  }

  // ---- frames, concatenated and cut anywhere ----

  /** The bytes of packages one after the other. */
  function Stream(ps: seq<Package>): seq<byte>
    requires forall i :: 0 <= i < |ps| ==> |ps[i].body| < MAX_BODY
  {
    if ps == [] then [] else PackageBytes(ps[0]).value + Stream(ps[1..])
  }

  lemma LengthRoundTrip(k: byte, n: nat)
    requires n < MAX_BODY
    ensures LengthOf([k] + Length3(n)) == n
  {
    assert n / 0x100 == n / 0x10000 * 0x100 + n / 0x100 % 0x100;
  }

  lemma FrameRoundTrip(p: Package)
    requires |p.body| < MAX_BODY
    ensures Run(AtHead([]), PackageBytes(p).value) == Fed(AtHead([]), [p])
  {
    hide LengthOf, Length3, Run;
    var h, n := [p.kind] + Length3(|p.body|), |p.body|;
    LengthRoundTrip(p.kind, n);
    RunHeadEnd([], h);
    assert [] + h == h;
    RunSplit(AtHead([]), h, p.body);
    if n == 0 {
      RunNothing(AtHead([]));
    } else {
      RunBodyEnd(p.kind, n, [], p.body);
      assert [] + p.body == p.body;
    }
  }

  lemma {:induction false} StreamRoundTrip(ps: seq<Package>)
    requires forall i :: 0 <= i < |ps| ==> |ps[i].body| < MAX_BODY
    ensures Run(AtHead([]), Stream(ps)) == Fed(AtHead([]), ps)
  {
    hide Run, Length3;
    if ps == [] {
      RunNothing(AtHead([]));
    } else {
      FrameRoundTrip(ps[0]);
      StreamRoundTrip(ps[1..]);
      RunSplit(AtHead([]), PackageBytes(ps[0]).value, Stream(ps[1..]));
      assert [ps[0]] + ps[1..] == ps;
    }
  }

  function Flatten(chunks: seq<seq<byte>>): seq<byte> {
    if chunks == [] then [] else chunks[0] + Flatten(chunks[1..])
  }

  /** The parser fed chunk by chunk. */
  method FeedAll(parser: Parser, chunks: seq<seq<byte>>)
    requires parser.Valid()
    modifies parser, parser.headBuf, parser.pkgBuf
    ensures parser.Valid()
    ensures var r := Run(old(parser.Abstract()), Flatten(chunks));
      parser.Abstract() == r.state && parser.delivered == old(parser.delivered) + r.out
  {
    hide Run;
    ghost var s0 := parser.Abstract();
    ghost var done: seq<byte> := [];
    RunNothing(s0);
    for i := 0 to |chunks|
      invariant parser.Valid() && (parser.pkgBuf == old(parser.pkgBuf) || fresh(parser.pkgBuf))
      invariant done + Flatten(chunks[i..]) == Flatten(chunks)
      invariant parser.Abstract() == Run(s0, done).state
      invariant parser.delivered == old(parser.delivered) + Run(s0, done).out
    {
      parser.Feed(chunks[i]);
      RunSplit(s0, done, chunks[i]);
      assert chunks[i..][1..] == chunks[i + 1..];
      done := done + chunks[i];
    }
    assert chunks[|chunks|..] == [];
    assert done + [] == done;
  }

  /** Any list of packages, framed, concatenated and cut anywhere, is delivered whole and in order. */
  lemma CutsDoNotMatter(ps: seq<Package>, chunks: seq<seq<byte>>)
    requires forall i :: 0 <= i < |ps| ==> |ps[i].body| < MAX_BODY
    requires Flatten(chunks) == Stream(ps)
    ensures Run(AtHead([]), Flatten(chunks)) == Fed(AtHead([]), ps)
  {
    StreamRoundTrip(ps);
  }
}
