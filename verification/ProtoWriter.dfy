/**
  The stream writer of src/pb-encode.c. An output stream either counts bytes or copies them into a
  window of a buffer; a submessage is encoded twice, first to count, then to write. Every method is
  proved to emit exactly the bytes of `ProtoBytes`, to succeed exactly when they fit the window,
  and never to touch a byte outside it.
 */
module ProtoWriter {
  import opened Bytes
  import opened JsonValues
  import opened ProtoSchema
  import opened Varints
  import opened ProtoBytes

  /** What does not change during the life of a stream: whether it only counts, and its limit. */
  datatype Mode = Mode(counting: bool, maxSize: nat)

  /** What changes: bytes written, offset into the buffer, contents of the buffer. */
  datatype Snap = Snap(written: nat, pos: nat, bytes: seq<byte>)

  ghost predicate Ready(m: Mode, x: Snap) {
    !m.counting ==> x.written <= m.maxSize && x.pos + (m.maxSize - x.written) <= |x.bytes|
  }

  predicate Fits(m: Mode, written: nat, n: nat) {
    m.counting || written + n <= m.maxSize
  }

  /** `x` after emitting `s`. */
  ghost function After(m: Mode, x: Snap, s: seq<byte>): (y: Snap)
    requires Ready(m, x) && Fits(m, x.written, |s|)
    ensures Ready(m, y)
  {
    if m.counting then Snap(x.written + |s|, x.pos, x.bytes)
    else Snap(x.written + |s|, x.pos + |s|, Splice(x.bytes, x.pos, s))
  }

  /** From `x` to `y` nothing outside the window of the stream was written. */
  ghost predicate Confined(m: Mode, x: Snap, y: Snap) {
    && Ready(m, x) && Ready(m, y)
    && |x.bytes| == |y.bytes|
    && if m.counting then x.bytes == y.bytes
       else
         var end := x.pos + (m.maxSize - x.written);
         && y.pos + (m.maxSize - y.written) == end && y.pos >= x.pos
         && x.bytes[..x.pos] == y.bytes[..x.pos]
         && x.bytes[end..] == y.bytes[end..]
  }

  /** The outcome of emitting the bytes `r`, None being a schema error, from `x` to `y`. */
  ghost predicate Outcome(m: Mode, x: Snap, ok: bool, r: Option<seq<byte>>, y: Snap) {
    && Ready(m, x)
    && (ok <==> r.Some? && Fits(m, x.written, |r.value|))
    && (ok ==> y == After(m, x, r.value))
    && Confined(m, x, y)
  }

  function Join(a: Option<seq<byte>>, b: Option<seq<byte>>): Option<seq<byte>> {
    if a.Some? && b.Some? then Some(a.value + b.value) else None
  }

  /** One emission after another is the emission of both; the first failure decides. */
  lemma Compose(m: Mode, x: Snap, okA: bool, a: Option<seq<byte>>, y: Snap, okB: bool, b: Option<seq<byte>>, z: Snap)
    requires Outcome(m, x, okA, a, y)
    requires if okA then Outcome(m, y, okB, b, z) else z == y && !okB
    ensures Outcome(m, x, okA && okB, Join(a, b), z)
  {
    if okA && !m.counting {
      if okB {
        SpliceTwice(x.bytes, x.pos, a.value, b.value);
      }
      var end := x.pos + (m.maxSize - x.written);
      assert x.bytes[end..] == y.bytes[end..] == z.bytes[end..];
      assert y.bytes[..x.pos] == y.bytes[..y.pos][..x.pos] == z.bytes[..x.pos];
    }
  }

  lemma Refused(m: Mode, x: Snap, s: seq<byte>)
    requires Ready(m, x) && !Fits(m, x.written, |s|)
    ensures Outcome(m, x, false, Some(s), x)
  {
  }

  lemma Taken(m: Mode, x: Snap, s: seq<byte>)
    requires Ready(m, x) && Fits(m, x.written, |s|)
    ensures Outcome(m, x, true, Some(s), After(m, x, s))
  {
  }

  /** A failed sizing pass is a schema error, since counting never runs out of room. */
  lemma Sized(x: Snap, ok: bool, r: Option<seq<byte>>, y: Snap)
    requires Outcome(Mode(true, 0), x, ok, r, y)
    ensures ok == r.Some? && y.bytes == x.bytes
    ensures ok ==> y.written == x.written + |r.value|
  {
  }

  lemma SchemaError(m: Mode, x: Snap)
    requires Ready(m, x)
    ensures Outcome(m, x, false, None, x)
  {
  }

  /** The writing pass over a window of exactly the counted size emits the body into the parent stream. */
  lemma Subwritten(m: Mode, y: Snap, status: bool, r: seq<byte>, z: Snap)
    requires !m.counting && Ready(m, y) && Fits(m, y.written, |r|)
    requires Outcome(Mode(false, |r|), Snap(0, y.pos, y.bytes), status, Some(r), z)
    ensures status && z.written == |r|
    ensures Outcome(m, y, true, Some(r), Snap(y.written + |r|, z.pos, z.bytes))
  {
  }

  lemma Nothing(m: Mode, x: Snap)
    requires Ready(m, x)
    ensures Outcome(m, x, true, Some([]), x)
  {
    if !m.counting {
      assert Splice(x.bytes, x.pos, []) == x.bytes;
    }
  }

  class OStream {
    const mode: Mode
    const buf: array<byte>
    /** The callback's state, as an offset into the buffer. */
    var pos: nat
    var written: nat

    ghost function Now(): Snap
      reads this, buf
    {
      Snap(written, pos, buf[..])
    }

    ghost predicate Valid()
      reads this, buf
    {
      Ready(mode, Now())
    }

    /** The stream without a callback that sizes a submessage. */
    constructor Counting(scratch: array<byte>)
      ensures mode == Mode(true, 0) && buf == scratch && pos == 0 && written == 0
    {
      mode, buf, pos, written := Mode(true, 0), scratch, 0, 0;
    }

    /** pb_ostream_from_buffer, and the writing substream of a submessage. */
    constructor Window(target: array<byte>, start: nat, size: nat)
      requires start + size <= target.Length
      ensures mode == Mode(false, size) && buf == target && pos == start && written == 0
    {
      mode, buf, pos, written := Mode(false, size), target, start, 0;
    }

    /** pb_write; a counting stream does not look at the bytes. */
    method Write(src: seq<byte>, count: nat) returns (ok: bool)
      requires Valid() && (!mode.counting ==> |src| == count)
      modifies this, buf
      ensures |src| == count ==> Outcome(mode, old(Now()), ok, Some(src), Now())
      ensures mode.counting ==> ok && Now() == old(Now()).(written := old(written) + count)
    {
      hide Outcome;
      if !mode.counting {
        if written + count > mode.maxSize {
          Refused(mode, Now(), src);
          return false;
        }
        Memcpy(buf, pos, src);
        pos := pos + count;
      }
      written := written + count;
      ok := true;
      if |src| == count {
        Taken(mode, old(Now()), src);
      }
    }

    /** pb_encode_varint. */
    method WriteVarint(v: nat) returns (ok: bool)
      requires Valid()
      modifies this, buf
      ensures Outcome(mode, old(Now()), ok, Some(Varint(v)), Now())
    {
      hide Outcome, Varint;
      var digits := VarintDigits(v);
      ok := Write(digits, |digits|);
    }
  }

  /** The digits of pb_encode_varint; a 64-bit value never needs more than its ten-byte buffer. */
  method VarintDigits(v: nat) returns (digits: seq<byte>)
    ensures digits == Varint(v)
    ensures v < TWO64 ==> |digits| <= 10
  {
    if v < TWO64 { VarintFits(v); }
    if v == 0 {
      return [0];
    }
    hide Varint;
    digits := [];
    var value := v;
    while value != 0
      invariant value != 0 ==> Varint(v) == digits + Varint(value)
      invariant value == 0 ==> digits != [] && digits[|digits| - 1] >= 128
      invariant value == 0 ==> Varint(v) == digits[..|digits| - 1] + [digits[|digits| - 1] - 128]
    {
      ghost var before := digits;
      VarintUnfold(value);
      digits := digits + [value % 128 + 128];
      assert digits[..|digits| - 1] == before;
      value := value / 128;
    }
    var last := |digits| - 1;
    assert digits[last := digits[last] - 128] == digits[..last] + [digits[last] - 128];
    digits := digits[last := digits[last] - 128];
  }

  lemma VarintUnfold(v: nat)
    ensures Varint(v) == if v < 128 then [v] else [v % 128 + 128] + Varint(v / 128)
  {
  }

  method WriteTag(s: OStream, f: Field) returns (ok: bool)
    requires s.Valid()
    modifies s, s.buf
    ensures Outcome(s.mode, old(s.Now()), ok, Some(Tag(f)), s.Now())
  {
    ok := s.WriteVarint((f.tag * 8 + WireType(f.kind)) % TWO32);
  }

  method WriteString(s: OStream, t: Text) returns (ok: bool)
    requires s.Valid()
    modifies s, s.buf
    ensures Outcome(s.mode, old(s.Now()), ok, Some(Varint(|t|) + t), s.Now())
  {
    ghost var x := s.Now();
    var okA := s.WriteVarint(|t|);
    ghost var y := s.Now();
    ok := false;
    if okA {
      ok := s.Write(t, |t|);
    }
    Compose(s.mode, x, okA, Some(Varint(|t|)), y, ok, Some(t), s.Now());
  }

  /** pb_encode_proto. */
  method WriteValue(s: OStream, g: Globals, p: Proto, kind: Kind, v: Json) returns (ok: bool)
    requires s.Valid()
    modifies s, s.buf
    ensures Outcome(s.mode, old(s.Now()), ok, ValueBytes(g, p, kind, v), s.Now())
    decreases v, 2
  {
    hide IntOf, Varint, CString, MessageBytes, Resolve;
    match kind
    case KUInt32 =>
      var i := IntOf(v);
      if i.None? { return false; }
      ok := s.WriteVarint(Unsigned64(i.value));
    case KInt32 =>
      var i := IntOf(v);
      if i.None? { return false; }
      ok := s.WriteVarint(ZigZag(i.value) % TWO64);
    case KSInt32 =>
      var i := IntOf(v);
      if i.None? { return false; }
      ok := s.WriteVarint(ZigZag(i.value) % TWO64);
    case KFloat =>
      var b := SingleOf(v);
      if b.None? { return false; }
      ok := s.Write(b.value, 4);
    case KDouble =>
      var b := DoubleOf(v);
      if b.None? { return false; }
      ok := s.Write(b.value, 8);
    case KString =>
      if !v.Str? { return false; }
      ok := WriteString(s, CString(v.text));
    case KMessage(name) =>
      if p.messages.None? {
        Nothing(s.mode, s.Now());
        return true;
      }
      var sub := Resolve(g, p.messages.value, name);
      if sub.None? { return false; }
      ok := WriteSubmessage(s, g, sub.value, v);
  }

  function BodyBytes(g: Globals, p: Proto, v: Json): Option<seq<byte>> {
    if v.Obj? then MessageBytes(g, p, v.entries) else Some([])
  }

  /** pb_encode_submessage: the sizing pass, the length, the writing pass, and the check that they agree. */
  method WriteSubmessage(s: OStream, g: Globals, p: Proto, v: Json) returns (ok: bool)
    requires s.Valid()
    modifies s, s.buf
    ensures Outcome(s.mode, old(s.Now()), ok,
                    if BodyBytes(g, p, v).None? then None
                    else Join(Some(Varint(|BodyBytes(g, p, v).value|)), BodyBytes(g, p, v)), s.Now())
    decreases v, 1
  {
    hide Outcome, Join, BodyBytes, Varint, After;
    ghost var x := s.Now();
    ghost var r := BodyBytes(g, p, v);
    var sizer := new OStream.Counting(s.buf);
    var sized := WriteBody(sizer, g, p, v);
    Sized(Snap(0, 0, x.bytes), sized, r, sizer.Now());
    if !sized {
      SchemaError(s.mode, x);
      return false;
    }
    var size := sizer.written;
    var okA := s.WriteVarint(size);
    ghost var y := s.Now();
    ok := false;
    if okA {
      OutcomeReady(s.mode, x, Some(Varint(size)), y);
      if s.mode.counting {
        ok := s.Write([], size);
        Taken(s.mode, y, r.value);
        assert s.Now() == After(s.mode, y, r.value) by { Counted(s.mode, y, r.value); }
      } else if s.written + size <= s.mode.maxSize {
        var sub := new OStream.Window(s.buf, s.pos, size);
        var status := WriteBody(sub, g, p, v);
        Subwritten(s.mode, y, status, r.value, sub.Now());
        s.written := s.written + sub.written;
        s.pos := sub.pos;
        // the second pass wrote what the first one counted
        assert status && sub.written == size;
        ok := if sub.written != size then false else status;
      } else {
        Refused(s.mode, y, r.value);
      }
    }
    Compose(s.mode, x, okA, Some(Varint(size)), y, ok, r, s.Now());
  }

  lemma Counted(m: Mode, y: Snap, s: seq<byte>)
    requires m.counting && Ready(m, y)
    ensures After(m, y, s) == y.(written := y.written + |s|)
  {
  }

  lemma OutcomeReady(m: Mode, x: Snap, r: Option<seq<byte>>, y: Snap)
    requires Outcome(m, x, true, r, y)
    ensures Ready(m, y)
  {
  }

  method WriteBody(s: OStream, g: Globals, p: Proto, v: Json) returns (ok: bool)
    requires s.Valid()
    modifies s, s.buf
    ensures Outcome(s.mode, old(s.Now()), ok, BodyBytes(g, p, v), s.Now())
    decreases v, 0
  {
    if v.Obj? {
      ok := WriteMessage(s, g, p, v.entries);
    } else {
      Nothing(s.mode, s.Now());
      ok := true;
    }
  }

  /** pb_encode_array. */
  method WriteArray(s: OStream, g: Globals, p: Proto, f: Field, vs: seq<Json>) returns (ok: bool)
    requires s.Valid()
    modifies s, s.buf
    ensures Outcome(s.mode, old(s.Now()), ok, ArrayBytes(g, p, f, vs), s.Now())
    decreases vs, 1
  {
    hide Outcome, Varint, Tag, PackedBytes, TaggedBytes;
    ghost var x := s.Now();
    if f.kind.Packed() {
      var okA := WriteTag(s, f);
      ghost var y := s.Now();
      var okB := false;
      if okA {
        OutcomeReady(s.mode, x, Some(Tag(f)), y);
        okB := s.WriteVarint(|vs|);
      }
      ghost var z := s.Now();
      Compose(s.mode, x, okA, Some(Tag(f)), y, okB, Some(Varint(|vs|)), z);
      ok := false;
      if okB {
        OutcomeReady(s.mode, x, Some(Tag(f) + Varint(|vs|)), z);
        ok := WritePacked(s, g, p, f.kind, vs);
      }
      Compose(s.mode, x, okB, Some(Tag(f) + Varint(|vs|)), z, ok, PackedBytes(g, p, f.kind, vs), s.Now());
    } else {
      ok := WriteTagged(s, g, p, f, vs);
    }
  }

  method WritePacked(s: OStream, g: Globals, p: Proto, kind: Kind, vs: seq<Json>) returns (ok: bool)
    requires s.Valid()
    modifies s, s.buf
    ensures Outcome(s.mode, old(s.Now()), ok, PackedBytes(g, p, kind, vs), s.Now())
    decreases vs, 0
  {
    hide Outcome, Join, ValueBytes, PackedBytes;
    ghost var x := s.Now();
    ghost var done, whole := [], PackedBytes(g, p, kind, vs);
    Nothing(s.mode, x);
    PackedStep(g, p, kind, vs, 0);
    var i := 0;
    while i < |vs|
      invariant 0 <= i <= |vs|
      invariant s.Valid() && Outcome(s.mode, x, true, Some(done), s.Now())
      invariant whole == Join(Some(done), PackedBytes(g, p, kind, vs[i..]))
    {
      ghost var y := s.Now();
      ok := WriteValue(s, g, p, kind, vs[i]);
      PackedStep(g, p, kind, vs, i);
      done := Extend(s.mode, x, done, y, ok, ValueBytes(g, p, kind, vs[i]), s.Now(), whole,
                     PackedBytes(g, p, kind, vs[i + 1..]));
      if !ok {
        return;
      }
      i := i + 1;
    }
    PackedStep(g, p, kind, vs, i);
    JoinAll(done);
    return true;
  }

  lemma PackedStep(g: Globals, p: Proto, kind: Kind, vs: seq<Json>, i: nat)
    requires i <= |vs|
    ensures i == 0 ==> PackedBytes(g, p, kind, vs) == Join(Some([]), PackedBytes(g, p, kind, vs[i..]))
    ensures i == |vs| ==> PackedBytes(g, p, kind, vs[i..]) == Some([])
    ensures i < |vs| ==>
      PackedBytes(g, p, kind, vs[i..])
      == Join(ValueBytes(g, p, kind, vs[i]), PackedBytes(g, p, kind, vs[i + 1..]))
  {
    JoinNothing(PackedBytes(g, p, kind, vs));
    assert i == 0 ==> vs[i..] == vs;
    assert i < |vs| ==> vs[i..][1..] == vs[i + 1..];
  }

  method WriteTagged(s: OStream, g: Globals, p: Proto, f: Field, vs: seq<Json>) returns (ok: bool)
    requires s.Valid()
    modifies s, s.buf
    ensures Outcome(s.mode, old(s.Now()), ok, TaggedBytes(g, p, f, vs), s.Now())
    decreases vs, 0
  {
    hide Outcome, Join, ValueBytes, TaggedBytes;
    ghost var x := s.Now();
    ghost var done, whole := [], TaggedBytes(g, p, f, vs);
    Nothing(s.mode, x);
    TaggedStep(g, p, f, vs, 0);
    var i := 0;
    while i < |vs|
      invariant 0 <= i <= |vs|
      invariant s.Valid() && Outcome(s.mode, x, true, Some(done), s.Now())
      invariant whole == Join(Some(done), TaggedBytes(g, p, f, vs[i..]))
    {
      ghost var y := s.Now();
      ok := WriteTaggedValue(s, g, p, f, vs[i]);
      TaggedStep(g, p, f, vs, i);
      done := Extend(s.mode, x, done, y, ok, Join(Some(Tag(f)), ValueBytes(g, p, f.kind, vs[i])), s.Now(), whole,
                     TaggedBytes(g, p, f, vs[i + 1..]));
      if !ok {
        return;
      }
      i := i + 1;
    }
    TaggedStep(g, p, f, vs, i);
    JoinAll(done);
    return true;
  }

  lemma TaggedStep(g: Globals, p: Proto, f: Field, vs: seq<Json>, i: nat)
    requires i <= |vs|
    ensures i == 0 ==> TaggedBytes(g, p, f, vs) == Join(Some([]), TaggedBytes(g, p, f, vs[i..]))
    ensures i == |vs| ==> TaggedBytes(g, p, f, vs[i..]) == Some([])
    ensures i < |vs| ==>
      TaggedBytes(g, p, f, vs[i..])
      == Join(Join(Some(Tag(f)), ValueBytes(g, p, f.kind, vs[i])), TaggedBytes(g, p, f, vs[i + 1..]))
  {
    JoinNothing(TaggedBytes(g, p, f, vs));
    assert i == 0 ==> vs[i..] == vs;
    assert i < |vs| ==> vs[i..][1..] == vs[i + 1..];
  }

  method WriteTaggedValue(s: OStream, g: Globals, p: Proto, f: Field, v: Json) returns (ok: bool)
    requires s.Valid()
    modifies s, s.buf
    ensures Outcome(s.mode, old(s.Now()), ok, Join(Some(Tag(f)), ValueBytes(g, p, f.kind, v)), s.Now())
    decreases v, 3
  {
    ghost var x := s.Now();
    var tagged := WriteTag(s, f);
    ghost var y := s.Now();
    ok := false;
    if tagged {
      ok := WriteValue(s, g, p, f.kind, v);
    }
    Compose(s.mode, x, tagged, Some(Tag(f)), y, ok, ValueBytes(g, p, f.kind, v), s.Now());
  }

  method WriteEntry(s: OStream, g: Globals, p: Proto, e: Entry) returns (ok: bool)
    requires s.Valid()
    modifies s, s.buf
    ensures Outcome(s.mode, old(s.Now()), ok, EntryBytes(g, p, e), s.Now())
    decreases e, 0
  {
    if e.key !in p.fields {
      return false;
    }
    var f := p.fields[e.key];
    if f.presence.Required? || f.presence.Optional? {
      ok := WriteTaggedValue(s, g, p, f, e.value);
    } else if f.presence.Repeated? && e.value.Arr? {
      ok := WriteArray(s, g, p, f, e.value.items);
    } else {
      Nothing(s.mode, s.Now());
      ok := true;
    }
  }

  /** pb_encode: the entries in iteration order. */
  method WriteMessage(s: OStream, g: Globals, p: Proto, es: seq<Entry>) returns (ok: bool)
    requires s.Valid()
    modifies s, s.buf
    ensures Outcome(s.mode, old(s.Now()), ok, MessageBytes(g, p, es), s.Now())
    decreases es, 0
  {
    hide Outcome, Join, EntryBytes, MessageBytes;
    ghost var x := s.Now();
    ghost var done, whole := [], MessageBytes(g, p, es);
    Nothing(s.mode, x);
    MessageStep(g, p, es, 0);
    var i := 0;
    while i < |es|
      invariant 0 <= i <= |es|
      invariant s.Valid() && Outcome(s.mode, x, true, Some(done), s.Now())
      invariant whole == Join(Some(done), MessageBytes(g, p, es[i..]))
    {
      ghost var y := s.Now();
      ok := WriteEntry(s, g, p, es[i]);
      MessageStep(g, p, es, i);
      done := Extend(s.mode, x, done, y, ok, EntryBytes(g, p, es[i]), s.Now(), whole,
                     MessageBytes(g, p, es[i + 1..]));
      if !ok {
        return;
      }
      i := i + 1;
    }
    MessageStep(g, p, es, i);
    JoinAll(done);
    return true;
  }

  lemma MessageStep(g: Globals, p: Proto, es: seq<Entry>, i: nat)
    requires i <= |es|
    ensures i == 0 ==> MessageBytes(g, p, es) == Join(Some([]), MessageBytes(g, p, es[i..]))
    ensures i == |es| ==> MessageBytes(g, p, es[i..]) == Some([])
    ensures i < |es| ==>
      MessageBytes(g, p, es[i..])
      == Join(EntryBytes(g, p, es[i]), MessageBytes(g, p, es[i + 1..]))
  {
    JoinNothing(MessageBytes(g, p, es));
    assert i == 0 ==> es[i..] == es;
    assert i < |es| ==> es[i..][1..] == es[i + 1..];
  }

  /** One turn of a writing loop: `a` follows `done`, and `rest` is still to come. */
  lemma Extend(m: Mode, x: Snap, done: seq<byte>, y: Snap, ok: bool, a: Option<seq<byte>>, z: Snap,
               whole: Option<seq<byte>>, rest: Option<seq<byte>>)
    returns (done': seq<byte>)
    requires Outcome(m, x, true, Some(done), y) && Outcome(m, y, ok, a, z)
    requires whole == Join(Some(done), Join(a, rest))
    ensures ok ==> Outcome(m, x, true, Some(done'), z) && whole == Join(Some(done'), rest)
    ensures !ok ==> Outcome(m, x, false, whole, z)
    ensures Ready(m, z)
  {
    Compose(m, x, true, Some(done), y, ok, a, z);
    JoinAssociates(Some(done), a, rest);
    done' := if ok then done + a.value else [];
    if !ok {
      FailsLater(m, x, Join(Some(done), a), rest, z);
    }
  }

  lemma JoinAll(s: seq<byte>)
    ensures Join(Some(s), Some([])) == Some(s)
  {
    assert s + [] == s;
  }

  lemma JoinNothing(r: Option<seq<byte>>)
    ensures Join(Some([]), r) == r
  {
    if r.Some? {
      assert [] + r.value == r.value;
    }
  }

  lemma JoinAssociates(a: Option<seq<byte>>, b: Option<seq<byte>>, c: Option<seq<byte>>)
    ensures Join(a, Join(b, c)) == Join(Join(a, b), c)
  {
    if a.Some? && b.Some? && c.Some? {
      assert a.value + (b.value + c.value) == a.value + b.value + c.value;
    }
  }

  /** What failed on the way to `a` fails on the way to anything longer. */
  lemma FailsLater(m: Mode, x: Snap, a: Option<seq<byte>>, b: Option<seq<byte>>, y: Snap)
    requires Outcome(m, x, false, a, y)
    ensures Outcome(m, x, false, Join(a, b), y)
  {
  }

  /**
    pc_pb_encode: a typed message is encoded exactly when its bytes fit the buffer; they then fill
    its beginning and the rest of the buffer is as it was. A message that does not fit, or has a
    key, submessage type or value the schema cannot place, is refused.
   */
  method Encode(buf: array<byte>, g: Globals, p: Proto, es: seq<Entry>) returns (ok: bool, written: nat)
    modifies buf
    ensures ok <==> MessageBytes(g, p, es).Some? && |MessageBytes(g, p, es).value| <= buf.Length
    ensures ok ==> written == |MessageBytes(g, p, es).value| && buf[..written] == MessageBytes(g, p, es).value
    ensures ok ==> buf[written..] == old(buf[written..])
    ensures Typed(g, p, es) ==> MessageBytes(g, p, es).Some?
  {
    if Typed(g, p, es) {
      TypedHasBytes(g, p, es);
    }
    var s := new OStream.Window(buf, 0, buf.Length);
    ok := WriteMessage(s, g, p, es);
    written := s.written;
  }
}
