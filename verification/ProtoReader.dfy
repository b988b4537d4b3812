/**
  The stream reader of src/pb-decode.c: an input stream is a position and a count of bytes left,
  moved by `Read`; a submessage is read through a substream. Every method is proved to compute what
  `ProtoDecode` defines and to leave the stream where it says.
 */
module ProtoReader {
  import opened Bytes
  import opened JsonValues
  import opened ProtoSchema
  import opened Varints
  import opened ProtoDecode
  import Utf8

  class IStream {
    const buf: seq<byte>
    var pos: nat
    var left: nat

    ghost predicate Valid()
      reads this
    {
      pos + left <= |buf|
    }

    ghost function At(): Cursor
      reads this
    {
      Cursor(pos, left)
    }

    /** pb_istream_from_buffer, and the substream of a submessage. */
    constructor (source: seq<byte>, start: nat, size: nat)
      requires start + size <= |source|
      ensures Valid() && buf == source && pos == start && left == size
    {
      buf, pos, left := source, start, size;
    }

    /** pb_read. */
    method Read(count: nat) returns (ok: bool, bytes: seq<byte>)
      requires Valid()
      modifies this
      ensures Valid() && ok == (count <= old(left))
      ensures ok ==> At() == old(At()).Skip(count) && bytes == buf[old(pos)..old(pos) + count]
      ensures !ok ==> At() == old(At())
    {
      if left < count {
        return false, [];
      }
      bytes := buf[pos..pos + count];
      pos := pos + count;
      left := left - count;
      ok := true;
    }

    /** pb_decode_varint. */
    method ReadVarint() returns (ok: bool, value: nat)
      requires Valid()
      modifies this
      ensures Valid() && value < TWO64
      ensures Varints.ReadVarint(buf, old(At())) == VarintRead(ok, value, At())
    {
      value := 0;
      var bitpos := 0;
      while bitpos < 64
        invariant Valid() && value < TWO64 && bitpos % 7 == 0 && bitpos <= 70
        invariant Varints.ReadVarint(buf, old(At())) == ReadFrom(buf, At(), bitpos / 7, value)
      {
        var got, bytes := Read(1);
        if !got {
          return false, value;
        }
        value := (value + Digit(bytes[0], bitpos / 7)) % TWO64;
        bitpos := bitpos + 7;
        if bytes[0] < 128 {
          return true, value;
        }
      }
      ok := false;
    }
  }

  /** From `c` to `d` the reader only moved forward and gained no bytes: it stays inside its window. */
  ghost predicate Inside(c: Cursor, d: Cursor) {
    d.pos >= c.pos && d.left <= c.left && d.pos + d.left <= c.pos + c.left
  }

  /** A method's result and final stream agree with what the functions define. */
  ghost predicate Agrees<T(!new)>(r: Decoded<T>, ok: bool, v: T, at: Cursor) {
    match r
    case Bad => !ok
    case Good(x, c, _) => ok && v == x && at == c
  }

  method ReadString(s: IStream) returns (ok: bool, v: Option<Json>)
    requires s.Valid()
    modifies s
    ensures s.Valid() && Inside(old(s.At()), s.At())
    ensures Agrees(DecodeString(s.buf, old(s.At())), ok, v, s.At())
  {
    v := None;
    var sized, n := s.ReadVarint();
    if !sized {
      return false, v;
    }
    var bytes;
    ok, bytes := s.Read(Low32(n));
    if ok {
      var text := CString(bytes);
      var valid := Utf8.CheckString(text);
      if valid {
        v := Some(Str(text));
      }
    }
  }

  method ReadValue(s: IStream, g: Globals, p: Proto, kind: Kind) returns (ok: bool, v: Option<Json>)
    requires s.Valid()
    modifies s
    ensures s.Valid() && Inside(old(s.At()), s.At())
    ensures Agrees(DecodeValue(s.buf, old(s.At()), g, p, kind), ok, v, s.At())
    decreases s.left, 1
  {
    v := None;
    match kind
    case KUInt32 =>
      var n;
      ok, n := s.ReadVarint();
      v := Some(Int(Signed64(n)));
    case KInt32 =>
      var n;
      ok, n := s.ReadVarint();
      v := Some(Int(UnZigZag(n)));
    case KSInt32 =>
      var n;
      ok, n := s.ReadVarint();
      v := Some(Int(UnZigZag(n)));
    case KFloat =>
      var b;
      ok, b := s.Read(4);
      v := Some(Single(b));
    case KDouble =>
      var b;
      ok, b := s.Read(8);
      v := Some(Double(b));
    case KString =>
      ok, v := ReadString(s);
    case KMessage(name) =>
      if p.messages.None? {
        return true, None;
      }
      var sub := Resolve(g, p.messages.value, name);
      if sub.None? {
        return false, None;
      }
      ok, v := ReadSubmessage(s, g, sub.value);
  }

  /** pb_make_string_substream, pb_decode on the substream, pb_close_string_substream. */
  method ReadSubmessage(s: IStream, g: Globals, p: Proto) returns (ok: bool, v: Option<Json>)
    requires s.Valid()
    modifies s
    ensures s.Valid() && Inside(old(s.At()), s.At())
    ensures Agrees(DecodeSubmessage(s.buf, old(s.At()), g, p), ok, v, s.At())
    decreases s.left, 0
  {
    v := None;
    var sized, n := s.ReadVarint();
    var size := Low32(n);
    if !sized || s.left < size {
      return false, v;
    }
    var sub := new IStream(s.buf, s.pos, size);
    s.left := s.left - size;
    var es;
    ok, es := ReadMessage(sub, g, p, []);
    s.pos := sub.pos;
    v := Some(Obj(es));
  }

  method ReadArray(s: IStream, g: Globals, p: Proto, k: Text, kind: Kind, es: seq<Entry>)
    returns (ok: bool, es': seq<Entry>)
    requires s.Valid()
    modifies s
    ensures s.Valid() && Inside(old(s.At()), s.At())
    ensures Agrees(DecodeArray(s.buf, old(s.At()), g, p, k, kind, es), ok, es', s.At())
    decreases s.left, 3
  {
    hide DecodeValue, DecodePacked, Low32, ReadVarint, ItemsAt, Put;
    es' := es;
    var vs := ItemsAt(es, k);
    if kind.Packed() {
      var counted, size := s.ReadVarint();
      if !counted {
        return false, es;
      }
      ok, vs := ReadPacked(s, g, p, kind, Low32(size), vs);
      if !ok {
        return false, es;
      }
    } else {
      var one, v := ReadValue(s, g, p, kind);
      if !one {
        return false, es;
      }
      if v.Some? {
        vs := vs + [v.value];
      } else if kind.KMessage? {
        vs := vs + [Obj([])];
      }
    }
    return true, Put(es, k, Arr(vs));
  }

  /** The `n` elements of a packed array. */
  method ReadPacked(s: IStream, g: Globals, p: Proto, kind: Kind, n: nat, vs0: seq<Json>) returns (ok: bool, vs: seq<Json>)
    requires s.Valid() && kind.Packed()
    modifies s
    ensures s.Valid() && Inside(old(s.At()), s.At())
    ensures Agrees(DecodePacked(s.buf, old(s.At()), g, p, kind, n, vs0), ok, vs, s.At())
    decreases s.left, 2
  {
    hide DecodeValue;
    vs := vs0;
    ghost var start := s.At();
    var i := 0;
    while i < n
      invariant 0 <= i <= n && s.Valid() && Inside(start, s.At())
      invariant DecodePacked(s.buf, start, g, p, kind, n, vs0) == DecodePacked(s.buf, s.At(), g, p, kind, n - i, vs)
    {
      var one, v := ReadValue(s, g, p, kind);
      if !one {
        return false, vs;
      }
      vs := vs + [v.value];
      i := i + 1;
    }
    ok := true;
  }

  method ReadField(s: IStream, g: Globals, p: Proto, k: Text, f: Field, es: seq<Entry>)
    returns (ok: bool, es': seq<Entry>)
    requires s.Valid()
    modifies s
    ensures s.Valid() && Inside(old(s.At()), s.At())
    ensures Agrees(DecodeField(s.buf, old(s.At()), g, p, k, f, es), ok, es', s.At())
    decreases s.left, 4
  {
    ok, es' := true, es;
    if f.presence.Required? || f.presence.Optional? {
      var v;
      ok, v := ReadValue(s, g, p, f.kind);
      if ok && v.Some? {
        es' := Put(es, k, v.value);
      }
    } else if f.presence.Repeated? {
      ok, es' := ReadArray(s, g, p, k, f.kind, es);
    }
  }

  /** pb_decode. */
  method ReadMessage(s: IStream, g: Globals, p: Proto, es: seq<Entry>) returns (ok: bool, es': seq<Entry>)
    requires s.Valid()
    modifies s
    ensures s.Valid() && Inside(old(s.At()), s.At())
    ensures Agrees(DecodeMessage(s.buf, old(s.At()), g, p, es), ok, es', s.At())
    decreases s.left, 4
  {
    hide DecodeMessage, DecodeField, FieldOf, ReadVarint;
    es' := es;
    ghost var start := s.At();
    ghost var drift: nat := 0;
    while s.left != 0
      invariant s.Valid() && Inside(start, s.At())
      invariant DecodeMessage(s.buf, start, g, p, es) == Drifted(DecodeMessage(s.buf, s.At(), g, p, es'), drift)
      decreases s.left
    {
      MessageStep(s.buf, s.At(), g, p, es');
      var got, t := s.ReadVarint();
      if !got {
        return s.left == 0, es';
      }
      if Low32(t) == 0 {
        return true, es';
      }
      var f := FieldOf(p, Low32(t) / 8);
      if f.None? {
        return false, es';
      }
      ghost var r := DecodeField(s.buf, s.At(), g, p, f.value.0, f.value.1, es');
      ok, es' := ReadField(s, g, p, f.value.0, f.value.1, es');
      if !ok {
        return;
      }
      drift := drift + r.drift;
    }
    MessageStep(s.buf, s.At(), g, p, es');
    return true, es';
  }

  /** pc_pb_decode. */
  method Decode(buf: seq<byte>, g: Globals, p: Proto) returns (r: Option<seq<Entry>>)
    ensures r == ProtoDecode.Decode(buf, g, p)
  {
    var s := new IStream(buf, 0, |buf|);
    var ok, es := ReadMessage(s, g, p, []);
    return if ok then Some(es) else None;
  }
}
