/**
  The decoder of src/pb-decode.c as functions over a buffer and a cursor. They are defined for every
  byte string and every schema, recursive ones included: the bytes left are the termination measure.
 */
module ProtoDecode {
  import opened Bytes
  import opened JsonValues
  import opened ProtoSchema
  import opened Varints
  import Utf8

  /**
    `drift` adds up the bytes that nested messages left unread when a zero tag stopped them: closing
    the substream moves the parent's position back by that much without giving the bytes back.
   */
  datatype Decoded<+T> = Bad | Good(value: T, at: Cursor, drift: nat) {
    /** Position and bytes left of `at` against `c`: nothing is read past the end, and `drift` is what is lost. */
    ghost predicate Accounts(c: Cursor) {
      Good? ==> at.pos >= c.pos && at.left <= c.left && at.pos + at.left + drift == c.pos + c.left
    }
  }

  /** pb_decode_varint32 keeps the low 32 bits. */
  function Low32(n: nat): (m: nat)
    ensures m < TWO32
  {
    n % TWO32
  }

  function ReadBlock(buf: seq<byte>, c: Cursor, n: nat): (r: Decoded<seq<byte>>)
    requires c.In(buf)
    ensures r.Accounts(c)
    ensures r.Good? ==> n <= c.left && r.drift == 0 && r.at == c.Skip(n)
  {
    if c.left < n then Bad else Good(buf[c.pos..c.pos + n], c.Skip(n), 0)
  }

  /** pb_decode_strlen and pb_decode_string; json_string rejects text that is not UTF-8. */
  function DecodeString(buf: seq<byte>, c: Cursor): (r: Decoded<Option<Json>>)
    requires c.In(buf)
    ensures r.Accounts(c)
  {
    var n := ReadVarint(buf, c);
    if !n.ok then Bad
    else match ReadBlock(buf, n.at, Low32(n.value))
      case Bad => Bad
      case Good(s, at, _) => Good(if Utf8.IsUtf8(CString(s)) then Some(Str(CString(s))) else None, at, 0)
  }

  /**
    The buffer that is allocated for a string has no room for its terminator, which is written whether
    or not the string could be read, if and only if the length is 2^32 - 1: the size wraps around to 0.
    Nothing is decoded then unless that many bytes are there.
   */
  lemma StringOverrunsIff(buf: seq<byte>, c: Cursor)
    requires c.In(buf) && ReadVarint(buf, c).ok
    ensures var n := ReadVarint(buf, c);
      && (Low32(Low32(n.value) + 1) <= Low32(n.value) <==> Low32(n.value) == TWO32 - 1)
      && (Low32(n.value) == TWO32 - 1 && n.at.left < TWO32 - 1 ==> DecodeString(buf, c).Bad?)
  {
    hide ReadVarint, CString;
  }

  /** pb_decode_proto: the value of one occurrence, None when nothing is stored. */
  function DecodeValue(buf: seq<byte>, c: Cursor, g: Globals, p: Proto, kind: Kind): (r: Decoded<Option<Json>>)
    requires c.In(buf)
    ensures r.Accounts(c)
    ensures r.Good? && kind.Packed() ==> r.at.left < c.left && r.value.Some? && r.drift == 0
    decreases c.left, 1
  {
    match kind
    case KUInt32 =>
      var v := ReadVarint(buf, c);
      if v.ok then Good(Some(Int(Signed64(v.value))), v.at, 0) else Bad
    case KInt32 =>
      var v := ReadVarint(buf, c);
      if v.ok then Good(Some(Int(UnZigZag(v.value))), v.at, 0) else Bad
    case KSInt32 =>
      var v := ReadVarint(buf, c);
      if v.ok then Good(Some(Int(UnZigZag(v.value))), v.at, 0) else Bad
    case KFloat =>
      var b := ReadBlock(buf, c, 4);
      if b.Good? then Good(Some(Single(b.value)), b.at, 0) else Bad
    case KDouble =>
      var b := ReadBlock(buf, c, 8);
      if b.Good? then Good(Some(Double(b.value)), b.at, 0) else Bad
    case KString => DecodeString(buf, c)
    case KMessage(name) =>
      if p.messages.None? then Good(None, c, 0)
      else match Resolve(g, p.messages.value, name)
        case None => Bad
        case Some(sub) => DecodeSubmessage(buf, c, g, sub)
  }

  /** pb_decode_submessage: a substream of the announced size, whose final position the parent takes over. */
  function DecodeSubmessage(buf: seq<byte>, c: Cursor, g: Globals, p: Proto): (r: Decoded<Option<Json>>)
    requires c.In(buf)
    ensures r.Accounts(c)
    decreases c.left, 0
  {
    var n := ReadVarint(buf, c);
    var size := Low32(n.value);
    if !n.ok || n.at.left < size then Bad
    else match DecodeMessage(buf, Cursor(n.at.pos, size), g, p, [])
      case Bad => Bad
      case Good(es, at, drift) => Good(Some(Obj(es)), Cursor(at.pos, n.at.left - size), drift + at.left)
  }

  function DecodePacked(buf: seq<byte>, c: Cursor, g: Globals, p: Proto, kind: Kind, n: nat, vs: seq<Json>)
    : (r: Decoded<seq<Json>>)
    requires c.In(buf) && kind.Packed()
    ensures r.Accounts(c)
    decreases c.left, 2
  {
    if n == 0 then Good(vs, c, 0)
    else match DecodeValue(buf, c, g, p, kind)
      case Bad => Bad
      case Good(v, at, _) => DecodePacked(buf, at, g, p, kind, n - 1, vs + [v.value])
  }

  /** The array already decoded under a key. */
  function ItemsAt(es: seq<Entry>, k: Text): seq<Json> {
    match Get(es, k)
    case Some(Arr(vs)) => vs
    case _ => []
  }

  /** pb_decode_array. */
  function DecodeArray(buf: seq<byte>, c: Cursor, g: Globals, p: Proto, k: Text, kind: Kind, es: seq<Entry>)
    : (r: Decoded<seq<Entry>>)
    requires c.In(buf)
    ensures r.Accounts(c)
    decreases c.left, 3
  {
    var vs := ItemsAt(es, k);
    if kind.Packed() then
      var n := ReadVarint(buf, c);
      if !n.ok then Bad
      else match DecodePacked(buf, n.at, g, p, kind, Low32(n.value), vs)
        case Bad => Bad
        case Good(ws, at, drift) => Good(Put(es, k, Arr(ws)), at, drift)
    else match DecodeValue(buf, c, g, p, kind)
      case Bad => Bad
      case Good(v, at, drift) =>
        var ws := if v.Some? then vs + [v.value] else if kind.KMessage? then vs + [Obj([])] else vs;
        Good(Put(es, k, Arr(ws)), at, drift)
  }

  function DecodeField(buf: seq<byte>, c: Cursor, g: Globals, p: Proto, k: Text, f: Field, es: seq<Entry>)
    : (r: Decoded<seq<Entry>>)
    requires c.In(buf)
    ensures r.Accounts(c)
    decreases c.left, 4
  {
    match f.presence
    case Repeated => DecodeArray(buf, c, g, p, k, f.kind, es)
    case OtherOption => Good(es, c, 0)
    case _ =>
      match DecodeValue(buf, c, g, p, f.kind)
      case Bad => Bad
      case Good(v, at, drift) => Good(if v.Some? then Put(es, k, v.value) else es, at, drift)
  }

  /** The field a tag stands for, or Bad's reasons: no `__tags`, an unknown number, an unknown name. */
  function FieldOf(p: Proto, tag: nat): Option<(Text, Field)> {
    if p.tags.None? || tag !in p.tags.value || p.tags.value[tag] !in p.fields then None
    else Some((p.tags.value[tag], p.fields[p.tags.value[tag]]))
  }

  /**
    pb_decode, from an object already holding `es`. A tag cut off by the end of the stream ends the
    message like a clean end, and a zero tag ends it wherever it stands.
   */
  function DecodeMessage(buf: seq<byte>, c: Cursor, g: Globals, p: Proto, es: seq<Entry>): (r: Decoded<seq<Entry>>)
    requires c.In(buf)
    ensures r.Accounts(c)
    decreases c.left, 5
  {
    if c.left == 0 then Good(es, c, 0)
    else
      var t := ReadVarint(buf, c);
      if !t.ok then (if t.at.left == 0 then Good(es, t.at, 0) else Bad)
      else if Low32(t.value) == 0 then Good(es, t.at, 0)
      else match FieldOf(p, Low32(t.value) / 8)
        case None => Bad
        case Some(f) =>
          match DecodeField(buf, t.at, g, p, f.0, f.1, es)
          case Bad => Bad
          case Good(es', at, drift) =>
            match DecodeMessage(buf, at, g, p, es')
            case Bad => Bad
            case Good(es'', at', drift') => Good(es'', at', drift + drift')
  }

  /** pc_pb_decode. */
  function Decode(buf: seq<byte>, g: Globals, p: Proto): Option<seq<Entry>> {
    match DecodeMessage(buf, Cursor(0, |buf|), g, p, [])
    case Bad => None
    case Good(es, _, _) => Some(es)
  }

  ghost function Drifted<T>(r: Decoded<T>, drift: nat): Decoded<T> {
    if r.Bad? then Bad else r.(drift := r.drift + drift)
  }

  /** One turn of the loop of pb_decode. */
  lemma MessageStep(buf: seq<byte>, c: Cursor, g: Globals, p: Proto, es: seq<Entry>)
    requires c.In(buf)
    ensures c.left == 0 ==> DecodeMessage(buf, c, g, p, es) == Good(es, c, 0)
    ensures c.left != 0 ==>
      var t := ReadVarint(buf, c);
      DecodeMessage(buf, c, g, p, es) ==
        if !t.ok then (if t.at.left == 0 then Good(es, t.at, 0) else Bad)
        else if Low32(t.value) == 0 then Good(es, t.at, 0)
        else if FieldOf(p, Low32(t.value) / 8).None? then Bad
        else
          var f := FieldOf(p, Low32(t.value) / 8).value;
          var r := DecodeField(buf, t.at, g, p, f.0, f.1, es);
          if r.Bad? then Bad else Drifted(DecodeMessage(buf, r.at, g, p, r.value), r.drift)
  {
  }

  /** A zero tag is read at `c`, and what follows it is at `at`. */
  ghost predicate ZeroTagEndsAt(buf: seq<byte>, at: Cursor, c: Cursor) {
    && c.In(buf)
    && ReadVarint(buf, c).ok && Low32(ReadVarint(buf, c).value) == 0
    && ReadVarint(buf, c).at == at
  }

  /** `d` lies in the window of `c`. */
  ghost predicate Within(c: Cursor, d: Cursor) {
    c.pos <= d.pos && d.pos + d.left <= c.pos + c.left && d.left <= c.left
  }

  /** A message that ends with bytes left was stopped by a zero tag inside its own window, and by nothing else. */
  lemma {:induction false} LeftoverMeansZeroTag(buf: seq<byte>, c: Cursor, g: Globals, p: Proto, es: seq<Entry>)
    requires c.In(buf)
    requires DecodeMessage(buf, c, g, p, es).Good? && DecodeMessage(buf, c, g, p, es).at.left > 0
    ensures exists c0 :: ZeroTagEndsAt(buf, DecodeMessage(buf, c, g, p, es).at, c0) && Within(c, c0)
    decreases c.left
  {
    hide ReadVarint, DecodeField, DecodeMessage;
    MessageStep(buf, c, g, p, es);
    var t := ReadVarint(buf, c);
    if t.ok && Low32(t.value) == 0 {
      assert ZeroTagEndsAt(buf, t.at, c) && Within(c, c);
    } else {
      var f := FieldOf(p, Low32(t.value) / 8).value;
      var r := DecodeField(buf, t.at, g, p, f.0, f.1, es);
      LeftoverMeansZeroTag(buf, r.at, g, p, r.value);
      var c0 :| ZeroTagEndsAt(buf, DecodeMessage(buf, r.at, g, p, r.value).at, c0) && Within(r.at, c0);
      assert Within(c, c0);
    }
  }

  /** The nested message in the window `w`, inside that of `c`, was stopped by a zero tag with bytes left. */
  ghost predicate StoppedAt(buf: seq<byte>, g: Globals, c: Cursor, w: Cursor, sub: Proto) {
    && w.In(buf) && Within(c, w) && w.left < c.left
    && DecodeMessage(buf, w, g, sub, []).Good? && DecodeMessage(buf, w, g, sub, []).at.left > 0
    && exists c0 :: ZeroTagEndsAt(buf, DecodeMessage(buf, w, g, sub, []).at, c0) && Within(w, c0)
  }

  ghost predicate NestedStop(buf: seq<byte>, g: Globals, c: Cursor) {
    exists w, sub :: StoppedAt(buf, g, c, w, sub)
  }

  lemma Wider(buf: seq<byte>, g: Globals, c: Cursor, d: Cursor)
    requires Within(c, d) && NestedStop(buf, g, d)
    ensures NestedStop(buf, g, c)
  {
    hide DecodeMessage, ReadVarint;
    var w, sub :| StoppedAt(buf, g, d, w, sub);
    assert StoppedAt(buf, g, c, w, sub);
  }

  lemma {:induction false} ValueDrift(buf: seq<byte>, c: Cursor, g: Globals, p: Proto, kind: Kind)
    requires c.In(buf) && DecodeValue(buf, c, g, p, kind).Good? && DecodeValue(buf, c, g, p, kind).drift > 0
    ensures NestedStop(buf, g, c)
    decreases c.left, 1
  {
    hide ReadVarint, DecodeSubmessage, DecodeString;
    match kind
    case KMessage(name) => SubmessageDrift(buf, c, g, Resolve(g, p.messages.value, name).value);
    case KString => StringHasNoDrift(buf, c);
    case _ =>
  }

  lemma StringHasNoDrift(buf: seq<byte>, c: Cursor)
    requires c.In(buf)
    ensures DecodeString(buf, c).Good? ==> DecodeString(buf, c).drift == 0
  {
    hide ReadVarint;
  }

  lemma {:induction false} SubmessageDrift(buf: seq<byte>, c: Cursor, g: Globals, p: Proto)
    requires c.In(buf) && DecodeSubmessage(buf, c, g, p).Good? && DecodeSubmessage(buf, c, g, p).drift > 0
    ensures NestedStop(buf, g, c)
    decreases c.left, 0
  {
    hide DecodeMessage;
    var n := ReadVarint(buf, c);
    var w := Cursor(n.at.pos, Low32(n.value));
    var r := DecodeMessage(buf, w, g, p, []);
    hide ReadVarint;
    if r.at.left > 0 {
      LeftoverMeansZeroTag(buf, w, g, p, []);
      assert StoppedAt(buf, g, c, w, p);
    } else {
      MessageDrift(buf, w, g, p, []);
      Wider(buf, g, c, w);
    }
  }

  lemma {:induction false} PackedHasNoDrift(buf: seq<byte>, c: Cursor, g: Globals, p: Proto, kind: Kind, n: nat, vs: seq<Json>)
    requires c.In(buf) && kind.Packed()
    ensures DecodePacked(buf, c, g, p, kind, n, vs).Good? ==> DecodePacked(buf, c, g, p, kind, n, vs).drift == 0
    decreases n
  {
    hide DecodeValue;
    if n > 0 {
      var r := DecodeValue(buf, c, g, p, kind);
      if r.Good? {
        PackedHasNoDrift(buf, r.at, g, p, kind, n - 1, vs + [r.value.value]);
      }
    }
  }

  lemma {:induction false} FieldDrift(buf: seq<byte>, c: Cursor, g: Globals, p: Proto, k: Text, f: Field, es: seq<Entry>)
    requires c.In(buf) && DecodeField(buf, c, g, p, k, f, es).Good? && DecodeField(buf, c, g, p, k, f, es).drift > 0
    ensures NestedStop(buf, g, c)
    decreases c.left, 2
  {
    hide DecodeValue, DecodePacked, ReadVarint;
    if f.presence.Repeated? && f.kind.Packed() {
      var n := ReadVarint(buf, c);
      PackedHasNoDrift(buf, n.at, g, p, f.kind, Low32(n.value), ItemsAt(es, k));
    } else {
      ValueDrift(buf, c, g, p, f.kind);
    }
  }

  /**
    Position and bytes left of a decoded message add up to the buffer end unless a nested message was
    stopped by a zero tag inside its own window: bytes are lost to nothing else.
   */
  lemma {:induction false} MessageDrift(buf: seq<byte>, c: Cursor, g: Globals, p: Proto, es: seq<Entry>)
    requires c.In(buf) && DecodeMessage(buf, c, g, p, es).Good? && DecodeMessage(buf, c, g, p, es).drift > 0
    ensures NestedStop(buf, g, c)
    decreases c.left, 3
  {
    hide ReadVarint, DecodeField, DecodeMessage;
    MessageStep(buf, c, g, p, es);
    var t := ReadVarint(buf, c);
    var f := FieldOf(p, Low32(t.value) / 8).value;
    var r := DecodeField(buf, t.at, g, p, f.0, f.1, es);
    if r.drift > 0 {
      FieldDrift(buf, t.at, g, p, f.0, f.1, es);
      Wider(buf, g, c, t.at);
    } else {
      MessageDrift(buf, r.at, g, p, r.value);
      Wider(buf, g, c, r.at);
    }
  }
}
