/**
  What the decoder does with bytes behind those of a message: a tag that is cut off and everything from a
  zero byte on are passed over in silence; an unknown field number and a field that is cut off are refused.
 */
module ProtoTail {
  import opened Bytes
  import opened JsonValues
  import opened ProtoSchema
  import opened Varints
  import opened ProtoBytes
  import opened ProtoDecode
  import opened ProtoRoundTrip

  /** The bytes of a message, wherever they stand, add its entries, and decoding goes on behind them. */
  lemma {:induction false} MessagePrefix(buf: seq<byte>, c: Cursor, g: Globals, p: Proto, es: seq<Entry>, acc: seq<Entry>, s: seq<byte>)
    requires Typed(g, p, es) && MessageBytes(g, p, es) == Some(s) && c.At(buf, s) && |s| < TWO31
    requires forall i :: 0 <= i < |es| ==> !Has(acc, es[i].key)
    ensures DecodeMessage(buf, c, g, p, acc) == DecodeMessage(buf, c.Skip(|s|), g, p, acc + Keep(g, p, es))
    decreases es
  {
    hide EntryBytes, KeepEntry, Has, Vanishes, WellFormed, TypedValue, TypedItems, DecodeMessage;
    if es == [] {
      assert acc + [] == acc;
    } else {
      var e, tail := es[0], es[1..];
      var first := EntryBytes(g, p, e).value;
      var rest := MessageBytes(g, p, tail).value;
      AtConcat(buf, c, first, rest);
      EntryRoundTrip(buf, c, g, p, e, acc, first);
      var acc' := if Vanishes(p, e) then acc else acc + [KeepEntry(g, p, e)];
      forall i | 0 <= i < |tail|
        ensures !Has(acc', tail[i].key)
      {
        HasAppend(acc, KeepEntry(g, p, e), tail[i].key);
        assert tail[i] == es[i + 1];
      }
      MessagePrefix(buf, c.Skip(|first|), g, p, tail, acc', rest);
      assert acc' + Keep(g, p, tail) == acc + Keep(g, p, es);
    }
  }

  /** Decoding comes to the bytes behind the message with its entries in hand. */
  lemma ComesTo(g: Globals, p: Proto, es: seq<Entry>, rest: seq<byte>)
    requires Typed(g, p, es) && MessageBytes(g, p, es).Some? && |MessageBytes(g, p, es).value| < TWO31
    ensures var s := MessageBytes(g, p, es).value; var buf := s + rest; var c := Cursor(|s|, |rest|);
      && c.At(buf, rest)
      && DecodeMessage(buf, Cursor(0, |buf|), g, p, []) == DecodeMessage(buf, c, g, p, Keep(g, p, es))
  {
    hide MessageBytes, DecodeMessage, Typed, Keep;
    var s := MessageBytes(g, p, es).value;
    var buf := s + rest;
    var c := Cursor(0, |buf|);
    assert buf[0..|s|] == s && buf[|s|..|s| + |rest|] == rest;
    forall i | 0 <= i < |es| ensures !Has([], es[i].key) {}
    MessagePrefix(buf, c, g, p, es, [], s);
    assert [] + Keep(g, p, es) == Keep(g, p, es);
  }

  /** From a zero byte on nothing is read. */
  lemma ZeroEndsMessage(g: Globals, p: Proto, es: seq<Entry>, junk: seq<byte>)
    requires Typed(g, p, es) && MessageBytes(g, p, es).Some? && |MessageBytes(g, p, es).value| < TWO31
    ensures Decode(MessageBytes(g, p, es).value + ([0] + junk), g, p) == Some(Keep(g, p, es))
  {
    hide MessageBytes, Typed, Keep, DecodeMessage, ReadVarint;
    var rest := [0] + junk;
    ComesTo(g, p, es, rest);
    var s := MessageBytes(g, p, es).value;
    var buf, c := s + rest, Cursor(|s|, |rest|);
    MessageStep(buf, c, g, p, Keep(g, p, es));
    assert buf[c.pos..c.pos + 1] == [0] == Varint(0);
    ReadWritten(buf, c, 0);
  }

  lemma {:induction false} Unfinished(buf: seq<byte>, c: Cursor, i: nat, acc: nat)
    requires c.In(buf) && acc < TWO64 && i + c.left < 10 && forall k :: c.pos <= k < c.pos + c.left ==> buf[k] >= 128
    ensures !ReadFrom(buf, c, i, acc).ok && ReadFrom(buf, c, i, acc).at.left == 0
    decreases c.left
  {
    hide Digit;
    if c.left > 0 {
      Unfinished(buf, c.Skip(1), i + 1, (acc + Digit(buf[c.pos], i)) % TWO64);
    }
  }

  /** A tag that the end cuts off is taken for the end. */
  lemma CutOffTagIsIgnored(g: Globals, p: Proto, es: seq<Entry>, rest: seq<byte>)
    requires Typed(g, p, es) && MessageBytes(g, p, es).Some? && |MessageBytes(g, p, es).value| < TWO31
    requires |rest| < 10 && forall i :: 0 <= i < |rest| ==> rest[i] >= 128
    ensures Decode(MessageBytes(g, p, es).value + rest, g, p) == Some(Keep(g, p, es))
  {
    hide MessageBytes, Typed, Keep, DecodeMessage, ReadFrom;
    ComesTo(g, p, es, rest);
    var s := MessageBytes(g, p, es).value;
    var buf, c := s + rest, Cursor(|s|, |rest|);
    MessageStep(buf, c, g, p, Keep(g, p, es));
    assert forall k :: c.pos <= k < c.pos + c.left ==> buf[k] == rest[k - |s|];
    Unfinished(buf, c, 0, 0);
  }

  /** A field number that the definition does not have is refused, whatever follows. */
  lemma UnknownNumberIsRefused(g: Globals, p: Proto, es: seq<Entry>, number: nat, wire: nat, junk: seq<byte>)
    requires Typed(g, p, es) && MessageBytes(g, p, es).Some? && |MessageBytes(g, p, es).value| < TWO31
    requires 0 < number < 0x2000_0000 && wire < 8 && p.tags.Some? && number !in p.tags.value
    ensures Decode(MessageBytes(g, p, es).value + (Varint(number * 8 + wire) + junk), g, p) == None
  {
    hide MessageBytes, Typed, Keep, DecodeMessage, ReadVarint, Varint;
    var tag := Varint(number * 8 + wire);
    var rest := tag + junk;
    ComesTo(g, p, es, rest);
    var s := MessageBytes(g, p, es).value;
    var buf, c := s + rest, Cursor(|s|, |rest|);
    MessageStep(buf, c, g, p, Keep(g, p, es));
    AtConcat(buf, c, tag, junk);
    ReadWritten(buf, c, number * 8 + wire);
    assert (number * 8 + wire) / 8 == number;
  }

  /** A string field that announces more bytes than there are is refused. */
  lemma CutOffTextIsRefused(g: Globals, p: Proto, es: seq<Entry>, k: Text, n: nat, rest: seq<byte>)
    requires Typed(g, p, es) && MessageBytes(g, p, es).Some? && |MessageBytes(g, p, es).value| < TWO31
    requires WellFormed(p) && k in p.fields && p.fields[k].kind == KString && (p.fields[k].presence.Required? || p.fields[k].presence.Optional?)
    requires |rest| < n < TWO32
    ensures Decode(MessageBytes(g, p, es).value + (Tag(p.fields[k]) + (Varint(n) + rest)), g, p) == None
  {
    hide MessageBytes, Typed, Keep, DecodeMessage, ReadVarint, Varint, Tag, CString;
    var f := p.fields[k];
    var more := Tag(f) + (Varint(n) + rest);
    ComesTo(g, p, es, more);
    var s := MessageBytes(g, p, es).value;
    var buf, c := s + more, Cursor(|s|, |more|);
    AtConcat(buf, c, Tag(f), Varint(n) + rest);
    TagRoundTrip(buf, c, g, p, k, Keep(g, p, es));
    var d := c.Skip(|Tag(f)|);
    AtConcat(buf, d, Varint(n), rest);
    ReadWritten(buf, d, n);
    assert DecodeString(buf, d).Bad?;
  }
}
