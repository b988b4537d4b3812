/**
  The byte stream under the JSON lexer (deps/jansson/src/load.c:28-45, 124-224): bytes are fetched one
  UTF-8 sequence at a time into a small buffer, and the last one can be put back.
 */
module JsonStream {
  import opened Bytes
  import opened JsonLoad
  import Utf8

  /** A byte as a `char`, which is signed. */
  function Signed(b: byte): (c: int)
    ensures c == if b < 0x80 then b as int else b as int - 0x100
  {
    if b < 0x80 then b as int else b as int - 0x100
  }

  /** What the stream delivers at position `p` of the clean part of the input. */
  function Delivered(v: seq<byte>, bad: bool, p: nat): int {
    if p < |v| then Signed(v[p]) else if bad then ERROR else EOF
  }

  /** `at` lies between two UTF-8 sequences of the clean part. */
  ghost predicate Boundary(data: seq<byte>, at: nat) {
    at <= |data| && Clean(data) == at + Clean(data[at..])
  }

  lemma NextBoundary(data: seq<byte>, at: nat)
    requires Boundary(data, at) && at < |data|
    ensures match Utf8.Head(data[at..])
      case None => Clean(data) == at
      case Some(h) => Boundary(data, at + h.1) && at < at + h.1 <= Clean(data)
  {
    var s := data[at..];
    match Utf8.Head(s)
    case None =>
    case Some(h) => assert s[h.1..] == data[at + h.1..];
  }

  /** No byte of a UTF-8 sequence is 0xFF or 0xFE, which as `char` would be the two sentinels. */
  lemma {:induction false} CleanBytes(data: seq<byte>, i: nat)
    requires i < Clean(data)
    ensures data[i] <= 0xF4 && Signed(data[i]) != EOF && Signed(data[i]) != ERROR
    decreases |data|
  {
    var h := Utf8.Head(data).value;
    if i < h.1 {
      HeadBytes(data, i);
    } else {
      CleanBytes(data[h.1..], i - h.1);
      assert data[h.1..][i - h.1] == data[i];
    }
  }

  lemma HeadBytes(s: seq<byte>, i: nat)
    requires s != [] && Utf8.Head(s).Some? && i < Utf8.Head(s).value.1
    ensures s[i] <= 0xF4 && (Utf8.Head(s).value.1 > 1 ==> s[i] != 0) && Utf8.Head(s).value.1 <= 4
  {
    var n := Utf8.CheckFirst(s[0]);
    assert Utf8.Head(s).value.1 == n;
    if n > 1 && i > 0 {
      var e := s[..n];
      Continues(Utf8.LeadBits(e[0], n), e[1..], i - 1);
    }
  }

  lemma {:induction false} Continues(value: nat, s: seq<byte>, i: nat)
    requires Utf8.Continue(value, s).Some? && i < |s|
    ensures 0x80 <= s[i] <= 0xBF
    decreases |s|
  {
    if i > 0 {
      Continues(value * 64 + s[0] % 64, s[1..], i - 1);
    }
  }

  class Stream {
    const data: seq<byte>
    var at: nat
    var buffer: seq<byte>
    var pos: nat
    var state: int
    ghost var start: nat
    ghost var p: nat

    ghost predicate Valid()
      reads this
    {
      && |buffer| == 5
      && p <= Clean(data)
      && (state == 0 || state == EOF || state == ERROR)
      && (state == 0 ==>
          && Boundary(data, at) && start <= at <= start + 4 && pos <= at - start
          && (forall i :: 0 <= i < at - start ==> buffer[i] == data[start + i] && (buffer[i] == 0 ==> at - start == 1))
          && buffer[at - start] == 0
          && p == (if buffer[pos] == 0 then at else start + pos))
      && (state == EOF ==> p == Clean(data) == |data|)
      && (state == ERROR ==> p == Clean(data) < |data|)
    }

    /** The clean part of the input. */
    ghost function Text(): seq<byte> {
      data[..Clean(data)]
    }

    ghost function Bad(): bool {
      Clean(data) < |data|
    }

    /** The byte before the position can be put back. */
    ghost predicate CanUnget()
      reads this
    {
      state == 0 && 0 < pos && start + pos == p
    }

    constructor (data: seq<byte>)
      ensures Valid() && this.data == data && p == 0
    {
      this.data := data;
      at, buffer, pos, state, start, p := 0, [0, 0, 0, 0, 0], 0, 0, 0, 0;
      new;
      assert data[0..] == data;
    }

    /** The source of bytes. */
    method Fetch() returns (c: int)
      modifies this`at
      ensures if old(at) < |data| then c == data[old(at)] && at == old(at) + 1 else c == EOF && at == old(at)
    {
      if at < |data| {
        c := data[at];
        at := at + 1;
      } else {
        c := EOF;
      }
    }
  
    /** The buffer holds the whole of the sequence that starts at `start`, none of it delivered. */
    ghost predicate Filled()
      reads this
    {
      && state == 0 && |buffer| == 5 && pos == 0 && p == start < at <= start + 4 && at <= Clean(data) && Boundary(data, at)
      && (forall i :: 0 <= i < at - start ==> buffer[i] == data[start + i] && (buffer[i] == 0 ==> at - start == 1))
      && buffer[at - start] == 0
    }

    /** The next UTF-8 sequence is fetched; at the end, or when there is none, the state says so. */
    method Refill() returns (ok: bool)
      requires Valid() && state == 0 && buffer[pos] == 0
      modifies this
      ensures p == old(p)
      ensures if ok then Filled() else Valid() && state != 0
      ensures ok <==> p < Clean(data)
    {
      hide Clean, Boundary, Utf8.Full;
      ghost var from := at;
      var c := Fetch();
      if c == EOF {
        state := EOF;
        assert Clean(data) == |data| by { EndIsClean(data, from); }
        return false;
      }
      NextBoundary(data, from);
      buffer, pos, start := buffer[0 := c], 0, from;
      assert data[from..][0] == c;
      if c < 0x80 {
        buffer := buffer[1 := 0];
        return true;
      }
      var count := Utf8.CheckFirst(c);
      if count == 0 {
        state := ERROR;
        return false;
      }
      FetchRest(count);
      var full := Utf8.CheckFull(buffer[..count]);
      FullIsHead(data, from, count, buffer[..count]);
      if full.None? {
        state := ERROR;
        return false;
      }
      buffer := buffer[count := 0];
      return true;
    }

    /** The rest of a sequence of `count` bytes; an end of the input is stored as the byte 0xFF. */
    method FetchRest(count: nat)
      requires 2 <= count <= 4 && |buffer| == 5 && 0 < at <= |data| && buffer[0] == data[at - 1]
      modifies this`at, this`buffer
      ensures |buffer| == 5 && at == (if old(at) - 1 + count <= |data| then old(at) - 1 + count else |data|)
      ensures forall i :: 0 <= i < count ==> buffer[i] == if old(at) - 1 + i < |data| then data[old(at) - 1 + i] else 0xFF
    {
      var i := 1;
      ghost var from := at - 1;
      while i < count
        invariant 1 <= i <= count && |buffer| == 5
        invariant at == if from + i <= |data| then from + i else |data|
        invariant forall j :: 0 <= j < i ==> buffer[j] == if from + j < |data| then data[from + j] else 0xFF
      {
        var c := Fetch();
        buffer := buffer[i := if c == EOF then 0xFF else c];
        i := i + 1;
      }
    }

    /** stream_get: the next byte, as a `char`, or a sentinel, which no byte can be taken for. */
    method Get() returns (c: int)
      requires Valid()
      modifies this
      ensures Valid() && c == Delivered(Text(), Bad(), old(p)) && old(p) <= |Text()|
      ensures if old(p) < |Text()| then p == old(p) + 1 && CanUnget() && c != EOF && c != ERROR
              else p == old(p) && (c == EOF || c == ERROR)
    {
      hide Clean, Boundary;
      if state != 0 {
        return state;
      }
      if buffer[pos] == 0 {
        var ok := Refill();
        if !ok {
          return state;
        }
      }
      InsideIsClean(data, at, p);
      CleanBytes(data, p);
      var b := buffer[pos];
      pos := pos + 1;
      p := p + 1;
      return Signed(b);
    }

    /** stream_unget: a NUL put back is taken for the end of the buffer, and lost. */
    method Unget(c: int)
      requires Valid()
      requires c != EOF && c != ERROR ==> CanUnget() && 0 < p && c == Signed(Text()[p - 1])
      modifies this`pos, this`p
      ensures Valid()
      ensures p == if c == EOF || c == ERROR then old(p) else PutBack(Text(), old(p) - 1)
    {
      hide Clean, Boundary;
      if c == EOF || c == ERROR {
        return;
      }
      InsideIsClean(data, at, p - 1);
      pos := pos - 1;
      assert Signed(buffer[pos]) == c;
      p := if buffer[pos] == 0 then at else start + pos;
    }

    /** What is left of the buffered sequence is passed over. */
    method Drain() returns (rest: seq<byte>)
      requires Valid() && CanUnget()
      modifies this`pos, this`p
      ensures Valid()
    {
      hide Clean, Boundary;
      rest := [];
      while buffer[pos] != 0
        invariant Valid()
        decreases 5 - pos
      {
        rest := rest + [buffer[pos]];
        InsideIsClean(data, at, p);
        pos := pos + 1;
        p := p + 1;
      }
    }
  }

  lemma EndIsClean(data: seq<byte>, at: nat)
    requires Boundary(data, at) && at == |data|
    ensures Clean(data) == |data|
  {
  }

  lemma InsideIsClean(data: seq<byte>, at: nat, i: nat)
    requires Boundary(data, at) && i < at
    ensures i < Clean(data)
  {
  }

  /** The buffer is accepted exactly when a UTF-8 sequence starts at `from`. */
  lemma FullIsHead(data: seq<byte>, from: nat, count: nat, buffer: seq<byte>)
    requires from < |data| && count == Utf8.CheckFirst(data[from]) >= 2 && |buffer| == count
    requires forall i :: 0 <= i < count ==> buffer[i] == if from + i < |data| then data[from + i] else 0xFF
    ensures Utf8.Full(buffer).Some? <==> Utf8.Head(data[from..]).Some?
    ensures Utf8.Full(buffer).Some? ==> from + count <= |data| && Utf8.Head(data[from..]).value.1 == count
    ensures Utf8.Full(buffer).Some? ==> forall i :: 0 <= i < count ==> buffer[i] == data[from + i] && buffer[i] != 0
  {
    if from + count <= |data| {
      assert buffer == data[from..][..count];
      if Utf8.Full(buffer).Some? {
        forall i | 0 <= i < count
          ensures buffer[i] != 0
        {
          HeadBytes(data[from..], i);
        }
      }
    } else {
      var s := buffer[1..];
      var v := Utf8.LeadBits(buffer[0], count);
      if Utf8.Continue(v, s).Some? {
        Continues(v, s, |data| - from - 1);
      }
    }
  }
}
