/** The address routines as the loops they are (deps/uv/src/inet.c:54-298), proved against module InetText. */
module Inet {
  import opened Bytes
  import opened InetText

  /** The search for the run to shorten. */
  method FindRun(w: seq<nat>) returns (best: Run)
    ensures best == Best(w)
  {
    best := Run(-1, 0);
    var cur := Run(-1, 0);
    var i := 0;
    while i < |w|
      invariant i <= |w| && Search(w, i, best, cur) == Search(w, 0, Run(-1, 0), Run(-1, 0))
    {
      if w[i] == 0 {
        if cur.base == -1 {
          cur := Run(i, 1);
        } else {
          cur := Run(cur.base, cur.len + 1);
        }
      } else if cur.base != -1 {
        if best.base == -1 || cur.len > best.len {
          best := cur;
        }
        cur := Run(-1, cur.len);
      }
      i := i + 1;
    }
    if cur.base != -1 {
      if best.base == -1 || cur.len > best.len {
        best := cur;
      }
    }
    if best.base != -1 && best.len < 2 {
      best := Run(-1, best.len);
    }
  }

  /** inet_ntop6 into a buffer of `size` characters, the terminator included. */
  method PrintAddress(src: seq<byte>, size: nat) returns (r: Option<string>)
    requires |src| == 16
    ensures r == if |Ntop6(src)| + 1 <= size then Some(Ntop6(src)) else None
  {
    var words: seq<nat> := [];
    var i := 0;
    while i < 8
      invariant i <= 8 && words == Words(src)[..i]
    {
      words := words + [WordOf(src[2 * i], src[2 * i + 1])];
      i := i + 1;
    }
    assert words == Words(src);
    var best := FindRun(words);
    var text := PrintWords(src, words, best);
    if |text| + 1 > size {
      return None;
    }
    return Some(text);
  }

  method PrintWords(src: seq<byte>, words: seq<nat>, best: Run) returns (tmp: string)
    requires |src| == 16 && |words| == 8
    ensures tmp == Format(src, words, best, 0)
  {
    hide Format, Hex, Dotted, IsV4;
    tmp := "";
    var i := 0;
    while i < 8
      invariant i <= 8 && Format(src, words, best, 0) == tmp + Format(src, words, best, i)
    {
      FormatStep(tmp, src, words, best, i);
      if InRun(best, i) {
        if i == best.base {
          tmp := tmp + ":";
        }
        i := i + 1;
        continue;
      }
      if i != 0 {
        tmp := tmp + ":";
      }
      if i == 6 && IsV4(words, best) {
        tmp := tmp + Dotted(src[12..]);
        break;
      }
      tmp := tmp + Hex(words[i]);
      i := i + 1;
    }
    FormatEnd(src, words, best);
    if best.base != -1 && best.base + best.len == 8 {
      tmp := tmp + ":";
    }
  }

  /** What one turn of the loop adds to the text. */
  lemma FormatStep(tmp: string, a: seq<byte>, w: seq<nat>, r: Run, i: nat)
    requires |a| == 16 && |w| == 8 && i < 8
    ensures var f, sep := Format(a, w, r, i + 1), if i != 0 then tmp + ":" else tmp;
      tmp + Format(a, w, r, i) ==
        if InRun(r, i) then (if i == r.base then tmp + ":" else tmp) + f
        else if i == 6 && IsV4(w, r) then sep + Dotted(a[12..]) + Trailer(r)
        else sep + Hex(w[i]) + f
  {
    hide Hex, Dotted, IsV4, Format;
    FormatUnfold(a, w, r, i);
    var colon := if i != 0 then ":" else "";
    assert tmp + colon == if i != 0 then tmp + ":" else tmp;
    Associate(tmp, ":", Format(a, w, r, i + 1));
    Associate(tmp, colon, Hex(w[i]) + Format(a, w, r, i + 1));
    Associate(tmp + colon, Hex(w[i]), Format(a, w, r, i + 1));
    Associate(tmp, colon, Dotted(a[12..]) + Trailer(r));
    Associate(tmp + colon, Dotted(a[12..]), Trailer(r));
  }

  lemma FormatUnfold(a: seq<byte>, w: seq<nat>, r: Run, i: nat)
    requires |a| == 16 && |w| == 8 && i < 8
    ensures var f, colon := Format(a, w, r, i + 1), if i != 0 then ":" else "";
      Format(a, w, r, i) ==
        if InRun(r, i) then (if i == r.base then ":" + f else f)
        else colon + if i == 6 && IsV4(w, r) then Dotted(a[12..]) + Trailer(r) else Hex(w[i]) + f
  {
    hide Hex, Dotted, IsV4;
    assert "" + Format(a, w, r, i + 1) == Format(a, w, r, i + 1);
  }

  lemma Associate(a: string, b: string, c: string)
    ensures a + (b + c) == a + b + c
  {
  }

  lemma FormatEnd(a: seq<byte>, w: seq<nat>, r: Run)
    requires |a| == 16 && |w| == 8
    ensures Format(a, w, r, 8) == Trailer(r)
  {
  }

  /** inet_pton4. */
  method ReadAddress4(src: string) returns (r: Option<seq<byte>>)
    ensures r == Pton4(src)
  {
    var tmp: seq<byte>, cur: byte, octets, saw := [], 0, 0, false;
    var i := 0;
    while i < |src|
      invariant i <= |src| && Read4(State4(tmp, cur, octets, saw), src[i..]) == Pton4(src)
    {
      assert src[i..][1..] == src[i + 1..];
      var ch := src[i];
      i := i + 1;
      if IsDec(ch) {
        var nw := (cur as nat) * 10 + (ch as nat - '0' as nat);
        if saw && cur == 0 {
          return None;
        }
        if nw > 255 {
          return None;
        }
        cur := nw;
        if !saw {
          octets := octets + 1;
          if octets > 4 {
            return None;
          }
          saw := true;
        }
      } else if ch == '.' && saw {
        if octets == 4 {
          return None;
        }
        tmp, cur := tmp + [cur], 0;
        saw := false;
      } else {
        return None;
      }
    }
    if octets < 4 {
      return None;
    }
    return Some(tmp + [cur]);
  }

  /** inet_pton6, over a buffer of 16 bytes. */
  method ReadAddress(src: string) returns (r: Option<seq<byte>>)
    ensures r == Pton6(src)
  {
    hide Scan, Finish, HexValue, Pton4, Word;
    var i := 0;
    if i < |src| && src[i] == ':' {
      i := i + 1;
      if i >= |src| || src[i] != ':' {
        return None;
      }
    }
    var tmp := new byte[16](_ => 0);
    var tp, colonp, curtok, seen, val := 0, None, i, 0, 0;
    ghost var start := State6([], None, src[i..], 0, 0);
    ghost var want := Scan(start, src[i..]);
    assert i == 0 ==> src[i..] == src;
    assert tmp[..0] == [];
    while i < |src|
      invariant i <= |src| && tp <= 16 && curtok <= |src| && (colonp.Some? ==> colonp.value <= tp)
      invariant Scan(State6(tmp[..tp], colonp, src[curtok..], seen, val), src[i..]) == want
      invariant forall k :: tp <= k < 16 ==> tmp[k] == 0
    {
      ghost var st, rest := State6(tmp[..tp], colonp, src[curtok..], seen, val), src[i..];
      assert rest[0] == src[i] && rest[1..] == src[i + 1..];
      ScanStep(st, rest);
      var ch := src[i];
      i := i + 1;
      var digit := HexValue(ch);
      if digit.Some? {
        val := val * 16 + digit.value;
        seen := seen + 1;
        if seen > 4 {
          return None;
        }
        continue;
      }
      if ch == ':' {
        curtok := i;
        if seen == 0 {
          if colonp.Some? {
            return None;
          }
          colonp := Some(tp);
          continue;
        } else if i == |src| {
          return None;
        }
        if tp + 2 > 16 {
          return None;
        }
        tmp[tp], tmp[tp + 1] := val / 0x100 % 0x100, val % 0x100;
        tp := tp + 2;
        assert tmp[..tp] == st.out + Word(val) by { WordIs(val); }
        seen, val := 0, 0;
        continue;
      }
      if ch == '.' && tp + 4 <= 16 {
        var four := ReadAddress4(src[curtok..]);
        if four.Some? {
          Pton4Length(src[curtok..]);
          PutFour(tmp, tp, four.value);
          tp := tp + 4;
          seen := 0;
          assert want == Some(State6(tmp[..tp], colonp, src[curtok..], 0, val));
          break;
        }
      }
      return None;
    }
    ScanNothing(State6(tmp[..tp], colonp, src[curtok..], seen, val));
    assert i == |src| ==> src[i..] == [];
    assert want == Some(State6(tmp[..tp], colonp, src[curtok..], seen, val));
    r := FinishRead(tmp, tp, colonp, seen, val, src[curtok..]);
  }

  lemma ScanStep(st: State6, s: string)
    requires ColonInside(st) && s != []
    ensures Scan(st, s) ==
      if HexValue(s[0]).Some? then
        if st.seen + 1 > 4 then None
        else Scan(st.(val := st.val * 16 + HexValue(s[0]).value, seen := st.seen + 1), s[1..])
      else if s[0] == ':' then
        if st.seen == 0 then
          if st.colon.Some? then None else Scan(st.(colon := Some(|st.out|), cur := s[1..]), s[1..])
        else if s[1..] == [] || |st.out| + 2 > 16 then None
        else Scan(State6(st.out + Word(st.val), st.colon, s[1..], 0, 0), s[1..])
      else if s[0] == '.' && |st.out| + 4 <= 16 && Pton4(st.cur).Some? then Some(st.(out := st.out + Pton4(st.cur).value, seen := 0))
      else None
  {
    hide HexValue, Pton4, Word;
  }

  lemma ScanNothing(st: State6)
    requires ColonInside(st)
    ensures Scan(st, []) == Some(st)
  {
  }

  lemma WordIs(v: nat)
    ensures Word(v) == [v / 0x100 % 0x100, v % 0x100]
  {
  }

  lemma Pton4Length(s: string)
    ensures Pton4(s).Some? ==> |Pton4(s).value| == 4
  {
    Read4Length(State4([], 0, 0, false), s);
  }

  lemma {:induction false} Read4Length(st: State4, s: string)
    requires st.octets <= 4 && |st.done| == (if st.saw then st.octets - 1 else st.octets) && (st.saw || st.octets < 4)
    ensures Read4(st, s).Some? ==> |Read4(st, s).value| == 4
    decreases |s|
  {
    if s != [] && Step4(st, s[0]).Some? {
      Read4Length(Step4(st, s[0]).value, s[1..]);
    }
  }

  method PutFour(tmp: array<byte>, tp: nat, b: seq<byte>)
    requires tmp.Length == 16 && tp + 4 <= 16 && |b| == 4
    modifies tmp
    ensures tmp[..tp + 4] == old(tmp[..tp]) + b && forall k :: tp + 4 <= k < 16 ==> tmp[k] == old(tmp[k])
  {
    tmp[tp], tmp[tp + 1], tmp[tp + 2], tmp[tp + 3] := b[0], b[1], b[2], b[3];
  }

  /** The end of inet_pton6: the last word is added, and what followed the double colon is shifted to the end. */
  method FinishRead(tmp: array<byte>, tp0: nat, colonp: Option<nat>, seen: nat, val: nat, ghost cur: string) returns (r: Option<seq<byte>>)
    requires tmp.Length == 16 && tp0 <= 16 && (colonp.Some? ==> colonp.value <= tp0) && forall k :: tp0 <= k < 16 ==> tmp[k] == 0
    modifies tmp
    ensures r == old(Finish(State6(tmp[..tp0], colonp, cur, seen, val)))
  {
    hide Word, Zeros, Finish;
    FinishIs(State6(tmp[..tp0], colonp, cur, seen, val));
    var tp := tp0;
    if seen > 0 {
      if tp + 2 > 16 {
        return None;
      }
      PutWord(tmp, tp, val);
      tp := tp + 2;
    }
    ghost var out := tmp[..tp];
    if colonp.Some? {
      if tp == 16 {
        return None;
      }
      Shift(tmp, colonp.value, tp);
      ShiftIs(tmp[..], out, colonp.value);
      tp := 16;
    }
    if tp != 16 {
      return None;
    }
    assert tmp[..16] == tmp[..];
    return Some(tmp[..]);
  }

  lemma FinishIs(st: State6)
    requires ColonInside(st)
    ensures Finish(st) ==
      if st.seen > 0 && |st.out| + 2 > 16 then None
      else
        var out := if st.seen > 0 then st.out + Word(st.val) else st.out;
        if st.colon.None? then (if |out| != 16 then None else Some(out))
        else if |out| >= 16 then None
        else Some(out[..st.colon.value] + Zeros(16 - |out|) + out[st.colon.value..])
  {
    hide Word, Zeros;
  }

  /** Two bytes at the end of what was read. */
  method PutWord(tmp: array<byte>, tp: nat, val: nat)
    requires tmp.Length == 16 && tp + 2 <= 16
    modifies tmp
    ensures tmp[..tp + 2] == old(tmp[..tp]) + Word(val) && forall k :: tp + 2 <= k < 16 ==> tmp[k] == old(tmp[k])
  {
    tmp[tp], tmp[tp + 1] := val / 0x100 % 0x100, val % 0x100;
  }

  lemma ShiftIs(t: seq<byte>, out: seq<byte>, p: nat)
    requires |t| == 16 && p <= |out| < 16
    requires (forall k :: 0 <= k < p ==> t[k] == out[k]) && (forall k :: p <= k < p + 16 - |out| ==> t[k] == 0)
    requires forall k :: p + 16 - |out| <= k < 16 ==> t[k] == out[k - (16 - |out|)]
    ensures t == out[..p] + Zeros(16 - |out|) + out[p..]
  {
  }

  /** The bytes between `p` and `tp` go to the end of the buffer, one by one from the last; zeros take their place. */
  method Shift(tmp: array<byte>, p: nat, tp: nat)
    requires tmp.Length == 16 && p <= tp < 16 && forall k :: tp <= k < 16 ==> tmp[k] == 0
    modifies tmp
    ensures forall k :: 0 <= k < p ==> tmp[k] == old(tmp[k])
    ensures forall k :: p <= k < p + 16 - tp ==> tmp[k] == 0
    ensures forall k :: p + 16 - tp <= k < 16 ==> tmp[k] == old(tmp[k - (16 - tp)])
  {
    var n := tp - p;
    var i := 1;
    while i <= n
      invariant 1 <= i <= n + 1
      invariant forall k :: 0 <= k < tp - (i - 1) ==> tmp[k] == old(tmp[k])
      invariant forall k :: tp - (i - 1) <= k < 16 - (i - 1) ==> tmp[k] == 0
      invariant forall k :: 16 - (i - 1) <= k < 16 ==> tmp[k] == old(tmp[k - (16 - tp)])
    {
      tmp[16 - i] := tmp[p + n - i];
      tmp[p + n - i] := 0;
      i := i + 1;
    }
  }
}
