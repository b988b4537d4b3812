/**
  The text forms of IPv4 and IPv6 addresses (deps/uv/src/inet.c:54-298; section 2.2 of RFC 4291):
  printing, with the longest run of zero words shortened, and reading.
 */
module InetText {
  import opened Bytes

  // ---------- numbers ----------

  function DigitChar(d: nat): char
    requires d < 16
  {
    "0123456789abcdef"[d]
  }

  /** The printing of `%x`. */
  function Hex(v: nat): (s: string)
    ensures |s| > 0
  {
    if v < 16 then [DigitChar(v)] else Hex(v / 16) + [DigitChar(v % 16)]
  }

  /** The printing of `%u`. */
  function Dec(v: nat): (s: string)
    ensures |s| > 0
  {
    if v < 10 then [DigitChar(v)] else Dec(v / 10) + [DigitChar(v % 10)]
  }

  /** The value of a digit of either case, as found in the two tables of digits. */
  function HexValue(c: char): Option<nat> {
    if '0' <= c <= '9' then Some(c as nat - '0' as nat)
    else if 'a' <= c <= 'f' then Some(c as nat - 'a' as nat + 10)
    else if 'A' <= c <= 'F' then Some(c as nat - 'A' as nat + 10)
    else None
  }

  predicate IsDec(c: char) { '0' <= c <= '9' }

  // ---------- IPv4 ----------

  /** inet_ntop4. */
  function Dotted(a: seq<byte>): string
    requires |a| == 4
  {
    Dec(a[0]) + "." + Dec(a[1]) + "." + Dec(a[2]) + "." + Dec(a[3])
  }

  /** The octets read so far, the last one being `cur`; `saw` tells whether it has a digit yet. */
  datatype State4 = State4(done: seq<byte>, cur: byte, octets: nat, saw: bool)

  /** inet_pton4 from a state on. */
  function Read4(st: State4, s: string): Option<seq<byte>>
    decreases |s|
  {
    if s == [] then
      if st.octets < 4 then None else Some(st.done + [st.cur])
    else
      var st' :- Step4(st, s[0]);
      Read4(st', s[1..])
  }

  function Step4(st: State4, ch: char): Option<State4> {
    if IsDec(ch) then
      var nw := st.cur as nat * 10 + (ch as nat - '0' as nat);
      if st.saw && st.cur == 0 then None
      else if nw > 255 then None
      else if st.saw then Some(st.(cur := nw))
      else if st.octets + 1 > 4 then None
      else Some(State4(st.done, nw, st.octets + 1, true))
    else if ch == '.' && st.saw then
      if st.octets == 4 then None else Some(State4(st.done + [st.cur], 0, st.octets, false))
    else None
  }

  function Pton4(s: string): Option<seq<byte>> {
    Read4(State4([], 0, 0, false), s)
  }

  // ---------- IPv6 words and runs ----------

  function Words(a: seq<byte>): (w: seq<nat>)
    requires |a| == 16
    ensures |w| == 8 && forall i :: 0 <= i < 8 ==> w[i] < 0x1_0000 && w[i] == WordOf(a[2 * i], a[2 * i + 1])
  {
    seq(8, i requires 0 <= i < 8 => WordOf(a[2 * i], a[2 * i + 1]))
  }

  function WordOf(hi: int, lo: int): (w: nat)
    requires 0 <= hi < 0x100 && 0 <= lo < 0x100
    ensures w < 0x1_0000
  {
    hi * 0x100 + lo
  }

  /** A run of zero words; `base` is -1 when there is none. */
  datatype Run = Run(base: int, len: nat)

  function Better(best: Run, cur: Run): Run {
    if cur.base != -1 && (best.base == -1 || cur.len > best.len) then cur else best
  }

  /** The search for the longest run, from word `i` on. */
  function Search(w: seq<nat>, i: nat, best: Run, cur: Run): Run
    decreases |w| - i
  {
    if i >= |w| then Better(best, cur)
    else if w[i] == 0 then Search(w, i + 1, best, if cur.base == -1 then Run(i, 1) else Run(cur.base, cur.len + 1))
    else Search(w, i + 1, Better(best, cur), Run(-1, cur.len))
  }

  /** The run to shorten: the longest, if it has at least two words. */
  function Best(w: seq<nat>): Run {
    var r := Search(w, 0, Run(-1, 0), Run(-1, 0));
    if r.base != -1 && r.len < 2 then Run(-1, r.len) else r
  }

  ghost predicate ZeroRun(w: seq<nat>, lo: int, hi: int) {
    0 <= lo <= hi <= |w| && forall k :: lo <= k < hi ==> w[k] == 0
  }

  /** `r` is the first of the longest runs among those that end before `n`. */
  ghost predicate Longest(w: seq<nat>, n: nat, r: Run) {
    && (r.base != -1 ==> ZeroRun(w, r.base, r.base + r.len) && r.len > 0 && r.base + r.len <= n)
    && (forall lo, hi :: ZeroRun(w, lo, hi) && lo < hi <= n ==> r.base != -1 && hi - lo <= r.len && (hi - lo == r.len ==> r.base <= lo))
  }

  /** The current run ends at `i`, and cannot be extended to the left. */
  ghost predicate Current(w: seq<nat>, i: nat, cur: Run)
    requires i <= |w|
  {
    if cur.base == -1 then i == 0 || w[i - 1] != 0
    else ZeroRun(w, cur.base, i) && cur.len == i - cur.base && cur.len > 0 && (cur.base == 0 || w[cur.base - 1] != 0)
  }

  lemma {:induction false} SearchFinds(w: seq<nat>, i: nat, best: Run, cur: Run)
    requires i <= |w| && Current(w, i, cur)
    requires Longest(w, if cur.base == -1 then i else cur.base, best)
    ensures Longest(w, |w|, Search(w, i, best, cur))
    decreases |w| - i
  {
    BetterIsLongest(w, i, best, cur);
    if i < |w| {
      if w[i] == 0 {
        SearchFinds(w, i + 1, best, if cur.base == -1 then Run(i, 1) else Run(cur.base, cur.len + 1));
      } else {
        EndsHere(w, i, Better(best, cur));
        SearchFinds(w, i + 1, Better(best, cur), Run(-1, cur.len));
      }
    }
  }

  lemma BetterIsLongest(w: seq<nat>, i: nat, best: Run, cur: Run)
    requires i <= |w| && Current(w, i, cur) && Longest(w, if cur.base == -1 then i else cur.base, best)
    ensures Longest(w, i, Better(best, cur))
  {
    if cur.base != -1 {
      var r := Better(best, cur);
      forall lo, hi | ZeroRun(w, lo, hi) && lo < hi <= i
        ensures r.base != -1 && hi - lo <= r.len && (hi - lo == r.len ==> r.base <= lo)
      {
        if hi > cur.base {
          assert lo >= cur.base;
        }
      }
    }
  }

  /** No run goes past a word that is not zero. */
  lemma EndsHere(w: seq<nat>, i: nat, r: Run)
    requires i < |w| && w[i] != 0 && Longest(w, i, r)
    ensures Longest(w, i + 1, r)
  {
    forall lo, hi | ZeroRun(w, lo, hi) && lo < hi <= i + 1
      ensures hi <= i
    {
    }
  }

  /** What is shortened is the first of the longest runs of two or more zero words, if there is such a run. */
  lemma BestIsLongest(w: seq<nat>)
    ensures var r := Best(w);
      if r.base == -1 then forall lo, hi :: ZeroRun(w, lo, hi) ==> hi - lo < 2
      else r.len >= 2 && Longest(w, |w|, r)
  {
    SearchFinds(w, 0, Run(-1, 0), Run(-1, 0));
  }

  // ---------- printing ----------

  predicate InRun(r: Run, i: int) { r.base != -1 && r.base <= i < r.base + r.len }

  /** Whether the last two words are printed as an IPv4 address. */
  predicate IsV4(w: seq<nat>, r: Run)
    requires |w| == 8
  {
    r.base == 0 && (r.len == 6 || (r.len == 7 && w[7] != 1) || (r.len == 5 && w[5] == 0xffff))
  }

  function Trailer(r: Run): string {
    if r.base != -1 && r.base + r.len == 8 then ":" else ""
  }

  /** The text from word `i` on. */
  function Format(a: seq<byte>, w: seq<nat>, r: Run, i: nat): string
    requires |a| == 16 && |w| == 8
    decreases 8 - i
  {
    if i >= 8 then Trailer(r)
    else if InRun(r, i) then (if i == r.base then ":" else "") + Format(a, w, r, i + 1)
    else
      (if i != 0 then ":" else "") +
      if i == 6 && IsV4(w, r) then Dotted(a[12..]) + Trailer(r)
      else Hex(w[i]) + Format(a, w, r, i + 1)
  }

  /** inet_ntop6. */
  function Ntop6(a: seq<byte>): string
    requires |a| == 16
  {
    Format(a, Words(a), Best(Words(a)), 0)
  }

  // ---------- reading ----------

  /** The bytes so far, where the double colon was, the text of the current word, its digits and its value. */
  datatype State6 = State6(out: seq<byte>, colon: Option<nat>, cur: string, seen: nat, val: nat)

  function Word(v: nat): (b: seq<byte>)
    ensures |b| == 2
  {
    [v / 0x100 % 0x100, v % 0x100]
  }

  predicate ColonInside(st: State6) {
    st.colon.Some? ==> st.colon.value <= |st.out|
  }

  /** The loop of inet_pton6. */
  function Scan(st: State6, s: string): (r: Option<State6>)
    requires ColonInside(st)
    ensures r.Some? ==> ColonInside(r.value)
    decreases |s|
  {
    if s == [] then Some(st)
    else if HexValue(s[0]).Some? then
      if st.seen + 1 > 4 then None
      else Scan(st.(val := st.val * 16 + HexValue(s[0]).value, seen := st.seen + 1), s[1..])
    else if s[0] == ':' then
      if st.seen == 0 then
        if st.colon.Some? then None
        else Scan(st.(colon := Some(|st.out|), cur := s[1..]), s[1..])
      else if s[1..] == [] then None
      else if |st.out| + 2 > 16 then None
      else Scan(State6(st.out + Word(st.val), st.colon, s[1..], 0, 0), s[1..])
    else if s[0] == '.' && |st.out| + 4 <= 16 then
      var b :- Pton4(st.cur);
      Some(st.(out := st.out + b, seen := 0))
    else None
  }

  /** What follows the loop: the last word, and the shift of what came after the double colon. */
  function Finish(st: State6): Option<seq<byte>>
    requires ColonInside(st)
  {
    if st.seen > 0 && |st.out| + 2 > 16 then None
    else
      var out := if st.seen > 0 then st.out + Word(st.val) else st.out;
      match st.colon
      case None => if |out| != 16 then None else Some(out)
      case Some(p) =>
        if |out| >= 16 then None
        else Some(out[..p] + Zeros(16 - |out|) + out[p..])
  }

  function Zeros(n: nat): (z: seq<byte>)
    ensures |z| == n && forall i :: 0 <= i < n ==> z[i] == 0
  {
    seq(n, _ => 0)
  }

  /** inet_pton6. */
  function Pton6(s: string): Option<seq<byte>> {
    if s != [] && s[0] == ':' && (|s| == 1 || s[1] != ':') then None
    else
      var t := if s != [] && s[0] == ':' then s[1..] else s;
      var st :- Scan(State6([], None, t, 0, 0), t);
      Finish(st)
  }

  // ---------- the round trip ----------

  lemma {:induction false} HexLength(v: nat, k: nat, bound: nat)
    requires k > 0 && v < bound && (k == 1 ==> bound == 16) && (k > 1 ==> bound % 16 == 0)
    requires k == 1 || (k == 2 && bound == 0x100) || (k == 3 && bound == 0x1000) || (k == 4 && bound == 0x1_0000)
    ensures |Hex(v)| <= k
  {
    if v >= 16 {
      HexLength(v / 16, k - 1, bound / 16);
    }
  }

  lemma DigitValue(d: nat)
    requires d < 16
    ensures HexValue(DigitChar(d)) == Some(d)
    ensures d < 10 ==> IsDec(DigitChar(d)) && DigitChar(d) as nat - '0' as nat == d
  {
  }

  lemma DigitStep(st: State6, d: nat, s: string)
    requires ColonInside(st) && st.seen < 4 && s != [] && HexValue(s[0]) == Some(d)
    ensures Scan(st, s) == Scan(st.(val := st.val * 16 + d, seen := st.seen + 1), s[1..])
  {
    hide HexValue, Pton4, Word;
  }

  lemma OneDigit(st: State6, d: nat, rest: string)
    requires ColonInside(st) && d < 16 && st.seen < 4
    ensures Scan(st, [DigitChar(d)] + rest) == Scan(st.(val := st.val * 16 + d, seen := st.seen + 1), rest)
  {
    DigitValue(d);
    var s := [DigitChar(d)] + rest;
    assert s[1..] == rest && s[0] == DigitChar(d);
    hide DigitChar, HexValue, Pton4, Word;
    DigitStep(st, d, s);
  }

  lemma {:induction false} HexScan(st: State6, v: nat, rest: string)
    requires ColonInside(st) && st.seen == 0 && st.val == 0 && |Hex(v)| <= 4
    ensures Scan(st, Hex(v) + rest) == Scan(st.(seen := |Hex(v)|, val := v), rest)
  {
    hide Scan, DigitChar, HexValue;
    if v < 16 {
      OneDigit(st, v, rest);
    } else {
      var d := [DigitChar(v % 16)];
      HexScan(st, v / 16, d + rest);
      assert Hex(v) + rest == Hex(v / 16) + (d + rest);
      OneDigit(st.(seen := |Hex(v / 16)|, val := v / 16), v % 16, rest);
    }
  }

  /** Decimal digits, read as hexadecimal ones. */
  function DecAsHex(v: nat): nat {
    if v < 10 then v else DecAsHex(v / 10) * 16 + v % 10
  }

  lemma {:induction false} DecScan(st: State6, v: nat, rest: string)
    requires ColonInside(st) && st.seen == 0 && st.val == 0 && |Dec(v)| <= 4
    ensures Scan(st, Dec(v) + rest) == Scan(st.(seen := |Dec(v)|, val := DecAsHex(v)), rest)
  {
    hide Scan, DigitChar, HexValue;
    if v < 10 {
      OneDigit(st, v, rest);
    } else {
      var d := [DigitChar(v % 10)];
      DecScan(st, v / 10, d + rest);
      assert Dec(v) + rest == Dec(v / 10) + (d + rest);
      OneDigit(st.(seen := |Dec(v / 10)|, val := DecAsHex(v / 10)), v % 10, rest);
    }
  }

  lemma DecLength(v: nat)
    requires v <= 255
    ensures |Dec(v)| <= 3
  {
    if v >= 10 {
      assert |Dec(v)| == |Dec(v / 10)| + 1;
      if v >= 100 {
        assert |Dec(v / 10)| == |Dec(v / 10 / 10)| + 1;
      }
    }
  }

  lemma ReadStep4(st: State4, s: string)
    requires s != []
    ensures Read4(st, s) == match Step4(st, s[0]) case None => None case Some(st') => Read4(st', s[1..])
  {
    hide Step4;
  }

  lemma OneDigit4(st: State4, d: nat, rest: string)
    requires d < 10 && !(st.saw && st.cur == 0) && (st.cur as nat) * 10 + d <= 255 && (!st.saw ==> st.octets < 4)
    ensures Read4(st, [DigitChar(d)] + rest)
         == Read4(State4(st.done, (st.cur as nat) * 10 + d, if st.saw then st.octets else st.octets + 1, true), rest)
  {
    hide DigitChar, Read4;
    DigitValue(d);
    var s := [DigitChar(d)] + rest;
    assert s[1..] == rest && s[0] == DigitChar(d);
    ReadStep4(st, s);
  }

  lemma {:induction false} Dec4(st: State4, v: nat, rest: string)
    requires !st.saw && st.cur == 0 && st.octets < 4 && v <= 255
    ensures Read4(st, Dec(v) + rest) == Read4(State4(st.done, v, st.octets + 1, true), rest)
  {
    hide Read4, DigitChar;
    if v < 10 {
      OneDigit4(st, v, rest);
    } else {
      var d := [DigitChar(v % 10)];
      Dec4(st, v / 10, d + rest);
      assert Dec(v) + rest == Dec(v / 10) + (d + rest);
      OneDigit4(State4(st.done, v / 10, st.octets + 1, true), v % 10, rest);
    }
  }

  /** An octet and the point after it. */
  lemma Octet(done: seq<byte>, n: nat, v: byte, rest: string)
    requires n < 3
    ensures Read4(State4(done, 0, n, false), Dec(v) + "." + rest) == Read4(State4(done + [v], 0, n + 1, false), rest)
  {
    hide Dec;
    Dec4(State4(done, 0, n, false), v, "." + rest);
    assert Dec(v) + "." + rest == Dec(v) + ("." + rest);
    assert ("." + rest)[1..] == rest;
  }

  /** inet_pton4 reads what inet_ntop4 prints. */
  lemma RoundTrip4(a: seq<byte>)
    requires |a| == 4
    ensures Pton4(Dotted(a)) == Some(a)
  {
    hide Dec;
    var s3 := Dec(a[3]);
    var s2 := Dec(a[2]) + "." + s3;
    var s1 := Dec(a[1]) + "." + s2;
    assert Dotted(a) == Dec(a[0]) + "." + s1;
    Octet([], 0, a[0], s1);
    Octet([a[0]], 1, a[1], s2);
    Octet([a[0], a[1]], 2, a[2], s3);
    Dec4(State4([a[0], a[1], a[2]], 0, 3, false), a[3], "");
    assert s3 + "" == s3;
    assert [a[0]] == [] + [a[0]] && [a[0], a[1]] == [a[0]] + [a[1]] && [a[0], a[1], a[2]] == [a[0], a[1]] + [a[2]];
    assert a == [a[0], a[1], a[2]] + [a[3]];
    assert Read4(State4([a[0], a[1], a[2]], a[3], 4, true), "") == Some(a);
  }

  /** The text of the word `i` and all that follows, without the colon before it. */
  function Rest(a: seq<byte>, w: seq<nat>, r: Run, i: nat): string
    requires |a| == 16 && |w| == 8
  {
    if i >= 8 then ""
    else if i == 6 && IsV4(w, r) then Dotted(a[12..]) + Trailer(r)
    else Hex(w[i]) + Format(a, w, r, i + 1)
  }

  ghost predicate GoodRun(w: seq<nat>, r: Run) {
    |w| == 8 && (r.base == -1 || (r.len >= 2 && ZeroRun(w, r.base, r.base + r.len)))
  }

  lemma {:induction false} InRunText(a: seq<byte>, w: seq<nat>, r: Run, i: nat)
    requires |a| == 16 && GoodRun(w, r) && r.base != -1 && r.base < i <= r.base + r.len
    ensures Format(a, w, r, i) == Format(a, w, r, r.base + r.len)
    decreases 8 - i
  {
    if i < r.base + r.len {
      InRunText(a, w, r, i + 1);
    }
  }

  /** A run is printed as two colons, the second of which precedes what follows it, if anything. */
  lemma RunText(a: seq<byte>, w: seq<nat>, r: Run)
    requires |a| == 16 && GoodRun(w, r) && r.base != -1
    ensures Format(a, w, r, r.base) == "::" + Rest(a, w, r, r.base + r.len)
  {
    hide Hex, Dotted, IsV4;
    InRunText(a, w, r, r.base + 1);
  }

  /** The bytes read, including those of a word still pending. */
  function Full(st: State6): seq<byte> {
    if st.seen > 0 then st.out + Word(st.val) else st.out
  }

  lemma WordBytes(a: seq<byte>, i: nat)
    requires |a| == 16 && i < 8
    ensures Word(Words(a)[i]) == a[2 * i..2 * i + 2]
  {
  }

  /** A last part that is an IPv4 address. */
  lemma ScanDotted(st: State6, b: seq<byte>)
    requires ColonInside(st) && st.seen == 0 && st.val == 0 && |b| == 4 && st.cur == Dotted(b) && |st.out| + 4 <= 16
    ensures Scan(st, Dotted(b)) == Some(st.(out := st.out + b, val := DecAsHex(b[0])))
  {
    var rest := "." + Dec(b[1]) + "." + Dec(b[2]) + "." + Dec(b[3]);
    assert Dotted(b) == Dec(b[0]) + rest;
    DecLength(b[0]);
    DecScan(st, b[0], rest);
    RoundTrip4(b);
    hide Dec, DecAsHex, Pton4, Dotted, Scan;
    var st1 := st.(seen := |Dec(b[0])|, val := DecAsHex(b[0]));
    ScanDot(st1, rest, b);
  }

  /** A dot hands the part over to the reader of IPv4 addresses. */
  lemma ScanDot(st: State6, rest: string, b: seq<byte>)
    requires rest != [] && rest[0] == '.' && |b| == 4 && Pton4(st.cur) == Some(b) && |st.out| + 4 <= 16 && ColonInside(st)
    ensures Scan(st, rest) == Some(st.(out := st.out + b, seen := 0))
  {
    hide Pton4, Word;
  }

  /** A colon after a word, with more to come. */
  lemma ScanColon(st: State6, x: string)
    requires ColonInside(st) && st.seen > 0 && x != [] && |st.out| + 2 <= 16
    ensures Scan(st, ":" + x) == Scan(State6(st.out + Word(st.val), st.colon, x, 0, 0), x)
  {
    assert (":" + x)[1..] == x;
  }

  /** The double colon after a word. */
  lemma ScanDouble(st: State6, x: string)
    requires st.colon.None? && st.seen > 0 && |st.out| + 2 <= 16
    ensures Scan(st, "::" + x) == Scan(State6(st.out + Word(st.val), Some(|st.out| + 2), x, 0, 0), x)
  {
    assert "::" + x == ":" + (":" + x);
    ScanColon(st, ":" + x);
    assert (":" + x)[1..] == x;
  }

  /** What reading from word `i` on is to give. */
  ghost predicate ReadsBack(a: seq<byte>, r: Run, i: nat, st: State6, o: Option<State6>)
    requires |a| == 16 && i <= 8 && (r.base == -1 || (0 <= r.base && r.base + r.len <= 8))
  {
    && o.Some? && (o.value.seen > 0 ==> |o.value.out| + 2 <= 16)
    && (if r.base > i then
          && o.value.colon == Some(|st.out| + 2 * (r.base - i))
          && Full(o.value) == st.out + a[2 * i..2 * r.base] + a[2 * (r.base + r.len)..]
        else o.value.colon == st.colon && Full(o.value) == st.out + a[2 * i..])
  }

  /** From the word `i` on the text is read back: the bytes that follow, without those of a run still to come. */
  lemma {:induction false} RestScan(a: seq<byte>, r: Run, i: nat, st: State6)
    requires |a| == 16 && i < 8 && GoodRun(Words(a), r) && (r.base == -1 || i < r.base || r.base + r.len <= i)
    requires ColonInside(st) && st.seen == 0 && st.val == 0 && st.cur == Rest(a, Words(a), r, i) && |st.out| + 2 * (8 - i) <= 16
    requires r.base > i ==> st.colon.None?
    ensures ReadsBack(a, r, i, st, Scan(st, Rest(a, Words(a), r, i)))
    decreases 8 - i, 1
  {
    hide Scan, Hex, Dotted, Words, Word;
    var w := Words(a);
    if i == 6 && IsV4(w, r) {
      assert Dotted(a[12..]) + Trailer(r) == Dotted(a[12..]);
      ScanDotted(st, a[12..]);
    } else {
      HexLength(w[i], 4, 0x1_0000);
      HexScan(st, w[i], Format(a, w, r, i + 1));
      WordBytes(a, i);
      var st1 := st.(seen := |Hex(w[i])|, val := w[i]);
      if i + 1 == 8 {
        assert Format(a, w, r, 8) == "";
        ScanEnd(st1);
      } else {
        MoreScan(a, r, i, st, st1);
      }
    }
  }

  lemma ScanEnd(st: State6)
    requires ColonInside(st)
    ensures Scan(st, "") == Some(st)
  {
  }

  /** A word was read, and another one, or a run, follows. */
  lemma {:induction false} MoreScan(a: seq<byte>, r: Run, i: nat, st: State6, st1: State6)
    requires |a| == 16 && i + 1 < 8 && GoodRun(Words(a), r) && (r.base == -1 || i < r.base || r.base + r.len <= i)
    requires ColonInside(st) && |st.out| + 2 * (8 - i) <= 16 && (r.base > i ==> st.colon.None?)
    requires st1.seen > 0 && st1.out == st.out && st1.colon == st.colon && st1.val == Words(a)[i]
    ensures ReadsBack(a, r, i, st, Scan(st1, Format(a, Words(a), r, i + 1)))
    decreases 8 - i, 0
  {
    hide Scan, Hex, Dotted, Words, Word, ReadsBack, Format, Rest, IsV4;
    var w := Words(a);
    WordBytes(a, i);
    var out := st.out + a[2 * i..2 * i + 2];
    if r.base == i + 1 {
      RunText(a, w, r);
      var x := Rest(a, w, r, r.base + r.len);
      ScanDouble(st1, x);
      var st2 := State6(out, Some(|out|), x, 0, 0);
      if r.base + r.len == 8 {
        NothingAfter(a, r, st2);
      } else {
        RestScan(a, r, r.base + r.len, st2);
      }
      BackOverRun(a, r, i, st, st2, Scan(st2, x));
    } else {
      var x := Rest(a, w, r, i + 1);
      RestNotEmpty(a, w, r, i + 1);
      ScanColon(st1, x);
      var st2 := State6(out, st.colon, x, 0, 0);
      RestScan(a, r, i + 1, st2);
      BackOverWord(a, r, i, st, st2, Scan(st2, x));
    }
  }

  lemma NothingAfter(a: seq<byte>, r: Run, st: State6)
    requires |a| == 16 && ColonInside(st) && st.seen == 0 && r.base >= 0 && r.base + r.len == 8
    ensures Rest(a, Words(a), r, 8) == "" && ReadsBack(a, r, 8, st, Scan(st, ""))
  {
    assert st.out + a[2 * 8..] == st.out;
  }

  lemma BackOverRun(a: seq<byte>, r: Run, i: nat, st: State6, st2: State6, o: Option<State6>)
    requires |a| == 16 && r.base == i + 1 && r.base + r.len <= 8 && r.len >= 2
    requires st2.out == st.out + a[2 * i..2 * i + 2] && st2.colon == Some(|st2.out|) && ReadsBack(a, r, r.base + r.len, st2, o)
    ensures ReadsBack(a, r, i, st, o)
  {
  }

  lemma BackOverWord(a: seq<byte>, r: Run, i: nat, st: State6, st2: State6, o: Option<State6>)
    requires |a| == 16 && i < 8 && (r.base == -1 || (0 <= r.base && r.base + r.len <= 8)) && (r.base == -1 || r.base > i + 1 || r.base <= i)
    requires st2.out == st.out + a[2 * i..2 * i + 2] && st2.colon == st.colon && ReadsBack(a, r, i + 1, st2, o)
    ensures ReadsBack(a, r, i, st, o)
  {
    var two := a[2 * i..2 * i + 2];
    assert two + a[2 * (i + 1)..] == a[2 * i..];
    assert st.out + two + a[2 * (i + 1)..] == st.out + (two + a[2 * (i + 1)..]);
    if r.base > i {
      assert two + a[2 * (i + 1)..2 * r.base] == a[2 * i..2 * r.base];
      assert st.out + two + a[2 * (i + 1)..2 * r.base] == st.out + (two + a[2 * (i + 1)..2 * r.base]);
    }
  }

  lemma RestNotEmpty(a: seq<byte>, w: seq<nat>, r: Run, i: nat)
    requires |a| == 16 && |w| == 8 && 0 < i < 8 && !InRun(r, i)
    ensures Rest(a, w, r, i) != "" && Format(a, w, r, i) == ":" + Rest(a, w, r, i)
  {
  }

  /** Putting the zeros back where the double colon was. */
  lemma Refilled(a: seq<byte>, r: Run, st: State6)
    requires |a| == 16 && GoodRun(Words(a), r) && r.base != -1 && ColonInside(st)
    requires st.colon == Some(2 * r.base) && Full(st) == a[..2 * r.base] + a[2 * (r.base + r.len)..] && (st.seen > 0 ==> |st.out| + 2 <= 16)
    ensures Finish(st) == Some(a)
  {
    var lo, hi := 2 * r.base, 2 * (r.base + r.len);
    RunBytes(a, r);
    hide Words, GoodRun;
    ZerosBack(a, lo, hi, Full(st));
  }

  lemma ZerosBack(a: seq<byte>, lo: nat, hi: nat, out: seq<byte>)
    requires lo <= hi <= |a| && out == a[..lo] + a[hi..] && forall i :: lo <= i < hi ==> a[i] == 0
    ensures |out| == |a| - (hi - lo) && out[..lo] + Zeros(hi - lo) + out[lo..] == a
  {
    assert out[..lo] == a[..lo] && out[lo..] == a[hi..];
    assert a[lo..hi] == Zeros(hi - lo);
    assert a == a[..lo] + a[lo..hi] + a[hi..];
  }

  lemma RunBytes(a: seq<byte>, r: Run)
    requires |a| == 16 && GoodRun(Words(a), r) && r.base != -1
    ensures 0 <= r.base && r.base + r.len <= 8 && r.len >= 2
    ensures forall i :: 2 * r.base <= i < 2 * (r.base + r.len) ==> a[i] == 0
  {
    hide Words, WordOf;
    var w := Words(a);
    assert r.len >= 2 && ZeroRun(w, r.base, r.base + r.len);
    RunWords(a, w, r.base, r.base + r.len);
  }

  lemma RunWords(a: seq<byte>, w: seq<nat>, lo: nat, hi: nat)
    requires |a| == 16 && |w| == 8 && forall i :: 0 <= i < 8 ==> w[i] == WordOf(a[2 * i], a[2 * i + 1])
    requires ZeroRun(w, lo, hi)
    ensures forall i :: 2 * lo <= i < 2 * hi ==> a[i] == 0
  {
    hide WordOf;
    forall i | 2 * lo <= i < 2 * hi
      ensures a[i] == 0
    {
      var k := i / 2;
      assert w[k] == 0;
      ZeroWord(a[2 * k], a[2 * k + 1]);
    }
  }

  lemma ZeroWord(hi: byte, lo: byte)
    requires WordOf(hi, lo) == 0
    ensures hi == 0 && lo == 0
  {
  }

  lemma HexStartsNoColon(v: nat, rest: string)
    ensures (Hex(v) + rest)[0] != ':'
  {
    if v >= 16 {
      HexStartsNoColon(v / 16, [DigitChar(v % 16)] + rest);
      assert Hex(v) + rest == Hex(v / 16) + ([DigitChar(v % 16)] + rest);
    }
  }

  lemma BestIsGood(w: seq<nat>)
    requires |w| == 8
    ensures GoodRun(w, Best(w))
  {
    hide Best;
    BestIsLongest(w);
  }

  lemma FirstWord(a: seq<byte>, w: seq<nat>, r: Run)
    requires |a| == 16 && |w| == 8 && (r.base == -1 || r.base > 0)
    ensures Format(a, w, r, 0) == Rest(a, w, r, 0) == Hex(w[0]) + Format(a, w, r, 1)
  {
    hide Hex;
  }

  /** For every 128-bit address, inet_pton6 reads from inet_ntop6's text the same 16 bytes. */
  lemma RoundTrip6(a: seq<byte>)
    requires |a| == 16
    ensures Pton6(Ntop6(a)) == Some(a)
  {
    hide Scan, Finish, Hex, Dotted, Words, Best, Format, Rest, IsV4, Longest;
    var w := Words(a);
    var r := Best(w);
    BestIsGood(w);
    var s := Ntop6(a);
    if r.base == 0 {
      RunText(a, w, r);
      LeadingRun(a, r, s);
    } else {
      HexStartsNoColon(w[0], Format(a, w, r, 1));
      FirstWord(a, w, r);
      var st := State6([], None, s, 0, 0);
      RestScan(a, r, 0, st);
      var o := Scan(st, s).value;
      if r.base == -1 {
        assert Finish(o) == Some(a) by { PlainFinish(o, a); }
      } else {
        assert [] + a[2 * 0..2 * r.base] == a[..2 * r.base];
        Refilled(a, r, o);
      }
    }
  }

  lemma PlainFinish(o: State6, a: seq<byte>)
    requires |a| == 16 && o.colon.None? && Full(o) == [] + a[2 * 0..] && (o.seen > 0 ==> |o.out| + 2 <= 16)
    ensures Finish(o) == Some(a)
  {
    assert [] + a[2 * 0..] == a;
  }

  /** The text starts with a double colon. */
  lemma LeadingRun(a: seq<byte>, r: Run, s: string)
    requires |a| == 16 && GoodRun(Words(a), r) && r.base == 0 && s == "::" + Rest(a, Words(a), r, r.len)
    ensures Pton6(s) == Some(a)
  {
    hide Finish, Hex, Dotted, Words;
    var x := Rest(a, Words(a), r, r.len);
    var t := ":" + x;
    assert s[1..] == t && t[1..] == x;
    var st := State6([], Some(0), x, 0, 0);
    assert Scan(State6([], None, t, 0, 0), t) == Scan(st, x);
    hide Scan;
    if r.len == 8 {
      ScanEnd(st);
      Refilled(a, r, st);
    } else {
      RestScan(a, r, r.len, st);
      Refilled(a, r, Scan(st, x).value);
    }
  }

  // ---------- the buffer ----------

  lemma DottedLength(b: seq<byte>)
    requires |b| == 4
    ensures |Dotted(b)| <= 15
  {
    hide Dec;
    DecLength(b[0]);
    DecLength(b[1]);
    DecLength(b[2]);
    DecLength(b[3]);
  }

  lemma {:induction false} FormatLength(a: seq<byte>, r: Run, i: nat)
    requires |a| == 16 && i <= 8 && (i > 6 || !IsV4(Words(a), r))
    ensures |Format(a, Words(a), r, i)| <= 5 * (8 - i) + 1
    decreases 8 - i
  {
    hide Hex, Words, Dotted;
    if i < 8 {
      HexLength(Words(a)[i], 4, 0x1_0000);
      FormatLength(a, r, i + 1);
    }
  }

  /** The text of any address, with its terminator, fits the buffer of 46 characters it is made in. */
  lemma FitsBuffer(a: seq<byte>)
    requires |a| == 16
    ensures |Ntop6(a)| + 1 <= |"ffff:ffff:ffff:ffff:ffff:ffff:255.255.255.255"| + 1
  {
    hide Hex, Words, Dotted, Best;
    var w := Words(a);
    var r := Best(w);
    BestIsLongest(w);
    if IsV4(w, r) {
      RunText(a, w, r);
      DottedLength(a[12..]);
      HexLength(w[r.len], 4, 0x1_0000);
      FormatLength(a, r, 8);
    } else {
      FormatLength(a, r, 0);
    }
  }
}
