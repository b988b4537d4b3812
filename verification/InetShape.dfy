/** What printed IPv6 addresses look like: lower-case digits, no leading zeros, and when the end is dotted. */
module InetShape {
  import opened Bytes
  import opened InetText

  predicate Allowed(c: char) {
    c in "0123456789abcdef:."
  }

  predicate AllAllowed(s: string) {
    forall i :: 0 <= i < |s| ==> Allowed(s[i])
  }

  /** A hexadecimal digit in lower case. */
  predicate LowerHex(c: char) { '0' <= c <= '9' || 'a' <= c <= 'f' }

  lemma DigitIsLower(d: nat)
    requires d < 16
    ensures LowerHex(DigitChar(d)) && Allowed(DigitChar(d)) && (DigitChar(d) == '0' <==> d == 0) && DigitChar(d) != '.' && DigitChar(d) != ':'
    ensures d < 10 ==> '0' <= DigitChar(d) <= '9'
  {
    assert DigitChar(d) in "0123456789abcdef:.";
  }

  /** Numbers are printed in lower case and without leading zeros. */
  lemma {:induction false} HexIsLower(v: nat)
    ensures AllAllowed(Hex(v)) && (forall i :: 0 <= i < |Hex(v)| ==> LowerHex(Hex(v)[i])) && '.' !in Hex(v)
    ensures Hex(v)[0] == '0' ==> v == 0 && |Hex(v)| == 1
  {
    hide DigitChar, Allowed, LowerHex;
    if v < 16 {
      DigitIsLower(v);
    } else {
      DigitIsLower(v % 16);
      HexIsLower(v / 16);
      NoDigitLost(v);
    }
  }

  lemma NoDigitLost(v: nat)
    requires v >= 16
    ensures v / 16 > 0
  {
  }

  lemma {:induction false} DecIsLower(v: nat)
    ensures AllAllowed(Dec(v)) && (forall i :: 0 <= i < |Dec(v)| ==> '0' <= Dec(v)[i] <= '9')
    ensures Dec(v)[0] == '0' ==> v == 0 && |Dec(v)| == 1
  {
    hide DigitChar, Allowed;
    if v < 10 {
      DigitIsLower(v);
    } else {
      DigitIsLower(v % 10);
      DecIsLower(v / 10);
    }
  }

  lemma DottedIsLower(a: seq<byte>)
    requires |a| == 4
    ensures AllAllowed(Dotted(a)) && '.' in Dotted(a)
  {
    hide Dec, Allowed;
    DecIsLower(a[0]);
    DecIsLower(a[1]);
    DecIsLower(a[2]);
    DecIsLower(a[3]);
    assert Allowed('.') by { Marks(); }
    assert Dotted(a)[|Dec(a[0])|] == '.';
  }

  lemma Marks()
    ensures Allowed('.') && Allowed(':')
  {
  }

  /** Whether the text from word `i` on has the dotted form in it. */
  lemma {:induction false} FormatShape(a: seq<byte>, w: seq<nat>, r: Run, i: nat)
    requires |a| == 16 && |w| == 8
    ensures AllAllowed(Format(a, w, r, i))
    ensures '.' in Format(a, w, r, i) <==> i <= 6 && !InRun(r, 6) && IsV4(w, r)
    decreases 8 - i
  {
    hide Hex, Dotted, Allowed, IsV4, AllAllowed, InRun;
    MarksAllowed();
    if i < 8 {
      HexIsLower(w[i]);
      DottedIsLower(a[12..]);
      if i != 6 || InRun(r, i) || !IsV4(w, r) {
        FormatShape(a, w, r, i + 1);
        Both(Hex(w[i]), Format(a, w, r, i + 1));
        Both(":", Hex(w[i]) + Format(a, w, r, i + 1));
        Both(if i == r.base then ":" else "", Format(a, w, r, i + 1));
        Both("", Hex(w[i]) + Format(a, w, r, i + 1));
      } else {
        Both(Dotted(a[12..]), Trailer(r));
        Both(":", Dotted(a[12..]) + Trailer(r));
      }
    }
  }

  lemma Both(s: string, t: string)
    ensures AllAllowed(s) && AllAllowed(t) ==> AllAllowed(s + t)
    ensures '.' in s + t <==> '.' in s || '.' in t
  {
  }

  lemma MarksAllowed()
    ensures AllAllowed(":") && AllAllowed("") && '.' !in ":" && '.' !in ""
  {
  }

  /** The zero words an address begins with, and when they are the run that is shortened. */
  lemma LeadingRun(w: seq<nat>)
    requires |w| == 8
    ensures var r := Best(w);
      !InRun(r, 6) && IsV4(w, r) <==> (forall i :: 0 <= i < 5 ==> w[i] == 0) && (w[5] == 0xffff || (w[5] == 0 && w[6] != 0))
  {
    hide Best;
    BestIsLongest(w);
    var r := Best(w);
    if forall i :: 0 <= i < 5 ==> w[i] == 0 {
      assert ZeroRun(w, 0, 5);
      if w[5] == 0 {
        assert ZeroRun(w, 0, 6);
        if w[6] == 0 {
          assert ZeroRun(w, 0, 7);
        }
      }
      BeginsAtZero(w, r);
    }
  }

  lemma BeginsAtZero(w: seq<nat>, r: Run)
    requires |w| == 8 && Longest(w, 8, r) && ZeroRun(w, 0, 5)
    ensures r.base == 0 && r.len >= 5
  {
    assert 5 - 0 <= r.len;
    if r.base > 0 {
      assert r.base <= 3;
      assert ZeroRun(w, 0, r.base + r.len);
    }
  }

  /**
    Every address is printed in lower case; its last two words are dotted if and only if the first five are
    zero and the sixth is 0xffff, or is zero and the seventh is not.
   */
  lemma AddressShape(a: seq<byte>)
    requires |a| == 16
    ensures AllAllowed(Ntop6(a))
    ensures var w := Words(a);
      '.' in Ntop6(a) <==> (forall i :: 0 <= i < 5 ==> w[i] == 0) && (w[5] == 0xffff || (w[5] == 0 && w[6] != 0))
  {
    hide Format, Best, Words, IsV4, InRun, AllAllowed;
    LeadingRun(Words(a));
    FormatShape(a, Words(a), Best(Words(a)), 0);
  }

  // ---------- reading ----------

  /** Octets and the dots behind them. */
  function Octets(b: seq<byte>): string {
    if b == [] then "" else Octets(b[..|b| - 1]) + Dec(b[|b| - 1]) + "."
  }

  lemma OctetsMore(b: seq<byte>, x: byte)
    ensures Octets(b + [x]) == Octets(b) + Dec(x) + "."
  {
    assert (b + [x])[..|b|] == b;
  }

  lemma OctetsAreDotted(b: seq<byte>)
    requires |b| == 4
    ensures Dotted(b) == Octets(b[..3]) + Dec(b[3])
  {
    hide Dec;
    OctetsMore([], b[0]);
    OctetsMore([b[0]], b[1]);
    OctetsMore([b[0], b[1]], b[2]);
    assert [] + [b[0]] == [b[0]] && [b[0]] + [b[1]] == [b[0], b[1]] && [b[0], b[1]] + [b[2]] == b[..3];
  }

  /** The text that leads to a state of the reader. */
  function TextOf(st: State4): string {
    Octets(st.done) + if st.saw then Dec(st.cur) else ""
  }

  predicate Counted(st: State4) {
    st.octets == |st.done| + (if st.saw then 1 else 0) <= 4 && |st.done| <= 3 && (!st.saw ==> st.cur == 0)
  }

  lemma StepText(st: State4, ch: char)
    requires Counted(st) && Step4(st, ch).Some?
    ensures Counted(Step4(st, ch).value) && TextOf(Step4(st, ch).value) == TextOf(st) + [ch]
  {
    hide Octets, Dec, TextOf;
    if IsDec(ch) {
      DigitText(st.cur, ch);
      var d := ch as nat - '0' as nat;
      if st.saw {
        OctetGrows(st, d, ch);
      } else {
        OctetBegins(st, d, ch);
      }
    } else {
      OctetEnds(st);
    }
  }

  lemma OctetGrows(st: State4, d: nat, ch: char)
    requires st.saw && st.cur > 0 && st.cur as nat * 10 + d <= 255 && Dec(st.cur as nat * 10 + d) == Dec(st.cur) + [ch]
    ensures TextOf(st.(cur := st.cur as nat * 10 + d)) == TextOf(st) + [ch]
  {
    hide Octets, Dec;
  }

  lemma OctetBegins(st: State4, d: nat, ch: char)
    requires !st.saw && d <= 9 && Dec(d) == [ch]
    ensures TextOf(State4(st.done, d, st.octets + 1, true)) == TextOf(st) + [ch]
  {
    hide Octets, Dec;
  }

  lemma OctetEnds(st: State4)
    requires st.saw
    ensures TextOf(State4(st.done + [st.cur], 0, st.octets, false)) == TextOf(st) + "."
  {
    hide Octets, Dec;
    OctetsMore(st.done, st.cur);
  }

  lemma DigitText(cur: nat, ch: char)
    requires IsDec(ch)
    ensures var d := ch as nat - '0' as nat; Dec(d) == [ch] && (cur > 0 ==> Dec(cur * 10 + d) == Dec(cur) + [ch])
  {
    var d := ch as nat - '0' as nat;
    assert DigitChar(d) == ch;
    assert (cur * 10 + d) / 10 == cur && (cur * 10 + d) % 10 == d;
  }

  lemma {:induction false} ReadText(st: State4, s: string)
    requires Counted(st) && Read4(st, s).Some?
    ensures |Read4(st, s).value| == 4 && Dotted(Read4(st, s).value) == TextOf(st) + s
    decreases |s|
  {
    hide Octets, Dec, Dotted, Step4;
    if s == [] {
      var b := st.done + [st.cur];
      LastOctet(st);
      OctetsAreDotted(b);
      assert b[..3] == st.done;
    } else {
      StepText(st, s[0]);
      ReadText(Step4(st, s[0]).value, s[1..]);
      assert TextOf(st) + [s[0]] + s[1..] == TextOf(st) + s;
    }
  }

  lemma LastOctet(st: State4)
    requires Counted(st) && Read4(st, []).Some?
    ensures |st.done| == 3 && st.saw
  {
  }

  /** A text is read as an IPv4 address if and only if it is the text that is printed for that address. */
  lemma Read4Iff(s: string, b: seq<byte>)
    requires |b| == 4
    ensures Pton4(s) == Some(b) <==> s == Dotted(b)
  {
    hide Read4, Dotted, Octets;
    RoundTrip4(b);
    var st := State4([], 0, 0, false);
    if Pton4(s) == Some(b) {
      ReadText(st, s);
      assert TextOf(st) == "" by { NoText(); }
    }
  }

  lemma NoText()
    ensures TextOf(State4([], 0, 0, false)) == ""
  {
  }

  function UpperChar(c: char): char {
    if 'a' <= c <= 'f' then "ABCDEF"[c as nat - 'a' as nat] else c
  }

  function Upper(s: string): (t: string)
    ensures |t| == |s| && forall i :: 0 <= i < |s| ==> t[i] == UpperChar(s[i])
  {
    seq(|s|, i requires 0 <= i < |s| => UpperChar(s[i]))
  }

  lemma UpperParts(s: string)
    requires s != []
    ensures Upper(s)[0] == UpperChar(s[0]) && Upper(s)[1..] == Upper(s[1..])
  {
  }

  lemma SameDigit(c: char)
    ensures HexValue(UpperChar(c)) == HexValue(c) && (UpperChar(c) == ':' <==> c == ':') && (UpperChar(c) == '.' <==> c == '.')
  {
  }

  lemma SameStep4(st: State4, c: char)
    ensures Step4(st, UpperChar(c)) == Step4(st, c)
  {
  }

  lemma {:induction false} Same4(st: State4, s: string)
    ensures Read4(st, Upper(s)) == Read4(st, s)
    decreases |s|
  {
    hide Step4, UpperChar;
    if s != [] {
      UpperParts(s);
      SameStep4(st, s[0]);
      if Step4(st, s[0]).Some? {
        Same4(Step4(st, s[0]).value, s[1..]);
      }
    } else {
      assert Upper(s) == s;
    }
  }

  function Raised(st: State6): State6 { st.(cur := Upper(st.cur)) }

  lemma {:induction false} SameScan(st: State6, s: string)
    requires ColonInside(st)
    ensures Scan(Raised(st), Upper(s)) == match Scan(st, s) case None => None case Some(r) => Some(Raised(r))
    decreases |s|
  {
    hide Pton4, UpperChar, HexValue, Upper, Word;
    if s == [] {
      assert Upper(s) == s by { UpperNothing(); }
    } else {
      UpperParts(s);
      SameDigit(s[0]);
      var t := s[1..];
      assert Upper(t) == [] <==> t == [] by { UpperLength(t); }
      if HexValue(s[0]).Some? {
        if st.seen + 1 <= 4 {
          SameScan(st.(val := st.val * 16 + HexValue(s[0]).value, seen := st.seen + 1), t);
        }
      } else if s[0] == ':' {
        if st.seen == 0 && st.colon.None? {
          SameScan(st.(colon := Some(|st.out|), cur := t), t);
        } else if st.seen != 0 && |st.out| + 2 <= 16 {
          SameScan(State6(st.out + Word(st.val), st.colon, t, 0, 0), t);
        }
      } else {
        SameWord(st.cur);
      }
    }
  }

  lemma UpperNothing()
    ensures Upper("") == ""
  {
  }

  lemma UpperLength(t: string)
    ensures |Upper(t)| == |t|
  {
  }

  lemma SameWord(s: string)
    ensures Pton4(Upper(s)) == Pton4(s)
  {
    Same4(State4([], 0, 0, false), s);
  }

  /** The case of the digits of an IPv6 address does not matter. */
  lemma CaseDoesNotMatter(s: string)
    ensures Pton6(Upper(s)) == Pton6(s)
  {
    hide Scan, Finish;
    var t := if s != [] && s[0] == ':' then s[1..] else s;
    if s != [] {
      UpperParts(s);
      SameDigit(s[0]);
      if |s| > 1 {
        SameDigit(s[1]);
      }
    }
    SameScan(State6([], None, t, 0, 0), t);
    FinishIgnoresText(State6([], None, t, 0, 0), t);
  }

  lemma FinishIgnoresText(st: State6, s: string)
    requires ColonInside(st)
    ensures Scan(st, s).Some? ==> Finish(Raised(Scan(st, s).value)) == Finish(Scan(st, s).value)
  {
    hide Scan;
  }
}
