/**
  The JSON printer as it works (deps/jansson/src/dump.c:42-404): text goes to a buffer through a
  callback, and a string is scanned for the longest stretches that need no escape.
 */
module JsonPrinter {
  import opened Bytes
  import opened JsonValues
  import opened JsonDump
  import Utf8

  /** One more code point at the front of a text to dump. */
  lemma DumpHead(s: Text, fl: Flags)
    requires s != []
    ensures match Utf8.Head(s)
      case None => DumpText(s, fl) == None
      case Some(h) =>
        && 0 < h.1 <= |s| && h.0 <= 0x10FFFF
        && DumpText(s, fl) == Prefixed(Piece(h.0, s[..h.1], fl), DumpText(s[h.1..], fl))
  {
    if Utf8.Head(s).Some? {
      Utf8.HeadIsEncoded(s);
    }
  }

  function Prefixed(done: seq<byte>, r: Option<seq<byte>>): Option<seq<byte>> {
    match r case None => None case Some(s) => Some(done + s)
  }

  class Printer {
    const fl: Flags
    var out: seq<byte>

    constructor (fl: Flags)
      ensures this.fl == fl && out == []
    {
      this.fl, out := fl, [];
    }

    /** The callback: a stretch of text is appended. */
    method Append(text: seq<byte>)
      modifies this
      ensures out == old(out) + text
    {
      out := out + text;
    }

    /** dump_indent. */
    method PrintIndent(depth: nat, space: bool)
      modifies this
      ensures out == old(out) + Indent(fl, depth, space)
    {
      if fl.indent > 0 {
        Append([10]);
        ghost var start := out;
        var i := 0;
        while i < depth
          invariant i <= depth && out == start + Repeat(32, i * fl.indent)
        {
          MoreSpace(i, fl.indent);
          Append(Repeat(32, fl.indent));
          i := i + 1;
        }
      } else if space && !fl.compact {
        Append([32]);
      }
    }

    /** The inner loop of dump_string: on from `pos` to the first code point that needs an escape, or to the end. */
    method Stretch(s: Text, str: nat) returns (pos: nat, end: Option<nat>, codepoint: nat)
      requires str <= |s|
      ensures str <= pos <= |s|
      ensures DumpText(s[str..], fl) == Prefixed(s[str..pos], DumpText(s[pos..], fl))
      ensures end.None? ==> DumpText(s[pos..], fl).None?
      ensures end == Some(pos) ==> pos == |s|
      ensures end.Some? && end.value != pos ==>
        && pos < end.value <= |s| && codepoint <= 0x10FFFF && NeedsEscape(codepoint, fl)
        && DumpText(s[pos..], fl) == Prefixed(Escape(codepoint), DumpText(s[end.value..], fl))
    {
      hide DumpText, Escape, NeedsEscape;
      pos, end, codepoint := str, Some(str), 0;
      assert s[str..pos] == [];
      PrefixedNothing(DumpText(s[str..], fl));
      while pos < |s|
        invariant str <= pos <= |s| && end == Some(pos)
        invariant DumpText(s[str..], fl) == Prefixed(s[str..pos], DumpText(s[pos..], fl))
        decreases |s| - pos
      {
        DumpHead(s[pos..], fl);
        var h := Utf8.Head(s[pos..]);
        if h.None? {
          end := None;
          return;
        }
        codepoint := h.value.0;
        end := Some(pos + h.value.1);
        Slices(s, str, pos, h.value.1);
        if NeedsEscape(codepoint, fl) {
          return;
        }
        PrefixedTwice(s[str..pos], s[pos..end.value], DumpText(s[end.value..], fl));
        pos := end.value;
      }
    }

    /** dump_string. */
    method PrintString(s: Text) returns (ok: bool)
      modifies this
      ensures ok == Utf8.IsUtf8(s)
      ensures ok ==> out == old(out) + Quoted(s, fl)
    {
      hide DumpText, Escape, NeedsEscape, Prefixed, Utf8.IsUtf8;
      Append([34]);
      ghost var start, done := out, [];
      var str := 0;
      assert s[0..] == s;
      PrefixedNothing(DumpText(s, fl));
      while true
        invariant str <= |s| && out == start + done
        invariant DumpText(s, fl) == Prefixed(done, DumpText(s[str..], fl))
        decreases |s| - str
      {
        var pos, end, codepoint := Stretch(s, str);
        PrefixedTwice(done, s[str..pos], DumpText(s[pos..], fl));
        done := done + s[str..pos];
        if end.None? {
          PrefixedNone(done);
          return false;
        }
        Append(s[str..pos]);
        if end.value == pos {
          break;
        }
        Append(Escape(codepoint));
        PrefixedTwice(done, Escape(codepoint), DumpText(s[end.value..], fl));
        done := done + Escape(codepoint);
        str := end.value;
      }
      EndOfText(s, done, fl);
      Append([34]);
      return true;
    }

    /** do_dump: nothing fails on a plain value. */
    method Print(v: Json, depth: nat) returns (ok: bool)
      requires Plain(v)
      modifies this
      ensures ok && out == old(out) + Dump(v, fl, depth)
      decreases v, 1
    {
      hide DumpText, Quoted, Indent, Digits, DumpItems, DumpEntries;
      ok := true;
      match v {
        case Null => Append([110, 117, 108, 108]);
        case True => Append([116, 114, 117, 101]);
        case False => Append([102, 97, 108, 115, 101]);
        case Int(i) => Append(IntText(i));
        case Str(t) => ok := PrintString(t);
        case Arr(vs) => PrintArray(vs, depth);
        case Obj(es) => PrintObject(es, depth);
      }
    }

    method PrintArray(vs: seq<Json>, depth: nat)
      requires forall i :: 0 <= i < |vs| ==> Plain(vs[i])
      modifies this
      ensures out == old(out) + if vs == [] then [91, 93] else [91] + Indent(fl, depth + 1, false) + DumpItems(vs, fl, depth) + [93]
      decreases vs, 1
    {
      hide DumpItems, Indent, Plain;
      Append([91]);
      if vs == [] {
        Append([93]);
        return;
      }
      PrintIndent(depth + 1, false);
      PrintItems(vs, depth);
      Append([93]);
    }

    method PrintObject(es: seq<Entry>, depth: nat)
      requires forall i :: 0 <= i < |es| ==> PlainEntry(es[i])
      modifies this
      ensures out == old(out) + if es == [] then [123, 125] else [123] + Indent(fl, depth + 1, false) + DumpEntries(es, fl, depth) + [125]
      decreases es, 1
    {
      hide DumpEntries, Indent, PlainEntry;
      Append([123]);
      if es == [] {
        Append([125]);
        return;
      }
      PrintIndent(depth + 1, false);
      PrintEntries(es, depth);
      Append([125]);
    }

    /** The loop over the elements of an array. */
    method PrintItems(vs: seq<Json>, depth: nat)
      requires vs != [] && forall i :: 0 <= i < |vs| ==> Plain(vs[i])
      modifies this
      ensures out == old(out) + DumpItems(vs, fl, depth)
      decreases vs, 0
    {
      hide Dump, DumpItems, After, Plain;
      ghost var start, done := out, [];
      var i, n := 0, |vs|;
      assert vs[0..] == vs;
      while i < n
        invariant i <= n && out == start + done
        invariant if i < n then DumpItems(vs, fl, depth) == done + DumpItems(vs[i..], fl, depth) else DumpItems(vs, fl, depth) == done
      {
        ItemsStep(vs, fl, depth, i);
        var _ := Print(vs[i], depth + 1);
        PrintAfter(depth, i == n - 1);
        Joined(start, done, Dump(vs[i], fl, depth + 1), After(fl, depth, i == n - 1), if i == n - 1 then [] else DumpItems(vs[i + 1..], fl, depth));
        done := done + Dump(vs[i], fl, depth + 1) + After(fl, depth, i == n - 1);
        i := i + 1;
      }
    }

    /** The loop over the entries of an object. */
    method PrintEntries(es: seq<Entry>, depth: nat)
      requires es != [] && forall i :: 0 <= i < |es| ==> PlainEntry(es[i])
      modifies this
      ensures out == old(out) + DumpEntries(es, fl, depth)
      decreases es, 0
    {
      hide DumpEntry, DumpEntries, After, PlainEntry;
      ghost var start, done := out, [];
      var i, n := 0, |es|;
      assert es[0..] == es;
      while i < n
        invariant i <= n && out == start + done
        invariant if i < n then DumpEntries(es, fl, depth) == done + DumpEntries(es[i..], fl, depth) else DumpEntries(es, fl, depth) == done
      {
        EntriesStep(es, fl, depth, i);
        PrintEntry(es[i], depth);
        PrintAfter(depth, i == n - 1);
        Joined(start, done, DumpEntry(es[i], fl, depth), After(fl, depth, i == n - 1), if i == n - 1 then [] else DumpEntries(es[i + 1..], fl, depth));
        done := done + DumpEntry(es[i], fl, depth) + After(fl, depth, i == n - 1);
        i := i + 1;
      }
    }

    /** What follows an element: a comma, or the end of the line before the closing bracket. */
    method PrintAfter(depth: nat, last: bool)
      modifies this
      ensures out == old(out) + After(fl, depth, last)
    {
      hide Indent;
      if last {
        PrintIndent(depth, false);
      } else {
        Append([44]);
        PrintIndent(depth + 1, true);
      }
    }

    method PrintEntry(e: Entry, depth: nat)
      requires PlainEntry(e)
      modifies this
      ensures out == old(out) + DumpEntry(e, fl, depth)
      decreases e, 0
    {
      hide Quoted, Dump, DumpText;
      var _ := PrintString(e.key);
      Append(if fl.compact then [58] else [58, 32]);
      var _ := Print(e.value, depth + 1);
    }
  }

  function After(fl: Flags, depth: nat, last: bool): seq<byte> {
    if last then Indent(fl, depth, false) else [44] + Indent(fl, depth + 1, true)
  }

  lemma Joined(start: seq<byte>, done: seq<byte>, a: seq<byte>, b: seq<byte>, rest: seq<byte>)
    ensures start + done + a + b == start + (done + a + b)
    ensures done + (a + b + rest) == done + a + b + rest
    ensures rest == [] ==> done + (a + b + rest) == done + a + b
  {
  }

  lemma ItemsStep(vs: seq<Json>, fl: Flags, depth: nat, i: nat)
    requires i < |vs| && forall i :: 0 <= i < |vs| ==> Plain(vs[i])
    ensures DumpItems(vs[i..], fl, depth) == Dump(vs[i], fl, depth + 1) + After(fl, depth, i == |vs| - 1)
      + if i == |vs| - 1 then [] else DumpItems(vs[i + 1..], fl, depth)
  {
    hide Dump, Plain, Indent;
    assert vs[i..][1..] == vs[i + 1..];
  }

  lemma EntriesStep(es: seq<Entry>, fl: Flags, depth: nat, i: nat)
    requires i < |es| && forall i :: 0 <= i < |es| ==> PlainEntry(es[i])
    ensures DumpEntries(es[i..], fl, depth) == DumpEntry(es[i], fl, depth) + After(fl, depth, i == |es| - 1)
      + if i == |es| - 1 then [] else DumpEntries(es[i + 1..], fl, depth)
  {
    hide DumpEntry, PlainEntry, Indent;
    assert es[i..][1..] == es[i + 1..];
  }

  lemma PrefixedNone(done: seq<byte>)
    ensures Prefixed(done, None) == None
  {
  }

  lemma PrefixedNothing(r: Option<seq<byte>>)
    ensures Prefixed([], r) == r
  {
    assert r.Some? ==> [] + r.value == r.value;
  }

  lemma Slices(s: Text, i: nat, j: nat, n: nat)
    requires i <= j && j + n <= |s|
    ensures s[j..][..n] == s[j..j + n] && s[j..][n..] == s[j + n..] && s[i..j] + s[j..j + n] == s[i..j + n]
  {
  }

  lemma PrefixedTwice(a: seq<byte>, b: seq<byte>, r: Option<seq<byte>>)
    ensures Prefixed(a, Prefixed(b, r)) == Prefixed(a + b, r)
  {
    if r.Some? {
      assert a + (b + r.value) == a + b + r.value;
    }
  }

  lemma EndOfText(s: Text, done: seq<byte>, fl: Flags)
    ensures s[|s|..] == [] && Prefixed(done, DumpText(s[|s|..], fl)) == Some(done)
  {
    assert DumpText([], fl) == Some([]);
    assert done + [] == done;
  }

  lemma MoreSpace(i: nat, n: nat)
    ensures Repeat(32, i * n) + Repeat(32, n) == Repeat(32, (i + 1) * n)
  {
    assert (i + 1) * n == i * n + n;
  }
}
