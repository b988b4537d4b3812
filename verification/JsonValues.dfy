/**
  JSON values as jansson holds them. An object is the list of its entries in iteration order; keys
  are distinct. Reals are opaque: the 4 or 8 bytes of an IEEE single or double.
 */
module JsonValues {
  import opened Bytes

  datatype Json =
    | Null
    | True
    | False
    | Int(i: int)
    | Single(single: seq<byte>)
    | Double(double: seq<byte>)
    | Str(text: Text)
    | Arr(items: seq<Json>)
    | Obj(entries: seq<Entry>)

  datatype Entry = Entry(key: Text, value: Json)

  predicate Has(es: seq<Entry>, k: Text) {
    exists i :: 0 <= i < |es| && es[i].key == k
  }

  predicate DistinctKeys(es: seq<Entry>) {
    forall i, j :: 0 <= i < j < |es| ==> es[i].key != es[j].key
  }

  /** json_object_get. */
  function Get(es: seq<Entry>, k: Text): (r: Option<Json>)
    ensures r.Some? <==> Has(es, k)
  {
    if es == [] then None
    else if es[0].key == k then Some(es[0].value)
    else
      var r := Get(es[1..], k);
      assert r.Some? <==> Has(es, k) by {
        if Has(es, k) {
          var i :| 0 <= i < |es| && es[i].key == k;
          assert es[1..][i - 1].key == k;
        }
      }
      r
  }

  /** json_object_set: the value of `k` is replaced where it stands, or a new entry is added. */
  function Put(es: seq<Entry>, k: Text, v: Json): (r: seq<Entry>)
    ensures !Has(es, k) ==> r == es + [Entry(k, v)]
  {
    if es == [] then [Entry(k, v)]
    else if es[0].key == k then [Entry(k, v)] + es[1..]
    else
      assert Has(es[1..], k) ==> Has(es, k) by {
        if i :| 0 <= i < |es[1..]| && es[1..][i].key == k {
          assert es[i + 1].key == k;
        }
      }
      [es[0]] + Put(es[1..], k, v)
  }

  lemma GetLast(es: seq<Entry>, k: Text, v: Json)
    requires !Has(es, k)
    ensures Get(es + [Entry(k, v)], k) == Some(v)
  {
    if es != [] {
      assert es[0].key != k;
      assert (es + [Entry(k, v)])[1..] == es[1..] + [Entry(k, v)];
      HasTail(es, k);
      GetLast(es[1..], k, v);
    }
  }

  lemma PutLast(es: seq<Entry>, k: Text, v: Json, w: Json)
    requires !Has(es, k)
    ensures Put(es + [Entry(k, v)], k, w) == es + [Entry(k, w)]
  {
    if es != [] {
      assert es[0].key != k;
      assert (es + [Entry(k, v)])[1..] == es[1..] + [Entry(k, v)];
      HasTail(es, k);
      PutLast(es[1..], k, v, w);
    }
  }

  lemma HasTail(es: seq<Entry>, k: Text)
    requires es != [] && !Has(es, k)
    ensures !Has(es[1..], k)
  {
    assert forall i :: 0 <= i < |es[1..]| ==> es[1..][i] == es[i + 1];
  }

  lemma HasAppend(es: seq<Entry>, e: Entry, k: Text)
    ensures Has(es + [e], k) <==> Has(es, k) || e.key == k
  {
    if i :| 0 <= i < |es| && es[i].key == k {
      assert (es + [e])[i].key == k;
    }
    if e.key == k {
      assert (es + [e])[|es|].key == k;
    }
  }

  /** After json_object_set the key has the value, and every other key what it had. */
  lemma {:induction false} GetOfPut(es: seq<Entry>, k: Text, v: Json, other: Text)
    ensures Get(Put(es, k, v), k) == Some(v)
    ensures other != k ==> Get(Put(es, k, v), other) == Get(es, other)
  {
    if es != [] && es[0].key != k {
      GetOfPut(es[1..], k, v, other);
      assert ([es[0]] + Put(es[1..], k, v))[1..] == Put(es[1..], k, v);
    } else if es != [] {
      assert ([Entry(k, v)] + es[1..])[1..] == es[1..];
    }
  }
}
