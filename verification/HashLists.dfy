/**
  The one circular list behind the hash table of jansson and the buckets that are segments of it
  (deps/jansson/src/hashtable.c:37-75, 123-143). Nodes are numbers; 0 is the list's own node.
 */
module HashLists {
  /** The node at a position of the ring; just before and just after all others is the list itself. */
  function At(order: seq<nat>, i: int): nat {
    if 0 <= i < |order| then order[i] else 0
  }

  ghost predicate Distinct(order: seq<nat>) {
    && (forall i :: 0 <= i < |order| ==> order[i] != 0)
    && (forall i, j :: 0 <= i < j < |order| ==> order[i] != order[j])
  }

  /** Following `next` runs through `order` and back, following `prev` the other way. */
  ghost predicate Ring(next: map<nat, nat>, prev: map<nat, nat>, order: seq<nat>) {
    && 0 in next && 0 in prev
    && (forall i :: 0 <= i < |order| ==> order[i] in next && order[i] in prev)
    && (forall i :: -1 <= i < |order| ==> next[At(order, i)] == At(order, i + 1))
    && (forall i :: 0 <= i <= |order| ==> prev[At(order, i)] == At(order, i - 1))
  }

  function InsertedAt(order: seq<nat>, p: nat, x: nat): seq<nat>
    requires p <= |order|
  {
    order[..p] + [x] + order[p..]
  }

  function RemovedAt(order: seq<nat>, p: nat): seq<nat>
    requires p < |order|
  {
    order[..p] + order[p + 1..]
  }

  /** list_insert before the node at `p`. */
  lemma RingInsert(next: map<nat, nat>, prev: map<nat, nat>, order: seq<nat>, p: nat, x: nat)
    requires Ring(next, prev, order) && Distinct(order) && p <= |order| && x != 0 && x !in order
    ensures var l, q := At(order, p), At(order, p - 1);
      Ring(next[x := l][q := x], prev[x := q][l := x], InsertedAt(order, p, x))
  {
    InsertNext(next, prev, order, p, x);
    InsertPrev(next, prev, order, p, x);
    var order' := InsertedAt(order, p, x);
    assert forall i :: 0 <= i < |order'| ==> order'[i] == if i < p then order[i] else if i == p then x else order[i - 1];
    hide InsertedAt;
  }

  lemma InsertNext(next: map<nat, nat>, prev: map<nat, nat>, order: seq<nat>, p: nat, x: nat)
    requires Ring(next, prev, order) && Distinct(order) && p <= |order| && x != 0 && x !in order
    ensures var l, q := At(order, p), At(order, p - 1); var next', order' := next[x := l][q := x], InsertedAt(order, p, x);
      forall i :: -1 <= i < |order'| ==> At(order', i) in next' && next'[At(order', i)] == At(order', i + 1)
  {
    var l, q := At(order, p), At(order, p - 1);
    var next', order' := next[x := l][q := x], InsertedAt(order, p, x);
    assert forall i :: 0 <= i < |order'| ==> order'[i] == if i < p then order[i] else if i == p then x else order[i - 1];
    forall i | -1 <= i < |order'|
      ensures At(order', i) in next' && next'[At(order', i)] == At(order', i + 1)
    {
      if i == p - 1 {
        assert At(order', i) == q;
      } else if i == p {
        assert At(order', i + 1) == l;
      } else {
        var j := if i < p then i else i - 1;
        assert At(order', i) == At(order, j) && At(order', i + 1) == At(order, j + 1);
        assert At(order, j) != q && At(order, j) != x;
      }
    }
  }

  lemma InsertPrev(next: map<nat, nat>, prev: map<nat, nat>, order: seq<nat>, p: nat, x: nat)
    requires Ring(next, prev, order) && Distinct(order) && p <= |order| && x != 0 && x !in order
    ensures var l, q := At(order, p), At(order, p - 1); var prev', order' := prev[x := q][l := x], InsertedAt(order, p, x);
      forall i :: 0 <= i <= |order'| ==> At(order', i) in prev' && prev'[At(order', i)] == At(order', i - 1)
  {
    var l, q := At(order, p), At(order, p - 1);
    var prev', order' := prev[x := q][l := x], InsertedAt(order, p, x);
    assert forall i :: 0 <= i < |order'| ==> order'[i] == if i < p then order[i] else if i == p then x else order[i - 1];
    forall i | 0 <= i <= |order'|
      ensures At(order', i) in prev' && prev'[At(order', i)] == At(order', i - 1)
    {
      if i == p + 1 {
        assert At(order', i) == l;
      } else if i == p {
        assert At(order', i - 1) == q;
      } else {
        var j := if i < p then i else i - 1;
        assert At(order', i) == At(order, j) && At(order', i - 1) == At(order, j - 1);
        assert At(order, j) != l && At(order, j) != x;
      }
    }
  }

  /** list_remove of the node at `p`. */
  lemma RingRemove(next: map<nat, nat>, prev: map<nat, nat>, order: seq<nat>, p: nat)
    requires Ring(next, prev, order) && Distinct(order) && p < |order|
    ensures var q, l := At(order, p - 1), At(order, p + 1);
      Ring(next[q := l], prev[l := q], RemovedAt(order, p))
  {
    RemoveNext(next, prev, order, p);
    RemovePrev(next, prev, order, p);
    var order' := RemovedAt(order, p);
    assert forall i :: 0 <= i < |order'| ==> order'[i] == if i < p then order[i] else order[i + 1];
    hide RemovedAt;
  }

  lemma RemoveNext(next: map<nat, nat>, prev: map<nat, nat>, order: seq<nat>, p: nat)
    requires Ring(next, prev, order) && Distinct(order) && p < |order|
    ensures var q, l := At(order, p - 1), At(order, p + 1); var next', order' := next[q := l], RemovedAt(order, p);
      forall i :: -1 <= i < |order'| ==> At(order', i) in next' && next'[At(order', i)] == At(order', i + 1)
  {
    var q, l := At(order, p - 1), At(order, p + 1);
    var next', order' := next[q := l], RemovedAt(order, p);
    assert forall i :: 0 <= i < |order'| ==> order'[i] == if i < p then order[i] else order[i + 1];
    forall i | -1 <= i < |order'|
      ensures At(order', i) in next' && next'[At(order', i)] == At(order', i + 1)
    {
      if i == p - 1 {
        assert At(order', i) == q && At(order', i + 1) == l;
      } else {
        var j := if i < p then i else i + 1;
        assert At(order', i) == At(order, j) && At(order', i + 1) == At(order, j + 1);
        assert At(order, j) != q;
      }
    }
  }

  lemma RemovePrev(next: map<nat, nat>, prev: map<nat, nat>, order: seq<nat>, p: nat)
    requires Ring(next, prev, order) && Distinct(order) && p < |order|
    ensures var q, l := At(order, p - 1), At(order, p + 1); var prev', order' := prev[l := q], RemovedAt(order, p);
      forall i :: 0 <= i <= |order'| ==> At(order', i) in prev' && prev'[At(order', i)] == At(order', i - 1)
  {
    var q, l := At(order, p - 1), At(order, p + 1);
    var prev', order' := prev[l := q], RemovedAt(order, p);
    assert forall i :: 0 <= i < |order'| ==> order'[i] == if i < p then order[i] else order[i + 1];
    forall i | 0 <= i <= |order'|
      ensures At(order', i) in prev' && prev'[At(order', i)] == At(order', i - 1)
    {
      if i == p {
        assert At(order', i) == l && At(order', i - 1) == q;
      } else {
        var j := if i < p then i else i + 1;
        assert At(order', i) == At(order, j) && At(order', i - 1) == At(order, j - 1);
        assert At(order, j) != l;
      }
    }
  }

  lemma DistinctInsert(order: seq<nat>, p: nat, x: nat)
    requires Distinct(order) && p <= |order| && x != 0 && x !in order
    ensures Distinct(InsertedAt(order, p, x))
  {
    var order' := InsertedAt(order, p, x);
    assert forall i :: 0 <= i < |order'| ==> order'[i] == if i < p then order[i] else if i == p then x else order[i - 1];
  }

  lemma DistinctRemove(order: seq<nat>, p: nat)
    requires Distinct(order) && p < |order|
    ensures Distinct(RemovedAt(order, p)) && order[p] !in RemovedAt(order, p)
  {
    var order' := RemovedAt(order, p);
    assert forall i :: 0 <= i < |order'| ==> order'[i] == if i < p then order[i] else order[i + 1];
  }

  // ---------- buckets ----------

  datatype Bucket = Bucket(first: nat, last: nat)

  /** The stretch of the ring that a bucket covers. */
  datatype Segment = Segment(lo: nat, len: nat)

  /** A bucket holds the ends of its stretch, or twice the list itself when that is empty. */
  ghost predicate Ends(order: seq<nat>, b: Bucket, s: Segment) {
    && s.lo + s.len <= |order|
    && b == if s.len == 0 then Bucket(0, 0) else Bucket(order[s.lo], order[s.lo + s.len - 1])
  }

  /** The stretch of bucket `b` is exactly the nodes that `home` sends there. */
  ghost predicate Covers(order: seq<nat>, home: map<nat, nat>, b: nat, s: Segment) {
    forall k :: 0 <= k < |order| ==> order[k] in home && (home[order[k]] == b <==> s.lo <= k < s.lo + s.len)
  }

  ghost predicate Segmented(order: seq<nat>, home: map<nat, nat>, buckets: seq<Bucket>, segs: seq<Segment>) {
    && |segs| == |buckets|
    && (forall b :: 0 <= b < |buckets| ==> Ends(order, buckets[b], segs[b]) && Covers(order, home, b, segs[b]))
  }

  /** Where insert_to_bucket puts a node: before the first of the bucket, or before the list itself. */
  function InsertAt(order: seq<nat>, s: Segment): nat {
    if s.len == 0 then |order| else s.lo
  }

  function GrownAt(s: Segment, p: nat): Segment {
    if s.len > 0 && s.lo >= p then Segment(s.lo + 1, s.len) else s
  }

  lemma InsertSegment(order: seq<nat>, home: map<nat, nat>, b: Bucket, i: nat, s: Segment, p: nat, x: nat, target: nat)
    requires Ends(order, b, s) && Covers(order, home, i, s) && p <= |order| && x !in order
    requires i != target && (s.len == 0 || p <= s.lo || s.lo + s.len <= p)
    ensures Ends(InsertedAt(order, p, x), b, GrownAt(s, p)) && Covers(InsertedAt(order, p, x), home[x := target], i, GrownAt(s, p))
  {
    var order' := InsertedAt(order, p, x);
    assert forall k :: 0 <= k < |order'| ==> order'[k] == if k < p then order[k] else if k == p then x else order[k - 1];
  }

  /** The bucket a node is put into grows by it. */
  lemma InsertTarget(order: seq<nat>, home: map<nat, nat>, b: Bucket, i: nat, s: Segment, x: nat)
    requires Ends(order, b, s) && Covers(order, home, i, s) && x !in order
    ensures var p := InsertAt(order, s);
      && p <= |order|
      && Ends(InsertedAt(order, p, x), if s.len == 0 then Bucket(x, x) else Bucket(x, b.last), Segment(p, s.len + 1))
      && Covers(InsertedAt(order, p, x), home[x := i], i, Segment(p, s.len + 1))
  {
    var p := InsertAt(order, s);
    var order' := InsertedAt(order, p, x);
    assert forall k :: 0 <= k < |order'| ==> order'[k] == if k < p then order[k] else if k == p then x else order[k - 1];
  }

  /** Two buckets cover different stretches. */
  lemma SegmentsApart(order: seq<nat>, home: map<nat, nat>, buckets: seq<Bucket>, segs: seq<Segment>, b: nat, c: nat)
    requires Segmented(order, home, buckets, segs) && b < |segs| && c < |segs| && b != c
    ensures segs[b].len == 0 || segs[c].len == 0 || segs[b].lo + segs[b].len <= segs[c].lo || segs[c].lo + segs[c].len <= segs[b].lo
  {
    var s, r := segs[b], segs[c];
    assert Ends(order, buckets[b], s) && Covers(order, home, b, s) && Ends(order, buckets[c], r) && Covers(order, home, c, r);
    var k := if s.lo < r.lo then r.lo else s.lo;
    if k < |order| {
      assert home[order[k]] == b <==> s.lo <= k < s.lo + s.len;
      assert home[order[k]] == c <==> r.lo <= k < r.lo + r.len;
    }
  }

  /** insert_to_bucket keeps every bucket a stretch of the ring. */
  lemma BucketInsert(order: seq<nat>, home: map<nat, nat>, buckets: seq<Bucket>, segs: seq<Segment>, b: nat, x: nat) returns (segs': seq<Segment>)
    requires Segmented(order, home, buckets, segs) && b < |buckets| && x !in order
    ensures var s := segs[b]; var p := InsertAt(order, s);
      && p <= |order|
      && Segmented(InsertedAt(order, p, x), home[x := b], buckets[b := if s.len == 0 then Bucket(x, x) else Bucket(x, buckets[b].last)], segs')
  {
    var s := segs[b];
    var p := InsertAt(order, s);
    segs' := seq(|segs|, i requires 0 <= i < |segs| => if i == b then Segment(p, s.len + 1) else GrownAt(segs[i], p));
    forall i | 0 <= i < |segs|
      ensures var bs := buckets[b := if s.len == 0 then Bucket(x, x) else Bucket(x, buckets[b].last)];
        p <= |order| && Ends(InsertedAt(order, p, x), bs[i], segs'[i]) && Covers(InsertedAt(order, p, x), home[x := b], i, segs'[i])
    {
      InsertTarget(order, home, buckets[b], b, s, x);
      if i != b {
        SegmentsApart(order, home, buckets, segs, b, i);
        InsertSegment(order, home, buckets[i], i, segs[i], p, x, b);
      }
    }
  }

  function ShrunkAt(s: Segment, p: nat): Segment {
    if s.lo <= p < s.lo + s.len then Segment(s.lo, s.len - 1)
    else if s.lo > p then Segment(s.lo - 1, s.len)
    else s
  }

  /** What the bucket of the node at `p` becomes. */
  function BucketWithout(order: seq<nat>, b: Bucket, p: nat): Bucket
    requires p < |order|
  {
    var x := order[p];
    if x == b.first && x == b.last then Bucket(0, 0)
    else if x == b.first then Bucket(At(order, p + 1), b.last)
    else if x == b.last then Bucket(b.first, At(order, p - 1))
    else b
  }

  lemma RemoveSegment(order: seq<nat>, home: map<nat, nat>, b: Bucket, i: nat, s: Segment, p: nat)
    requires Ends(order, b, s) && Covers(order, home, i, s) && p < |order| && Distinct(order)
    ensures var order' := RemovedAt(order, p);
      && Ends(order', if home[order[p]] == i then BucketWithout(order, b, p) else b, ShrunkAt(s, p))
      && Covers(order', home, i, ShrunkAt(s, p))
  {
    var order' := RemovedAt(order, p);
    assert forall k :: 0 <= k < |order'| ==> order'[k] == if k < p then order[k] else order[k + 1];
    assert home[order[p]] == i <==> s.lo <= p < s.lo + s.len;
    RemoveEnds(order, b, s, p);
    hide Ends;
  }

  lemma RemoveEnds(order: seq<nat>, b: Bucket, s: Segment, p: nat)
    requires Ends(order, b, s) && p < |order| && Distinct(order)
    ensures Ends(RemovedAt(order, p), if s.lo <= p < s.lo + s.len then BucketWithout(order, b, p) else b, ShrunkAt(s, p))
  {
    var order' := RemovedAt(order, p);
    assert forall k :: 0 <= k < |order'| ==> order'[k] == if k < p then order[k] else order[k + 1];
    if s.lo <= p < s.lo + s.len {
      assert order[p] == b.first <==> p == s.lo;
      assert order[p] == b.last <==> p == s.lo + s.len - 1;
    }
  }

  lemma BucketRemove(order: seq<nat>, home: map<nat, nat>, buckets: seq<Bucket>, segs: seq<Segment>, b: nat, p: nat) returns (segs': seq<Segment>)
    requires Segmented(order, home, buckets, segs) && b < |buckets| && p < |order| && Distinct(order) && order[p] in home && home[order[p]] == b
    ensures Segmented(RemovedAt(order, p), home, buckets[b := BucketWithout(order, buckets[b], p)], segs')
  {
    segs' := seq(|segs|, i requires 0 <= i < |segs| => ShrunkAt(segs[i], p));
    forall i | 0 <= i < |segs|
      ensures Ends(RemovedAt(order, p), buckets[b := BucketWithout(order, buckets[b], p)][i], segs'[i])
      ensures Covers(RemovedAt(order, p), home, i, segs'[i])
    {
      RemoveSegment(order, home, buckets[i], i, segs[i], p);
    }
  }

  lemma EmptySegmented(home: map<nat, nat>, buckets: seq<Bucket>)
    requires forall b :: 0 <= b < |buckets| ==> buckets[b] == Bucket(0, 0)
    ensures Segmented([], home, buckets, NoSegments(|buckets|))
  {
  }

  /** Buckets that are all empty. */
  function NoBuckets(n: nat): (bs: seq<Bucket>)
    ensures |bs| == n && forall b :: 0 <= b < n ==> bs[b] == Bucket(0, 0)
  {
    seq(n, _ => Bucket(0, 0))
  }

  function NoSegments(n: nat): (ss: seq<Segment>)
    ensures |ss| == n && forall b :: 0 <= b < n ==> ss[b] == Segment(0, 0)
  {
    seq(n, _ => Segment(0, 0))
  }
}
