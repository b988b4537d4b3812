/**
  The map in which the client keeps its requests and listeners (src/map.c): an array of queues. Setting
  a key that is present walks on from the entry it has just taken out, which is exact about when the
  walk comes to an end.
 */
module RequestMap {
  import opened Bytes
  import opened HashLists

  // ---------- the walk of pc_map_set over one queue ----------

  /** The pointers of a queue with head 0, and the entry the walk is at. */
  datatype Walk = Walk(next: map<nat, nat>, prev: map<nat, nat>, q: nat)

  /** The condition of ngx_queue_foreach: not back at the head, and the queue not empty. */
  predicate Running(w: Walk)
    requires 0 in w.next
  {
    w.q != 0 && w.next[0] != 0
  }

  /** ngx_queue_remove and ngx_queue_init: the entry is taken out and linked to itself. */
  function TakeOut(w: Walk): (w': Walk)
    requires w.q in w.next && w.q in w.prev
    ensures w.next.Keys <= w'.next.Keys && w.prev.Keys <= w'.prev.Keys
  {
    var n, p := w.next[w.q], w.prev[w.q];
    Walk(w.next[p := n][w.q := w.q], w.prev[n := p][w.q := w.q], w.q)
  }

  /** One turn of the loop of pc_map_set: an entry with the key is taken out, and the walk goes on to its successor. */
  function Turn(w: Walk, keys: map<nat, Text>, key: Text): Walk
    requires 0 in w.next && w.q in w.next && w.q in w.prev && w.q in keys
  {
    var w1 := if keys[w.q] == key then TakeOut(w) else w;
    Walk(w1.next, w1.prev, w1.next[w.q])
  }

  /** The walk after `n` turns, or where it ended before. */
  ghost function After(w: Walk, keys: map<nat, Text>, key: Text, n: nat): Walk {
    if n == 0 then w
    else
      var w1 := After(w, keys, key, n - 1);
      if 0 in w1.next && Running(w1) && w1.q in w1.next && w1.q in w1.prev && w1.q in keys then Turn(w1, keys, key) else w1
  }

  /** A queue of entries with distinct keys, and the walk at its first entry. */
  ghost predicate Begins(w: Walk, order: seq<nat>, keys: map<nat, Text>) {
    && Ring(w.next, w.prev, order) && Distinct(order) && w.q == At(order, 0)
    && (forall i :: 0 <= i < |order| ==> order[i] in keys)
    && (forall i, j :: 0 <= i < j < |order| ==> keys[order[i]] != keys[order[j]])
  }

  ghost predicate Occurs(order: seq<nat>, keys: map<nat, Text>, key: Text) {
    exists i :: 0 <= i < |order| && order[i] in keys && keys[order[i]] == key
  }

  lemma {:induction false} WalkOn(w: Walk, order: seq<nat>, keys: map<nat, Text>, key: Text, k: nat)
    requires Begins(w, order, keys) && k <= |order| && forall i :: 0 <= i < k ==> keys[order[i]] != key
    ensures After(w, keys, key, k) == Walk(w.next, w.prev, At(order, k))
  {
    if k > 0 {
      WalkOn(w, order, keys, key, k - 1);
      assert At(order, k - 1) == order[k - 1] && w.next[At(order, k - 1)] == At(order, k);
      assert At(order, -1) == 0 && w.next[At(order, -1)] == At(order, -1 + 1) && order[0] != 0;
    }
  }

  /** The walk is at an entry that leads to itself, and the queue is not empty. */
  ghost predicate Stuck(w: Walk, keys: map<nat, Text>, key: Text) {
    && 0 in w.next && w.q in w.next && w.q in w.prev && w.q in keys && keys[w.q] == key
    && w.next[w.q] == w.q && w.prev[w.q] == w.q && w.q != 0 && w.next[0] != 0
  }

  lemma StuckStays(w: Walk, keys: map<nat, Text>, key: Text)
    requires Stuck(w, keys, key)
    ensures Running(w) && Turn(w, keys, key) == w
  {
    assert w.next[w.q := w.q] == w.next && w.prev[w.q := w.q] == w.prev;
  }

  lemma {:induction false} StuckForEver(w: Walk, keys: map<nat, Text>, key: Text, m: nat, n: nat)
    requires m <= n && Stuck(After(w, keys, key, m), keys, key)
    ensures After(w, keys, key, n) == After(w, keys, key, m)
  {
    if n > m {
      StuckForEver(w, keys, key, m, n - 1);
      StuckStays(After(w, keys, key, m), keys, key);
    }
  }

  /** Taking out the entry at `i` while there are others leaves the walk stuck. */
  lemma TakingOutSticks(w: Walk, order: seq<nat>, keys: map<nat, Text>, i: nat)
    requires Begins(w, order, keys) && i < |order| && |order| > 1
    ensures var w1 := Walk(w.next, w.prev, order[i]); w1.q in w.next && w1.q in w.prev && Running(w1) && Stuck(Turn(w1, keys, keys[order[i]]), keys, keys[order[i]])
  {
    var n, p, x := At(order, i + 1), At(order, i - 1), order[i];
    assert At(order, i) == x && w.next[At(order, i)] == n && w.prev[At(order, i)] == p;
    assert At(order, -1) == 0 && w.next[At(order, -1)] == At(order, -1 + 1) && order[0] != 0;
    assert i == 0 ==> n == order[1];
    assert n != x && p != x;
  }

  lemma {:induction false} NoTurnPast(w: Walk, keys: map<nat, Text>, key: Text, m: nat, n: nat)
    requires m <= n && 0 in After(w, keys, key, m).next && !Running(After(w, keys, key, m))
    ensures After(w, keys, key, n) == After(w, keys, key, m)
  {
    if n > m {
      NoTurnPast(w, keys, key, m, n - 1);
    }
  }

  /** The walk of pc_map_set comes to an end if and only if the key is absent or alone in its queue. */
  lemma SetEndsIff(w: Walk, order: seq<nat>, keys: map<nat, Text>, key: Text)
    requires Begins(w, order, keys)
    ensures (exists n :: 0 in After(w, keys, key, n).next && !Running(After(w, keys, key, n))) <==> !Occurs(order, keys, key) || |order| == 1
  {
    if !Occurs(order, keys, key) {
      WalkOn(w, order, keys, key, |order|);
      assert !Running(After(w, keys, key, |order|));
    } else {
      var i :| 0 <= i < |order| && order[i] in keys && keys[order[i]] == key;
      WalkOn(w, order, keys, key, i);
      assert At(order, i) == order[i];
      if |order| == 1 {
        AloneEnds(w, order, keys);
        assert !Running(After(w, keys, key, 1));
      } else {
        TakingOutSticks(w, order, keys, i);
        NeverEnds(w, keys, key, i);
      }
    }
  }

  lemma AloneEnds(w: Walk, order: seq<nat>, keys: map<nat, Text>)
    requires Begins(w, order, keys) && |order| == 1
    ensures var key := keys[order[0]]; 0 in After(w, keys, key, 1).next && !Running(After(w, keys, key, 1))
  {
    var x := order[0];
    assert At(order, 0) == x && At(order, 1) == 0 && At(order, -1) == 0;
    assert w.next[At(order, 0)] == At(order, 0 + 1) && w.prev[At(order, 0)] == At(order, 0 - 1);
    assert w.next[At(order, -1)] == At(order, -1 + 1);
    assert After(w, keys, keys[x], 0) == w;
  }

  lemma NeverEnds(w: Walk, keys: map<nat, Text>, key: Text, i: nat)
    requires var w1 := After(w, keys, key, i);
      && 0 in w1.next && w1.q in w1.next && w1.q in w1.prev && w1.q in keys && Running(w1) && Stuck(Turn(w1, keys, key), keys, key)
    ensures forall n :: 0 in After(w, keys, key, n).next ==> Running(After(w, keys, key, n))
  {
    assert Stuck(After(w, keys, key, i + 1), keys, key);
    forall n: nat | 0 in After(w, keys, key, n).next
      ensures Running(After(w, keys, key, n))
    {
      if n > i {
        StuckForEver(w, keys, key, i + 1, n);
      } else if !Running(After(w, keys, key, n)) {
        NoTurnPast(w, keys, key, n, i);
        assert false;
      }
    }
  }

  // ---------- the map ----------

  datatype Pair<V> = Pair(key: Text, value: V)

  /** pc__hash: the sum of the bytes, each read through a signed `char`, in 64 bits. */
  function Hash(key: Text): nat {
    if key == [] then 0
    else
      var c: nat := if key[|key| - 1] < 0x80 then key[|key| - 1] else TWO64 - 0x100 + key[|key| - 1];
      (Hash(key[..|key| - 1]) + c) % TWO64
  }

  /** The entries of a queue belong there, have distinct keys, and hold what `m` says. */
  ghost predicate QueueOk<V>(q: seq<Pair<V>>, b: nat, n: nat, m: map<Text, V>)
    requires n > 0
  {
    && (forall i :: 0 <= i < |q| ==> Hash(q[i].key) % n == b && q[i].key in m && m[q[i].key] == q[i].value)
    && (forall i, j :: 0 <= i < j < |q| ==> q[i].key != q[j].key)
  }

  ghost predicate InQueue<V>(q: seq<Pair<V>>, k: Text) {
    exists i :: 0 <= i < |q| && q[i].key == k
  }

  ghost predicate Refines<V>(buckets: seq<seq<Pair<V>>>, m: map<Text, V>) {
    && 0 < |buckets|
    && (forall b :: 0 <= b < |buckets| ==> QueueOk(buckets[b], b, |buckets|, m))
    && (forall k :: k in m ==> InQueue(buckets[Hash(k) % |buckets|], k))
  }

  class PcMap<V> {
    var buckets: seq<seq<Pair<V>>>
    ghost var contents: map<Text, V>

    ghost predicate Valid()
      reads this
    {
      0 < |buckets| && Refines(buckets, contents)
    }

    /** pc_map_init. */
    constructor (capacity: nat)
      ensures Valid() && contents == map[] && |buckets| >= 64
    {
      var n := if capacity < 64 then 64 else capacity;
      buckets := seq(n, _ => []);
      contents := map[];
    }

    /** Where the key is in its queue, if it is there. */
    method Find(b: nat, key: Text) returns (i: Option<nat>)
      requires Valid() && b == Hash(key) % |buckets|
      ensures i.Some? <==> key in contents
      ensures i.Some? ==> i.value < |buckets[b]| && buckets[b][i.value].key == key && buckets[b][i.value].value == contents[key]
    {
      hide Hash;
      var k := 0;
      assert QueueOk(buckets[b], b, |buckets|, contents);
      while k < |buckets[b]|
        invariant k <= |buckets[b]| && forall j :: 0 <= j < k ==> buckets[b][j].key != key
      {
        if buckets[b][k].key == key {
          return Some(k);
        }
        k := k + 1;
      }
      return None;
    }

    /** pc_map_get. */
    method Get(key: Text) returns (r: Option<V>)
      requires Valid()
      ensures r == if key in contents then Some(contents[key]) else None
    {
      hide Hash, Refines;
      var b := Hash(key) % |buckets|;
      var i := Find(b, key);
      if i.None? {
        return None;
      }
      return Some(buckets[b][i.value].value);
    }

    /** pc_map_del: the value that was there. */
    method Delete(key: Text) returns (r: Option<V>)
      requires Valid()
      modifies this
      ensures Valid() && contents == old(contents) - {key} && |buckets| == |old(buckets)|
      ensures r == if key in old(contents) then Some(old(contents)[key]) else None
    {
      hide Hash, Refines;
      var b := Hash(key) % |buckets|;
      var i := Find(b, key);
      if i.None? {
        return None;
      }
      r := Some(buckets[b][i.value].value);
      DeleteRefines(buckets, contents, key, i.value);
      buckets := buckets[b := buckets[b][..i.value] + buckets[b][i.value + 1..]];
      contents := contents - {key};
    }

    /** pc_map_set, where its walk comes to an end: the key is absent or alone in its queue. */
    method Set(key: Text, value: V) returns (released: Option<V>)
      requires Valid() && (key in contents ==> |buckets[Hash(key) % |buckets|]| == 1)
      modifies this
      ensures Valid() && contents == old(contents)[key := value] && |buckets| == |old(buckets)|
      ensures released == if key in old(contents) then Some(old(contents)[key]) else None
    {
      hide Hash, Refines;
      var b := Hash(key) % |buckets|;
      var i := Find(b, key);
      released := None;
      if i.Some? {
        released := Some(buckets[b][i.value].value);
        DeleteRefines(buckets, contents, key, i.value);
        buckets := buckets[b := buckets[b][..i.value] + buckets[b][i.value + 1..]];
        contents := contents - {key};
      }
      InsertRefines(buckets, contents, key, value);
      buckets := buckets[b := buckets[b] + [Pair(key, value)]];
      contents := contents[key := value];
      assert contents == old(contents)[key := value];
    }

    /** pc_map_clear: every entry is taken out and released, queue by queue from the front. */
    method Clear() returns (released: seq<Pair<V>>)
      requires Valid()
      modifies this
      ensures Valid() && contents == map[] && |buckets| == |old(buckets)|
      ensures released == Flat(old(buckets))
    {
      hide Hash, Refines;
      released := [];
      var i, n := 0, |buckets|;
      while i < n
        invariant i <= n && |buckets| == n
        invariant released == Flat(old(buckets)[..i])
        invariant forall b :: 0 <= b < i ==> buckets[b] == []
        invariant forall b :: i <= b < n ==> buckets[b] == old(buckets)[b]
      {
        FlatMore(old(buckets), i);
        var more := Empty(i);
        released := released + more;
        i := i + 1;
      }
      assert old(buckets)[..n] == old(buckets);
      contents := map[];
      EmptyRefines(buckets);
    }

    /** The entries of one queue are taken out from the front. */
    method Empty(i: nat) returns (out: seq<Pair<V>>)
      requires i < |buckets|
      modifies this`buckets
      ensures buckets == old(buckets)[i := []] && out == old(buckets)[i]
    {
      out := [];
      while buckets[i] != []
        invariant |buckets| == |old(buckets)| && out + buckets[i] == old(buckets)[i] && buckets == old(buckets)[i := buckets[i]]
        decreases |buckets[i]|
      {
        out := out + [buckets[i][0]];
        buckets := buckets[i := buckets[i][1..]];
      }
    }
  }

  lemma EmptyRefines<V>(buckets: seq<seq<Pair<V>>>)
    requires 0 < |buckets| && forall b :: 0 <= b < |buckets| ==> buckets[b] == []
    ensures Refines(buckets, map[])
  {
  }

  function Flat<V>(buckets: seq<seq<Pair<V>>>): seq<Pair<V>> {
    if buckets == [] then [] else Flat(buckets[..|buckets| - 1]) + buckets[|buckets| - 1]
  }

  lemma FlatMore<V>(buckets: seq<seq<Pair<V>>>, i: nat)
    requires i < |buckets|
    ensures Flat(buckets[..i + 1]) == Flat(buckets[..i]) + buckets[i]
  {
    assert buckets[..i + 1][..i] == buckets[..i];
  }

  /** Entries with distinct keys, of the first `n` queues, that hold what `m` says. */
  ghost predicate FromQueues<V>(f: seq<Pair<V>>, n: nat, size: nat, m: map<Text, V>)
    requires size > 0
  {
    && (forall i :: 0 <= i < |f| ==> Hash(f[i].key) % size < n && f[i].key in m && m[f[i].key] == f[i].value)
    && (forall i, j :: 0 <= i < j < |f| ==> f[i].key != f[j].key)
  }

  lemma {:induction false} FlatPrefix<V>(buckets: seq<seq<Pair<V>>>, m: map<Text, V>, n: nat)
    requires Refines(buckets, m) && n <= |buckets|
    ensures FromQueues(Flat(buckets[..n]), n, |buckets|, m)
  {
    if n > 0 {
      hide Hash, Flat;
      FlatPrefix(buckets, m, n - 1);
      FlatMore(buckets, n - 1);
      assert QueueOk(buckets[n - 1], n - 1, |buckets|, m);
      MoreQueues(Flat(buckets[..n - 1]), buckets[n - 1], n - 1, |buckets|, m);
    }
  }

  lemma MoreQueues<V>(f: seq<Pair<V>>, q: seq<Pair<V>>, n: nat, size: nat, m: map<Text, V>)
    requires size > 0 && FromQueues(f, n, size, m) && QueueOk(q, n, size, m)
    ensures FromQueues(f + q, n + 1, size, m)
  {
    hide Hash;
  }

  lemma {:induction false} FlatHas<V>(buckets: seq<seq<Pair<V>>>, n: nat, b: nat, k: Text)
    requires b < n <= |buckets| && InQueue(buckets[b], k)
    ensures InQueue(Flat(buckets[..n]), k)
  {
    FlatMore(buckets, n - 1);
    var f := Flat(buckets[..n - 1]);
    if b == n - 1 {
      var i :| 0 <= i < |buckets[b]| && buckets[b][i].key == k;
      assert (f + buckets[b])[|f| + i].key == k;
    } else {
      FlatHas(buckets, n - 1, b, k);
      var i :| 0 <= i < |f| && f[i].key == k;
      assert (f + buckets[n - 1])[i].key == k;
    }
  }

  /** The entries are those of the map, each once. */
  ghost predicate EntriesOf<V>(f: seq<Pair<V>>, m: map<Text, V>) {
    && (forall i, j :: 0 <= i < j < |f| ==> f[i].key != f[j].key)
    && (forall e :: e in f ==> e.key in m && m[e.key] == e.value)
    && (forall k :: k in m ==> exists e :: e in f && e.key == k)
  }

  /** Clearing releases every entry of the map, and each once. */
  lemma ClearReleasesEachOnce<V>(buckets: seq<seq<Pair<V>>>, m: map<Text, V>)
    requires Refines(buckets, m)
    ensures EntriesOf(Flat(buckets), m)
  {
    hide Hash, FromQueues;
    assert buckets[..|buckets|] == buckets;
    FlatPrefix(buckets, m, |buckets|);
    forall k | k in m
      ensures InQueue(Flat(buckets), k)
    {
      FlatHas(buckets, |buckets|, Hash(k) % |buckets|, k);
    }
    Entries(Flat(buckets), m, |buckets|);
  }

  lemma Entries<V>(f: seq<Pair<V>>, m: map<Text, V>, n: nat)
    requires n > 0 && FromQueues(f, n, n, m)
    requires forall k :: k in m ==> InQueue(f, k)
    ensures EntriesOf(f, m)
  {
    forall k | k in m
      ensures exists e :: e in f && e.key == k
    {
      assert InQueue(f, k);
      var i :| 0 <= i < |f| && f[i].key == k;
      assert f[i] in f;
    }
  }

  lemma DeleteRefines<V>(buckets: seq<seq<Pair<V>>>, m: map<Text, V>, key: Text, i: nat)
    requires Refines(buckets, m)
    requires var q := buckets[Hash(key) % |buckets|]; i < |q| && q[i].key == key
    ensures var b := Hash(key) % |buckets|; Refines(buckets[b := buckets[b][..i] + buckets[b][i + 1..]], m - {key})
  {
    hide Hash, QueueOk, InQueue;
    var b, n := Hash(key) % |buckets|, |buckets|;
    var q := buckets[b];
    var q' := q[..i] + q[i + 1..];
    var buckets' := buckets[b := q'];
    assert QueueOk(q, b, n, m);
    forall c | 0 <= c < n
      ensures QueueOk(buckets'[c], c, n, m - {key})
    {
      assert QueueOk(buckets[c], c, n, m);
      if c == b {
        QueueWithout(q, b, n, m, i);
      } else {
        OtherQueue(buckets[c], c, n, m, key);
      }
    }
    forall k | k in m - {key}
      ensures InQueue(buckets'[Hash(k) % n], k)
    {
      assert InQueue(buckets[Hash(k) % n], k);
      if Hash(k) % n == b {
        StillInQueue(q, i, k);
      }
    }
  }

  lemma QueueWithout<V>(q: seq<Pair<V>>, b: nat, n: nat, m: map<Text, V>, i: nat)
    requires n > 0 && QueueOk(q, b, n, m) && i < |q|
    ensures QueueOk(q[..i] + q[i + 1..], b, n, m - {q[i].key})
  {
    hide Hash;
    var q' := q[..i] + q[i + 1..];
    assert forall j :: 0 <= j < |q'| ==> q'[j] == q[if j < i then j else j + 1];
  }

  lemma OtherQueue<V>(q: seq<Pair<V>>, c: nat, n: nat, m: map<Text, V>, key: Text)
    requires n > 0 && QueueOk(q, c, n, m) && Hash(key) % n != c
    ensures QueueOk(q, c, n, m - {key})
  {
    hide Hash;
  }

  lemma StillInQueue<V>(q: seq<Pair<V>>, i: nat, k: Text)
    requires i < |q| && InQueue(q, k) && q[i].key != k
    ensures InQueue(q[..i] + q[i + 1..], k)
  {
    var q' := q[..i] + q[i + 1..];
    var j :| 0 <= j < |q| && q[j].key == k;
    assert q'[if j < i then j else j - 1].key == k;
  }

  lemma InsertRefines<V>(buckets: seq<seq<Pair<V>>>, m: map<Text, V>, key: Text, value: V)
    requires Refines(buckets, m) && key !in m
    ensures var b := Hash(key) % |buckets|; Refines(buckets[b := buckets[b] + [Pair(key, value)]], m[key := value])
  {
    hide Hash;
    var b, n := Hash(key) % |buckets|, |buckets|;
    var q' := buckets[b] + [Pair(key, value)];
    var buckets', m' := buckets[b := q'], m[key := value];
    forall c | 0 <= c < n
      ensures QueueOk(buckets'[c], c, n, m')
    {
      assert QueueOk(buckets[c], c, n, m);
    }
    forall k | k in m'
      ensures InQueue(buckets'[Hash(k) % n], k)
    {
      if k == key {
        assert q'[|q'| - 1].key == k;
      } else {
        var j :| 0 <= j < |buckets[Hash(k) % n]| && buckets[Hash(k) % n][j].key == k;
        assert buckets'[Hash(k) % n][j].key == k;
      }
    }
  }

  // ---------- keys ----------

  /** The key of a request: its id printed with `%u`. */
  function IdText(id: nat): (t: Text)
    ensures |t| > 0
  {
    if id < 10 then [48 + id] else IdText(id / 10) + [48 + id % 10]
  }

  /** Different ids have different keys. */
  lemma {:induction false} IdTextIsInjective(a: nat, b: nat)
    requires IdText(a) == IdText(b)
    ensures a == b
  {
    var s, t := IdText(a), IdText(b);
    assert s[|s| - 1] == t[|t| - 1];
    if a >= 10 && b >= 10 {
      assert s[..|s| - 1] == IdText(a / 10) && t[..|t| - 1] == IdText(b / 10);
      IdTextIsInjective(a / 10, b / 10);
    }
  }

  /** The key reads as the id in decimal, without leading zeros. */
  function ReadDecimal(t: Text): int {
    if t == [] then 0 else ReadDecimal(t[..|t| - 1]) * 10 + (t[|t| - 1] as int - 48)
  }

  lemma {:induction false} IdTextIsDecimal(id: nat)
    ensures ReadDecimal(IdText(id)) == id && (forall i :: 0 <= i < |IdText(id)| ==> 48 <= IdText(id)[i] <= 57)
    ensures IdText(id)[0] == 48 ==> id == 0
  {
    var t := IdText(id);
    if id >= 10 {
      IdTextIsDecimal(id / 10);
      assert t[..|t| - 1] == IdText(id / 10);
    } else {
      assert t[..0] == [];
    }
  }

  /** The bytes of a key of ASCII text, added up. */
  function Sum(key: Text): nat {
    if key == [] then 0 else Sum(key[..|key| - 1]) + key[|key| - 1]
  }

  lemma {:induction false} HashIsSum(key: Text)
    requires forall i :: 0 <= i < |key| ==> key[i] < 0x80
    ensures Hash(key) == Sum(key) % TWO64
  {
    if key != [] {
      HashIsSum(key[..|key| - 1]);
      var a, c := Sum(key[..|key| - 1]), key[|key| - 1];
      assert (a % TWO64 + c) % TWO64 == (a + c) % TWO64;
    }
  }
}
