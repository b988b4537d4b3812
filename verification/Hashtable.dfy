/**
  The hash table behind jansson's objects (deps/jansson/src/hashtable.c). Through any sequence of
  calls it is a finite map from keys to values, each bucket is a stretch of the one circular list,
  and an iteration meets every key once.
 */
module Hashtable {
  import opened Bytes
  import opened HashLists

  datatype Pair<V> = Pair(hash: nat, key: Text, value: V, serial: nat)

  /** The next state of the hash; a byte is read through a signed `char` and widened to 64 bits. */
  function HashStep(h: nat, b: byte): nat {
    var c: nat := if b < 0x80 then b else TWO64 - 0x100 + b;
    (h * 33 + c) % TWO64
  }

  function HashFrom(h: nat, key: Text): nat {
    if key == [] then h else HashStep(HashFrom(h, key[..|key| - 1]), key[|key| - 1])
  }

  function Hash(key: Text): nat { HashFrom(5381, key) }

  /** hash_str. */
  method HashStr(key: Text) returns (hash: nat)
    ensures hash == Hash(key)
  {
    hash := 5381;
    var i := 0;
    while i < |key|
      invariant i <= |key| && hash == HashFrom(5381, key[..i])
    {
      assert key[..i + 1][..i] == key[..i];
      hash := HashStep(hash, key[i]);
      i := i + 1;
    }
    assert key[..i] == key;
  }

  /** How many buckets there are after so many growths. */
  function Primes(): (ps: seq<nat>)
    ensures |ps| == 29
  {
    [5, 13, 23, 53, 97, 193, 389, 769, 1543, 3079, 6151, 12289, 24593, 49157, 98317, 196613, 393241, 786433, 1572869,
     3145739, 6291469, 12582917, 25165843, 50331653, 100663319, 201326611, 402653189, 805306457, 1610612741]
  }

  lemma PrimesGrow(i: nat)
    requires i < 28
    ensures 0 < Primes()[i] < Primes()[i + 1]
  {
  }

  /** Every node of the list is an allocated pair with the hash of its key. */
  ghost predicate Allocated<V>(order: seq<nat>, pairs: map<nat, Pair<V>>, top: nat) {
    forall i :: 0 <= i < |order| ==> order[i] in pairs && order[i] < top && pairs[order[i]].hash == Hash(pairs[order[i]].key)
  }

  /** The list holds the entries of `m`, each once. */
  ghost predicate Holds<V>(order: seq<nat>, pairs: map<nat, Pair<V>>, m: map<Text, V>) {
    && (forall x :: x in order ==> x in pairs && pairs[x].key in m && m[pairs[x].key] == pairs[x].value)
    && (forall x, y :: x in order && y in order && pairs[x].key == pairs[y].key ==> x == y)
    && (forall k :: k in m ==> exists x :: x in order && pairs[x].key == k)
  }

  ghost function Home<V>(pairs: map<nat, Pair<V>>, n: nat): map<nat, nat>
    requires n > 0
  {
    map x | x in pairs :: pairs[x].hash % n
  }

  /** The nodes of `order'` are `x` and those of `order`. */
  ghost predicate Joined(order: seq<nat>, x: nat, order': seq<nat>) {
    forall y :: y in order' <==> y == x || y in order
  }

  /** The nodes outside of the list still lead where they led. */
  ghost predicate Untouched(next: map<nat, nat>, next': map<nat, nat>, order: seq<nat>, x: nat) {
    forall y :: y in next && y !in order && y != 0 && y != x ==> y in next' && next'[y] == next[y]
  }

  ghost predicate SameNodes(order: seq<nat>, order': seq<nat>) {
    forall x :: x in order <==> x in order'
  }

  /** From position `k` on `next` runs through `was`. */
  ghost predicate ChainFrom(next: map<nat, nat>, was: seq<nat>, k: nat) {
    forall m :: k <= m < |was| ==> was[m] in next && next[was[m]] == At(was, m + 1)
  }

  /** The first node of a chain moves into the list. */
  lemma ChainStep(next: map<nat, nat>, next': map<nat, nat>, was: seq<nat>, k: nat, order: seq<nat>, order': seq<nat>)
    requires Distinct(was) && k < |was| && ChainFrom(next, was, k) && SameNodes(order, was[..k])
    requires Joined(order, was[k], order') && Untouched(next, next', order, was[k])
    ensures ChainFrom(next', was, k + 1) && SameNodes(order', was[..k + 1])
  {
    hide ChainFrom, Untouched, Distinct, Joined, SameNodes;
    ChainGoesOn(next, next', was, k, order);
    NodesGoOn(was, k, order, order');
  }

  lemma NodesGoOn(was: seq<nat>, k: nat, order: seq<nat>, order': seq<nat>)
    requires k < |was| && SameNodes(order, was[..k]) && Joined(order, was[k], order')
    ensures SameNodes(order', was[..k + 1])
  {
    assert was[..k + 1] == was[..k] + [was[k]];
  }

  lemma ChainGoesOn(next: map<nat, nat>, next': map<nat, nat>, was: seq<nat>, k: nat, order: seq<nat>)
    requires Distinct(was) && k < |was| && ChainFrom(next, was, k) && SameNodes(order, was[..k])
    requires Untouched(next, next', order, was[k])
    ensures ChainFrom(next', was, k + 1)
  {
    forall m | k + 1 <= m < |was|
      ensures was[m] in next' && next'[was[m]] == At(was, m + 1)
    {
      assert was[m] !in was[..k] && was[m] != was[k];
    }
  }

  lemma ChainStart(next: map<nat, nat>, was: seq<nat>, k: nat, order: seq<nat>)
    requires Distinct(was) && k < |was| && ChainFrom(next, was, k) && SameNodes(order, was[..k])
    ensures was[k] != 0 && was[k] !in order && was[k] in next && next[was[k]] == At(was, k + 1)
  {
  }

  class Table<V> {
    var size: nat
    var index: nat
    var buckets: seq<Bucket>
    var next: map<nat, nat>
    var prev: map<nat, nat>
    var pairs: map<nat, Pair<V>>
    var top: nat
    ghost var order: seq<nat>
    ghost var segs: seq<Segment>
    ghost var contents: map<Text, V>

    ghost predicate Listed()
      reads this
    {
      && index < 29 && |buckets| == Primes()[index] && 0 < |buckets| && top > 0
      && Distinct(order) && Ring(next, prev, order) && Allocated(order, pairs, top)
      && Segmented(order, Home(pairs, |buckets|), buckets, segs)
    }

    ghost predicate Valid()
      reads this
    {
      Listed() && size == |order| && size <= |buckets| && Holds(order, pairs, contents)
    }

    /** hashtable_init. */
    constructor ()
      ensures Valid() && contents == map[]
    {
      size, index, next, prev, pairs, top := 0, 0, map[0 := 0], map[0 := 0], map[], 1;
      buckets := NoBuckets(5);
      order, contents := [], map[];
      segs := NoSegments(5);
      new;
      EmptySegmented(Home(pairs, |buckets|), buckets);
    }
  
    /** list_insert: `node` goes before `list`. */
    method ListInsert(list: nat, node: nat, ghost p: nat)
      requires Ring(next, prev, order) && Distinct(order) && p <= |order| && list == At(order, p) && node != 0 && node !in order
      modifies this`next, this`prev
      ensures Ring(next, prev, InsertedAt(order, p, node))
      ensures Untouched(old(next), next, order, node)
    {
      RingInsert(next, prev, order, p, node);
      next := next[node := list];
      prev := prev[node := prev[list]];
      next := next[prev[list] := node];
      prev := prev[list := node];
    }

    /** insert_to_bucket. */
    method InsertToBucket(b: nat, x: nat)
      requires Listed() && b < |buckets| && x in pairs && x != 0 && x !in order && x < top
      requires pairs[x].hash % |buckets| == b && pairs[x].hash == Hash(pairs[x].key)
      modifies this`next, this`prev, this`buckets, this`order, this`segs
      ensures Listed() && |buckets| == old(|buckets|) && |order| == |old(order)| + 1
      ensures Joined(old(order), x, order) && Untouched(old(next), next, old(order), x)
    {
      hide Hash, Ring, Distinct, Allocated, Segmented, InsertedAt, InsertAt, Home, Primes;
      ghost var p, segs' := InsertFacts(order, pairs, top, buckets, segs, b, x);
      if buckets[b].first == 0 && buckets[b].first == buckets[b].last {
        ListInsert(0, x, p);
        buckets := buckets[b := Bucket(x, x)];
      } else {
        ListInsert(buckets[b].first, x, p);
        buckets := buckets[b := Bucket(x, buckets[b].last)];
      }
      order, segs := InsertedAt(order, p, x), segs';
    }

    /** hashtable_find_pair: the node with the key, or null. */
    method FindPair(b: nat, key: Text, hash: nat) returns (x: nat)
      requires Listed() && hash == Hash(key) && b == hash % |buckets|
      ensures x != 0 ==> x in order && x in pairs && pairs[x].key == key && pairs[x].hash == hash
      ensures x == 0 ==> forall y :: y in order ==> y in pairs && pairs[y].key != key
    {
      hide Hash, Primes;
      ghost var s := segs[b];
      assert Ends(order, buckets[b], s) && Covers(order, Home(pairs, |buckets|), b, s);
      if buckets[b].first == 0 && buckets[b].first == buckets[b].last {
        NotInBucket(order, pairs, |buckets|, b, s, key, top);
        return 0;
      }
      var list := buckets[b].first;
      ghost var i := s.lo;
      while true
        invariant s.lo <= i < s.lo + s.len && list == order[i]
        invariant forall k :: s.lo <= k < i ==> pairs[order[k]].key != key
        decreases s.lo + s.len - i
      {
        var pair := pairs[list];
        if pair.hash == hash && pair.key == key {
          return list;
        }
        assert pairs[order[i]].key != key;
        if list == buckets[b].last {
          break;
        }
        assert next[At(order, i)] == At(order, i + 1);
        list := next[list];
        i := i + 1;
      }
      NotInBucket(order, pairs, |buckets|, b, s, key, top);
      return 0;
    }

    /** hashtable_do_rehash: more buckets, and all pairs put into them anew. */
    method Rehash()
      requires Valid() && index < 28
      modifies this`index, this`buckets, this`next, this`prev, this`order, this`segs
      ensures Valid() && index == old(index) + 1 && SameNodes(order, old(order))
    {
      hide Ring, Segmented, Hash, Home, Primes, Distinct, Allocated, Holds;
      ghost var was := order;
      PrimesGrow(index);
      ChainReads(next, prev, was);
      EmptyRing(next, prev);
      NodesApart(was);
      index := index + 1;
      var n := Primes()[index];
      buckets := NoBuckets(n);
      var list := next[0];
      next, prev := next[0 := 0], prev[0 := 0];
      order, segs := [], NoSegments(n);
      EmptySegmented(Home(pairs, n), buckets);
      EmptyList(pairs, top);
      Refill(list, n, was);
      HoldsSame(was, order, pairs, contents);
    }

    /** All pairs of a chain that starts at `start` are put into the empty buckets. */
    method Refill(start: nat, n: nat, ghost was: seq<nat>)
      requires Listed() && order == [] && n == |buckets| && Distinct(was) && Allocated(was, pairs, top) && start == At(was, 0)
      requires ChainFrom(next, was, 0)
      modifies this`buckets, this`next, this`prev, this`order, this`segs
      ensures Listed() && n == |buckets| && |order| == |was| && SameNodes(order, was)
    {
      hide Ring, Segmented, Hash, Home, Primes, Distinct, Allocated, Joined, Untouched, SameNodes, ChainFrom;
      var list := start;
      ghost var k := 0;
      assert SameNodes([], was[..0]) by { SameNodesStart(was); }
      while list != 0
        invariant k <= |was| && list == At(was, k) && n == |buckets|
        invariant Listed() && |order| == k && SameNodes(order, was[..k]) && ChainFrom(next, was, k)
        decreases |was| - k
      {
        AllocatedMeans(was, pairs, top, k);
        ChainStart(next, was, k, order);
        var next1 := next[list];
        var pair := pairs[list];
        ghost var next0, order0 := next, order;
        InsertToBucket(pair.hash % n, list);
        ChainStep(next0, next, was, k, order0, order);
        list := next1;
        k := k + 1;
      }
      assert k == |was| by { AtNodes(was, k); }
      assert was[..k] == was;
    }

    /**
      hashtable_set looks past the end of the table of sizes, which it does when the load is full and
      the last size is in use, if and only if there are 1610612741 entries.
     */
    lemma OverrunsIff()
      requires Valid()
      ensures size >= |buckets| && index + 1 >= |Primes()| <==> size == 1610612741
    {
      hide Ring, Segmented, Hash, Home, Primes, Distinct, Allocated, Holds;
      BiggestPrime(index);
    }

    /** hashtable_set; the table can grow to 1610612741 entries. */
    method Set(key: Text, serial: nat, value: V)
      requires Valid() && size < 1610612741
      modifies this
      ensures Valid() && contents == old(contents)[key := value]
    {
      hide Ring, Segmented, Hash, Home, Primes, Distinct, Allocated, Holds;
      BiggestPrime(index);
      if size >= |buckets| {
        PrimesGrow(index);
        Rehash();
      }
      var hash := HashStr(key);
      var b := hash % |buckets|;
      var x := FindPair(b, key, hash);
      if x != 0 {
        ReplaceKeeps(order, pairs, top, contents, x, value, buckets, segs);
        pairs := pairs[x := pairs[x].(value := value)];
        contents := contents[key := value];
      } else {
        InsertNew(b, Pair(hash, key, value, serial));
      }
    }

    /** A new pair is put into its bucket. */
    method InsertNew(b: nat, pair: Pair<V>)
      requires Valid() && size < |buckets| && pair.hash == Hash(pair.key) && b == pair.hash % |buckets|
      requires forall y :: y in order ==> y in pairs && pairs[y].key != pair.key
      modifies this
      ensures Valid() && contents == old(contents)[pair.key := pair.value]
    {
      hide Ring, Segmented, Hash, Home, Primes, Distinct, Allocated, Holds;
      var x := top;
      ghost var pairs0, was := pairs, order;
      AllocateKeeps(order, pairs, top, pair, buckets, segs);
      pairs := pairs[x := pair];
      top := top + 1;
      InsertToBucket(b, x);
      size := size + 1;
      SetHolds(was, pairs0, contents, x, pair, order);
      contents := contents[pair.key := pair.value];
    }

    /** hashtable_get. */
    method Get(key: Text) returns (r: Option<V>)
      requires Valid()
      ensures r == if key in contents then Some(contents[key]) else None
    {
      hide Ring, Segmented, Hash, Home, Primes, Distinct, Allocated;
      var hash := HashStr(key);
      var x := FindPair(hash % |buckets|, key, hash);
      if x == 0 {
        return None;
      }
      return Some(pairs[x].value);
    }

    /** hashtable_del: whether the key was there. */
    method Delete(key: Text) returns (ok: bool)
      requires Valid()
      modifies this
      ensures Valid() && ok == (key in old(contents)) && contents == old(contents) - {key}
    {
      hide Ring, Segmented, Hash, Home, Primes, Distinct, Allocated, Holds;
      var hash := HashStr(key);
      var b := hash % |buckets|;
      var x := FindPair(b, key, hash);
      if x == 0 {
        AbsentKey(order, pairs, contents, key);
        return false;
      }
      FreePair(b, x);
      return true;
    }

    method FreePair(b: nat, x: nat)
      requires Valid() && x in order && x in pairs && pairs[x].hash % |buckets| == b
      modifies this
      ensures Valid() && x in old(pairs) && old(pairs)[x].key in old(contents) && contents == old(contents) - {old(pairs)[x].key}
    {
      hide Ring, Segmented, Hash, Home, Primes, Distinct, Allocated, Holds, BucketWithout, RemovedAt, At;
      ghost var p :| 0 <= p < |order| && order[p] == x;
      NeighboursRead(next, prev, order, p);
      RingRemove(next, prev, order, p);
      ghost var segs' := FreeFacts(order, pairs, top, contents, buckets, segs, b, p);
      UnlinkPair(b, x, p);
      contents := contents - {pairs[x].key};
      pairs := pairs - {x};
      size := size - 1;
      order, segs := RemovedAt(order, p), segs';
    }

    /** The pair leaves its bucket and the list. */
    method UnlinkPair(b: nat, x: nat, ghost p: nat)
      requires b < |buckets| && p < |order| && order[p] == x && x in next && x in prev
      requires next[x] == At(order, p + 1) && prev[x] == At(order, p - 1)
      modifies this`buckets, this`next, this`prev
      ensures buckets == old(buckets)[b := BucketWithout(order, old(buckets)[b], p)]
      ensures next == old(next)[At(order, p - 1) := At(order, p + 1)] && prev == old(prev)[At(order, p + 1) := At(order, p - 1)]
    {
      hide At, BucketWithout;
      DropFromBucket(b, x, p);
      var q, l := prev[x], next[x];
      next := next[q := l];
      prev := prev[l := q];
    }

    method DropFromBucket(b: nat, x: nat, ghost p: nat)
      requires b < |buckets| && p < |order| && order[p] == x && x in next && x in prev
      requires next[x] == At(order, p + 1) && prev[x] == At(order, p - 1)
      modifies this`buckets
      ensures buckets == old(buckets)[b := BucketWithout(order, old(buckets)[b], p)]
    {
      if x == buckets[b].first && x == buckets[b].last {
        buckets := buckets[b := Bucket(0, 0)];
      } else if x == buckets[b].first {
        buckets := buckets[b := Bucket(next[x], buckets[b].last)];
      } else if x == buckets[b].last {
        buckets := buckets[b := Bucket(buckets[b].first, prev[x])];
      }
    }

    /** hashtable_iter and hashtable_iter_next: from the list itself, or a pair, to the next pair. */
    method IterNext(iter: nat, ghost i: int) returns (r: nat)
      requires Valid() && -1 <= i < |order| && iter == At(order, i)
      ensures r == At(order, i + 1)
    {
      hide Segmented, Hash, Home, Primes, Distinct, Allocated, Holds;
      return next[iter];
    }

    /** Iterating from start to end meets every key exactly once, with its value. */
    method Keys() returns (keys: seq<Text>)
      requires Valid()
      ensures |keys| == size && (forall k :: k in keys <==> k in contents)
      ensures forall i, j :: 0 <= i < j < |keys| ==> keys[i] != keys[j]
    {
      hide Ring, Segmented, Hash, Home, Primes, Distinct, Allocated, Holds;
      keys := [];
      ghost var i := 0;
      NodesApart(order);
      var iter := IterNext(0, -1);
      while iter != 0
        invariant i <= |order| && iter == At(order, i) && |keys| == i
        invariant forall k :: 0 <= k < i ==> order[k] in pairs && keys[k] == pairs[order[k]].key
        decreases |order| - i
      {
        AllocatedMeans(order, pairs, top, i);
        keys := keys + [pairs[iter].key];
        iter := IterNext(iter, i);
        i := i + 1;
      }
      KeysOf(order, pairs, contents, keys);
    }

    /** hashtable_clear. */
    method Clear()
      requires Valid()
      modifies this
      ensures Valid() && contents == map[]
    {
      hide Ring, Segmented, Hash, Home, Primes, Distinct, Allocated, Holds;
      EmptyRing(next, prev);
      FreeAll();
      var n := |buckets|;
      buckets := NoBuckets(n);
      next, prev := next[0 := 0], prev[0 := 0];
      size := 0;
      order, segs, contents := [], NoSegments(n), map[];
      EmptySegmented(Home(pairs, n), buckets);
      EmptyList(pairs, top);
    }

    /** hashtable_do_clear: every pair of the list is freed. */
    method FreeAll()
      requires Ring(next, prev, order) && Distinct(order)
      modifies this`pairs
      ensures forall x :: x in order ==> x !in pairs
    {
      hide Ring, Distinct;
      ChainReads(next, prev, order);
      NodesApart(order);
      var list := next[0];
      ghost var i := 0;
      while list != 0
        invariant i <= |order| && list == At(order, i)
        invariant forall k :: 0 <= k < i ==> order[k] !in pairs
        decreases |order| - i
      {
        var next1 := next[list];
        pairs := pairs - {list};
        list := next1;
        i := i + 1;
      }
    }
  }

  lemma InsertedMembers(order: seq<nat>, p: nat, x: nat)
    requires p <= |order|
    ensures forall y :: y in InsertedAt(order, p, x) <==> y == x || y in order
    ensures |InsertedAt(order, p, x)| == |order| + 1
  {
    assert order == order[..p] + order[p..];
  }

  lemma RemovedMembers(order: seq<nat>, p: nat)
    requires p < |order| && Distinct(order)
    ensures forall y :: y in RemovedAt(order, p) <==> y != order[p] && y in order
    ensures |RemovedAt(order, p)| == |order| - 1
  {
    DistinctRemove(order, p);
    assert order == order[..p] + [order[p]] + order[p + 1..];
  }

  /** A key that is not in its bucket is not in the table. */
  lemma NotInBucket<V>(order: seq<nat>, pairs: map<nat, Pair<V>>, n: nat, b: nat, s: Segment, key: Text, top: nat)
    requires Allocated(order, pairs, top) && n > 0 && Covers(order, Home(pairs, n), b, s) && b == Hash(key) % n
    requires s.lo + s.len <= |order| && forall k :: s.lo <= k < s.lo + s.len ==> pairs[order[k]].key != key
    ensures forall y :: y in order ==> y in pairs && pairs[y].key != key
  {
    hide Hash;
    forall y | y in order
      ensures y in pairs && pairs[y].key != key
    {
      var k :| 0 <= k < |order| && order[k] == y;
      assert Home(pairs, n)[order[k]] == b <==> s.lo <= k < s.lo + s.len;
    }
  }

  lemma AllocatedInsert<V>(order: seq<nat>, pairs: map<nat, Pair<V>>, top: nat, p: nat, x: nat)
    requires Allocated(order, pairs, top) && p <= |order| && x in pairs && x < top && pairs[x].hash == Hash(pairs[x].key)
    ensures Allocated(InsertedAt(order, p, x), pairs, top)
  {
    hide Hash;
    var order' := InsertedAt(order, p, x);
    assert forall i :: 0 <= i < |order'| ==> order'[i] == if i < p then order[i] else if i == p then x else order[i - 1];
  }

  lemma HoldsSame<V>(order: seq<nat>, order': seq<nat>, pairs: map<nat, Pair<V>>, m: map<Text, V>)
    requires Holds(order, pairs, m) && SameNodes(order', order)
    ensures Holds(order', pairs, m)
  {
  }

  lemma SegmentedSame(order: seq<nat>, home: map<nat, nat>, home': map<nat, nat>, buckets: seq<Bucket>, segs: seq<Segment>)
    requires Segmented(order, home, buckets, segs) && forall x :: x in order && x in home ==> x in home' && home'[x] == home[x]
    ensures Segmented(order, home', buckets, segs)
  {
    forall b | 0 <= b < |buckets|
      ensures Covers(order, home', b, segs[b])
    {
      assert Covers(order, home, b, segs[b]);
    }
  }

  lemma HomeOf<V>(pairs: map<nat, Pair<V>>, n: nat, x: nat)
    requires n > 0 && x in pairs
    ensures x in Home(pairs, n) && Home(pairs, n)[x] == pairs[x].hash % n
  {
  }

  lemma NeighboursRead(next: map<nat, nat>, prev: map<nat, nat>, order: seq<nat>, p: nat)
    requires Ring(next, prev, order) && p < |order|
    ensures order[p] in next && next[order[p]] == At(order, p + 1) && order[p] in prev && prev[order[p]] == At(order, p - 1)
  {
    assert At(order, p) == order[p];
  }

  /** A pair gets another value. */
  lemma ReplaceKeeps<V>(order: seq<nat>, pairs: map<nat, Pair<V>>, top: nat, m: map<Text, V>, x: nat, value: V, buckets: seq<Bucket>, segs: seq<Segment>)
    requires Allocated(order, pairs, top) && Holds(order, pairs, m) && x in order && x in pairs
    requires 0 < |buckets| && Segmented(order, Home(pairs, |buckets|), buckets, segs)
    ensures var pairs' := pairs[x := pairs[x].(value := value)];
      && Allocated(order, pairs', top) && Holds(order, pairs', m[pairs[x].key := value])
      && Segmented(order, Home(pairs', |buckets|), buckets, segs)
  {
    hide Hash;
    var pairs' := pairs[x := pairs[x].(value := value)];
    SegmentedSame(order, Home(pairs, |buckets|), Home(pairs', |buckets|), buckets, segs);
    hide Segmented;
    assert Holds(order, pairs', m[pairs[x].key := value]) by {
      var m' := m[pairs[x].key := value];
      forall k | k in m'
        ensures exists y :: y in order && pairs'[y].key == k
      {
        var y :| y in order && pairs[y].key == k;
        assert pairs'[y].key == k;
      }
    }
  }

  /** A pair is allocated, not in the list yet. */
  lemma AllocateKeeps<V>(order: seq<nat>, pairs: map<nat, Pair<V>>, top: nat, pair: Pair<V>, buckets: seq<Bucket>, segs: seq<Segment>)
    requires Allocated(order, pairs, top) && 0 < |buckets| && Segmented(order, Home(pairs, |buckets|), buckets, segs)
    ensures var pairs' := pairs[top := pair];
      && top !in order && Allocated(order, pairs', top + 1) && Segmented(order, Home(pairs', |buckets|), buckets, segs)
  {
    hide Hash;
    var pairs' := pairs[top := pair];
    SegmentedSame(order, Home(pairs, |buckets|), Home(pairs', |buckets|), buckets, segs);
  }

  lemma SetHolds<V>(order: seq<nat>, pairs: map<nat, Pair<V>>, m: map<Text, V>, x: nat, pair: Pair<V>, order': seq<nat>)
    requires Holds(order, pairs, m) && x !in order && (forall y :: y in order ==> pairs[y].key != pair.key)
    requires Joined(order, x, order')
    ensures Holds(order', pairs[x := pair], m[pair.key := pair.value])
  {
    var pairs', m' := pairs[x := pair], m[pair.key := pair.value];
    assert x in order';
    forall k | k in m'
      ensures exists y :: y in order' && pairs'[y].key == k
    {
      if k == pair.key {
        assert pairs'[x].key == k;
      } else {
        var y :| y in order && pairs[y].key == k;
        assert y in order' && pairs'[y].key == k;
      }
    }
  }

  /** The pair at `p` is taken out of the list and freed. */
  lemma FreeKeeps<V>(order: seq<nat>, pairs: map<nat, Pair<V>>, top: nat, m: map<Text, V>, p: nat, buckets: seq<Bucket>, segs: seq<Segment>)
    requires Allocated(order, pairs, top) && Holds(order, pairs, m) && p < |order| && Distinct(order) && order[p] in pairs
    requires 0 < |buckets| && Segmented(RemovedAt(order, p), Home(pairs, |buckets|), buckets, segs)
    ensures var x := order[p]; var order', pairs' := RemovedAt(order, p), pairs - {x};
      && Allocated(order', pairs', top) && pairs[x].key in m && Holds(order', pairs', m - {pairs[x].key}) && Segmented(order', Home(pairs', |buckets|), buckets, segs)
  {
    var x := order[p];
    var order', pairs' := RemovedAt(order, p), pairs - {x};
    RemovedMembers(order, p);
    SegmentedSame(order', Home(pairs, |buckets|), Home(pairs', |buckets|), buckets, segs);
    hide Segmented, Hash;
    assert forall i :: 0 <= i < |order'| ==> order'[i] in order';
    forall k | k in m - {pairs[x].key}
      ensures exists y :: y in order' && pairs'[y].key == k
    {
      var y :| y in order && pairs[y].key == k;
      assert y in order' && pairs'[y].key == k;
    }
  }

  /** Following `next` from the list itself. */
  lemma ChainReads(next: map<nat, nat>, prev: map<nat, nat>, order: seq<nat>)
    requires Ring(next, prev, order) && Distinct(order)
    ensures 0 in next && 0 in prev && next[0] == At(order, 0)
    ensures ChainFrom(next, order, 0) && ChainFrom(next[0 := 0], order, 0)
  {
    assert At(order, -1) == 0 && next[At(order, -1)] == At(order, -1 + 1);
    forall m | 0 <= m < |order|
      ensures order[m] in next && next[order[m]] == At(order, m + 1)
    {
      assert At(order, m) == order[m];
    }
  }

  lemma EmptyRing(next: map<nat, nat>, prev: map<nat, nat>)
    ensures Ring(next[0 := 0], prev[0 := 0], [])
  {
  }

  lemma EmptyList<V>(pairs: map<nat, Pair<V>>, top: nat)
    ensures Distinct([]) && Allocated([], pairs, top) && Holds([], pairs, map[])
  {
  }

  lemma NodesApart(order: seq<nat>)
    requires Distinct(order)
    ensures forall k :: 0 <= k < |order| ==> order[k] != 0
    ensures forall k, m :: 0 <= k <= m < |order| ==> order[m] !in order[..k]
    ensures forall k, m :: 0 <= k < m < |order| ==> order[m] != order[k]
  {
  }

  lemma AllocatedMeans<V>(order: seq<nat>, pairs: map<nat, Pair<V>>, top: nat, k: nat)
    requires Allocated(order, pairs, top) && k < |order|
    ensures order[k] in pairs && order[k] < top && pairs[order[k]].hash == Hash(pairs[order[k]].key)
  {
  }

  lemma AbsentKey<V>(order: seq<nat>, pairs: map<nat, Pair<V>>, m: map<Text, V>, key: Text)
    requires Holds(order, pairs, m) && forall y :: y in order ==> y in pairs && pairs[y].key != key
    ensures key !in m && m - {key} == m
  {
  }

  lemma BiggestPrime(index: nat)
    requires index < 29
    ensures index == 28 <==> Primes()[index] == 1610612741
    ensures Primes()[index] <= 1610612741
  {
  }

  lemma KeysOf<V>(order: seq<nat>, pairs: map<nat, Pair<V>>, m: map<Text, V>, keys: seq<Text>)
    requires Holds(order, pairs, m) && Distinct(order) && |keys| == |order|
    requires forall k :: 0 <= k < |order| ==> order[k] in pairs && keys[k] == pairs[order[k]].key
    ensures forall k :: k in keys <==> k in m
    ensures forall i, j :: 0 <= i < j < |keys| ==> keys[i] != keys[j]
  {
    assert forall k :: 0 <= k < |order| ==> order[k] in order;
    forall k | k in m
      ensures k in keys
    {
      var x :| x in order && pairs[x].key == k;
      var j :| 0 <= j < |order| && order[j] == x;
      assert keys[j] == k;
    }
  }

  /** Where a pair goes in the list, and that this keeps what is known of list and buckets. */
  lemma InsertFacts<V>(order: seq<nat>, pairs: map<nat, Pair<V>>, top: nat, buckets: seq<Bucket>, segs: seq<Segment>, b: nat, x: nat)
    returns (p: nat, segs': seq<Segment>)
    requires Distinct(order) && Allocated(order, pairs, top) && b < |buckets| && Segmented(order, Home(pairs, |buckets|), buckets, segs)
    requires x in pairs && x != 0 && x !in order && x < top && pairs[x].hash % |buckets| == b && pairs[x].hash == Hash(pairs[x].key)
    ensures p <= |order| && At(order, p) == buckets[b].first && (buckets[b].first == 0 <==> buckets[b] == Bucket(0, 0))
    ensures var order' := InsertedAt(order, p, x);
      && Distinct(order') && Allocated(order', pairs, top) && |order'| == |order| + 1
      && Segmented(order', Home(pairs, |buckets|), buckets[b := if buckets[b].first == 0 then Bucket(x, x) else Bucket(x, buckets[b].last)], segs')
    ensures forall y :: y in InsertedAt(order, p, x) <==> y == x || y in order
  {
    hide Hash;
    var s, home := segs[b], Home(pairs, |buckets|);
    assert Ends(order, buckets[b], s) && (s.len > 0 ==> order[s.lo] != 0);
    p := InsertAt(order, s);
    segs' := BucketInsert(order, home, buckets, segs, b, x);
    assert home[x := b] == home;
    DistinctInsert(order, p, x);
    InsertedMembers(order, p, x);
    AllocatedInsert(order, pairs, top, p, x);
  }

  lemma FreeFacts<V>(order: seq<nat>, pairs: map<nat, Pair<V>>, top: nat, m: map<Text, V>, buckets: seq<Bucket>, segs: seq<Segment>, b: nat, p: nat)
    returns (segs': seq<Segment>)
    requires Distinct(order) && Allocated(order, pairs, top) && Holds(order, pairs, m) && b < |buckets|
    requires Segmented(order, Home(pairs, |buckets|), buckets, segs)
    requires p < |order| && order[p] in pairs && pairs[order[p]].hash % |buckets| == b
    ensures var x := order[p]; var order', pairs' := RemovedAt(order, p), pairs - {x};
      && Distinct(order') && |order'| == |order| - 1 && Allocated(order', pairs', top)
      && pairs[x].key in m && Holds(order', pairs', m - {pairs[x].key})
      && Segmented(order', Home(pairs', |buckets|), buckets[b := BucketWithout(order, buckets[b], p)], segs')
  {
    hide Ring, Segmented, Hash, Home, Distinct, Allocated, Holds, BucketWithout, RemovedAt;
    HomeOf(pairs, |buckets|, order[p]);
    segs' := BucketRemove(order, Home(pairs, |buckets|), buckets, segs, b, p);
    RemovedMembers(order, p);
    DistinctRemove(order, p);
    FreeKeeps(order, pairs, top, m, p, buckets[b := BucketWithout(order, buckets[b], p)], segs');
  }

  lemma SameNodesStart(was: seq<nat>)
    ensures SameNodes([], was[..0])
  {
  }

  lemma AtNodes(order: seq<nat>, k: nat)
    requires Distinct(order) && k <= |order|
    ensures At(order, k) == 0 <==> k == |order|
  {
  }

  /** Bernstein's hash without a bound: 33 times what is there, plus the byte as a signed `char`. */
  function Bernstein(key: Text): int {
    if key == [] then 5381
    else
      var b := key[|key| - 1];
      33 * Bernstein(key[..|key| - 1]) + if b < 0x80 then b as int else b as int - 0x100
  }

  lemma {:induction false} HashIsBernstein(key: Text)
    ensures Hash(key) == Bernstein(key) % TWO64
  {
    if key != [] {
      var s, b := key[..|key| - 1], key[|key| - 1];
      HashIsBernstein(s);
      Remainders(Bernstein(s), if b < 0x80 then b as int else b as int - 0x100, if b < 0x80 then b else TWO64 - 0x100 + b);
    }
  }

  lemma Remainders(a: int, c: int, d: nat)
    requires d == c || d == TWO64 + c
    ensures (a % TWO64 * 33 + d) % TWO64 == (33 * a + c) % TWO64
  {
    var q := a / TWO64;
    assert 33 * a + c == (a % TWO64 * 33 + c) + 33 * q * TWO64;
    Shifted(a % TWO64 * 33 + c, 33 * q);
    Shifted(a % TWO64 * 33 + c, 1);
  }

  lemma Shifted(x: int, k: int)
    ensures (x + k * TWO64) % TWO64 == x % TWO64
  {
  }
}
