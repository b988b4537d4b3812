/**
  The timer queue of the loop (deps/uv/src/unix/timer.c): handles are kept in the red-black tree by
  the time they are due and, among those due at the same time, by the order in which they were started.
 */
module Timers {
  import opened RbTrees
  import opened RbHeap
  import opened RbTree

  const MAX64: nat := 0xFFFF_FFFF_FFFF_FFFF

  /** A handle; the time it is due and its start number are its key in the tree. */
  datatype Timer = Timer(hasCb: bool, repeat: nat, active: bool)

  /** The time at which a timer is due; the sum of two 64-bit numbers that wrapped around is noticed. */
  function Due(time: nat, timeout: nat): (r: nat)
    requires time <= MAX64 && timeout <= MAX64
    ensures r == if time + timeout <= MAX64 then time + timeout else MAX64
  {
    var sum := (time + timeout) % (MAX64 + 1);
    if sum < timeout then MAX64 else sum
  }

  lemma InsertedMembers(s: seq<nat>, x: nat, t: seq<nat>)
    requires Inserted(s, x, t)
    ensures forall y :: y in t <==> y == x || y in s
  {
    var i :| 0 <= i <= |s| && t == s[..i] + [x] + s[i..];
    assert s == s[..i] + s[i..];
  }

  lemma InsertedIsNew(keys: map<nat, Key>, s: seq<nat>, x: nat, t: seq<nat>)
    requires Inserted(s, x, t) && Sorted(keys, t)
    ensures x !in s
  {
    var i :| 0 <= i <= |s| && t == s[..i] + [x] + s[i..];
    assert t[i] == x;
    forall j | 0 <= j < |s|
      ensures s[j] != x
    {
      assert s[j] == t[if j < i then j else j + 1];
    }
  }

  /** The tree holds exactly the active handles, each with a callback and a start number of its own. */
  ghost predicate Kept(handles: map<nat, Timer>, order: seq<nat>, keys: map<nat, Key>, counter: nat) {
    && (forall id :: id in order <==> id in handles && handles[id].active)
    && (forall id :: id in handles ==> id != 0 && handles[id].repeat <= MAX64)
    && (forall id :: id in handles && handles[id].active ==> id in keys && keys[id].start < counter && handles[id].hasCb)
  }

  lemma StopKeeps(handles: map<nat, Timer>, order: seq<nat>, keys: map<nat, Key>, counter: nat, id: nat, order': seq<nat>)
    requires Kept(handles, order, keys, counter) && id in handles && Inserted(order', id, order) && Sorted(keys, order)
    ensures Kept(handles[id := handles[id].(active := false)], order', keys, counter) && id !in order'
  {
    InsertedMembers(order', id, order);
    InsertedIsNew(keys, order', id, order);
    hide Inserted, Sorted;
  }

  lemma StartKeeps(handles: map<nat, Timer>, order: seq<nat>, keys: map<nat, Key>, counter: nat, id: nat, due: nat, repeat: nat, order': seq<nat>)
    requires Kept(handles, order, keys, counter) && id in handles && repeat <= MAX64 && Inserted(order, id, order')
    ensures Kept(handles[id := Timer(true, repeat, true)], order', keys[id := Key(due, counter)], counter + 1)
  {
    InsertedMembers(order, id, order');
  }

  /** A start number that was not given out yet makes a key of its own. */
  lemma NewKeyIsNew(handles: map<nat, Timer>, order: seq<nat>, keys: map<nat, Key>, counter: nat, id: nat, due: nat, found: nat)
    requires Kept(handles, order, keys, counter) && id !in order && found in order
    ensures found in keys[id := Key(due, counter)]
    ensures var keys' := keys[id := Key(due, counter)]; Cmp(keys'[id], keys'[found]) != 0
  {
  }

  class Loop {
    var time: nat
    var counter: nat
    var handles: map<nat, Timer>
    const tree: TimerTree

    ghost predicate Valid()
      reads this, tree
    {
      time <= MAX64 && tree.Valid() && Kept(handles, tree.Order(), tree.keys, counter)
    }

    constructor (time: nat)
      requires time <= MAX64
      ensures Valid() && fresh(tree) && handles == map[] && this.time == time && tree.Order() == []
    {
      this.time, counter, handles := time, 0, map[];
      tree := new TimerTree();
    }

    /** uv_timer_init. */
    method Init(id: nat)
      requires Valid() && id != 0 && id !in handles
      modifies this`handles
      ensures Valid() && handles == old(handles)[id := Timer(false, 0, false)]
    {
      handles := handles[id := Timer(false, 0, false)];
    }

    /** The callback of a timer that is not active is set directly. */
    method SetCallback(id: nat)
      requires Valid() && id in handles
      modifies this`handles
      ensures Valid() && handles == old(handles)[id := old(handles)[id].(hasCb := true)]
    {
      handles := handles[id := handles[id].(hasCb := true)];
    }

    /** uv_timer_set_repeat. */
    method SetRepeat(id: nat, repeat: nat)
      requires Valid() && id in handles && repeat <= MAX64
      modifies this`handles
      ensures Valid() && handles == old(handles)[id := old(handles)[id].(repeat := repeat)]
    {
      handles := handles[id := handles[id].(repeat := repeat)];
    }

    /** uv_timer_stop. */
    method Stop(id: nat)
      requires Valid() && id in handles
      modifies this`handles, tree
      ensures Valid() && handles == old(handles)[id := old(handles)[id].(active := false)] && tree.keys == old(tree.keys)
      ensures id !in tree.Order()
      ensures if old(handles)[id].active then Inserted(tree.Order(), id, old(tree.Order())) else tree.Order() == old(tree.Order())
    {
      hide Shape, RedBlack, Kept, Inserted;
      if !handles[id].active {
        assert id !in tree.Order() by { KeptMeans(handles, tree.Order(), tree.keys, counter, id); }
        assert handles == handles[id := handles[id].(active := false)];
        return;
      }
      KeptMeans(handles, tree.Order(), tree.keys, counter, id);
      ghost var was := tree.Order();
      tree.Remove(id);
      StopKeeps(handles, was, tree.keys, counter, id, tree.Order());
      handles := handles[id := handles[id].(active := false)];
    }

    /** uv_timer_start; the callback given is not null. */
    method Start(id: nat, timeout: nat, repeat: nat)
      requires Valid() && id in handles && timeout <= MAX64 && repeat <= MAX64
      modifies this`handles, this`counter, tree
      ensures Valid() && counter == old(counter) + 1
      ensures handles == old(handles)[id := Timer(true, repeat, true)]
      ensures tree.keys == old(tree.keys)[id := Key(Due(time, timeout), old(counter))]
    {
      hide Shape, RedBlack, Kept, Inserted, Sorted;
      if handles[id].active {
        Stop(id);
      }
      KeptMeans(handles, tree.Order(), tree.keys, counter, id);
      ghost var was, keys := tree.Order(), tree.keys;
      tree.keys := tree.keys[id := Key(Due(time, timeout), counter)];
      SortedApart(keys, tree.keys, was, id);
      var found := tree.Insert(id);
      if found != 0 {
        NewKeyIsNew(handles, was, keys, counter, id, Due(time, timeout), found);
        assert false;
      }
      StartKeeps(handles, was, keys, counter, id, Due(time, timeout), repeat, tree.Order());
      counter := counter + 1;
      handles := handles[id := Timer(true, repeat, true)];
    }

    /** uv_timer_again: an error without a callback, nothing without a repeat. */
    method Again(id: nat) returns (ok: bool)
      requires Valid() && id in handles
      modifies this`handles, this`counter, tree
      ensures Valid() && ok == old(handles)[id].hasCb
      ensures var h := old(handles)[id];
        if !h.hasCb || h.repeat == 0 then handles == old(handles) && tree.keys == old(tree.keys) && tree.Order() == old(tree.Order()) && counter == old(counter)
        else
          && handles == old(handles)[id := Timer(true, h.repeat, true)] && counter == old(counter) + 1
          && tree.keys == old(tree.keys)[id := Key(Due(time, h.repeat), old(counter))]
    {
      hide Shape, RedBlack, Kept, Inserted, Sorted;
      KeptMeans(handles, tree.Order(), tree.keys, counter, id);
      if !handles[id].hasCb {
        return false;
      }
      var repeat := handles[id].repeat;
      if repeat != 0 {
        Stop(id);
        Start(id, repeat, repeat);
      }
      return true;
    }

    /** uv__next_timeout: how long to wait, -1 for ever. */
    method NextTimeout() returns (wait: int)
      requires Valid()
      ensures wait == -1 <==> tree.Order() == []
      ensures wait != -1 ==> 0 <= wait <= 0x7FFF_FFFF
      ensures wait == 0 <==> exists id :: id in tree.Order() && tree.keys[id].timeout <= time
      ensures 0 < wait < 0x7FFF_FFFF ==> (exists id :: id in tree.Order() && tree.keys[id].timeout == time + wait)
      ensures forall id :: id in tree.Order() ==> time + wait <= tree.keys[id].timeout || wait == 0
    {
      var handle := tree.MinMax(-1);
      ghost var order := tree.Order();
      if handle == 0 {
        return -1;
      }
      FirstIsLeast(tree.keys, order);
      assert handle in order;
      if tree.keys[handle].timeout <= time {
        return 0;
      }
      var diff := tree.keys[handle].timeout - time;
      if diff > 0x7FFF_FFFF {
        diff := 0x7FFF_FFFF;
      }
      return diff;
    }

    /** What a callback does to the timers: it stops some. */
    method RunCallback(stopped: seq<nat>)
      requires Valid() && forall x :: x in stopped ==> x in handles
      modifies this`handles, tree
      ensures Valid() && handles == Without(old(handles), stopped) && tree.keys == old(tree.keys)
    {
      hide Shape, RedBlack, Kept, Inserted, Sorted;
      var i := 0;
      WithoutNone(handles);
      while i < |stopped|
        invariant i <= |stopped| && Valid() && tree.keys == old(tree.keys)
        invariant handles == Without(old(handles), stopped[..i])
      {
        assert stopped[i] in stopped;
        WithoutMore(old(handles), stopped, i);
        Stop(stopped[i]);
        i := i + 1;
      }
      assert stopped[..i] == stopped;
    }

    /** One turn of the loop of uv__run_timers: the timer is stopped, started again if it repeats, and its callback run. */
    method Fire(h: nat, stopped: seq<nat>)
      requires Valid() && h in tree.Order() && h in handles && forall x :: x in stopped ==> x in handles
      modifies this`handles, this`counter, tree
      ensures Valid() && Fired(old(handles), old(tree.keys), h, stopped, handles, tree.keys, time)
    {
      hide Shape, RedBlack, Kept, Inserted, Sorted;
      KeptMeans(handles, tree.Order(), tree.keys, counter, h);
      Stop(h);
      var ok := Again(h);
      ghost var hs1 := handles;
      RunCallback(stopped);
    }

    /**
      uv__run_timers, for callbacks that start no timer: `stops` tells which ones the callback of a timer
      stops, possibly the timer itself. Exactly the timers fire that are due and that no timer which
      fired before them stopped; each once, in the order of the tree. A repeating one is started again,
      strictly later.
     */
    method RunTimers(stops: map<nat, seq<nat>>) returns (fired: seq<nat>)
      requires Valid() && time < MAX64 && forall h, x :: h in stops && x in stops[h] ==> x in handles
      modifies this`handles, this`counter, tree
      ensures Valid()
      ensures Sorted(old(tree.keys), fired) && forall id :: id in fired ==> id in old(tree.Order())
      ensures forall id :: id in old(tree.Order()) ==>
        (id in fired <==> old(tree.keys)[id].timeout <= time && !StoppedBefore(old(tree.keys), fired, stops, id))
      ensures Passed(old(handles), old(tree.keys), handles, tree.keys, fired, stops, time)
      ensures forall id :: id in tree.Order() ==> id in tree.keys && tree.keys[id].timeout > time
    {
      hide Shape, RedBlack, Kept, Inserted, Sorted, Passed, Fair;
      ghost var was, hs0, keys0 := tree.Order(), handles, tree.keys;
      ghost var n := counter;
      fired := [];
      PassedStart(handles, tree.keys, was, stops, time);
      ghost var waiting := set id | id in was;
      var handle := tree.MinMax(-1);
      HeadIsKept(handles, tree.Order(), tree.keys, counter);
      while handle != 0 && tree.keys[handle].timeout <= time
        invariant Valid() && handles.Keys == hs0.Keys
        invariant if tree.Order() == [] then handle == 0 else handle == tree.Order()[0] && handle != 0
        invariant handle != 0 ==> handle in tree.keys && handle in handles && handle in tree.Order()
        invariant Passed(hs0, keys0, handles, tree.keys, fired, stops, time) && Fair(keys0, was, fired, stops, time)
        invariant waiting == set id | id in was && id !in fired
        decreases waiting
      {
        FirstDue(was, n, fired, stops, hs0, keys0, handles, tree.keys, tree.Order(), counter, time);
        ghost var hs, keys := handles, tree.keys;
        var stopped := if handle in stops then stops[handle] else [];
        Fire(handle, stopped);
        PassedStep(hs0, keys0, hs, keys, fired, stops, time, handle, handles, tree.keys);
        waiting := waiting - {handle};
        fired := fired + [handle];
        handle := tree.MinMax(-1);
        HeadIsKept(handles, tree.Order(), tree.keys, counter);
      }
      PassedAll(was, n, fired, stops, hs0, keys0, handles, tree.keys, tree.Order(), counter, time);
    }
  }

  /** What one timer that fires does to the handles and keys. */
  ghost predicate Fired(hs: map<nat, Timer>, keys: map<nat, Key>, h: nat, stopped: seq<nat>, hs': map<nat, Timer>, keys': map<nat, Key>, time: nat) {
    && time <= MAX64 && h in hs && h in keys && hs[h].hasCb && hs[h].repeat <= MAX64
    && hs' == Without(hs[h := hs[h].(active := hs[h].repeat > 0)], stopped)
    && (if hs[h].repeat == 0 then keys' == keys else exists start :: keys' == keys[h := Key(Due(time, hs[h].repeat), start)])
  }

  /** The handles with some of them stopped. */
  ghost function Without(hs: map<nat, Timer>, stopped: seq<nat>): map<nat, Timer> {
    map id | id in hs :: if id in stopped then hs[id].(active := false) else hs[id]
  }

  lemma WithoutNone(hs: map<nat, Timer>)
    ensures Without(hs, []) == hs
  {
  }

  lemma WithoutMore(hs: map<nat, Timer>, stopped: seq<nat>, i: nat)
    requires i < |stopped| && stopped[i] in hs
    ensures var hs1 := Without(hs, stopped[..i]);
      && stopped[i] in hs1
      && hs1[stopped[i] := hs1[stopped[i]].(active := false)] == Without(hs, stopped[..i + 1])
  {
    assert stopped[..i + 1] == stopped[..i] + [stopped[i]];
  }

  lemma KeptMeans(handles: map<nat, Timer>, order: seq<nat>, keys: map<nat, Key>, counter: nat, id: nat)
    requires Kept(handles, order, keys, counter) && id in handles
    ensures id != 0 && handles[id].repeat <= MAX64 && (handles[id].active <==> id in order)
    ensures handles[id].active ==> id in keys && handles[id].hasCb
  {
  }

  /** The key of a node outside the tree does not matter. */
  lemma SortedApart(keys: map<nat, Key>, keys': map<nat, Key>, s: seq<nat>, id: nat)
    requires Sorted(keys, s) && id !in s && forall x :: x in keys && x != id ==> x in keys' && keys'[x] == keys[x]
    ensures Sorted(keys', s)
  {
    assert forall i :: 0 <= i < |s| ==> s[i] in s;
  }

  lemma FirstIsLeast(keys: map<nat, Key>, s: seq<nat>)
    requires Sorted(keys, s) && s != []
    ensures s[0] in keys && forall x :: x in s ==> x in keys && keys[s[0]].timeout <= keys[x].timeout
  {
  }

  lemma HeadIsKept(handles: map<nat, Timer>, order: seq<nat>, keys: map<nat, Key>, counter: nat)
    requires Kept(handles, order, keys, counter)
    ensures order != [] ==> order[0] in keys && order[0] in handles && order[0] in order
  {
  }

  predicate Stops(stops: map<nat, seq<nat>>, h: nat, id: nat) {
    h in stops && id in stops[h]
  }

  /** A timer that fired and comes before `id` stopped it. */
  ghost predicate StoppedBefore(keys: map<nat, Key>, fired: seq<nat>, stops: map<nat, seq<nat>>, id: nat) {
    exists h :: h in fired && h in keys && id in keys && Cmp(keys[h], keys[id]) < 0 && Stops(stops, h, id)
  }

  /** Whether a timer is active when the ones of `fired` have fired, each stopping others after it was started again. */
  predicate ActiveAfter(h: Timer, id: nat, fired: seq<nat>, stops: map<nat, seq<nat>>)
    decreases |fired|
  {
    if fired == [] then h.active
    else
      var n := |fired| - 1;
      (if fired[n] == id then h.repeat > 0 else ActiveAfter(h, id, fired[..n], stops)) && !Stops(stops, fired[n], id)
  }

  /** A timer that did not fire is active when it was and nothing that fired stopped it. */
  lemma {:induction false} ActiveWhen(h: Timer, id: nat, fired: seq<nat>, stops: map<nat, seq<nat>>)
    requires id !in fired
    ensures ActiveAfter(h, id, fired, stops) <==> h.active && forall g :: g in fired ==> !Stops(stops, g, id)
    decreases |fired|
  {
    if fired != [] {
      var n := |fired| - 1;
      ActiveWhen(h, id, fired[..n], stops);
      assert fired == fired[..n] + [fired[n]];
    }
  }

  /** A timer that fired is active only if it repeats. */
  lemma {:induction false} ActiveRepeats(h: Timer, id: nat, fired: seq<nat>, stops: map<nat, seq<nat>>)
    requires id in fired && ActiveAfter(h, id, fired, stops)
    ensures h.repeat > 0
    decreases |fired|
  {
    var n := |fired| - 1;
    if fired[n] != id {
      assert fired == fired[..n] + [fired[n]];
      ActiveRepeats(h, id, fired[..n], stops);
    }
  }

  /** What firing the timers of `fired` at `time` does to the handles and their keys. */
  ghost predicate Passed(hs0: map<nat, Timer>, keys0: map<nat, Key>, hs: map<nat, Timer>, keys: map<nat, Key>, fired: seq<nat>,
                         stops: map<nat, seq<nat>>, time: nat) {
    && time < MAX64
    && hs.Keys == hs0.Keys && keys.Keys == keys0.Keys
    && (forall id :: id in hs0 ==> hs[id] == hs0[id].(active := ActiveAfter(hs0[id], id, fired, stops)))
    && (forall id :: id in keys0 && id !in fired ==> keys[id] == keys0[id])
    && (forall id :: id in fired ==> id in hs0 && id in keys0)
    && (forall id :: id in fired && hs0[id].repeat > 0 ==> keys[id].timeout == if time + hs0[id].repeat <= MAX64 then time + hs0[id].repeat else MAX64)
  }

  /** Those that fired were due, in order and not stopped before; those passed over were stopped before. */
  ghost predicate Fair(keys0: map<nat, Key>, was: seq<nat>, fired: seq<nat>, stops: map<nat, seq<nat>>, time: nat) {
    && Sorted(keys0, fired)
    && (forall id :: id in fired ==> id in was && id in keys0 && keys0[id].timeout <= time && !StoppedBefore(keys0, fired, stops, id))
    && (forall id, h :: id in was && id !in fired && h in fired && id in keys0 && h in keys0 && Cmp(keys0[id], keys0[h]) < 0 ==>
          StoppedBefore(keys0, fired, stops, id))
  }

  lemma PassedStart(hs: map<nat, Timer>, keys: map<nat, Key>, was: seq<nat>, stops: map<nat, seq<nat>>, time: nat)
    requires time < MAX64
    ensures Passed(hs, keys, hs, keys, [], stops, time) && Fair(keys, was, [], stops, time)
  {
  }

  lemma PassedStep(hs0: map<nat, Timer>, keys0: map<nat, Key>, hs: map<nat, Timer>, keys: map<nat, Key>, fired: seq<nat>,
                   stops: map<nat, seq<nat>>, time: nat, h: nat, hs': map<nat, Timer>, keys': map<nat, Key>)
    requires Passed(hs0, keys0, hs, keys, fired, stops, time) && h !in fired
    requires Fired(hs, keys, h, if h in stops then stops[h] else [], hs', keys', time)
    ensures Passed(hs0, keys0, hs', keys', fired + [h], stops, time)
  {
    hide ActiveAfter;
    var fired' := fired + [h];
    forall id | id in hs0
      ensures id in hs' && hs'[id] == hs0[id].(active := ActiveAfter(hs0[id], id, fired', stops))
    {
      ActiveMore(hs0[id], id, fired, h, stops);
    }
    assert forall id :: id in fired' <==> id in fired || id == h;
  }

  lemma ActiveMore(t: Timer, id: nat, fired: seq<nat>, h: nat, stops: map<nat, seq<nat>>)
    ensures ActiveAfter(t, id, fired + [h], stops)
       <==> (if h == id then t.repeat > 0 else ActiveAfter(t, id, fired, stops)) && !Stops(stops, h, id)
  {
    assert (fired + [h])[..|fired|] == fired;
  }

  /** A timer passed over by a later one that fired was stopped by one that fired before it. */
  lemma StoppedMeansBefore(was: seq<nat>, fired: seq<nat>, stops: map<nat, seq<nat>>, keys0: map<nat, Key>, time: nat, id: nat, h: nat)
    requires Fair(keys0, was, fired, stops, time) && id in was && id !in fired && id in keys0 && h in fired && Stops(stops, h, id)
    requires h in was && Sorted(keys0, was)
    ensures StoppedBefore(keys0, fired, stops, id)
  {
    var i :| 0 <= i < |was| && was[i] == id;
    var j :| 0 <= j < |was| && was[j] == h;
    assert i != j;
  }

  /** The first timer of the tree, when due, has not fired, is later than all that fired, and was stopped by none of them. */
  lemma FirstDue(was: seq<nat>, n: nat, fired: seq<nat>, stops: map<nat, seq<nat>>, hs0: map<nat, Timer>, keys0: map<nat, Key>,
                 hs: map<nat, Timer>, keys: map<nat, Key>, order: seq<nat>, counter: nat, time: nat)
    requires Passed(hs0, keys0, hs, keys, fired, stops, time) && Fair(keys0, was, fired, stops, time)
    requires Kept(hs0, was, keys0, n) && Sorted(keys0, was) && Kept(hs, order, keys, counter) && Sorted(keys, order)
    requires order != [] && keys[order[0]].timeout <= time
    ensures order[0] in was && order[0] !in fired && Fair(keys0, was, fired + [order[0]], stops, time)
  {
    hide Kept, Sorted, Passed, Fair;
    var h := order[0];
    StillDue(fired, stops, hs0, keys0, hs, keys, order, counter, time, was, n);
    LaterThanFired(was, fired, stops, keys0, time, h);
    Unfired(fired, stops, hs0, keys0, hs, keys, order, counter, time, was, n, h);
    forall id | id in was && id !in fired && id != h
      ensures id in keys0 && (Cmp(keys0[id], keys0[h]) < 0 ==> exists g :: g in fired && Stops(stops, g, id))
    {
      Unfired(fired, stops, hs0, keys0, hs, keys, order, counter, time, was, n, id);
      if id in order {
        FirstOfOrder(keys, order, id);
      }
    }
    FairStep(was, fired, stops, keys0, time, h);
  }

  lemma FirstOfOrder(keys: map<nat, Key>, order: seq<nat>, id: nat)
    requires Sorted(keys, order) && order != [] && id in order
    ensures id in keys && order[0] in keys && Cmp(keys[order[0]], keys[id]) <= 0
    ensures id != order[0] ==> Cmp(keys[id], keys[order[0]]) > 0
  {
  }

  lemma LaterThanFired(was: seq<nat>, fired: seq<nat>, stops: map<nat, seq<nat>>, keys0: map<nat, Key>, time: nat, h: nat)
    requires Fair(keys0, was, fired, stops, time) && Sorted(keys0, was) && h in was && h !in fired
    requires forall g :: g in fired ==> !Stops(stops, g, h)
    ensures h in keys0 && forall g :: g in fired ==> g in keys0 && Cmp(keys0[g], keys0[h]) < 0
  {
    var i :| 0 <= i < |was| && was[i] == h;
    forall g | g in fired
      ensures g in keys0 && Cmp(keys0[g], keys0[h]) < 0
    {
      var j :| 0 <= j < |was| && was[j] == g;
      assert i != j;
    }
  }

  lemma FairStep(was: seq<nat>, fired: seq<nat>, stops: map<nat, seq<nat>>, keys0: map<nat, Key>, time: nat, h: nat)
    requires Fair(keys0, was, fired, stops, time) && Sorted(keys0, was) && h in was && h !in fired && h in keys0 && keys0[h].timeout <= time
    requires forall g :: g in fired ==> !Stops(stops, g, h) && g in keys0 && Cmp(keys0[g], keys0[h]) < 0
    requires forall id :: id in was && id !in fired && id != h ==>
      id in keys0 && (Cmp(keys0[id], keys0[h]) < 0 ==> exists g :: g in fired && Stops(stops, g, id))
    ensures Fair(keys0, was, fired + [h], stops, time)
  {
    var fired' := fired + [h];
    assert Sorted(keys0, fired') by {
      forall a, b | 0 <= a < b < |fired'|
        ensures fired'[a] in keys0 && fired'[b] in keys0 && Cmp(keys0[fired'[a]], keys0[fired'[b]]) < 0
      {
        assert fired'[a] == fired[a];
        assert fired[a] in fired;
      }
      assert forall a :: 0 <= a < |fired| ==> fired[a] in fired;
    }
    hide Sorted;
    forall id | id in fired'
      ensures id in was && id in keys0 && keys0[id].timeout <= time && !StoppedBefore(keys0, fired', stops, id)
    {
      NotStoppedStill(keys0, fired, stops, h, id);
    }
    forall id, g | id in was && id !in fired' && g in fired' && id in keys0 && g in keys0 && Cmp(keys0[id], keys0[g]) < 0
      ensures StoppedBefore(keys0, fired', stops, id)
    {
      if g == h {
        var f :| f in fired && Stops(stops, f, id);
        StoppedMeansBefore(was, fired, stops, keys0, time, id, f);
      }
      assert StoppedBefore(keys0, fired, stops, id);
      var f :| f in fired && f in keys0 && Cmp(keys0[f], keys0[id]) < 0 && Stops(stops, f, id);
      assert f in fired';
    }
  }

  /** A timer that fires last stops nothing that came before it. */
  lemma NotStoppedStill(keys0: map<nat, Key>, fired: seq<nat>, stops: map<nat, seq<nat>>, h: nat, id: nat)
    requires h in keys0 && forall g :: g in fired ==> !Stops(stops, g, h) && g in keys0 && Cmp(keys0[g], keys0[h]) < 0
    requires id in fired + [h] && (id in fired ==> !StoppedBefore(keys0, fired, stops, id))
    ensures !StoppedBefore(keys0, fired + [h], stops, id)
  {
  }

  lemma StillDue(fired: seq<nat>, stops: map<nat, seq<nat>>, hs0: map<nat, Timer>, keys0: map<nat, Key>, hs: map<nat, Timer>, keys: map<nat, Key>,
                 order: seq<nat>, counter: nat, time: nat, was: seq<nat>, n: nat)
    requires Passed(hs0, keys0, hs, keys, fired, stops, time) && Kept(hs, order, keys, counter) && Kept(hs0, was, keys0, n)
    requires order != [] && keys[order[0]].timeout <= time
    ensures var h := order[0]; h !in fired && h in was && h in keys0 && keys0[h].timeout <= time && forall g :: g in fired ==> !Stops(stops, g, h)
  {
    var h := order[0];
    assert h in order && hs[h].active;
    assert ActiveAfter(hs0[h], h, fired, stops);
    FiredIsLater(fired, stops, hs0, keys0, hs, keys, time, h);
    ActiveWhen(hs0[h], h, fired, stops);
  }

  lemma FiredIsLater(fired: seq<nat>, stops: map<nat, seq<nat>>, hs0: map<nat, Timer>, keys0: map<nat, Key>, hs: map<nat, Timer>, keys: map<nat, Key>,
                     time: nat, h: nat)
    requires Passed(hs0, keys0, hs, keys, fired, stops, time) && h in hs0 && h in keys && ActiveAfter(hs0[h], h, fired, stops)
    ensures h in fired ==> keys[h].timeout > time
  {
    if h in fired {
      ActiveRepeats(hs0[h], h, fired, stops);
    }
  }

  /** A timer that has not fired has the key it had, and is in the tree unless one that fired stopped it. */
  lemma Unfired(fired: seq<nat>, stops: map<nat, seq<nat>>, hs0: map<nat, Timer>, keys0: map<nat, Key>, hs: map<nat, Timer>, keys: map<nat, Key>,
                order: seq<nat>, counter: nat, time: nat, was: seq<nat>, n: nat, id: nat)
    requires Passed(hs0, keys0, hs, keys, fired, stops, time) && Kept(hs, order, keys, counter) && Kept(hs0, was, keys0, n)
    requires id in was && id !in fired
    ensures id in keys && id in keys0 && keys[id] == keys0[id]
    ensures id in order || exists g :: g in fired && Stops(stops, g, id)
  {
    ActiveWhen(hs0[id], id, fired, stops);
  }

  /** When nothing in the tree is due, all have fired that were due and not stopped before. */
  lemma PassedAll(was: seq<nat>, n: nat, fired: seq<nat>, stops: map<nat, seq<nat>>, hs0: map<nat, Timer>, keys0: map<nat, Key>,
                  hs: map<nat, Timer>, keys: map<nat, Key>, order: seq<nat>, counter: nat, time: nat)
    requires Passed(hs0, keys0, hs, keys, fired, stops, time) && Fair(keys0, was, fired, stops, time) && Sorted(keys0, was)
    requires Kept(hs0, was, keys0, n) && Kept(hs, order, keys, counter) && Sorted(keys, order)
    requires order != [] ==> keys[order[0]].timeout > time
    ensures Sorted(keys0, fired) && forall id :: id in fired ==> id in was
    ensures forall id :: id in was ==> id in keys0 && (id in fired <==> keys0[id].timeout <= time && !StoppedBefore(keys0, fired, stops, id))
    ensures forall id :: id in order ==> id in keys && keys[id].timeout > time
  {
    assert Sorted(keys0, fired) && forall id :: id in fired ==> id in was;
    if order != [] {
      FirstIsLeast(keys, order);
    }
    forall id | id in was
      ensures id in keys0 && (id in fired <==> keys0[id].timeout <= time && !StoppedBefore(keys0, fired, stops, id))
    {
      if id !in fired {
        Unfired(fired, stops, hs0, keys0, hs, keys, order, counter, time, was, n, id);
        if id !in order {
          var g :| g in fired && Stops(stops, g, id);
          StoppedMeansBefore(was, fired, stops, keys0, time, id, g);
        }
      }
    }
  }

  /** At the last instant of the clock a timer that repeats is due again as soon as it is started again. */
  lemma LastInstant(repeat: nat)
    requires 0 < repeat <= MAX64
    ensures forall time :: 0 <= time <= MAX64 ==> (Due(time, repeat) <= time <==> time == MAX64)
  {
  }
}
