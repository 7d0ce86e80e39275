/** The embedding cache: least-recently-used with a time to live, over any sequence of calls. */
module Lru {
  import opened Basics

  type Vec = seq<real>

  datatype Entry = Entry(vec: Vec, born: nat, lastUsed: nat)

  type Entries = map<nat, Entry>

  predicate Expired(born: nat, now: nat, ttl: nat) {
    now > born + ttl
  }

  /** A least recently used key; there may be several with the same instant. */
  predicate IsVictim(entries: Entries, key: nat) {
    key in entries && forall k | k in entries :: entries[key].lastUsed <= entries[k].lastUsed
  }

  function Getting(entries: Entries, key: nat, now: nat, ttl: nat): (Entries, Option<Vec>) {
    if key !in entries then (entries, None)
    else if Expired(entries[key].born, now, ttl) then (entries - {key}, None)
    else (entries[key := entries[key].(lastUsed := now)], Some(entries[key].vec))
  }

  predicate MustEvict(entries: Entries, key: nat, capacity: nat) {
    |entries| >= capacity && key !in entries
  }

  function Putting(entries: Entries, key: nat, vec: Vec, now: nat, capacity: nat, victim: nat): Entries {
    var room := if MustEvict(entries, key, capacity) then entries - {victim} else entries;
    room[key := Entry(vec, now, now)]
  }

  class LruCache {
    const capacity: nat
    const ttl: nat
    var entries: Entries

    constructor (capacity: nat, ttl: nat)
      ensures this.capacity == Max(capacity, 1) && this.ttl == ttl && entries == map[]
    {
      this.capacity, this.ttl, entries := if capacity < 1 then 1 else capacity, ttl, map[];
    }

    /** A hit refreshes the entry, an expired entry is dropped. */
    method Get(key: nat, now: nat) returns (vec: Option<Vec>)
      modifies this
      ensures vec.Some? <==> key in old(entries) && now <= old(entries)[key].born + ttl
      ensures vec.Some? ==>
                && vec.value == old(entries)[key].vec
                && entries == old(entries)[key := Entry(vec.value, old(entries)[key].born, now)]
      ensures vec.None? ==> entries == old(entries) - {key}
      ensures (entries, vec) == Getting(old(entries), key, now, ttl)
    {
      if key !in entries {
        return None;
      }
      var entry := entries[key];
      if now > entry.born + ttl {
        entries := entries - {key};
        return None;
      }
      entries := entries[key := entry.(lastUsed := now)];
      return Some(entry.vec);
    }

    /** Scans all entries for the smallest instant, in whatever order the map yields them. */
    method LeastRecentlyUsed() returns (victim: nat)
      requires entries != map[]
      ensures IsVictim(entries, victim)
    {
      victim :| victim in entries;
      var todo := entries.Keys - {victim};
      while todo != {}
        invariant victim in entries && todo <= entries.Keys
        invariant forall k | k in entries.Keys - todo :: entries[victim].lastUsed <= entries[k].lastUsed
      {
        var k :| k in todo;
        if entries[k].lastUsed < entries[victim].lastUsed {
          victim := k;
        }
        todo := todo - {k};
      }
    }

    method Put(key: nat, vec: Vec, now: nat) returns (ghost victim: nat)
      requires capacity >= 1
      modifies this
      ensures MustEvict(old(entries), key, capacity) ==> IsVictim(old(entries), victim)
      ensures key in entries && entries[key] == Entry(vec, now, now)
      ensures entries - {key} == if |old(entries)| >= capacity && key !in old(entries)
                                 then old(entries) - {victim} else old(entries) - {key}
      ensures entries == Putting(old(entries), key, vec, now, capacity, victim)
    {
      if |entries| >= capacity && key !in entries {
        var least := LeastRecentlyUsed();
        victim := least;
        entries := entries - {least};
      } else {
        victim := 0;
      }
      entries := entries[key := Entry(vec, now, now)];
    }
  }

  // ---------------------------------------------------------------- runs of calls

  datatype Call = Get(key: nat, at: nat) | Put(key: nat, vec: Vec, at: nat, victim: nat)

  /** A put or a hit. */
  datatype Use = Use(key: nat, at: nat)

  datatype Written = Written(vec: Vec, born: nat)

  /** The cache with what has happened to it: uses in order, what was last put under each key, and the time. */
  datatype World = World(entries: Entries, uses: seq<Use>, puts: map<nat, Written>, now: nat)

  const FRESH := World(map[], [], map[], 0)

  /** The clock never goes back; two calls may read the same instant. */
  predicate Possible(w: World, call: Call, capacity: nat) {
    call.at >= w.now && (call.Put? && MustEvict(w.entries, call.key, capacity) ==> IsVictim(w.entries, call.victim))
  }

  function Called(w: World, call: Call, capacity: nat, ttl: nat): World {
    match call
    case Get(key, at) =>
      var (entries, vec) := Getting(w.entries, key, at, ttl);
      World(entries, if vec.Some? then w.uses + [Use(key, at)] else w.uses, w.puts, at)
    case Put(key, vec, at, victim) =>
      World(Putting(w.entries, key, vec, at, capacity, victim), w.uses + [Use(key, at)],
            w.puts[key := Written(vec, at)], at)
  }

  function LastUse(uses: seq<Use>, key: nat): Option<nat> {
    if uses == [] then None
    else if uses[|uses| - 1].key == key then Some(uses[|uses| - 1].at)
    else LastUse(uses[..|uses| - 1], key)
  }

  /** The other keys used since the last use of `key`. */
  function OthersSince(uses: seq<Use>, key: nat): set<nat> {
    if uses == [] || uses[|uses| - 1].key == key then {}
    else OthersSince(uses[..|uses| - 1], key) + {uses[|uses| - 1].key}
  }

  ghost predicate Rising(uses: seq<Use>, now: nat) {
    && (forall i, j | 0 <= i < j < |uses| :: uses[i].at <= uses[j].at)
    && (forall u | u in uses :: u.at <= now)
  }

  lemma {:induction false} LastUseIn(uses: seq<Use>, key: nat)
    ensures LastUse(uses, key).Some? <==> exists u :: u in uses && u.key == key
    ensures LastUse(uses, key).Some? ==> Use(key, LastUse(uses, key).value) in uses
  {
    if uses != [] {
      LastUseIn(uses[..|uses| - 1], key);
      assert uses == uses[..|uses| - 1] + [uses[|uses| - 1]];
    }
  }

  /** A key used later than `key` is among the others used since. */
  lemma {:induction false} UsedLater(uses: seq<Use>, now: nat, key: nat, other: nat)
    requires Rising(uses, now) && LastUse(uses, key).Some? && LastUse(uses, other).Some?
    requires LastUse(uses, key).value < LastUse(uses, other).value
    ensures other in OthersSince(uses, key)
  {
    var last := uses[|uses| - 1];
    var before := uses[..|uses| - 1];
    LastUseIn(uses, other);
    if last.key == key {
      LastUseIn(before, other);
      assert Use(other, LastUse(before, other).value) in before;
      assert false;
    } else if last.key != other {
      UsedLater(before, now, key, other);
    }
  }

  lemma UseGrows(uses: seq<Use>, use: Use, key: nat)
    ensures LastUse(uses + [use], key) == if use.key == key then Some(use.at) else LastUse(uses, key)
    ensures OthersSince(uses + [use], key) == if use.key == key then {} else OthersSince(uses, key) + {use.key}
  {
    assert (uses + [use])[..|uses|] == uses;
  }

  lemma UsesRise(w: World, use: Use)
    requires Rising(w.uses, w.now) && use.at >= w.now
    ensures Rising(w.uses + [use], use.at)
  {
  }

  // ---------------------------------------------------------------- what every run keeps

  /** An entry is what was last put under its key, as of its last use. */
  ghost predicate EntryTrue(w: World, key: nat)
    requires key in w.entries
  {
    && key in w.puts && w.puts[key] == Written(w.entries[key].vec, w.entries[key].born)
    && LastUse(w.uses, key) == Some(w.entries[key].lastUsed)
  }

  ghost predicate Inv(w: World, capacity: nat) {
    && |w.entries| <= capacity && Rising(w.uses, w.now)
    && forall key | key in w.entries :: EntryTrue(w, key)
  }

  lemma PutKeeps(w: World, call: Call, capacity: nat, ttl: nat)
    requires Inv(w, capacity) && Possible(w, call, capacity) && call.Put? && capacity >= 1
    ensures Inv(Called(w, call, capacity, ttl), capacity)
  {
    var w' := Called(w, call, capacity, ttl);
    var use := Use(call.key, call.at);
    UsesRise(w, use);
    if MustEvict(w.entries, call.key, capacity) {
      MapMinusSize(w.entries, {call.victim});
    }
    forall key | key in w'.entries ensures EntryTrue(w', key) {
      UseGrows(w.uses, use, key);
      assert key != call.key ==> EntryTrue(w, key);
    }
  }

  lemma GetKeeps(w: World, call: Call, capacity: nat, ttl: nat)
    requires Inv(w, capacity) && Possible(w, call, capacity) && call.Get?
    ensures Inv(Called(w, call, capacity, ttl), capacity)
  {
    var w' := Called(w, call, capacity, ttl);
    var use := Use(call.key, call.at);
    UsesRise(w, use);
    if call.key in w.entries {
      MapMinusSize(w.entries, {call.key});
    }
    assert |w'.entries.Keys| <= |w.entries.Keys|;
    forall key | key in w'.entries ensures EntryTrue(w', key) {
      UseGrows(w.uses, use, key);
      assert EntryTrue(w, key);
    }
  }

  lemma CallKeeps(w: World, call: Call, capacity: nat, ttl: nat)
    requires Inv(w, capacity) && Possible(w, call, capacity) && capacity >= 1
    ensures Inv(Called(w, call, capacity, ttl), capacity)
  {
    if call.Put? {
      PutKeeps(w, call, capacity, ttl);
    } else {
      GetKeeps(w, call, capacity, ttl);
    }
  }

  predicate CanCall(w: World, calls: seq<Call>, capacity: nat, ttl: nat)
    decreases |calls|
  {
    calls == [] || (&& Possible(w, calls[0], capacity)
                    && CanCall(Called(w, calls[0], capacity, ttl), calls[1..], capacity, ttl))
  }

  function AfterCalls(w: World, calls: seq<Call>, capacity: nat, ttl: nat): World
    requires CanCall(w, calls, capacity, ttl)
    decreases |calls|
  {
    if calls == [] then w else AfterCalls(Called(w, calls[0], capacity, ttl), calls[1..], capacity, ttl)
  }

  lemma {:induction false} RunKeeps(w: World, calls: seq<Call>, capacity: nat, ttl: nat)
    requires Inv(w, capacity) && CanCall(w, calls, capacity, ttl) && capacity >= 1
    ensures Inv(AfterCalls(w, calls, capacity, ttl), capacity)
    decreases |calls|
  {
    if calls != [] {
      CallKeeps(w, calls[0], capacity, ttl);
      RunKeeps(Called(w, calls[0], capacity, ttl), calls[1..], capacity, ttl);
    }
  }

  // ---------------------------------------------------------------- when an eviction is justified

  /** Why a key that was put is no longer there. */
  ghost predicate Excused(w: World, key: nat, capacity: nat, ttl: nat)
    requires key in w.puts
  {
    Expired(w.puts[key].born, w.now, ttl) || |OthersSince(w.uses, key)| >= capacity
  }

  /** Of the entries with the least instant, each one that has not expired is the only one. */
  predicate Justified(entries: Entries, at: nat, ttl: nat) {
    forall a, b | a in entries && b in entries && a != b && IsVictim(entries, a) && IsVictim(entries, b) ::
      Expired(entries[a].born, at, ttl)
  }

  /** An eviction is excused if its victim has expired or is the only least recently used entry: all other
      entries were then used after it, and with the key being put they are `capacity` others. */
  lemma EvictionExcused(w: World, call: Call, capacity: nat, ttl: nat)
    requires Inv(w, capacity) && Possible(w, call, capacity) && call.Put?
    requires MustEvict(w.entries, call.key, capacity) && capacity >= 1 && Justified(w.entries, call.at, ttl)
    ensures call.victim in w.puts && Excused(Called(w, call, capacity, ttl), call.victim, capacity, ttl)
  {
    var v := call.victim;
    assert EntryTrue(w, v);
    if !Expired(w.entries[v].born, call.at, ttl) {
      var others := OthersSince(w.uses, v);
      forall k | k in w.entries && k != v ensures k in others {
        assert EntryTrue(w, k) && !IsVictim(w.entries, k);
        UsedLater(w.uses, w.now, v, k);
      }
      UseGrows(w.uses, Use(call.key, call.at), v);
      var crowd := w.entries.Keys - {v} + {call.key};
      SubsetSize(crowd, others + {call.key});
      assert |w.entries.Keys - {v}| == |w.entries| - 1;
    }
  }

  /** Every eviction of the run is justified, which is decided by the entries alone. */
  predicate AllJustified(w: World, calls: seq<Call>, capacity: nat, ttl: nat)
    requires CanCall(w, calls, capacity, ttl)
    decreases |calls|
  {
    calls == [] || (&& (calls[0].Put? && MustEvict(w.entries, calls[0].key, capacity) ==>
                          Justified(w.entries, calls[0].at, ttl))
                    && AllJustified(Called(w, calls[0], capacity, ttl), calls[1..], capacity, ttl))
  }

  ghost predicate AllExcused(w: World, capacity: nat, ttl: nat) {
    forall key | key in w.puts && key !in w.entries :: Excused(w, key, capacity, ttl)
  }

  lemma ExcusesLast(w: World, w': World, key: nat, use: Use, capacity: nat, ttl: nat)
    requires key in w.puts && key in w'.puts && w.puts[key] == w'.puts[key] && Excused(w, key, capacity, ttl)
    requires w.now <= w'.now && (w'.uses == w.uses || (use.key != key && w'.uses == w.uses + [use]))
    ensures Excused(w', key, capacity, ttl)
  {
    UseGrows(w.uses, use, key);
    SubsetSize(OthersSince(w.uses, key), OthersSince(w'.uses, key));
  }

  lemma CallKeepsExcuses(w: World, call: Call, capacity: nat, ttl: nat)
    requires Inv(w, capacity) && Possible(w, call, capacity) && capacity >= 1 && AllExcused(w, capacity, ttl)
    requires call.Put? && MustEvict(w.entries, call.key, capacity) ==> Justified(w.entries, call.at, ttl)
    ensures AllExcused(Called(w, call, capacity, ttl), capacity, ttl)
  {
    var w' := Called(w, call, capacity, ttl);
    forall key | key in w'.puts && key !in w'.entries ensures Excused(w', key, capacity, ttl) {
      if key !in w.entries {
        ExcusesLast(w, w', key, Use(call.key, call.at), capacity, ttl);
      } else if call.Put? {
        EvictionExcused(w, call, capacity, ttl);
      } else {
        assert EntryTrue(w, key);
      }
    }
  }

  lemma {:induction false} RunKeepsExcuses(w: World, calls: seq<Call>, capacity: nat, ttl: nat)
    requires Inv(w, capacity) && CanCall(w, calls, capacity, ttl) && capacity >= 1 && AllExcused(w, capacity, ttl)
    requires AllJustified(w, calls, capacity, ttl)
    ensures AllExcused(AfterCalls(w, calls, capacity, ttl), capacity, ttl)
    decreases |calls|
  {
    if calls != [] {
      CallKeeps(w, calls[0], capacity, ttl);
      CallKeepsExcuses(w, calls[0], capacity, ttl);
      RunKeepsExcuses(Called(w, calls[0], capacity, ttl), calls[1..], capacity, ttl);
    }
  }

  /** After any calls, at most `capacity` entries are held, and a lookup that hits yields what was last put
      under its key, put no longer than the time to live ago. If every eviction was justified, a lookup misses
      a key whose last put has not expired only after `capacity` other keys were put or hit since that key's
      last use. */
  lemma LruGuarantee(calls: seq<Call>, capacity: nat, ttl: nat, key: nat, now: nat)
    requires capacity >= 1 && CanCall(FRESH, calls, capacity, ttl)
    requires now >= AfterCalls(FRESH, calls, capacity, ttl).now
    ensures var w := AfterCalls(FRESH, calls, capacity, ttl);
            var (_, vec) := Getting(w.entries, key, now, ttl);
            && |w.entries| <= capacity
            && (vec.Some? ==> key in w.puts && vec.value == w.puts[key].vec && now <= w.puts[key].born + ttl)
            && (AllJustified(FRESH, calls, capacity, ttl) ==>
                  (vec.None? && key in w.puts && now <= w.puts[key].born + ttl ==>
                     |OthersSince(w.uses, key)| >= capacity))
  {
    RunKeeps(FRESH, calls, capacity, ttl);
    var w := AfterCalls(FRESH, calls, capacity, ttl);
    if key in w.entries {
      assert EntryTrue(w, key);
    }
    if AllJustified(FRESH, calls, capacity, ttl) {
      RunKeepsExcuses(FRESH, calls, capacity, ttl);
    }
  }

  // ---------------------------------------------------------------- every other eviction fails some history

  lemma {:induction false} RunSnoc(w: World, calls: seq<Call>, call: Call, capacity: nat, ttl: nat)
    requires CanCall(w, calls, capacity, ttl) && Possible(AfterCalls(w, calls, capacity, ttl), call, capacity)
    ensures CanCall(w, calls + [call], capacity, ttl)
    ensures AfterCalls(w, calls + [call], capacity, ttl)
            == Called(AfterCalls(w, calls, capacity, ttl), call, capacity, ttl)
    decreases |calls|
  {
    var all := calls + [call];
    if calls == [] {
      assert all[1..] == [];
    } else {
      assert all[0] == calls[0] && all[1..] == calls[1..] + [call];
      RunSnoc(Called(w, calls[0], capacity, ttl), calls[1..], call, capacity, ttl);
    }
  }

  /** Entries as some history could leave them: used no earlier than put, and never hit after they expired. */
  predicate Plausible(entries: Entries, capacity: nat, ttl: nat) {
    |entries| <= capacity && forall k | k in entries :: entries[k].born <= entries[k].lastUsed <= entries[k].born + ttl
  }

  predicate UsedBy(entries: Entries, at: nat) {
    forall k | k in entries :: entries[k].lastUsed <= at
  }

  lemma {:induction false} LastUsed(keys: set<nat>, entries: Entries) returns (k: nat)
    requires keys != {} && keys <= entries.Keys
    ensures k in keys && forall j | j in keys :: entries[j].lastUsed <= entries[k].lastUsed
    decreases keys
  {
    var first :| first in keys;
    k := first;
    if keys - {first} != {} {
      var other := LastUsed(keys - {first}, entries);
      if entries[first].lastUsed < entries[other].lastUsed {
        k := other;
      }
    }
    forall j | j in keys ensures entries[j].lastUsed <= entries[k].lastUsed {
      assert j == first || j in keys - {first};
    }
  }

  /** The entries that have been hit since they were put. */
  function Hit(entries: Entries): set<nat> {
    set k | k in entries && entries[k].born < entries[k].lastUsed
  }

  /** The entries before the last thing that happened to `k`: the hit, or the put if there was no hit. */
  function Before(entries: Entries, k: nat): Entries
    requires k in entries
  {
    if entries[k].born < entries[k].lastUsed then entries[k := entries[k].(lastUsed := entries[k].born)]
    else entries - {k}
  }

  function LastCall(entries: Entries, k: nat): Call
    requires k in entries
  {
    if entries[k].born < entries[k].lastUsed then Get(k, entries[k].lastUsed)
    else Put(k, entries[k].vec, entries[k].born, 0)
  }

  lemma BeforeIsPlausible(entries: Entries, k: nat, capacity: nat, ttl: nat)
    requires Plausible(entries, capacity, ttl) && k in entries && UsedBy(entries, entries[k].lastUsed)
    ensures Plausible(Before(entries, k), capacity, ttl) && UsedBy(Before(entries, k), entries[k].lastUsed)
    ensures entries[k].born < entries[k].lastUsed ==>
              Before(entries, k).Keys == entries.Keys && Hit(Before(entries, k)) == Hit(entries) - {k}
    ensures entries[k].born >= entries[k].lastUsed ==> Before(entries, k).Keys == entries.Keys - {k}
  {
    if entries[k].born < entries[k].lastUsed {
      assert Before(entries, k).Keys == entries.Keys;
      assert |Before(entries, k)| == |Before(entries, k).Keys| == |entries.Keys|;
    } else {
      MapMinusSize(entries, {k});
    }
  }

  lemma LastCallLeads(w: World, entries: Entries, k: nat, capacity: nat, ttl: nat)
    requires Plausible(entries, capacity, ttl) && k in entries
    requires w.entries == Before(entries, k) && w.now <= entries[k].lastUsed
    ensures Possible(w, LastCall(entries, k), capacity)
    ensures var w' := Called(w, LastCall(entries, k), capacity, ttl);
            && w'.entries == entries && w'.now == entries[k].lastUsed
            && w'.uses == w.uses + [Use(k, entries[k].lastUsed)]
  {
    if entries[k].born < entries[k].lastUsed {
      assert w.entries[k := w.entries[k].(lastUsed := entries[k].lastUsed)] == entries;
    } else {
      MapMinusSize(entries, {k});
      assert (entries - {k})[k := entries[k]] == entries;
    }
  }

  predicate Tied(entries: Entries, a: nat, b: nat) {
    a in entries && b in entries && a != b && entries[a].lastUsed == entries[b].lastUsed
  }

  /** The calls leave these entries, using no other key, and use `a` after `b` if both were last used at one
      instant. */
  ghost predicate Reached(calls: seq<Call>, entries: Entries, capacity: nat, ttl: nat, a: nat, b: nat) {
    && CanCall(FRESH, calls, capacity, ttl)
    && var w := AfterCalls(FRESH, calls, capacity, ttl);
       && w.entries == entries && (forall at | UsedBy(entries, at) :: w.now <= at)
       && (forall k :: OthersSince(w.uses, k) <= entries.Keys - {k})
       && (Tied(entries, a, b) ==> b !in OthersSince(w.uses, a))
  }

  lemma ReachedNext(calls: seq<Call>, entries: Entries, k: nat, capacity: nat, ttl: nat, a: nat, b: nat)
    requires Plausible(entries, capacity, ttl) && k in entries && UsedBy(entries, entries[k].lastUsed)
    requires Reached(calls, Before(entries, k), capacity, ttl, a, b)
    requires a in entries && entries[a].lastUsed == entries[k].lastUsed ==> k == a
    ensures Reached(calls + [LastCall(entries, k)], entries, capacity, ttl, a, b)
  {
    var w := AfterCalls(FRESH, calls, capacity, ttl);
    var use := Use(k, entries[k].lastUsed);
    BeforeIsPlausible(entries, k, capacity, ttl);
    LastCallLeads(w, entries, k, capacity, ttl);
    RunSnoc(FRESH, calls, LastCall(entries, k), capacity, ttl);
    forall j ensures OthersSince(w.uses + [use], j) <= entries.Keys - {j} {
      UseGrows(w.uses, use, j);
    }
    if Tied(entries, a, b) {
      UseGrows(w.uses, use, a);
      assert k != a ==> Tied(Before(entries, k), a, b);
    }
  }

  /** Any plausible entries are reached by some calls. */
  lemma {:induction false} Reach(entries: Entries, capacity: nat, ttl: nat, a: nat, b: nat) returns (calls: seq<Call>)
    requires Plausible(entries, capacity, ttl)
    ensures Reached(calls, entries, capacity, ttl, a, b)
    decreases |entries|, |Hit(entries)|
  {
    if entries == map[] {
      calls := [];
    } else {
      var k := LastUsed(entries.Keys, entries);
      if a in entries && entries[a].lastUsed == entries[k].lastUsed {
        k := a;
      }
      ReachMeasure(entries, k, capacity, ttl);
      calls := Reach(Before(entries, k), capacity, ttl, a, b);
      ReachedNext(calls, entries, k, capacity, ttl, a, b);
      calls := calls + [LastCall(entries, k)];
    }
  }

  lemma ReachMeasure(entries: Entries, k: nat, capacity: nat, ttl: nat)
    requires Plausible(entries, capacity, ttl) && k in entries && UsedBy(entries, entries[k].lastUsed)
    ensures var before := Before(entries, k);
            && Plausible(before, capacity, ttl)
            && (|before| < |entries| || (|before| == |entries| && |Hit(before)| < |Hit(entries)|))
  {
    BeforeIsPlausible(entries, k, capacity, ttl);
    var before := Before(entries, k);
    assert |before| == |before.Keys| && |entries| == |entries.Keys|;
    if entries[k].born < entries[k].lastUsed {
      assert k in Hit(entries) && Hit(entries) == Hit(before) + {k};
    }
  }

  /** An eviction about to happen is excused whatever history led to these entries and whichever victim is
      chosen, exactly when it is justified. */
  lemma ExcusedForEveryHistoryIff(entries: Entries, capacity: nat, ttl: nat, key: nat, vec: Vec, at: nat)
    requires |entries| == capacity && Plausible(entries, capacity, ttl) && UsedBy(entries, at)
    requires capacity >= 1 && key !in entries
    ensures Justified(entries, at, ttl)
            <==> forall calls, victim | LeadsTo(calls, entries, at, capacity, ttl) && IsVictim(entries, victim) ::
                   EvictsExcused(calls, key, vec, at, victim, capacity, ttl)
  {
    forall calls, victim | LeadsTo(calls, entries, at, capacity, ttl) && IsVictim(entries, victim)
                           && Justified(entries, at, ttl)
      ensures EvictsExcused(calls, key, vec, at, victim, capacity, ttl)
    {
      RunKeeps(FRESH, calls, capacity, ttl);
      EvictionExcused(AfterCalls(FRESH, calls, capacity, ttl), Put(key, vec, at, victim), capacity, ttl);
    }
    if !Justified(entries, at, ttl) {
      var a, b :| a in entries && b in entries && a != b && IsVictim(entries, a) && IsVictim(entries, b)
                  && !Expired(entries[a].born, at, ttl);
      var calls := TieBreaks(entries, capacity, ttl, key, vec, at, a, b);
      assert !EvictsExcused(calls, key, vec, at, a, capacity, ttl);
    }
  }

  ghost predicate LeadsTo(calls: seq<Call>, entries: Entries, at: nat, capacity: nat, ttl: nat) {
    && CanCall(FRESH, calls, capacity, ttl)
    && AfterCalls(FRESH, calls, capacity, ttl).entries == entries && AfterCalls(FRESH, calls, capacity, ttl).now <= at
  }

  ghost predicate EvictsExcused(calls: seq<Call>, key: nat, vec: Vec, at: nat, victim: nat, capacity: nat, ttl: nat)
    requires CanCall(FRESH, calls, capacity, ttl)
  {
    var w := Called(AfterCalls(FRESH, calls, capacity, ttl), Put(key, vec, at, victim), capacity, ttl);
    victim in w.puts && Excused(w, victim, capacity, ttl)
  }

  /** With two candidates for eviction there is a history in which the one used last goes. */
  lemma TieBreaks(entries: Entries, capacity: nat, ttl: nat, key: nat, vec: Vec, at: nat, a: nat, b: nat)
    returns (calls: seq<Call>)
    requires |entries| == capacity && Plausible(entries, capacity, ttl) && UsedBy(entries, at) && key !in entries
    requires a != b && IsVictim(entries, a) && IsVictim(entries, b) && !Expired(entries[a].born, at, ttl)
    requires capacity >= 1
    ensures LeadsTo(calls, entries, at, capacity, ttl) && !EvictsExcused(calls, key, vec, at, a, capacity, ttl)
  {
    calls := Reach(entries, capacity, ttl, a, b);
    var w := AfterCalls(FRESH, calls, capacity, ttl);
    RunKeeps(FRESH, calls, capacity, ttl);
    assert EntryTrue(w, a);
    UseGrows(w.uses, Use(key, at), a);
    var others := OthersSince(w.uses, a);
    SubsetSize(others, entries.Keys - {a, b});
    assert {a, b} <= entries.Keys && |{a, b}| == 2;
    assert |entries.Keys - {a, b}| == |entries| - 2;
  }

  lemma FourUses(at: nat)
    ensures OthersSince([Use(1, at), Use(2, at), Use(1, at), Use(3, at)], 1) == {3}
  {
    UseGrows([Use(1, at), Use(2, at), Use(1, at)], Use(3, at), 1);
    assert [Use(1, at), Use(2, at), Use(1, at)] + [Use(3, at)] == [Use(1, at), Use(2, at), Use(1, at), Use(3, at)];
  }

  /** Two puts fill a cache for two entries. */
  lemma TwoPuts(vec: Vec, at: nat, ttl: nat) returns (w: World)
    ensures var calls := [Put(1, vec, at, 0), Put(2, vec, at, 0)];
            CanCall(FRESH, calls, 2, ttl) && AfterCalls(FRESH, calls, 2, ttl) == w
    ensures w == World(map[1 := Entry(vec, at, at), 2 := Entry(vec, at, at)], [Use(1, at), Use(2, at)],
                       map[1 := Written(vec, at), 2 := Written(vec, at)], at)
  {
    var first, second := Put(1, vec, at, 0), Put(2, vec, at, 0);
    assert |map[1 := Entry(vec, at, at)]| == 1;
    RunSnoc(FRESH, [], first, 2, ttl);
    assert [] + [first] == [first] && [] + [Use(1, at)] == [Use(1, at)];
    RunSnoc(FRESH, [first], second, 2, ttl);
    assert [first] + [second] == [first, second] && [Use(1, at)] + [Use(2, at)] == [Use(1, at), Use(2, at)];
    w := AfterCalls(FRESH, [first, second], 2, ttl);
  }

  lemma HitThenEvict(w: World, vec: Vec, at: nat, ttl: nat)
    requires w.entries == map[1 := Entry(vec, at, at), 2 := Entry(vec, at, at)] && w.now == at && 1 in w.puts
    requires w.uses == [Use(1, at), Use(2, at)] && w.puts[1].born == at
    ensures Possible(w, Get(1, at), 2)
    ensures var w3 := Called(w, Get(1, at), 2, ttl);
            && Possible(w3, Put(3, vec, at, 1), 2)
            && var w4 := Called(w3, Put(3, vec, at, 1), 2, ttl);
               && 1 in w4.puts && 1 !in w4.entries && w4.puts[1].born == w4.now == at
               && w4.uses == [Use(1, at), Use(2, at), Use(1, at), Use(3, at)]
  {
    assert |w.entries| == 2;
    assert Called(w, Get(1, at), 2, ttl).entries == w.entries;
  }

  /** Four calls at one instant on a cache for two entries: keys 1 and 2 are put, key 1 is looked up, and the put of
      key 3 evicts key 1. It was just put, it was used last, and only one other key has been used since. */
  lemma TiesBreakTheGuarantee(vec: Vec, at: nat, ttl: nat)
    ensures var calls := [Put(1, vec, at, 0), Put(2, vec, at, 0), Get(1, at), Put(3, vec, at, 1)];
            && CanCall(FRESH, calls, 2, ttl)
            && var w := AfterCalls(FRESH, calls, 2, ttl);
               && 1 in w.puts && 1 !in w.entries && w.puts[1].born == w.now
               && OthersSince(w.uses, 1) == {3} && !Excused(w, 1, 2, ttl)
  {
    var puts := [Put(1, vec, at, 0), Put(2, vec, at, 0)];
    var w := TwoPuts(vec, at, ttl);
    HitThenEvict(w, vec, at, ttl);
    RunSnoc(FRESH, puts, Get(1, at), 2, ttl);
    RunSnoc(FRESH, puts + [Get(1, at)], Put(3, vec, at, 1), 2, ttl);
    assert puts + [Get(1, at)] + [Put(3, vec, at, 1)]
           == [Put(1, vec, at, 0), Put(2, vec, at, 0), Get(1, at), Put(3, vec, at, 1)];
    FourUses(at);
  }
}
