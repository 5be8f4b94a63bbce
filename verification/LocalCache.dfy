/**
 The in-process cache: entries with a time to live, expired lazily on reads, evicted
 at capacity (expired ones first, then the oldest insertions). Time is one instant
 per key of an operation.
 */
module LocalCache {
  import opened Collections
  import opened Wrappers

  type Bytes = seq<bv8>

  datatype Entry = Entry(value: Bytes, expiresAt: Option<nat>, insertedAt: nat)

  type Entries = map<string, Entry>

  predicate Live(e: Entry, now: nat) {
    e.expiresAt.Some? ==> now < e.expiresAt.value
  }

  function LiveKeys(m: Entries, now: nat): set<string> {
    set k | k in m && Live(m[k], now)
  }

  function Lookup(m: Entries, key: string, now: nat): Option<Bytes> {
    if key in m && Live(m[key], now) then Some(m[key].value) else None
  }

  /** The map after a read of the key: an expired entry is dropped. */
  function Purged(m: Entries, key: string, now: nat): Entries {
    if key in m && !Live(m[key], now) then m - {key} else m
  }

  function NewEntry(value: Bytes, ttl: Option<nat>, now: nat): Entry {
    Entry(value, if ttl.Some? then Some(now + ttl.value) else None, now)
  }

  /** A write's own time to live, else the cache's default, else none. */
  function Resolved(ttl: Option<nat>, defaultTtl: Option<nat>): Option<nat> {
    if ttl.Some? then ttl else defaultTtl
  }

  function Limit(capacity: nat): nat {
    if capacity == 0 then 1 else capacity
  }

  /** What an insertion of the key keeps of the map: all of it, or its newest live entries. */
  ghost predicate Keeps(before: Entries, kept: Entries, capacity: nat, key: string, now: nat) {
    if |before| < capacity || key in before then kept == before
    else
      && kept.Keys <= LiveKeys(before, now)
      && (forall k | k in kept :: kept[k] == before[k])
      && (if |LiveKeys(before, now)| < capacity then kept.Keys == LiveKeys(before, now)
          else |kept| == Limit(capacity) - 1)
      && (forall k, d | k in kept && d in LiveKeys(before, now) && d !in kept ::
            before[d].insertedAt <= before[k].insertedAt)
  }

  ghost predicate Inserts(before: Entries, after: Entries, capacity: nat, key: string, e: Entry, now: nat) {
    exists kept :: Keeps(before, kept, capacity, key, now) && after == kept[key := e]
  }

  // --- The cache in place ---------------------------------------------------------------

  class Cache {
    var entries: Entries
    const defaultTtl: Option<nat>
    const capacity: nat

    constructor (defaultTtl: Option<nat>, capacity: nat)
      ensures entries == map[] && this.defaultTtl == defaultTtl && this.capacity == capacity
    {
      this.defaultTtl, this.capacity, entries := defaultTtl, capacity, map[];
    }

    method ReadEntry(key: string, now: nat) returns (value: Option<Bytes>)
      modifies this
      ensures entries == Purged(old(entries), key, now) && value == Lookup(old(entries), key, now)
    {
      if key in entries && entries[key].expiresAt.Some? && now >= entries[key].expiresAt.value {
        entries := entries - {key};
        return None;
      }
      value := if key in entries then Some(entries[key].value) else None;
    }

    method OldestKey() returns (oldest: string)
      requires |entries| > 0
      ensures oldest in entries
      ensures forall k | k in entries :: entries[oldest].insertedAt <= entries[k].insertedAt
    {
      assert entries.Keys != {};
      oldest :| oldest in entries.Keys;
      var rest := entries.Keys - {oldest};
      while rest != {}
        invariant oldest in entries && rest <= entries.Keys
        invariant forall k | k in entries && k !in rest :: entries[oldest].insertedAt <= entries[k].insertedAt
        decreases rest
      {
        var k :| k in rest;
        if entries[k].insertedAt < entries[oldest].insertedAt {
          oldest := k;
        }
        rest := rest - {k};
      }
    }

    /** Drops the oldest insertions until there is room for one more. */
    method EvictOldest()
      modifies this
      ensures entries.Keys <= old(entries).Keys && forall k | k in entries :: entries[k] == old(entries)[k]
      ensures |entries| == if |old(entries)| < capacity then |old(entries)| else Limit(capacity) - 1
      ensures forall k, d | k in entries && d in old(entries) && d !in entries ::
                old(entries)[d].insertedAt <= old(entries)[k].insertedAt
    {
      ghost var before := entries;
      while |entries| >= capacity && |entries| > 0
        invariant entries.Keys <= before.Keys && forall k | k in entries :: entries[k] == before[k]
        invariant |entries| <= |before| && (|before| < capacity ==> entries == before)
        invariant |before| >= capacity ==> |entries| >= Limit(capacity) - 1
        invariant forall k, d | k in entries && d in before && d !in entries ::
                    before[d].insertedAt <= before[k].insertedAt
        decreases |entries|
      {
        var oldest := OldestKey();
        SizeWithout(entries, oldest);
        entries := entries - {oldest};
      }
    }

    method InsertEntry(key: string, value: Bytes, ttl: Option<nat>, now: nat)
      modifies this
      ensures Inserts(old(entries), entries, capacity, key, NewEntry(value, ttl, now), now)
      ensures key in entries && entries[key].value == value && entries[key].insertedAt == now
      ensures entries[key].expiresAt == match ttl case Some(d) => Some(now + d) case None => None
    {
      ghost var before := entries;
      if |entries| >= capacity && key !in entries {
        entries := map k | k in entries && Live(entries[k], now) :: entries[k];
        ghost var live := entries;
        assert live.Keys == LiveKeys(before, now);
        SizeOfKeys(live);
        EvictOldest();
        SizeOfKeys(entries);
        if |live| < capacity {
          SameSize(entries.Keys, live.Keys);
        }
      }
      ghost var kept := entries;
      assert Keeps(before, kept, capacity, key, now);
      entries := entries[key := NewEntry(value, ttl, now)];
    }

    method Get(key: string, now: nat) returns (value: Option<Bytes>)
      modifies this
      ensures entries == Purged(old(entries), key, now) && value == Lookup(old(entries), key, now)
    {
      value := ReadEntry(key, now);
    }

    method Set(key: string, value: Bytes, ttl: Option<nat>, now: nat)
      modifies this
      ensures Inserts(old(entries), entries, capacity, key, NewEntry(value, Resolved(ttl, defaultTtl), now), now)
    {
      InsertEntry(key, value, Resolved(ttl, defaultTtl), now);
    }

    method SetNx(key: string, value: Bytes, ttl: Option<nat>, now: nat) returns (stored: bool)
      modifies this
      ensures stored <==> Lookup(old(entries), key, now).None?
      ensures !stored ==> entries == old(entries)
      ensures stored ==> Inserts(Purged(old(entries), key, now), entries, capacity, key,
                                 NewEntry(value, Resolved(ttl, defaultTtl), now), now)
    {
      var present := ReadEntry(key, now);
      if present.Some? {
        return false;
      }
      InsertEntry(key, value, Resolved(ttl, defaultTtl), now);
      return true;
    }

    method Delete(key: string)
      modifies this
      ensures entries == old(entries) - {key}
    {
      entries := entries - {key};
    }

    /**
     Batch read, each key at its own instant: what it reads there is what the cache held before
     the call, unless that has expired by then; exactly the entries found expired are dropped.
     */
    method GetMulti(keys: seq<string>, nows: seq<nat>) returns (values: seq<Option<Bytes>>)
      requires |nows| == |keys| && forall i, j | 0 <= i < j < |nows| :: nows[i] <= nows[j]
      modifies this
      ensures |values| == |keys|
      ensures forall i | 0 <= i < |keys| :: values[i] == Lookup(old(entries), keys[i], nows[i])
      ensures forall k | k in entries :: k in old(entries) && entries[k] == old(entries)[k]
      ensures forall k | k in old(entries) ::
                k !in entries <==> exists i | 0 <= i < |keys| :: keys[i] == k && !Live(old(entries)[k], nows[i])
    {
      values := [];
      for i := 0 to |keys|
        invariant |values| == i && forall j | 0 <= j < i :: values[j] == Lookup(old(entries), keys[j], nows[j])
        invariant forall k | k in entries :: k in old(entries) && entries[k] == old(entries)[k]
        invariant forall k | k in old(entries) ::
                    k !in entries <==> exists j | 0 <= j < i :: keys[j] == k && !Live(old(entries)[k], nows[j])
      {
        var value := ReadEntry(keys[i], nows[i]);
        values := values + [value];
      }
    }

    /** Batch write: the items one after the other, each with its own time to live or the default. */
    method SetMulti(items: seq<(string, Bytes, Option<nat>)>, nows: seq<nat>) returns (ghost states: seq<Entries>)
      requires |nows| == |items|
      modifies this
      ensures |states| == |items| + 1 && states[0] == old(entries) && states[|items|] == entries
      ensures forall i | 0 <= i < |items| ::
                Inserts(states[i], states[i + 1], capacity, items[i].0,
                        NewEntry(items[i].1, Resolved(items[i].2, defaultTtl), nows[i]), nows[i])
    {
      states := [entries];
      for i := 0 to |items|
        invariant |states| == i + 1 && states[0] == old(entries) && states[i] == entries
        invariant forall j | 0 <= j < i ::
                    Inserts(states[j], states[j + 1], capacity, items[j].0,
                            NewEntry(items[j].1, Resolved(items[j].2, defaultTtl), nows[j]), nows[j])
      {
        InsertEntry(items[i].0, items[i].1, Resolved(items[i].2, defaultTtl), nows[i]);
        states := states + [entries];
      }
    }

    method Close()
      modifies this
      ensures entries == map[]
    {
      entries := map[];
    }
  }

  lemma SizeOfKeys(m: Entries)
    ensures |m| == |m.Keys|
  {
  }

  lemma SizeWithout(m: Entries, k: string)
    requires k in m
    ensures |m - {k}| == |m| - 1
  {
    assert (m - {k}).Keys == m.Keys - {k};
    SizeOfKeys(m);
    SizeOfKeys(m - {k});
  }

  // --- One insertion ----------------------------------------------------------------------

  /** An insertion that finds the capacity full of live entries leaves it full: it takes no more than it must. */
  lemma InsertLeavesFull(before: Entries, after: Entries, capacity: nat, key: string, e: Entry, now: nat)
    requires Inserts(before, after, capacity, key, e, now) && |LiveKeys(before, now)| >= capacity
    ensures |after| >= if capacity == 0 then 1 else capacity
  {
    var kept :| Keeps(before, kept, capacity, key, now) && after == kept[key := e];
    SizeOfKeys(before);
    SizeOfKeys(kept);
    SizeOfKeys(after);
    SubsetSize(LiveKeys(before, now), before.Keys);
    assert after.Keys == kept.Keys + {key};
    if key !in before {
      assert key !in kept.Keys;
      assert |after.Keys| == |kept.Keys| + 1;
    } else {
      assert after.Keys == before.Keys && key in before.Keys;
      SubsetSize({key}, before.Keys);
    }
  }

  /** An insertion never grows the cache past its capacity (past one entry when that is zero). */
  lemma InsertBounded(before: Entries, after: Entries, capacity: nat, key: string, e: Entry, now: nat)
    requires Inserts(before, after, capacity, key, e, now) && |before| <= Limit(capacity)
    ensures |after| <= Limit(capacity)
    ensures key in after && after[key] == e
  {
    var kept :| Keeps(before, kept, capacity, key, now) && after == kept[key := e];
    SizeOfKeys(kept);
    SizeOfKeys(after);
    assert after.Keys == kept.Keys + {key};
    if key in before {
      assert after.Keys == kept.Keys;
    } else {
      assert |after.Keys| == |kept.Keys| + |{key} - kept.Keys|;
    }
  }

  /**
   An insertion costs some live entry exactly when the key is new and the live entries
   already fill the capacity.
   */
  lemma InsertLosesLiveIff(before: Entries, after: Entries, capacity: nat, key: string, e: Entry, now: nat)
    requires Inserts(before, after, capacity, key, e, now)
    ensures (exists k :: k in LiveKeys(before, now) && k !in after)
            <==> key !in before && |LiveKeys(before, now)| >= Limit(capacity)
  {
    var kept :| Keeps(before, kept, capacity, key, now) && after == kept[key := e];
    var live := LiveKeys(before, now);
    assert live <= before.Keys;
    SubsetSize(live, before.Keys);
    SizeOfKeys(before);
    SizeOfKeys(kept);
    if key !in before && |live| >= Limit(capacity) {
      if forall k | k in live :: k in after {
        assert live <= kept.Keys;
        SubsetSize(live, kept.Keys);
      }
    } else if key !in before && capacity == 0 {
      assert live == {};
    }
  }

  // --- Runs against the unbounded map -------------------------------------------------------

  /** Writes carry what the caller gave: the value, and a time to live or none. */
  datatype Event =
    | Get(key: string, result: Option<Bytes>)
    | Set(key: string, value: Bytes, ttl: Option<nat>)
    | SetNx(key: string, value: Bytes, ttl: Option<nat>, stored: bool)
    | Delete(key: string)
    | Clear

  datatype Options = Options(defaultTtl: Option<nat>, capacity: nat)

  function StampedEntry(o: Options, e: Event, now: nat): Entry
    requires e.Set? || e.SetNx?
  {
    NewEntry(e.value, Resolved(e.ttl, o.defaultTtl), now)
  }

  /** One operation at an instant, as the methods of the cache perform it. */
  ghost predicate Step(o: Options, m: Entries, e: Event, now: nat, m': Entries) {
    match e
    case Get(key, result) => m' == Purged(m, key, now) && result == Lookup(m, key, now)
    case Set(key, _, _) => Inserts(m, m', o.capacity, key, StampedEntry(o, e, now), now)
    case SetNx(key, _, _, stored) =>
      && (stored <==> Lookup(m, key, now).None?)
      && if stored then Inserts(Purged(m, key, now), m', o.capacity, key, StampedEntry(o, e, now), now) else m' == m
    case Delete(key) => m' == m - {key}
    case Clear => m' == map[]
  }

  /** The unbounded map: the latest write of every key, until deleted. */
  function Written(o: Options, a: Entries, e: Event, now: nat): Entries {
    match e
    case Get(_, _) => a
    case Set(key, _, _) => a[key := StampedEntry(o, e, now)]
    case SetNx(key, _, _, stored) => if stored then a[key := StampedEntry(o, e, now)] else a
    case Delete(key) => a - {key}
    case Clear => map[]
  }

  datatype Run = Run(states: seq<Entries>, events: seq<Event>, times: seq<nat>)

  ghost predicate IsRun(o: Options, r: Run) {
    && |r.states| == |r.events| + 1 && |r.times| == |r.events|
    && r.states[0] == map[]
    && (forall i | 0 <= i < |r.events| :: Step(o, r.states[i], r.events[i], r.times[i], r.states[i + 1]))
    && (forall i, j | 0 <= i <= j < |r.times| :: r.times[i] <= r.times[j])
  }

  function Latest(o: Options, r: Run, n: nat): Entries
    requires |r.times| == |r.events| && n <= |r.events|
  {
    if n == 0 then map[] else Written(o, Latest(o, r, n - 1), r.events[n - 1], r.times[n - 1])
  }

  /** Every cached entry is the latest write of its key. */
  ghost predicate Submap(m: Entries, a: Entries) {
    forall k | k in m :: k in a && m[k] == a[k]
  }

  lemma InsertSubmap(before: Entries, after: Entries, capacity: nat, key: string, e: Entry, now: nat, a: Entries)
    requires Inserts(before, after, capacity, key, e, now) && Submap(before, a) && |before| <= Limit(capacity)
    ensures Submap(after, a[key := e]) && |after| <= Limit(capacity)
  {
    InsertBounded(before, after, capacity, key, e, now);
    var kept :| Keeps(before, kept, capacity, key, now) && after == kept[key := e];
    assert forall k | k in kept :: k in before && kept[k] == before[k];
  }

  lemma StepSubmap(o: Options, m: Entries, e: Event, now: nat, m': Entries, a: Entries)
    requires Step(o, m, e, now, m') && Submap(m, a) && |m| <= Limit(o.capacity)
    ensures Submap(m', Written(o, a, e, now)) && |m'| <= Limit(o.capacity)
  {
    hide NewEntry, Inserts;
    match e
    case Get(key, _) => PurgeShrinks(m, key, now);
    case Set(key, _, _) => InsertSubmap(m, m', o.capacity, key, StampedEntry(o, e, now), now, a);
    case SetNx(key, _, _, stored) =>
      PurgeShrinks(m, key, now);
      if stored {
        InsertSubmap(Purged(m, key, now), m', o.capacity, key, StampedEntry(o, e, now), now, a);
      }
    case Delete(key) => if key in m { SizeWithout(m, key); } else { assert m - {key} == m; }
    case Clear =>
  }

  lemma PurgeShrinks(m: Entries, key: string, now: nat)
    ensures |Purged(m, key, now)| <= |m|
    ensures LiveKeys(Purged(m, key, now), now) == LiveKeys(m, now)
  {
    if key in m {
      SizeWithout(m, key);
    }
  }

  /** Every state of every run holds only latest writes, and at most as many as the capacity, or one. */
  lemma {:induction false} RunSubmap(o: Options, r: Run, n: nat)
    requires IsRun(o, r) && n <= |r.events|
    ensures Submap(r.states[n], Latest(o, r, n))
    ensures |r.states[n]| <= if o.capacity == 0 then 1 else o.capacity
  {
    if n > 0 {
      hide Step, Written, Submap;
      RunSubmap(o, r, n - 1);
      assert Step(o, r.states[n - 1], r.events[n - 1], r.times[n - 1], r.states[n - 1 + 1]);
      StepSubmap(o, r.states[n - 1], r.events[n - 1], r.times[n - 1], r.states[n], Latest(o, r, n - 1));
    }
  }

  // --- Last writes --------------------------------------------------------------------------

  function KeyOf(e: Event): set<string> {
    match e
    case Set(key, _, _) => {key}
    case SetNx(key, _, _, stored) => if stored then {key} else {}
    case _ => {}
  }

  /** The event leaves the key's latest write alone. */
  predicate LeavesKey(e: Event, key: string) {
    match e
    case Get(_, _) => true
    case Set(k, _, _) => k != key
    case SetNx(k, _, _, stored) => k != key || !stored
    case Delete(k) => k != key
    case Clear => false
  }

  /** Of the first n events the i-th is the key's last write, and nothing has deleted it since. */
  predicate LastWrite(events: seq<Event>, n: nat, key: string, i: nat) {
    i < n <= |events| && KeyOf(events[i]) == {key} && forall k | i < k < n :: LeavesKey(events[k], key)
  }

  /** That write still counts: less than its time to live has passed, or the default's, or it has neither. */
  predicate Unexpired(o: Options, r: Run, i: nat, now: nat)
  {
    && i < |r.events| && i < |r.times| && (r.events[i].Set? || r.events[i].SetNx?)
    && match r.events[i].ttl
       case Some(d) => now < r.times[i] + d
       case None => match o.defaultTtl case Some(d) => now < r.times[i] + d case None => true
  }

  /** What the unbounded map holds for a key is its last write, and nothing without one. */
  lemma {:induction false} LatestIs(o: Options, r: Run, n: nat, key: string)
    requires |r.times| == |r.events| && n <= |r.events|
    ensures key in Latest(o, r, n) <==> exists i: nat :: LastWrite(r.events, n, key, i)
    ensures forall i: nat | LastWrite(r.events, n, key, i) ::
              Latest(o, r, n)[key] == StampedEntry(o, r.events[i], r.times[i])
  {
    hide StampedEntry;
    if n > 0 {
      var e := r.events[n - 1];
      LatestIs(o, r, n - 1, key);
      if KeyOf(e) == {key} {
        assert LastWrite(r.events, n, key, n - 1);
        forall i: nat | LastWrite(r.events, n, key, i) ensures i == n - 1 {
          assert i < n - 1 ==> LeavesKey(r.events[n - 1], key);
        }
      } else {
        LastWriteStep(r.events, n, key);
        assert key in Latest(o, r, n) <==> key in Latest(o, r, n - 1) && LeavesKey(e, key);
        if key in Latest(o, r, n) {
          var i: nat :| LastWrite(r.events, n - 1, key, i);
          assert LastWrite(r.events, n, key, i);
        }
      }
    }
  }

  lemma LastWriteStep(events: seq<Event>, n: nat, key: string)
    requires 0 < n <= |events| && KeyOf(events[n - 1]) != {key}
    ensures forall i: nat :: LastWrite(events, n, key, i) <==>
                               LeavesKey(events[n - 1], key) && LastWrite(events, n - 1, key, i)
  {
    forall i: nat | LastWrite(events, n, key, i) ensures LeavesKey(events[n - 1], key) && i < n - 1 {
    }
  }

  /** A key is live in the unbounded map exactly if its last write has not expired. */
  lemma LiveIff(o: Options, r: Run, n: nat, key: string, now: nat)
    requires |r.times| == |r.events| && n <= |r.events|
    ensures key in LiveKeys(Latest(o, r, n), now) <==>
              exists i: nat :: LastWrite(r.events, n, key, i) && Unexpired(o, r, i, now)
    ensures forall i: nat | LastWrite(r.events, n, key, i) ::
              && key in Latest(o, r, n)
              && Latest(o, r, n)[key].value == r.events[i].value && Latest(o, r, n)[key].insertedAt == r.times[i]
              && (Live(Latest(o, r, n)[key], now) <==> Unexpired(o, r, i, now))
  {
    hide Latest;
    LatestIs(o, r, n, key);
  }

  /** Nothing is cached that was not written, and since then neither overwritten nor deleted. */
  lemma CachedWasWritten(o: Options, r: Run, n: nat, key: string) returns (i: nat)
    requires IsRun(o, r) && n <= |r.events| && key in r.states[n]
    ensures LastWrite(r.events, n, key, i)
    ensures r.states[n][key].value == r.events[i].value && r.states[n][key].insertedAt == r.times[i]
    ensures forall now: nat :: Live(r.states[n][key], now) <==> Unexpired(o, r, i, now)
  {
    hide Step, Latest, LastWrite, Live, Unexpired;
    RunSubmap(o, r, n);
    LatestIs(o, r, n, key);
    i :| LastWrite(r.events, n, key, i);
    forall now: nat ensures Live(r.states[n][key], now) <==> Unexpired(o, r, i, now) {
      LiveIff(o, r, n, key, now);
    }
    LiveIff(o, r, n, key, 0);
  }

  /**
   Whatever the capacity: a hit is the value of the key's last write, less than its time to live,
   or else the default one, ago.
   */
  lemma HitIsLatestWrite(o: Options, r: Run, n: nat) returns (i: nat)
    requires IsRun(o, r) && n < |r.events| && r.events[n].Get? && r.events[n].result.Some?
    ensures LastWrite(r.events, n, r.events[n].key, i)
    ensures r.events[n].result == Some(r.events[i].value)
    ensures Unexpired(o, r, i, r.times[n])
  {
    hide LastWrite, Unexpired, Inserts;
    assert Step(o, r.states[n], r.events[n], r.times[n], r.states[n + 1]);
    i := CachedWasWritten(o, r, n, r.events[n].key);
  }

  // --- Within the capacity ------------------------------------------------------------------

  /** Every live latest write is cached. */
  ghost predicate Complete(m: Entries, a: Entries, now: nat) {
    forall k | k in LiveKeys(a, now) :: k in m
  }

  /** At every write the live keys, the written one included, fit the capacity. */
  ghost predicate FitsCapacity(o: Options, r: Run)
    requires IsRun(o, r)
  {
    forall i | 0 <= i < |r.events| && KeyOf(r.events[i]) != {} ::
      |LiveKeys(Latest(o, r, i), r.times[i]) + KeyOf(r.events[i])| <= o.capacity
  }

  lemma InsertComplete(before: Entries, after: Entries, capacity: nat, key: string, e: Entry, now: nat, a: Entries)
    requires Inserts(before, after, capacity, key, e, now)
    requires Submap(before, a) && Complete(before, a, now)
    requires |LiveKeys(a, now) + {key}| <= capacity
    ensures Complete(after, a[key := e], now)
  {
    var live := LiveKeys(before, now);
    if key !in before {
      assert key !in live;
      assert |live + {key}| == |live| + 1;
      SubsetSize(live + {key}, LiveKeys(a, now) + {key});
    }
    InsertLosesLiveIff(before, after, capacity, key, e, now);
    var kept :| Keeps(before, kept, capacity, key, now) && after == kept[key := e];
    forall k | k in LiveKeys(a[key := e], now) ensures k in after {
      if k != key {
        assert k in LiveKeys(a, now) && k in live;
      }
    }
  }

  lemma StepComplete(o: Options, m: Entries, e: Event, now: nat, m': Entries, a: Entries)
    requires Step(o, m, e, now, m') && Submap(m, a) && Complete(m, a, now)
    requires KeyOf(e) != {} ==> |LiveKeys(a, now) + KeyOf(e)| <= o.capacity
    ensures Complete(m', Written(o, a, e, now), now)
  {
    hide NewEntry;
    match e
    case Set(key, _, _) => InsertComplete(m, m', o.capacity, key, StampedEntry(o, e, now), now, a);
    case SetNx(key, _, _, stored) =>
      if stored {
        InsertComplete(Purged(m, key, now), m', o.capacity, key, StampedEntry(o, e, now), now, a);
      }
    case Get(_, _) =>
    case Delete(_) =>
    case Clear =>
  }

  lemma CompleteLater(m: Entries, a: Entries, now: nat, later: nat)
    requires Complete(m, a, now) && now <= later
    ensures Complete(m, a, later)
  {
    forall k | k in LiveKeys(a, later) ensures k in m {
      assert k in LiveKeys(a, now);
    }
  }

  /** If live keys never exceed the capacity, no live entry is lost before the next operation either. */
  lemma {:induction false} RunComplete(o: Options, r: Run, n: nat, now: nat)
    requires IsRun(o, r) && FitsCapacity(o, r) && n <= |r.events|
    requires n > 0 ==> r.times[n - 1] <= now
    ensures Complete(r.states[n], Latest(o, r, n), now)
  {
    if n > 0 {
      hide Step, Written, Submap, Complete;
      var t := r.times[n - 1];
      RunComplete(o, r, n - 1, t);
      RunSubmap(o, r, n - 1);
      assert Step(o, r.states[n - 1], r.events[n - 1], t, r.states[n - 1 + 1]);
      StepComplete(o, r.states[n - 1], r.events[n - 1], t, r.states[n], Latest(o, r, n - 1));
      CompleteLater(r.states[n], Latest(o, r, n), t, now);
    }
  }

  lemma LiveIsCached(o: Options, r: Run, n: nat, key: string, now: nat)
    requires IsRun(o, r) && FitsCapacity(o, r) && n <= |r.events| && (n > 0 ==> r.times[n - 1] <= now)
    ensures Lookup(r.states[n], key, now) == Lookup(Latest(o, r, n), key, now)
  {
    hide FitsCapacity, Latest, Step;
    RunSubmap(o, r, n);
    RunComplete(o, r, n, now);
    assert key in LiveKeys(Latest(o, r, n), now) <==> key in Latest(o, r, n) && Live(Latest(o, r, n)[key], now);
  }

  /**
   Within the capacity the cache answers as an unbounded map would: a get returns the key's last
   write exactly while it has not expired, and set_nx stores exactly when no such write counts.
   */
  lemma AnswersLikeUnbounded(o: Options, r: Run, n: nat)
    requires IsRun(o, r) && FitsCapacity(o, r) && n < |r.events|
    ensures var e, now := r.events[n], r.times[n];
            && (e.Get? ==>
                  (forall i: nat | LastWrite(r.events, n, e.key, i) ::
                     e.result == if Unexpired(o, r, i, now) then Some(r.events[i].value) else None)
                  && ((forall i: nat :: !LastWrite(r.events, n, e.key, i)) ==> e.result.None?))
            && (e.SetNx? ==>
                  (e.stored <==> !exists i: nat :: LastWrite(r.events, n, e.key, i) && Unexpired(o, r, i, now)))
  {
    hide FitsCapacity, Latest, LastWrite, Unexpired, Inserts, Live;
    var e, now := r.events[n], r.times[n];
    assert Step(o, r.states[n], e, now, r.states[n + 1]);
    if e.Get? || e.SetNx? {
      LiveIsCached(o, r, n, e.key, now);
      LiveIff(o, r, n, e.key, now);
      LatestIs(o, r, n, e.key);
      assert e.key in LiveKeys(Latest(o, r, n), now) <==>
             e.key in Latest(o, r, n) && Live(Latest(o, r, n)[e.key], now);
    }
  }

  /**
   Within the capacity set_nx is a lock: of two successful ones for a key with nothing
   deleting or overwriting it between, the second comes no sooner than the first one's time to
   live after it, or the default's; without either there is no second.
   */
  lemma SetNxExcludes(o: Options, r: Run, i: nat, j: nat)
    requires IsRun(o, r) && FitsCapacity(o, r) && i < j < |r.events|
    requires r.events[i].SetNx? && r.events[i].stored && r.events[j].SetNx? && r.events[j].stored
    requires r.events[i].key == r.events[j].key
    requires forall k | i < k < j :: LeavesKey(r.events[k], r.events[i].key)
    ensures match Resolved(r.events[i].ttl, o.defaultTtl)
            case Some(d) => r.times[j] >= r.times[i] + d
            case None => false
  {
    hide FitsCapacity, Step;
    assert LastWrite(r.events, j, r.events[i].key, i);
    AnswersLikeUnbounded(o, r, j);
    assert !Unexpired(o, r, i, r.times[j]);
  }

  // --- What an eviction takes ---------------------------------------------------------------

  /**
   The eviction order over whole runs: a live entry that a write costs was last written
   before every other entry that survives it, or at the same instant.
   */
  lemma EvictsOldestWrite(o: Options, r: Run, n: nat, evicted: string, survivor: string, i: nat, j: nat)
    requires IsRun(o, r) && n < |r.events| && KeyOf(r.events[n]) != {}
    requires evicted in LiveKeys(r.states[n], r.times[n]) && evicted !in r.states[n + 1]
    requires survivor in r.states[n] && survivor in r.states[n + 1] && survivor !in KeyOf(r.events[n])
    requires LastWrite(r.events, n, evicted, i) && LastWrite(r.events, n, survivor, j)
    ensures i < j || r.times[i] == r.times[j]
  {
    CachedSince(o, r, n, evicted, i);
    CachedSince(o, r, n, survivor, j);
    var before, e, now := r.states[n], r.events[n], r.times[n];
    hide LastWrite, NewEntry;
    assert Step(o, before, e, now, r.states[n + 1]);
    if e.SetNx? {
      PurgeShrinks(before, e.key, now);
      before := Purged(before, e.key, now);
    }
    EvictedIsOldest(before, r.states[n + 1], o.capacity, e.key, StampedEntry(o, e, now), now, evicted, survivor);
  }

  /** What the cache holds for a key is stamped with the instant of its last write. */
  lemma CachedSince(o: Options, r: Run, n: nat, key: string, i: nat)
    requires IsRun(o, r) && n <= |r.events| && key in r.states[n] && LastWrite(r.events, n, key, i)
    ensures r.states[n][key].insertedAt == r.times[i] && i < |r.times|
  {
    hide Step, Latest;
    RunSubmap(o, r, n);
    LiveIff(o, r, n, key, 0);
  }

  lemma EvictedIsOldest(before: Entries, after: Entries, capacity: nat, key: string, e: Entry, now: nat,
                        evicted: string, survivor: string)
    requires Inserts(before, after, capacity, key, e, now)
    requires evicted in LiveKeys(before, now) && evicted !in after
    requires survivor in before && survivor in after && survivor != key
    ensures before[evicted].insertedAt <= before[survivor].insertedAt
  {
    var kept :| Keeps(before, kept, capacity, key, now) && after == kept[key := e];
  }
}
