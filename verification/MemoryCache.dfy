/** The in-process cache: a map with optional expiry, bounded by evicting an arbitrary
    entry, with a janitor that sweeps expired ones. */
module MemoryCache {
  import opened Common

  type Bytes = seq<int>

  datatype Entry = Entry(val: Bytes, expiresAt: Option<nat>)

  predicate Expired(e: Entry, now: nat) {
    e.expiresAt.Some? && now > e.expiresAt.value
  }

  const DEFAULT_MAX_ENTRIES := 100_000

  /** The bound on entries; zero means none. */
  function MaxEntries(configured: int): (n: nat)
    ensures n == 0 <==> configured < 0
    ensures n == configured <==> configured > 0
    ensures configured == 0 ==> n == DEFAULT_MAX_ENTRIES
  {
    if configured == 0 then DEFAULT_MAX_ENTRIES else if configured < 0 then 0 else configured
  }

  datatype GetResult = Hit(val: Bytes) | Miss | GetClosed

  datatype WriteResult = Stored | NegativeTtl | WriteClosed

  const SAMPLE := 8

  function ReadAt(items: map<string, Entry>, key: string, now: nat): GetResult {
    if key in items && !Expired(items[key], now) then Hit(items[key].val) else Miss
  }

  function SetResult(closed: bool, ttl: int): WriteResult {
    if ttl < 0 then NegativeTtl else if closed then WriteClosed else Stored
  }

  function NewEntry(val: Bytes, ttl: int, stamp: nat): Entry {
    Entry(val, if ttl > 0 then Some(stamp + ttl) else None)
  }

  /** The entries visited are distinct and within the sample; only the last can have
      expired, and then it goes; otherwise the sample was used up, or the cache, and the
      first goes. */
  ghost predicate Sampled(items: map<string, Entry>, visits: seq<string>, victim: string, now: nat) {
    && 0 < |visits| <= SAMPLE
    && (forall i | 0 <= i < |visits| :: visits[i] in items)
    && (forall i, j | 0 <= i < j < |visits| :: visits[i] != visits[j])
    && (forall i | 0 <= i < |visits| - 1 :: !Expired(items[visits[i]], now))
    && var last := visits[|visits| - 1];
       if Expired(items[last], now) then victim == last
       else victim == visits[0] && (|visits| == SAMPLE || |visits| == |items|)
  }

  predicate Evicts(items: map<string, Entry>, maxEntries: nat, key: string) {
    key !in items && maxEntries > 0 && |items| >= maxEntries
  }

  predicate SetOk(items: map<string, Entry>, maxEntries: nat, key: string, victim: string) {
    Evicts(items, maxEntries, key) ==> victim in items
  }

  function SetStep(items: map<string, Entry>, maxEntries: nat, key: string, e: Entry, victim: string): map<string, Entry> {
    if Evicts(items, maxEntries, key) then (items - {victim})[key := e] else items[key := e]
  }

  function SweepStep(items: map<string, Entry>, tick: nat): map<string, Entry> {
    map k | k in items && !Expired(items[k], tick) :: items[k]
  }

  class Cache {
    const maxEntries: nat
    var items: map<string, Entry>
    var closed: bool

    constructor (configured: int)
      ensures maxEntries == MaxEntries(configured) && items == map[] && !closed
    {
      maxEntries := MaxEntries(configured);
      items, closed := map[], false;
    }

    method Get(key: string, now: nat) returns (r: GetResult)
      ensures r == if closed then GetClosed else ReadAt(items, key, now)
    {
      if closed {
        return GetClosed;
      }
      if key !in items || (items[key].expiresAt.Some? && now > items[key].expiresAt.value) {
        return Miss;
      }
      return Hit(items[key].val);
    }

    /** The expiry is computed from a clock reading taken before the lock (stamp). */
    method Set(key: string, val: Bytes, ttl: int, stamp: nat, now: nat) returns (r: WriteResult)
      modifies this`items
      ensures r == SetResult(closed, ttl)
      ensures r != Stored ==> items == old(items)
      ensures r == Stored ==>
        exists victim :: SetOk(old(items), maxEntries, key, victim) &&
                         items == SetStep(old(items), maxEntries, key, NewEntry(val, ttl, stamp), victim)
    {
      if ttl < 0 {
        return NegativeTtl;
      }
      var e := Entry(val, None);
      if ttl > 0 {
        e := Entry(val, Some(stamp + ttl));
      }
      if closed {
        return WriteClosed;
      }
      ghost var victim := "";
      if key !in items && maxEntries > 0 && |items| >= maxEntries {
        ghost var visits;
        victim, visits := EvictOne(now);
      }
      items := items[key := e];
      assert SetOk(old(items), maxEntries, key, victim);
      return Stored;
    }

    /** Visits entries in any order until it finds an expired one or has seen a sample;
        without an expired one the first visited goes. */
    method EvictOne(now: nat) returns (victim: string, ghost visits: seq<string>)
      requires items != map[]
      modifies this`items
      ensures victim in old(items) && items == old(items) - {victim}
      ensures Sampled(old(items), visits, victim, now)
      ensures |old(items)| <= SAMPLE && (exists k | k in old(items) :: Expired(old(items)[k], now)) ==>
              Expired(old(items)[victim], now)
    {
      var todo := items.Keys;
      var visited := 0;
      victim, visits := "", [];
      while todo != {}
        invariant todo <= items.Keys && items == old(items)
        invariant visited == |visits| && visited + |todo| == |items|
        invariant visited < SAMPLE
        invariant forall k | k in items :: k in visits <==> k !in todo
        invariant forall i, j | 0 <= i < j < |visits| :: visits[i] != visits[j]
        invariant forall i | 0 <= i < |visits| :: visits[i] in items && !Expired(items[visits[i]], now)
        invariant visited > 0 ==> victim == visits[0]
        decreases |todo|
      {
        var k :| k in todo;
        todo := todo - {k};
        visits := visits + [k];
        if visited == 0 {
          victim := k;
        }
        if items[k].expiresAt.Some? && now > items[k].expiresAt.value {
          victim := k;
          break;
        }
        visited := visited + 1;
        if visited == SAMPLE {
          break;
        }
      }
      items := items - {victim};
    }

    method Del(key: string) returns (r: WriteResult)
      modifies this`items
      ensures r == if closed then WriteClosed else Stored
      ensures items == if closed then old(items) else old(items) - {key}
    {
      if closed {
        return WriteClosed;
      }
      items := items - {key};
      return Stored;
    }

    /** One tick of the janitor. */
    method Sweep(tick: nat)
      modifies this`items
      ensures items == SweepStep(old(items), tick)
    {
      var todo := items.Keys;
      while todo != {}
        invariant todo <= old(items).Keys
        invariant items == map k | k in old(items) && (k in todo || !Expired(old(items)[k], tick)) :: old(items)[k]
        decreases |todo|
      {
        var k :| k in todo;
        if items[k].expiresAt.Some? && tick > items[k].expiresAt.value {
          items := items - {k};
        }
        todo := todo - {k};
      }
    }

    method Close()
      modifies this`closed
      ensures closed
    {
      closed := true;
    }
  }

  // ---------------------------------------------------------------------------
  // Runs
  // ---------------------------------------------------------------------------

  datatype Sys = Sys(items: map<string, Entry>, closed: bool, clock: nat)

  const START := Sys(map[], false, 0)

  /** Writes and sweeps; reads change nothing.  The victim of an eviction is any entry,
      and a tick may be older than the moment it is handled. */
  datatype Event =
    | Set(key: string, val: Bytes, ttl: int, stamp: nat, now: nat, victim: string)
    | Del(key: string, now: nat)
    | Sweep(tick: nat, now: nat)
    | Close(now: nat)

  predicate Enabled(max: nat, s: Sys, e: Event) {
    && s.clock <= e.now
    && (e.Set? ==> e.stamp <= e.now && SetOk(s.items, max, e.key, e.victim))
    && (e.Sweep? ==> e.tick <= e.now)
  }

  function Step(max: nat, s: Sys, e: Event): Sys
    requires Enabled(max, s, e)
  {
    match e
    case Set(key, val, ttl, stamp, now, victim) =>
      if SetResult(s.closed, ttl) != Stored then s.(clock := now)
      else s.(items := SetStep(s.items, max, key, NewEntry(val, ttl, stamp), victim), clock := now)
    case Del(key, now) => s.(items := if s.closed then s.items else s.items - {key}, clock := now)
    case Sweep(tick, now) => s.(items := SweepStep(s.items, tick), clock := now)
    case Close(now) => s.(closed := true, clock := now)
  }

  ghost predicate Follows(max: nat, s: Sys, e: Event, t: Sys) {
    Enabled(max, s, e) && t == Step(max, s, e)
  }

  ghost predicate IsRun(max: nat, es: seq<Event>, ss: seq<Sys>) {
    && |ss| == |es| + 1
    && ss[0] == START
    && forall i {:trigger es[i]} | 0 <= i < |es| :: Follows(max, ss[i], es[i], ss[i + 1])
  }

  /** The reference: the event, before event i, that last set the key and was not refused
      or followed by a deletion. */
  ghost function LastSet(es: seq<Event>, ss: seq<Sys>, key: string, i: nat): (r: Option<nat>)
    requires |ss| == |es| + 1 && i <= |es|
    ensures r.Some? ==> r.value < i && es[r.value].Set? && es[r.value].key == key && es[r.value].ttl >= 0
  {
    if i == 0 then None
    else if es[i - 1].Set? && es[i - 1].key == key && es[i - 1].ttl >= 0 && !ss[i - 1].closed then Some(i - 1)
    else if es[i - 1].Del? && es[i - 1].key == key && !ss[i - 1].closed then None
    else LastSet(es, ss, key, i - 1)
  }

  /** Whether what the event set can still be read: forever without a ttl, and otherwise
      until the ttl after the moment it was given. */
  predicate Lives(e: Event, now: nat)
    requires e.Set?
  {
    e.ttl == 0 || now <= e.stamp + e.ttl
  }

  /** What a map with expiry and nothing else would answer. */
  ghost function ReadReference(es: seq<Event>, ss: seq<Sys>, key: string, i: nat, now: nat): GetResult
    requires |ss| == |es| + 1 && i <= |es|
  {
    var j := LastSet(es, ss, key, i);
    if j.Some? && Lives(es[j.value], now) then Hit(es[j.value].val) else Miss
  }

  /** An entry after an event is the one the event set, or was there and is untouched. */
  lemma StoredStep(max: nat, s: Sys, e: Event, key: string)
    requires Enabled(max, s, e) && key in Step(max, s, e).items
    ensures
      var x := Step(max, s, e).items[key];
      if e.Set? && e.key == key && e.ttl >= 0 && !s.closed
      then x.val == e.val && forall now :: Expired(x, now) <==> !Lives(e, now)
      else key in s.items && s.items[key] == x && !(e.Del? && e.key == key && !s.closed)
  {
  }

  /** What is stored under a key is what was last set there. */
  lemma {:induction false} StoredIsLastSet(max: nat, es: seq<Event>, ss: seq<Sys>, key: string, i: nat)
    requires IsRun(max, es, ss) && i <= |es| && key in ss[i].items
    ensures
      var j := LastSet(es, ss, key, i);
      && j.Some? && ss[i].items[key].val == es[j.value].val
      && forall now :: Expired(ss[i].items[key], now) <==> !Lives(es[j.value], now)
  {
    assert Follows(max, ss[i - 1], es[i - 1], ss[i]);
    StoredStep(max, ss[i - 1], es[i - 1], key);
    if LastSet(es, ss, key, i) != Some(i - 1) {
      StoredIsLastSet(max, es, ss, key, i - 1);
    }
  }

  /** Without a bound, what was set and is not stored has expired. */
  lemma {:induction false} UnboundedKeeps(es: seq<Event>, ss: seq<Sys>, key: string, i: nat)
    requires IsRun(0, es, ss) && i <= |es| && key !in ss[i].items
    ensures
      var j := LastSet(es, ss, key, i);
      j.Some? ==> !Lives(es[j.value], ss[i].clock)
  {
    if i > 0 {
      assert Follows(0, ss[i - 1], es[i - 1], ss[i]);
      if key in ss[i - 1].items {
        StoredIsLastSet(0, es, ss, key, i - 1);
      } else {
        UnboundedKeeps(es, ss, key, i - 1);
      }
    }
  }

  /** Every read before Close is a miss or exactly what was last set and neither deleted
      nor expired; without a bound it is exactly that. */
  lemma {:induction false} ReadsRefineTtlMap(max: nat, es: seq<Event>, ss: seq<Sys>, key: string, i: nat, now: nat)
    requires IsRun(max, es, ss) && i <= |es| && ss[i].clock <= now
    ensures
      var r, ref := ReadAt(ss[i].items, key, now), ReadReference(es, ss, key, i, now);
      (r == Miss || r == ref) && (max == 0 ==> r == ref)
    ensures key in ss[i].items ==> ReadAt(ss[i].items, key, now) == ReadReference(es, ss, key, i, now)
  {
    if key in ss[i].items {
      StoredIsLastSet(max, es, ss, key, i);
    } else if max == 0 {
      UnboundedKeeps(es, ss, key, i);
    }
  }

  lemma SweepSize(items: map<string, Entry>, tick: nat)
    ensures |SweepStep(items, tick)| <= |items|
  {
    SubsetCard(SweepStep(items, tick).Keys, items.Keys);
  }

  lemma SetSize(items: map<string, Entry>, max: nat, key: string, e: Entry, victim: string)
    requires max > 0 && |items| <= max && SetOk(items, max, key, victim)
    ensures |SetStep(items, max, key, e, victim)| <= max
  {
    if Evicts(items, max, key) {
      assert SetStep(items, max, key, e, victim).Keys == (items.Keys - {victim}) + {key};
    } else {
      assert SetStep(items, max, key, e, victim).Keys == items.Keys + {key};
      if key in items {
        assert items.Keys + {key} == items.Keys;
      }
    }
  }

  /** A bounded cache never holds more entries than its bound. */
  lemma {:induction false} SizeBounded(max: nat, es: seq<Event>, ss: seq<Sys>, i: nat)
    requires max > 0 && IsRun(max, es, ss) && i <= |es|
    ensures |ss[i].items| <= max
  {
    if i > 0 {
      SizeBounded(max, es, ss, i - 1);
      var s, e := ss[i - 1], es[i - 1];
      assert Follows(max, s, e, ss[i]);
      match e {
        case Set(key, val, ttl, stamp, _, victim) =>
          SetSize(s.items, max, key, NewEntry(val, ttl, stamp), victim);
        case Del(key, _) =>
          SubsetCard((s.items - {key}).Keys, s.items.Keys);
        case Sweep(tick, _) => SweepSize(s.items, tick);
        case Close(_) =>
      }
    }
  }

  /** An entry leaves only by its own deletion, by a tick after it had expired, or for a
      new key that found the cache full; overwriting a key evicts nothing. */
  lemma {:induction false} EntriesLeaveOnlyWhen(max: nat, es: seq<Event>, ss: seq<Sys>, i: nat, key: string)
    requires IsRun(max, es, ss) && i < |es| && key in ss[i].items && key !in ss[i + 1].items
    ensures
      var s, e := ss[i], es[i];
      || e == Del(key, e.now)
      || (e.Sweep? && forall now | e.now <= now :: ReadAt(s.items, key, now) == Miss)
      || (e.Set? && e.victim == key && e.key !in s.items && 0 < max <= |s.items|)
  {
    assert Follows(max, ss[i], es[i], ss[i + 1]);
  }

  /** A key that was set and not refused is there right after, and reads as it was set. */
  lemma {:induction false} SetsAreRead(max: nat, es: seq<Event>, ss: seq<Sys>, i: nat)
    requires IsRun(max, es, ss) && i < |es| && es[i].Set? && es[i].ttl >= 0 && !ss[i].closed
    ensures ReadAt(ss[i + 1].items, es[i].key, es[i].now) == if Lives(es[i], es[i].now) then Hit(es[i].val) else Miss
  {
    assert Follows(max, ss[i], es[i], ss[i + 1]);
  }

  /** A sweep removes an entry exactly when it can no longer be read at the tick. */
  lemma {:induction false} SweepsExactly(max: nat, es: seq<Event>, ss: seq<Sys>, i: nat, key: string)
    requires IsRun(max, es, ss) && i < |es| && es[i].Sweep? && key in ss[i].items
    ensures
      var j := LastSet(es, ss, key, i);
      j.Some? && (key in ss[i + 1].items <==> Lives(es[j.value], es[i].tick))
    ensures key in ss[i + 1].items ==> ss[i + 1].items[key] == ss[i].items[key]
  {
    StoredIsLastSet(max, es, ss, key, i);
    assert Follows(max, ss[i], es[i], ss[i + 1]);
  }
}
