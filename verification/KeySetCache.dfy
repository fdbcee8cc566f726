/** The self-refreshing key set: keys by kid, fetched again for a kid that is not in
    it or after its age limit, at most once per gap, without holding the lock. */
module KeySetCache {
  import opened Common

  type Key = nat
  type Keys = map<string, Key>
  type CallId = nat

  const SECOND: nat := 1_000_000_000
  const FETCH_TIMEOUT: nat := 5 * SECOND
  const REFRESH_INTERVAL: nat := 900 * SECOND
  const MIN_REFRESH_GAP: nat := 30 * SECOND

  /** The key for a kid; an empty kid stands for the only key, when there is just one. */
  ghost function Lookup(keys: Keys, kid: string): Option<Key> {
    if kid == "" then
      if |keys| != 1 then None else
      assert exists k :: k in keys by {
        assert keys.Keys != {};
      }
      var k :| k in keys; Some(keys[k])
    else if kid in keys then Some(keys[kid])
    else None
  }

  /** r is the key under the kid, or for an empty kid the only key there is, or nothing. */
  ghost predicate IsAnswer(keys: Keys, kid: string, r: Option<Key>) {
    if kid != "" then r == (if kid in keys then Some(keys[kid]) else None)
    else if |keys| == 1 then r.Some? && exists k :: keys == map[k := r.value]
    else r.None?
  }

  lemma OnlyKey(keys: Keys, a: string, b: string)
    requires |keys| == 1 && a in keys && b in keys
    ensures a == b
  {
    assert |keys.Keys - {a}| == 0;
  }

  lemma LookupAnswers(keys: Keys, kid: string)
    ensures IsAnswer(keys, kid, Lookup(keys, kid))
  {
    if kid == "" && |keys| == 1 {
      assert keys.Keys != {};
      var k :| k in keys && Lookup(keys, kid) == Some(keys[k]);
      forall other | other in keys
        ensures other == k
      {
        OnlyKey(keys, other, k);
      }
      assert keys == map[k := keys[k]];
    }
  }

  datatype KeySet = KeySet(keys: Keys, fetchedAt: nat, attemptedAt: nat)

  datatype Decision = Serve(key: Option<Key>) | Fetch(key: Option<Key>)

  /** The first lock section of key: serve from the set, or claim the gap and fetch. */
  ghost function DecideStep(s: KeySet, kid: string, now: nat): (KeySet, Decision) {
    var k := Lookup(s.keys, kid);
    var stale := now - s.fetchedAt >= REFRESH_INTERVAL;
    if (k.Some? && !stale) || now - s.attemptedAt < MIN_REFRESH_GAP then (s, Serve(k))
    else (s.(attemptedAt := now), Fetch(k))
  }

  class KeySetObject {
    var keys: Keys
    var fetchedAt: nat
    var attemptedAt: nat

    ghost function Abs(): KeySet
      reads this
    {
      KeySet(keys, fetchedAt, attemptedAt)
    }

    /** NewJWKS: the first fetch is attempted at once and must succeed. */
    constructor (keys: Keys, attemptedAt: nat, fetchedAt: nat)
      ensures Abs() == KeySet(keys, fetchedAt, attemptedAt)
    {
      this.keys, this.fetchedAt, this.attemptedAt := keys, fetchedAt, attemptedAt;
    }

    method LookupKey(kid: string) returns (r: Option<Key>)
      ensures r == Lookup(keys, kid) && IsAnswer(keys, kid, r)
    {
      LookupAnswers(keys, kid);
      if kid == "" {
        if |keys| != 1 {
          return None;
        }
        assert keys.Keys != {};
        var k :| k in keys.Keys;
        forall other | other in keys ensures other == k { OnlyKey(keys, other, k); }
        return Some(keys[k]);
      }
      return if kid in keys then Some(keys[kid]) else None;
    }

    method Decide(kid: string, now: nat) returns (d: Decision)
      modifies this`attemptedAt
      ensures (Abs(), d) == DecideStep(old(Abs()), kid, now)
    {
      var k := LookupKey(kid);
      var stale := now - fetchedAt >= REFRESH_INTERVAL;
      if (k.Some? && !stale) || now - attemptedAt < MIN_REFRESH_GAP {
        return Serve(k);
      }
      attemptedAt := now;
      return Fetch(k);
    }

    /** The lock section of fetchAndSwap after a successful fetch. */
    method Install(fetched: Keys, now: nat)
      modifies this`keys, this`fetchedAt
      ensures Abs() == KeySet(fetched, now, old(attemptedAt))
    {
      keys, fetchedAt := fetched, now;
    }
  }

  // ---------------------------------------------------------------------------
  // Runs
  // ---------------------------------------------------------------------------

  /** A key call; asked is the number of the set that was in place when it began.  An
      answer names the set it was looked up in. */
  datatype CallPc =
    | Fetching(kid: string, fallback: Option<Key>, asked: nat, claimedAt: nat)
    | Swapped(kid: string, asked: nat)
    | Answered(kid: string, asked: nat, key: Option<Key>, from: nat)

  /** claims lists when a fetch was claimed, the initial one first; sets lists the key
      sets ever put in place. */
  datatype Sys = Sys(s: KeySet, calls: map<CallId, CallPc>, clock: nat, claims: seq<nat>, sets: seq<Keys>)

  datatype Event =
    | Ask(c: CallId, kid: string, now: nat)
    | FetchOk(c: CallId, keys: Keys, now: nat)
    | FetchFailed(c: CallId, now: nat)
    | Answer(c: CallId)

  ghost predicate IsStart(s: Sys) {
    && s.s.keys != map[] && s.s.attemptedAt <= s.s.fetchedAt == s.clock
    && s.calls == map[] && s.claims == [s.s.attemptedAt] && s.sets == [s.s.keys]
  }

  predicate Enabled(s: Sys, e: Event) {
    match e
    case Ask(c, _, now) => c !in s.calls && s.clock <= now
    case FetchOk(c, keys, now) => c in s.calls && s.calls[c].Fetching? && keys != map[] && s.clock <= now
    case FetchFailed(c, now) => c in s.calls && s.calls[c].Fetching? && s.clock <= now
    case Answer(c) => c in s.calls && s.calls[c].Swapped?
  }

  ghost function Step(s: Sys, e: Event): Sys
    requires Enabled(s, e) && s.sets != []
  {
    match e
    case Ask(c, kid, now) =>
      var (st, d) := DecideStep(s.s, kid, now);
      var latest := |s.sets| - 1;
      if d.Serve? then s.(clock := now, calls := s.calls[c := Answered(kid, latest, d.key, latest)])
      else s.(s := st, clock := now, claims := s.claims + [now],
              calls := s.calls[c := Fetching(kid, d.key, latest, now)])
    case FetchOk(c, keys, now) =>
      s.(s := KeySet(keys, now, s.s.attemptedAt), clock := now, sets := s.sets + [keys],
         calls := s.calls[c := Swapped(s.calls[c].kid, s.calls[c].asked)])
    case FetchFailed(c, now) =>
      var pc := s.calls[c];
      s.(clock := now, calls := s.calls[c := Answered(pc.kid, pc.asked, pc.fallback, pc.asked)])
    case Answer(c) =>
      var pc := s.calls[c];
      s.(calls := s.calls[c := Answered(pc.kid, pc.asked, Lookup(s.s.keys, pc.kid), |s.sets| - 1)])
  }

  ghost predicate Follows(s: Sys, e: Event, t: Sys) {
    Enabled(s, e) && s.sets != [] && t == Step(s, e)
  }

  ghost predicate IsRun(es: seq<Event>, ss: seq<Sys>) {
    && |ss| == |es| + 1
    && IsStart(ss[0])
    && forall i {:trigger es[i]} | 0 <= i < |es| :: Follows(ss[i], es[i], ss[i + 1])
  }

  // ---------------------------------------------------------------------------
  // What every step keeps
  // ---------------------------------------------------------------------------

  ghost predicate ClaimsOk(s: Sys) {
    && s.claims != [] && s.claims[|s.claims| - 1] == s.s.attemptedAt <= s.clock
    && (forall i, j | 0 <= i && j == i + 1 && j < |s.claims| :: s.claims[i] + MIN_REFRESH_GAP <= s.claims[j])
  }

  ghost predicate CallOk(s: Sys, pc: CallPc) {
    match pc
    case Fetching(kid, fallback, asked, claimedAt) =>
      asked < |s.sets| && fallback == Lookup(s.sets[asked], kid) && claimedAt in s.claims
    case Swapped(_, asked) => asked < |s.sets|
    case Answered(kid, asked, key, from) => asked <= from < |s.sets| && key == Lookup(s.sets[from], kid)
  }

  ghost predicate SetsOk(s: Sys) {
    && s.sets != [] && s.sets[|s.sets| - 1] == s.s.keys
    && (forall k | 0 <= k < |s.sets| :: s.sets[k] != map[])
    && (forall c | c in s.calls :: CallOk(s, s.calls[c]))
  }

  ghost predicate Inv(s: Sys) {
    ClaimsOk(s) && SetsOk(s)
  }

  lemma StepKeepsClaims(s: Sys, e: Event)
    requires Inv(s) && Enabled(s, e)
    ensures ClaimsOk(Step(s, e)) && forall x | x in s.claims :: x in Step(s, e).claims
  {
    var t := Step(s, e);
    if t.claims != s.claims {
      assert t.claims[|s.claims|] == e.now;
    }
  }

  lemma CallStaysOk(s: Sys, t: Sys, pc: CallPc)
    requires CallOk(s, pc) && s.sets <= t.sets && forall x | x in s.claims :: x in t.claims
    ensures CallOk(t, pc)
  {
  }

  lemma StepKeepsSets(s: Sys, e: Event)
    requires Inv(s) && Enabled(s, e)
    ensures SetsOk(Step(s, e))
  {
    var t := Step(s, e);
    StepKeepsClaims(s, e);
    forall c | c in t.calls
      ensures CallOk(t, t.calls[c])
    {
      if c != e.c {
        CallStaysOk(s, t, s.calls[c]);
      }
    }
  }

  lemma StepKeepsInv(s: Sys, e: Event)
    requires Inv(s) && Enabled(s, e)
    ensures Inv(Step(s, e))
  {
    StepKeepsClaims(s, e);
    StepKeepsSets(s, e);
  }

  lemma {:induction false} ReachableInv(es: seq<Event>, ss: seq<Sys>, i: nat)
    requires IsRun(es, ss) && i <= |es|
    ensures Inv(ss[i])
  {
    if i > 0 {
      ReachableInv(es, ss, i - 1);
      assert Follows(ss[i - 1], es[i - 1], ss[i]);
      StepKeepsInv(ss[i - 1], es[i - 1]);
    }
  }

  // ---------------------------------------------------------------------------
  // Main results
  // ---------------------------------------------------------------------------

  lemma {:induction false} GapsAddUp(s: Sys, k: nat, m: nat)
    requires ClaimsOk(s) && k <= m < |s.claims|
    ensures s.claims[k] + (m - k) * MIN_REFRESH_GAP <= s.claims[m]
    decreases m
  {
    if k < m {
      GapsAddUp(s, k, m - 1);
    }
  }

  /** However calls interleave, a window of any length holds at most one fetch per gap and
      one more: claims k to m that all fall in it number at most length / gap + 1. */
  lemma {:induction false} FetchesAreRare(es: seq<Event>, ss: seq<Sys>, i: nat, from: nat, length: nat, k: nat, m: nat)
    requires IsRun(es, ss) && i <= |es| && k <= m < |ss[i].claims|
    requires from <= ss[i].claims[k] && ss[i].claims[m] <= from + length
    ensures m - k + 1 <= length / MIN_REFRESH_GAP + 1
  {
    ReachableInv(es, ss, i);
    GapsAddUp(ss[i], k, m);
  }

  /** A call fetches exactly when the set is too old or lacks its kid, and the gap since
      the last claim has passed; otherwise it is answered at once from the current set. */
  lemma {:induction false} FetchesExactlyWhen(es: seq<Event>, ss: seq<Sys>, i: nat)
    requires IsRun(es, ss) && i < |es| && es[i].Ask?
    ensures
      var s, t, kid, now := ss[i], ss[i + 1], es[i].kid, es[i].now;
      var known := Lookup(s.s.keys, kid);
      && IsAnswer(s.s.keys, kid, known)
      && es[i].c in t.calls && s.claims != []
      && (t.calls[es[i].c].Fetching? <==>
           (known.None? || now >= s.s.fetchedAt + REFRESH_INTERVAL) && now >= s.claims[|s.claims| - 1] + MIN_REFRESH_GAP)
      && (!t.calls[es[i].c].Fetching? ==>
           t.calls[es[i].c] == Answered(kid, |s.sets| - 1, known, |s.sets| - 1) && t.claims == s.claims)
  {
    ReachableInv(es, ss, i);
    LookupAnswers(ss[i].s.keys, es[i].kid);
    assert Follows(ss[i], es[i], ss[i + 1]);
  }

  /** What the end of a fetch does: a success puts its keys in place, and the call is then
      answered from whatever set is in place; a failure leaves the set alone, and the call
      is answered from the set it began with. */
  lemma {:induction false} FetchesEnd(es: seq<Event>, ss: seq<Sys>, i: nat)
    requires IsRun(es, ss) && i < |es| && !es[i].Ask?
    ensures
      var s, t, e := ss[i], ss[i + 1], es[i];
      && e.c in t.calls && s.sets != []
      && (e.FetchOk? ==>
           t.s == KeySet(e.keys, e.now, s.s.attemptedAt) && t.sets == s.sets + [e.keys] && t.calls[e.c].Swapped?)
      && (!e.FetchOk? ==> t.s == s.s && t.sets == s.sets && t.calls[e.c].Answered?)
      && (e.Answer? ==> IsAnswer(s.s.keys, s.calls[e.c].kid, t.calls[e.c].key) && t.calls[e.c].from == |s.sets| - 1)
      && (e.FetchFailed? ==>
           s.calls[e.c].asked < |s.sets| && IsAnswer(s.sets[s.calls[e.c].asked], s.calls[e.c].kid, t.calls[e.c].key))
  {
    ReachableInv(es, ss, i);
    assert Follows(ss[i], es[i], ss[i + 1]);
    var s, e := ss[i], es[i];
    if e.Answer? {
      LookupAnswers(s.s.keys, s.calls[e.c].kid);
    } else if e.FetchFailed? {
      LookupAnswers(s.sets[s.calls[e.c].asked], s.calls[e.c].kid);
    }
  }

  /** The keys in place are always the result of a successful fetch: the initial one or
      a FetchOk event of the run, whatever fails or interleaves. */
  lemma {:induction false} KeysComeFromFetches(es: seq<Event>, ss: seq<Sys>, i: nat)
    requires IsRun(es, ss) && i <= |es|
    ensures ss[i].s.keys == ss[0].s.keys ||
            exists j | 0 <= j < i :: es[j].FetchOk? && es[j].keys == ss[i].s.keys
    ensures ss[i].s.keys != map[]
  {
    if i > 0 {
      KeysComeFromFetches(es, ss, i - 1);
      assert Follows(ss[i - 1], es[i - 1], ss[i]);
      if es[i - 1].FetchOk? {
        assert es[i - 1].keys == ss[i].s.keys;
      } else {
        assert ss[i].s.keys == ss[i - 1].s.keys;
      }
    }
  }

  /** Every answer is what some set says that was in place while the call ran. */
  lemma {:induction false} AnswersWereCurrent(es: seq<Event>, ss: seq<Sys>, i: nat, c: CallId)
    requires IsRun(es, ss) && i <= |es| && c in ss[i].calls && ss[i].calls[c].Answered?
    ensures
      var pc := ss[i].calls[c];
      pc.asked <= pc.from < |ss[i].sets| && IsAnswer(ss[i].sets[pc.from], pc.kid, pc.key)
  {
    ReachableInv(es, ss, i);
    LookupAnswers(ss[i].sets[ss[i].calls[c].from], ss[i].calls[c].kid);
  }

  /** No fetch is still running later than the fetch timeout after it was claimed. */
  ghost predicate Timely(s: Sys) {
    forall c | c in s.calls && s.calls[c].Fetching? :: s.clock <= s.calls[c].claimedAt + FETCH_TIMEOUT
  }

  lemma ClaimsBelowLast(s: Sys, x: nat)
    requires ClaimsOk(s) && x in s.claims && x + MIN_REFRESH_GAP > s.clock
    ensures x == s.s.attemptedAt
  {
    var k :| 0 <= k < |s.claims| && s.claims[k] == x;
    if k < |s.claims| - 1 {
      GapsAddUp(s, k, |s.claims| - 1);
    }
  }

  /** When fetches end within their timeout, the one that is running is always the last
      one claimed, so no slow fetch ever replaces the result of a later one. */
  lemma {:induction false} InstallsAreTheLatest(es: seq<Event>, ss: seq<Sys>, i: nat, c: CallId)
    requires IsRun(es, ss) && i <= |es| && Timely(ss[i])
    requires c in ss[i].calls && ss[i].calls[c].Fetching?
    ensures ss[i].calls[c].claimedAt == ss[i].s.attemptedAt
  {
    ReachableInv(es, ss, i);
    ClaimsBelowLast(ss[i], ss[i].calls[c].claimedAt);
  }
}
