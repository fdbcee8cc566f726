/** The shared health snapshot: registrations, evaluations and cached reads interleave,
    and a generation counter tells a reader when the snapshot is out of date. */
module HealthCache {
  import opened Common

  datatype Health = Healthy | Degraded | Unhealthy

  type CheckId = nat
  type CallId = nat

  /** watchInterval: one second in nanoseconds. */
  const WATCH_INTERVAL: nat := 1_000_000_000

  /** The outcome of one evaluation and the checks it ran. */
  datatype Snapshot = Snapshot(checks: map<string, CheckId>, states: map<string, Health>)

  /** The cached snapshot, when its evaluation ended, and the generation it began at. */
  datatype Cache = Cache(snap: Option<Snapshot>, at: nat, gen: nat)

  /** The condition under which CachedSnapshot serves the cached snapshot. */
  predicate Servable(c: Cache, gen: nat, now: nat) {
    c.snap.Some? && c.gen == gen && now - c.at < WATCH_INTERVAL
  }

  // ---------------------------------------------------------------------------
  // The registry object, one call at a time
  // ---------------------------------------------------------------------------

  /** The state of every check is what it reported, and unhealthy if it panicked. */
  ghost predicate Reports(snap: Snapshot, outcomes: map<CheckId, Health>) {
    && snap.states.Keys == snap.checks.Keys
    && forall n | n in snap.checks ::
         if snap.checks[n] in outcomes then snap.states[n] == outcomes[snap.checks[n]] else snap.states[n] == Unhealthy
  }

  /** Every check run once; one without an outcome has panicked and counts as unhealthy. */
  function Evaluate(checks: map<string, CheckId>, outcomes: map<CheckId, Health>): (r: Snapshot)
    ensures r.checks == checks && Reports(r, outcomes)
  {
    Snapshot(checks, map n | n in checks :: if checks[n] in outcomes then outcomes[checks[n]] else Unhealthy)
  }

  class Registry {
    var checks: map<string, CheckId>
    var gen: nat
    var cache: Cache

    constructor ()
      ensures checks == map[] && gen == 0 && cache == Cache(None, 0, 0)
    {
      checks, gen, cache := map[], 0, Cache(None, 0, 0);
    }

    /** A duplicate name panics and changes nothing. */
    method Register(name: string, check: CheckId) returns (ok: bool)
      modifies this`checks, this`gen
      ensures ok <==> name !in old(checks)
      ensures checks == (if ok then old(checks)[name := check] else old(checks))
      ensures gen == old(gen) + if ok then 1 else 0
    {
      if name in checks {
        return false;
      }
      checks := checks[name := check];
      gen := gen + 1;
      return true;
    }

    method Replace(name: string, check: CheckId)
      modifies this`checks, this`gen
      ensures checks == old(checks)[name := check] && gen == old(gen) + 1
    {
      checks := checks[name := check];
      gen := gen + 1;
    }

    /** outcomes stands for what the checks report, and done for the clock after they ran. */
    method CachedSnapshot(now: nat, outcomes: map<CheckId, Health>, done: nat) returns (r: Snapshot)
      modifies this`cache
      ensures cache.snap == Some(r)
      ensures if old(Servable(cache, gen, now)) then cache == old(cache)
              else cache.at == done && cache.gen == gen && r == Evaluate(checks, outcomes)
    {
      var g := gen;
      if cache.snap.Some? && cache.gen == g && now - cache.at < WATCH_INTERVAL {
        return cache.snap.value;
      }
      r := Evaluate(checks, outcomes);
      cache := Cache(Some(r), done, g);
    }
  }

  // ---------------------------------------------------------------------------
  // Interleaved runs
  // ---------------------------------------------------------------------------

  datatype Registration = Registration(name: string, check: CheckId)

  /** The checks in force after a sequence of registrations. */
  function Installed(log: seq<Registration>): map<string, CheckId> {
    if log == [] then map[]
    else Installed(log[..|log| - 1])[log[|log| - 1].name := log[|log| - 1].check]
  }

  /** A CachedSnapshot call; since is the number of registrations that had returned
      when it began. */
  datatype CallPc =
    | Called(since: nat)
    | Loaded(since: nat, gen: nat, start: nat)
    | Copied(since: nat, gen: nat, start: nat, basis: nat)
    | Served(since: nat, snap: Snapshot, basis: nat)
  {
    predicate HoldsEvalMu() { Loaded? || Copied? }
  }

  datatype Evaluation = Evaluation(gen: nat, start: nat, end: nat)

  /** log lists every write to the checks; writing says that the last one has not bumped
      gen yet, and so still holds the lock that copying needs; basis is the length of
      the log that the cached snapshot was copied from. */
  datatype Sys = Sys(log: seq<Registration>, writing: bool, gen: nat, cache: Cache, basis: nat,
                     calls: map<CallId, CallPc>, clock: nat, evals: seq<Evaluation>)

  const START := Sys([], false, 0, Cache(None, 0, 0), 0, map[], 0, [])

  datatype Event =
    | Write(reg: Registration, replace: bool)
    | Bump
    | Call(c: CallId)
    | Enter(c: CallId, now: nat)
    | Copy(c: CallId)
    | Store(c: CallId, outcomes: map<CheckId, Health>, now: nat)

  predicate EvalMuFree(s: Sys) {
    forall c | c in s.calls :: !s.calls[c].HoldsEvalMu()
  }

  predicate Enabled(s: Sys, e: Event) {
    match e
    case Write(_, _) => !s.writing
    case Bump => s.writing
    case Call(c) => c !in s.calls
    case Enter(c, now) => c in s.calls && s.calls[c].Called? && EvalMuFree(s) && s.clock <= now
    case Copy(c) => c in s.calls && s.calls[c].Loaded? && !s.writing
    case Store(c, _, now) => c in s.calls && s.calls[c].Copied? && s.calls[c].basis <= |s.log| && s.clock <= now
  }

  function Step(s: Sys, e: Event): Sys
    requires Enabled(s, e)
  {
    match e
    case Write(reg, replace) =>
      if !replace && reg.name in Installed(s.log) then s else s.(log := s.log + [reg], writing := true)
    case Bump => s.(gen := s.gen + 1, writing := false)
    case Call(c) => s.(calls := s.calls[c := Called(s.gen)])
    case Enter(c, now) =>
      var since := s.calls[c].since;
      if Servable(s.cache, s.gen, now) then
        s.(calls := s.calls[c := Served(since, s.cache.snap.value, s.basis)], clock := now)
      else
        s.(calls := s.calls[c := Loaded(since, s.gen, now)], clock := now)
    case Copy(c) =>
      var pc := s.calls[c];
      s.(calls := s.calls[c := Copied(pc.since, pc.gen, pc.start, |s.log|)])
    case Store(c, outcomes, now) =>
      var pc := s.calls[c];
      var snap := Evaluate(Installed(s.log[..pc.basis]), outcomes);
      s.(cache := Cache(Some(snap), now, pc.gen), basis := pc.basis, clock := now,
         calls := s.calls[c := Served(pc.since, snap, pc.basis)],
         evals := s.evals + [Evaluation(pc.gen, pc.start, now)])
  }

  ghost predicate Follows(s: Sys, e: Event, t: Sys) {
    Enabled(s, e) && t == Step(s, e)
  }

  ghost predicate IsRun(es: seq<Event>, ss: seq<Sys>) {
    && |ss| == |es| + 1
    && ss[0] == START
    && forall i {:trigger es[i]} | 0 <= i < |es| :: Follows(ss[i], es[i], ss[i + 1])
  }

  // ---------------------------------------------------------------------------
  // What every step keeps
  // ---------------------------------------------------------------------------

  /** A snapshot that ran the checks installed by the first basis registrations. */
  ghost predicate TakenFrom(log: seq<Registration>, snap: Snapshot, basis: nat) {
    basis <= |log| && snap.checks == Installed(log[..basis]) && snap.states.Keys == snap.checks.Keys
  }

  ghost predicate CallOk(s: Sys, pc: CallPc) {
    match pc
    case Called(since) => since <= s.gen
    case Loaded(since, gen, start) => since <= gen <= s.gen && start <= s.clock
    case Copied(since, gen, start, basis) => since <= gen <= s.gen && start <= s.clock && gen <= basis <= |s.log|
    case Served(since, snap, basis) => since <= basis && TakenFrom(s.log, snap, basis)
  }

  ghost predicate Inv(s: Sys) {
    && |s.log| == s.gen + (if s.writing then 1 else 0)
    && (s.cache.snap.Some? ==> s.cache.gen <= s.basis && s.cache.gen <= s.gen && TakenFrom(s.log, s.cache.snap.value, s.basis))
    && (forall c | c in s.calls :: CallOk(s, s.calls[c]))
  }

  lemma TakenFromLonger(log: seq<Registration>, reg: Registration, snap: Snapshot, basis: nat)
    requires TakenFrom(log, snap, basis)
    ensures TakenFrom(log + [reg], snap, basis)
  {
    assert (log + [reg])[..basis] == log[..basis];
  }

  lemma StepKeepsInv(s: Sys, e: Event)
    requires Inv(s) && Enabled(s, e)
    ensures Inv(Step(s, e))
  {
    var t := Step(s, e);
    if e.Write? && t.log != s.log {
      if s.cache.snap.Some? {
        TakenFromLonger(s.log, e.reg, s.cache.snap.value, s.basis);
      }
      forall c | c in t.calls
        ensures CallOk(t, t.calls[c])
      {
        if s.calls[c].Served? {
          TakenFromLonger(s.log, e.reg, s.calls[c].snap, s.calls[c].basis);
        }
      }
    }
  }

  lemma {:induction false} ReachableInv(es: seq<Event>, ss: seq<Sys>, i: nat)
    requires IsRun(es, ss) && i <= |es|
    ensures Inv(ss[i])
  {
    if i > 0 {
      ReachableInv(es, ss, i - 1);
      assert Follows(ss[i - 1], es[i - 1], ss[i]);
      StepKeepsInv(ss[i - 1], es[i - 1]);
    }
  }

  // ---------------------------------------------------------------------------
  // No stale snapshot is served
  // ---------------------------------------------------------------------------

  /** The last of the first n registrations for the name that registration k has. */
  ghost function LastFor(log: seq<Registration>, k: nat, n: nat): (last: nat)
    requires k < n <= |log|
    ensures k <= last < n && log[last].name == log[k].name
    ensures forall j | last < j < n :: log[j].name != log[k].name
  {
    if log[n - 1].name == log[k].name then n - 1 else LastFor(log, k, n - 1)
  }

  lemma {:induction false} InstalledIsLast(log: seq<Registration>, k: nat, n: nat)
    requires k < n <= |log|
    ensures log[k].name in Installed(log[..n])
    ensures Installed(log[..n])[log[k].name] == log[LastFor(log, k, n)].check
  {
    assert log[..n][..n - 1] == log[..n - 1];
    if log[n - 1].name != log[k].name {
      InstalledIsLast(log, k, n - 1);
    }
  }

  /** Whatever interleaves with it, a call that begins after a registration has returned
      is served a snapshot that ran that check, or a later one for the same name. */
  lemma {:induction false} NoStaleSnapshot(es: seq<Event>, ss: seq<Sys>, i: nat, c: CallId, k: nat)
    requires IsRun(es, ss) && i <= |es|
    requires c in ss[i].calls && ss[i].calls[c].Served? && k < ss[i].calls[c].since
    ensures
      var s, pc := ss[i], ss[i].calls[c];
      && pc.basis <= |s.log| && k < pc.basis
      && s.log[k].name in pc.snap.states && s.log[k].name in pc.snap.checks
      && pc.snap.checks[s.log[k].name] == s.log[LastFor(s.log, k, pc.basis)].check
  {
    ReachableInv(es, ss, i);
    InstalledIsLast(ss[i].log, k, ss[i].calls[c].basis);
  }

  lemma {:induction false} InstalledNames(log: seq<Registration>, name: string)
    ensures name in Installed(log) <==> exists k | 0 <= k < |log| :: log[k].name == name
  {
    if log != [] {
      InstalledNames(log[..|log| - 1], name);
    }
  }

  /** Registering a name that is taken changes nothing; anything else is logged. */
  lemma {:induction false} DuplicatesRefused(es: seq<Event>, ss: seq<Sys>, i: nat)
    requires IsRun(es, ss) && i < |es| && es[i].Write?
    ensures
      var taken := exists k | 0 <= k < |ss[i].log| :: ss[i].log[k].name == es[i].reg.name;
      if taken && !es[i].replace then ss[i + 1] == ss[i] else ss[i + 1].log == ss[i].log + [es[i].reg]
  {
    InstalledNames(ss[i].log, es[i].reg.name);
    assert Follows(ss[i], es[i], ss[i + 1]);
  }

  /** Some evaluation among the first i events reported the snapshot. */
  ghost predicate Reported(es: seq<Event>, i: nat, snap: Snapshot)
    requires i <= |es|
  {
    exists j {:trigger es[j]} | 0 <= j < i :: es[j].Store? && Reports(snap, es[j].outcomes)
  }

  lemma ReportedLater(es: seq<Event>, i: nat, snap: Snapshot)
    requires i < |es| && Reported(es, i, snap)
    ensures Reported(es, i + 1, snap)
  {
  }

  /** Every snapshot that is cached or served states what the checks reported in one
      evaluation of the run, and that a check that panicked is unhealthy. */
  lemma {:induction false} SnapshotsAreReports(es: seq<Event>, ss: seq<Sys>, i: nat)
    requires IsRun(es, ss) && i <= |es|
    ensures ss[i].cache.snap.Some? ==> Reported(es, i, ss[i].cache.snap.value)
    ensures forall c | c in ss[i].calls && ss[i].calls[c].Served? :: Reported(es, i, ss[i].calls[c].snap)
  {
    if i > 0 {
      SnapshotsAreReports(es, ss, i - 1);
      assert Follows(ss[i - 1], es[i - 1], ss[i]);
      if ss[i].cache.snap.Some? && ss[i].cache == ss[i - 1].cache {
        ReportedLater(es, i - 1, ss[i].cache.snap.value);
      }
      forall c | c in ss[i].calls && ss[i].calls[c].Served?
        ensures Reported(es, i, ss[i].calls[c].snap)
      {
        if c in ss[i - 1].calls && ss[i - 1].calls[c] == ss[i].calls[c] {
          ReportedLater(es, i - 1, ss[i].calls[c].snap);
        }
      }
    }
  }

  // ---------------------------------------------------------------------------
  // Evaluations are spaced
  // ---------------------------------------------------------------------------

  /** What an evaluation that begins at start under gen has waited for. */
  ghost predicate Spaced(evals: seq<Evaluation>, gen: nat, start: nat) {
    evals != [] ==>
      var last := evals[|evals| - 1];
      last.end <= start && last.gen <= gen && (last.gen == gen ==> last.end + WATCH_INTERVAL <= start)
  }

  ghost predicate AllSpaced(evals: seq<Evaluation>) {
    forall k | 0 <= k < |evals| :: evals[k].start <= evals[k].end && Spaced(evals[..k], evals[k].gen, evals[k].start)
  }

  /** The cache holds the outcome of the last evaluation. */
  ghost predicate CacheIsLast(s: Sys) {
    && (s.evals == [] <==> s.cache.snap.None?)
    && (s.evals != [] ==>
         var last := s.evals[|s.evals| - 1];
         last.end == s.cache.at <= s.clock && last.gen == s.cache.gen <= s.gen)
  }

  /** At most one call is evaluating, and it has waited long enough. */
  ghost predicate OneEvaluates(s: Sys) {
    && (forall c | c in s.calls && s.calls[c].HoldsEvalMu() ::
         Spaced(s.evals, s.calls[c].gen, s.calls[c].start) && s.calls[c].start <= s.clock && s.calls[c].gen <= s.gen)
    && (forall c, d | c in s.calls && d in s.calls && s.calls[c].HoldsEvalMu() && s.calls[d].HoldsEvalMu() :: c == d)
  }

  ghost predicate EvalsOk(s: Sys) {
    AllSpaced(s.evals) && CacheIsLast(s) && OneEvaluates(s)
  }

  lemma AllSpacedAppend(evals: seq<Evaluation>, x: Evaluation)
    requires AllSpaced(evals) && x.start <= x.end && Spaced(evals, x.gen, x.start)
    ensures AllSpaced(evals + [x])
  {
    var more := evals + [x];
    forall k | 0 <= k < |more|
      ensures more[k].start <= more[k].end && Spaced(more[..k], more[k].gen, more[k].start)
    {
      assert more[..k] == evals[..k];
      assert evals[..|evals|] == evals;
    }
  }

  lemma EnterKeepsEvals(s: Sys, e: Event)
    requires EvalsOk(s) && Enabled(s, e) && e.Enter?
    ensures EvalsOk(Step(s, e))
  {
  }

  lemma StoreKeepsEvals(s: Sys, e: Event)
    requires EvalsOk(s) && Enabled(s, e) && e.Store?
    ensures EvalsOk(Step(s, e))
  {
    var t, pc := Step(s, e), s.calls[e.c];
    AllSpacedAppend(s.evals, Evaluation(pc.gen, pc.start, e.now));
    forall c | c in t.calls
      ensures !t.calls[c].HoldsEvalMu()
    {
      assert c != e.c ==> t.calls[c] == s.calls[c];
    }
  }

  lemma StepKeepsEvals(s: Sys, e: Event)
    requires EvalsOk(s) && Enabled(s, e)
    ensures EvalsOk(Step(s, e))
  {
    if e.Enter? {
      EnterKeepsEvals(s, e);
    } else if e.Store? {
      StoreKeepsEvals(s, e);
    }
  }

  lemma {:induction false} ReachableEvals(es: seq<Event>, ss: seq<Sys>, i: nat)
    requires IsRun(es, ss) && i <= |es|
    ensures EvalsOk(ss[i])
  {
    if i > 0 {
      ReachableEvals(es, ss, i - 1);
      assert Follows(ss[i - 1], es[i - 1], ss[i]);
      StepKeepsEvals(ss[i - 1], es[i - 1]);
    }
  }

  /** In every run, evaluations under one generation are a watch interval apart, so the
      m-th after the k-th starts at least m - k intervals after it ended. */
  lemma {:induction false} EvaluationsSpaced(es: seq<Event>, ss: seq<Sys>, i: nat, k: nat, m: nat)
    requires IsRun(es, ss) && i <= |es| && k < m < |ss[i].evals|
    ensures ss[i].evals[k].gen <= ss[i].evals[m].gen
    ensures ss[i].evals[k].gen == ss[i].evals[m].gen ==>
      ss[i].evals[m].start >= ss[i].evals[k].end + (m - k) * WATCH_INTERVAL
    decreases m
  {
    ReachableEvals(es, ss, i);
    var evals := ss[i].evals;
    assert Spaced(evals[..m], evals[m].gen, evals[m].start);
    assert evals[..m][m - 1] == evals[m - 1];
    if k < m - 1 {
      EvaluationsSpaced(es, ss, i, k, m - 1);
      assert evals[m - 1].start <= evals[m - 1].end;
    }
  }

  /** A call is served without an evaluation exactly when the last one began under the
      current generation and ended less than a watch interval ago. */
  lemma {:induction false} ServedExactlyWhenRecent(es: seq<Event>, ss: seq<Sys>, i: nat)
    requires IsRun(es, ss) && i < |es| && es[i].Enter?
    ensures
      var s, t, c := ss[i], ss[i + 1], es[i].c;
      var n := |s.evals|;
      && c in t.calls && (t.calls[c].Served? || t.calls[c].Loaded?)
      && (t.calls[c].Served? <==>
           n > 0 && s.evals[n - 1].gen == s.gen && es[i].now < s.evals[n - 1].end + WATCH_INTERVAL)
  {
    ReachableEvals(es, ss, i);
    assert Follows(ss[i], es[i], ss[i + 1]);
  }
}
