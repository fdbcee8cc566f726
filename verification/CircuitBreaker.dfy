/** The per-method circuit breaker: closed, open and half-open episodes.

    Allow and Record are one critical section each, so a run of the system is a
    sequence of arrivals and completions in any order.  An admitted call stays
    outstanding until it finishes, which it does at most once and may never do. */
module CircuitBreaker {

  datatype Phase = Closed | Open | HalfOpen

  datatype Outcome = Failure | Success | Neutral

  /** Limits of one breaker; openFor is a duration on the same scale as the clock. */
  datatype Config = Config(maxFailures: int, openFor: int, halfOpenMax: int)
  {
    predicate Usable() {
      0 < maxFailures && 0 < openFor && 0 < halfOpenMax
    }
  }

  const DEFAULT_OPEN_INTERVAL: int := 5_000_000_000

  /** Defaults for unset limits.  A breaker that is enabled at all is then usable. */
  function WithDefaults(c: Config): (r: Config)
    ensures r.maxFailures == c.maxFailures
    ensures r.Usable() <==> 0 < c.maxFailures
    ensures c.Usable() ==> r == c
    ensures r.openFor != c.openFor <==> c.openFor <= 0
    ensures r.halfOpenMax != c.halfOpenMax <==> c.halfOpenMax <= 0
    ensures r.openFor in {c.openFor, DEFAULT_OPEN_INTERVAL} && r.halfOpenMax in {c.halfOpenMax, 1}
  {
    Config(c.maxFailures,
           if c.openFor <= 0 then DEFAULT_OPEN_INTERVAL else c.openFor,
           if c.halfOpenMax <= 0 then 1 else c.halfOpenMax)
  }

  datatype Admission = Admission(ok: bool, probe: bool, gen: nat, from: Phase, to: Phase, changed: bool)

  datatype State = State(phase: Phase, failures: nat, openedAt: nat, halfOpenedAt: nat, probes: nat, gen: nat)

  const INITIAL := State(Closed, 0, 0, 0, 0, 0)

  // ---------------------------------------------------------------------------
  // The two critical sections
  // ---------------------------------------------------------------------------

  /** Admission of a call.  The clock is read once to measure the elapsed time
      (seen) and once more to stamp a new episode (stamp). */
  function AllowStep(c: Config, b: State, seen: nat, stamp: nat): (State, Admission)
  {
    match b.phase
    case Open =>
      if seen - b.openedAt >= c.openFor then
        (b.(phase := HalfOpen, gen := b.gen + 1, probes := 1, halfOpenedAt := stamp),
         Admission(true, true, b.gen + 1, Open, HalfOpen, true))
      else
        (b, Admission(false, false, 0, Open, Open, false))
    case HalfOpen =>
      if b.probes < c.halfOpenMax then
        (b.(probes := b.probes + 1), Admission(true, true, b.gen, HalfOpen, HalfOpen, false))
      else if seen - b.halfOpenedAt >= c.openFor then
        (b.(gen := b.gen + 1, probes := 1, halfOpenedAt := stamp),
         Admission(true, true, b.gen + 1, HalfOpen, HalfOpen, false))
      else
        (b, Admission(false, false, 0, HalfOpen, HalfOpen, false))
    case Closed =>
      (b, Admission(true, false, b.gen, Closed, Closed, false))
  }

  /** Completion of a call that was admitted with adm. */
  function RecordStep(c: Config, b: State, adm: Admission, out: Outcome, now: nat): State
  {
    match b.phase
    case HalfOpen =>
      if !adm.probe || adm.gen != b.gen then b else
      var freed := if b.probes > 0 then b.(probes := b.probes - 1) else b;
      (match out
       case Neutral => freed
       case Success => freed.(phase := Closed, failures := 0, gen := b.gen + 1)
       case Failure => freed.(phase := Open, openedAt := now, gen := b.gen + 1))
    case Closed =>
      if adm.probe || adm.gen != b.gen then b else
      (match out
       case Neutral => b
       case Success => b.(failures := 0)
       case Failure =>
         if b.failures + 1 >= c.maxFailures then
           b.(failures := b.failures + 1, phase := Open, openedAt := now, gen := b.gen + 1)
         else
           b.(failures := b.failures + 1))
    case Open => b
  }

  /** The breaker object; each method is one critical section. */
  class Breaker {
    const cfg: Config
    var phase: Phase
    var failures: nat
    var openedAt: nat
    var halfOpenedAt: nat
    var probes: nat
    var gen: nat

    function Abs(): State
      reads this
    {
      State(phase, failures, openedAt, halfOpenedAt, probes, gen)
    }

    constructor (cfg: Config)
      ensures this.cfg == cfg && Abs() == INITIAL
    {
      this.cfg := cfg;
      phase, failures, openedAt, halfOpenedAt, probes, gen := Closed, 0, 0, 0, 0, 0;
    }

    method Allow(seen: nat, stamp: nat) returns (a: Admission)
      modifies this
      ensures (Abs(), a) == AllowStep(cfg, old(Abs()), seen, stamp)
      ensures a.from == old(phase) && a.to == phase && (a.changed <==> phase != old(phase))
    {
      var prev := phase;
      match phase {
        case Open =>
          if seen - openedAt >= cfg.openFor {
            phase := HalfOpen;
            gen := gen + 1;
            probes := 1;
            halfOpenedAt := stamp;
            return Admission(true, true, gen, prev, phase, true);
          }
          return Admission(false, false, 0, prev, phase, false);
        case HalfOpen =>
          if probes < cfg.halfOpenMax {
            probes := probes + 1;
            return Admission(true, true, gen, prev, phase, false);
          }
          if seen - halfOpenedAt >= cfg.openFor {
            gen := gen + 1;
            probes := 1;
            halfOpenedAt := stamp;
            return Admission(true, true, gen, prev, phase, false);
          }
          return Admission(false, false, 0, prev, phase, false);
        case Closed =>
          return Admission(true, false, gen, prev, phase, false);
      }
    }

    method Record(out: Outcome, adm: Admission, now: nat) returns (changed: bool)
      modifies this
      ensures Abs() == RecordStep(cfg, old(Abs()), adm, out, now)
      ensures changed <==> phase != old(phase)
    {
      var before := phase;
      match phase {
        case HalfOpen =>
          if adm.probe && adm.gen == gen {
            if probes > 0 {
              probes := probes - 1;
            }
            if out != Neutral {
              if out == Success {
                phase := Closed;
                failures := 0;
              } else {
                phase := Open;
                openedAt := now;
              }
              gen := gen + 1;
            }
          }
        case Closed =>
          if !adm.probe && adm.gen == gen && out != Neutral {
            if out == Success {
              failures := 0;
            } else {
              failures := failures + 1;
              if failures >= cfg.maxFailures {
                phase := Open;
                openedAt := now;
                gen := gen + 1;
              }
            }
          }
        case Open =>
      }
      changed := before != phase;
    }
  }

  /** One breaker per method name, created on first use. */
  class BreakerSet {
    const cfg: Config
    var breakers: map<string, Breaker>

    /** Every breaker carries the shared limits and no two methods share one. */
    ghost predicate Valid()
      reads this
    {
      && (forall m | m in breakers :: breakers[m].cfg == cfg)
      && (forall m, n | m in breakers && n in breakers && m != n :: breakers[m] != breakers[n])
    }

    constructor (raw: Config)
      ensures cfg == WithDefaults(raw) && breakers == map[] && Valid()
    {
      cfg := WithDefaults(raw);
      breakers := map[];
    }

    method Get(name: string) returns (b: Breaker)
      requires Valid()
      modifies this
      ensures Valid()
      ensures breakers == old(breakers)[name := b]
      ensures name in old(breakers) ==> b == old(breakers)[name]
      ensures name !in old(breakers) ==> fresh(b) && b.Abs() == INITIAL
    {
      if name in breakers {
        b := breakers[name];
        assert breakers == breakers[name := b];
      } else {
        b := new Breaker(cfg);
        breakers := breakers[name := b];
      }
    }
  }

  // ---------------------------------------------------------------------------
  // Runs
  // ---------------------------------------------------------------------------

  datatype Completion = Completion(adm: Admission, out: Outcome)

  /** The breaker, the outstanding calls by call number, the number of arrivals so
      far, the latest clock reading, and every completion in order. */
  datatype Sys = Sys(b: State, calls: map<nat, Admission>, next: nat, clock: nat, done: seq<Completion>)

  const START := Sys(INITIAL, map[], 0, 0, [])

  datatype Event =
    | Arrive(seen: nat, stamp: nat)
    | Finish(id: nat, out: Outcome, now: nat)

  predicate Enabled(s: Sys, e: Event) {
    match e
    case Arrive(seen, stamp) => s.clock <= seen <= stamp
    case Finish(id, _, now) => id in s.calls && s.clock <= now
  }

  function Step(c: Config, s: Sys, e: Event): Sys
    requires Enabled(s, e)
  {
    match e
    case Arrive(seen, stamp) =>
      var (b, a) := AllowStep(c, s.b, seen, stamp);
      Sys(b, if a.ok then s.calls[s.next := a] else s.calls, s.next + 1, stamp, s.done)
    case Finish(id, out, now) =>
      Sys(RecordStep(c, s.b, s.calls[id], out, now), s.calls - {id}, s.next, now,
          s.done + [Completion(s.calls[id], out)])
  }

  ghost predicate Follows(c: Config, s: Sys, e: Event, t: Sys) {
    Enabled(s, e) && t == Step(c, s, e)
  }

  /** es is a run of the breaker and ss the states it goes through. */
  ghost predicate IsRun(c: Config, es: seq<Event>, ss: seq<Sys>) {
    && |ss| == |es| + 1
    && ss[0] == START
    && forall i {:trigger es[i]} | 0 <= i < |es| :: Follows(c, ss[i], es[i], ss[i + 1])
  }

  // ---------------------------------------------------------------------------
  // What every step keeps
  // ---------------------------------------------------------------------------

  /** Outstanding probes of the current episode. */
  function LiveProbes(s: Sys): set<nat> {
    set id | id in s.calls && s.calls[id].probe && s.calls[id].gen == s.b.gen
  }

  /** Verdicts, in order, of completed calls admitted into closed episode gen. */
  function Counted(done: seq<Completion>, gen: nat): seq<Outcome> {
    if done == [] then [] else
    var x := done[|done| - 1];
    var before := Counted(done[..|done| - 1], gen);
    if x.adm.gen == gen && !x.adm.probe && x.out != Neutral then before + [x.out] else before
  }

  /** Length of the run of failures that ends the sequence. */
  function TrailingFailures(outs: seq<Outcome>): nat {
    if outs == [] || outs[|outs| - 1] != Failure then 0
    else 1 + TrailingFailures(outs[..|outs| - 1])
  }

  ghost predicate CallsOk(s: Sys) {
    && (forall id | id in s.calls :: id < s.next && s.calls[id].ok && s.calls[id].gen <= s.b.gen)
    && (forall i | 0 <= i < |s.done| :: s.done[i].adm.gen <= s.b.gen)
    && (s.b.phase != Closed ==> forall id | id in s.calls :: s.calls[id].gen == s.b.gen ==> s.calls[id].probe)
  }

  ghost predicate ProbesOk(c: Config, s: Sys) {
    if s.b.phase == HalfOpen
    then s.b.probes == |LiveProbes(s)| && s.b.probes <= c.halfOpenMax
    else LiveProbes(s) == {}
  }

  ghost predicate FailuresOk(c: Config, s: Sys) {
    s.b.phase == Closed ==>
      s.b.failures < c.maxFailures && s.b.failures == TrailingFailures(Counted(s.done, s.b.gen))
  }

  ghost predicate StampsOk(s: Sys) {
    && s.b.openedAt <= s.clock && s.b.halfOpenedAt <= s.clock
    && (s.b.phase == Open ==> s.b.halfOpenedAt <= s.b.openedAt)
  }

  ghost predicate Inv(c: Config, s: Sys) {
    CallsOk(s) && ProbesOk(c, s) && FailuresOk(c, s) && StampsOk(s)
  }

  /** No completion of an earlier episode counts toward a later one. */
  lemma {:induction false} CountedLater(done: seq<Completion>, gen: nat)
    requires forall i | 0 <= i < |done| :: done[i].adm.gen < gen
    ensures Counted(done, gen) == []
  {
    if done != [] {
      CountedLater(done[..|done| - 1], gen);
    }
  }

  lemma CountedAppend(done: seq<Completion>, x: Completion, gen: nat)
    ensures Counted(done + [x], gen) ==
            if x.adm.gen == gen && !x.adm.probe && x.out != Neutral
            then Counted(done, gen) + [x.out] else Counted(done, gen)
  {
    assert (done + [x])[..|done|] == done;
  }

  lemma TrailingAppend(outs: seq<Outcome>, x: Outcome)
    ensures TrailingFailures(outs + [x]) == if x == Failure then TrailingFailures(outs) + 1 else 0
  {
    assert (outs + [x])[..|outs|] == outs;
  }

  lemma ArriveKeepsProbes(c: Config, s: Sys, e: Event)
    requires c.Usable() && CallsOk(s) && ProbesOk(c, s) && e.Arrive? && Enabled(s, e)
    ensures ProbesOk(c, Step(c, s, e))
  {
    var t := Step(c, s, e);
    var a := AllowStep(c, s.b, e.seen, e.stamp).1;
    if !a.ok {
      assert t.calls == s.calls;
    } else if a.gen != s.b.gen {
      assert forall id | id in LiveProbes(t) :: id == s.next;
      assert LiveProbes(t) == {s.next};
    } else if a.probe {
      assert s.next !in LiveProbes(s);
      assert LiveProbes(t) == LiveProbes(s) + {s.next};
    } else {
      assert LiveProbes(t) == LiveProbes(s);
    }
  }

  lemma FinishKeepsProbes(c: Config, s: Sys, e: Event)
    requires c.Usable() && CallsOk(s) && ProbesOk(c, s) && e.Finish? && Enabled(s, e)
    ensures ProbesOk(c, Step(c, s, e))
  {
    var t := Step(c, s, e);
    if t.b.gen == s.b.gen {
      assert LiveProbes(t) == LiveProbes(s) - {e.id};
      if s.b.phase == HalfOpen && s.calls[e.id].probe && s.calls[e.id].gen == s.b.gen {
        assert e.id in LiveProbes(s);
      }
    } else {
      assert LiveProbes(t) == {};
    }
  }

  lemma FinishKeepsFailures(c: Config, s: Sys, e: Event)
    requires c.Usable() && Inv(c, s) && e.Finish? && Enabled(s, e)
    ensures FailuresOk(c, Step(c, s, e))
  {
    var t := Step(c, s, e);
    var x := Completion(s.calls[e.id], e.out);
    CountedAppend(s.done, x, t.b.gen);
    if t.b.gen == s.b.gen {
      TrailingAppend(Counted(s.done, s.b.gen), e.out);
      assert s.b.phase == Closed ==> e.id !in LiveProbes(s);
    } else {
      CountedLater(s.done, t.b.gen);
    }
  }

  lemma StepKeepsInv(c: Config, s: Sys, e: Event)
    requires c.Usable() && Inv(c, s) && Enabled(s, e)
    ensures Inv(c, Step(c, s, e))
  {
    if e.Arrive? {
      ArriveKeepsProbes(c, s, e);
    } else {
      FinishKeepsProbes(c, s, e);
      FinishKeepsFailures(c, s, e);
    }
  }

  lemma {:induction false} ReachableInv(c: Config, es: seq<Event>, ss: seq<Sys>, i: nat)
    requires c.Usable() && IsRun(c, es, ss) && i <= |es|
    ensures Inv(c, ss[i])
  {
    if i == 0 {
      assert LiveProbes(START) == {};
    } else {
      ReachableInv(c, es, ss, i - 1);
      assert Follows(c, ss[i - 1], es[i - 1], ss[i]);
      StepKeepsInv(c, ss[i - 1], es[i - 1]);
    }
  }

  // ---------------------------------------------------------------------------
  // Main results
  // ---------------------------------------------------------------------------

  /** In every interleaving the probe counter counts the outstanding probes of the
      current episode, and such probes exist only while half-open. */
  lemma {:induction false} ProbesCountOutstanding(c: Config, es: seq<Event>, ss: seq<Sys>, i: nat)
    requires c.Usable() && IsRun(c, es, ss) && i <= |es|
    ensures ss[i].b.phase == HalfOpen ==> ss[i].b.probes == |LiveProbes(ss[i])| <= c.halfOpenMax
    ensures ss[i].b.phase != HalfOpen ==> LiveProbes(ss[i]) == {}
    ensures forall id | id in LiveProbes(ss[i]) :: ss[i].b.probes > 0
  {
    ReachableInv(c, es, ss, i);
  }

  /** In every closed state the failure counter is the run of failures that ends
      the verdicts of the current episode, and it is below the limit. */
  lemma {:induction false} FailuresCountCurrentEpisode(c: Config, es: seq<Event>, ss: seq<Sys>, i: nat)
    requires c.Usable() && IsRun(c, es, ss) && i <= |es|
    requires ss[i].b.phase == Closed
    ensures ss[i].b.failures == TrailingFailures(Counted(ss[i].done, ss[i].b.gen)) < c.maxFailures
  {
    ReachableInv(c, es, ss, i);
  }

  /** A completion opens a closed breaker exactly when, with it, the current
      episode ends in maxFailures failures in a row. */
  lemma {:induction false} TripsExactlyAtTheLimit(c: Config, es: seq<Event>, ss: seq<Sys>, i: nat)
    requires c.Usable() && IsRun(c, es, ss) && i < |es|
    requires ss[i].b.phase == Closed && es[i].Finish?
    ensures ss[i + 1].b.phase == Open <==>
            TrailingFailures(Counted(ss[i + 1].done, ss[i].b.gen)) == c.maxFailures
    ensures ss[i + 1].b.phase in {Closed, Open}
    ensures ss[i + 1].b.phase == Open ==> ss[i + 1].b.openedAt == es[i].now
  {
    ReachableInv(c, es, ss, i);
    assert Follows(c, ss[i], es[i], ss[i + 1]);
    var x := Completion(ss[i].calls[es[i].id], es[i].out);
    CountedAppend(ss[i].done, x, ss[i].b.gen);
    TrailingAppend(Counted(ss[i].done, ss[i].b.gen), es[i].out);
    assert es[i].id !in LiveProbes(ss[i]);
  }

  /** A call is admitted exactly when the breaker is closed, its cool-down is over,
      or fewer than halfOpenMax probes of the episode are outstanding. */
  lemma {:induction false} AdmittedExactlyWhen(c: Config, es: seq<Event>, ss: seq<Sys>, i: nat)
    requires c.Usable() && IsRun(c, es, ss) && i < |es| && es[i].Arrive?
    ensures
      var s := ss[i];
      s.next in ss[i + 1].calls <==>
        match s.b.phase
        case Closed => true
        case Open => es[i].seen >= s.b.openedAt + c.openFor
        case HalfOpen => |LiveProbes(s)| < c.halfOpenMax || es[i].seen >= s.b.halfOpenedAt + c.openFor
  {
    ReachableInv(c, es, ss, i);
    assert Follows(c, ss[i], es[i], ss[i + 1]);
  }

  /** What an arrival does: a closed breaker lets it in and does not change; the first
      call after a cool-down is the only probe of a new episode, stamped with its time;
      later probes join the episode while there is room; a call that is turned away
      leaves no trace. */
  lemma {:induction false} ArrivalsJoinEpisodes(c: Config, es: seq<Event>, ss: seq<Sys>, i: nat)
    requires c.Usable() && IsRun(c, es, ss) && i < |es| && es[i].Arrive?
    ensures
      var s, t := ss[i], ss[i + 1];
      var entered := s.next in t.calls;
      && (!entered ==> t.b == s.b && t.calls == s.calls)
      && (s.b.phase == Closed ==> t.b == s.b && entered && !t.calls[s.next].probe && t.calls[s.next].gen == s.b.gen)
      && (s.b.phase != Closed && entered ==> t.b.phase == HalfOpen && s.next in LiveProbes(t))
      && (s.b.phase == Open && entered ==> LiveProbes(t) == {s.next} && t.b.halfOpenedAt == es[i].stamp)
      && (s.b.phase == HalfOpen && entered ==>
           if |LiveProbes(s)| < c.halfOpenMax
           then LiveProbes(t) == LiveProbes(s) + {s.next} && t.b.halfOpenedAt == s.b.halfOpenedAt
           else LiveProbes(t) == {s.next} && t.b.halfOpenedAt == es[i].stamp)
      && (forall id | id in s.calls :: id in t.calls && t.calls[id] == s.calls[id])
  {
    ReachableInv(c, es, ss, i);
    assert Follows(c, ss[i], es[i], ss[i + 1]);
    var s, t := ss[i], ss[i + 1];
    if s.next in t.calls && s.b.phase != Closed {
      if t.b.gen == s.b.gen {
        assert LiveProbes(t) == LiveProbes(s) + {s.next};
      } else {
        assert LiveProbes(t) == {s.next};
      }
    }
  }

  /** How a half-open episode is resolved: it closes exactly on the success of one of its
      own probes and opens, from that moment, exactly on the failure of one; a neutral
      probe only gives its slot back.  No other completion changes anything, and none
      changes an open breaker. */
  lemma {:induction false} ProbesResolveEpisodes(c: Config, es: seq<Event>, ss: seq<Sys>, i: nat)
    requires c.Usable() && IsRun(c, es, ss) && i < |es| && es[i].Finish? && ss[i].b.phase != Closed
    ensures
      var s, t, e := ss[i], ss[i + 1], es[i];
      var live := e.id in LiveProbes(s);
      && (t.b.phase == Closed <==> live && e.out == Success)
      && (s.b.phase == HalfOpen ==> (t.b.phase == Open <==> live && e.out == Failure))
      && (s.b.phase == HalfOpen && t.b.phase == Open ==> t.b.openedAt == e.now)
      && (t.b.phase == Closed ==> t.b.failures == 0)
      && (t.b.phase != s.b.phase ==> LiveProbes(t) == {})
      && (live && e.out == Neutral ==> t.b.phase == HalfOpen && LiveProbes(t) == LiveProbes(s) - {e.id})
      && (!live ==> t.b == s.b)
  {
    ReachableInv(c, es, ss, i);
    ReachableInv(c, es, ss, i + 1);
    assert Follows(c, ss[i], es[i], ss[i + 1]);
    var s, t := ss[i], ss[i + 1];
    if t.b.gen == s.b.gen {
      assert LiveProbes(t) == LiveProbes(s) - {es[i].id};
    }
  }

  /** Stuck probes never wedge a method: a call that arrives openFor after the
      latest stamp is admitted, whatever is outstanding. */
  lemma {:induction false} LateArrivalAdmitted(c: Config, es: seq<Event>, ss: seq<Sys>, i: nat)
    requires c.Usable() && IsRun(c, es, ss) && i < |es| && es[i].Arrive?
    requires es[i].seen >= ss[i].b.openedAt + c.openFor
    requires es[i].seen >= ss[i].b.halfOpenedAt + c.openFor
    ensures ss[i].next in ss[i + 1].calls
  {
    AdmittedExactlyWhen(c, es, ss, i);
  }

  ghost predicate Opens(ss: seq<Sys>, i: nat)
    requires i + 1 < |ss|
  {
    ss[i].b.phase != Open && ss[i + 1].b.phase == Open
  }

  /** The event starts a half-open episode, from open or by abandoning the last one. */
  ghost predicate StartsEpisode(ss: seq<Sys>, i: nat)
    requires i + 1 < |ss|
  {
    ss[i + 1].b.phase == HalfOpen && ss[i + 1].b.gen != ss[i].b.gen
  }

  lemma {:induction false} ClockMonotone(c: Config, es: seq<Event>, ss: seq<Sys>, i: nat, j: nat)
    requires IsRun(c, es, ss) && i <= j <= |es|
    ensures ss[i].clock <= ss[j].clock
  {
    if i < j {
      ClockMonotone(c, es, ss, i, j - 1);
      assert Follows(c, ss[j - 1], es[j - 1], ss[j]);
    }
  }

  lemma {:induction false} StaysOpen(c: Config, es: seq<Event>, ss: seq<Sys>, i: nat, j: nat)
    requires c.Usable() && IsRun(c, es, ss) && i < j <= |es| && Opens(ss, i)
    requires ss[j].clock < ss[i + 1].b.openedAt + c.openFor
    ensures ss[j].b == ss[i + 1].b
  {
    if i + 1 < j {
      ClockMonotone(c, es, ss, j - 1, j);
      StaysOpen(c, es, ss, i, j - 1);
      assert Follows(c, ss[j - 1], es[j - 1], ss[j]);
    }
  }

  /** After an opening, no call that arrives within openFor is admitted and the
      breaker does not change. */
  lemma {:induction false} NothingAdmittedWhileOpen(c: Config, es: seq<Event>, ss: seq<Sys>, i: nat, j: nat)
    requires c.Usable() && IsRun(c, es, ss) && i < j < |es| && Opens(ss, i)
    requires es[j].Arrive? && es[j].seen < ss[i + 1].b.openedAt + c.openFor
    ensures ss[j + 1].b == ss[j].b == ss[i + 1].b
    ensures ss[j + 1].calls == ss[j].calls
    ensures ss[i + 1].b.openedAt == es[i].now
  {
    assert Follows(c, ss[i], es[i], ss[i + 1]);
    assert Follows(c, ss[j], es[j], ss[j + 1]);
    StaysOpen(c, es, ss, i, j);
  }

  lemma {:induction false} HalfOpenStampMonotone(c: Config, es: seq<Event>, ss: seq<Sys>, i: nat, j: nat)
    requires c.Usable() && IsRun(c, es, ss) && i <= j <= |es|
    ensures ss[i].b.halfOpenedAt <= ss[j].b.halfOpenedAt
  {
    if i < j {
      HalfOpenStampMonotone(c, es, ss, i, j - 1);
      ReachableInv(c, es, ss, j - 1);
      assert Follows(c, ss[j - 1], es[j - 1], ss[j]);
    }
  }

  /** Any two half-open episodes of a run start at least openFor apart. */
  lemma {:induction false} EpisodesApart(c: Config, es: seq<Event>, ss: seq<Sys>, i: nat, j: nat)
    requires c.Usable() && IsRun(c, es, ss) && i < j < |es|
    requires StartsEpisode(ss, i) && StartsEpisode(ss, j)
    ensures es[i].Arrive? && es[j].Arrive?
    ensures es[i].stamp + c.openFor <= es[j].seen <= es[j].stamp
  {
    assert Follows(c, ss[i], es[i], ss[i + 1]);
    assert Follows(c, ss[j], es[j], ss[j + 1]);
    HalfOpenStampMonotone(c, es, ss, i + 1, j);
    ReachableInv(c, es, ss, j);
  }

  // ---------------------------------------------------------------------------
  // Completions of earlier episodes are irrelevant
  // ---------------------------------------------------------------------------

  /** The event completes a call that was admitted into an earlier episode. */
  ghost predicate Stale(s: Sys, e: Event) {
    e.Finish? && e.id in s.calls && s.calls[e.id].gen != s.b.gen
  }

  /** The run without the completions of earlier-episode calls. */
  ghost function WithoutStale(es: seq<Event>, ss: seq<Sys>): seq<Event>
    requires |ss| == |es| + 1
  {
    if es == [] then [] else
    var n := |es| - 1;
    var kept := WithoutStale(es[..n], ss[..n + 1]);
    if Stale(ss[n], es[n]) then kept else kept + [es[n]]
  }

  lemma ExtendRun(c: Config, es: seq<Event>, ss: seq<Sys>, e: Event)
    requires IsRun(c, es, ss) && Enabled(ss[|es|], e)
    ensures IsRun(c, es + [e], ss + [Step(c, ss[|es|], e)])
  {
    var es1, ss1 := es + [e], ss + [Step(c, ss[|es|], e)];
    forall i | 0 <= i < |es1|
      ensures Follows(c, ss1[i], es1[i], ss1[i + 1])
    {
      if i < |es| {
        assert Follows(c, ss[i], es[i], ss[i + 1]);
      }
    }
  }

  /** Deleting every such completion from a run gives a run that ends with the same
      breaker state; the deleted calls are simply still outstanding. */
  lemma {:induction false} StaleCompletionsIrrelevant(c: Config, es: seq<Event>, ss: seq<Sys>)
    returns (ts: seq<Sys>)
    requires c.Usable() && IsRun(c, es, ss)
    ensures IsRun(c, WithoutStale(es, ss), ts)
    ensures var s, t := ss[|es|], ts[|ts| - 1];
      && t.b == s.b && t.next == s.next && t.clock <= s.clock
      && forall id | id in s.calls :: id in t.calls && t.calls[id] == s.calls[id]
  {
    if es == [] {
      ts := [START];
    } else {
      var n := |es| - 1;
      var es0, ss0 := es[..n], ss[..n + 1];
      assert forall i {:trigger es0[i]} | 0 <= i < n :: es0[i] == es[i];
      assert IsRun(c, es0, ss0);
      var kept := WithoutStale(es0, ss0);
      var ts0 := StaleCompletionsIrrelevant(c, es0, ss0);
      assert Follows(c, ss[n], es[n], ss[n + 1]);
      if Stale(ss[n], es[n]) {
        ts := ts0;
      } else {
        var t := ts0[|ts0| - 1];
        assert Enabled(t, es[n]);
        ts := ts0 + [Step(c, t, es[n])];
        ExtendRun(c, kept, ts0, es[n]);
      }
    }
  }
}
