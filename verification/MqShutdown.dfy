/** The shutdown protocol that both NATS-family clients follow: deliveries,
    subscriptions, watcher goroutines and Close race through one mutex, a closed
    flag and two wait groups.  The JetStream client also settles every delivery. */
module MqShutdown {
  import opened Common
  import opened ErrorRegistry

  type SubId = nat
  type DeliveryId = nat

  // ---------------------------------------------------------------------------
  // The client's fields and the sections under its mutex
  // ---------------------------------------------------------------------------

  /** The closed flag (done is closed with it), the listed subscriptions, and the wait
      groups for watchers and for running handlers. */
  datatype Core = Core(closed: bool, subs: set<SubId>, wg: nat, hwg: nat)

  function ListStep(c: Core, sub: SubId): (Core, bool) {
    if c.closed then (c, false) else (c.(subs := c.subs + {sub}, wg := c.wg + 1), true)
  }

  function BeginStep(c: Core): (Core, bool) {
    if c.closed then (c, false) else (c.(hwg := c.hwg + 1), true)
  }

  function SweepStep(c: Core): (Core, set<SubId>) {
    if c.closed then (c, {}) else (c.(closed := true, subs := {}), c.subs)
  }

  class Client {
    var closed: bool
    var subs: set<SubId>
    var wg: nat
    var hwg: nat

    function Abs(): Core
      reads this
    {
      Core(closed, subs, wg, hwg)
    }

    constructor ()
      ensures Abs() == Core(false, {}, 0, 0)
    {
      closed, subs, wg, hwg := false, {}, 0, 0;
    }

    /** The lock section of Subscribe, after delivery has started. */
    method Register(sub: SubId) returns (ok: bool)
      modifies this
      ensures (Abs(), ok) == ListStep(old(Abs()), sub)
    {
      if closed {
        return false;
      }
      subs := subs + {sub};
      wg := wg + 1;
      return true;
    }

    /** The lock section of a delivery callback. */
    method BeginHandler() returns (ok: bool)
      modifies this`hwg
      ensures (Abs(), ok) == BeginStep(old(Abs()))
    {
      if closed {
        return false;
      }
      hwg := hwg + 1;
      return true;
    }

    /** The lock section of Close; the swept subscriptions are stopped within it. */
    method Sweep() returns (swept: set<SubId>)
      modifies this
      ensures (Abs(), swept) == SweepStep(old(Abs()))
    {
      if closed {
        return {};
      }
      closed := true;
      swept := subs;
      subs := {};
    }
  }

  // ---------------------------------------------------------------------------
  // Settling a delivery
  // ---------------------------------------------------------------------------

  const NAK_BACKOFF: seq<nat> := [1, 5, 30, 60, 300]

  datatype Settlement = Ack | Term | NakWithDelay(seconds: nat)

  /** Whether the first domain error in the chain has the category. */
  predicate IsCategory(e: Error, cat: Category) {
    var f := FirstDomain(e);
    f.FoundDomain? && f.cat == cat
  }

  /** Position in the backoff for a delivery count that may be missing. */
  function BackoffStep(delivered: Option<nat>): (i: nat)
    ensures i < |NAK_BACKOFF|
    ensures delivered.Some? && 1 <= delivered.value <= |NAK_BACKOFF| ==> i + 1 == delivered.value
    ensures delivered.Some? && delivered.value > |NAK_BACKOFF| ==> i + 1 == |NAK_BACKOFF|
    ensures delivered.None? || delivered.value == 0 ==> i == 0
  {
    if delivered.None? || delivered.value == 0 then 0
    else if delivered.value - 1 < |NAK_BACKOFF| - 1 then delivered.value - 1 else |NAK_BACKOFF| - 1
  }

  function Settle(err: Option<Error>, delivered: Option<nat>): Settlement {
    if err.None? then Ack
    else if IsCategory(err.value, CAT_INVALID_ARGUMENT) then Term
    else NakWithDelay(NAK_BACKOFF[BackoffStep(delivered)])
  }

  /** Redelivery after a failure is never paced faster than before, and a message is
      taken out of redelivery exactly when the handler blames the message itself. */
  lemma RedeliveryBacksOff(err: Error, a: nat, b: nat)
    requires a <= b
    ensures Settle(Some(err), Some(a)) == Term <==> IsCategory(err, CAT_INVALID_ARGUMENT)
    ensures Settle(Some(err), Some(a)).NakWithDelay? ==>
      Settle(Some(err), Some(b)).NakWithDelay? &&
      1 <= Settle(Some(err), Some(a)).seconds <= Settle(Some(err), Some(b)).seconds <= 300
  {
    var i, j := BackoffStep(Some(a)), BackoffStep(Some(b));
    assert i <= j;
    assert NAK_BACKOFF[i] <= NAK_BACKOFF[j];
  }

  // ---------------------------------------------------------------------------
  // Runs
  // ---------------------------------------------------------------------------

  /** A subscription: delivering but not yet listed; refused by a closed client; then
      the stages of its watcher until it has left the wait group. */
  datatype SubPc = Fresh | Lost | Watching | Waking | Unlisting | Leaving | Gone
  {
    predicate Watched() { Watching? || Waking? || Unlisting? || Leaving? }
    predicate Listed() { Watching? || Waking? || Unlisting? }
  }

  datatype HandlerPc =
    | Running
    | Returned(err: Option<Error>)
    | Settled(how: Settlement)
    | Finished(settled: Option<Settlement>)

  /** What Close's teardown is waiting for. */
  datatype CloserPc = NotClosing | AwaitWatchers | AwaitHandlers | ClosingConn | ConnClosed

  datatype Sys = Sys(core: Core, subs: map<SubId, SubPc>, active: set<SubId>,
                     handlers: map<DeliveryId, HandlerPc>, closer: CloserPc)

  const START := Sys(Core(false, {}, 0, 0), map[], {}, map[], NotClosing)

  datatype Event =
    | Subscribe(sub: SubId)
    | FlushFails(sub: SubId)
    | RegisterSub(sub: SubId)
    | StopLost(sub: SubId)
    | Deliver(d: DeliveryId)
    | Return(d: DeliveryId, err: Option<Error>)
    | SettleDelivery(d: DeliveryId, delivered: Option<nat>)
    | Finish(d: DeliveryId)
    | Wake(sub: SubId)
    | Stop(sub: SubId)
    | Unlist(sub: SubId)
    | Leave(sub: SubId)
    | Close
    | WatchersDone
    | HandlersDone
    | CloseConn

  /** settles tells the JetStream client from the core NATS client, which alone flushes
      a new subscription.  A watcher may wake at any time, because its caller's context
      may be cancelled at any time. */
  predicate Enabled(settles: bool, s: Sys, e: Event) {
    match e
    case Subscribe(sub) => sub !in s.subs && s.closer != ConnClosed
    case FlushFails(sub) => !settles && sub in s.subs && s.subs[sub] == Fresh
    case RegisterSub(sub) => sub in s.subs && s.subs[sub] == Fresh
    case StopLost(sub) => sub in s.subs && s.subs[sub] == Lost
    case Deliver(d) => d !in s.handlers
    case Return(d, _) => d in s.handlers && s.handlers[d] == Running
    case SettleDelivery(d, _) => settles && d in s.handlers && s.handlers[d].Returned?
    case Finish(d) =>
      d in s.handlers && s.core.hwg > 0 && (if settles then s.handlers[d].Settled? else s.handlers[d].Returned?)
    case Wake(sub) => sub in s.subs && s.subs[sub] == Watching
    case Stop(sub) => sub in s.subs && s.subs[sub] == Waking
    case Unlist(sub) => sub in s.subs && s.subs[sub] == Unlisting
    case Leave(sub) => sub in s.subs && s.subs[sub] == Leaving && s.core.wg > 0
    case Close => true
    case WatchersDone => s.closer == AwaitWatchers && s.core.wg == 0
    case HandlersDone => s.closer == AwaitHandlers && s.core.hwg == 0
    case CloseConn => s.closer == ClosingConn
  }

  function Step(settles: bool, s: Sys, e: Event): Sys
    requires Enabled(settles, s, e)
  {
    match e
    case Subscribe(sub) => s.(subs := s.subs[sub := Fresh], active := s.active + {sub})
    case FlushFails(sub) => s.(subs := s.subs[sub := Gone], active := s.active - {sub})
    case RegisterSub(sub) =>
      var (core, ok) := ListStep(s.core, sub);
      s.(core := core, subs := s.subs[sub := if ok then Watching else Lost])
    case StopLost(sub) => s.(subs := s.subs[sub := Gone], active := s.active - {sub})
    case Deliver(d) =>
      var (core, ok) := BeginStep(s.core);
      if ok then s.(core := core, handlers := s.handlers[d := Running]) else s
    case Return(d, err) => s.(handlers := s.handlers[d := Returned(err)])
    case SettleDelivery(d, delivered) =>
      s.(handlers := s.handlers[d := Settled(Settle(s.handlers[d].err, delivered))])
    case Finish(d) =>
      s.(core := s.core.(hwg := s.core.hwg - 1),
         handlers := s.handlers[d := Finished(if settles then Some(s.handlers[d].how) else None)])
    case Wake(sub) => s.(subs := s.subs[sub := Waking])
    case Stop(sub) => s.(subs := s.subs[sub := Unlisting], active := s.active - {sub})
    case Unlist(sub) => s.(core := s.core.(subs := s.core.subs - {sub}), subs := s.subs[sub := Leaving])
    case Leave(sub) => s.(core := s.core.(wg := s.core.wg - 1), subs := s.subs[sub := Gone])
    case Close =>
      var (core, swept) := SweepStep(s.core);
      s.(core := core, active := s.active - swept, closer := if s.core.closed then s.closer else AwaitWatchers)
    case WatchersDone => s.(closer := AwaitHandlers)
    case HandlersDone => s.(closer := ClosingConn)
    case CloseConn => s.(closer := ConnClosed)
  }

  ghost predicate Follows(settles: bool, s: Sys, e: Event, t: Sys) {
    Enabled(settles, s, e) && t == Step(settles, s, e)
  }

  ghost predicate IsRun(settles: bool, es: seq<Event>, ss: seq<Sys>) {
    && |ss| == |es| + 1
    && ss[0] == START
    && forall i {:trigger es[i]} | 0 <= i < |es| :: Follows(settles, ss[i], es[i], ss[i + 1])
  }

  // ---------------------------------------------------------------------------
  // What every step keeps
  // ---------------------------------------------------------------------------

  function Watchers(subs: map<SubId, SubPc>): set<SubId> {
    set sub | sub in subs && subs[sub].Watched()
  }

  function Busy(handlers: map<DeliveryId, HandlerPc>): set<DeliveryId> {
    set d | d in handlers && !handlers[d].Finished?
  }

  ghost predicate CountsOk(settles: bool, s: Sys) {
    && s.core.wg == |Watchers(s.subs)|
    && s.core.hwg == |Busy(s.handlers)|
    && (forall d | d in s.handlers && s.handlers[d].Finished? :: s.handlers[d].settled.Some? == settles)
    && (forall d | d in s.handlers && s.handlers[d].Settled? :: settles)
  }

  ghost predicate CloserOk(s: Sys) {
    && (s.closer == NotClosing <==> !s.core.closed)
    && (s.closer in {AwaitHandlers, ClosingConn, ConnClosed} ==> s.core.wg == 0)
    && (s.closer in {ClosingConn, ConnClosed} ==> s.core.hwg == 0)
  }

  ghost predicate SubsOk(s: Sys) {
    && (forall sub | sub in s.core.subs :: sub in s.subs && s.subs[sub].Listed())
    && (forall sub | sub in s.active ::
         && sub in s.subs
         && (s.subs[sub] in {Fresh, Lost, Watching, Waking})
         && (s.subs[sub] in {Watching, Waking} ==> sub in s.core.subs))
    && (s.core.closed ==> s.core.subs == {})
  }

  ghost predicate Inv(settles: bool, s: Sys) {
    CountsOk(settles, s) && CloserOk(s) && SubsOk(s)
  }

  lemma WatchersAfter(subs: map<SubId, SubPc>, sub: SubId, pc: SubPc)
    ensures |Watchers(subs[sub := pc])| == |Watchers(subs)|
              - (if sub in subs && subs[sub].Watched() then 1 else 0) + (if pc.Watched() then 1 else 0)
  {
    var before := Watchers(subs);
    assert Watchers(subs[sub := pc]) == if pc.Watched() then before + {sub} else before - {sub};
    assert sub in before <==> sub in subs && subs[sub].Watched();
  }

  lemma BusyAfter(handlers: map<DeliveryId, HandlerPc>, d: DeliveryId, pc: HandlerPc)
    ensures |Busy(handlers[d := pc])| == |Busy(handlers)|
              - (if d in handlers && !handlers[d].Finished? then 1 else 0) + (if pc.Finished? then 0 else 1)
  {
    var before := Busy(handlers);
    assert Busy(handlers[d := pc]) == if pc.Finished? then before - {d} else before + {d};
    assert d in before <==> d in handlers && !handlers[d].Finished?;
  }

  predicate IsSubStep(e: Event) {
    e.Subscribe? || e.FlushFails? || e.RegisterSub? || e.StopLost? || e.Wake? || e.Stop? || e.Unlist? || e.Leave?
  }

  predicate IsHandlerStep(e: Event) {
    e.Deliver? || e.Return? || e.SettleDelivery? || e.Finish?
  }

  lemma SubStepCounts(settles: bool, s: Sys, e: Event)
    requires CountsOk(settles, s) && Enabled(settles, s, e) && IsSubStep(e)
    ensures CountsOk(settles, Step(settles, s, e))
  {
    WatchersAfter(s.subs, e.sub, Step(settles, s, e).subs[e.sub]);
  }

  lemma SubStepSubs(settles: bool, s: Sys, e: Event)
    requires SubsOk(s) && Enabled(settles, s, e) && IsSubStep(e)
    ensures SubsOk(Step(settles, s, e))
  {
  }

  lemma HandlerStepCounts(settles: bool, s: Sys, e: Event)
    requires CountsOk(settles, s) && Enabled(settles, s, e) && IsHandlerStep(e)
    ensures CountsOk(settles, Step(settles, s, e))
  {
    var t := Step(settles, s, e);
    if e.d in t.handlers {
      BusyAfter(s.handlers, e.d, t.handlers[e.d]);
    }
  }

  lemma StepKeepsInv(settles: bool, s: Sys, e: Event)
    requires Inv(settles, s) && Enabled(settles, s, e)
    ensures Inv(settles, Step(settles, s, e))
  {
    if IsSubStep(e) {
      SubStepCounts(settles, s, e);
      SubStepSubs(settles, s, e);
    } else if IsHandlerStep(e) {
      HandlerStepCounts(settles, s, e);
    }
  }

  lemma {:induction false} ReachableInv(settles: bool, es: seq<Event>, ss: seq<Sys>, i: nat)
    requires IsRun(settles, es, ss) && i <= |es|
    ensures Inv(settles, ss[i])
  {
    if i == 0 {
      assert Watchers(START.subs) == {} && Busy(START.handlers) == {};
    } else {
      ReachableInv(settles, es, ss, i - 1);
      assert Follows(settles, ss[i - 1], es[i - 1], ss[i]);
      StepKeepsInv(settles, ss[i - 1], es[i - 1]);
    }
  }

  // ---------------------------------------------------------------------------
  // Main results
  // ---------------------------------------------------------------------------

  /** Once the flag is set it stays set, no handler starts, and neither wait group
      grows, so a wait that has seen zero stays right. */
  lemma {:induction false} NothingStartsAfterClose(settles: bool, es: seq<Event>, ss: seq<Sys>, i: nat, j: nat)
    requires IsRun(settles, es, ss) && i <= j <= |es| && ss[i].core.closed
    ensures ss[j].core.closed
    ensures ss[j].handlers.Keys == ss[i].handlers.Keys
    ensures ss[j].core.wg <= ss[i].core.wg && ss[j].core.hwg <= ss[i].core.hwg
    ensures ss[i].closer == ConnClosed ==> ss[j].closer == ConnClosed
    decreases j
  {
    if i < j {
      NothingStartsAfterClose(settles, es, ss, i, j - 1);
      assert Follows(settles, ss[j - 1], es[j - 1], ss[j]);
    }
  }

  /** From the moment the connection is closed, and forever: every handler ever started
      has finished, and settled its message where the client settles; every watcher
      has left; and both wait groups are empty. */
  lemma {:induction false} ConnClosesLast(settles: bool, es: seq<Event>, ss: seq<Sys>, i: nat, j: nat)
    requires IsRun(settles, es, ss) && i <= j <= |es| && ss[i].closer == ConnClosed
    ensures
      var s := ss[j];
      && s.closer == ConnClosed && s.core.closed && s.core.wg == 0 && s.core.hwg == 0
      && (forall d | d in s.handlers :: s.handlers[d].Finished? && s.handlers[d].settled.Some? == settles)
      && (forall sub | sub in s.subs :: !s.subs[sub].Watched())
  {
    ReachableInv(settles, es, ss, i);
    NothingStartsAfterClose(settles, es, ss, i, j);
    ReachableInv(settles, es, ss, j);
    var s := ss[j];
    assert Busy(s.handlers) == {} && Watchers(s.subs) == {};
    forall d | d in s.handlers
      ensures s.handlers[d].Finished? && s.handlers[d].settled.Some? == settles
    {
      assert d !in Busy(s.handlers);
    }
    forall sub | sub in s.subs
      ensures !s.subs[sub].Watched()
    {
      assert sub !in Watchers(s.subs);
    }
  }

  /** A handler that is running or about to settle still has the connection. */
  lemma {:induction false} SettlesOnOpenConn(settles: bool, es: seq<Event>, ss: seq<Sys>, i: nat, d: DeliveryId)
    requires IsRun(settles, es, ss) && i <= |es|
    requires d in ss[i].handlers && !ss[i].handlers[d].Finished?
    ensures ss[i].closer !in {ClosingConn, ConnClosed} && ss[i].core.hwg > 0
  {
    ReachableInv(settles, es, ss, i);
    assert d in Busy(ss[i].handlers);
  }

  /** Seconds before the next delivery: 1, 5, 30, 60, and then 300; 1 for an unknown count. */
  function RetryDelay(delivered: Option<nat>): nat {
    if delivered.None? || delivered.value <= 1 then 1
    else match delivered.value
      case 2 => 5
      case 3 => 30
      case 4 => 60
      case _ => 300
  }

  /** The settlement that a handler's outcome calls for: a success is acked, an error that
      blames the message ends its redelivery, and any other asks for it again later. */
  ghost predicate CallsFor(err: Option<Error>, delivered: Option<nat>, how: Settlement) {
    if err.None? then how == Ack
    else
      var first := FirstOf(Chain(err.value), false);
      if first.FoundDomain? && first.cat == "invalid_argument" then how == Term
      else how == NakWithDelay(RetryDelay(delivered))
  }

  lemma SettleCallsFor(err: Option<Error>, delivered: Option<nat>)
    ensures CallsFor(err, delivered, Settle(err, delivered))
  {
    if err.Some? {
      SearchesFollowChain(err.value);
    }
  }

  /** The handler of the delivery returned with err, and later the delivery was settled
      as that calls for. */
  ghost predicate SettledAsReturned(es: seq<Event>, j: nat, k: nat, d: DeliveryId, how: Settlement)
    requires j < k < |es|
  {
    es[j].Return? && es[j].d == d && es[k].SettleDelivery? && es[k].d == d && CallsFor(es[j].err, es[k].delivered, how)
  }

  lemma {:induction false} ReturnedBefore(settles: bool, es: seq<Event>, ss: seq<Sys>, i: nat, d: DeliveryId) returns (j: nat)
    requires IsRun(settles, es, ss) && i <= |es| && d in ss[i].handlers && ss[i].handlers[d].Returned?
    ensures j < i && es[j] == Return(d, ss[i].handlers[d].err)
  {
    assert Follows(settles, ss[i - 1], es[i - 1], ss[i]);
    if d in ss[i - 1].handlers && ss[i - 1].handlers[d] == ss[i].handlers[d] {
      j := ReturnedBefore(settles, es, ss, i - 1, d);
    } else {
      j := i - 1;
    }
  }

  /** In every run, a delivery that has been settled was settled after its handler had
      returned, and as the handler's own outcome calls for. */
  lemma {:induction false} SettlementFollowsOutcome(settles: bool, es: seq<Event>, ss: seq<Sys>, i: nat, d: DeliveryId)
    returns (j: nat, k: nat)
    requires IsRun(settles, es, ss) && i <= |es| && d in ss[i].handlers
    requires ss[i].handlers[d].Settled? || (ss[i].handlers[d].Finished? && ss[i].handlers[d].settled.Some?)
    ensures
      var how := if ss[i].handlers[d].Settled? then ss[i].handlers[d].how else ss[i].handlers[d].settled.value;
      j < k < i && SettledAsReturned(es, j, k, d, how)
  {
    assert Follows(settles, ss[i - 1], es[i - 1], ss[i]);
    if d in ss[i - 1].handlers && (ss[i - 1].handlers[d].Settled? || ss[i - 1].handlers[d].Finished?) {
      j, k := SettlementFollowsOutcome(settles, es, ss, i - 1, d);
    } else {
      k := i - 1;
      j := ReturnedBefore(settles, es, ss, k, d);
      SettleCallsFor(es[j].err, es[k].delivered);
    }
  }

  /** Until Close nothing is turned away: a delivery starts its handler, and a subscription
      that is set up is listed and watched, exactly while the client is open. */
  lemma {:induction false} OpenClientServes(settles: bool, es: seq<Event>, ss: seq<Sys>, i: nat)
    requires IsRun(settles, es, ss) && i < |es|
    ensures es[i].Deliver? ==>
      (es[i].d in ss[i + 1].handlers <==> !ss[i].core.closed) &&
      (es[i].d in ss[i + 1].handlers ==> ss[i + 1].handlers[es[i].d] == Running)
    ensures es[i].RegisterSub? ==>
      && es[i].sub in ss[i + 1].subs
      && (ss[i + 1].subs[es[i].sub] == Watching <==> !ss[i].core.closed)
      && (es[i].sub in ss[i + 1].core.subs <==> !ss[i].core.closed)
    ensures es[i].Close? ==> ss[i + 1].core.closed
  {
    ReachableInv(settles, es, ss, i);
    assert Follows(settles, ss[i], es[i], ss[i + 1]);
  }

  /** No subscription is leaked: once the client is closed, the only ones still
      delivering are those whose Subscribe call has yet to see it and stop them. */
  lemma {:induction false} NoSubscriptionLeaks(settles: bool, es: seq<Event>, ss: seq<Sys>, i: nat)
    requires IsRun(settles, es, ss) && i <= |es| && ss[i].core.closed
    ensures forall sub | sub in ss[i].active :: sub in ss[i].subs && ss[i].subs[sub] in {Fresh, Lost}
  {
    ReachableInv(settles, es, ss, i);
  }

  /** Steps the client takes by itself, given that handlers return. */
  predicate IsTeardownStep(e: Event) {
    e.Wake? || e.Stop? || e.Unlist? || e.Leave? || e.Return? || e.SettleDelivery? || e.Finish? ||
    e.WatchersDone? || e.HandlersDone? || e.CloseConn?
  }

  function SubSteps(pc: SubPc): nat {
    match pc
    case Watching => 4
    case Waking => 3
    case Unlisting => 2
    case Leaving => 1
    case _ => 0
  }

  function HandlerSteps(pc: HandlerPc): nat {
    match pc
    case Running => 3
    case Returned(_) => 2
    case Settled(_) => 1
    case Finished(_) => 0
  }

  function CloserSteps(pc: CloserPc): nat {
    match pc
    case NotClosing => 4
    case AwaitWatchers => 3
    case AwaitHandlers => 2
    case ClosingConn => 1
    case ConnClosed => 0
  }

  /** Those with at least n steps to go. */
  function Behind<T>(m: map<nat, T>, steps: T -> nat, n: nat): set<nat> {
    set k | k in m && steps(m[k]) >= n
  }

  /** The steps that all of them together have to go, each at most four. */
  function StepsLeft<T>(m: map<nat, T>, steps: T -> nat): nat {
    |Behind(m, steps, 1)| + |Behind(m, steps, 2)| + |Behind(m, steps, 3)| + |Behind(m, steps, 4)|
  }

  lemma BehindAfter<T>(m: map<nat, T>, steps: T -> nat, n: nat, k: nat, x: T)
    ensures |Behind(m[k := x], steps, n)| == |Behind(m, steps, n)|
              - (if k in m && steps(m[k]) >= n then 1 else 0) + (if steps(x) >= n then 1 else 0)
  {
    var before := Behind(m, steps, n);
    assert Behind(m[k := x], steps, n) == if steps(x) >= n then before + {k} else before - {k};
    assert k in before <==> k in m && steps(m[k]) >= n;
  }

  lemma StepsLeftAfter<T>(m: map<nat, T>, steps: T -> nat, k: nat, x: T)
    requires steps(x) <= 4 && (k in m ==> steps(m[k]) <= 4)
    ensures StepsLeft(m[k := x], steps) == StepsLeft(m, steps) - (if k in m then steps(m[k]) else 0) + steps(x)
  {
    BehindAfter(m, steps, 1, k, x);
    BehindAfter(m, steps, 2, k, x);
    BehindAfter(m, steps, 3, k, x);
    BehindAfter(m, steps, 4, k, x);
  }

  lemma BehindBounded<T>(m: map<nat, T>, steps: T -> nat)
    ensures StepsLeft(m, steps) <= 4 * |Behind(m, steps, 1)|
    ensures Behind(m, steps, 4) == {} ==> StepsLeft(m, steps) <= 3 * |Behind(m, steps, 1)|
  {
    SubsetCard(Behind(m, steps, 2), Behind(m, steps, 1));
    SubsetCard(Behind(m, steps, 3), Behind(m, steps, 1));
    SubsetCard(Behind(m, steps, 4), Behind(m, steps, 1));
  }

  /** How many teardown steps are left in a closed client. */
  function Remaining(s: Sys): nat {
    StepsLeft(s.subs, SubSteps) + StepsLeft(s.handlers, HandlerSteps) + CloserSteps(s.closer)
  }

  lemma SubStepNearsEnd(settles: bool, s: Sys, e: Event)
    requires Enabled(settles, s, e) && s.core.closed && IsSubStep(e)
    ensures
      var t := Step(settles, s, e);
      && t.handlers == s.handlers && t.closer == s.closer
      && StepsLeft(t.subs, SubSteps) + (if IsTeardownStep(e) then 1 else 0) <= StepsLeft(s.subs, SubSteps)
  {
    StepsLeftAfter(s.subs, SubSteps, e.sub, Step(settles, s, e).subs[e.sub]);
  }

  lemma HandlerStepNearsEnd(settles: bool, s: Sys, e: Event)
    requires Enabled(settles, s, e) && s.core.closed && IsHandlerStep(e)
    ensures
      var t := Step(settles, s, e);
      && t.subs == s.subs && t.closer == s.closer
      && StepsLeft(t.handlers, HandlerSteps) + (if IsTeardownStep(e) then 1 else 0) <= StepsLeft(s.handlers, HandlerSteps)
  {
    var t := Step(settles, s, e);
    if e.d in t.handlers {
      StepsLeftAfter(s.handlers, HandlerSteps, e.d, t.handlers[e.d]);
    }
  }

  /** Every teardown step of a closed client brings the end nearer, and no other step
      puts it off. */
  lemma StepNearsEnd(settles: bool, s: Sys, e: Event)
    requires Enabled(settles, s, e) && s.core.closed
    ensures Remaining(Step(settles, s, e)) + (if IsTeardownStep(e) then 1 else 0) <= Remaining(s)
  {
    if IsSubStep(e) {
      SubStepNearsEnd(settles, s, e);
    } else if IsHandlerStep(e) {
      HandlerStepNearsEnd(settles, s, e);
    }
  }

  lemma RemainingBounded(settles: bool, s: Sys)
    requires Inv(settles, s) && s.core.closed
    ensures Remaining(s) <= 4 * s.core.wg + 3 * s.core.hwg + 3
    ensures Remaining(s) == 0 <==> s.closer == ConnClosed
  {
    BehindBounded(s.subs, SubSteps);
    BehindBounded(s.handlers, HandlerSteps);
    assert Behind(s.subs, SubSteps, 1) == Watchers(s.subs);
    assert Behind(s.handlers, HandlerSteps, 1) == Busy(s.handlers);
    assert Behind(s.handlers, HandlerSteps, 4) == {};
  }

  /** Teardown steps among the events from i up to j. */
  ghost function TeardownSteps(es: seq<Event>, i: nat, j: nat): nat
    requires i <= j <= |es|
    decreases j
  {
    if i == j then 0 else TeardownSteps(es, i, j - 1) + if IsTeardownStep(es[j - 1]) then 1 else 0
  }

  lemma StepAdvances(settles: bool, es: seq<Event>, ss: seq<Sys>, k: nat)
    requires IsRun(settles, es, ss) && k < |es| && ss[k].core.closed
    ensures Remaining(ss[k + 1]) + (if IsTeardownStep(es[k]) then 1 else 0) <= Remaining(ss[k])
  {
    assert Follows(settles, ss[k], es[k], ss[k + 1]);
    StepNearsEnd(settles, ss[k], es[k]);
  }

  lemma {:induction false} StepsAddUp(es: seq<Event>, left: seq<nat>, i: nat, j: nat)
    requires i <= j <= |es| && |left| == |es| + 1
    requires forall k {:trigger es[k]} | i <= k < j :: left[k + 1] + (if IsTeardownStep(es[k]) then 1 else 0) <= left[k]
    ensures TeardownSteps(es, i, j) + left[j] <= left[i]
    decreases j
  {
    if i < j {
      StepsAddUp(es, left, i, j - 1);
    }
  }

  lemma AdvancesAfterClose(settles: bool, es: seq<Event>, ss: seq<Sys>, i: nat, k: nat)
    requires IsRun(settles, es, ss) && i <= k < |es| && ss[i].core.closed
    ensures Remaining(ss[k + 1]) + (if IsTeardownStep(es[k]) then 1 else 0) <= Remaining(ss[k])
  {
    NothingStartsAfterClose(settles, es, ss, i, k);
    StepAdvances(settles, es, ss, k);
  }

  ghost function AllRemaining(ss: seq<Sys>): (left: seq<nat>)
    ensures |left| == |ss| && forall k | 0 <= k < |ss| :: left[k] == Remaining(ss[k])
  {
    seq(|ss|, k requires 0 <= k < |ss| => Remaining(ss[k]))
  }

  lemma {:induction false} TeardownAdvances(settles: bool, es: seq<Event>, ss: seq<Sys>, i: nat, j: nat)
    requires IsRun(settles, es, ss) && i <= j <= |es| && ss[i].core.closed
    ensures TeardownSteps(es, i, j) + Remaining(ss[j]) <= Remaining(ss[i])
  {
    var left := AllRemaining(ss);
    forall k {:trigger es[k]} | i <= k < j
      ensures left[k + 1] + (if IsTeardownStep(es[k]) then 1 else 0) <= left[k]
    {
      AdvancesAfterClose(settles, es, ss, i, k);
    }
    StepsAddUp(es, left, i, j);
  }

  /** The teardown ends: after Close at most four steps per watcher, three per handler
      and three more are taken, whatever else happens in between, and when there are
      none left the connection is closed. */
  lemma {:induction false} TeardownBounded(settles: bool, es: seq<Event>, ss: seq<Sys>, i: nat, j: nat)
    requires IsRun(settles, es, ss) && i <= j <= |es| && ss[i].core.closed
    ensures TeardownSteps(es, i, j) + Remaining(ss[j]) <= 4 * ss[i].core.wg + 3 * ss[i].core.hwg + 3
    ensures Remaining(ss[j]) == 0 <==> ss[j].closer == ConnClosed
  {
    TeardownAdvances(settles, es, ss, i, j);
    ReachableInv(settles, es, ss, i);
    RemainingBounded(settles, ss[i]);
    NothingStartsAfterClose(settles, es, ss, i, j);
    ReachableInv(settles, es, ss, j);
    RemainingBounded(settles, ss[j]);
  }

  /** The teardown never deadlocks: until the connection is closed, some step of a
      watcher, a handler or the teardown itself is possible. */
  lemma {:induction false} TeardownNeverStuck(settles: bool, es: seq<Event>, ss: seq<Sys>, i: nat) returns (e: Event)
    requires IsRun(settles, es, ss) && i <= |es| && ss[i].core.closed && ss[i].closer != ConnClosed
    ensures IsTeardownStep(e) && Enabled(settles, ss[i], e)
  {
    ReachableInv(settles, es, ss, i);
    var s := ss[i];
    match s.closer {
      case ClosingConn => e := CloseConn;
      case AwaitWatchers =>
        if s.core.wg == 0 {
          e := WatchersDone;
        } else {
          var sub :| sub in Watchers(s.subs);
          e := match s.subs[sub]
            case Watching => Wake(sub)
            case Waking => Stop(sub)
            case Unlisting => Unlist(sub)
            case _ => Leave(sub);
        }
      case AwaitHandlers =>
        if s.core.hwg == 0 {
          e := HandlersDone;
        } else {
          var d :| d in Busy(s.handlers);
          e := match s.handlers[d]
            case Running => Return(d, None)
            case Returned(_) => if settles then SettleDelivery(d, None) else Finish(d)
            case _ => Finish(d);
        }
    }
  }
}

/** Whether a stream's subject covers a topic, token by token. */
module Subjects {

  const ANY_TOKEN := "*"
  const ANY_REST := ">"

  predicate Covers(pattern: seq<string>, topic: seq<string>) {
    if pattern == [] then topic == []
    else if pattern[0] == ANY_REST then topic != []
    else topic != [] && (pattern[0] == ANY_TOKEN || pattern[0] == topic[0]) && Covers(pattern[1..], topic[1..])
  }

  /** subjectMatches. */
  method SubjectMatches(pattern: seq<string>, topic: seq<string>) returns (ok: bool)
    ensures ok <==> Covers(pattern, topic)
  {
    var i := 0;
    while i < |pattern|
      invariant 0 <= i <= |pattern| && i <= |topic|
      invariant Covers(pattern, topic) == Covers(pattern[i..], topic[i..])
    {
      var p := pattern[i];
      if p == ANY_REST {
        return i < |topic|;
      }
      if i >= |topic| {
        return false;
      }
      if p != ANY_TOKEN && p != topic[i] {
        return false;
      }
      assert pattern[i..][1..] == pattern[i + 1..] && topic[i..][1..] == topic[i + 1..];
      i := i + 1;
    }
    return |pattern| == |topic|;
  }

  function FirstRest(pattern: seq<string>): (n: nat)
    ensures n <= |pattern| && (forall i | 0 <= i < n :: pattern[i] != ANY_REST)
    ensures n < |pattern| ==> pattern[n] == ANY_REST
  {
    if pattern == [] || pattern[0] == ANY_REST then 0 else 1 + FirstRest(pattern[1..])
  }

  /** What a subject stands for: its tokens up to the first ">", each "*" replaced by
      some token, then at least one more token if there was a ">". */
  ghost predicate Instance(pattern: seq<string>, topic: seq<string>) {
    var n := FirstRest(pattern);
    && (if n < |pattern| then n < |topic| else n == |topic|)
    && forall i | 0 <= i < n :: pattern[i] == ANY_TOKEN || pattern[i] == topic[i]
  }

  /** Matching token by token decides exactly the instances of the subject. */
  lemma {:induction false} CoversExactly(pattern: seq<string>, topic: seq<string>)
    ensures Covers(pattern, topic) <==> Instance(pattern, topic)
  {
    if pattern != [] && pattern[0] != ANY_REST && topic != [] {
      CoversExactly(pattern[1..], topic[1..]);
      var n := FirstRest(pattern);
      assert n == FirstRest(pattern[1..]) + 1;
      if Instance(pattern[1..], topic[1..]) && (pattern[0] == ANY_TOKEN || pattern[0] == topic[0]) {
        forall i | 0 <= i < n
          ensures pattern[i] == ANY_TOKEN || pattern[i] == topic[i]
        {
          assert i > 0 ==> pattern[1..][i - 1] == pattern[i] && topic[1..][i - 1] == topic[i];
        }
      }
      if Instance(pattern, topic) {
        forall i | 0 <= i < n - 1
          ensures pattern[1..][i] == ANY_TOKEN || pattern[1..][i] == topic[1..][i]
        {
          assert pattern[i + 1] == ANY_TOKEN || pattern[i + 1] == topic[i + 1];
        }
      }
    }
  }
}
