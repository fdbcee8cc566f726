/** The bounded connection pool of the Redis client as interleaved steps, one per
    lock section or channel operation, against a server that answers the commands
    of each connection in order. */
module RespPool {
  import opened Common
  import opened RespCodec

  type CallerId = nat
  type ConnId = nat

  /** bufio's default buffer. */
  const BUFFER: nat := 4096

  const DEFAULT_POOL_SIZE: int := 10

  function EffectiveSize(poolSize: int): (n: int)
    ensures n > 0 && (n != poolSize <==> poolSize <= 0)
    ensures n != poolSize ==> n == DEFAULT_POOL_SIZE
  {
    if poolSize <= 0 then DEFAULT_POOL_SIZE else poolSize
  }

  // ---------------------------------------------------------------------------
  // The shared fields and the sections that touch them
  // ---------------------------------------------------------------------------

  /** Tokens taken from the semaphore, parked connections, and the closed flag. */
  datatype Shared = Shared(tokens: nat, idle: seq<ConnId>, closed: bool)

  datatype Checkout = Refused | Reuse(cn: ConnId) | Dial

  function CheckoutStep(p: Shared): (Shared, Checkout) {
    if p.closed then (p, Refused)
    else if p.idle != [] then (p.(idle := p.idle[..|p.idle| - 1]), Reuse(p.idle[|p.idle| - 1]))
    else (p, Dial)
  }

  function ParkStep(p: Shared, cn: ConnId): (Shared, bool) {
    if p.closed then (p, false) else (p.(idle := p.idle + [cn]), true)
  }

  function ShutStep(p: Shared): (Shared, seq<ConnId>) {
    if p.closed then (p, []) else (p.(idle := [], closed := true), p.idle)
  }

  class Client {
    const cap: int
    var tokens: nat
    var idle: seq<ConnId>
    var closed: bool

    function Abs(): Shared
      reads this
    {
      Shared(tokens, idle, closed)
    }

    constructor (poolSize: int)
      ensures cap == EffectiveSize(poolSize) && Abs() == Shared(0, [], false)
    {
      cap := EffectiveSize(poolSize);
      tokens, idle, closed := 0, [], false;
    }

    /** Sending on the semaphore; it succeeds exactly when a slot is free. */
    method TakeToken() returns (ok: bool)
      modifies this`tokens
      ensures ok <==> old(tokens) < cap
      ensures tokens == old(tokens) + if ok then 1 else 0
    {
      ok := tokens < cap;
      if ok {
        tokens := tokens + 1;
      }
    }

    /** The lock section of getConn. */
    method CheckOut() returns (r: Checkout)
      modifies this`idle
      ensures (Abs(), r) == CheckoutStep(old(Abs()))
    {
      if closed {
        return Refused;
      }
      var n := |idle|;
      if n > 0 {
        var cn := idle[n - 1];
        idle := idle[..n - 1];
        return Reuse(cn);
      }
      return Dial;
    }

    /** The lock section of putConn. */
    method Park(cn: ConnId) returns (parked: bool)
      modifies this`idle
      ensures (Abs(), parked) == ParkStep(old(Abs()), cn)
    {
      if closed {
        return false;
      }
      idle := idle + [cn];
      return true;
    }

    /** The lock section of Close; the caller then closes the connections returned. */
    method Shut() returns (doomed: seq<ConnId>)
      modifies this`idle, this`closed
      ensures (Abs(), doomed) == ShutStep(old(Abs()))
    {
      if closed {
        return [];
      }
      closed := true;
      doomed := idle;
      idle := [];
    }
  }

  // ---------------------------------------------------------------------------
  // Callers, connections and runs
  // ---------------------------------------------------------------------------

  /** One command written to a connection: a setup command of a dial, or the
      command of a caller's first or second attempt. */
  datatype Ticket = Auth | Select | Command(caller: CallerId, attempt: nat)

  /** Commands written, the server's answers, replies read, and the bytes sent by
      the server that the client has not consumed. */
  datatype Conn = Conn(sent: seq<Ticket>, answers: seq<Frame>, got: nat, unread: Bytes, tainted: bool)

  const FRESH_CONN := Conn([], [], 0, [], false)

  datatype Result = Failed | Replied(v: Reply, cn: ConnId, index: nat)

  datatype Pc =
    | Waiting(attempt: nat)
    | Admitted(attempt: nat)
    | Dialing(attempt: nat, cn: ConnId, todo: seq<Ticket>, sent: bool)
    | Holding(attempt: nat, cn: ConnId, reused: bool, sent: bool)
    | Returning(attempt: nat, cn: ConnId, bad: bool, retry: bool, res: Result)
    | Discarding(attempt: nat, cn: ConnId, retry: bool, res: Result)
    | Releasing(attempt: nat, retry: bool, res: Result)
    | Finished(res: Result)
  {
    predicate HasToken() { !Waiting? && !Finished? }
    predicate HasConn() { Dialing? || Holding? || Returning? || Discarding? }
  }

  /** setup lists the commands a dial sends: Auth and Select, each when configured. */
  datatype Config = Config(cap: int, setup: seq<Ticket>)
  {
    predicate Usable() {
      0 < cap && forall i | 0 <= i < |setup| :: !setup[i].Command?
    }
  }

  /** In whose hands an open connection is: a caller's, the idle list's, or Close's. */
  datatype Owner = Caller(t: CallerId) | Parked | Doomed

  /** owner has exactly the connections that are open or being dialed; conns also
      remembers those that were closed. */
  datatype Sys = Sys(p: Shared, callers: map<CallerId, Pc>, conns: map<ConnId, Conn>,
                     owner: map<ConnId, Owner>, next: ConnId)

  const START := Sys(Shared(0, [], false), map[], map[], map[], 0)

  datatype Event =
    | Enter(t: CallerId)
    | GiveUp(t: CallerId)
    | TakeToken(t: CallerId)
    | CheckOut(t: CallerId)
    | Send(t: CallerId)
    | Answer(cn: ConnId, frame: Frame)
    | Receive(t: CallerId, arrived: nat, timeout: bool, taint: bool)
    | Break(t: CallerId, timeout: bool, taint: bool)
    | DialDone(t: CallerId)
    | Return(t: CallerId)
    | Discard(t: CallerId)
    | Release(t: CallerId, again: bool)
    | Shut
    | CloseOne(cn: ConnId)

  predicate InRoundtrip(pc: Pc) {
    (pc.Dialing? && pc.todo != []) || pc.Holding?
  }

  predicate Enabled(c: Config, s: Sys, e: Event) {
    match e
    case Enter(t) => t !in s.callers
    case GiveUp(t) => t in s.callers && s.callers[t].Waiting?
    case TakeToken(t) => t in s.callers && s.callers[t].Waiting? && s.p.tokens < c.cap
    case CheckOut(t) => t in s.callers && s.callers[t].Admitted?
    case Send(t) => t in s.callers && InRoundtrip(s.callers[t]) && !s.callers[t].sent && s.callers[t].cn in s.conns
    case Answer(cn, frame) => cn in s.conns && |s.conns[cn].answers| < |s.conns[cn].sent| && WellFormed(frame)
    case Receive(t, arrived, _, _) =>
      && t in s.callers && InRoundtrip(s.callers[t]) && s.callers[t].sent
      && s.callers[t].cn in s.conns && arrived <= |s.conns[s.callers[t].cn].unread|
    case Break(t, _, _) => t in s.callers && (s.callers[t].Dialing? || s.callers[t].Holding?) && s.callers[t].cn in s.conns
    case DialDone(t) => t in s.callers && s.callers[t].Dialing? && s.callers[t].todo == []
    case Return(t) => t in s.callers && s.callers[t].Returning? && s.callers[t].cn in s.conns
    case Discard(t) => t in s.callers && s.callers[t].Discarding?
    case Release(t, again) =>
      && t in s.callers && s.callers[t].Releasing? && s.p.tokens > 0
      && (again ==> s.callers[t].retry && s.callers[t].attempt == 1)
    case Shut => true
    case CloseOne(cn) => cn in s.owner && s.owner[cn] == Doomed
  }

  function Goto(s: Sys, t: CallerId, pc: Pc): Sys {
    s.(callers := s.callers[t := pc])
  }

  /** The connection is closed while the caller moves on to release its token. */
  function CloseAndGoto(s: Sys, cn: ConnId, t: CallerId, pc: Pc): Sys {
    s.(callers := s.callers[t := pc], owner := s.owner - {cn})
  }

  function Taint(c: Conn, taint: bool): Conn {
    if taint then c.(tainted := true) else c
  }

  /** A read of one reply that sees the first arrived bytes of what the server sent. */
  function ReadOf(c: Conn, arrived: nat): ReplyResult
    requires arrived <= |c.unread|
  {
    ReplyOf(c.unread[..arrived], BUFFER)
  }

  function BreakStep(s: Sys, t: CallerId, timeout: bool, taint: bool): Sys
    requires t in s.callers && (s.callers[t].Dialing? || s.callers[t].Holding?)
    requires s.callers[t].cn in s.conns
  {
    var pc := s.callers[t];
    var s1 := s.(conns := s.conns[pc.cn := Taint(s.conns[pc.cn], taint)]);
    if pc.Holding? then
      Goto(s1, t, Returning(pc.attempt, pc.cn, true, pc.reused && !timeout, Failed))
    else
      CloseAndGoto(s1, pc.cn, t, Releasing(pc.attempt, false, Failed))
  }

  function ReceiveStep(s: Sys, t: CallerId, arrived: nat, timeout: bool, taint: bool): Sys
    requires t in s.callers && InRoundtrip(s.callers[t]) && s.callers[t].cn in s.conns
    requires arrived <= |s.conns[s.callers[t].cn].unread|
  {
    var pc := s.callers[t];
    var conn := s.conns[pc.cn];
    var r := ReadOf(conn, arrived);
    if r.ReplyErr? then BreakStep(s, t, timeout, taint)
    else
      var read := Taint(conn.(got := conn.got + 1, unread := r.rest + conn.unread[arrived..]), taint);
      var s1 := s.(conns := s.conns[pc.cn := read]);
      if pc.Holding? then
        Goto(s1, t, Returning(pc.attempt, pc.cn, false, false, Replied(r.v, pc.cn, conn.got)))
      else if r.v.ErrorReply? then
        CloseAndGoto(s1, pc.cn, t, Releasing(pc.attempt, false, Failed))
      else
        Goto(s1, t, pc.(todo := pc.todo[1..], sent := false))
  }

  function Step(c: Config, s: Sys, e: Event): Sys
    requires Enabled(c, s, e)
  {
    match e
    case Enter(t) => Goto(s, t, Waiting(1))
    case GiveUp(t) => Goto(s, t, Finished(Failed))
    case TakeToken(t) =>
      Goto(s.(p := s.p.(tokens := s.p.tokens + 1)), t, Admitted(s.callers[t].attempt))
    case CheckOut(t) =>
      var n := s.callers[t].attempt;
      var (p, r) := CheckoutStep(s.p);
      var s1 := s.(p := p);
      (match r
       case Refused => Goto(s1, t, Releasing(n, false, Failed))
       case Reuse(cn) => Goto(s1.(owner := s.owner[cn := Caller(t)]), t, Holding(n, cn, true, false))
       case Dial =>
         Goto(s1.(conns := s.conns[s.next := FRESH_CONN], owner := s.owner[s.next := Caller(t)], next := s.next + 1),
              t, Dialing(n, s.next, c.setup, false)))
    case Send(t) =>
      var pc := s.callers[t];
      var conn := s.conns[pc.cn];
      var ticket := if pc.Dialing? then pc.todo[0] else Command(t, pc.attempt);
      Goto(s.(conns := s.conns[pc.cn := conn.(sent := conn.sent + [ticket])]), t, pc.(sent := true))
    case Answer(cn, frame) =>
      var conn := s.conns[cn];
      s.(conns := s.conns[cn := conn.(answers := conn.answers + [frame], unread := conn.unread + Encode(frame))])
    case Receive(t, arrived, timeout, taint) => ReceiveStep(s, t, arrived, timeout, taint)
    case Break(t, timeout, taint) => BreakStep(s, t, timeout, taint)
    case DialDone(t) =>
      Goto(s, t, Holding(s.callers[t].attempt, s.callers[t].cn, false, false))
    case Return(t) =>
      var pc := s.callers[t];
      var discard := Goto(s, t, Discarding(pc.attempt, pc.cn, pc.retry, pc.res));
      if pc.bad || s.conns[pc.cn].tainted then discard
      else
        var (p, parked) := ParkStep(s.p, pc.cn);
        if parked then Goto(s.(p := p, owner := s.owner[pc.cn := Parked]), t, Releasing(pc.attempt, pc.retry, pc.res))
        else discard
    case Discard(t) =>
      var pc := s.callers[t];
      CloseAndGoto(s, pc.cn, t, Releasing(pc.attempt, pc.retry, pc.res))
    case Release(t, again) =>
      var pc := s.callers[t];
      Goto(s.(p := s.p.(tokens := s.p.tokens - 1)), t, if again then Waiting(2) else Finished(pc.res))
    case Shut =>
      var (p, idle) := ShutStep(s.p);
      s.(p := p, owner := map cn | cn in s.owner :: if cn in idle then Doomed else s.owner[cn])
    case CloseOne(cn) =>
      s.(owner := s.owner - {cn})
  }

  ghost predicate Follows(c: Config, s: Sys, e: Event, t: Sys) {
    Enabled(c, s, e) && t == Step(c, s, e)
  }

  ghost predicate IsRun(c: Config, es: seq<Event>, ss: seq<Sys>) {
    && |ss| == |es| + 1
    && ss[0] == START
    && forall i {:trigger es[i]} | 0 <= i < |es| :: Follows(c, ss[i], es[i], ss[i + 1])
  }

  // ---------------------------------------------------------------------------
  // Ownership and bounds: what every step keeps
  // ---------------------------------------------------------------------------

  function Holders(callers: map<CallerId, Pc>): set<CallerId> {
    set t | t in callers && callers[t].HasToken()
  }

  function Users(callers: map<CallerId, Pc>): set<CallerId> {
    set t | t in callers && callers[t].HasConn()
  }

  /** A caller with a connection is its owner, and the other way around. */
  ghost predicate CallersOk(s: Sys) {
    && (forall t | t in s.callers && s.callers[t].HasConn() ::
         s.callers[t].cn in s.owner && s.owner[s.callers[t].cn] == Caller(t))
    && (forall cn | cn in s.owner && s.owner[cn].Caller? ::
         s.owner[cn].t in s.callers && s.callers[s.owner[cn].t].HasConn() && s.callers[s.owner[cn].t].cn == cn)
  }

  /** The idle list holds each parked connection once, and none after Close. */
  ghost predicate IdleOk(s: Sys) {
    && (forall i, j | 0 <= i < j < |s.p.idle| :: s.p.idle[i] != s.p.idle[j])
    && (forall cn :: cn in s.p.idle <==> cn in s.owner && s.owner[cn] == Parked)
    && (s.p.closed ==> s.p.idle == [])
    && (!s.p.closed ==> forall cn | cn in s.owner :: s.owner[cn] != Doomed)
  }

  ghost predicate ConnsOk(s: Sys) {
    && (forall cn | cn in s.owner :: cn in s.conns)
    && (forall cn | cn in s.conns :: cn < s.next)
    && (forall cn | cn in s.owner && s.owner[cn] == Parked :: !s.conns[cn].tainted)
  }

  ghost predicate BoundsOk(c: Config, s: Sys) {
    && s.p.tokens == |Holders(s.callers)| <= c.cap
    && |s.owner| <= c.cap
  }

  ghost predicate Inv(c: Config, s: Sys) {
    CallersOk(s) && IdleOk(s) && ConnsOk(s) && BoundsOk(c, s)
  }

  /** Connections that callers own are no more than the callers that own one. */
  lemma {:induction false} OwnedCard(owner: map<ConnId, Owner>, callers: map<CallerId, Pc>)
    requires forall cn | cn in owner ::
      owner[cn].Caller? && owner[cn].t in callers && callers[owner[cn].t].HasConn() && callers[owner[cn].t].cn == cn
    ensures |owner| <= |Users(callers)|
    decreases |owner|
  {
    if owner != map[] {
      var cn :| cn in owner;
      var t := owner[cn].t;
      var owner1, callers1 := owner - {cn}, callers - {t};
      assert owner1.Keys == owner.Keys - {cn};
      assert Users(callers1) == Users(callers) - {t};
      assert t in Users(callers);
      OwnedCard(owner1, callers1);
    }
  }

  lemma UsersBelowHolders(callers: map<CallerId, Pc>, t: CallerId)
    requires t in callers && callers[t].Admitted?
    ensures |Users(callers)| < |Holders(callers)|
  {
    var us := Users(callers);
    assert t !in us;
    assert us + {t} <= Holders(callers);
    SubsetCard(us + {t}, Holders(callers));
  }

  /** A caller that holds a token but no connection leaves room for one more. */
  lemma RoomToDial(s: Sys, t: CallerId)
    requires CallersOk(s) && IdleOk(s) && !s.p.closed && s.p.idle == []
    requires t in s.callers && s.callers[t].Admitted?
    ensures |s.owner| < |Holders(s.callers)|
  {
    assert forall cn | cn in s.owner :: cn !in s.p.idle;
    OwnedCard(s.owner, s.callers);
    UsersBelowHolders(s.callers, t);
  }

  lemma HoldersAfter(callers: map<CallerId, Pc>, t: CallerId, pc: Pc)
    ensures Holders(callers[t := pc]) ==
            if pc.HasToken() then Holders(callers) + {t} else Holders(callers) - {t}
  {
  }

  lemma HolderCount(callers: map<CallerId, Pc>, t: CallerId, pc: Pc)
    ensures |Holders(callers[t := pc])| == |Holders(callers)|
              - (if t in callers && callers[t].HasToken() then 1 else 0) + (if pc.HasToken() then 1 else 0)
  {
    HoldersAfter(callers, t, pc);
    assert t in Holders(callers) <==> t in callers && callers[t].HasToken();
  }

  lemma MoveKeepsTokens(callers: map<CallerId, Pc>, t: CallerId, pc: Pc)
    requires t in callers && pc.HasToken() == callers[t].HasToken()
    ensures Holders(callers[t := pc]) == Holders(callers)
  {
    HoldersAfter(callers, t, pc);
  }

  /** The caller keeps its token and its connection, and nothing else moves. */
  lemma MoveKeepsInv(c: Config, s: Sys, t: CallerId, pc: Pc)
    requires Inv(c, s) && t in s.callers
    requires pc.HasToken() == s.callers[t].HasToken()
    requires pc.HasConn() == s.callers[t].HasConn()
    requires pc.HasConn() ==> pc.cn == s.callers[t].cn
    ensures Inv(c, Goto(s, t, pc))
  {
    MoveKeepsTokens(s.callers, t, pc);
  }

  lemma DropCard(owner: map<ConnId, Owner>, cn: ConnId)
    ensures |owner - {cn}| <= |owner|
  {
    assert (owner - {cn}).Keys == owner.Keys - {cn};
    SubsetCard((owner - {cn}).Keys, owner.Keys);
  }

  /** The caller closes its connection and keeps its token. */
  lemma CloseKeepsInv(c: Config, s: Sys, t: CallerId, pc: Pc)
    requires Inv(c, s) && t in s.callers && s.callers[t].HasConn()
    requires pc.HasToken() && !pc.HasConn()
    ensures Inv(c, CloseAndGoto(s, s.callers[t].cn, t, pc))
  {
    MoveKeepsTokens(s.callers, t, pc);
    DropCard(s.owner, s.callers[t].cn);
  }

  /** The contents of a connection change, but a parked one is not tainted. */
  lemma ConnKeepsInv(c: Config, s: Sys, cn: ConnId, conn: Conn)
    requires Inv(c, s) && cn in s.conns
    requires cn in s.owner && s.owner[cn] == Parked ==> conn.tainted == s.conns[cn].tainted
    ensures Inv(c, s.(conns := s.conns[cn := conn]))
  {
  }

  /** A caller without a connection moves, and the token count follows. */
  lemma CountKeepsInv(c: Config, s: Sys, t: CallerId, pc: Pc, tokens: nat)
    requires Inv(c, s) && !pc.HasConn() && (t in s.callers ==> !s.callers[t].HasConn())
    requires tokens == |Holders(s.callers[t := pc])| <= c.cap
    ensures Inv(c, Goto(s.(p := s.p.(tokens := tokens)), t, pc))
  {
  }

  lemma TokenKeepsInv(c: Config, s: Sys, e: Event)
    requires Inv(c, s) && Enabled(c, s, e)
    requires e.Enter? || e.GiveUp? || e.TakeToken? || e.Release?
    ensures Inv(c, Step(c, s, e))
  {
    var s1 := Step(c, s, e);
    var pc := s1.callers[e.t];
    HolderCount(s.callers, e.t, pc);
    CountKeepsInv(c, s, e.t, pc, s1.p.tokens);
    assert s1 == Goto(s.(p := s.p.(tokens := s1.p.tokens)), e.t, pc);
  }

  lemma ReuseOwners(s: Sys, s1: Sys, t: CallerId, pc: Pc)
    requires CallersOk(s) && IdleOk(s) && t in s.callers && !s.callers[t].HasConn() && !s.p.closed && s.p.idle != []
    requires
      var last := s.p.idle[|s.p.idle| - 1];
      && pc.HasConn() && pc.cn == last
      && s1.p.idle == s.p.idle[..|s.p.idle| - 1] && s1.p.closed == s.p.closed
      && s1.owner == s.owner[last := Caller(t)] && s1.callers == s.callers[t := pc]
    ensures CallersOk(s1) && IdleOk(s1) && s1.owner.Keys == s.owner.Keys
  {
    var last := s.p.idle[|s.p.idle| - 1];
    assert last in s.p.idle;
    assert forall cn :: cn in s1.p.idle <==> cn in s.p.idle && cn != last;
  }

  lemma ReuseKeepsInv(c: Config, s: Sys, t: CallerId)
    requires Inv(c, s) && Enabled(c, s, CheckOut(t)) && !s.p.closed && s.p.idle != []
    ensures Inv(c, Step(c, s, CheckOut(t)))
  {
    var s1 := Step(c, s, CheckOut(t));
    MoveKeepsTokens(s.callers, t, s1.callers[t]);
    ReuseOwners(s, s1, t, s1.callers[t]);
  }

  lemma DialCallers(s: Sys, s1: Sys, t: CallerId, pc: Pc)
    requires CallersOk(s) && s.next !in s.owner && t in s.callers && !s.callers[t].HasConn()
    requires pc.HasConn() && pc.cn == s.next
    requires s1.owner == s.owner[s.next := Caller(t)] && s1.callers == s.callers[t := pc]
    ensures CallersOk(s1)
  {
  }

  lemma DialIdle(s: Sys, s1: Sys, t: CallerId)
    requires IdleOk(s) && s.next !in s.owner && s1.p == s.p && s1.owner == s.owner[s.next := Caller(t)]
    ensures IdleOk(s1)
  {
  }

  lemma DialOwners(s: Sys, s1: Sys, t: CallerId, pc: Pc)
    requires CallersOk(s) && IdleOk(s) && ConnsOk(s) && t in s.callers && !s.callers[t].HasConn()
    requires pc.HasConn() && pc.cn == s.next && s1.p == s.p
    requires s1.owner == s.owner[s.next := Caller(t)] && s1.callers == s.callers[t := pc]
    ensures CallersOk(s1) && IdleOk(s1) && |s1.owner| == |s.owner| + 1
  {
    assert s.next !in s.owner;
    DialCallers(s, s1, t, pc);
    DialIdle(s, s1, t);
    assert s1.owner.Keys == s.owner.Keys + {s.next};
  }

  lemma DialKeepsInv(c: Config, s: Sys, t: CallerId)
    requires Inv(c, s) && Enabled(c, s, CheckOut(t)) && !s.p.closed && s.p.idle == []
    ensures Inv(c, Step(c, s, CheckOut(t)))
  {
    var s1 := Step(c, s, CheckOut(t));
    MoveKeepsTokens(s.callers, t, s1.callers[t]);
    RoomToDial(s, t);
    DialOwners(s, s1, t, s1.callers[t]);
  }

  lemma CheckOutKeepsInv(c: Config, s: Sys, t: CallerId)
    requires Inv(c, s) && Enabled(c, s, CheckOut(t))
    ensures Inv(c, Step(c, s, CheckOut(t)))
  {
    if s.p.closed {
      MoveKeepsInv(c, s, t, Step(c, s, CheckOut(t)).callers[t]);
    } else if s.p.idle != [] {
      ReuseKeepsInv(c, s, t);
    } else {
      DialKeepsInv(c, s, t);
    }
  }

  lemma ParkOwners(s: Sys, s1: Sys, t: CallerId, pc: Pc)
    requires CallersOk(s) && IdleOk(s) && t in s.callers && s.callers[t].HasConn() && !s.p.closed
    requires
      var cn := s.callers[t].cn;
      && !pc.HasConn() && s1.p.idle == s.p.idle + [cn] && !s1.p.closed
      && s1.owner == s.owner[cn := Parked] && s1.callers == s.callers[t := pc]
    ensures CallersOk(s1) && IdleOk(s1) && s1.owner.Keys == s.owner.Keys
  {
    var cn := s.callers[t].cn;
    assert cn !in s.p.idle;
    assert forall k :: k in s1.p.idle <==> k in s.p.idle || k == cn;
  }

  lemma ReturnKeepsInv(c: Config, s: Sys, t: CallerId)
    requires Inv(c, s) && Enabled(c, s, Return(t))
    ensures Inv(c, Step(c, s, Return(t)))
  {
    var s1 := Step(c, s, Return(t));
    if s1.callers[t].Releasing? {
      MoveKeepsTokens(s.callers, t, s1.callers[t]);
      ParkOwners(s, s1, t, s1.callers[t]);
    } else {
      MoveKeepsInv(c, s, t, s1.callers[t]);
    }
  }

  lemma ShutKeepsInv(c: Config, s: Sys, e: Event)
    requires Inv(c, s) && Enabled(c, s, e) && (e.Shut? || e.CloseOne?)
    ensures Inv(c, Step(c, s, e))
  {
    var s1 := Step(c, s, e);
    if e.Shut? {
      assert s1.owner.Keys == s.owner.Keys;
    } else {
      DropCard(s.owner, e.cn);
    }
  }

  /** A caller changes its connection and moves on with it. */
  lemma TurnKeepsInv(c: Config, s: Sys, t: CallerId, conn: Conn, pc: Pc)
    requires Inv(c, s) && t in s.callers && s.callers[t].HasConn()
    requires pc.HasConn() && pc.cn == s.callers[t].cn
    ensures Inv(c, Goto(s.(conns := s.conns[pc.cn := conn]), t, pc))
  {
    ConnKeepsInv(c, s, pc.cn, conn);
    MoveKeepsInv(c, s.(conns := s.conns[pc.cn := conn]), t, pc);
  }

  lemma CloseTurnKeepsInv(c: Config, s: Sys, t: CallerId, conn: Conn, pc: Pc)
    requires Inv(c, s) && t in s.callers && s.callers[t].HasConn() && pc.HasToken() && !pc.HasConn()
    ensures Inv(c, CloseAndGoto(s.(conns := s.conns[s.callers[t].cn := conn]), s.callers[t].cn, t, pc))
  {
    var cn := s.callers[t].cn;
    ConnKeepsInv(c, s, cn, conn);
    CloseKeepsInv(c, s.(conns := s.conns[cn := conn]), t, pc);
  }

  lemma SendKeepsInv(c: Config, s: Sys, t: CallerId)
    requires Inv(c, s) && Enabled(c, s, Send(t))
    ensures Inv(c, Step(c, s, Send(t)))
  {
    var s1, cn := Step(c, s, Send(t)), s.callers[t].cn;
    TurnKeepsInv(c, s, t, s1.conns[cn], s1.callers[t]);
  }

  lemma BreakKeepsInv(c: Config, s: Sys, t: CallerId, timeout: bool, taint: bool)
    requires Inv(c, s) && Enabled(c, s, Break(t, timeout, taint))
    ensures Inv(c, BreakStep(s, t, timeout, taint))
  {
    var s1, cn := BreakStep(s, t, timeout, taint), s.callers[t].cn;
    if s.callers[t].Holding? {
      TurnKeepsInv(c, s, t, s1.conns[cn], s1.callers[t]);
    } else {
      CloseTurnKeepsInv(c, s, t, s1.conns[cn], s1.callers[t]);
    }
  }

  lemma ReceiveKeepsInv(c: Config, s: Sys, e: Event)
    requires Inv(c, s) && Enabled(c, s, e) && e.Receive?
    ensures Inv(c, Step(c, s, e))
  {
    var s1, pc := Step(c, s, e), s.callers[e.t];
    if ReadOf(s.conns[pc.cn], e.arrived).ReplyErr? {
      BreakKeepsInv(c, s, e.t, e.timeout, e.taint);
    } else if s1.callers[e.t].HasConn() {
      TurnKeepsInv(c, s, e.t, s1.conns[pc.cn], s1.callers[e.t]);
    } else {
      CloseTurnKeepsInv(c, s, e.t, s1.conns[pc.cn], s1.callers[e.t]);
    }
  }

  lemma StepKeepsInv(c: Config, s: Sys, e: Event)
    requires c.Usable() && Inv(c, s) && Enabled(c, s, e)
    ensures Inv(c, Step(c, s, e))
  {
    match e {
      case Enter(_) => TokenKeepsInv(c, s, e);
      case GiveUp(_) => TokenKeepsInv(c, s, e);
      case TakeToken(_) => TokenKeepsInv(c, s, e);
      case Release(_, _) => TokenKeepsInv(c, s, e);
      case CheckOut(t) => CheckOutKeepsInv(c, s, t);
      case Send(t) => SendKeepsInv(c, s, t);
      case Receive(_, _, _, _) => ReceiveKeepsInv(c, s, e);
      case Break(t, timeout, taint) => BreakKeepsInv(c, s, t, timeout, taint);
      case Answer(cn, _) => ConnKeepsInv(c, s, cn, Step(c, s, e).conns[cn]);
      case DialDone(t) => MoveKeepsInv(c, s, t, Step(c, s, e).callers[t]);
      case Return(t) => ReturnKeepsInv(c, s, t);
      case Discard(t) => CloseKeepsInv(c, s, t, Step(c, s, e).callers[t]);
      case Shut => ShutKeepsInv(c, s, e);
      case CloseOne(_) => ShutKeepsInv(c, s, e);
    }
  }

  lemma {:induction false} ReachableInv(c: Config, es: seq<Event>, ss: seq<Sys>, i: nat)
    requires c.Usable() && IsRun(c, es, ss) && i <= |es|
    ensures Inv(c, ss[i])
  {
    if i == 0 {
      assert Holders(START.callers) == {};
    } else {
      ReachableInv(c, es, ss, i - 1);
      assert Follows(c, ss[i - 1], es[i - 1], ss[i]);
      StepKeepsInv(c, ss[i - 1], es[i - 1]);
    }
  }

  /** In every run: open and dialing connections and taken tokens stay within the
      pool size, no connection is in two hands, no tainted connection is parked,
      nothing is parked after Close, and a release never waits for a token. */
  lemma {:induction false} PoolBounded(c: Config, es: seq<Event>, ss: seq<Sys>, i: nat)
    requires c.Usable() && IsRun(c, es, ss) && i <= |es|
    ensures
      var s := ss[i];
      && |s.owner| <= c.cap && s.p.tokens == |Holders(s.callers)| <= c.cap
      && (forall t | t in s.callers && s.callers[t].HasConn() ::
           s.callers[t].cn in s.owner && s.callers[t].cn !in s.p.idle)
      && (forall t, u | t in s.callers && u in s.callers && s.callers[t].HasConn() && s.callers[u].HasConn() ::
           s.callers[t].cn == s.callers[u].cn ==> t == u)
      && (forall j, k | 0 <= j < k < |s.p.idle| :: s.p.idle[j] != s.p.idle[k])
      && (forall k | 0 <= k < |s.p.idle| :: s.p.idle[k] in s.conns && !s.conns[s.p.idle[k]].tainted)
      && (s.p.closed ==> s.p.idle == [])
      && (forall t | t in s.callers && s.callers[t].Releasing? :: s.p.tokens > 0)
  {
    ReachableInv(c, es, ss, i);
    var s := ss[i];
    forall k | 0 <= k < |s.p.idle|
      ensures s.p.idle[k] in s.conns && !s.conns[s.p.idle[k]].tainted
    {
      assert s.p.idle[k] in s.p.idle;
    }
    forall t | t in s.callers && s.callers[t].Releasing?
      ensures s.p.tokens > 0
    {
      assert t in Holders(s.callers);
    }
  }

  /** Tokens a caller has taken in the first i events. */
  ghost function Taken(es: seq<Event>, t: CallerId, i: nat): nat
    requires i <= |es|
  {
    if i == 0 then 0 else Taken(es, t, i - 1) + if es[i - 1] == TakeToken(t) then 1 else 0
  }

  ghost function Released(es: seq<Event>, t: CallerId, i: nat): nat
    requires i <= |es|
  {
    if i == 0 then 0 else
    Released(es, t, i - 1) + if es[i - 1].Release? && es[i - 1].t == t then 1 else 0
  }

  function TokensOf(s: Sys, t: CallerId): int {
    if t in s.callers && s.callers[t].HasToken() then 1 else 0
  }

  lemma TokensMove(c: Config, s: Sys, e: Event, t: CallerId)
    requires Enabled(c, s, e)
    ensures TokensOf(Step(c, s, e), t) - TokensOf(s, t) ==
            (if e == TakeToken(t) then 1 else 0) - (if e.Release? && e.t == t then 1 else 0)
  {
    if e.Receive? && ReadOf(s.conns[s.callers[e.t].cn], e.arrived).ReplyErr? {
      assert Step(c, s, e) == BreakStep(s, e.t, e.timeout, e.taint);
    }
  }

  lemma TokensMoveAt(c: Config, es: seq<Event>, ss: seq<Sys>, t: CallerId, k: nat)
    requires IsRun(c, es, ss) && k < |es|
    ensures TokensOf(ss[k + 1], t) - TokensOf(ss[k], t) ==
            (if es[k] == TakeToken(t) then 1 else 0) - (if es[k].Release? && es[k].t == t then 1 else 0)
  {
    assert Follows(c, ss[k], es[k], ss[k + 1]);
    TokensMove(c, ss[k], es[k], t);
  }

  /** Every token taken is released exactly once, on every path through Do: a caller
      owes one release while it holds a token and none before or after. */
  lemma {:induction false} TokensReleasedOnce(c: Config, es: seq<Event>, ss: seq<Sys>, t: CallerId, i: nat)
    requires IsRun(c, es, ss) && i <= |es|
    ensures Taken(es, t, i) - Released(es, t, i) == TokensOf(ss[i], t)
  {
    if i > 0 {
      TokensReleasedOnce(c, es, ss, t, i - 1);
      TokensMoveAt(c, es, ss, t, i - 1);
    }
  }

  // ---------------------------------------------------------------------------
  // Replies answer the caller's own command
  // ---------------------------------------------------------------------------

  /** Nothing, or the line terminator that a read left which stopped just before it. */
  ghost predicate AtMostTerminator(b: Bytes) {
    b == [] || b == CRLF
  }

  /** As many replies read as commands sent, and no reply left over. */
  ghost predicate Quiet(c: Conn) {
    |c.sent| == |c.answers| == c.got && AtMostTerminator(c.unread)
  }

  /** The next bytes of the connection are those of the answer to be read, and no others. */
  ghost predicate AnswerNext(c: Conn) {
    |c.answers| == c.got + 1 && c.unread == Encode(c.answers[c.got])
  }

  /** One command outstanding, its answer not yet sent or not yet read. */
  ghost predicate Pending(c: Conn, ticket: Ticket) {
    && |c.sent| == c.got + 1 && c.sent[c.got] == ticket
    && (if |c.answers| == c.got then AtMostTerminator(c.unread)
        else |c.answers| == c.got + 1 && (AnswerNext(c) || c.unread == CRLF + Encode(c.answers[c.got])))
  }

  ghost predicate ConnWf(c: Conn) {
    |c.answers| <= |c.sent| && forall i | 0 <= i < |c.answers| :: WellFormed(c.answers[i])
  }

  /** The command whose reply a caller in a round trip is about to read. */
  function Outstanding(t: CallerId, pc: Pc): Ticket
    requires InRoundtrip(pc)
  {
    if pc.Dialing? then pc.todo[0] else Command(t, pc.attempt)
  }

  /** The reply is the server's answer to a command of this caller. */
  ghost predicate Answers(conns: map<ConnId, Conn>, t: CallerId, res: Result) {
    res.Replied? ==>
      && res.cn in conns && res.index < |conns[res.cn].answers| <= |conns[res.cn].sent|
      && conns[res.cn].sent[res.index].Command? && conns[res.cn].sent[res.index].caller == t
      && res.v == Meaning(conns[res.cn].answers[res.index])
  }

  ghost predicate PcSync(conns: map<ConnId, Conn>, t: CallerId, pc: Pc) {
    match pc
    case Waiting(_) => true
    case Admitted(_) => true
    case Dialing(_, cn, todo, sent) =>
      cn in conns && if sent then todo != [] && Pending(conns[cn], todo[0]) else Quiet(conns[cn])
    case Holding(n, cn, _, sent) =>
      cn in conns && if sent then Pending(conns[cn], Command(t, n)) else Quiet(conns[cn])
    case Returning(_, cn, bad, _, res) => cn in conns && (!bad ==> Quiet(conns[cn])) && Answers(conns, t, res)
    case Discarding(_, _, _, res) => Answers(conns, t, res)
    case Releasing(_, _, res) => Answers(conns, t, res)
    case Finished(res) => Answers(conns, t, res)
  }

  ghost predicate Synced(s: Sys) {
    && (forall cn | cn in s.conns :: ConnWf(s.conns[cn]))
    && (forall cn | cn in s.owner && s.owner[cn] == Parked :: cn in s.conns && Quiet(s.conns[cn]))
    && (forall t | t in s.callers :: PcSync(s.conns, t, s.callers[t]))
  }

  /** The reads after which nothing goes wrong: the whole answer has arrived; or it is
      cut where the line reader reports an error; or it is cut just before its
      terminator. */
  ghost predicate HarmlessRead(c: Conn, arrived: nat) {
    AnswerNext(c) && arrived < |c.unread| && CutAccepted(c.answers[c.got], arrived, BUFFER) ==>
      arrived == |Head(c.answers[c.got])|
  }

  predicate IsRead(s: Sys, e: Event) {
    e.Receive? && e.t in s.callers && InRoundtrip(s.callers[e.t]) && s.callers[e.t].cn in s.conns
    && e.arrived <= |s.conns[s.callers[e.t].cn].unread|
  }

  ghost predicate Harmless(s: Sys, e: Event) {
    IsRead(s, e) ==> HarmlessRead(s.conns[s.callers[e.t].cn], e.arrived)
  }

  ghost predicate HarmlessBefore(es: seq<Event>, ss: seq<Sys>, i: nat) {
    i <= |es| && |ss| == |es| + 1 && forall k {:trigger es[k]} | 0 <= k < i :: Harmless(ss[k], es[k])
  }

  ghost predicate Grows(a: Conn, b: Conn) {
    a.sent <= b.sent && a.answers <= b.answers
  }

  lemma AnswersStay(conns: map<ConnId, Conn>, cn: ConnId, conn: Conn, t: CallerId, res: Result)
    requires Answers(conns, t, res) && ConnWf(conn) && (cn in conns ==> Grows(conns[cn], conn))
    ensures Answers(conns[cn := conn], t, res)
  {
  }

  /** Callers that do not hold the connection do not notice that it changes. */
  lemma OtherSync(conns: map<ConnId, Conn>, cn: ConnId, conn: Conn, t: CallerId, pc: Pc)
    requires PcSync(conns, t, pc) && ConnWf(conn) && (cn in conns ==> Grows(conns[cn], conn))
    requires pc.HasConn() && !pc.Discarding? ==> pc.cn != cn
    ensures PcSync(conns[cn := conn], t, pc)
  {
    if pc.Returning? || pc.Discarding? || pc.Releasing? || pc.Finished? {
      AnswersStay(conns, cn, conn, t, pc.res);
    }
  }

  /** One connection changes and its owner moves on. */
  lemma TurnSynced(c: Config, s: Sys, s1: Sys, t: CallerId, cn: ConnId)
    requires Inv(c, s) && Synced(s) && t in s.callers && s.callers[t].HasConn() && s.callers[t].cn == cn
    requires cn in s1.conns && s1.conns == s.conns[cn := s1.conns[cn]]
    requires t in s1.callers && s1.callers == s.callers[t := s1.callers[t]]
    requires ConnWf(s1.conns[cn]) && Grows(s.conns[cn], s1.conns[cn])
    requires PcSync(s1.conns, t, s1.callers[t])
    requires s1.owner == s.owner || s1.owner == s.owner - {cn} ||
             (s1.owner == s.owner[cn := Parked] && Quiet(s1.conns[cn]))
    ensures Synced(s1)
  {
    forall u | u in s1.callers
      ensures PcSync(s1.conns, u, s1.callers[u])
    {
      if u != t {
        OtherSync(s.conns, cn, s1.conns[cn], u, s.callers[u]);
      }
    }
  }

  /** A caller moves on, carrying a result that still holds. */
  lemma FreeMoveSynced(s: Sys, s1: Sys, t: CallerId, pc: Pc)
    requires Synced(s) && s1.conns == s.conns && s1.owner == s.owner
    requires s1.callers == s.callers[t := pc] && PcSync(s.conns, t, pc)
    ensures Synced(s1)
  {
  }

  lemma ReadAnswer(conn: Conn, arrived: nat)
    requires AnswerNext(conn) && ConnWf(conn) && arrived <= |conn.unread| && HarmlessRead(conn, arrived)
    ensures
      var r := ReadOf(conn, arrived);
      r.ReplyOk? ==> r.v == Meaning(conn.answers[conn.got]) && AtMostTerminator(r.rest + conn.unread[arrived..])
  {
    var f := conn.answers[conn.got];
    if arrived == |conn.unread| {
      assert conn.unread[..arrived] == Encode(f) + [];
      ReplyReadsBack(f, [], BUFFER);
    } else {
      CutReplyExact(f, arrived, BUFFER);
      if CutAccepted(f, arrived, BUFFER) {
        assert Encode(f)[arrived..] == CRLF;
      }
    }
  }

  /** Reading the pending reply of a connection: its meaning, or an error. */
  lemma ReadPending(conn: Conn, ticket: Ticket, arrived: nat)
    requires Pending(conn, ticket) && ConnWf(conn) && arrived <= |conn.unread| && HarmlessRead(conn, arrived)
    ensures
      var r := ReadOf(conn, arrived);
      r.ReplyOk? ==>
        && |conn.answers| == conn.got + 1 && r.v == Meaning(conn.answers[conn.got])
        && AtMostTerminator(r.rest + conn.unread[arrived..])
  {
    if AnswerNext(conn) {
      ReadAnswer(conn, arrived);
    } else if conn.unread != [] {
      assert conn.unread == CRLF + conn.unread[2..];
      StrayTerminatorFails(conn.unread[2..], arrived, BUFFER);
    }
  }

  lemma BreakSynced(c: Config, s: Sys, t: CallerId, timeout: bool, taint: bool)
    requires Inv(c, s) && Synced(s) && Enabled(c, s, Break(t, timeout, taint))
    ensures Synced(BreakStep(s, t, timeout, taint))
  {
    TurnSynced(c, s, BreakStep(s, t, timeout, taint), t, s.callers[t].cn);
  }

  /** The connection after a reply has been read from it. */
  function AfterRead(conn: Conn, arrived: nat, taint: bool): Conn
    requires arrived <= |conn.unread| && ReadOf(conn, arrived).ReplyOk?
  {
    Taint(conn.(got := conn.got + 1, unread := ReadOf(conn, arrived).rest + conn.unread[arrived..]), taint)
  }

  lemma ReadMakesQuiet(conn: Conn, ticket: Ticket, arrived: nat, taint: bool)
    requires Pending(conn, ticket) && ConnWf(conn) && arrived <= |conn.unread| && HarmlessRead(conn, arrived)
    requires ReadOf(conn, arrived).ReplyOk?
    ensures
      var read := AfterRead(conn, arrived, taint);
      && Quiet(read) && ConnWf(read) && Grows(conn, read) && conn.got < |conn.answers|
      && ReadOf(conn, arrived).v == Meaning(conn.answers[conn.got])
  {
    ReadPending(conn, ticket, arrived);
  }

  /** The event is a read that reports a reply. */
  predicate ReadsReply(s: Sys, e: Event) {
    IsRead(s, e) && ReadOf(s.conns[s.callers[e.t].cn], e.arrived).ReplyOk?
  }

  /** A caller that has read a reply moves on: with it, with its next setup command,
      or, if the server refused that command, without the connection. */
  ghost predicate MovesOn(s: Sys, s1: Sys, e: Event)
    requires ReadsReply(s, e)
  {
    var t, cn := e.t, s.callers[e.t].cn;
    var conn := s.conns[cn];
    && s1.conns == s.conns[cn := AfterRead(conn, e.arrived, e.taint)]
    && t in s1.callers && s1.callers == s.callers[t := s1.callers[t]]
    && match s1.callers[t]
       case Dialing(_, k, todo, sent) =>
         && s.callers[t].Dialing? && k == cn && todo == s.callers[t].todo[1..] && !sent && s1.owner == s.owner
         && !ReadOf(conn, e.arrived).v.ErrorReply?
       case Returning(_, k, _, _, res) =>
         s.callers[t].Holding? && k == cn && res == Replied(ReadOf(conn, e.arrived).v, cn, conn.got) && s1.owner == s.owner
       case Releasing(_, _, res) => res == Failed && s1.owner == s.owner - {cn}
       case _ => false
  }

  lemma ReceiveMovesOn(c: Config, s: Sys, e: Event)
    requires Enabled(c, s, e) && ReadsReply(s, e)
    ensures MovesOn(s, Step(c, s, e), e)
  {
  }

  lemma ReceiveSynced(c: Config, s: Sys, e: Event)
    requires Inv(c, s) && Synced(s) && e.Receive? && Enabled(c, s, e) && Harmless(s, e)
    ensures Synced(Step(c, s, e))
  {
    if ReadsReply(s, e) {
      var cn := s.callers[e.t].cn;
      ReceiveMovesOn(c, s, e);
      ReadMakesQuiet(s.conns[cn], Outstanding(e.t, s.callers[e.t]), e.arrived, e.taint);
      TurnSynced(c, s, Step(c, s, e), e.t, cn);
    } else {
      BreakSynced(c, s, e.t, e.timeout, e.taint);
    }
  }

  lemma SendSynced(c: Config, s: Sys, e: Event)
    requires Inv(c, s) && Synced(s) && e.Send? && Enabled(c, s, e)
    ensures Synced(Step(c, s, e))
  {
    TurnSynced(c, s, Step(c, s, e), e.t, s.callers[e.t].cn);
  }

  /** A quiet connection is parked, and its caller keeps the reply. */
  lemma ParkSynced(s: Sys, s1: Sys, t: CallerId)
    requires Synced(s) && t in s.callers && s.callers[t].Returning? && !s.callers[t].bad
    requires s1.conns == s.conns && s1.owner == s.owner[s.callers[t].cn := Parked]
    requires s1.callers == s.callers[t := Releasing(s.callers[t].attempt, s.callers[t].retry, s.callers[t].res)]
    ensures Synced(s1)
  {
  }

  lemma ReturnSynced(c: Config, s: Sys, e: Event)
    requires Synced(s) && e.Return? && Enabled(c, s, e)
    ensures Synced(Step(c, s, e))
  {
    var s1 := Step(c, s, e);
    if s1.callers[e.t].Releasing? {
      ParkSynced(s, s1, e.t);
    } else {
      FreeMoveSynced(s, s1, e.t, s1.callers[e.t]);
    }
  }

  lemma DiscardSynced(c: Config, s: Sys, e: Event)
    requires Inv(c, s) && Synced(s) && e.Discard? && Enabled(c, s, e)
    ensures Synced(Step(c, s, e))
  {
    var cn := s.callers[e.t].cn;
    assert s.conns[cn := s.conns[cn]] == s.conns;
    TurnSynced(c, s, Step(c, s, e), e.t, cn);
  }

  lemma DialDoneSynced(c: Config, s: Sys, e: Event)
    requires Inv(c, s) && Synced(s) && e.DialDone? && Enabled(c, s, e)
    ensures Synced(Step(c, s, e))
  {
    var cn := s.callers[e.t].cn;
    assert s.conns[cn := s.conns[cn]] == s.conns;
    TurnSynced(c, s, Step(c, s, e), e.t, cn);
  }

  /** The server answers the pending command of the owner. */
  lemma AnswerPending(conn: Conn, ticket: Ticket, frame: Frame)
    requires Pending(conn, ticket) && |conn.answers| < |conn.sent|
    ensures Pending(conn.(answers := conn.answers + [frame], unread := conn.unread + Encode(frame)), ticket)
  {
    assert [] + Encode(frame) == Encode(frame);
  }

  lemma AnswerSyncs(s: Sys, e: Event, conn: Conn, u: CallerId, pc: Pc)
    requires PcSync(s.conns, u, pc) && e.Answer? && e.cn in s.conns && |s.conns[e.cn].answers| < |s.conns[e.cn].sent|
    requires conn == s.conns[e.cn].(answers := s.conns[e.cn].answers + [e.frame],
                                    unread := s.conns[e.cn].unread + Encode(e.frame))
    requires ConnWf(conn)
    ensures PcSync(s.conns[e.cn := conn], u, pc)
  {
    if !pc.HasConn() || pc.cn != e.cn || pc.Discarding? {
      OtherSync(s.conns, e.cn, conn, u, pc);
    } else if pc.Returning? {
      AnswersStay(s.conns, e.cn, conn, u, pc.res);
    } else if pc.sent {
      AnswerPending(s.conns[e.cn], if pc.Dialing? then pc.todo[0] else Command(u, pc.attempt), e.frame);
    }
  }

  /** The server answers the pending command of the owner, or one on a connection that
      nobody will use again. */
  lemma AnswerSynced(c: Config, s: Sys, e: Event)
    requires Inv(c, s) && Synced(s) && e.Answer? && Enabled(c, s, e)
    ensures Synced(Step(c, s, e))
  {
    var s1 := Step(c, s, e);
    forall u | u in s1.callers
      ensures PcSync(s1.conns, u, s1.callers[u])
    {
      AnswerSyncs(s, e, s1.conns[e.cn], u, s.callers[u]);
    }
  }

  lemma DialSynced(c: Config, s: Sys, e: Event)
    requires Inv(c, s) && Synced(s) && e.CheckOut? && Enabled(c, s, e) && !s.p.closed && s.p.idle == []
    ensures Synced(Step(c, s, e))
  {
    var s1 := Step(c, s, e);
    assert s1.conns == s.conns[s.next := FRESH_CONN];
    forall u | u in s1.callers
      ensures PcSync(s1.conns, u, s1.callers[u])
    {
      if u != e.t {
        OtherSync(s.conns, s.next, FRESH_CONN, u, s.callers[u]);
      }
    }
  }

  lemma CheckOutSynced(c: Config, s: Sys, e: Event)
    requires Inv(c, s) && Synced(s) && e.CheckOut? && Enabled(c, s, e)
    ensures Synced(Step(c, s, e))
  {
    var s1 := Step(c, s, e);
    if s.p.closed {
      FreeMoveSynced(s, s1, e.t, s1.callers[e.t]);
    } else if s.p.idle == [] {
      DialSynced(c, s, e);
    } else {
      assert s.p.idle[|s.p.idle| - 1] in s.p.idle;
      assert s1.conns == s.conns;
    }
  }

  lemma TokenSynced(c: Config, s: Sys, e: Event)
    requires Synced(s) && Enabled(c, s, e) && (e.Enter? || e.GiveUp? || e.TakeToken? || e.Release?)
    ensures Synced(Step(c, s, e))
  {
    var s1 := Step(c, s, e);
    FreeMoveSynced(s, s1, e.t, s1.callers[e.t]);
  }

  lemma ShutSynced(c: Config, s: Sys, e: Event)
    requires Inv(c, s) && Synced(s) && Enabled(c, s, e) && (e.Shut? || e.CloseOne?)
    ensures Synced(Step(c, s, e))
  {
    var s1 := Step(c, s, e);
    assert s1.callers == s.callers && s1.conns == s.conns;
    assert forall cn | cn in s1.owner && s1.owner[cn] == Parked :: cn in s.owner && s.owner[cn] == Parked;
  }

  lemma StepKeepsSynced(c: Config, s: Sys, e: Event)
    requires c.Usable() && Inv(c, s) && Synced(s) && Enabled(c, s, e) && Harmless(s, e)
    ensures Synced(Step(c, s, e))
  {
    match e {
      case CheckOut(_) => CheckOutSynced(c, s, e);
      case Send(_) => SendSynced(c, s, e);
      case Answer(_, _) => AnswerSynced(c, s, e);
      case Receive(_, _, _, _) => ReceiveSynced(c, s, e);
      case Break(t, timeout, taint) => BreakSynced(c, s, t, timeout, taint);
      case DialDone(_) => DialDoneSynced(c, s, e);
      case Return(_) => ReturnSynced(c, s, e);
      case Discard(_) => DiscardSynced(c, s, e);
      case Shut => ShutSynced(c, s, e);
      case CloseOne(_) => ShutSynced(c, s, e);
      case _ => TokenSynced(c, s, e);
    }
  }

  lemma {:induction false} ReachableSynced(c: Config, es: seq<Event>, ss: seq<Sys>, i: nat)
    requires c.Usable() && IsRun(c, es, ss) && HarmlessBefore(es, ss, i)
    ensures Synced(ss[i])
  {
    if i > 0 {
      ReachableSynced(c, es, ss, i - 1);
      ReachableInv(c, es, ss, i - 1);
      var e := es[i - 1];
      assert Follows(c, ss[i - 1], e, ss[i]) && Harmless(ss[i - 1], e);
      StepKeepsSynced(c, ss[i - 1], e);
    }
  }

  function ResultOf(pc: Pc): Result {
    if pc.Returning? || pc.Discarding? || pc.Releasing? || pc.Finished? then pc.res else Failed
  }

  /** Every reply that a caller holds or that Do has returned to it is the server's
      answer to that caller's own command. */
  ghost predicate RepliesRight(s: Sys) {
    forall t | t in s.callers :: Answers(s.conns, t, ResultOf(s.callers[t]))
  }

  /** At every point before which all reads were harmless: every reply held or returned
      is right, and a parked connection has read exactly as many replies as it has
      sent commands. */
  lemma {:induction false} RepliesMatchCommands(c: Config, es: seq<Event>, ss: seq<Sys>, i: nat)
    requires c.Usable() && IsRun(c, es, ss) && HarmlessBefore(es, ss, i)
    ensures RepliesRight(ss[i])
    ensures forall k | 0 <= k < |ss[i].p.idle| :: ss[i].p.idle[k] in ss[i].conns && Quiet(ss[i].conns[ss[i].p.idle[k]])
  {
    ReachableSynced(c, es, ss, i);
    ReachableInv(c, es, ss, i);
    var s := ss[i];
    forall k | 0 <= k < |s.p.idle|
      ensures s.p.idle[k] in s.conns && Quiet(s.conns[s.p.idle[k]])
    {
      assert s.p.idle[k] in s.p.idle;
    }
  }

  /** A read that reports a reply reports the server's answer to the command that this
      caller has just written: its own command, or the setup command of its dial. */
  ghost predicate ReadsOwnAnswer(s: Sys, e: Event) {
    IsRead(s, e) ==>
      var conn := s.conns[s.callers[e.t].cn];
      var r := ReadOf(conn, e.arrived);
      r.ReplyOk? ==>
        && conn.got < |conn.answers| <= |conn.sent| && conn.sent[conn.got] == Outstanding(e.t, s.callers[e.t])
        && r.v == Meaning(conn.answers[conn.got])
  }

  /** One read in any state that harmless reads lead to: it is right if and only if it is harmless. */
  lemma {:induction false} ReadMatchesExactly(c: Config, s: Sys, e: Event)
    requires Synced(s) && Enabled(c, s, e)
    ensures ReadsOwnAnswer(s, e) <==> Harmless(s, e)
  {
    if e.Receive? {
      var pc := s.callers[e.t];
      var conn := s.conns[pc.cn];
      if Harmless(s, e) {
        ReadPending(conn, Outstanding(e.t, pc), e.arrived);
      } else {
        CutReplyExact(conn.answers[conn.got], e.arrived, BUFFER);
      }
    }
  }

  lemma {:induction false} FirstHarm(es: seq<Event>, ss: seq<Sys>, k: nat) returns (j: nat)
    requires k < |es| && |ss| == |es| + 1 && !Harmless(ss[k], es[k])
    ensures j < |es| && HarmlessBefore(es, ss, j) && !Harmless(ss[j], es[j])
  {
    j := 0;
    while Harmless(ss[j], es[j])
      invariant j <= k && HarmlessBefore(es, ss, j)
      decreases k - j
    {
      j := j + 1;
    }
  }

  /** Over every run: all reads report the answer to the command just written if and
      only if all reads are harmless. */
  lemma {:induction false} ReadsMatchExactly(c: Config, es: seq<Event>, ss: seq<Sys>)
    requires c.Usable() && IsRun(c, es, ss)
    ensures (forall k {:trigger es[k]} | 0 <= k < |es| :: ReadsOwnAnswer(ss[k], es[k])) <==> HarmlessBefore(es, ss, |es|)
  {
    if HarmlessBefore(es, ss, |es|) {
      forall k {:trigger es[k]} | 0 <= k < |es|
        ensures ReadsOwnAnswer(ss[k], es[k])
      {
        ReachableSynced(c, es, ss, k);
        assert Follows(c, ss[k], es[k], ss[k + 1]);
        ReadMatchesExactly(c, ss[k], es[k]);
      }
    } else {
      var k :| 0 <= k < |es| && !Harmless(ss[k], es[k]);
      var j := FirstHarm(es, ss, k);
      ReachableSynced(c, es, ss, j);
      assert Follows(c, ss[j], es[j], ss[j + 1]);
      ReadMatchesExactly(c, ss[j], es[j]);
    }
  }

  predicate IsSetupRead(s: Sys, e: Event) {
    IsRead(s, e) && s.callers[e.t].Dialing?
  }

  /** The caller keeps a wrong reply. */
  lemma WrongReplyKept(c: Config, s: Sys, e: Event)
    requires Enabled(c, s, e) && ReadsReply(s, e) && s.callers[e.t].Holding?
    requires
      var conn := s.conns[s.callers[e.t].cn];
      conn.got < |conn.answers| && ReadOf(conn, e.arrived).v != Meaning(conn.answers[conn.got])
    ensures !RepliesRight(Step(c, s, e))
  {
    var s1 := Step(c, s, e);
    var pc := s.callers[e.t];
    var conn := s.conns[pc.cn];
    assert ResultOf(s1.callers[e.t]) == Replied(ReadOf(conn, e.arrived).v, pc.cn, conn.got);
    assert s1.conns[pc.cn].answers == conn.answers;
    assert !Answers(s1.conns, e.t, ResultOf(s1.callers[e.t]));
  }

  /** Over every run whose dials read their setup replies harmlessly: every reply that Do
      gives to any caller is the server's answer to that caller's own command if and
      only if the reads of all commands are harmless. */
  lemma {:induction false} RepliesMatchExactly(c: Config, es: seq<Event>, ss: seq<Sys>)
    requires c.Usable() && IsRun(c, es, ss)
    requires forall k {:trigger es[k]} | 0 <= k < |es| && IsSetupRead(ss[k], es[k]) :: Harmless(ss[k], es[k])
    ensures
      (forall i | 0 <= i <= |es| :: RepliesRight(ss[i])) <==>
      (forall k {:trigger es[k]} | 0 <= k < |es| && !IsSetupRead(ss[k], es[k]) :: Harmless(ss[k], es[k]))
  {
    if HarmlessBefore(es, ss, |es|) {
      forall i | 0 <= i <= |es|
        ensures RepliesRight(ss[i])
      {
        RepliesMatchCommands(c, es, ss, i);
      }
    } else {
      var k :| 0 <= k < |es| && !Harmless(ss[k], es[k]);
      var j := FirstHarm(es, ss, k);
      ReachableSynced(c, es, ss, j);
      assert Follows(c, ss[j], es[j], ss[j + 1]);
      ReadMatchesExactly(c, ss[j], es[j]);
      WrongReplyKept(c, ss[j], es[j]);
    }
  }

  // ---------------------------------------------------------------------------
  // A run in which a harmful read reaches another caller
  // ---------------------------------------------------------------------------

  const PAIR := Config(1, [])
  const LETTER_A: Byte := 97
  const LETTER_B: Byte := 98
  const FIVE: Byte := 53

  /** The server answers "a:5" to the first caller and "b" to the second. */
  const FIRST := SimpleFrame([LETTER_A, COLON, FIVE])
  const SECOND := SimpleFrame([LETTER_B])
  const TAIL: Bytes := [COLON, FIVE, CR, LF]

  lemma Extend(c: Config, es: seq<Event>, ss: seq<Sys>, e: Event) returns (es1: seq<Event>, ss1: seq<Sys>)
    requires IsRun(c, es, ss) && Enabled(c, ss[|es|], e)
    ensures IsRun(c, es1, ss1) && es1 == es + [e] && ss1 == ss + [Step(c, ss[|es|], e)]
  {
    es1, ss1 := es + [e], ss + [Step(c, ss[|es|], e)];
    forall i {:trigger es1[i]} | 0 <= i < |es1|
      ensures Follows(c, ss1[i], es1[i], ss1[i + 1])
    {
      if i < |es| {
        assert es1[i] == es[i];
      }
    }
  }

  /** One connection, one caller at work, and what the callers before it were given. */
  function Scene(tokens: nat, callers: map<CallerId, Pc>, conn: Conn, owner: Owner): Sys {
    Sys(Shared(tokens, if owner == Parked then [0] else [], false), callers, map[0 := conn], map[0 := owner], 1)
  }

  lemma FirstDials() returns (es: seq<Event>, ss: seq<Sys>)
    ensures IsRun(PAIR, es, ss)
    ensures ss[|es|] == Scene(1, map[0 := Holding(1, 0, false, false)], FRESH_CONN, Caller(0))
  {
    es, ss := [], [START];
    es, ss := Extend(PAIR, es, ss, Enter(0));
    es, ss := Extend(PAIR, es, ss, TakeToken(0));
    es, ss := Extend(PAIR, es, ss, CheckOut(0));
    es, ss := Extend(PAIR, es, ss, DialDone(0));
  }

  lemma FirstRead()
    ensures Encode(FIRST) == [PLUS, LETTER_A] + TAIL
    ensures ReplyOf([PLUS, LETTER_A], BUFFER) == ReplyOk(TextReply([LETTER_A]), [])
  {
    assert Encode(FIRST) == [PLUS, LETTER_A] + TAIL;
    assert FirstLf([PLUS, LETTER_A]) == 2;
  }

  lemma SecondRead()
    ensures ReplyOf(TAIL + Encode(SECOND), BUFFER) == ReplyOk(IntReply(5), Encode(SECOND))
  {
    assert FormatInt(5) == [FIVE];
    assert TAIL == Encode(IntFrame(5));
    ReplyReadsBack(IntFrame(5), Encode(SECOND), BUFFER);
  }

  const GIVEN_A := Replied(TextReply([LETTER_A]), 0, 0)
  const GIVEN_5 := Replied(IntReply(5), 0, 1)

  lemma FirstAnswered() returns (es: seq<Event>, ss: seq<Sys>)
    ensures IsRun(PAIR, es, ss)
    ensures ss[|es|] == Scene(1, map[0 := Holding(1, 0, false, true)],
                              Conn([Command(0, 1)], [FIRST], 0, [PLUS, LETTER_A] + TAIL, false), Caller(0))
  {
    FirstRead();
    es, ss := FirstDials();
    es, ss := Extend(PAIR, es, ss, Send(0));
    es, ss := Extend(PAIR, es, ss, Answer(0, FIRST));
    assert ss[|es|].conns[0] == Conn([Command(0, 1)], [FIRST], 0, [PLUS, LETTER_A] + TAIL, false);
  }

  lemma FirstReads() returns (es: seq<Event>, ss: seq<Sys>)
    ensures IsRun(PAIR, es, ss)
    ensures ss[|es|] == Scene(1, map[0 := Returning(1, 0, false, false, GIVEN_A)],
                              Conn([Command(0, 1)], [FIRST], 1, TAIL, false), Caller(0))
  {
    FirstRead();
    es, ss := FirstAnswered();
    var unread := [PLUS, LETTER_A] + TAIL;
    assert unread[..2] == [PLUS, LETTER_A] && [] + unread[2..] == TAIL;
    es, ss := Extend(PAIR, es, ss, Receive(0, 2, true, false));
  }

  /** The first caller's answer is cut after two bytes and accepted; its connection is
      parked with the rest of that answer unread. */
  lemma FirstCut() returns (es: seq<Event>, ss: seq<Sys>)
    ensures IsRun(PAIR, es, ss)
    ensures ss[|es|] == Scene(0, map[0 := Finished(GIVEN_A)], Conn([Command(0, 1)], [FIRST], 1, TAIL, false), Parked)
  {
    es, ss := FirstReads();
    es, ss := Extend(PAIR, es, ss, Return(0));
    es, ss := Extend(PAIR, es, ss, Release(0, false));
  }

  lemma SecondAnswered() returns (es: seq<Event>, ss: seq<Sys>)
    ensures IsRun(PAIR, es, ss)
    ensures ss[|es|] == Scene(1, map[0 := Finished(GIVEN_A), 1 := Holding(1, 0, true, true)],
                              Conn([Command(0, 1), Command(1, 1)], [FIRST, SECOND], 1, TAIL + Encode(SECOND), false), Caller(1))
  {
    es, ss := FirstCut();
    es, ss := Extend(PAIR, es, ss, Enter(1));
    es, ss := Extend(PAIR, es, ss, TakeToken(1));
    es, ss := Extend(PAIR, es, ss, CheckOut(1));
    assert ss[|es|] == Scene(1, map[0 := Finished(GIVEN_A), 1 := Holding(1, 0, true, false)],
                             Conn([Command(0, 1)], [FIRST], 1, TAIL, false), Caller(1));
    es, ss := Extend(PAIR, es, ss, Send(1));
    es, ss := Extend(PAIR, es, ss, Answer(0, SECOND));
    assert ss[|es|].conns[0] ==
           Conn([Command(0, 1), Command(1, 1)], [FIRST, SECOND], 1, TAIL + Encode(SECOND), false);
  }

  /** The read of the second caller sees all that the server has sent. */
  lemma SecondReads() returns (es: seq<Event>, ss: seq<Sys>)
    ensures IsRun(PAIR, es, ss)
    ensures ss[|es|] == Scene(1, map[0 := Finished(GIVEN_A), 1 := Returning(1, 0, false, false, GIVEN_5)],
                              Conn([Command(0, 1), Command(1, 1)], [FIRST, SECOND], 2, Encode(SECOND), false), Caller(1))
    ensures
      var k := |es| - 1;
      k >= 0 && 0 in ss[k].conns && es[k] == Receive(1, |ss[k].conns[0].unread|, false, false)
  {
    SecondRead();
    es, ss := SecondAnswered();
    var unread := TAIL + Encode(SECOND);
    assert unread[..|unread|] == unread && Encode(SECOND) + unread[|unread|..] == Encode(SECOND);
    es, ss := Extend(PAIR, es, ss, Receive(1, |unread|, false, false));
  }

  /** The next caller reuses that connection, its own answer arrives whole, and it is
      given what was left of the first caller's. */
  lemma {:induction false} CutReplyReachesNextCaller() returns (es: seq<Event>, ss: seq<Sys>)
    ensures IsRun(PAIR, es, ss)
    ensures
      var s := ss[|es|];
      && s.callers == map[0 := Finished(GIVEN_A), 1 := Finished(GIVEN_5)]
      && 0 in s.conns && s.conns[0].sent == [Command(0, 1), Command(1, 1)] && s.conns[0].answers == [FIRST, SECOND]
      && !Answers(s.conns, 0, GIVEN_A) && !Answers(s.conns, 1, GIVEN_5)
    ensures
      var k := |es| - 3;
      k >= 0 && 0 in ss[k].conns && es[k] == Receive(1, |ss[k].conns[0].unread|, false, false)
  {
    es, ss := SecondReads();
    es, ss := Extend(PAIR, es, ss, Return(1));
    es, ss := Extend(PAIR, es, ss, Release(1, false));
  }
}
