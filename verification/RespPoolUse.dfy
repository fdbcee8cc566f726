/** How Do uses the pool: connections are set up before any command, a command is tried
    again only after a stale connection broke, and a reply once read is what Do returns. */
module RespPoolUse {
  import opened Common
  import opened RespCodec
  import opened RespPool

  // ---------------------------------------------------------------------------
  // Connections are set up before they are used
  // ---------------------------------------------------------------------------

  /** All setup commands have been sent, and first. */
  ghost predicate Ready(c: Config, conn: Conn) {
    |c.setup| <= |conn.sent| && conn.sent[..|c.setup|] == c.setup
  }

  /** What has been sent is setup commands in order, and after all of them commands. */
  ghost predicate SentInOrder(c: Config, conn: Conn) {
    if |conn.sent| <= |c.setup| then conn.sent == c.setup[..|conn.sent|]
    else Ready(c, conn) && forall k | |c.setup| <= k < |conn.sent| :: conn.sent[k].Command?
  }

  /** What is still to do of a dial, and what has been sent, make up the setup. */
  ghost predicate DialOnTrack(c: Config, conn: Conn, todo: seq<Ticket>, sent: bool) {
    && |todo| <= |c.setup| && todo == c.setup[|c.setup| - |todo|..]
    && |conn.sent| == |c.setup| - |todo| + (if sent then 1 else 0) && (sent ==> todo != [])
  }

  ghost predicate PcSetup(c: Config, conns: map<ConnId, Conn>, pc: Pc) {
    match pc
    case Dialing(_, cn, todo, sent) => cn in conns && DialOnTrack(c, conns[cn], todo, sent)
    case Holding(_, cn, _, _) => cn in conns && Ready(c, conns[cn])
    case Returning(_, cn, _, _, _) => cn in conns && Ready(c, conns[cn])
    case _ => true
  }

  ghost predicate SetupInv(c: Config, s: Sys) {
    && (forall cn | cn in s.conns :: SentInOrder(c, s.conns[cn]))
    && (forall t | t in s.callers :: PcSetup(c, s.conns, s.callers[t]))
    && (forall cn | cn in s.owner && s.owner[cn] == Parked :: cn in s.conns && Ready(c, s.conns[cn]))
  }

  ghost predicate SameSent(a: map<ConnId, Conn>, b: map<ConnId, Conn>) {
    a.Keys == b.Keys && forall cn | cn in a :: a[cn].sent == b[cn].sent
  }

  /** Nothing is sent: callers move and connections change hands. */
  lemma SameSentSetup(c: Config, s: Sys, s1: Sys)
    requires SetupInv(c, s) && SameSent(s.conns, s1.conns)
    requires forall u | u in s1.callers :: PcSetup(c, s.conns, s1.callers[u])
    requires forall cn | cn in s1.owner && s1.owner[cn] == Parked :: cn in s.conns && Ready(c, s.conns[cn])
    ensures SetupInv(c, s1)
  {
  }

  lemma SendKeepsOrder(c: Config, conn: Conn, ticket: Ticket)
    requires SentInOrder(c, conn)
    requires if |conn.sent| < |c.setup| then ticket == c.setup[|conn.sent|] else ticket.Command?
    ensures
      var more := conn.(sent := conn.sent + [ticket]);
      SentInOrder(c, more) && (Ready(c, conn) ==> Ready(c, more))
  {
    var sent := conn.sent + [ticket];
    if |conn.sent| < |c.setup| {
      assert sent == c.setup[..|sent|];
    } else {
      assert sent[..|c.setup|] == conn.sent[..|c.setup|] == c.setup;
    }
  }

  lemma SendSetup(c: Config, s: Sys, e: Event)
    requires Inv(c, s) && SetupInv(c, s) && e.Send? && Enabled(c, s, e)
    ensures SetupInv(c, Step(c, s, e))
  {
    var s1, pc := Step(c, s, e), s.callers[e.t];
    var conn := s.conns[pc.cn];
    SendKeepsOrder(c, conn, if pc.Dialing? then pc.todo[0] else Command(e.t, pc.attempt));
    forall u | u in s1.callers
      ensures PcSetup(c, s1.conns, s1.callers[u])
    {
      if u != e.t {
        assert s.callers[u].HasConn() ==> s.callers[u].cn != pc.cn;
      }
    }
  }

  lemma DialSetup(c: Config, s: Sys, e: Event)
    requires Inv(c, s) && SetupInv(c, s) && e.CheckOut? && Enabled(c, s, e) && !s.p.closed && s.p.idle == []
    ensures SetupInv(c, Step(c, s, e))
  {
    var s1 := Step(c, s, e);
    assert s.next !in s.conns;
    assert s1.callers == s.callers[e.t := s1.callers[e.t]] && s1.conns == s.conns[s.next := FRESH_CONN];
    forall u | u in s1.callers
      ensures PcSetup(c, s1.conns, s1.callers[u])
    {
      assert u != e.t ==> PcSetup(c, s.conns, s.callers[u]);
    }
  }

  lemma CheckOutSetup(c: Config, s: Sys, e: Event)
    requires Inv(c, s) && SetupInv(c, s) && e.CheckOut? && Enabled(c, s, e)
    ensures SetupInv(c, Step(c, s, e))
  {
    if !s.p.closed && s.p.idle == [] {
      DialSetup(c, s, e);
    } else {
      if !s.p.closed {
        assert s.p.idle[|s.p.idle| - 1] in s.p.idle;
      }
      SameSentSetup(c, s, Step(c, s, e));
    }
  }

  lemma BreakSetup(c: Config, s: Sys, t: CallerId, timeout: bool, taint: bool)
    requires SetupInv(c, s) && Enabled(c, s, Break(t, timeout, taint))
    ensures SetupInv(c, BreakStep(s, t, timeout, taint))
  {
    SameSentSetup(c, s, BreakStep(s, t, timeout, taint));
  }

  lemma ReceiveSetup(c: Config, s: Sys, e: Event)
    requires SetupInv(c, s) && e.Receive? && Enabled(c, s, e)
    ensures SetupInv(c, Step(c, s, e))
  {
    var s1 := Step(c, s, e);
    if ReadsReply(s, e) {
      ReceiveMovesOn(c, s, e);
      SameSentSetup(c, s, s1);
    } else {
      BreakSetup(c, s, e.t, e.timeout, e.taint);
    }
  }

  /** A dial with nothing left to do has sent all of the setup. */
  lemma DialDoneSetup(c: Config, s: Sys, e: Event)
    requires SetupInv(c, s) && e.DialDone? && Enabled(c, s, e)
    ensures SetupInv(c, Step(c, s, e))
  {
    var conn := s.conns[s.callers[e.t].cn];
    assert conn.sent == c.setup[..|conn.sent|] == c.setup;
    assert conn.sent[..|c.setup|] == c.setup;
    SameSentSetup(c, s, Step(c, s, e));
  }

  /** A caller without use for a connection moves, or the server or Close does. */
  lemma OtherSetup(c: Config, s: Sys, e: Event)
    requires SetupInv(c, s) && Enabled(c, s, e)
    requires e.Enter? || e.GiveUp? || e.TakeToken? || e.Release? || e.Discard? || e.Answer?
    ensures SetupInv(c, Step(c, s, e))
  {
    SameSentSetup(c, s, Step(c, s, e));
  }

  lemma ReturnSetup(c: Config, s: Sys, e: Event)
    requires SetupInv(c, s) && Enabled(c, s, e) && (e.Return? || e.Shut? || e.CloseOne?)
    ensures SetupInv(c, Step(c, s, e))
  {
    SameSentSetup(c, s, Step(c, s, e));
  }

  lemma StepKeepsSetup(c: Config, s: Sys, e: Event)
    requires Inv(c, s) && SetupInv(c, s) && Enabled(c, s, e)
    ensures SetupInv(c, Step(c, s, e))
  {
    match e {
      case Send(_) => SendSetup(c, s, e);
      case CheckOut(_) => CheckOutSetup(c, s, e);
      case Receive(_, _, _, _) => ReceiveSetup(c, s, e);
      case Break(t, timeout, taint) => BreakSetup(c, s, t, timeout, taint);
      case DialDone(_) => DialDoneSetup(c, s, e);
      case Return(_) => ReturnSetup(c, s, e);
      case Shut => ReturnSetup(c, s, e);
      case CloseOne(_) => ReturnSetup(c, s, e);
      case _ => OtherSetup(c, s, e);
    }
  }

  lemma {:induction false} ReachableSetup(c: Config, es: seq<Event>, ss: seq<Sys>, i: nat)
    requires c.Usable() && IsRun(c, es, ss) && i <= |es|
    ensures SetupInv(c, ss[i])
  {
    if i > 0 {
      ReachableSetup(c, es, ss, i - 1);
      ReachableInv(c, es, ss, i - 1);
      assert Follows(c, ss[i - 1], es[i - 1], ss[i]);
      StepKeepsSetup(c, ss[i - 1], es[i - 1]);
    }
  }

  /** In every run, no command goes out on a connection before all setup commands of the
      client have, in order. */
  lemma {:induction false} CommandsFollowSetup(c: Config, es: seq<Event>, ss: seq<Sys>, i: nat, cn: ConnId, k: nat)
    requires c.Usable() && IsRun(c, es, ss) && i <= |es| && cn in ss[i].conns
    requires k < |ss[i].conns[cn].sent| && ss[i].conns[cn].sent[k].Command?
    ensures |c.setup| <= k && ss[i].conns[cn].sent[..|c.setup|] == c.setup
  {
    ReachableSetup(c, es, ss, i);
  }

  // ---------------------------------------------------------------------------
  // The server accepted the setup
  // ---------------------------------------------------------------------------

  /** The first n answers are there and none is an error. */
  ghost predicate Accepted(conn: Conn, n: nat) {
    n <= |conn.answers| && forall j | 0 <= j < n :: !conn.answers[j].ErrorFrame?
  }

  ghost predicate PcAccepted(c: Config, conns: map<ConnId, Conn>, pc: Pc) {
    match pc
    case Dialing(_, cn, todo, _) => cn in conns && |todo| <= |c.setup| && Accepted(conns[cn], |c.setup| - |todo|)
    case Holding(_, cn, _, _) => cn in conns && Accepted(conns[cn], |c.setup|)
    case Returning(_, cn, _, _, _) => cn in conns && Accepted(conns[cn], |c.setup|)
    case _ => true
  }

  ghost predicate AcceptedInv(c: Config, s: Sys) {
    && (forall cn | cn in s.conns && |c.setup| < |s.conns[cn].sent| :: Accepted(s.conns[cn], |c.setup|))
    && (forall t | t in s.callers :: PcAccepted(c, s.conns, s.callers[t]))
    && (forall cn | cn in s.owner && s.owner[cn] == Parked :: cn in s.conns && Accepted(s.conns[cn], |c.setup|))
  }

  /** Connections only get more answers, and only those in use get more commands. */
  ghost predicate MoreAnswers(c: Config, a: map<ConnId, Conn>, b: map<ConnId, Conn>) {
    && (forall cn | cn in a :: cn in b && a[cn].answers <= b[cn].answers)
    && (forall cn | cn in b && |c.setup| < |b[cn].sent| ::
         cn in a && (|c.setup| < |a[cn].sent| || Accepted(a[cn], |c.setup|)))
  }

  lemma AcceptedStays(c: Config, a: map<ConnId, Conn>, b: map<ConnId, Conn>, pc: Pc)
    requires MoreAnswers(c, a, b) && PcAccepted(c, a, pc)
    ensures PcAccepted(c, b, pc)
  {
  }

  lemma MoreAnswersAccepted(c: Config, s: Sys, s1: Sys)
    requires AcceptedInv(c, s) && MoreAnswers(c, s.conns, s1.conns)
    requires forall u | u in s1.callers :: PcAccepted(c, s1.conns, s1.callers[u])
    requires forall cn | cn in s1.owner && s1.owner[cn] == Parked :: cn in s.conns && Accepted(s.conns[cn], |c.setup|)
    ensures AcceptedInv(c, s1)
  {
  }

  /** One caller moves on; the others stay where they are. */
  lemma MoveAccepted(c: Config, s: Sys, s1: Sys, t: CallerId)
    requires AcceptedInv(c, s) && MoreAnswers(c, s.conns, s1.conns)
    requires t in s1.callers && s1.callers == s.callers[t := s1.callers[t]] && PcAccepted(c, s1.conns, s1.callers[t])
    requires forall cn | cn in s1.owner && s1.owner[cn] == Parked :: cn in s.conns && Accepted(s.conns[cn], |c.setup|)
    ensures AcceptedInv(c, s1)
  {
    forall u | u in s1.callers
      ensures PcAccepted(c, s1.conns, s1.callers[u])
    {
      if u != t {
        AcceptedStays(c, s.conns, s1.conns, s.callers[u]);
      }
    }
    MoreAnswersAccepted(c, s, s1);
  }

  lemma BreakAccepted(c: Config, s: Sys, t: CallerId, timeout: bool, taint: bool)
    requires AcceptedInv(c, s) && Enabled(c, s, Break(t, timeout, taint))
    ensures AcceptedInv(c, BreakStep(s, t, timeout, taint))
  {
    MoveAccepted(c, s, BreakStep(s, t, timeout, taint), t);
  }

  /** A setup reply that was read and is no error reports an answer that is none. */
  lemma SetupAnswered(s: Sys, e: Event)
    requires Synced(s) && IsRead(s, e) && s.callers[e.t].Dialing? && s.callers[e.t].sent
    ensures
      var conn := s.conns[s.callers[e.t].cn];
      Harmless(s, e) && ReadsReply(s, e) && !ReadOf(conn, e.arrived).v.ErrorReply? ==>
        |conn.sent| == conn.got + 1 && conn.got < |conn.answers| && !conn.answers[conn.got].ErrorFrame?
  {
    if Harmless(s, e) {
      ReadPending(s.conns[s.callers[e.t].cn], s.callers[e.t].todo[0], e.arrived);
    }
  }

  lemma ReadMoreAnswers(c: Config, s: Sys, s1: Sys, e: Event)
    requires ReadsReply(s, e) && MovesOn(s, s1, e)
    ensures MoreAnswers(c, s.conns, s1.conns)
  {
  }

  /** A caller that has read a reply moves on; if its dial goes on, the answer was no error. */
  lemma ReadAccepted(c: Config, s: Sys, s1: Sys, e: Event)
    requires SetupInv(c, s) && AcceptedInv(c, s) && Enabled(c, s, e) && ReadsReply(s, e) && MovesOn(s, s1, e)
    requires s1.callers[e.t].Dialing? ==>
      var conn := s.conns[s.callers[e.t].cn];
      |conn.sent| == conn.got + 1 && conn.got < |conn.answers| && !conn.answers[conn.got].ErrorFrame?
    ensures AcceptedInv(c, s1)
  {
    ReadMoreAnswers(c, s, s1, e);
    assert PcAccepted(c, s.conns, s.callers[e.t]);
    MoveAccepted(c, s, s1, e.t);
  }

  lemma ReceiveAccepted(c: Config, s: Sys, e: Event)
    requires Synced(s) && SetupInv(c, s) && AcceptedInv(c, s) && e.Receive? && Enabled(c, s, e) && Harmless(s, e)
    ensures AcceptedInv(c, Step(c, s, e))
  {
    if ReadsReply(s, e) {
      ReceiveMovesOn(c, s, e);
      if Step(c, s, e).callers[e.t].Dialing? {
        SetupAnswered(s, e);
      }
      ReadAccepted(c, s, Step(c, s, e), e);
    } else {
      BreakAccepted(c, s, e.t, e.timeout, e.taint);
    }
  }

  lemma SendAccepted(c: Config, s: Sys, e: Event)
    requires SetupInv(c, s) && AcceptedInv(c, s) && e.Send? && Enabled(c, s, e)
    ensures AcceptedInv(c, Step(c, s, e))
  {
    MoveAccepted(c, s, Step(c, s, e), e.t);
  }

  lemma CheckOutAccepted(c: Config, s: Sys, e: Event)
    requires Inv(c, s) && AcceptedInv(c, s) && e.CheckOut? && Enabled(c, s, e)
    ensures AcceptedInv(c, Step(c, s, e))
  {
    if !s.p.closed && s.p.idle != [] {
      assert s.p.idle[|s.p.idle| - 1] in s.p.idle;
    }
    MoveAccepted(c, s, Step(c, s, e), e.t);
  }

  lemma MoveOnAccepted(c: Config, s: Sys, e: Event)
    requires AcceptedInv(c, s) && Enabled(c, s, e)
    requires e.Enter? || e.GiveUp? || e.TakeToken? || e.Release? || e.Discard? || e.DialDone? || e.Return?
    ensures AcceptedInv(c, Step(c, s, e))
  {
    MoveAccepted(c, s, Step(c, s, e), e.t);
  }

  lemma OutsideAccepted(c: Config, s: Sys, e: Event)
    requires AcceptedInv(c, s) && Enabled(c, s, e) && (e.Answer? || e.Shut? || e.CloseOne?)
    ensures AcceptedInv(c, Step(c, s, e))
  {
    var s1 := Step(c, s, e);
    forall u | u in s1.callers
      ensures PcAccepted(c, s1.conns, s1.callers[u])
    {
      AcceptedStays(c, s.conns, s1.conns, s.callers[u]);
    }
    MoreAnswersAccepted(c, s, s1);
  }

  lemma StepKeepsAccepted(c: Config, s: Sys, e: Event)
    requires Inv(c, s) && Synced(s) && SetupInv(c, s) && AcceptedInv(c, s) && Enabled(c, s, e) && Harmless(s, e)
    ensures AcceptedInv(c, Step(c, s, e))
  {
    match e {
      case Send(_) => SendAccepted(c, s, e);
      case CheckOut(_) => CheckOutAccepted(c, s, e);
      case Receive(_, _, _, _) => ReceiveAccepted(c, s, e);
      case Break(t, timeout, taint) => BreakAccepted(c, s, t, timeout, taint);
      case Answer(_, _) => OutsideAccepted(c, s, e);
      case Shut => OutsideAccepted(c, s, e);
      case CloseOne(_) => OutsideAccepted(c, s, e);
      case _ => MoveOnAccepted(c, s, e);
    }
  }

  lemma AcceptedAt(c: Config, es: seq<Event>, ss: seq<Sys>, i: nat)
    requires c.Usable() && IsRun(c, es, ss) && i < |es| && HarmlessBefore(es, ss, i + 1) && AcceptedInv(c, ss[i])
    ensures AcceptedInv(c, ss[i + 1])
  {
    ReachableInv(c, es, ss, i);
    ReachableSynced(c, es, ss, i);
    ReachableSetup(c, es, ss, i);
    assert Follows(c, ss[i], es[i], ss[i + 1]) && Harmless(ss[i], es[i]);
    StepKeepsAccepted(c, ss[i], es[i]);
  }

  lemma {:induction false} ReachableAccepted(c: Config, es: seq<Event>, ss: seq<Sys>, i: nat)
    requires c.Usable() && IsRun(c, es, ss) && HarmlessBefore(es, ss, i)
    ensures AcceptedInv(c, ss[i])
  {
    if i > 0 {
      ReachableAccepted(c, es, ss, i - 1);
      AcceptedAt(c, es, ss, i - 1);
    }
  }

  /** At every point before which all reads were harmless: a connection that carries a
      command has had every setup command answered, and none with an error. */
  lemma {:induction false} SetupWasAccepted(c: Config, es: seq<Event>, ss: seq<Sys>, i: nat, cn: ConnId, k: nat, j: nat)
    requires c.Usable() && IsRun(c, es, ss) && HarmlessBefore(es, ss, i) && cn in ss[i].conns
    requires k < |ss[i].conns[cn].sent| && ss[i].conns[cn].sent[k].Command? && j < |c.setup|
    ensures j < |ss[i].conns[cn].answers| && !ss[i].conns[cn].answers[j].ErrorFrame?
  {
    CommandsFollowSetup(c, es, ss, i, cn, k);
    ReachableAccepted(c, es, ss, i);
  }

  // ---------------------------------------------------------------------------
  // When a command is tried again
  // ---------------------------------------------------------------------------

  predicate ActsFor(e: Event, t: CallerId) {
    !e.Answer? && !e.Shut? && !e.CloseOne? && e.t == t
  }

  lemma OthersStay(c: Config, s: Sys, e: Event, t: CallerId)
    requires Enabled(c, s, e) && !ActsFor(e, t)
    ensures t in Step(c, s, e).callers <==> t in s.callers
    ensures t in s.callers ==> Step(c, s, e).callers[t] == s.callers[t]
  {
    if e.Receive? && !ReadsReply(s, e) {
      assert Step(c, s, e) == BreakStep(s, e.t, e.timeout, e.taint);
    }
  }

  /** The attempt is over, and its caller is giving back what it holds. */
  predicate WindsUp(pc: Pc) { pc.Returning? || pc.Discarding? || pc.Releasing? }

  /** Attempt n of the caller breaks off, other than by a timeout, on a connection that
      came from the idle list. */
  predicate BreaksOnReuse(s: Sys, e: Event, t: CallerId, n: nat) {
    && t in s.callers && s.callers[t].Holding? && s.callers[t].attempt == n && s.callers[t].reused
    && (e.Break? || (IsRead(s, e) && !ReadsReply(s, e))) && e.t == t && !e.timeout
  }

  ghost predicate BrokeOnReuse(es: seq<Event>, ss: seq<Sys>, i: nat, t: CallerId, n: nat)
    requires i <= |es| < |ss|
  {
    exists j {:trigger es[j]} | 0 <= j < i :: BreaksOnReuse(ss[j], es[j], t, n)
  }

  /** How one event changes the stage of a caller. */
  ghost predicate StageFollows(s: Sys, e: Event, t: CallerId, before: Pc, after: Pc) {
    && (WindsUp(after) ==>
         if WindsUp(before) then after.attempt == before.attempt && after.retry == before.retry
         else after.retry <==> BreaksOnReuse(s, e, t, after.attempt))
    && (WindsUp(before) ==>
         WindsUp(after) || after.Finished? || (before.Releasing? && before.retry && before.attempt == 1 && after == Waiting(2)))
    && (before.Finished? ==> after == before)
    && (!before.Finished? && !after.Finished? ==> after.attempt == before.attempt || (WindsUp(before) && after == Waiting(2)))
    && (BreaksOnReuse(s, e, t, if before.Holding? then before.attempt else 0) ==> WindsUp(after))
  }

  lemma OwnStage(c: Config, s: Sys, e: Event, t: CallerId)
    requires Enabled(c, s, e) && ActsFor(e, t) && t in s.callers && !e.Receive?
    ensures t in Step(c, s, e).callers && StageFollows(s, e, t, s.callers[t], Step(c, s, e).callers[t])
  {
  }

  lemma ReceiveStage(c: Config, s: Sys, e: Event, t: CallerId)
    requires Enabled(c, s, e) && e.Receive? && e.t == t
    ensures t in Step(c, s, e).callers && StageFollows(s, e, t, s.callers[t], Step(c, s, e).callers[t])
  {
    if !ReadsReply(s, e) {
      assert Step(c, s, e) == BreakStep(s, e.t, e.timeout, e.taint);
    }
  }

  lemma StageStep(c: Config, es: seq<Event>, ss: seq<Sys>, i: nat, t: CallerId)
    requires IsRun(c, es, ss) && i < |es| && t in ss[i].callers
    ensures t in ss[i + 1].callers && StageFollows(ss[i], es[i], t, ss[i].callers[t], ss[i + 1].callers[t])
  {
    assert Follows(c, ss[i], es[i], ss[i + 1]);
    if !ActsFor(es[i], t) {
      OthersStay(c, ss[i], es[i], t);
    } else if es[i].Receive? {
      ReceiveStage(c, ss[i], es[i], t);
    } else {
      OwnStage(c, ss[i], es[i], t);
    }
  }

  lemma FirstStage(c: Config, es: seq<Event>, ss: seq<Sys>, i: nat, t: CallerId)
    requires IsRun(c, es, ss) && i < |es| && t !in ss[i].callers && t in ss[i + 1].callers
    ensures ss[i + 1].callers[t] == Waiting(1)
  {
    assert Follows(c, ss[i], es[i], ss[i + 1]);
    if !ActsFor(es[i], t) {
      OthersStay(c, ss[i], es[i], t);
    }
  }

  lemma {:induction false} AttemptsBounded(c: Config, es: seq<Event>, ss: seq<Sys>, i: nat, t: CallerId)
    requires IsRun(c, es, ss) && i <= |es| && t in ss[i].callers && !ss[i].callers[t].Finished?
    ensures 1 <= ss[i].callers[t].attempt <= 2
  {
    if t in ss[i - 1].callers {
      StageStep(c, es, ss, i - 1, t);
      AttemptsBounded(c, es, ss, i - 1, t);
    } else {
      FirstStage(c, es, ss, i - 1, t);
    }
  }

  /** Once an attempt has broken on a reused connection, its caller is allowed a retry
      until it takes it or ends. */
  lemma {:induction false} RetryStays(c: Config, es: seq<Event>, ss: seq<Sys>, j: nat, i: nat, t: CallerId, n: nat)
    requires IsRun(c, es, ss) && j < i <= |es| && BreaksOnReuse(ss[j], es[j], t, n)
    ensures
      t in ss[i].callers &&
      var pc := ss[i].callers[t];
      pc.Finished? || pc.attempt > n || (WindsUp(pc) && pc.attempt == n && pc.retry)
    decreases i
  {
    AttemptsBounded(c, es, ss, j, t);
    if i > j + 1 {
      RetryStays(c, es, ss, j, i - 1, t, n);
    }
    StageStep(c, es, ss, i - 1, t);
  }

  lemma BrokeLater(es: seq<Event>, ss: seq<Sys>, i: nat, t: CallerId, n: nat)
    requires i < |es| < |ss| && (BrokeOnReuse(es, ss, i, t, n) || BreaksOnReuse(ss[i], es[i], t, n))
    ensures BrokeOnReuse(es, ss, i + 1, t, n)
  {
    if BrokeOnReuse(es, ss, i, t, n) {
      var j :| 0 <= j < i && BreaksOnReuse(ss[j], es[j], t, n);
      assert BreaksOnReuse(ss[j], es[j], t, n);
    }
  }

  lemma {:induction false} RetryHasCause(c: Config, es: seq<Event>, ss: seq<Sys>, i: nat, t: CallerId)
    requires IsRun(c, es, ss) && i <= |es| && t in ss[i].callers && WindsUp(ss[i].callers[t]) && ss[i].callers[t].retry
    ensures BrokeOnReuse(es, ss, i, t, ss[i].callers[t].attempt)
  {
    if t !in ss[i - 1].callers {
      FirstStage(c, es, ss, i - 1, t);
    } else {
      StageStep(c, es, ss, i - 1, t);
      if WindsUp(ss[i - 1].callers[t]) {
        RetryHasCause(c, es, ss, i - 1, t);
      }
      BrokeLater(es, ss, i - 1, t, ss[i].callers[t].attempt);
    }
  }

  /** In every run, an attempt that is over may be followed by another exactly when it broke
      off, other than by a timeout, on a connection that came from the idle list. */
  lemma {:induction false} RetriesExactlyWhen(c: Config, es: seq<Event>, ss: seq<Sys>, i: nat, t: CallerId)
    requires IsRun(c, es, ss) && i <= |es| && t in ss[i].callers && WindsUp(ss[i].callers[t])
    ensures ss[i].callers[t].retry <==> BrokeOnReuse(es, ss, i, t, ss[i].callers[t].attempt)
  {
    var n := ss[i].callers[t].attempt;
    if ss[i].callers[t].retry {
      RetryHasCause(c, es, ss, i, t);
    } else if BrokeOnReuse(es, ss, i, t, n) {
      var j :| 0 <= j < i && BreaksOnReuse(ss[j], es[j], t, n);
      RetryStays(c, es, ss, j, i, t, n);
    }
  }

  lemma {:induction false} SecondAttempt(c: Config, es: seq<Event>, ss: seq<Sys>, i: nat, t: CallerId)
    requires IsRun(c, es, ss) && i <= |es| && t in ss[i].callers
    requires !ss[i].callers[t].Finished? && ss[i].callers[t].attempt == 2
    ensures BrokeOnReuse(es, ss, i, t, 1)
  {
    if t !in ss[i - 1].callers {
      FirstStage(c, es, ss, i - 1, t);
    } else {
      StageStep(c, es, ss, i - 1, t);
      var before := ss[i - 1].callers[t];
      if before.attempt == 2 {
        SecondAttempt(c, es, ss, i - 1, t);
      } else {
        RetryHasCause(c, es, ss, i - 1, t);
      }
      BrokeLater(es, ss, i - 1, t, 1);
    }
  }

  lemma NewTicket(c: Config, es: seq<Event>, ss: seq<Sys>, i: nat, cn: ConnId, k: nat)
    requires c.Usable() && IsRun(c, es, ss) && i < |es| && cn in ss[i + 1].conns
    requires k < |ss[i + 1].conns[cn].sent| && (cn in ss[i].conns ==> |ss[i].conns[cn].sent| <= k)
    ensures
      var ticket := ss[i + 1].conns[cn].sent[k];
      ticket.Command? ==>
        && es[i] == Send(ticket.caller) && ticket.caller in ss[i].callers
        && ss[i].callers[ticket.caller].Holding? && ss[i].callers[ticket.caller].attempt == ticket.attempt
  {
    ReachableSetup(c, es, ss, i);
    assert Follows(c, ss[i], es[i], ss[i + 1]);
    if es[i].Receive? && ReadsReply(ss[i], es[i]) {
      ReceiveMovesOn(c, ss[i], es[i]);
    }
  }

  lemma SentGrows(c: Config, es: seq<Event>, ss: seq<Sys>, i: nat, cn: ConnId)
    requires IsRun(c, es, ss) && i < |es| && cn in ss[i].conns
    requires ss[i].next !in ss[i].conns
    ensures cn in ss[i + 1].conns && ss[i].conns[cn].sent <= ss[i + 1].conns[cn].sent
  {
    assert Follows(c, ss[i], es[i], ss[i + 1]);
    if es[i].Receive? && ReadsReply(ss[i], es[i]) {
      ReceiveMovesOn(c, ss[i], es[i]);
    }
  }

  /** In every run, a command on the wire belongs to a first or a second attempt, and to a
      second only if the first broke off, other than by a timeout, on a connection that
      came from the idle list. */
  lemma {:induction false} SecondCommandsExplained(c: Config, es: seq<Event>, ss: seq<Sys>, i: nat, cn: ConnId, k: nat)
    requires c.Usable() && IsRun(c, es, ss) && i <= |es| && cn in ss[i].conns
    requires k < |ss[i].conns[cn].sent| && ss[i].conns[cn].sent[k].Command?
    ensures
      var ticket := ss[i].conns[cn].sent[k];
      ticket.attempt == 1 || (ticket.attempt == 2 && BrokeOnReuse(es, ss, i, ticket.caller, 1))
  {
    var ticket := ss[i].conns[cn].sent[k];
    ReachableInv(c, es, ss, i - 1);
    if cn in ss[i - 1].conns && k < |ss[i - 1].conns[cn].sent| {
      SentGrows(c, es, ss, i - 1, cn);
      SecondCommandsExplained(c, es, ss, i - 1, cn, k);
    } else {
      NewTicket(c, es, ss, i - 1, cn, k);
      AttemptsBounded(c, es, ss, i - 1, ticket.caller);
      if ticket.attempt == 2 {
        SecondAttempt(c, es, ss, i - 1, ticket.caller);
      }
    }
    if ticket.attempt == 2 {
      BrokeLater(es, ss, i - 1, ticket.caller, 1);
    }
  }

  // ---------------------------------------------------------------------------
  // What becomes of replies and connections
  // ---------------------------------------------------------------------------

  /** The reply is with its caller, which will not try again. */
  ghost predicate HasReply(pc: Pc, res: Result) {
    ResultOf(pc) == res && (WindsUp(pc) ==> !pc.retry) && (WindsUp(pc) || pc.Finished?)
  }

  lemma ReplyStays(c: Config, s: Sys, e: Event, t: CallerId, res: Result)
    requires Enabled(c, s, e) && t in s.callers && HasReply(s.callers[t], res)
    ensures t in Step(c, s, e).callers && HasReply(Step(c, s, e).callers[t], res)
  {
    if !ActsFor(e, t) {
      OthersStay(c, s, e, t);
    }
  }

  /** A reply that Do has read is what it returns: nothing replaces it on the way, and the
      command is not tried again. */
  lemma {:induction false} ReadRepliesAreReturned(c: Config, es: seq<Event>, ss: seq<Sys>, j: nat, i: nat)
    requires IsRun(c, es, ss) && j < i <= |es| && ReadsReply(ss[j], es[j]) && ss[j].callers[es[j].t].Holding?
    ensures
      var pc, t := ss[j].callers[es[j].t], es[j].t;
      t in ss[i].callers &&
      HasReply(ss[i].callers[t], Replied(ReadOf(ss[j].conns[pc.cn], es[j].arrived).v, pc.cn, ss[j].conns[pc.cn].got))
    decreases i
  {
    var pc := ss[j].callers[es[j].t];
    assert Follows(c, ss[i - 1], es[i - 1], ss[i]);
    if i == j + 1 {
      ReceiveMovesOn(c, ss[j], es[j]);
    } else {
      ReadRepliesAreReturned(c, es, ss, j, i - 1);
      ReplyStays(c, ss[i - 1], es[i - 1], es[j].t,
                 Replied(ReadOf(ss[j].conns[pc.cn], es[j].arrived).v, pc.cn, ss[j].conns[pc.cn].got));
    }
  }

  /** What a caller with a token is given: after Close nothing; else the connection parked
      last, as a reused one; else a new one, on which the whole setup is to be done. */
  lemma {:induction false} CheckoutsExactly(c: Config, es: seq<Event>, ss: seq<Sys>, i: nat)
    requires c.Usable() && IsRun(c, es, ss) && i < |es| && es[i].CheckOut?
    ensures
      var s, s1, t := ss[i], ss[i + 1], es[i].t;
      var n := |s.p.idle|;
      && t in s.callers && t in s1.callers && s1.p.closed == s.p.closed
      && (s.p.closed ==> s1.callers[t].Releasing? && s1.callers[t].res == Failed && s1.owner == s.owner && s1.conns == s.conns)
      && (!s.p.closed && n > 0 ==>
           && s1.callers[t] == Holding(s.callers[t].attempt, s.p.idle[n - 1], true, false)
           && s1.p.idle == s.p.idle[..n - 1] && s1.conns == s.conns)
      && (!s.p.closed && n == 0 ==>
           && s1.callers[t] == Dialing(s.callers[t].attempt, s.next, c.setup, false)
           && s.next !in s.conns && s.next in s1.conns && s1.conns[s.next].sent == [])
  {
    ReachableInv(c, es, ss, i);
    assert Follows(c, ss[i], es[i], ss[i + 1]);
  }

  lemma BadStep(c: Config, s: Sys, e: Event, t: CallerId)
    requires Enabled(c, s, e) && t in s.callers && ActsFor(e, t) && Step(c, s, e).callers[t].Returning?
    ensures Step(c, s, e).callers[t].bad <==> Step(c, s, e).callers[t].res == Failed
  {
    if e.Receive? && !ReadsReply(s, e) {
      assert Step(c, s, e) == BreakStep(s, e.t, e.timeout, e.taint);
    }
  }

  lemma {:induction false} BadMeansFailed(c: Config, es: seq<Event>, ss: seq<Sys>, i: nat, t: CallerId)
    requires IsRun(c, es, ss) && i <= |es| && t in ss[i].callers && ss[i].callers[t].Returning?
    ensures ss[i].callers[t].bad <==> ss[i].callers[t].res == Failed
  {
    assert Follows(c, ss[i - 1], es[i - 1], ss[i]);
    if t !in ss[i - 1].callers {
      FirstStage(c, es, ss, i - 1, t);
    } else if ActsFor(es[i - 1], t) {
      BadStep(c, ss[i - 1], es[i - 1], t);
    } else {
      OthersStay(c, ss[i - 1], es[i - 1], t);
      BadMeansFailed(c, es, ss, i - 1, t);
    }
  }

  /** A connection goes back to the idle list exactly when its round trip ended in a reply,
      an error of the server included, its cancel hook has not fired, and the client is
      still open; otherwise it is about to be closed. */
  lemma {:induction false} ParkedExactlyWhen(c: Config, es: seq<Event>, ss: seq<Sys>, i: nat)
    requires c.Usable() && IsRun(c, es, ss) && i < |es| && es[i].Return?
    ensures
      var s, s1, t := ss[i], ss[i + 1], es[i].t;
      t in s.callers && s.callers[t].Returning? && t in s1.callers && s.callers[t].cn in s.conns &&
      var cn := s.callers[t].cn;
      && (cn in s1.p.idle <==> s.callers[t].res.Replied? && !s.conns[cn].tainted && !s.p.closed)
      && (if cn in s1.p.idle then s1.p.idle == s.p.idle + [cn] && s1.callers[t].Releasing?
          else s1.p.idle == s.p.idle && s1.callers[t].Discarding?)
  {
    ReachableInv(c, es, ss, i);
    assert Follows(c, ss[i], es[i], ss[i + 1]);
    BadMeansFailed(c, es, ss, i, es[i].t);
    assert ss[i].callers[es[i].t].cn !in ss[i].p.idle;
  }

  lemma TaintStep(c: Config, s: Sys, e: Event, cn: ConnId)
    requires Enabled(c, s, e) && cn in s.conns && s.next !in s.conns
    ensures cn in Step(c, s, e).conns
    ensures s.conns[cn].tainted ==> Step(c, s, e).conns[cn].tainted
    ensures (e.Receive? || e.Break?) && e.taint && s.callers[e.t].cn == cn ==> Step(c, s, e).conns[cn].tainted
  {
    if e.Receive? && !ReadsReply(s, e) {
      assert Step(c, s, e) == BreakStep(s, e.t, e.timeout, e.taint);
    }
  }

  /** The cancel hook of a round trip on the connection fires. */
  predicate HookFires(s: Sys, e: Event, cn: ConnId) {
    && (e.Receive? || e.Break?) && e.taint
    && e.t in s.callers && (s.callers[e.t].Dialing? || s.callers[e.t].Holding?) && s.callers[e.t].cn == cn
  }

  lemma TaintAt(c: Config, es: seq<Event>, ss: seq<Sys>, i: nat, cn: ConnId)
    requires c.Usable() && IsRun(c, es, ss) && i < |es| && cn in ss[i].conns
    ensures cn in ss[i + 1].conns
    ensures ss[i].conns[cn].tainted ==> ss[i + 1].conns[cn].tainted
    ensures HookFires(ss[i], es[i], cn) ==> ss[i + 1].conns[cn].tainted
  {
    ReachableInv(c, es, ss, i);
    assert Follows(c, ss[i], es[i], ss[i + 1]);
    TaintStep(c, ss[i], es[i], cn);
  }

  lemma TaintedNotParked(c: Config, es: seq<Event>, ss: seq<Sys>, i: nat, cn: ConnId)
    requires c.Usable() && IsRun(c, es, ss) && i <= |es| && cn in ss[i].conns && ss[i].conns[cn].tainted
    ensures cn !in ss[i].p.idle
  {
    ReachableInv(c, es, ss, i);
  }

  /** A connection whose cancel hook fired in some round trip is never idle again. */
  lemma {:induction false} TaintedNeverIdle(c: Config, es: seq<Event>, ss: seq<Sys>, j: nat, i: nat, cn: ConnId)
    requires c.Usable() && IsRun(c, es, ss) && j < i <= |es| && cn in ss[j].conns && HookFires(ss[j], es[j], cn)
    ensures cn in ss[i].conns && ss[i].conns[cn].tainted && cn !in ss[i].p.idle
    decreases i
  {
    if i > j + 1 {
      TaintedNeverIdle(c, es, ss, j, i - 1, cn);
    }
    TaintAt(c, es, ss, i - 1, cn);
    TaintedNotParked(c, es, ss, i, cn);
  }
}
