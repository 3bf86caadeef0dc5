/**
 Exactly when the attestation machine can no longer move by itself, and runs that get there.
 */
module AttestStuck {
  import opened AttestMachine
  import opened AttestSafety
  import opened AttestProgress

  /** Some continuation takes the machine out of state `st`. */
  ghost predicate CanLeave(m: Machine, st: AttestState) {
    exists s :: Legal(m, s) && Run(m, s).state != st
  }

  ghost predicate Reaches(m: Machine, n: Machine) {
    exists s :: Legal(m, s) && Run(m, s) == n
  }

  lemma ReachesSelf(m: Machine)
    ensures Reaches(m, m)
  {
    assert Legal(m, []) && Run(m, []) == m;
  }

  lemma ReachesNext(m: Machine, n: Machine, c: Choice)
    requires Reaches(m, n) && Enabled(n, c)
    ensures Reaches(m, Step(n, c))
  {
    var s :| Legal(m, s) && Run(m, s) == n;
    RunSnoc(m, s, c);
  }

  lemma ReachedLeaves(m: Machine, n: Machine, st: AttestState)
    requires Reaches(m, n) && n.state != st
    ensures CanLeave(m, st)
  {
    var s :| Legal(m, s) && Run(m, s) == n;
  }

  lemma SelfEventMoves(e: Event, state: AttestState, restartPending: bool)
    requires Fits(state, Self(e)) && e != EventRetryTimerExpiry
    ensures StateAfter(state, React(e, state, restartPending)) != state
  {
  }

  /** A self event other than the retry always changes the state. */
  lemma SelfEventLeaves(m: Machine, n: Machine, e: Event)
    requires Reaches(m, n) && n.alive && DrivenBy(n, Self(e)) && Fits(n.state, Self(e)) && e != EventRetryTimerExpiry
    ensures CanLeave(m, n.state)
  {
    assert n.inFlight[e] == 1;
    SelfEventMoves(e, n.state, n.restartPending);
    DeliverMoves(m, n, e);
  }

  lemma DeliverMoves(m: Machine, n: Machine, e: Event)
    requires Reaches(m, n) && n.alive && e in n.inFlight
    requires StateAfter(n.state, React(e, n.state, n.restartPending)) != n.state
    ensures CanLeave(m, n.state)
  {
    PerformState(n.(inFlight := n.inFlight - multiset{e}), React(e, n.state, n.restartPending), Ok);
    ReachesNext(m, n, Deliver(e, Ok));
    ReachedLeaves(m, Step(n, Deliver(e, Ok)), n.state);
  }

  /** What sets the driver off, answered well. */
  function Move(d: Driver): Choice {
    match d
    case Timer => TimerFires
    case Quote => QuoteArrives
    case Self(e) => Deliver(e, Ok)
    case NoDriver => WatchdogTick
  }

  function Distance(d: Driver): nat {
    match d
    case Timer => 3
    case Quote => 1
    case Self(e) => if e == EventRetryTimerExpiry then 2 else 0
    case NoDriver => 4
  }

  lemma MoveEnabled(m: Machine, d: Driver)
    requires m.alive && DrivenBy(m, d) && Fits(m.state, d)
    ensures Enabled(m, Move(d)) && !RestartsInNone(m, Move(d))
  {
    if d.Self? {
      assert m.inFlight[d.event] == 1;
    }
  }

  /** A move that leaves the state as it is brings the machine closer to one that does not. */
  lemma MoveCloser(m: Machine, d: Driver)
    requires m.alive && DrivenBy(m, d) && Fits(m.state, d) && d != NoDriver && Enabled(m, Move(d))
    requires d.Self? ==> d.event == EventRetryTimerExpiry
    requires Step(m, Move(d)).state == m.state
    ensures NextDriver(m, Move(d), d) != NoDriver && Distance(NextDriver(m, Move(d), d)) < Distance(d)
  {
    if d.Self? {
      PerformState(m.(inFlight := m.inFlight - multiset{d.event}), React(d.event, m.state, m.restartPending), Ok);
    }
  }

  lemma {:induction false} DrivenLeaves(m: Machine, n: Machine, d: Driver)
    requires Reaches(m, n) && n.alive && DrivenBy(n, d) && Fits(n.state, d) && d != NoDriver
    ensures CanLeave(m, n.state)
    decreases Distance(d)
  {
    if d.Self? && d.event != EventRetryTimerExpiry {
      SelfEventLeaves(m, n, d.event);
    } else {
      MoveEnabled(n, d);
      var n' := Step(n, Move(d));
      ReachesNext(m, n, Move(d));
      if n'.state == n.state {
        StepKeepsSingleDriver(n, Move(d), d);
        MoveCloser(n, d);
        DrivenLeaves(m, n', NextDriver(n, Move(d), d));
      } else {
        ReachedLeaves(m, n', n.state);
      }
    }
  }

  /** In a single-driver state, being stranded is exactly having no continuation that moves on. */
  lemma StrandedExactly(m: Machine)
    requires SingleDriver(m)
    ensures Stranded(m) <==> !CanLeave(m, m.state)
  {
    if Stranded(m) {
      forall s | Legal(m, s) ensures Run(m, s).state == m.state {
        StrandedForEver(m, s);
      }
    } else {
      var d :| DrivenBy(m, d) && Fits(m.state, d);
      if d != NoDriver {
        ReachesSelf(m);
        DrivenLeaves(m, m, d);
      } else {
        NewsLeaves(m);
      }
    }
  }

  lemma NewsLeaves(m: Machine)
    requires m.alive && (m.state == StateComplete || m.state == StateInternalEscrowWait)
    ensures CanLeave(m, m.state)
  {
    if m.state == StateComplete {
      NewsMoves(m, RestartRequested, EventRestart);
    } else {
      NewsMoves(m, EscrowPublished, EventInternalEscrowRecvd);
    }
  }

  lemma NewsMoves(m: Machine, c: Choice, e: Event)
    requires m.alive && (c == RestartRequested || c == EscrowPublished)
    requires Step(m, c) == Post(m, e) && Dispatch(m, e, Ok).state != m.state
    ensures CanLeave(m, m.state)
  {
    var n := Post(m, e);
    ReachesSelf(m);
    ReachesNext(m, m, c);
    assert n.inFlight - multiset{e} == m.inFlight;
    assert Step(n, Deliver(e, Ok)) == Dispatch(m, e, Ok);
    ReachesNext(m, n, Deliver(e, Ok));
    ReachedLeaves(m, Dispatch(m, e, Ok), m.state);
  }

  // ---------------------------------------------------------------------------
  // Waiting for escrow data

  /** Waiting for escrow data of which nothing is on its way. */
  predicate AwaitsNews(m: Machine) {
    m.alive && m.state == StateInternalEscrowWait && DrivenBy(m, NoDriver) && EventInternalEscrowRecvd !in m.inFlight
  }

  lemma StepKeepsAwaiting(m: Machine, c: Choice)
    requires AwaitsNews(m) && Enabled(m, c) && c != EscrowPublished
    ensures AwaitsNews(Step(m, c))
  {
    if c.Deliver? {
      assert !IsSelf(c.event);
      OnlyRestartLeft(m, c.event, c.resp);
    }
  }

  lemma OnlyRestartLeft(m: Machine, e: Event, resp: Response)
    requires AwaitsNews(m) && e in m.inFlight && !IsSelf(e)
    ensures AwaitsNews(Dispatch(m.(inFlight := m.inFlight - multiset{e}), e, resp))
  {
    assert e == EventRestart;
    assert React(e, StateInternalEscrowWait, m.restartPending) == NoteRestart;
  }

  lemma {:induction false} AwaitsForEver(m: Machine, s: seq<Choice>)
    requires AwaitsNews(m) && Legal(m, s) && EscrowPublished !in s
    ensures AwaitsNews(Run(m, s))
    decreases |s|
  {
    if s != [] {
      assert s[|s| - 1] in s && forall c | c in s[..|s| - 1] :: c in s;
      AwaitsForEver(m, s[..|s| - 1]);
      StepKeepsAwaiting(Run(m, s[..|s| - 1]), s[|s| - 1]);
    }
  }

  /** No continuation without another publication of escrow data leaves the state. */
  ghost predicate StuckWithoutNews(m: Machine) {
    forall s | Legal(m, s) && EscrowPublished !in s :: Run(m, s).state == m.state
  }

  lemma OnlyNoDriverAwaits(d: Driver)
    requires Fits(StateInternalEscrowWait, d)
    ensures d == NoDriver
  {
  }

  lemma NewsTakenUp(m: Machine)
    requires m.alive && m.state == StateInternalEscrowWait && EventInternalEscrowRecvd in m.inFlight
    ensures !StuckWithoutNews(m)
  {
    var c := Deliver(EventInternalEscrowRecvd, Ok);
    RunSnoc(m, [], c);
    assert [] + [c] == [c];
    PerformState(m.(inFlight := m.inFlight - multiset{EventInternalEscrowRecvd}), MakeCall(SendAttestEscrow), Ok);
    assert Legal(m, [c]) && EscrowPublished !in [c] && Run(m, [c]).state != m.state;
  }

  /**
   A machine that waits for escrow data stays where it is, whatever else happens, exactly when
   no escrow event is in flight: whether data was published earlier makes no difference.
   */
  lemma EscrowAwaitedExactly(m: Machine)
    requires SingleDriver(m) && m.state == StateInternalEscrowWait
    ensures StuckWithoutNews(m) <==> EventInternalEscrowRecvd !in m.inFlight
  {
    if EventInternalEscrowRecvd in m.inFlight {
      NewsTakenUp(m);
    } else {
      var d :| DrivenBy(m, d) && Fits(m.state, d);
      OnlyNoDriverAwaits(d);
      forall s | Legal(m, s) && EscrowPublished !in s ensures Run(m, s).state == m.state {
        AwaitsForEver(m, s);
      }
    }
  }

  function Awaiting(rt: nat): Machine {
    Machine(StateInternalEscrowWait, false, false, multiset{}, 0, rt, true)
  }

  function Published(rt: nat): Machine {
    Answered(rt, false, EventNoEscrow).(inFlight := multiset{EventNoEscrow, EventInternalEscrowRecvd})
  }

  lemma ArrowNoEscrow(rt: nat)
    ensures Arrow(Accepted(rt), Deliver(EventAttestSuccessful, ErrNoEscrowData), Answered(rt, false, EventNoEscrow), 1, 1, 0)
  {
  }

  lemma ArrowPublish(rt: nat)
    ensures Arrow(Answered(rt, false, EventNoEscrow), EscrowPublished, Published(rt), 0, 0, 0)
  {
  }

  lemma ArrowIgnore(rt: nat)
    ensures Arrow(Published(rt), Deliver(EventInternalEscrowRecvd, Ok), Answered(rt, false, EventNoEscrow), 0, 0, 0)
  {
    assert multiset{EventNoEscrow, EventInternalEscrowRecvd} - multiset{EventInternalEscrowRecvd} == multiset{EventNoEscrow};
  }

  lemma ArrowAwait(rt: nat)
    ensures Arrow(Answered(rt, false, EventNoEscrow), Deliver(EventNoEscrow, Ok), Awaiting(rt), 1, 0, 0)
  {
  }

  lemma AwaitingIsStuck(rt: nat)
    ensures SingleDriver(Awaiting(rt)) && StuckWithoutNews(Awaiting(rt))
  {
    assert DrivenBy(Awaiting(rt), NoDriver) && Fits(StateInternalEscrowWait, NoDriver);
    EscrowAwaitedExactly(Awaiting(rt));
  }

  /**
   Escrow data published between the controller's answer and the event that answer causes is
   lost: a calm run from the start publishes it and then waits for it in vain.
   */
  lemma EscrowWakeupLost(rt: nat) returns (s: seq<Choice>)
    ensures Legal(Started(rt), s) && Calm(Started(rt), s) && Forgiving(Started(rt), s) && EscrowPublished in s
    ensures var m := Run(Started(rt), s);
            m.state == StateInternalEscrowWait && SingleDriver(m) && StuckWithoutNews(m)
  {
    s := FromStart(rt, [], 0, 0, 0);
    ArrowNoEscrow(rt);
    s := Extend(rt, s, Accepted(rt), 3, 0, 0, Deliver(EventAttestSuccessful, ErrNoEscrowData),
                Answered(rt, false, EventNoEscrow), 1, 1, 0);
    s := PublishTooEarly(rt, s);
    AwaitingIsStuck(rt);
  }

  lemma PublishTooEarly(rt: nat, s: seq<Choice>) returns (s': seq<Choice>)
    requires Ledger(rt, s, Answered(rt, false, EventNoEscrow), 4, 1, 0)
    ensures Ledger(rt, s', Awaiting(rt), 5, 1, 0) && EscrowPublished in s'
  {
    var t := PublishIgnored(rt, s);
    ArrowAwait(rt);
    s' := Extend(rt, t, Answered(rt, false, EventNoEscrow), 4, 1, 0, Deliver(EventNoEscrow, Ok), Awaiting(rt), 1, 0, 0);
  }

  lemma PublishIgnored(rt: nat, s: seq<Choice>) returns (s': seq<Choice>)
    requires Ledger(rt, s, Answered(rt, false, EventNoEscrow), 4, 1, 0)
    ensures Ledger(rt, s', Answered(rt, false, EventNoEscrow), 4, 1, 0) && EscrowPublished in s'
  {
    ArrowPublish(rt);
    var t := Extend(rt, s, Answered(rt, false, EventNoEscrow), 4, 1, 0, EscrowPublished, Published(rt), 0, 0, 0);
    ArrowIgnore(rt);
    s' := Extend(rt, t, Published(rt), 4, 1, 0, Deliver(EventInternalEscrowRecvd, Ok),
                 Answered(rt, false, EventNoEscrow), 0, 0, 0);
  }

  // ---------------------------------------------------------------------------
  // Runs from the start that fail

  predicate Leads(rt: nat, s: seq<Choice>, m: Machine) {
    Legal(Started(rt), s) && Run(Started(rt), s) == m
  }

  lemma Go(rt: nat, s: seq<Choice>, m: Machine, c: Choice, m': Machine)
    requires Leads(rt, s, m) && Enabled(m, c) && Step(m, c) == m'
    ensures Leads(rt, s + [c], m')
  {
    RunSnoc(Started(rt), s, c);
  }

  function NonceRefused(rt: nat): Machine {
    Machine(StateNonceWait, false, true, multiset{}, 0, rt, true)
  }

  function NonceRetry(rt: nat): Machine {
    Machine(StateNonceWait, false, false, multiset{EventRetryTimerExpiry}, 0, rt, true)
  }

  lemma ArrowRefused(rt: nat)
    requires rt != 0
    ensures Arrow(Started(rt), Deliver(EventInitialize, ErrControllerReqFailed), NonceRefused(rt), 1, 1, 0)
  {
  }

  lemma ArrowNonceTimer(rt: nat)
    ensures Arrow(NonceRefused(rt), TimerFires, NonceRetry(rt), 0, 0, 0)
  {
  }

  lemma ArrowAgain(rt: nat)
    ensures Arrow(NonceRetry(rt), Deliver(EventRetryTimerExpiry, Ok), Started(rt), 1, 0, 0)
  {
  }

  /** A nonce request that fails once brings the machine back to its start by way of the timer. */
  lemma SecondRound(rt: nat) returns (s: seq<Choice>)
    requires rt != 0
    ensures Ledger(rt, s, Started(rt), 2, 1, 0) && TimerFires in s
  {
    var start: seq<Choice> := [];
    ArrowRefused(rt);
    var t := Extend(rt, start, Started(rt), 0, 0, 0, Deliver(EventInitialize, ErrControllerReqFailed), NonceRefused(rt), 1, 1, 0);
    ArrowNonceTimer(rt);
    var u := Extend(rt, t, NonceRefused(rt), 1, 1, 0, TimerFires, NonceRetry(rt), 0, 0, 0);
    assert u[|t|] == TimerFires;
    ArrowAgain(rt);
    s := Extend(rt, u, NonceRetry(rt), 1, 1, 0, Deliver(EventRetryTimerExpiry, Ok), Started(rt), 1, 0, 0);
    assert s[|t|] == TimerFires;
  }

  function BothInFlight(rt: nat): Machine {
    Started(rt).(inFlight := multiset{EventInitialize, EventRestart})
  }

  function Overtaken(rt: nat): Machine {
    Machine(StateNonceWait, false, false, multiset{EventInitialize, EventNonceRecvd}, 0, rt, true)
  }

  lemma RestartOvertakes(rt: nat)
    ensures Enabled(Started(rt), RestartRequested) && Step(Started(rt), RestartRequested) == BothInFlight(rt)
    ensures Enabled(BothInFlight(rt), Deliver(EventRestart, Ok))
    ensures Step(BothInFlight(rt), Deliver(EventRestart, Ok)) == Overtaken(rt)
  {
    assert multiset{EventInitialize, EventRestart} - multiset{EventRestart} == multiset{EventInitialize};
    assert multiset{EventInitialize} + multiset{EventNonceRecvd} == multiset{EventInitialize, EventNonceRecvd};
  }

  lemma OvertakenCrashes(rt: nat)
    ensures Enabled(Overtaken(rt), Deliver(EventInitialize, Ok))
    ensures !Step(Overtaken(rt), Deliver(EventInitialize, Ok)).alive
  {
  }

  /**
   A fatal dispatch can be reached: in a second round a restart request gets into the channel
   ahead of the machine's own EventInitialize, whose sender is still on its way.
   */
  lemma FatalRun(rt: nat) returns (s: seq<Choice>)
    requires rt != 0
    ensures Legal(Started(rt), s) && TimerFires in s && !Run(Started(rt), s).alive
  {
    var t := SecondRound(rt);
    RestartOvertakes(rt);
    OvertakenCrashes(rt);
    Go(rt, t, Started(rt), RestartRequested, BothInFlight(rt));
    Go(rt, t + [RestartRequested], BothInFlight(rt), Deliver(EventRestart, Ok), Overtaken(rt));
    var last := Step(Overtaken(rt), Deliver(EventInitialize, Ok));
    Go(rt, t + [RestartRequested] + [Deliver(EventRestart, Ok)], Overtaken(rt), Deliver(EventInitialize, Ok), last);
    s := t + [RestartRequested] + [Deliver(EventRestart, Ok)] + [Deliver(EventInitialize, Ok)];
  }

  /** Waiting for the answer to a nonce request that nobody will repeat. */
  function Rejected(rt: nat): Machine {
    Machine(StateNonceWait, false, false, multiset{}, 0, rt, true)
  }

  lemma NoVerifierRejects(rt: nat)
    ensures Enabled(Started(rt), Deliver(EventInitialize, ErrNoVerifier))
    ensures Step(Started(rt), Deliver(EventInitialize, ErrNoVerifier)) == Rejected(rt)
  {
  }

  lemma RestartNoted(rt: nat)
    ensures var asked := Rejected(rt).(inFlight := multiset{EventRestart});
            && Enabled(Rejected(rt), RestartRequested) && Step(Rejected(rt), RestartRequested) == asked
            && Enabled(asked, Deliver(EventRestart, Ok))
            && Step(asked, Deliver(EventRestart, Ok)) == Rejected(rt).(restartPending := true)
  {
  }

  /** A machine without a verifier is stranded, and a restart delivered to it is noted and does not free it. */
  lemma StrandedRun(rt: nat)
    ensures var s := [Deliver(EventInitialize, ErrNoVerifier), RestartRequested, Deliver(EventRestart, Ok)];
            Legal(Started(rt), s) && Run(Started(rt), s).restartPending && Stranded(Run(Started(rt), s))
  {
    var c1, c2, c3 := Deliver(EventInitialize, ErrNoVerifier), RestartRequested, Deliver(EventRestart, Ok);
    NoVerifierRejects(rt);
    RestartNoted(rt);
    Go(rt, [], Started(rt), c1, Rejected(rt));
    Go(rt, [] + [c1], Rejected(rt), c2, Rejected(rt).(inFlight := multiset{EventRestart}));
    Go(rt, [] + [c1] + [c2], Rejected(rt).(inFlight := multiset{EventRestart}), c3, Rejected(rt).(restartPending := true));
    assert [] + [c1] + [c2] + [c3] == [c1, c2, c3];
  }
}
