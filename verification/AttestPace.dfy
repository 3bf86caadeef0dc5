/**
 The pace of the attestation machine: a round begins only with a nonce request, and no two
 rounds begin without the retry timer having fired in between.  Beside it, what each delivery
 does to the whole machine, event by event.
 */
module AttestPace {
  import opened AttestMachine
  import opened AttestSafety

  // ---------------------------------------------------------------------------
  // The retry timer sets the pace

  /** A step that takes the machine out of StateNone with a nonce request. */
  predicate Begins(m: Machine, c: Choice)
    requires Enabled(m, c)
  {
    m.state == StateNone && Step(m, c).state == StateNonceWait
  }

  /** A round is under way and no expiry of the retry timer waits to be handled. */
  predicate NoRetryDue(m: Machine) {
    m.state != StateNone && EventRetryTimerExpiry !in m.inFlight
  }

  lemma CallPostsNoRetry(m: Machine, call: Call, resp: Response)
    ensures AfterCall(m, call, resp).inFlight[EventRetryTimerExpiry] == m.inFlight[EventRetryTimerExpiry]
  {
  }

  lemma ReactionPostsNoRetry(m: Machine, r: Reaction, resp: Response)
    requires EventRetryTimerExpiry !in m.inFlight
    ensures EventRetryTimerExpiry !in Perform(m, r, resp).inFlight
  {
    if r.MakeCall? {
      CallPostsNoRetry(m, r.call, resp);
    }
  }

  /** Only the timer brings a retry about. */
  lemma StepPostsNoRetry(m: Machine, c: Choice)
    requires Enabled(m, c) && c != TimerFires && EventRetryTimerExpiry !in m.inFlight
    ensures EventRetryTimerExpiry !in Step(m, c).inFlight
  {
    if c.Deliver? {
      ReactionPostsNoRetry(m.(inFlight := m.inFlight - multiset{c.event}),
                           React(c.event, m.state, m.restartPending), c.resp);
    }
  }

  /** Only a retry starts a round over. */
  lemma StepKeepsNoRetryDue(m: Machine, c: Choice)
    requires Enabled(m, c) && c != TimerFires && NoRetryDue(m)
    ensures NoRetryDue(Step(m, c))
  {
    StepPostsNoRetry(m, c);
    if c.Deliver? {
      var r := React(c.event, m.state, m.restartPending);
      PerformState(m.(inFlight := m.inFlight - multiset{c.event}), r, c.resp);
      ReactionStartsOver(m.state, c.event, m.restartPending);
    }
  }

  lemma NoRetryInNone(m: Machine)
    requires SingleDriver(m) && m.state == StateNone
    ensures EventRetryTimerExpiry !in m.inFlight && !m.timerArmed
  {
    var d :| DrivenBy(m, d) && Fits(m.state, d);
    OnlyInitializeFitsNone(d);
  }

  lemma BeginningHasNoRetryDue(m: Machine, c: Choice)
    requires SingleDriver(m) && Enabled(m, c) && Begins(m, c)
    ensures NoRetryDue(Step(m, c))
  {
    NoRetryInNone(m);
    StepPostsNoRetry(m, c);
  }

  lemma {:induction false} CalmPrefix(m: Machine, s: seq<Choice>, n: nat)
    requires Legal(m, s) && Calm(m, s) && n <= |s|
    ensures Legal(m, s[..n]) && Calm(m, s[..n])
  {
    if n == |s| {
      assert s[..n] == s;
    } else {
      CalmPrefix(m, s[..|s| - 1], n);
      assert s[..|s| - 1][..n] == s[..n];
    }
  }

  /** The states a schedule leads through, the first one included. */
  function Trace(m: Machine, s: seq<Choice>): (t: seq<Machine>)
    requires Legal(m, s)
    ensures |t| == |s| + 1 && t[|s|] == Run(m, s)
  {
    if s == [] then [m] else Trace(m, s[..|s| - 1]) + [Run(m, s)]
  }

  /** The `k`-th choice takes one state of the trace to the next. */
  predicate Leads(t: seq<Machine>, s: seq<Choice>, k: nat)
    requires |t| == |s| + 1 && k < |s|
  {
    Enabled(t[k], s[k]) && t[k + 1] == Step(t[k], s[k])
  }

  predicate IsTrace(t: seq<Machine>, s: seq<Choice>) {
    |t| == |s| + 1 && forall k | 0 <= k < |s| :: Leads(t, s, k)
  }

  lemma TraceSnoc(t: seq<Machine>, s: seq<Choice>, c: Choice)
    requires IsTrace(t, s) && Enabled(t[|s|], c)
    ensures IsTrace(t + [Step(t[|s|], c)], s + [c])
  {
    var t', s' := t + [Step(t[|s|], c)], s + [c];
    forall k | 0 <= k < |s'| ensures Leads(t', s', k) {
      assert k < |s| ==> Leads(t, s, k);
    }
  }

  lemma {:induction false} TraceIsTrace(m: Machine, s: seq<Choice>)
    requires Legal(m, s)
    ensures IsTrace(Trace(m, s), s)
  {
    if s != [] {
      TraceIsTrace(m, s[..|s| - 1]);
      TraceSnoc(Trace(m, s[..|s| - 1]), s[..|s| - 1], s[|s| - 1]);
      assert s == s[..|s| - 1] + [s[|s| - 1]];
    }
  }

  lemma {:induction false} TraceAt(m: Machine, s: seq<Choice>, n: nat)
    requires Legal(m, s) && n <= |s|
    ensures Legal(m, s[..n]) && Trace(m, s)[n] == Run(m, s[..n])
  {
    if n == |s| {
      assert s[..n] == s;
    } else {
      TraceAt(m, s[..|s| - 1], n);
      assert s[..|s| - 1][..n] == s[..n];
    }
  }

  /** The `n`-th choice begins a round. */
  predicate BeginsAt(t: seq<Machine>, n: nat) {
    n + 1 < |t| && t[n].state == StateNone && t[n + 1].state == StateNonceWait
  }

  /** The timer fires after the `i`-th choice and before the `n`-th. */
  predicate Fires(s: seq<Choice>, i: nat, n: nat) {
    exists k :: i < k < n && k < |s| && s[k] == TimerFires
  }

  lemma NoRetryNext(t: seq<Machine>, s: seq<Choice>, n: nat)
    requires IsTrace(t, s) && n < |s| && s[n] != TimerFires && NoRetryDue(t[n])
    ensures NoRetryDue(t[n + 1])
  {
    assert Leads(t, s, n);
    StepKeepsNoRetryDue(t[n], s[n]);
  }

  /** Until the timer fires, a round once begun is not started over. */
  lemma {:induction false} NoRetryUntil(t: seq<Machine>, s: seq<Choice>, i: nat, n: nat)
    requires IsTrace(t, s) && i < n <= |s| && NoRetryDue(t[i + 1]) && !Fires(s, i, n)
    ensures NoRetryDue(t[n])
  {
    if n > i + 1 {
      NoRetryUntil(t, s, i, n - 1);
      NoRetryNext(t, s, n - 1);
    }
  }

  /** Every state of a calm run has one driver. */
  lemma TraceIsDriven(retryTime: nat, s: seq<Choice>, n: nat)
    requires Legal(Started(retryTime), s) && Calm(Started(retryTime), s) && n <= |s|
    ensures SingleDriver(Trace(Started(retryTime), s)[n])
  {
    var m := Started(retryTime);
    TraceAt(m, s, n);
    CalmPrefix(m, s, n);
    AlwaysOneDriverNeverFatal(retryTime, s[..n]);
  }

  /** Whatever the controller answers, the retry timer has fired between the beginnings of any two rounds. */
  lemma RoundsApart(retryTime: nat, s: seq<Choice>, i: nat, j: nat)
    requires Legal(Started(retryTime), s) && Calm(Started(retryTime), s) && i < j
    requires BeginsAt(Trace(Started(retryTime), s), i) && BeginsAt(Trace(Started(retryTime), s), j)
    ensures Fires(s, i, j)
  {
    var t := Trace(Started(retryTime), s);
    TraceIsTrace(Started(retryTime), s);
    TraceIsDriven(retryTime, s, i);
    RoundsOfTrace(t, s, i, j);
  }

  lemma RoundsOfTrace(t: seq<Machine>, s: seq<Choice>, i: nat, j: nat)
    requires IsTrace(t, s) && i < j && BeginsAt(t, i) && BeginsAt(t, j)
    requires SingleDriver(t[i])
    ensures Fires(s, i, j)
  {
    assert Leads(t, s, i);
    BeginningHasNoRetryDue(t[i], s[i]);
    if !Fires(s, i, j) {
      NoRetryUntil(t, s, i, j);
    }
  }

  // ---------------------------------------------------------------------------
  // What each delivery does

  /** The machine with `e` received and `posted` on its way. */
  function Exchange(m: Machine, e: Event, posted: multiset<Event>): Machine {
    m.(inFlight := m.inFlight - multiset{e} + posted)
  }

  /** The deliveries after which the machine waits for the timer before it tries again. */
  predicate Rests(state: AttestState, e: Event, restartPending: bool) {
    || (state == StateAttestWait && (e == EventNonceMismatch || e == EventQuoteMismatch || e == EventNoQuoteCertRecvd))
    || (state == StateAttestEscrowWait && e == EventAttestEscrowFailed)
    || (state == StateAttestEscrowWait && e == EventAttestEscrowRecorded && restartPending)
    || (state == StateComplete && e == EventRestart)
  }

  lemma ReactionRests(state: AttestState, e: Event, restartPending: bool)
    ensures React(e, state, restartPending) == WaitBeforeRestart <==> Rests(state, e, restartPending)
  {
  }

  /** A refused quote, a refused escrow, and a restart of a finished or finishing round wait for the timer. */
  lemma RestsExactly(m: Machine, c: Choice)
    requires Enabled(m, c) && m.state != StateRestartWait
    ensures Step(m, c).state == StateRestartWait <==> c.Deliver? && Rests(m.state, c.event, m.restartPending)
    ensures Step(m, c).state == StateRestartWait ==>
            Step(m, c) == Exchange(m, c.event, multiset{}).(state := StateRestartWait, timerArmed := m.retryTime != 0)
  {
    if c.Deliver? {
      var n := m.(inFlight := m.inFlight - multiset{c.event});
      ReactionRests(m.state, c.event, m.restartPending);
      PerformState(n, React(c.event, m.state, m.restartPending), c.resp);
      assert n.inFlight + multiset{} == n.inFlight;
    }
  }

  lemma ReactionStartsOver(state: AttestState, e: Event, restartPending: bool)
    ensures React(e, state, restartPending).StartOver? <==>
            e == EventRetryTimerExpiry && (state == StateRestartWait || state == StateNonceWait)
    ensures React(e, state, restartPending).StartOver? ==>
              (React(e, state, restartPending).clearRestart <==> state == StateRestartWait)
  {
  }

  /** Only an expired timer starts over, in the two states that wait for the controller's nonce or for the restart. */
  lemma StartsOverExactly(m: Machine, c: Choice)
    requires Enabled(m, c) && m.state != StateNone
    ensures Step(m, c).state == StateNone <==>
            c.Deliver? && c.event == EventRetryTimerExpiry && (m.state == StateRestartWait || m.state == StateNonceWait)
    ensures Step(m, c).state == StateNone ==>
            Step(m, c) == Exchange(m, c.event, multiset{EventInitialize}).(
              state := StateNone, restartPending := m.restartPending && m.state == StateNonceWait)
  {
    if c.Deliver? {
      ReactionStartsOver(m.state, c.event, m.restartPending);
      PerformState(m.(inFlight := m.inFlight - multiset{c.event}), React(c.event, m.state, m.restartPending), c.resp);
    }
  }

  lemma ReactionEndsRound(state: AttestState, e: Event, restartPending: bool)
    ensures React(e, state, restartPending) == Finish <==>
            e == EventAttestEscrowRecorded && state == StateAttestEscrowWait && !restartPending
    ensures React(e, state, restartPending) == AwaitEscrow <==> e == EventNoEscrow && state == StateAttestEscrowWait
  {
  }

  /** The escrow recorded and no restart owed: the one way to complete. */
  lemma CompletesExactly(m: Machine, c: Choice)
    requires Enabled(m, c) && m.state != StateComplete
    ensures Step(m, c).state == StateComplete <==>
            && c.Deliver? && c.event == EventAttestEscrowRecorded
            && m.state == StateAttestEscrowWait && !m.restartPending
    ensures Step(m, c).state == StateComplete ==>
            Step(m, c) == Exchange(m, c.event, multiset{}).(state := StateComplete)
  {
    if c.Deliver? {
      var n := m.(inFlight := m.inFlight - multiset{c.event});
      ReactionEndsRound(m.state, c.event, m.restartPending);
      PerformState(n, React(c.event, m.state, m.restartPending), c.resp);
      assert n.inFlight + multiset{} == n.inFlight;
    }
  }

  lemma AwaitsEscrowExactly(m: Machine, c: Choice)
    requires Enabled(m, c) && m.state != StateInternalEscrowWait
    ensures Step(m, c).state == StateInternalEscrowWait <==>
            c.Deliver? && c.event == EventNoEscrow && m.state == StateAttestEscrowWait
    ensures Step(m, c).state == StateInternalEscrowWait ==>
            Step(m, c) == Exchange(m, c.event, multiset{}).(state := StateInternalEscrowWait)
  {
    if c.Deliver? {
      var n := m.(inFlight := m.inFlight - multiset{c.event});
      ReactionEndsRound(m.state, c.event, m.restartPending);
      PerformState(n, React(c.event, m.state, m.restartPending), c.resp);
      assert n.inFlight + multiset{} == n.inFlight;
    }
  }

  /** What a round begins with, and what each answer of the controller leaves to wait for. */
  lemma NonceAsked(m: Machine, e: Event, resp: Response)
    requires Enabled(m, Deliver(e, resp)) && m.state == StateNone && (e == EventInitialize || e == EventRestart)
    ensures Step(m, Deliver(e, resp)) ==
            Exchange(m, e, if resp == Ok then multiset{EventNonceRecvd} else multiset{}).(
              state := StateNonceWait,
              timerArmed := if resp == ErrControllerReqFailed then m.retryTime != 0 else m.timerArmed)
  {
    var n := m.(inFlight := m.inFlight - multiset{e});
    NonceFollowup(n, resp);
    assert Step(m, Deliver(e, resp)) == AfterCall(n, SendNonceRequest, resp);
    assert n.inFlight + multiset{} == n.inFlight;
  }

  lemma QuoteAsked(m: Machine, e: Event, resp: Response)
    requires Enabled(m, Deliver(e, resp))
    requires (m.state == StateNonceWait && e == EventNonceRecvd)
             || (m.state == StateInternalQuoteWait && e == EventRetryTimerExpiry)
    ensures Step(m, Deliver(e, resp)) ==
            Exchange(m, e, multiset{}).(
              state := StateInternalQuoteWait,
              quotesOwed := m.quotesOwed + if resp == Ok then 1 else 0,
              timerArmed := if resp == ErrTpmAgentUnavailable then m.retryTime != 0 else m.timerArmed)
  {
    var n := m.(inFlight := m.inFlight - multiset{e});
    assert React(e, m.state, m.restartPending) == MakeCall(SendInternalQuoteRequest);
    assert Step(m, Deliver(e, resp)) == AfterCall(n, SendInternalQuoteRequest, resp);
    assert n.inFlight + multiset{} == n.inFlight;
  }

  lemma QuoteSent(m: Machine, e: Event, resp: Response)
    requires Enabled(m, Deliver(e, resp))
    requires (m.state == StateInternalQuoteWait && e == EventInternalQuoteRecvd)
             || (m.state == StateAttestWait && e == EventRetryTimerExpiry)
    ensures Step(m, Deliver(e, resp)) ==
            Exchange(m, e,
                     match resp
                     case Ok => multiset{EventAttestSuccessful}
                     case ErrNonceMismatch => multiset{EventNonceMismatch}
                     case ErrQuoteMismatch => multiset{EventQuoteMismatch}
                     case ErrNoCertYet => multiset{EventNoQuoteCertRecvd}
                     case _ => multiset{}).(
              state := StateAttestWait,
              timerArmed := if resp == ErrControllerReqFailed then m.retryTime != 0 else m.timerArmed)
  {
    var n := m.(inFlight := m.inFlight - multiset{e});
    QuoteFollowup(n, resp);
    assert Step(m, Deliver(e, resp)) == AfterCall(n, SendAttestQuote, resp);
    assert n.inFlight + multiset{} == n.inFlight;
  }

  lemma EscrowSent(m: Machine, e: Event, resp: Response)
    requires Enabled(m, Deliver(e, resp))
    requires (m.state == StateAttestWait && e == EventAttestSuccessful)
             || (m.state == StateAttestEscrowWait && e == EventRetryTimerExpiry)
             || (m.state == StateInternalEscrowWait && e == EventInternalEscrowRecvd)
    ensures Step(m, Deliver(e, resp)) ==
            Exchange(m, e,
                     match resp
                     case Ok => multiset{EventAttestEscrowRecorded}
                     case ErrNoEscrowData => multiset{EventNoEscrow}
                     case ErrITokenMismatch => multiset{EventAttestEscrowFailed}
                     case _ => multiset{}).(
              state := StateAttestEscrowWait,
              timerArmed := if resp == ErrControllerReqFailed then m.retryTime != 0 else m.timerArmed)
  {
    var n := m.(inFlight := m.inFlight - multiset{e});
    EscrowFollowup(n, resp);
    assert Step(m, Deliver(e, resp)) == AfterCall(n, SendAttestEscrow, resp);
    assert n.inFlight + multiset{} == n.inFlight;
  }

  /** A restart of a round under way is only noted. */
  lemma RestartNoted(m: Machine, resp: Response)
    requires Enabled(m, Deliver(EventRestart, resp)) && m.state != StateNone && m.state != StateComplete
    ensures Step(m, Deliver(EventRestart, resp)) == Exchange(m, EventRestart, multiset{}).(restartPending := true)
  {
    assert React(EventRestart, m.state, m.restartPending) == NoteRestart;
    assert m.inFlight - multiset{EventRestart} + multiset{} == m.inFlight - multiset{EventRestart};
  }

  /** Escrow data that nobody waits for is dropped. */
  lemma EscrowDropped(m: Machine, resp: Response)
    requires Enabled(m, Deliver(EventInternalEscrowRecvd, resp)) && m.state != StateInternalEscrowWait
    ensures Step(m, Deliver(EventInternalEscrowRecvd, resp)) == Exchange(m, EventInternalEscrowRecvd, multiset{})
  {
    assert m.inFlight - multiset{EventInternalEscrowRecvd} + multiset{} ==
           m.inFlight - multiset{EventInternalEscrowRecvd};
  }

  /** The states that expect an event. */
  predicate Expects(state: AttestState, e: Event) {
    match e
    case EventRestart => true
    case EventInternalEscrowRecvd => true
    case EventInitialize => state == StateNone
    case EventNonceRecvd => state == StateNonceWait
    case EventInternalQuoteRecvd => state == StateInternalQuoteWait
    case EventRetryTimerExpiry => state !in {StateNone, StateInternalEscrowWait, StateComplete}
    case EventAttestEscrowRecorded => state == StateAttestEscrowWait
    case EventNoEscrow => state == StateAttestEscrowWait
    case EventAttestEscrowFailed => state == StateAttestEscrowWait
    case _ => state == StateAttestWait
  }

  lemma FatalExactly(e: Event, state: AttestState, restartPending: bool)
    ensures React(e, state, restartPending) == Fatal <==> !Expects(state, e)
  {
  }

  /** The machine dies of an event its state does not expect, and of nothing else. */
  lemma DiesExactly(m: Machine, c: Choice)
    requires Enabled(m, c)
    ensures !Step(m, c).alive <==> c.Deliver? && !Expects(m.state, c.event)
  {
    if c.Deliver? {
      FatalExactly(c.event, m.state, m.restartPending);
      PerformState(m.(inFlight := m.inFlight - multiset{c.event}), React(c.event, m.state, m.restartPending), c.resp);
    }
  }
}
