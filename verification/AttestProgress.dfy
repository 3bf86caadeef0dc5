/**
 How fast the attestation machine reaches StateComplete: a bound on its dispatches, attained.
 */
module AttestProgress {
  import opened AttestMachine
  import opened AttestSafety

  /** The errors each call recovers from by itself; the others leave the machine waiting. */
  predicate Recoverable(call: Call, resp: Response) {
    match call
    case SendNonceRequest => resp == ErrControllerReqFailed
    case SendInternalQuoteRequest => resp == ErrTpmAgentUnavailable
    case SendAttestQuote =>
      resp == ErrControllerReqFailed || resp == ErrNonceMismatch || resp == ErrQuoteMismatch || resp == ErrNoCertYet
    case SendAttestEscrow =>
      resp == ErrControllerReqFailed || resp == ErrNoEscrowData || resp == ErrITokenMismatch
  }

  function B(b: bool): nat { if b then 1 else 0 }

  /** Did this choice make a call that failed? */
  predicate Fails(m: Machine, c: Choice) {
    c.Deliver? && React(c.event, m.state, m.restartPending).MakeCall? && c.resp != Ok
  }

  /** An event dispatched by a row of the table other than the wildcard one. */
  predicate Counts(m: Machine, c: Choice) {
    c.Deliver? && React(c.event, m.state, m.restartPending) != Ignore
  }

  predicate Restarts(c: Choice) {
    c.Deliver? && c.event == EventRestart
  }

  function Dispatches(m: Machine, s: seq<Choice>): nat
    requires Legal(m, s)
  {
    if s == [] then 0 else Dispatches(m, s[..|s| - 1]) + B(Counts(Run(m, s[..|s| - 1]), s[|s| - 1]))
  }

  function Failures(m: Machine, s: seq<Choice>): nat
    requires Legal(m, s)
  {
    if s == [] then 0 else Failures(m, s[..|s| - 1]) + B(Fails(Run(m, s[..|s| - 1]), s[|s| - 1]))
  }

  function RestartCount(s: seq<Choice>): nat {
    if s == [] then 0 else RestartCount(s[..|s| - 1]) + B(Restarts(s[|s| - 1]))
  }

  /** Every failed call failed in a way the machine recovers from. */
  predicate Forgiving(m: Machine, s: seq<Choice>)
    requires Legal(m, s)
  {
    s == [] ||
    (&& Forgiving(m, s[..|s| - 1])
     && var n := Run(m, s[..|s| - 1]);
        Fails(n, s[|s| - 1]) ==>
          Recoverable(React(s[|s| - 1].event, n.state, n.restartPending).call, s[|s| - 1].resp))
  }

  /** The run is complete at the end of some dispatch. */
  predicate Completes(m: Machine, s: seq<Choice>)
    requires Legal(m, s)
  {
    Run(m, s).state == StateComplete || (s != [] && Completes(m, s[..|s| - 1]))
  }

  /** Dispatches still needed if nothing fails and no restart is asked for. */
  function Rank(state: AttestState, d: Driver, restartPending: bool): nat {
    var again := if restartPending then 6 else 0;
    match state
    case StateNone => 5 + again
    case StateNonceWait => (if d == Self(EventNonceRecvd) then 4 else 6) + again
    case StateInternalQuoteWait => (if d == Quote || d == Self(EventInternalQuoteRecvd) then 3 else 4) + again
    case StateAttestWait =>
      if d == Self(EventAttestSuccessful) then 2 + again
      else if d == Timer || d == Self(EventRetryTimerExpiry) then 3 + again
      else 7
    case StateAttestEscrowWait =>
      if d == Self(EventAttestEscrowRecorded) then 1 + again
      else if d == Timer || d == Self(EventRetryTimerExpiry) then 2 + again
      else if d == Self(EventNoEscrow) then 3 + again
      else 7
    case StateInternalEscrowWait => 2 + again
    case StateRestartWait => 6
    case StateComplete => 0
  }

  /** Only escrow data can be awaited without a driver. */
  predicate Moving(state: AttestState, d: Driver) {
    d == NoDriver ==> state == StateInternalEscrowWait || state == StateComplete
  }

  /** What dispatching `e` costs against the rank: at most six extra for a failure, seven for a restart. */
  predicate Pays(state: AttestState, restartPending: bool, e: Event, resp: Response, d: Driver, retryTime: nat) {
    var r := React(e, state, restartPending);
    var d' := if r.NoteRestart? || r.Ignore? then d else DriverAfter(r, resp, retryTime);
    var flag' := if r.StartOver? then !r.clearRestart && restartPending else restartPending || r.NoteRestart?;
    && Moving(StateAfter(state, r), d')
    && B(r != Ignore) + Rank(StateAfter(state, r), d', flag') <=
       Rank(state, d, restartPending) + 6 * B(r.MakeCall? && resp != Ok) + 7 * B(e == EventRestart)
  }

  lemma SelfEventPays(state: AttestState, restartPending: bool, e: Event, resp: Response, retryTime: nat)
    requires IsSelf(e) && Fits(state, Self(e)) && retryTime != 0
    requires var r := React(e, state, restartPending);
             r.MakeCall? && resp != Ok ==> Recoverable(r.call, resp)
    ensures Pays(state, restartPending, e, resp, Self(e), retryTime)
  {
    if e == EventRetryTimerExpiry {
      RetryPays(state, restartPending, resp, retryTime);
    } else {
      OwnEventPays(state, restartPending, e, resp, retryTime);
    }
  }

  lemma RetryPays(state: AttestState, restartPending: bool, resp: Response, retryTime: nat)
    requires Fits(state, Self(EventRetryTimerExpiry)) && retryTime != 0
    requires var r := React(EventRetryTimerExpiry, state, restartPending);
             r.MakeCall? && resp != Ok ==> Recoverable(r.call, resp)
    ensures Pays(state, restartPending, EventRetryTimerExpiry, resp, Self(EventRetryTimerExpiry), retryTime)
  {
  }

  lemma OwnEventPays(state: AttestState, restartPending: bool, e: Event, resp: Response, retryTime: nat)
    requires IsSelf(e) && e != EventRetryTimerExpiry && Fits(state, Self(e)) && retryTime != 0
    requires var r := React(e, state, restartPending);
             r.MakeCall? && resp != Ok ==> Recoverable(r.call, resp)
    ensures Pays(state, restartPending, e, resp, Self(e), retryTime)
  {
  }

  lemma OutsideEventPays(state: AttestState, restartPending: bool, e: Event, resp: Response, d: Driver, retryTime: nat)
    requires !IsSelf(e) && Fits(state, d) && Moving(state, d) && retryTime != 0
    requires !(e == EventRestart && state == StateNone) && state != StateComplete
    requires var r := React(e, state, restartPending);
             r.MakeCall? && resp != Ok ==> Recoverable(r.call, resp)
    ensures Pays(state, restartPending, e, resp, d, retryTime)
  {
    if state == StateInternalEscrowWait && e == EventInternalEscrowRecvd {
      EscrowDataPays(restartPending, resp, d, retryTime);
    } else {
      QuietReactions(e, state, restartPending);
      QuietEventPays(state, restartPending, e, resp, d, retryTime);
    }
  }

  lemma QuietReactions(e: Event, state: AttestState, restartPending: bool)
    requires !IsSelf(e) && !(e == EventRestart && (state == StateNone || state == StateComplete))
    requires !(e == EventInternalEscrowRecvd && state == StateInternalEscrowWait)
    ensures React(e, state, restartPending) == if e == EventRestart then NoteRestart else Ignore
  {
  }

  lemma FlagCosts(state: AttestState, d: Driver, restartPending: bool)
    ensures Rank(state, d, true) <= Rank(state, d, restartPending) + 6
  {
  }

  lemma QuietEventPays(state: AttestState, restartPending: bool, e: Event, resp: Response, d: Driver, retryTime: nat)
    requires Moving(state, d) && React(e, state, restartPending) == if e == EventRestart then NoteRestart else Ignore
    ensures Pays(state, restartPending, e, resp, d, retryTime)
  {
    FlagCosts(state, d, restartPending);
  }

  lemma EscrowDataPays(restartPending: bool, resp: Response, d: Driver, retryTime: nat)
    requires retryTime != 0 && (resp != Ok ==> Recoverable(SendAttestEscrow, resp))
    ensures Pays(StateInternalEscrowWait, restartPending, EventInternalEscrowRecvd, resp, d, retryTime)
  {
  }

  lemma StepPays(m: Machine, c: Choice, d: Driver)
    requires Enabled(m, c) && !RestartsInNone(m, c) && m.retryTime != 0 && m.state != StateComplete
    requires DrivenBy(m, d) && Fits(m.state, d) && Moving(m.state, d)
    requires Fails(m, c) ==> Recoverable(React(c.event, m.state, m.restartPending).call, c.resp)
    ensures Moving(Step(m, c).state, NextDriver(m, c, d)) && Step(m, c).retryTime == m.retryTime
    ensures B(Counts(m, c)) + Rank(Step(m, c).state, NextDriver(m, c, d), Step(m, c).restartPending) <=
            Rank(m.state, d, m.restartPending) + 6 * B(Fails(m, c)) + 7 * B(Restarts(c))
  {
    if c.Deliver? {
      var n, r := m.(inFlight := m.inFlight - multiset{c.event}), React(c.event, m.state, m.restartPending);
      assert IsSelf(c.event) ==> d == Self(c.event);
      if IsSelf(c.event) {
        SelfEventPays(m.state, m.restartPending, c.event, c.resp, m.retryTime);
      } else {
        OutsideEventPays(m.state, m.restartPending, c.event, c.resp, d, m.retryTime);
      }
      PerformState(n, r, c.resp);
      PerformFlag(n, r, c.resp);
    }
  }

  lemma {:induction false} RunPays(retryTime: nat, s: seq<Choice>) returns (d: Driver)
    requires retryTime != 0 && Legal(Started(retryTime), s) && Calm(Started(retryTime), s)
    requires Forgiving(Started(retryTime), s)
    requires s != [] ==> !Completes(Started(retryTime), s[..|s| - 1])
    ensures var start, m := Started(retryTime), Run(Started(retryTime), s);
            && DrivenBy(m, d) && Fits(m.state, d) && Moving(m.state, d) && m.retryTime == retryTime
            && Dispatches(start, s) + Rank(m.state, d, m.restartPending) <=
               5 + 6 * Failures(start, s) + 7 * RestartCount(s)
  {
    if s == [] {
      d := Self(EventInitialize);
    } else {
      var before := RunPays(retryTime, s[..|s| - 1]);
      var m, c := Run(Started(retryTime), s[..|s| - 1]), s[|s| - 1];
      StepPays(m, c, before);
      StepKeepsSingleDriver(m, c, before);
      d := NextDriver(m, c, before);
    }
  }

  /**
   Bounded progress: a run that has not completed yet has made fewer than
   5 + 6 * failures + 7 * restarts dispatches, and something is still about to happen to it
   unless it waits for escrow data.
   */
  lemma BoundedProgress(retryTime: nat, s: seq<Choice>)
    requires retryTime != 0 && Legal(Started(retryTime), s) && Calm(Started(retryTime), s)
    requires Forgiving(Started(retryTime), s) && !Completes(Started(retryTime), s)
    ensures Dispatches(Started(retryTime), s) < 5 + 6 * Failures(Started(retryTime), s) + 7 * RestartCount(s)
    ensures var m := Run(Started(retryTime), s);
            || m.state == StateInternalEscrowWait
            || m.timerArmed || m.quotesOwed > 0 || exists e :: IsSelf(e) && e in m.inFlight
  {
    var d := RunPays(retryTime, s);
    var m := Run(Started(retryTime), s);
    DriverShows(m, d);
    RankPositive(m.state, d, m.restartPending);
  }

  lemma RankPositive(state: AttestState, d: Driver, restartPending: bool)
    requires state != StateComplete
    ensures Rank(state, d, restartPending) > 0
  {
  }

  lemma DriverShows(m: Machine, d: Driver)
    requires DrivenBy(m, d) && Fits(m.state, d) && Moving(m.state, d) && m.state != StateComplete
    ensures || m.state == StateInternalEscrowWait
            || m.timerArmed || m.quotesOwed > 0 || exists e :: IsSelf(e) && e in m.inFlight
  {
    if d.Self? {
      assert m.inFlight[d.event] == 1;
    }
  }

  // ---------------------------------------------------------------------------
  // The bound is attained

  /** A calm, forgiving run without completion, with its counts. */
  ghost predicate Ledger(retryTime: nat, s: seq<Choice>, m: Machine, dispatches: nat, failures: nat, restarts: nat) {
    var start := Started(retryTime);
    && Legal(start, s) && Run(start, s) == m
    && Calm(start, s) && Forgiving(start, s) && !Completes(start, s)
    && Dispatches(start, s) == dispatches && Failures(start, s) == failures && RestartCount(s) == restarts
  }

  /** A harmless step and what it adds to the counts. */
  predicate Arrow(m: Machine, c: Choice, m': Machine, dispatches: nat, failures: nat, restarts: nat) {
    && Enabled(m, c) && !RestartsInNone(m, c)
    && Step(m, c) == m' && m'.state != StateComplete
    && B(Counts(m, c)) == dispatches && B(Fails(m, c)) == failures && B(Restarts(c)) == restarts
    && (Fails(m, c) ==> Recoverable(React(c.event, m.state, m.restartPending).call, c.resp))
  }

  lemma Extend(retryTime: nat, s: seq<Choice>, m: Machine, n: nat, f: nat, r: nat,
               c: Choice, m': Machine, dn: nat, df: nat, dr: nat) returns (s': seq<Choice>)
    requires Ledger(retryTime, s, m, n, f, r) && Arrow(m, c, m', dn, df, dr)
    ensures s' == s + [c] && Ledger(retryTime, s', m', n + dn, f + df, r + dr)
  {
    s' := s + [c];
    assert s'[..|s|] == s;
  }

  // The way round: the machine at each stop, and the arrows between the stops.

  function NonceHeld(retryTime: nat): Machine {
    Machine(StateNonceWait, false, false, multiset{EventNonceRecvd}, 0, retryTime, true)
  }

  function AskingForQuote(retryTime: nat): Machine {
    Machine(StateInternalQuoteWait, false, false, multiset{}, 1, retryTime, true)
  }

  function QuoteHeld(retryTime: nat): Machine {
    Machine(StateInternalQuoteWait, false, false, multiset{EventInternalQuoteRecvd}, 0, retryTime, true)
  }

  /** Quote just accepted by the controller. */
  function Accepted(retryTime: nat): Machine {
    Machine(StateAttestWait, false, false, multiset{EventAttestSuccessful}, 0, retryTime, true)
  }

  function Answered(retryTime: nat, flag: bool, e: Event): Machine {
    Machine(StateAttestEscrowWait, flag, false, multiset{e}, 0, retryTime, true)
  }

  function Resting(retryTime: nat, flag: bool): Machine {
    Machine(StateRestartWait, flag, true, multiset{}, 0, retryTime, true)
  }

  function Awake(retryTime: nat, flag: bool): Machine {
    Machine(StateRestartWait, flag, false, multiset{EventRetryTimerExpiry}, 0, retryTime, true)
  }

  lemma ArrowNonce(rt: nat)
    ensures Arrow(Started(rt), Deliver(EventInitialize, Ok), NonceHeld(rt), 1, 0, 0)
  {
  }

  lemma ArrowAsk(rt: nat)
    ensures Arrow(NonceHeld(rt), Deliver(EventNonceRecvd, Ok), AskingForQuote(rt), 1, 0, 0)
  {
  }

  lemma ArrowQuote(rt: nat)
    ensures Arrow(AskingForQuote(rt), QuoteArrives, QuoteHeld(rt), 0, 0, 0)
  {
  }

  lemma ArrowSend(rt: nat)
    ensures Arrow(QuoteHeld(rt), Deliver(EventInternalQuoteRecvd, Ok), Accepted(rt), 1, 0, 0)
  {
  }

  lemma ArrowEscrow(rt: nat, flag: bool)
    ensures Arrow(Accepted(rt).(restartPending := flag), Deliver(EventAttestSuccessful, Ok),
                  Answered(rt, flag, EventAttestEscrowRecorded), 1, 0, 0)
  {
  }

  lemma ArrowMismatch(rt: nat)
    ensures Arrow(Accepted(rt), Deliver(EventAttestSuccessful, ErrITokenMismatch),
                  Answered(rt, false, EventAttestEscrowFailed), 1, 1, 0)
  {
  }

  lemma ArrowRest(rt: nat, flag: bool)
    requires rt != 0
    ensures var e := if flag then EventAttestEscrowRecorded else EventAttestEscrowFailed;
            Arrow(Answered(rt, flag, e), Deliver(e, Ok), Resting(rt, flag), 1, 0, 0)
  {
  }

  lemma ArrowTimer(rt: nat, flag: bool)
    ensures Arrow(Resting(rt, flag), TimerFires, Awake(rt, flag), 0, 0, 0)
  {
  }

  lemma ArrowOver(rt: nat, flag: bool)
    ensures Arrow(Awake(rt, flag), Deliver(EventRetryTimerExpiry, Ok), Started(rt), 1, 0, 0)
  {
  }

  lemma ArrowRequest(rt: nat)
    ensures Arrow(Accepted(rt), RestartRequested,
                  Accepted(rt).(inFlight := multiset{EventAttestSuccessful, EventRestart}), 0, 0, 0)
  {
  }

  lemma ArrowRestart(rt: nat)
    ensures Arrow(Accepted(rt).(inFlight := multiset{EventAttestSuccessful, EventRestart}),
                  Deliver(EventRestart, Ok), Accepted(rt).(restartPending := true), 1, 0, 1)
  {
    assert multiset{EventAttestSuccessful, EventRestart} - multiset{EventRestart} == multiset{EventAttestSuccessful};
  }

  lemma FromStart(rt: nat, s: seq<Choice>, n: nat, f: nat, r: nat) returns (s': seq<Choice>)
    requires Ledger(rt, s, Started(rt), n, f, r)
    ensures Ledger(rt, s', Accepted(rt), n + 3, f, r)
  {
    ArrowNonce(rt);
    s' := Extend(rt, s, Started(rt), n, f, r, Deliver(EventInitialize, Ok), NonceHeld(rt), 1, 0, 0);
    ArrowAsk(rt);
    s' := Extend(rt, s', NonceHeld(rt), n + 1, f, r, Deliver(EventNonceRecvd, Ok), AskingForQuote(rt), 1, 0, 0);
    s' := FromAsking(rt, s', n + 2, f, r);
  }

  lemma FromAsking(rt: nat, s: seq<Choice>, n: nat, f: nat, r: nat) returns (s': seq<Choice>)
    requires Ledger(rt, s, AskingForQuote(rt), n, f, r)
    ensures Ledger(rt, s', Accepted(rt), n + 1, f, r)
  {
    ArrowQuote(rt);
    s' := Extend(rt, s, AskingForQuote(rt), n, f, r, QuoteArrives, QuoteHeld(rt), 0, 0, 0);
    ArrowSend(rt);
    s' := Extend(rt, s', QuoteHeld(rt), n, f, r, Deliver(EventInternalQuoteRecvd, Ok), Accepted(rt), 1, 0, 0);
  }

  lemma FromAnswer(rt: nat, s: seq<Choice>, flag: bool, n: nat, f: nat, r: nat) returns (s': seq<Choice>)
    requires rt != 0
    requires Ledger(rt, s, Answered(rt, flag, if flag then EventAttestEscrowRecorded else EventAttestEscrowFailed), n, f, r)
    ensures Ledger(rt, s', Accepted(rt), n + 5, f, r)
  {
    var e := if flag then EventAttestEscrowRecorded else EventAttestEscrowFailed;
    ArrowRest(rt, flag);
    s' := Extend(rt, s, Answered(rt, flag, e), n, f, r, Deliver(e, Ok), Resting(rt, flag), 1, 0, 0);
    ArrowTimer(rt, flag);
    s' := Extend(rt, s', Resting(rt, flag), n + 1, f, r, TimerFires, Awake(rt, flag), 0, 0, 0);
    ArrowOver(rt, flag);
    s' := Extend(rt, s', Awake(rt, flag), n + 1, f, r, Deliver(EventRetryTimerExpiry, Ok), Started(rt), 1, 0, 0);
    s' := FromStart(rt, s', n + 2, f, r);
  }

  /** A failed escrow costs six dispatches. */
  lemma FailureRound(rt: nat, s: seq<Choice>, n: nat, f: nat, r: nat) returns (s': seq<Choice>)
    requires rt != 0 && Ledger(rt, s, Accepted(rt), n, f, r)
    ensures Ledger(rt, s', Accepted(rt), n + 6, f + 1, r)
  {
    ArrowMismatch(rt);
    s' := Extend(rt, s, Accepted(rt), n, f, r, Deliver(EventAttestSuccessful, ErrITokenMismatch),
                 Answered(rt, false, EventAttestEscrowFailed), 1, 1, 0);
    s' := FromAnswer(rt, s', false, n + 1, f + 1, r);
  }

  /** A restart asked for in the middle of a round costs seven. */
  lemma RestartRound(rt: nat, s: seq<Choice>, n: nat, f: nat, r: nat) returns (s': seq<Choice>)
    requires rt != 0 && Ledger(rt, s, Accepted(rt), n, f, r)
    ensures Ledger(rt, s', Accepted(rt), n + 7, f, r + 1)
  {
    var both := Accepted(rt).(inFlight := multiset{EventAttestSuccessful, EventRestart});
    ArrowRequest(rt);
    s' := Extend(rt, s, Accepted(rt), n, f, r, RestartRequested, both, 0, 0, 0);
    ArrowRestart(rt);
    s' := Extend(rt, s', both, n, f, r, Deliver(EventRestart, Ok), Accepted(rt).(restartPending := true), 1, 0, 1);
    ArrowEscrow(rt, true);
    s' := Extend(rt, s', Accepted(rt).(restartPending := true), n + 1, f, r + 1, Deliver(EventAttestSuccessful, Ok),
                 Answered(rt, true, EventAttestEscrowRecorded), 1, 0, 0);
    s' := FromAnswer(rt, s', true, n + 2, f, r + 1);
  }

  lemma {:induction false} Rounds(rt: nat, f: nat, r: nat) returns (s: seq<Choice>)
    requires rt != 0
    ensures Ledger(rt, s, Accepted(rt), 3 + 6 * f + 7 * r, f, r)
  {
    if f > 0 {
      s := Rounds(rt, f - 1, r);
      s := FailureRound(rt, s, 3 + 6 * (f - 1) + 7 * r, f - 1, r);
    } else if r > 0 {
      s := Rounds(rt, f, r - 1);
      s := RestartRound(rt, s, 3 + 7 * (r - 1), f, r - 1);
    } else {
      s := FromStart(rt, [], 0, 0, 0);
    }
  }

  /** For every number of failures and restarts some run needs every dispatch the bound allows. */
  lemma ProgressBoundIsTight(retryTime: nat, f: nat, r: nat) returns (s: seq<Choice>)
    requires retryTime != 0
    ensures Legal(Started(retryTime), s) && Calm(Started(retryTime), s) && Forgiving(Started(retryTime), s)
    ensures !Completes(Started(retryTime), s) && Failures(Started(retryTime), s) == f && RestartCount(s) == r
    ensures Dispatches(Started(retryTime), s) == 4 + 6 * f + 7 * r
  {
    s := Rounds(retryTime, f, r);
    ArrowEscrow(retryTime, false);
    s := Extend(retryTime, s, Accepted(retryTime), 3 + 6 * f + 7 * r, f, r, Deliver(EventAttestSuccessful, Ok),
                Answered(retryTime, false, EventAttestEscrowRecorded), 1, 0, 0);
  }

  /** And that run then completes, with one dispatch more than it has made so far. */
  lemma CompletesAtTheBound(retryTime: nat, f: nat, r: nat) returns (s: seq<Choice>)
    requires retryTime != 0
    ensures Legal(Started(retryTime), s) && Calm(Started(retryTime), s) && Forgiving(Started(retryTime), s)
    ensures Run(Started(retryTime), s).state == StateComplete
    ensures Dispatches(Started(retryTime), s) == 5 + 6 * f + 7 * r && Failures(Started(retryTime), s) == f && RestartCount(s) == r
  {
    var t := Rounds(retryTime, f, r);
    ArrowEscrow(retryTime, false);
    var m := Answered(retryTime, false, EventAttestEscrowRecorded);
    t := Extend(retryTime, t, Accepted(retryTime), 3 + 6 * f + 7 * r, f, r, Deliver(EventAttestSuccessful, Ok), m, 1, 0, 0);
    s := Finishes(retryTime, t, m, 4 + 6 * f + 7 * r, f, r);
  }

  lemma Finishes(rt: nat, s: seq<Choice>, m: Machine, n: nat, f: nat, r: nat) returns (s': seq<Choice>)
    requires Ledger(rt, s, m, n, f, r) && m == Answered(rt, false, EventAttestEscrowRecorded)
    ensures Legal(Started(rt), s') && Calm(Started(rt), s') && Forgiving(Started(rt), s')
    ensures Run(Started(rt), s').state == StateComplete
    ensures Dispatches(Started(rt), s') == n + 1 && Failures(Started(rt), s') == f && RestartCount(s') == r
  {
    var c := Deliver(EventAttestEscrowRecorded, Ok);
    RecordedFinishes(m);
    s' := s + [c];
    assert s'[..|s|] == s;
  }

  lemma RecordedFinishes(m: Machine)
    requires m.alive && m.state == StateAttestEscrowWait && !m.restartPending && EventAttestEscrowRecorded in m.inFlight
    ensures var c := Deliver(EventAttestEscrowRecorded, Ok);
            && Enabled(m, c) && Step(m, c).state == StateComplete && !RestartsInNone(m, c)
            && Counts(m, c) && !Fails(m, c) && !Restarts(c)
  {
  }
}
