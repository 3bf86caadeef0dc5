/**
 What holds in every state the attestation machine can reach: one driver at a time, no
 fatal dispatch, the handshake in order, and no restart request forgotten.
 */
module AttestSafety {
  import opened AttestMachine

  // ---------------------------------------------------------------------------
  // One driver at a time

  /** What will next move the machine by itself. */
  datatype Driver = NoDriver | Self(event: Event) | Timer | Quote

  /** Restarts and escrow data come from outside; all other events the machine brings upon itself. */
  predicate IsSelf(e: Event) {
    e != EventRestart && e != EventInternalEscrowRecvd
  }

  /** `d` is all there is to drive `m`: one self event, the timer, one owed quote, or nothing. */
  predicate DrivenBy(m: Machine, d: Driver) {
    && (forall e | IsSelf(e) :: m.inFlight[e] == if d == Self(e) then 1 else 0)
    && m.timerArmed == d.Timer?
    && m.quotesOwed == (if d.Quote? then 1 else 0)
  }

  /** The drivers that make sense in a state. */
  predicate Fits(state: AttestState, d: Driver) {
    match d
    case NoDriver => state != StateNone
    case Timer => state in {StateNonceWait, StateInternalQuoteWait, StateAttestWait, StateAttestEscrowWait, StateRestartWait}
    case Quote => state == StateInternalQuoteWait
    case Self(e) => IsSelf(e) && React(e, state, false) != Fatal
  }

  ghost predicate SingleDriver(m: Machine) {
    m.alive && exists d :: DrivenBy(m, d) && Fits(m.state, d)
  }

  /** The one delivery the environment must avoid. */
  predicate RestartsInNone(m: Machine, c: Choice) {
    c.Deliver? && c.event == EventRestart && m.state == StateNone
  }

  predicate Calm(m: Machine, s: seq<Choice>)
    requires Legal(m, s)
  {
    s == [] || (Calm(m, s[..|s| - 1]) && !RestartsInNone(Run(m, s[..|s| - 1]), s[|s| - 1]))
  }

  /** The driver after a call has returned. */
  function CallDriver(call: Call, resp: Response, retryTime: nat): Driver {
    if call == SendInternalQuoteRequest && resp == Ok then Quote
    else
      match FollowupOf(call, resp)
      case WaitForOthers => NoDriver
      case PostSelf(e) => Self(e)
      case StartTimer => if retryTime != 0 then Timer else NoDriver
  }

  /** The driver after a reaction, which uses up the self event it reacts to. */
  function DriverAfter(r: Reaction, resp: Response, retryTime: nat): Driver {
    match r
    case MakeCall(call) => CallDriver(call, resp, retryTime)
    case StartOver(_) => Self(EventInitialize)
    case WaitBeforeRestart => if retryTime != 0 then Timer else NoDriver
    case _ => NoDriver
  }

  lemma CallFits(call: Call, resp: Response, retryTime: nat)
    ensures Fits(WaitState(call), CallDriver(call, resp, retryTime))
  {
  }

  lemma CallKeepsDriven(m: Machine, call: Call, resp: Response)
    requires DrivenBy(m, NoDriver)
    ensures DrivenBy(AfterCall(m, call, resp), CallDriver(call, resp, m.retryTime))
  {
  }

  lemma PerformKeepsDriven(m: Machine, r: Reaction, resp: Response)
    requires DrivenBy(m, NoDriver)
    ensures DrivenBy(Perform(m, r, resp), DriverAfter(r, resp, m.retryTime))
  {
    if r.MakeCall? {
      CallKeepsDriven(m, r.call, resp);
    }
  }

  /** The state a reaction leads to. */
  function StateAfter(state: AttestState, r: Reaction): AttestState {
    match r
    case MakeCall(call) => WaitState(call)
    case StartOver(_) => StateNone
    case WaitBeforeRestart => StateRestartWait
    case Finish => StateComplete
    case AwaitEscrow => StateInternalEscrowWait
    case _ => state
  }

  lemma PerformState(m: Machine, r: Reaction, resp: Response)
    ensures Perform(m, r, resp).state == StateAfter(m.state, r)
    ensures Perform(m, r, resp).alive == (m.alive && r != Fatal)
  {
  }

  lemma PerformFlag(m: Machine, r: Reaction, resp: Response)
    ensures Perform(m, r, resp).restartPending ==
            if r.StartOver? then !r.clearRestart && m.restartPending else m.restartPending || r.NoteRestart?
    ensures Perform(m, r, resp).retryTime == m.retryTime
  {
  }

  lemma ReactionFits(state: AttestState, r: Reaction, resp: Response, retryTime: nat)
    requires r.MakeCall? || r.StartOver? || r.WaitBeforeRestart? || r.Finish? || r.AwaitEscrow?
    ensures Fits(StateAfter(state, r), DriverAfter(r, resp, retryTime))
  {
    if r.MakeCall? {
      CallFits(r.call, resp, retryTime);
    }
  }

  /** A self event never meets one of the reactions meant for outside events. */
  lemma SelfReactions(e: Event, state: AttestState, restartPending: bool)
    requires IsSelf(e) && React(e, state, false) != Fatal
    ensures var r := React(e, state, restartPending);
            r.MakeCall? || r.StartOver? || r.WaitBeforeRestart? || r.Finish? || r.AwaitEscrow?
  {
  }

  lemma OutsideReactions(e: Event, state: AttestState, restartPending: bool)
    requires !IsSelf(e) && !(e == EventRestart && state == StateNone)
    ensures var r := React(e, state, restartPending);
            if state == StateInternalEscrowWait && e == EventInternalEscrowRecvd then r == MakeCall(SendAttestEscrow)
            else if state == StateComplete && e == EventRestart then r == WaitBeforeRestart
            else r == NoteRestart || r == Ignore
  {
  }

  /** The driver after a step, as a function of the driver before it. */
  function NextDriver(m: Machine, c: Choice, d: Driver): Driver {
    match c
    case Deliver(e, resp) =>
      var r := React(e, m.state, m.restartPending);
      if r.NoteRestart? || r.Ignore? then d else DriverAfter(r, resp, m.retryTime)
    case TimerFires => Self(EventRetryTimerExpiry)
    case QuoteArrives => Self(EventInternalQuoteRecvd)
    case _ => d
  }

  /** Taking an event off the channel either uses up the driver or leaves it alone. */
  lemma ReactionUsesDriver(m: Machine, e: Event, d: Driver)
    requires e in m.inFlight && !(e == EventRestart && m.state == StateNone)
    requires DrivenBy(m, d) && Fits(m.state, d)
    ensures var r := React(e, m.state, m.restartPending);
            && r != Fatal
            && DrivenBy(m.(inFlight := m.inFlight - multiset{e}), if r.NoteRestart? || r.Ignore? then d else NoDriver)
  {
    if IsSelf(e) {
      assert d == Self(e);
      SelfReactions(e, m.state, m.restartPending);
    } else {
      OutsideReactions(e, m.state, m.restartPending);
    }
  }

  lemma PerformKeepsSingleDriver(m: Machine, r: Reaction, resp: Response, d: Driver)
    requires m.alive && r != Fatal && Fits(m.state, d)
    requires DrivenBy(m, if r.NoteRestart? || r.Ignore? then d else NoDriver)
    ensures var d' := if r.NoteRestart? || r.Ignore? then d else DriverAfter(r, resp, m.retryTime);
            Perform(m, r, resp).alive && DrivenBy(Perform(m, r, resp), d') && Fits(Perform(m, r, resp).state, d')
  {
    PerformState(m, r, resp);
    if !r.NoteRestart? && !r.Ignore? {
      PerformKeepsDriven(m, r, resp);
      ReactionFits(m.state, r, resp, m.retryTime);
    }
  }

  lemma StepKeepsSingleDriver(m: Machine, c: Choice, d: Driver)
    requires Enabled(m, c) && !RestartsInNone(m, c)
    requires DrivenBy(m, d) && Fits(m.state, d)
    ensures Step(m, c).alive && DrivenBy(Step(m, c), NextDriver(m, c, d)) && Fits(Step(m, c).state, NextDriver(m, c, d))
  {
    if c.Deliver? {
      ReactionUsesDriver(m, c.event, d);
      PerformKeepsSingleDriver(m.(inFlight := m.inFlight - multiset{c.event}),
                               React(c.event, m.state, m.restartPending), c.resp, d);
    } else {
      SendKeepsSingleDriver(m, c, d);
    }
  }

  lemma OutsideKeepsDriven(m: Machine, d: Driver, e: Event)
    requires DrivenBy(m, d) && !IsSelf(e)
    ensures DrivenBy(Post(m, e), d)
  {
  }

  lemma TimerBecomesEvent(m: Machine)
    requires DrivenBy(m, Timer)
    ensures DrivenBy(Post(m.(timerArmed := false), EventRetryTimerExpiry), Self(EventRetryTimerExpiry))
  {
  }

  lemma QuoteBecomesEvent(m: Machine)
    requires DrivenBy(m, Quote)
    ensures DrivenBy(Post(m.(quotesOwed := m.quotesOwed - 1), EventInternalQuoteRecvd), Self(EventInternalQuoteRecvd))
  {
  }

  lemma SendKeepsSingleDriver(m: Machine, c: Choice, d: Driver)
    requires Enabled(m, c) && !c.Deliver? && DrivenBy(m, d) && Fits(m.state, d)
    ensures Step(m, c).alive && DrivenBy(Step(m, c), NextDriver(m, c, d)) && Fits(Step(m, c).state, NextDriver(m, c, d))
  {
    match c
    case TimerFires => TimerBecomesEvent(m);
    case QuoteArrives => QuoteBecomesEvent(m);
    case RestartRequested => OutsideKeepsDriven(m, d, EventRestart);
    case EscrowPublished => OutsideKeepsDriven(m, d, EventInternalEscrowRecvd);
    case WatchdogTick =>
  }

  ghost predicate CrashIsNext(m: Machine) {
    exists c :: Enabled(m, c) && !Step(m, c).alive
  }

  /** Every reachable state has at most one driver, one that fits, and no fatal dispatch can come next. */
  lemma {:induction false} AlwaysOneDriverNeverFatal(retryTime: nat, s: seq<Choice>)
    requires Legal(Started(retryTime), s) && Calm(Started(retryTime), s)
    ensures SingleDriver(Run(Started(retryTime), s))
    ensures !CrashIsNext(Run(Started(retryTime), s))
  {
    if s == [] {
      assert DrivenBy(Started(retryTime), Self(EventInitialize));
    } else {
      AlwaysOneDriverNeverFatal(retryTime, s[..|s| - 1]);
      OneStep(Run(Started(retryTime), s[..|s| - 1]), s[|s| - 1]);
    }
    NoCrash(Run(Started(retryTime), s));
  }

  lemma OneStep(m: Machine, c: Choice)
    requires SingleDriver(m) && Enabled(m, c) && !RestartsInNone(m, c)
    ensures SingleDriver(Step(m, c))
  {
    var d :| DrivenBy(m, d) && Fits(m.state, d);
    StepKeepsSingleDriver(m, c, d);
  }

  lemma NoCrash(m: Machine)
    requires SingleDriver(m)
    ensures !CrashIsNext(m)
  {
    forall c | Enabled(m, c) ensures Step(m, c).alive {
      StepSurvives(m, c);
    }
  }

  lemma StepSurvives(m: Machine, c: Choice)
    requires SingleDriver(m) && Enabled(m, c)
    ensures Step(m, c).alive
  {
    if RestartsInNone(m, c) {
      RestartInNoneSurvives(m, c.resp);
    } else {
      OneStep(m, c);
    }
  }

  lemma RestartInNoneSurvives(m: Machine, resp: Response)
    requires m.alive && m.state == StateNone && EventRestart in m.inFlight
    ensures Step(m, Deliver(EventRestart, resp)).alive
  {
    PerformState(m.(inFlight := m.inFlight - multiset{EventRestart}), MakeCall(SendNonceRequest), resp);
  }

  /**
   The environment condition is exact: of all the steps a calm run can take next, the ones
   that leave a fatal dispatch one delivery away are the restarts delivered in StateNone.
   */
  lemma FatalExactlyAfterRestartInNone(retryTime: nat, s: seq<Choice>, c: Choice)
    requires Legal(Started(retryTime), s) && Calm(Started(retryTime), s)
    requires Enabled(Run(Started(retryTime), s), c)
    ensures CrashIsNext(Step(Run(Started(retryTime), s), c)) <==> RestartsInNone(Run(Started(retryTime), s), c)
  {
    AlwaysOneDriverNeverFatal(retryTime, s);
    var m := Run(Started(retryTime), s);
    if RestartsInNone(m, c) {
      CrashAfterRestart(m, c);
    } else {
      OneStep(m, c);
      NoCrash(Step(m, c));
    }
  }

  lemma CallKeepsInFlight(m: Machine, call: Call, resp: Response, e: Event)
    requires e in m.inFlight
    ensures e in AfterCall(m, call, resp).inFlight
  {
  }

  lemma SecondInitializeCrashes(m: Machine)
    requires m.alive && m.state == StateNonceWait && EventInitialize in m.inFlight
    ensures CrashIsNext(m)
  {
    assert !Step(m, Deliver(EventInitialize, Ok)).alive;
  }

  lemma CrashAfterRestart(m: Machine, c: Choice)
    requires SingleDriver(m) && Enabled(m, c) && RestartsInNone(m, c)
    ensures CrashIsNext(Step(m, c))
  {
    NoneIsInitializing(m);
    RestartInNoneCrashes(m, c.resp);
  }

  lemma NoneIsInitializing(m: Machine)
    requires SingleDriver(m) && m.state == StateNone
    ensures EventInitialize in m.inFlight
  {
    var d :| DrivenBy(m, d) && Fits(m.state, d);
    OnlyInitializeFitsNone(d);
    assert m.inFlight[EventInitialize] == 1;
  }

  lemma OnlyInitializeFitsNone(d: Driver)
    requires Fits(StateNone, d)
    ensures d == Self(EventInitialize)
  {
  }

  lemma RestartInNoneCrashes(m: Machine, resp: Response)
    requires m.alive && m.state == StateNone && EventRestart in m.inFlight && EventInitialize in m.inFlight
    ensures CrashIsNext(Step(m, Deliver(EventRestart, resp)))
  {
    var n := m.(inFlight := m.inFlight - multiset{EventRestart});
    CallKeepsInFlight(n, SendNonceRequest, resp, EventInitialize);
    PerformState(n, MakeCall(SendNonceRequest), resp);
    assert Step(m, Deliver(EventRestart, resp)) == Perform(n, MakeCall(SendNonceRequest), resp);
    SecondInitializeCrashes(Perform(n, MakeCall(SendNonceRequest), resp));
  }

  // ---------------------------------------------------------------------------
  // Waiting for ever

  /** Nothing left to drive a machine that is neither done nor waiting for escrow data. */
  predicate Stranded(m: Machine) {
    && m.alive
    && DrivenBy(m, NoDriver)
    && m.state != StateNone && m.state != StateComplete && m.state != StateInternalEscrowWait
  }

  lemma StepKeepsStranded(m: Machine, c: Choice)
    requires Stranded(m) && Enabled(m, c)
    ensures Stranded(Step(m, c)) && Step(m, c).state == m.state
  {
    if c.Deliver? {
      assert !IsSelf(c.event);
      OutsideReactions(c.event, m.state, m.restartPending);
    }
  }

  /**
   A machine stranded by ErrNoVerifier, by an unknown error or by a zero retry time never
   moves again: in particular a restart does not free it, contrary to the handlers' comments.
   */
  lemma {:induction false} StrandedForEver(m: Machine, s: seq<Choice>)
    requires Stranded(m) && Legal(m, s)
    ensures Stranded(Run(m, s)) && Run(m, s).state == m.state
    decreases |s|
  {
    if s != [] {
      StrandedForEver(m, s[..|s| - 1]);
      StepKeepsStranded(Run(m, s[..|s| - 1]), s[|s| - 1]);
    }
  }

  // ---------------------------------------------------------------------------
  // The handshake

  /** What an observer of the controller and the TPM agent sees. */
  datatype Observation = Called(call: Call, resp: Response) | GotQuote

  function Observe(m: Machine, c: Choice): seq<Observation> {
    if !c.Deliver? then []
    else
      (if c.event == EventInternalQuoteRecvd then [GotQuote] else []) +
      (match React(c.event, m.state, m.restartPending)
       case MakeCall(call) => [Called(call, c.resp)]
       case _ => [])
  }

  /** Everything observed since the machine was last in StateNone. */
  function Round(m: Machine, s: seq<Choice>): seq<Observation>
    requires Legal(m, s)
  {
    if s == [] || Run(m, s).state == StateNone then []
    else Round(m, s[..|s| - 1]) + Observe(Run(m, s[..|s| - 1]), s[|s| - 1])
  }

  predicate AllFailed(os: seq<Observation>, call: Call) {
    forall i | 0 <= i < |os| :: os[i].Called? && os[i].call == call && os[i].resp != Ok
  }

  /**
   A nonce, a quote request that may need repeating, its quote, the quote sent with possible
   repeats, and the escrow data sent with possible repeats: nothing else and in this order.
   */
  ghost predicate IsHandshake(os: seq<Observation>) {
    exists q, a, e ::
      && AllFailed(q, SendInternalQuoteRequest) && AllFailed(a, SendAttestQuote) && AllFailed(e, SendAttestEscrow)
      && os == [Called(SendNonceRequest, Ok)] + q + [Called(SendInternalQuoteRequest, Ok), GotQuote]
               + a + [Called(SendAttestQuote, Ok)] + e + [Called(SendAttestEscrow, Ok)]
  }

  datatype Phase = Idle | HaveNonce | QuoteAsked | HaveQuote | Attested | Escrowed | Broken

  function Advance(p: Phase, o: Observation): Phase {
    match p
    case Idle => if o == Called(SendNonceRequest, Ok) then HaveNonce else Broken
    case HaveNonce =>
      if o == Called(SendInternalQuoteRequest, Ok) then QuoteAsked
      else if o.Called? && o.call == SendInternalQuoteRequest then HaveNonce
      else Broken
    case QuoteAsked => if o == GotQuote then HaveQuote else Broken
    case HaveQuote =>
      if o == Called(SendAttestQuote, Ok) then Attested
      else if o.Called? && o.call == SendAttestQuote then HaveQuote
      else Broken
    case Attested =>
      if o == Called(SendAttestEscrow, Ok) then Escrowed
      else if o.Called? && o.call == SendAttestEscrow then Attested
      else Broken
    case Escrowed => Broken
    case Broken => Broken
  }

  function PhaseOf(os: seq<Observation>): Phase {
    if os == [] then Idle else Advance(PhaseOf(os[..|os| - 1]), os[|os| - 1])
  }

  lemma PhaseOfSnoc(os: seq<Observation>, o: Observation)
    ensures PhaseOf(os + [o]) == Advance(PhaseOf(os), o)
  {
    assert (os + [o])[..|os|] == os;
  }

  predicate PhaseFits(state: AttestState, d: Driver, p: Phase) {
    match state
    case StateNone => p == Idle
    case StateNonceWait => d == Self(EventNonceRecvd) ==> p == HaveNonce
    case StateInternalQuoteWait => p == if d in {Quote, Self(EventInternalQuoteRecvd)} then QuoteAsked else HaveNonce
    case StateAttestWait => p == if d == Self(EventAttestSuccessful) then Attested else HaveQuote
    case StateAttestEscrowWait => p == if d == Self(EventAttestEscrowRecorded) then Escrowed else Attested
    case StateInternalEscrowWait => p == Attested
    case StateComplete => p == Escrowed
    case StateRestartWait => true
  }

  /** The phase and the state move together, whatever the event, its response and the driver. */
  lemma PhaseAdvances(state: AttestState, restartPending: bool, e: Event, resp: Response, d: Driver, p: Phase,
                      retryTime: nat)
    requires Fits(state, d) && PhaseFits(state, d, p) && (IsSelf(e) ==> d == Self(e))
    requires !(e == EventRestart && state == StateNone)
    ensures var r := React(e, state, restartPending);
            var p1 := if e == EventInternalQuoteRecvd then Advance(p, GotQuote) else p;
            var p2 := if r.MakeCall? then Advance(p1, Called(r.call, resp)) else p1;
            var d2 := if r.NoteRestart? || r.Ignore? then d else DriverAfter(r, resp, retryTime);
            StateAfter(state, r) != StateNone ==> PhaseFits(StateAfter(state, r), d2, p2)
  {
    if !IsSelf(e) {
      OutsideReactions(e, state, restartPending);
    }
  }

  /** Observing a choice is advancing by its quote, if it brings one, and then by its call, if it makes one. */
  lemma PhaseObserved(m: Machine, c: Choice, os: seq<Observation>)
    requires c.Deliver?
    ensures var r := React(c.event, m.state, m.restartPending);
            var p1 := if c.event == EventInternalQuoteRecvd then Advance(PhaseOf(os), GotQuote) else PhaseOf(os);
            PhaseOf(os + Observe(m, c)) == if r.MakeCall? then Advance(p1, Called(r.call, c.resp)) else p1
  {
    var r := React(c.event, m.state, m.restartPending);
    var seen := if c.event == EventInternalQuoteRecvd then os + [GotQuote] else os;
    PhaseOfSnoc(os, GotQuote);
    if r.MakeCall? {
      PhaseOfSnoc(seen, Called(r.call, c.resp));
      assert os + Observe(m, c) == seen + [Called(r.call, c.resp)];
    } else {
      assert os + Observe(m, c) == seen;
    }
  }

  lemma StepKeepsPhase(m: Machine, c: Choice, d: Driver, os: seq<Observation>)
    requires Enabled(m, c) && !RestartsInNone(m, c)
    requires DrivenBy(m, d) && Fits(m.state, d) && PhaseFits(m.state, d, PhaseOf(os))
    requires Step(m, c).state != StateNone
    ensures PhaseFits(Step(m, c).state, NextDriver(m, c, d), PhaseOf(os + Observe(m, c)))
  {
    if !c.Deliver? {
      assert os + Observe(m, c) == os;
    } else {
      PerformState(m.(inFlight := m.inFlight - multiset{c.event}), React(c.event, m.state, m.restartPending), c.resp);
      PhaseObserved(m, c, os);
      assert IsSelf(c.event) ==> d == Self(c.event);
      PhaseAdvances(m.state, m.restartPending, c.event, c.resp, d, PhaseOf(os), m.retryTime);
    }
  }

  lemma {:induction false} PhaseAlwaysFits(retryTime: nat, s: seq<Choice>) returns (d: Driver)
    requires Legal(Started(retryTime), s) && Calm(Started(retryTime), s)
    ensures var m := Run(Started(retryTime), s);
            DrivenBy(m, d) && Fits(m.state, d) && PhaseFits(m.state, d, PhaseOf(Round(Started(retryTime), s)))
  {
    var start := Started(retryTime);
    if s == [] {
      d := Self(EventInitialize);
    } else {
      var before := PhaseAlwaysFits(retryTime, s[..|s| - 1]);
      var m, c := Run(start, s[..|s| - 1]), s[|s| - 1];
      StepKeepsSingleDriver(m, c, before);
      d := NextDriver(m, c, before);
      if Step(m, c).state != StateNone {
        StepKeepsPhase(m, c, before, Round(start, s[..|s| - 1]));
      }
    }
  }

  lemma {:induction false} NoncePart(os: seq<Observation>) returns (q: seq<Observation>)
    requires PhaseOf(os) == HaveNonce
    ensures AllFailed(q, SendInternalQuoteRequest) && os == [Called(SendNonceRequest, Ok)] + q
  {
    var init, last := os[..|os| - 1], os[|os| - 1];
    if last.call == SendNonceRequest {
      assert init == [];
      q := [];
    } else {
      q := NoncePart(init);
      q := q + [last];
    }
  }

  lemma {:induction false} QuotePart(os: seq<Observation>) returns (q: seq<Observation>, a: seq<Observation>)
    requires PhaseOf(os) == HaveQuote
    ensures AllFailed(q, SendInternalQuoteRequest) && AllFailed(a, SendAttestQuote)
    ensures os == [Called(SendNonceRequest, Ok)] + q + [Called(SendInternalQuoteRequest, Ok), GotQuote] + a
  {
    var init, last := os[..|os| - 1], os[|os| - 1];
    if last == GotQuote {
      q := NoncePart(init[..|init| - 1]);
      a := [];
    } else {
      q, a := QuotePart(init);
      a := a + [last];
    }
  }

  lemma {:induction false} AttestedPart(os: seq<Observation>)
    returns (q: seq<Observation>, a: seq<Observation>, e: seq<Observation>)
    requires PhaseOf(os) == Attested
    ensures AllFailed(q, SendInternalQuoteRequest) && AllFailed(a, SendAttestQuote) && AllFailed(e, SendAttestEscrow)
    ensures os == [Called(SendNonceRequest, Ok)] + q + [Called(SendInternalQuoteRequest, Ok), GotQuote]
                  + a + [Called(SendAttestQuote, Ok)] + e
  {
    var init, last := os[..|os| - 1], os[|os| - 1];
    if last.call == SendAttestQuote {
      q, a := QuotePart(init);
      e := [];
    } else {
      q, a, e := AttestedPart(init);
      e := e + [last];
    }
  }

  lemma EscrowedIsHandshake(os: seq<Observation>)
    requires PhaseOf(os) == Escrowed
    ensures IsHandshake(os)
  {
    var q, a, e := AttestedPart(os[..|os| - 1]);
    assert os == [Called(SendNonceRequest, Ok)] + q + [Called(SendInternalQuoteRequest, Ok), GotQuote]
                 + a + [Called(SendAttestQuote, Ok)] + e + [Called(SendAttestEscrow, Ok)];
  }

  /** Attestation is complete only after the whole handshake of the current round, in order. */
  lemma CompleteOnlyAfterHandshake(retryTime: nat, s: seq<Choice>)
    requires Legal(Started(retryTime), s) && Calm(Started(retryTime), s)
    requires Run(Started(retryTime), s).state == StateComplete
    ensures IsHandshake(Round(Started(retryTime), s))
  {
    var d := PhaseAlwaysFits(retryTime, s);
    EscrowedIsHandshake(Round(Started(retryTime), s));
  }

  // ---------------------------------------------------------------------------
  // Restart requests

  /** A complete machine owes no restart. */
  predicate Settled(m: Machine) {
    m.state == StateComplete ==> !m.restartPending
  }

  lemma StepKeepsSettled(m: Machine, c: Choice)
    requires Settled(m) && Enabled(m, c)
    ensures Settled(Step(m, c))
  {
    if c.Deliver? {
      ReactionSettles(c.event, m.state, m.restartPending);
      PerformSettles(m.(inFlight := m.inFlight - multiset{c.event}), React(c.event, m.state, m.restartPending), c.resp);
    }
  }

  lemma ReactionSettles(e: Event, state: AttestState, restartPending: bool)
    ensures React(e, state, restartPending).Finish? ==> !restartPending
    ensures state == StateComplete ==> !React(e, state, restartPending).NoteRestart?
  {
  }

  lemma PerformSettles(m: Machine, r: Reaction, resp: Response)
    requires Settled(m) && (r.Finish? ==> !m.restartPending) && (m.state == StateComplete ==> !r.NoteRestart?)
    ensures Settled(Perform(m, r, resp))
  {
  }

  /** No event, in any state and whatever the environment, can end complete with a restart pending. */
  lemma {:induction false} CompleteOwesNoRestart(m: Machine, s: seq<Choice>)
    requires Settled(m) && Legal(m, s)
    ensures Settled(Run(m, s))
    decreases |s|
  {
    if s != [] {
      CompleteOwesNoRestart(m, s[..|s| - 1]);
      StepKeepsSettled(Run(m, s[..|s| - 1]), s[|s| - 1]);
    }
  }

  predicate Requests(m: Machine, s: seq<Choice>)
    requires Legal(m, s)
  {
    s != [] && (Requests(m, s[..|s| - 1]) || Calls(Run(m, s[..|s| - 1]), s[|s| - 1], SendNonceRequest))
  }

  predicate Owed(m: Machine) {
    m.restartPending || m.state == StateRestartWait || m.state == StateNone
  }

  lemma StepKeepsOwed(m: Machine, c: Choice)
    requires Owed(m) && Enabled(m, c) && !Calls(m, c, SendNonceRequest)
    ensures Owed(Step(m, c))
  {
    if c.Deliver? {
      var n, r := m.(inFlight := m.inFlight - multiset{c.event}), React(c.event, m.state, m.restartPending);
      ReactionKeepsOwed(c.event, m.state, m.restartPending);
      PerformKeepsOwed(n, r, c.resp);
    }
  }

  /** Unless it sends the request or remembers the restart, a reaction goes no further than StateNone. */
  lemma ReactionKeepsOwed(e: Event, state: AttestState, restartPending: bool)
    requires restartPending || state == StateRestartWait || state == StateNone
    requires React(e, state, restartPending) != MakeCall(SendNonceRequest)
    ensures var r := React(e, state, restartPending);
            restartPending || r.StartOver? || r.NoteRestart? || r.Ignore? || r.Fatal?
  {
  }

  lemma PerformKeepsOwed(m: Machine, r: Reaction, resp: Response)
    requires Owed(m) && (m.restartPending || r.StartOver? || r.NoteRestart? || r.Ignore? || r.Fatal?)
    ensures Owed(Perform(m, r, resp))
  {
    PerformState(m, r, resp);
    PerformFlag(m, r, resp);
  }

  lemma {:induction false} RestartRemembered(m: Machine, s: seq<Choice>)
    requires Legal(m, s) && !Requests(m, s)
    requires Owed(m)
    ensures Owed(Run(m, s))
    decreases |s|
  {
    if s != [] {
      RestartRemembered(m, s[..|s| - 1]);
      StepKeepsOwed(Run(m, s[..|s| - 1]), s[|s| - 1]);
    }
  }

  /**
   Whatever the environment does, between the dispatch of a restart and the next time the
   machine is complete a new nonce is asked for.
   */
  lemma RestartNotForgotten(m: Machine, resp: Response, s: seq<Choice>)
    requires Settled(m) && Enabled(m, Deliver(EventRestart, resp))
    requires Legal(Step(m, Deliver(EventRestart, resp)), s)
    requires Run(Step(m, Deliver(EventRestart, resp)), s).state == StateComplete
    ensures Calls(m, Deliver(EventRestart, resp), SendNonceRequest) ||
            Requests(Step(m, Deliver(EventRestart, resp)), s)
  {
    var n := Step(m, Deliver(EventRestart, resp));
    CompleteOwesNoRestart(n, s);
    if !Calls(m, Deliver(EventRestart, resp), SendNonceRequest) && !Requests(n, s) {
      RestartRemembered(n, s);
    }
  }
}
