/**
 The context object of pkg/pillar/attest/attest.go, its handlers, its dispatcher and its
 event loop.  Every handler keeps the source's shape, including the handlers that call one
 another; `Abs` reads the object as a machine of AttestMachine.
 */
module AttestContext {
  import opened AttestMachine

  datatype Handler =
    | InitializeAtNone
    | RestartAtNone
    | RetryTimerExpiryAtRestartWait
    | Restart
    | NonceRecvdAtNonceWait
    | RetryTimerExpiryAtNonceWait
    | InternalQuoteRecvdAtInternalQuoteWait
    | RetryTimerExpiryAtInternalQuoteWait
    | InternalEscrowRecvdAtInternalEscrowWait
    | NonceMismatchAtAttestWait
    | AttestSuccessfulAtAttestWait
    | RetryTimerExpiryAtAttestWait
    | AttestEscrowFailedAtAttestEscrowWait
    | NoEscrowAtAttestEscrowWait
    | AttestEscrowRecordedAtAttestEscrowWait
    | RetryTimerExpiryWhileAttestEscrowWait
    | RestartAtStateComplete
    | NoSpecificHandler

  /** The rows of the source's table that name a state, grouped by that state. */
  function Transitions(event: Event, state: AttestState): Handler {
    match state
    case StateNone =>
      (match event
       case EventInitialize => InitializeAtNone
       case EventRestart => RestartAtNone
       case _ => NoSpecificHandler)
    case StateRestartWait =>
      (match event
       case EventRetryTimerExpiry => RetryTimerExpiryAtRestartWait
       case EventRestart => Restart
       case _ => NoSpecificHandler)
    case StateNonceWait =>
      (match event
       case EventNonceRecvd => NonceRecvdAtNonceWait
       case EventRetryTimerExpiry => RetryTimerExpiryAtNonceWait
       case EventRestart => Restart
       case _ => NoSpecificHandler)
    case StateInternalQuoteWait =>
      (match event
       case EventInternalQuoteRecvd => InternalQuoteRecvdAtInternalQuoteWait
       case EventRetryTimerExpiry => RetryTimerExpiryAtInternalQuoteWait
       case EventRestart => Restart
       case _ => NoSpecificHandler)
    case StateInternalEscrowWait =>
      (match event
       case EventRestart => Restart
       case EventInternalEscrowRecvd => InternalEscrowRecvdAtInternalEscrowWait
       case _ => NoSpecificHandler)
    case StateAttestWait =>
      (match event
       case EventNonceMismatch => NonceMismatchAtAttestWait
       case EventQuoteMismatch => NonceMismatchAtAttestWait
       case EventNoQuoteCertRecvd => NonceMismatchAtAttestWait
       case EventAttestSuccessful => AttestSuccessfulAtAttestWait
       case EventRetryTimerExpiry => RetryTimerExpiryAtAttestWait
       case EventRestart => Restart
       case _ => NoSpecificHandler)
    case StateAttestEscrowWait =>
      (match event
       case EventAttestEscrowFailed => AttestEscrowFailedAtAttestEscrowWait
       case EventNoEscrow => NoEscrowAtAttestEscrowWait
       case EventAttestEscrowRecorded => AttestEscrowRecordedAtAttestEscrowWait
       case EventRetryTimerExpiry => RetryTimerExpiryWhileAttestEscrowWait
       case EventRestart => Restart
       case _ => NoSpecificHandler)
    case StateComplete =>
      (match event
       case EventRestart => RestartAtStateComplete
       case _ => NoSpecificHandler)
  }

  /** What each handler does to the machine. */
  function Meaning(h: Handler, restartPending: bool): Reaction
    requires h != NoSpecificHandler
  {
    match h
    case InitializeAtNone => MakeCall(SendNonceRequest)
    case RestartAtNone => MakeCall(SendNonceRequest)
    case RetryTimerExpiryAtRestartWait => StartOver(true)
    case Restart => NoteRestart
    case NonceRecvdAtNonceWait => MakeCall(SendInternalQuoteRequest)
    case RetryTimerExpiryAtNonceWait => StartOver(false)
    case InternalQuoteRecvdAtInternalQuoteWait => MakeCall(SendAttestQuote)
    case RetryTimerExpiryAtInternalQuoteWait => MakeCall(SendInternalQuoteRequest)
    case InternalEscrowRecvdAtInternalEscrowWait => MakeCall(SendAttestEscrow)
    case NonceMismatchAtAttestWait => WaitBeforeRestart
    case AttestSuccessfulAtAttestWait => MakeCall(SendAttestEscrow)
    case RetryTimerExpiryAtAttestWait => MakeCall(SendAttestQuote)
    case AttestEscrowFailedAtAttestEscrowWait => WaitBeforeRestart
    case NoEscrowAtAttestEscrowWait => AwaitEscrow
    case AttestEscrowRecordedAtAttestEscrowWait => if restartPending then WaitBeforeRestart else Finish
    case RetryTimerExpiryWhileAttestEscrowWait => MakeCall(SendAttestEscrow)
    case RestartAtStateComplete => WaitBeforeRestart
  }

  /** The table grouped by state and the reactions grouped by event agree on every pair. */
  lemma TableMeaning(event: Event, state: AttestState, restartPending: bool)
    ensures var h := Transitions(event, state);
            React(event, state, restartPending) ==
            if h != NoSpecificHandler then Meaning(h, restartPending)
            else if event == EventInternalEscrowRecvd then Ignore
            else Fatal
    ensures state == StateAttestWait && event in {EventNonceMismatch, EventQuoteMismatch, EventNoQuoteCertRecvd} ==>
              React(event, state, restartPending) == WaitBeforeRestart
    ensures state == StateAttestEscrowWait && event == EventAttestEscrowFailed ==>
              React(event, state, restartPending) == WaitBeforeRestart
  {
  }

  class Context {
    var state: AttestState
    var restartRequestPending: bool
    var restartTimerArmed: bool
    var retryTime: nat
    // the channel's slot and the senders blocked on it
    var eventTrigger: multiset<Event>
    // quote requests the TPM agent accepted and has not answered
    var quotesOwed: nat
    var alive: bool

    ghost function Abs(): (m: Machine)
      reads this
    {
      Machine(state, restartRequestPending, restartTimerArmed, eventTrigger, quotesOwed, retryTime, alive)
    }

    constructor (retryTime: nat)
      ensures Abs() == Started(retryTime).(inFlight := multiset{})
    {
      state := StateNone;
      restartRequestPending := false;
      restartTimerArmed := false;
      this.retryTime := retryTime;
      eventTrigger := multiset{};
      quotesOwed := 0;
      alive := true;
    }

    method TriggerSelfEvent(event: Event)
      modifies this`eventTrigger
      ensures Abs() == Post(old(Abs()), event)
    {
      eventTrigger := eventTrigger + multiset{event};
    }

    method Kickstart()
      modifies this`eventTrigger
      ensures Abs() == Post(old(Abs()), EventInitialize)
    {
      eventTrigger := eventTrigger + multiset{EventInitialize};
    }

    method StartNewRetryTimer() returns (failed: bool)
      modifies this`restartTimerArmed
      ensures Abs() == RestartTimer(old(Abs()))
      ensures failed <==> retryTime == 0
    {
      restartTimerArmed := false;
      if retryTime == 0 {
        return true;
      }
      restartTimerArmed := true;
      return false;
    }

    method HandleInitializeAtNone(resp: Response)
      modifies this
      ensures Abs() == AfterCall(old(Abs()), SendNonceRequest, resp)
    {
      state := StateNonceWait;
      if resp == Ok {
        TriggerSelfEvent(EventNonceRecvd);
        return;
      }
      match resp
      case ErrControllerReqFailed => var _ := StartNewRetryTimer();
      case ErrNoVerifier =>
      case _ =>
    }

    method HandleRestartAtNone(resp: Response)
      modifies this
      ensures Abs() == AfterCall(old(Abs()), SendNonceRequest, resp)
    {
      HandleInitializeAtNone(resp);
    }

    method HandleNonceRecvdAtNonceWait(resp: Response)
      modifies this
      ensures Abs() == AfterCall(old(Abs()), SendInternalQuoteRequest, resp)
    {
      state := StateInternalQuoteWait;
      if resp == Ok {
        quotesOwed := quotesOwed + 1;
        return;
      }
      match resp
      case ErrTpmAgentUnavailable => var _ := StartNewRetryTimer();
      case _ =>
    }

    method HandleInternalQuoteRecvdAtInternalQuoteWait(resp: Response)
      modifies this
      ensures Abs() == AfterCall(old(Abs()), SendAttestQuote, resp)
    {
      QuoteFollowup(Abs(), resp);
      state := StateAttestWait;
      if resp == Ok {
        TriggerSelfEvent(EventAttestSuccessful);
        return;
      }
      match resp
      case ErrNonceMismatch => TriggerSelfEvent(EventNonceMismatch);
      case ErrQuoteMismatch => TriggerSelfEvent(EventQuoteMismatch);
      case ErrNoCertYet => TriggerSelfEvent(EventNoQuoteCertRecvd);
      case ErrControllerReqFailed => var _ := StartNewRetryTimer();
      case ErrNoVerifier =>
      case _ =>
    }

    method HandleAttestSuccessfulAtAttestWait(resp: Response)
      modifies this
      ensures Abs() == AfterCall(old(Abs()), SendAttestEscrow, resp)
    {
      EscrowFollowup(Abs(), resp);
      state := StateAttestEscrowWait;
      if resp == Ok {
        TriggerSelfEvent(EventAttestEscrowRecorded);
        return;
      }
      match resp
      case ErrControllerReqFailed => var _ := StartNewRetryTimer();
      case ErrNoEscrowData => TriggerSelfEvent(EventNoEscrow);
      case ErrITokenMismatch => TriggerSelfEvent(EventAttestEscrowFailed);
      case ErrNoVerifier =>
      case _ =>
    }

    method HandleAttestEscrowRecordedAtAttestEscrowWait()
      modifies this
      ensures Abs() == if old(restartRequestPending) then RestartTimer(old(Abs()).(state := StateRestartWait))
                       else old(Abs()).(state := StateComplete)
    {
      state := StateComplete;
      if restartRequestPending {
        state := StateRestartWait;
        var _ := StartNewRetryTimer();
      }
    }

    method HandleRestartAtStateComplete()
      modifies this
      ensures Abs() == RestartTimer(old(Abs()).(state := StateRestartWait))
    {
      state := StateRestartWait;
      var _ := StartNewRetryTimer();
    }

    method HandleRestart()
      modifies this
      ensures Abs() == old(Abs()).(restartPending := true)
    {
      restartRequestPending := true;
    }

    method HandleNonceMismatchAtAttestWait()
      modifies this
      ensures Abs() == RestartTimer(old(Abs()).(state := StateRestartWait))
    {
      state := StateRestartWait;
      var _ := StartNewRetryTimer();
    }

    method HandleAttestEscrowFailedAtAttestEscrowWait()
      modifies this
      ensures Abs() == RestartTimer(old(Abs()).(state := StateRestartWait))
    {
      state := StateRestartWait;
      var _ := StartNewRetryTimer();
    }

    method HandleInternalEscrowRecvdAtInternalEscrowWait(resp: Response)
      modifies this
      ensures Abs() == AfterCall(old(Abs()), SendAttestEscrow, resp)
    {
      HandleAttestSuccessfulAtAttestWait(resp);
    }

    method HandleInternalEscrowRecvdAtAnyOther(resp: Response)
      modifies this
      ensures Abs() == if old(state) == StateInternalEscrowWait then AfterCall(old(Abs()), SendAttestEscrow, resp)
                       else old(Abs())
    {
      match state
      case StateInternalEscrowWait => HandleInternalEscrowRecvdAtInternalEscrowWait(resp);
      case _ =>
    }

    method HandleNoEscrowAtAttestEscrowWait()
      modifies this
      ensures Abs() == old(Abs()).(state := StateInternalEscrowWait)
    {
      state := StateInternalEscrowWait;
    }

    method HandleRetryTimerExpiryAtRestartWait()
      modifies this
      ensures Abs() == Post(old(Abs()).(state := StateNone, restartPending := false), EventInitialize)
    {
      state := StateNone;
      restartRequestPending := false;
      TriggerSelfEvent(EventInitialize);
    }

    method HandleRetryTimerExpiryAtNonceWait()
      modifies this
      ensures Abs() == Post(old(Abs()).(state := StateNone), EventInitialize)
    {
      state := StateNone;
      TriggerSelfEvent(EventInitialize);
    }

    method CallHandler(h: Handler, resp: Response)
      requires h != NoSpecificHandler
      modifies this
      ensures Abs() == Perform(old(Abs()), Meaning(h, old(restartRequestPending)), resp)
    {
      match h
      case InitializeAtNone => HandleInitializeAtNone(resp);
      case RestartAtNone => HandleRestartAtNone(resp);
      case RetryTimerExpiryAtRestartWait => HandleRetryTimerExpiryAtRestartWait();
      case Restart => HandleRestart();
      case NonceRecvdAtNonceWait => HandleNonceRecvdAtNonceWait(resp);
      case RetryTimerExpiryAtNonceWait => HandleRetryTimerExpiryAtNonceWait();
      case InternalQuoteRecvdAtInternalQuoteWait => HandleInternalQuoteRecvdAtInternalQuoteWait(resp);
      case RetryTimerExpiryAtInternalQuoteWait => HandleNonceRecvdAtNonceWait(resp);
      case InternalEscrowRecvdAtInternalEscrowWait => HandleInternalEscrowRecvdAtInternalEscrowWait(resp);
      case NonceMismatchAtAttestWait => HandleNonceMismatchAtAttestWait();
      case AttestSuccessfulAtAttestWait => HandleAttestSuccessfulAtAttestWait(resp);
      case RetryTimerExpiryAtAttestWait => HandleInternalQuoteRecvdAtInternalQuoteWait(resp);
      case AttestEscrowFailedAtAttestEscrowWait => HandleAttestEscrowFailedAtAttestEscrowWait();
      case NoEscrowAtAttestEscrowWait => HandleNoEscrowAtAttestEscrowWait();
      case AttestEscrowRecordedAtAttestEscrowWait => HandleAttestEscrowRecordedAtAttestEscrowWait();
      case RetryTimerExpiryWhileAttestEscrowWait => HandleAttestSuccessfulAtAttestWait(resp);
      case RestartAtStateComplete => HandleRestartAtStateComplete();
    }

    /** The transition table looked up by state first, then its wildcard row. */
    method DespatchEvent(event: Event, resp: Response)
      modifies this
      ensures Abs() == Dispatch(old(Abs()), event, resp)
      ensures (old(state) == StateAttestWait && event in {EventNonceMismatch, EventQuoteMismatch, EventNoQuoteCertRecvd})
              || (old(state) == StateAttestEscrowWait && event == EventAttestEscrowFailed) ==>
                state == StateRestartWait && (restartTimerArmed <==> retryTime != 0)
    {
      TableMeaning(event, state, restartRequestPending);
      var h := Transitions(event, state);
      if h != NoSpecificHandler {
        CallHandler(h, resp);
      } else if event == EventInternalEscrowRecvd {
        HandleInternalEscrowRecvdAtAnyOther(resp);
      } else {
        alive := false;
      }
    }

    /** One turn of the loop's select, or one send by another goroutine. */
    method Turn(c: Choice)
      requires Enabled(Abs(), c)
      modifies this
      ensures Abs() == Step(old(Abs()), c)
    {
      match c
      case Deliver(event, resp) =>
        eventTrigger := eventTrigger - multiset{event};
        DespatchEvent(event, resp);
      case TimerFires =>
        restartTimerArmed := false;
        TriggerSelfEvent(EventRetryTimerExpiry);
      case QuoteArrives =>
        quotesOwed := quotesOwed - 1;
        TriggerSelfEvent(EventInternalQuoteRecvd);
      case RestartRequested => TriggerSelfEvent(EventRestart);
      case EscrowPublished => TriggerSelfEvent(EventInternalEscrowRecvd);
      case WatchdogTick =>
    }

    method TurnAt(s: seq<Choice>, i: nat, ghost start: Machine)
      requires Legal(start, s) && i < |s| && RunsTo(start, s[..i], Abs())
      modifies this
      ensures RunsTo(start, s[..i + 1], Abs())
    {
      NextRunsTo(start, s, i, Abs());
      Turn(s[i]);
    }

    /** The event loop, driven by a schedule of what happens to it. */
    method EnterEventLoop(s: seq<Choice>)
      requires Legal(Abs(), s)
      modifies this
      ensures Abs() == Run(old(Abs()), s)
    {
      ghost var start := Abs();
      var i := 0;
      while i < |s|
        invariant 0 <= i <= |s| && RunsTo(start, s[..i], Abs())
      {
        TurnAt(s, i, start);
        i := i + 1;
      }
      assert s[..i] == s;
    }
  }

  /** A context made, kick-started and driven by any schedule is the run from the start that all theorems speak of. */
  method Attest(retryTime: nat, s: seq<Choice>) returns (ctx: Context)
    requires Legal(Started(retryTime), s)
    ensures fresh(ctx) && ctx.Abs() == Run(Started(retryTime), s)
  {
    ctx := new Context(retryTime);
    ctx.Kickstart();
    assert multiset{} + multiset{EventInitialize} == multiset{EventInitialize};
    ctx.EnterEventLoop(s);
  }

  predicate RunsTo(m: Machine, s: seq<Choice>, n: Machine) {
    Legal(m, s) && Run(m, s) == n
  }

  lemma NextRunsTo(m: Machine, s: seq<Choice>, i: nat, n: Machine)
    requires Legal(m, s) && i < |s| && RunsTo(m, s[..i], n)
    ensures Enabled(n, s[i]) && RunsTo(m, s[..i + 1], Step(n, s[i]))
  {
    LegalPrefix(m, s, i + 1);
    assert s[..i + 1][..i] == s[..i];
  }
}
