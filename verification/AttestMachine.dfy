/**
 The attestation state machine of pkg/pillar/attest/attest.go as a transition system:
 the context's own fields, the events in flight towards its channel, its retry timer and
 the quotes the TPM agent still owes it.  AttestContext.dfy proves that the event loop and
 its handlers implement this system; AttestSafety.dfy and AttestProgress.dfy prove what
 holds of every run of it.
 */
module AttestMachine {

  datatype AttestState =
    | StateNone
    | StateNonceWait
    | StateInternalQuoteWait
    | StateInternalEscrowWait
    | StateAttestWait
    | StateAttestEscrowWait
    | StateRestartWait
    | StateComplete

  datatype Event =
    | EventInitialize
    | EventNonceRecvd
    | EventInternalQuoteRecvd
    | EventInternalEscrowRecvd
    | EventRetryTimerExpiry
    | EventNonceMismatch
    | EventQuoteMismatch
    | EventNoQuoteCertRecvd
    | EventAttestEscrowRecorded
    | EventNoEscrow
    | EventAttestEscrowFailed
    | EventAttestSuccessful
    | EventRestart

  /** What an external call returns: success, one of the named errors, or any other error. */
  datatype Response =
    | Ok
    | ErrControllerReqFailed
    | ErrControllerError
    | ErrNonceMismatch
    | ErrQuoteMismatch
    | ErrNoCertYet
    | ErrITokenMismatch
    | ErrTpmAgentUnavailable
    | ErrNoEscrowData
    | ErrNoVerifier
    | ErrOther

  /** The four calls the machine makes to the controller and to the TPM agent. */
  datatype Call = SendNonceRequest | SendInternalQuoteRequest | SendAttestQuote | SendAttestEscrow

  /** What a call's response makes the machine do next. */
  datatype Followup = WaitForOthers | PostSelf(event: Event) | StartTimer

  /** What dispatching an event amounts to. */
  datatype Reaction =
    | MakeCall(call: Call)
    | StartOver(clearRestart: bool)
    | WaitBeforeRestart
    | Finish
    | AwaitEscrow
    | NoteRestart
    | Ignore
    | Fatal

  /**
   `inFlight` holds every event on its way to the loop: the one in the channel's slot and
   those whose sender is blocked.  Any of them may be received next.
   */
  datatype Machine = Machine(
    state: AttestState,
    restartPending: bool,
    timerArmed: bool,
    inFlight: multiset<Event>,
    quotesOwed: nat,
    retryTime: nat,
    alive: bool)

  /** The state a call is made in, and waited for in. */
  function WaitState(call: Call): AttestState {
    match call
    case SendNonceRequest => StateNonceWait
    case SendInternalQuoteRequest => StateInternalQuoteWait
    case SendAttestQuote => StateAttestWait
    case SendAttestEscrow => StateAttestEscrowWait
  }

  function FollowupOf(call: Call, resp: Response): Followup {
    match call
    case SendNonceRequest =>
      (match resp
       case Ok => PostSelf(EventNonceRecvd)
       case ErrControllerReqFailed => StartTimer
       case _ => WaitForOthers)
    case SendInternalQuoteRequest =>
      if resp == ErrTpmAgentUnavailable then StartTimer else WaitForOthers
    case SendAttestQuote =>
      (match resp
       case Ok => PostSelf(EventAttestSuccessful)
       case ErrNonceMismatch => PostSelf(EventNonceMismatch)
       case ErrQuoteMismatch => PostSelf(EventQuoteMismatch)
       case ErrNoCertYet => PostSelf(EventNoQuoteCertRecvd)
       case ErrControllerReqFailed => StartTimer
       case _ => WaitForOthers)
    case SendAttestEscrow =>
      (match resp
       case Ok => PostSelf(EventAttestEscrowRecorded)
       case ErrControllerReqFailed => StartTimer
       case ErrNoEscrowData => PostSelf(EventNoEscrow)
       case ErrITokenMismatch => PostSelf(EventAttestEscrowFailed)
       case _ => WaitForOthers)
  }

  /** What an event means in a state: the transition table, wildcard row included. */
  function React(event: Event, state: AttestState, restartPending: bool): Reaction {
    match event
    case EventInitialize =>
      if state == StateNone then MakeCall(SendNonceRequest) else Fatal
    case EventRestart =>
      if state == StateNone then MakeCall(SendNonceRequest)
      else if state == StateComplete then WaitBeforeRestart
      else NoteRestart
    case EventRetryTimerExpiry =>
      (match state
       case StateRestartWait => StartOver(true)
       case StateNonceWait => StartOver(false)
       case StateInternalQuoteWait => MakeCall(SendInternalQuoteRequest)
       case StateAttestWait => MakeCall(SendAttestQuote)
       case StateAttestEscrowWait => MakeCall(SendAttestEscrow)
       case _ => Fatal)
    case EventNonceRecvd =>
      if state == StateNonceWait then MakeCall(SendInternalQuoteRequest) else Fatal
    case EventInternalQuoteRecvd =>
      if state == StateInternalQuoteWait then MakeCall(SendAttestQuote) else Fatal
    case EventAttestSuccessful =>
      if state == StateAttestWait then MakeCall(SendAttestEscrow) else Fatal
    case EventInternalEscrowRecvd =>
      if state == StateInternalEscrowWait then MakeCall(SendAttestEscrow) else Ignore
    case EventNonceMismatch =>
      if state == StateAttestWait then WaitBeforeRestart else Fatal
    case EventQuoteMismatch =>
      if state == StateAttestWait then WaitBeforeRestart else Fatal
    case EventNoQuoteCertRecvd =>
      if state == StateAttestWait then WaitBeforeRestart else Fatal
    case EventAttestEscrowFailed =>
      if state == StateAttestEscrowWait then WaitBeforeRestart else Fatal
    case EventAttestEscrowRecorded =>
      if state != StateAttestEscrowWait then Fatal
      else if restartPending then WaitBeforeRestart
      else Finish
    case EventNoEscrow =>
      if state == StateAttestEscrowWait then AwaitEscrow else Fatal
  }

  /** A retry time of zero stops the running timer and starts none. */
  function RestartTimer(m: Machine): Machine {
    m.(timerArmed := m.retryTime != 0)
  }

  function Post(m: Machine, event: Event): Machine {
    m.(inFlight := m.inFlight + multiset{event})
  }

  function AfterCall(m: Machine, call: Call, resp: Response): Machine {
    var waiting := m.(state := WaitState(call));
    if call == SendInternalQuoteRequest && resp == Ok then
      waiting.(quotesOwed := waiting.quotesOwed + 1)
    else
      match FollowupOf(call, resp)
      case WaitForOthers => waiting
      case PostSelf(e) => Post(waiting, e)
      case StartTimer => RestartTimer(waiting)
  }

  lemma NonceFollowup(m: Machine, resp: Response)
    ensures var waiting := m.(state := StateNonceWait);
            AfterCall(m, SendNonceRequest, resp) ==
            match resp
            case Ok => Post(waiting, EventNonceRecvd)
            case ErrControllerReqFailed => RestartTimer(waiting)
            case _ => waiting
  {
  }

  lemma QuoteFollowup(m: Machine, resp: Response)
    ensures var waiting := m.(state := StateAttestWait);
            AfterCall(m, SendAttestQuote, resp) ==
            match resp
            case Ok => Post(waiting, EventAttestSuccessful)
            case ErrNonceMismatch => Post(waiting, EventNonceMismatch)
            case ErrQuoteMismatch => Post(waiting, EventQuoteMismatch)
            case ErrNoCertYet => Post(waiting, EventNoQuoteCertRecvd)
            case ErrControllerReqFailed => RestartTimer(waiting)
            case _ => waiting
  {
  }

  lemma EscrowFollowup(m: Machine, resp: Response)
    ensures var waiting := m.(state := StateAttestEscrowWait);
            AfterCall(m, SendAttestEscrow, resp) ==
            match resp
            case Ok => Post(waiting, EventAttestEscrowRecorded)
            case ErrControllerReqFailed => RestartTimer(waiting)
            case ErrNoEscrowData => Post(waiting, EventNoEscrow)
            case ErrITokenMismatch => Post(waiting, EventAttestEscrowFailed)
            case _ => waiting
  {
  }

  function Perform(m: Machine, r: Reaction, resp: Response): Machine {
    match r
    case MakeCall(call) => AfterCall(m, call, resp)
    case StartOver(clear) =>
      Post(m.(state := StateNone, restartPending := !clear && m.restartPending), EventInitialize)
    case WaitBeforeRestart => RestartTimer(m.(state := StateRestartWait))
    case Finish => m.(state := StateComplete)
    case AwaitEscrow => m.(state := StateInternalEscrowWait)
    case NoteRestart => m.(restartPending := true)
    case Ignore => m
    case Fatal => m.(alive := false)
  }

  /** The machine after an event taken off the channel has been dispatched. */
  function Dispatch(m: Machine, event: Event, resp: Response): Machine {
    Perform(m, React(event, m.state, m.restartPending), resp)
  }

  /**
   One turn of the world: the loop receives something, or somebody sends it something.  A
   restart request that finds the channel's slot taken is dropped by its sender, which here is
   a schedule without it; RestartRequested is a request that gets into the channel.
   */
  datatype Choice =
    | Deliver(event: Event, resp: Response)
    | TimerFires
    | QuoteArrives
    | RestartRequested
    | EscrowPublished
    | WatchdogTick

  /** The TPM agent answers each accepted request once; everything else is unrestricted. */
  predicate Enabled(m: Machine, c: Choice) {
    && m.alive
    && match c
       case Deliver(e, _) => e in m.inFlight
       case TimerFires => m.timerArmed
       case QuoteArrives => m.quotesOwed > 0
       case RestartRequested => true
       case EscrowPublished => true
       case WatchdogTick => true
  }

  function Step(m: Machine, c: Choice): Machine
    requires Enabled(m, c)
  {
    match c
    case Deliver(e, resp) => Dispatch(m.(inFlight := m.inFlight - multiset{e}), e, resp)
    case TimerFires => Post(m.(timerArmed := false), EventRetryTimerExpiry)
    case QuoteArrives => Post(m.(quotesOwed := m.quotesOwed - 1), EventInternalQuoteRecvd)
    case RestartRequested => Post(m, EventRestart)
    case EscrowPublished => Post(m, EventInternalEscrowRecvd)
    case WatchdogTick => m
  }

  /** Every choice of the schedule is enabled when its turn comes. */
  predicate Legal(m: Machine, s: seq<Choice>)
    decreases |s|, 0
  {
    s == [] || (Legal(m, s[..|s| - 1]) && Enabled(Run(m, s[..|s| - 1]), s[|s| - 1]))
  }

  function Run(m: Machine, s: seq<Choice>): Machine
    requires Legal(m, s)
    decreases |s|, 1
  {
    if s == [] then m else Step(Run(m, s[..|s| - 1]), s[|s| - 1])
  }

  lemma RunSnoc(m: Machine, s: seq<Choice>, c: Choice)
    requires Legal(m, s) && Enabled(Run(m, s), c)
    ensures Legal(m, s + [c]) && Run(m, s + [c]) == Step(Run(m, s), c)
  {
    assert (s + [c])[..|s|] == s;
  }

  lemma {:induction false} LegalPrefix(m: Machine, s: seq<Choice>, n: nat)
    requires Legal(m, s) && n <= |s|
    ensures Legal(m, s[..n])
  {
    if n == |s| {
      assert s[..n] == s;
    } else {
      LegalPrefix(m, s[..|s| - 1], n);
      assert s[..|s| - 1][..n] == s[..n];
    }
  }

  /** A context just created and kick-started. */
  function Started(retryTime: nat): Machine {
    Machine(StateNone, false, false, multiset{EventInitialize}, 0, retryTime, true)
  }

  /** The call, if any, that a choice makes the machine issue. */
  predicate Calls(m: Machine, c: Choice, call: Call) {
    c.Deliver? && React(c.event, m.state, m.restartPending) == MakeCall(call)
  }
}
