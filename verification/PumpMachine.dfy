/** The relay pump as a state machine (src/relay/pump.rs). One event is one resolution of what the
    pump is waiting for: a branch of a `select!`, or the end of a bounded send. Everything the pump
    does in between, closing frames included, belongs to that step. */
module PumpMachine {
  import opened Common
  import opened Frames

  const MAX_PENDING_FRAMES: nat := 32

  const CODE_POLICY: nat := 1009
  const CODE_INTERNAL: nat := 1011
  const CODE_NORMAL: nat := 1000
  const CODE_GOING_AWAY: nat := 1001

  const TOO_MANY_PENDING := "too many pending frames"
  const QUEUED_FRAMES_TOO_LARGE := "queued frames too large"
  const FRAME_TOO_LARGE := "frame too large"
  const UPSTREAM_CONNECT_FAILED := "upstream connect failed"
  const UPSTREAM_ERROR := "upstream error"
  const UPSTREAM_SEND_FAILED := "upstream send failed"
  const CLIENT_SEND_FAILED := "client send failed"
  const UPSTREAM_SEND_TIMED_OUT := "upstream send timed out"
  const DOWNSTREAM_SEND_TIMED_OUT := "downstream send timed out"
  const CLIENT_CLOSED := "client closed"
  const IDLE_TIMEOUT := "idle timeout"

  datatype ClosePolicy = Transparent | PrivateNormalized

  /** A zero `idleTimeout` disables the idle deadline. */
  datatype Policy = Policy(frameBytes: nat, idleTimeout: nat, closePolicy: ClosePolicy)

  datatype Outcome =
    | ClientClosed
    | UpstreamClosed(code: nat, reason: string)
    | Aborted(code: nat, reason: string)

  /** What a socket read yields; `TooLarge` is the capacity error of the codec. */
  datatype Read<M> = Message(message: M) | TooLarge | ReadError | Eof

  datatype SendResult = SendOk | SendFailed | SendTimedOut

  datatype Event =
    | Connected
    | ConnectFailed
    | ClientRead(client: Read<AxumMessage>)
    | UpstreamRead(upstream: Read<TungMessage>)
    | SendDone(result: SendResult)
    | IdleElapsed

  /** An event and the instant it is observed at. */
  datatype Stamped = Stamped(at: nat, event: Event)

  /** What the pump is waiting for. */
  datatype Phase =
    | Connecting
    | Flushing(queued: TungMessage)
    | Waiting
    | ToUpstream(outbound: TungMessage)
    | ToClient(inbound: AxumMessage)
    | Ended(outcome: Outcome)

  /** `up` and `down` are the frames the pump has put on each leg: the data frames whose send
      completed and the close frames it offered. */
  datatype State = State(
    phase: Phase,
    queue: seq<TungMessage>,
    queuedBytes: nat,
    deadline: Option<nat>,
    clock: nat,
    up: seq<TungMessage>,
    down: seq<AxumMessage>
  )

  predicate AcceptPending(queueLen: nat) {
    queueLen < MAX_PENDING_FRAMES
  }

  /** `checked_add` followed by the cap. */
  function QueuedBytesAfter(current: nat, next: nat, cap: nat): Option<nat> {
    if current + next > USIZE_MAX || current + next > cap then None else Some(current + next)
  }

  function IdleDeadline(p: Policy, now: nat): Option<nat> {
    if p.idleTimeout == 0 then None else Some(now + p.idleTimeout)
  }

  /** A read pushes a running deadline out and leaves a disabled one disabled. */
  function Extend(p: Policy, deadline: Option<nat>, now: nat): Option<nat> {
    if deadline.None? then None else Some(now + p.idleTimeout)
  }

  function TellUpstream(s: State, code: nat, reason: string): State {
    s.(up := s.up + [TuClose(Some(CloseFrame(code, reason)))])
  }

  function TellDownstream(s: State, code: nat, reason: string): State {
    s.(down := s.down + [AxClose(Some(CloseFrame(code, reason)))])
  }

  function End(s: State, outcome: Outcome): State {
    s.(phase := Ended(outcome))
  }

  function AbortDownstream(s: State, code: nat, reason: string): State {
    End(TellDownstream(s, code, reason), Aborted(code, reason))
  }

  function AbortUpstream(s: State, code: nat, reason: string): State {
    End(TellUpstream(s, code, reason), Aborted(code, reason))
  }

  function AbortBoth(s: State, code: nat, reason: string): State {
    End(TellUpstream(TellDownstream(s, code, reason), code, reason), Aborted(code, reason))
  }

  /** The private run starts before its upstream is connected. */
  function PrivateInit(now: nat): State {
    State(Connecting, [], 0, None, now, [], [])
  }

  /** The direct run starts in the connected loop. */
  function DirectInit(p: Policy, now: nat): State {
    State(Waiting, [], 0, IdleDeadline(p, now), now, [], [])
  }

  /** The head of the flush loop: take the next queued frame, or fall through to the connected
      loop when there is none. */
  function PopQueue(s: State): State {
    if s.queue == [] then s.(phase := Waiting)
    else s.(phase := Flushing(s.queue[0]), queue := s.queue[1..])
  }

  /** The events the pump can observe in a state. Time does not run backwards. */
  predicate Enabled(s: State, e: Stamped) {
    && s.clock <= e.at
    && match s.phase
       case Connecting => e.event.Connected? || e.event.ConnectFailed? || e.event.ClientRead?
       case Flushing(_) => e.event.SendDone? || (e.event.IdleElapsed? && Expired(s, e.at))
       case Waiting => e.event.ClientRead? || e.event.UpstreamRead? || (e.event.IdleElapsed? && Expired(s, e.at))
       case ToUpstream(_) => e.event.SendDone?
       case ToClient(_) => e.event.SendDone?
       case Ended(_) => false
  }

  predicate Expired(s: State, now: nat) {
    s.deadline.Some? && s.deadline.value <= now
  }

  function Next(p: Policy, s: State, e: Stamped): State
    requires Enabled(s, e)
  {
    var t := s.(clock := e.at);
    match s.phase
    case Connecting =>
      if e.event.Connected? then PopQueue(t.(deadline := IdleDeadline(p, e.at)))
      else if e.event.ConnectFailed? then AbortDownstream(t, CODE_INTERNAL, UPSTREAM_CONNECT_FAILED)
      else ReadWhileConnecting(p, t, e.event.client)
    case Flushing(m) =>
      if e.event.IdleElapsed? then AbortBoth(t, CODE_GOING_AWAY, IDLE_TIMEOUT)
      else UpstreamSent(PopQueue(t.(up := t.up + [m])), t, e.event.result)
    case Waiting =>
      if e.event.IdleElapsed? then AbortBoth(t, CODE_GOING_AWAY, IDLE_TIMEOUT)
      else if e.event.ClientRead? then ReadClient(p, t, e.event.client)
      else ReadUpstream(p, t, e.event.upstream)
    case ToUpstream(m) => UpstreamSent(t.(up := t.up + [m], phase := Waiting), t, e.event.result)
    case ToClient(m) => ClientSent(t.(down := t.down + [m], phase := Waiting), t, e.event.result)
  }

  function ReadWhileConnecting(p: Policy, s: State, read: Read<AxumMessage>): State {
    match read
    case TooLarge => AbortDownstream(s, CODE_POLICY, FRAME_TOO_LARGE)
    case ReadError => End(s, ClientClosed)
    case Eof => End(s, ClientClosed)
    case Message(m) =>
      if m.AxClose? then End(s, ClientClosed)
      else if AxumBytes(m) > p.frameBytes then AbortDownstream(s, CODE_POLICY, FRAME_TOO_LARGE)
      else match AxumToTungstenite(m)
        case None => s
        case Some(converted) =>
          if !AcceptPending(|s.queue|) then AbortDownstream(s, CODE_POLICY, TOO_MANY_PENDING)
          else match QueuedBytesAfter(s.queuedBytes, AxumBytes(m), p.frameBytes)
            case None => AbortDownstream(s, CODE_POLICY, QUEUED_FRAMES_TOO_LARGE)
            case Some(total) => s.(queuedBytes := total, queue := s.queue + [converted])
  }

  function ReadClient(p: Policy, s: State, read: Read<AxumMessage>): State {
    match read
    case TooLarge => AbortBoth(s, CODE_POLICY, FRAME_TOO_LARGE)
    case ReadError => End(TellUpstream(s, CODE_NORMAL, CLIENT_CLOSED), ClientClosed)
    case Eof => End(TellUpstream(s, CODE_NORMAL, CLIENT_CLOSED), ClientClosed)
    case Message(AxClose(frame)) =>
      var close := if p.closePolicy.PrivateNormalized? then CloseFrame(CODE_NORMAL, CLIENT_CLOSED)
                   else if frame.Some? then frame.value
                   else CloseFrame(CODE_NORMAL, "");
      End(TellUpstream(s, close.code, close.reason), ClientClosed)
    case Message(m) =>
      var t := s.(deadline := Extend(p, s.deadline, s.clock));
      if AxumBytes(m) > p.frameBytes then AbortBoth(t, CODE_POLICY, FRAME_TOO_LARGE)
      else match AxumToTungstenite(m)
        case None => t
        case Some(converted) => t.(phase := ToUpstream(converted))
  }

  function ReadUpstream(p: Policy, s: State, read: Read<TungMessage>): State {
    match read
    case TooLarge => AbortBoth(s, CODE_POLICY, FRAME_TOO_LARGE)
    case ReadError => AbortDownstream(s, CODE_INTERNAL, UPSTREAM_ERROR)
    case Eof => AbortDownstream(s, CODE_INTERNAL, UPSTREAM_ERROR)
    case Message(TuClose(frame)) =>
      var close := CloseParts(frame);
      End(TellDownstream(s, close.code, close.reason), UpstreamClosed(close.code, close.reason))
    case Message(m) =>
      var t := s.(deadline := Extend(p, s.deadline, s.clock));
      if TungBytes(m) > p.frameBytes then AbortBoth(t, CODE_POLICY, FRAME_TOO_LARGE)
      else match TungsteniteToAxum(m)
        case None => t
        case Some(converted) => t.(phase := ToClient(converted))
  }

  /** A bounded send towards the upstream ended: `sent` when it succeeded, otherwise the run ends
      from `s`, where the frame is not on the leg. */
  function UpstreamSent(sent: State, s: State, result: SendResult): State {
    match result
    case SendOk => sent
    case SendFailed => AbortDownstream(s, CODE_INTERNAL, UPSTREAM_SEND_FAILED)
    case SendTimedOut => AbortBoth(s, CODE_INTERNAL, UPSTREAM_SEND_TIMED_OUT)
  }

  function ClientSent(sent: State, s: State, result: SendResult): State {
    match result
    case SendOk => sent
    case SendFailed => AbortUpstream(s, CODE_INTERNAL, CLIENT_SEND_FAILED)
    case SendTimedOut => AbortBoth(s, CODE_INTERNAL, DOWNSTREAM_SEND_TIMED_OUT)
  }

  /** The events can be observed one after another from `s`, and `Run` is where they lead. */
  predicate Feasible(p: Policy, s: State, es: seq<Stamped>)
    decreases |es|, 0
  {
    es == [] ||
    (Feasible(p, s, es[..|es| - 1]) && Enabled(Run(p, s, es[..|es| - 1]), es[|es| - 1]))
  }

  function Run(p: Policy, s: State, es: seq<Stamped>): State
    requires Feasible(p, s, es)
    decreases |es|, 1
  {
    if es == [] then s else Next(p, Run(p, s, es[..|es| - 1]), es[|es| - 1])
  }

  lemma RunStep(p: Policy, s: State, es: seq<Stamped>, e: Stamped)
    requires Feasible(p, s, es)
    ensures Feasible(p, s, es + [e]) <==> Enabled(Run(p, s, es), e)
    ensures Enabled(Run(p, s, es), e) ==> Run(p, s, es + [e]) == Next(p, Run(p, s, es), e)
  {
    assert (es + [e])[..|es|] == es;
  }

  /** Running two pieces in turn is running them joined. */
  lemma {:induction false} RunConcat(p: Policy, s: State, a: seq<Stamped>, b: seq<Stamped>)
    requires Feasible(p, s, a)
    ensures Feasible(p, s, a + b) <==> Feasible(p, Run(p, s, a), b)
    ensures Feasible(p, s, a + b) ==> Run(p, s, a + b) == Run(p, Run(p, s, a), b)
    decreases |b|
  {
    if b == [] {
      assert a + b == a;
    } else {
      var front := b[..|b| - 1];
      RunConcat(p, s, a, front);
      assert (a + b)[..|a + b| - 1] == a + front;
    }
  }

  // ----- What a trace says, without the pump -----

  /** The data frames the client has been read for by the end of the trace. */
  function ClientData(es: seq<Stamped>): seq<Data> {
    if es == [] then [] else ClientData(es[..|es| - 1]) + ClientDataIn(es[|es| - 1])
  }

  function ClientDataIn(e: Stamped): seq<Data> {
    match e.event
    case ClientRead(Message(m)) => AxumData(m)
    case _ => []
  }

  /** The data frames the upstream has been read for. */
  function UpstreamData(es: seq<Stamped>): seq<Data> {
    if es == [] then [] else UpstreamData(es[..|es| - 1]) + UpstreamDataIn(es[|es| - 1])
  }

  function UpstreamDataIn(e: Stamped): seq<Data> {
    match e.event
    case UpstreamRead(Message(m)) => TungData(m)
    case _ => []
  }

  /** The upstream connect completed within the trace. */
  predicate HasConnected(es: seq<Stamped>) {
    exists i :: 0 <= i < |es| && es[i].event.Connected?
  }

  /** A run starts either way. */
  predicate Starts(p: Policy, s: State) {
    s == PrivateInit(s.clock) || s == DirectInit(p, s.clock)
  }

  /** The run has an upstream leg: it started connected or connected on the way. */
  predicate Open(s0: State, es: seq<Stamped>) {
    s0.phase.Waiting? || HasConnected(es)
  }
}
