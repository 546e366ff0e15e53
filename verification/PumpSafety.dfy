/** Safety of the relay pump over whole runs: order and conservation on both legs, the pre-open
    bounds, the close discipline and the idle deadline. */
module PumpSafety {
  import opened Common
  import opened Frames
  import opened PumpMachine

  // ----- Shape: what the phases say about the queue and the legs -----

  predicate IsData(m: TungMessage) { m.TuText? || m.TuBinary? }

  predicate IsAxumData(m: AxumMessage) { m.AxText? || m.AxBinary? }

  predicate Small(p: Policy, m: TungMessage) { IsData(m) && TungBytes(m) <= p.frameBytes }

  predicate AxumSmall(p: Policy, m: AxumMessage) { IsAxumData(m) && AxumBytes(m) <= p.frameBytes }

  predicate AllSmall(p: Policy, ms: seq<TungMessage>) {
    forall i :: 0 <= i < |ms| ==> Small(p, ms[i])
  }

  predicate AllAxumSmall(p: Policy, ms: seq<AxumMessage>) {
    forall i :: 0 <= i < |ms| ==> AxumSmall(p, ms[i])
  }

  /** A running pump holds only data frames within the cap, at most 32 of them queued, and has put
      nothing but such frames on either leg. */
  predicate Shape(p: Policy, s: State) {
    && AllSmall(p, s.queue)
    && |s.queue| <= MAX_PENDING_FRAMES
    && (s.phase.Connecting? ==>
          && s.up == [] && s.down == []
          && s.queuedBytes == SumBytes(s.queue)
          && s.queuedBytes <= p.frameBytes && s.queuedBytes <= USIZE_MAX)
    && (s.phase.Flushing? ==> Small(p, s.phase.queued) && |s.queue| < MAX_PENDING_FRAMES && s.down == [])
    && (s.phase.ToUpstream? ==> Small(p, s.phase.outbound))
    && (s.phase.ToClient? ==> AxumSmall(p, s.phase.inbound))
    && (s.phase.Waiting? || s.phase.ToUpstream? || s.phase.ToClient? ==> s.queue == [])
    && AllSmall(p, s.up) && AllAxumSmall(p, s.down)
  }

  lemma ShapeConnecting(p: Policy, s: State, read: Read<AxumMessage>)
    requires Shape(p, s) && s.phase.Connecting?
    ensures !ReadWhileConnecting(p, s, read).phase.Ended? ==> Shape(p, ReadWhileConnecting(p, s, read))
  {
    hide SumBytes;
    if read.Message? && AxumToTungstenite(read.message).Some? {
      SumBytesAppend(s.queue, AxumToTungstenite(read.message).value);
    }
  }

  /** The flush loop's head keeps the shape, whether it comes from the connect or from a send. */
  lemma ShapePop(p: Policy, s: State)
    requires AllSmall(p, s.queue) && |s.queue| <= MAX_PENDING_FRAMES && s.down == [] && AllSmall(p, s.up)
    ensures Shape(p, PopQueue(s))
  {
  }

  lemma ShapeReads(p: Policy, s: State, client: Read<AxumMessage>, upstream: Read<TungMessage>)
    requires Shape(p, s) && s.phase.Waiting?
    ensures !ReadClient(p, s, client).phase.Ended? ==> Shape(p, ReadClient(p, s, client))
    ensures !ReadUpstream(p, s, upstream).phase.Ended? ==> Shape(p, ReadUpstream(p, s, upstream))
  {
  }

  lemma ShapeStep(p: Policy, s: State, e: Stamped)
    requires Shape(p, s) && Enabled(s, e)
    ensures !Next(p, s, e).phase.Ended? ==> Shape(p, Next(p, s, e))
  {
    var t := s.(clock := e.at);
    match s.phase
    case Connecting =>
      if e.event.ClientRead? {
        ShapeConnecting(p, t, e.event.client);
      } else if e.event.Connected? {
        ShapePop(p, t.(deadline := IdleDeadline(p, e.at)));
      }
    case Flushing(m) => ShapePop(p, t.(up := t.up + [m]));
    case Waiting =>
      if e.event.ClientRead? {
        ShapeReads(p, t, e.event.client, Eof);
      } else if e.event.UpstreamRead? {
        ShapeReads(p, t, Eof, e.event.upstream);
      }
    case ToUpstream(m) =>
    case ToClient(m) =>
    case Ended(_) =>
  }

  lemma {:induction false} ShapeHolds(p: Policy, s0: State, es: seq<Stamped>)
    requires Starts(p, s0) && Feasible(p, s0, es) && !Run(p, s0, es).phase.Ended?
    ensures Shape(p, Run(p, s0, es))
  {
    if es != [] {
      var front := es[..|es| - 1];
      ShapeHolds(p, s0, front);
      ShapeStep(p, Run(p, s0, front), es[|es| - 1]);
    }
  }

  // ----- Conservation and order -----

  function InFlightUp(s: State): seq<Data> {
    match s.phase
    case Flushing(m) => TungData(m)
    case ToUpstream(m) => TungData(m)
    case _ => []
  }

  function InFlightDown(s: State): seq<Data> {
    match s.phase
    case ToClient(m) => AxumData(m)
    case _ => []
  }

  /** Sent, in flight and queued data are exactly what the client was read for. */
  predicate UpConserved(s: State, read: seq<Data>) {
    TungDataAll(s.up) + InFlightUp(s) + TungDataAll(s.queue) == read
  }

  predicate DownConserved(s: State, read: seq<Data>) {
    AxumDataAll(s.down) + InFlightDown(s) == read
  }

  /** A run that ended at the peer's own close has sent everything; any other end has sent a
      prefix. `open` tells whether the upstream leg existed. */
  predicate EndConserved(s: State, open: bool, client: seq<Data>, upstream: seq<Data>) {
    && TungDataAll(s.up) <= client
    && AxumDataAll(s.down) <= upstream
    && (s.phase == Ended(ClientClosed) && open ==> TungDataAll(s.up) == client && AxumDataAll(s.down) == upstream)
    && (s.phase.Ended? && s.phase.outcome.UpstreamClosed? ==>
          TungDataAll(s.up) == client && AxumDataAll(s.down) == upstream)
  }

  predicate Conserved(s: State, open: bool, client: seq<Data>, upstream: seq<Data>) {
    if s.phase.Ended? then EndConserved(s, open, client, upstream)
    else
      && UpConserved(s, client)
      && DownConserved(s, upstream)
      && (s.phase.Connecting? <==> !open)
  }

  lemma PopConserves(s: State)
    ensures TungDataAll(PopQueue(s).up) + InFlightUp(PopQueue(s)) + TungDataAll(PopQueue(s).queue)
            == TungDataAll(s.up) + TungDataAll(s.queue)
  {
    if s.queue != [] {
      TungDataPop(s.queue);
    }
  }

  /** Closing frames carry no data. */
  lemma TellConserves(s: State, code: nat, reason: string)
    ensures TungDataAll(TellUpstream(s, code, reason).up) == TungDataAll(s.up)
    ensures AxumDataAll(TellDownstream(s, code, reason).down) == AxumDataAll(s.down)
  {
    TungDataAppend(s.up, TuClose(Some(CloseFrame(code, reason))));
    AxumDataAppend(s.down, AxClose(Some(CloseFrame(code, reason))));
  }

  /** However it is told to the legs, an abort leaves a prefix sent. */
  lemma AbortConserves(s: State, code: nat, reason: string, open: bool, client: seq<Data>, upstream: seq<Data>,
                       client': seq<Data>, upstream': seq<Data>)
    requires !s.phase.Ended? && Conserved(s, open, client, upstream) && client <= client' && upstream <= upstream'
    ensures Conserved(AbortBoth(s, code, reason), open, client', upstream')
    ensures Conserved(AbortDownstream(s, code, reason), open, client', upstream')
    ensures Conserved(AbortUpstream(s, code, reason), open, client', upstream')
  {
    hide TungDataAll, AxumDataAll;
    TellConserves(s, code, reason);
    TellConserves(TellDownstream(s, code, reason), code, reason);
  }

  /** Between sends nothing is in flight, so a peer's close finds everything sent. */
  lemma CloseConserves(s: State, code: nat, reason: string, client: seq<Data>, upstream: seq<Data>)
    requires s.phase.Waiting? && s.queue == [] && Conserved(s, true, client, upstream)
    ensures Conserved(End(TellUpstream(s, code, reason), ClientClosed), true, client, upstream)
    ensures Conserved(End(TellDownstream(s, code, reason), UpstreamClosed(code, reason)), true, client, upstream)
  {
    assert TungDataAll(s.queue) == [];
    hide TungDataAll, AxumDataAll;
    TellConserves(s, code, reason);
  }

  /** A data frame read in the connected loop is in flight; a keepalive leaves no trace. */
  lemma ForwardConserves(s: State, client: seq<Data>, upstream: seq<Data>, deadline: Option<nat>,
                         m: TungMessage, n: AxumMessage)
    requires s.phase.Waiting? && s.queue == [] && Conserved(s, true, client, upstream)
    ensures Conserved(s.(deadline := deadline), true, client, upstream)
    ensures Conserved(s.(deadline := deadline, phase := ToUpstream(m)), true, client + TungData(m), upstream)
    ensures Conserved(s.(deadline := deadline, phase := ToClient(n)), true, client, upstream + AxumData(n))
  {
    assert TungDataAll(s.queue) == [];
    hide TungDataAll, AxumDataAll;
  }

  /** A data frame read while connecting is queued, unless the run ends on it. */
  lemma ConnectingConserves(p: Policy, s: State, read: Read<AxumMessage>, client: seq<Data>, upstream: seq<Data>)
    requires s.phase.Connecting? && Conserved(s, false, client, upstream)
    ensures Conserved(ReadWhileConnecting(p, s, read), false,
                      client + (if read.Message? then AxumData(read.message) else []), upstream)
  {
    hide TungDataAll, AxumDataAll;
    var client' := client + (if read.Message? then AxumData(read.message) else []);
    var t := ReadWhileConnecting(p, s, read);
    if t.phase.Ended? {
      if t.phase.outcome.Aborted? {
        AbortConserves(s, t.phase.outcome.code, t.phase.outcome.reason, false, client, upstream, client', upstream);
      }
    } else if AxumToTungstenite(read.message).Some? {
      TungDataAppend(s.queue, AxumToTungstenite(read.message).value);
    }
  }

  lemma ReadClientConserves(p: Policy, s: State, read: Read<AxumMessage>, client: seq<Data>, upstream: seq<Data>)
    requires s.phase.Waiting? && s.queue == [] && Conserved(s, true, client, upstream)
    ensures Conserved(ReadClient(p, s, read), true,
                      client + (if read.Message? then AxumData(read.message) else []), upstream)
  {
    hide Conserved;
    var client' := client + (if read.Message? then AxumData(read.message) else []);
    var t := ReadClient(p, s, read);
    if !t.phase.Ended? {
      ForwardConserves(s, client, upstream, t.deadline,
                       if t.phase.ToUpstream? then t.phase.outbound else TuPing(""), AxPing(""));
      assert t.phase.Waiting? ==> client' == client;
    } else if t.phase.outcome.Aborted? {
      var u := s.(deadline := t.deadline);
      ForwardConserves(s, client, upstream, t.deadline, TuPing(""), AxPing(""));
      AbortConserves(u, t.phase.outcome.code, t.phase.outcome.reason, true, client, upstream, client', upstream);
    } else {
      assert client' == client;
      var close := t.up[|s.up|].frame.value;
      CloseConserves(s, close.code, close.reason, client, upstream);
    }
  }

  lemma ReadUpstreamConserves(p: Policy, s: State, read: Read<TungMessage>, client: seq<Data>, upstream: seq<Data>)
    requires s.phase.Waiting? && s.queue == [] && Conserved(s, true, client, upstream)
    ensures Conserved(ReadUpstream(p, s, read), true, client,
                      upstream + (if read.Message? then TungData(read.message) else []))
  {
    hide Conserved;
    var upstream' := upstream + (if read.Message? then TungData(read.message) else []);
    var t := ReadUpstream(p, s, read);
    if !t.phase.Ended? {
      ForwardConserves(s, client, upstream, t.deadline, TuPing(""),
                       if t.phase.ToClient? then t.phase.inbound else AxPing(""));
      assert t.phase.Waiting? ==> upstream' == upstream;
    } else if t.phase.outcome.Aborted? {
      var u := s.(deadline := t.deadline);
      ForwardConserves(s, client, upstream, t.deadline, TuPing(""), AxPing(""));
      AbortConserves(u, t.phase.outcome.code, t.phase.outcome.reason, true, client, upstream, client, upstream');
    } else {
      assert upstream' == upstream;
      CloseConserves(s, t.phase.outcome.code, t.phase.outcome.reason, client, upstream);
    }
  }

  /** A completed send moves its frame from in flight to sent. */
  lemma SendConserves(p: Policy, s: State, e: Stamped, client: seq<Data>, upstream: seq<Data>)
    requires s.phase.Flushing? || s.phase.ToUpstream? || s.phase.ToClient?
    requires Enabled(s, e) && Conserved(s, true, client, upstream)
    ensures Conserved(Next(p, s, e), true, client, upstream)
  {
    hide TungDataAll, AxumDataAll;
    var t := Next(p, s, e);
    if t.phase.Ended? {
      AbortConserves(s.(clock := e.at), t.phase.outcome.code, t.phase.outcome.reason, true,
                     client, upstream, client, upstream);
    } else {
      match s.phase
      case Flushing(m) =>
        TungDataAppend(s.up, m);
        PopConserves(s.(clock := e.at, up := s.up + [m]));
      case ToUpstream(m) => TungDataAppend(s.up, m);
      case ToClient(m) => AxumDataAppend(s.down, m);
    }
  }

  /** Connecting makes the queue the flush loop's and opens the upstream leg. */
  lemma ConnectedConserves(p: Policy, s: State, e: Stamped, client: seq<Data>, upstream: seq<Data>)
    requires s.phase.Connecting? && Enabled(s, e) && e.event.Connected? && Conserved(s, false, client, upstream)
    ensures Conserved(Next(p, s, e), true, client, upstream)
  {
    hide TungDataAll, AxumDataAll;
    PopConserves(s.(clock := e.at, deadline := IdleDeadline(p, e.at)));
  }

  lemma ConservedStep(p: Policy, s: State, e: Stamped, open: bool, client: seq<Data>, upstream: seq<Data>)
    requires Shape(p, s) && Enabled(s, e) && Conserved(s, open, client, upstream)
    ensures Conserved(Next(p, s, e), open || e.event.Connected?, client + ClientDataIn(e), upstream + UpstreamDataIn(e))
  {
    assert (s.phase.Connecting? <==> !open) && Conserved(s.(clock := e.at), open, client, upstream);
    assert client + [] == client && upstream + [] == upstream;
    hide Conserved, ReadWhileConnecting, ReadClient, ReadUpstream;
    var t := s.(clock := e.at);
    match s.phase
    case Connecting =>
      if e.event.Connected? {
        ConnectedConserves(p, s, e, client, upstream);
      } else if e.event.ConnectFailed? {
        AbortConserves(t, CODE_INTERNAL, UPSTREAM_CONNECT_FAILED, open, client, upstream, client, upstream);
      } else {
        ConnectingConserves(p, t, e.event.client, client, upstream);
      }
    case Waiting =>
      if e.event.IdleElapsed? {
        AbortConserves(t, CODE_GOING_AWAY, IDLE_TIMEOUT, open, client, upstream, client, upstream);
      } else if e.event.ClientRead? {
        ReadClientConserves(p, t, e.event.client, client, upstream);
      } else {
        ReadUpstreamConserves(p, t, e.event.upstream, client, upstream);
      }
    case _ => SendConserves(p, s, e, client, upstream);
  }

  lemma OpenStep(s0: State, es: seq<Stamped>)
    requires es != []
    ensures Open(s0, es) <==> Open(s0, es[..|es| - 1]) || es[|es| - 1].event.Connected?
  {
    var front := es[..|es| - 1];
    assert forall i :: 0 <= i < |front| ==> front[i] == es[i];
  }

  lemma ConservedStart(p: Policy, s0: State)
    requires Starts(p, s0)
    ensures Conserved(s0, Open(s0, []), [], [])
  {
  }

  /** Conservation and order in every reachable state of every run. */
  lemma {:induction false} Conservation(p: Policy, s0: State, es: seq<Stamped>)
    requires Starts(p, s0) && Feasible(p, s0, es)
    ensures Conserved(Run(p, s0, es), Open(s0, es), ClientData(es), UpstreamData(es))
  {
    hide Conserved, Shape, Next, Open;
    if es == [] {
      ConservedStart(p, s0);
    } else {
      var front, e := es[..|es| - 1], es[|es| - 1];
      Conservation(p, s0, front);
      ShapeHolds(p, s0, front);
      ConservedStep(p, Run(p, s0, front), e, Open(s0, front), ClientData(front), UpstreamData(front));
      OpenStep(s0, es);
    }
  }

  /** Whatever happens, what is on a leg is a prefix of what the other peer was read for. */
  lemma SentIsPrefix(p: Policy, s0: State, es: seq<Stamped>)
    requires Starts(p, s0) && Feasible(p, s0, es)
    ensures TungDataAll(Run(p, s0, es).up) <= ClientData(es)
    ensures AxumDataAll(Run(p, s0, es).down) <= UpstreamData(es)
  {
    Conservation(p, s0, es);
    hide TungDataAll, AxumDataAll, ClientData, UpstreamData, Run;
  }

  // ----- Closing frames -----

  /** The leg that failed is not told: these aborts close only the other one. */
  predicate UpstreamGone(reason: string) { reason == UPSTREAM_SEND_FAILED || reason == UPSTREAM_ERROR }

  predicate ClientGone(reason: string) { reason == CLIENT_SEND_FAILED }

  /** The closing frame of a client that went away, as the upstream is to see it. */
  function ClientFarewell(p: Policy, e: Stamped): CloseFrame {
    if p.closePolicy.PrivateNormalized? || !e.event.ClientRead? || !e.event.client.Message?
        || !e.event.client.message.AxClose?
    then CloseFrame(CODE_NORMAL, CLIENT_CLOSED)
    else e.event.client.message.frame.GetOr(CloseFrame(CODE_NORMAL, ""))
  }

  /** The frames an outcome puts on the upstream leg: at most one. */
  function ToldUpstream(outcome: Outcome, open: bool, farewell: CloseFrame): seq<TungMessage> {
    match outcome
    case ClientClosed => if open then [TuClose(Some(farewell))] else []
    case UpstreamClosed(_, _) => []
    case Aborted(code, reason) =>
      if open && !UpstreamGone(reason) then [TuClose(Some(CloseFrame(code, reason)))] else []
  }

  function ToldDownstream(outcome: Outcome): seq<AxumMessage> {
    match outcome
    case ClientClosed => []
    case UpstreamClosed(code, reason) => [AxClose(Some(CloseFrame(code, reason)))]
    case Aborted(code, reason) => if ClientGone(reason) then [] else [AxClose(Some(CloseFrame(code, reason)))]
  }

  /** What the last step `e` of a run put on the legs of `s`. */
  predicate Told(p: Policy, s: State, t: State, e: Stamped, open: bool)
    requires t.phase.Ended?
  {
    && t.up == s.up + ToldUpstream(t.phase.outcome, open, ClientFarewell(p, e))
    && t.down == s.down + ToldDownstream(t.phase.outcome)
  }

  /** An abort that is told everywhere, or everywhere but the leg that failed. */
  lemma ToldAbort(p: Policy, s: State, code: nat, reason: string, e: Stamped, open: bool)
    ensures open && !UpstreamGone(reason) && !ClientGone(reason) ==> Told(p, s, AbortBoth(s, code, reason), e, open)
    ensures (!open || UpstreamGone(reason)) && !ClientGone(reason)
        ==> Told(p, s, AbortDownstream(s, code, reason), e, open)
    ensures open && ClientGone(reason) && !UpstreamGone(reason) ==> Told(p, s, AbortUpstream(s, code, reason), e, open)
  {
    hide UpstreamGone, ClientGone;
    assert s.up + [] == s.up && s.down + [] == s.down;
  }

  predicate NoneGone(reason: string) { !UpstreamGone(reason) && !ClientGone(reason) }

  lemma GoneReasons()
    ensures UpstreamGone(UPSTREAM_SEND_FAILED) && UpstreamGone(UPSTREAM_ERROR) && ClientGone(CLIENT_SEND_FAILED)
    ensures !UpstreamGone(CLIENT_SEND_FAILED) && !ClientGone(UPSTREAM_SEND_FAILED) && !ClientGone(UPSTREAM_ERROR)
    ensures NoneGone(TOO_MANY_PENDING) && NoneGone(QUEUED_FRAMES_TOO_LARGE) && NoneGone(FRAME_TOO_LARGE)
    ensures NoneGone(UPSTREAM_CONNECT_FAILED) && NoneGone(UPSTREAM_SEND_TIMED_OUT)
    ensures NoneGone(DOWNSTREAM_SEND_TIMED_OUT) && NoneGone(IDLE_TIMEOUT)
  {
    assert |UPSTREAM_SEND_FAILED| == 20 && |UPSTREAM_ERROR| == 14 && |CLIENT_SEND_FAILED| == 18;
    assert |IDLE_TIMEOUT| == 12 && |UPSTREAM_CONNECT_FAILED| == 23 && |FRAME_TOO_LARGE| == 15
        && |TOO_MANY_PENDING| == 23;
    assert |QUEUED_FRAMES_TOO_LARGE| == 23 && |UPSTREAM_SEND_TIMED_OUT| == 23 && |DOWNSTREAM_SEND_TIMED_OUT| == 25;
  }

  lemma ToldEarly(p: Policy, s: State, read: Read<AxumMessage>, e: Stamped)
    requires s.phase.Connecting?
    ensures var t := ReadWhileConnecting(p, s, read); t.phase.Ended? ==> Told(p, s, t, e, false)
  {
    GoneReasons();
    ToldAbort(p, s, CODE_POLICY, FRAME_TOO_LARGE, e, false);
    ToldAbort(p, s, CODE_POLICY, TOO_MANY_PENDING, e, false);
    ToldAbort(p, s, CODE_POLICY, QUEUED_FRAMES_TOO_LARGE, e, false);
    assert s.up + [] == s.up && s.down + [] == s.down;
    hide UpstreamGone, ClientGone, AxumToTungstenite, AxumBytes;
  }

  lemma ToldClientRead(p: Policy, s: State, e: Stamped)
    requires s.phase.Waiting? && e.event.ClientRead?
    ensures var t := ReadClient(p, s, e.event.client); t.phase.Ended? ==> Told(p, s, t, e, true)
  {
    GoneReasons();
    ToldAbort(p, s, CODE_POLICY, FRAME_TOO_LARGE, e, true);
    ToldAbort(p, s.(deadline := Extend(p, s.deadline, s.clock)), CODE_POLICY, FRAME_TOO_LARGE, e, true);
    assert s.down + [] == s.down;
    hide UpstreamGone, ClientGone, AxumToTungstenite, AxumBytes;
  }

  lemma ToldUpstreamRead(p: Policy, s: State, read: Read<TungMessage>, e: Stamped)
    requires s.phase.Waiting?
    ensures var t := ReadUpstream(p, s, read); t.phase.Ended? ==> Told(p, s, t, e, true)
  {
    GoneReasons();
    ToldAbort(p, s, CODE_POLICY, FRAME_TOO_LARGE, e, true);
    ToldAbort(p, s, CODE_INTERNAL, UPSTREAM_ERROR, e, true);
    ToldAbort(p, s.(deadline := Extend(p, s.deadline, s.clock)), CODE_POLICY, FRAME_TOO_LARGE, e, true);
    assert s.up + [] == s.up;
    hide UpstreamGone, ClientGone, TungsteniteToAxum, TungBytes;
  }

  lemma ToldSend(p: Policy, s: State, e: Stamped)
    requires Enabled(s, e) && (s.phase.Flushing? || s.phase.ToUpstream? || s.phase.ToClient?)
    ensures Next(p, s, e).phase.Ended? ==> Told(p, s, Next(p, s, e), e, true)
  {
    GoneReasons();
    var t := s.(clock := e.at);
    ToldAbort(p, t, CODE_GOING_AWAY, IDLE_TIMEOUT, e, true);
    ToldAbort(p, t, CODE_INTERNAL, UPSTREAM_SEND_FAILED, e, true);
    ToldAbort(p, t, CODE_INTERNAL, UPSTREAM_SEND_TIMED_OUT, e, true);
    ToldAbort(p, t, CODE_INTERNAL, CLIENT_SEND_FAILED, e, true);
    ToldAbort(p, t, CODE_INTERNAL, DOWNSTREAM_SEND_TIMED_OUT, e, true);
    hide UpstreamGone, ClientGone;
  }

  lemma ToldStep(p: Policy, s: State, e: Stamped)
    requires Enabled(s, e) && Next(p, s, e).phase.Ended?
    ensures Told(p, s, Next(p, s, e), e, !s.phase.Connecting?)
    ensures !e.event.Connected?
  {
    GoneReasons();
    hide ReadWhileConnecting, ReadClient, ReadUpstream, UpstreamGone, ClientGone;
    var t := s.(clock := e.at);
    match s.phase
    case Connecting =>
      ToldAbort(p, t, CODE_INTERNAL, UPSTREAM_CONNECT_FAILED, e, false);
      if e.event.ClientRead? {
        ToldEarly(p, t, e.event.client, e);
      }
    case Waiting =>
      ToldAbort(p, t, CODE_GOING_AWAY, IDLE_TIMEOUT, e, true);
      if e.event.ClientRead? {
        ToldClientRead(p, t, e);
      } else if e.event.UpstreamRead? {
        ToldUpstreamRead(p, t, e.event.upstream, e);
      }
    case _ => ToldSend(p, s, e);
  }

  /** The upstream leg exists exactly when the pump is past connecting. */
  lemma OpenPhase(p: Policy, s0: State, es: seq<Stamped>)
    requires Starts(p, s0) && Feasible(p, s0, es) && !Run(p, s0, es).phase.Ended?
    ensures Run(p, s0, es).phase.Connecting? <==> !Open(s0, es)
  {
    hide TungDataAll, AxumDataAll, ClientData, UpstreamData, Run, Open;
    Conservation(p, s0, es);
  }

  predicate ClosesLast(s: State) {
    && (forall i :: 0 <= i < |s.up| && !IsData(s.up[i]) ==> i == |s.up| - 1)
    && (forall i :: 0 <= i < |s.down| && !IsAxumData(s.down[i]) ==> i == |s.down| - 1)
  }

  lemma ToldLast(p: Policy, s: State, t: State, e: Stamped, open: bool)
    requires t.phase.Ended? && Told(p, s, t, e, open) && AllSmall(p, s.up) && AllAxumSmall(p, s.down)
    ensures ClosesLast(t)
  {
    assert |ToldUpstream(t.phase.outcome, open, ClientFarewell(p, e))| <= 1;
    assert |ToldDownstream(t.phase.outcome)| <= 1;
  }

  /** Close discipline of every run: nothing but data frames within the cap until the last step,
      then exactly the closing frames its outcome calls for. So each leg carries at most one
      closing frame, and as its last frame. */
  lemma CloseDiscipline(p: Policy, s0: State, es: seq<Stamped>)
    requires Starts(p, s0) && es != [] && Feasible(p, s0, es) && Run(p, s0, es).phase.Ended?
    ensures AllSmall(p, Run(p, s0, es[..|es| - 1]).up) && AllAxumSmall(p, Run(p, s0, es[..|es| - 1]).down)
    ensures Told(p, Run(p, s0, es[..|es| - 1]), Run(p, s0, es), es[|es| - 1], Open(s0, es))
    ensures ClosesLast(Run(p, s0, es))
  {
    hide Next, Told, Open, ClosesLast, AllSmall, AllAxumSmall;
    var front, e := es[..|es| - 1], es[|es| - 1];
    ShapeHolds(p, s0, front);
    OpenPhase(p, s0, front);
    OpenStep(s0, es);
    ToldStep(p, Run(p, s0, front), e);
    ToldLast(p, Run(p, s0, front), Run(p, s0, es), e, Open(s0, es));
  }

  /** No data frame longer than the cap is ever on either leg, in any phase of any run. */
  lemma EveryFrameFits(p: Policy, s0: State, es: seq<Stamped>)
    requires Starts(p, s0) && Feasible(p, s0, es)
    ensures forall i :: 0 <= i < |Run(p, s0, es).up| ==> TungBytes(Run(p, s0, es).up[i]) <= p.frameBytes
    ensures forall i :: 0 <= i < |Run(p, s0, es).down| ==> AxumBytes(Run(p, s0, es).down[i]) <= p.frameBytes
  {
    hide Next;
    if !Run(p, s0, es).phase.Ended? {
      ShapeHolds(p, s0, es);
    } else if es != [] {
      CloseDiscipline(p, s0, es);
    }
  }

  /** Every closing frame of an aborted run carries the code and the reason of the abort. */
  lemma AbortsSayWhy(p: Policy, s0: State, es: seq<Stamped>)
    requires Starts(p, s0) && es != [] && Feasible(p, s0, es)
    requires Run(p, s0, es).phase.Ended? && Run(p, s0, es).phase.outcome.Aborted?
    ensures var t := Run(p, s0, es); var why := Some(CloseFrame(t.phase.outcome.code, t.phase.outcome.reason));
            && (forall m :: m in t.up ==> IsData(m) || m == TuClose(why))
            && (forall m :: m in t.down ==> IsAxumData(m) || m == AxClose(why))
  {
    CloseDiscipline(p, s0, es);
    hide Run, Feasible, Open;
  }

  /** The client said it leaves, or is gone. */
  predicate ClientLeaves(e: Event) {
    e.ClientRead? && (e.client.ReadError? || e.client.Eof? || (e.client.Message? && e.client.message.AxClose?))
  }

  /** The upstream sent a close with this code and reason; a missing code, or a zero one, counts as
      1000. */
  predicate UpstreamSays(e: Event, code: nat, reason: string) {
    && e.UpstreamRead? && e.upstream.Message? && e.upstream.message.TuClose?
    && CloseParts(e.upstream.message.frame) == CloseFrame(code, reason)
  }

  /** An orderly end is caused by the peer it names. */
  lemma EndCause(p: Policy, s: State, e: Stamped)
    requires Enabled(s, e) && Next(p, s, e).phase.Ended?
    ensures match Next(p, s, e).phase.outcome
            case UpstreamClosed(code, reason) => UpstreamSays(e.event, code, reason)
            case ClientClosed => ClientLeaves(e.event)
            case Aborted(_, _) => !ClientLeaves(e.event)
  {
  }

  /** What an orderly end says. An upstream close reaches the client with the code and the reason the
      upstream sent, and the upstream is told nothing. A client that leaves an open run is told
      nothing, and the upstream hears its farewell: its own close frame under the transparent policy,
      always 1000 "client closed" under the private one. */
  lemma FarewellsMatch(p: Policy, s0: State, es: seq<Stamped>)
    requires Starts(p, s0) && es != [] && Feasible(p, s0, es) && Run(p, s0, es).phase.Ended?
    ensures var t, e := Run(p, s0, es), es[|es| - 1];
            match t.phase.outcome
            case UpstreamClosed(code, reason) =>
              && UpstreamSays(e.event, code, reason)
              && t.down != [] && t.down[|t.down| - 1] == AxClose(Some(CloseFrame(code, reason)))
              && (forall m :: m in t.up ==> IsData(m))
            case ClientClosed =>
              && ClientLeaves(e.event)
              && (forall m :: m in t.down ==> IsAxumData(m))
              && (Open(s0, es) ==> t.up != [] && t.up[|t.up| - 1] == TuClose(Some(ClientFarewell(p, e))))
              && (!Open(s0, es) ==> forall m :: m in t.up ==> IsData(m))
            case Aborted(_, _) => !ClientLeaves(e.event)
    ensures p.closePolicy.PrivateNormalized?
            ==> ClientFarewell(p, es[|es| - 1]) == CloseFrame(CODE_NORMAL, CLIENT_CLOSED)
  {
    CloseDiscipline(p, s0, es);
    EndCause(p, Run(p, s0, es[..|es| - 1]), es[|es| - 1]);
    hide Run, Feasible, Open, Next, ClientLeaves, UpstreamSays, ClientFarewell;
    PrivateFarewell(p, es[|es| - 1]);
  }

  lemma PrivateFarewell(p: Policy, e: Stamped)
    ensures p.closePolicy.PrivateNormalized? ==> ClientFarewell(p, e) == CloseFrame(CODE_NORMAL, CLIENT_CLOSED)
  {
  }
}
