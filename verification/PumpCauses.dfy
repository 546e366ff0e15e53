/** Why a run of the relay pump ends: the outcome as a function of what was read and of the last event,
    with every code and reason written out. */
module PumpCauses {
  import opened Common
  import opened Frames
  import opened PumpMachine
  import opened PumpSafety

  // ----- What an event carries -----

  /** The payload of a data frame that is read. */
  function Payload(e: Event): Option<string> {
    match e
    case ClientRead(Message(AxText(text))) => Some(text)
    case ClientRead(Message(AxBinary(bytes))) => Some(bytes)
    case UpstreamRead(Message(TuText(text))) => Some(text)
    case UpstreamRead(Message(TuBinary(bytes))) => Some(bytes)
    case _ => None
  }

  predicate Oversized(e: Event, cap: nat) {
    || e == ClientRead(TooLarge) || e == UpstreamRead(TooLarge)
    || (Payload(e).Some? && |Payload(e).value| > cap)
  }

  predicate UpstreamBroken(e: Event) { e == UpstreamRead(ReadError) || e == UpstreamRead(Eof) }

  /** The upstream's close as the client is to see it: 1000 for a missing or a zero code. */
  function UpstreamClose(e: Event): Option<(nat, string)> {
    match e
    case UpstreamRead(Message(TuClose(None))) => Some((1000, ""))
    case UpstreamRead(Message(TuClose(Some(f)))) => Some((if f.code == 0 then 1000 else f.code, f.reason))
    case _ => None
  }

  function TotalSize(frames: seq<Data>): nat {
    if frames == [] then 0 else TotalSize(frames[..|frames| - 1]) + |frames[|frames| - 1].bytes|
  }

  /** Which leg a completed send was for. */
  datatype Leg = TowardsUpstream | TowardsClient

  /** The outcome an event calls for, in a run that was read `data` for while not yet `open`; `leg` is
      where the frame in flight goes. None when the run goes on. */
  function Cause(p: Policy, open: bool, data: seq<Data>, leg: Leg, e: Event): Option<Outcome> {
    if e.ConnectFailed? then Some(Aborted(1011, "upstream connect failed"))
    else if e.IdleElapsed? then Some(Aborted(1001, "idle timeout"))
    else if e == SendDone(SendFailed) then
      Some(Aborted(1011, if leg.TowardsUpstream? then "upstream send failed" else "client send failed"))
    else if e == SendDone(SendTimedOut) then
      Some(Aborted(1011, if leg.TowardsUpstream? then "upstream send timed out" else "downstream send timed out"))
    else if ClientLeaves(e) then Some(ClientClosed)
    else if UpstreamClose(e).Some? then Some(UpstreamClosed(UpstreamClose(e).value.0, UpstreamClose(e).value.1))
    else if UpstreamBroken(e) then Some(Aborted(1011, "upstream error"))
    else if Oversized(e, p.frameBytes) then Some(Aborted(1009, "frame too large"))
    else if open || Payload(e).None? then None
    else if |data| >= 32 then Some(Aborted(1009, "too many pending frames"))
    else if Overflows(TotalSize(data) + |Payload(e).value|, p) then Some(Aborted(1009, "queued frames too large"))
    else None
  }

  /** A total beyond the cap, or beyond the integer width. */
  predicate Overflows(total: nat, p: Policy) { total > p.frameBytes || total > 0xFFFF_FFFF_FFFF_FFFF }

  function LegOf(phase: Phase): Leg { if phase.ToClient? then TowardsClient else TowardsUpstream }

  // ----- One step -----

  predicate EndsAs(t: State, cause: Option<Outcome>) {
    if cause.Some? then t.phase == Ended(cause.value) else !t.phase.Ended?
  }

  lemma EarlyCause(p: Policy, s: State, e: Event, data: seq<Data>)
    requires s.phase.Connecting? && e.ClientRead? && |s.queue| == |data| && s.queuedBytes == TotalSize(data)
    ensures EndsAs(ReadWhileConnecting(p, s, e.client), Cause(p, false, data, TowardsUpstream, e))
  {
    hide TotalSize;
  }

  lemma ClientCause(p: Policy, s: State, e: Event, data: seq<Data>)
    requires s.phase.Waiting? && e.ClientRead?
    ensures EndsAs(ReadClient(p, s, e.client), Cause(p, true, data, TowardsUpstream, e))
  {
    hide TotalSize;
  }

  lemma UpstreamCause(p: Policy, s: State, e: Event, data: seq<Data>)
    requires s.phase.Waiting? && e.UpstreamRead?
    ensures EndsAs(ReadUpstream(p, s, e.upstream), Cause(p, true, data, TowardsUpstream, e))
  {
    hide TotalSize;
  }

  lemma OtherCause(p: Policy, s: State, e: Stamped, data: seq<Data>)
    requires Enabled(s, e) && !e.event.ClientRead? && !e.event.UpstreamRead?
    ensures EndsAs(Next(p, s, e), Cause(p, !s.phase.Connecting?, data, LegOf(s.phase), e.event))
  {
    hide ReadWhileConnecting, ReadClient, ReadUpstream, TotalSize, Expired;
    if e.event.SendDone? {
      SendCause(p, s, e, data);
    }
  }

  lemma SendCause(p: Policy, s: State, e: Stamped, data: seq<Data>)
    requires Enabled(s, e) && e.event.SendDone?
    ensures EndsAs(Next(p, s, e), Cause(p, !s.phase.Connecting?, data, LegOf(s.phase), e.event))
  {
    hide ReadWhileConnecting, ReadClient, ReadUpstream, TotalSize, Expired;
  }

  lemma StepCause(p: Policy, s: State, e: Stamped, data: seq<Data>)
    requires Enabled(s, e)
    requires s.phase.Connecting? ==> |s.queue| == |data| && s.queuedBytes == TotalSize(data)
    ensures EndsAs(Next(p, s, e), Cause(p, !s.phase.Connecting?, data, LegOf(s.phase), e.event))
  {
    hide ReadWhileConnecting, ReadClient, ReadUpstream, TotalSize, Cause, Expired;
    var t := s.(clock := e.at);
    if e.event.ClientRead? {
      if s.phase.Connecting? {
        EarlyCause(p, t, e.event, data);
      } else {
        ClientCause(p, t, e.event, data);
      }
    } else if e.event.UpstreamRead? {
      UpstreamCause(p, t, e.event, data);
    } else {
      OtherCause(p, s, e, data);
    }
  }

  // ----- Whole runs -----

  lemma {:induction false} QueueMeasures(queue: seq<TungMessage>)
    requires forall i :: 0 <= i < |queue| ==> IsData(queue[i])
    ensures |TungDataAll(queue)| == |queue| && TotalSize(TungDataAll(queue)) == SumBytes(queue)
  {
    if queue != [] {
      var front := queue[..|queue| - 1];
      QueueMeasures(front);
      TungDataSnoc(queue);
      var d := TungData(queue[|queue| - 1])[0];
      assert TungDataAll(queue) == TungDataAll(front) + [d];
      TotalSnoc(TungDataAll(front), d);
    }
  }

  lemma TotalSnoc(frames: seq<Data>, d: Data)
    ensures TotalSize(frames + [d]) == TotalSize(frames) + |d.bytes|
  {
    assert (frames + [d])[..|frames|] == frames;
  }

  /** While connecting, the queue is what the client was read for. */
  lemma PendingIsRead(p: Policy, s0: State, es: seq<Stamped>)
    requires Starts(p, s0) && Feasible(p, s0, es) && Run(p, s0, es).phase.Connecting?
    ensures |Run(p, s0, es).queue| == |ClientData(es)| && Run(p, s0, es).queuedBytes == TotalSize(ClientData(es))
  {
    hide TungDataAll, AxumDataAll, ClientData, UpstreamData, TotalSize, SumBytes, Open;
    Conservation(p, s0, es);
    ShapeHolds(p, s0, es);
    OpenPhase(p, s0, es);
    NoneSent();
    assert [] + [] + TungDataAll(Run(p, s0, es).queue) == TungDataAll(Run(p, s0, es).queue);
    hide Run, Feasible;
    QueueMeasures(Run(p, s0, es).queue);
  }

  lemma NoneSent()
    ensures TungDataAll([]) == []
  {
  }

  /** Every run ends at an event, and as an outcome, exactly when and as the event calls for. So it goes
      on over every other event, and then nothing read is lost: it is sent, in flight or queued. */
  lemma OutcomeExactly(p: Policy, s0: State, es: seq<Stamped>)
    requires Starts(p, s0) && es != [] && Feasible(p, s0, es)
    ensures var front, e := es[..|es| - 1], es[|es| - 1].event;
            var s := Run(p, s0, front);
            EndsAs(Run(p, s0, es), Cause(p, Open(s0, front), ClientData(front), LegOf(s.phase), e))
    ensures !Run(p, s0, es).phase.Ended? ==>
              UpConserved(Run(p, s0, es), ClientData(es)) && DownConserved(Run(p, s0, es), UpstreamData(es))
  {
    hide Next, Cause, ClientData, UpstreamData, Open, TotalSize, UpConserved, DownConserved;
    var front, e := es[..|es| - 1], es[|es| - 1];
    var s := Run(p, s0, front);
    OpenPhase(p, s0, front);
    if s.phase.Connecting? {
      PendingIsRead(p, s0, front);
    }
    StepCause(p, s, e, ClientData(front));
    Conservation(p, s0, es);
  }

  // ----- Each abort on its own -----

  /** The run that `es` leads to was aborted with this code and reason. */
  predicate AbortedAs(p: Policy, s0: State, es: seq<Stamped>, code: nat, reason: string)
    requires Feasible(p, s0, es)
  {
    Run(p, s0, es).phase == Ended(Aborted(code, reason))
  }

  lemma ReasonsDiffer()
    ensures |"idle timeout"| == 12 && |"upstream error"| == 14 && |"frame too large"| == 15
    ensures |"client send failed"| == 18 && |"upstream send failed"| == 20 && |"downstream send timed out"| == 25
    ensures |"upstream connect failed"| == 23 && |"too many pending frames"| == 23
    ensures |"queued frames too large"| == 23 && |"upstream send timed out"| == 23
    ensures "upstream connect failed" != "too many pending frames"
    ensures "upstream connect failed" != "queued frames too large"
    ensures "upstream connect failed" != "upstream send timed out"
    ensures "too many pending frames" != "queued frames too large"
    ensures "too many pending frames" != "upstream send timed out"
    ensures "queued frames too large" != "upstream send timed out"
  {
    assert "upstream connect failed"[9] == 'c' && "upstream send timed out"[9] == 's';
    assert "upstream connect failed"[0] == 'u' && "upstream send timed out"[0] == 'u';
    assert "too many pending frames"[0] == 't' && "queued frames too large"[0] == 'q';
  }

  /** A frame the client sent is not yet relayed because the upstream is not connected. */
  predicate PendingRead(p: Policy, s0: State, front: seq<Stamped>, e: Event) {
    !Open(s0, front) && Payload(e).Some? && |Payload(e).value| <= p.frameBytes
  }

  /** A run was aborted so exactly when that is what its last event calls for. */
  lemma AbortedMeans(p: Policy, s0: State, es: seq<Stamped>, code: nat, reason: string)
    requires Starts(p, s0) && es != [] && Feasible(p, s0, es)
    ensures var front := es[..|es| - 1];
            AbortedAs(p, s0, es, code, reason)
            <==> Cause(p, Open(s0, front), ClientData(front), LegOf(Run(p, s0, front).phase), es[|es| - 1].event)
                 == Some(Aborted(code, reason))
  {
    hide Run, Feasible, ClientData, Open, Cause, LegOf, UpConserved, DownConserved;
    OutcomeExactly(p, s0, es);
  }

  lemma OversizedCause(p: Policy, open: bool, data: seq<Data>, leg: Leg, e: Event)
    ensures Cause(p, open, data, leg, e) == Some(Aborted(1009, "frame too large")) <==> Oversized(e, p.frameBytes)
  {
    ReasonsDiffer();
    OneCause(e, p.frameBytes);
    hide TotalSize, Overflows, Oversized, Payload, ClientLeaves, UpstreamClose, UpstreamBroken;
  }

  lemma BrokenCause(p: Policy, open: bool, data: seq<Data>, leg: Leg, e: Event)
    ensures Cause(p, open, data, leg, e) == Some(Aborted(1011, "upstream error")) <==> UpstreamBroken(e)
  {
    ReasonsDiffer();
    OneCause(e, p.frameBytes);
    hide TotalSize, Overflows, Oversized, Payload, ClientLeaves, UpstreamClose, UpstreamBroken;
  }

  lemma PendingCause(p: Policy, open: bool, data: seq<Data>, leg: Leg, e: Event)
    requires !open && Payload(e).Some? && |Payload(e).value| <= p.frameBytes
    ensures Cause(p, open, data, leg, e)
            == if |data| >= 32 then Some(Aborted(1009, "too many pending frames"))
               else if Overflows(TotalSize(data) + |Payload(e).value|, p)
               then Some(Aborted(1009, "queued frames too large"))
               else None
  {
    OneCause(e, p.frameBytes);
    hide TotalSize, Overflows, Oversized, Payload, ClientLeaves, UpstreamClose, UpstreamBroken;
  }

  lemma OnlyPending(p: Policy, open: bool, data: seq<Data>, leg: Leg, e: Event)
    requires open || Payload(e).None? || |Payload(e).value| > p.frameBytes
    ensures Cause(p, open, data, leg, e) != Some(Aborted(1009, "too many pending frames"))
    ensures Cause(p, open, data, leg, e) != Some(Aborted(1009, "queued frames too large"))
  {
    ReasonsDiffer();
    OneCause(e, p.frameBytes);
    hide TotalSize, Overflows, Oversized, Payload, ClientLeaves, UpstreamClose, UpstreamBroken;
  }

  lemma CausesOfReads(p: Policy, open: bool, data: seq<Data>, leg: Leg, e: Event)
    ensures var cause := Cause(p, open, data, leg, e);
            var pending := !open && Payload(e).Some? && |Payload(e).value| <= p.frameBytes;
            && (cause == Some(Aborted(1009, "frame too large")) <==> Oversized(e, p.frameBytes))
            && (cause == Some(Aborted(1009, "too many pending frames")) <==> pending && |data| >= 32)
            && (cause == Some(Aborted(1009, "queued frames too large"))
                <==> pending && |data| < 32 && Overflows(TotalSize(data) + |Payload(e).value|, p))
            && (cause == Some(Aborted(1011, "upstream error")) <==> UpstreamBroken(e))
  {
    hide Cause, TotalSize, Overflows, Oversized, Payload, UpstreamBroken;
    OversizedCause(p, open, data, leg, e);
    BrokenCause(p, open, data, leg, e);
    if !open && Payload(e).Some? && |Payload(e).value| <= p.frameBytes {
      PendingCause(p, open, data, leg, e);
      ReasonsDiffer();
    } else {
      OnlyPending(p, open, data, leg, e);
    }
  }

  lemma CausesOfOthers(p: Policy, open: bool, data: seq<Data>, leg: Leg, e: Event)
    ensures var cause := Cause(p, open, data, leg, e);
            && (cause == Some(Aborted(1011, "upstream connect failed")) <==> e.ConnectFailed?)
            && (cause == Some(Aborted(1011, "upstream send failed"))
                <==> e == SendDone(SendFailed) && leg.TowardsUpstream?)
            && (cause == Some(Aborted(1011, "client send failed")) <==> e == SendDone(SendFailed) && leg.TowardsClient?)
            && (cause == Some(Aborted(1011, "upstream send timed out"))
                <==> e == SendDone(SendTimedOut) && leg.TowardsUpstream?)
            && (cause == Some(Aborted(1011, "downstream send timed out"))
                <==> e == SendDone(SendTimedOut) && leg.TowardsClient?)
            && (cause == Some(Aborted(1001, "idle timeout")) <==> e.IdleElapsed?)
  {
    ReasonsDiffer();
    hide TotalSize, Overflows, Oversized, Payload, ClientLeaves, UpstreamClose, UpstreamBroken;
  }

  lemma AbortsOnReads(p: Policy, s0: State, es: seq<Stamped>)
    requires Starts(p, s0) && es != [] && Feasible(p, s0, es)
    ensures var front, e := es[..|es| - 1], es[|es| - 1].event;
            && (AbortedAs(p, s0, es, 1009, "frame too large") <==> Oversized(e, p.frameBytes))
            && (AbortedAs(p, s0, es, 1009, "too many pending frames")
                <==> PendingRead(p, s0, front, e) && |ClientData(front)| >= 32)
            && (AbortedAs(p, s0, es, 1009, "queued frames too large")
                <==> PendingRead(p, s0, front, e) && |ClientData(front)| < 32
                     && Overflows(TotalSize(ClientData(front)) + |Payload(e).value|, p))
            && (AbortedAs(p, s0, es, 1011, "upstream error") <==> UpstreamBroken(e))
  {
    hide Run, ClientData, Open, Cause, TotalSize, Overflows, Oversized, Payload, AbortedAs, UpstreamBroken, LegOf;
    var front, e := es[..|es| - 1], es[|es| - 1].event;
    AbortedMeans(p, s0, es, 1009, "frame too large");
    AbortedMeans(p, s0, es, 1009, "too many pending frames");
    AbortedMeans(p, s0, es, 1009, "queued frames too large");
    AbortedMeans(p, s0, es, 1011, "upstream error");
    CausesOfReads(p, Open(s0, front), ClientData(front), LegOf(Run(p, s0, front).phase), e);
  }

  lemma AbortsOnOthers(p: Policy, s0: State, es: seq<Stamped>)
    requires Starts(p, s0) && es != [] && Feasible(p, s0, es)
    ensures var front, e := es[..|es| - 1], es[|es| - 1].event;
            var leg := LegOf(Run(p, s0, front).phase);
            && (AbortedAs(p, s0, es, 1011, "upstream connect failed") <==> e.ConnectFailed?)
            && (AbortedAs(p, s0, es, 1011, "upstream send failed")
                <==> e == SendDone(SendFailed) && leg.TowardsUpstream?)
            && (AbortedAs(p, s0, es, 1011, "client send failed") <==> e == SendDone(SendFailed) && leg.TowardsClient?)
            && (AbortedAs(p, s0, es, 1011, "upstream send timed out")
                <==> e == SendDone(SendTimedOut) && leg.TowardsUpstream?)
            && (AbortedAs(p, s0, es, 1011, "downstream send timed out")
                <==> e == SendDone(SendTimedOut) && leg.TowardsClient?)
            && (AbortedAs(p, s0, es, 1001, "idle timeout") <==> e.IdleElapsed?)
  {
    hide Run, ClientData, Open, Cause, TotalSize, Overflows, Oversized, Payload, AbortedAs, UpstreamBroken, LegOf;
    var front, e := es[..|es| - 1], es[|es| - 1].event;
    AbortedMeans(p, s0, es, 1011, "upstream connect failed");
    AbortedMeans(p, s0, es, 1011, "upstream send failed");
    AbortedMeans(p, s0, es, 1011, "client send failed");
    AbortedMeans(p, s0, es, 1011, "upstream send timed out");
    AbortedMeans(p, s0, es, 1011, "downstream send timed out");
    AbortedMeans(p, s0, es, 1001, "idle timeout");
    CausesOfOthers(p, Open(s0, front), ClientData(front), LegOf(Run(p, s0, front).phase), e);
  }

  /** The exact cause of each abort. */
  lemma AbortsExactly(p: Policy, s0: State, es: seq<Stamped>)
    requires Starts(p, s0) && es != [] && Feasible(p, s0, es)
    ensures var front, e := es[..|es| - 1], es[|es| - 1].event;
            var leg := LegOf(Run(p, s0, front).phase);
            && (AbortedAs(p, s0, es, 1009, "frame too large") <==> Oversized(e, p.frameBytes))
            && (AbortedAs(p, s0, es, 1009, "too many pending frames")
                <==> PendingRead(p, s0, front, e) && |ClientData(front)| >= 32)
            && (AbortedAs(p, s0, es, 1009, "queued frames too large")
                <==> PendingRead(p, s0, front, e) && |ClientData(front)| < 32
                     && Overflows(TotalSize(ClientData(front)) + |Payload(e).value|, p))
            && (AbortedAs(p, s0, es, 1011, "upstream connect failed") <==> e.ConnectFailed?)
            && (AbortedAs(p, s0, es, 1011, "upstream error") <==> UpstreamBroken(e))
            && (AbortedAs(p, s0, es, 1011, "upstream send failed")
                <==> e == SendDone(SendFailed) && leg.TowardsUpstream?)
            && (AbortedAs(p, s0, es, 1011, "client send failed") <==> e == SendDone(SendFailed) && leg.TowardsClient?)
            && (AbortedAs(p, s0, es, 1011, "upstream send timed out")
                <==> e == SendDone(SendTimedOut) && leg.TowardsUpstream?)
            && (AbortedAs(p, s0, es, 1011, "downstream send timed out")
                <==> e == SendDone(SendTimedOut) && leg.TowardsClient?)
            && (AbortedAs(p, s0, es, 1001, "idle timeout") <==> e.IdleElapsed?)
  {
    hide Run, ClientData, Open, TotalSize, Overflows, Oversized, Payload, AbortedAs, UpstreamBroken, LegOf, PendingRead;
    AbortsOnReads(p, s0, es);
    AbortsOnOthers(p, s0, es);
  }

  /** The kinds of event exclude each other. */
  lemma OneCause(e: Event, cap: nat)
    ensures Oversized(e, cap) ==> !ClientLeaves(e) && UpstreamClose(e).None? && !UpstreamBroken(e)
                                  && !e.ConnectFailed? && !e.IdleElapsed? && !e.SendDone?
    ensures Payload(e).Some? ==> !ClientLeaves(e) && UpstreamClose(e).None? && !UpstreamBroken(e)
                                 && !e.ConnectFailed? && !e.IdleElapsed? && !e.SendDone?
    ensures Payload(e).Some? ==> (Oversized(e, cap) <==> |Payload(e).value| > cap)
    ensures UpstreamBroken(e) ==> !ClientLeaves(e) && UpstreamClose(e).None?
                                  && !e.ConnectFailed? && !e.IdleElapsed? && !e.SendDone?
  {
  }

  // ----- What goes on -----

  /** A data frame within the cap that is read in the connected loop is on its way in the next state, as
      the same kind of frame with the same bytes. */
  lemma ReadIsInFlight(p: Policy, s0: State, es: seq<Stamped>)
    requires Starts(p, s0) && es != [] && Feasible(p, s0, es) && Run(p, s0, es[..|es| - 1]).phase.Waiting?
    requires !Oversized(es[|es| - 1].event, p.frameBytes)
    ensures var phase := Run(p, s0, es).phase;
            match es[|es| - 1].event
            case ClientRead(Message(AxText(text))) => phase == ToUpstream(TuText(text))
            case ClientRead(Message(AxBinary(bytes))) => phase == ToUpstream(TuBinary(bytes))
            case UpstreamRead(Message(TuText(text))) => phase == ToClient(AxText(text))
            case UpstreamRead(Message(TuBinary(bytes))) => phase == ToClient(AxBinary(bytes))
            case _ => true
  {
    NextInFlight(p, Run(p, s0, es[..|es| - 1]), es[|es| - 1]);
  }

  lemma NextInFlight(p: Policy, s: State, e: Stamped)
    requires Enabled(s, e) && s.phase.Waiting? && !Oversized(e.event, p.frameBytes)
    ensures var phase := Next(p, s, e).phase;
            match e.event
            case ClientRead(Message(AxText(text))) => phase == ToUpstream(TuText(text))
            case ClientRead(Message(AxBinary(bytes))) => phase == ToUpstream(TuBinary(bytes))
            case UpstreamRead(Message(TuText(text))) => phase == ToClient(AxText(text))
            case UpstreamRead(Message(TuBinary(bytes))) => phase == ToClient(AxBinary(bytes))
            case _ => true
  {
  }

  // ----- What an end puts on the legs -----

  /** What a leaving client says, as the upstream hears it. */
  function Farewell(p: Policy, e: Event): CloseFrame {
    match e
    case ClientRead(Message(AxClose(frame))) =>
      if p.closePolicy == PrivateNormalized then CloseFrame(1000, "client closed")
      else if frame == None then CloseFrame(1000, "")
      else frame.value
    case _ => CloseFrame(1000, "client closed")
  }

  /** The last step of every run puts exactly this on the legs. */
  lemma FarewellsExactly(p: Policy, s0: State, es: seq<Stamped>)
    requires Starts(p, s0) && es != [] && Feasible(p, s0, es) && Run(p, s0, es).phase.Ended?
    ensures var s, t, e := Run(p, s0, es[..|es| - 1]), Run(p, s0, es), es[|es| - 1].event;
            match t.phase.outcome
            case ClientClosed =>
              && t.up == s.up + (if Open(s0, es) then [TuClose(Some(Farewell(p, e)))] else [])
              && t.down == s.down
            case UpstreamClosed(code, reason) =>
              && t.up == s.up
              && t.down == s.down + [AxClose(Some(CloseFrame(code, reason)))]
            case Aborted(code, reason) =>
              && t.up == s.up + (if Open(s0, es) && reason !in {"upstream send failed", "upstream error"}
                                 then [TuClose(Some(CloseFrame(code, reason)))] else [])
              && t.down == s.down + (if reason != "client send failed"
                                     then [AxClose(Some(CloseFrame(code, reason)))] else [])
  {
    CloseDiscipline(p, s0, es);
    EndCause(p, Run(p, s0, es[..|es| - 1]), es[|es| - 1]);
    var s, e := Run(p, s0, es[..|es| - 1]), es[|es| - 1];
    assert s.up + [] == s.up && s.down + [] == s.down;
    hide Run, Feasible, Open, Next;
  }
}
