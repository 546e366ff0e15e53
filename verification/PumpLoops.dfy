/** The relay's loops as they are written, proved to do what the state machine says for every
    sequence of events they can observe. `es` is what the awaited futures resolve to, in order; a
    loop that has used it up returns what it is waiting for. */
module PumpLoops {
  import opened Common
  import opened Frames
  import opened PumpMachine

  lemma RunNothing(p: Policy, s: State, es: seq<Stamped>)
    ensures Feasible(p, s, es[..0]) && Run(p, s, es[..0]) == s
  {
  }

  lemma {:induction false} FeasiblePrefix(p: Policy, s: State, es: seq<Stamped>, i: nat)
    requires Feasible(p, s, es) && i <= |es|
    ensures Feasible(p, s, es[..i])
  {
    if i == |es| {
      assert es[..i] == es;
    } else {
      var front := es[..|es| - 1];
      FeasiblePrefix(p, s, front, i);
      assert front[..i] == es[..i];
    }
  }

  /** The next event of a feasible trace is enabled, and taking it is one step of the run. */
  lemma Advance(p: Policy, s: State, es: seq<Stamped>, i: nat)
    requires Feasible(p, s, es) && i < |es|
    ensures Feasible(p, s, es[..i]) && Feasible(p, s, es[..i + 1])
    ensures Enabled(Run(p, s, es[..i]), es[i])
    ensures Run(p, s, es[..i + 1]) == Next(p, Run(p, s, es[..i]), es[i])
  {
    FeasiblePrefix(p, s, es, i);
    FeasiblePrefix(p, s, es, i + 1);
    assert es[..i + 1][..i] == es[..i];
  }

  /** An ended run observes nothing more. */
  lemma EndedIsLast(p: Policy, s: State, es: seq<Stamped>, i: nat)
    requires Feasible(p, s, es) && i <= |es| && Feasible(p, s, es[..i]) && Run(p, s, es[..i]).phase.Ended?
    ensures es[..i] == es
  {
    if i < |es| {
      Advance(p, s, es, i);
    }
  }

  /** One relay task: the queue, the deadline and the two sinks its loops update. */
  class Relay {
    const policy: Policy
    var queue: seq<TungMessage>
    var queuedBytes: nat
    var idleDeadline: Option<nat>
    var clock: nat
    var up: seq<TungMessage>
    var down: seq<AxumMessage>

    /** The machine's state when the task waits at `phase`. */
    function At(phase: Phase): State
      reads this
    {
      State(phase, queue, queuedBytes, idleDeadline, clock, up, down)
    }

    constructor Private(policy: Policy, now: nat)
      ensures this.policy == policy && At(Connecting) == PrivateInit(now)
    {
      this.policy := policy;
      queue, queuedBytes, idleDeadline, clock, up, down := [], 0, None, now, [], [];
    }

    constructor Direct(policy: Policy, now: nat)
      ensures this.policy == policy && At(Waiting) == DirectInit(policy, now)
    {
      this.policy := policy;
      queue, queuedBytes, clock, up, down := [], 0, now, [], [];
      idleDeadline := if policy.idleTimeout == 0 then None else Some(now + policy.idleTimeout);
    }

    method TellUp(code: nat, reason: string)
      modifies this`up
      ensures up == old(up) + [TuClose(Some(CloseFrame(code, reason)))]
    {
      up := up + [TuClose(Some(CloseFrame(code, reason)))];
    }

    method TellDown(code: nat, reason: string)
      modifies this`down
      ensures down == old(down) + [AxClose(Some(CloseFrame(code, reason)))]
    {
      down := down + [AxClose(Some(CloseFrame(code, reason)))];
    }

    /** Both legs are told, whichever fails. */
    method TellBoth(code: nat, reason: string) returns (end: Phase)
      modifies this`up, this`down
      ensures up == old(up) + [TuClose(Some(CloseFrame(code, reason)))]
      ensures down == old(down) + [AxClose(Some(CloseFrame(code, reason)))]
      ensures end == Ended(Aborted(code, reason))
    {
      TellDown(code, reason);
      TellUp(code, reason);
      end := Ended(Aborted(code, reason));
    }

    /** One downstream read of the connected loop, up to the send it may start. */
    method OnClientRead(read: Read<AxumMessage>) returns (phase: Phase)
      modifies this`up, this`down, this`idleDeadline
      ensures At(phase) == ReadClient(policy, old(At(Waiting)), read)
    {
      match read {
        case TooLarge => phase := TellBoth(CODE_POLICY, FRAME_TOO_LARGE);
        case ReadError => TellUp(CODE_NORMAL, CLIENT_CLOSED); phase := Ended(ClientClosed);
        case Eof => TellUp(CODE_NORMAL, CLIENT_CLOSED); phase := Ended(ClientClosed);
        case Message(m) =>
          if m.AxClose? {
            match policy.closePolicy {
              case Transparent =>
                var close := m.frame.GetOr(CloseFrame(CODE_NORMAL, ""));
                TellUp(close.code, close.reason);
              case PrivateNormalized => TellUp(CODE_NORMAL, CLIENT_CLOSED);
            }
            phase := Ended(ClientClosed);
            return;
          }
          if idleDeadline.Some? {
            idleDeadline := Some(clock + policy.idleTimeout);
          }
          if AxumBytes(m) > policy.frameBytes {
            phase := TellBoth(CODE_POLICY, FRAME_TOO_LARGE);
            return;
          }
          var converted := AxumToTungstenite(m);
          phase := if converted.None? then Waiting else ToUpstream(converted.value);
      }
    }

    method OnUpstreamRead(read: Read<TungMessage>) returns (phase: Phase)
      modifies this`up, this`down, this`idleDeadline
      ensures At(phase) == ReadUpstream(policy, old(At(Waiting)), read)
    {
      match read {
        case TooLarge => phase := TellBoth(CODE_POLICY, FRAME_TOO_LARGE);
        case ReadError =>
          TellDown(CODE_INTERNAL, UPSTREAM_ERROR);
          phase := Ended(Aborted(CODE_INTERNAL, UPSTREAM_ERROR));
        case Eof =>
          TellDown(CODE_INTERNAL, UPSTREAM_ERROR);
          phase := Ended(Aborted(CODE_INTERNAL, UPSTREAM_ERROR));
        case Message(m) =>
          if m.TuClose? {
            var close := CloseParts(m.frame);
            TellDown(close.code, close.reason);
            phase := Ended(UpstreamClosed(close.code, close.reason));
            return;
          }
          if idleDeadline.Some? {
            idleDeadline := Some(clock + policy.idleTimeout);
          }
          if TungBytes(m) > policy.frameBytes {
            phase := TellBoth(CODE_POLICY, FRAME_TOO_LARGE);
            return;
          }
          var converted := TungsteniteToAxum(m);
          phase := if converted.None? then Waiting else ToClient(converted.value);
      }
    }

    /** The end of a bounded send towards the upstream; the frame is on the leg if it succeeded. */
    method OnUpstreamSend(m: TungMessage, result: SendResult) returns (phase: Phase)
      modifies this`up, this`down
      ensures result.SendOk? ==> phase == Waiting && At(Waiting) == old(At(Waiting)).(up := old(up) + [m])
      ensures result.SendFailed? ==> At(phase) == AbortDownstream(old(At(Waiting)), CODE_INTERNAL, UPSTREAM_SEND_FAILED)
      ensures result.SendTimedOut? ==> At(phase) == AbortBoth(old(At(Waiting)), CODE_INTERNAL, UPSTREAM_SEND_TIMED_OUT)
    {
      match result {
        case SendOk =>
          up := up + [m];
          phase := Waiting;
        case SendFailed =>
          TellDown(CODE_INTERNAL, UPSTREAM_SEND_FAILED);
          phase := Ended(Aborted(CODE_INTERNAL, UPSTREAM_SEND_FAILED));
        case SendTimedOut => phase := TellBoth(CODE_INTERNAL, UPSTREAM_SEND_TIMED_OUT);
      }
    }

    method OnClientSend(m: AxumMessage, result: SendResult) returns (phase: Phase)
      modifies this`up, this`down
      ensures result.SendOk? ==> phase == Waiting && At(Waiting) == old(At(Waiting)).(down := old(down) + [m])
      ensures result.SendFailed? ==> At(phase) == AbortUpstream(old(At(Waiting)), CODE_INTERNAL, CLIENT_SEND_FAILED)
      ensures result.SendTimedOut?
          ==> At(phase) == AbortBoth(old(At(Waiting)), CODE_INTERNAL, DOWNSTREAM_SEND_TIMED_OUT)
    {
      match result {
        case SendOk =>
          down := down + [m];
          phase := Waiting;
        case SendFailed =>
          TellUp(CODE_INTERNAL, CLIENT_SEND_FAILED);
          phase := Ended(Aborted(CODE_INTERNAL, CLIENT_SEND_FAILED));
        case SendTimedOut => phase := TellBoth(CODE_INTERNAL, DOWNSTREAM_SEND_TIMED_OUT);
      }
    }

    /** One turn of the connected loop's `select!`, or the end of the send the last turn started. */
    method Turn(phase: Phase, e: Stamped) returns (phase': Phase)
      requires phase.Waiting? || phase.ToUpstream? || phase.ToClient?
      requires Enabled(At(phase), e)
      modifies this`up, this`down, this`idleDeadline, this`clock
      ensures At(phase') == Next(policy, old(At(phase)), e)
      ensures phase'.Waiting? || phase'.ToUpstream? || phase'.ToClient? || phase'.Ended?
    {
      clock := e.at;
      match phase {
        case Waiting =>
          match e.event {
            case IdleElapsed => phase' := TellBoth(CODE_GOING_AWAY, IDLE_TIMEOUT);
            case ClientRead(read) => phase' := OnClientRead(read);
            case UpstreamRead(read) => phase' := OnUpstreamRead(read);
          }
        case ToUpstream(m) => phase' := OnUpstreamSend(m, e.event.result);
        case ToClient(m) => phase' := OnClientSend(m, e.event.result);
      }
    }

    /** The connected loop. */
    method RunConnectedFromDeadline(es: seq<Stamped>) returns (phase: Phase)
      requires Feasible(policy, At(Waiting), es)
      modifies this`up, this`down, this`idleDeadline, this`clock
      ensures At(phase) == Run(policy, old(At(Waiting)), es)
    {
      hide Next, Enabled;
      ghost var s := At(Waiting);
      phase := Waiting;
      RunNothing(policy, s, es);
      var i := 0;
      while i < |es|
        invariant 0 <= i <= |es|
        invariant Feasible(policy, s, es[..i]) && Run(policy, s, es[..i]) == At(phase)
        invariant phase.Waiting? || phase.ToUpstream? || phase.ToClient?
      {
        Advance(policy, s, es, i);
        phase := Turn(phase, es[i]);
        i := i + 1;
        if phase.Ended? {
          EndedIsLast(policy, s, es, i);
          return;
        }
      }
      assert es[..i] == es;
    }

    /** One read while the upstream is still connecting. */
    method OnEarlyRead(read: Read<AxumMessage>) returns (phase: Phase)
      modifies this`queue, this`queuedBytes, this`down
      ensures At(phase) == ReadWhileConnecting(policy, old(At(Connecting)), read)
      ensures phase.Connecting? || phase.Ended?
    {
      match read {
        case TooLarge =>
          TellDown(CODE_POLICY, FRAME_TOO_LARGE);
          phase := Ended(Aborted(CODE_POLICY, FRAME_TOO_LARGE));
        case ReadError => phase := Ended(ClientClosed);
        case Eof => phase := Ended(ClientClosed);
        case Message(m) =>
          if m.AxClose? {
            phase := Ended(ClientClosed);
            return;
          }
          phase := Connecting;
          var bytes := AxumBytes(m);
          if bytes > policy.frameBytes {
            TellDown(CODE_POLICY, FRAME_TOO_LARGE);
            phase := Ended(Aborted(CODE_POLICY, FRAME_TOO_LARGE));
            return;
          }
          var converted := AxumToTungstenite(m);
          if converted.None? {
            return;
          }
          if !AcceptPending(|queue|) {
            TellDown(CODE_POLICY, TOO_MANY_PENDING);
            phase := Ended(Aborted(CODE_POLICY, TOO_MANY_PENDING));
            return;
          }
          var total := QueuedBytesAfter(queuedBytes, bytes, policy.frameBytes);
          if total.None? {
            TellDown(CODE_POLICY, QUEUED_FRAMES_TOO_LARGE);
            phase := Ended(Aborted(CODE_POLICY, QUEUED_FRAMES_TOO_LARGE));
            return;
          }
          queuedBytes := total.value;
          queue := queue + [converted.value];
      }
    }

    /** The pre-open loop: queue what the client sends until the connect settles. `used` events
        settle it, or all of them do not. */
    method AwaitConnect(es: seq<Stamped>) returns (phase: Phase, used: nat)
      requires Feasible(policy, At(Connecting), es)
      modifies this`queue, this`queuedBytes, this`down, this`idleDeadline, this`clock
      ensures used <= |es| && Feasible(policy, old(At(Connecting)), es[..used])
      ensures phase.Waiting? ==> Run(policy, old(At(Connecting)), es[..used]) == PopQueue(At(Waiting))
      ensures !phase.Waiting? ==> es[..used] == es && At(phase) == Run(policy, old(At(Connecting)), es)
    {
      hide ReadWhileConnecting, Feasible, Run;
      ghost var s := At(Connecting);
      phase, used := Connecting, 0;
      RunNothing(policy, s, es);
      while used < |es|
        invariant 0 <= used <= |es|
        invariant Feasible(policy, s, es[..used]) && Run(policy, s, es[..used]) == At(phase) && phase.Connecting?
      {
        Advance(policy, s, es, used);
        var e := es[used];
        used := used + 1;
        clock := e.at;
        match e.event {
          case Connected =>
            idleDeadline := if policy.idleTimeout == 0 then None else Some(clock + policy.idleTimeout);
            phase := Waiting;
            return;
          case ConnectFailed =>
            TellDown(CODE_INTERNAL, UPSTREAM_CONNECT_FAILED);
            phase := Ended(Aborted(CODE_INTERNAL, UPSTREAM_CONNECT_FAILED));
          case ClientRead(read) => phase := OnEarlyRead(read);
        }
        if phase.Ended? {
          EndedIsLast(policy, s, es, used);
          return;
        }
      }
      assert es[..used] == es;
    }

    /** The flush loop: send what was queued, oldest first, under the deadline set at the connect. */
    method Flush(es: seq<Stamped>) returns (phase: Phase, used: nat)
      requires Feasible(policy, PopQueue(At(Waiting)), es)
      modifies this`queue, this`up, this`down, this`clock
      ensures used <= |es| && Feasible(policy, PopQueue(old(At(Waiting))), es[..used])
      ensures At(phase) == Run(policy, PopQueue(old(At(Waiting))), es[..used])
      ensures phase.Waiting? || es[..used] == es
    {
      ghost var s := PopQueue(At(Waiting));
      hide Feasible, Run;
      used := 0;
      RunNothing(policy, s, es);
      while queue != []
        invariant 0 <= used <= |es|
        invariant Feasible(policy, s, es[..used]) && Run(policy, s, es[..used]) == PopQueue(At(Waiting))
        decreases |queue|
      {
        var message := queue[0];
        queue := queue[1..];
        if used == |es| {
          phase := Flushing(message);
          return;
        }
        Advance(policy, s, es, used);
        var e := es[used];
        used := used + 1;
        clock := e.at;
        if e.event.IdleElapsed? {
          phase := TellBoth(CODE_GOING_AWAY, IDLE_TIMEOUT);
        } else {
          phase := OnUpstreamSend(message, e.event.result);
        }
        if phase.Ended? {
          EndedIsLast(policy, s, es, used);
          return;
        }
      }
      phase := Waiting;
    }

    /** The private entry point: connect, flush, then relay. */
    method RunPrivateWith(es: seq<Stamped>) returns (phase: Phase)
      requires Feasible(policy, At(Connecting), es)
      modifies this
      ensures At(phase) == Run(policy, old(At(Connecting)), es)
    {
      hide Feasible, Run, PopQueue;
      ghost var s := At(Connecting);
      var used: nat;
      phase, used := AwaitConnect(es);
      if !phase.Waiting? {
        return;
      }
      var rest := es[used..];
      assert es == es[..used] + rest;
      RunConcat(policy, s, es[..used], rest);
      ghost var open := PopQueue(At(Waiting));
      phase, used := Flush(rest);
      assert rest == rest[..used] + rest[used..];
      RunConcat(policy, open, rest[..used], rest[used..]);
      if phase.Waiting? {
        phase := RunConnectedFromDeadline(rest[used..]);
      }
    }
  }
}
