/** The bounds of the relay pump in time: the flush ends, and the idle deadline is exactly the last
    activity plus the idle timeout. */
module PumpTiming {
  import opened Common
  import opened Frames
  import opened PumpMachine

  // ----- The flush terminates -----

  /** How many events of the trace the flush loop observes. */
  function FlushSteps(p: Policy, s0: State, es: seq<Stamped>): nat
    requires Feasible(p, s0, es)
  {
    if es == [] then 0
    else FlushSteps(p, s0, es[..|es| - 1]) + if Run(p, s0, es[..|es| - 1]).phase.Flushing? then 1 else 0
  }

  /** Steps taken and frames left never exceed what the pre-open queue may hold. */
  predicate FlushBudget(s: State, steps: nat) {
    match s.phase
    case Connecting => steps == 0 && |s.queue| <= MAX_PENDING_FRAMES
    case Flushing(_) => steps + 1 + |s.queue| <= MAX_PENDING_FRAMES
    case _ => steps <= MAX_PENDING_FRAMES
  }

  lemma FlushBudgetStep(p: Policy, s: State, e: Stamped, steps: nat)
    requires Enabled(s, e) && FlushBudget(s, steps)
    ensures FlushBudget(Next(p, s, e), steps + if s.phase.Flushing? then 1 else 0)
  {
  }

  lemma {:induction false} FlushTerminates(p: Policy, s0: State, es: seq<Stamped>)
    requires Starts(p, s0) && Feasible(p, s0, es)
    ensures FlushBudget(Run(p, s0, es), FlushSteps(p, s0, es))
    ensures FlushSteps(p, s0, es) <= MAX_PENDING_FRAMES
  {
    hide Next;
    if es != [] {
      var front := es[..|es| - 1];
      FlushTerminates(p, s0, front);
      FlushBudgetStep(p, Run(p, s0, front), es[|es| - 1], FlushSteps(p, s0, front));
    }
  }

  // ----- The idle deadline -----

  /** A frame read on either leg, or the upstream connecting. */
  predicate Activity(e: Event) {
    || e.Connected?
    || (e.ClientRead? && e.client.Message?)
    || (e.UpstreamRead? && e.upstream.Message?)
  }

  /** The instant of the last activity of the trace. */
  function LastActivity(start: nat, es: seq<Stamped>): nat {
    if es == [] then start
    else if Activity(es[|es| - 1].event) then es[|es| - 1].at
    else LastActivity(start, es[..|es| - 1])
  }

  predicate DeadlineIs(p: Policy, s: State, last: nat) {
    && (s.phase.Connecting? ==> s.deadline.None?)
    && (!s.phase.Connecting? && !s.phase.Ended? ==> s.deadline == IdleDeadline(p, last))
    && (s.phase.Ended? && s.phase.outcome.Aborted? && s.phase.outcome.reason == IDLE_TIMEOUT ==>
          p.idleTimeout != 0 && last + p.idleTimeout <= s.clock && s.phase.outcome.code == CODE_GOING_AWAY)
  }

  lemma DeadlineStep(p: Policy, s: State, e: Stamped, last: nat)
    requires Enabled(s, e) && DeadlineIs(p, s, last)
    ensures DeadlineIs(p, Next(p, s, e), if Activity(e.event) then e.at else last)
  {
    assert |IDLE_TIMEOUT| == 12;
    assert |UPSTREAM_CONNECT_FAILED| == 23 && |FRAME_TOO_LARGE| == 15 && |TOO_MANY_PENDING| == 23;
    assert |QUEUED_FRAMES_TOO_LARGE| == 23 && |UPSTREAM_ERROR| == 14 && |UPSTREAM_SEND_FAILED| == 20;
    assert |CLIENT_SEND_FAILED| == 18 && |UPSTREAM_SEND_TIMED_OUT| == 23 && |DOWNSTREAM_SEND_TIMED_OUT| == 25;
  }

  /** In every reachable state the running deadline is the last activity plus the idle timeout; so a
      run ends with "idle timeout" only when the timeout is enabled and no frame was read on either
      leg for that long since the last read or since connecting. */
  lemma {:induction false} IdleExact(p: Policy, s0: State, es: seq<Stamped>)
    requires Starts(p, s0) && Feasible(p, s0, es)
    ensures DeadlineIs(p, Run(p, s0, es), LastActivity(s0.clock, es))
  {
    if es != [] {
      hide Next, DeadlineIs;
      var front := es[..|es| - 1];
      IdleExact(p, s0, front);
      DeadlineStep(p, Run(p, s0, front), es[|es| - 1], LastActivity(s0.clock, front));
    }
  }

  /** The idle branch can be taken exactly when that silence has lasted, and only while the pump is
      waiting for a frame or flushing. */
  lemma IdleReady(p: Policy, s0: State, es: seq<Stamped>, now: nat)
    requires Starts(p, s0) && Feasible(p, s0, es) && Run(p, s0, es).clock <= now
    ensures Enabled(Run(p, s0, es), Stamped(now, IdleElapsed)) <==>
              && (Run(p, s0, es).phase.Waiting? || Run(p, s0, es).phase.Flushing?)
              && p.idleTimeout != 0
              && LastActivity(s0.clock, es) + p.idleTimeout <= now
  {
    IdleExact(p, s0, es);
    hide Run, LastActivity;
  }
}
