/** One HTTP exchange's first-writer terminal slot, and any number of exchanges racing for permits
    (src/relay/http.rs, driven by src/realtime/http.rs and src/live/call_create.rs). */
module Lifecycle {

  datatype Terminal = InFlight | Completed | Failed | TimedOut | Canceled

  datatype Error = ClientCanceled | UpstreamTimeout | BodyTimeout | TooManyRequests | OtherError

  datatype Result = Ok | Err(error: Error)

  /** `ExchangeLifecycle::finish` on the slot's value. */
  function FinishSlot(slot: Terminal, next: Terminal): Terminal {
    if slot == InFlight then next else slot
  }

  /** What the spawned task records for its result. */
  function TerminalOf(result: Result): Terminal {
    match result
    case Ok => Completed
    case Err(UpstreamTimeout) => TimedOut
    case Err(ClientCanceled) => Canceled
    case Err(_) => Failed
  }

  /** What the handler records for an error of its own. */
  function ErrorTerminal(error: Error): Terminal {
    match error
    case ClientCanceled => Canceled
    case BodyTimeout => TimedOut
    case UpstreamTimeout => TimedOut
    case _ => Failed
  }

  /** The shared slot and its cancellation token. */
  class ExchangeLifecycle {
    var terminal: Terminal
    var cancelled: bool

    constructor ()
      ensures terminal == InFlight && !cancelled
    {
      terminal, cancelled := InFlight, false;
    }

    /** Records `next` only while the exchange is still in flight. */
    method Finish(next: Terminal) returns (won: bool)
      modifies this`terminal
      ensures terminal == FinishSlot(old(terminal), next)
      ensures won <==> old(terminal) == InFlight && terminal != InFlight
    {
      if next == InFlight {
        return false;
      }
      if terminal != InFlight {
        return false;
      }
      terminal := next;
      return true;
    }

    /** `ExchangeGuard::drop`: the token is cancelled exactly when the guard wins the slot, so a
        completed task wins over a later drop. */
    method DropGuard()
      modifies this
      ensures terminal == FinishSlot(old(terminal), Canceled)
      ensures cancelled <==> old(cancelled) || old(terminal) == InFlight
    {
      var won := Finish(Canceled);
      if won {
        cancelled := true;
      }
    }
  }

  // ----- Any number of exchanges, interleaved step by step -----

  /** How the handler's answer came about. */
  datatype Reply = Dropped | Refused(error: Error) | FromTask(result: Result)

  /** The handler owns the guard until `Gone`. Leaving, it drops its locals: a permit it still
      holds, then the guard, whose drop records first and cancels second. */
  datatype Handler =
    | Begun
    | Reading
    | Awaiting
    | Leaving(reply: Reply, permit: bool)
    | Canceling(reply: Reply)
    | Gone(reply: Reply)

  /** One poll of the task's biased `select!` looks at the token first and at the work second. */
  datatype Task =
    | NoTask
    | Running
    | Polling
    | Decided(result: Result)
    | Finished(result: Result)
    | Exited(result: Result)

  datatype Exchange = Exchange(handler: Handler, task: Task, terminal: Terminal, cancelled: bool)

  datatype System = System(free: nat, exchanges: seq<Exchange>)

  datatype Action =
    | Arrive
    | Acquire(i: nat)
    | Refuse(i: nat, error: Error)
    | Spawn(i: nat)
    | Abandon(i: nat)
    | Receive(i: nat)
    | DropPermit(i: nat)
    | GuardFinish(i: nat)
    | GuardCancel(i: nat)
    | PollToken(i: nat)
    | WorkPending(i: nat)
    | WorkDone(i: nat, result: Result)
    | TaskFinish(i: nat)
    | TaskExit(i: nat)

  /** When one exchange can take an action. A client that leaves drops the handler at an await. */
  predicate CanAct(x: Exchange, a: Action) {
    match a
    case Arrive => false
    case Acquire(_) => x.handler.Begun?
    case Refuse(_, _) => x.handler.Reading?
    case Spawn(_) => x.handler.Reading?
    case Abandon(_) => x.handler.Reading? || x.handler.Awaiting?
    case Receive(_) => x.handler.Awaiting? && x.task.Exited?
    case DropPermit(_) => x.handler.Leaving? && x.handler.permit
    case GuardFinish(_) => x.handler.Leaving? && !x.handler.permit
    case GuardCancel(_) => x.handler.Canceling?
    case PollToken(_) => x.task.Running?
    case WorkPending(_) => x.task.Polling?
    case WorkDone(_, result) =>
      x.task.Polling? && (result.Ok? || result.error.UpstreamTimeout? || result.error.OtherError?)
    case TaskFinish(_) => x.task.Decided?
    case TaskExit(_) => x.task.Finished?
  }

  /** The exchange after the action, when `free` permits are free. */
  function Act(x: Exchange, a: Action, free: nat): Exchange
    requires CanAct(x, a)
  {
    match a
    case Acquire(_) =>
      if free > 0 then x.(handler := Reading)
      else x.(terminal := FinishSlot(x.terminal, Failed), handler := Leaving(Refused(TooManyRequests), false))
    case Refuse(_, error) =>
      x.(terminal := FinishSlot(x.terminal, ErrorTerminal(error)), handler := Leaving(Refused(error), true))
    case Spawn(_) => x.(handler := Awaiting, task := Running)
    case Abandon(_) => x.(handler := Leaving(Dropped, x.handler.Reading?))
    case Receive(_) => x.(handler := Leaving(FromTask(x.task.result), false))
    case DropPermit(_) => x.(handler := Leaving(x.handler.reply, false))
    case GuardFinish(_) =>
      if x.terminal == InFlight then x.(terminal := Canceled, handler := Canceling(x.handler.reply))
      else x.(handler := Gone(x.handler.reply))
    case GuardCancel(_) => x.(cancelled := true, handler := Gone(x.handler.reply))
    case PollToken(_) => x.(task := if x.cancelled then Decided(Err(ClientCanceled)) else Polling)
    case WorkPending(_) => x.(task := Running)
    case WorkDone(_, result) => x.(task := Decided(result))
    case TaskFinish(_) => x.(terminal := FinishSlot(x.terminal, TerminalOf(x.task.result)),
                             task := Finished(x.task.result))
    case TaskExit(_) => x.(task := Exited(x.task.result))
  }

  /** How many permits an action takes from the semaphore or gives back. */
  function FreeAfter(a: Action, free: nat): nat {
    match a
    case Acquire(_) => if free > 0 then free - 1 else free
    case DropPermit(_) => free + 1
    case TaskExit(_) => free + 1
    case _ => free
  }

  predicate CanStep(s: System, a: Action) {
    a.Arrive? || (a.i < |s.exchanges| && CanAct(s.exchanges[a.i], a))
  }

  function Step(s: System, a: Action): System
    requires CanStep(s, a)
  {
    if a.Arrive? then s.(exchanges := s.exchanges + [Exchange(Begun, NoTask, InFlight, false)])
    else System(FreeAfter(a, s.free), s.exchanges[a.i := Act(s.exchanges[a.i], a, s.free)])
  }

  predicate Feasible(s: System, actions: seq<Action>)
    decreases |actions|, 0
  {
    actions == [] ||
    (Feasible(s, actions[..|actions| - 1]) && CanStep(Run(s, actions[..|actions| - 1]), actions[|actions| - 1]))
  }

  function Run(s: System, actions: seq<Action>): System
    requires Feasible(s, actions)
    decreases |actions|, 1
  {
    if actions == [] then s else Step(Run(s, actions[..|actions| - 1]), actions[|actions| - 1])
  }

  // ----- The slot -----

  predicate TaskUnfinished(t: Task) { t.NoTask? || t.Running? || t.Polling? || t.Decided? }

  predicate ResultIs(t: Task, result: Result) {
    (t.Decided? || t.Finished? || t.Exited?) && t.result == result
  }

  /** The guard has not been dropped. */
  predicate GuardAlive(x: Exchange) {
    x.handler.Begun? || x.handler.Reading? || x.handler.Awaiting? || x.handler.Leaving?
  }

  /** What holds of an exchange at every moment. */
  predicate Coherent(x: Exchange) {
    // While the guard is alive nobody has cancelled; the slot is what the task or the handler
    // recorded, and in flight until then.
    && (GuardAlive(x) ==>
          && !x.cancelled
          && !ResultIs(x.task, Err(ClientCanceled))
          && (x.handler.Leaving? && x.handler.reply.Refused? ==>
                x.task.NoTask? && x.terminal == ErrorTerminal(x.handler.reply.error))
          && (!(x.handler.Leaving? && x.handler.reply.Refused?) ==>
                x.terminal == if TaskUnfinished(x.task) then InFlight else TerminalOf(x.task.result)))
    && (x.handler.Begun? || x.handler.Reading? || (x.handler.Leaving? && x.handler.permit) ==> x.task.NoTask?)
    && (x.handler.Awaiting? ==> !x.task.NoTask?)
    && (x.handler.Leaving? && x.handler.reply.FromTask? ==> x.task == Exited(x.handler.reply.result))
    // A guard that won the slot cancels next.
    && (x.handler.Canceling? ==> x.terminal == Canceled && !x.cancelled && x.handler.reply.Dropped?)
    && (x.cancelled ==> x.terminal == Canceled)
    && (ResultIs(x.task, Err(ClientCanceled)) ==> x.cancelled)
    // Once the guard is gone, or the task has recorded, the slot is settled.
    && (x.handler.Gone? || !TaskUnfinished(x.task) ==> x.terminal != InFlight)
    && (x.handler.Gone? && x.handler.reply.FromTask? ==>
          x.task == Exited(x.handler.reply.result) && x.terminal == TerminalOf(x.handler.reply.result) && !x.cancelled)
    && (x.handler.Gone? && x.handler.reply.Refused? ==>
          x.task.NoTask? && x.terminal == ErrorTerminal(x.handler.reply.error) && !x.cancelled)
    && (x.handler.Gone? && x.handler.reply.Dropped? && TaskUnfinished(x.task) ==> x.terminal == Canceled && x.cancelled)
    // A task ends with a response, a failed or timed-out exchange, or the cancellation.
    && (x.task.Decided? || x.task.Finished? || x.task.Exited? ==>
          || x.task.result.Ok? || x.task.result.error.UpstreamTimeout?
          || x.task.result.error.OtherError? || x.task.result.error.ClientCanceled?)
    // A guard that lost the slot lost it to the task.
    && (x.handler.Gone? && x.handler.reply.Dropped? && !x.cancelled ==>
          !TaskUnfinished(x.task) && x.task.result != Err(ClientCanceled) && x.terminal == TerminalOf(x.task.result))
  }

  lemma CoherentAct(x: Exchange, a: Action, free: nat)
    requires Coherent(x) && CanAct(x, a)
    ensures Coherent(Act(x, a, free))
  {
  }

  predicate AllCoherent(s: System) {
    forall i :: 0 <= i < |s.exchanges| ==> Coherent(s.exchanges[i])
  }

  lemma {:induction false} AlwaysCoherent(limit: nat, actions: seq<Action>)
    requires Feasible(System(limit, []), actions)
    ensures AllCoherent(Run(System(limit, []), actions))
  {
    if actions != [] {
      var front, a := actions[..|actions| - 1], actions[|actions| - 1];
      var s := Run(System(limit, []), front);
      AlwaysCoherent(limit, front);
      if !a.Arrive? {
        CoherentAct(s.exchanges[a.i], a, s.free);
      }
    }
  }

  /** An exchange of a reachable state. */
  predicate Reaches(limit: nat, actions: seq<Action>, i: nat) {
    Feasible(System(limit, []), actions) && i < |Run(System(limit, []), actions).exchanges|
  }

  function ExchangeAt(limit: nat, actions: seq<Action>, i: nat): Exchange
    requires Reaches(limit, actions, i)
  {
    Run(System(limit, []), actions).exchanges[i]
  }

  lemma {:induction false} FeasiblePrefix(s: System, actions: seq<Action>, k: nat)
    requires Feasible(s, actions) && k <= |actions|
    ensures Feasible(s, actions[..k])
  {
    if k == |actions| {
      assert actions[..k] == actions;
    } else {
      var front := actions[..|actions| - 1];
      FeasiblePrefix(s, front, k);
      assert front[..k] == actions[..k];
    }
  }

  /** First writer wins: once the slot has left InFlight, no later action of anyone changes it. */
  lemma {:induction false} FirstWriterWins(limit: nat, actions: seq<Action>, k: nat, i: nat)
    requires k <= |actions| && Feasible(System(limit, []), actions)
    requires Reaches(limit, actions[..k], i) && ExchangeAt(limit, actions[..k], i).terminal != InFlight
    ensures Reaches(limit, actions, i)
    ensures ExchangeAt(limit, actions, i).terminal == ExchangeAt(limit, actions[..k], i).terminal
  {
    if k == |actions| {
      assert actions[..k] == actions;
    } else {
      var front, a := actions[..|actions| - 1], actions[|actions| - 1];
      assert front[..k] == actions[..k];
      FirstWriterWins(limit, front, k, i);
    }
  }

  /** While the guard is alive and the task has not recorded, the slot is in flight, unless the
      handler itself refused the request. */
  lemma InFlightWhileLive(limit: nat, actions: seq<Action>, i: nat)
    requires Reaches(limit, actions, i)
    ensures var x := ExchangeAt(limit, actions, i);
            GuardAlive(x) && TaskUnfinished(x.task) && !(x.handler.Leaving? && x.handler.reply.Refused?) ==>
              x.terminal == InFlight && !x.cancelled
  {
    AlwaysCoherent(limit, actions);
  }

  /** A handler still live when the task's result arrives never receives ClientCanceled, and finds
      the terminal of that very result; the slot keeps it when the guard is dropped. */
  lemma LiveHandlerSeesItsTerminal(limit: nat, actions: seq<Action>, i: nat)
    requires Reaches(limit, actions, i)
    requires var x := ExchangeAt(limit, actions, i);
             || CanAct(x, Receive(i))
             || ((x.handler.Leaving? || x.handler.Canceling? || x.handler.Gone?) && x.handler.reply.FromTask?)
    ensures var x := ExchangeAt(limit, actions, i);
            && x.task.Exited?
            && (!CanAct(x, Receive(i)) ==> x.handler.reply.result == x.task.result)
            && x.task.result != Err(ClientCanceled)
            && x.terminal == TerminalOf(x.task.result)
            && !x.cancelled
  {
    AlwaysCoherent(limit, actions);
  }

  /** What a live handler finds recorded, result by result: a response is Completed, a timeout TimedOut,
      any other failure Failed. There is no other result it can receive. */
  lemma RecordedAsReceived(limit: nat, actions: seq<Action>, i: nat)
    requires Reaches(limit, actions, i)
    requires var x := ExchangeAt(limit, actions, i);
             || CanAct(x, Receive(i))
             || ((x.handler.Leaving? || x.handler.Canceling? || x.handler.Gone?) && x.handler.reply.FromTask?)
    ensures var x := ExchangeAt(limit, actions, i);
            && x.task.Exited?
            && (x.task.result == Ok <==> x.terminal == Completed)
            && (x.task.result == Err(UpstreamTimeout) <==> x.terminal == TimedOut)
            && (x.task.result == Err(OtherError) <==> x.terminal == Failed)
            && (x.terminal == Completed || x.terminal == TimedOut || x.terminal == Failed)
  {
    AlwaysCoherent(limit, actions);
  }

  /** What is recorded when the handler refuses a request itself: a body or an exchange that took too long
      is TimedOut, a client that left Canceled, anything else, too many requests included, Failed. */
  lemma RecordedAsRefused(limit: nat, actions: seq<Action>, i: nat)
    requires Reaches(limit, actions, i)
    requires var x := ExchangeAt(limit, actions, i); (x.handler.Leaving? || x.handler.Gone?) && x.handler.reply.Refused?
    ensures var x := ExchangeAt(limit, actions, i);
            && (x.terminal == TimedOut
                <==> x.handler.reply.error == BodyTimeout || x.handler.reply.error == UpstreamTimeout)
            && (x.terminal == Canceled <==> x.handler.reply.error == ClientCanceled)
            && (x.terminal == Failed
                <==> x.handler.reply.error == TooManyRequests || x.handler.reply.error == OtherError)
            && x.task == NoTask && !x.cancelled
  {
    AlwaysCoherent(limit, actions);
  }

  /** What is recorded when the client has left: Canceled, unless the task had recorded before. */
  lemma RecordedAsDropped(limit: nat, actions: seq<Action>, i: nat)
    requires Reaches(limit, actions, i)
    requires ExchangeAt(limit, actions, i).handler.Gone? && ExchangeAt(limit, actions, i).handler.reply.Dropped?
    ensures var x := ExchangeAt(limit, actions, i);
            && (x.cancelled <==> x.terminal == Canceled)
            && (x.terminal != Canceled ==>
                  && (x.task.Finished? || x.task.Exited?)
                  && (x.terminal == Completed <==> x.task.result == Ok)
                  && (x.terminal == TimedOut <==> x.task.result == Err(UpstreamTimeout))
                  && (x.terminal == Failed <==> x.task.result == Err(OtherError)))
  {
    AlwaysCoherent(limit, actions);
  }

  /** A task that has yet to look at a cancelled token can only end with the cancellation: its work is
      never polled again. */
  lemma {:induction false} CancelIsFinal(limit: nat, actions: seq<Action>, k: nat, i: nat)
    requires k <= |actions| && Feasible(System(limit, []), actions) && Reaches(limit, actions[..k], i)
    requires var x := ExchangeAt(limit, actions[..k], i); x.cancelled && x.task.Running?
    ensures Reaches(limit, actions, i)
    ensures var x := ExchangeAt(limit, actions, i);
            x.cancelled && (x.task.Running? || ResultIs(x.task, Err(ClientCanceled)))
  {
    if k == |actions| {
      assert actions[..k] == actions;
    } else {
      var front := actions[..|actions| - 1];
      assert front[..k] == actions[..k];
      CancelIsFinal(limit, front, k, i);
      AlwaysCoherent(limit, front);
    }
  }

  lemma RunAction(limit: nat, actions: seq<Action>, a: Action)
    requires Feasible(System(limit, []), actions) && CanStep(Run(System(limit, []), actions), a)
    ensures Feasible(System(limit, []), actions + [a])
    ensures Run(System(limit, []), actions + [a]) == Step(Run(System(limit, []), actions), a)
  {
    assert (actions + [a])[..|actions|] == actions;
  }

  /** A task whose work is still pending when the token has been cancelled ends with the cancellation at
      its next poll. */
  lemma CancelIsNoticed(limit: nat, actions: seq<Action>, i: nat)
    requires Reaches(limit, actions, i)
    requires var x := ExchangeAt(limit, actions, i); x.cancelled && x.task.Polling?
    ensures var later := actions + [WorkPending(i)] + [PollToken(i)];
            Reaches(limit, later, i) && ExchangeAt(limit, later, i).task == Decided(Err(ClientCanceled))
  {
    RunAction(limit, actions, WorkPending(i));
    RunAction(limit, actions + [WorkPending(i)], PollToken(i));
  }

  /** No exchange is stuck: until it is over, its handler or its task can act. */
  lemma NoneStuck(limit: nat, actions: seq<Action>, i: nat)
    requires Reaches(limit, actions, i) && !Over(ExchangeAt(limit, actions, i))
    ensures exists a: Action :: !a.Arrive? && a.i == i && CanAct(ExchangeAt(limit, actions, i), a)
  {
    var x := ExchangeAt(limit, actions, i);
    AlwaysCoherent(limit, actions);
    var a :=
      match x.task
      case Running => PollToken(i)
      case Polling => WorkPending(i)
      case Decided(_) => TaskFinish(i)
      case Finished(_) => TaskExit(i)
      case _ => HandlerAction(x, i);
    assert CanAct(x, a);
  }

  /** What a handler whose task is not running can do next. */
  function HandlerAction(x: Exchange, i: nat): Action {
    match x.handler
    case Begun => Acquire(i)
    case Reading => Spawn(i)
    case Awaiting => Receive(i)
    case Leaving(_, permit) => if permit then DropPermit(i) else GuardFinish(i)
    case Canceling(_) => GuardCancel(i)
    case Gone(_) => Arrive
  }

  /** No exchange is left in flight: when its handler is gone its terminal is recorded. */
  lemma GoneIsSettled(limit: nat, actions: seq<Action>, i: nat)
    requires Reaches(limit, actions, i) && ExchangeAt(limit, actions, i).handler.Gone?
    ensures ExchangeAt(limit, actions, i).terminal != InFlight
  {
    AlwaysCoherent(limit, actions);
  }

  /** When a task's result is decided and about to be recorded, what the slot will say agrees with it
      exactly when the guard is still alive, or the result is the cancellation itself. */
  lemma RecordAgreesExactly(limit: nat, actions: seq<Action>, i: nat)
    requires Reaches(limit, actions, i) && ExchangeAt(limit, actions, i).task.Decided?
    ensures var x := ExchangeAt(limit, actions, i);
            FinishSlot(x.terminal, TerminalOf(x.task.result)) == TerminalOf(x.task.result)
            <==> GuardAlive(x) || x.task.result == Err(ClientCanceled)
  {
    AlwaysCoherent(limit, actions);
  }

  /** A run of one exchange under a limit of one permit. */
  predicate Leads(actions: seq<Action>, x: Exchange, free: nat) {
    Feasible(System(1, []), actions) && Run(System(1, []), actions) == System(free, [x])
  }

  lemma Extend(actions: seq<Action>, x: Exchange, free: nat, a: Action, x': Exchange, free': nat)
    requires Leads(actions, x, free) && !a.Arrive? && a.i == 0 && CanAct(x, a)
    requires x' == Act(x, a, free) && free' == FreeAfter(a, free)
    ensures Leads(actions + [a], x', free')
  {
    assert (actions + [a])[..|actions|] == actions;
    assert [x][0 := x'] == [x'];
  }

  /** The race the slot is for: the guard wins it while the task, already past its token check,
      still completes its work. The task's result is Ok, the terminal stays Canceled, and nobody is
      left to receive the result. */
  lemma GuardCanWinOverOk()
    ensures exists actions :: Leads(actions, Exchange(Gone(Dropped), Exited(Ok), Canceled, true), 1)
  {
    var run := GuardWinsSlot();
    hide Leads;
    Extend(run, Exchange(Canceling(Dropped), Polling, Canceled, false), 0,
           WorkDone(0, Ok), Exchange(Canceling(Dropped), Decided(Ok), Canceled, false), 0);
    run := run + [WorkDone(0, Ok)];
    Extend(run, Exchange(Canceling(Dropped), Decided(Ok), Canceled, false), 0,
           GuardCancel(0), Exchange(Gone(Dropped), Decided(Ok), Canceled, true), 0);
    run := run + [GuardCancel(0)];
    Extend(run, Exchange(Gone(Dropped), Decided(Ok), Canceled, true), 0,
           TaskFinish(0), Exchange(Gone(Dropped), Finished(Ok), Canceled, true), 0);
    run := run + [TaskFinish(0)];
    Extend(run, Exchange(Gone(Dropped), Finished(Ok), Canceled, true), 0,
           TaskExit(0), Exchange(Gone(Dropped), Exited(Ok), Canceled, true), 1);
  }

  lemma GuardWinsSlot() returns (run: seq<Action>)
    ensures Leads(run, Exchange(Canceling(Dropped), Polling, Canceled, false), 0)
  {
    var begun := Exchange(Begun, NoTask, InFlight, false);
    run := [Arrive];
    assert run[..0] == [] && [] + [begun] == [begun];
    assert Leads(run, begun, 1);
    hide Leads;
    Extend(run, begun, 1, Acquire(0), begun.(handler := Reading), 0);
    run := run + [Acquire(0)];
    Extend(run, begun.(handler := Reading), 0, Spawn(0), begun.(handler := Awaiting, task := Running), 0);
    run := run + [Spawn(0)];
    var polling := begun.(handler := Awaiting, task := Polling);
    Extend(run, begun.(handler := Awaiting, task := Running), 0, PollToken(0), polling, 0);
    run := run + [PollToken(0)];
    Extend(run, polling, 0, Abandon(0), polling.(handler := Leaving(Dropped, false)), 0);
    run := run + [Abandon(0)];
    Extend(run, polling.(handler := Leaving(Dropped, false)), 0,
           GuardFinish(0), Exchange(Canceling(Dropped), Polling, Canceled, false), 0);
    run := run + [GuardFinish(0)];
  }

  // ----- The permits -----

  /** The permits an exchange holds: the handler's until the task is spawned, then the task's. */
  function Held(x: Exchange): nat {
    (if x.handler.Reading? || (x.handler.Leaving? && x.handler.permit) then 1 else 0) +
    (if x.task.Running? || x.task.Polling? || x.task.Decided? || x.task.Finished? then 1 else 0)
  }

  function TotalHeld(xs: seq<Exchange>): nat {
    if xs == [] then 0 else TotalHeld(xs[..|xs| - 1]) + Held(xs[|xs| - 1])
  }

  lemma {:induction false} TotalHeldUpdate(xs: seq<Exchange>, i: nat, x: Exchange)
    requires i < |xs|
    ensures TotalHeld(xs[i := x]) == TotalHeld(xs) - Held(xs[i]) + Held(x)
  {
    var last := |xs| - 1;
    if i == last {
      assert xs[i := x][..last] == xs[..last];
    } else {
      assert xs[i := x][..last] == xs[..last][i := x];
      TotalHeldUpdate(xs[..last], i, x);
    }
  }

  lemma HeldAct(x: Exchange, a: Action, free: nat)
    requires Coherent(x) && CanAct(x, a)
    ensures FreeAfter(a, free) + Held(Act(x, a, free)) == free + Held(x)
    ensures Held(x) <= 1
  {
  }

  /** Permits are conserved: at every moment the free ones and those held by handlers and tasks add
      up to the configured limit. */
  lemma {:induction false} PermitsConserved(limit: nat, actions: seq<Action>)
    requires Feasible(System(limit, []), actions)
    ensures var s := Run(System(limit, []), actions); s.free + TotalHeld(s.exchanges) == limit
  {
    if actions != [] {
      var front, a := actions[..|actions| - 1], actions[|actions| - 1];
      var s := Run(System(limit, []), front);
      PermitsConserved(limit, front);
      if a.Arrive? {
        var x := Exchange(Begun, NoTask, InFlight, false);
        assert (s.exchanges + [x])[..|s.exchanges|] == s.exchanges;
      } else {
        AlwaysCoherent(limit, front);
        HeldAct(s.exchanges[a.i], a, s.free);
        TotalHeldUpdate(s.exchanges, a.i, Act(s.exchanges[a.i], a, s.free));
      }
    }
  }

  /** Before a permit, holding it, and after it. */
  function PermitStage(x: Exchange): nat {
    if x.handler.Begun? then 0 else if Held(x) == 1 then 1 else 2
  }

  /** An exchange passes through these stages forwards only: it acquires at most once and releases
      at most once. */
  lemma {:induction false} PermitOnce(limit: nat, actions: seq<Action>, k: nat, i: nat)
    requires k <= |actions| && Feasible(System(limit, []), actions) && Reaches(limit, actions[..k], i)
    ensures Reaches(limit, actions, i)
    ensures PermitStage(ExchangeAt(limit, actions[..k], i)) <= PermitStage(ExchangeAt(limit, actions, i))
    ensures Held(ExchangeAt(limit, actions, i)) <= 1
  {
    AlwaysCoherent(limit, actions);
    if k == |actions| {
      assert actions[..k] == actions;
    } else {
      var front, a := actions[..|actions| - 1], actions[|actions| - 1];
      assert front[..k] == actions[..k];
      PermitOnce(limit, front, k, i);
      AlwaysCoherent(limit, front);
    }
  }

  predicate Over(x: Exchange) {
    x.handler.Gone? && (x.task.NoTask? || x.task.Exited?)
  }

  /** A permit is given back in the end: exchanges that are over hold none, so when all are, every
      permit is free. */
  lemma {:induction false} NothingHeld(xs: seq<Exchange>)
    requires forall i :: 0 <= i < |xs| ==> Over(xs[i])
    ensures TotalHeld(xs) == 0
  {
    if xs != [] {
      NothingHeld(xs[..|xs| - 1]);
    }
  }

  lemma AllReleased(limit: nat, actions: seq<Action>)
    requires Feasible(System(limit, []), actions)
    requires forall i ::
               0 <= i < |Run(System(limit, []), actions).exchanges| ==>
                 Over(Run(System(limit, []), actions).exchanges[i])
    ensures Run(System(limit, []), actions).free == limit
  {
    PermitsConserved(limit, actions);
    NothingHeld(Run(System(limit, []), actions).exchanges);
  }

  /** A spawned task gives its permit back only after its exchange's terminal is recorded. */
  lemma TaskReleasesAfterRecording(limit: nat, actions: seq<Action>, i: nat)
    requires Reaches(limit, actions, i) && CanAct(ExchangeAt(limit, actions, i), TaskExit(i))
    ensures ExchangeAt(limit, actions, i).terminal != InFlight
    ensures var x := ExchangeAt(limit, actions, i);
            GuardAlive(x) ==> x.terminal == TerminalOf(x.task.result)
  {
    AlwaysCoherent(limit, actions);
  }

  /** A request is turned away for want of a permit exactly when all of them are held. */
  lemma TurnedAwayOnlyWhenFull(limit: nat, actions: seq<Action>, i: nat)
    requires Reaches(limit, actions, i) && CanAct(ExchangeAt(limit, actions, i), Acquire(i))
    ensures var s := Run(System(limit, []), actions);
            Act(s.exchanges[i], Acquire(i), s.free).handler == Leaving(Refused(TooManyRequests), false)
            <==> TotalHeld(s.exchanges) == limit
  {
    PermitsConserved(limit, actions);
  }
}
