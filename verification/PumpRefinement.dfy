/** Two equivalences of whole runs: keepalives are transparent, and the queued private pump
    refines the direct connected loop. */
module PumpRefinement {
  import opened Common
  import opened Frames
  import opened PumpMachine
  import opened PumpSafety
  import opened PumpTiming

  // ----- Keepalives -----

  predicate Keepalive(e: Event) {
    || (e.ClientRead? && e.client.Message? && AxumKeepalive(e.client.message))
    || (e.UpstreamRead? && e.upstream.Message? && TungKeepalive(e.upstream.message))
  }

  function WithoutKeepalives(es: seq<Stamped>): seq<Stamped> {
    if es == [] then []
    else WithoutKeepalives(es[..|es| - 1]) + if Keepalive(es[|es| - 1].event) then [] else [es[|es| - 1]]
  }

  lemma KeepaliveStep(p: Policy, s: State, e: Stamped)
    requires Enabled(s, e) && Keepalive(e.event) && s.deadline.None?
    ensures Next(p, s, e) == s.(clock := e.at)
  {
  }

  lemma NoDeadline(p: Policy, s: State, e: Stamped)
    requires Enabled(s, e) && p.idleTimeout == 0 && s.deadline.None?
    ensures Next(p, s, e).deadline.None?
  {
  }

  /** With the idle timeout disabled, dropping every Ping and Pong of either peer leaves the same
      run: the same frames on both legs, the same queue decisions and the same outcome. */
  lemma {:induction false} KeepalivesTransparent(p: Policy, s0: State, es: seq<Stamped>)
    requires p.idleTimeout == 0 && s0.deadline.None? && Feasible(p, s0, es)
    ensures Feasible(p, s0, WithoutKeepalives(es))
    ensures Run(p, s0, WithoutKeepalives(es)).clock <= Run(p, s0, es).clock
    ensures Run(p, s0, es) == Run(p, s0, WithoutKeepalives(es)).(clock := Run(p, s0, es).clock)
    ensures Run(p, s0, es).deadline.None?
  {
    if es != [] {
      hide Next;
      var front, e := es[..|es| - 1], es[|es| - 1];
      var s, quiet := Run(p, s0, front), WithoutKeepalives(front);
      KeepalivesTransparent(p, s0, front);
      NoDeadline(p, s, e);
      if Keepalive(e.event) {
        KeepaliveStep(p, s, e);
        assert quiet + [] == quiet;
      } else {
        ClockIrrelevant(p, s, Run(p, s0, quiet), e);
        RunStep(p, s0, quiet, e);
      }
    }
  }

  /** The clock of a state only bounds the next event. */
  lemma ClockIrrelevant(p: Policy, s: State, t: State, e: Stamped)
    requires Enabled(s, e) && t.clock <= s.clock && s == t.(clock := s.clock)
    ensures Enabled(t, e) && Next(p, t, e) == Next(p, s, e)
  {
    assert t.(clock := e.at) == s.(clock := e.at);
  }

  /** So two inputs that differ only in keepalives are relayed alike. */
  lemma KeepalivesInsertable(p: Policy, s0: State, es: seq<Stamped>, es': seq<Stamped>)
    requires p.idleTimeout == 0 && s0.deadline.None? && Feasible(p, s0, es) && Feasible(p, s0, es')
    requires WithoutKeepalives(es) == WithoutKeepalives(es')
    ensures Run(p, s0, es) == Run(p, s0, es').(clock := Run(p, s0, es).clock)
  {
    KeepalivesTransparent(p, s0, es);
    KeepalivesTransparent(p, s0, es');
  }

  // ----- The private pump refines the direct one -----

  /** The direct pump reads a frame at the moment the private one takes it off its queue. */
  function Unqueue(m: TungMessage, at: nat): Stamped {
    Stamped(at, ClientRead(Message(TungsteniteToAxum(m).GetOr(AxPing("")))))
  }

  /** What the direct pump observes while the private pump takes one step: nothing while it queues,
      one read for every frame it unqueues, and the same event otherwise. */
  function DirectStep(s: State, e: Stamped): seq<Stamped> {
    match s.phase
    case Connecting => if e.event.Connected? && s.queue != [] then [Unqueue(s.queue[0], e.at)] else []
    case Flushing(_) =>
      if e.event == SendDone(SendOk) && s.queue != [] then [e, Unqueue(s.queue[0], e.at)] else [e]
    case _ => [e]
  }

  function Direct(p: Policy, s0: State, es: seq<Stamped>): seq<Stamped>
    requires Feasible(p, s0, es)
  {
    if es == [] then []
    else Direct(p, s0, es[..|es| - 1]) + DirectStep(Run(p, s0, es[..|es| - 1]), es[|es| - 1])
  }

  function DirectPhase(phase: Phase): Phase {
    if phase.Flushing? then ToUpstream(phase.queued) else phase
  }

  /** The direct state `d` has put the same frames on both legs as the private state `s`, waits for
      the same thing and ends the same way. Only the farewell of a leaving client may differ, and
      only when the close policies do. */
  predicate Simulates(p: Policy, q: Policy, s: State, d: State) {
    && d.queue == [] && d.clock <= s.clock
    && d.phase == DirectPhase(s.phase)
    && d.down == s.down
    && (s.phase != Ended(ClientClosed) || p == q ==> d.up == s.up)
    && (s.phase == Ended(ClientClosed) ==>
          && |d.up| == |s.up| > 0 && d.up[..|d.up| - 1] == s.up[..|s.up| - 1]
          && d.up[|d.up| - 1].TuClose? && s.up[|s.up| - 1].TuClose?)
  }

  /** The policies of the two pumps differ at most in what they do with a client's close. */
  predicate SameLimits(p: Policy, q: Policy) {
    q == p.(closePolicy := q.closePolicy)
  }

  lemma RunOne(q: Policy, d: State, e: Stamped)
    requires Enabled(d, e)
    ensures Feasible(q, d, [e]) && Run(q, d, [e]) == Next(q, d, e)
  {
    RunStep(q, d, [], e);
    assert [] + [e] == [e];
  }

  lemma RunTwo(q: Policy, d: State, e: Stamped, f: Stamped)
    requires Enabled(d, e) && Enabled(Next(q, d, e), f)
    ensures Feasible(q, d, [e, f]) && Run(q, d, [e, f]) == Next(q, Next(q, d, e), f)
  {
    RunOne(q, d, e);
    RunStep(q, d, [e], f);
    assert [e] + [f] == [e, f];
  }

  /** Reading a frame the private pump had accepted puts the direct pump on its way upstream. */
  lemma UnqueueReads(p: Policy, q: Policy, d: State, m: TungMessage, at: nat)
    requires SameLimits(p, q) && Small(p, m) && d.phase.Waiting? && d.clock <= at
    ensures Enabled(d, Unqueue(m, at))
    ensures Next(q, d, Unqueue(m, at))
            == d.(clock := at, deadline := Extend(q, d.deadline, at), phase := ToUpstream(m))
  {
  }

  /** The connect starts the direct pump, which at once reads the first queued frame, if any. */
  lemma ConnectMatched(p: Policy, q: Policy, s: State, d: State, e: Stamped)
    requires SameLimits(p, q) && Shape(p, s) && s.phase.Connecting? && Enabled(s, e) && e.event.Connected?
    requires d == DirectInit(q, d.clock) && d.clock <= e.at
    ensures Feasible(q, d, DirectStep(s, e))
    ensures Simulates(p, q, Next(p, s, e), Run(q, d, DirectStep(s, e)))
  {
    if s.queue != [] {
      UnqueueReads(p, q, d, s.queue[0], e.at);
      RunOne(q, d, Unqueue(s.queue[0], e.at));
    }
  }

  lemma FlushMatched(p: Policy, q: Policy, s: State, d: State, e: Stamped)
    requires SameLimits(p, q) && Shape(p, s) && Enabled(s, e) && s.phase.Flushing? && Simulates(p, q, s, d)
    requires !e.event.IdleElapsed?
    ensures Feasible(q, d, DirectStep(s, e))
    ensures Simulates(p, q, Next(p, s, e), Run(q, d, DirectStep(s, e)))
  {
    if e.event == SendDone(SendOk) && s.queue != [] {
      var d' := Next(q, d, e);
      UnqueueReads(p, q, d', s.queue[0], e.at);
      RunTwo(q, d, e, Unqueue(s.queue[0], e.at));
    } else {
      RunOne(q, d, e);
    }
  }

  /** Past the flush the two pumps are in the same state but for their deadlines. */
  predicate Alike(s: State, d: State) {
    d == s.(deadline := d.deadline, queuedBytes := d.queuedBytes) && s.queue == [] && s.phase.Waiting?
  }

  lemma ReadClientMatched(p: Policy, q: Policy, s: State, d: State, read: Read<AxumMessage>)
    requires SameLimits(p, q) && Alike(s, d)
    ensures Simulates(p, q, ReadClient(p, s, read), ReadClient(q, d, read))
  {
    hide AxumToTungstenite, AxumBytes;
  }

  lemma ReadUpstreamMatched(p: Policy, q: Policy, s: State, d: State, read: Read<TungMessage>)
    requires SameLimits(p, q) && Alike(s, d)
    ensures Simulates(p, q, ReadUpstream(p, s, read), ReadUpstream(q, d, read))
  {
    hide TungsteniteToAxum, TungBytes;
  }

  lemma SendMatched(p: Policy, q: Policy, s: State, d: State, e: Stamped)
    requires s.queue == [] && Enabled(s, e) && Simulates(p, q, s, d)
    requires s.phase.ToUpstream? || s.phase.ToClient?
    ensures Enabled(d, e) && Simulates(p, q, Next(p, s, e), Next(q, d, e))
  {
  }

  lemma ConnectedMatched(p: Policy, q: Policy, s: State, d: State, e: Stamped)
    requires SameLimits(p, q) && Shape(p, s) && Enabled(s, e) && Simulates(p, q, s, d)
    requires s.phase.Waiting? || s.phase.ToUpstream? || s.phase.ToClient?
    requires !e.event.IdleElapsed?
    ensures Feasible(q, d, DirectStep(s, e))
    ensures Simulates(p, q, Next(p, s, e), Run(q, d, DirectStep(s, e)))
  {
    assert s.queue == [];
    hide Shape, AllSmall, AllAxumSmall, ReadClient, ReadUpstream;
    RunOne(q, d, e);
    if s.phase.Waiting? {
      var t, u := s.(clock := e.at), d.(clock := e.at);
      if e.event.ClientRead? {
        ReadClientMatched(p, q, t, u, e.event.client);
      } else {
        ReadUpstreamMatched(p, q, t, u, e.event.upstream);
      }
    } else {
      SendMatched(p, q, s, d, e);
    }
  }

  lemma StepMatched(p: Policy, q: Policy, s: State, d: State, e: Stamped)
    requires SameLimits(p, q) && Shape(p, s) && Enabled(s, e) && Simulates(p, q, s, d)
    requires !s.phase.Connecting? && !e.event.IdleElapsed?
    ensures Feasible(q, d, DirectStep(s, e))
    ensures Simulates(p, q, Next(p, s, e), Run(q, d, DirectStep(s, e)))
  {
    hide Shape, Simulates, Next, DirectStep;
    if s.phase.Flushing? {
      FlushMatched(p, q, s, d, e);
    } else {
      ConnectedMatched(p, q, s, d, e);
    }
  }

  /** Before the connect the direct pump observes nothing. */
  lemma {:induction false} DirectBeforeConnect(p: Policy, s0: State, es: seq<Stamped>)
    requires s0 == PrivateInit(s0.clock) && Feasible(p, s0, es) && !HasConnected(es)
    ensures Direct(p, s0, es) == [] || Run(p, s0, es).phase.Ended?
    ensures Run(p, s0, es).phase.Connecting? || Run(p, s0, es).phase.Ended?
    ensures Run(p, s0, es).phase.Connecting? ==> Direct(p, s0, es) == []
  {
    if es != [] {
      hide ReadWhileConnecting;
      var front := es[..|es| - 1];
      assert forall i :: 0 <= i < |front| ==> front[i] == es[i];
      DirectBeforeConnect(p, s0, front);
    }
  }

  predicate NoIdle(es: seq<Stamped>) {
    forall i :: 0 <= i < |es| ==> !es[i].event.IdleElapsed?
  }

  predicate StartsBy(t0: nat, es: seq<Stamped>) {
    forall i :: 0 <= i < |es| && es[i].event.Connected? ==> t0 <= es[i].at
  }

  /** The step at which the upstream connects. */
  lemma AtConnect(p: Policy, q: Policy, s0: State, t0: nat, front: seq<Stamped>, e: Stamped)
    requires SameLimits(p, q) && s0 == PrivateInit(s0.clock)
    requires Feasible(p, s0, front) && !HasConnected(front) && Enabled(Run(p, s0, front), e)
    requires e.event.Connected? && t0 <= e.at
    ensures Direct(p, s0, front) == []
    ensures Feasible(q, DirectInit(q, t0), DirectStep(Run(p, s0, front), e))
    ensures Simulates(p, q, Next(p, Run(p, s0, front), e), Run(q, DirectInit(q, t0), DirectStep(Run(p, s0, front), e)))
  {
    hide Next, Simulates, Shape, DirectStep;
    ShapeHolds(p, s0, front);
    DirectBeforeConnect(p, s0, front);
    ConnectMatched(p, q, Run(p, s0, front), DirectInit(q, t0), e);
  }

  /** A later step extends the direct run by what matches it. */
  lemma AfterConnect(p: Policy, q: Policy, s0: State, d0: State, front: seq<Stamped>, e: Stamped)
    requires SameLimits(p, q) && s0 == PrivateInit(s0.clock)
    requires Feasible(p, s0, front) && HasConnected(front) && Enabled(Run(p, s0, front), e) && !e.event.IdleElapsed?
    requires Feasible(q, d0, Direct(p, s0, front))
    requires Simulates(p, q, Run(p, s0, front), Run(q, d0, Direct(p, s0, front)))
    ensures Feasible(q, d0, Direct(p, s0, front) + DirectStep(Run(p, s0, front), e))
    ensures Simulates(p, q, Next(p, Run(p, s0, front), e),
                      Run(q, d0, Direct(p, s0, front) + DirectStep(Run(p, s0, front), e)))
  {
    var s := Run(p, s0, front);
    assert !s.phase.Ended?;
    hide Next, Simulates, Shape, DirectStep, Enabled, Direct;
    ShapeHolds(p, s0, front);
    OpenPhase(p, s0, front);
    StepMatched(p, q, s, Run(q, d0, Direct(p, s0, front)), e);
    RunConcat(q, d0, Direct(p, s0, front), DirectStep(s, e));
  }

  /** While the idle deadline ends nothing, the direct pump is where the private one is. */
  lemma {:induction false} IdleFreeRefines(p: Policy, q: Policy, s0: State, t0: nat, es: seq<Stamped>)
    requires SameLimits(p, q) && s0 == PrivateInit(s0.clock) && Feasible(p, s0, es)
    requires NoIdle(es) && StartsBy(t0, es) && HasConnected(es)
    ensures Feasible(q, DirectInit(q, t0), Direct(p, s0, es))
    ensures Simulates(p, q, Run(p, s0, es), Run(q, DirectInit(q, t0), Direct(p, s0, es)))
  {
    var front, e := es[..|es| - 1], es[|es| - 1];
    assert forall i :: 0 <= i < |front| ==> front[i] == es[i];
    hide Next, Simulates, DirectStep, Enabled;
    if HasConnected(front) {
      IdleFreeRefines(p, q, s0, t0, front);
      AfterConnect(p, q, s0, DirectInit(q, t0), front, e);
    } else {
      AtConnect(p, q, s0, t0, front, e);
      assert [] + DirectStep(Run(p, s0, front), e) == DirectStep(Run(p, s0, front), e);
    }
  }

  predicate EndsIdle(es: seq<Stamped>) { es != [] && es[|es| - 1].event.IdleElapsed? }

  lemma IdleEnds(p: Policy, s: State, e: Stamped)
    requires Enabled(s, e) && e.event.IdleElapsed?
    ensures Next(p, s, e).phase.Ended?
  {
  }

  /** The idle deadline can only be the last event of a run. */
  lemma {:induction false} IdleIsLast(p: Policy, s0: State, es: seq<Stamped>)
    requires Feasible(p, s0, es)
    ensures es != [] ==> NoIdle(es[..|es| - 1])
  {
    hide Next;
    if |es| > 1 {
      var front := es[..|es| - 1];
      IdleIsLast(p, s0, front);
      if EndsIdle(front) {
        IdleEnds(p, Run(p, s0, front[..|front| - 1]), front[|front| - 1]);
      }
    }
  }

  /** The direct pump sees the idle deadline elapse with the private one: neither is sending, and the
      direct pump, too, has been silent for that long. */
  predicate DirectIdles(p: Policy, s0: State, t0: nat, es: seq<Stamped>)
    requires es != [] && Feasible(p, s0, es)
  {
    var front := es[..|es| - 1];
    && Run(p, s0, front).phase.Waiting?
    && LastActivity(t0, Direct(p, s0, front)) + p.idleTimeout <= es[|es| - 1].at
  }

  lemma IdleStepMatched(p: Policy, q: Policy, s: State, d: State, e: Stamped)
    requires Enabled(s, e) && Enabled(d, e) && e.event.IdleElapsed? && Simulates(p, q, s, d) && s.phase.Waiting?
    requires s.queue == []
    ensures Simulates(p, q, Next(p, s, e), Next(q, d, e))
  {
  }

  /** The two pumps where the private one ends by the idle deadline. */
  lemma IdleMatched(p: Policy, q: Policy, s0: State, t0: nat, front: seq<Stamped>, e: Stamped)
    requires SameLimits(p, q) && s0 == PrivateInit(s0.clock) && Feasible(p, s0, front)
    requires NoIdle(front) && StartsBy(t0, front) && HasConnected(front)
    requires Enabled(Run(p, s0, front), e) && e.event.IdleElapsed?
    ensures Feasible(q, DirectInit(q, t0), Direct(p, s0, front))
    ensures var s, d := Run(p, s0, front), Run(q, DirectInit(q, t0), Direct(p, s0, front));
            && (Enabled(d, e) <==>
                  s.phase.Waiting? && LastActivity(t0, Direct(p, s0, front)) + p.idleTimeout <= e.at)
            && (Enabled(d, e) ==> Simulates(p, q, Next(p, s, e), Next(q, d, e)))
  {
    IdleFreeRefines(p, q, s0, t0, front);
    IdleReady(p, s0, front, e.at);
    IdleReady(q, DirectInit(q, t0), Direct(p, s0, front), e.at);
    ShapeHolds(p, s0, front);
    var s, d := Run(p, s0, front), Run(q, DirectInit(q, t0), Direct(p, s0, front));
    assert e == Stamped(e.at, IdleElapsed);
    hide Run, LastActivity, Direct, Next;
    if Enabled(d, e) {
      IdleStepMatched(p, q, s, d, e);
    }
  }

  lemma IdleEndRefines(p: Policy, q: Policy, s0: State, t0: nat, es: seq<Stamped>)
    requires SameLimits(p, q) && s0 == PrivateInit(s0.clock) && Feasible(p, s0, es) && EndsIdle(es)
    requires var front := es[..|es| - 1]; NoIdle(front) && StartsBy(t0, front) && HasConnected(front)
    ensures Feasible(q, DirectInit(q, t0), Direct(p, s0, es)) <==> DirectIdles(p, s0, t0, es)
    ensures Feasible(q, DirectInit(q, t0), Direct(p, s0, es))
            ==> Simulates(p, q, Run(p, s0, es), Run(q, DirectInit(q, t0), Direct(p, s0, es)))
  {
    hide Next, Simulates, Enabled, LastActivity, DirectStep, Run, Direct;
    var front, e := es[..|es| - 1], es[|es| - 1];
    DirectSnoc(p, s0, es);
    IdleMatched(p, q, s0, t0, front, e);
    OnlyAfterConnect(p, s0, front, e);
    RunStep(q, DirectInit(q, t0), Direct(p, s0, front), e);
  }

  /** The private pump refines the direct one. Take any private run that connected, whenever its
      upstream connected. The direct pump, started at any moment up to the connect and fed the same
      frames one by one, can follow it exactly unless the run ends by an idle deadline the direct pump
      does not see. As far as it follows it is always where the private pump is: the same frames on both
      legs, the same frame in flight, the same outcome. */
  lemma PrivateRefinesDirect(p: Policy, q: Policy, s0: State, t0: nat, es: seq<Stamped>)
    requires SameLimits(p, q) && s0 == PrivateInit(s0.clock) && Feasible(p, s0, es)
    requires StartsBy(t0, es) && HasConnected(es)
    ensures Feasible(q, DirectInit(q, t0), Direct(p, s0, es)) <==> (EndsIdle(es) ==> DirectIdles(p, s0, t0, es))
    ensures Feasible(q, DirectInit(q, t0), Direct(p, s0, es))
            ==> Simulates(p, q, Run(p, s0, es), Run(q, DirectInit(q, t0), Direct(p, s0, es)))
  {
    var front, e := es[..|es| - 1], es[|es| - 1];
    IdleIsLast(p, s0, es);
    assert forall i :: 0 <= i < |front| ==> front[i] == es[i];
    hide Next, Simulates, Enabled, LastActivity, DirectStep;
    if EndsIdle(es) {
      assert HasConnected(front);
      hide Run, Direct, Feasible;
      IdleEndRefines(p, q, s0, t0, es);
    } else {
      assert NoIdle(es);
      IdleFreeRefines(p, q, s0, t0, es);
    }
  }

  lemma OnlyAfterConnect(p: Policy, s0: State, front: seq<Stamped>, e: Stamped)
    requires Feasible(p, s0, front) && Enabled(Run(p, s0, front), e) && e.event.IdleElapsed?
    ensures DirectStep(Run(p, s0, front), e) == [e]
  {
  }

  // ----- What the direct pump is fed -----

  lemma {:induction false} DataOfConcat(a: seq<Stamped>, b: seq<Stamped>)
    ensures ClientData(a + b) == ClientData(a) + ClientData(b)
    ensures UpstreamData(a + b) == UpstreamData(a) + UpstreamData(b)
    decreases |b|
  {
    hide ClientDataIn, UpstreamDataIn;
    if b == [] {
      assert a + b == a;
    } else {
      var front, e := b[..|b| - 1], b[|b| - 1];
      DataOfConcat(a, front);
      assert (a + b)[..|a + b| - 1] == a + front && (a + b)[|a + b| - 1] == e;
      DataOfSnoc(a + b);
      DataOfSnoc(b);
      hide ClientData, UpstreamData;
      Associative(ClientData(a), ClientData(front), ClientDataIn(e));
      Associative(UpstreamData(a), UpstreamData(front), UpstreamDataIn(e));
    }
  }

  lemma DataOfSnoc(es: seq<Stamped>)
    requires es != []
    ensures ClientData(es) == ClientData(es[..|es| - 1]) + ClientDataIn(es[|es| - 1])
    ensures UpstreamData(es) == UpstreamData(es[..|es| - 1]) + UpstreamDataIn(es[|es| - 1])
  {
  }

  lemma DataOfOne(e: Stamped)
    ensures ClientData([e]) == ClientDataIn(e) && UpstreamData([e]) == UpstreamDataIn(e)
  {
    assert [e][..0] == [];
  }

  lemma DataOfUnqueue(m: TungMessage, at: nat)
    requires IsData(m)
    ensures ClientData([Unqueue(m, at)]) == TungData(m) && UpstreamData([Unqueue(m, at)]) == []
  {
    DataOfOne(Unqueue(m, at));
  }

  /** Taking the head off the queue. */
  predicate Unqueues(s: State, e: Stamped) {
    s.queue != [] && (s.phase.Connecting? || (s.phase.Flushing? && e.event == SendDone(SendOk)))
  }

  lemma QueueAfter(p: Policy, s: State, e: Stamped)
    requires Shape(p, s) && Enabled(s, e) && (s.phase.Connecting? ==> e.event.Connected?)
    ensures Next(p, s, e).queue == if Unqueues(s, e) then s.queue[1..] else s.queue
  {
  }

  /** A step feeds the direct pump what it reads itself and what it takes off the queue. */
  lemma FedStep(p: Policy, s: State, e: Stamped)
    requires Shape(p, s) && Enabled(s, e) && (s.phase.Connecting? ==> e.event.Connected?)
    ensures ClientData(DirectStep(s, e)) + TungDataAll(Next(p, s, e).queue) == TungDataAll(s.queue) + ClientDataIn(e)
    ensures UpstreamData(DirectStep(s, e)) == UpstreamDataIn(e)
  {
    QueueAfter(p, s, e);
    DataOfOne(e);
    assert s.phase.Waiting? ==> TungDataAll(s.queue) == [];
    hide TungDataAll, Next;
    if Unqueues(s, e) {
      TungDataPop(s.queue);
      DataOfUnqueue(s.queue[0], e.at);
      DataOfConcat([e], [Unqueue(s.queue[0], e.at)]);
      assert [e] + [Unqueue(s.queue[0], e.at)] == [e, Unqueue(s.queue[0], e.at)];
    }
  }

  predicate Fed(p: Policy, s0: State, es: seq<Stamped>)
    requires Feasible(p, s0, es)
  {
    && ClientData(Direct(p, s0, es)) + TungDataAll(Run(p, s0, es).queue) == ClientData(es)
    && UpstreamData(Direct(p, s0, es)) == UpstreamData(es)
  }

  lemma DirectSnoc(p: Policy, s0: State, es: seq<Stamped>)
    requires es != [] && Feasible(p, s0, es)
    ensures var front, e := es[..|es| - 1], es[|es| - 1];
            && Enabled(Run(p, s0, front), e) && !Run(p, s0, front).phase.Ended?
            && Direct(p, s0, es) == Direct(p, s0, front) + DirectStep(Run(p, s0, front), e)
            && Run(p, s0, es) == Next(p, Run(p, s0, front), e)
  {
  }

  lemma FedMore(p: Policy, s0: State, es: seq<Stamped>)
    requires es != [] && Feasible(p, s0, es) && Fed(p, s0, es[..|es| - 1]) && Shape(p, Run(p, s0, es[..|es| - 1]))
    requires Run(p, s0, es[..|es| - 1]).phase.Connecting? ==> es[|es| - 1].event.Connected?
    ensures Fed(p, s0, es)
  {
    var front, e := es[..|es| - 1], es[|es| - 1];
    DirectSnoc(p, s0, es);
    DataOfSnoc(es);
    hide Run, Direct, Next, DirectStep, Shape, ClientData, UpstreamData, ClientDataIn, UpstreamDataIn, TungDataAll,
         Enabled;
    var s := Run(p, s0, front);
    DataOfConcat(Direct(p, s0, front), DirectStep(s, e));
    FedStep(p, s, e);
    FedSum(ClientData(Direct(p, s0, front)), ClientData(DirectStep(s, e)), TungDataAll(Run(p, s0, es).queue),
           TungDataAll(s.queue), ClientDataIn(e), ClientData(front));
  }

  lemma FrontConnects(es: seq<Stamped>)
    requires HasConnected(es)
    ensures es != [] && (HasConnected(es[..|es| - 1]) || es[|es| - 1].event.Connected?)
  {
    var front := es[..|es| - 1];
    assert forall i :: 0 <= i < |front| ==> front[i] == es[i];
  }

  lemma {:induction false} AlwaysFed(p: Policy, s0: State, es: seq<Stamped>)
    requires s0 == PrivateInit(s0.clock) && Feasible(p, s0, es) && HasConnected(es)
    ensures Fed(p, s0, es)
  {
    hide Fed, Next, Shape, Direct, HasConnected, Run, Enabled;
    FrontConnects(es);
    var front := es[..|es| - 1];
    DirectSnoc(p, s0, es);
    ShapeHolds(p, s0, front);
    if HasConnected(front) {
      AlwaysFed(p, s0, front);
      ConnectedStays(p, s0, front);
    } else {
      FedBeforeConnect(p, s0, front);
    }
    FedMore(p, s0, es);
  }

  /** The direct pump is fed the same frames, whether or not the run has ended: all the upstream's,
      and the client's except those still waiting in the queue. */
  lemma DirectFedTheSame(p: Policy, s0: State, es: seq<Stamped>)
    requires s0 == PrivateInit(s0.clock) && Feasible(p, s0, es) && HasConnected(es)
    ensures ClientData(Direct(p, s0, es)) + TungDataAll(Run(p, s0, es).queue) == ClientData(es)
    ensures UpstreamData(Direct(p, s0, es)) == UpstreamData(es)
  {
    hide ClientData, UpstreamData, Direct, Run, Feasible, HasConnected, TungDataAll;
    AlwaysFed(p, s0, es);
  }

  lemma NoDirectData()
    ensures ClientData([]) == [] && UpstreamData([]) == []
  {
  }

  lemma FedSum(fed: seq<Data>, step: seq<Data>, left: seq<Data>, queued: seq<Data>, read: seq<Data>, all: seq<Data>)
    requires step + left == queued + read && fed + queued == all
    ensures (fed + step) + left == all + read
  {
    Associative(fed, step, left);
    Associative(fed, queued, read);
  }

  lemma ConnectedStays(p: Policy, s0: State, es: seq<Stamped>)
    requires s0 == PrivateInit(s0.clock) && Feasible(p, s0, es) && HasConnected(es)
    ensures !Run(p, s0, es).phase.Connecting?
  {
    if !Run(p, s0, es).phase.Ended? {
      OpenPhase(p, s0, es);
    }
  }

  lemma FedBeforeConnect(p: Policy, s0: State, es: seq<Stamped>)
    requires s0 == PrivateInit(s0.clock) && Feasible(p, s0, es) && !HasConnected(es) && !Run(p, s0, es).phase.Ended?
    ensures Fed(p, s0, es)
  {
    DirectBeforeConnect(p, s0, es);
    Conservation(p, s0, es);
    ShapeHolds(p, s0, es);
    hide Run, Direct, Feasible, Open, ClientData;
    assert TungDataAll([]) == [] && AxumDataAll([]) == [];
    NoDirectData();
  }

  /** The idle deadline is a bound the direct pump does not share: it runs during the flush, while a
      direct pump sending the same frame cannot observe it. */
  lemma IdleCutsTheFlush()
    ensures var p := Policy(8, 5, PrivateNormalized);
            var es := [Stamped(0, ClientRead(Message(AxText("a")))), Stamped(1, Connected)];
            var idle := Stamped(6, IdleElapsed);
            && Feasible(p, PrivateInit(0), es) && Enabled(Run(p, PrivateInit(0), es), idle)
            && Next(p, Run(p, PrivateInit(0), es), idle).phase == Ended(Aborted(CODE_GOING_AWAY, IDLE_TIMEOUT))
            && Feasible(p, DirectInit(p, 1), Direct(p, PrivateInit(0), es))
            && !Enabled(Run(p, DirectInit(p, 1), Direct(p, PrivateInit(0), es)), idle)
  {
    var p := Policy(8, 5, PrivateNormalized);
    var e, f := Stamped(0, ClientRead(Message(AxText("a")))), Stamped(1, Connected);
    RunTwo(p, PrivateInit(0), e, f);
    assert [e, f][..1] == [e];
    RunOne(p, PrivateInit(0), e);
    assert Direct(p, PrivateInit(0), [e]) == [];
    assert Direct(p, PrivateInit(0), [e, f]) == [Unqueue(TuText("a"), 1)];
    RunOne(p, DirectInit(p, 1), Unqueue(TuText("a"), 1));
  }
}
