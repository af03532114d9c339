/**
  The jobs of Revocation never deadlock, among themselves or with other operations.

  Jobs take their gates as their own program says; that this is the order of a plan is
  proved here. The other threads execute operations of LockOrder. Every run is also a
  run of Revocation, so its safety holds along it.
 */
module RevocationProgress {
  import opened Common
  import opened MutationGates
  import opened LockOrder
  import L = LockOrder
  import R = Revocation

  datatype World = World(sys: R.System, ops: map<ThreadId, Execution>)

  datatype Happening =
    | Of(e: R.Event)
    | StartOther(t: ThreadId, op: Operation)
    | DoneOther(t: ThreadId)

  /** The operation whose gates a job takes. */
  function OperationOf(task: R.Task): Operation
  {
    if R.WorkspaceTask(task) then DeviceAuthority(task.p.owner, task.p.device, task.workspace)
    else DeviceScoped(R.Device(task).0, R.Device(task).1)
  }

  function OpsAfter(ops: map<ThreadId, Execution>, e: R.Event): map<ThreadId, Execution>
  {
    match e
    case GateEvent(t, a) => if t in ops then Advanced(ops, t, a) else ops
    case Begin(t, task) => ops[t := Execution(OperationOf(task), 0, false)]
    case Finish(t) => ops - {t}
    case _ => ops
  }

  /** A thread without a job follows the plan of its operation; of a job only its own program is asked. */
  ghost predicate Step(w: World, h: Happening, v: World)
  {
    match h
    case Of(e) =>
      && R.Step(w.sys, e, v.sys) && v.ops == OpsAfter(w.ops, e)
      && (e.GateEvent? && e.t !in w.sys.jobs ==> Follows(w.ops, e.t, e.a))
      && (e.Begin? ==> e.t !in w.ops)
    case StartOther(t, op) =>
      t in w.sys.gates.threads && t !in w.ops && v == w.(ops := w.ops[t := Execution(op, 0, false)])
    case DoneOther(t) =>
      && t in w.ops && t !in w.sys.jobs && t in w.sys.gates.threads && AtRest(w.sys.gates.threads[t])
      && v == w.(ops := w.ops - {t})
  }

  // ----- A job's program takes the gates of its plan

  ghost predicate Aligned(job: R.Job, ex: Execution)
  {
    && ex.op == OperationOf(job.task)
    && (!job.stage.Exiting? ==> !ex.leaving)
    && (job.stage.NeedWorkspace? ==> R.WorkspaceTask(job.task) && ex.next <= 1)
    && (R.WorkspaceTask(job.task) && job.stage.NeedDevice? ==> ex.next >= 1)
  }

  ghost predicate AlignedJobs(w: World)
  {
    forall t :: t in w.sys.jobs ==> t in w.ops && Aligned(w.sys.jobs[t], w.ops[t])
  }

  ghost predicate WorldInv(w: World)
  {
    R.SystemInv(w.sys) && MachineInv(Machine(w.sys.gates, w.ops)) && AlignedJobs(w)
  }

  lemma {:induction false} HeldIsCritical(s: State, t: ThreadId, k: Key)
    requires t in s.threads
    ensures InCritical(s, t, k) <==> k in s.threads[t].held.Values
  {
  }

  lemma {:induction false} PlanOfTask(task: R.Task)
    ensures Plan(OperationOf(task)) ==
            if R.WorkspaceTask(task) then [WorkspaceKey(task.workspace), R.GateOf(task)] else [R.GateOf(task)]
  {
  }

  lemma {:induction false} GatesOfTwo(a: Key, b: Key)
    ensures Gates([a, b], 0) == {} && Gates([a, b], 1) == {a} && Gates([a, b], 2) == {a, b}
  {
    assert [a, b][..0] == [] && [a, b][..1] == [a] && [a, b][..2] == [a, b];
  }

  lemma {:induction false} GatesOfOne(a: Key)
    ensures Gates([a], 0) == {} && Gates([a], 1) == {a}
  {
    assert [a][..0] == [] && [a][..1] == [a];
  }

  /** What a job's program requests is the next gate of its plan. */
  lemma {:induction false} JobFollowsPlan(w: World, t: ThreadId, a: Action)
    requires t in w.sys.jobs && t in w.ops && t in w.sys.gates.threads
    requires Aligned(w.sys.jobs[t], w.ops[t]) && Executes(w.sys.gates.threads[t], w.ops[t])
    requires Enabled(w.sys.gates, t, a) && R.GateAllowed(w.sys, t, a)
    ensures Follows(w.ops, t, a)
  {
    if a.Request? {
      var task := w.sys.jobs[t].task;
      HeldIsCritical(w.sys.gates, t, a.key);
      PlanOfTask(task);
      if R.WorkspaceTask(task) {
        GatesOfTwo(WorkspaceKey(task.workspace), R.GateOf(task));
      } else {
        GatesOfOne(R.GateOf(task));
      }
    }
  }

  // ----- Every step is a step of the gates and plans, or none

  function Projected(w: World): Machine { Machine(w.sys.gates, w.ops) }

  ghost predicate Moves(w: World, v: World)
  {
    Projected(v) == Projected(w) || exists e :: L.Step(Projected(w), e, Projected(v))
  }

  lemma {:induction false} GateMoves(w: World, t: ThreadId, a: Action, v: World)
    requires MachineInv(Projected(w)) && AlignedJobs(w) && Step(w, Of(R.GateEvent(t, a)), v)
    ensures L.Step(Projected(w), GateStep(t, a), Projected(v))
  {
    if t in w.sys.jobs {
      JobFollowsPlan(w, t, a);
    }
  }

  lemma {:induction false} StepMoves(w: World, h: Happening, v: World)
    requires MachineInv(Projected(w)) && AlignedJobs(w) && Step(w, h, v)
    ensures Moves(w, v)
  {
    match h
    case StartOther(t, op) => assert L.Step(Projected(w), Start(t, op), Projected(v));
    case DoneOther(t) => assert L.Step(Projected(w), Done(t), Projected(v));
    case Of(e) =>
      match e
      case GateEvent(t, a) => GateMoves(w, t, a, v);
      case Begin(t, task) => assert L.Step(Projected(w), Start(t, OperationOf(task)), Projected(v));
      case Finish(t) => assert L.Step(Projected(w), Done(t), Projected(v));
      case _ => SameGates(w, e, v);
  }

  lemma {:induction false} SameGates(w: World, e: R.Event, v: World)
    requires Step(w, Of(e), v) && !e.GateEvent? && !e.Begin? && !e.Finish?
    ensures Projected(v) == Projected(w)
  {
  }

  lemma {:induction false} MovesKeepInv(w: World, v: World)
    requires MachineInv(Projected(w)) && Moves(w, v)
    ensures MachineInv(Projected(v))
  {
    if Projected(v) != Projected(w) {
      var e :| L.Step(Projected(w), e, Projected(v));
      MachineStep(Projected(w), e, Projected(v));
    }
  }

  lemma {:induction false} PassedWorkspace(w: World, t: ThreadId)
    requires t in w.sys.jobs && t in w.ops && t in w.sys.gates.threads
    requires Aligned(w.sys.jobs[t], w.ops[t]) && Executes(w.sys.gates.threads[t], w.ops[t])
    requires w.sys.jobs[t].stage.NeedWorkspace? && R.Ready(w.sys, t, WorkspaceKey(w.sys.jobs[t].task.workspace))
    ensures w.ops[t].next >= 1
  {
    var task := w.sys.jobs[t].task;
    HeldIsCritical(w.sys.gates, t, WorkspaceKey(task.workspace));
    PlanOfTask(task);
    GatesOfTwo(WorkspaceKey(task.workspace), R.GateOf(task));
  }

  lemma {:induction false} GateKeepsAligned(w: World, t: ThreadId, a: Action, v: World)
    requires MachineInv(Projected(w)) && AlignedJobs(w) && Step(w, Of(R.GateEvent(t, a)), v)
    ensures AlignedJobs(v)
  {
    GateMoves(w, t, a, v);
    if t in w.sys.jobs && a.Request? {
      PlanOfTask(w.sys.jobs[t].task);
      GateRequestStage(w, t, a);
    }
  }

  /** A request for the workspace gate is a job's first. */
  lemma {:induction false} GateRequestStage(w: World, t: ThreadId, a: Action)
    requires t in w.sys.jobs && t in w.ops && t in w.sys.gates.threads
    requires Aligned(w.sys.jobs[t], w.ops[t]) && Executes(w.sys.gates.threads[t], w.ops[t])
    requires Enabled(w.sys.gates, t, a) && R.GateAllowed(w.sys, t, a) && a.Request?
    ensures w.sys.jobs[t].stage.NeedWorkspace? ==> w.ops[t].next == 0
  {
    var task := w.sys.jobs[t].task;
    if w.sys.jobs[t].stage.NeedWorkspace? {
      HeldIsCritical(w.sys.gates, t, a.key);
      PlanOfTask(task);
      GatesOfTwo(WorkspaceKey(task.workspace), R.GateOf(task));
    }
  }

  /** The events by which a job moves on past its admission, or gives up. */
  predicate MovesOn(e: R.Event)
  {
    e.EnterDevice? || e.Validate? || e.Touch? || e.Issue? || e.Revoke? || e.Rotate? || e.Sweep? || e.Fail?
  }

  lemma {:induction false} StageChange(w: World, e: R.Event, v: World)
    requires Step(w, Of(e), v) && MovesOn(e)
    ensures v.ops == w.ops && e.t in w.sys.jobs && e.t in v.sys.jobs
    ensures v.sys.jobs == w.sys.jobs[e.t := w.sys.jobs[e.t].(stage := v.sys.jobs[e.t].stage)]
    ensures !w.sys.jobs[e.t].stage.Exiting? && !v.sys.jobs[e.t].stage.NeedWorkspace? && !v.sys.jobs[e.t].stage.NeedDevice?
  {
  }

  lemma {:induction false} StageKeepsAligned(w: World, e: R.Event, v: World)
    requires AlignedJobs(w) && Step(w, Of(e), v) && MovesOn(e)
    ensures AlignedJobs(v)
  {
    StageChange(w, e, v);
  }

  lemma {:induction false} OtherKeepsAligned(w: World, e: R.Event, v: World)
    requires AlignedJobs(w) && Step(w, Of(e), v) && (e.Begin? || e.Finish? || e.Login? || e.Forget?)
    ensures AlignedJobs(v)
  {
  }

  lemma {:induction false} PassKeepsAligned(w: World, t: ThreadId, v: World)
    requires MachineInv(Projected(w)) && AlignedJobs(w) && Step(w, Of(R.PassWorkspace(t)), v)
    ensures AlignedJobs(v)
  {
    PassedWorkspace(w, t);
  }

  lemma {:induction false} StepKeepsAligned(w: World, h: Happening, v: World)
    requires MachineInv(Projected(w)) && AlignedJobs(w) && Step(w, h, v)
    ensures AlignedJobs(v)
  {
    if h.Of? {
      if h.e.GateEvent? {
        GateKeepsAligned(w, h.e.t, h.e.a, v);
      } else if h.e.PassWorkspace? {
        PassKeepsAligned(w, h.e.t, v);
      } else if MovesOn(h.e) {
        StageKeepsAligned(w, h.e, v);
      } else {
        OtherKeepsAligned(w, h.e, v);
      }
    }
  }

  lemma {:induction false} StepKeepsWorld(w: World, h: Happening, v: World)
    requires WorldInv(w) && Step(w, h, v)
    ensures WorldInv(v)
  {
    StepMoves(w, h, v);
    MovesKeepInv(w, v);
    StepKeepsAligned(w, h, v);
    if h.Of? {
      R.SystemStepInv(w.sys, h.e, v.sys);
    }
  }

  ghost predicate IsRun(run: seq<World>, happenings: seq<Happening>)
  {
    && |run| == |happenings| + 1
    && R.InitSystem(run[0].sys) && run[0].ops == map[]
    && forall i :: 0 <= i < |happenings| ==> Step(run[i], happenings[i], run[i + 1])
  }

  lemma {:induction false} InitWorld(w: World)
    requires R.InitSystem(w.sys) && w.ops == map[]
    ensures WorldInv(w)
  {
    R.InitSystemInv(w.sys);
    InitMachine(Projected(w));
  }

  ghost predicate Steps(w: World, v: World)
  {
    exists h :: Step(w, h, v)
  }

  lemma {:induction false} StepsKeepWorld(w: World, v: World)
    requires WorldInv(w) && Steps(w, v)
    ensures WorldInv(v)
  {
    var h :| Step(w, h, v);
    StepKeepsWorld(w, h, v);
  }

  /** Every state of a list of states, each a step after the one before it. */
  lemma {:induction false} ChainKeepsWorld(run: seq<World>, i: nat)
    requires i < |run| && WorldInv(run[0]) && forall k :: 0 <= k < |run| - 1 ==> Steps(run[k], run[k + 1])
    ensures WorldInv(run[i])
  {
    if i > 0 {
      ChainKeepsWorld(run, i - 1);
      assert Steps(run[i - 1], run[i - 1 + 1]);
      StepsKeepWorld(run[i - 1], run[i]);
    }
  }

  lemma {:induction false} RunIsChain(run: seq<World>, happenings: seq<Happening>)
    requires IsRun(run, happenings)
    ensures forall k :: 0 <= k < |run| - 1 ==> Steps(run[k], run[k + 1])
  {
    forall k | 0 <= k < |run| - 1 ensures Steps(run[k], run[k + 1]) {
      assert Step(run[k], happenings[k], run[k + 1]);
    }
  }

  lemma {:induction false} RunKeepsWorld(run: seq<World>, happenings: seq<Happening>, i: nat)
    requires IsRun(run, happenings) && i < |run|
    ensures WorldInv(run[i])
  {
    InitWorld(run[0]);
    RunIsChain(run, happenings);
    ChainKeepsWorld(run, i);
  }

  // ----- Somebody can always go on

  /** A step of a job or operation that has begun, other than a request for another gate. */
  predicate Progresses(h: Happening)
  {
    match h
    case DoneOther(_) => true
    case StartOther(_, _) => false
    case Of(e) => !e.Begin? && !e.Login? && !e.Forget? && !(e.GateEvent? && e.a.Request?)
  }

  ghost predicate CanProgress(w: World)
  {
    exists h, v :: Step(w, h, v) && Progresses(h)
  }

  lemma {:induction false} Witness(w: World, h: Happening, v: World)
    requires Step(w, h, v) && Progresses(h)
    ensures CanProgress(w)
  {
  }

  /** A job that is not inside an acquisition or a release has a step of its own, unless it is leaving. */
  lemma {:induction false} RunningJobCanStep(w: World, t: ThreadId)
    requires t in w.sys.jobs && t in w.sys.gates.threads && w.sys.gates.threads[t].pc.Running? && !w.sys.jobs[t].stage.Exiting?
    ensures CanProgress(w)
  {
    var stage := w.sys.jobs[t].stage;
    if stage.SweepTickets? || stage.SweepPreviews? {
      var (owner, device) := R.Device(w.sys.jobs[t].task);
      var kind := if stage.SweepTickets? then R.TerminalTicket else R.PreviewGrant;
      var next := if stage.SweepTickets? then R.SweepPreviews else R.Exiting;
      var y := R.AtStage(w.sys, t, next).(stores := w.sys.stores.(grants := R.Swept(w.sys.stores.grants, kind, owner, device)));
      Witness(w, Of(R.Sweep(t)), World(y, w.ops));
    } else {
      Witness(w, Of(R.Fail(t)), World(R.AtStage(w.sys, t, R.Exiting), w.ops));
    }
  }

  lemma {:induction false} GateCanStep(w: World, t: ThreadId, a: Action)
    requires AlignedJobs(w) && t in w.sys.gates.threads && t in w.ops
    requires Enabled(w.sys.gates, t, a) && !a.Request?
    requires t in w.sys.jobs && a.Release? ==> w.sys.jobs[t].stage.Exiting?
    ensures CanProgress(w)
  {
    Witness(w, Of(R.GateEvent(t, a)), World(w.sys.(gates := Apply(w.sys.gates, t, a)), Advanced(w.ops, t, a)));
  }

  lemma {:induction false} RestingCanStep(w: World, t: ThreadId)
    requires t in w.ops && t in w.sys.gates.threads && AtRest(w.sys.gates.threads[t])
    ensures CanProgress(w)
  {
    if t !in w.sys.jobs {
      Witness(w, DoneOther(t), w.(ops := w.ops - {t}));
    } else if w.sys.jobs[t].stage.Exiting? {
      Witness(w, Of(R.Finish(t)), World(w.sys.(jobs := w.sys.jobs - {t}), w.ops - {t}));
    } else {
      RunningJobCanStep(w, t);
    }
  }

  lemma {:induction false} UnfinishedCanStep(w: World)
    requires WorldInv(w) && w.ops != map[]
    ensures CanProgress(w)
  {
    var s := w.sys.gates;
    if t :| t in s.threads && !AtRest(s.threads[t]) {
      NoStuckState(s);
      var u, a :| u in s.threads && !AtRest(s.threads[u]) && Enabled(s, u, a) && !a.Request?;
      assert PlanInv(Projected(w));
      if u in w.sys.jobs && a.Release? && !w.sys.jobs[u].stage.Exiting? {
        RunningJobCanStep(w, u);
      } else {
        GateCanStep(w, u, a);
      }
    } else {
      var t :| t in w.ops;
      assert PlanInv(Projected(w));
      RestingCanStep(w, t);
    }
  }

  /**
    In every reachable state of any number of issuing and revoking jobs and other
    operations, as long as one is unfinished, some begun job or operation can go on.
   */
  lemma {:induction false} JobsNeverDeadlock(run: seq<World>, happenings: seq<Happening>, i: nat)
    requires IsRun(run, happenings) && i < |run| && run[i].ops != map[]
    ensures CanProgress(run[i])
  {
    RunKeepsWorld(run, happenings, i);
    UnfinishedCanStep(run[i]);
  }

  // ----- Every job ends

  /** How far a job is from its end. */
  function StagesLeft(stage: R.Stage): nat
  {
    match stage
    case NeedWorkspace => 7
    case NeedDevice => 6
    case Admitted => 5
    case Validated => 4
    case Touched => 3
    case SweepTickets => 2
    case SweepPreviews => 1
    case Exiting => 0
  }

  /** The work of a thread's operation and the stages of its job. */
  function Load(w: World): ThreadId -> int
  {
    (t: ThreadId) => ThreadWork(Projected(w))(t) + if t in w.sys.jobs then StagesLeft(w.sys.jobs[t].stage) else 0
  }

  /** A step of something that has begun; new jobs and operations, logins and expiring credentials are left aside. */
  predicate GoesOn(h: Happening)
  {
    match h
    case Of(e) => !e.Begin? && !e.Login? && !e.Forget?
    case StartOther(_, _) => false
    case DoneOther(_) => true
  }

  function ThreadOf(h: Happening): ThreadId
    requires GoesOn(h)
  {
    match h
    case Of(e) => e.t
    case DoneOther(t) => t
  }

  lemma {:induction false} WorkLoad(w: World, e: Event, v: World)
    requires MachineInv(Projected(w)) && L.Step(Projected(w), e, Projected(v)) && !e.Start?
    requires forall t :: t in v.sys.jobs ==> t in w.sys.jobs && v.sys.jobs[t] == w.sys.jobs[t]
    requires forall t :: t in w.sys.jobs && t != e.t ==> t in v.sys.jobs
    ensures v.ops.Keys <= w.ops.Keys && e.t in w.ops
    ensures Load(v)(e.t) < Load(w)(e.t) && forall u :: u != e.t ==> Load(v)(u) == Load(w)(u)
  {
    WorkStep(Projected(w), e, Projected(v));
  }

  lemma {:induction false} StageLoad(w: World, e: R.Event, v: World)
    requires AlignedJobs(w) && Step(w, Of(e), v) && (MovesOn(e) || e.PassWorkspace?)
    ensures v.ops == w.ops && e.t in w.ops
    ensures Load(v)(e.t) < Load(w)(e.t) && forall u :: u != e.t ==> Load(v)(u) == Load(w)(u)
  {
    SameGates(w, e, v);
    StageLess(w, e, v);
  }

  lemma {:induction false} StageLess(w: World, e: R.Event, v: World)
    requires Step(w, Of(e), v) && (MovesOn(e) || e.PassWorkspace?)
    ensures e.t in w.sys.jobs && e.t in v.sys.jobs
    ensures v.sys.jobs == w.sys.jobs[e.t := v.sys.jobs[e.t]]
    ensures StagesLeft(v.sys.jobs[e.t].stage) < StagesLeft(w.sys.jobs[e.t].stage)
  {
  }

  lemma {:induction false} LoadStep(w: World, h: Happening, v: World)
    requires WorldInv(w) && Step(w, h, v) && GoesOn(h)
    ensures v.ops.Keys <= w.ops.Keys && ThreadOf(h) in w.ops
    ensures Load(v)(ThreadOf(h)) < Load(w)(ThreadOf(h)) && forall u :: u != ThreadOf(h) ==> Load(v)(u) == Load(w)(u)
  {
    if h.DoneOther? {
      WorkLoad(w, Done(h.t), v);
    } else if h.e.GateEvent? {
      GateMoves(w, h.e.t, h.e.a, v);
      WorkLoad(w, GateStep(h.e.t, h.e.a), v);
    } else if h.e.Finish? {
      WorkLoad(w, Done(h.e.t), v);
    } else {
      StageLoad(w, h.e, v);
    }
  }

  ghost predicate StepsOn(w: World, v: World)
  {
    exists h :: Step(w, h, v) && GoesOn(h)
  }

  lemma {:induction false} OneStepLess(w: World, v: World, ts: seq<ThreadId>)
    requires WorldInv(w) && StepsOn(w, v) && Lists(ts, w.ops.Keys)
    ensures WorldInv(v) && v.ops.Keys <= w.ops.Keys && Sum(Load(v), ts) < Sum(Load(w), ts)
  {
    var h :| Step(w, h, v) && GoesOn(h);
    StepKeepsWorld(w, h, v);
    LoadStep(w, h, v);
    SumLess(Load(w), Load(v), ts, ThreadOf(h));
  }

  lemma {:induction false} LoadIsNatural(w: World, ts: seq<ThreadId>)
    requires MachineInv(Projected(w))
    ensures 0 <= Sum(Load(w), ts)
  {
    forall t ensures 0 <= Load(w)(t) { WorkIsNatural(Projected(w), t); }
    SumNatural(Load(w), ts);
  }

  lemma {:induction false} ChainRunsOut(run: seq<World>, ts: seq<ThreadId>, i: nat)
    requires i < |run| && WorldInv(run[0]) && Lists(ts, run[0].ops.Keys)
    requires forall k :: 0 <= k < |run| - 1 ==> StepsOn(run[k], run[k + 1])
    ensures WorldInv(run[i]) && run[i].ops.Keys <= run[0].ops.Keys
    ensures i + Sum(Load(run[i]), ts) <= Sum(Load(run[0]), ts)
  {
    if i > 0 {
      ChainRunsOut(run, ts, i - 1);
      assert StepsOn(run[i - 1], run[i - 1 + 1]);
      OneStepLess(run[i - 1], run[i], ts);
    }
  }

  ghost predicate Goes(w: World, run: seq<World>, happenings: seq<Happening>)
  {
    && |run| == |happenings| + 1 && run[0] == w
    && forall i :: 0 <= i < |happenings| ==> Step(run[i], happenings[i], run[i + 1]) && GoesOn(happenings[i])
  }

  lemma {:induction false} LoadRunsOut(w: World, run: seq<World>, happenings: seq<Happening>, ts: seq<ThreadId>)
    requires WorldInv(w) && Goes(w, run, happenings) && Lists(ts, w.ops.Keys)
    ensures WorldInv(run[|happenings|]) && |happenings| <= Sum(Load(w), ts)
  {
    forall k | 0 <= k < |run| - 1 ensures StepsOn(run[k], run[k + 1]) {
      assert Step(run[k], happenings[k], run[k + 1]) && GoesOn(happenings[k]);
    }
    ChainRunsOut(run, ts, |happenings|);
    LoadIsNatural(run[|happenings|], ts);
  }

  /** Nothing that has begun can make a step. */
  ghost predicate Halted(w: World)
  {
    forall h, v :: Step(w, h, v) ==> !GoesOn(h)
  }

  lemma {:induction false} HaltedIsDone(w: World)
    requires WorldInv(w) && Halted(w)
    ensures w.ops == map[] && w.sys.jobs == map[]
  {
    if w.ops != map[] {
      UnfinishedCanStep(w);
    }
    assert forall t :: t in w.sys.jobs ==> t in w.ops;
  }

  /**
    From every reachable state there is a bound on how many steps the begun jobs and
    operations can make, in whatever order, and when they can make none, all of them
    have ended and hold no gate.
   */
  lemma {:induction false} JobsEnd(run: seq<World>, happenings: seq<Happening>, i: nat) returns (bound: nat)
    requires IsRun(run, happenings) && i < |run|
    ensures forall more: seq<World>, steps: seq<Happening> :: Goes(run[i], more, steps) ==> |steps| <= bound
    ensures forall more: seq<World>, steps: seq<Happening> :: Goes(run[i], more, steps) && Halted(more[|steps|]) ==>
              more[|steps|].ops == map[] && more[|steps|].sys.jobs == map[]
  {
    RunKeepsWorld(run, happenings, i);
    var w := run[i];
    var ts := ListOf(w.ops.Keys);
    LoadIsNatural(w, ts);
    bound := Sum(Load(w), ts);
    forall more: seq<World>, steps: seq<Happening> | Goes(w, more, steps)
      ensures |steps| <= bound && (Halted(more[|steps|]) ==> more[|steps|].ops == map[] && more[|steps|].sys.jobs == map[])
    {
      LoadRunsOut(w, more, steps, ts);
      if Halted(more[|steps|]) {
        HaltedIsDone(more[|steps|]);
      }
    }
  }
}
