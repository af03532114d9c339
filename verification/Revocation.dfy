/**
  Linearized revocation of device-bound authority.

  Preview grants, terminal tickets and push registrations are minted, and session
  families and devices are revoked, by jobs that run concurrently over the real gate
  index of MutationGates: a job's gate operations are the steps of that machine, and
  the scheduler may switch between any two store calls.

  The session and token stores are used through their contracts: a call that fails
  changes nothing, validation fails for a revoked family or device, rotating a used
  refresh credential revokes its family, and a device sweep removes every credential
  of that owner and device.
 */
module Revocation {
  import opened Common
  import opened MutationGates
  import opened LockOrder

  datatype Principal = Principal(owner: string, device: string, family: string)

  datatype Kind = TerminalTicket | PreviewGrant

  /** A live credential.  Its family is the one whose principal it was minted for. */
  datatype Grant = Grant(id: nat, kind: Kind, owner: string, device: string, family: string)

  datatype Family = Family(owner: string, device: string, revoked: bool)

  datatype Refresh = Refresh(family: string, used: bool)

  datatype Stores = Stores(
    families: map<string, Family>,
    revokedDevices: set<(string, string)>,
    refresh: map<string, Refresh>,
    grants: set<Grant>,
    push: set<(string, string)>)

  datatype Task =
    | IssuePreview(p: Principal, workspace: string)
    | IssueTicket(p: Principal, workspace: string)
    | RegisterPush(p: Principal)
    | RefreshSession(p: Principal, token: string)
    | RevokeSession(p: Principal)
    | RevokeDevice(owner: string, device: string)

  /** How far a job has come; it owns its device gate from Admitted until it exits. */
  datatype Stage = NeedWorkspace | NeedDevice | Admitted | Validated | Touched | SweepTickets | SweepPreviews | Exiting

  datatype Job = Job(task: Task, stage: Stage)

  datatype System = System(gates: State, jobs: map<ThreadId, Job>, stores: Stores)

  function Device(task: Task): (string, string)
  {
    if task.RevokeDevice? then (task.owner, task.device) else (task.p.owner, task.p.device)
  }

  function GateOf(task: Task): Key
  {
    DeviceKey(Device(task).0, Device(task).1)
  }

  predicate Owning(stage: Stage)
  {
    stage.Admitted? || stage.Validated? || stage.Touched? || stage.SweepTickets? || stage.SweepPreviews?
  }

  // ----- Store contracts

  predicate Active(stores: Stores, p: Principal)
  {
    && p.family in stores.families
    && stores.families[p.family] == Family(p.owner, p.device, false)
    && (p.owner, p.device) !in stores.revokedDevices
  }

  /** The principal is what authentication reads from a stored credential. */
  predicate Authentic(stores: Stores, p: Principal)
  {
    && p.family in stores.families
    && stores.families[p.family].owner == p.owner
    && stores.families[p.family].device == p.device
  }

  function WithRevokedFamily(stores: Stores, family: string): Stores
    requires family in stores.families
  {
    stores.(families := stores.families[family := stores.families[family].(revoked := true)])
  }

  function WithRevokedDevice(stores: Stores, owner: string, device: string): Stores
  {
    stores.(
      families := map f | f in stores.families ::
        (if stores.families[f].owner == owner && stores.families[f].device == device
         then stores.families[f].(revoked := true) else stores.families[f]),
      revokedDevices := stores.revokedDevices + {(owner, device)},
      push := stores.push - {(owner, device)})
  }

  /** The sweep of one token manager; an empty identity is refused and removes nothing. */
  function Swept(grants: set<Grant>, kind: Kind, owner: string, device: string): set<Grant>
  {
    if owner == "" || device == "" then grants
    else set gr | gr in grants && !(gr.kind == kind && gr.owner == owner && gr.device == device)
  }

  // ----- Steps

  datatype Event =
    | GateEvent(t: ThreadId, a: Action)
    | Begin(t: ThreadId, task: Task)
    | EnterDevice(t: ThreadId)
    | PassWorkspace(t: ThreadId)
    | Validate(t: ThreadId)
    | Touch(t: ThreadId)
    | Issue(t: ThreadId, id: nat)
    | Revoke(t: ThreadId)
    | Rotate(t: ThreadId, next: string)
    | Sweep(t: ThreadId)
    | Fail(t: ThreadId)
    | Finish(t: ThreadId)
    | Login(family: string, owner: string, device: string, token: string)
    | Forget(grant: Grant)

  /** A job's gate operations follow its program, each gate once; other threads may use any gates. */
  ghost predicate GateAllowed(x: System, t: ThreadId, a: Action)
  {
    t in x.jobs ==>
      && (a.Request? ==>
            && !InCritical(x.gates, t, a.key)
            && (|| (x.jobs[t].stage.NeedWorkspace? && WorkspaceTask(x.jobs[t].task) && a.key == WorkspaceKey(x.jobs[t].task.workspace))
                || (x.jobs[t].stage.NeedDevice? && a.key == GateOf(x.jobs[t].task))))
      && (a.Release? ==> x.jobs[t].stage.Exiting?)
  }

  predicate WorkspaceTask(task: Task) { task.IssuePreview? || task.IssueTicket? }

  /** The thread is running and owns the gate of this key. */
  ghost predicate Ready(x: System, t: ThreadId, k: Key)
  {
    InCritical(x.gates, t, k) && x.gates.threads[t].pc.Running?
  }

  ghost predicate Fallible(stage: Stage)
  {
    stage.NeedWorkspace? || stage.NeedDevice? || stage.Admitted? || stage.Validated? || stage.Touched?
  }

  function AtStage(x: System, t: ThreadId, stage: Stage): System
    requires t in x.jobs
  {
    x.(jobs := x.jobs[t := x.jobs[t].(stage := stage)])
  }

  ghost predicate Step(x: System, e: Event, y: System)
  {
    match e
    case GateEvent(t, a) =>
      Enabled(x.gates, t, a) && GateAllowed(x, t, a) && y == x.(gates := Apply(x.gates, t, a))
    case Begin(t, task) =>
      && t in x.gates.threads && t !in x.jobs && AtRest(x.gates.threads[t])
      && (task.RefreshSession? ==> task.token in x.stores.refresh && x.stores.refresh[task.token].family == task.p.family)
      && (task.RefreshSession? || task.RevokeSession? ==> Authentic(x.stores, task.p))
      && y == x.(jobs := x.jobs[t := Job(task, if WorkspaceTask(task) then NeedWorkspace else NeedDevice)])
    case PassWorkspace(t) =>
      && t in x.jobs && x.jobs[t].stage.NeedWorkspace? && WorkspaceTask(x.jobs[t].task)
      && Ready(x, t, WorkspaceKey(x.jobs[t].task.workspace))
      && y == AtStage(x, t, NeedDevice)
    case EnterDevice(t) =>
      && t in x.jobs && x.jobs[t].stage.NeedDevice? && Ready(x, t, GateOf(x.jobs[t].task))
      && y == AtStage(x, t, Admitted)
    case Validate(t) =>
      && t in x.jobs && x.jobs[t].stage.Admitted?
      && (WorkspaceTask(x.jobs[t].task) || x.jobs[t].task.RegisterPush?)
      && Active(x.stores, x.jobs[t].task.p)
      && y == AtStage(x, t, Validated)
    case Touch(t) =>
      && t in x.jobs && x.jobs[t].stage.Validated?
      && y == AtStage(x, t, Touched)
    case Issue(t, id) =>
      && t in x.jobs && x.jobs[t].stage.Touched?
      && (WorkspaceTask(x.jobs[t].task) || x.jobs[t].task.RegisterPush?)
      && x.jobs[t].task.p.owner != "" && x.jobs[t].task.p.device != ""
      && y == AtStage(x, t, Exiting).(stores := Issued(x.stores, x.jobs[t].task, id))
    case Revoke(t) =>
      && t in x.jobs && x.jobs[t].stage.Admitted?
      && (match x.jobs[t].task
         case RevokeSession(p) =>
           p.family in x.stores.families && y == AtStage(x, t, SweepTickets).(stores := WithRevokedFamily(x.stores, p.family))
         case RevokeDevice(owner, device) =>
           y == AtStage(x, t, SweepTickets).(stores := WithRevokedDevice(x.stores, owner, device))
         case _ => false)
    case Rotate(t, next) =>
      && t in x.jobs && x.jobs[t].stage.Admitted? && x.jobs[t].task.RefreshSession?
      && var p, token := x.jobs[t].task.p, x.jobs[t].task.token;
         && token in x.stores.refresh && p.family in x.stores.families
         && !x.stores.families[p.family].revoked
         && (if x.stores.refresh[token].used
             then y == AtStage(x, t, SweepTickets).(stores := WithRevokedFamily(x.stores, p.family))
             else next !in x.stores.refresh && y == AtStage(x, t, Exiting).(stores := x.stores.(
                    refresh := x.stores.refresh[token := Refresh(p.family, true)][next := Refresh(p.family, false)])))
    case Sweep(t) =>
      && t in x.jobs
      && var (owner, device) := Device(x.jobs[t].task);
         || (x.jobs[t].stage.SweepTickets? &&
             y == AtStage(x, t, SweepPreviews).(stores := x.stores.(grants := Swept(x.stores.grants, TerminalTicket, owner, device))))
         || (x.jobs[t].stage.SweepPreviews? &&
             y == AtStage(x, t, Exiting).(stores := x.stores.(grants := Swept(x.stores.grants, PreviewGrant, owner, device))))
    case Fail(t) =>
      && t in x.jobs && Fallible(x.jobs[t].stage) && t in x.gates.threads && x.gates.threads[t].pc.Running?
      && y == AtStage(x, t, Exiting)
    case Finish(t) =>
      && t in x.jobs && x.jobs[t].stage.Exiting? && t in x.gates.threads && AtRest(x.gates.threads[t])
      && y == x.(jobs := x.jobs - {t})
    case Login(family, owner, device, token) =>
      && family !in x.stores.families && token !in x.stores.refresh
      && (owner, device) !in x.stores.revokedDevices
      && y == x.(stores := x.stores.(
           families := x.stores.families[family := Family(owner, device, false)],
           refresh := x.stores.refresh[token := Refresh(family, false)]))
    case Forget(grant) =>
      y == x.(stores := x.stores.(grants := x.stores.grants - {grant}))
  }

  function Issued(stores: Stores, task: Task, id: nat): Stores
    requires WorkspaceTask(task) || task.RegisterPush?
  {
    match task
    case IssuePreview(p, _) => stores.(grants := stores.grants + {Grant(id, PreviewGrant, p.owner, p.device, p.family)})
    case IssueTicket(p, _) => stores.(grants := stores.grants + {Grant(id, TerminalTicket, p.owner, p.device, p.family)})
    case RegisterPush(p) => stores.(push := stores.push + {(p.owner, p.device)})
  }

  ghost predicate InitSystem(x: System)
  {
    && Init(x.gates) && x.jobs == map[] && x.stores.grants == {} && x.stores.push == {}
    && (forall k :: k in x.stores.refresh ==> x.stores.refresh[k].family in x.stores.families)
    && (forall f :: f in x.stores.families && (x.stores.families[f].owner, x.stores.families[f].device) in x.stores.revokedDevices
          ==> x.stores.families[f].revoked)
  }

  // ----- Invariant

  ghost predicate JobInv(x: System, t: ThreadId)
    requires t in x.jobs
  {
    var job := x.jobs[t];
    && t in x.gates.threads
    && (Owning(job.stage) ==> Ready(x, t, GateOf(job.task)))
    && (job.task.RefreshSession? || job.task.RevokeSession? ==> Authentic(x.stores, job.task.p))
    && (job.task.RefreshSession? ==> job.task.token in x.stores.refresh)
    && (job.stage.Validated? || job.stage.Touched? ==>
          (WorkspaceTask(job.task) || job.task.RegisterPush?) && Active(x.stores, job.task.p))
  }

  ghost predicate JobsInv(x: System)
  {
    forall t :: t in x.jobs ==> JobInv(x, t)
  }

  /** The job has revoked this device's authority and has not yet swept credentials of this kind. */
  predicate WillSweep(job: Job, kind: Kind, owner: string, device: string)
  {
    Device(job.task) == (owner, device) && (job.stage.SweepTickets? || (job.stage.SweepPreviews? && kind.PreviewGrant?))
  }

  ghost predicate SweepPending(jobs: map<ThreadId, Job>, gr: Grant)
  {
    exists t :: t in jobs && WillSweep(jobs[t], gr.kind, gr.owner, gr.device)
  }

  ghost predicate GrantInv(x: System, gr: Grant)
  {
    && gr.owner != "" && gr.device != ""
    && Authentic(x.stores, Principal(gr.owner, gr.device, gr.family))
    && (x.stores.families[gr.family].revoked ==> SweepPending(x.jobs, gr))
  }

  ghost predicate GrantsInv(x: System)
  {
    forall gr :: gr in x.stores.grants ==> GrantInv(x, gr)
  }

  ghost predicate StoreInv(stores: Stores)
  {
    && (forall f :: f in stores.families && (stores.families[f].owner, stores.families[f].device) in stores.revokedDevices
          ==> stores.families[f].revoked)
    && (forall d :: d in stores.push ==> d !in stores.revokedDevices)
  }

  ghost predicate SystemInv(x: System)
  {
    Inv(x.gates) && JobsInv(x) && GrantsInv(x) && StoreInv(x.stores)
  }

  lemma {:induction false} InitSystemInv(x: System)
    requires InitSystem(x)
    ensures SystemInv(x)
  {
    InitInv(x.gates);
  }

  // ----- Gate steps

  /** A gate step of another thread, or of a job that is not in its owning stages, leaves an owner ready. */
  lemma {:induction false} ReadyStable(x: System, t: ThreadId, a: Action, u: ThreadId, k: Key)
    requires Enabled(x.gates, t, a) && Ready(x, u, k)
    requires u == t ==> !a.Request? && !a.Release?
    ensures Ready(x.(gates := Apply(x.gates, t, a)), u, k)
  {
    var s' := Apply(x.gates, t, a);
    assert u != t ==> s'.threads[u] == x.gates.threads[u];
    var g :| g in x.gates.threads[u].held && x.gates.threads[u].held[g] == k;
    assert u != t;
    assert g in s'.threads[u].held && s'.threads[u].held[g] == k;
  }

  lemma {:induction false} GateStepInv(x: System, t: ThreadId, a: Action, y: System)
    requires SystemInv(x) && Step(x, GateEvent(t, a), y)
    ensures SystemInv(y)
  {
    StepInv(x.gates, t, a);
    forall u | u in y.jobs ensures JobInv(y, u) {
      assert JobInv(x, u);
      if Owning(x.jobs[u].stage) {
        ReadyStable(x, t, a, u, GateOf(x.jobs[u].task));
      }
    }
    forall gr | gr in y.stores.grants ensures GrantInv(y, gr) {
      assert GrantInv(x, gr);
    }
  }

  // ----- Job steps

  /** Two jobs that own the gate of one device are the same job. */
  lemma {:induction false} SoleOwner(x: System, t: ThreadId, u: ThreadId)
    requires Inv(x.gates) && JobsInv(x) && t in x.jobs && u in x.jobs
    requires Owning(x.jobs[t].stage) && Owning(x.jobs[u].stage) && Device(x.jobs[t].task) == Device(x.jobs[u].task)
    ensures t == u
  {
    assert JobInv(x, t) && JobInv(x, u);
    var k := GateOf(x.jobs[t].task);
    var g :| g in x.gates.threads[t].held && x.gates.threads[t].held[g] == k;
    var h :| h in x.gates.threads[u].held && x.gates.threads[u].held[h] == k;
    SameKeySameGate(x.gates, t, g, u, h);
  }

  /** A pending sweep stays pending when a job that is not sweeping moves on. */
  lemma {:induction false} SweepKept(jobs: map<ThreadId, Job>, jobs': map<ThreadId, Job>, gr: Grant, t: ThreadId)
    requires SweepPending(jobs, gr)
    requires forall u :: u in jobs && u != t ==> u in jobs' && jobs'[u] == jobs[u]
    requires t in jobs ==> !jobs[t].stage.SweepTickets? && !jobs[t].stage.SweepPreviews?
    ensures SweepPending(jobs', gr)
  {
    var u :| u in jobs && WillSweep(jobs[u], gr.kind, gr.owner, gr.device);
    assert u in jobs' && WillSweep(jobs'[u], gr.kind, gr.owner, gr.device);
  }

  /** Credentials stay accounted for when a job that is not sweeping moves on. */
  lemma {:induction false} GrantsKept(x: System, y: System, t: ThreadId)
    requires GrantsInv(x) && y.stores.grants <= x.stores.grants && y.stores.families == x.stores.families
    requires forall u :: u in x.jobs && u != t ==> u in y.jobs && y.jobs[u] == x.jobs[u]
    requires t in x.jobs ==> !x.jobs[t].stage.SweepTickets? && !x.jobs[t].stage.SweepPreviews?
    ensures GrantsInv(y)
  {
    forall gr | gr in y.stores.grants ensures GrantInv(y, gr) {
      assert GrantInv(x, gr);
      if SweepPending(x.jobs, gr) {
        SweepKept(x.jobs, y.jobs, gr, t);
      }
    }
  }

  /** What the other jobs rely on: gates, and the liveness of the families and devices they validated. */
  lemma {:induction false} OtherJobKept(x: System, y: System, u: ThreadId)
    requires u in x.jobs && u in y.jobs && JobInv(x, u) && y.jobs[u] == x.jobs[u] && y.gates == x.gates
    requires forall f :: f in x.stores.families ==>
      f in y.stores.families && y.stores.families[f].owner == x.stores.families[f].owner && y.stores.families[f].device == x.stores.families[f].device
    requires x.stores.refresh.Keys <= y.stores.refresh.Keys
    requires x.jobs[u].stage.Validated? || x.jobs[u].stage.Touched? ==> Active(y.stores, x.jobs[u].task.p)
    ensures JobInv(y, u)
  {
  }

  lemma {:induction false} ProgressStepInv(x: System, t: ThreadId, e: Event, y: System)
    requires SystemInv(x) && Step(x, e, y)
    requires e == EnterDevice(t) || e == PassWorkspace(t) || e == Validate(t) || e == Touch(t) || e == Fail(t)
    ensures SystemInv(y)
  {
    assert JobInv(x, t);
    assert y.gates == x.gates && y.stores == x.stores;
    GrantsKept(x, y, t);
    assert JobInv(y, t);
    forall u | u in y.jobs && u != t ensures JobInv(y, u) {
      assert JobInv(x, u);
      OtherJobKept(x, y, u);
    }
  }

  lemma {:induction false} LifeStepInv(x: System, t: ThreadId, e: Event, y: System)
    requires SystemInv(x) && Step(x, e, y)
    requires e == Finish(t) || (e.Begin? && e.t == t)
    ensures SystemInv(y)
  {
    GrantsKept(x, y, t);
    forall u | u in y.jobs ensures JobInv(y, u) {
      if u in x.jobs {
        assert JobInv(x, u);
      }
    }
  }

  lemma {:induction false} IssueStepInv(x: System, t: ThreadId, id: nat, y: System)
    requires SystemInv(x) && Step(x, Issue(t, id), y)
    ensures SystemInv(y)
  {
    assert JobInv(x, t);
    GrantsKept(x, y.(stores := x.stores), t);
    forall u | u in y.jobs && u != t ensures JobInv(y, u) {
      assert JobInv(x, u);
      OtherJobKept(x, y, u);
    }
    forall gr | gr in y.stores.grants ensures GrantInv(y, gr) {
      if gr in x.stores.grants {
        assert GrantInv(y.(stores := x.stores), gr);
      }
    }
  }

  // ----- Revocation

  lemma {:induction false} ValidatedIsActive(x: System, u: ThreadId)
    requires u in x.jobs && JobInv(x, u) && (x.jobs[u].stage.Validated? || x.jobs[u].stage.Touched?)
    ensures !x.jobs[u].task.RevokeDevice? && Active(x.stores, x.jobs[u].task.p)
  {
  }

  /** A job that has validated its principal owns that principal's gate, so nobody else can be revoking it. */
  lemma {:induction false} RevocationSparesValidated(x: System, t: ThreadId, u: ThreadId)
    requires Inv(x.gates) && JobsInv(x) && t in x.jobs && u in x.jobs
    requires x.jobs[t].stage == Admitted && (x.jobs[u].stage == Validated || x.jobs[u].stage == Touched)
    ensures Device(x.jobs[u].task) != Device(x.jobs[t].task)
  {
    if Device(x.jobs[u].task) == Device(x.jobs[t].task) {
      SoleOwner(x, t, u);
    }
  }

  /** Some families of one device are revoked while its gate is held, with the sweep still to come. */
  ghost predicate Revoking(x: System, t: ThreadId, y: System)
  {
    && t in x.jobs && x.jobs[t].stage == Admitted
    && y.gates == x.gates && y.jobs == x.jobs[t := x.jobs[t].(stage := SweepTickets)]
    && y.stores.refresh == x.stores.refresh && y.stores.grants == x.stores.grants
    && y.stores.families.Keys == x.stores.families.Keys
    && (forall f :: f in x.stores.families ==> SameFamily(x.stores.families[f], y.stores.families[f], Device(x.jobs[t].task)))
    && y.stores.revokedDevices <= x.stores.revokedDevices + {Device(x.jobs[t].task)}
  }

  lemma {:induction false} RevokeOtherJob(x: System, t: ThreadId, y: System, u: ThreadId)
    requires Inv(x.gates) && JobsInv(x) && Revoking(x, t, y) && u in x.jobs && u != t
    ensures JobInv(y, u)
  {
    assert JobInv(x, u);
    if x.jobs[u].stage == Validated || x.jobs[u].stage == Touched {
      RevocationSparesValidated(x, t, u);
      ValidatedIsActive(x, u);
      var f := x.jobs[u].task.p.family;
      assert SameFamily(x.stores.families[f], y.stores.families[f], Device(x.jobs[t].task));
    }
    OtherJobKept(x, y, u);
  }

  lemma {:induction false} RevokeGrant(x: System, t: ThreadId, y: System, gr: Grant)
    requires Revoking(x, t, y) && GrantInv(x, gr)
    ensures GrantInv(y, gr)
  {
    assert SameFamily(x.stores.families[gr.family], y.stores.families[gr.family], Device(x.jobs[t].task));
    if x.stores.families[gr.family].revoked {
      SweepKept(x.jobs, y.jobs, gr, t);
    } else if y.stores.families[gr.family].revoked {
      assert WillSweep(y.jobs[t], gr.kind, gr.owner, gr.device);
    }
  }

  lemma {:induction false} RevokeStores(x: System, t: ThreadId, y: System)
    requires SystemInv(x) && Revoking(x, t, y)
    ensures JobsInv(y) && GrantsInv(y)
  {
    forall u | u in y.jobs ensures JobInv(y, u) {
      assert JobInv(x, u);
      if u != t {
        RevokeOtherJob(x, t, y, u);
      }
    }
    forall gr | gr in y.stores.grants ensures GrantInv(y, gr) {
      assert GrantInv(x, gr);
      RevokeGrant(x, t, y, gr);
    }
  }

  /** A revocation changes a family only by revoking it, and only if it is of this device. */
  predicate SameFamily(before: Family, after: Family, device: (string, string))
  {
    after == before || ((before.owner, before.device) == device && after == before.(revoked := true))
  }

  lemma {:induction false} RevokeStepInv(x: System, t: ThreadId, y: System)
    requires SystemInv(x) && Step(x, Revoke(t), y)
    ensures SystemInv(y)
  {
    assert JobInv(x, t);
    RevokeStores(x, t, y);
  }

  lemma {:induction false} RotateStepInv(x: System, t: ThreadId, next: string, y: System)
    requires SystemInv(x) && Step(x, Rotate(t, next), y)
    ensures SystemInv(y)
  {
    assert JobInv(x, t);
    if x.stores.refresh[x.jobs[t].task.token].used {
      RevokeStores(x, t, y);
    } else {
      GrantsKept(x, y, t);
      forall u | u in y.jobs ensures JobInv(y, u) {
        assert JobInv(x, u);
        if u != t {
          OtherJobKept(x, y, u);
        }
      }
    }
  }

  lemma {:induction false} SweepStepInv(x: System, t: ThreadId, y: System)
    requires SystemInv(x) && Step(x, Sweep(t), y)
    ensures SystemInv(y)
  {
    assert JobInv(x, t);
    forall u | u in y.jobs ensures JobInv(y, u) {
      assert JobInv(x, u);
      if u != t {
        OtherJobKept(x, y, u);
      }
    }
    forall gr | gr in y.stores.grants ensures GrantInv(y, gr) {
      SweptGrant(x, t, y, gr);
    }
  }

  /** A revoked credential that survives one sweep is still in front of another. */
  lemma {:induction false} SweptGrant(x: System, t: ThreadId, y: System, gr: Grant)
    requires GrantsInv(x) && Step(x, Sweep(t), y) && gr in y.stores.grants
    ensures GrantInv(y, gr)
  {
    assert gr in x.stores.grants && GrantInv(x, gr);
    if x.stores.families[gr.family].revoked {
      var u :| u in x.jobs && WillSweep(x.jobs[u], gr.kind, gr.owner, gr.device);
      assert u in y.jobs && WillSweep(y.jobs[u], gr.kind, gr.owner, gr.device);
    }
  }

  lemma {:induction false} OutsideStepInv(x: System, e: Event, y: System)
    requires SystemInv(x) && Step(x, e, y) && (e.Login? || e.Forget?)
    ensures SystemInv(y)
  {
    forall u | u in y.jobs ensures JobInv(y, u) {
      assert JobInv(x, u);
      OtherJobKept(x, y, u);
    }
    forall gr | gr in y.stores.grants ensures GrantInv(y, gr) {
      assert GrantInv(x, gr);
    }
  }

  lemma {:induction false} SystemStepInv(x: System, e: Event, y: System)
    requires SystemInv(x) && Step(x, e, y)
    ensures SystemInv(y)
  {
    match e
    case GateEvent(t, a) => GateStepInv(x, t, a, y);
    case Begin(t, _) => LifeStepInv(x, t, e, y);
    case Finish(t) => LifeStepInv(x, t, e, y);
    case Issue(t, id) => IssueStepInv(x, t, id, y);
    case Revoke(t) => RevokeStepInv(x, t, y);
    case Rotate(t, next) => RotateStepInv(x, t, next, y);
    case Sweep(t) => SweepStepInv(x, t, y);
    case Login(_, _, _, _) => OutsideStepInv(x, e, y);
    case Forget(_) => OutsideStepInv(x, e, y);
    case EnterDevice(t) => ProgressStepInv(x, t, e, y);
    case PassWorkspace(t) => ProgressStepInv(x, t, e, y);
    case Validate(t) => ProgressStepInv(x, t, e, y);
    case Touch(t) => ProgressStepInv(x, t, e, y);
    case Fail(t) => ProgressStepInv(x, t, e, y);
  }

  // ----- Safety over whole runs

  /** A run of the system: its states, and the event between each two of them. */
  ghost predicate IsSystemRun(run: seq<System>, events: seq<Event>)
  {
    && |run| == |events| + 1
    && InitSystem(run[0])
    && forall i :: 0 <= i < |events| ==> Step(run[i], events[i], run[i + 1])
  }

  lemma {:induction false} SystemRunInv(run: seq<System>, events: seq<Event>, i: nat)
    requires IsSystemRun(run, events) && i < |run|
    ensures SystemInv(run[i])
  {
    if i == 0 {
      InitSystemInv(run[0]);
    } else {
      SystemRunInv(run, events, i - 1);
      assert Step(run[i - 1], events[i - 1], run[i - 1 + 1]);
      SystemStepInv(run[i - 1], events[i - 1], run[i]);
    }
  }

  /** A revoked credential is in front of a job that owns the gate of its device. */
  lemma {:induction false} RevokedGrantIsGuarded(x: System, gr: Grant)
    requires JobsInv(x) && GrantInv(x, gr) && x.stores.families[gr.family].revoked
    ensures exists t :: InCritical(x.gates, t, DeviceKey(gr.owner, gr.device))
  {
    var t :| t in x.jobs && WillSweep(x.jobs[t], gr.kind, gr.owner, gr.device);
    assert JobInv(x, t);
    assert InCritical(x.gates, t, GateOf(x.jobs[t].task));
  }

  /**
    In every reachable state, whenever a device's gate is free, no live ticket or
    preview grant of that device was minted by a family that has since been revoked,
    by replay, by session revocation or by device revocation; and no enabled push
    registration ever belongs to a revoked device.
   */
  lemma {:induction false} NoAuthorityAfterRevocation(run: seq<System>, events: seq<Event>, i: nat, owner: string, device: string)
    requires IsSystemRun(run, events) && i < |run|
    ensures (forall t :: !InCritical(run[i].gates, t, DeviceKey(owner, device))) ==>
      forall gr :: gr in run[i].stores.grants && gr.owner == owner && gr.device == device ==>
        gr.family in run[i].stores.families && !run[i].stores.families[gr.family].revoked && (owner, device) !in run[i].stores.revokedDevices
    ensures (owner, device) in run[i].stores.push ==> (owner, device) !in run[i].stores.revokedDevices
  {
    SystemRunInv(run, events, i);
    var x := run[i];
    forall gr | gr in x.stores.grants && gr.owner == owner && gr.device == device
      ensures GrantInv(x, gr)
      ensures x.stores.families[gr.family].revoked ==> exists t :: InCritical(x.gates, t, DeviceKey(owner, device))
    {
      assert GrantInv(x, gr);
      if x.stores.families[gr.family].revoked {
        RevokedGrantIsGuarded(x, gr);
      }
    }
  }
}
