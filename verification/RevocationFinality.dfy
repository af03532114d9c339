/**
  What a revocation achieves: it takes hold, it is final, jobs that end without failing have done it, sweeps remove
  every credential of their own device and no other, and whoever is not revoked can go on.
 */
module RevocationFinality {
  import opened Common
  import opened MutationGates
  import opened Revocation

  // ----- Revocation takes hold, for good

  /** The event revokes this family: a session or device revocation, or the replay of a spent refresh token. */
  predicate Condemns(x: System, e: Event, family: string)
  {
    match e
    case Revoke(t) =>
      && t in x.jobs
      && (match x.jobs[t].task
         case RevokeSession(p) => family == p.family
         case RevokeDevice(owner, device) =>
           family in x.stores.families && x.stores.families[family].owner == owner && x.stores.families[family].device == device
         case _ => false)
    case Rotate(t, _) =>
      && t in x.jobs && x.jobs[t].task.RefreshSession? && family == x.jobs[t].task.p.family
      && x.jobs[t].task.token in x.stores.refresh && x.stores.refresh[x.jobs[t].task.token].used
    case _ => false
  }

  /** The event is a job of this family that passes validation, rotates its token or issues something. */
  predicate Uses(x: System, e: Event, family: string)
  {
    && (e.Validate? || e.Rotate? || e.Issue?)
    && e.t in x.jobs && !x.jobs[e.t].task.RevokeDevice? && x.jobs[e.t].task.p.family == family
  }

  predicate Revoked(x: System, family: string)
  {
    family in x.stores.families && x.stores.families[family].revoked
  }

  /** What no step undoes: revoked families and devices, and spent refresh tokens. */
  ghost predicate OnlyGrows(x: System, y: System)
  {
    && (forall f :: Revoked(x, f) ==> Revoked(y, f))
    && x.stores.revokedDevices <= y.stores.revokedDevices
    && (forall k :: k in x.stores.refresh ==> k in y.stores.refresh && (x.stores.refresh[k].used ==> y.stores.refresh[k].used))
  }

  lemma {:induction false} StepOnlyGrows(x: System, e: Event, y: System)
    requires Step(x, e, y)
    ensures OnlyGrows(x, y)
  {
  }

  lemma {:induction false} GrowsOn(x: System, y: System, z: System)
    requires OnlyGrows(x, y) && OnlyGrows(y, z)
    ensures OnlyGrows(x, z)
  {
  }

  lemma {:induction false} RunStep(run: seq<System>, events: seq<Event>, i: nat)
    requires IsSystemRun(run, events) && 0 < i < |run|
    ensures Step(run[i - 1], events[i - 1], run[i])
  {
    assert Step(run[i - 1], events[i - 1], run[i - 1 + 1]);
  }

  lemma {:induction false} RunOnlyGrows(run: seq<System>, events: seq<Event>, i: nat, j: nat)
    requires IsSystemRun(run, events) && i <= j < |run|
    ensures OnlyGrows(run[i], run[j])
    decreases j
  {
    if i < j {
      RunOnlyGrows(run, events, i, j - 1);
      RunStep(run, events, j);
      StepOnlyGrows(run[j - 1], events[j - 1], run[j]);
      GrowsOn(run[i], run[j - 1], run[j]);
    }
  }

  lemma {:induction false} CondemnedIsRevoked(x: System, e: Event, y: System, family: string)
    requires Step(x, e, y) && Condemns(x, e, family)
    ensures Revoked(y, family)
  {
  }

  /** A family that a revocation or a replay condemns is revoked in every later state. */
  lemma {:induction false} RevocationTakesHold(run: seq<System>, events: seq<Event>, i: nat, j: nat, family: string)
    requires IsSystemRun(run, events) && i < j < |run| && Condemns(run[i], events[i], family)
    ensures Revoked(run[j], family)
  {
    assert Step(run[i], events[i], run[i + 1]);
    CondemnedIsRevoked(run[i], events[i], run[i + 1], family);
    RunOnlyGrows(run, events, i + 1, j);
  }

  lemma {:induction false} OnlyCondemnationRevokes(x: System, e: Event, y: System, family: string)
    requires Step(x, e, y) && Revoked(y, family) && !Condemns(x, e, family)
    ensures Revoked(x, family)
  {
  }

  ghost predicate CondemnedBefore(run: seq<System>, events: seq<Event>, j: nat, family: string)
    requires j <= |events| <= |run|
  {
    exists i :: 0 <= i < j && Condemns(run[i], events[i], family)
  }

  lemma {:induction false} CondemnedEarlier(run: seq<System>, events: seq<Event>, j: nat, family: string)
    requires j < |events| <= |run|
    ensures CondemnedBefore(run, events, j + 1, family) <==>
            CondemnedBefore(run, events, j, family) || Condemns(run[j], events[j], family)
  {
  }

  /** And only such families are revoked: a family is revoked exactly when it began so or was condemned on the way. */
  lemma {:induction false} RevokedIff(run: seq<System>, events: seq<Event>, j: nat, family: string)
    requires IsSystemRun(run, events) && j < |run|
    ensures Revoked(run[j], family) <==> Revoked(run[0], family) || CondemnedBefore(run, events, j, family)
  {
    if j > 0 {
      RevokedIff(run, events, j - 1, family);
      CondemnedEarlier(run, events, j - 1, family);
      RunStep(run, events, j);
      RevokedByStep(run[j - 1], events[j - 1], run[j], family);
    }
  }

  lemma {:induction false} RevokedByStep(x: System, e: Event, y: System, family: string)
    requires Step(x, e, y)
    ensures Revoked(y, family) <==> Revoked(x, family) || Condemns(x, e, family)
  {
    StepOnlyGrows(x, e, y);
    if Condemns(x, e, family) {
      CondemnedIsRevoked(x, e, y, family);
    } else if Revoked(y, family) {
      OnlyCondemnationRevokes(x, e, y, family);
    }
  }

  /** A push registration ends only by the revocation of its own device. */
  lemma {:induction false} PushLostOnlyByRevocation(x: System, e: Event, y: System, device: (string, string))
    requires Step(x, e, y) && device in x.stores.push
    ensures device in y.stores.push <==> !(e.Revoke? && e.t in x.jobs && x.jobs[e.t].task.RevokeDevice? && Device(x.jobs[e.t].task) == device)
  {
  }

  lemma {:induction false} UserIsActive(x: System, e: Event, y: System, family: string)
    requires SystemInv(x) && Step(x, e, y) && Uses(x, e, family)
    ensures !Revoked(x, family)
  {
    assert JobInv(x, e.t);
  }

  /** From then on no job of the family passes validation, rotates its token or issues anything. */
  lemma {:induction false} RevokedFamilyIsUseless(run: seq<System>, events: seq<Event>, i: nat, j: nat, family: string)
    requires IsSystemRun(run, events) && i <= j < |events| && Revoked(run[i], family)
    ensures !Uses(run[j], events[j], family)
  {
    RunOnlyGrows(run, events, i, j);
    SystemRunInv(run, events, j);
    assert Step(run[j], events[j], run[j + 1]);
    if Uses(run[j], events[j], family) {
      UserIsActive(run[j], events[j], run[j + 1], family);
    }
  }

  /** A refresh token buys one successor: whoever rotates it a second time revokes the family. */
  lemma {:induction false} ReplayRevokes(run: seq<System>, events: seq<Event>, i: nat, j: nat, token: string)
    requires IsSystemRun(run, events) && i < j < |events|
    requires Rotates(run[i], events[i], token) && Rotates(run[j], events[j], token)
    ensures Revoked(run[j + 1], run[j].jobs[events[j].t].task.p.family)
  {
    assert Step(run[i], events[i], run[i + 1]);
    SpentByRotation(run[i], events[i], run[i + 1], token);
    RunOnlyGrows(run, events, i + 1, j);
    RevocationTakesHold(run, events, j, j + 1, run[j].jobs[events[j].t].task.p.family);
  }

  predicate Rotates(x: System, e: Event, token: string)
  {
    e.Rotate? && e.t in x.jobs && x.jobs[e.t].task.RefreshSession? && x.jobs[e.t].task.token == token
  }

  lemma {:induction false} SpentByRotation(x: System, e: Event, y: System, token: string)
    requires Step(x, e, y) && Rotates(x, e, token)
    ensures token in y.stores.refresh && y.stores.refresh[token].used
  {
  }

  // ----- Jobs that end without failing have done their work

  /** What a job of this task has done once it is past the point where it could fail. */
  predicate Accomplished(x: System, task: Task)
  {
    match task
    case RevokeSession(p) => Revoked(x, p.family)
    case RevokeDevice(owner, device) => (owner, device) in x.stores.revokedDevices
    case _ => true
  }

  predicate NotYet(stage: Stage) { stage.NeedDevice? || stage.Admitted? }

  /** The job is under way with this task, and is past Admitted only with its work done. */
  predicate UnderWay(x: System, t: ThreadId, task: Task)
  {
    t in x.jobs && x.jobs[t].task == task && (NotYet(x.jobs[t].stage) || Accomplished(x, task))
  }

  lemma {:induction false} AccomplishedStays(x: System, e: Event, y: System, task: Task)
    requires Step(x, e, y) && Accomplished(x, task)
    ensures Accomplished(y, task)
  {
    StepOnlyGrows(x, e, y);
  }

  lemma {:induction false} UnderWayStep(x: System, e: Event, y: System, t: ThreadId, task: Task)
    requires Step(x, e, y) && UnderWay(x, t, task) && e != Fail(t) && e != Finish(t)
    requires task.RevokeSession? || task.RevokeDevice?
    ensures UnderWay(y, t, task)
  {
    if Accomplished(x, task) {
      AccomplishedStays(x, e, y, task);
    }
  }

  lemma {:induction false} UnderWayAlong(run: seq<System>, events: seq<Event>, i: nat, j: nat, t: ThreadId, task: Task)
    requires IsSystemRun(run, events) && i < j < |run| && events[i] == Begin(t, task)
    requires task.RevokeSession? || task.RevokeDevice?
    requires forall k :: i < k < j ==> events[k] != Fail(t) && events[k] != Finish(t)
    ensures UnderWay(run[j], t, task)
    decreases j
  {
    RunStep(run, events, j);
    if i < j - 1 {
      UnderWayAlong(run, events, i, j - 1, t, task);
      UnderWayStep(run[j - 1], events[j - 1], run[j], t, task);
    }
  }

  /** A session or device revocation that ends without failing leaves its family or device revoked, for good. */
  lemma {:induction false} FinishedRevocation(run: seq<System>, events: seq<Event>, i: nat, j: nat, k: nat, t: ThreadId, task: Task)
    requires IsSystemRun(run, events) && i < j < |events| && j <= k < |run|
    requires events[i] == Begin(t, task) && events[j] == Finish(t) && (task.RevokeSession? || task.RevokeDevice?)
    requires forall m :: i < m < j ==> events[m] != Fail(t) && events[m] != Finish(t)
    ensures Accomplished(run[k], task)
  {
    UnderWayAlong(run, events, i, j, t, task);
    assert Step(run[j], events[j], run[j + 1]);
    RunOnlyGrows(run, events, j, k);
  }

  // ----- Sweeps remove what they should, and nothing else

  predicate OfDevice(gr: Grant, device: (string, string))
  {
    (gr.owner, gr.device) == device
  }

  /** The credential is forgotten, or a job of its own device sweeps. */
  predicate Removes(x: System, e: Event, gr: Grant)
  {
    e == Forget(gr) || (e.Sweep? && e.t in x.jobs && OfDevice(gr, Device(x.jobs[e.t].task)))
  }

  lemma {:induction false} KeptUnlessRemoved(x: System, e: Event, y: System, gr: Grant)
    requires Step(x, e, y) && gr in x.stores.grants && !Removes(x, e, gr)
    ensures gr in y.stores.grants
  {
  }

  ghost predicate Keeps(x: System, y: System, gr: Grant)
  {
    gr in x.stores.grants ==> gr in y.stores.grants
  }

  lemma {:induction false} KeptAlong(run: seq<System>, i: nat, j: nat, gr: Grant)
    requires i <= j < |run| && gr in run[i].stores.grants
    requires forall k :: i <= k < j ==> Keeps(run[k], run[k + 1], gr)
    ensures gr in run[j].stores.grants
    decreases j
  {
    if i < j {
      KeptAlong(run, i, j - 1, gr);
      assert Keeps(run[j - 1], run[j - 1 + 1], gr);
    }
  }

  /** Nothing else ends a credential: revoking one device spares the credentials of the others. */
  lemma {:induction false} LivesUntilSwept(run: seq<System>, events: seq<Event>, i: nat, j: nat, gr: Grant)
    requires IsSystemRun(run, events) && i <= j < |run| && gr in run[i].stores.grants
    requires forall k :: i <= k < j ==> !Removes(run[k], events[k], gr)
    ensures gr in run[j].stores.grants
  {
    forall k | i <= k < j ensures Keeps(run[k], run[k + 1], gr) {
      KeepsUnlessRemoved(run, events, k, gr);
    }
    KeptAlong(run, i, j, gr);
  }

  lemma {:induction false} KeepsUnlessRemoved(run: seq<System>, events: seq<Event>, k: nat, gr: Grant)
    requires IsSystemRun(run, events) && k < |events| && !Removes(run[k], events[k], gr)
    ensures Keeps(run[k], run[k + 1], gr)
  {
    RunStep(run, events, k + 1);
    if gr in run[k].stores.grants {
      KeptUnlessRemoved(run[k], events[k], run[k + 1], gr);
    }
  }

  /** Between its two sweeps a job's device has no ticket: nobody else can issue one. */
  ghost predicate HalfSwept(x: System)
  {
    forall t :: t in x.jobs && x.jobs[t].stage.SweepPreviews? ==> NoTickets(x.stores.grants, Device(x.jobs[t].task))
  }

  ghost predicate NoTickets(grants: set<Grant>, device: (string, string))
  {
    forall gr :: gr in grants && OfDevice(gr, device) ==> gr.kind.PreviewGrant?
  }

  lemma {:induction false} IssuerIsAlone(x: System, t: ThreadId, id: nat, y: System, u: ThreadId)
    requires Inv(x.gates) && JobsInv(x) && Step(x, Issue(t, id), y) && u in x.jobs && x.jobs[u].stage.SweepPreviews?
    ensures Device(x.jobs[u].task) != Device(x.jobs[t].task)
  {
    if Device(x.jobs[u].task) == Device(x.jobs[t].task) {
      SoleOwner(x, t, u);
    }
  }

  /** Only an issue adds credentials. */
  lemma {:induction false} AddedByIssue(x: System, e: Event, y: System)
    requires Step(x, e, y) && !e.Issue?
    ensures y.stores.grants <= x.stores.grants
  {
  }

  lemma {:induction false} TicketsSwept(x: System, e: Event, y: System, u: ThreadId)
    requires GrantsInv(x) && Step(x, e, y) && u in x.jobs && x.jobs[u].stage.SweepTickets?
    requires u in y.jobs && y.jobs[u].stage.SweepPreviews?
    ensures NoTickets(y.stores.grants, Device(y.jobs[u].task))
  {
    assert e == Sweep(u);
    assert forall gr :: gr in x.stores.grants ==> GrantInv(x, gr);
  }

  lemma {:induction false} StillSweeping(x: System, e: Event, y: System, u: ThreadId)
    requires Step(x, e, y) && u in y.jobs && y.jobs[u].stage.SweepPreviews? && !(u in x.jobs && x.jobs[u].stage.SweepTickets?)
    ensures u in x.jobs && y.jobs[u] == x.jobs[u] && (e.Issue? ==> e.t in x.jobs)
    ensures e.Issue? ==> forall gr :: gr in y.stores.grants && gr !in x.stores.grants ==> OfDevice(gr, Device(x.jobs[e.t].task))
  {
  }

  lemma {:induction false} SweepingJob(x: System, e: Event, y: System, u: ThreadId)
    requires SystemInv(x) && HalfSwept(x) && Step(x, e, y) && u in y.jobs && y.jobs[u].stage.SweepPreviews?
    ensures NoTickets(y.stores.grants, Device(y.jobs[u].task))
  {
    if u in x.jobs && x.jobs[u].stage.SweepTickets? {
      TicketsSwept(x, e, y, u);
    } else {
      StillSweeping(x, e, y, u);
      if e.Issue? {
        IssuerIsAlone(x, e.t, e.id, y, u);
      } else {
        AddedByIssue(x, e, y);
      }
    }
  }

  lemma {:induction false} HalfSweptStep(x: System, e: Event, y: System)
    requires SystemInv(x) && HalfSwept(x) && Step(x, e, y)
    ensures HalfSwept(y)
  {
    forall u | u in y.jobs && y.jobs[u].stage.SweepPreviews? ensures NoTickets(y.stores.grants, Device(y.jobs[u].task)) {
      SweepingJob(x, e, y, u);
    }
  }

  lemma {:induction false} RunHalfSwept(run: seq<System>, events: seq<Event>, i: nat)
    requires IsSystemRun(run, events) && i < |run|
    ensures HalfSwept(run[i])
  {
    if i > 0 {
      RunHalfSwept(run, events, i - 1);
      SystemRunInv(run, events, i - 1);
      assert Step(run[i - 1], events[i - 1], run[i - 1 + 1]);
      HalfSweptStep(run[i - 1], events[i - 1], run[i]);
    }
  }

  ghost predicate NoGrants(grants: set<Grant>, device: (string, string))
  {
    forall gr :: gr in grants ==> !OfDevice(gr, device)
  }

  lemma {:induction false} LastSweep(x: System, t: ThreadId, y: System)
    requires GrantsInv(x) && HalfSwept(x) && Step(x, Sweep(t), y) && x.jobs[t].stage.SweepPreviews?
    ensures NoGrants(y.stores.grants, Device(x.jobs[t].task))
  {
    forall gr | gr in y.stores.grants ensures !OfDevice(gr, Device(x.jobs[t].task)) {
      assert GrantInv(x, gr);
    }
  }

  /** When a job has swept, its device has no live credential left, of whatever family. */
  lemma {:induction false} SweepsLeaveNothing(run: seq<System>, events: seq<Event>, i: nat, t: ThreadId)
    requires IsSystemRun(run, events) && i < |events| && events[i] == Sweep(t)
    requires t in run[i].jobs && run[i].jobs[t].stage.SweepPreviews?
    ensures NoGrants(run[i + 1].stores.grants, Device(run[i].jobs[t].task))
  {
    SystemRunInv(run, events, i);
    RunHalfSwept(run, events, i);
    assert Step(run[i], events[i], run[i + 1]);
    LastSweep(run[i], t, run[i + 1]);
  }

  ghost predicate Dead(x: System, device: (string, string))
  {
    device in x.stores.revokedDevices && NoGrants(x.stores.grants, device)
  }

  lemma {:induction false} DeadStep(x: System, e: Event, y: System, device: (string, string))
    requires JobsInv(x) && Step(x, e, y) && Dead(x, device)
    ensures Dead(y, device)
  {
    StepOnlyGrows(x, e, y);
    if e.Issue? {
      assert JobInv(x, e.t);
    } else {
      AddedByIssue(x, e, y);
    }
  }

  ghost predicate KeepsDead(x: System, y: System, device: (string, string))
  {
    Dead(x, device) ==> Dead(y, device)
  }

  lemma {:induction false} RunKeepsDead(run: seq<System>, events: seq<Event>, k: nat, device: (string, string))
    requires IsSystemRun(run, events) && k < |events|
    ensures KeepsDead(run[k], run[k + 1], device)
  {
    SystemRunInv(run, events, k);
    RunStep(run, events, k + 1);
    if Dead(run[k], device) {
      DeadStep(run[k], events[k], run[k + 1], device);
    }
  }

  lemma {:induction false} DeadAlong(run: seq<System>, i: nat, j: nat, device: (string, string))
    requires i <= j < |run| && Dead(run[i], device)
    requires forall k :: i <= k < j ==> KeepsDead(run[k], run[k + 1], device)
    ensures Dead(run[j], device)
    decreases j
  {
    if i < j {
      DeadAlong(run, i, j - 1, device);
      assert KeepsDead(run[j - 1], run[j - 1 + 1], device);
    }
  }

  /** A revoked device that has been swept once has no live credential and no push registration ever again. */
  lemma {:induction false} RevokedDeviceStaysDead(
      run: seq<System>, events: seq<Event>, i: nat, j: nat, device: (string, string))
    requires IsSystemRun(run, events) && i <= j < |run| && Dead(run[i], device)
    ensures NoGrants(run[j].stores.grants, device) && device !in run[j].stores.push
  {
    forall k | i <= k < j ensures KeepsDead(run[k], run[k + 1], device) {
      RunKeepsDead(run, events, k, device);
    }
    DeadAlong(run, i, j, device);
    SystemRunInv(run, events, j);
  }

  // ----- What is not revoked still works

  /** An admitted job of an active family can go on to issue its credential or registration, which is then live. */
  lemma {:induction false} IssuanceCanSucceed(x: System, t: ThreadId, id: nat) returns (v: System, w: System, y: System)
    requires t in x.jobs && x.jobs[t].stage.Admitted? && (WorkspaceTask(x.jobs[t].task) || x.jobs[t].task.RegisterPush?)
    requires Active(x.stores, x.jobs[t].task.p) && x.jobs[t].task.p.owner != "" && x.jobs[t].task.p.device != ""
    ensures Step(x, Validate(t), v) && Step(v, Touch(t), w) && Step(w, Issue(t, id), y)
    ensures y.stores.families == x.stores.families
    ensures var (task, p) := (x.jobs[t].task, x.jobs[t].task.p);
            && (task.RegisterPush? ==> y.stores.push == x.stores.push + {(p.owner, p.device)} && y.stores.grants == x.stores.grants)
            && (!task.RegisterPush? ==>
                  y.stores.grants == x.stores.grants +
                    {Grant(id, if task.IssuePreview? then PreviewGrant else TerminalTicket, p.owner, p.device, p.family)})
  {
    v := AtStage(x, t, Validated);
    w := AtStage(v, t, Touched);
    y := AtStage(w, t, Exiting).(stores := Issued(w.stores, w.jobs[t].task, id));
  }

  /** An unspent refresh token of a family that is not revoked buys a fresh one, which is unspent. */
  lemma {:induction false} RotationCanSucceed(x: System, t: ThreadId, next: string) returns (y: System)
    requires t in x.jobs && JobInv(x, t) && x.jobs[t].stage.Admitted? && x.jobs[t].task.RefreshSession?
    requires !Revoked(x, x.jobs[t].task.p.family) && !x.stores.refresh[x.jobs[t].task.token].used && next !in x.stores.refresh
    ensures Step(x, Rotate(t, next), y) && y.stores.families == x.stores.families && y.stores.grants == x.stores.grants
    ensures next in y.stores.refresh && y.stores.refresh[next] == Refresh(x.jobs[t].task.p.family, false)
  {
    var p := x.jobs[t].task.p;
    y := AtStage(x, t, Exiting).(stores := x.stores.(
      refresh := x.stores.refresh[x.jobs[t].task.token := Refresh(p.family, true)][next := Refresh(p.family, false)]));
  }
}
