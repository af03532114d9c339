/**
  What the gates are for: operations that touch a common device, secret or workspace do their work one at a time.
 */
module OperationExclusion {
  import opened Common
  import opened Ordering
  import opened MutationGates
  import opened LockOrder

  /** What an operation reads and changes. */
  datatype Resource =
    | DeviceOf(owner: string, device: string)
    | SecretOf(owner: string, secret: string)
    | WorkspaceOf(workspace: string)

  predicate Touches(op: Operation, r: Resource)
  {
    match op
    case DeviceScoped(owner, device) => r == DeviceOf(owner, device)
    case WorkspaceScoped(workspace) => r == WorkspaceOf(workspace)
    case DeviceAuthority(owner, device, workspace) => r == DeviceOf(owner, device) || r == WorkspaceOf(workspace)
    case SecretGrant(owner, secret, workspace) => r == SecretOf(owner, secret) || r == WorkspaceOf(workspace)
    case SecretRotation(owner, secret, granted) =>
      r == SecretOf(owner, secret) || (r.WorkspaceOf? && r.workspace in granted)
  }

  function KeyOf(r: Resource): Key
  {
    match r
    case DeviceOf(owner, device) => DeviceKey(owner, device)
    case SecretOf(owner, secret) => SecretKey(owner, secret)
    case WorkspaceOf(workspace) => WorkspaceKey(workspace)
  }

  /** Different resources never share a gate. */
  lemma {:induction false} KeyOfInjective(r: Resource, q: Resource)
    ensures KeyOf(r) == KeyOf(q) <==> r == q
  {
    if r.DeviceOf? && q.DeviceOf? {
      CompositeNameInjective(r.owner, r.device, q.owner, q.device);
    } else if r.SecretOf? && q.SecretOf? {
      CompositeNameInjective(r.owner, r.secret, q.owner, q.secret);
    }
  }

  lemma {:induction false} WorkspaceInKeys(ids: seq<string>, w: string)
    ensures WorkspaceKey(w) in WorkspaceKeys(ids) <==> w in ids
  {
    if w in ids {
      var i :| 0 <= i < |ids| && ids[i] == w;
      assert WorkspaceKeys(ids)[i] == WorkspaceKey(w);
    }
  }

  lemma {:induction false} OnlyWorkspaces(ids: seq<string>, r: Resource)
    requires KeyOf(r) in WorkspaceKeys(ids)
    ensures r.WorkspaceOf?
  {
    var i :| 0 <= i < |ids| && WorkspaceKeys(ids)[i] == KeyOf(r);
    assert WorkspaceKeys(ids)[i] == WorkspaceKey(ids[i]);
  }

  lemma {:induction false} RotationCovers(owner: string, secret: string, granted: seq<string>, r: Resource)
    ensures KeyOf(r) in Plan(SecretRotation(owner, secret, granted)) <==> Touches(SecretRotation(owner, secret, granted), r)
  {
    var ids := WithoutRepeats(Sort(StringLess, granted));
    SortedMembers(granted);
    WithoutRepeatsSet(Sort(StringLess, granted));
    KeyOfInjective(r, SecretOf(owner, secret));
    if r.WorkspaceOf? {
      WorkspaceInKeys(ids, r.workspace);
    } else if KeyOf(r) in WorkspaceKeys(ids) {
      OnlyWorkspaces(ids, r);
    }
  }

  /** An operation takes the gates of exactly what it touches. */
  lemma {:induction false} PlanCovers(op: Operation, r: Resource)
    ensures KeyOf(r) in Plan(op) <==> Touches(op, r)
  {
    match op
    case DeviceScoped(owner, device) => KeyOfInjective(r, DeviceOf(owner, device));
    case WorkspaceScoped(workspace) => KeyOfInjective(r, WorkspaceOf(workspace));
    case DeviceAuthority(owner, device, workspace) =>
      KeyOfInjective(r, DeviceOf(owner, device));
      KeyOfInjective(r, WorkspaceOf(workspace));
    case SecretGrant(owner, secret, workspace) =>
      KeyOfInjective(r, SecretOf(owner, secret));
      KeyOfInjective(r, WorkspaceOf(workspace));
    case SecretRotation(owner, secret, granted) => RotationCovers(owner, secret, granted, r);
  }

  /** The thread has all the gates of its operation and has not begun to release them. */
  ghost predicate Working(x: Machine, t: ThreadId)
  {
    && t in x.ops && t in x.gates.threads
    && x.ops[t].next == |Plan(x.ops[t].op)| && !x.ops[t].leaving && !Acquiring(x.gates.threads[t].pc)
  }

  lemma {:induction false} WorkingHolds(x: Machine, t: ThreadId, r: Resource) returns (g: GateId)
    requires PlanInv(x) && Working(x, t) && Touches(x.ops[t].op, r)
    ensures g in x.gates.threads[t].held && x.gates.threads[t].held[g] == KeyOf(r)
  {
    var plan, held := Plan(x.ops[t].op), x.gates.threads[t].held;
    PlanCovers(x.ops[t].op, r);
    assert Executes(x.gates.threads[t], x.ops[t]);
    assert plan[..|plan|] == plan;
    assert KeyOf(r) in held.Values;
    g :| g in held && held[g] == KeyOf(r);
  }

  /** In every reachable state, two operations at work that touch a common resource are one and the same. */
  lemma {:induction false} ConflictsExclude(run: seq<Machine>, events: seq<Event>, i: nat, t: ThreadId, u: ThreadId, r: Resource)
    requires IsOperationRun(run, events) && i < |run|
    requires Working(run[i], t) && Touches(run[i].ops[t].op, r)
    requires Working(run[i], u) && Touches(run[i].ops[u].op, r)
    ensures t == u
  {
    MachineRunInv(run, events, i);
    var g := WorkingHolds(run[i], t, r);
    var h := WorkingHolds(run[i], u, r);
    SameKeySameGate(run[i].gates, t, g, u, h);
  }
}
