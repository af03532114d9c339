/**
  Why the gates cannot deadlock: callers nest secret gates outside workspace gates
  outside device gates, and take several workspace gates in sorted order.
 */
module LockOrder {
  import opened Common
  import opened Ordering
  import opened MutationGates

  function Rank(space: Space): nat
  {
    match space
    case Secrets => 0
    case Workspaces => 1
    case Terminals => 2
  }

  predicate KeyLess(a: Key, b: Key)
  {
    Rank(a.space) < Rank(b.space) || (a.space == b.space && StringLess(a.name, b.name))
  }

  lemma {:induction false} KeyLessStrict(a: Key, b: Key, c: Key)
    ensures !KeyLess(a, a)
    ensures KeyLess(a, b) && KeyLess(b, c) ==> KeyLess(a, c)
  {
    StringLessIsStrictTotal();
  }

  // ----- Keys

  function Digits(n: nat): string
    ensures |Digits(n)| > 0
    ensures forall i :: 0 <= i < |Digits(n)| ==> '0' <= Digits(n)[i] <= '9'
  {
    var d := [('0' as int + n % 10) as char];
    if n < 10 then d else Digits(n / 10) + d
  }

  function Value(s: string): nat
    requires forall i :: 0 <= i < |s| ==> '0' <= s[i] <= '9'
  {
    if s == [] then 0 else 10 * Value(s[..|s| - 1]) + (s[|s| - 1] as int - '0' as int)
  }

  lemma {:induction false} DigitsValue(n: nat)
    ensures Value(Digits(n)) == n
  {
    if n >= 10 {
      DigitsValue(n / 10);
      assert Digits(n)[..|Digits(n)| - 1] == Digits(n / 10);
    }
  }

  /** The composite key of an owner and one of its devices or secrets: length, owner, identifier. */
  function CompositeName(owner: string, id: string): string
  {
    Digits(|owner|) + ":" + owner + ":" + id
  }

  /** The digits end where the first colon stands. */
  lemma {:induction false} SameDigits(p: string, q: string, a: string, b: string)
    requires p + ":" + a == q + ":" + b
    requires (forall i :: 0 <= i < |p| ==> p[i] != ':') && (forall i :: 0 <= i < |q| ==> q[i] != ':')
    ensures p == q && a == b
  {
    var n := p + ":" + a;
    assert n[|p|] == ':' && n[|q|] == ':';
    assert p == n[..|p|] && q == n[..|q|];
    assert |p| == |q|;
    assert a == n[|p| + 1..] && b == n[|q| + 1..];
  }

  lemma {:induction false} SameLengthPrefix(a: string, b: string, x: string, y: string)
    requires |a| == |b| && a + ":" + x == b + ":" + y
    ensures a == b && x == y
  {
    var n := a + ":" + x;
    assert a == n[..|a|] && b == n[..|b|];
    assert x == n[|a| + 1..] && y == n[|b| + 1..];
  }

  lemma {:induction false} CompositeParts(owner: string, id: string)
    ensures CompositeName(owner, id) == Digits(|owner|) + ":" + (owner + ":" + id)
  {
  }

  /** Hostile identifiers cannot alias: a composite name determines the pair it was built from. */
  lemma {:induction false} CompositeNameInjective(o1: string, d1: string, o2: string, d2: string)
    ensures CompositeName(o1, d1) == CompositeName(o2, d2) <==> o1 == o2 && d1 == d2
  {
    if CompositeName(o1, d1) == CompositeName(o2, d2) {
      CompositeParts(o1, d1);
      CompositeParts(o2, d2);
      SameDigits(Digits(|o1|), Digits(|o2|), o1 + ":" + d1, o2 + ":" + d2);
      DigitsValue(|o1|);
      DigitsValue(|o2|);
      SameLengthPrefix(o1, o2, d1, d2);
    }
  }

  function DeviceKey(owner: string, device: string): Key { Key(Terminals, CompositeName(owner, device)) }
  function SecretKey(owner: string, secret: string): Key { Key(Secrets, CompositeName(owner, secret)) }
  function WorkspaceKey(workspace: string): Key { Key(Workspaces, workspace) }

  // ----- What the callers acquire, in order

  datatype Operation =
    | DeviceScoped(owner: string, device: string)                       // refresh, revocations, push registration
    | WorkspaceScoped(workspace: string)                                // files, checkpoints, tabs, preview routes
    | DeviceAuthority(owner: string, device: string, workspace: string) // preview access, terminal connection
    | SecretGrant(owner: string, secret: string, workspace: string)
    | SecretRotation(owner: string, secret: string, granted: seq<string>)

  ghost predicate Increasing(plan: seq<Key>)
  {
    forall i, j :: 0 <= i < j < |plan| ==> KeyLess(plan[i], plan[j])
  }

  /** Adjacent duplicates of a sorted list are taken once. */
  function WithoutRepeats(ids: seq<string>): seq<string>
  {
    if |ids| == 0 then []
    else
      var front := WithoutRepeats(ids[..|ids| - 1]);
      if front != [] && front[|front| - 1] == ids[|ids| - 1] then front else front + [ids[|ids| - 1]]
  }

  function WorkspaceKeys(ids: seq<string>): seq<Key>
  {
    seq(|ids|, i requires 0 <= i < |ids| => WorkspaceKey(ids[i]))
  }

  function Plan(op: Operation): seq<Key>
  {
    match op
    case DeviceScoped(owner, device) => [DeviceKey(owner, device)]
    case WorkspaceScoped(workspace) => [WorkspaceKey(workspace)]
    case DeviceAuthority(owner, device, workspace) => [WorkspaceKey(workspace), DeviceKey(owner, device)]
    case SecretGrant(owner, secret, workspace) => [SecretKey(owner, secret), WorkspaceKey(workspace)]
    case SecretRotation(owner, secret, granted) =>
      [SecretKey(owner, secret)] + WorkspaceKeys(WithoutRepeats(Sort(StringLess, granted)))
  }

  ghost predicate StrictlyIncreasing(ids: seq<string>)
  {
    forall i, j :: 0 <= i < j < |ids| ==> StringLess(ids[i], ids[j])
  }

  lemma {:induction false} ExtendIncreasing(ids: seq<string>, x: string)
    requires StrictlyIncreasing(ids) && (ids != [] ==> StringLess(ids[|ids| - 1], x))
    ensures StrictlyIncreasing(ids + [x])
  {
    StringLessIsStrictTotal();
    forall i | 0 <= i < |ids| ensures StringLess(ids[i], x) {
      assert i == |ids| - 1 || StringLess(ids[i], ids[|ids| - 1]);
    }
  }

  lemma {:induction false} SnocMembers(front: seq<string>, x: string)
    ensures forall y :: y in front + [x] <==> y in front || y == x
  {
  }

  lemma {:induction false} OneMoreId(ids: seq<string>, front: seq<string>, last: string)
    requires ids != [] && front == WithoutRepeats(ids[..|ids| - 1]) && last == ids[|ids| - 1]
    ensures WithoutRepeats(ids) == if front != [] && front[|front| - 1] == last then front else front + [last]
  {
  }

  lemma {:induction false} ExtendedMembers(before: seq<string>, front: seq<string>, last: string, after: seq<string>)
    requires (forall x :: x in front <==> x in before)
    requires after == if front != [] && front[|front| - 1] == last then front else front + [last]
    ensures forall x :: x in after <==> x in before + [last]
    ensures after != [] && after[|after| - 1] == last
  {
    SnocMembers(before, last);
    if front != [] && front[|front| - 1] == last {
      assert last in front;
    } else {
      SnocMembers(front, last);
    }
  }

  lemma {:induction false} WithoutRepeatsSet(ids: seq<string>)
    ensures forall x :: x in WithoutRepeats(ids) <==> x in ids
    ensures ids != [] ==> WithoutRepeats(ids) != [] && WithoutRepeats(ids)[|WithoutRepeats(ids)| - 1] == ids[|ids| - 1]
  {
    if ids != [] {
      var init, last := ids[..|ids| - 1], ids[|ids| - 1];
      WithoutRepeatsSet(init);
      OneMoreId(ids, WithoutRepeats(init), last);
      ExtendedMembers(init, WithoutRepeats(init), last, WithoutRepeats(ids));
      assert ids == init + [last];
    }
  }

  lemma {:induction false} WithoutRepeatsIncreasing(ids: seq<string>)
    requires Sorted(StringLess, ids)
    ensures StrictlyIncreasing(WithoutRepeats(ids))
  {
    if ids != [] {
      var init, last := ids[..|ids| - 1], ids[|ids| - 1];
      WithoutRepeatsIncreasing(init);
      WithoutRepeatsSet(init);
      var front := WithoutRepeats(init);
      if front == [] {
        ExtendIncreasing(front, last);
      } else if front[|front| - 1] != last {
        assert init[|init| - 1] == ids[|ids| - 2] == front[|front| - 1];
        assert !StringLess(ids[|ids| - 1], ids[|ids| - 2]);
        StringLessIsStrictTotal();
        ExtendIncreasing(front, last);
      }
    }
  }

  /** Every operation acquires its gates in strictly increasing order. */
  lemma {:induction false} PlansIncrease(op: Operation)
    ensures Increasing(Plan(op))
  {
    if op.SecretRotation? {
      StringLessIsStrictTotal();
      SortIsSorted(StringLess, op.granted);
      WithoutRepeatsIncreasing(Sort(StringLess, op.granted));
      SecretThenWorkspaces(SecretKey(op.owner, op.secret), WithoutRepeats(Sort(StringLess, op.granted)));
    }
  }

  lemma {:induction false} SecretThenWorkspaces(secret: Key, ids: seq<string>)
    requires secret.space == Secrets && StrictlyIncreasing(ids)
    ensures Increasing([secret] + WorkspaceKeys(ids))
  {
    var plan := [secret] + WorkspaceKeys(ids);
    forall i, j | 0 <= i < j < |plan| ensures KeyLess(plan[i], plan[j]) {
      assert plan[j] == WorkspaceKey(ids[j - 1]);
      if i > 0 {
        assert plan[i] == WorkspaceKey(ids[i - 1]);
      }
    }
  }

  lemma {:induction false} SortedMembers(granted: seq<string>)
    ensures forall x :: x in Sort(StringLess, granted) <==> x in granted
  {
    StringLessIsStrictTotal();
    SortIsSorted(StringLess, granted);
    var ids := Sort(StringLess, granted);
    assert forall x :: x in granted <==> x in multiset(granted);
    assert forall x :: x in ids <==> x in multiset(ids);
  }

  lemma {:induction false} UniqueIsIncreasing(granted: seq<string>)
    ensures StrictlyIncreasing(WithoutRepeats(Sort(StringLess, granted)))
  {
    StringLessIsStrictTotal();
    SortIsSorted(StringLess, granted);
    WithoutRepeatsIncreasing(Sort(StringLess, granted));
  }

  /**
    The acquisition loop of a secret rotation.  An empty stored identifier fails the
    whole operation; otherwise every granted workspace is taken exactly once, in the
    order that the rotation's plan promises.
   */
  method LockSecretWorkspaces(granted: seq<string>) returns (acquired: Option<seq<string>>)
    ensures acquired.None? <==> |granted| > 1000 || "" in granted
    ensures acquired.Some? ==> StrictlyIncreasing(acquired.value)
    ensures acquired.Some? ==> forall x :: x in acquired.value <==> x in granted
    ensures acquired.Some? ==> forall owner, secret ::
              Plan(SecretRotation(owner, secret, granted)) == [SecretKey(owner, secret)] + WorkspaceKeys(acquired.value)
  {
    if |granted| > 1000 {
      return None;
    }
    var ids := Sort(StringLess, granted);
    SortedMembers(granted);
    var unique: seq<string> := [];
    var i := 0;
    while i < |ids|
      invariant 0 <= i <= |ids|
      invariant "" !in ids[..i]
      invariant unique == WithoutRepeats(ids[..i])
    {
      assert ids[..i + 1][..i] == ids[..i];
      if ids[i] == "" {
        return None;
      }
      if !(unique != [] && unique[|unique| - 1] == ids[i]) {
        unique := unique + [ids[i]];
      }
      i := i + 1;
    }
    assert ids[..i] == ids;
    WithoutRepeatsSet(ids);
    UniqueIsIncreasing(granted);
    return Some(unique);
  }

  // ----- Freedom from deadlock

  predicate Acquiring(pc: Pc)
  {
    pc.WantIndex? || pc.InLookup? || pc.InCount? || pc.InUnlock? || pc.WantGate?
  }

  function Wanted(pc: Pc): Key
    requires Acquiring(pc)
  {
    if pc.WantIndex? || pc.InLookup? then pc.key else pc.ref.key
  }

  /** A request above everything the thread already holds. */
  ghost predicate Disciplined(s: State, t: ThreadId, a: Action)
  {
    a.Request? && t in s.threads ==> forall g :: g in s.threads[t].held ==> KeyLess(s.threads[t].held[g], a.key)
  }

  ghost predicate OrderInv(s: State)
  {
    forall t, g :: t in s.threads && Acquiring(s.threads[t].pc) && g in s.threads[t].held ==>
      KeyLess(s.threads[t].held[g], Wanted(s.threads[t].pc))
  }

  lemma {:induction false} OrderStep(s: State, t: ThreadId, a: Action)
    requires OrderInv(s) && Enabled(s, t, a) && Disciplined(s, t, a)
    requires MuInv(s) && RefInv(s)
    ensures OrderInv(Apply(s, t, a))
  {
    var s' := Apply(s, t, a);
    forall u, g | u in s'.threads && Acquiring(s'.threads[u].pc) && g in s'.threads[u].held
      ensures KeyLess(s'.threads[u].held[g], Wanted(s'.threads[u].pc))
    {
      if u == t {
        assert s'.threads[t].held == s.threads[t].held;
        assert a.Request? || (Acquiring(s.threads[t].pc) && Wanted(s.threads[t].pc) == Wanted(s'.threads[t].pc));
      } else {
        assert s'.threads[u] == s.threads[u];
      }
    }
  }

  /** Of finitely many waiting threads, one wants a key that none of the others exceeds. */
  lemma {:induction false} Topmost(s: State, waiting: set<ThreadId>) returns (m: ThreadId)
    requires waiting != {} && forall t :: t in waiting ==> t in s.threads && s.threads[t].pc.WantGate?
    ensures m in waiting
    ensures forall t :: t in waiting ==> !KeyLess(s.threads[m].pc.ref.key, s.threads[t].pc.ref.key)
  {
    var x :| x in waiting;
    var kx := s.threads[x].pc.ref.key;
    KeyLessStrict(kx, kx, kx);
    if waiting == {x} {
      return x;
    }
    var rest := waiting - {x};
    assert waiting == rest + {x};
    m := Topmost(s, rest);
    var km := s.threads[m].pc.ref.key;
    if KeyLess(km, kx) {
      forall t | t in rest ensures !KeyLess(kx, s.threads[t].pc.ref.key) {
        KeyLessStrict(km, kx, s.threads[t].pc.ref.key);
      }
      m := x;
    }
  }

  lemma {:induction false} FreshGate(gates: set<GateId>) returns (g: GateId)
    ensures forall x :: x in gates ==> x < g
  {
    if gates == {} {
      return 0;
    }
    var x :| x in gates;
    var rest := gates - {x};
    var h := FreshGate(rest);
    g := if x < h then h else x + 1;
    forall y | y in gates ensures y < g {
      assert y == x || y in rest;
    }
  }

  /** Inside the global mutex there is nothing to wait for. */
  lemma {:induction false} SectionCanStep(s: State, t: ThreadId) returns (a: Action)
    requires Inv(s) && t in s.threads && InSection(s.threads[t].pc)
    ensures Enabled(s, t, a) && !a.Request?
  {
    assert ThreadRefs(s, s.threads[t]);
    match s.threads[t].pc
    case InLookup(_) =>
      var g := FreshGate(s.gates.Keys);
      a := LookUp(g);
    case InCount(_) => a := Count;
    case InUnlock(_) => a := LeaveIndex;
    case InDecrement(_) => a := Decrement;
    case InDelete(_) => a := Delete;
    case InGateUnlock(_) => a := UnlockGate;
    case InReleaseUnlock => a := LeaveRelease;
  }

  lemma {:induction false} BlockedOnlyByGates(s: State, t: ThreadId)
    requires Inv(s) && t in s.threads && !AtRest(s.threads[t])
    requires !exists a :: Enabled(s, t, a) && !a.Request?
    ensures s.threads[t].pc.WantGate? || s.mu.Some?
  {
    var th := s.threads[t];
    if s.mu.None? {
      assert !InSection(th.pc);
      if th.pc.Running? {
        var g :| g in th.held;
        assert Enabled(s, t, Release(Ref(th.held[g], g)));
      } else if th.pc.WantIndex? {
        assert Enabled(s, t, EnterIndex);
      } else if th.pc.WantRelease? {
        assert Enabled(s, t, EnterRelease);
      }
    }
  }

  /** The topmost waiting thread can lock its gate, or the gate's owner can step. */
  lemma {:induction false} TopmostUnblocked(s: State, m: ThreadId) returns (t: ThreadId)
    requires Inv(s) && OrderInv(s) && s.mu.None?
    requires m in s.threads && s.threads[m].pc.WantGate?
    requires forall u :: u in s.threads && s.threads[u].pc.WantGate? ==> !KeyLess(s.threads[m].pc.ref.key, s.threads[u].pc.ref.key)
    ensures t in s.threads && !AtRest(s.threads[t]) && exists a :: Enabled(s, t, a) && !a.Request?
  {
    var ref := s.threads[m].pc.ref;
    assert ThreadRefs(s, s.threads[m]);
    if s.gates[ref.gate].holder.None? {
      assert Enabled(s, m, LockGate);
      return m;
    }
    t := s.gates[ref.gate].holder.value;
    assert ref.gate in s.threads[t].held;
    if !exists a :: Enabled(s, t, a) && !a.Request? {
      BlockedOnlyByGates(s, t);
      HeldIndexed(s, t, ref.gate);
      assert s.threads[t].held[ref.gate] == ref.key;
      assert Acquiring(s.threads[t].pc);
      assert false;
    }
  }

  lemma {:induction false} NoStuckState(s: State)
    requires Inv(s) && OrderInv(s)
    requires exists t :: t in s.threads && !AtRest(s.threads[t])
    ensures exists t, a :: t in s.threads && !AtRest(s.threads[t]) && Enabled(s, t, a) && !a.Request?
  {
    if s.mu.Some? {
      var t := s.mu.value;
      assert s.mu == Some(t);
      var a := SectionCanStep(s, t);
      assert Enabled(s, t, a) && !AtRest(s.threads[t]);
    } else {
      var t0 :| t0 in s.threads && !AtRest(s.threads[t0]);
      if exists a :: Enabled(s, t0, a) && !a.Request? {
      } else {
        BlockedOnlyByGates(s, t0);
        var waiting := set t | t in s.threads && s.threads[t].pc.WantGate?;
        assert t0 in waiting;
        var m := Topmost(s, waiting);
        var t := TopmostUnblocked(s, m);
      }
    }
  }

  // ----- Operations: threads that follow a plan

  /** A thread's operation, how many gates of its plan it has requested, and whether it has begun to release them. */
  datatype Execution = Execution(op: Operation, next: nat, leaving: bool)

  /** The gates, and the operations that threads are executing; a thread without one uses no gate. */
  datatype Machine = Machine(gates: State, ops: map<ThreadId, Execution>)

  datatype Event =
    | Start(t: ThreadId, op: Operation)
    | GateStep(t: ThreadId, a: Action)
    | Done(t: ThreadId)

  /** An operation requests the gates of its plan one after the other, and none once it has begun to release. */
  predicate Follows(ops: map<ThreadId, Execution>, t: ThreadId, a: Action)
  {
    && t in ops
    && (a.Request? ==> !ops[t].leaving && ops[t].next < |Plan(ops[t].op)| && a.key == Plan(ops[t].op)[ops[t].next])
  }

  function Advanced(ops: map<ThreadId, Execution>, t: ThreadId, a: Action): map<ThreadId, Execution>
    requires t in ops
  {
    if a.Request? then ops[t := ops[t].(next := ops[t].next + 1)]
    else if a.Release? then ops[t := ops[t].(leaving := true)]
    else ops
  }

  ghost predicate Step(x: Machine, e: Event, y: Machine)
  {
    match e
    case Start(t, op) => t in x.gates.threads && t !in x.ops && y == x.(ops := x.ops[t := Execution(op, 0, false)])
    case GateStep(t, a) =>
      Enabled(x.gates, t, a) && Follows(x.ops, t, a) && y == Machine(Apply(x.gates, t, a), Advanced(x.ops, t, a))
    case Done(t) => t in x.ops && t in x.gates.threads && AtRest(x.gates.threads[t]) && y == x.(ops := x.ops - {t})
  }

  /** The first `n` gates of a plan. */
  function Gates(plan: seq<Key>, n: nat): set<Key>
    requires n <= |plan|
  {
    set k | k in plan[..n]
  }

  /** What a thread holds and wants is what its plan says, after `next` requests. */
  ghost predicate OnPlan(th: Thread, plan: seq<Key>, next: nat, leaving: bool)
  {
    && next <= |plan|
    && (leaving ==> !Acquiring(th.pc) && th.held.Values <= Gates(plan, next))
    && (!leaving && Acquiring(th.pc) ==>
          next >= 1 && Wanted(th.pc) == plan[next - 1] && th.held.Values == Gates(plan, next - 1))
    && (!leaving && !Acquiring(th.pc) ==> th.pc.Running? && th.held.Values == Gates(plan, next))
  }

  ghost predicate Executes(th: Thread, ex: Execution)
  {
    OnPlan(th, Plan(ex.op), ex.next, ex.leaving)
  }

  ghost predicate PlanInv(x: Machine)
  {
    && (forall t :: t in x.ops ==> t in x.gates.threads && Executes(x.gates.threads[t], x.ops[t]))
    && (forall t :: t in x.gates.threads && t !in x.ops ==> AtRest(x.gates.threads[t]))
  }

  lemma {:induction false} GatesBelow(plan: seq<Key>, n: nat, k: Key)
    requires n < |plan| && Increasing(plan) && k in Gates(plan, n)
    ensures KeyLess(k, plan[n])
  {
    var i :| 0 <= i < n && plan[..n][i] == k;
    assert plan[i] == k;
  }

  lemma {:induction false} GatesNext(plan: seq<Key>, n: nat)
    requires n < |plan|
    ensures Gates(plan, n + 1) == Gates(plan, n) + {plan[n]}
  {
    assert plan[..n + 1] == plan[..n] + [plan[n]];
  }

  /** A request, made while holding exactly the gates before it in the plan, is above all of them. */
  lemma {:induction false} PlannedIsDisciplined(s: State, ops: map<ThreadId, Execution>, t: ThreadId, a: Action)
    requires Enabled(s, t, a) && Follows(ops, t, a) && Executes(s.threads[t], ops[t])
    ensures Disciplined(s, t, a)
  {
    if a.Request? {
      var plan, th := Plan(ops[t].op), s.threads[t];
      PlansIncrease(ops[t].op);
      forall g | g in th.held ensures KeyLess(th.held[g], a.key) {
        assert th.held[g] in th.held.Values;
        GatesBelow(plan, ops[t].next, th.held[g]);
      }
    }
  }

  lemma {:induction false} PlanLock(th: Thread, plan: seq<Key>, next: nat, g: GateId)
    requires OnPlan(th, plan, next, false) && th.pc.WantGate? && g !in th.held
    ensures OnPlan(Thread(Running, th.held[g := th.pc.ref.key]), plan, next, false)
  {
    GatesNext(plan, next - 1);
    var held := th.held[g := th.pc.ref.key];
    assert held.Values == th.held.Values + {th.pc.ref.key} by {
      forall h | h in th.held ensures th.held[h] in held.Values { assert held[h] == th.held[h]; }
      assert held[g] == th.pc.ref.key;
    }
  }

  lemma {:induction false} PlanUnlock(th: Thread, plan: seq<Key>, next: nat, leaving: bool, g: GateId)
    requires OnPlan(th, plan, next, leaving) && th.pc.InGateUnlock?
    ensures OnPlan(Thread(InReleaseUnlock, th.held - {g}), plan, next, leaving)
  {
    assert leaving;
    assert (th.held - {g}).Values <= th.held.Values;
  }

  /** The program counter moves within one acquisition or one release. */
  lemma {:induction false} PlanMove(th: Thread, plan: seq<Key>, next: nat, leaving: bool, pc: Pc)
    requires OnPlan(th, plan, next, leaving)
    requires Acquiring(th.pc) == Acquiring(pc) && (Acquiring(pc) ==> Wanted(pc) == Wanted(th.pc))
    requires th.pc.Running? ==> pc.Running?
    ensures OnPlan(th.(pc := pc), plan, next, leaving)
  {
  }

  lemma {:induction false} PlanRequest(th: Thread, plan: seq<Key>, next: nat)
    requires OnPlan(th, plan, next, false) && th.pc.Running? && next < |plan|
    ensures OnPlan(th.(pc := WantIndex(plan[next])), plan, next + 1, false)
  {
  }

  lemma {:induction false} PlanRelease(th: Thread, plan: seq<Key>, next: nat, leaving: bool, ref: Ref)
    requires OnPlan(th, plan, next, leaving) && th.pc.Running?
    ensures OnPlan(th.(pc := WantRelease(ref)), plan, next, true)
  {
  }

  lemma {:induction false} OwnPlan(s: State, ops: map<ThreadId, Execution>, t: ThreadId, a: Action)
    requires Enabled(s, t, a) && Follows(ops, t, a) && HolderInv(s) && Executes(s.threads[t], ops[t])
    ensures Executes(Apply(s, t, a).threads[t], Advanced(ops, t, a)[t])
  {
    var th, th', ex := s.threads[t], Apply(s, t, a).threads[t], ops[t];
    var plan := Plan(ex.op);
    match a
    case Request(key) => PlanRequest(th, plan, ex.next);
    case Release(ref) => PlanRelease(th, plan, ex.next, ex.leaving, ref);
    case LockGate =>
      assert th.pc.ref.gate !in th.held;
      PlanLock(th, plan, ex.next, th.pc.ref.gate);
    case UnlockGate => PlanUnlock(th, plan, ex.next, ex.leaving, th.pc.ref.gate);
    case _ =>
      assert th' == th.(pc := th'.pc);
      PlanMove(th, plan, ex.next, ex.leaving, th'.pc);
  }

  ghost predicate MachineInv(x: Machine)
  {
    Inv(x.gates) && OrderInv(x.gates) && PlanInv(x)
  }

  lemma {:induction false} OneThreadMoves(s: State, t: ThreadId, a: Action)
    requires Enabled(s, t, a)
    ensures Apply(s, t, a).threads == s.threads[t := Apply(s, t, a).threads[t]]
  {
  }

  lemma {:induction false} OthersOnPlan(x: Machine, t: ThreadId, y: Machine)
    requires PlanInv(x) && t in x.ops && t in y.gates.threads && t in y.ops
    requires y.gates.threads == x.gates.threads[t := y.gates.threads[t]] && y.ops == x.ops[t := y.ops[t]]
    requires Executes(y.gates.threads[t], y.ops[t])
    ensures PlanInv(y)
  {
  }

  lemma {:induction false} GateKeepsPlans(x: Machine, t: ThreadId, a: Action, y: Machine)
    requires HolderInv(x.gates) && PlanInv(x) && Step(x, GateStep(t, a), y)
    ensures PlanInv(y)
  {
    OwnPlan(x.gates, x.ops, t, a);
    OneThreadMoves(x.gates, t, a);
    assert y.ops == x.ops[t := y.ops[t]];
    OthersOnPlan(x, t, y);
  }

  lemma {:induction false} MachineStep(x: Machine, e: Event, y: Machine)
    requires MachineInv(x) && Step(x, e, y)
    ensures MachineInv(y)
  {
    match e
    case Start(t, op) =>
      assert AtRest(x.gates.threads[t]);
      assert Executes(x.gates.threads[t], y.ops[t]);
    case GateStep(t, a) =>
      PlannedIsDisciplined(x.gates, x.ops, t, a);
      StepInv(x.gates, t, a);
      OrderStep(x.gates, t, a);
      GateKeepsPlans(x, t, a, y);
    case Done(t) =>
  }

  ghost predicate IsOperationRun(run: seq<Machine>, events: seq<Event>)
  {
    && |run| == |events| + 1
    && Init(run[0].gates) && run[0].ops == map[]
    && forall i :: 0 <= i < |events| ==> Step(run[i], events[i], run[i + 1])
  }

  lemma {:induction false} InitMachine(x: Machine)
    requires Init(x.gates) && x.ops == map[]
    ensures MachineInv(x)
  {
    InitInv(x.gates);
  }

  /** One step of a run, or none. */
  ghost predicate Steps(x: Machine, y: Machine)
  {
    exists e :: Step(x, e, y)
  }

  lemma {:induction false} StepsKeepInv(x: Machine, y: Machine)
    requires MachineInv(x) && Steps(x, y)
    ensures MachineInv(y)
  {
    var e :| Step(x, e, y);
    MachineStep(x, e, y);
  }

  /** Every state of a list of states, each a step after the one before it. */
  lemma {:induction false} ChainInv(run: seq<Machine>, i: nat)
    requires i < |run| && MachineInv(run[0]) && forall k :: 0 <= k < |run| - 1 ==> Steps(run[k], run[k + 1])
    ensures MachineInv(run[i])
  {
    if i > 0 {
      ChainInv(run, i - 1);
      assert Steps(run[i - 1], run[i - 1 + 1]);
      StepsKeepInv(run[i - 1], run[i]);
    }
  }

  lemma {:induction false} RunIsChain(run: seq<Machine>, events: seq<Event>)
    requires IsOperationRun(run, events)
    ensures forall k :: 0 <= k < |run| - 1 ==> Steps(run[k], run[k + 1])
  {
    forall k | 0 <= k < |run| - 1 ensures Steps(run[k], run[k + 1]) {
      assert Step(run[k], events[k], run[k + 1]);
    }
  }

  lemma {:induction false} MachineRunInv(run: seq<Machine>, events: seq<Event>, i: nat)
    requires IsOperationRun(run, events) && i < |run|
    ensures MachineInv(run[i])
  {
    InitMachine(run[0]);
    RunIsChain(run, events);
    ChainInv(run, i);
  }

  /** In every run of operations, a thread that asks for a gate holds exactly the gates before it in its plan. */
  lemma {:induction false} RequestsFollowPlans(run: seq<Machine>, events: seq<Event>, i: nat)
    requires IsOperationRun(run, events) && i < |events| && events[i].GateStep? && events[i].a.Request?
    ensures var t := events[i].t;
            && t in run[i].ops && t in run[i].gates.threads
            && var plan, n := Plan(run[i].ops[t].op), run[i].ops[t].next;
               n < |plan| && events[i].a.key == plan[n] && run[i].gates.threads[t].held.Values == Gates(plan, n)
  {
    MachineRunInv(run, events, i);
    assert Step(run[i], events[i], run[i + 1]);
    assert Executes(run[i].gates.threads[events[i].t], run[i].ops[events[i].t]);
  }

  /** A step of an operation that has begun, other than a new request. */
  predicate Progresses(e: Event)
  {
    e.Done? || (e.GateStep? && !e.a.Request?)
  }

  /**
    In every reachable state of any number of concurrent operations, as long as one is
    unfinished, some operation has a step that is not a new request: no cycle of
    waiting ever arises.
   */
  lemma {:induction false} DeadlockFreedom(run: seq<Machine>, events: seq<Event>, i: nat)
    requires IsOperationRun(run, events) && i < |run| && run[i].ops != map[]
    ensures exists e, y :: Step(run[i], e, y) && Progresses(e)
  {
    MachineRunInv(run, events, i);
    SomeoneCanStep(run[i]);
  }

  lemma {:induction false} SomeoneCanStep(x: Machine)
    requires MachineInv(x) && x.ops != map[]
    ensures exists e, y :: Step(x, e, y) && Progresses(e)
  {
    if t :| t in x.gates.threads && !AtRest(x.gates.threads[t]) {
      NoStuckState(x.gates);
      var u, a :| u in x.gates.threads && !AtRest(x.gates.threads[u]) && Enabled(x.gates, u, a) && !a.Request?;
      assert Step(x, GateStep(u, a), Machine(Apply(x.gates, u, a), Advanced(x.ops, u, a)));
    } else {
      var t :| t in x.ops;
      assert Step(x, Done(t), x.(ops := x.ops - {t}));
    }
  }

  // ----- Every operation ends

  /** How many statements of the current acquisition or release are left. */
  function StatementsLeft(pc: Pc): nat
  {
    match pc
    case Running => 0
    case WantIndex(_) => 5
    case InLookup(_) => 4
    case InCount(_) => 3
    case InUnlock(_) => 2
    case WantGate(_) => 1
    case WantRelease(_) => 5
    case InDecrement(_) => 4
    case InDelete(_) => 3
    case InGateUnlock(_) => 2
    case InReleaseUnlock => 1
  }

  /** The gate that is being released is still among the held ones. */
  predicate Releasing(pc: Pc)
  {
    pc.WantRelease? || pc.InDecrement? || pc.InDelete? || pc.InGateUnlock?
  }

  /**
    What an operation has left to do: six statements for every gate it may still
    request and six to release it, six to release every gate it holds, and to finish.
   */
  function Work(th: Thread, plan: seq<Key>, next: nat, leaving: bool): int
  {
    1 + (if leaving then 0 else 12 * (|plan| - next))
    + StatementsLeft(th.pc) + (if Acquiring(th.pc) then 6 else 0)
    + 6 * (|th.held| - if Releasing(th.pc) then 1 else 0)
  }

  lemma {:induction false} HeldSize(held: map<GateId, Key>, g: GateId, k: Key)
    ensures g !in held ==> |held[g := k]| == |held| + 1
    ensures g in held ==> |held - {g}| == |held| - 1
  {
    assert held[g := k].Keys == held.Keys + {g} && (held - {g}).Keys == held.Keys - {g};
    assert |held[g := k].Keys| == |held[g := k]| && |(held - {g}).Keys| == |held - {g}| && |held.Keys| == |held|;
  }

  lemma {:induction false} WorkIsPositive(s: State, th: Thread, plan: seq<Key>, next: nat, leaving: bool)
    requires OnPlan(th, plan, next, leaving) && PcInv(s, th)
    ensures Work(th, plan, next, leaving) >= 1
  {
    if Releasing(th.pc) {
      HeldSize(th.held, th.pc.ref.gate, th.pc.ref.key);
      assert th.held - {th.pc.ref.gate} == th.held - {th.pc.ref.gate} && |th.held - {th.pc.ref.gate}| >= 0;
    }
  }

  lemma {:induction false} WorkMove(th: Thread, plan: seq<Key>, next: nat, leaving: bool, pc: Pc)
    requires StatementsLeft(pc) < StatementsLeft(th.pc) && Acquiring(pc) == Acquiring(th.pc) && Releasing(pc) == Releasing(th.pc)
    ensures Work(th.(pc := pc), plan, next, leaving) < Work(th, plan, next, leaving)
  {
  }

  lemma {:induction false} WorkRequest(th: Thread, plan: seq<Key>, next: nat, key: Key)
    requires th.pc.Running?
    ensures Work(th.(pc := WantIndex(key)), plan, next + 1, false) < Work(th, plan, next, false)
  {
  }

  lemma {:induction false} WorkRelease(th: Thread, plan: seq<Key>, next: nat, leaving: bool, ref: Ref)
    requires th.pc.Running? && next <= |plan|
    ensures Work(th.(pc := WantRelease(ref)), plan, next, true) < Work(th, plan, next, leaving)
  {
  }

  lemma {:induction false} WorkLock(th: Thread, plan: seq<Key>, next: nat, leaving: bool, g: GateId, k: Key)
    requires th.pc.WantGate? && g !in th.held
    ensures Work(Thread(Running, th.held[g := k]), plan, next, leaving) < Work(th, plan, next, leaving)
  {
    HeldSize(th.held, g, k);
  }

  lemma {:induction false} WorkUnlock(th: Thread, plan: seq<Key>, next: nat, leaving: bool, g: GateId)
    requires th.pc.InGateUnlock? && g in th.held
    ensures Work(Thread(InReleaseUnlock, th.held - {g}), plan, next, leaving) < Work(th, plan, next, leaving)
  {
    HeldSize(th.held, g, th.held[g]);
  }

  /** Every other statement only moves the program counter on. */
  lemma {:induction false} MovesOn(s: State, t: ThreadId, a: Action)
    requires Enabled(s, t, a) && !a.Request? && !a.Release? && !a.LockGate? && !a.UnlockGate?
    ensures var th, th' := s.threads[t], Apply(s, t, a).threads[t];
            && th' == th.(pc := th'.pc) && StatementsLeft(th'.pc) < StatementsLeft(th.pc)
            && Acquiring(th'.pc) == Acquiring(th.pc) && Releasing(th'.pc) == Releasing(th.pc)
  {
  }

  lemma {:induction false} OwnWork(s: State, t: ThreadId, a: Action, plan: seq<Key>, next: nat, leaving: bool)
    requires Enabled(s, t, a) && PcInv(s, s.threads[t]) && next <= |plan| && (a.Request? ==> !leaving)
    requires a.LockGate? ==> s.threads[t].pc.ref.gate !in s.threads[t].held
    ensures Work(Apply(s, t, a).threads[t], plan, if a.Request? then next + 1 else next, leaving || a.Release?)
          < Work(s.threads[t], plan, next, leaving)
  {
    var th, th' := s.threads[t], Apply(s, t, a).threads[t];
    if a.Request? {
      WorkRequest(th, plan, next, a.key);
    } else if a.Release? {
      WorkRelease(th, plan, next, leaving, a.ref);
    } else if a.LockGate? {
      WorkLock(th, plan, next, leaving, th.pc.ref.gate, th.pc.ref.key);
    } else if a.UnlockGate? {
      WorkUnlock(th, plan, next, leaving, th.pc.ref.gate);
    } else {
      MovesOn(s, t, a);
      WorkMove(th, plan, next, leaving, th'.pc);
    }
  }

  function WorkOf(th: Thread, ex: Execution): int
  {
    Work(th, Plan(ex.op), ex.next, ex.leaving)
  }

  /** A thread's work, none if it executes nothing. */
  function ThreadWork(x: Machine): ThreadId -> int
  {
    (t: ThreadId) => if t in x.ops && t in x.gates.threads then WorkOf(x.gates.threads[t], x.ops[t]) else 0
  }

  function Sum(f: ThreadId -> int, ts: seq<ThreadId>): int
  {
    if ts == [] then 0 else f(ts[0]) + Sum(f, ts[1..])
  }

  ghost predicate Lists(ts: seq<ThreadId>, threads: set<ThreadId>)
  {
    && (forall i, j :: 0 <= i < j < |ts| ==> ts[i] != ts[j])
    && (forall t :: t in threads ==> t in ts)
  }

  lemma {:induction false} SumSame(f: ThreadId -> int, g: ThreadId -> int, ts: seq<ThreadId>)
    requires forall t :: t in ts ==> f(t) == g(t)
    ensures Sum(f, ts) == Sum(g, ts)
  {
    if ts != [] {
      assert ts[0] in ts;
      SumSame(f, g, ts[1..]);
    }
  }

  lemma {:induction false} SumLess(f: ThreadId -> int, g: ThreadId -> int, ts: seq<ThreadId>, t: ThreadId)
    requires (forall i, j :: 0 <= i < j < |ts| ==> ts[i] != ts[j]) && t in ts
    requires g(t) < f(t) && forall u :: u != t ==> g(u) == f(u)
    ensures Sum(g, ts) < Sum(f, ts)
  {
    if ts[0] == t {
      SumSame(f, g, ts[1..]);
    } else {
      SumLess(f, g, ts[1..], t);
    }
  }

  lemma {:induction false} SumNatural(f: ThreadId -> int, ts: seq<ThreadId>)
    requires forall t :: 0 <= f(t)
    ensures 0 <= Sum(f, ts)
  {
    if ts != [] {
      SumNatural(f, ts[1..]);
    }
  }

  lemma {:induction false} ListOf(threads: set<ThreadId>) returns (ts: seq<ThreadId>)
    ensures Lists(ts, threads) && forall t :: t in ts <==> t in threads
  {
    if threads == {} {
      return [];
    }
    var t :| t in threads;
    var rest := ListOf(threads - {t});
    ts := [t] + rest;
    assert t !in rest;
  }

  lemma {:induction false} WorkIsNatural(x: Machine, t: ThreadId)
    requires MachineInv(x)
    ensures 0 <= ThreadWork(x)(t)
    ensures t in x.ops ==> 1 <= ThreadWork(x)(t)
  {
    if t in x.ops {
      OwnFacts(x, t);
      WorkIsPositive(x.gates, x.gates.threads[t], Plan(x.ops[t].op), x.ops[t].next, x.ops[t].leaving);
    }
  }

  lemma {:induction false} GateWork(x: Machine, t: ThreadId, a: Action, y: Machine)
    requires Step(x, GateStep(t, a), y) && Executes(x.gates.threads[t], x.ops[t]) && PcInv(x.gates, x.gates.threads[t])
    requires a.LockGate? ==> x.gates.threads[t].pc.ref.gate !in x.gates.threads[t].held
    ensures y.ops == x.ops[t := y.ops[t]] && y.gates.threads == x.gates.threads[t := y.gates.threads[t]]
    ensures WorkOf(y.gates.threads[t], y.ops[t]) < WorkOf(x.gates.threads[t], x.ops[t])
  {
    var ex := x.ops[t];
    OwnWork(x.gates, t, a, Plan(ex.op), ex.next, ex.leaving);
    OneThreadMoves(x.gates, t, a);
  }

  lemma {:induction false} OthersWork(x: Machine, t: ThreadId, y: Machine)
    requires t in y.ops && t in y.gates.threads
    requires y.ops == x.ops[t := y.ops[t]] && y.gates.threads == x.gates.threads[t := y.gates.threads[t]]
    ensures forall u :: u != t ==> ThreadWork(y)(u) == ThreadWork(x)(u)
  {
  }

  lemma {:induction false} LockedIsNew(s: State, t: ThreadId, a: Action)
    requires HolderInv(s) && Enabled(s, t, a) && a.LockGate?
    ensures s.threads[t].pc.ref.gate !in s.threads[t].held
  {
  }

  lemma {:induction false} GateStepWork(x: Machine, t: ThreadId, a: Action, y: Machine)
    requires Step(x, GateStep(t, a), y) && t in x.ops && HolderInv(x.gates)
    requires Executes(x.gates.threads[t], x.ops[t]) && PcInv(x.gates, x.gates.threads[t])
    ensures y.ops.Keys <= x.ops.Keys && ThreadWork(y)(t) < ThreadWork(x)(t)
    ensures forall u :: u != t ==> ThreadWork(y)(u) == ThreadWork(x)(u)
  {
    if a.LockGate? {
      LockedIsNew(x.gates, t, a);
    }
    GateWork(x, t, a, y);
    OthersWork(x, t, y);
  }

  lemma {:induction false} DoneWork(x: Machine, t: ThreadId, y: Machine)
    requires Step(x, Done(t), y) && 1 <= ThreadWork(x)(t)
    ensures y.ops.Keys <= x.ops.Keys && ThreadWork(y)(t) < ThreadWork(x)(t)
    ensures forall u :: u != t ==> ThreadWork(y)(u) == ThreadWork(x)(u)
  {
  }

  /** The work of the thread that moves gets less, and nobody else's changes. */
  lemma {:induction false} WorkStep(x: Machine, e: Event, y: Machine)
    requires MachineInv(x) && Step(x, e, y) && !e.Start?
    ensures y.ops.Keys <= x.ops.Keys && e.t in x.ops
    ensures ThreadWork(y)(e.t) < ThreadWork(x)(e.t)
    ensures forall u :: u != e.t ==> ThreadWork(y)(u) == ThreadWork(x)(u)
  {
    OwnFacts(x, e.t);
    if e.GateStep? {
      GateStepWork(x, e.t, e.a, y);
    } else {
      WorkIsNatural(x, e.t);
      DoneWork(x, e.t, y);
    }
  }

  lemma {:induction false} OwnFacts(x: Machine, t: ThreadId)
    requires MachineInv(x) && t in x.ops
    ensures t in x.gates.threads && Executes(x.gates.threads[t], x.ops[t]) && PcInv(x.gates, x.gates.threads[t])
    ensures HolderInv(x.gates)
  {
    assert ThreadRefs(x.gates, x.gates.threads[t]);
  }

  /** Some begun operation makes a step. */
  ghost predicate StepsOn(x: Machine, y: Machine)
  {
    exists e :: Step(x, e, y) && !e.Start?
  }

  lemma {:induction false} OneStepLess(x: Machine, y: Machine, ts: seq<ThreadId>)
    requires MachineInv(x) && StepsOn(x, y) && Lists(ts, x.ops.Keys)
    ensures MachineInv(y) && y.ops.Keys <= x.ops.Keys && Sum(ThreadWork(y), ts) < Sum(ThreadWork(x), ts)
  {
    var e :| Step(x, e, y) && !e.Start?;
    MachineStep(x, e, y);
    WorkStep(x, e, y);
    SumLess(ThreadWork(x), ThreadWork(y), ts, e.t);
  }

  lemma {:induction false} ChainRunsOut(run: seq<Machine>, ts: seq<ThreadId>, i: nat)
    requires i < |run| && MachineInv(run[0]) && Lists(ts, run[0].ops.Keys)
    requires forall k :: 0 <= k < |run| - 1 ==> StepsOn(run[k], run[k + 1])
    ensures MachineInv(run[i]) && run[i].ops.Keys <= run[0].ops.Keys
    ensures i + Sum(ThreadWork(run[i]), ts) <= Sum(ThreadWork(run[0]), ts)
  {
    if i > 0 {
      ChainRunsOut(run, ts, i - 1);
      assert StepsOn(run[i - 1], run[i - 1 + 1]);
      OneStepLess(run[i - 1], run[i], ts);
    }
  }

  /** Steps of begun operations only, from `x` on. */
  ghost predicate Goes(x: Machine, run: seq<Machine>, events: seq<Event>)
  {
    && |run| == |events| + 1 && run[0] == x
    && forall i :: 0 <= i < |events| ==> Step(run[i], events[i], run[i + 1]) && !events[i].Start?
  }

  lemma {:induction false} WorkRunsOut(x: Machine, run: seq<Machine>, events: seq<Event>, ts: seq<ThreadId>)
    requires MachineInv(x) && Goes(x, run, events) && Lists(ts, x.ops.Keys)
    ensures MachineInv(run[|events|]) && |events| <= Sum(ThreadWork(x), ts)
  {
    forall k | 0 <= k < |run| - 1 ensures StepsOn(run[k], run[k + 1]) {
      assert Step(run[k], events[k], run[k + 1]) && !events[k].Start?;
    }
    ChainRunsOut(run, ts, |events|);
    WorkSumIsNatural(run[|events|], ts);
  }

  lemma {:induction false} WorkSumIsNatural(x: Machine, ts: seq<ThreadId>)
    requires MachineInv(x)
    ensures 0 <= Sum(ThreadWork(x), ts)
  {
    forall t ensures 0 <= ThreadWork(x)(t) { WorkIsNatural(x, t); }
    SumNatural(ThreadWork(x), ts);
  }

  /** No begun operation can make a step. */
  ghost predicate Halted(x: Machine)
  {
    forall e, y :: Step(x, e, y) ==> e.Start?
  }

  lemma {:induction false} HaltedIsDone(x: Machine)
    requires MachineInv(x) && Halted(x)
    ensures x.ops == map[]
  {
    if x.ops != map[] {
      SomeoneCanStep(x);
    }
  }

  /**
    From every reachable state there is a bound on how many steps the begun operations
    can make, in whatever order, and when they can make none, all of them have ended:
    no operation waits for ever and none goes on for ever.
   */
  lemma {:induction false} OperationsEnd(run: seq<Machine>, events: seq<Event>, i: nat) returns (bound: nat)
    requires IsOperationRun(run, events) && i < |run|
    ensures forall more: seq<Machine>, steps: seq<Event> :: Goes(run[i], more, steps) ==> |steps| <= bound
    ensures forall more: seq<Machine>, steps: seq<Event> :: Goes(run[i], more, steps) && Halted(more[|steps|]) ==> more[|steps|].ops == map[]
  {
    MachineRunInv(run, events, i);
    var x := run[i];
    var ts := ListOf(x.ops.Keys);
    WorkSumIsNatural(x, ts);
    bound := Sum(ThreadWork(x), ts);
    forall more: seq<Machine>, steps: seq<Event> | Goes(x, more, steps)
      ensures |steps| <= bound && (Halted(more[|steps|]) ==> more[|steps|].ops == map[])
    {
      WorkRunsOut(x, more, steps, ts);
      if Halted(more[|steps|]) {
        HaltedIsDone(more[|steps|]);
      }
    }
  }
}
