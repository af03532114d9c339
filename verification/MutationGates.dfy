/**
  Keyed, reference-counted mutexes.

  Every statement of acquireIndexedMutation and of the release closure that it
  returns is one step of one thread, so the scheduler may switch between any two
  statements.  The three gate indexes share one global mutex, `mu`; gates are heap
  objects that come and go, so the model gives each a fresh identity.

  Any number of threads take part and a thread may hold any number of gates.
 */
module MutationGates {
  import opened Common

  type ThreadId = nat
  type GateId = nat

  /** The three indexes, in the order in which callers nest them. */
  datatype Space = Secrets | Workspaces | Terminals

  datatype Key = Key(space: Space, name: string)

  /** A mutationGate: its count and the owner of its embedded mutex. */
  datatype Gate = Gate(refs: int, holder: Option<ThreadId>)

  /** What the release closure captures. */
  datatype Ref = Ref(key: Key, gate: GateId)

  /** The next statement of a thread. */
  datatype Pc =
    | Running                       // outside acquire and release
    | WantIndex(key: Key)           // a.mutationMu.Lock() of acquire
    | InLookup(key: Key)            // find or create the gate
    | InCount(ref: Ref)             // gate.refs++
    | InUnlock(ref: Ref)            // a.mutationMu.Unlock() of acquire
    | WantGate(ref: Ref)            // gate.mu.Lock()
    | WantRelease(ref: Ref)         // a.mutationMu.Lock() of release
    | InDecrement(ref: Ref)         // gate.refs--
    | InDelete(ref: Ref)            // conditional delete from the index
    | InGateUnlock(ref: Ref)        // gate.mu.Unlock()
    | InReleaseUnlock               // a.mutationMu.Unlock() of release

  /** `held` maps each gate whose mutex the thread owns to the key it was acquired under. */
  datatype Thread = Thread(pc: Pc, held: map<GateId, Key>)

  datatype State = State(
    mu: Option<ThreadId>,
    index: map<Key, GateId>,
    gates: map<GateId, Gate>,
    threads: map<ThreadId, Thread>)

  datatype Action =
    | Request(key: Key)
    | EnterIndex
    | LookUp(created: GateId)
    | Count
    | LeaveIndex
    | LockGate
    | Release(ref: Ref)
    | EnterRelease
    | Decrement
    | Delete
    | UnlockGate
    | LeaveRelease

  // ----- Steps

  predicate InSection(pc: Pc)
  {
    pc.InLookup? || pc.InCount? || pc.InUnlock? ||
    pc.InDecrement? || pc.InDelete? || pc.InGateUnlock? || pc.InReleaseUnlock?
  }

  predicate HoldsRef(th: Thread, ref: Ref)
  {
    ref.gate in th.held && th.held[ref.gate] == ref.key
  }

  predicate Enabled(s: State, t: ThreadId, a: Action)
  {
    && t in s.threads
    && var th := s.threads[t];
       match a
       case Request(_) => th.pc.Running?
       case EnterIndex => th.pc.WantIndex? && s.mu.None?
       case LookUp(created) => th.pc.InLookup? && created !in s.gates
       case Count => th.pc.InCount? && th.pc.ref.gate in s.gates
       case LeaveIndex => th.pc.InUnlock?
       case LockGate => th.pc.WantGate? && th.pc.ref.gate in s.gates && s.gates[th.pc.ref.gate].holder.None?
       case Release(ref) => th.pc.Running? && HoldsRef(th, ref)
       case EnterRelease => th.pc.WantRelease? && s.mu.None?
       case Decrement => th.pc.InDecrement? && th.pc.ref.gate in s.gates
       case Delete => th.pc.InDelete? && th.pc.ref.gate in s.gates
       case UnlockGate => th.pc.InGateUnlock? && th.pc.ref.gate in s.gates
       case LeaveRelease => th.pc.InReleaseUnlock?
  }

  function SetThread(s: State, t: ThreadId, th: Thread): State
  {
    s.(threads := s.threads[t := th])
  }

  function Apply(s: State, t: ThreadId, a: Action): State
    requires Enabled(s, t, a)
  {
    var th := s.threads[t];
    match a
    case Request(key) => SetThread(s, t, th.(pc := WantIndex(key)))
    case EnterIndex => SetThread(s, t, th.(pc := InLookup(th.pc.key))).(mu := Some(t))
    case LookUp(created) =>
      var key := th.pc.key;
      if key in s.index then
        SetThread(s, t, th.(pc := InCount(Ref(key, s.index[key]))))
      else
        SetThread(s, t, th.(pc := InCount(Ref(key, created))))
        .(index := s.index[key := created], gates := s.gates[created := Gate(0, None)])
    case Count =>
      var g := th.pc.ref.gate;
      SetThread(s, t, th.(pc := InUnlock(th.pc.ref)))
      .(gates := s.gates[g := s.gates[g].(refs := s.gates[g].refs + 1)])
    case LeaveIndex => SetThread(s, t, th.(pc := WantGate(th.pc.ref))).(mu := None)
    case LockGate =>
      var g := th.pc.ref.gate;
      SetThread(s, t, Thread(Running, th.held[g := th.pc.ref.key]))
      .(gates := s.gates[g := s.gates[g].(holder := Some(t))])
    case Release(ref) => SetThread(s, t, th.(pc := WantRelease(ref)))
    case EnterRelease => SetThread(s, t, th.(pc := InDecrement(th.pc.ref))).(mu := Some(t))
    case Decrement =>
      var g := th.pc.ref.gate;
      SetThread(s, t, th.(pc := InDelete(th.pc.ref)))
      .(gates := s.gates[g := s.gates[g].(refs := s.gates[g].refs - 1)])
    case Delete =>
      var ref := th.pc.ref;
      var s' := SetThread(s, t, th.(pc := InGateUnlock(ref)));
      if s.gates[ref.gate].refs == 0 && ref.key in s.index && s.index[ref.key] == ref.gate
      then s'.(index := s.index - {ref.key})
      else s'
    case UnlockGate =>
      var g := th.pc.ref.gate;
      SetThread(s, t, Thread(InReleaseUnlock, th.held - {g}))
      .(gates := s.gates[g := s.gates[g].(holder := None)])
    case LeaveRelease => SetThread(s, t, th.(pc := Running)).(mu := None)
  }

  ghost predicate Next(s: State, s': State)
  {
    exists t, a :: Enabled(s, t, a) && s' == Apply(s, t, a)
  }

  /** Nothing held, nothing indexed, every thread at rest. */
  predicate Init(s: State)
  {
    && s.mu.None?
    && s.index == map[]
    && s.gates == map[]
    && forall t <- s.threads :: s.threads[t] == Thread(Running, map[])
  }

  // ----- Counting references

  /** The thread has been counted by a gate whose mutex it does not own yet. */
  predicate WaitsOn(th: Thread, g: GateId)
  {
    (th.pc.InUnlock? || th.pc.WantGate?) && th.pc.ref.gate == g
  }

  /** The thread is past its decrement of this gate. */
  predicate Uncounted(th: Thread, g: GateId)
  {
    (th.pc.InDelete? || th.pc.InGateUnlock?) && th.pc.ref.gate == g
  }

  predicate HoldsCounted(th: Thread, g: GateId)
  {
    g in th.held && !Uncounted(th, g)
  }

  function Waiters(threads: map<ThreadId, Thread>, g: GateId): set<ThreadId>
  {
    set t | t in threads && WaitsOn(threads[t], g)
  }

  function Holders(threads: map<ThreadId, Thread>, g: GateId): set<ThreadId>
  {
    set t | t in threads && HoldsCounted(threads[t], g)
  }

  /** Number of threads that wait on, or hold and have not yet given up, a gate. */
  function RefCount(threads: map<ThreadId, Thread>, g: GateId): nat
  {
    |Waiters(threads, g)| + |Holders(threads, g)|
  }

  function Weight(th: Thread, g: GateId): nat
  {
    (if WaitsOn(th, g) then 1 else 0) + (if HoldsCounted(th, g) then 1 else 0)
  }

  /** Sizes of two sets that differ at most in whether they contain one element. */
  lemma {:induction false} SizeDifference(before: set<ThreadId>, after: set<ThreadId>, t: ThreadId)
    requires before - {t} == after - {t}
    ensures |after| == |before| - (if t in before then 1 else 0) + (if t in after then 1 else 0)
  {
    assert t in before ==> |before - {t}| == |before| - 1;
    assert t !in before ==> before - {t} == before;
    assert t in after ==> |after - {t}| == |after| - 1;
    assert t !in after ==> after - {t} == after;
  }

  lemma {:induction false} RefCountUpdate(threads: map<ThreadId, Thread>, t: ThreadId, th: Thread, g: GateId)
    requires t in threads
    ensures RefCount(threads[t := th], g) == RefCount(threads, g) - Weight(threads[t], g) + Weight(th, g)
  {
    var after := threads[t := th];
    SizeDifference(Waiters(threads, g), Waiters(after, g), t);
    SizeDifference(Holders(threads, g), Holders(after, g), t);
  }

  lemma {:induction false} RefCountPositive(threads: map<ThreadId, Thread>, t: ThreadId, g: GateId)
    requires t in threads
    ensures RefCount(threads, g) >= Weight(threads[t], g)
  {
    if WaitsOn(threads[t], g) {
      assert t in Waiters(threads, g);
    }
    if HoldsCounted(threads[t], g) {
      assert t in Holders(threads, g);
    }
  }

  lemma {:induction false} RefCountWitness(threads: map<ThreadId, Thread>, g: GateId)
    requires RefCount(threads, g) > 0
    ensures exists t :: t in threads && Weight(threads[t], g) > 0
  {
    if |Waiters(threads, g)| > 0 {
      var t :| t in Waiters(threads, g);
      assert Weight(threads[t], g) > 0;
    } else {
      var t :| t in Holders(threads, g);
      assert Weight(threads[t], g) > 0;
    }
  }

  // ----- Invariant

  /** The global mutex is owned by exactly the thread inside a section of it. */
  ghost predicate MuInv(s: State)
  {
    forall t :: (t in s.threads && InSection(s.threads[t].pc)) <==> s.mu == Some(t)
  }

  /** A gate's mutex is owned by exactly the thread that holds it. */
  ghost predicate HolderInv(s: State)
  {
    && (forall t, g :: t in s.threads && g in s.threads[t].held ==> g in s.gates && s.gates[g].holder == Some(t))
    && (forall g :: g in s.gates && s.gates[g].holder.Some? ==>
          s.gates[g].holder.value in s.threads && g in s.threads[s.gates[g].holder.value].held)
  }

  ghost predicate CountInv(s: State)
  {
    forall g :: g in s.gates ==> s.gates[g].refs == RefCount(s.threads, g)
  }

  /** The index entry that a thread's reference stands for. */
  predicate Indexed(s: State, ref: Ref)
  {
    ref.key in s.index && s.index[ref.key] == ref.gate
  }

  ghost predicate IndexInv(s: State)
  {
    && (forall k :: k in s.index ==> s.index[k] in s.gates)
    && (forall k1, k2 :: k1 in s.index && k2 in s.index && s.index[k1] == s.index[k2] ==> k1 == k2)
  }

  /** Every reference that still counts names the gate that its key is indexed under. */
  ghost predicate RefInv(s: State)
  {
    forall t :: t in s.threads ==> ThreadRefs(s, s.threads[t])
  }

  ghost predicate ThreadRefs(s: State, th: Thread)
  {
    && PcInv(s, th)
    && forall g :: HoldsCounted(th, g) ==> Indexed(s, Ref(th.held[g], g))
  }

  ghost predicate PcInv(s: State, th: Thread)
  {
    match th.pc
    case Running => true
    case WantIndex(_) => true
    case InLookup(_) => true
    case InCount(ref) => Indexed(s, ref)
    case InUnlock(ref) => Indexed(s, ref)
    case WantGate(ref) => Indexed(s, ref)
    case WantRelease(ref) => HoldsRef(th, ref)
    case InDecrement(ref) => HoldsRef(th, ref)
    case InDelete(ref) => HoldsRef(th, ref) && Indexed(s, ref)
    case InGateUnlock(ref) => HoldsRef(th, ref) && (ref.key in s.index ==> s.index[ref.key] == ref.gate)
    case InReleaseUnlock => true
  }

  /** The one thread that may be between creating and counting, or between counting down and deleting. */
  predicate Settling(s: State, g: GateId)
  {
    && s.mu.Some?
    && s.mu.value in s.threads
    && var pc := s.threads[s.mu.value].pc;
       (pc.InCount? || pc.InDelete?) && pc.ref.gate == g
  }

  /** An indexed gate is referenced. */
  ghost predicate LiveInv(s: State)
  {
    forall k :: k in s.index && s.index[k] in s.gates ==> s.gates[s.index[k]].refs > 0 || Settling(s, s.index[k])
  }

  ghost predicate Inv(s: State)
  {
    MuInv(s) && HolderInv(s) && CountInv(s) && IndexInv(s) && RefInv(s) && LiveInv(s)
  }

  lemma {:induction false} InitInv(s: State)
    requires Init(s)
    ensures Inv(s)
  {
  }

  // ----- Every step keeps the invariant

  lemma {:induction false} MuStep(s: State, t: ThreadId, a: Action)
    requires MuInv(s) && Enabled(s, t, a)
    ensures MuInv(Apply(s, t, a))
  {
  }

  /** Steps other than locking and unlocking a gate keep every holder. */
  lemma {:induction false} HoldersKept(s: State, t: ThreadId, a: Action)
    requires Enabled(s, t, a) && !a.LockGate? && !a.UnlockGate?
    ensures var s' := Apply(s, t, a);
            && s'.threads.Keys == s.threads.Keys
            && (forall u :: u in s.threads ==> s'.threads[u].held == s.threads[u].held)
            && (forall g :: g in s.gates ==> g in s'.gates && s'.gates[g].holder == s.gates[g].holder)
            && (forall g :: g in s'.gates && g !in s.gates ==> s'.gates[g].holder.None?)
  {
  }

  lemma {:induction false} HolderOther(s: State, t: ThreadId, a: Action)
    requires Enabled(s, t, a) && HolderInv(s) && !a.LockGate? && !a.UnlockGate?
    ensures HolderInv(Apply(s, t, a))
  {
    HoldersKept(s, t, a);
    var s' := Apply(s, t, a);
    HoldersTransfer(s, s');
  }

  lemma {:induction false} HoldersTransfer(s: State, s': State)
    requires HolderInv(s) && s'.threads.Keys == s.threads.Keys
    requires forall u :: u in s.threads ==> s'.threads[u].held == s.threads[u].held
    requires forall g :: g in s.gates ==> g in s'.gates && s'.gates[g].holder == s.gates[g].holder
    requires forall g :: g in s'.gates && g !in s.gates ==> s'.gates[g].holder.None?
    ensures HolderInv(s')
  {
  }

  lemma {:induction false} HolderLock(s: State, t: ThreadId)
    requires Enabled(s, t, LockGate) && HolderInv(s)
    ensures HolderInv(Apply(s, t, LockGate))
  {
  }

  lemma {:induction false} HolderUnlock(s: State, t: ThreadId)
    requires Enabled(s, t, UnlockGate) && HolderInv(s) && PcInv(s, s.threads[t])
    ensures HolderInv(Apply(s, t, UnlockGate))
  {
  }

  lemma {:induction false} HolderStep(s: State, t: ThreadId, a: Action)
    requires Enabled(s, t, a) && HolderInv(s) && PcInv(s, s.threads[t])
    ensures HolderInv(Apply(s, t, a))
  {
    if a.LockGate? {
      HolderLock(s, t);
    } else if a.UnlockGate? {
      HolderUnlock(s, t);
    } else {
      HolderOther(s, t, a);
    }
  }

  /** No thread refers to a gate that does not exist. */
  lemma {:induction false} NoDanglingCount(s: State, g: GateId)
    requires HolderInv(s) && IndexInv(s) && RefInv(s) && g !in s.gates
    ensures RefCount(s.threads, g) == 0
  {
    if RefCount(s.threads, g) > 0 {
      RefCountWitness(s.threads, g);
      assert false;
    }
  }

  /** A step changes a gate's counter by exactly the change of the stepping thread's weight. */
  lemma {:induction false} CounterStep(s: State, t: ThreadId, a: Action, g: GateId)
    requires Enabled(s, t, a) && PcInv(s, s.threads[t]) && g in s.gates
    requires a.LockGate? ==> s.threads[t].pc.ref.gate !in s.threads[t].held
    ensures g in Apply(s, t, a).gates
    ensures Apply(s, t, a).gates[g].refs - s.gates[g].refs == Weight(Apply(s, t, a).threads[t], g) - Weight(s.threads[t], g)
  {
  }

  lemma {:induction false} CountStep(s: State, t: ThreadId, a: Action)
    requires Enabled(s, t, a) && HolderInv(s) && IndexInv(s) && RefInv(s) && CountInv(s)
    ensures CountInv(Apply(s, t, a))
  {
    var s' := Apply(s, t, a);
    var th' := s'.threads[t];
    assert s'.threads == s.threads[t := th'];
    forall g | g in s'.gates ensures s'.gates[g].refs == RefCount(s'.threads, g) {
      RefCountUpdate(s.threads, t, th', g);
      if g in s.gates {
        CounterStep(s, t, a, g);
      } else {
        NoDanglingCount(s, g);
        RefCountPositive(s.threads, t, g);
      }
    }
  }

  lemma {:induction false} IndexStep(s: State, t: ThreadId, a: Action)
    requires IndexInv(s) && Enabled(s, t, a)
    ensures IndexInv(Apply(s, t, a))
  {
  }

  /** When a count reaches zero nobody else refers to the gate. */
  lemma {:induction false} NobodyElse(s: State, g: GateId)
    requires Inv(s) && g in s.gates && s.gates[g].refs == 0
    ensures forall t :: t in s.threads ==> !WaitsOn(s.threads[t], g) && !HoldsCounted(s.threads[t], g)
  {
    forall t | t in s.threads ensures !WaitsOn(s.threads[t], g) && !HoldsCounted(s.threads[t], g) {
      RefCountPositive(s.threads, t, g);
    }
  }

  lemma {:induction false} OwnPc(s: State, t: ThreadId, a: Action)
    requires Enabled(s, t, a) && PcInv(s, s.threads[t])
    requires a.Decrement? ==> Indexed(s, s.threads[t].pc.ref)
    ensures PcInv(Apply(s, t, a), Apply(s, t, a).threads[t])
  {
  }

  lemma {:induction false} OwnHeld(s: State, t: ThreadId, a: Action, g: GateId)
    requires Enabled(s, t, a) && IndexInv(s) && ThreadRefs(s, s.threads[t])
    requires HoldsCounted(Apply(s, t, a).threads[t], g)
    ensures Indexed(Apply(s, t, a), Ref(Apply(s, t, a).threads[t].held[g], g))
  {
  }

  lemma {:induction false} OwnRefs(s: State, t: ThreadId, a: Action)
    requires Enabled(s, t, a) && HolderInv(s) && IndexInv(s) && ThreadRefs(s, s.threads[t])
    ensures ThreadRefs(Apply(s, t, a), Apply(s, t, a).threads[t])
  {
    OwnPc(s, t, a);
    forall g | HoldsCounted(Apply(s, t, a).threads[t], g)
      ensures Indexed(Apply(s, t, a), Ref(Apply(s, t, a).threads[t].held[g], g))
    {
      OwnHeld(s, t, a, g);
    }
  }

  /** What another thread refers to is not disturbed by a larger index. */
  lemma {:induction false} RefsUnderGrowth(s: State, s': State, th: Thread)
    requires ThreadRefs(s, th)
    requires forall k :: k in s.index ==> k in s'.index && s'.index[k] == s.index[k]
    requires th.pc.InGateUnlock? ==> s'.index == s.index
    ensures ThreadRefs(s', th)
  {
    forall ref | Indexed(s, ref) ensures Indexed(s', ref) {}
  }

  /** Nor by the removal of an entry that it does not refer to. */
  lemma {:induction false} RefsUnderRemoval(s: State, s': State, th: Thread, gone: Ref)
    requires ThreadRefs(s, th) && IndexInv(s) && Indexed(s, gone)
    requires s'.index == s.index - {gone.key}
    requires !WaitsOn(th, gone.gate) && !HoldsCounted(th, gone.gate) && !th.pc.InCount? && !th.pc.InDelete?
    ensures ThreadRefs(s', th)
  {
    forall ref | Indexed(s, ref) && ref.gate != gone.gate ensures Indexed(s', ref) {}
  }

  /** Only the owner of the global mutex changes the index, by one new key or by removing an unreferenced one. */
  lemma {:induction false} IndexChange(s: State, t: ThreadId, a: Action)
    requires Enabled(s, t, a) && MuInv(s)
    ensures var s' := Apply(s, t, a);
            || s'.index == s.index
            || (s.mu == Some(t) && a.LookUp? && forall k :: k in s.index ==> k in s'.index && s'.index[k] == s.index[k])
            || (s.mu == Some(t) && a.Delete? && Indexed(s, s.threads[t].pc.ref) && s.gates[s.threads[t].pc.ref.gate].refs == 0
                && s'.index == s.index - {s.threads[t].pc.ref.key})
  {
  }

  lemma {:induction false} OtherRefs(s: State, t: ThreadId, a: Action, u: ThreadId)
    requires Enabled(s, t, a) && Inv(s) && u in s.threads && u != t
    ensures ThreadRefs(Apply(s, t, a), s.threads[u])
  {
    var s' := Apply(s, t, a);
    IndexChange(s, t, a);
    if s'.index == s.index {
      RefsUnderGrowth(s, s', s.threads[u]);
    } else if a.LookUp? {
      RefsUnderGrowth(s, s', s.threads[u]);
    } else {
      NobodyElse(s, s.threads[t].pc.ref.gate);
      RefsUnderRemoval(s, s', s.threads[u], s.threads[t].pc.ref);
    }
  }

  lemma {:induction false} LiveKeyStep(s: State, t: ThreadId, a: Action, k: Key)
    requires Enabled(s, t, a) && MuInv(s) && IndexInv(s) && PcInv(s, s.threads[t])
    requires k in s.index && k in Apply(s, t, a).index && s.index[k] in s.gates
    requires s.gates[s.index[k]].refs >= 0
    requires s.gates[s.index[k]].refs > 0 || Settling(s, s.index[k])
    ensures Apply(s, t, a).gates[s.index[k]].refs > 0 || Settling(Apply(s, t, a), s.index[k])
  {
    if Settling(s, s.index[k]) && s.mu != Some(t) {
      assert !InSection(s.threads[t].pc);
    }
  }

  lemma {:induction false} LiveStep(s: State, t: ThreadId, a: Action)
    requires Inv(s) && Enabled(s, t, a)
    ensures LiveInv(Apply(s, t, a))
  {
    var s' := Apply(s, t, a);
    assert ThreadRefs(s, s.threads[t]);
    forall k | k in s'.index && s'.index[k] in s'.gates
      ensures s'.gates[s'.index[k]].refs > 0 || Settling(s', s'.index[k])
    {
      if k in s.index {
        assert s.gates[s.index[k]].refs == RefCount(s.threads, s.index[k]);
        LiveKeyStep(s, t, a, k);
      } else {
        assert a.LookUp? && s.mu == Some(t);
      }
    }
  }

  lemma {:induction false} StepInv(s: State, t: ThreadId, a: Action)
    requires Inv(s) && Enabled(s, t, a)
    ensures Inv(Apply(s, t, a))
  {
    var s' := Apply(s, t, a);
    MuStep(s, t, a);
    HolderStep(s, t, a);
    CountStep(s, t, a);
    IndexStep(s, t, a);
    LiveStep(s, t, a);
    OwnRefs(s, t, a);
    forall u | u in s'.threads && u != t ensures ThreadRefs(s', s'.threads[u]) {
      assert s'.threads[u] == s.threads[u];
      OtherRefs(s, t, a, u);
    }
  }

  // ----- What holds in every reachable state

  ghost predicate IsRun(run: seq<State>)
  {
    && |run| > 0
    && Init(run[0])
    && forall i :: 0 <= i < |run| - 1 ==> Next(run[i], run[i + 1])
  }

  lemma {:induction false} RunInv(run: seq<State>, i: nat)
    requires IsRun(run) && i < |run|
    ensures Inv(run[i])
  {
    if i == 0 {
      InitInv(run[0]);
    } else {
      RunInv(run, i - 1);
      assert Next(run[i - 1], run[i - 1 + 1]);
      var t, a :| Enabled(run[i - 1], t, a) && run[i] == Apply(run[i - 1], t, a);
      StepInv(run[i - 1], t, a);
    }
  }

  /** Some gate that the thread owns was acquired under this key. */
  ghost predicate InCritical(s: State, t: ThreadId, k: Key)
  {
    t in s.threads && exists g :: g in s.threads[t].held && s.threads[t].held[g] == k
  }

  /** A held gate is the one its key is indexed under, if the key is indexed; it is unless its owner is releasing it. */
  lemma {:induction false} HeldIndexed(s: State, t: ThreadId, g: GateId)
    requires MuInv(s) && RefInv(s) && t in s.threads && g in s.threads[t].held
    ensures var k := s.threads[t].held[g]; k in s.index ==> s.index[k] == g
    ensures s.threads[t].held[g] !in s.index ==> s.mu == Some(t) && s.threads[t].pc == InGateUnlock(Ref(s.threads[t].held[g], g))
  {
    assert ThreadRefs(s, s.threads[t]);
    if HoldsCounted(s.threads[t], g) {
      assert Indexed(s, Ref(s.threads[t].held[g], g));
    }
  }

  /** However often the gate of a key was deleted and created again, its holders agree on it. */
  lemma {:induction false} SameKeySameGate(s: State, t: ThreadId, g: GateId, u: ThreadId, h: GateId)
    requires MuInv(s) && HolderInv(s) && RefInv(s) && t in s.threads && u in s.threads
    requires g in s.threads[t].held && h in s.threads[u].held
    requires s.threads[t].held[g] == s.threads[u].held[h]
    ensures g == h && t == u
  {
    HeldIndexed(s, t, g);
    HeldIndexed(s, u, h);
    assert s.gates[g].holder == Some(t) && s.gates[h].holder == Some(u);
  }

  predicate AtRest(th: Thread)
  {
    th.pc.Running? && th.held == map[]
  }

  /** Every interleaving of any number of acquirers and releasers keeps the promises of the gate index. */
  lemma {:induction false} GateSafety(run: seq<State>, i: nat)
    requires IsRun(run) && i < |run|
    ensures forall t, u, k :: InCritical(run[i], t, k) && InCritical(run[i], u, k) ==> t == u
    ensures forall g :: g in run[i].gates ==> run[i].gates[g].refs == RefCount(run[i].threads, g)
    ensures run[i].mu.None? ==> forall g :: g in run[i].gates ==> (run[i].gates[g].refs > 0 <==> g in run[i].index.Values)
    ensures forall t :: t in run[i].threads && run[i].threads[t].pc.WantGate? ==> Indexed(run[i], run[i].threads[t].pc.ref)
    ensures (forall t :: t in run[i].threads ==> AtRest(run[i].threads[t])) ==> run[i].index == map[]
  {
    var s := run[i];
    RunInv(run, i);
    forall t, u, k | InCritical(s, t, k) && InCritical(s, u, k) ensures t == u {
      var g :| g in s.threads[t].held && s.threads[t].held[g] == k;
      var h :| h in s.threads[u].held && s.threads[u].held[h] == k;
      SameKeySameGate(s, t, g, u, h);
    }
    if s.mu.None? {
      forall g | g in s.gates ensures s.gates[g].refs > 0 <==> g in s.index.Values {
        IndexedIffReferenced(s, g);
      }
    }
    forall t | t in s.threads && s.threads[t].pc.WantGate? ensures Indexed(s, s.threads[t].pc.ref) {
      assert ThreadRefs(s, s.threads[t]);
    }
    if forall t :: t in s.threads ==> AtRest(s.threads[t]) {
      RestingIndexEmpty(s);
    }
  }

  lemma {:induction false} IndexedIffReferenced(s: State, g: GateId)
    requires Inv(s) && s.mu.None? && g in s.gates
    ensures s.gates[g].refs > 0 <==> g in s.index.Values
  {
    if s.gates[g].refs > 0 {
      RefCountWitness(s.threads, g);
      var t :| t in s.threads && Weight(s.threads[t], g) > 0;
      assert ThreadRefs(s, s.threads[t]);
      var k := if WaitsOn(s.threads[t], g) then s.threads[t].pc.ref.key else s.threads[t].held[g];
      assert k in s.index && s.index[k] == g;
    }
  }

  lemma {:induction false} RestingIndexEmpty(s: State)
    requires Inv(s)
    requires forall t :: t in s.threads ==> AtRest(s.threads[t])
    ensures s.index == map[]
  {
    forall g: GateId ensures RefCount(s.threads, g) == 0 {
      assert Waiters(s.threads, g) == {} && Holders(s.threads, g) == {};
    }
    assert forall t: ThreadId :: s.mu != Some(t);
    assert s.mu.None?;
    assert forall k :: k !in s.index;
  }

  // ----- Refinement: the index behaves as one plain mutex per key

  function Owners(s: State): set<(Key, ThreadId)>
  {
    set t, g | t in s.threads && g in s.threads[t].held :: (s.threads[t].held[g], t)
  }

  /** One step of an ideal table of mutexes: nothing, an acquisition of a free key, or a release. */
  ghost predicate IdealStep(o: set<(Key, ThreadId)>, o': set<(Key, ThreadId)>)
  {
    || o' == o
    || (exists k, t :: (forall u :: (k, u) !in o) && o' == o + {(k, t)})
    || (exists k, t :: (k, t) in o && o' == o - {(k, t)})
  }

  lemma {:induction false} RefinesIdealMutexes(s: State, t: ThreadId, a: Action)
    requires Inv(s) && Enabled(s, t, a)
    ensures IdealStep(Owners(s), Owners(Apply(s, t, a)))
  {
    if a.LockGate? {
      AcquireRefines(s, t);
    } else if a.UnlockGate? {
      assert ThreadRefs(s, s.threads[t]);
      OwnersLose(s, Apply(s, t, a), t, s.threads[t].pc.ref.gate);
    } else {
      OwnersSame(s, Apply(s, t, a), t);
    }
  }

  lemma {:induction false} AcquireRefines(s: State, t: ThreadId)
    requires Inv(s) && Enabled(s, t, LockGate)
    ensures IdealStep(Owners(s), Owners(Apply(s, t, LockGate)))
  {
    var s' := Apply(s, t, LockGate);
    var g, k := s.threads[t].pc.ref.gate, s.threads[t].pc.ref.key;
    assert ThreadRefs(s, s.threads[t]);
    forall u ensures (k, u) !in Owners(s) {
      if (k, u) in Owners(s) {
        var h :| h in s.threads[u].held && s.threads[u].held[h] == k;
        HeldIndexed(s, u, h);
        assert false;
      }
    }
    OwnersGain(s, s', t, g);
  }

  lemma {:induction false} OwnersSame(s: State, s': State, t: ThreadId)
    requires t in s.threads && t in s'.threads && s'.threads == s.threads[t := s'.threads[t]]
    requires s'.threads[t].held == s.threads[t].held
    ensures Owners(s') == Owners(s)
  {
    forall u, g | u in s.threads && g in s.threads[u].held ensures (s.threads[u].held[g], u) in Owners(s') {
      assert s'.threads[u].held == s.threads[u].held;
    }
    forall u, g | u in s'.threads && g in s'.threads[u].held ensures (s'.threads[u].held[g], u) in Owners(s) {
      assert s'.threads[u].held == s.threads[u].held;
    }
  }

  lemma {:induction false} OwnersGain(s: State, s': State, t: ThreadId, g: GateId)
    requires t in s.threads && t in s'.threads && s'.threads == s.threads[t := s'.threads[t]]
    requires g !in s.threads[t].held && g in s'.threads[t].held
    requires s'.threads[t].held == s.threads[t].held[g := s'.threads[t].held[g]]
    ensures Owners(s') == Owners(s) + {(s'.threads[t].held[g], t)}
  {
    forall u, h | u in s.threads && h in s.threads[u].held ensures (s.threads[u].held[h], u) in Owners(s') {
      assert h in s'.threads[u].held && s'.threads[u].held[h] == s.threads[u].held[h];
    }
    forall u, h | u in s'.threads && h in s'.threads[u].held && !(u == t && h == g)
      ensures (s'.threads[u].held[h], u) in Owners(s)
    {
      assert h in s.threads[u].held && s'.threads[u].held[h] == s.threads[u].held[h];
    }
  }

  lemma {:induction false} OwnersLose(s: State, s': State, t: ThreadId, g: GateId)
    requires MuInv(s) && HolderInv(s) && RefInv(s)
    requires t in s.threads && t in s'.threads && s'.threads == s.threads[t := s'.threads[t]]
    requires g in s.threads[t].held && s'.threads[t].held == s.threads[t].held - {g}
    ensures (s.threads[t].held[g], t) in Owners(s)
    ensures Owners(s') == Owners(s) - {(s.threads[t].held[g], t)}
  {
    var k := s.threads[t].held[g];
    forall u, h | u in s.threads && h in s.threads[u].held && (s.threads[u].held[h], u) != (k, t)
      ensures (s.threads[u].held[h], u) in Owners(s')
    {
      assert h in s'.threads[u].held && s'.threads[u].held[h] == s.threads[u].held[h];
    }
    forall u, h | u in s'.threads && h in s'.threads[u].held
      ensures (s'.threads[u].held[h], u) in Owners(s) && (s'.threads[u].held[h], u) != (k, t)
    {
      assert h in s.threads[u].held && s'.threads[u].held[h] == s.threads[u].held[h];
      if s.threads[u].held[h] == k && u == t {
        SameKeySameGate(s, t, g, u, h);
      }
    }
  }
}
