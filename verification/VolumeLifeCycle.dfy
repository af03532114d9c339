/**
  What the volume gate grants: a free gate serves the next workspace from its claim to its release, with any allowed
  size, and leaves everything else as it was; nobody else gets in between.
 */
module VolumeLifeCycle {
  import opened Common
  import opened Permutations
  import opened VolumeGate
  import opened VolumeOptions

  /** A volume that is nobody's workspace volume never has a workspace's volume name. */
  lemma {:induction false} PlainHasOtherName(r: Record, l: Lease)
    requires Plain(r) && ValidLease(l)
    ensures r.name != Present(l.volumeName)
  {
    VolumeNameKey(l);
  }

  lemma {:induction false} NameIsFree(rs: seq<Record>, l: Lease)
    requires AllPlain(rs) && ValidLease(l)
    ensures Present(l.volumeName) !in Names(rs)
  {
    forall r | r in rs ensures r.name != Present(l.volumeName) {
      PlainHasOtherName(r, l);
    }
  }

  lemma {:induction false} IdleIsPlain(s: System)
    requires Inv(s) && s.lease.None?
    ensures AllPlain(s.records)
  {
  }

  /** A free gate grants its lease to whoever claims it, whatever other volumes there are. */
  lemma {:induction false} FreeGateGrants(s: System, l: Lease) returns (t: System, u: System)
    requires Inv(s) && s.lease.None? && s.busy.None? && ValidLease(l)
    ensures Step(s, ClaimStarts(l), t) && Step(t, ClaimEnds, u) && Inv(u)
    ensures u == System(Some(l), {l}, s.records, None)
  {
    IdleIsPlain(s);
    PlainIsConsistent(s.lease, s.records);
    PlainIsConsistent(Some(l), s.records);
    t := s.(lease := Some(l), busy := Some(Claiming(l)));
    u := t.(busy := None, claims := {l});
    assert s.claims == {};
    VolumeGate.StepInv(s, ClaimStarts(l), t);
    VolumeGate.StepInv(t, ClaimEnds, u);
  }

  /** While it is held, other workspaces' claims and releases change nothing. */
  lemma {:induction false} OthersAreRefused(s: System, l: Lease, m: Lease, t: System)
    requires s.lease == Some(l) && m != l && (Step(s, ClaimStarts(m), t) || Step(s, ReleaseStarts(m), t))
    ensures t == s
  {
  }

  function EngineRecord(l: Lease, size: string): Record
  {
    Record(Present(l.volumeName), Present(EngineOptions(size)), Present(ExpectedLabels(l, size)), Present("local"), Present("local"))
  }

  lemma {:induction false} QuotasWith(rs: seq<Record>, r: Record)
    requires AllPlain(rs) && IsQuota(r)
    ensures Filter(IsQuota, rs + [r]) == [r]
  {
    FilterSnoc(IsQuota, rs, r);
    FilterMembers(IsQuota, rs);
    if Filter(IsQuota, rs) != [] {
      HasRecord(Filter(IsQuota, rs));
    }
  }

  lemma {:induction false} EngineIsQuota(l: Lease, size: string)
    requires ValidLease(l) && SizeOk(size)
    ensures IsQuota(EngineRecord(l, size)) && MatchesLease(l, EngineRecord(l, size)) && RecordOk(EngineRecord(l, size))
  {
    EngineRecordMatches(l, size);
    SizeOkIsSize(size);
    EngineFormAccepted(size);
    assert "size" in map["size" := size];
  }

  lemma {:induction false} ActiveIsConsistent(l: Lease, rs: seq<Record>, r: Record)
    requires AllPlain(rs) && DistinctNames(rs) && r.name !in Names(rs) && RecordOk(r) && IsQuota(r) && MatchesLease(l, r)
    ensures Consistent(Some(l), rs + [r]) && Filter(IsQuota, rs + [r]) == [r]
  {
    PlainIsConsistent(None, rs);
    RecordsSnoc(rs, r);
    QuotasWith(rs, r);
  }

  lemma {:induction false} OthersKept(l: Lease, rs: seq<Record>, r: Record)
    requires AllPlain(rs) && ValidLease(l) && r.name == Present(l.volumeName)
    ensures Filter(KeepOthers(l), rs + [r]) == rs
  {
    FilterSnoc(KeepOthers(l), rs, r);
    forall x | x in rs ensures KeepOthers(l)(x) {
      PlainHasOtherName(x, l);
    }
    KeepAll(KeepOthers(l), rs);
  }

  lemma {:induction false} KeepAll(p: Record -> bool, rs: seq<Record>)
    requires forall r :: r in rs ==> p(r)
    ensures Filter(p, rs) == rs
  {
    if rs != [] {
      assert rs[0] in rs;
      KeepAll(p, rs[1..]);
    }
  }

  /** The holder creates a volume of any allowed size as the engine reports it, and inspection then reports it active. */
  lemma {:induction false} HolderCreates(s: System, l: Lease, size: string) returns (t: System)
    requires Inv(s) && s.claims == {l} && s.busy.None? && AllPlain(s.records) && ValidLease(l) && SizeOk(size)
    ensures Step(s, Create(l, EngineRecord(l, size)), t) && t == s.(records := s.records + [EngineRecord(l, size)]) && Inv(t)
    ensures Consistent(t.lease, t.records) && StatusOf(t.lease, Filter(IsQuota, t.records) != []) == Status(Some(l), Some(l.volumeName), 1, Active)
  {
    var r := EngineRecord(l, size);
    assert l in s.claims;
    NameIsFree(s.records, l);
    EngineIsQuota(l, size);
    t := s.(records := s.records + [r]);
    VolumeGate.StepInv(s, Create(l, r), t);
    ActiveIsConsistent(l, s.records, r);
  }

  /** With its volume in place the holder can claim again, and cannot release. */
  lemma {:induction false} ActiveHolder(s: System, l: Lease, rs: seq<Record>, size: string)
    requires s == System(Some(l), {l}, rs + [EngineRecord(l, size)], None)
    requires AllPlain(rs) && DistinctNames(rs) && ValidLease(l) && SizeOk(size)
    ensures Claimable(s.lease, l, s.records) && !Releasable(s.lease, l, s.records)
  {
    NameIsFree(rs, l);
    EngineIsQuota(l, size);
    ActiveIsConsistent(l, rs, EngineRecord(l, size));
  }

  lemma {:induction false} HolderDeletes(s: System, l: Lease, rs: seq<Record>, size: string) returns (t: System)
    requires Inv(s) && s == System(Some(l), {l}, rs + [EngineRecord(l, size)], None) && AllPlain(rs) && ValidLease(l)
    ensures Step(s, Delete(l), t) && t == System(Some(l), {l}, rs, None) && Inv(t)
  {
    OthersKept(l, rs, EngineRecord(l, size));
    t := s.(records := rs);
    assert l in s.claims;
    VolumeGate.StepInv(s, Delete(l), t);
  }

  lemma {:induction false} HolderReleases(s: System, l: Lease) returns (t: System, u: System)
    requires Inv(s) && s.lease == Some(l) && s.claims == {l} && s.busy.None? && AllPlain(s.records) && ValidLease(l)
    ensures Step(s, ReleaseStarts(l), t) && Step(t, ReleaseEnds, u) && u == System(None, {}, s.records, None)
  {
    PlainIsConsistent(s.lease, s.records);
    t := s.(lease := None, claims := s.claims - {l}, busy := Some(Releasing(l)));
    assert s.claims - {l} == {};
    u := t.(busy := None);
  }

  ghost predicate Path(states: seq<System>, steps: seq<Event>)
  {
    |states| == |steps| + 1 && forall k :: 0 <= k < |steps| ==> Step(states[k], steps[k], states[k + 1])
  }

  lemma {:induction false} PathOn(states: seq<System>, steps: seq<Event>, e: Event, t: System)
    requires Path(states, steps) && Step(states[|steps|], e, t)
    ensures Path(states + [t], steps + [e])
  {
    var more, after := states + [t], steps + [e];
    forall k | 0 <= k < |after| ensures Step(more[k], after[k], more[k + 1]) {
      if k < |steps| {
        assert more[k] == states[k] && after[k] == steps[k] && more[k + 1] == states[k + 1];
      }
    }
  }

  lemma {:induction false} Activation(s: System, l: Lease, size: string) returns (states: seq<System>, steps: seq<Event>, t: System)
    requires Inv(s) && s.lease.None? && s.busy.None? && s.claims == {} && ValidLease(l) && SizeOk(size)
    ensures Path(states, steps) && steps == [ClaimStarts(l), ClaimEnds, Create(l, EngineRecord(l, size))]
    ensures states[0] == s && states[3] == t && t == System(Some(l), {l}, s.records + [EngineRecord(l, size)], None) && Inv(t)
    ensures StatusOf(t.lease, Filter(IsQuota, t.records) != []) == Status(Some(l), Some(l.volumeName), 1, Active)
  {
    IdleIsPlain(s);
    var s1, s2 := FreeGateGrants(s, l);
    t := HolderCreates(s2, l, size);
    PathOn([s], [], ClaimStarts(l), s1);
    PathOn([s] + [s1], [] + [ClaimStarts(l)], ClaimEnds, s2);
    PathOn([s] + [s1] + [s2], [] + [ClaimStarts(l)] + [ClaimEnds], Create(l, EngineRecord(l, size)), t);
    states, steps := [s] + [s1] + [s2] + [t], [] + [ClaimStarts(l)] + [ClaimEnds] + [Create(l, EngineRecord(l, size))];
  }

  /**
    From every reachable idle state, any workspace can claim the gate, create a volume of any allowed size, have it
    reported active, delete it and release the gate, which is then as idle as before, with the same other volumes.
   */
  lemma {:induction false} LifeCycle(run: seq<System>, events: seq<Event>, i: nat, l: Lease, size: string)
    returns (states: seq<System>, steps: seq<Event>)
    requires IsRun(run, events) && i < |run| && run[i].lease.None? && run[i].busy.None? && ValidLease(l) && SizeOk(size)
    ensures Path(states, steps) && states[0] == run[i] && states[|steps|] == run[i]
    ensures steps == [ClaimStarts(l), ClaimEnds, Create(l, EngineRecord(l, size))] + [Delete(l)] + [ReleaseStarts(l)] + [ReleaseEnds]
    ensures StatusOf(states[3].lease, Filter(IsQuota, states[3].records) != []) == Status(Some(l), Some(l.volumeName), 1, Active)
  {
    var s := run[i];
    VolumeGate.RunInv(run, events, i);
    IdleIsPlain(s);
    assert s.claims == {};
    var active;
    states, steps, active := Activation(s, l, size);
    var s4 := HolderDeletes(active, l, s.records, size);
    var s5, s6 := HolderReleases(s4, l);
    PathOn(states, steps, Delete(l), s4);
    PathOn(states + [s4], steps + [Delete(l)], ReleaseStarts(l), s5);
    PathOn(states + [s4] + [s5], steps + [Delete(l)] + [ReleaseStarts(l)], ReleaseEnds, s6);
    states, steps := states + [s4] + [s5] + [s6], steps + [Delete(l)] + [ReleaseStarts(l)] + [ReleaseEnds];
    assert s6 == s;
  }
}
