/**
 * Admission of workspaces: equal shares of the host and a disk reserve
 * (services/control-plane/internal/admission/controller.go).
 *
 * Quantities are unbounded integers. `Pressure` is a real number.
 */
module Admission {
  import opened Common

  datatype Quota = Quota(cpu: int, memory: int, disk: int)

  datatype Capacity = Capacity(total: Quota, reserve: Quota, minimum: Quota, maxRunning: int, diskReserve: int)

  datatype Snapshot = Snapshot(running: int, queued: int, diskFree: int, pendingDisk: int)

  datatype Reason = Admissible | Draining | InvalidSnapshot | LimitReached | BelowMinimum | DiskReserveViolated

  datatype Decision = Decision(admitted: bool, reason: Reason, queuePosition: int, quota: Quota, pressure: real)

  const MAXIMUM_WORKSPACE_DISK: int := 16

  const NO_QUOTA: Quota := Quota(0, 0, 0)

  predicate Positive(q: Quota) { q.cpu > 0 && q.memory > 0 && q.disk > 0 }

  predicate Negative(q: Quota) { q.cpu < 0 || q.memory < 0 || q.disk < 0 }

  predicate NotGreater(a: Quota, b: Quota) { a.cpu <= b.cpu && a.memory <= b.memory && a.disk <= b.disk }

  predicate Below(a: Quota, b: Quota) { a.cpu < b.cpu || a.memory < b.memory || a.disk < b.disk }

  function Subtract(a: Quota, b: Quota): Quota { Quota(a.cpu - b.cpu, a.memory - b.memory, a.disk - b.disk) }

  function Add(a: Quota, b: Quota): Quota { Quota(a.cpu + b.cpu, a.memory + b.memory, a.disk + b.disk) }

  /** The capacities a controller is made for. */
  predicate Accepted(c: Capacity)
  {
    && 1 <= c.maxRunning <= 10
    && Positive(c.total) && Positive(c.minimum) && !Negative(c.reserve) && NotGreater(c.reserve, c.total)
    && c.reserve.disk <= c.diskReserve <= c.total.disk
    && !Below(Subtract(c.total, c.reserve), c.minimum)
  }

  function Share(c: Capacity, count: int): Quota
    requires Accepted(c) && count >= 1
  {
    var pool := Subtract(c.total, c.reserve);
    Quota(pool.cpu / count, pool.memory / count, pool.disk / count)
  }

  function Pressure(running: int, maximum: int): real
    requires maximum >= 1
  {
    running as real / maximum as real
  }

  function Plan(c: Capacity, draining: bool, s: Snapshot): Decision
    requires Accepted(c)
  {
    if draining then Decision(false, Draining, s.queued + 1, NO_QUOTA, 0.0)
    else if s.running < 0 || s.queued < 0 || s.diskFree < 0 || s.pendingDisk < 0 then Decision(false, InvalidSnapshot, 0, NO_QUOTA, 0.0)
    else
      var count := s.running + 1;
      if count > c.maxRunning then Decision(false, LimitReached, s.queued + 1, NO_QUOTA, 1.0)
      else
        var quota, pressure := Share(c, count), Pressure(count, c.maxRunning);
        if Below(quota, c.minimum) then Decision(false, BelowMinimum, s.queued + 1, quota, pressure)
        else if s.diskFree < c.diskReserve + MAXIMUM_WORKSPACE_DISK + s.pendingDisk
        then Decision(false, DiskReserveViolated, s.queued + 1, quota, pressure)
        else Decision(true, Admissible, 0, quota, pressure)
  }

  // ----- Shares

  function Sum(qs: seq<Quota>): Quota
  {
    if qs == [] then NO_QUOTA else Add(Sum(qs[..|qs| - 1]), qs[|qs| - 1])
  }

  function Times(n: int, q: Quota): Quota { Quota(n * q.cpu, n * q.memory, n * q.disk) }

  lemma {:induction false} TimesNext(n: int, q: Quota)
    ensures Times(n + 1, q) == Add(Times(n, q), q)
  {
  }

  lemma {:induction false} SumSnoc(qs: seq<Quota>, q: Quota)
    ensures Sum(qs + [q]) == Add(Sum(qs), q)
  {
    assert (qs + [q])[..|qs|] == qs;
  }

  lemma {:induction false} DivideFairly(pool: int, n: int)
    requires pool >= 0 && n >= 1
    ensures n * (pool / n) <= pool < n * (pool / n) + n
  {
  }

  /** `n` shares and the reserve fit in the total, and less than `n` units of any resource are left over. */
  lemma {:induction false} SharesFit(c: Capacity, n: int)
    requires Accepted(c) && n >= 1
    ensures NotGreater(Add(Times(n, Share(c, n)), c.reserve), c.total)
    ensures var left := Subtract(c.total, Add(Times(n, Share(c, n)), c.reserve));
            0 <= left.cpu < n && 0 <= left.memory < n && 0 <= left.disk < n
  {
    DivideFairly(c.total.cpu - c.reserve.cpu, n);
    DivideFairly(c.total.memory - c.reserve.memory, n);
    DivideFairly(c.total.disk - c.reserve.disk, n);
  }

  lemma {:induction false} DivideByMore(pool: int, m: int, n: int)
    requires pool >= 0 && 1 <= m <= n
    ensures pool / n <= pool / m
  {
    DivideFairly(pool, m);
    DivideFairly(pool, n);
    var a, b := pool / m, pool / n;
    ProductMonotone(m, n, b, b);
    SmallerFactor(m, b, a + 1);
  }

  lemma {:induction false} SmallerFactor(m: int, x: int, y: int)
    requires m >= 1 && 0 <= y && m * x < m * y
    ensures x < y
  {
    if y <= x {
      ProductMonotone(m, m, y, x);
    }
  }

  lemma {:induction false} ProductMonotone(m: int, n: int, x: int, y: int)
    requires 0 <= m <= n && 0 <= x <= y
    ensures m * x <= n * y
  {
    assert n * y - m * x == (n - m) * y + m * (y - x);
    assert (n - m) * y >= 0 && m * (y - x) >= 0;
  }

  /** Fewer workspaces get no smaller shares. */
  lemma {:induction false} SharesShrink(c: Capacity, m: int, n: int)
    requires Accepted(c) && 1 <= m <= n
    ensures NotGreater(Share(c, n), Share(c, m))
  {
    DivideByMore(c.total.cpu - c.reserve.cpu, m, n);
    DivideByMore(c.total.memory - c.reserve.memory, m, n);
    DivideByMore(c.total.disk - c.reserve.disk, m, n);
  }

  /** Admission survives fewer running or pending workspaces and more free disk, with no smaller quota. */
  lemma {:induction false} AdmissionMonotone(c: Capacity, s: Snapshot, t: Snapshot)
    requires Accepted(c) && Plan(c, false, s).admitted
    requires 0 <= t.running <= s.running && 0 <= t.queued && s.diskFree <= t.diskFree && 0 <= t.pendingDisk <= s.pendingDisk
    ensures Plan(c, false, t).admitted && NotGreater(Plan(c, false, s).quota, Plan(c, false, t).quota)
  {
    SharesShrink(c, t.running + 1, s.running + 1);
  }

  lemma {:induction false} ShareCovers(pool: int, n: int, m: int)
    requires pool >= 0 && n >= 1 && m >= 0
    ensures m <= pool / n <==> n * m <= pool
  {
    DivideFairly(pool, n);
    if m <= pool / n {
      ProductMonotone(n, n, m, pool / n);
    } else {
      ProductMonotone(n, n, pool / n + 1, m);
      assert n * (pool / n + 1) == n * (pool / n) + n;
    }
  }

  /** `n` workspaces of the minimum size fit beside the reserve. */
  predicate Fits(c: Capacity, n: int)
  {
    NotGreater(Add(Times(n, c.minimum), c.reserve), c.total)
  }

  lemma {:induction false} FitsIff(c: Capacity, n: int)
    requires Accepted(c) && n >= 1
    ensures Fits(c, n) <==> !Below(Share(c, n), c.minimum)
  {
    ShareCovers(c.total.cpu - c.reserve.cpu, n, c.minimum.cpu);
    ShareCovers(c.total.memory - c.reserve.memory, n, c.minimum.memory);
    ShareCovers(c.total.disk - c.reserve.disk, n, c.minimum.disk);
  }

  /** A snapshot the store could have taken. */
  predicate Sound(s: Snapshot) { s.running >= 0 && s.queued >= 0 && s.diskFree >= 0 && s.pendingDisk >= 0 }

  predicate HasDisk(c: Capacity, s: Snapshot)
  {
    s.diskFree - s.pendingDisk - MAXIMUM_WORKSPACE_DISK >= c.diskReserve
  }

  /**
   * A start is admitted exactly when the host is not draining, the limit is not reached, one more workspace of the
   * minimum size fits beside those running, and the disk is free; otherwise the reason is the first that applies.
   */
  lemma {:induction false} AdmittedIff(c: Capacity, draining: bool, s: Snapshot)
    requires Accepted(c)
    ensures var d, room := Plan(c, draining, s), !draining && Sound(s) && s.running < c.maxRunning;
            && (d.admitted <==> room && Fits(c, s.running + 1) && HasDisk(c, s))
            && (d.reason == Draining <==> draining)
            && (d.reason == InvalidSnapshot <==> !draining && !Sound(s))
            && (d.reason == LimitReached <==> !draining && Sound(s) && s.running >= c.maxRunning)
            && (d.reason == BelowMinimum <==> room && !Fits(c, s.running + 1))
            && (d.reason == DiskReserveViolated <==> room && Fits(c, s.running + 1) && !HasDisk(c, s))
            && (!d.admitted && d.reason != InvalidSnapshot ==> d.queuePosition == s.queued + 1)
  {
    if s.running >= 0 {
      FitsIff(c, s.running + 1);
    }
  }

  /** An admitted workspace gets an equal share: with the others it leaves less than one unit each of what is not reserved. */
  lemma {:induction false} AdmittedShare(c: Capacity, s: Snapshot)
    requires Accepted(c) && Plan(c, false, s).admitted
    ensures var d, n := Plan(c, false, s), s.running + 1;
            var left := Subtract(c.total, Add(Times(n, d.quota), c.reserve));
            && 0 <= left.cpu < n && 0 <= left.memory < n && 0 <= left.disk < n
            && NotGreater(c.minimum, d.quota)
  {
    SharesFit(c, s.running + 1);
  }

  /** Pressure is the part of the limit in use, the new workspace included, whether it is admitted or refused for want of room. */
  lemma {:induction false} PlannedPressure(c: Capacity, s: Snapshot)
    requires Accepted(c) && Sound(s) && s.running < c.maxRunning
    ensures Plan(c, false, s).pressure == Pressure(s.running + 1, c.maxRunning)
  {
  }

  lemma {:induction false} PressureBounds(running: int, maximum: int)
    requires 1 <= running <= maximum
    ensures 0.0 <= Pressure(running, maximum) <= 1.0 && Pressure(running, maximum) * maximum as real == running as real
  {
    var p, m := Pressure(running, maximum), maximum as real;
    assert p * m == running as real;
    assert (1.0 - p) * m == m - running as real;
    NonNegativeFactor(p, m);
    NonNegativeFactor(1.0 - p, m);
  }

  lemma {:induction false} NonNegativeFactor(x: real, m: real)
    requires m > 0.0 && x * m >= 0.0
    ensures x >= 0.0
  {
  }

  /** A host with nothing running and room for the reserve, one volume and what is pending always admits. */
  lemma {:induction false} FirstIsAdmitted(c: Capacity, queued: nat, pending: nat)
    requires Accepted(c)
    ensures Plan(c, false, Snapshot(0, queued, c.diskReserve + MAXIMUM_WORKSPACE_DISK + pending, pending)).admitted
  {
    var pool := Subtract(c.total, c.reserve);
    assert pool.cpu / 1 == pool.cpu && pool.memory / 1 == pool.memory && pool.disk / 1 == pool.disk;
  }

  datatype SharesError = OutsidePolicy | NoCapacity

  class Controller {
    const capacity: Capacity
    var maintenanceDrain: bool

    ghost predicate Valid() { Accepted(capacity) }

    constructor (capacity: Capacity)
      requires Accepted(capacity)
      ensures Valid() && this.capacity == capacity && !maintenanceDrain
    {
      this.capacity, maintenanceDrain := capacity, false;
    }

    static method New(capacity: Capacity) returns (r: Option<Controller>)
      ensures r.Some? <==> Accepted(capacity)
      ensures r.Some? ==> fresh(r.value) && r.value.Valid() && r.value.capacity == capacity && !r.value.maintenanceDrain
    {
      if capacity.maxRunning < 1 || capacity.maxRunning > 10 { return None; }
      if !Positive(capacity.total) || !Positive(capacity.minimum) || Negative(capacity.reserve)
         || !NotGreater(capacity.reserve, capacity.total)
         || capacity.diskReserve < capacity.reserve.disk || capacity.diskReserve > capacity.total.disk {
        return None;
      }
      if Below(Subtract(capacity.total, capacity.reserve), capacity.minimum) { return None; }
      var controller := new Controller(capacity);
      r := Some(controller);
    }

    method SetMaintenanceDrain(enabled: bool)
      modifies this
      ensures maintenanceDrain == enabled
    {
      maintenanceDrain := enabled;
    }

    method PlanStart(s: Snapshot) returns (d: Decision)
      requires Valid()
      ensures d == Plan(capacity, maintenanceDrain, s)
      ensures d.admitted ==> !maintenanceDrain && s.diskFree - s.pendingDisk - MAXIMUM_WORKSPACE_DISK >= capacity.diskReserve
      ensures d.admitted ==> !Below(d.quota, capacity.minimum)
      ensures d.admitted ==> NotGreater(Add(Times(s.running + 1, d.quota), capacity.reserve), capacity.total)
    {
      if maintenanceDrain {
        return Decision(false, Draining, s.queued + 1, NO_QUOTA, 0.0);
      }
      var count := s.running + 1;
      if s.running < 0 || s.queued < 0 || s.diskFree < 0 || s.pendingDisk < 0 {
        return Decision(false, InvalidSnapshot, 0, NO_QUOTA, 0.0);
      }
      if count > capacity.maxRunning {
        return Decision(false, LimitReached, s.queued + 1, NO_QUOTA, 1.0);
      }
      var quota := Share(capacity, count);
      SharesFit(capacity, count);
      if Below(quota, capacity.minimum) {
        return Decision(false, BelowMinimum, s.queued + 1, quota, Pressure(count, capacity.maxRunning));
      }
      var neededFree := capacity.diskReserve + MAXIMUM_WORKSPACE_DISK + s.pendingDisk;
      if s.diskFree < neededFree {
        return Decision(false, DiskReserveViolated, s.queued + 1, quota, Pressure(count, capacity.maxRunning));
      }
      d := Decision(true, Admissible, 0, quota, Pressure(count, capacity.maxRunning));
    }

    /** Equal quotas whose sum and the reserve fit in the total, wasting less than one unit per workspace. */
    method Shares(running: int) returns (r: Result<seq<Quota>, SharesError>)
      requires Valid()
      ensures r == Err(OutsidePolicy) <==> running < 0 || running > capacity.maxRunning
      ensures r == Err(NoCapacity) <==> 1 <= running <= capacity.maxRunning && Below(Share(capacity, running), capacity.minimum)
      ensures r.Ok? ==> |r.value| == running && NotGreater(Add(Sum(r.value), capacity.reserve), capacity.total)
      ensures r.Ok? && running > 0 ==>
                var left := Subtract(capacity.total, Add(Sum(r.value), capacity.reserve));
                left.cpu < running && left.memory < running && left.disk < running
      ensures r.Ok? ==> forall q :: q in r.value ==> !Below(q, capacity.minimum) && q == r.value[0]
    {
      if running < 0 || running > capacity.maxRunning { return Err(OutsidePolicy); }
      if running == 0 { return Ok([]); }
      var q := Share(capacity, running);
      if Below(q, capacity.minimum) { return Err(NoCapacity); }
      SharesFit(capacity, running);
      var out: seq<Quota> := [];
      for i := 0 to running
        invariant |out| == i && Sum(out) == Times(i, q)
        invariant forall x :: x in out ==> x == q
      {
        TimesNext(i, q);
        SumSnoc(out, q);
        out := out + [q];
      }
      assert out[0] in out;
      r := Ok(out);
    }
  }

  // ----- The disk and the workspaces that write to it

  /**
   * A persistent volume: its size, what is written of it, whether its provider identifier is recorded, and
   * whether its workspace is in a state that counts as running. Only such a workspace writes.
   */
  datatype Volume = Volume(size: int, written: int, settled: bool, live: bool)

  datatype Disk = Disk(free: int, volumes: seq<Volume>)

  function PendingOf(v: Volume): int { if v.live && !v.settled then v.size else 0 }

  /** What a volume may still write. */
  function RoomOf(v: Volume): int { if v.live then v.size - v.written else 0 }

  function LiveOf(v: Volume): int { if v.live then 1 else 0 }

  function Total(f: Volume -> int, vs: seq<Volume>): int
  {
    if vs == [] then 0 else f(vs[0]) + Total(f, vs[1..])
  }

  /** What snapshots count as pending. */
  function Pending(vs: seq<Volume>): int { Total(PendingOf, vs) }

  /** What the live volumes may still write. */
  function Outstanding(vs: seq<Volume>): int { Total(RoomOf, vs) }

  function Live(vs: seq<Volume>): int { Total(LiveOf, vs) }

  predicate VolumeOk(v: Volume)
  {
    0 <= v.written <= v.size <= MAXIMUM_WORKSPACE_DISK
  }

  datatype Event =
    | Start(running: int, queued: int, size: int)
    | Resume(index: nat, running: int, queued: int)
    | Suspend(index: nat)
    | Write(index: nat, amount: int)
    | Erase(index: nat, amount: int)
    | Settle(index: nat)
    | Delete(index: nat)

  /** Admission beside the volumes of `d`; every live volume's workspace is among the running ones. */
  ghost predicate Admits(c: Capacity, d: Disk, running: int, queued: int)
    requires Accepted(c)
  {
    running >= Live(d.volumes) && Plan(c, false, Snapshot(running, queued, d.free, Pending(d.volumes))).admitted
  }

  ghost predicate Step(c: Capacity, d: Disk, e: Event, d': Disk)
    requires Accepted(c)
  {
    match e
    case Start(running, queued, size) =>
      && Admits(c, d, running, queued) && 0 <= size <= MAXIMUM_WORKSPACE_DISK
      && d' == d.(volumes := d.volumes + [Volume(size, 0, false, true)])
    case Resume(i, running, queued) =>
      && i < |d.volumes| && !d.volumes[i].live && Admits(c, d, running, queued)
      && d' == d.(volumes := d.volumes[i := d.volumes[i].(live := true)])
    case Suspend(i) =>
      i < |d.volumes| && d' == d.(volumes := d.volumes[i := d.volumes[i].(live := false)])
    case Write(i, amount) =>
      && i < |d.volumes| && d.volumes[i].live && 0 <= amount <= d.volumes[i].size - d.volumes[i].written
      && d' == Disk(d.free - amount, d.volumes[i := d.volumes[i].(written := d.volumes[i].written + amount)])
    case Erase(i, amount) =>
      && i < |d.volumes| && d.volumes[i].live && 0 <= amount <= d.volumes[i].written
      && d' == Disk(d.free + amount, d.volumes[i := d.volumes[i].(written := d.volumes[i].written - amount)])
    case Settle(i) =>
      i < |d.volumes| && d' == d.(volumes := d.volumes[i := d.volumes[i].(settled := true)])
    case Delete(i) =>
      && i < |d.volumes|
      && d' == Disk(d.free + d.volumes[i].written, d.volumes[..i] + d.volumes[i + 1..])
  }

  predicate IsAdmission(e: Event) { e.Start? || e.Resume? }

  ghost predicate AllVolumesOk(vs: seq<Volume>)
  {
    forall v :: v in vs ==> VolumeOk(v)
  }

  /** Free disk when every live volume is written in full. */
  function WorstFree(d: Disk): int { d.free - Outstanding(d.volumes) }

  ghost predicate Inv(c: Capacity, d: Disk)
  {
    AllVolumesOk(d.volumes) && WorstFree(d) >= c.diskReserve
  }

  // ----- Sums over volumes

  lemma {:induction false} TotalOne(f: Volume -> int, v: Volume)
    ensures Total(f, [v]) == f(v)
  {
    assert [v][1..] == [];
    assert Total(f, [v][1..]) == 0;
  }

  lemma {:induction false} TotalConcat(f: Volume -> int, a: seq<Volume>, b: seq<Volume>)
    ensures Total(f, a + b) == Total(f, a) + Total(f, b)
  {
    if a == [] {
      assert a + b == b;
    } else {
      assert (a + b)[1..] == a[1..] + b;
      TotalConcat(f, a[1..], b);
    }
  }

  lemma {:induction false} TotalAround(f: Volume -> int, vs: seq<Volume>, i: nat)
    requires i < |vs|
    ensures Total(f, vs) == Total(f, vs[..i]) + f(vs[i]) + Total(f, vs[i + 1..])
  {
    assert vs == vs[..i] + ([vs[i]] + vs[i + 1..]);
    TotalConcat(f, vs[..i], [vs[i]] + vs[i + 1..]);
    TotalConcat(f, [vs[i]], vs[i + 1..]);
    TotalOne(f, vs[i]);
  }

  lemma {:induction false} TotalUpdate(f: Volume -> int, vs: seq<Volume>, i: nat, v: Volume)
    requires i < |vs|
    ensures Total(f, vs[i := v]) == Total(f, vs) - f(vs[i]) + f(v)
  {
    TotalAround(f, vs, i);
    TotalAround(f, vs[i := v], i);
    assert vs[i := v][..i] == vs[..i] && vs[i := v][i + 1..] == vs[i + 1..];
  }

  lemma {:induction false} TotalRemove(f: Volume -> int, vs: seq<Volume>, i: nat)
    requires i < |vs|
    ensures Total(f, vs[..i] + vs[i + 1..]) == Total(f, vs) - f(vs[i])
  {
    TotalAround(f, vs, i);
    TotalConcat(f, vs[..i], vs[i + 1..]);
  }

  lemma {:induction false} TotalBetween(f: Volume -> int, g: Volume -> int, vs: seq<Volume>)
    requires forall v :: v in vs ==> f(v) <= g(v)
    ensures Total(f, vs) <= Total(g, vs)
  {
    if vs != [] {
      assert vs[0] in vs;
      TotalBetween(f, g, vs[1..]);
    }
  }

  lemma {:induction false} TotalNatural(f: Volume -> int, vs: seq<Volume>)
    requires forall v :: v in vs ==> 0 <= f(v)
    ensures 0 <= Total(f, vs)
  {
    if vs != [] {
      assert vs[0] in vs;
      TotalNatural(f, vs[1..]);
    }
  }

  lemma {:induction false} Bounds(vs: seq<Volume>)
    requires AllVolumesOk(vs)
    ensures 0 <= Outstanding(vs) && 0 <= Pending(vs) && 0 <= Live(vs)
  {
    TotalNatural(RoomOf, vs);
    TotalNatural(PendingOf, vs);
    TotalNatural(LiveOf, vs);
  }

  /** Nothing live, nothing to write. */
  lemma {:induction false} NothingLive(vs: seq<Volume>)
    requires Live(vs) <= 0
    ensures Outstanding(vs) == 0 && Pending(vs) == 0
  {
    if vs != [] {
      TotalNatural(LiveOf, vs[1..]);
      NothingLive(vs[1..]);
    }
  }

  lemma {:induction false} UpdateMembers(vs: seq<Volume>, i: nat, v: Volume)
    requires i < |vs|
    ensures vs[i] in vs && forall x :: x in vs[i := v] ==> x == v || x in vs
  {
  }

  // ----- Single steps

  lemma {:induction false} UpdateStep(d: Disk, i: nat, v: Volume, free: int)
    requires AllVolumesOk(d.volumes) && i < |d.volumes| && VolumeOk(v)
    ensures VolumeOk(d.volumes[i]) && AllVolumesOk(d.volumes[i := v])
    ensures WorstFree(Disk(free, d.volumes[i := v])) == WorstFree(d) + free - d.free + RoomOf(d.volumes[i]) - RoomOf(v)
    ensures Live(d.volumes[i := v]) == Live(d.volumes) - LiveOf(d.volumes[i]) + LiveOf(v)
  {
    UpdateMembers(d.volumes, i, v);
    TotalUpdate(RoomOf, d.volumes, i, v);
    TotalUpdate(LiveOf, d.volumes, i, v);
  }

  /** Without an admission the worst case gets no worse, and no workspace becomes live. */
  lemma {:induction false} OtherStep(c: Capacity, d: Disk, e: Event, d': Disk)
    requires Accepted(c) && AllVolumesOk(d.volumes) && Step(c, d, e, d') && !IsAdmission(e)
    ensures AllVolumesOk(d'.volumes) && WorstFree(d') >= WorstFree(d) && Live(d'.volumes) <= Live(d.volumes)
    ensures e.Write? ==> WorstFree(d') == WorstFree(d)
  {
    assert d.volumes[e.index] in d.volumes;
    if e.Delete? {
      TotalRemove(RoomOf, d.volumes, e.index);
      TotalRemove(LiveOf, d.volumes, e.index);
    } else {
      UpdateStep(d, e.index, d'.volumes[e.index], d'.free);
    }
  }

  /** An admission takes at most one volume's room from the worst case. */
  lemma {:induction false} AdmissionStep(c: Capacity, d: Disk, e: Event, d': Disk)
    requires Accepted(c) && AllVolumesOk(d.volumes) && Step(c, d, e, d') && IsAdmission(e)
    ensures AllVolumesOk(d'.volumes) && WorstFree(d') >= WorstFree(d) - MAXIMUM_WORKSPACE_DISK
    ensures Live(d'.volumes) == Live(d.volumes) + 1 <= c.maxRunning
  {
    if e.Start? {
      var v := Volume(e.size, 0, false, true);
      TotalConcat(RoomOf, d.volumes, [v]);
      TotalConcat(LiveOf, d.volumes, [v]);
      TotalOne(RoomOf, v);
      TotalOne(LiveOf, v);
    } else {
      assert d.volumes[e.index] in d.volumes;
      UpdateStep(d, e.index, d'.volumes[e.index], d'.free);
    }
  }

  /** At an admission, what snapshots count as pending covers what live volumes may still write. */
  ghost predicate AdmitsCovered(d: Disk, e: Event)
  {
    IsAdmission(e) ==> Outstanding(d.volumes) <= Pending(d.volumes)
  }

  lemma {:induction false} StepInv(c: Capacity, d: Disk, e: Event, d': Disk)
    requires Accepted(c) && Inv(c, d) && Step(c, d, e, d') && AdmitsCovered(d, e)
    ensures Inv(c, d')
  {
    if IsAdmission(e) {
      AdmissionStep(c, d, e, d');
    } else {
      OtherStep(c, d, e, d');
    }
  }

  // ----- Every run

  ghost predicate IsRun(c: Capacity, run: seq<Disk>, events: seq<Event>)
    requires Accepted(c)
  {
    && |run| == |events| + 1
    && forall i :: 0 <= i < |events| ==> Step(c, run[i], events[i], run[i + 1])
  }

  /** Nothing is stored yet, and the reserve is free. */
  ghost predicate IsStart(c: Capacity, d: Disk)
  {
    d.volumes == [] && d.free >= c.diskReserve
  }

  lemma {:induction false} RunInv(c: Capacity, run: seq<Disk>, events: seq<Event>, i: nat)
    requires Accepted(c) && IsRun(c, run, events) && i < |run| && Inv(c, run[0])
    requires forall k :: 0 <= k < i ==> AdmitsCovered(run[k], events[k])
    ensures Inv(c, run[i])
  {
    if i > 0 {
      RunInv(c, run, events, i - 1);
      assert Step(c, run[i - 1], events[i - 1], run[i - 1 + 1]) && AdmitsCovered(run[i - 1], events[i - 1]);
      StepInv(c, run[i - 1], events[i - 1], run[i]);
    }
  }

  lemma {:induction false} InvLeavesReserve(c: Capacity, d: Disk)
    requires Inv(c, d)
    ensures d.free >= c.diskReserve
  {
    Bounds(d.volumes);
  }

  /**
   * Whatever is started, resumed, suspended, written, erased, settled and deleted, free disk never falls below
   * the reserve, if at each admission the pending figure covers what live volumes may still write.
   */
  lemma {:induction false} ReserveSurvives(c: Capacity, run: seq<Disk>, events: seq<Event>, i: nat)
    requires Accepted(c) && IsRun(c, run, events) && i < |run| && IsStart(c, run[0])
    requires forall k :: 0 <= k < i ==> AdmitsCovered(run[k], events[k])
    ensures run[i].free >= c.diskReserve
  {
    RunInv(c, run, events, i);
    InvLeavesReserve(c, run[i]);
  }

  /** No more workspaces are ever live than the policy allows. */
  lemma {:induction false} LiveIsBounded(c: Capacity, run: seq<Disk>, events: seq<Event>, i: nat)
    requires Accepted(c) && IsRun(c, run, events) && i < |run| && run[0].volumes == []
    ensures AllVolumesOk(run[i].volumes) && 0 <= Live(run[i].volumes) <= c.maxRunning
  {
    if i > 0 {
      LiveIsBounded(c, run, events, i - 1);
      assert Step(c, run[i - 1], events[i - 1], run[i - 1 + 1]);
      if IsAdmission(events[i - 1]) {
        AdmissionStep(c, run[i - 1], events[i - 1], run[i]);
      } else {
        OtherStep(c, run[i - 1], events[i - 1], run[i]);
      }
    }
    Bounds(run[i].volumes);
  }

  /** Under a limit of one, an admission finds nothing live. */
  lemma {:induction false} SoleAdmissionIsCovered(c: Capacity, d: Disk, e: Event, d': Disk)
    requires Accepted(c) && c.maxRunning == 1 && Step(c, d, e, d')
    ensures AdmitsCovered(d, e)
  {
    if IsAdmission(e) {
      NothingLive(d.volumes);
    }
  }

  lemma {:induction false} SoleRunInv(c: Capacity, run: seq<Disk>, events: seq<Event>, i: nat)
    requires Accepted(c) && c.maxRunning == 1 && IsRun(c, run, events) && i < |run| && Inv(c, run[0])
    ensures Inv(c, run[i])
  {
    if i > 0 {
      SoleRunInv(c, run, events, i - 1);
      assert Step(c, run[i - 1], events[i - 1], run[i - 1 + 1]);
      SoleAdmissionIsCovered(c, run[i - 1], events[i - 1], run[i]);
      StepInv(c, run[i - 1], events[i - 1], run[i]);
    }
  }

  /**
   * With a limit of one running workspace, as on an owner's PC, at most one volume is ever live and the reserve
   * survives every run, whenever volumes stop counting as pending.
   */
  lemma {:induction false} SoleWorkspaceKeepsReserve(c: Capacity, run: seq<Disk>, events: seq<Event>, i: nat)
    requires Accepted(c) && c.maxRunning == 1 && IsRun(c, run, events) && i < |run| && IsStart(c, run[0])
    ensures run[i].free >= c.diskReserve && WorstFree(run[i]) >= c.diskReserve && Live(run[i].volumes) <= 1
  {
    SoleRunInv(c, run, events, i);
    InvLeavesReserve(c, run[i]);
    LiveIsBounded(c, run, events, i);
  }

  const OWNER_PC: Capacity := Capacity(Quota(4000, 5120, 64), Quota(2000, 3072, 24), Quota(2000, 2048, 8), 1, 24)

  const REFERENCE: Capacity := Capacity(Quota(8000, 24576, 200), Quota(2000, 6144, 40), Quota(500, 1536, 8), 10, 40)

  /** In the owner-PC profile 24 GiB stay free for ever. */
  lemma {:induction false} OwnerPcKeepsReserve(run: seq<Disk>, events: seq<Event>, i: nat)
    requires Accepted(OWNER_PC) && IsRun(OWNER_PC, run, events) && i < |run| && IsStart(OWNER_PC, run[0])
    ensures run[i].free >= 24
  {
    SoleWorkspaceKeepsReserve(OWNER_PC, run, events, i);
  }

  // ----- The exact condition

  /** Whatever the live volumes of `d` still write, the reserve is left. */
  ghost predicate Resilient(c: Capacity, d: Disk)
    requires Accepted(c)
  {
    forall run, events :: IsRun(c, run, events) && run[0] == d && OnlyWrites(events) ==> LeavesReserve(c, run)
  }

  ghost predicate OnlyWrites(events: seq<Event>)
  {
    forall i :: 0 <= i < |events| ==> events[i].Write?
  }

  ghost predicate LeavesReserve(c: Capacity, run: seq<Disk>)
  {
    forall i :: 0 <= i < |run| ==> run[i].free >= c.diskReserve
  }

  /** The run that writes every live volume from the `k`-th on in full. */
  lemma {:induction false} FillUp(c: Capacity, d: Disk, k: nat) returns (run: seq<Disk>, events: seq<Event>)
    requires Accepted(c) && AllVolumesOk(d.volumes) && k <= |d.volumes|
    ensures IsRun(c, run, events) && run[0] == d && OnlyWrites(events)
    ensures run[|events|].free == d.free - Outstanding(d.volumes[k..])
    decreases |d.volumes| - k
  {
    if k == |d.volumes| {
      run, events := [d], [];
    } else {
      var v := d.volumes[k];
      assert v in d.volumes && d.volumes[k..][1..] == d.volumes[k + 1..];
      if !v.live {
        run, events := FillUp(c, d, k + 1);
      } else {
        var e := Write(k, v.size - v.written);
        var d1 := Disk(d.free - e.amount, d.volumes[k := v.(written := v.written + e.amount)]);
        assert Step(c, d, e, d1);
        OtherStep(c, d, e, d1);
        var rest, more := FillUp(c, d1, k + 1);
        run, events := [d] + rest, [e] + more;
        PrependStep(c, d, e, rest, more);
        assert d1.volumes[k + 1..] == d.volumes[k + 1..];
        assert run[|events|] == rest[|more|];
      }
    }
  }

  lemma {:induction false} PrependStep(c: Capacity, d: Disk, e: Event, run: seq<Disk>, events: seq<Event>)
    requires Accepted(c) && IsRun(c, run, events) && Step(c, d, e, run[0])
    ensures IsRun(c, [d] + run, [e] + events)
  {
    var longer, before := [d] + run, [e] + events;
    forall i | 0 <= i < |before| ensures Step(c, longer[i], before[i], longer[i + 1]) {
      if i > 0 {
        assert longer[i] == run[i - 1] && before[i] == events[i - 1] && longer[i + 1] == run[i - 1 + 1];
      }
    }
  }

  lemma {:induction false} WritesKeepInv(c: Capacity, run: seq<Disk>, events: seq<Event>)
    requires Accepted(c) && IsRun(c, run, events) && OnlyWrites(events) && Inv(c, run[0])
    ensures LeavesReserve(c, run)
  {
    forall i | 0 <= i < |run| ensures run[i].free >= c.diskReserve {
      RunInv(c, run, events, i);
      InvLeavesReserve(c, run[i]);
    }
  }

  /** All later writes leave the reserve exactly when writing everything would. */
  lemma {:induction false} ResilientIff(c: Capacity, d: Disk)
    requires Accepted(c) && AllVolumesOk(d.volumes)
    ensures Resilient(c, d) <==> WorstFree(d) >= c.diskReserve
  {
    if WorstFree(d) >= c.diskReserve {
      forall run, events | IsRun(c, run, events) && run[0] == d && OnlyWrites(events) ensures LeavesReserve(c, run) {
        WritesKeepInv(c, run, events);
      }
    } else {
      var run, events := FillUp(c, d, 0);
      assert d.volumes[0..] == d.volumes;
      assert !LeavesReserve(c, run);
    }
  }

  /** Beside `n` live workspaces no further one can be admitted, whatever the disk. */
  predicate IsFull(c: Capacity, n: int)
    requires Accepted(c) && n >= 0
  {
    n >= c.maxRunning || Below(Share(c, n + 1), c.minimum)
  }

  /** Every admission beside the volumes `vs`, new or resumed, leaves a host that is resilient. */
  ghost predicate AdmissionsAreSafe(c: Capacity, vs: seq<Volume>)
    requires Accepted(c)
  {
    forall free, e, d' :: IsAdmission(e) && Step(c, Disk(free, vs), e, d') ==> Resilient(c, d')
  }

  lemma {:induction false} FullAdmitsNobody(c: Capacity, d: Disk, e: Event, d': Disk)
    requires Accepted(c) && AllVolumesOk(d.volumes) && Step(c, d, e, d') && IsAdmission(e)
    ensures 0 <= Live(d.volumes) && !IsFull(c, Live(d.volumes))
  {
    Bounds(d.volumes);
    SharesShrink(c, Live(d.volumes) + 1, e.running + 1);
  }

  lemma {:induction false} CoveredIsSafe(c: Capacity, vs: seq<Volume>)
    requires Accepted(c) && AllVolumesOk(vs) && 0 <= Live(vs) && (IsFull(c, Live(vs)) || Outstanding(vs) <= Pending(vs))
    ensures AdmissionsAreSafe(c, vs)
  {
    forall free, e, d' | IsAdmission(e) && Step(c, Disk(free, vs), e, d') ensures Resilient(c, d') {
      FullAdmitsNobody(c, Disk(free, vs), e, d');
      AdmissionStep(c, Disk(free, vs), e, d');
      ResilientIff(c, d');
    }
  }

  /** The smallest free disk that admits a largest volume beside `vs`. */
  lemma {:induction false} TightAdmission(c: Capacity, vs: seq<Volume>) returns (d: Disk, e: Event, d': Disk)
    requires Accepted(c) && AllVolumesOk(vs) && 0 <= Live(vs) && !IsFull(c, Live(vs))
    ensures d.volumes == vs && e.Start? && Step(c, d, e, d') && AllVolumesOk(d'.volumes)
    ensures WorstFree(d') == c.diskReserve + Pending(vs) - Outstanding(vs)
  {
    Bounds(vs);
    var v := Volume(MAXIMUM_WORKSPACE_DISK, 0, false, true);
    d := Disk(c.diskReserve + MAXIMUM_WORKSPACE_DISK + Pending(vs), vs);
    e := Start(Live(vs), 0, MAXIMUM_WORKSPACE_DISK);
    d' := d.(volumes := vs + [v]);
    TotalConcat(RoomOf, vs, [v]);
    TotalOne(RoomOf, v);
  }

  /**
   * Admission beside given volumes is safe against all later writes, at every free disk, exactly when nobody
   * more can be admitted or the pending figure covers what the live volumes may still write.
   */
  lemma {:induction false} AdmissionsAreSafeIff(c: Capacity, vs: seq<Volume>)
    requires Accepted(c) && AllVolumesOk(vs)
    ensures 0 <= Live(vs)
    ensures AdmissionsAreSafe(c, vs) <==> IsFull(c, Live(vs)) || Outstanding(vs) <= Pending(vs)
  {
    Bounds(vs);
    if IsFull(c, Live(vs)) || Outstanding(vs) <= Pending(vs) {
      CoveredIsSafe(c, vs);
    } else {
      var d, e, d' := TightAdmission(c, vs);
      ResilientIff(c, d');
      assert d == Disk(d.free, vs);
      assert IsAdmission(e) && Step(c, Disk(d.free, vs), e, d') && !Resilient(c, d');
    }
  }

  // ----- Volumes that count as pending until written

  /** A settled volume has been written in full. */
  predicate Counted(v: Volume)
  {
    v.settled ==> v.written == v.size
  }

  /** Only a volume written in full is settled, and it stays so. */
  ghost predicate SettlesWritten(d: Disk, e: Event)
  {
    && !e.Erase?
    && (e.Settle? && e.index < |d.volumes| ==> d.volumes[e.index].written == d.volumes[e.index].size)
  }

  lemma {:induction false} CountedStep(c: Capacity, d: Disk, e: Event, d': Disk)
    requires Accepted(c) && AllVolumesOk(d.volumes) && Step(c, d, e, d') && SettlesWritten(d, e)
    requires forall v :: v in d.volumes ==> Counted(v)
    ensures AllVolumesOk(d'.volumes) && forall v :: v in d'.volumes ==> Counted(v)
  {
    if IsAdmission(e) {
      AdmissionStep(c, d, e, d');
    } else {
      OtherStep(c, d, e, d');
    }
    if !e.Start? && !e.Delete? {
      UpdateMembers(d.volumes, e.index, d'.volumes[e.index]);
    }
  }

  /** If volumes count as pending until they are written, the pending figure covers the rest at every admission. */
  lemma {:induction false} PendingUntilWritten(c: Capacity, run: seq<Disk>, events: seq<Event>, i: nat)
    requires Accepted(c) && IsRun(c, run, events) && i < |run| && run[0].volumes == []
    requires forall k :: 0 <= k < i ==> SettlesWritten(run[k], events[k])
    ensures AllVolumesOk(run[i].volumes) && forall v :: v in run[i].volumes ==> Counted(v)
    ensures Outstanding(run[i].volumes) <= Pending(run[i].volumes)
  {
    if i > 0 {
      PendingUntilWritten(c, run, events, i - 1);
      assert Step(c, run[i - 1], events[i - 1], run[i - 1 + 1]) && SettlesWritten(run[i - 1], events[i - 1]);
      CountedStep(c, run[i - 1], events[i - 1], run[i]);
    }
    TotalBetween(RoomOf, PendingOf, run[i].volumes);
  }

  /**
   * The reference capacity admits a second workspace beside one that is running and settled but not written, and
   * together they break the reserve.
   */
  lemma {:induction false} EarlySettlementBreaksReserve() returns (run: seq<Disk>, events: seq<Event>)
    ensures Accepted(REFERENCE) && IsRun(REFERENCE, run, events) && IsStart(REFERENCE, run[0])
    ensures |events| == 5 && !AdmitsCovered(run[2], events[2])
    ensures run[5].free < REFERENCE.diskReserve
  {
    var p, s, w := Volume(16, 0, false, true), Volume(16, 0, true, true), Volume(16, 16, true, true);
    var q := Volume(16, 16, false, true);
    run := [Disk(56, []), Disk(56, [p]), Disk(56, [s]), Disk(56, [s, p]), Disk(40, [w, p]), Disk(24, [w, q])];
    events := [Start(0, 0, 16), Settle(0), Start(1, 0, 16), Write(0, 16), Write(1, 16)];
    ReferenceAdmits(Disk(56, []), 0);
    TotalOne(PendingOf, s);
    TotalOne(RoomOf, s);
    TotalOne(LiveOf, s);
    ReferenceAdmits(Disk(56, [s]), 1);
    assert Step(REFERENCE, run[0], events[0], run[1]);
    assert Step(REFERENCE, run[1], events[1], run[2]);
    assert Step(REFERENCE, run[2], events[2], run[3]);
    assert Step(REFERENCE, run[3], events[3], run[4]);
    assert Step(REFERENCE, run[4], events[4], run[5]);
  }

  lemma {:induction false} ReferenceAdmits(d: Disk, running: int)
    requires 0 <= running <= 1 && running >= Live(d.volumes) && Pending(d.volumes) == 0 && d.free == 56
    ensures Accepted(REFERENCE) && Admits(REFERENCE, d, running, 0)
  {
    assert !Below(Share(REFERENCE, 1), REFERENCE.minimum) && !Below(Share(REFERENCE, 2), REFERENCE.minimum);
  }
}
