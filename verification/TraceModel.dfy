/**
 The gauge discharge trace: at most 64 observations, one old one evicted by priority and spacing
 when a new one arrives. The datatype Trace and the functions on it specify class Ring, which keeps
 the observations in a circular array the way the firmware does.
 */
module TraceModel {
  import opened Bytes

  type i16 = x: int | -0x8000 <= x < 0x8000

  const CAPACITY := 64
  const CANDIDATES := 32

  datatype Sample = Sample(
    boot: u32, monotonicMs: u64, epoch: u64, flags: u16, soc: u16, voltageMv: u16,
    currentMa: i16, averageCurrentMa: i16, remainingMah: u16, fullMah: u16, designMah: u16,
    operationStatus: u16, batteryStatus: u16, stateOfHealth: u16, cycleCount: u16,
    temperatureDeciK: u16, rawCoulombMah: u16)
  {
    predicate Valid() { flags % 2 == 1 }
    predicate RawCoulomb() { flags / 32 % 2 == 1 }
    predicate Low() { Valid() && (soc <= 15 || voltageMv <= 3500) }
    predicate Writable() { Valid() && voltageMv >= 3300 }
  }

  const NoSample := Sample(0, 0, 0, 0, 0, 0, 0, 0, 0, 0, 0, 0, 0, 0, 0, 0, 0)

  // ----- eviction priorities

  /** The observations that are kept once they have been seen for the first time. */
  datatype Anchor = Edv2 | Empty | VdqClear | Plateau

  predicate Shows(a: Anchor, s: Sample) {
    s.Valid() &&
    match a
    case Edv2 => s.operationStatus / 8 % 2 == 1
    case Empty => s.soc == 0
    case VdqClear => s.operationStatus / 16 % 2 == 0
    case Plateau => s.soc == 96
  }

  predicate Seen(c: seq<Sample>, n: nat, a: Anchor)
    requires n <= |c|
  {
    exists j :: 0 <= j < n && Shows(a, c[j])
  }

  /** c[i] is the first row of c that shows a. */
  predicate Fresh(c: seq<Sample>, i: nat, a: Anchor)
    requires i < |c|
  {
    Shows(a, c[i]) && !Seen(c, i, a)
  }

  predicate Leaves(c: seq<Sample>, i: nat)
    requires i < |c|
  {
    c[i].Valid() && c[i].soc != 96 && Seen(c, i, Plateau)
  }

  predicate Departed(c: seq<Sample>, n: nat)
    requires n <= |c|
  {
    exists j :: 0 <= j < n && Leaves(c, j)
  }

  /** c[i] is the first valid row away from 96 after the first valid row at 96. */
  predicate FirstDeparture(c: seq<Sample>, i: nat)
    requires i < |c|
  {
    Leaves(c, i) && !Departed(c, i)
  }

  function Rank(c: seq<Sample>, i: nat): (r: nat)
    requires i < |c|
  {
    if Fresh(c, i, Edv2) then 240
    else if Fresh(c, i, Empty) then 230
    else if Fresh(c, i, VdqClear) then 220
    else if Fresh(c, i, Plateau) then 211
    else if FirstDeparture(c, i) then 210
    else 0
  }

  predicate BootBoundary(c: seq<Sample>, i: nat) {
    0 < i < |c| && c[i - 1].boot != c[i].boot
  }

  function Max(a: nat, b: nat): nat {
    if a < b then b else a
  }

  /** What row i earns by itself and by the row before it. */
  function OwnPriority(c: seq<Sample>, i: nat): nat
    requires i < |c|
  {
    Max(if i == 0 then 255 else Rank(c, i), if BootBoundary(c, i) then 180 else 0)
  }

  /** The whole priority: an anchor also protects the row just before it, a boot change both sides. */
  function Priority(c: seq<Sample>, i: nat): (r: nat)
    requires i < |c|
  {
    Max(OwnPriority(c, i),
        Max(if i + 1 < |c| && Rank(c, i + 1) > 0 then 140 else 0,
            if BootBoundary(c, i + 1) then 180 else 0))
  }

  /** Time between the neighbours of row i, in the source's wrapping 64-bit arithmetic. */
  function Gap(c: seq<Sample>, i: nat): (r: u64)
    requires 0 < i && i + 1 < |c|
  {
    if c[i - 1].boot == c[i + 1].boot
    then Elapsed(c[i + 1].monotonicMs, c[i - 1].monotonicMs)
    else 0
  }

  function Priorities(c: seq<Sample>): (p: seq<nat>)
    ensures |p| == |c| && forall i :: 0 <= i < |c| ==> p[i] == Priority(c, i)
  {
    seq(|c|, i requires 0 <= i < |c| => Priority(c, i))
  }

  /** Gaps of the rows that have two neighbours; the first and last row have none. */
  function Gaps(c: seq<Sample>): (g: seq<u64>)
    ensures |g| == |c| && forall i :: 0 < i && i + 1 < |c| ==> g[i] == Gap(c, i)
  {
    seq(|c|, i requires 0 <= i < |c| => if 0 < i && i + 1 < |c| then Gap(c, i) else 0)
  }

  predicate Preferred(p: seq<nat>, g: seq<u64>, i: nat, v: nat)
    requires i < |p| == |g| && v < |p|
  {
    p[i] < p[v] || (p[i] == p[v] && g[i] <= g[v])
  }

  /** The best of rows 1 to n by least priority, then least gap, then latest row. */
  function BestOf(p: seq<nat>, g: seq<u64>, n: nat): (v: nat)
    requires 1 <= n < |p| == |g|
    ensures 1 <= v <= n
  {
    if n == 1 then 1 else
      var v := BestOf(p, g, n - 1);
      if Preferred(p, g, n, v) then n else v
  }

  /** The row a full trace gives up. */
  function Victim(c: seq<Sample>): (v: nat)
    requires |c| == CAPACITY
    ensures 1 <= v <= CANDIDATES
  {
    BestOf(Priorities(c), Gaps(c), CANDIDATES)
  }

  function Without<T>(s: seq<T>, i: nat): (r: seq<T>)
    requires i < |s|
    ensures |r| == |s| - 1
  {
    s[..i] + s[i + 1..]
  }

  function AppendRow(c: seq<Sample>, s: Sample): (r: seq<Sample>)
    requires |c| <= CAPACITY
    ensures |r| <= CAPACITY
  {
    (if |c| == CAPACITY then Without(c, Victim(c)) else c) + [s]
  }

  // ----- the trace as a value

  predicate SeesLow(before: bool, s: Sample) {
    before || (s.Valid() && (s.soc <= 5 || s.voltageMv <= 3500) && (s.currentMa < 0 || s.averageCurrentMa < 0))
  }

  function CountsCharging(low: bool, before: nat, s: Sample): (n: nat)
    requires before <= 2
    ensures n <= 2
  {
    if s.Valid() && low && s.currentMa > 5 then (if before < 2 then before + 1 else before) else 0
  }

  /** 64-bit unsigned difference. */
  function Elapsed(now: u64, since: u64): u64 {
    (now - since) % 0x1_0000_0000_0000_0000
  }

  /** Everything the trace remembers besides its rows. */
  datatype Status = Status(
    armed: bool, lowSeen: bool, finalized: bool, chargingSamples: nat, sampled: bool, lastLow: bool,
    checkpointed: bool, dirty: bool, lastSampleMs: u64, lastCheckpointMs: u64)
  {
    function After(s: Sample): (t: Status)
      requires chargingSamples <= 2
      ensures t.chargingSamples <= 2
    {
      var low := SeesLow(lowSeen, s);
      var charging := CountsCharging(low, chargingSamples, s);
      this.(lowSeen := low, chargingSamples := charging,
            armed := armed && charging < 2, finalized := finalized || charging >= 2, sampled := true,
            lastSampleMs := s.monotonicMs, lastLow := if s.Valid() then s.Low() else lastLow, dirty := true)
    }

    predicate Due(now: u64) {
      armed && (!sampled || Elapsed(now, lastSampleMs) >= (if lastLow then 10000 else 60000))
    }

    predicate CheckpointDue(now: u64) {
      dirty && lastLow && (!checkpointed || Elapsed(now, lastCheckpointMs) >= 60000)
    }
  }

  const Idle := Status(false, false, false, 0, false, false, false, false, 0, 0)

  datatype Trace = Trace(rows: seq<Sample>, boot: u32, status: Status) {
    predicate Sized() {
      |rows| <= CAPACITY && status.chargingSamples <= 2
    }

    function Append(s: Sample): (t: Trace)
      requires Sized()
      ensures t.Sized()
    {
      var stamped := s.(boot := boot);
      Trace(AppendRow(rows, stamped), boot, status.After(stamped))
    }
  }

  function EmptyTrace(boot: u32): (t: Trace)
    ensures t.Sized()
  {
    Trace([], boot, Idle)
  }

  // ----- the circular array

  class Ring {
    const rows: array<Sample>
    var head: nat
    var count: nat
    var armed: bool
    var lowSeen: bool
    var finalized: bool
    var chargingSamples: nat
    var boot: u32
    var sampled: bool
    var lastLow: bool
    var checkpointed: bool
    var dirty: bool
    var lastSampleMs: u64
    var lastCheckpointMs: u64

    ghost predicate Valid()
      reads this
    {
      rows.Length == CAPACITY && head < CAPACITY && count <= CAPACITY && chargingSamples <= 2
    }

    function At(i: nat): Sample
      requires Valid() && i < count
      reads this, rows
    {
      rows[Place(head, count, i)]
    }

    ghost function Contents(): (c: seq<Sample>)
      requires Valid()
      reads this, rows
      ensures |c| == count && forall i :: 0 <= i < count ==> c[i] == At(i)
    {
      Logical(rows[..], head, count)
    }

    function State(): (t: Status)
      requires Valid()
      reads this
      ensures t.chargingSamples <= 2
    {
      Status(armed, lowSeen, finalized, chargingSamples, sampled, lastLow, checkpointed, dirty, lastSampleMs,
        lastCheckpointMs)
    }

    ghost function View(): (t: Trace)
      requires Valid()
      reads this, rows
      ensures t.Sized()
    {
      Trace(Contents(), boot, State())
    }

    constructor (boot: u32)
      ensures Valid() && fresh(rows) && View() == EmptyTrace(boot)
    {
      rows := new Sample[CAPACITY](_ => NoSample);
      head, count, chargingSamples := 0, 0, 0;
      armed, lowSeen, finalized := false, false, false;
      sampled, lastLow, checkpointed, dirty := false, false, false, false;
      lastSampleMs, lastCheckpointMs := 0, 0;
      this.boot := boot;
    }

    /** A separate trace with the same contents. */
    constructor Copied(r: Ring)
      requires r.Valid()
      ensures Valid() && fresh(rows) && View() == r.View()
    {
      rows := new Sample[CAPACITY](
        i requires 0 <= i < CAPACITY && r.rows.Length == CAPACITY reads r, r.rows => r.rows[i]);
      head, count, boot := r.head, r.count, r.boot;
      armed, lowSeen, finalized, chargingSamples := r.armed, r.lowSeen, r.finalized, r.chargingSamples;
      sampled, lastLow, checkpointed, dirty := r.sampled, r.lastLow, r.checkpointed, r.dirty;
      lastSampleMs, lastCheckpointMs := r.lastSampleMs, r.lastCheckpointMs;
      new;
      assert rows[..] == r.rows[..];
    }

    method Due(now: u64) returns (r: bool)
      requires Valid()
      ensures r == State().Due(now)
    {
      r := armed && (!sampled || Elapsed(now, lastSampleMs) >= (if lastLow then 10000 else 60000));
    }

    /** What one row of the ranking pass raises: itself, and the row before it. */
    static method RaiseRow(priority: array<nat>, i: nat, rank: nat, boundary: bool)
      requires i < priority.Length && (boundary ==> i > 0)
      modifies priority
      ensures priority[..] == RankedRow(old(priority[..]), i, rank, boundary)
    {
      RaiseTo(priority, i, rank);
      if rank > 0 && i > 0 { RaiseTo(priority, i - 1, 140); }
      if boundary {
        RaiseTo(priority, i - 1, 180);
        RaiseTo(priority, i, 180);
      }
    }

    /** Ranks every row in one pass, raising the previous row's priority where the next one asks for it. */
    method Prioritise() returns (priority: array<nat>)
      requires Valid() && count == CAPACITY
      ensures fresh(priority) && priority[..] == Priorities(Contents())
    {
      priority := new nat[CAPACITY](_ => 0);
      priority[0] := 255;
      ghost var c := Contents();
      var marks := Marks(false, false, false, false, false);
      for i := 0 to CAPACITY
        invariant marks == MarksAt(c, i)
        invariant fresh(priority) && priority.Length == CAPACITY && Ranked(priority[..], c, i)
      {
        ghost var was := priority[..];
        var s := At(i);
        var rank;
        rank, marks := RankRow(s, marks);
        MarksStep(c, i);
        RaiseRow(priority, i, rank, i > 0 && At(i - 1).boot != s.boot);
        RankedStep(was, c, i);
      }
      RankedAll(priority[..], c);
    }

    function GapAt(i: nat): (gap: u64)
      requires Valid() && 0 < i && i + 1 < count
      reads this, rows
      ensures gap == Gap(Contents(), i)
    {
      var before, after := At(i - 1), At(i + 1);
      if before.boot == after.boot then Elapsed(after.monotonicMs, before.monotonicMs) else 0
    }

    method SelectVictim(priority: array<nat>) returns (victim: nat)
      requires Valid() && count == CAPACITY && priority[..] == Priorities(Contents())
      ensures victim == Victim(Contents())
    {
      ghost var p, g := Priorities(Contents()), Gaps(Contents());
      assert forall k :: 0 <= k < CAPACITY ==> priority[k] == p[k];
      victim := 1;
      var bestGap := 0xffff_ffff_ffff_ffff;
      for i := 1 to CANDIDATES + 1
        invariant 1 <= victim <= CANDIDATES
        invariant i == 1 ==> victim == 1 && bestGap == 0xffff_ffff_ffff_ffff
        invariant i > 1 ==> victim == BestOf(p, g, i - 1) && bestGap == g[victim]
      {
        var gap := GapAt(i);
        if priority[i] < priority[victim] || (priority[i] == priority[victim] && gap <= bestGap) {
          victim, bestGap := i, gap;
        }
      }
    }

    method CompactOldest()
      requires Valid() && count == CAPACITY
      modifies this`head, this`count, rows
      ensures Valid() && count == CAPACITY - 1
      ensures Contents() == Without(old(Contents()), Victim(old(Contents())))
    {
      var priority := Prioritise();
      var victim := SelectVictim(priority);
      Remove(victim);
    }

    /** Closes the gap left by row v and forgets the newest slot. */
    method Remove(v: nat)
      requires Valid() && count == CAPACITY && v < CAPACITY
      modifies this`head, this`count, rows
      ensures Valid() && count == CAPACITY - 1
      ensures Contents() == Without(old(Contents()), v)
    {
      ghost var c := Contents();
      var start := (head + CAPACITY - count) % CAPACITY;
      var i := v;
      while i + 1 < count
        invariant v <= i < CAPACITY
        invariant head == old(head) && count == CAPACITY && start == head
        invariant Logical(rows[..], head, CAPACITY) == Slid(c, v, i)
      {
        ghost var was := rows[..];
        rows[(start + i) % CAPACITY] := rows[(start + i + 1) % CAPACITY];
        StoreAt(was, rows[..], head, i, was[(start + i + 1) % CAPACITY]);
        SlidStep(c, v, i);
        i := i + 1;
      }
      DropNewest(rows[..], head);
      head := (head + CAPACITY - 1) % CAPACITY;
      count := count - 1;
      assert Contents() == Slid(c, v, CAPACITY - 1)[..CAPACITY - 1];
    }

    /** The low-charge, recharge and sampling bookkeeping for a stored row. */
    method Observe(s: Sample)
      requires Valid()
      modifies this`lowSeen, this`chargingSamples, this`armed, this`finalized
      modifies this`sampled, this`lastSampleMs, this`lastLow, this`dirty
      ensures Valid() && State() == old(State()).After(s)
    {
      if s.Valid() {
        if (s.soc <= 5 || s.voltageMv <= 3500) && (s.currentMa < 0 || s.averageCurrentMa < 0) { lowSeen := true; }
        if lowSeen && s.currentMa > 5 {
          if chargingSamples < 2 { chargingSamples := chargingSamples + 1; }
          if chargingSamples >= 2 { armed := false; finalized := true; }
        } else {
          chargingSamples := 0;
        }
      } else {
        chargingSamples := 0;
      }
      sampled := true;
      lastSampleMs := s.monotonicMs;
      if s.Valid() { lastLow := s.Low(); }
      dirty := true;
    }

    method Append(sample: Sample)
      requires Valid()
      modifies this, rows
      ensures Valid() && View() == old(View()).Append(sample)
    {
      var s := sample.(boot := boot);
      Store(s);
      Observe(s);
    }

    method SetArmed(on: bool)
      requires Valid()
      modifies this`armed
      ensures Valid() && View() == old(View()).(status := old(View()).status.(armed := on))
    {
      armed := on;
    }

    method Attempted(now: u64)
      requires Valid()
      modifies this`checkpointed, this`lastCheckpointMs
      ensures Valid() && View()
        == old(View()).(status := old(View()).status.(checkpointed := true, lastCheckpointMs := now))
    {
      checkpointed := true;
      lastCheckpointMs := now;
    }

    method MarkWritten()
      requires Valid()
      modifies this`dirty
      ensures Valid() && View() == old(View()).(status := old(View()).status.(dirty := false))
    {
      dirty := false;
    }

    method NewBoot(next: u32)
      requires Valid()
      modifies this`boot
      ensures Valid() && View() == old(View()).(boot := next)
    {
      boot := next;
    }

    method Store(s: Sample)
      requires Valid()
      modifies this`head, this`count, rows
      ensures Valid() && Contents() == AppendRow(old(Contents()), s)
    {
      if count == CAPACITY { CompactOldest(); }
      Push(s);
    }

    method Push(s: Sample)
      requires Valid() && count < CAPACITY
      modifies this`head, this`count, rows
      ensures Valid() && Contents() == old(Contents()) + [s]
    {
      ghost var was := rows[..];
      rows[head] := s;
      PushNewest(was, rows[..], head, count, s);
      head := (head + 1) % CAPACITY;
      if count < CAPACITY { count := count + 1; }
    }
  }

  // ----- places in the circular array

  /** Slot of logical row i when head is the next slot to write. */
  function Place(head: nat, count: nat, i: nat): (p: nat)
    requires head < CAPACITY && count <= CAPACITY
    ensures p < CAPACITY
  {
    (head + CAPACITY - count + i) % CAPACITY
  }

  /** The rows from oldest to newest. */
  function Logical(a: seq<Sample>, head: nat, count: nat): (c: seq<Sample>)
    requires |a| == CAPACITY && head < CAPACITY && count <= CAPACITY
    ensures |c| == count && forall i :: 0 <= i < count ==> c[i] == a[Place(head, count, i)]
  {
    seq(count, i requires 0 <= i < count => a[Place(head, count, i)])
  }

  lemma StoreAt(a: seq<Sample>, b: seq<Sample>, head: nat, i: nat, s: Sample)
    requires |a| == |b| == CAPACITY && head < CAPACITY && i < CAPACITY
    requires b == a[(head + i) % CAPACITY := s]
    ensures Logical(b, head, CAPACITY) == Logical(a, head, CAPACITY)[i := s]
    ensures i + 1 < CAPACITY ==> a[(head + i + 1) % CAPACITY] == Logical(a, head, CAPACITY)[i + 1]
  {
  }

  lemma DropNewest(a: seq<Sample>, head: nat)
    requires |a| == CAPACITY && head < CAPACITY
    ensures Logical(a, (head + CAPACITY - 1) % CAPACITY, CAPACITY - 1) == Logical(a, head, CAPACITY)[..CAPACITY - 1]
  {
  }

  lemma PushNewest(a: seq<Sample>, b: seq<Sample>, head: nat, count: nat, s: Sample)
    requires |a| == |b| == CAPACITY && head < CAPACITY && count < CAPACITY
    requires b == a[head := s]
    ensures Logical(b, (head + 1) % CAPACITY, count + 1) == Logical(a, head, count) + [s]
  {
  }

  // ----- what one pass over the rows remembers

  datatype Marks = Marks(edv: bool, zero: bool, vdq: bool, plateau: bool, departed: bool)

  function MarksAt(c: seq<Sample>, n: nat): Marks
    requires n <= |c|
  {
    Marks(Seen(c, n, Edv2), Seen(c, n, Empty), Seen(c, n, VdqClear), Seen(c, n, Plateau), Departed(c, n))
  }

  function RowRank(s: Sample, m: Marks): nat {
    if !s.Valid() then 0
    else if !m.edv && Shows(Edv2, s) then 240
    else if !m.zero && Shows(Empty, s) then 230
    else if !m.vdq && Shows(VdqClear, s) then 220
    else if !m.plateau && Shows(Plateau, s) then 211
    else if m.plateau && !m.departed && s.soc != 96 then 210
    else 0
  }

  function RowMarks(s: Sample, m: Marks): Marks {
    Marks(m.edv || Shows(Edv2, s), m.zero || Shows(Empty, s), m.vdq || Shows(VdqClear, s),
          m.plateau || Shows(Plateau, s), m.departed || (s.Valid() && m.plateau && s.soc != 96))
  }

  method RankRow(s: Sample, m: Marks) returns (rank: nat, r: Marks)
    ensures rank == RowRank(s, m) && r == RowMarks(s, m)
  {
    rank, r := 0, m;
    if s.Valid() {
      if !r.edv && s.operationStatus / 8 % 2 == 1 { rank := 240; r := r.(edv := true); }
      if !r.zero && s.soc == 0 { if rank < 230 { rank := 230; } r := r.(zero := true); }
      if !r.vdq && s.operationStatus / 16 % 2 == 0 { if rank < 220 { rank := 220; } r := r.(vdq := true); }
      if !r.plateau && s.soc == 96 {
        if rank < 211 { rank := 211; }
        r := r.(plateau := true);
      } else if r.plateau && !r.departed && s.soc != 96 {
        if rank < 210 { rank := 210; }
        r := r.(departed := true);
      }
    }
  }

  /** The running marks decide the declarative rank of each row. */
  lemma MarksStep(c: seq<Sample>, i: nat)
    requires i < |c|
    ensures RowRank(c[i], MarksAt(c, i)) == Rank(c, i)
    ensures RowMarks(c[i], MarksAt(c, i)) == MarksAt(c, i + 1)
  {
    assert forall a :: Seen(c, i + 1, a) == (Seen(c, i, a) || Shows(a, c[i]));
    assert Departed(c, i + 1) == (Departed(c, i) || Leaves(c, i));
  }

  /** Priorities after ranking rows 0 to i - 1: the last of these does not yet know its successor. */
  ghost predicate Ranked(p: seq<nat>, c: seq<Sample>, i: nat)
    requires |p| == |c| && i <= |c|
  {
    && (forall k :: 0 <= k && k + 1 < i ==> p[k] == Priority(c, k))
    && (i > 0 ==> p[i - 1] == OwnPriority(c, i - 1))
    && (forall k :: i <= k < |p| ==> p[k] == if k == 0 then 255 else 0)
  }

  lemma RankedAll(p: seq<nat>, c: seq<Sample>)
    requires |p| == |c| > 0 && Ranked(p, c, |c|)
    ensures p == Priorities(c)
  {
    var n := |c|;
    assert Priority(c, n - 1) == OwnPriority(c, n - 1);
    forall k | 0 <= k < n
      ensures p[k] == Priority(c, k)
    {
      if k + 1 < n { assert p[k] == Priority(c, k); }
    }
  }

  function Raise(p: nat, floor: nat): nat {
    if p < floor then floor else p
  }

  function Raised(p: seq<nat>, i: nat, floor: nat): (q: seq<nat>)
    requires i < |p|
    ensures |q| == |p|
  {
    p[i := Raise(p[i], floor)]
  }

  method RaiseTo(priority: array<nat>, i: nat, floor: nat)
    requires i < priority.Length
    modifies priority
    ensures priority[..] == Raised(old(priority[..]), i, floor)
  {
    if priority[i] < floor { priority[i] := floor; }
  }

  /** The updates of one pass of the ranking loop, at row i. */
  function RankedRow(p: seq<nat>, i: nat, rank: nat, boundary: bool): (q: seq<nat>)
    requires i < |p| && (boundary ==> i > 0)
    ensures |q| == |p|
  {
    var p1 := Raised(p, i, rank);
    var p2 := if rank > 0 && i > 0 then Raised(p1, i - 1, 140) else p1;
    if boundary then Raised(Raised(p2, i - 1, 180), i, 180) else p2
  }

  lemma RankedRowAt(p: seq<nat>, i: nat, rank: nat, boundary: bool)
    requires i < |p| && (boundary ==> i > 0)
    ensures var q := RankedRow(p, i, rank, boundary);
      && (i > 0 ==> q[i - 1] == Max(p[i - 1], Max(if rank > 0 then 140 else 0, if boundary then 180 else 0)))
      && q[i] == Max(Max(p[i], rank), if boundary then 180 else 0)
      && (forall k :: 0 <= k < |q| && k != i && k + 1 != i ==> q[k] == p[k])
  {
  }

  lemma RankedStep(p: seq<nat>, c: seq<Sample>, i: nat)
    requires |p| == |c| && i < |c| && Ranked(p, c, i)
    ensures Ranked(RankedRow(p, i, Rank(c, i), BootBoundary(c, i)), c, i + 1)
  {
    var q := RankedRow(p, i, Rank(c, i), BootBoundary(c, i));
    RankedRowAt(p, i, Rank(c, i), BootBoundary(c, i));
    Inherit(c, i);
    RankedNext(p, q, c, i);
  }

  lemma RankedNext(p: seq<nat>, q: seq<nat>, c: seq<Sample>, i: nat)
    requires |p| == |q| == |c| && i < |c| && Ranked(p, c, i)
    requires forall k :: 0 <= k < |q| && k != i && k + 1 != i ==> q[k] == p[k]
    requires i > 0 ==> q[i - 1] == Priority(c, i - 1)
    requires q[i] == OwnPriority(c, i)
    ensures Ranked(q, c, i + 1)
  {
    forall k | 0 <= k && k + 1 < i + 1
      ensures q[k] == Priority(c, k)
    {
      if k + 1 < i { assert q[k] == p[k]; }
    }
  }

  /** What row i adds to its own priority and to the previous row's. */
  lemma Inherit(c: seq<Sample>, i: nat)
    requires i < |c|
    ensures Max(Max(if i == 0 then 255 else 0, Rank(c, i)), if BootBoundary(c, i) then 180 else 0) == OwnPriority(c, i)
    ensures i > 0 ==>
      Priority(c, i - 1)
      == Max(OwnPriority(c, i - 1), Max(if Rank(c, i) > 0 then 140 else 0, if BootBoundary(c, i) then 180 else 0))
  {
    assert Rank(c, i) <= 240;
  }

  // ----- removing a row by sliding its successors down

  /** c with rows v + 1 to i moved down by one; row i is still in place as well. */
  ghost function Slid(c: seq<Sample>, v: nat, i: nat): (r: seq<Sample>)
    requires v <= i < |c|
    ensures |r| == |c|
    ensures i + 1 == |c| ==> r[..i] == Without(c, v)
  {
    c[..v] + c[v + 1..i + 1] + c[i..]
  }

  lemma SlidStep(c: seq<Sample>, v: nat, i: nat)
    requires v <= i && i + 1 < |c|
    ensures Slid(c, v, i)[i := Slid(c, v, i)[i + 1]] == Slid(c, v, i + 1)
  {
  }
}
