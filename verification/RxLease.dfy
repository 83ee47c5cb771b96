/**
 The lease over the receive filter: every interleaving of requests, the service task's two sections, the two sections
 of each receive call in flight, and drains. Times and results of calls are part of the step.
 */
module RxLease {
  import opened Bytes
  import opened RxIngress

  const TWO32 := 0x1_0000_0000

  /** Milliseconds wrap at 32 bits; a deadline is ahead if it is less than half the range away. */
  predicate Alive(now: u32, deadline: u32) {
    (now - deadline) % TWO32 >= 0x8000_0000
  }

  predicate ValidTarget(ip: u32, port: u16, ttl: u32) {
    var first := ip / 0x100_0000;
    0 < first < 224 && first != 127 && port != 0 && 0 < ttl <= 120
  }

  datatype Wish = Wish(on: bool, src: u32, port: u16, ttl: u32)

  /** What a receive call carries from its first section to its second; seen says the device was the watched one. */
  datatype Call = Call(generation: nat, src: u32, port: u16, watched: bool, record: Record)

  /** What the service task carries between its two sections. */
  datatype Taken = Taken(generation: nat, src: u32, port: u16, ttl: u32, now: u32)

  datatype Counts = Counts(
    seen: nat, sta: nat, invalid: nat, filtered: nat, target: nat, ringDrops: nat, ok: nat,
    noMem: nat, fail: nat, other: nat)

  function NoCounts(): Counts {
    Counts(0, 0, 0, 0, 0, 0, 0, 0, 0, 0)
  }

  function CountResult(n: Counts, rc: int): Counts {
    if rc == 0 then n.(ok := n.ok + 1)
    else if rc == 0x101 then n.(noMem := n.noMem + 1)
    else if rc == -1 then n.(fail := n.fail + 1)
    else n.(other := n.other + 1)
  }

  /**
   leased is the generation of the lease last set up; drained and history are all records drained and pushed since
   then. Generations are counted without their 32-bit wrap.
   */
  datatype State = State(
    enabled: bool, pending: bool, generation: nat, wish: Wish, active: bool, queued: bool, deadline: u32, src: u32,
    port: u16, refusing: bool, counts: Counts, ring: seq<Record>, taken: Option<Taken>, calls: map<nat, Call>,
    leased: nat, drained: seq<Record>, history: seq<Record>)

  datatype Step =
    | Request(wish: Wish)
    | Refuse
    | ClearRefused
    | Take(now: u32)
    | SetUp(handle: bool)
    | EnterCall(id: nat, us: nat, watched: bool, frame: Option<seq<byte>>, length: nat)
    | LeaveCall(id: nat, after: u32, rc: int)
    | Drain(capacity: nat)

  function Init(): State {
    State(false, false, 0, Wish(false, 0, 0, 0), false, false, 0, 0, 0, false, NoCounts(), [],
      None, map[], 0, [], [])
  }

  predicate Enabled(s: State, a: Step) {
    match a
    case Request(_) => true
    case Refuse => s.taken.None? && !s.refusing
    case ClearRefused => s.refusing
    case Take(_) => s.taken.None? && !s.refusing
    case SetUp(_) => s.taken.Some?
    case EnterCall(id, _, _, _, _) => id !in s.calls
    case LeaveCall(id, _, _) => id in s.calls
    case Drain(_) => true
  }

  function Requested(s: State, w: Wish): State {
    if w.on && !ValidTarget(w.src, w.port, w.ttl) then s
    else
      s.(enabled := false, generation := s.generation + 1, wish := w, active := false, queued := true, pending := true)
  }

  /** Expiry invalidates the calls in flight; a pending wish is taken with the generation it now has. */
  function TakenBy(s: State, now: u32): State {
    if !s.pending && !s.enabled then s
    else
      var t := if s.enabled && !Alive(now, s.deadline)
               then s.(enabled := false, active := false, generation := s.generation + 1) else s;
      if !t.pending then t
      else
        t.(pending := false, queued := false,
           taken := if t.wish.on then Some(Taken(t.generation, t.wish.src, t.wish.port, t.wish.ttl, now)) else None)
  }

  /** The lease starts only if nothing was requested since it was taken. */
  function StartedBy(s: State, handle: bool): State
    requires s.taken.Some?
  {
    var k := s.taken.value;
    if k.generation != s.generation then s.(taken := None)
    else
      s.(taken := None, src := k.src, port := k.port, deadline := (k.now + k.ttl * 1000) % TWO32, ring := [],
         active := handle, enabled := handle, queued := false,
         counts := NoCounts(), leased := s.generation, drained := [], history := [])
  }

  /** What a call keeps: the filter of the moment, and the parse made on its own copy of the headers. */
  function Observed(generation: nat, src: u32, port: u16, seen: nat, a: Step): Call
    requires a.EnterCall?
  {
    var r := Plain(a.us, seen, if a.length > 0xffff then 0xffff else a.length);
    Call(generation, src, port, a.watched, if a.watched && a.frame.Some? then Parse(a.frame.value, src, port, r) else r)
  }

  /** The first section, and the parse that follows it. */
  function EnteredBy(s: State, a: Step): State
    requires a.EnterCall?
  {
    if !s.enabled || !Alive(a.us / 1000 % TWO32, s.deadline) then s.(enabled := false, active := false)
    else
      var counts := s.counts.(seen := s.counts.seen + 1, sta := s.counts.sta + if a.watched then 1 else 0);
      s.(counts := counts, calls := s.calls[a.id := Observed(s.generation, s.src, s.port, counts.seen, a)])
  }

  /** A target frame of the watched device is recorded if the ring has room. */
  predicate Kept(c: Call, buffered: nat) {
    c.watched && c.record.classification == Target && buffered < CAPACITY
  }

  function Tallied(n: Counts, c: Call, buffered: nat): Counts {
    if !c.watched then n
    else if c.record.classification == Invalid then n.(invalid := n.invalid + 1)
    else if c.record.classification != Target then n.(filtered := n.filtered + 1)
    else if buffered < CAPACITY then n.(target := n.target + 1)
    else n.(target := n.target + 1, ringDrops := n.ringDrops + 1)
  }

  /** The second section counts only while the same generation still holds and the lease lives. */
  function LeftBy(s: State, id: nat, after: u32, rc: int): State
    requires id in s.calls
  {
    var c, t := s.calls[id], s.(calls := s.calls - {id});
    if s.enabled && c.generation == s.generation && Alive(after, s.deadline) then
      var kept := if Kept(c, |s.ring|) then [c.record.(netifResult := rc)] else [];
      t.(counts := Tallied(CountResult(s.counts, rc), c, |s.ring|), ring := s.ring + kept, history := s.history + kept)
    else if c.generation == s.generation then t.(enabled := false, active := false)
    else t
  }

  function Next(s: State, a: Step): State
    requires Enabled(s, a)
  {
    match a
    case Request(w) => Requested(s, w)
    case Refuse => Requested(s, Wish(false, 0, 0, 0)).(refusing := true)
    case ClearRefused => s.(refusing := false, pending := false, queued := false)
    case Take(now) => TakenBy(s, now)
    case SetUp(handle) => StartedBy(s, handle)
    case EnterCall(_, _, _, _, _) => EnteredBy(s, a)
    case LeaveCall(id, after, rc) => LeftBy(s, id, after, rc)
    case Drain(capacity) =>
      var n := Least(Least(capacity, MAX_POP), |s.ring|);
      s.(ring := s.ring[n..], drained := s.drained + s.ring[..n])
  }

  // ----- what every step keeps

  predicate Belongs(s: State, r: Record) {
    r.classification == Target && r.src == s.src && r.srcPort == s.port
  }

  /** A call of the leased generation carries the lease's filter; older ones can no longer be counted. */
  predicate CallOk(s: State, c: Call) {
    && c.generation <= s.leased
    && (c.generation == s.leased ==> c.src == s.src && c.port == s.port)
    && (c.record.classification == Target ==> c.record.src == c.src && c.record.srcPort == c.port)
  }

  ghost predicate Inv(s: State) {
    && s.leased <= s.generation
    && (s.enabled ==> s.leased == s.generation && !s.pending && s.active)
    && (s.pending ==> s.leased < s.generation)
    && (s.taken.Some? ==> s.leased < s.taken.value.generation <= s.generation)
    && (s.taken.Some? && s.pending ==> s.taken.value.generation < s.generation)
    && (forall id :: id in s.calls ==> CallOk(s, s.calls[id]))
    && (forall r :: r in s.history ==> Belongs(s, r))
    && s.history == s.drained + s.ring && |s.ring| <= CAPACITY
    && s.counts.target == |s.history| + s.counts.ringDrops
  }

  /** A counted call's record goes to the end of the ring and of the history, or is dropped for a full ring. */
  lemma RecordInv(s: State, c: Call, rc: int, kept: seq<Record>, counts: Counts)
    requires Inv(s) && s.enabled && CallOk(s, c) && c.generation == s.generation
    requires kept == if Kept(c, |s.ring|) then [c.record.(netifResult := rc)] else []
    requires counts == Tallied(CountResult(s.counts, rc), c, |s.ring|)
    ensures Inv(s.(counts := counts, ring := s.ring + kept, history := s.history + kept))
  {
    assert s.drained + (s.ring + kept) == s.drained + s.ring + kept;
  }

  lemma LeaveInv(s: State, id: nat, after: u32, rc: int)
    requires Inv(s) && id in s.calls
    ensures Inv(LeftBy(s, id, after, rc))
  {
    var c := s.calls[id];
    assert CallOk(s, c);
    var u := s.(calls := s.calls - {id});
    assert Inv(u);
    if s.enabled && c.generation == s.generation && Alive(after, s.deadline) {
      var kept := if Kept(c, |s.ring|) then [c.record.(netifResult := rc)] else [];
      RecordInv(u, c, rc, kept, Tallied(CountResult(s.counts, rc), c, |s.ring|));
    }
  }

  lemma EnterInv(s: State, a: Step)
    requires Inv(s) && a.EnterCall? && Enabled(s, a)
    ensures Inv(EnteredBy(s, a))
  {
    var t := EnteredBy(s, a);
    if a.id in t.calls {
      var c := t.calls[a.id];
      if c.record.classification == Target {
        TargetMatches(a.frame.value, s.src, s.port, Plain(a.us, s.counts.seen + 1, c.record.frameLength));
      }
    }
  }

  lemma StepInv(s: State, a: Step)
    requires Inv(s) && Enabled(s, a)
    ensures Inv(Next(s, a))
  {
    match a
    case EnterCall(_, _, _, _, _) => EnterInv(s, a);
    case LeaveCall(id, after, rc) => LeaveInv(s, id, after, rc);
    case Drain(capacity) =>
      var n := Least(Least(capacity, MAX_POP), |s.ring|);
      assert s.ring == s.ring[..n] + s.ring[n..];
      assert s.drained + s.ring[..n] + s.ring[n..] == s.drained + s.ring;
    case _ =>
  }

  /** Where a run leads, if every step of it is enabled. */
  function Play(run: seq<Step>): Option<State>
    decreases |run|
  {
    if run == [] then Some(Init())
    else
      var before := Play(run[..|run| - 1]);
      if before.Some? && Enabled(before.value, run[|run| - 1]) then Some(Next(before.value, run[|run| - 1])) else None
  }

  lemma {:induction false} RunInv(run: seq<Step>)
    requires Play(run).Some?
    ensures Inv(Play(run).value)
    decreases |run|
  {
    if run != [] {
      RunInv(run[..|run| - 1]);
      StepInv(Play(run[..|run| - 1]).value, run[|run| - 1]);
    }
  }

  /**
   Whatever requests, expiries and new leases fall between the two sections of any call: every buffered record is a
   target frame of the present lease's source address and port.
   */
  lemma RecordsMatchLease(run: seq<Step>, r: Record)
    requires Play(run).Some? && r in Play(run).value.ring
    ensures r.classification == Target && r.src == Play(run).value.src && r.srcPort == Play(run).value.port
  {
    RunInv(run);
    InHistory(Play(run).value, r);
  }

  lemma InHistory(s: State, r: Record)
    requires s.history == s.drained + s.ring && r in s.ring
    ensures r in s.history
  {
    var i :| 0 <= i < |s.ring| && s.ring[i] == r;
    assert s.history[|s.drained| + i] == r;
  }

  /** Since the lease was set up: targets counted are those drained, still buffered, or dropped for a full ring. */
  lemma TargetsConserved(run: seq<Step>)
    requires Play(run).Some?
    ensures var s := Play(run).value; s.counts.target == |s.drained| + |s.ring| + s.counts.ringDrops
    ensures var s := Play(run).value; s.history == s.drained + s.ring && |s.ring| <= CAPACITY
  {
    RunInv(run);
  }

  /** An accepted request, an expiry, or a new lease: what the calls in flight carry is no longer the running lease. */
  predicate Invalidates(s: State, a: Step) {
    match a
    case Request(w) => w.on ==> ValidTarget(w.src, w.port, w.ttl)
    case Refuse => true
    case Take(now) => s.enabled && !Alive(now, s.deadline)
    case SetUp(_) => s.taken.Some? && s.taken.value.generation == s.generation
    case _ => false
  }

  lemma InvalidatesCalls(s: State, a: Step, id: nat)
    requires Inv(s) && Enabled(s, a) && Invalidates(s, a) && id in s.calls
    ensures var t := Next(s, a);
      id in t.calls && t.calls[id] == s.calls[id] && t.calls[id].generation < t.generation
  {
    assert CallOk(s, s.calls[id]);
  }

  predicate StepLeaves(a: Step, id: nat) {
    a.LeaveCall? && a.id == id
  }

  lemma CallKeepsGeneration(s: State, a: Step)
    requires Enabled(s, a) && (a.EnterCall? || a.LeaveCall?)
    ensures Next(s, a).generation == s.generation
  {
  }

  lemma GenerationGrows(s: State, a: Step)
    requires Enabled(s, a)
    ensures Next(s, a).generation >= s.generation
  {
    if a.EnterCall? || a.LeaveCall? { CallKeepsGeneration(s, a); }
  }

  lemma CallStays(s: State, a: Step, id: nat)
    requires Enabled(s, a) && !StepLeaves(a, id) && id in s.calls
    ensures id in Next(s, a).calls && Next(s, a).calls[id] == s.calls[id]
  {
    if !a.EnterCall? && !a.LeaveCall? {
      assert Next(s, a).calls == s.calls;
    }
  }

  /** Generations never go back, so a call that is stale stays so while it is in flight. */
  lemma StaleStays(s: State, a: Step, id: nat)
    requires Enabled(s, a) && !StepLeaves(a, id)
    requires id in s.calls && s.calls[id].generation < s.generation
    ensures var t := Next(s, a);
      id in t.calls && t.calls[id] == s.calls[id] && t.calls[id].generation < t.generation
  {
    GenerationGrows(s, a);
    CallStays(s, a, id);
  }

  lemma {:induction false} StaleInFlight(run: seq<Step>, a: Step, more: seq<Step>, id: nat)
    requires Play(run).Some? && Enabled(Play(run).value, a) && Invalidates(Play(run).value, a)
    requires id in Play(run).value.calls
    requires Play(run + [a] + more).Some? && forall b :: b in more ==> !StepLeaves(b, id)
    ensures var t := Play(run + [a] + more).value;
      id in t.calls && t.calls[id] == Play(run).value.calls[id] && t.calls[id].generation < t.generation
    decreases |more|
  {
    if more == [] {
      RunInv(run);
      assert run + [a] + more == run + [a] && (run + [a])[..|run|] == run;
      InvalidatesCalls(Play(run).value, a, id);
    } else {
      var front, last := more[..|more| - 1], more[|more| - 1];
      assert last in more && forall b :: b in front ==> b in more;
      assert (run + [a] + more)[..|run| + |more|] == run + [a] + front;
      StaleInFlight(run, a, front, id);
      StaleStays(Play(run + [a] + front).value, last, id);
    }
  }

  /**
   A call in flight when a request is accepted, the lease expires or a new lease starts: however the run goes on, when
   the call leaves, it only leaves. No counter, no record and no part of a later lease is touched by it.
   */
  lemma StaleCallsAreIgnored(run: seq<Step>, a: Step, more: seq<Step>, id: nat, after: u32, rc: int)
    requires Play(run).Some? && Enabled(Play(run).value, a) && Invalidates(Play(run).value, a)
    requires id in Play(run).value.calls
    requires Play(run + [a] + more).Some? && forall b :: b in more ==> !StepLeaves(b, id)
    ensures var t := Play(run + [a] + more).value;
      && Enabled(t, LeaveCall(id, after, rc))
      && Next(t, LeaveCall(id, after, rc)) == t.(calls := t.calls - {id})
  {
    StaleInFlight(run, a, more, id);
  }

  /** After any request nothing is recorded until a lease is set up for that very request. */
  lemma RequestDisables(run: seq<Step>, w: Wish)
    requires Play(run).Some? && (w.on ==> ValidTarget(w.src, w.port, w.ttl))
    ensures var s := Next(Play(run).value, Step.Request(w));
      && !s.enabled && (forall id :: id in s.calls ==> s.calls[id].generation != s.generation)
      && (s.taken.Some? ==> !Next(s, SetUp(true)).enabled)
  {
    RunInv(run);
    var s := Play(run).value;
    assert forall id :: id in s.calls ==> CallOk(s, s.calls[id]);
  }
}
