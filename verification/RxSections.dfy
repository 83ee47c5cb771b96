/** What each section of the receive filter does, and that while a lease runs every call is counted. */
module RxSections {
  import opened Bytes
  import opened RxIngress
  import opened RxLease

  // ----- requests and the service task

  /** A unicast address that is not a loopback one, a port, and one to 120 seconds. */
  predicate Acceptable(w: Wish) {
    && 0x0100_0000 <= w.src < 0xe000_0000 && !(0x7f00_0000 <= w.src < 0x8000_0000)
    && w.port > 0 && 1 <= w.ttl <= 120
  }

  lemma RequestExactly(s: State, w: Wish)
    ensures var t := Next(s, Step.Request(w));
      if w.on && !Acceptable(w) then t == s
      else
        && !t.enabled && !t.active && t.queued && t.pending && t.wish == w && t.generation > s.generation
        && t.ring == s.ring && t.counts == s.counts && t.calls == s.calls && t.taken == s.taken
  {
  }

  /** Not allowing a lease withdraws whatever is wished for or running. */
  lemma RefuseExactly(s: State)
    requires Enabled(s, Refuse)
    ensures var t := Next(s, Refuse);
      && Enabled(t, ClearRefused) && !t.enabled && !t.active && t.generation > s.generation
      && var u := Next(t, ClearRefused);
        !u.refusing && !u.pending && !u.queued && !u.enabled && !u.active && u.ring == s.ring && u.counts == s.counts
  {
  }

  /** The service task ends a lease whose time is up, and takes what is wished for. */
  lemma TakeExactly(s: State, now: u32)
    requires Enabled(s, Take(now))
    ensures var t := Next(s, Take(now)); var expires := s.enabled && !Alive(now, s.deadline);
      && t.enabled == (s.enabled && !expires) && t.active == (s.active && !expires)
      && t.generation == s.generation + (if expires then 1 else 0)
      && !t.pending && t.queued == (s.queued && !s.pending)
      && t.taken == (if s.pending && s.wish.on
                     then Some(Taken(t.generation, s.wish.src, s.wish.port, s.wish.ttl, now)) else None)
      && t.ring == s.ring && t.counts == s.counts && t.calls == s.calls
  {
  }

  /** The lease that was taken starts unless something was requested since; without a device it stays off. */
  lemma SetUpExactly(s: State, handle: bool)
    requires s.taken.Some?
    ensures var t, k := Next(s, SetUp(handle)), s.taken.value;
      && t.taken == None
      && if k.generation != s.generation then t == s.(taken := None)
         else
           && t.enabled == t.active == handle && !t.queued && t.src == k.src && t.port == k.port
           && t.deadline == (k.now + k.ttl * 1000) % 0x1_0000_0000
           && t.ring == [] && t.counts == Counts(0, 0, 0, 0, 0, 0, 0, 0, 0, 0) && t.leased == s.generation
           && t.generation == s.generation && t.calls == s.calls
  {
  }

  // ----- calls

  /** A call under a live lease is seen and carries the lease's generation; any other turns the filter off. */
  lemma EnterExactly(s: State, a: Step)
    requires a.EnterCall? && Enabled(s, a)
    ensures var t := Next(s, a);
      if s.enabled && Alive(a.us / 1000 % 0x1_0000_0000, s.deadline) then
        && a.id in t.calls && t.calls == s.calls[a.id := t.calls[a.id]] && t.enabled && t.active == s.active
        && t.calls[a.id].generation == s.generation && t.calls[a.id].watched == a.watched
        && t.counts == s.counts.(seen := s.counts.seen + 1, sta := s.counts.sta + if a.watched then 1 else 0)
      else t == s.(enabled := false, active := false)
  {
  }

  function One(b: bool): nat {
    if b then 1 else 0
  }

  /** One more of the result's count, and of a watched call's class, with a drop for a target without room. */
  predicate CountedOnce(n: Counts, m: Counts, watched: bool, k: Classification, rc: int, full: bool) {
    && n.seen == m.seen && n.sta == m.sta
    && n.ok == m.ok + One(rc == 0) && n.noMem == m.noMem + One(rc == 257) && n.fail == m.fail + One(rc == -1)
    && n.other == m.other + One(rc != 0 && rc != 257 && rc != -1)
    && n.invalid == m.invalid + One(watched && k == Invalid)
    && n.filtered == m.filtered + One(watched && k != Invalid && k != Target)
    && n.target == m.target + One(watched && k == Target)
    && n.ringDrops == m.ringDrops + One(watched && k == Target && full)
  }

  lemma CountsOnce(m: Counts, c: Call, rc: int, buffered: nat)
    ensures CountedOnce(Tallied(CountResult(m, rc), c, buffered), m, c.watched, c.record.classification, rc,
      buffered >= 128)
  {
  }

  predicate Counted(s: State, c: Call, after: u32) {
    s.enabled && c.generation == s.generation && Alive(after, s.deadline)
  }

  /**
   A call that leaves while its lease lives counts once by its result, and if it was the watched device's once by its
   class; any other changes no count and no record, and turns the filter off if its own lease is over.
   */
  lemma LeaveExactly(s: State, id: nat, after: u32, rc: int)
    requires id in s.calls
    ensures var t, c := Next(s, LeaveCall(id, after, rc)), s.calls[id]; var k := c.record.classification;
      && t.calls == s.calls - {id} && t.generation == s.generation
      && if Counted(s, c, after) then
           && CountedOnce(t.counts, s.counts, c.watched, k, rc, |s.ring| >= 128)
           && |t.ring| == |s.ring| + One(c.watched && k == Target && |s.ring| < 128) && t.enabled
         else t.counts == s.counts && t.ring == s.ring && t.enabled == (s.enabled && c.generation != s.generation)
  {
    CountsOnce(s.counts, s.calls[id], rc, |s.ring|);
  }

  /** Calls in flight that a generation's lease saw. */
  function InFlight(calls: map<nat, Call>, generation: nat): set<nat> {
    set id | id in calls && calls[id].generation == generation
  }

  function Watched(calls: map<nat, Call>, generation: nat): set<nat> {
    set id | id in calls && calls[id].generation == generation && calls[id].watched
  }

  lemma OneLess(calls: map<nat, Call>, generation: nat, id: nat)
    requires id in calls
    ensures |InFlight(calls - {id}, generation)|
      == |InFlight(calls, generation)| - One(calls[id].generation == generation)
    ensures |Watched(calls - {id}, generation)|
      == |Watched(calls, generation)| - One(calls[id].generation == generation && calls[id].watched)
  {
    assert InFlight(calls - {id}, generation) == InFlight(calls, generation) - {id};
    assert Watched(calls - {id}, generation) == Watched(calls, generation) - {id};
  }

  lemma OneMore(calls: map<nat, Call>, generation: nat, id: nat, c: Call)
    requires id !in calls && c.generation == generation
    ensures |InFlight(calls[id := c], generation)| == |InFlight(calls, generation)| + 1
    ensures |Watched(calls[id := c], generation)| == |Watched(calls, generation)| + One(c.watched)
  {
    OneLess(calls[id := c], generation, id);
    assert calls[id := c] - {id} == calls;
  }

  function Results(n: Counts): nat {
    n.ok + n.noMem + n.fail + n.other
  }

  function Classified(n: Counts): nat {
    n.invalid + n.filtered + n.target
  }

  predicate Balanced(s: State) {
    s.enabled ==>
      && s.counts.seen == Results(s.counts) + |InFlight(s.calls, s.generation)|
      && s.counts.sta == Classified(s.counts) + |Watched(s.calls, s.generation)|
  }

  lemma EnterBalanced(s: State, a: Step)
    requires Balanced(s) && a.EnterCall? && Enabled(s, a)
    ensures Balanced(Next(s, a))
  {
    EnterExactly(s, a);
    if s.enabled && Alive(a.us / 1000 % 0x1_0000_0000, s.deadline) {
      OneMore(s.calls, s.generation, a.id, Next(s, a).calls[a.id]);
    }
  }

  lemma LeaveBalanced(s: State, id: nat, after: u32, rc: int)
    requires Balanced(s) && id in s.calls
    ensures Balanced(Next(s, LeaveCall(id, after, rc)))
  {
    LeaveExactly(s, id, after, rc);
    OneLess(s.calls, s.generation, id);
  }

  lemma NoneInFlight(calls: map<nat, Call>, generation: nat)
    requires forall id :: id in calls ==> calls[id].generation < generation
    ensures InFlight(calls, generation) == {} && Watched(calls, generation) == {}
  {
  }

  /** A new lease finds no call of its generation. */
  lemma OlderCalls(s: State)
    requires Inv(s) && s.leased < s.generation
    ensures forall id :: id in s.calls ==> s.calls[id].generation < s.generation
  {
    assert forall id :: id in s.calls ==> CallOk(s, s.calls[id]);
  }

  lemma SetUpBalanced(s: State, handle: bool)
    requires Inv(s) && Balanced(s) && s.taken.Some?
    ensures Balanced(Next(s, SetUp(handle)))
  {
    SetUpExactly(s, handle);
    if s.taken.value.generation == s.generation {
      OlderCalls(s);
      NoneInFlight(s.calls, s.generation);
    }
  }

  lemma SameBalance(s: State, t: State)
    requires Balanced(s) && t.calls == s.calls
    requires t.enabled ==> s.enabled && t.counts == s.counts && t.generation == s.generation
    ensures Balanced(t)
  {
  }

  lemma StepBalanced(s: State, a: Step)
    requires Inv(s) && Balanced(s) && Enabled(s, a)
    ensures Balanced(Next(s, a))
  {
    match a {
      case EnterCall(_, _, _, _, _) =>
        EnterBalanced(s, a);
      case LeaveCall(id, after, rc) =>
        LeaveBalanced(s, id, after, rc);
      case SetUp(handle) =>
        SetUpBalanced(s, handle);
      case _ =>
        SameBalance(s, Next(s, a));
    }
  }

  /**
   In every run, while a lease is on: the calls it saw are those counted by result and those in flight, and the watched
   device's are those counted by class and those in flight.
   */
  lemma {:induction false} EveryCallCounted(run: seq<Step>)
    requires Play(run).Some?
    ensures Balanced(Play(run).value)
    decreases |run|
  {
    if run != [] {
      var front := run[..|run| - 1];
      EveryCallCounted(front);
      RunInv(front);
      StepBalanced(Play(front).value, run[|run| - 1]);
    }
  }

  /** At the start there is no lease, no wish and no call. */
  lemma StartsOff()
    ensures var s := Play([]).value;
      && Play([]).Some? && !s.enabled && !s.active && !s.pending && !s.queued && !s.refusing && s.taken == None
      && s.calls == map[] && s.ring == [] && s.counts == Counts(0, 0, 0, 0, 0, 0, 0, 0, 0, 0)
  {
  }
}
