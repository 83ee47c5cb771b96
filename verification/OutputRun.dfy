/**
 One whole output transaction: the session is opened, optionally switched OFF and held, always switched back ON,
 and closed. Every call may fail: the world decides each outcome in turn.
 */
module OutputRun {
  /** The raw settings snapshot; the limits are everything but the output bit. */
  datatype Raw = Raw(current: nat, unit: nat, voltage: nat, on: nat)

  datatype Reply = Status(raw: Raw) | Ack | Missing | Broken

  /**
   What a call or a wait comes to: whether it succeeds, how many replies are taken off the queue and passed over
   meanwhile, and the awaited reply.
   */
  datatype Outcome = Outcome(ok: bool, passed: nat, reply: Reply)

  /** What is seen from outside: native calls, readbacks that arrived, and the removal of the port's lock. */
  datatype Act = Open | Initialize | Set(raw: Raw) | Read(raw: Raw) | Close | Unlink

  datatype Result = Complete(snapshot: Raw, restored: bool) | Failed | Refused

  const LONGEST_OFF := 1200

  /** One setter with its confirming query, cut short wherever something failed. */
  predicate Toggled(acts: seq<Act>, raw: Raw) {
    && |acts| <= 3
    && (|acts| > 0 ==> acts[0] == Set(raw))
    && (|acts| > 1 ==> acts[1] == Initialize)
    && (|acts| > 2 ==> acts[2].Read?)
  }

  function Confirmed(raw: Raw): seq<Act> {
    [Set(raw), Initialize, Read(raw)]
  }

  /** An open, then queries and what they read. */
  predicate Opening(acts: seq<Act>) {
    acts == [] || (acts[0] == Open && forall k :: 0 < k < |acts| ==> acts[k].Initialize? || acts[k].Read?)
  }

  /**
   The four parts of a transaction in order, the snapshot it started from, and whether the OFF was decided on, the
   open succeeded and the close succeeded.
   */
  datatype Story = Story(
    start: seq<Act>, off: seq<Act>, on: seq<Act>, end: seq<Act>,
    original: Raw, decided: bool, connected: bool, closed: bool)
  {
    function All(): seq<Act> {
      start + off + on + end
    }
  }

  /**
   start holds the open and the two queries. Once the OFF is decided on, off may be cut short anywhere, even before
   its native call, but on has its native call. A successful open is closed, and the lock goes only if nothing was
   opened or the close worked.
   */
  predicate Sound(s: Story) {
    && Opening(s.start)
    && (if s.decided then
          && s.connected && s.original.on == 1 && s.on != []
          && Toggled(s.off, s.original.(on := 0)) && Toggled(s.on, s.original)
        else s.off == [] && s.on == [])
    && (s.connected ==> s.start != [])
    && (s.closed ==> s.connected)
    && s.end == (if s.connected then [Close] else []) + (if s.start == [] || s.closed then [Unlink] else [])
  }

  /** What an outcome is asked for: recovery and setter as in the request, expected the settings it must report. */
  datatype Kind =
    | Write
    | Native(act: Act)
    | Drain
    | Barrier(recovery: bool)
    | StopCheck
    | Hold
    | Answer(setter: bool, expected: Option<Raw>)

  datatype Use = Use(kind: Kind, outcome: Outcome)

  datatype Option<T> = None | Some(value: T)

  /** A query needs its status; a setter may be acknowledged, answered by the wanted status, or not answered at all. */
  predicate AnswerGood(setter: bool, expected: Option<Raw>, reply: Reply) {
    match reply
    case Status(raw) => expected == None || expected == Some(raw)
    case Ack => setter
    case Missing => setter
    case Broken => false
  }

  /** An outcome that does not end the transaction; a missed barrier does not stop a recovery. */
  predicate Good(u: Use) {
    match u.kind
    case Drain => true
    case Barrier(recovery) => recovery || u.outcome.ok
    case Answer(setter, expected) => AnswerGood(setter, expected, u.outcome.reply)
    case _ => u.outcome.ok
  }

  /** Every outcome is good, log writes included. */
  predicate AllGood(us: seq<Use>) {
    forall u :: u in us ==> Good(u)
  }

  // ----- what a stretch of outcomes comes to

  /**
   The log writes an outcome calls for: one for each reply passed over and for the awaited one, or for its absence,
   one for a missed barrier, and one before and one after each request's native call.
   */
  function Due(u: Use): int {
    match u.kind
    case Native(act) => if act.Set? || act.Initialize? then 2 else 0
    case Drain => u.outcome.passed
    case Hold => u.outcome.passed
    case Barrier(_) => if u.outcome.ok then 0 else 1
    case Answer(_, _) => u.outcome.passed + (if u.outcome.reply.Broken? then 0 else 1)
    case _ => 0
  }

  /**
   What was asked for in order, log writes aside; the replies awaited; how many log writes there were beyond those
   due; whether everything but the log writes was good, and whether these were.
   */
  datatype Tally = Tally(steps: seq<Kind>, replies: seq<Reply>, extra: int, fine: bool, logged: bool) {
    function Then(t: Tally): Tally {
      Tally(steps + t.steps, replies + t.replies, extra + t.extra, fine && t.fine, logged && t.logged)
    }

    /** While recovering, failed log writes are only remembered. */
    predicate Ok(recovering: bool) {
      fine && (recovering || logged)
    }

    /** The steps are those planned, in order, with so many log writes of their own; all of them if done. */
    predicate Follows(plan: seq<Kind>, more: int, done: bool) {
      steps <= plan && (done ==> steps == plan && extra == more)
    }
  }

  const NOTHING := Tally([], [], 0, true, true)

  function TallyOf(u: Use): Tally {
    if u.kind == Write then Tally([], [], 1, true, u.outcome.ok)
    else Tally([u.kind], if u.kind.Answer? then [u.outcome.reply] else [], -Due(u), Good(u), true)
  }

  function Total(us: seq<Use>): Tally {
    if us == [] then NOTHING else Total(us[..|us| - 1]).Then(TallyOf(us[|us| - 1]))
  }

  /** The outcomes are what the world decided, one after the other. */
  ghost predicate ReadFrom(us: seq<Use>, world: nat -> Outcome) {
    forall i :: 0 <= i < |us| ==> us[i].outcome == world(i)
  }

  lemma OneMore(us: seq<Use>, u: Use, world: nat -> Outcome)
    requires ReadFrom(us, world) && u.outcome == world(|us|)
    ensures ReadFrom(us + [u], world) && Total(us + [u]) == Total(us).Then(TallyOf(u))
  {
    assert (us + [u])[..|us|] == us;
  }

  lemma {:induction false} TotalGood(us: seq<Use>)
    ensures Total(us).Ok(false) <==> AllGood(us)
    decreases |us|
  {
    if us != [] {
      var before, last := us[..|us| - 1], us[|us| - 1];
      TotalGood(before);
      assert us == before + [last];
      assert AllGood(us) <==> AllGood(before) && Good(last) by {
        assert forall u :: u in us <==> u in before || u == last;
      }
    }
  }

  /** What follows one plan and then another follows both; what stops on the way follows any longer plan as well. */
  lemma Onward(base: Tally, a: Tally, p: seq<Kind>, x: int, b: Tally, q: seq<Kind>, y: int, done: bool, plan: seq<Kind>)
    requires a.Follows(p, x, true) && b.Follows(q, y, done) && p + q <= plan
    ensures a.Then(b).Follows(p + q, x + y, done) && a.Then(b).steps <= plan
    ensures base.Then(a).Then(b) == base.Then(a.Then(b))
  {
  }

  function SendPlan(bootstrap: bool): seq<Kind> {
    if bootstrap then [Native(Initialize)] else RequestPlan(Initialize, false)
  }

  function RequestPlan(a: Act, recovery: bool): seq<Kind> {
    [Drain, Barrier(recovery), Drain, Native(a)]
  }

  /** The bootstrap's query is sent without draining anything. */
  function SnapshotPlan(bootstrap: bool, expected: Option<Raw>): seq<Kind> {
    SendPlan(bootstrap) + [Answer(false, expected)]
  }

  function TogglePlan(expected: Raw, recovery: bool): seq<Kind> {
    RequestPlan(Set(expected), recovery) + [Answer(true, Some(expected))] + SnapshotPlan(false, Some(expected))
  }

  function ReadTwicePlan(expected: Raw): seq<Kind> {
    SnapshotPlan(true, None) + SnapshotPlan(false, Some(expected))
  }

  function OffPlan(original: Raw): seq<Kind> {
    [StopCheck] + (TogglePlan(original.(on := 0), false) + [Hold])
  }

  function LeavePlan(attempted: bool, connected: bool, closed: bool): seq<Kind> {
    (if connected then [Native(Close)] else []) + (if !attempted || closed then [Native(Unlink)] else [])
  }

  function StartPlan(original: Raw): seq<Kind> {
    [Native(Open)] + ReadTwicePlan(original)
  }

  /** Everything a completed transaction asks for, in order. */
  function RunPlan(original: Raw, off: bool): seq<Kind> {
    StartPlan(original) + ((if off then OffPlan(original) else []) + RestorePlan(original, off))
    + LeavePlan(true, true, true)
  }

  function RestorePlan(original: Raw, attemptedOff: bool): seq<Kind> {
    if attemptedOff then TogglePlan(original, true) else []
  }

  lemma TallyJoin(base: Tally, a: Tally, p: seq<Kind>, b: Tally, q: seq<Kind>, done: bool)
    requires done ==> a.steps == p
    requires b.Follows(q, 1, true)
    ensures base.Then(a).Then(b) == base.Then(a.Then(b))
    ensures done ==> a.Then(b).Follows(p + q, a.extra + 1, true)
  {
  }

  lemma RunJoin(a: Tally, b: Tally, c: Tally, original: Raw, off: bool)
    requires a.Follows(StartPlan(original), 2, true) && a.replies == [Status(original), Status(original)]
    requires if off then b.Follows(OffPlan(original), 3, true) else b == NOTHING
    requires c.Follows(RestorePlan(original, off) + LeavePlan(true, true, true), if off then 6 else 1, true)
    ensures NOTHING.Then(a).Then(b).Then(c).Follows(RunPlan(original, off), if off then 11 else 3, true)
    ensures a.replies <= NOTHING.Then(a).Then(b).Then(c).replies
  {
    assert NOTHING.Then(a) == a;
    var start, switch := StartPlan(original), if off then OffPlan(original) else [];
    Onward(NOTHING, a, start, 2, b, switch, b.extra, true, start + switch);
    PlanSplit(start, switch, RestorePlan(original, off), LeavePlan(true, true, true));
  }

  lemma PlanSplit(a: seq<Kind>, b: seq<Kind>, c: seq<Kind>, d: seq<Kind>)
    ensures a + b + (c + d) == a + (b + c) + d
  {
  }

  lemma StartJoin(base: Tally, a: Tally, b: Tally, original: Reply)
    requires a.Follows([Native(Open)], 1, true) && a.replies == []
    requires original.Status? ==> b.Follows(ReadTwicePlan(original.raw), 1, true) && b.replies == [original, original]
    ensures base.Then(a).Then(b) == base.Then(a.Then(b))
    ensures original.Status? ==>
      a.Then(b).Follows(StartPlan(original.raw), 2, true) && a.Then(b).replies == [original, original]
  {
  }

  class Transaction {
    const world: nat -> Outcome
    var at: nat
    var acts: seq<Act>
    var recovering: bool
    var auditFailed: bool
    ghost var uses: seq<Use>
    ghost var total: Tally

    /** uses is every outcome consumed so far and what for; a failed log write is never forgotten. */
    ghost predicate Valid()
      reads this
    {
      && |uses| == at && ReadFrom(uses, world)
      && total == Total(uses) && auditFailed == !total.logged
    }

    constructor (world: nat -> Outcome)
      ensures at == 0 && acts == [] && !recovering && Valid()
    {
      this.world := world;
      at, acts, recovering, auditFailed, uses, total := 0, [], false, false, [], NOTHING;
    }

    method Ask(ghost kind: Kind) returns (o: Outcome, ghost t: Tally)
      requires Valid() && kind != Write
      modifies `at, `uses, `total
      ensures total == old(total).Then(t) && Valid()
      ensures o == world(old(at)) && t == TallyOf(Use(kind, o))
    {
      o := world(at);
      at, t := at + 1, TallyOf(Use(kind, o));
      OneMore(uses, Use(kind, o), world);
      uses, total := uses + [Use(kind, o)], total.Then(t);
    }

    method Call(a: Act) returns (ok: bool, ghost t: Tally)
      requires Valid()
      modifies `at, `acts, `uses, `total
      ensures acts == old(acts) + [a] && total == old(total).Then(t) && Valid()
      ensures ok == t.fine && t.logged
      ensures t.replies == [] && t.Follows([Native(a)], if a.Set? || a.Initialize? then -2 else 0, true)
    {
      acts := acts + [a];
      var o;
      o, t := Ask(Native(a));
      ok := o.ok;
    }

    /** A failing log write raises, except while recovering; either way it is remembered. */
    method Log() returns (ok: bool, ghost t: Tally)
      requires Valid()
      modifies `at, `auditFailed, `uses, `total
      ensures total == old(total).Then(t) && Valid()
      ensures ok == t.Ok(recovering) && t.fine
      ensures t.replies == [] && t.Follows([], 1, true)
    {
      var o := world(at);
      at, t := at + 1, TallyOf(Use(Write, o));
      ok := o.ok;
      if !ok {
        auditFailed := true;
        ok := recovering;
      }
      OneMore(uses, Use(Write, o), world);
      uses, total := uses + [Use(Write, o)], total.Then(t);
    }

    /** Each reply that is passed over is logged. */
    method LogPassed(n: nat) returns (ok: bool, ghost t: Tally)
      requires Valid()
      modifies `at, `auditFailed, `uses, `total
      ensures total == old(total).Then(t) && Valid()
      ensures ok == t.Ok(recovering) && t.fine
      ensures t.replies == [] && t.Follows([], n, ok)
    {
      ok, t := true, NOTHING;
      for k := 0 to n
        invariant total == old(total).Then(t) && Valid() && ok == t.Ok(recovering) && t.fine && ok
        invariant t.replies == [] && t.Follows([], k, true)
      {
        ghost var more;
        ok, more := Log();
        Onward(old(total), t, [], k, more, [], 1, true, []);
        t := t.Then(more);
        if !ok { return; }
      }
    }

    /** What waits in the queue is taken off and logged. */
    method DrainQueue() returns (ok: bool, ghost t: Tally)
      requires Valid()
      modifies `at, `auditFailed, `uses, `total
      ensures total == old(total).Then(t) && Valid()
      ensures ok == t.Ok(recovering) && t.fine
      ensures t.replies == [] && t.Follows([Drain], 0, ok)
    {
      var stale;
      ghost var more;
      stale, t := Ask(Drain);
      ok, more := LogPassed(stale.passed);
      Onward(old(total), t, [Drain], 0 - stale.passed, more, [], stale.passed, ok, [Drain]);
      t := t.Then(more);
    }

    /** Outside a recovery a missed barrier ends the request; in one it is logged. */
    method AwaitParser(recovery: bool) returns (ok: bool, ghost t: Tally)
      requires Valid()
      modifies `at, `auditFailed, `uses, `total
      ensures total == old(total).Then(t) && Valid()
      ensures ok == t.Ok(recovering) && (recovery ==> t.fine)
      ensures t.replies == [] && t.Follows([Barrier(recovery)], 0, ok)
    {
      var barrier;
      ghost var more;
      barrier, t := Ask(Barrier(recovery));
      ok := barrier.ok;
      if !ok && recovery {
        ok, more := Log();
        Onward(old(total), t, [Barrier(recovery)], -1, more, [], 1, true, [Barrier(recovery)]);
        t := t.Then(more);
      }
    }

    /** A native call and the log write after it. */
    method CallLogged(a: Act) returns (ok: bool, ghost t: Tally)
      requires Valid() && (a.Set? || a.Initialize?)
      modifies `at, `acts, `auditFailed, `uses, `total
      ensures acts == old(acts) + [a] && total == old(total).Then(t) && Valid()
      ensures ok == t.Ok(recovering)
      ensures t.replies == [] && t.Follows([Native(a)], -1, ok)
    {
      ghost var more;
      ok, t := Call(a);
      if !ok { return; }
      ok, more := Log();
      Onward(old(total), t, [Native(a)], -2, more, [], 1, true, [Native(a)]);
      t := t.Then(more);
    }

    /** The native call between its two log writes. */
    method Send(a: Act) returns (ok: bool, ghost sent: bool, ghost t: Tally)
      requires Valid() && (a.Set? || a.Initialize?)
      modifies `at, `acts, `auditFailed, `uses, `total
      ensures acts == old(acts) + (if sent then [a] else []) && total == old(total).Then(t) && Valid()
      ensures ok == t.Ok(recovering) && (ok ==> sent) && (recovering ==> sent)
      ensures t.replies == [] && t.Follows([Native(a)], 0, ok)
    {
      sent := false;
      ghost var more;
      ok, t := Log();
      if !ok { return; }
      ok, more := CallLogged(a);
      Onward(old(total), t, [], 1, more, [Native(a)], -1, ok, [Native(a)]);
      sent, t := true, t.Then(more);
    }

    /** The two drains with the barrier between them; in a recovery nothing stops here. */
    method Prepare(recovery: bool) returns (ok: bool, ghost t: Tally)
      requires Valid()
      modifies `at, `auditFailed, `uses, `total
      ensures total == old(total).Then(t) && Valid()
      ensures ok == t.Ok(recovering) && (recovery ==> t.fine)
      ensures t.replies == [] && t.Follows([Drain, Barrier(recovery), Drain], 0, ok)
    {
      ghost var more, plan := NOTHING, [Drain, Barrier(recovery), Drain];
      ok, t := DrainQueue();
      if !ok { return; }
      ok, more := AwaitParser(recovery);
      Onward(old(total), t, [Drain], 0, more, [Barrier(recovery)], 0, ok, plan);
      t := t.Then(more);
      if !ok { return; }
      ok, more := DrainQueue();
      Onward(old(total), t, [Drain] + [Barrier(recovery)], 0, more, [Drain], 0, ok, plan);
      t := t.Then(more);
    }

    /** A whole request. In a recovery nothing stops it before its native call. */
    method Begin(a: Act, recovery: bool) returns (ok: bool, ghost sent: bool, ghost t: Tally)
      requires Valid() && (a.Set? || a.Initialize?)
      modifies `at, `acts, `auditFailed, `uses, `total
      ensures acts == old(acts) + (if sent then [a] else []) && total == old(total).Then(t) && Valid()
      ensures ok == t.Ok(recovering) && (ok ==> sent) && (recovery && recovering ==> sent)
      ensures t.replies == [] && t.Follows(RequestPlan(a, recovery), 0, ok)
    {
      sent := false;
      ghost var more;
      ok, t := Prepare(recovery);
      if !ok { return; }
      ok, sent, more := Send(a);
      Onward(old(total), t, [Drain, Barrier(recovery), Drain], 0, more, [Native(a)], 0, ok, RequestPlan(a, recovery));
      t := t.Then(more);
    }

    /** Waits for a reply, logging each one passed over; a failing log write leaves nothing of the reply. */
    method Await(setter: bool, ghost expected: Option<Raw>) returns (reply: Reply, ghost t: Tally)
      requires Valid()
      modifies `at, `auditFailed, `uses, `total
      ensures total == old(total).Then(t) && Valid()
      ensures t.Ok(recovering) == AnswerGood(setter, expected, reply)
      ensures t.Follows([Answer(setter, expected)], -1, !reply.Broken?)
      ensures !reply.Broken? ==> t.replies == [reply]
    {
      var o, ok;
      ghost var more, plan := NOTHING, [Answer(setter, expected)];
      o, t := Ask(Answer(setter, expected));
      ok, more := LogPassed(o.passed);
      Onward(old(total), t, plan, -Due(Use(Answer(setter, expected), o)), more, [], o.passed, ok, plan);
      t := t.Then(more);
      reply := if ok then o.reply else Broken;
    }

    /** The reply is logged as well; only a setter's wait takes an acknowledgement for one. */
    method Receive(setter: bool, ghost expected: Option<Raw>) returns (reply: Reply, ghost t: Tally)
      requires Valid()
      modifies `at, `auditFailed, `uses, `total
      ensures total == old(total).Then(t) && Valid()
      ensures t.Ok(recovering) == AnswerGood(setter, expected, reply)
      ensures t.Follows([Answer(setter, expected)], if reply.Missing? then -1 else 0, !reply.Broken?)
      ensures !reply.Broken? ==> t.replies == [reply]
    {
      reply, t := Await(setter, expected);
      if reply.Missing? || reply.Broken? { return; }
      var ok;
      ghost var more, plan := NOTHING, [Answer(setter, expected)];
      ok, more := Log();
      Onward(old(total), t, plan, -1, more, [], 1, true, plan);
      t := t.Then(more);
      if !ok || (reply.Ack? && !setter) { reply := Broken; }
    }

    method SendQuery(bootstrap: bool) returns (ok: bool, ghost sent: bool, ghost t: Tally)
      requires Valid()
      modifies `at, `acts, `auditFailed, `uses, `total
      ensures acts == old(acts) + (if sent then [Initialize] else []) && total == old(total).Then(t) && Valid()
      ensures ok == t.Ok(recovering) && (ok ==> sent)
      ensures t.replies == [] && t.Follows(SendPlan(bootstrap), 0, ok)
    {
      if bootstrap { ok, sent, t := Send(Initialize); } else { ok, sent, t := Begin(Initialize, false); }
    }

    /** One query and its reading. */
    method Snapshot(bootstrap: bool, ghost expected: Option<Raw>)
      returns (reply: Reply, ghost added: seq<Act>, ghost t: Tally)
      requires Valid()
      modifies `at, `acts, `auditFailed, `uses, `total
      ensures acts == old(acts) + added && total == old(total).Then(t) && Valid()
      ensures reply.Status? || reply.Broken?
      ensures t.Ok(recovering) == AnswerGood(false, expected, reply)
      ensures t.Follows(SnapshotPlan(bootstrap, expected), 0, reply.Status?)
      ensures reply.Status? ==> added == [Initialize, Read(reply.raw)] && t.replies == [reply]
      ensures reply.Broken? ==> added == [] || added == [Initialize]
    {
      ghost var sent, more;
      ghost var plan := SnapshotPlan(bootstrap, expected);
      var ok;
      ok, sent, t := SendQuery(bootstrap);
      assert SendPlan(bootstrap) <= plan;
      added := if sent then [Initialize] else [];
      if !ok { return Broken, added, t; }
      reply, more := Receive(false, expected);
      Onward(old(total), t, SendPlan(bootstrap), 0, more, [Answer(false, expected)],
        if reply.Missing? then -1 else 0, !reply.Broken?, plan);
      t := t.Then(more);
      if !reply.Status? { return Broken, added, t; }
      acts := acts + [Read(reply.raw)];
      added := added + [Read(reply.raw)];
    }

    /** What the setter itself brings: a mismatching status fails at once, no reply at all does not. */
    method Answered(expected: Raw) returns (ok: bool, ghost t: Tally)
      requires Valid()
      modifies `at, `auditFailed, `uses, `total
      ensures total == old(total).Then(t) && Valid() && ok == t.Ok(recovering)
      ensures t.Follows([Answer(true, Some(expected))], 1, ok)
    {
      var reply;
      ghost var more, plan := NOTHING, [Answer(true, Some(expected))];
      reply, t := Receive(true, Some(expected));
      match reply {
        case Ack =>
          ok := true;
        case Missing =>
          ok, more := Log();
          Onward(old(total), t, plan, -1, more, [], 1, true, plan);
          t := t.Then(more);
        case Status(raw) =>
          ok := raw == expected;
        case Broken =>
          ok := false;
      }
      if !ok { return; }
      ok, more := Log();
      Onward(old(total), t, plan, 0, more, [], 1, true, plan);
      t := t.Then(more);
    }

    /** One confirming query, which must read the wanted state. */
    method Confirm(expected: Raw) returns (ok: bool, ghost added: seq<Act>, ghost t: Tally)
      requires Valid()
      modifies `at, `acts, `auditFailed, `uses, `total
      ensures acts == old(acts) + added && total == old(total).Then(t) && Valid() && ok == t.Ok(recovering)
      ensures added == [] || added == [Initialize] || exists raw :: added == [Initialize, Read(raw)]
      ensures ok ==> added == [Initialize, Read(expected)]
      ensures t.Follows(SnapshotPlan(false, Some(expected)), 1, ok)
    {
      var readback;
      ghost var more, plan := NOTHING, SnapshotPlan(false, Some(expected));
      readback, added, t := Snapshot(false, Some(expected));
      if readback != Status(expected) { return false, added, t; }
      ok, more := Log();
      Onward(old(total), t, plan, 0, more, [], 1, true, plan);
      t := t.Then(more);
    }

    /** The setter and its own reply, if any. */
    method SetAndAnswer(expected: Raw, recovery: bool) returns (ok: bool, ghost sent: bool, ghost t: Tally)
      requires Valid()
      modifies `at, `acts, `auditFailed, `uses, `total
      ensures acts == old(acts) + (if sent then [Set(expected)] else []) && total == old(total).Then(t) && Valid()
      ensures ok == t.Ok(recovering) && (ok ==> sent) && (recovery && recovering ==> sent)
      ensures t.Follows(RequestPlan(Set(expected), recovery) + [Answer(true, Some(expected))], 2, ok)
    {
      ghost var more;
      ghost var begun, plan := RequestPlan(Set(expected), recovery), [Answer(true, Some(expected))];
      assert begun <= begun + plan;
      sent := false;
      ok, t := Log();
      if !ok { return; }
      ok, sent, more := Begin(Set(expected), recovery);
      Onward(old(total), t, [], 1, more, begun, 0, ok, begun + plan);
      t := t.Then(more);
      if !ok { return; }
      ok, more := Answered(expected);
      Onward(old(total), t, begun, 1, more, plan, 1, ok, begun + plan);
      t := t.Then(more);
    }

    /**
     The setter, its own reply if any, and one confirming query. It succeeds exactly if every outcome on the way was
     good, and then the setter was written once and the query after it read exactly the wanted state.
     */
    method Toggle(original: Raw, on: nat, recovery: bool)
      returns (ok: bool, ghost added: seq<Act>, ghost t: Tally)
      requires Valid()
      modifies `at, `acts, `auditFailed, `uses, `total
      ensures acts == old(acts) + added && Toggled(added, original.(on := on))
      ensures total == old(total).Then(t) && Valid() && ok == t.Ok(recovering)
      ensures recovery && recovering ==> added != []
      ensures ok ==> added == Confirmed(original.(on := on))
      ensures t.Follows(TogglePlan(original.(on := on), recovery), 3, ok)
    {
      var expected := original.(on := on);
      ghost var sent, more, query;
      ghost var first := RequestPlan(Set(expected), recovery) + [Answer(true, Some(expected))];
      ok, sent, t := SetAndAnswer(expected, recovery);
      added := if sent then [Set(expected)] else [];
      assert first <= TogglePlan(expected, recovery);
      if !ok { return; }
      ok, query, more := Confirm(expected);
      Onward(old(total), t, first, 2, more, SnapshotPlan(false, Some(expected)), 1, ok, TogglePlan(expected, recovery));
      added, t := added + query, t.Then(more);
    }

    /** Two queries that must agree; the first is the bootstrap's, sent before the reader runs. */
    method ReadTwice() returns (original: Reply, ghost added: seq<Act>, ghost t: Tally)
      requires Valid() && !recovering
      modifies `at, `acts, `auditFailed, `uses, `total
      ensures acts == old(acts) + added && total == old(total).Then(t) && Valid()
      ensures original.Status? || original.Broken?
      ensures original.Status? <==> t.Ok(false)
      ensures forall k :: 0 <= k < |added| ==> added[k].Initialize? || added[k].Read?
      ensures original.Status? ==> added == [Initialize, Read(original.raw), Initialize, Read(original.raw)]
      ensures original.Status? ==> t.Follows(ReadTwicePlan(original.raw), 1, true) && t.replies == [original, original]
    {
      ghost var more, query;
      var ok, second;
      original, added, t := Snapshot(true, None);
      if original == Broken { return; }
      ghost var plan, again := SnapshotPlan(true, None), SnapshotPlan(false, Some(original.raw));
      second, query, more := Snapshot(false, Some(original.raw));
      Onward(old(total), t, plan, 0, more, again, 0, second.Status?, plan + again);
      added, t := added + query, t.Then(more);
      if second != original { return Broken, added, t; }
      ok, more := Log();
      Onward(old(total), t, plan + again, 0, more, [], 1, true, plan + again);
      t := t.Then(more);
      if !ok { original := Broken; }
    }

    method OpenSession() returns (attempted: bool, connected: bool, ghost start: seq<Act>, ghost t: Tally)
      requires acts == [] && Valid() && !recovering
      modifies `at, `acts, `auditFailed, `uses, `total
      ensures acts == start && total == old(total).Then(t) && Valid()
      ensures connected == t.Ok(false) && (connected ==> attempted)
      ensures start == if attempted then [Open] else []
      ensures connected ==> t.Follows([Native(Open)], 1, true) && t.replies == []
    {
      attempted, connected, start := false, false, [];
      ghost var more;
      var ok;
      ok, t := Log();
      if !ok { return; }
      connected, more := Call(Open);
      Onward(old(total), t, [], 1, more, [Native(Open)], 0, true, [Native(Open)]);
      attempted, start, t := true, [Open], t.Then(more);
    }

    /** The open and the two queries after it. */
    method Start()
      returns (original: Reply, attempted: bool, connected: bool, ghost start: seq<Act>, ghost t: Tally)
      requires acts == [] && Valid() && !recovering
      modifies `at, `acts, `auditFailed, `uses, `total
      ensures acts == start && total == old(total).Then(t) && Valid()
      ensures original.Status? || original.Broken?
      ensures original.Status? <==> t.Ok(false)
      ensures attempted == (start != []) && (connected ==> attempted) && (original.Status? ==> connected)
      ensures Opening(start) && (!connected ==> start == [] || start == [Open])
      ensures original.Status? ==> start == [Open, Initialize, Read(original.raw), Initialize, Read(original.raw)]
      ensures original.Status? ==> t.Follows(StartPlan(original.raw), 2, true) && t.replies == [original, original]
    {
      original := Broken;
      ghost var more, queries;
      attempted, connected, start, t := OpenSession();
      if !connected { return; }
      original, queries, more := ReadTwice();
      StartJoin(old(total), t, more, original);
      start, t := start + queries, t.Then(more);
    }

    /** The hold, in which replies are passed over. */
    method HoldOff() returns (ok: bool, ghost t: Tally)
      requires Valid()
      modifies `at, `auditFailed, `uses, `total
      ensures total == old(total).Then(t) && Valid() && ok == t.Ok(recovering)
      ensures t.Follows([Hold], 0, ok)
    {
      var held;
      ghost var more;
      held, t := Ask(Hold);
      ok, more := LogPassed(held.passed);
      Onward(old(total), t, [Hold], 0 - held.passed, more, [], held.passed, ok, [Hold]);
      t := t.Then(more);
      ok := ok && held.ok;
    }

    /** The OFF and the hold. */
    method OffAndHold(original: Raw) returns (ok: bool, ghost off: seq<Act>, ghost t: Tally)
      requires Valid() && !recovering
      modifies `at, `acts, `auditFailed, `uses, `total
      ensures acts == old(acts) + off && Toggled(off, original.(on := 0))
      ensures total == old(total).Then(t) && Valid() && ok == t.Ok(false)
      ensures ok ==> off == Confirmed(original.(on := 0))
      ensures t.Follows(TogglePlan(original.(on := 0), false) + [Hold], 3, ok)
    {
      ghost var more;
      ghost var plan := TogglePlan(original.(on := 0), false);
      ok, off, t := Toggle(original, 0, false);
      assert plan <= plan + [Hold];
      if !ok { return; }
      ok, more := HoldOff();
      Onward(old(total), t, plan, 3, more, [Hold], 0, ok, plan + [Hold]);
      t := t.Then(more);
    }

    /**
     Decided on exactly if the output is ON and no stop was asked for; then switched OFF and held, which succeeds
     exactly if every outcome was good.
     */
    method SwitchOff(original: Raw) returns (decided: bool, ok: bool, ghost off: seq<Act>, ghost t: Tally)
      requires Valid() && !recovering
      modifies `at, `acts, `auditFailed, `uses, `total
      ensures acts == old(acts) + off && Toggled(off, original.(on := 0))
      ensures total == old(total).Then(t) && Valid()
      ensures decided <==> original.on == 1 && world(old(at)).ok
      ensures original.on != 1 ==> t == NOTHING
      ensures original.on == 1 ==> t.Follows(OffPlan(original), 3, ok)
      ensures ok <==> original.on == 1 && t.Ok(false)
      ensures !decided ==> off == []
      ensures ok ==> off == Confirmed(original.(on := 0))
    {
      decided, ok, off, t := false, false, [], NOTHING;
      if original.on != 1 { return; }
      var stop;
      ghost var more;
      ghost var plan := TogglePlan(original.(on := 0), false) + [Hold];
      stop, t := Ask(StopCheck);
      if !stop.ok { return; }
      decided := true;
      ok, off, more := OffAndHold(original);
      Onward(old(total), t, [StopCheck], 0, more, plan, 3, ok, [StopCheck] + plan);
      t := t.Then(more);
    }

    method SwitchOffIf(asked: bool, original: Raw)
      returns (decided: bool, ok: bool, ghost off: seq<Act>, ghost t: Tally)
      requires Valid() && !recovering
      modifies `at, `acts, `auditFailed, `uses, `total
      ensures acts == old(acts) + off && total == old(total).Then(t) && Valid()
      ensures decided <==> asked && original.on == 1 && world(old(at)).ok
      ensures if decided then Toggled(off, original.(on := 0)) else off == []
      ensures if asked then ok <==> original.on == 1 && t.Ok(false) else ok && t == NOTHING
      ensures asked && ok ==> decided && off == Confirmed(original.(on := 0)) && t.Follows(OffPlan(original), 3, true)
    {
      decided, ok, off, t := false, true, [], NOTHING;
      if asked { decided, ok, off, t := SwitchOff(original); }
    }

    /** After a decided OFF, whatever became of it: its ON is attempted once. */
    method Restore(original: Raw) returns (restored: bool, ghost on: seq<Act>, ghost t: Tally)
      requires Valid() && recovering && original.on == 1
      modifies `at, `acts, `auditFailed, `uses, `total
      ensures acts == old(acts) + on && on != [] && Toggled(on, original)
      ensures total == old(total).Then(t) && Valid() && restored == t.fine
      ensures restored ==> on == Confirmed(original)
      ensures t.Follows(TogglePlan(original, true), 5, restored)
    {
      var logged;
      ghost var more;
      ghost var plan := TogglePlan(original, true);
      assert original.(on := 1) == original;
      logged, t := Log();
      restored, on, more := Toggle(original, 1, true);
      Onward(old(total), t, [], 1, more, plan, 3, restored, plan);
      t := t.Then(more);
      if restored {
        logged, more := Log();
        Onward(old(total), t, plan, 4, more, [], 1, true, plan);
        t := t.Then(more);
      }
    }

    /** A native call that is made only if it is due. */
    method CallIf(due: bool, a: Act) returns (ok: bool, ghost added: seq<Act>, ghost t: Tally)
      requires Valid() && !a.Set? && !a.Initialize?
      modifies `at, `acts, `uses, `total
      ensures acts == old(acts) + added && added == (if due then [a] else [])
      ensures total == old(total).Then(t) && Valid() && ok == t.fine && t.logged && (!due ==> ok)
      ensures t.Follows(if due then [Native(a)] else [], 0, true)
    {
      ok, added, t := true, [], NOTHING;
      if due {
        ok, t := Call(a);
        added := [a];
      }
    }

    method CloseAndLog(connected: bool) returns (closed: bool, ghost end: seq<Act>, ghost t: Tally)
      requires Valid() && recovering
      modifies `at, `acts, `auditFailed, `uses, `total
      ensures acts == old(acts) + end && total == old(total).Then(t) && Valid()
      ensures end == (if connected then [Close] else []) && closed == (connected && t.fine)
      ensures t.Follows(if connected then [Native(Close)] else [], 1, true) && (!connected ==> t.fine)
    {
      ghost var more;
      ghost var plan := if connected then [Native(Close)] else [];
      var ok, finish;
      ok, end, t := CallIf(connected, Close);
      closed := connected && ok;
      finish, more := Log();
      Onward(old(total), t, plan, 0, more, [], 1, true, plan);
      t := t.Then(more);
    }

    /** The close, the last log write, and the removal of the lock, which stays if a close failed. */
    method Leave(attempted: bool, connected: bool)
      returns (ok: bool, closed: bool, ghost end: seq<Act>, ghost t: Tally)
      requires Valid() && recovering && (connected ==> attempted)
      modifies `at, `acts, `auditFailed, `uses, `total
      ensures acts == old(acts) + end && (closed ==> connected) && total == old(total).Then(t) && Valid()
      ensures end == (if connected then [Close] else []) + (if !attempted || closed then [Unlink] else [])
      ensures ok <==> t.fine && total.logged
      ensures ok && connected ==> closed
      ensures t.Follows(LeavePlan(attempted, connected, closed), 1, true)
    {
      ghost var more, last;
      ghost var first := if connected then [Native(Close)] else [];
      closed, end, t := CloseAndLog(connected);
      var removed;
      removed, last, more := CallIf(!attempted || closed, Unlink);
      ghost var unlink := if !attempted || closed then [Native(Unlink)] else [];
      Onward(old(total), t, first, 1, more, unlink, 0, true, first + unlink);
      end, t := end + last, t.Then(more);
      ok := (connected ==> closed) && removed && !auditFailed;
    }

    method RestoreIf(attemptedOff: bool, original: Raw) returns (ok: bool, ghost on: seq<Act>, ghost t: Tally)
      requires Valid() && recovering && (attemptedOff ==> original.on == 1)
      modifies `at, `acts, `auditFailed, `uses, `total
      ensures acts == old(acts) + on && total == old(total).Then(t) && Valid() && ok == t.fine
      ensures if attemptedOff then on != [] && Toggled(on, original) else on == []
      ensures attemptedOff && ok ==> on == Confirmed(original)
      ensures t.Follows(RestorePlan(original, attemptedOff), if attemptedOff then 5 else 0, ok)
    {
      ok, on, t := true, [], NOTHING;
      if attemptedOff { ok, on, t := Restore(original); }
    }

    /** What is done at the end however the rest went: the restoring ON, if an OFF was decided on, and the leaving. */
    method WrapUp(original: Raw, attemptedOff: bool, attempted: bool, connected: bool)
      returns (ok: bool, restored: bool, closed: bool, ghost on: seq<Act>, ghost end: seq<Act>, ghost t: Tally)
      requires Valid() && (connected ==> attempted) && (attemptedOff ==> original.on == 1)
      modifies `at, `acts, `auditFailed, `uses, `total, `recovering
      ensures acts == old(acts) + on + end && total == old(total).Then(t) && Valid() && (closed ==> connected)
      ensures if attemptedOff then on != [] && Toggled(on, original) else on == []
      ensures restored ==> attemptedOff && on == Confirmed(original)
      ensures end == (if connected then [Close] else []) + (if !attempted || closed then [Unlink] else [])
      ensures ok <==> t.fine && total.logged
      ensures ok ==> restored == attemptedOff && closed == connected
      ensures ok ==> t.Follows(RestorePlan(original, attemptedOff) + LeavePlan(attempted, connected, connected),
        if attemptedOff then 6 else 1, true)
    {
      ghost var more;
      var done;
      recovering := true;
      done, on, t := RestoreIf(attemptedOff, original);
      restored := attemptedOff && done;
      ok, closed, end, more := Leave(attempted, connected);
      ghost var first, last := RestorePlan(original, attemptedOff), LeavePlan(attempted, connected, closed);
      TallyJoin(old(total), t, first, more, last, done);
      t := t.Then(more);
      ok := ok && done;
    }

    /**
     The transaction: OFF is written at most once, and if it was decided on, exactly one ON with the original limits
     is attempted before the close, whatever fails. An interval out of bounds or without the confirmation is refused
     before anything is done; otherwise it completes exactly if every outcome was good, the replies and every log
     write included, and an output to be switched OFF was ON. A completed one has asked for everything planned, in
     order, has written every log line due, and its snapshot is what both first queries read.
     */
    method Run(offSeconds: int, confirmed: bool) returns (result: Result, ghost story: Story)
      requires at == 0 && acts == [] && !recovering && uses == [] && Valid()
      modifies this
      ensures Valid()
      ensures result.Refused? <==> !(offSeconds == 0 || (confirmed && 1 <= offSeconds <= LONGEST_OFF))
      ensures result.Refused? ==> acts == [] && at == 0
      ensures !result.Refused? ==> acts == story.All() && Sound(story)
      ensures offSeconds == 0 ==> !story.decided
      ensures !result.Refused? ==>
        (result.Complete? <==> AllGood(uses) && (offSeconds > 0 ==> story.original.on == 1))
      ensures result.Complete? ==>
        && result.snapshot == story.original && result.restored == story.decided == (offSeconds > 0)
        && story.closed
        && (story.decided ==>
            story.off == Confirmed(story.original.(on := 0)) && story.on == Confirmed(story.original))
      ensures result.Complete? ==>
        && Total(uses).Follows(RunPlan(result.snapshot, offSeconds > 0), if offSeconds > 0 then 11 else 3, true)
        && [Status(result.snapshot), Status(result.snapshot)] <= Total(uses).replies
    {
      var restored, attemptedOff, switchedOff;
      ghost var start, off, on, end, more, t := [], [], [], [], NOTHING, NOTHING;
      if offSeconds < 0 || offSeconds > LONGEST_OFF || (offSeconds != 0 && !confirmed) {
        return Refused, Story([], [], [], [], Raw(0, 0, 0, 0), false, false, false);
      }
      var first, attempted, connected;
      first, attempted, connected, start, t := Start();
      ghost var began, switched := t, NOTHING;
      var original := if first.Status? then first.raw else Raw(0, 0, 0, 0);
      attemptedOff, switchedOff, off, switched := SwitchOffIf(first.Status? && offSeconds > 0, original);
      var wrapped, closed;
      wrapped, restored, closed, on, end, more := WrapUp(original, attemptedOff, attempted, connected);
      story := Story(start, off, on, end, original, attemptedOff, connected, closed);
      result := if first.Status? && switchedOff && wrapped then Complete(first.raw, restored) else Failed;
      TotalGood(uses);
      if result.Complete? { RunJoin(began, switched, more, original, offSeconds > 0); }
    }
  }

  predicate IsOff(a: Act) {
    a.Set? && a.raw.on == 0
  }

  predicate IsOn(a: Act) {
    a.Set? && a.raw.on != 0
  }

  lemma PartAt(s: Story, k: nat)
    requires k < |s.All()|
    ensures k < |s.start| ==> s.All()[k] == s.start[k]
    ensures |s.start| <= k < |s.start| + |s.off| ==> s.All()[k] == s.off[k - |s.start|]
    ensures |s.start| + |s.off| <= k < |s.start| + |s.off| + |s.on| ==> s.All()[k] == s.on[k - |s.start| - |s.off|]
    ensures |s.start| + |s.off| + |s.on| <= k ==> s.All()[k] == s.end[k - |s.start| - |s.off| - |s.on|]
  {
  }

  /** In a sound story the setters stand at the front of off and of on, and the close and unlink after them. */
  lemma Places(s: Story, k: nat)
    requires Sound(s) && k < |s.All()|
    ensures s.All()[k].Set? ==> s.decided
    ensures IsOff(s.All()[k]) ==> k == |s.start| && s.off != [] && s.All()[k].raw == s.original.(on := 0)
    ensures IsOn(s.All()[k]) ==> k == |s.start| + |s.off| && s.All()[k].raw == s.original
    ensures s.All()[k] == Open ==> k == 0 && s.start != []
    ensures s.All()[k] == Close || s.All()[k] == Unlink ==> k >= |s.start| + |s.off| + |s.on|
  {
    PartAt(s, k);
  }

  /**
   Wherever failures fall: at most one OFF and one ON are written, both with the original limits, and once the OFF
   was decided on, the ON is there, after any OFF and before the close.
   */
  lemma OffIsFollowedByOn(s: Story, i: nat, j: nat)
    requires Sound(s) && i < |s.All()| && j < |s.All()|
    ensures IsOff(s.All()[i]) && IsOff(s.All()[j]) ==> i == j
    ensures IsOn(s.All()[i]) && IsOn(s.All()[j]) ==> i == j && s.All()[i].raw == s.original
    ensures IsOff(s.All()[i]) ==> s.All()[i].raw == s.original.(on := 0)
    ensures s.decided ==> s.original.on == 1 && Set(s.original) in s.All()
    ensures s.decided && IsOff(s.All()[i]) && IsOn(s.All()[j]) ==> i < j
    ensures s.decided && IsOn(s.All()[i]) && s.All()[j] == Close ==> i < j
    ensures s.All()[i].Set? ==> s.decided
  {
    Places(s, i);
    Places(s, j);
    if s.decided {
      PartAt(s, |s.start| + |s.off|);
      assert s.All()[|s.start| + |s.off|] == Set(s.original);
    }
  }

  /** The port's lock is removed exactly if no open was attempted or the close succeeded, as the last act. */
  lemma LockIsKept(s: Story)
    requires Sound(s)
    ensures Unlink in s.All() <==> Open !in s.All() || s.closed
    ensures Unlink in s.All() ==> s.All()[|s.All()| - 1] == Unlink
  {
    var a := s.All();
    if k :| 0 <= k < |a| && a[k] == Unlink {
      Places(s, k);
      PartAt(s, k);
    }
    if k :| 0 <= k < |a| && a[k] == Open {
      Places(s, k);
    }
    if s.start != [] {
      assert a[0] == Open;
    }
    if s.end != [] {
      PartAt(s, |a| - 1);
      assert a[|a| - 1] == s.end[|s.end| - 1];
    }
  }
}
