/** Which replies reach the queue, which one answers a request, and that a request can always be answered. */
module OutputReplies {
  import opened Bytes
  import opened OutputProtocol

  // ----- what is published

  /** A status with a valid snapshot or an acknowledgement, read in the present epoch, while the queue has room. */
  predicate Enters(s: State, e: Event, valid: bool) {
    e.epoch == s.epoch && |s.queue| < 32 && (e.kind == 6 || (e.kind == 4 && valid))
  }

  /** The serial line is gone, or a reply of the present epoch is malformed or finds the queue full. */
  predicate Kills(s: State, e: Event, valid: bool) {
    || e.kind == 255
    || (e.epoch == s.epoch && ((e.kind == 4 && !valid) || ((e.kind == 4 || e.kind == 6) && |s.queue| >= 32)))
  }

  lemma PublishedExactly(s: State, valid: bool)
    requires Enabled(s, Publish(valid)) && QueueOk(s)
    ensures var e := s.reader.event; var t := Next(s, Publish(valid));
      && t.queue == s.queue + (if Enters(s, e, valid) then [e.(number := s.sequence + 1)] else [])
      && (t.reader == Dead <==> Kills(s, e, valid)) && (t.error <==> s.error || Kills(s, e, valid))
      && (!Kills(s, e, valid) ==> t.reader == AtTop)
      && t.drops == s.drops + (if (e.kind == 4 || e.kind == 6) && e.epoch != s.epoch then 1 else 0)
  {
  }

  // ----- the controller's other sections

  /**
   Opening always begins a new epoch. The request goes on to wait for the reader exactly in a recovery, or if every
   drained reply could be logged and the reader is alive; the queue is empty then, and otherwise the controller is free.
   */
  lemma OpenExactly(s: State, recovery: bool, logged: nat)
    requires Enabled(s, Open(recovery, logged))
    ensures var t := Next(s, Open(recovery, logged));
      var goesOn := recovery || (|s.queue| <= logged && !s.error);
      && t.epoch == s.epoch + 1 && t.req == None && t.control == (if goesOn then Waiting(recovery) else Free)
      && t.queue == (if !recovery && logged < |s.queue| then s.queue[logged + 1..] else [])
  {
  }

  /** A query waits for the reader to enter the new epoch, a recovery's setter for nothing; both start from no reply. */
  lemma SendExactly(s: State, kinds: set<nat>)
    requires s.control.Waiting?
    ensures Enabled(s, Send(kinds)) <==>
      if s.control.recovery then kinds == {4, 6}
      else (kinds == {4} || kinds == {4, 6}) && !s.error && s.readEntered == s.epoch
    ensures Enabled(s, Send(kinds)) ==>
      var t := Next(s, Send(kinds)); t.control == Sending && t.queue == [] && t.req.Some? && t.req.value.kinds == kinds
  {
  }

  /** A failed native call ends the request; a successful one is awaited, and starts the reader if it has to be. */
  lemma SentExactly(s: State, ok: bool)
    requires Enabled(s, Sent(ok))
    ensures var t := Next(s, Sent(ok));
      && t.control == (if ok then Awaiting(false) else Free) && t.req == s.req
      && t.reader == (if ok && s.reader == NotStarted then AtTop else s.reader)
  {
  }

  /** What is awaited may time out between polls, and a poll may find nothing; neither touches queue or answers. */
  lemma AwaitingMoves(s: State)
    requires s.control.Awaiting?
    ensures Enabled(s, TimeOut) <==> !s.control.polling
    ensures Enabled(s, PollEmpty) <==> s.control.polling
    ensures Enabled(s, Receive) <==> s.control.polling && s.queue != []
    ensures Enabled(s, TimeOut) ==> Next(s, TimeOut) == s.(control := Free, steps := s.steps + 1)
    ensures Enabled(s, PollEmpty) ==> Next(s, PollEmpty) == s.(control := Awaiting(false), steps := s.steps + 1)
  {
  }

  /** Giving up a request takes what was drained off the queue; a hold takes one reply at a time. */
  lemma QueueMoves(s: State, taken: nat)
    requires taken <= |s.queue|
    ensures s.control == Waiting(false) ==>
      && Enabled(s, GiveUp(taken))
      && Next(s, GiveUp(taken)) == s.(control := Free, queue := s.queue[taken..], steps := s.steps + 1)
    ensures s.control == Free ==> (Enabled(s, HoldTakes) <==> s.queue != [])
    ensures s.control == Free && s.queue != [] ==>
      Next(s, HoldTakes) == s.(queue := s.queue[1..], steps := s.steps + 1)
  {
  }

  /** A stop may be asked for at any time, is never taken back, and ends the reader when it next looks. */
  lemma {:induction false} StopStays(s: State, run: seq<Step>)
    requires Play(s, [RequestStop] + run).Some?
    ensures var t := Play(s, [RequestStop] + run).value;
      t.stop && (t.reader == AtTop ==> Next(t, LookAtStop).reader == Dead)
    decreases |run|
  {
    var all := [RequestStop] + run;
    if run == [] {
      assert all[..0] == [] && all[0] == RequestStop;
      assert Play(s, all[..0]) == Some(s);
    } else {
      assert all[..|all| - 1] == [RequestStop] + run[..|run| - 1];
      StopStays(s, run[..|run| - 1]);
    }
  }

  lemma StopAnytime(s: State)
    ensures Enabled(s, RequestStop)
  {
  }

  // ----- which reply answers

  /** Waiting for a reply: the reader goes on, the clock runs, and the controller polls. */
  predicate Waits(a: Step) {
    OfReader(a) || a.LookAtError? || a.Receive? || a.PollEmpty? || a.Advance? || a.RequestStop?
  }

  predicate AllWait(run: seq<Step>) {
    forall a :: a in run ==> Waits(a)
  }

  /** What one step adds to the queue. */
  function Added(mid: State, a: Step): seq<Event>
    requires Enabled(mid, a)
  {
    var queue := Next(mid, a).queue;
    if a.Publish? && |queue| > |mid.queue| then [queue[|queue| - 1]] else []
  }

  /** The replies queued during a run. */
  function Arrived(s: State, run: seq<Step>): seq<Event>
    requires Play(s, run).Some?
    decreases |run|
  {
    if run == [] then []
    else
      Arrived(s, run[..|run| - 1]) + Added(Play(s, run[..|run| - 1]).value, run[|run| - 1])
  }

  function Receives(run: seq<Step>): nat {
    if run == [] then 0 else Receives(run[..|run| - 1]) + (if run[|run| - 1].Receive? then 1 else 0)
  }

  predicate NoMatch(r: Req, all: seq<Event>, n: nat) {
    n <= |all| && forall k :: 0 <= k < n ==> !Matches(r, all[k])
  }

  predicate LastMatches(s: State, t: State, all: seq<Event>, n: nat)
    requires s.req.Some?
  {
    && 0 < n <= |all| && NoMatch(s.req.value, all, n - 1) && Matches(s.req.value, all[n - 1])
    && t.control == Free && t.answers == s.answers + [Answer(s.req.value, all[n - 1])]
  }

  /** The first n of the replies have been looked at: none of them matched, or the last was the first that did. */
  predicate LookedAt(s: State, t: State, all: seq<Event>, n: nat)
    requires s.req.Some?
  {
    && n <= |all| && t.queue == all[n..] && t.req == s.req
    && ((t.answers == s.answers && NoMatch(s.req.value, all, n)) || LastMatches(s, t, all, n))
  }

  lemma LookStep(s: State, t: State, all: seq<Event>, n: nat, a: Step)
    requires s.req.Some? && LookedAt(s, t, all, n) && (t.control == Free || t.control.Awaiting?)
    requires Enabled(t, a) && Waits(a) && !a.Publish?
    requires t.control.Awaiting? ==> t.answers == s.answers
    ensures var u := Next(t, a);
      && LookedAt(s, u, all, n + if a.Receive? then 1 else 0)
      && (u.control == Free || u.control.Awaiting?) && (u.control.Awaiting? ==> u.answers == s.answers)
  {
  }

  lemma LookPublish(s: State, t: State, all: seq<Event>, n: nat, a: Step)
    requires s.req.Some? && LookedAt(s, t, all, n) && Enabled(t, a) && a.Publish?
    ensures var u := Next(t, a);
      var more := if |u.queue| > |t.queue| then [u.queue[|u.queue| - 1]] else [];
      LookedAt(s, u, all + more, n) && u.control == t.control && u.answers == t.answers
  {
    var u := Next(t, a);
    var more := if |u.queue| > |t.queue| then [u.queue[|u.queue| - 1]] else [];
    assert u.queue == t.queue + more;
    assert (all + more)[n..] == all[n..] + more;
  }

  lemma LastStep(s: State, run: seq<Step>, front: seq<Step>, a: Step)
    requires run != [] && front == run[..|run| - 1] && a == run[|run| - 1] && Play(s, run).Some?
    ensures Play(s, front).Some? && Enabled(Play(s, front).value, a)
    ensures Play(s, run) == Some(Next(Play(s, front).value, a))
    ensures Arrived(s, run) == Arrived(s, front) + Added(Play(s, front).value, a)
    ensures Receives(run) == Receives(front) + if a.Receive? then 1 else 0
  {
  }

  lemma LookOn(s: State, mid: State, all: seq<Event>, n: nat, a: Step)
    requires s.req.Some? && LookedAt(s, mid, all, n) && Enabled(mid, a) && Waits(a)
    requires (mid.control == Free || mid.control.Awaiting?) && (mid.control.Awaiting? ==> mid.answers == s.answers)
    ensures var u := Next(mid, a);
      && LookedAt(s, u, all + Added(mid, a), n + if a.Receive? then 1 else 0)
      && (u.control == Free || u.control.Awaiting?) && (u.control.Awaiting? ==> u.answers == s.answers)
  {
    if a.Publish? {
      LookPublish(s, mid, all, n, a);
    } else {
      LookStep(s, mid, all, n, a);
      assert all + [] == all;
    }
  }

  lemma {:induction false} LookRun(s: State, run: seq<Step>)
    requires s.req.Some? && s.control.Awaiting? && Play(s, run).Some? && AllWait(run)
    ensures var t := Play(s, run).value;
      && LookedAt(s, t, s.queue + Arrived(s, run), Receives(run))
      && (t.control == Free || t.control.Awaiting?) && (t.control.Awaiting? ==> t.answers == s.answers)
    decreases |run|
  {
    if run == [] {
      assert s.queue + [] == s.queue;
    } else {
      var front, a := run[..|run| - 1], run[|run| - 1];
      assert AllWait(front) && Waits(a);
      LastStep(s, run, front, a);
      LookRun(s, front);
      var mid := Play(s, front).value;
      LookOn(s, mid, s.queue + Arrived(s, front), Receives(front), a);
      assert s.queue + Arrived(s, run) == s.queue + Arrived(s, front) + Added(mid, a);
    }
  }

  /** After a request's send at time sentTick: a reply timed later, and of an awaited kind. */
  predicate Awaited(e: Event, sentTick: nat, kinds: set<nat>) {
    e.tick > sentTick && e.kind in kinds
  }

  /** A request as it is once its native call has returned. */
  function AfterSend(s: State, kinds: set<nat>): State
    requires Enabled(s, Send(kinds))
  {
    Next(Next(s, Send(kinds)), Sent(true))
  }

  lemma PublishedFresh(s: State, a: Step, e: Event)
    requires Enabled(s, a) && Inv(Next(s, a)) && Next(s, a).req.Some? && e in Next(s, a).queue
    ensures e.number > Next(s, a).req.value.marker && e.epoch == Next(s, a).req.value.epoch
  {
    assert QueuedOk(Next(s, a), e);
  }

  /** While a request waits, all that arrives is of its epoch and above its marker. */
  lemma {:induction false} ArrivedFresh(s: State, run: seq<Step>, e: Event)
    requires Inv(s) && s.req.Some? && s.control.Awaiting? && Play(s, run).Some? && AllWait(run)
    requires e in Arrived(s, run)
    ensures e.number > s.req.value.marker && e.epoch == s.req.value.epoch
    decreases |run|
  {
    var front, a := run[..|run| - 1], run[|run| - 1];
    assert AllWait(front);
    if e in Arrived(s, front) {
      ArrivedFresh(s, front, e);
    } else {
      var mid := Play(s, front).value;
      RunInv(s, run);
      RequestKept(s, run);
      PublishedFresh(mid, a, e);
    }
  }

  lemma RequestKept(s: State, run: seq<Step>)
    requires s.req.Some? && s.control.Awaiting? && Play(s, run).Some? && AllWait(run)
    ensures Play(s, run).value.req == s.req
  {
    LookRun(s, run);
  }

  /** What a request is checked against, its replies being of its epoch and above its marker anyway. */
  lemma MatchIsAwaited(s: State, kinds: set<nat>, more: seq<Step>, e: Event)
    requires Inv(s) && Enabled(s, Send(kinds)) && Inv(AfterSend(s, kinds))
    requires Play(AfterSend(s, kinds), more).Some? && AllWait(more) && e in Arrived(AfterSend(s, kinds), more)
    ensures Matches(AfterSend(s, kinds).req.value, e) <==> Awaited(e, s.clock, kinds)
  {
    ArrivedFresh(AfterSend(s, kinds), more, e);
  }

  lemma SentWaits(s: State, kinds: set<nat>)
    requires Inv(s) && Enabled(s, Send(kinds))
    ensures var t := AfterSend(s, kinds);
      Inv(t) && t.control == Awaiting(false) && t.req.Some? && t.queue == [] && t.answers == s.answers
  {
    StepInv(s, Send(kinds));
    StepInv(Next(s, Send(kinds)), Sent(true));
  }

  /** Looked at as above, in terms of the send. */
  predicate FirstAnswers(s: State, kinds: set<nat>, t: State, u: State, all: seq<Event>, n: nat)
    requires t.req.Some?
  {
    && n <= |all| && u.queue == all[n..]
    && if n > 0 && Awaited(all[n - 1], s.clock, kinds) then
         && u.control == Free && u.answers == s.answers + [Answer(t.req.value, all[n - 1])]
         && forall k :: 0 <= k < n - 1 ==> !Awaited(all[k], s.clock, kinds)
       else u.answers == s.answers && forall k :: 0 <= k < n ==> !Awaited(all[k], s.clock, kinds)
  }

  lemma LookedAtAnswers(s: State, kinds: set<nat>, t: State, u: State, all: seq<Event>, n: nat)
    requires t.req.Some? && t.answers == s.answers && LookedAt(t, u, all, n)
    requires forall e :: e in all ==> (Matches(t.req.value, e) <==> Awaited(e, s.clock, kinds))
    ensures FirstAnswers(s, kinds, t, u, all, n)
  {
    assert forall k :: 0 <= k < n ==> all[k] in all;
  }

  /**
   Wherever a run sends a request: of the replies that are queued while it waits, in order, polling looks at one after
   the other, and the first that is timed after the send and of an awaited kind is its answer; before that, or if none
   such comes, there is no answer.
   */
  lemma FirstAwaitedAnswers(run: seq<Step>, kinds: set<nat>, more: seq<Step>)
    requires Play(Init(), run).Some? && Enabled(Play(Init(), run).value, Send(kinds))
    requires Play(AfterSend(Play(Init(), run).value, kinds), more).Some? && AllWait(more)
    ensures var s := Play(Init(), run).value; var t := AfterSend(s, kinds);
      t.req.Some? && FirstAnswers(s, kinds, t, Play(t, more).value, Arrived(t, more), Receives(more))
  {
    var s := Play(Init(), run).value;
    var t := AfterSend(s, kinds);
    InitInv();
    RunInv(Init(), run);
    SentWaits(s, kinds);
    LookRun(t, more);
    var all := Arrived(t, more);
    assert t.queue + all == all;
    forall e | e in all
      ensures Matches(t.req.value, e) <==> Awaited(e, s.clock, kinds)
    {
      MatchIsAwaited(s, kinds, more, e);
    }
    LookedAtAnswers(s, kinds, t, Play(t, more).value, all, Receives(more));
  }

  // ----- a request can be answered

  predicate Ends(s: State, run: seq<Step>, t: State) {
    Play(s, run) == Some(t)
  }

  lemma Then(s: State, run: seq<Step>, mid: State, a: Step) returns (longer: seq<Step>)
    requires Ends(s, run, mid) && Enabled(mid, a)
    ensures Ends(s, longer, Next(mid, a))
  {
    PlayTo(s, run, mid, a);
    longer := run + [a];
  }

  /** A read of some other measurement is over and leaves nothing. */
  lemma Skip(s: State, run: seq<Step>, mid: State) returns (longer: seq<Step>)
    requires Ends(s, run, mid) && mid.reader.InRead? && LockFree(mid)
    ensures Ends(s, longer, mid.(reader := AtTop, steps := mid.steps + 3))
  {
    longer := Then(s, run, mid, ReadReturns(0, 0));
    var a := Next(mid, ReadReturns(0, 0));
    longer := Then(s, longer, a, TakeTime);
    longer := Then(s, longer, Next(a, TakeTime), Publish(true));
  }

  /** The reply that the next read brings, timed one tick after the send. */
  function Reply(t: State, kind: nat, payload: nat): Event
    requires t.reader.InRead?
  {
    Event(t.sequence + 1, kind, payload, t.epoch, t.clock + 1, t.reader.entered, t.steps, t.steps + 2)
  }

  /** The request and the reader are ready for a reply of a kind. */
  predicate Ready(t: State, kind: nat) {
    && t.reader.InRead? && t.reader.epoch == t.epoch && !t.error && t.queue == [] && t.control == Awaiting(false)
    && t.req.Some? && t.req.value.marker <= t.sequence && t.req.value.epoch == t.epoch
    && t.req.value.sendTick <= t.clock && kind in t.req.value.kinds && (kind == STATUS || kind == ACK)
  }

  function Timed(t: State, kind: nat, payload: nat): State
    requires t.reader.InRead?
  {
    t.(reader := Stamped(Reply(t, kind, payload).(number := 0)), clock := t.clock + 1, steps := t.steps + 3)
  }

  lemma IsTimed(s: State, run: seq<Step>, t: State, kind: nat, payload: nat) returns (longer: seq<Step>)
    requires Ends(s, run, t) && Ready(t, kind)
    ensures Ends(s, longer, Timed(t, kind, payload))
  {
    var a := Next(t, ReadReturns(kind, payload));
    longer := Then(s, run, t, ReadReturns(kind, payload));
    longer := Then(s, longer, a, Advance(1));
    longer := Then(s, longer, Next(a, Advance(1)), TakeTime);
  }

  function Queued(t: State, kind: nat, payload: nat): State
    requires t.reader.InRead?
  {
    Timed(t, kind, payload).(sequence := t.sequence + 1, queue := [Reply(t, kind, payload)], reader := AtTop,
      steps := t.steps + 4)
  }

  lemma IsQueued(s: State, run: seq<Step>, t: State, kind: nat, payload: nat) returns (longer: seq<Step>)
    requires Ready(t, kind) && Ends(s, run, Timed(t, kind, payload))
    ensures Ends(s, longer, Queued(t, kind, payload))
  {
    longer := Then(s, run, Timed(t, kind, payload), Publish(true));
    assert t.queue + [Reply(t, kind, payload)] == [Reply(t, kind, payload)];
  }

  function Answered(t: State, kind: nat, payload: nat): State
    requires Ready(t, kind)
  {
    Queued(t, kind, payload).(queue := [], control := Free, steps := t.steps + 6,
      answers := t.answers + [Answer(t.req.value, Reply(t, kind, payload))])
  }

  lemma IsAnswered(s: State, run: seq<Step>, t: State, kind: nat, payload: nat) returns (longer: seq<Step>)
    requires Ready(t, kind) && Ends(s, run, Queued(t, kind, payload))
    ensures Ends(s, longer, Answered(t, kind, payload))
  {
    var q := Queued(t, kind, payload);
    var r := Next(q, LookAtError);
    longer := Then(s, run, q, LookAtError);
    longer := Then(s, longer, r, Receive);
    assert r.queue[1..] == [];
  }

  lemma SentIsReady(m: State, kinds: set<nat>, kind: nat)
    requires Inv(m) && Enabled(m, Send(kinds)) && kind in kinds && m.reader.InRead? && m.control == Waiting(false)
    ensures Ready(AfterSend(m, kinds), kind)
  {
    assert ReaderOk(m) && ControlOk(m);
  }

  /** The reader comes to a read of the present epoch, from anywhere but the end of a read. */
  lemma EnterAnew(s: State, run: seq<Step>, mid: State) returns (longer: seq<Step>, t: State)
    requires Ends(s, run, mid) && !mid.stop && LockFree(mid)
    requires mid.reader == AtTop || mid.reader == GoingOn || mid.reader.InRead?
    ensures Ends(s, longer, t) && t.reader.InRead? && t.readEntered == t.epoch
    ensures t == mid.(reader := t.reader, readEntered := t.readEntered, steps := t.steps)
  {
    longer, t := run, mid;
    if mid.reader.InRead? {
      longer := Skip(s, run, mid);
      t := mid.(reader := AtTop, steps := mid.steps + 3);
    }
    if t.reader == AtTop {
      longer := Then(s, longer, t, LookAtStop);
      t := Next(t, LookAtStop);
    }
    longer := Then(s, longer, t, Capture);
    t := Next(t, Capture);
  }

  /** A run that opens and sends one more request and gets it answered by a reply read after its send. */
  predicate AnswersOneMore(s: State, run: seq<Step>, kinds: set<nat>, kind: nat, payload: nat) {
    && Play(s, run).Some? && |Play(s, run).value.answers| == |s.answers| + 1
    && var a := Play(s, run).value.answers[|s.answers|];
       a.req.kinds == kinds && a.event.kind == kind && a.event.payload == payload && a.event.returned > a.req.sentAt
  }

  /**
   Wherever the controller is free and the reader is alive and not about to deliver a reply, a request of either kind
   can be opened, sent and answered, with any payload and each kind of reply it awaits, by a reply read after its send.
   */
  lemma CanBeAnswered(run: seq<Step>, kinds: set<nat>, kind: nat, payload: nat) returns (more: seq<Step>)
    requires Play(Init(), run).Some? && (kinds == QUERY || kinds == SETTER) && kind in kinds
    requires var s := Play(Init(), run).value;
      s.control == Free && !s.stop && !s.error && (s.reader == AtTop || s.reader == GoingOn || s.reader.InRead?)
    ensures AnswersOneMore(Play(Init(), run).value, more, kinds, kind, payload)
  {
    var s := Play(Init(), run).value;
    InitInv();
    RunInv(Init(), run);
    assert Ends(s, [], s);
    more := Then(s, [], s, Open(false, |s.queue|));
    var begun := Next(s, Open(false, |s.queue|));
    var m;
    more, m := EnterAnew(s, more, begun);
    RunInv(s, more);
    more := Then(s, more, m, Send(kinds));
    more := Then(s, more, Next(m, Send(kinds)), Sent(true));
    SentIsReady(m, kinds, kind);
    var t := AfterSend(m, kinds);
    more := IsTimed(s, more, t, kind, payload);
    more := IsQueued(s, more, t, kind, payload);
    more := IsAnswered(s, more, t, kind, payload);
  }
}
