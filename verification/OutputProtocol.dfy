/**
 The request and reply protocol between the controller and its reader thread: every interleaving of their
 atomic sections. What the clock shows, what a native call returns and which log write fails is part of the step.
 */
module OutputProtocol {
  import opened Bytes

  const STATUS := 4
  const ACK := 6
  const GONE := 255
  const QUEUE_LIMIT := 32

  /**
   A reply in the queue. The step numbers at the end are history: when its native read was entered and
   returned, and when its receive time was taken.
   */
  datatype Event = Event(
    number: nat, kind: nat, payload: nat, epoch: nat, tick: nat, entered: nat, returned: nat, stamped: nat)

  /** What the reader thread is about to do. */
  datatype Reader =
    | NotStarted
    | AtTop
    | GoingOn
    | InRead(epoch: nat, entered: nat)
    | Returned(epoch: nat, entered: nat, returned: nat, kind: nat, payload: nat)
    | Stamped(event: Event)
    | Dead

  /**
   A request: the sequence number and epoch replies are checked against, the time just before the native call, and
   the kinds of reply it will wait for; openedAt and sentAt are step numbers. held says whether at the send the
   reader had an unstamped reply of such a kind.
   */
  datatype Req = Req(
    marker: nat, epoch: nat, sendTick: nat, kinds: set<nat>, openedAt: nat, sentAt: nat, held: bool)

  datatype Control =
    | Free
    | Waiting(recovery: bool)
    | Sending
    | Awaiting(polling: bool)

  datatype Answer = Answer(req: Req, event: Event)

  datatype State = State(
    epoch: nat, sequence: nat, readEntered: int, drops: nat, queue: seq<Event>, error: bool, stop: bool,
    reader: Reader, control: Control, openedAt: nat, req: Option<Req>, answers: seq<Answer>, clock: nat, steps: nat)

  datatype Step =
    // the reader thread
    | LookAtStop
    | Capture
    | ReadReturns(kind: nat, payload: nat)
    | ReadFails
    | TakeTime
    | Publish(valid: bool)
    // the controller; logged is how many log writes succeed, taken how many replies were drained
    | Bootstrap
    | Open(recovery: bool, logged: nat)
    | Send(kinds: set<nat>)
    | GiveUp(taken: nat)
    | Sent(ok: bool)
    | LookAtError
    | Receive
    | PollEmpty
    | TimeOut
    | HoldTakes
    | RequestStop
    // the clock
    | Advance(ticks: nat)

  function Init(): State {
    State(0, 0, -1, 0, [], false, false, NotStarted, Free, 0, None, [], 0, 0)
  }

  /** The controller keeps the lock while it sends; it gives it up while it waits for the reader. */
  predicate LockFree(s: State) {
    s.control != Sending
  }

  predicate Reports(kind: nat) {
    kind == STATUS || kind == ACK
  }

  /** A query waits for the settings only, a setter for its acknowledgement as well. */
  const QUERY := {STATUS}
  const SETTER := {STATUS, ACK}

  predicate Enabled(s: State, a: Step) {
    match a
    case LookAtStop => s.reader == AtTop
    case Capture => s.reader == GoingOn && LockFree(s)
    case ReadReturns(_, _) => s.reader.InRead?
    case ReadFails => s.reader.InRead?
    case TakeTime => s.reader.Returned?
    case Publish(_) => s.reader.Stamped? && (Reports(s.reader.event.kind) ==> LockFree(s))
    case Bootstrap => s.control == Free && s.reader == NotStarted
    case Open(_, _) => s.control == Free && s.reader != NotStarted
    case Send(kinds) =>
      && s.control.Waiting? && (kinds == QUERY || kinds == SETTER)
      && (if s.control.recovery then kinds == SETTER else !s.error && s.readEntered == s.epoch)
    case GiveUp(taken) => s.control == Waiting(false) && taken <= |s.queue|
    case Sent(_) => s.control == Sending
    case LookAtError => s.control.Awaiting? && !s.control.polling
    case Receive => s.control.Awaiting? && s.control.polling && s.queue != []
    case PollEmpty => s.control.Awaiting? && s.control.polling
    case TimeOut => s.control.Awaiting? && !s.control.polling
    case HoldTakes => s.control == Free && s.queue != []
    case RequestStop => true
    case Advance(_) => true
  }

  function Failed(s: State): State {
    s.(error := true, reader := Dead)
  }

  /** The reader's section under the lock: stale epochs are dropped, bad snapshots and a full queue end the thread. */
  function Published(s: State, e: Event, valid: bool): State {
    if e.kind == GONE then Failed(s)
    else if !Reports(e.kind) then s.(reader := AtTop)
    else if e.epoch != s.epoch then s.(drops := s.drops + 1, reader := AtTop)
    else if e.kind == STATUS && !valid then Failed(s)
    else
      var n := s.(sequence := s.sequence + 1);
      if |s.queue| >= QUEUE_LIMIT then Failed(n)
      else n.(queue := s.queue + [e.(number := s.sequence + 1)], reader := AtTop)
  }

  predicate Matches(r: Req, e: Event) {
    e.number > r.marker && e.epoch == r.epoch && e.tick > r.sendTick && e.kind in r.kinds
  }

  /** The reader has in hand a reply of this epoch and an awaited kind to which it has given no receive time yet. */
  predicate HoldsUnstamped(s: State, kinds: set<nat>) {
    s.reader.Returned? && s.reader.epoch == s.epoch && s.reader.kind in kinds
  }

  /** The marker and the send time, just before the native call. */
  function SendFrom(s: State, kinds: set<nat>): State {
    s.(control := Sending,
       req := Some(Req(s.sequence, s.epoch, s.clock, kinds, s.openedAt, s.steps, HoldsUnstamped(s, kinds))))
  }

  /** A new epoch and the first drain, which a failing log write ends early unless this is the recovery. */
  function Opened(s: State, recovery: bool, logged: nat): State {
    var t := s.(epoch := s.epoch + 1, openedAt := s.steps, req := None);
    if !recovery && logged < |s.queue| then t.(queue := s.queue[logged + 1..])
    else if !recovery && s.error then t.(queue := [])
    else t.(queue := [], control := Waiting(recovery))
  }

  function Received(s: State): State
    requires s.control.Awaiting? && s.queue != []
  {
    var e, t := s.queue[0], s.(queue := s.queue[1..]);
    if s.req.Some? && Matches(s.req.value, e)
    then t.(control := Free, answers := s.answers + [Answer(s.req.value, e)])
    else t.(control := Awaiting(false))
  }

  function Effect(s: State, a: Step): State
    requires Enabled(s, a)
  {
    match a
    case LookAtStop => s.(reader := if s.stop then Dead else GoingOn)
    case Capture => s.(reader := InRead(s.epoch, s.steps), readEntered := s.epoch)
    case ReadReturns(kind, payload) =>
      s.(reader := Returned(s.reader.epoch, s.reader.entered, s.steps, kind, payload))
    case ReadFails => Failed(s)
    case TakeTime =>
      var r := s.reader;
      s.(reader := Stamped(Event(0, r.kind, r.payload, r.epoch, s.clock, r.entered, r.returned, s.steps)))
    case Publish(valid) => Published(s, s.reader.event, valid)
    case Bootstrap => SendFrom(s.(epoch := s.epoch + 1, openedAt := s.steps), QUERY)
    case Open(recovery, logged) => Opened(s, recovery, logged)
    case Send(kinds) => SendFrom(s.(queue := []), kinds)
    case GiveUp(taken) => s.(control := Free, queue := s.queue[taken..])
    case Sent(ok) =>
      var t := s.(control := if ok then Awaiting(false) else Free);
      if s.reader == NotStarted && ok then t.(reader := AtTop) else t
    case LookAtError => s.(control := if s.error then Free else Awaiting(true))
    case Receive => Received(s)
    case PollEmpty => s.(control := Awaiting(false))
    case TimeOut => s.(control := Free)
    case HoldTakes => s.(queue := s.queue[1..])
    case RequestStop => s.(stop := true)
    case Advance(ticks) => s.(clock := s.clock + ticks)
  }

  function Next(s: State, a: Step): State
    requires Enabled(s, a)
  {
    Effect(s, a).(steps := s.steps + 1)
  }

  // ----- what every step keeps

  /** Entered and returned in that order, and for the current epoch only after it was opened. */
  predicate TimesOk(s: State, epoch: nat, entered: nat, returned: nat) {
    epoch <= s.epoch && entered <= returned < s.steps && (epoch == s.epoch ==> entered > s.openedAt)
  }

  /** A receive time taken before the send is not above the send time; one taken after it betrays a held read. */
  predicate StampOk(r: Req, e: Event) {
    && (e.stamped <= r.sentAt ==> e.tick <= r.sendTick)
    && (e.stamped > r.sentAt && e.epoch == r.epoch && e.returned < r.sentAt && e.kind in r.kinds ==> r.held)
  }

  predicate EventOk(s: State, e: Event) {
    && TimesOk(s, e.epoch, e.entered, e.returned)
    && e.returned < e.stamped < s.steps
    && e.tick <= s.clock
    && (s.req.Some? ==> StampOk(s.req.value, e))
  }

  predicate ReqOk(s: State, r: Req) {
    && r.epoch == s.epoch && r.openedAt == s.openedAt <= r.sentAt < s.steps
    && r.marker <= s.sequence && r.sendTick <= s.clock
  }

  /** Once a request was sent, a queued reply belongs to its epoch and came after its marker. */
  predicate QueuedOk(s: State, e: Event) {
    && EventOk(s, e) && Reports(e.kind) && e.number <= s.sequence
    && (s.req.Some? ==> e.epoch == s.req.value.epoch && e.number > s.req.value.marker)
  }

  predicate QueueOk(s: State) {
    |s.queue| <= QUEUE_LIMIT && forall e :: e in s.queue ==> QueuedOk(s, e)
  }

  predicate ReaderOk(s: State) {
    match s.reader
    case InRead(epoch, entered) =>
      epoch == s.readEntered && epoch <= s.epoch && entered < s.steps && (epoch == s.epoch ==> entered > s.openedAt)
    case Returned(epoch, entered, returned, kind, _) =>
      && epoch == s.readEntered && TimesOk(s, epoch, entered, returned)
      && (s.req.Some? && epoch == s.req.value.epoch && returned < s.req.value.sentAt && kind in s.req.value.kinds
          ==> s.req.value.held)
    case Stamped(e) => e.epoch == s.readEntered && EventOk(s, e)
    case _ => true
  }

  predicate ControlOk(s: State) {
    && (s.epoch > 0 ==> s.openedAt < s.steps)
    && (s.epoch == 0 ==> s.openedAt == 0 && s.reader == NotStarted && s.control == Free)
    && (s.req.Some? ==> ReqOk(s, s.req.value))
    && (s.control == Sending || s.control.Awaiting? ==> s.req.Some?)
    && (s.control.Waiting? ==> s.req.None?)
    && (s.reader == NotStarted ==> s.queue == [])
    && (s.error ==> s.reader == Dead)
  }

  /** The reply was read in the request's own epoch, after it was opened, and timed after the send. */
  predicate Fresh(a: Answer) {
    && a.event.epoch == a.req.epoch && a.event.number > a.req.marker && a.event.kind in a.req.kinds
    && a.event.entered > a.req.openedAt
    && a.event.stamped > a.req.sentAt && a.event.tick > a.req.sendTick
    && (a.event.returned < a.req.sentAt ==> a.req.held)
  }

  predicate InTurn(first: Answer, second: Answer) {
    first.event.number <= second.req.marker && first.req.sentAt < second.req.sentAt
  }

  /** What a pending request may assume of the answers already given. */
  predicate Before(a: Answer, r: Req) {
    a.event.number <= r.marker && a.req.sentAt < r.sentAt
  }

  predicate Past(s: State, a: Answer) {
    Fresh(a) && a.event.number <= s.sequence && a.req.sentAt < s.steps
  }

  predicate AnswersOk(s: State) {
    && (forall i :: 0 <= i < |s.answers| ==> Past(s, s.answers[i]))
    && (forall i, j :: 0 <= i < j < |s.answers| ==> InTurn(s.answers[i], s.answers[j]))
    && (s.req.Some? && s.control != Free ==>
      forall i :: 0 <= i < |s.answers| ==> Before(s.answers[i], s.req.value))
  }

  predicate Inv(s: State) {
    ControlOk(s) && QueueOk(s) && ReaderOk(s) && AnswersOk(s)
  }

  lemma InitInv()
    ensures Inv(Init())
  {
  }

  lemma KeepsControl(s: State, a: Step)
    requires ControlOk(s) && Enabled(s, a)
    ensures ControlOk(Next(s, a))
  {
  }

  predicate OfReader(a: Step) {
    a.LookAtStop? || a.Capture? || a.ReadReturns? || a.ReadFails? || a.TakeTime? || a.Publish?
  }

  predicate OfRequest(a: Step) {
    a.Bootstrap? || a.Open? || a.Send?
  }

  lemma ReaderMoves(s: State, a: Step)
    requires ControlOk(s) && ReaderOk(s) && Enabled(s, a) && OfReader(a)
    ensures ReaderOk(Next(s, a))
  {
  }

  /** A new epoch leaves what is being read behind; a send notes what the reader holds. */
  lemma RequestMoves(s: State, a: Step)
    requires ControlOk(s) && ReaderOk(s) && Enabled(s, a) && OfRequest(a)
    ensures ReaderOk(Next(s, a))
  {
  }

  lemma ReaderStays(s: State, a: Step)
    requires ControlOk(s) && ReaderOk(s) && Enabled(s, a) && !OfReader(a) && !OfRequest(a)
    ensures ReaderOk(Next(s, a))
  {
  }

  lemma KeepsReader(s: State, a: Step)
    requires ControlOk(s) && ReaderOk(s) && Enabled(s, a)
    ensures ReaderOk(Next(s, a))
  {
    if OfReader(a) {
      ReaderMoves(s, a);
    } else if OfRequest(a) {
      RequestMoves(s, a);
    } else {
      ReaderStays(s, a);
    }
  }

  lemma PublishedQueue(s: State, a: Step)
    requires ControlOk(s) && ReaderOk(s) && QueueOk(s) && Enabled(s, a) && a.Publish?
    ensures QueueOk(Next(s, a))
  {
    var t := Next(s, a);
    forall e | e in t.queue
      ensures QueuedOk(t, e)
    {
      if e in s.queue {
        assert QueuedOk(s, e);
      }
    }
  }

  lemma QueuedStays(s: State, a: Step, e: Event)
    requires ControlOk(s) && QueuedOk(s, e) && Enabled(s, a) && !a.Send? && !a.Publish? && e in Next(s, a).queue
    requires a.Bootstrap? ==> s.queue == []
    ensures QueuedOk(Next(s, a), e)
  {
  }

  /** A send drains the queue; a reply published later has a later number and the epoch of its read. */
  lemma KeepsQueue(s: State, a: Step)
    requires ControlOk(s) && ReaderOk(s) && QueueOk(s) && Enabled(s, a)
    ensures QueueOk(Next(s, a))
  {
    if a.Publish? {
      PublishedQueue(s, a);
    } else if !a.Send? {
      var t := Next(s, a);
      forall e | e in t.queue
        ensures QueuedOk(t, e)
      {
        assert e in s.queue && QueuedOk(s, e);
        QueuedStays(s, a, e);
      }
    }
  }

  lemma ReceivedAnswers(s: State)
    requires ControlOk(s) && QueueOk(s) && AnswersOk(s) && Enabled(s, Receive)
    ensures AnswersOk(Next(s, Receive))
  {
    var t := Next(s, Receive);
    assert QueuedOk(s, s.queue[0]);
    assert forall i :: 0 <= i < |s.answers| ==> t.answers[i] == s.answers[i] && Past(s, s.answers[i]);
  }

  lemma KeepsAnswers(s: State, a: Step)
    requires ControlOk(s) && AnswersOk(s) && Enabled(s, a) && !a.Receive?
    ensures AnswersOk(Next(s, a))
  {
    var t := Next(s, a);
    assert t.answers == s.answers && t.sequence >= s.sequence;
    assert forall i :: 0 <= i < |s.answers| ==> Past(s, s.answers[i]);
  }

  lemma StepInv(s: State, a: Step)
    requires Inv(s) && Enabled(s, a)
    ensures Inv(Next(s, a))
  {
    KeepsControl(s, a);
    KeepsReader(s, a);
    KeepsQueue(s, a);
    if a.Receive? {
      ReceivedAnswers(s);
    } else {
      KeepsAnswers(s, a);
    }
  }

  // ----- whole runs

  /** Where a run leads, if every step of it is enabled. */
  function Play(s: State, run: seq<Step>): Option<State>
    decreases |run|
  {
    if run == [] then Some(s)
    else
      var before := Play(s, run[..|run| - 1]);
      if before.Some? && Enabled(before.value, run[|run| - 1]) then Some(Next(before.value, run[|run| - 1])) else None
  }

  lemma {:induction false} RunInv(s: State, run: seq<Step>)
    requires Inv(s) && Play(s, run).Some?
    ensures Inv(Play(s, run).value)
    decreases |run|
  {
    if run != [] {
      RunInv(s, run[..|run| - 1]);
      StepInv(Play(s, run[..|run| - 1]).value, run[|run| - 1]);
    }
  }

  /**
   Under every interleaving, each answer was read in its request's own epoch after the request was opened,
   numbered above its marker and timed after its send; no reply answers two requests and no request is
   answered twice, for the replies' numbers and the requests' sends both increase.
   */
  lemma AnswersAreFresh(run: seq<Step>, i: nat, j: nat)
    requires Play(Init(), run).Some?
    requires i < |Play(Init(), run).value.answers|
    ensures var answers := Play(Init(), run).value.answers;
      && Fresh(answers[i])
      && (i < j < |answers| ==>
          answers[i].event.number < answers[j].event.number && answers[i].req.sentAt < answers[j].req.sentAt)
  {
    InitInv();
    RunInv(Init(), run);
    var s := Play(Init(), run).value;
    assert Past(s, s.answers[i]);
    if i < j < |s.answers| {
      assert Past(s, s.answers[j]) && InTurn(s.answers[i], s.answers[j]);
    }
  }

  predicate Opens(a: Step) {
    a.Open? || a.Bootstrap?
  }

  function Sends(s: State, kinds: set<nat>): Req {
    SendFrom(s, kinds).req.value
  }

  /** The request stays in force until the next one is opened. */
  lemma {:induction false} RequestStays(s: State, run: seq<Step>)
    requires s.req.Some? && !s.control.Waiting?
    requires Play(s, run).Some? && forall a :: a in run ==> !Opens(a)
    ensures Play(s, run).value.req == s.req
    ensures !Play(s, run).value.control.Waiting?
    decreases |run|
  {
    if run != [] {
      var front, last := run[..|run| - 1], run[|run| - 1];
      assert last in run && forall a :: a in front ==> a in run;
      RequestStays(s, front);
    }
  }

  /** From a send until the next opening every queued reply is above the marker and of the request's epoch. */
  lemma QueueIsFresh(run: seq<Step>, kinds: set<nat>, more: seq<Step>)
    requires Play(Init(), run).Some? && Enabled(Play(Init(), run).value, Send(kinds))
    requires Play(Next(Play(Init(), run).value, Send(kinds)), more).Some? && forall a :: a in more ==> !Opens(a)
    ensures var s := Play(Init(), run).value;
      forall e :: e in Play(Next(s, Send(kinds)), more).value.queue ==> e.number > s.sequence && e.epoch == s.epoch
  {
    InitInv();
    RunInv(Init(), run);
    var s := Play(Init(), run).value;
    var t := Next(s, Send(kinds));
    StepInv(s, Send(kinds));
    RequestStays(t, more);
    RunInv(t, more);
    assert forall e :: e in Play(t, more).value.queue ==> QueuedOk(Play(t, more).value, e);
  }

  /** The barrier: without a recovery, whatever the reader is doing at a send it began in the request's epoch. */
  lemma BarrierHolds(run: seq<Step>, kinds: set<nat>)
    requires Play(Init(), run).Some? && Enabled(Play(Init(), run).value, Send(kinds))
    ensures var s := Play(Init(), run).value; !s.control.recovery ==>
      && (s.reader.InRead? || s.reader.Returned? ==> s.reader.epoch == s.epoch && s.reader.entered > s.openedAt)
      && (s.reader.Stamped? ==> s.reader.event.epoch == s.epoch && s.reader.event.entered > s.openedAt)
  {
    InitInv();
    RunInv(Init(), run);
  }

  // ----- the one way a reply can be older than its request

  predicate IsStale(a: Answer, sentAt: nat) {
    a.req.sentAt == sentAt && a.event.returned < sentAt
  }

  /** A run after a send that answers that request with a reply whose native read had returned before it. */
  predicate EndsStale(s: State, kinds: set<nat>, run: seq<Step>)
    requires Enabled(s, Send(kinds))
  {
    var end := Play(Next(s, Send(kinds)), run);
    end.Some? && exists i :: 0 <= i < |end.value.answers| && IsStale(end.value.answers[i], s.steps)
  }

  /** Every answer given to the request sent at a step carries that very request. */
  predicate OnlyThis(s: State, r: Req) {
    && s.steps > r.sentAt
    && (s.req.Some? && s.req.value.sentAt == r.sentAt ==> s.req.value == r)
    && forall i :: 0 <= i < |s.answers| && s.answers[i].req.sentAt == r.sentAt ==> s.answers[i].req == r
  }

  lemma OnlyThisStep(s: State, a: Step, r: Req)
    requires OnlyThis(s, r) && Enabled(s, a)
    ensures OnlyThis(Next(s, a), r)
  {
    var t := Next(s, a);
    assert forall i :: 0 <= i < |s.answers| ==> t.answers[i] == s.answers[i];
  }

  lemma {:induction false} OnlyThisStays(s: State, run: seq<Step>, r: Req)
    requires OnlyThis(s, r) && Play(s, run).Some?
    ensures OnlyThis(Play(s, run).value, r)
    decreases |run|
  {
    if run != [] {
      OnlyThisStays(s, run[..|run| - 1], r);
      OnlyThisStep(Play(s, run[..|run| - 1]).value, run[|run| - 1], r);
    }
  }

  lemma StaleNeedsHeld(s: State, kinds: set<nat>, run: seq<Step>)
    requires Inv(s) && Enabled(s, Send(kinds)) && EndsStale(s, kinds, run)
    ensures HoldsUnstamped(s, kinds)
  {
    var t := Next(s, Send(kinds));
    StepInv(s, Send(kinds));
    assert forall i :: 0 <= i < |s.answers| ==> Past(s, s.answers[i]);
    OnlyThisStays(t, run, Sends(s, kinds));
    RunInv(t, run);
    var end := Play(t, run).value;
    var i :| 0 <= i < |end.answers| && IsStale(end.answers[i], s.steps);
    assert Past(end, end.answers[i]);
  }

  /** The receive time is taken late, above the send time, and the reply passes every check. */
  function LateStamp(): seq<Step> {
    [Sent(true), Advance(1), TakeTime, Publish(true), LookAtError, Receive]
  }

  /** One step at a time, through states already known. */
  lemma PlayTo(s: State, run: seq<Step>, mid: State, a: Step)
    requires Play(s, run) == Some(mid) && Enabled(mid, a)
    ensures Play(s, run + [a]) == Some(Next(mid, a))
  {
    assert (run + [a])[..|run|] == run;
  }

  function HeldReply(s: State): Event
    requires s.reader.Returned?
  {
    var r := s.reader;
    Event(0, r.kind, r.payload, r.epoch, s.clock + 1, r.entered, r.returned, s.steps + 3)
  }

  /** After the send, the lock released, the clock moves on and only then the reader takes its time. */
  function HeldTimed(s: State, kinds: set<nat>): State
    requires s.reader.Returned?
  {
    s.(queue := [], req := Some(Sends(s, kinds)), control := Awaiting(false),
      reader := Stamped(HeldReply(s)), clock := s.clock + 1, steps := s.steps + 4)
  }

  lemma HeldIsTimed(s: State, kinds: set<nat>, run: seq<Step>)
    requires Enabled(s, Send(kinds)) && s.reader.Returned? && run == LateStamp()[..3]
    ensures Play(Next(s, Send(kinds)), run) == Some(HeldTimed(s, kinds))
  {
    var t := Next(s, Send(kinds));
    var sent := Next(t, run[0]);
    var late := Next(sent, run[1]);
    assert Play(t, []) == Some(t);
    assert [] + [run[0]] == [run[0]] && [run[0]] + [run[1]] + [run[2]] == run;
    PlayTo(t, [], t, run[0]);
    PlayTo(t, [run[0]], sent, run[1]);
    PlayTo(t, [run[0]] + [run[1]], late, run[2]);
  }

  /** Published and received: no check of the code compares the native return with the send. */
  function HeldAnswered(s: State, kinds: set<nat>): State
    requires s.reader.Returned?
  {
    var e := HeldReply(s).(number := s.sequence + 1);
    HeldTimed(s, kinds).(sequence := s.sequence + 1, reader := AtTop, control := Free,
      answers := s.answers + [Answer(Sends(s, kinds), e)], steps := s.steps + 7)
  }

  lemma TimedIsAnswered(s: State, kinds: set<nat>)
    requires HoldsUnstamped(s, kinds) && !s.error && (kinds == QUERY || kinds == SETTER)
    ensures var u := HeldTimed(s, kinds);
      && Enabled(u, Publish(true)) && Enabled(Next(u, Publish(true)), LookAtError)
      && Enabled(Next(Next(u, Publish(true)), LookAtError), Receive)
      && Next(Next(Next(u, Publish(true)), LookAtError), Receive) == HeldAnswered(s, kinds)
  {
  }

  lemma HeldEndsStale(s: State, kinds: set<nat>)
    requires Inv(s) && Enabled(s, Send(kinds)) && HoldsUnstamped(s, kinds)
    ensures EndsStale(s, kinds, LateStamp())
  {
    var t, run := Next(s, Send(kinds)), LateStamp();
    var u := HeldTimed(s, kinds);
    HeldIsTimed(s, kinds, run[..3]);
    TimedIsAnswered(s, kinds);
    PlayTo(t, run[..3], u, Publish(true));
    PlayTo(t, run[..3] + [Publish(true)], Next(u, Publish(true)), LookAtError);
    PlayTo(t, run[..3] + [Publish(true)] + [LookAtError], Next(Next(u, Publish(true)), LookAtError), Receive);
    assert run[..3] + [Publish(true)] + [LookAtError] + [Receive] == run;
    assert IsStale(HeldAnswered(s, kinds).answers[|s.answers|], s.steps);
  }

  /**
   A request can be answered by a reply returned before its send exactly when, at the send, the reader holds an
   unstamped reply of the request's epoch and of a kind it waits for: the receive time is read only after the native
   call has returned.
   */
  lemma StaleExactly(run: seq<Step>, kinds: set<nat>)
    requires Play(Init(), run).Some? && Enabled(Play(Init(), run).value, Send(kinds))
    ensures var s := Play(Init(), run).value;
      (exists more :: EndsStale(s, kinds, more)) <==> HoldsUnstamped(s, kinds)
  {
    InitInv();
    RunInv(Init(), run);
    var s := Play(Init(), run).value;
    if more :| EndsStale(s, kinds, more) {
      StaleNeedsHeld(s, kinds, more);
    }
    if HoldsUnstamped(s, kinds) {
      HeldEndsStale(s, kinds);
    }
  }

  // ----- a run that comes to it

  /** The bootstrap is sent and the reader reads its reply. */
  function FirstRead(): seq<Step> {
    [] + [Bootstrap] + [Sent(true)] + [LookAtStop] + [Capture] + [ReadReturns(STATUS, 0)]
  }

  /** The reply is timed, published and received. */
  function FirstAnswer(): seq<Step> {
    FirstRead() + [Advance(1)] + [TakeTime] + [Publish(true)] + [LookAtError] + [Receive]
  }

  /** The next query is opened, and in its epoch another status returns before it is sent. */
  function SecondRead(): seq<Step> {
    FirstAnswer() + [Open(false, 0)] + [LookAtStop] + [Capture] + [ReadReturns(STATUS, 0)]
  }

  const FIRST := Req(0, 1, 0, QUERY, 0, 0, false)

  lemma BootstrapSent()
    ensures Play(Init(), [] + [Bootstrap] + [Sent(true)]) == Some(State(1, 0, -1, 0, [], false, false, AtTop,
      Awaiting(false), 0, Some(FIRST), [], 0, 2))
  {
    var s1 := Next(Init(), Bootstrap);
    PlayTo(Init(), [], Init(), Bootstrap);
    PlayTo(Init(), [] + [Bootstrap], s1, Sent(true));
  }

  lemma FirstReadIs()
    ensures Play(Init(), FirstRead()) == Some(State(1, 0, 1, 0, [], false, false, Returned(1, 3, 4, STATUS, 0),
      Awaiting(false), 0, Some(FIRST), [], 0, 5))
  {
    BootstrapSent();
    var run := [] + [Bootstrap] + [Sent(true)];
    var s2 := Play(Init(), run).value;
    var s3 := Next(s2, LookAtStop);
    PlayTo(Init(), run, s2, LookAtStop);
    PlayTo(Init(), run + [LookAtStop], s3, Capture);
    PlayTo(Init(), run + [LookAtStop] + [Capture], Next(s3, Capture), ReadReturns(STATUS, 0));
  }

  function FirstReply(): Answer {
    Answer(FIRST, Event(1, STATUS, 0, 1, 1, 3, 4, 6))
  }

  lemma FirstPublished()
    ensures Play(Init(), FirstRead() + [Advance(1)] + [TakeTime] + [Publish(true)]) == Some(State(1, 1, 1, 0,
      [FirstReply().event], false, false, AtTop, Awaiting(false), 0, Some(FIRST), [], 1, 8))
  {
    FirstReadIs();
    var run := FirstRead();
    var s0 := Play(Init(), run).value;
    var s1 := Next(s0, Advance(1));
    PlayTo(Init(), run, s0, Advance(1));
    PlayTo(Init(), run + [Advance(1)], s1, TakeTime);
    var s2 := Next(s1, TakeTime);
    assert s2.queue + [FirstReply().event] == [FirstReply().event];
    PlayTo(Init(), run + [Advance(1)] + [TakeTime], s2, Publish(true));
  }

  lemma FirstAnswerIs()
    ensures Play(Init(), FirstAnswer()) == Some(State(1, 1, 1, 0, [], false, false, AtTop, Free, 0, Some(FIRST),
      [FirstReply()], 1, 10))
  {
    FirstPublished();
    var run := FirstRead() + [Advance(1)] + [TakeTime] + [Publish(true)];
    var s3 := Play(Init(), run).value;
    var s4 := Next(s3, LookAtError);
    assert s4.queue[1..] == [] && s4.answers + [FirstReply()] == [FirstReply()];
    PlayTo(Init(), run, s3, LookAtError);
    PlayTo(Init(), run + [LookAtError], s4, Receive);
  }

  lemma SecondReadIs()
    ensures Play(Init(), SecondRead()) == Some(State(2, 1, 2, 0, [], false, false, Returned(2, 12, 13, STATUS, 0),
      Waiting(false), 10, None, [FirstReply()], 1, 14))
  {
    FirstAnswerIs();
    var run := FirstAnswer();
    var s0 := Play(Init(), run).value;
    var s1 := Next(s0, Open(false, 0));
    var s2 := Next(s1, LookAtStop);
    PlayTo(Init(), run, s0, Open(false, 0));
    PlayTo(Init(), run + [Open(false, 0)], s1, LookAtStop);
    PlayTo(Init(), run + [Open(false, 0)] + [LookAtStop], s2, Capture);
    PlayTo(Init(), run + [Open(false, 0)] + [LookAtStop] + [Capture], Next(s2, Capture), ReadReturns(STATUS, 0));
  }

  /**
   And it happens: after an answered bootstrap the second query is opened, the reader enters its epoch, a status
   returns at once, the reader is preempted there, and the query is sent and answered with that status.
   */
  lemma StaleHappens()
    ensures var s := Play(Init(), SecondRead());
      && s.Some? && s.value.answers == [FirstReply()] && Enabled(s.value, Send(QUERY))
      && EndsStale(s.value, QUERY, LateStamp())
  {
    SecondReadIs();
    InitInv();
    RunInv(Init(), SecondRead());
    HeldEndsStale(Play(Init(), SecondRead()).value, QUERY);
  }
}
