/**
 Usage events read incrementally from growing logs, kept in an outbox until acknowledged, and collected under their
 ids. What a log line means is left to a function of the line.
 */
module LocalUsage {
  import opened Bytes

  const MAX_TOKENS := 0x1f_ffff_ffff_ffff
  const DAY := 86400
  const BATCH := 1000

  datatype Event = Event(id: string, epoch: int, tokens: int)

  /** A line's record: none, or a notification of a session total and of what the last completion used. */
  datatype Note = Nothing | Count(id: string, epoch: int, total: int, last: int)

  datatype Pass = Pass(events: seq<Event>, offset: nat, previous: Option<int>)

  predicate Plausible(n: Note) {
    n.Count? && 0 <= n.total <= MAX_TOKENS && 0 <= n.last <= MAX_TOKENS
  }

  /** A repeated total is no fresh usage; the last completion is charged, never the session's baseline. */
  function EventOf(n: Note, previous: Option<int>): (Option<Event>, Option<int>) {
    if !Plausible(n) then (None, previous)
    else if previous == Some(n.total) || n.last == 0 then (None, Some(n.total))
    else (Some(Event(n.id, n.epoch, n.last)), Some(n.total))
  }

  predicate Recent(e: Event, now: int) {
    now - 30 * DAY <= e.epoch <= now + 300
  }

  /** Where the line at an offset ends, just behind its newline. */
  function LineEnd(text: string, offset: nat): (r: Option<nat>)
    requires offset <= |text|
    ensures r.Some? ==> offset < r.value <= |text| && text[r.value - 1] == '\n'
    decreases |text| - offset
  {
    if offset == |text| then None
    else if text[offset] == '\n' then Some(offset + 1)
    else LineEnd(text, offset + 1)
  }

  function Step(read: string -> Note, now: int, line: string, previous: Option<int>): (seq<Event>, Option<int>) {
    var (event, next) := EventOf(read(line), previous);
    (if event.Some? && Recent(event.value, now) then [event.value] else [], next)
  }

  /** All complete lines from an offset on; a partial last line is left for the next time. */
  function Scan(read: string -> Note, now: int, text: string, offset: nat, previous: Option<int>): (r: Pass)
    requires offset <= |text|
    ensures offset <= r.offset <= |text|
    decreases |text| - offset
  {
    var end := LineEnd(text, offset);
    if end.None? then Pass([], offset, previous)
    else
      var (events, next) := Step(read, now, text[offset..end.value], previous);
      var rest := Scan(read, now, text, end.value, next);
      Pass(events + rest.events, rest.offset, rest.previous)
  }

  function OnePass(read: string -> Note, now: int, text: string): Pass {
    Scan(read, now, text, 0, None)
  }

  lemma {:induction false} LineEndKept(text: string, more: string, offset: nat)
    requires offset <= |text| && LineEnd(text, offset).Some?
    ensures LineEnd(text + more, offset) == LineEnd(text, offset)
    decreases |text| - offset
  {
    if text[offset] != '\n' {
      LineEndKept(text, more, offset + 1);
    }
  }

  function Then(events: seq<Event>, rest: Pass): Pass {
    Pass(events + rest.events, rest.offset, rest.previous)
  }

  lemma ScanLine(read: string -> Note, now: int, text: string, offset: nat, previous: Option<int>, end: nat)
    requires offset <= |text| && LineEnd(text, offset) == Some(end)
    ensures var (events, next) := Step(read, now, text[offset..end], previous);
      Scan(read, now, text, offset, previous) == Then(events, Scan(read, now, text, end, next))
  {
  }

  lemma ThenThen(a: seq<Event>, b: seq<Event>, p: Pass)
    ensures Then(a, Then(b, p)) == Then(a + b, p)
  {
    assert a + (b + p.events) == a + b + p.events;
  }

  /** Reading a log in two goes, the second after it has grown, gives what one go over the grown log gives. */
  lemma {:induction false} ScanAgain(read: string -> Note, now: int, text: string, more: string, offset: nat,
      previous: Option<int>)
    requires offset <= |text|
    ensures var first := Scan(read, now, text, offset, previous);
      Scan(read, now, text + more, offset, previous)
        == Then(first.events, Scan(read, now, text + more, first.offset, first.previous))
    decreases |text| - offset
  {
    var end := LineEnd(text, offset);
    if end.None? {
      var whole := Scan(read, now, text + more, offset, previous);
      assert [] + whole.events == whole.events;
    } else {
      LineEndKept(text, more, offset);
      assert (text + more)[offset..end.value] == text[offset..end.value];
      var (events, next) := Step(read, now, text[offset..end.value], previous);
      ScanLine(read, now, text, offset, previous, end.value);
      ScanLine(read, now, text + more, offset, previous, end.value);
      ScanAgain(read, now, text, more, end.value, next);
      var rest := Scan(read, now, text, end.value, next);
      ThenThen(events, rest.events, Scan(read, now, text + more, rest.offset, rest.previous));
    }
  }

  /** The log as it stood at each of several visits. */
  function Visits(read: string -> Note, now: int, texts: seq<string>): (r: Pass)
    ensures texts == [] ==> r.offset == 0
    ensures texts != [] && Growing(texts) ==> r.offset <= |texts[|texts| - 1]|
  {
    if texts == [] then Pass([], 0, None)
    else
      var before := Visits(read, now, texts[..|texts| - 1]);
      var text := texts[|texts| - 1];
      if before.offset > |text| then before
      else
        var p := Scan(read, now, text, before.offset, before.previous);
        Pass(before.events + p.events, p.offset, p.previous)
  }

  predicate Growing(texts: seq<string>) {
    forall i :: 0 < i < |texts| ==> texts[i - 1] <= texts[i]
  }

  /** However a log grows between visits, they emit the events of a single pass over its last state. */
  lemma {:induction false} AnyIncrements(read: string -> Note, now: int, texts: seq<string>)
    requires texts != [] && Growing(texts)
    ensures Visits(read, now, texts) == OnePass(read, now, texts[|texts| - 1])
  {
    var front, text := texts[..|texts| - 1], texts[|texts| - 1];
    if front != [] {
      AnyIncrements(read, now, front);
      var before := front[|front| - 1];
      assert texts[|texts| - 2] <= texts[|texts| - 1];
      ScanAgain(read, now, before, text[|before|..], 0, None);
      assert before + text[|before|..] == text;
    } else {
      var p := OnePass(read, now, text);
      assert [] + p.events == p.events;
    }
  }

  // ----- outbox and collector

  /** Insert unless the id is present. */
  function Record(table: map<string, Event>, events: seq<Event>): (r: map<string, Event>)
    ensures forall id :: id in table ==> id in r && r[id] == table[id]
    ensures forall id :: id in r <==> id in table || id in Ids(events)
    decreases |events|
  {
    if events == [] then table
    else
      var e := events[0];
      assert events == [e] + events[1..];
      Record(if e.id in table then table else table[e.id := e], events[1..])
  }

  function Ids(events: seq<Event>): set<string> {
    set e | e in events :: e.id
  }

  predicate Acceptable(e: Event, now: int) {
    now - 90 * DAY <= e.epoch <= now + 300 && 0 < e.tokens <= MAX_TOKENS
  }

  datatype File = File(text: string, identity: nat)

  /** Where the reading of a log stands; seen is history: the log as it was then. */
  datatype Cursor = Cursor(offset: nat, previous: Option<int>, identity: nat, seen: string)

  /** A batch on its way; arrived once the collector has stored it, whether or not a reply comes back. */
  datatype Flight = Flight(batch: seq<Event>, arrived: bool)

  /** former is history: the ids in logs that have been replaced. */
  datatype State = State(
    files: map<string, File>, cursors: map<string, Cursor>, outbox: map<string, Event>, collector: map<string, Event>,
    flights: seq<Flight>, former: set<string>)

  datatype Move =
    | Append(path: string, data: string)
    | Replace(path: string, file: File)
    | Visit(path: string, stopped: Option<nat>)
    | Send(batch: seq<Event>)
    | Arrive(k: nat)
    | Acknowledge(k: nat)

  function Init(): State {
    State(map[], map[], map[], map[], [], {})
  }

  predicate Follows(s: State, path: string) {
    path in s.files && path in s.cursors && s.cursors[path].identity == s.files[path].identity
      && s.cursors[path].offset <= |s.files[path].text|
  }

  predicate Enabled(s: State, m: Move, now: int) {
    match m
    case Append(path, _) => path in s.files
    case Replace(path, file) => path in s.cursors ==> s.cursors[path].identity != file.identity
    case Visit(path, _) => path in s.files
    case Send(batch) => |batch| <= BATCH && forall e :: e in batch ==> e.id in s.outbox && s.outbox[e.id] == e
    case Arrive(k) => k < |s.flights|
    case Acknowledge(k) => k < |s.flights| && s.flights[k].arrived
  }

  /** From the cursor if it still fits the log, else from the start. */
  function Pending(read: string -> Note, now: int, s: State, path: string): Pass
    requires path in s.files
  {
    if Follows(s, path) then Scan(read, now, s.files[path].text, s.cursors[path].offset, s.cursors[path].previous)
    else OnePass(read, now, s.files[path].text)
  }

  /** Events and cursor together, or, if reading fails on the way, only the events found so far. */
  function Visited(read: string -> Note, now: int, s: State, path: string, stopped: Option<nat>): State
    requires path in s.files
  {
    var p, f := Pending(read, now, s, path), s.files[path];
    if stopped.Some? && stopped.value <= |p.events| then s.(outbox := Record(s.outbox, p.events[..stopped.value]))
    else
      s.(outbox := Record(s.outbox, p.events),
         cursors := s.cursors[path := Cursor(p.offset, p.previous, f.identity, f.text)])
  }

  function Known(s: State): set<string> {
    s.outbox.Keys + s.collector.Keys
  }

  function Next(read: string -> Note, now: int, s: State, m: Move): State
    requires Enabled(s, m, now)
  {
    match m
    case Append(path, data) =>
      s.(files := s.files[path := s.files[path].(text := s.files[path].text + data)])
    case Replace(path, file) =>
      s.(files := s.files[path := file],
         former := s.former + if path in s.files then Ids(OnePass(read, now, s.files[path].text).events) else {})
    case Visit(path, stopped) => Visited(read, now, s, path, stopped)
    case Send(batch) => s.(flights := s.flights + [Flight(batch, false)])
    case Arrive(k) =>
      var batch := s.flights[k].batch;
      if forall e :: e in batch ==> Acceptable(e, now) then
        s.(collector := Record(s.collector, batch), flights := s.flights[k := Flight(batch, true)])
      else s
    case Acknowledge(k) => s.(outbox := s.outbox - Ids(s.flights[k].batch))
  }

  predicate InLog(read: string -> Note, now: int, s: State, path: string, id: string) {
    path in s.files && id in Ids(OnePass(read, now, s.files[path].text).events)
  }

  /** A cursor stands where one pass over what it has seen ends, and every event of that is known. */
  predicate CursorOk(read: string -> Note, now: int, s: State, path: string) {
    path in s.cursors && path in s.files && s.cursors[path].identity == s.files[path].identity ==>
      var c := s.cursors[path];
      && c.seen <= s.files[path].text
      && var p := OnePass(read, now, c.seen);
        c.offset == p.offset && c.previous == p.previous && Ids(p.events) <= Known(s)
  }

  predicate FlightOk(s: State, f: Flight) {
    Ids(f.batch) <= (if f.arrived then s.collector.Keys else Known(s))
  }

  ghost predicate Inv(read: string -> Note, now: int, s: State) {
    && (forall path :: CursorOk(read, now, s, path))
    && (forall id :: id in Known(s) ==> id in s.former || exists path :: InLog(read, now, s, path, id))
    && (forall k :: 0 <= k < |s.flights| ==> FlightOk(s, s.flights[k]))
  }

  lemma IdsJoin(a: seq<Event>, b: seq<Event>)
    ensures Ids(a + b) == Ids(a) + Ids(b)
  {
  }

  lemma AppendInv(read: string -> Note, now: int, s: State, path: string, data: string)
    requires Inv(read, now, s) && path in s.files
    ensures Inv(read, now, Next(read, now, s, Append(path, data)))
  {
    var t, text := Next(read, now, s, Append(path, data)), s.files[path].text;
    ScanAgain(read, now, text, data, 0, None);
    var p := OnePass(read, now, text);
    IdsJoin(p.events, Scan(read, now, text + data, p.offset, p.previous).events);
    assert forall q, id :: InLog(read, now, s, q, id) ==> InLog(read, now, t, q, id);
    forall q
      ensures CursorOk(read, now, t, q)
    {
      assert CursorOk(read, now, s, q);
    }
  }

  lemma ReplaceInv(read: string -> Note, now: int, s: State, path: string, file: File)
    requires Inv(read, now, s) && Enabled(s, Replace(path, file), now)
    ensures Inv(read, now, Next(read, now, s, Replace(path, file)))
  {
    var t := Next(read, now, s, Replace(path, file));
    forall q, id | InLog(read, now, s, q, id)
      ensures id in t.former || InLog(read, now, t, q, id)
    {
    }
    forall q
      ensures CursorOk(read, now, t, q)
    {
      assert CursorOk(read, now, s, q);
    }
  }

  /** What a visit reads are the events of one pass that are not before the cursor. */
  lemma PendingCompletes(read: string -> Note, now: int, s: State, path: string)
    requires path in s.files && CursorOk(read, now, s, path)
    ensures var p := Pending(read, now, s, path); var whole := OnePass(read, now, s.files[path].text);
      && p.offset == whole.offset && p.previous == whole.previous
      && Ids(p.events) <= Ids(whole.events)
      && Ids(whole.events) <= Ids(p.events) + Known(s)
  {
    if Follows(s, path) {
      var c, text := s.cursors[path], s.files[path].text;
      var before := OnePass(read, now, c.seen);
      assert c.seen + text[|c.seen|..] == text;
      ScanAgain(read, now, c.seen, text[|c.seen|..], 0, None);
      IdsJoin(before.events, Pending(read, now, s, path).events);
    }
  }

  lemma VisitInv(read: string -> Note, now: int, s: State, path: string, stopped: Option<nat>)
    requires Inv(read, now, s) && path in s.files
    ensures Inv(read, now, Visited(read, now, s, path, stopped))
  {
    assert CursorOk(read, now, s, path);
    PendingCompletes(read, now, s, path);
    var p, t := Pending(read, now, s, path), Visited(read, now, s, path, stopped);
    assert Known(s) <= Known(t);
    forall id | id in Known(t)
      ensures id in t.former || exists q :: InLog(read, now, t, q, id)
    {
      if id in Known(s) {
        if q :| InLog(read, now, s, q, id) { assert InLog(read, now, t, q, id); }
      } else {
        assert InLog(read, now, t, path, id);
      }
    }
    forall q
      ensures CursorOk(read, now, t, q)
    {
      assert CursorOk(read, now, s, q);
    }
    forall k | 0 <= k < |t.flights|
      ensures FlightOk(t, t.flights[k])
    {
      assert FlightOk(s, s.flights[k]);
    }
  }

  lemma WireInv(read: string -> Note, now: int, s: State, m: Move)
    requires Inv(read, now, s) && Enabled(s, m, now) && (m.Send? || m.Arrive? || m.Acknowledge?)
    ensures Inv(read, now, Next(read, now, s, m))
  {
    var t := Next(read, now, s, m);
    if m.Arrive? || m.Acknowledge? {
      assert FlightOk(s, s.flights[m.k]);
    }
    assert Known(t) == Known(s);
    forall id | id in Known(t)
      ensures id in t.former || exists q :: InLog(read, now, t, q, id)
    {
      if q :| InLog(read, now, s, q, id) { assert InLog(read, now, t, q, id); }
    }
    forall q
      ensures CursorOk(read, now, t, q)
    {
      assert CursorOk(read, now, s, q);
    }
    forall k | 0 <= k < |t.flights|
      ensures FlightOk(t, t.flights[k])
    {
      if k < |s.flights| { assert FlightOk(s, s.flights[k]); }
    }
  }

  /** Where a run leads with a fixed clock, if every move of it is enabled. */
  function Play(read: string -> Note, now: int, run: seq<Move>): Option<State>
    decreases |run|
  {
    if run == [] then Some(Init())
    else
      var before := Play(read, now, run[..|run| - 1]);
      if before.Some? && Enabled(before.value, run[|run| - 1], now)
      then Some(Next(read, now, before.value, run[|run| - 1])) else None
  }

  lemma {:induction false} RunInv(read: string -> Note, now: int, run: seq<Move>)
    requires Play(read, now, run).Some?
    ensures Inv(read, now, Play(read, now, run).value)
    decreases |run|
  {
    if run != [] {
      RunInv(read, now, run[..|run| - 1]);
      var s, m := Play(read, now, run[..|run| - 1]).value, run[|run| - 1];
      match m
      case Append(path, data) => AppendInv(read, now, s, path, data);
      case Replace(path, file) => ReplaceInv(read, now, s, path, file);
      case Visit(path, stopped) => VisitInv(read, now, s, path, stopped);
      case _ => WireInv(read, now, s, m);
    }
  }

  /** The events' ids, whatever a hash collision may do to their values. */
  lemma KeptIds(read: string -> Note, now: int, run: seq<Move>, path: string, id: string)
    requires Play(read, now, run).Some?
    ensures var s := Play(read, now, run).value;
      && (Follows(s, path) && id in Ids(OnePass(read, now, s.cursors[path].seen).events) ==>
          id in s.outbox || id in s.collector)
      && (id in s.collector ==> id in s.former || exists q :: InLog(read, now, s, q, id))
  {
    RunInv(read, now, run);
    assert CursorOk(read, now, Play(read, now, run).value, path);
  }

  lemma StepRecorded(read: string -> Note, now: int, s: State, m: Move, id: string)
    requires Enabled(s, m, now) && id in s.collector
    ensures id in Next(read, now, s, m).collector && Next(read, now, s, m).collector[id] == s.collector[id]
  {
  }

  lemma MoveRecorded(read: string -> Note, now: int, run: seq<Move>, m: Move, id: string)
    requires Play(read, now, run + [m]).Some?
    requires Play(read, now, run).Some? && id in Play(read, now, run).value.collector
    ensures var s, t := Play(read, now, run).value, Play(read, now, run + [m]).value;
      id in t.collector && t.collector[id] == s.collector[id]
  {
    assert (run + [m])[..|run|] == run;
    StepRecorded(read, now, Play(read, now, run).value, m, id);
  }

  lemma PlayPrefix(read: string -> Note, now: int, run: seq<Move>, m: Move)
    requires Play(read, now, run + [m]).Some?
    ensures Play(read, now, run).Some?
  {
    assert (run + [m])[..|run|] == run;
  }

  /** Once recorded, an event is never counted again or changed, whatever is lost, resent, replaced or read again. */
  lemma {:induction false} RecordedOnce(read: string -> Note, now: int, run: seq<Move>, more: seq<Move>, id: string)
    requires Play(read, now, run).Some? && Play(read, now, run + more).Some?
    requires id in Play(read, now, run).value.collector
    ensures var s, t := Play(read, now, run).value, Play(read, now, run + more).value;
      id in t.collector && t.collector[id] == s.collector[id]
    decreases |more|
  {
    if more == [] {
      assert run + more == run;
    } else {
      var front, last := more[..|more| - 1], more[|more| - 1];
      assert run + more == run + front + [last];
      PlayPrefix(read, now, run + front, last);
      RecordedOnce(read, now, run, front, id);
      MoveRecorded(read, now, run + front, last, id);
    }
  }

  /** Every log has been read to its present end, none was replaced, and the outbox is empty. */
  predicate Settled(s: State) {
    && s.outbox == map[] && s.former == {}
    && forall q :: q in s.files ==> Follows(s, q) && s.cursors[q].seen == s.files[q].text
  }

  lemma CollectedIds(read: string -> Note, now: int, run: seq<Move>, id: string)
    requires Play(read, now, run).Some? && Settled(Play(read, now, run).value)
    ensures var s := Play(read, now, run).value;
      id in s.collector <==> exists q :: InLog(read, now, s, q, id)
  {
    RunInv(read, now, run);
    var s := Play(read, now, run).value;
    assert Known(s) == s.collector.Keys;
    if id in s.collector {
      assert id in Known(s);
    }
    if q :| InLog(read, now, s, q, id) {
      assert CursorOk(read, now, s, q);
      assert Follows(s, q) && s.cursors[q].seen == s.files[q].text;
      assert id in Known(s);
    }
  }

  // ----- the events themselves

  /** No two different records share an id: the hash over time stamp and token counts has no collision. */
  ghost predicate Determines(read: string -> Note, meaning: string -> Event) {
    forall line :: read(line).Count? ==>
      meaning(read(line).id) == Event(read(line).id, read(line).epoch, read(line).last)
  }

  predicate Meant(events: seq<Event>, meaning: string -> Event) {
    forall e :: e in events ==> e == meaning(e.id)
  }

  predicate TableMeant(table: map<string, Event>, meaning: string -> Event) {
    forall id :: id in table ==> table[id] == meaning(id) && table[id].id == id
  }

  lemma {:induction false} ScanMeant(read: string -> Note, meaning: string -> Event, now: int, text: string,
      offset: nat, previous: Option<int>)
    requires Determines(read, meaning) && offset <= |text|
    ensures Meant(Scan(read, now, text, offset, previous).events, meaning)
    decreases |text| - offset
  {
    var end := LineEnd(text, offset);
    if end.Some? {
      var (events, next) := Step(read, now, text[offset..end.value], previous);
      assert Meant(events, meaning);
      ScanMeant(read, meaning, now, text, end.value, next);
    }
  }

  lemma {:induction false} RecordMeant(table: map<string, Event>, events: seq<Event>, meaning: string -> Event)
    requires TableMeant(table, meaning) && Meant(events, meaning)
    ensures TableMeant(Record(table, events), meaning)
    decreases |events|
  {
    if events != [] {
      var e := events[0];
      RecordMeant(if e.id in table then table else table[e.id := e], events[1..], meaning);
    }
  }

  predicate AllMeant(s: State, meaning: string -> Event) {
    && TableMeant(s.outbox, meaning) && TableMeant(s.collector, meaning)
    && forall f :: f in s.flights ==> Meant(f.batch, meaning)
  }

  lemma VisitMeant(read: string -> Note, meaning: string -> Event, now: int, s: State, path: string,
      stopped: Option<nat>)
    requires Determines(read, meaning) && AllMeant(s, meaning) && path in s.files
    ensures AllMeant(Visited(read, now, s, path, stopped), meaning)
  {
    var text := s.files[path].text;
    ScanMeant(read, meaning, now, text, 0, None);
    if Follows(s, path) {
      ScanMeant(read, meaning, now, text, s.cursors[path].offset, s.cursors[path].previous);
    }
    var p := Pending(read, now, s, path);
    RecordMeant(s.outbox, p.events, meaning);
    if stopped.Some? && stopped.value <= |p.events| {
      RecordMeant(s.outbox, p.events[..stopped.value], meaning);
    }
  }

  lemma StepMeant(read: string -> Note, meaning: string -> Event, now: int, s: State, m: Move)
    requires Determines(read, meaning) && AllMeant(s, meaning) && Enabled(s, m, now)
    ensures AllMeant(Next(read, now, s, m), meaning)
  {
    if m.Visit? {
      VisitMeant(read, meaning, now, s, m.path, m.stopped);
    } else if m.Arrive? {
      assert s.flights[m.k] in s.flights;
      RecordMeant(s.collector, s.flights[m.k].batch, meaning);
    }
  }

  lemma {:induction false} RunMeant(read: string -> Note, meaning: string -> Event, now: int, run: seq<Move>)
    requires Determines(read, meaning) && Play(read, now, run).Some?
    ensures AllMeant(Play(read, now, run).value, meaning)
    decreases |run|
  {
    if run != [] {
      RunMeant(read, meaning, now, run[..|run| - 1]);
      StepMeant(read, meaning, now, Play(read, now, run[..|run| - 1]).value, run[|run| - 1]);
    }
  }

  predicate Logged(read: string -> Note, now: int, s: State, path: string, e: Event) {
    path in s.files && e in OnePass(read, now, s.files[path].text).events
  }

  predicate Holds(table: map<string, Event>, e: Event) {
    e.id in table && table[e.id] == e
  }

  /** A log that has an event's id has the event. */
  lemma IdIsEvent(read: string -> Note, meaning: string -> Event, now: int, s: State, path: string, e: Event)
    requires Determines(read, meaning) && InLog(read, now, s, path, e.id) && e == meaning(e.id)
    ensures Logged(read, now, s, path, e)
  {
    ScanMeant(read, meaning, now, s.files[path].text, 0, None);
  }

  /**
   Nothing is lost and nothing invented: whatever was lost, resent or read twice, every event of what a cursor has
   seen is in the outbox or at the collector as it was logged, and what the collector holds under an id is the event
   of a log, unless that log has been replaced.
   */
  lemma NothingLost(read: string -> Note, meaning: string -> Event, now: int, run: seq<Move>, path: string, e: Event)
    requires Determines(read, meaning) && Play(read, now, run).Some?
    ensures var s := Play(read, now, run).value;
      && (Follows(s, path) && e in OnePass(read, now, s.cursors[path].seen).events ==>
          Holds(s.outbox, e) || Holds(s.collector, e))
      && (Holds(s.collector, e) ==> e.id in s.former || exists q :: Logged(read, now, s, q, e))
  {
    var s := Play(read, now, run).value;
    KeptIds(read, now, run, path, e.id);
    RunMeant(read, meaning, now, run);
    if Follows(s, path) {
      ScanMeant(read, meaning, now, s.cursors[path].seen, 0, None);
    }
    if q :| Holds(s.collector, e) && InLog(read, now, s, q, e.id) {
      IdIsEvent(read, meaning, now, s, q, e);
    }
  }

  /** Once every log has been read and everything acknowledged, the collector has exactly the logged events. */
  lemma CollectedExactly(read: string -> Note, meaning: string -> Event, now: int, run: seq<Move>, e: Event)
    requires Determines(read, meaning) && Play(read, now, run).Some? && Settled(Play(read, now, run).value)
    ensures var s := Play(read, now, run).value;
      Holds(s.collector, e) <==> exists q :: Logged(read, now, s, q, e)
  {
    var s := Play(read, now, run).value;
    CollectedIds(read, now, run, e.id);
    RunMeant(read, meaning, now, run);
    if q :| Holds(s.collector, e) && InLog(read, now, s, q, e.id) {
      IdIsEvent(read, meaning, now, s, q, e);
    }
    if q :| Logged(read, now, s, q, e) {
      assert InLog(read, now, s, q, e.id);
      ScanMeant(read, meaning, now, s.files[q].text, 0, None);
    }
  }

  // ----- what the scanner keeps is never refused

  predicate AllAcceptable(events: seq<Event>, now: int) {
    forall e :: e in events ==> Acceptable(e, now)
  }

  lemma {:induction false} ScanAcceptable(read: string -> Note, now: int, text: string, offset: nat,
      previous: Option<int>)
    requires offset <= |text|
    ensures AllAcceptable(Scan(read, now, text, offset, previous).events, now)
    decreases |text| - offset
  {
    var end := LineEnd(text, offset);
    if end.Some? {
      var (events, next) := Step(read, now, text[offset..end.value], previous);
      assert AllAcceptable(events, now);
      ScanAcceptable(read, now, text, end.value, next);
    }
  }

  predicate TableAcceptable(table: map<string, Event>, now: int) {
    forall id :: id in table ==> Acceptable(table[id], now)
  }

  lemma {:induction false} RecordAcceptable(table: map<string, Event>, events: seq<Event>, now: int)
    requires TableAcceptable(table, now) && AllAcceptable(events, now)
    ensures TableAcceptable(Record(table, events), now)
    decreases |events|
  {
    if events != [] {
      var e := events[0];
      RecordAcceptable(if e.id in table then table else table[e.id := e], events[1..], now);
    }
  }

  /** With one clock on both sides, every batch on its way is accepted when it arrives. */
  lemma {:induction false} NeverRefused(read: string -> Note, now: int, run: seq<Move>)
    requires Play(read, now, run).Some?
    ensures var s := Play(read, now, run).value;
      TableAcceptable(s.outbox, now) && forall f :: f in s.flights ==> AllAcceptable(f.batch, now)
    decreases |run|
  {
    if run != [] {
      NeverRefused(read, now, run[..|run| - 1]);
      var s, m := Play(read, now, run[..|run| - 1]).value, run[|run| - 1];
      if m.Visit? {
        var text := s.files[m.path].text;
        ScanAcceptable(read, now, text, 0, None);
        if Follows(s, m.path) {
          ScanAcceptable(read, now, text, s.cursors[m.path].offset, s.cursors[m.path].previous);
        }
        var p := Pending(read, now, s, m.path);
        RecordAcceptable(s.outbox, p.events, now);
        if m.stopped.Some? && m.stopped.value <= |p.events| {
          RecordAcceptable(s.outbox, p.events[..m.stopped.value], now);
        }
      }
    }
  }

  // ----- the code

  lemma {:induction false} RecordAppend(table: map<string, Event>, a: seq<Event>, b: seq<Event>)
    ensures Record(table, a + b) == Record(Record(table, a), b)
    decreases |a|
  {
    if a == [] {
      assert a + b == b;
    } else {
      assert (a + b)[1..] == a[1..] + b;
      RecordAppend(if a[0].id in table then table else table[a[0].id := a[0]], a[1..], b);
    }
  }

  /** One log alone, as a scanner sees it. */
  function Alone(path: string, file: File, cursors: map<string, Cursor>, outbox: map<string, Event>): State {
    State(map[path := file], cursors, outbox, map[], [], {})
  }

  lemma AloneFails(read: string -> Note, now: int, s: State, path: string, p: Pass, events: seq<Event>)
    requires path in s.files && p == Pending(read, now, s, path) && events <= p.events
    ensures Visited(read, now, s, path, Some(|events|)) == s.(outbox := Record(s.outbox, events))
  {
    assert p.events[..|events|] == events;
  }

  class Scanner {
    var cursors: map<string, Cursor>
    var outbox: map<string, Event>

    constructor ()
      ensures cursors == map[] && outbox == map[]
    {
      cursors, outbox := map[], map[];
    }

    /** One line: its event goes to the outbox unless one with its id is there. */
    method TakeLine(read: string -> Note, now: int, line: string, previous: Option<int>) returns (next: Option<int>)
      modifies `outbox
      ensures outbox == Record(old(outbox), Step(read, now, line, previous).0)
      ensures next == Step(read, now, line, previous).1
    {
      var (event, n) := EventOf(read(line), previous);
      next := n;
      if event.Some? && Recent(event.value, now) && event.value.id !in outbox {
        outbox := outbox[event.value.id := event.value];
      }
    }

    /**
     Reads complete lines on from an offset; after failsAt of them, if so many are there, reading fails. events is
     what the lines read so far gave.
     */
    method ReadLines(read: string -> Note, now: int, text: string, start: nat, before: Option<int>,
        failsAt: Option<nat>) returns (failed: bool, offset: nat, previous: Option<int>, ghost events: seq<Event>)
      requires start <= |text|
      modifies `outbox
      ensures var p := Scan(read, now, text, start, before);
        && outbox == Record(old(outbox), events) && events <= p.events
        && (!failed ==> p == Pass(events, offset, previous))
      ensures failsAt.None? ==> !failed
    {
      offset, previous, events, failed := start, before, [], false;
      ghost var p := Scan(read, now, text, start, before);
      var end, lines := LineEnd(text, offset), 0;
      while end.Some?
        invariant offset <= |text| && end == LineEnd(text, offset)
        invariant p == Then(events, Scan(read, now, text, offset, previous))
        invariant outbox == Record(old(outbox), events)
        decreases |text| - offset
      {
        if failsAt == Some(lines) { return true, offset, previous, events; }
        ScanLine(read, now, text, offset, previous, end.value);
        ghost var emitted := Step(read, now, text[offset..end.value], previous);
        ThenThen(events, emitted.0, Scan(read, now, text, end.value, emitted.1));
        RecordAppend(old(outbox), events, emitted.0);
        previous := TakeLine(read, now, text[offset..end.value], previous);
        events, offset, lines := events + emitted.0, end.value, lines + 1;
        end := LineEnd(text, offset);
      }
      assert events + [] == events;
    }

    /**
     Reads a log's complete lines from where the cursor stands and stores the new position with the events, unless
     the log has not been modified for thirty days. If reading fails on the way, the events found so far stay and the
     cursor does not move.
     */
    method ScanFile(read: string -> Note, now: int, path: string, file: File, modified: int, failsAt: Option<nat>)
      returns (ghost stopped: Option<nat>)
      modifies this
      ensures modified < now - 30 * DAY ==> cursors == old(cursors) && outbox == old(outbox)
      ensures modified >= now - 30 * DAY ==>
        Alone(path, file, cursors, outbox)
          == Visited(read, now, Alone(path, file, old(cursors), old(outbox)), path, stopped)
      ensures failsAt.None? ==> stopped.None?
    {
      stopped := None;
      if modified < now - 30 * DAY { return; }
      ghost var s := Alone(path, file, cursors, outbox);
      var start, before := 0, None;
      if path in cursors && cursors[path].identity == file.identity && cursors[path].offset <= |file.text| {
        start, before := cursors[path].offset, cursors[path].previous;
      }
      ghost var p := Scan(read, now, file.text, start, before);
      assert p == Pending(read, now, s, path);
      ghost var events;
      var failed, offset, previous;
      failed, offset, previous, events := ReadLines(read, now, file.text, start, before, failsAt);
      if failed {
        AloneFails(read, now, s, path, p, events);
        return Some(|events|);
      }
      cursors := cursors[path := Cursor(offset, previous, file.identity, file.text)];
    }

    method Acknowledge(events: seq<Event>)
      modifies this`outbox
      ensures outbox == old(outbox) - Ids(events)
    {
      for k := 0 to |events|
        invariant outbox == old(outbox) - Ids(events[..k])
      {
        assert events[..k + 1] == events[..k] + [events[k]];
        IdsJoin(events[..k], [events[k]]);
        outbox := outbox - {events[k].id};
      }
      assert events[..|events|] == events;
    }
  }
}
