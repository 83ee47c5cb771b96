/** What every move of the log reader and its collector does, and that the outbox can always be delivered. */
module LogMoves {
  import opened Bytes
  import opened LocalUsage

  /** What the collector takes: at most 90 days old, at most five minutes ahead, and a count that fits 53 bits. */
  predicate Taken(e: Event, now: int) {
    now - 7776000 <= e.epoch <= now + 300 && 1 <= e.tokens <= 0x1f_ffff_ffff_ffff
  }

  /** A log grows, or is replaced by one with another identity. */
  lemma FilesExactly(read: string -> Note, now: int, s: State, path: string, data: string, file: File)
    ensures Enabled(s, Append(path, data), now) <==> path in s.files
    ensures path in s.files ==> var t := Next(read, now, s, Append(path, data));
      && t.files == s.files[path := s.files[path].(text := s.files[path].text + data)]
      && t == s.(files := t.files)
    ensures Enabled(s, Replace(path, file), now) ==> var t := Next(read, now, s, Replace(path, file));
      t.files == s.files[path := file] && t == s.(files := t.files, former := t.former)
  {
  }

  lemma {:induction false} RecordIs(table: map<string, Event>, events: seq<Event>, id: string)
    ensures var r := Record(table, events);
      && (id in r <==> id in table || exists e :: e in events && e.id == id)
      && (id in table ==> r[id] == table[id])
      && (id in r && id !in table ==> r[id] in events && r[id].id == id)
    decreases |events|
  {
    if events != [] {
      var e := events[0];
      RecordIs(if e.id in table then table else table[e.id := e], events[1..], id);
      assert events == [e] + events[1..];
    }
  }

  /**
   A visit reads from the cursor if it still fits the log, and else from the start. What it reads is added to the
   outbox, without touching what is there; if it gets to the end, the cursor is set behind the last complete line.
   */
  lemma VisitExactly(read: string -> Note, now: int, s: State, path: string, stopped: Option<nat>)
    requires path in s.files
    ensures var f, t := s.files[path], Next(read, now, s, Visit(path, stopped));
      var fits := path in s.cursors && s.cursors[path].identity == f.identity && s.cursors[path].offset <= |f.text|;
      var p := if fits then Scan(read, now, f.text, s.cursors[path].offset, s.cursors[path].previous)
               else Scan(read, now, f.text, 0, None);
      var part := stopped.Some? && stopped.value <= |p.events|;
      && t.outbox == Record(s.outbox, if part then p.events[..stopped.value] else p.events)
      && t.cursors == (if part then s.cursors else s.cursors[path := Cursor(p.offset, p.previous, f.identity, f.text)])
      && t == s.(outbox := t.outbox, cursors := t.cursors)
  {
  }

  /** A batch of at most a thousand events of the outbox may be sent, any number of times. */
  lemma SendExactly(read: string -> Note, now: int, s: State, batch: seq<Event>)
    ensures Enabled(s, Send(batch), now) <==>
      |batch| <= 1000 && forall e :: e in batch ==> e.id in s.outbox && s.outbox[e.id] == e
    ensures Enabled(s, Send(batch), now) ==>
      Next(read, now, s, Send(batch)) == s.(flights := s.flights + [Flight(batch, false)])
  {
  }

  /** The collector takes a batch whole or not at all, and never changes what it holds. */
  lemma ArriveExactly(read: string -> Note, now: int, s: State, k: nat)
    requires k < |s.flights|
    ensures var batch := s.flights[k].batch; var t := Next(read, now, s, Arrive(k));
      && Enabled(s, Arrive(k), now)
      && if forall e :: e in batch ==> Taken(e, now) then
           t == s.(collector := Record(s.collector, batch), flights := s.flights[k := Flight(batch, true)])
         else t == s
  {
  }

  /** Only what the collector has stored is acknowledged, and then leaves the outbox. */
  lemma AcknowledgeExactly(read: string -> Note, now: int, s: State, k: nat)
    ensures Enabled(s, Acknowledge(k), now) <==> k < |s.flights| && s.flights[k].arrived
    ensures Enabled(s, Acknowledge(k), now) ==>
      Next(read, now, s, Acknowledge(k)) == s.(outbox := s.outbox - Ids(s.flights[k].batch))
  {
  }

  // ----- delivery

  /** Outbox entries stand under their own ids and are such that the collector takes them. */
  predicate Deliverable(s: State, now: int) {
    forall id :: id in s.outbox ==> s.outbox[id].id == id && Taken(s.outbox[id], now)
  }

  /** One event at a time: sent, stored, acknowledged. */
  function Delivered(read: string -> Note, now: int, s: State, e: Event): Option<State> {
    if !Enabled(s, Send([e]), now) then None
    else
      var a := Next(read, now, s, Send([e]));
      var k := |s.flights|;
      if !Enabled(a, Arrive(k), now) then None
      else
        var b := Next(read, now, a, Arrive(k));
        if !Enabled(b, Acknowledge(k), now) then None else Some(Next(read, now, b, Acknowledge(k)))
  }

  lemma OneDelivered(read: string -> Note, now: int, s: State, id: string)
    requires Deliverable(s, now) && id in s.outbox
    ensures var t := Delivered(read, now, s, s.outbox[id]);
      && t.Some? && t.value.outbox == s.outbox - {id} && id in t.value.collector
      && (id in s.collector ==> t.value.collector[id] == s.collector[id])
      && (id !in s.collector ==> t.value.collector[id] == s.outbox[id])
      && t.value.files == s.files && t.value.cursors == s.cursors
  {
    var e := s.outbox[id];
    var a := Next(read, now, s, Send([e]));
    assert a.flights[|s.flights|] == Flight([e], false);
    ArriveExactly(read, now, a, |s.flights|);
    RecordIs(s.collector, [e], id);
    var b := Next(read, now, a, Arrive(|s.flights|));
    assert b.flights[|s.flights|] == Flight([e], true);
    assert Ids([e]) == {id};
  }

  predicate Keyed(table: map<string, Event>) {
    forall id :: id in table ==> table[id].id == id
  }

  lemma RecordKeyed(table: map<string, Event>, events: seq<Event>)
    requires Keyed(table)
    ensures Keyed(Record(table, events))
  {
    forall id | id in Record(table, events)
      ensures Record(table, events)[id].id == id
    {
      RecordIs(table, events, id);
    }
  }

  lemma {:induction false} RunKeyed(read: string -> Note, now: int, run: seq<Move>)
    requires Play(read, now, run).Some?
    ensures Keyed(Play(read, now, run).value.outbox)
    decreases |run|
  {
    if run != [] {
      RunKeyed(read, now, run[..|run| - 1]);
      var s, m := Play(read, now, run[..|run| - 1]).value, run[|run| - 1];
      if m.Visit? {
        var p := Pending(read, now, s, m.path);
        RecordKeyed(s.outbox, p.events);
        if m.stopped.Some? && m.stopped.value <= |p.events| { RecordKeyed(s.outbox, p.events[..m.stopped.value]); }
      }
    }
  }

  lemma RunDeliverable(read: string -> Note, now: int, run: seq<Move>)
    requires Play(read, now, run).Some?
    ensures Deliverable(Play(read, now, run).value, now)
  {
    NeverRefused(read, now, run);
    RunKeyed(read, now, run);
    var s := Play(read, now, run).value;
    forall id | id in s.outbox
      ensures Taken(s.outbox[id], now)
    {
      assert Acceptable(s.outbox[id], now);
    }
  }

  /** One step more. */
  lemma On(read: string -> Note, now: int, run: seq<Move>, s: State, m: Move)
    requires Play(read, now, run) == Some(s) && Enabled(s, m, now)
    ensures Play(read, now, run + [m]) == Some(Next(read, now, s, m))
  {
    assert (run + [m])[..|run|] == run;
  }

  lemma DeliverOne(read: string -> Note, now: int, run: seq<Move>, id: string) returns (longer: seq<Move>)
    requires Play(read, now, run).Some? && id in Play(read, now, run).value.outbox
    ensures Play(read, now, longer) == Delivered(read, now, Play(read, now, run).value,
      Play(read, now, run).value.outbox[id])
    ensures Play(read, now, longer).Some? && run <= longer
  {
    var s := Play(read, now, run).value;
    RunDeliverable(read, now, run);
    OneDelivered(read, now, s, id);
    var e, k := s.outbox[id], |s.flights|;
    var a := Next(read, now, s, Send([e]));
    On(read, now, run, s, Send([e]));
    var b := Next(read, now, a, Arrive(k));
    On(read, now, run + [Send([e])], a, Arrive(k));
    On(read, now, run + [Send([e])] + [Arrive(k)], b, Acknowledge(k));
    longer := run + [Send([e])] + [Arrive(k)] + [Acknowledge(k)];
  }

  /** From every state of every run the outbox can be emptied, without another log line being read. */
  lemma {:induction false} CanBeEmptied(read: string -> Note, now: int, run: seq<Move>) returns (longer: seq<Move>)
    requires Play(read, now, run).Some?
    ensures run <= longer && Play(read, now, longer).Some?
    ensures var s, t := Play(read, now, run).value, Play(read, now, longer).value;
      && t.outbox == map[] && t.files == s.files && t.cursors == s.cursors
      && t.collector.Keys == s.collector.Keys + s.outbox.Keys
    decreases |Play(read, now, run).value.outbox|
  {
    var s := Play(read, now, run).value;
    longer := run;
    if s.outbox != map[] {
      var id :| id in s.outbox;
      RunDeliverable(read, now, run);
      OneDelivered(read, now, s, id);
      DeliveredKeys(read, now, s, id);
      var mid := DeliverOne(read, now, run, id);
      assert |(s.outbox - {id}).Keys| == |s.outbox.Keys - {id}| < |s.outbox.Keys| by {
        assert (s.outbox - {id}).Keys == s.outbox.Keys - {id};
      }
      longer := CanBeEmptied(read, now, mid);
    }
  }

  lemma DeliveredKeys(read: string -> Note, now: int, s: State, id: string)
    requires Deliverable(s, now) && id in s.outbox
    ensures var t := Delivered(read, now, s, s.outbox[id]);
      t.Some? && t.value.collector.Keys == s.collector.Keys + {id}
  {
    OneDelivered(read, now, s, id);
    var e := s.outbox[id];
    forall q
      ensures q in Record(s.collector, [e]) <==> q in s.collector || q == id
    {
      RecordIs(s.collector, [e], q);
    }
  }
}
