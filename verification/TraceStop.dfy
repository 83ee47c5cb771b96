/**
 The one gap in the recorder's guards. Stop, unlike the other commands, is accepted while the record is marked corrupt,
 and its save clears the mark: exactly when that leads to a trace that cannot be stored.
 */
module TraceStop {
  import opened Bytes
  import opened TraceModel
  import opened TraceBlob
  import opened TracePack
  import opened TraceRetention
  import opened TraceService
  import opened TraceRuns

  /** Events of one boot that an orderly environment may bring. */
  predicate OneBoot(r: Rec, evs: seq<Event>)
    requires r.trace.Sized()
    decreases |evs|
  {
    evs == [] || (evs[0] != Reboot && Orderly(r, evs[0]) && OneBoot(Step(r, evs[0]), evs[1..]))
  }

  /** A continuation in the same boot that begins with Stop and ends with a trace that cannot be stored. */
  predicate Breaks(r: Rec, evs: seq<Event>)
    requires r.trace.Sized()
  {
    evs != [] && evs[0] == Request(Stop) && OneBoot(r, evs) && Decode(Encode(After(r, evs).trace)) == None
  }

  // ----- a last row that is not too late is harmless

  /** A recorder that is not waiting, marked corrupt, for a command. */
  predicate Busy(r: Rec) {
    r.ready && (r.corrupt ==> r.pending != NoCommand)
  }

  lemma BusyStays(r: Rec, ev: Event)
    requires r.trace.Sized() && Busy(r) && ev != Reboot
    ensures Busy(Step(r, ev)) && !Fatal(r, ev)
  {
  }

  lemma {:induction false} BusyIsPermitted(r: Rec, evs: seq<Event>)
    requires r.trace.Sized() && Busy(r) && OneBoot(r, evs)
    ensures Permitted(r, evs)
    decreases |evs|
  {
    if evs != [] {
      BusyStays(r, evs[0]);
      BusyIsPermitted(Step(r, evs[0]), evs[1..]);
    }
  }

  lemma EarlyIsSafe(r: Rec, evs: seq<Event>)
    requires Inv(r) && r.corrupt && Allowed(r, Stop) && LastMs(r.trace) <= r.clock + WRITE_GAP
    ensures !Breaks(r, evs)
  {
    if evs != [] && evs[0] == Request(Stop) && OneBoot(r, evs) {
      BusyIsPermitted(Step(r, evs[0]), evs[1..]);
      RunInv(r, evs);
      EncodeThenDecode(After(r, evs).trace);
    }
  }

  // ----- a later one is not

  /** A service call with everything working. */
  function Ask(now: u64, s: Sample): Event {
    Service(Env(now, true, ReadDone, Some(s), false, Nvs(true, true)))
  }

  lemma CommandSaved(r: Rec, e: Env)
    requires r.trace.Sized() && e.nvs == Nvs(true, true) && r.pending != Clear
    requires Storable(Commanded(r.trace, r.pending))
    ensures RunCommand(r, e) ==
      r.(trace := Clean(Commanded(r.trace, r.pending)), pending := NoCommand, corrupt := false, writeAttempted := true,
         lastWriteAttempt := e.now, stored := AfterWrite(r.stored, Commanded(r.trace, r.pending), r.hist, e.nvs))
  {
    SaveThenLoad(Commanded(r.trace, r.pending));
  }

  /** With a command pending, a writable sample and nothing to record, a service call runs the command. */
  lemma ServiceRunsCommand(r: Rec, s: Sample, now: u64)
    requires r.trace.Sized() && r.ready && r.pending != NoCommand && CanAttempt(r, now) && s.Writable()
    requires r.corrupt || !r.trace.status.armed
    ensures Step(r, Ask(now, s)) == RunCommand(r.(clock := now), Ask(now, s).env)
  {
  }

  lemma OutOfOrder(t: Trace, s: Sample)
    requires t.Sized() && LastMs(t) > s.monotonicMs
    ensures !Storable(t.Append(s)) && !RowsStorable(t.Append(s).rows, t.boot)
  {
    var r := t.Append(s).rows;
    assert r[|r| - 2] == t.rows[|t.rows| - 1];
    assert !NotBefore(r[|r| - 2], r[|r| - 1]);
  }

  /** The save of Stop: disarmed, no longer marked corrupt, and the rows as they were. */
  lemma StopRuns(r: Rec, s: Sample)
    requires TraceOk(r.trace) && r.corrupt && r.ready && r.pending == Stop && !r.writeAttempted
    requires r.trace.status.armed && s.Writable()
    ensures var n := Step(r, Ask(r.clock, s));
      && n.ready && !n.corrupt && n.pending == NoCommand && n.clock == r.clock
      && n.writeAttempted && n.lastWriteAttempt == r.clock
      && n.trace == r.trace.(status := r.trace.status.(armed := false, dirty := false))
  {
    assert Storable(Commanded(r.trace, Stop));
    ServiceRunsCommand(r, s, r.clock);
    CommandSaved(r.(clock := r.clock), Ask(r.clock, s).env);
  }

  lemma ResumeRuns(r: Rec, s: Sample, now: u64)
    requires TraceOk(r.trace) && !r.trace.status.armed && !r.trace.status.finalized && r.ready && !r.corrupt
    requires r.pending == Resume && r.writeAttempted && now == r.lastWriteAttempt + WRITE_GAP && s.Writable()
    ensures var n := Step(r, Ask(now, s));
      && n.ready && !n.corrupt && n.pending == NoCommand && n.clock == now
      && n.trace == r.trace.(status := r.trace.status.(armed := true, dirty := false))
  {
    assert Storable(Commanded(r.trace, Resume));
    ServiceRunsCommand(r, s, now);
    CommandSaved(r.(clock := now), Ask(now, s).env);
  }

  /** Without a command pending, what follows a sample changes neither the rows nor what makes them storable. */
  lemma WrittenRows(n: Rec, s: Sample, e: Env)
    requires n.trace.Sized() && n.pending == NoCommand
    ensures var m := Written(n, s, e).trace;
      && m.Sized() && m.rows == n.trace.rows && m.boot == n.trace.boot
      && m.status.finalized == n.trace.status.finalized && m.status.armed == n.trace.status.armed
  {
  }

  /** The first sample of the resumed trace lies before its last row. */
  lemma FirstSampleBreaks(r: Rec, s: Sample)
    requires r.ready && !r.corrupt && r.pending == NoCommand && r.trace.Sized()
    requires r.trace.status.armed && !r.trace.status.sampled && LastMs(r.trace) > r.clock
    ensures var n := Step(r, Ask(r.clock, s)); n.trace.Sized() && !Storable(n.trace)
  {
    var s' := s.(monotonicMs := r.clock);
    OutOfOrder(r.trace, s');
    var n := Sampled(r, s', r.clock);
    assert n.trace == r.trace.Append(s') && !RowsStorable(n.trace.rows, n.trace.boot);
    assert Step(r, Ask(r.clock, s)) == Written(n, s', Ask(r.clock, s).env);
    WrittenRows(n, s', Ask(r.clock, s).env);
  }

  lemma AfterFirst(r: Rec, a: Event, rest: seq<Event>)
    requires r.trace.Sized()
    ensures After(r, [a] + rest) == After(Step(r, a), rest)
    ensures OneBoot(r, [a] + rest) <==> a != Reboot && Orderly(r, a) && OneBoot(Step(r, a), rest)
  {
    assert ([a] + rest)[1..] == rest;
  }

  lemma AfterTwo(r: Rec, a: Event, b: Event)
    requires r.trace.Sized()
    ensures After(r, [a, b]) == Step(Step(r, a), b)
    ensures OneBoot(r, [a, b]) <==>
      a != Reboot && b != Reboot && Orderly(r, a) && Orderly(Step(r, a), b)
  {
    AfterFirst(r, a, [b]);
    AfterFirst(Step(r, a), b, []);
    assert [a] + [b] == [a, b] && [b] + [] == [b];
  }

  lemma AfterPair(r: Rec, a: Event, b: Event, rest: seq<Event>, ra: Rec, rb: Rec)
    requires r.trace.Sized() && ra == Step(r, a) && rb == Step(ra, b)
    requires a != Reboot && b != Reboot && Orderly(r, a) && Orderly(ra, b) && OneBoot(rb, rest)
    ensures var evs := [a] + ([b] + rest); After(r, evs) == After(rb, rest) && OneBoot(r, evs)
  {
    AfterFirst(r, a, [b] + rest);
    AfterFirst(ra, b, rest);
  }

  lemma AfterThree(r: Rec, a: Event, b: Event, c: Event, rest: seq<Event>, ra: Rec, rb: Rec, rc: Rec)
    requires r.trace.Sized() && ra == Step(r, a) && rb == Step(ra, b) && rc == Step(rb, c)
    requires a != Reboot && b != Reboot && c != Reboot && Orderly(r, a) && Orderly(ra, b) && Orderly(rb, c)
    requires OneBoot(rc, rest)
    ensures var evs := [a] + ([b] + ([c] + rest)); After(r, evs) == After(rc, rest) && OneBoot(r, evs)
  {
    AfterFirst(rb, c, rest);
    AfterPair(r, a, b, [c] + rest, ra, rb);
  }

  /** The recorder once Resume is asked for. */
  lemma UpToResume(r: Rec, s: Sample)
    requires Inv(r) && r.corrupt && Allowed(r, Stop) && LastMs(r.trace) > 0 && s.Writable()
    ensures var a := Step(r, Request(Stop)); var b := Step(a, Ask(r.clock, s)); var n := Step(b, Request(Resume));
      && a.clock == r.clock && b.clock == r.clock && n.clock == r.clock
      && n.ready && !n.corrupt && n.pending == Resume && n.writeAttempted && n.lastWriteAttempt == r.clock
      && n.trace == r.trace.(status := r.trace.status.(armed := false, dirty := false))
  {
    StopRuns(r.(pending := Stop), s);
  }

  /** From the request to resume on: its save, then the sample that comes too early. */
  lemma ResumedBreaks(n: Rec, s: Sample, now: u64)
    requires TraceOk(n.trace) && !n.trace.status.armed && !n.trace.status.finalized && !n.trace.status.sampled
    requires n.ready && !n.corrupt && n.pending == Resume && n.writeAttempted && n.clock <= now
    requires now == n.lastWriteAttempt + WRITE_GAP && LastMs(n.trace) > now && s.Writable() && s.flags < 64
    ensures var last := [Ask(now, s), Ask(now, s)]; OneBoot(n, last) && Decode(Encode(After(n, last).trace)) == None
  {
    ResumeRuns(n, s, now);
    var m := Step(n, Ask(now, s));
    FirstSampleBreaks(m, s);
    AfterTwo(n, Ask(now, s), Ask(now, s));
    EncodeThenDecode(Step(m, Ask(now, s)).trace);
  }

  /** Stop and Resume as early as their saves may follow each other, and the first sample after them. */
  lemma LateBreaks(r: Rec, s: Sample) returns (more: seq<Event>)
    requires Inv(r) && r.corrupt && Allowed(r, Stop) && LastMs(r.trace) > r.clock + WRITE_GAP
    requires s.Writable() && s.flags < 64
    ensures Breaks(r, more)
  {
    var now := r.clock + WRITE_GAP;
    var a, b, c, rest := Request(Stop), Ask(r.clock, s), Request(Resume), [Ask(now, s), Ask(now, s)];
    var ra := Step(r, a);
    var rb := Step(ra, b);
    var rc := Step(rb, c);
    UpToResume(r, s);
    ResumedBreaks(rc, s, now);
    AfterThree(r, a, b, c, rest, ra, rb, rc);
    more := [a] + ([b] + ([c] + rest));
    assert more[0] == a;
  }

  /**
   Exactly when an accepted Stop is fatal: after any permitted run that leaves the record marked corrupt and Stop
   acceptable, some continuation of that Stop in the same boot holds a trace that cannot be stored if and only if the
   last row is of the trace's own boot and lies more than the gap between two writes ahead of the clock.
   */
  lemma StopBreaksExactly(stored: Option<Stored>, evs: seq<Event>)
    requires stored.Some? ==> StoredOk(stored.value)
    requires Permitted(Booted(stored), evs)
    requires After(Booted(stored), evs).corrupt && Allowed(After(Booted(stored), evs), Stop)
    ensures var r := After(Booted(stored), evs);
      (exists more :: Breaks(r, more)) <==> LastMs(r.trace) > r.clock + WRITE_GAP
  {
    var r := After(Booted(stored), evs);
    BootedInv(stored);
    RunInv(Booted(stored), evs);
    if LastMs(r.trace) > r.clock + WRITE_GAP {
      var s := NoSample.(flags := 1, voltageMv := 3300);
      var more := LateBreaks(r, s);
      assert Breaks(r, more);
    }
    if more :| Breaks(r, more) {
      if LastMs(r.trace) <= r.clock + WRITE_GAP { EarlyIsSafe(r, more); }
    }
  }

  lemma LoadIs(stored: Stored, t: Trace, e: Env)
    requires Loaded(stored.bytes) == Some(t) && t.Sized() && t.boot == BOOT_MAX && e.admitted && e.load == ReadDone
    ensures ServiceStep(Booted(Some(stored)), e)
      == Booted(Some(stored)).(trace := t, hist := NormalRows(stored.hist), corrupt := true, ready := true,
           clock := e.now)
  {
  }

  lemma NormalLastMs(t: Trace)
    ensures LastMs(Normal(t)) == LastMs(t)
  {
  }

  /** The recorder after loading an armed trace of the last boot number: marked corrupt, yet it accepts Stop. */
  lemma LastBootLoads(t: Trace, hist: seq<Sample>, e: Env)
    requires TraceOk(t) && t.boot == BOOT_MAX && t.status.armed && e.admitted && e.load == ReadDone && e.now == 0
    ensures var r := ServiceStep(Booted(Some(Stored(Pack(Encode(t)), hist))), e);
      r.corrupt && Allowed(r, Stop) && r.clock == 0 && LastMs(r.trace) == LastMs(t)
  {
    SaveThenLoad(t);
    NormalLastMs(t);
    LoadIs(Stored(Pack(Encode(t)), hist), Normal(t), e);
  }

  /** And it happens: any armed trace of the last boot number with such a row leads there as soon as it is loaded. */
  lemma LastBootBreaks(t: Trace, hist: seq<Sample>)
    requires TraceOk(t) && t.rows == Run(hist) && t.boot == BOOT_MAX && t.status.armed && LastMs(t) > WRITE_GAP
    ensures var stored := Some(Stored(Pack(Encode(t)), hist)); var evs := [Ask(0, NoSample)];
      && StoredOk(stored.value) && Permitted(Booted(stored), evs)
      && exists more :: Breaks(After(Booted(stored), evs), more)
  {
    var stored, evs := Some(Stored(Pack(Encode(t)), hist)), [Ask(0, NoSample)];
    PackedOk(t, hist);
    LastBootLoads(t, hist, evs[0].env);
    AfterFirst(Booted(stored), evs[0], []);
    assert [evs[0]] + [] == evs && evs[1..] == [];
    assert !Allowed(Booted(stored), Stop);
    StopBreaksExactly(stored, evs);
  }
}
