/**
 What the recorder does, from any state it can reach: when a service call takes a sample, when it finishes a command,
 what each finished command leaves, and when it writes at all.
 */
module TraceCommands {
  import opened Bytes
  import opened TraceModel
  import opened TraceBlob
  import opened TracePack
  import opened TraceRetention
  import opened TraceService
  import opened TraceRuns

  // ----- a trace without rows has taken no sample, and a stopped one takes none

  predicate FreshOk(r: Rec) {
    && (r.trace.rows == [] ==> !r.trace.status.sampled)
    && (r.pending == Checkpoint ==> !r.trace.status.armed)
  }

  lemma AppendedRows(t: Trace, s: Sample)
    requires t.Sized()
    ensures var n := t.Append(s).rows; n != [] && n[|n| - 1] == s.(boot := t.boot)
  {
  }

  lemma LoadFresh(r: Rec, o: LoadOutcome)
    requires FreshOk(r) && r.pending == NoCommand
    ensures FreshOk(LoadStep(r, o)) && LoadStep(r, o).pending == NoCommand
  {
    if o == ReadDone && r.stored.Some? {
      var l := Loaded(r.stored.value.bytes);
      if l.Some? {
        DecodedIsNormal(Unpack(r.stored.value.bytes).value, l.value);
      }
    }
  }

  lemma CommandedFresh(t: Trace, c: Command)
    requires t.Sized() && (t.rows == [] ==> !t.status.sampled)
    ensures var n := Clean(Commanded(t, c)); n.rows == [] ==> !n.status.sampled
  {
  }

  lemma CommandFresh(n: Rec, e: Env)
    requires n.trace.Sized() && FreshOk(n)
    ensures FreshOk(RunCommand(n, e))
  {
    CommandedFresh(n.trace, n.pending);
  }

  lemma CheckpointFresh(n: Rec, e: Env)
    requires n.trace.Sized() && FreshOk(n)
    ensures FreshOk(RunCheckpoint(n, e))
  {
  }

  lemma WrittenFresh(n: Rec, s: Sample, e: Env)
    requires n.trace.Sized() && FreshOk(n)
    ensures FreshOk(Written(n, s, e))
  {
    CommandFresh(n, e);
    CheckpointFresh(n, e);
  }

  predicate NotReadyOk(r: Rec) {
    !r.ready ==> r.pending == NoCommand
  }

  lemma SampledFresh(l: Rec, s: Sample, now: u64)
    requires l.trace.Sized() && FreshOk(l)
    ensures FreshOk(Sampled(l, s, now))
  {
    AppendedRows(l.trace, s);
  }

  lemma ServiceFresh(r: Rec, e: Env)
    requires r.trace.Sized() && FreshOk(r) && NotReadyOk(r)
    ensures FreshOk(ServiceStep(r, e)) && NotReadyOk(ServiceStep(r, e))
  {
    if !r.ready { LoadFresh(r, e.load); }
    var l := (if r.ready then r else LoadStep(r, e.load)).(clock := e.now);
    if e.sample.Some? {
      var s := e.sample.value.(monotonicMs := e.now);
      SampledFresh(l, s, e.now);
      WrittenFresh(Sampled(l, s, e.now), s, e);
    }
  }

  lemma {:induction false} RunFresh(r: Rec, evs: seq<Event>)
    requires r.trace.Sized() && FreshOk(r) && NotReadyOk(r)
    ensures FreshOk(After(r, evs))
    decreases |evs|
  {
    if evs != [] {
      match evs[0] {
        case Service(e) =>
          ServiceFresh(r, e);
        case _ =>
      }
      RunFresh(Step(r, evs[0]), evs[1..]);
    }
  }

  /** A state that a permitted run of events reaches. */
  predicate Reached(stored: Option<Stored>, evs: seq<Event>) {
    (stored.Some? ==> StoredOk(stored.value)) && Permitted(Booted(stored), evs)
  }

  // ----- loading

  /** A boot forgets everything but the stored record; the first write need not wait. */
  lemma BootExactly(r: Rec)
    requires r.trace.Sized()
    ensures var n := Step(r, Reboot);
      && n.stored == r.stored && !n.ready && !n.corrupt && n.pending == NoCommand && !n.writeAttempted
      && n.trace == EmptyTrace(1) && n.hist == [] && n.trace.rows == [] && !n.trace.status.armed
      && !n.trace.status.sampled && !n.trace.status.dirty && !n.trace.status.lowSeen && !n.trace.status.finalized
  {
  }

  /** Before the first admitted call of a boot nothing has happened. */
  lemma {:induction false} NotReadyIsBooted(r: Rec, evs: seq<Event>)
    requires r.trace.Sized() && (!r.ready ==> r == Booted(r.stored))
    ensures var n := After(r, evs); !n.ready ==> n == Booted(n.stored)
    decreases |evs|
  {
    if evs != [] {
      NotReadyIsBooted(Step(r, evs[0]), evs[1..]);
    }
  }

  /**
   The first admitted call loads: without a record the trace is empty and of boot 2; with one it is the stored trace of
   the next boot. A failed read, an unreadable record and the last boot number leave the recorder corrupt.
   */
  lemma LoadExactly(stored: Option<Stored>, evs: seq<Event>, e: Env)
    requires Reached(stored, evs) && !After(Booted(stored), evs).ready && e.admitted && e.sample == None
    ensures var r := After(Booted(stored), evs); var n := Step(r, Service(e));
      && n.ready && n.stored == r.stored && n.pending == NoCommand
      && match r.stored
         case None => n.corrupt == (e.load == ReadFailed) && (!n.corrupt ==> n.trace == EmptyTrace(2) && n.hist == [])
         case Some(s) =>
           && (!n.corrupt <==>
               e.load == ReadDone && Loaded(s.bytes).Some? && Loaded(s.bytes).value.boot < 0xffff_ffff)
           && (!n.corrupt ==>
               && n.trace == Loaded(s.bytes).value.(boot := Loaded(s.bytes).value.boot + 1)
               && n.hist == NormalRows(s.hist))
  {
    NotReadyIsBooted(Booted(stored), evs);
  }

  /** A first call that also has a sample does what two calls would do, the first one without it. */
  lemma LoadsFirst(r: Rec, e: Env)
    requires r.trace.Sized() && !r.ready && e.admitted
    ensures Step(r, Service(e)) == Step(Step(r, Service(e.(sample := None))), Service(e))
  {
  }

  // ----- samples

  /** Ten seconds after a low sample, a minute after any other, and at once if there is none. */
  predicate SampleDue(t: Status, now: u64) {
    t.armed && (!t.sampled || (now - t.lastSampleMs) % 0x1_0000_0000_0000_0000 >= if t.lastLow then 10000 else 60000)
  }

  predicate TakesSample(r: Rec, e: Env) {
    e.admitted && !r.corrupt && e.sample.Some? && SampleDue(r.trace.status, e.now)
  }

  /** The row a sample becomes: stamped with the clock and the boot. */
  function RowOfSample(r: Rec, e: Env): Sample
    requires e.sample.Some?
  {
    e.sample.value.(monotonicMs := e.now, boot := r.trace.boot)
  }

  function HistAfter(r: Rec, e: Env): seq<Sample> {
    if TakesSample(r, e) then r.hist + [RowOfSample(r, e)] else r.hist
  }

  /** The state before anything is written: with the sample, if one is taken. */
  function Observed(r: Rec, e: Env): (n: Rec)
    requires r.trace.Sized()
    ensures n.trace.Sized()
  {
    var l := r.(clock := e.now);
    if e.sample.Some? then Sampled(l, e.sample.value.(monotonicMs := e.now), e.now) else l
  }

  lemma ObservedIs(r: Rec, e: Env)
    requires r.trace.Sized() && e.admitted && r.ready
    ensures var n := Observed(r, e);
      && n == r.(clock := e.now, trace := n.trace, hist := HistAfter(r, e)) && n.trace.boot == r.trace.boot
      && (!TakesSample(r, e) ==> n.trace == r.trace)
  {
  }

  // ----- writes

  /** Everything a write waits for: a writable sample, no block from elsewhere, and a minute since the last attempt. */
  predicate MayWrite(r: Rec, e: Env) {
    && e.admitted && e.sample.Some? && !e.writesBlocked
    && e.sample.value.flags % 2 == 1 && e.sample.value.voltageMv >= 3300
    && (!r.writeAttempted || (e.now - r.lastWriteAttempt) % 0x1_0000_0000_0000_0000 >= 60000)
  }

  lemma WrittenWithCommand(r: Rec, n: Rec, s: Sample, e: Env)
    requires n.trace.Sized() && n.pending != NoCommand && e.admitted && e.sample.Some?
    requires s.flags == e.sample.value.flags && s.voltageMv == e.sample.value.voltageMv
    requires n.writeAttempted == r.writeAttempted && n.lastWriteAttempt == r.lastWriteAttempt
    ensures Written(n, s, e) == if MayWrite(r, e) then RunCommand(n, e) else n
  {
  }

  lemma NotWanted(r: Rec, e: Env)
    requires r.trace.Sized() && r.pending != NoCommand && e.sample.Some? && !Wanted(r.(clock := e.now), e.now)
    ensures Observed(r, e) == r.(clock := e.now) && !MayWrite(r, e)
  {
  }

  lemma ServiceWithCommand(r: Rec, e: Env)
    requires r.trace.Sized() && r.ready && r.pending != NoCommand
    ensures ServiceStep(r, e) ==
      if !e.admitted then r
      else if MayWrite(r, e) then RunCommand(Observed(r, e), e)
      else Observed(r, e)
  {
    if e.admitted && e.sample.Some? {
      if Wanted(r.(clock := e.now), e.now) {
        ObservedIs(r, e);
        WrittenWithCommand(r, Observed(r, e), e.sample.value.(monotonicMs := e.now), e);
      } else {
        NotWanted(r, e);
      }
    }
  }

  /** What a command would save, with the sample of the same call, can be saved. */
  lemma CommandedStorable(r: Rec, e: Env)
    requires Inv(r) && r.ready && r.pending != NoCommand && EventOk(r, Service(e)) && MayWrite(r, e)
    ensures Storable(Commanded(Observed(r, e).trace, r.pending))
  {
    SampledInv(r.(clock := e.now), e.sample.value.(monotonicMs := e.now), r.clock);
    CommandedOk(Observed(r, e));
  }

  /** Done means the pending mark is gone; without a done, the command is still pending and only a sample may be new. */
  lemma CommandDone(stored: Option<Stored>, evs: seq<Event>, e: Env)
    requires Reached(stored, evs) && After(Booted(stored), evs).pending != NoCommand
    requires EventOk(After(Booted(stored), evs), Service(e))
    ensures var r := After(Booted(stored), evs); var n := Step(r, Service(e));
      && (n.pending == NoCommand ==> MayWrite(r, e) && e.nvs.reported)
      && (MayWrite(r, e) && e.nvs == Nvs(true, true) ==> n.pending == NoCommand)
      && (n.pending == NoCommand ==>
          !n.corrupt && n.stored.Some? && Loaded(n.stored.value.bytes) == Some(Normal(n.trace)))
      && (n.pending != NoCommand ==> n.pending == r.pending && n.corrupt == r.corrupt && n.hist == HistAfter(r, e))
  {
    var r := After(Booted(stored), evs);
    BootedInv(stored);
    RunInv(Booted(stored), evs);
    ServiceWithCommand(r, e);
    if e.admitted {
      ObservedIs(r, e);
      if MayWrite(r, e) {
        CommandedStorable(r, e);
        RunCommandDone(r, Observed(r, e), e);
      }
    }
  }

  lemma RunCommandDone(r: Rec, o: Rec, e: Env)
    requires Inv(r) && o.trace.Sized() && o.pending == r.pending != NoCommand
    requires Storable(Commanded(o.trace, o.pending))
    ensures var n := RunCommand(o, e);
      && (n.pending == NoCommand ==> e.nvs.reported)
      && (e.nvs == Nvs(true, true) ==> n.pending == NoCommand)
      && (n.pending == NoCommand ==>
          !n.corrupt && n.stored.Some? && Loaded(n.stored.value.bytes) == Some(Normal(n.trace)))
      && (n.pending != NoCommand ==> n == o.(stored := n.stored, writeAttempted := true, lastWriteAttempt := e.now))
  {
    SaveThenLoad(Commanded(o.trace, o.pending));
  }

  // ----- what each command leaves

  lemma ReachedOk(stored: Option<Stored>, evs: seq<Event>)
    requires Reached(stored, evs)
    ensures Inv(After(Booted(stored), evs)) && FreshOk(After(Booted(stored), evs))
  {
    BootedInv(stored);
    RunInv(Booted(stored), evs);
    RunFresh(Booted(stored), evs);
  }

  /** The trace as a finished command leaves it, compared with the trace it found. */
  predicate Flags(t: Trace, armed: bool, lowSeen: bool, finalized: bool, boot: u32) {
    t.status.armed == armed && t.status.lowSeen == lowSeen && t.status.finalized == finalized && t.boot == boot
  }

  /** What a command would save: Arm and Resume record, Stop does not, and only Clear touches anything else. */
  lemma CommandedExactly(t: Trace, c: Command)
    requires t.Sized()
    ensures var n := Commanded(t, c);
      && n.boot == t.boot
      && n.status.armed == (c == Arm || c == Resume || (c != Stop && c != Clear && t.status.armed))
      && (if c == Clear then n.rows == [] && Flags(n, false, false, false, t.boot) && !n.status.sampled
          else n.rows == t.rows && n.status == t.status.(armed := n.status.armed))
  {
  }

  lemma EmptyHistory(h: seq<Sample>)
    requires Run(h) == []
    ensures h == []
  {
    Shape(h);
  }

  lemma DoneIs(r: Rec, e: Env)
    requires r.trace.Sized() && r.ready && r.pending != NoCommand && Step(r, Service(e)).pending == NoCommand
    ensures var o, n := Observed(r, e), Step(r, Service(e));
      n.trace == Clean(Commanded(o.trace, r.pending)) && n.hist == if r.pending == Clear then [] else HistAfter(r, e)
  {
    ServiceWithCommand(r, e);
    if e.admitted { ObservedIs(r, e); }
  }

  /** An Arm that is reported done leaves an armed, empty trace of the same boot. */
  lemma ArmDone(stored: Option<Stored>, evs: seq<Event>, e: Env)
    requires Reached(stored, evs) && After(Booted(stored), evs).pending == Arm
    requires Step(After(Booted(stored), evs), Service(e)).pending == NoCommand
    ensures var r := After(Booted(stored), evs); var n := Step(r, Service(e));
      n.trace.rows == [] && n.hist == [] && Flags(n.trace, true, r.trace.status.lowSeen, false, r.trace.boot)
  {
    var r := After(Booted(stored), evs);
    ReachedOk(stored, evs);
    EmptyHistory(r.hist);
    CommandedExactly(Observed(r, e).trace, Arm);
    DoneIs(r, e);
    ServiceWithCommand(r, e);
    ObservedIs(r, e);
  }

  lemma ClearDone(stored: Option<Stored>, evs: seq<Event>, e: Env)
    requires Reached(stored, evs) && After(Booted(stored), evs).pending == Clear
    requires Step(After(Booted(stored), evs), Service(e)).pending == NoCommand
    ensures var r := After(Booted(stored), evs); var n := Step(r, Service(e));
      n.trace.rows == [] && n.hist == [] && Flags(n.trace, false, false, false, r.trace.boot)
  {
    var r := After(Booted(stored), evs);
    ReachedOk(stored, evs);
    CommandedExactly(Observed(r, e).trace, Clear);
    DoneIs(r, e);
    ServiceWithCommand(r, e);
    ObservedIs(r, e);
  }

  /** A sample may still come with the call that stops. */
  lemma StopDone(stored: Option<Stored>, evs: seq<Event>, e: Env)
    requires Reached(stored, evs) && After(Booted(stored), evs).pending == Stop
    requires Step(After(Booted(stored), evs), Service(e)).pending == NoCommand
    ensures var r := After(Booted(stored), evs); var n := Step(r, Service(e));
      !n.trace.status.armed && n.hist == HistAfter(r, e) && n.trace.boot == r.trace.boot
  {
    var r := After(Booted(stored), evs);
    ReachedOk(stored, evs);
    CommandedExactly(Observed(r, e).trace, Stop);
    DoneIs(r, e);
    ServiceWithCommand(r, e);
    ObservedIs(r, e);
  }

  lemma ResumeDone(stored: Option<Stored>, evs: seq<Event>, e: Env)
    requires Reached(stored, evs) && After(Booted(stored), evs).pending == Resume
    requires Step(After(Booted(stored), evs), Service(e)).pending == NoCommand
    ensures var r := After(Booted(stored), evs); var n := Step(r, Service(e));
      && n.trace.rows == r.trace.rows && n.hist == r.hist
      && Flags(n.trace, true, r.trace.status.lowSeen, false, r.trace.boot)
  {
    var r := After(Booted(stored), evs);
    ReachedOk(stored, evs);
    CommandedExactly(Observed(r, e).trace, Resume);
    DoneIs(r, e);
    ServiceWithCommand(r, e);
    ObservedIs(r, e);
  }

  lemma CheckpointDone(stored: Option<Stored>, evs: seq<Event>, e: Env)
    requires Reached(stored, evs) && After(Booted(stored), evs).pending == Checkpoint
    requires Step(After(Booted(stored), evs), Service(e)).pending == NoCommand
    ensures var r := After(Booted(stored), evs); var n := Step(r, Service(e)); var t := r.trace.status;
      && n.trace.rows == r.trace.rows && n.hist == r.hist
      && Flags(n.trace, false, t.lowSeen, t.finalized, r.trace.boot)
  {
    var r := After(Booted(stored), evs);
    ReachedOk(stored, evs);
    CommandedExactly(Observed(r, e).trace, Checkpoint);
    DoneIs(r, e);
    ServiceWithCommand(r, e);
    ObservedIs(r, e);
  }

  // ----- recording

  lemma ServiceWithoutCommand(r: Rec, e: Env)
    requires r.trace.Sized() && r.ready && r.pending == NoCommand
    ensures var n := Step(r, Service(e));
      n.hist == HistAfter(r, e) && n.trace.boot == r.trace.boot && n.pending == NoCommand && n.corrupt == r.corrupt
  {
    if e.admitted { ObservedIs(r, e); }
  }

  /** Once loaded, and unless it is cleared: a call adds exactly the due sample, stamped, or no sample at all. */
  lemma SampleExactly(stored: Option<Stored>, evs: seq<Event>, e: Env)
    requires Reached(stored, evs) && After(Booted(stored), evs).ready
    requires EventOk(After(Booted(stored), evs), Service(e)) && After(Booted(stored), evs).pending != Clear
    ensures var r := After(Booted(stored), evs); var n := Step(r, Service(e));
      n.hist == HistAfter(r, e) && n.trace.rows == Run(n.hist)
  {
    var r := After(Booted(stored), evs);
    ReachedOk(stored, evs);
    StepInv(r, Service(e));
    if r.pending == NoCommand {
      ServiceWithoutCommand(r, e);
    } else {
      ServiceWithCommand(r, e);
      if e.admitted { ObservedIs(r, e); }
    }
  }

  /** The first call with a sample after a finished Arm records it, whatever the clock shows: it is the first row. */
  lemma ArmThenSample(stored: Option<Stored>, evs: seq<Event>, e: Env, next: Env)
    requires Reached(stored, evs) && After(Booted(stored), evs).pending == Arm
    requires EventOk(After(Booted(stored), evs), Service(e))
    requires Step(After(Booted(stored), evs), Service(e)).pending == NoCommand
    requires EventOk(Step(After(Booted(stored), evs), Service(e)), Service(next))
    requires next.admitted && next.sample.Some?
    ensures var r := After(Booted(stored), evs); var n := Step(r, Service(e));
      Step(n, Service(next)).trace.rows == [next.sample.value.(monotonicMs := next.now, boot := r.trace.boot)]
  {
    var r := After(Booted(stored), evs);
    var n := Step(r, Service(e));
    ReachedOk(stored, evs);
    ArmDone(stored, evs, e);
    CommandDone(stored, evs, e);
    StepInv(r, Service(e));
    ServiceFresh(r, e);
    FirstSample(n, next);
  }

  lemma FirstSample(n: Rec, e: Env)
    requires Inv(n) && FreshOk(n) && n.ready && !n.corrupt && n.pending == NoCommand
    requires n.trace.rows == [] && n.hist == [] && n.trace.status.armed
    requires EventOk(n, Service(e)) && e.admitted && e.sample.Some?
    ensures Step(n, Service(e)).trace.rows == [RowOfSample(n, e)]
  {
    StepInv(n, Service(e));
    ServiceWithoutCommand(n, e);
    OneRow(RowOfSample(n, e));
  }

  lemma OneRow(s: Sample)
    ensures Run([] + [s]) == [s]
  {
    assert ([] + [s])[..0] == [];
    assert Run([]) == [];
  }

  // ----- writing without a command

  /** An attempt is seen by its time: two attempts are a minute apart. */
  predicate Attempted(r: Rec, n: Rec) {
    n.writeAttempted && (!r.writeAttempted || n.lastWriteAttempt != r.lastWriteAttempt)
  }

  /** What is unsaved is due: while low, a minute after the last attempt; once the charge has ended it, always. */
  predicate CheckpointWanted(t: Status, now: u64) {
    && t.dirty
    && (t.finalized
        || (t.lastLow && (!t.checkpointed || (now - t.lastCheckpointMs) % 0x1_0000_0000_0000_0000 >= 60000)))
  }

  predicate Writes(r: Rec, e: Env)
    requires r.trace.Sized()
  {
    && MayWrite(r, e) && (TakesSample(r, e) || (r.trace.status.finalized && r.trace.status.dirty))
    && CheckpointWanted(Observed(r, e).trace.status, e.now)
  }

  lemma WrittenOnItsOwn(r: Rec, n: Rec, s: Sample, e: Env)
    requires n.trace.Sized() && n.pending == NoCommand && e.admitted && e.sample.Some?
    requires s.flags == e.sample.value.flags && s.voltageMv == e.sample.value.voltageMv
    requires n.writeAttempted == r.writeAttempted && n.lastWriteAttempt == r.lastWriteAttempt
    ensures Written(n, s, e)
      == if MayWrite(r, e) && CheckpointWanted(n.trace.status, e.now) then RunCheckpoint(n, e) else n
  {
  }

  /** Nothing is looked at unless a sample is due or a finished trace is unsaved and may be written. */
  lemma NothingWanted(r: Rec, e: Env)
    requires r.trace.Sized() && r.ready && e.admitted && !r.corrupt && r.pending == NoCommand && e.sample.Some?
    ensures Wanted(r.(clock := e.now), e.now) <==> (
      || TakesSample(r, e)
      || (r.trace.status.finalized && r.trace.status.dirty && CanAttempt(r, e.now)))
  {
  }

  lemma ServiceOnItsOwn(r: Rec, e: Env)
    requires r.trace.Sized() && r.ready && r.pending == NoCommand && !r.corrupt
    ensures ServiceStep(r, e)
      == if !e.admitted then r else if Writes(r, e) then RunCheckpoint(Observed(r, e), e) else Observed(r, e)
  {
    if e.admitted && e.sample.Some? {
      ObservedIs(r, e);
      NothingWanted(r, e);
      WrittenOnItsOwn(r, Observed(r, e), e.sample.value.(monotonicMs := e.now), e);
    }
  }

  lemma OwnAttempt(r: Rec, e: Env)
    requires r.trace.Sized() && r.ready && r.pending == NoCommand && !r.corrupt
    requires r.writeAttempted ==> r.lastWriteAttempt <= e.now
    ensures Writes(r, e) <==> Attempted(r, ServiceStep(r, e))
  {
    ServiceOnItsOwn(r, e);
    if e.admitted { ObservedIs(r, e); }
  }

  lemma CheckpointSaves(o: Rec, e: Env)
    requires o.trace.Sized() && Storable(o.trace) && e.nvs == Nvs(true, true)
    ensures var n := RunCheckpoint(o, e);
      !n.trace.status.dirty && n.stored.Some? && Loaded(n.stored.value.bytes) == Some(Normal(n.trace))
  {
    var t := o.trace.(status := o.trace.status.(checkpointed := true, lastCheckpointMs := e.now));
    SaveThenLoad(t);
    assert SaveClaimed(AfterWrite(o.stored, t, o.hist, e.nvs), t, e.nvs);
    assert Normal(Clean(t)) == Normal(t);
  }

  /**
   Without a command, a call writes exactly if it may, took a sample or has a finished trace unsaved, and what is
   unsaved is due; if the storage works, what it holds afterwards loads as the trace, which is no longer unsaved.
   */
  lemma CheckpointExactly(stored: Option<Stored>, evs: seq<Event>, e: Env)
    requires Reached(stored, evs) && EventOk(After(Booted(stored), evs), Service(e))
    requires var r := After(Booted(stored), evs); r.ready && r.pending == NoCommand && !r.corrupt
    ensures var r := After(Booted(stored), evs); var n := Step(r, Service(e));
      && (Attempted(r, n) <==> Writes(r, e))
      && (!Attempted(r, n) ==> n.stored == r.stored)
      && (Attempted(r, n) && e.nvs == Nvs(true, true) ==>
          !n.trace.status.dirty && n.stored.Some? && Loaded(n.stored.value.bytes) == Some(Normal(n.trace)))
  {
    var r := After(Booted(stored), evs);
    ReachedOk(stored, evs);
    OwnAttempt(r, e);
    ServiceOnItsOwn(r, e);
    if e.admitted {
      ObservedIs(r, e);
      if e.sample.Some? { SampledInv(r.(clock := e.now), e.sample.value.(monotonicMs := e.now), r.clock); }
      if e.nvs == Nvs(true, true) { CheckpointSaves(Observed(r, e), e); }
    }
  }

  /** Requests: what is accepted waits, what is not changes nothing. */
  lemma RequestExactly(r: Rec, c: Command)
    requires r.trace.Sized() && c != NoCommand
    ensures var n, t := Step(r, Request(c)), r.trace;
      && (n == r || n == r.(pending := c))
      && (n.pending == c && r.pending != c <==>
          && r.ready && r.pending == NoCommand
          && (r.corrupt ==> c == Clear || c == Stop)
          && (c == Arm ==> t.rows == []) && (c == Resume || c == Checkpoint ==> t.rows != [])
          && (t.status.armed <==> c == Stop || (c == Clear && t.status.armed))
          && (c == Resume ==> !t.status.finalized))
  {
  }
}
