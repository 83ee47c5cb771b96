/** What every run of the recorder keeps: whatever it holds can be stored and read back unchanged. */
module TraceRuns {
  import opened Bytes
  import opened TraceModel
  import opened TraceBlob
  import opened TracePack
  import opened TraceRetention
  import opened TraceService

  // ----- storing does not disturb what is evicted later

  lemma ShowsNormal(s: Sample, a: Anchor)
    ensures Shows(a, NormalRow(s)) == Shows(a, s)
  {
  }

  lemma SeenNormal(c: seq<Sample>, n: nat, a: Anchor)
    requires n <= |c|
    ensures Seen(NormalRows(c), n, a) == Seen(c, n, a)
  {
    forall j | 0 <= j < n
      ensures Shows(a, NormalRows(c)[j]) == Shows(a, c[j])
    {
      ShowsNormal(c[j], a);
    }
  }

  lemma DepartedNormal(c: seq<Sample>, n: nat)
    requires n <= |c|
    ensures Departed(NormalRows(c), n) == Departed(c, n)
  {
    forall j | 0 <= j < n
      ensures Leaves(NormalRows(c), j) == Leaves(c, j)
    {
      SeenNormal(c, j, Plateau);
    }
  }

  lemma RankNormal(c: seq<Sample>, i: nat)
    requires i < |c|
    ensures Rank(NormalRows(c), i) == Rank(c, i)
  {
    forall a: Anchor
      ensures Fresh(NormalRows(c), i, a) == Fresh(c, i, a)
    {
      SeenNormal(c, i, a);
      ShowsNormal(c[i], a);
    }
    SeenNormal(c, i, Plateau);
    DepartedNormal(c, i);
  }

  lemma PriorityNormal(c: seq<Sample>, i: nat)
    requires i < |c|
    ensures Priority(NormalRows(c), i) == Priority(c, i)
  {
    RankNormal(c, i);
    if i + 1 < |c| { RankNormal(c, i + 1); }
    assert BootBoundary(NormalRows(c), i) == BootBoundary(c, i);
    assert BootBoundary(NormalRows(c), i + 1) == BootBoundary(c, i + 1);
  }

  lemma VictimNormal(c: seq<Sample>)
    requires |c| == CAPACITY
    ensures Victim(NormalRows(c)) == Victim(c)
  {
    var d := NormalRows(c);
    forall i | 0 <= i < |c|
      ensures Priorities(d)[i] == Priorities(c)[i]
    {
      PriorityNormal(c, i);
    }
    assert Priorities(d) == Priorities(c);
    assert Gaps(d) == Gaps(c);
  }

  lemma WithoutNormal(c: seq<Sample>, i: nat)
    requires i < |c|
    ensures Without(NormalRows(c), i) == NormalRows(Without(c, i))
  {
  }

  lemma PushNormal(c: seq<Sample>, s: Sample)
    ensures NormalRows(c) + [NormalRow(s)] == NormalRows(c + [s])
  {
  }

  lemma AppendNormal(c: seq<Sample>, s: Sample)
    requires |c| <= CAPACITY
    ensures AppendRow(NormalRows(c), NormalRow(s)) == NormalRows(AppendRow(c, s))
  {
    if |c| == CAPACITY {
      VictimNormal(c);
      WithoutNormal(c, Victim(c));
      PushNormal(Without(c, Victim(c)), s);
    } else {
      PushNormal(c, s);
    }
  }

  /** Appending normalised rows gives the normalised trace. */
  lemma {:induction false} RunNormal(h: seq<Sample>)
    ensures Run(NormalRows(h)) == NormalRows(Run(h))
  {
    if h == [] {
    } else {
      var n := |h| - 1;
      RunNormal(h[..n]);
      AppendNormal(Run(h[..n]), h[n]);
      assert NormalRows(h)[..n] == NormalRows(h[..n]);
    }
  }

  // ----- order

  lemma {:induction false} OrderedPair(c: seq<Sample>, i: nat, j: nat)
    requires Ordered(c) && i <= j < |c|
    ensures NotBefore(c[i], c[j])
  {
    if i < j {
      OrderedPair(c, i, j - 1);
    }
  }

  predicate RowFits(s: Sample, boot: u32) {
    s.boot != 0 && s.boot <= boot && s.flags < 64
  }

  lemma WithoutStorable(c: seq<Sample>, v: nat, boot: u32)
    requires v < |c| && RowsStorable(c, boot)
    ensures RowsStorable(Without(c, v), boot)
  {
    var d := Without(c, v);
    forall i | 0 < i < |d|
      ensures NotBefore(d[i - 1], d[i])
    {
      OrderedPair(c, if i - 1 < v then i - 1 else i, if i < v then i else i + 1);
    }
  }

  lemma AppendStorable(c: seq<Sample>, s: Sample, boot: u32)
    requires |c| <= CAPACITY && RowsStorable(c, boot) && RowFits(s, boot)
    requires c != [] ==> NotBefore(c[|c| - 1], s)
    ensures RowsStorable(AppendRow(c, s), boot)
  {
    if |c| == CAPACITY {
      WithoutStorable(c, Victim(c), boot);
      assert Victim(c) < |c| - 1;
      var d := Without(c, Victim(c));
      assert d[|d| - 1] == c[|c| - 1];
      SnocStorable(d, s, boot);
    } else {
      SnocStorable(c, s, boot);
    }
  }

  lemma SnocStorable(d: seq<Sample>, s: Sample, boot: u32)
    requires RowsStorable(d, boot) && RowFits(s, boot) && (d != [] ==> NotBefore(d[|d| - 1], s))
    ensures RowsStorable(d + [s], boot)
  {
    var e := d + [s];
    forall i | 0 < i < |e|
      ensures NotBefore(e[i - 1], e[i])
    {
      if i < |d| { assert NotBefore(d[i - 1], d[i]); }
    }
  }

  // ----- the invariant

  predicate TraceOk(t: Trace) {
    Storable(t) && (t.status.finalized ==> t.rows != [])
  }

  /** Time of the last row, if it is of the trace's own boot. */
  function LastMs(t: Trace): nat {
    if t.rows != [] && t.rows[|t.rows| - 1].boot == t.boot then t.rows[|t.rows| - 1].monotonicMs else 0
  }

  /** Rows of the current boot are not from the future. */
  predicate ClockOk(t: Trace, clock: u64) {
    LastMs(t) <= clock
  }

  predicate StoredOk(s: Stored) {
    var l := Loaded(s.bytes);
    l.Some? ==> (l.value.status.finalized ==> l.value.rows != []) && l.value.rows == Run(NormalRows(s.hist))
  }

  predicate PendingOk(r: Rec) {
    && (r.pending == Arm ==> r.trace.rows == [] && !r.trace.status.armed)
    && (r.pending == Resume ==> !r.trace.status.armed && !r.trace.status.finalized)
  }

  /** The last row is past, or recording is stopped and the next write that could resume it comes after that row. */
  predicate Settled(r: Rec) {
    || ClockOk(r.trace, r.clock)
    || (!r.trace.status.armed && r.writeAttempted && LastMs(r.trace) <= r.lastWriteAttempt + WRITE_GAP)
  }

  /** While the record is marked corrupt nothing was sampled and nothing but a command writes. */
  predicate CorruptOk(r: Rec) {
    && !r.trace.status.sampled
    && match r.pending
       case NoCommand => !r.writeAttempted
       case Clear => true
       case Stop => LastMs(r.trace) <= r.clock + WRITE_GAP
       case _ => false
  }

  predicate Inv(r: Rec) {
    && TraceOk(r.trace) && r.trace.rows == Run(r.hist)
    && (if r.corrupt then CorruptOk(r) else Settled(r))
    && (r.writeAttempted ==> r.lastWriteAttempt <= r.clock)
    && (r.stored.Some? ==> StoredOk(r.stored.value))
    && (!r.ready ==> r == Booted(r.stored).(clock := r.clock))
    && PendingOk(r)
  }

  /** What holds of every environment: time does not run backwards, and flags are the six defined ones. */
  predicate Orderly(r: Rec, ev: Event) {
    ev.Service? ==> ev.env.now >= r.clock && (ev.env.sample.Some? ==> ev.env.sample.value.flags < 64)
  }

  /** Stop is accepted although the record is marked corrupt and its last row lies more than a write gap ahead. */
  predicate Fatal(r: Rec, ev: Event) {
    ev == Request(Stop) && r.corrupt && Allowed(r, Stop) && LastMs(r.trace) > r.clock + WRITE_GAP
  }

  predicate EventOk(r: Rec, ev: Event) {
    Orderly(r, ev) && !Fatal(r, ev)
  }

  lemma EmptyOk(boot: u32)
    requires boot != 0
    ensures TraceOk(EmptyTrace(boot)) && EmptyTrace(boot).rows == Run([])
  {
  }

  lemma BootedInv(stored: Option<Stored>)
    requires stored.Some? ==> StoredOk(stored.value)
    ensures Inv(Booted(stored))
  {
    EmptyOk(1);
  }

  lemma NextBootOk(t: Trace)
    requires TraceOk(t)
    ensures TraceOk(NextBoot(t)) && NextBoot(t).rows == t.rows
    ensures t.boot != BOOT_MAX ==> LastMs(NextBoot(t)) == 0
  {
    assert t.rows != [] ==> t.rows[|t.rows| - 1].boot <= t.boot;
  }

  lemma LoadInv(r: Rec, o: LoadOutcome)
    requires Inv(r) && !r.ready
    ensures Inv(LoadStep(r, o)) && LoadStep(r, o).ready
  {
    NextBootOk(r.trace);
    if o == ReadDone && r.stored.Some? {
      var l := Loaded(r.stored.value.bytes);
      if l.Some? {
        DecodedIsNormal(Unpack(r.stored.value.bytes).value, l.value);
        NextBootOk(l.value);
      }
    }
  }

  lemma LoadedBack(t: Trace)
    requires Storable(t)
    ensures Loaded(Pack(Encode(t))) == Some(Normal(t))
  {
    SaveThenLoad(t);
  }

  lemma PackedOk(t: Trace, hist: seq<Sample>)
    requires TraceOk(t) && t.rows == Run(hist)
    ensures StoredOk(Stored(Pack(Encode(t)), hist))
  {
    LoadedBack(t);
    RunNormal(hist);
    assert Normal(t).rows == NormalRows(t.rows);
  }

  /** A written record reads back as the trace it was made from, and remembers its history. */
  lemma WrittenOk(stored: Option<Stored>, t: Trace, hist: seq<Sample>, o: Nvs)
    requires stored.Some? ==> StoredOk(stored.value)
    requires TraceOk(t) && t.rows == Run(hist)
    ensures AfterWrite(stored, t, hist, o).Some? ==> StoredOk(AfterWrite(stored, t, hist, o).value)
  {
    if o.written {
      PackedOk(t, hist);
    }
  }

  lemma AppendOk(t: Trace, s: Sample, clock: u64, now: u64)
    requires TraceOk(t) && ClockOk(t, clock) && clock <= now && s.monotonicMs == now && s.flags < 64
    ensures TraceOk(t.Append(s)) && ClockOk(t.Append(s), now)
  {
    AppendStorable(t.rows, s.(boot := t.boot), t.boot);
  }

  /** Only an armed trace is sampled, and then its rows are past. */
  lemma SampledInv(r: Rec, s: Sample, clock: u64)
    requires Inv(r.(clock := clock)) && r.ready && clock <= r.clock && s.monotonicMs == r.clock && s.flags < 64
    ensures Inv(Sampled(r, s, r.clock))
  {
    if r.trace.status.Due(r.clock) && !r.corrupt {
      AppendOk(r.trace, s, clock, r.clock);
      var h := r.hist + [s.(boot := r.trace.boot)];
      assert h[..|h| - 1] == r.hist;
    }
  }

  lemma CommandedOk(r: Rec)
    requires Inv(r)
    ensures TraceOk(Commanded(r.trace, r.pending))
    ensures Commanded(r.trace, r.pending).rows == Run(if r.pending == Clear then [] else r.hist)
  {
    EmptyOk(r.trace.boot);
  }

  /** Two writes are a gap apart, so a command that arms the trace comes after its last row. */
  lemma CommandSettles(r: Rec)
    requires Inv(r) && r.pending != NoCommand && CanAttempt(r, r.clock)
    ensures var n := r.(trace := Commanded(r.trace, r.pending), writeAttempted := true, lastWriteAttempt := r.clock);
      Settled(n)
  {
  }

  lemma TriedInv(r: Rec, t: Trace, hist: seq<Sample>, e: Env)
    requires Inv(r) && r.ready && TraceOk(t) && t.rows == Run(hist) && e.now == r.clock
    requires r.corrupt ==> r.pending != NoCommand
    ensures Inv(r.(stored := AfterWrite(r.stored, t, hist, e.nvs), writeAttempted := true, lastWriteAttempt := e.now))
  {
    WrittenOk(r.stored, t, hist, e.nvs);
  }

  lemma AdoptInv(r: Rec, t: Trace, hist: seq<Sample>)
    requires Inv(r) && r.ready && TraceOk(t) && t.rows == Run(hist) && Settled(r.(trace := t))
    ensures Inv(r.(trace := Clean(t), hist := hist, pending := NoCommand, corrupt := false))
  {
  }

  lemma RunCommandInv(r: Rec, e: Env)
    requires Inv(r) && r.ready && r.pending != NoCommand && CanAttempt(r, e.now) && e.now == r.clock
    ensures Inv(RunCommand(r, e))
  {
    var next, hist := Commanded(r.trace, r.pending), if r.pending == Clear then [] else r.hist;
    CommandedOk(r);
    CommandSettles(r);
    TriedInv(r, next, hist, e);
    var after := AfterWrite(r.stored, next, hist, e.nvs);
    AdoptInv(r.(stored := after, writeAttempted := true, lastWriteAttempt := e.now), next, hist);
  }

  lemma RunCheckpointInv(r: Rec, e: Env)
    requires Inv(r) && r.ready && !r.corrupt && e.now == r.clock
    ensures Inv(RunCheckpoint(r, e))
  {
    var t := r.trace.(status := r.trace.status.(checkpointed := true, lastCheckpointMs := e.now));
    TriedInv(r, t, r.hist, e);
    var after := AfterWrite(r.stored, t, r.hist, e.nvs);
    CheckpointedInv(r.(stored := after, writeAttempted := true, lastWriteAttempt := e.now), e.now);
  }

  lemma CheckpointedInv(r: Rec, now: u64)
    requires Inv(r) && r.ready && !r.corrupt
    ensures var t := r.trace.(status := r.trace.status.(checkpointed := true, lastCheckpointMs := now));
      Inv(r.(trace := t)) && Inv(r.(trace := Clean(t)))
  {
  }

  lemma ActInv(r: Rec, s: Sample, e: Env, clock: u64)
    requires Inv(r.(clock := clock)) && r.ready && clock <= r.clock == e.now == s.monotonicMs && s.flags < 64
    requires r.corrupt ==> r.pending != NoCommand
    ensures Inv(Act(r, s, e))
  {
    SampledInv(r, s, clock);
    WriteInv(Sampled(r, s, e.now), s, e);
  }

  /** The at most one write of a service call. */
  lemma WriteInv(n: Rec, s: Sample, e: Env)
    requires Inv(n) && n.ready && e.now == n.clock && (n.corrupt ==> n.pending != NoCommand)
    ensures Inv(Written(n, s, e))
  {
    if n.pending != NoCommand {
      if CanAttempt(n, e.now) { RunCommandInv(n, e); }
    } else {
      RunCheckpointInv(n, e);
    }
  }

  lemma TickInv(r: Rec, now: u64)
    requires Inv(r) && r.ready && r.clock <= now
    ensures Inv(r.(clock := now))
  {
  }

  /** The first admitted call loads, and may go on to act at once. */
  lemma FirstServiceInv(r: Rec, e: Env)
    requires Inv(r) && EventOk(r, Service(e)) && e.admitted && !r.ready
    ensures Inv(ServiceStep(r, e))
  {
    var l := LoadStep(r, e.load).(clock := e.now);
    assert l == LoadStep(r.(clock := e.now), e.load);
    LoadInv(r.(clock := e.now), e.load);
    if e.sample.Some? && (l.corrupt ==> l.pending != NoCommand) {
      ActInv(l, e.sample.value.(monotonicMs := e.now), e, e.now);
    }
  }

  lemma LaterServiceInv(r: Rec, e: Env)
    requires Inv(r) && EventOk(r, Service(e)) && e.admitted && r.ready
    ensures Inv(ServiceStep(r, e))
  {
    var l := r.(clock := e.now);
    TickInv(r, e.now);
    if e.sample.Some? && (l.corrupt ==> l.pending != NoCommand) {
      assert l.(clock := r.clock) == r;
      ActInv(l, e.sample.value.(monotonicMs := e.now), e, r.clock);
    }
  }

  lemma ServiceInv(r: Rec, e: Env)
    requires Inv(r) && EventOk(r, Service(e))
    ensures Inv(ServiceStep(r, e))
  {
    if e.admitted {
      if r.ready { LaterServiceInv(r, e); } else { FirstServiceInv(r, e); }
    }
  }

  lemma StepInv(r: Rec, ev: Event)
    requires Inv(r) && EventOk(r, ev)
    ensures Inv(Step(r, ev))
  {
    match ev
    case Request(c) =>
    case Service(e) => ServiceInv(r, e);
    case Reboot => BootedInv(r.stored);
  }

  // ----- whole runs

  function After(r: Rec, evs: seq<Event>): (n: Rec)
    requires r.trace.Sized()
    ensures n.trace.Sized()
    decreases |evs|
  {
    if evs == [] then r else After(Step(r, evs[0]), evs[1..])
  }

  predicate Permitted(r: Rec, evs: seq<Event>)
    requires r.trace.Sized()
    decreases |evs|
  {
    evs == [] || (EventOk(r, evs[0]) && Permitted(Step(r, evs[0]), evs[1..]))
  }

  lemma {:induction false} RunInv(r: Rec, evs: seq<Event>)
    requires Inv(r) && Permitted(r, evs)
    ensures Inv(After(r, evs))
    decreases |evs|
  {
    if evs != [] {
      StepInv(r, evs[0]);
      RunInv(Step(r, evs[0]), evs[1..]);
    }
  }

  /**
   From any stored record that reads back sensibly, through any run: what the recorder holds encodes to a blob
   that decodes to the same rows, flags and boot, also after packing; and the rows are what appending the whole
   surviving history to an empty trace leaves.
   */
  lemma EveryRunStorable(stored: Option<Stored>, evs: seq<Event>)
    requires stored.Some? ==> StoredOk(stored.value)
    requires Permitted(Booted(stored), evs)
    ensures var r := After(Booted(stored), evs);
      && r.trace.Sized()
      && Decode(Encode(r.trace)) == Some(Normal(r.trace))
      && Unpack(Pack(Encode(r.trace))) == Ok(Encode(r.trace))
      && r.trace.rows == Run(r.hist)
  {
    BootedInv(stored);
    RunInv(Booted(stored), evs);
    SaveThenLoad(After(Booted(stored), evs).trace);
  }

  /** A save is reported as done only if what is now stored loads as the saved trace. */
  lemma ClaimMeansStored(stored: Option<Stored>, t: Trace, hist: seq<Sample>, o: Nvs)
    requires TraceOk(t) && SaveClaimed(AfterWrite(stored, t, hist, o), t, o)
    ensures Loaded(AfterWrite(stored, t, hist, o).value.bytes) == Some(Normal(t))
  {
    EncodeThenDecode(t);
  }
}
