/**
 The recorder around the trace: commands, sampling, checkpoints and reloads as steps over the trace in
 memory and the one stored record. Every step function is total; what the environment decides (clock,
 sample, interlocks, storage outcome) is part of the event.
 */
module TraceService {
  import opened Bytes
  import opened TraceModel
  import opened TraceBlob
  import opened TracePack

  const BOOT_MAX: u32 := 0xffff_ffff
  const WRITE_GAP: u64 := 60000

  datatype Command = NoCommand | Arm | Stop | Clear | Checkpoint | Resume

  /** A stored record, and the rows appended since the last clear that led to it. */
  datatype Stored = Stored(bytes: seq<byte>, hist: seq<Sample>)

  /** Whether the record was replaced, and whether every storage call reported success. */
  datatype Nvs = Nvs(written: bool, reported: bool)

  datatype LoadOutcome = ReadFailed | ReadDone

  datatype Env = Env(
    now: u64, admitted: bool, load: LoadOutcome, sample: Option<Sample>, writesBlocked: bool, nvs: Nvs)

  datatype Event = Request(command: Command) | Service(env: Env) | Reboot

  /** clock is the time of the last service call of this boot; hist the rows appended since the last clear. */
  datatype Rec = Rec(
    ready: bool, corrupt: bool, trace: Trace, pending: Command, writeAttempted: bool, lastWriteAttempt: u64,
    stored: Option<Stored>, hist: seq<Sample>, clock: u64)

  function Booted(stored: Option<Stored>): Rec {
    Rec(false, false, EmptyTrace(1), NoCommand, false, 0, stored, [], 0)
  }

  // ----- reading the record back

  function Loaded(bytes: seq<byte>): (r: Option<Trace>)
    ensures r.Some? ==> r.value.Sized()
  {
    var u := Unpack(bytes);
    if u.Ok? then Decode(u.value) else None
  }

  function NormalRows(h: seq<Sample>): (r: seq<Sample>)
    ensures |r| == |h| && forall i :: 0 <= i < |r| ==> r[i] == NormalRow(h[i])
  {
    seq(|h|, i requires 0 <= i < |h| => NormalRow(h[i]))
  }

  /** A boot number is used again only when nothing of that boot was stored; the last one is never passed. */
  function NextBoot(t: Trace): Trace {
    if t.boot == BOOT_MAX then t else t.(boot := t.boot + 1)
  }

  function LoadStep(r: Rec, o: LoadOutcome): (n: Rec)
    ensures r.trace.Sized() ==> n.trace.Sized()
  {
    (if o == ReadFailed then r.(corrupt := true) else FromRecord(r)).(ready := true)
  }

  /** Without a record only the boot number is taken; a record replaces the trace if it is accepted. */
  function FromRecord(r: Rec): (n: Rec)
    ensures r.trace.Sized() ==> n.trace.Sized()
  {
    if r.stored == None then r.(trace := NextBoot(r.trace))
    else match Loaded(r.stored.value.bytes)
      case None => r.(corrupt := true)
      case Some(t) =>
        r.(trace := NextBoot(t), hist := NormalRows(r.stored.value.hist), corrupt := t.boot == BOOT_MAX)
  }

  // ----- commands

  predicate Allowed(r: Rec, c: Command) {
    && r.ready && r.pending == NoCommand
    && match c
       case Arm => !r.corrupt && r.trace.rows == [] && !r.trace.status.armed
       case Stop => r.trace.status.armed
       case Resume => !r.corrupt && !r.trace.status.armed && r.trace.rows != [] && !r.trace.status.finalized
       case Checkpoint => !r.corrupt && !r.trace.status.armed && r.trace.rows != []
       case Clear => true
       case NoCommand => true
  }

  function RequestStep(r: Rec, c: Command): Rec {
    if Allowed(r, c) then r.(pending := c) else r
  }

  function Commanded(t: Trace, c: Command): (n: Trace)
    requires t.Sized()
    ensures n.Sized()
  {
    match c
    case Arm => t.(status := t.status.(armed := true))
    case Resume => t.(status := t.status.(armed := true))
    case Stop => t.(status := t.status.(armed := false))
    case Clear => EmptyTrace(t.boot)
    case _ => t
  }

  // ----- saving

  function AfterWrite(stored: Option<Stored>, t: Trace, hist: seq<Sample>, o: Nvs): Option<Stored>
    requires t.Sized()
  {
    if o.written then Some(Stored(Pack(Encode(t)), hist)) else stored
  }

  /** Success is claimed only after the record, read back and unpacked, equals the encoding byte for byte. */
  predicate SaveClaimed(after: Option<Stored>, t: Trace, o: Nvs)
    requires t.Sized()
  {
    o.reported && after.Some? && Unpack(after.value.bytes) == Ok(Encode(t))
  }

  // ----- the service call

  predicate CanAttempt(r: Rec, now: u64) {
    !r.writeAttempted || Elapsed(now, r.lastWriteAttempt) >= WRITE_GAP
  }

  predicate Wanted(r: Rec, now: u64) {
    || r.trace.status.Due(now)
    || ((r.pending != NoCommand || (r.trace.status.finalized && r.trace.status.dirty)) && CanAttempt(r, now))
  }

  function Clean(t: Trace): (n: Trace)
    ensures t.Sized() ==> n.Sized()
  {
    t.(status := t.status.(dirty := false))
  }

  function RunCommand(r: Rec, e: Env): (n: Rec)
    requires r.trace.Sized()
    ensures n.trace.Sized()
  {
    var next := Commanded(r.trace, r.pending);
    var hist := if r.pending == Clear then [] else r.hist;
    var after := AfterWrite(r.stored, next, hist, e.nvs);
    var tried := r.(stored := after, writeAttempted := true, lastWriteAttempt := e.now);
    if SaveClaimed(after, next, e.nvs)
    then tried.(trace := Clean(next), hist := hist, pending := NoCommand, corrupt := false)
    else tried
  }

  function RunCheckpoint(r: Rec, e: Env): (n: Rec)
    requires r.trace.Sized()
    ensures n.trace.Sized()
  {
    var t := r.trace.(status := r.trace.status.(checkpointed := true, lastCheckpointMs := e.now));
    var after := AfterWrite(r.stored, t, r.hist, e.nvs);
    var tried := r.(stored := after, writeAttempted := true, lastWriteAttempt := e.now, trace := t);
    if SaveClaimed(after, t, e.nvs) then tried.(trace := Clean(t)) else tried
  }

  function Sampled(r: Rec, s: Sample, now: u64): (n: Rec)
    requires r.trace.Sized()
    ensures n.trace.Sized()
  {
    if r.trace.status.Due(now) && !r.corrupt
    then r.(trace := r.trace.Append(s), hist := r.hist + [s.(boot := r.trace.boot)])
    else r
  }

  /** At most one write: a pending command before a checkpoint. */
  function Written(n: Rec, s: Sample, e: Env): (m: Rec)
    requires n.trace.Sized()
    ensures m.trace.Sized()
  {
    if !s.Writable() || e.writesBlocked || !CanAttempt(n, e.now) then n
    else if n.pending != NoCommand then RunCommand(n, e)
    else if n.trace.status.CheckpointDue(e.now) || (n.trace.status.finalized && n.trace.status.dirty)
    then RunCheckpoint(n, e)
    else n
  }

  /** What follows once a sample is in hand: record it, then write. */
  function Act(r: Rec, s: Sample, e: Env): (n: Rec)
    requires r.trace.Sized()
    ensures n.trace.Sized()
  {
    Written(Sampled(r, s, e.now), s, e)
  }

  function ServiceStep(r: Rec, e: Env): (n: Rec)
    requires r.trace.Sized()
    ensures n.trace.Sized()
  {
    if !e.admitted then r else
      var l := (if r.ready then r else LoadStep(r, e.load)).(clock := e.now);
      if l.corrupt && l.pending == NoCommand then l
      else if !Wanted(l, e.now) || e.sample == None then l
      else Act(l, e.sample.value.(monotonicMs := e.now), e)
  }

  function Step(r: Rec, ev: Event): (n: Rec)
    requires r.trace.Sized()
    ensures n.trace.Sized()
  {
    match ev
    case Request(c) => RequestStep(r, c)
    case Service(e) => ServiceStep(r, e)
    case Reboot => Booted(r.stored)
  }
}
