/** The recorder as it runs: fields changed in place by requests and service calls, proved against TraceService. */
module TraceRecorder {
  import opened Bytes
  import opened TraceModel
  import opened TraceBlob
  import opened TraceBlobCode
  import opened TracePack
  import opened TracePackCode
  import opened TraceService

  class Recorder {
    var ring: Ring
    var ready: bool
    var corrupt: bool
    var pending: Command
    var writeAttempted: bool
    var lastWriteAttempt: u64
    var stored: Option<seq<byte>>
    const ioBlob: array<byte>
    const packedIo: array<byte>
    const packedVerify: array<byte>
    const verifyBlob: array<byte>
    ghost var storedHist: seq<Sample>
    ghost var hist: seq<Sample>
    ghost var clock: u64

    ghost predicate Buffers()
      reads this
    {
      && ioBlob.Length == packedIo.Length == packedVerify.Length == verifyBlob.Length == BLOB
      && ioBlob != packedIo && ioBlob != packedVerify && ioBlob != verifyBlob
      && packedIo != packedVerify && packedIo != verifyBlob && packedVerify != verifyBlob
    }

    ghost predicate Valid()
      reads this, ring
    {
      Buffers() && ring.Valid()
    }

    ghost function Record(): Option<Stored>
      reads this
    {
      if stored.Some? then Some(Stored(stored.value, storedHist)) else None
    }

    ghost function View(): (r: Rec)
      requires Valid()
      reads this, ring, ring.rows
      ensures r.trace.Sized()
    {
      Rec(ready, corrupt, ring.View(), pending, writeAttempted, lastWriteAttempt, Record(), hist, clock)
    }

    constructor (stored: Option<seq<byte>>, ghost storedHist: seq<Sample>)
      ensures Valid() && fresh(ring) && fresh(ring.rows)
      ensures View() == Booted(if stored.Some? then Some(Stored(stored.value, storedHist)) else None)
    {
      ring := new Ring(1);
      ready, corrupt, pending, writeAttempted, lastWriteAttempt := false, false, NoCommand, false, 0;
      this.stored, this.storedHist := stored, storedHist;
      hist, clock := [], 0;
      ioBlob := new byte[BLOB](_ => 0);
      packedIo := new byte[BLOB](_ => 0);
      packedVerify := new byte[BLOB](_ => 0);
      verifyBlob := new byte[BLOB](_ => 0);
    }

    method Request(c: Command) returns (ok: bool)
      requires Valid()
      modifies this`pending
      ensures Valid() && ok == Allowed(old(View()), c) && View() == RequestStep(old(View()), c)
    {
      if !ready || pending != NoCommand { return false; }
      if c == Arm && (corrupt || ring.count != 0 || ring.armed) { return false; }
      if c == Stop && !ring.armed { return false; }
      if c == Resume && (corrupt || ring.armed || ring.count == 0 || ring.finalized) { return false; }
      if c == Checkpoint && (corrupt || ring.armed || ring.count == 0) { return false; }
      pending := c;
      return true;
    }

    /** Reads the record into a buffer and unpacks it; a record that does not fit is refused for its length. */
    method ReadBack(into: array<byte>) returns (r: Outcome)
      requires Buffers() && stored.Some? && (into == ioBlob || into == verifyBlob)
      modifies packedVerify, into
      ensures match Unpack(stored.value)
        case Ok(v) => r == Done && into[..] == v
        case Err(e) => r == Failed(e)
    {
      var size := |stored.value|;
      if size > BLOB { return Failed(Length); }
      for i := 0 to size
        invariant packedVerify[..i] == stored.value[..i]
      {
        packedVerify[i] := stored.value[i];
      }
      assert stored.value[..size] == stored.value;
      r := UnpackInto(packedVerify, size, into);
    }

    /** Encodes and packs next, replaces the record if the storage does so, then reads it back and compares. */
    method Save(next: Ring, o: Nvs, ghost h: seq<Sample>) returns (ok: bool)
      requires Buffers() && next.Valid()
      modifies ioBlob, packedIo, packedVerify, verifyBlob, this`stored, this`storedHist
      ensures Buffers() && Record() == AfterWrite(old(Record()), next.View(), h, o)
      ensures ok == SaveClaimed(Record(), next.View(), o)
    {
      Write(next, o, h);
      if !o.reported || stored.None? { return false; }
      ok := ReadsBackAs(Encode(next.View()));
    }

    method Write(next: Ring, o: Nvs, ghost h: seq<Sample>)
      requires Buffers() && next.Valid()
      modifies ioBlob, packedIo, this`stored, this`storedHist
      ensures Buffers() && Record() == AfterWrite(old(Record()), next.View(), h, o)
      ensures ioBlob[..] == Encode(next.View())
    {
      EncodeInto(next, ioBlob);
      var size := PackInto(ioBlob, packedIo);
      if o.written {
        stored := Some(packedIo[..size]);
        storedHist := h;
      }
    }

    /** Unpacks the record into the second buffer and compares it with the first. */
    method ReadsBackAs(ghost image: seq<byte>) returns (ok: bool)
      requires Buffers() && stored.Some? && ioBlob[..] == image
      modifies packedVerify, verifyBlob
      ensures ok == (Unpack(stored.value) == Ok(image))
    {
      var back := ReadBack(verifyBlob);
      if back != Done { return false; }
      ok := SameBytes(ioBlob, verifyBlob);
    }

    method NextBootNumber()
      requires Valid()
      modifies ring`boot
      ensures Valid() && View() == old(View()).(trace := NextBoot(old(View()).trace))
    {
      if ring.boot != BOOT_MAX { ring.NewBoot(ring.boot + 1); }
    }

    /** The trace in the record, or null if it does not unpack or is not accepted. */
    method ReadTrace() returns (m: Ring?)
      requires Buffers() && stored.Some?
      modifies packedVerify, ioBlob
      ensures m == null <==> Loaded(stored.value) == None
      ensures m != null ==> fresh(m) && fresh(m.rows) && m.Valid() && Some(m.View()) == Loaded(stored.value)
    {
      var back := ReadBack(ioBlob);
      if back != Done { return null; }
      m := DecodeBlob(ioBlob);
    }

    method Adopt(next: Ring, ghost h: seq<Sample>, command: Command, bad: bool)
      requires Valid() && next.Valid()
      modifies this`ring, this`hist, this`pending, this`corrupt
      ensures Valid() && ring == next
      ensures View() == old(View()).(trace := next.View(), hist := h, pending := command, corrupt := bad)
    {
      ring, hist, pending, corrupt := next, h, command, bad;
    }

    method Load(o: LoadOutcome)
      requires Valid() && !ready && !corrupt
      modifies this`ring, this`ready, this`corrupt, this`hist, this`pending, ring`boot, ioBlob, packedVerify
      ensures Valid() && View() == LoadStep(old(View()), o)
      ensures ring == old(ring) || (fresh(ring) && fresh(ring.rows))
    {
      if o == ReadFailed {
        corrupt := true;
      } else {
        LoadStored();
      }
      ready := true;
    }

    method LoadStored()
      requires Valid() && !ready && !corrupt
      modifies this`ring, this`corrupt, this`hist, this`pending, ring`boot, ioBlob, packedVerify
      ensures Valid() && View() == FromRecord(old(View()))
      ensures ring == old(ring) || (fresh(ring) && fresh(ring.rows))
    {
      if stored.None? { NextBootNumber(); } else { LoadRecord(); }
    }

    method LoadRecord()
      requires Valid() && stored.Some? && !corrupt
      modifies this`ring, this`corrupt, this`hist, this`pending, ring`boot, ioBlob, packedVerify
      ensures Valid() && View() == (match Loaded(old(stored).value)
        case None => old(View()).(corrupt := true)
        case Some(t) =>
          old(View()).(trace := NextBoot(t), hist := NormalRows(old(storedHist)), corrupt := t.boot == BOOT_MAX))
      ensures ring == old(ring) || (fresh(ring) && fresh(ring.rows))
    {
      var m := ReadTrace();
      if m == null {
        corrupt := true;
      } else {
        Adopt(m, NormalRows(storedHist), pending, m.boot == BOOT_MAX);
        NextBootNumber();
      }
    }

    /** The staged copy a command would leave. */
    method Stage() returns (next: Ring)
      requires Valid()
      ensures fresh(next) && fresh(next.rows) && next.Valid() && next.View() == Commanded(ring.View(), pending)
    {
      if pending == Clear {
        next := new Ring(ring.boot);
      } else {
        next := new Ring.Copied(ring);
        if pending == Arm || pending == Resume { next.SetArmed(true); }
        if pending == Stop { next.SetArmed(false); }
      }
    }

    method Tried(now: u64)
      requires Valid()
      modifies this`lastWriteAttempt, this`writeAttempted
      ensures Valid() && View() == old(View()).(writeAttempted := true, lastWriteAttempt := now)
    {
      lastWriteAttempt, writeAttempted := now, true;
    }

    /** One write attempt: the record may be replaced, the trace in memory is not touched. */
    method Attempt(next: Ring, e: Env, ghost h: seq<Sample>) returns (saved: bool)
      requires Valid() && next.Valid()
      modifies this`lastWriteAttempt, this`writeAttempted, this`stored, this`storedHist
      modifies ioBlob, packedIo, packedVerify, verifyBlob
      ensures Valid() && next.Valid() && next.View() == old(next.View())
      ensures View() == old(View()).(writeAttempted := true, lastWriteAttempt := e.now,
                                     stored := AfterWrite(old(Record()), next.View(), h, e.nvs))
      ensures saved == SaveClaimed(Record(), next.View(), e.nvs)
    {
      Tried(e.now);
      saved := Save(next, e.nvs, h);
    }

    method Commit(next: Ring, ghost h: seq<Sample>)
      requires Valid() && next.Valid() && next != ring
      modifies this`ring, this`hist, this`pending, this`corrupt, next`dirty
      ensures Valid() && ring == next
      ensures View()
        == old(View()).(trace := Clean(old(next.View())), hist := h, pending := NoCommand, corrupt := false)
    {
      next.MarkWritten();
      Adopt(next, h, NoCommand, false);
    }

    method RunPending(e: Env)
      requires Valid() && pending != NoCommand
      modifies this, ioBlob, packedIo, packedVerify, verifyBlob
      ensures Valid() && View() == RunCommand(old(View()), e)
      ensures ring == old(ring) || (fresh(ring) && fresh(ring.rows))
    {
      ghost var r := View();
      var next := Stage();
      ghost var t, h := Commanded(r.trace, r.pending), if r.pending == Clear then [] else r.hist;
      assert View() == r && next.View() == t;
      var saved := Attempt(next, e, h);
      ghost var tried := View();
      assert tried
        == r.(writeAttempted := true, lastWriteAttempt := e.now, stored := AfterWrite(r.stored, t, h, e.nvs));
      if saved { Commit(next, h); }
    }

    method WriteCheckpoint(e: Env)
      requires Valid()
      modifies this, ring`checkpointed, ring`lastCheckpointMs, ring`dirty, ioBlob, packedIo, packedVerify, verifyBlob
      ensures Valid() && View() == RunCheckpoint(old(View()), e)
      ensures ring == old(ring)
    {
      ring.Attempted(e.now);
      var saved := Attempt(ring, e, hist);
      if saved { ring.MarkWritten(); }
    }

    method TakeSample(s: Sample, now: u64)
      requires Valid()
      modifies this`hist, ring, ring.rows
      ensures Valid() && View() == Sampled(old(View()), s, now)
    {
      var due := ring.Due(now);
      if due && !corrupt {
        hist := hist + [s.(boot := ring.boot)];
        ring.Append(s);
      }
    }

    method Continue(s: Sample, e: Env)
      requires Valid()
      modifies this, ring, ring.rows, ioBlob, packedIo, packedVerify, verifyBlob
      ensures Valid() && View() == Act(old(View()), s, e)
      ensures ring == old(ring) || (fresh(ring) && fresh(ring.rows))
    {
      var canAttempt := !writeAttempted || Elapsed(e.now, lastWriteAttempt) >= WRITE_GAP;
      TakeSample(s, e.now);
      if !s.Writable() || e.writesBlocked { return; }
      if pending != NoCommand && canAttempt {
        RunPending(e);
        return;
      }
      var due := ring.State().CheckpointDue(e.now);
      if (due || (ring.finalized && ring.dirty)) && canAttempt {
        WriteCheckpoint(e);
      }
    }

    method IsWanted(now: u64) returns (wanted: bool)
      requires Valid()
      ensures wanted == Wanted(View(), now)
    {
      var due := ring.Due(now);
      var canAttempt := !writeAttempted || Elapsed(now, lastWriteAttempt) >= WRITE_GAP;
      wanted := due || ((pending != NoCommand || (ring.finalized && ring.dirty)) && canAttempt);
    }

    method Prepare(e: Env)
      requires Valid() && (!ready ==> !corrupt)
      modifies this`ring, this`ready, this`corrupt, this`hist, this`pending, this`clock, ring`boot, ioBlob, packedVerify
      ensures Valid() && View() == (if old(ready) then old(View()) else LoadStep(old(View()), e.load)).(clock := e.now)
      ensures ring == old(ring) || (fresh(ring) && fresh(ring.rows))
    {
      if !ready { Load(e.load); }
      clock := e.now;
    }

    method Service(e: Env)
      requires Valid() && (!ready ==> !corrupt)
      modifies this, ring, ring.rows, ioBlob, packedIo, packedVerify, verifyBlob
      ensures Valid() && View() == ServiceStep(old(View()), e)
      ensures ring == old(ring) || (fresh(ring) && fresh(ring.rows))
    {
      if !e.admitted { return; }
      Prepare(e);
      if corrupt && pending == NoCommand { return; }
      var wanted := IsWanted(e.now);
      if !wanted || e.sample.None? { return; }
      Continue(e.sample.value.(monotonicMs := e.now), e);
    }
  }

  method SameBytes(a: array<byte>, b: array<byte>) returns (same: bool)
    requires a.Length == b.Length
    ensures same == (a[..] == b[..])
  {
    for i := 0 to a.Length
      invariant a[..i] == b[..i]
    {
      if a[i] != b[i] {
        assert a[..][i] != b[..][i];
        return false;
      }
    }
    assert a[..] == a[..a.Length] && b[..] == b[..b.Length];
    return true;
  }
}
