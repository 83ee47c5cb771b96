/** When a task starts writing the settings, what it writes, and what comes of a write that nothing disturbs. */
module DisplayWrites {
  import opened Bytes
  import opened DisplaySettings
  import opened DisplayService

  predicate IsWriting(s: State, task: nat) {
    At(s, task).Writing?
  }

  /** An edit that waits, that no write was started for, and that is at least a second old. */
  predicate EditIsDue(t: Settings, now: int) {
    t.pending && t.attemptedRevision != t.revision && now >= t.requestedAt + 1_000_000
  }

  /** Exactly what a capture starts: the base configuration with its revision, or nothing. */
  lemma CaptureExactly(s: State, task: nat, now: nat, blocked: bool)
    requires Enabled(s, Capture(task, now, blocked))
    ensures var t := Next(s, Capture(task, now, blocked));
      && At(t, task) == (if !blocked && s.loaded && EditIsDue(s.settings, now)
                         then Writing(s.settings.config, s.settings.revision) else Outside)
      && (!IsWriting(t, task) ==> t.holder == None && t.settings == s.settings)
      && t.settings.config == s.settings.config && t.settings.pending == s.settings.pending
      && t.flash == s.flash
  {
  }

  lemma WritingStarts(s: State, a: Step, task: nat)
    requires Enabled(s, a) && !IsWriting(s, task) && IsWriting(Next(s, a), task)
    ensures a.Capture? && a.task == task && !a.blocked && s.loaded && EditIsDue(s.settings, a.now)
  {
  }

  /** In every run a task starts writing only at its own capture, past the gates, with an edit that is due. */
  lemma WritesOnlyPastGates(flash: Flash, run: seq<Step>, a: Step, task: nat)
    requires Play(Booted(flash, false), run + [a]).Some?
    ensures Play(Booted(flash, false), run).Some?
    ensures var s, t := Play(Booted(flash, false), run).value, Play(Booted(flash, false), run + [a]).value;
      !IsWriting(s, task) && IsWriting(t, task) ==>
        a.Capture? && a.task == task && !a.blocked && s.loaded && EditIsDue(s.settings, a.now)
  {
    assert (run + [a])[..|run|] == run;
    var s := Play(Booted(flash, false), run).value;
    if !IsWriting(s, task) && IsWriting(Next(s, a), task) { WritingStarts(s, a, task); }
  }

  /** Flash changes only by a write in hand: at the write itself, or when power fails in it. */
  lemma FlashOnlyByWrites(s: State, a: Step)
    requires LockOk(s) && Enabled(s, a) && Next(s, a).flash != s.flash
    ensures s.holder.Some? && IsWriting(s, s.holder.value)
    ensures (a == Reboot(true)) || (a.Write? && a.task == s.holder.value && a.lands)
    ensures Next(s, a).flash == Landed(s.flash, At(s, s.holder.value).config)
  {
    if a.Write? { HolderWrites(s, a.task); } else if !a.Reboot? { FlashStays(s, a); }
  }

  /** The owner gets in if nobody is inside; a task that is not the owner never does. */
  lemma EnterExactly(s: State, task: nat, now: nat, unsafe: bool)
    requires Enabled(s, Enter(task, now, unsafe))
    ensures At(Next(s, Enter(task, now, unsafe)), task) == Entered <==> s.holder == None && s.ownerTask == Some(task)
  {
  }

  // ----- a write that nothing disturbs

  lemma {:induction false} ContinueInv(s: State, run: seq<Step>)
    requires LockOk(s) && Inv(s) && Play(s, run).Some?
    ensures LockOk(Play(s, run).value) && Inv(Play(s, run).value)
    decreases |run|
  {
    if run != [] {
      ContinueInv(s, run[..|run| - 1]);
      StepInv(Play(s, run[..|run| - 1]).value, run[|run| - 1]);
    }
  }

  /** A step that neither ends the write in hand nor the power. */
  predicate Elsewhere(a: Step, task: nat) {
    !a.Reboot? && !(a.Write? && a.task == task) && !(a.Complete? && a.task == task)
  }

  lemma PcStays(s: State, a: Step, task: nat)
    requires LockOk(s) && Enabled(s, a) && Elsewhere(a, task) && (At(s, task).Writing? || At(s, task).Wrote?)
    ensures At(Next(s, a), task) == At(s, task) && Next(s, a).flash == s.flash
  {
    if !a.Write? { FlashStays(s, a); }
  }

  lemma {:induction false} PcKept(s: State, run: seq<Step>, task: nat)
    requires LockOk(s) && Inv(s) && Play(s, run).Some? && forall a :: a in run ==> Elsewhere(a, task)
    requires At(s, task).Writing? || At(s, task).Wrote?
    ensures At(Play(s, run).value, task) == At(s, task) && Play(s, run).value.flash == s.flash
    decreases |run|
  {
    if run != [] {
      var front, last := run[..|run| - 1], run[|run| - 1];
      assert last in run && forall a :: a in front ==> a in run;
      PcKept(s, front, task);
      ContinueInv(s, front);
      PcStays(Play(s, front).value, last, task);
    }
  }

  lemma CompletesClean(s: State, task: nat)
    requires LockOk(s) && Inv(s) && !s.wrapped && Enabled(s, Complete(task)) && At(s, task).failure == 0
    requires s.settings.revision == At(s, task).revision
    ensures var t := Next(s, Complete(task));
      && !t.settings.pending && t.settings.error == 0 && t.settings.savedRevision == t.settings.revision
      && t.settings.config == At(s, task).config && Readable(t.flash) == Some(t.settings.config)
  {
    assert At(s, task) != Outside && s.holder == Some(task);
    EncodeThenDecode(At(s, task).config);
  }

  /**
   A due edit that the owner captures past the gates: whatever the other tasks do meanwhile, if the write lands and
   reports no failure and no later edit came by then, completing it leaves clean settings with that edit in flash.
   */
  lemma EditIsStored(flash: Flash, run: seq<Step>, task: nat, now: nat, more: seq<Step>, rest: seq<Step>)
    requires Play(Booted(flash, false), run).Some?
    requires var s := Play(Booted(flash, false), run).value;
      Enabled(s, Capture(task, now, false)) && s.loaded && EditIsDue(s.settings, now)
    requires forall a :: a in more || a in rest ==> Elsewhere(a, task)
    requires var s := Play(Booted(flash, false), run).value; Play(Next(s, Capture(task, now, false)), more).Some?
    ensures var s := Play(Booted(flash, false), run).value;
      var m := Play(Next(s, Capture(task, now, false)), more).value;
      && Enabled(m, Write(task, 0, true))
      && var t := Play(Next(m, Write(task, 0, true)), rest);
        t.Some? && !t.value.wrapped && t.value.settings.revision == s.settings.revision ==>
          && Enabled(t.value, Complete(task))
          && var u := Next(t.value, Complete(task));
            && !u.settings.pending && u.settings.error == 0 && u.settings.savedRevision == u.settings.revision
            && u.settings.config == s.settings.config && Readable(u.flash) == Some(s.settings.config)
  {
    var s := Play(Booted(flash, false), run).value;
    var w := Next(s, Capture(task, now, false));
    RunInv(flash, run);
    StepInv(s, Capture(task, now, false));
    CaptureExactly(s, task, now, false);
    PcKept(w, more, task);
    ContinueInv(w, more);
    var m := Play(w, more).value;
    StepInv(m, Write(task, 0, true));
    var l := Next(m, Write(task, 0, true));
    assert At(l, task) == Wrote(s.settings.config, s.settings.revision, 0);
    if Play(l, rest).Some? && !Play(l, rest).value.wrapped {
      PcKept(l, rest, task);
      ContinueInv(l, rest);
      var t := Play(l, rest).value;
      if t.settings.revision == s.settings.revision { CompletesClean(t, task); }
    }
  }
}
