/** What each section of the display service does: loading, leases, owners and the record of attempts. */
module DisplaySections {
  import opened Bytes
  import opened DisplaySettings
  import opened DisplayService
  import opened DisplayWrites

  /** After a boot nothing is loaded, owned or in hand; flash is what it was. */
  lemma BootExactly(s: State)
    ensures var t := Next(s, Reboot(false));
      && t.flash == s.flash && !t.loaded && t.owner == NoOwner && t.ownerTask == None && t.holder == None
      && t.pcs == map[] && t.spawned == {} && t.attempts == []
  {
  }

  /** The base configuration before anything is read: both brightnesses are taken from the screen if it is lit. */
  predicate IsBase(c: Config, brightness: int) {
    c == (if 10 <= brightness <= 100
          then Defaults().(chargeBrightness := brightness, batteryBrightness := brightness) else Defaults())
  }

  /** Settings with nothing edited, saved, leased or pending. */
  predicate Untouched(t: Settings) {
    t.revision == 1 && t.attemptedRevision == 0 && !t.pending && !t.Leased() && t.runtimeRevision == 1
  }

  /**
   Loading reads the current key, or the old one if that is missing: a readable blob becomes the saved base, an
   unreadable one and a failing read are errors, a missing one is neither; flash is never written.
   */
  lemma LoadExactly(s: State, brightness: int, fault: int)
    requires Enabled(s, Load(brightness, fault))
    ensures var t := Next(s, Load(brightness, fault)); var u := t.settings;
      var b := if s.flash.config3.Some? then s.flash.config3 else s.flash.config;
      && t.loaded && t.flash == s.flash && t.owner == s.owner && t.attempts == s.attempts && Untouched(u)
      && if fault == 0 && b.Some? && |b.value| == 24 && Decode(b.value).Some? then
           u.config == Decode(b.value).value && u.savedRevision == 1 && u.error == 0
         else
           && IsBase(u.config, brightness) && u.savedRevision == 0
           && u.error == if fault != 0 then fault else if b.Some? then 0x102 else 0
  {
  }

  // ----- leases

  /** What a section that looks at the lease leaves of it. */
  predicate LeaseLooked(s: Settings, t: Settings, now: int, unsafe: bool) {
    && (t.Leased() <==> s.Leased() && !unsafe && now < s.leaseUntil)
    && t == s.(leaseUntil := t.leaseUntil, runtimeRevision := t.runtimeRevision)
    && (t.runtimeRevision == s.runtimeRevision <==> t.Leased() == s.Leased())
  }

  /** Diagnostics and every call of service end a lease that is over or unsafe, gated or not, owner or not. */
  lemma LooksEndLeases(s: State, task: nat, now: nat, unsafe: bool)
    ensures Enabled(s, Look(now, unsafe)) ==>
      var t := Next(s, Look(now, unsafe));
      LeaseLooked(s.settings, t.settings, now, unsafe) && t == s.(settings := t.settings)
    ensures s.loaded && Enabled(s, Enter(task, now, unsafe)) ==>
      LeaseLooked(s.settings, Next(s, Enter(task, now, unsafe)).settings, now, unsafe)
  {
  }

  /** An unsafe moment refuses temporary edits and their saving, and ends the lease. */
  lemma UnsafeRefuses(s: State, a: Step)
    requires Enabled(s, a) && ((a.SetLease? && a.unsafe) || (a.SaveLease? && a.confirmed && a.unsafe))
    ensures var t := Next(s, a); !t.settings.Leased() && LeaseLooked(s.settings, t.settings, a.now, true)
  {
  }

  lemma LeaseExactly(s: State, name: Option<string>, v: int, seconds: nat, now: nat)
    requires Enabled(s, SetLease(name, v, seconds, now, false))
    ensures var t := Next(s, SetLease(name, v, seconds, now, false)); var u := s.settings.Expired(now, false);
      var next := u.Temporary(name, v, seconds, now);
      t == s.(settings := if next.Some? then next.value else u)
  {
  }

  lemma SaveExactly(s: State, confirmed: bool, now: nat)
    requires Enabled(s, SaveLease(confirmed, now, false))
    ensures var t := Next(s, SaveLease(confirmed, now, false));
      if !confirmed then t == s
      else t.settings == s.settings.Expired(now, false).TemporarySaved(true, now).value && t.flash == s.flash
  {
  }

  // ----- owners

  /** A fallback is created only where there is no owner; without its task the settings show an error. */
  lemma FallbackExactly(s: State, created: Option<nat>)
    requires Enabled(s, StartFallback(created))
    ensures var t := Next(s, StartFallback(created));
      if s.owner != NoOwner then t == s
      else match created
        case Some(task) => t == s.(owner := Fallback, spawned := s.spawned + {task})
        case None => t == s.(settings := s.settings.(error := 0x101))
  {
  }

  /** Its task becomes the writer only if the fallback is still the owner; the network takes over once and for all. */
  lemma OwnersExactly(s: State, task: nat)
    requires s.holder == None
    ensures Enabled(s, FallbackRuns(task)) <==> task in s.spawned
    ensures Enabled(s, FallbackRuns(task)) ==> var t := Next(s, FallbackRuns(task));
      && t.ownerTask == (if s.owner == Fallback then Some(task) else s.ownerTask)
      && t.owner == s.owner && t.spawned == s.spawned - {task}
    ensures Enabled(s, Claim(task)) && var t := Next(s, Claim(task));
      t.owner == Network && t.ownerTask == if s.owner == Network then s.ownerTask else Some(task)
  {
  }

  // ----- attempts

  /** The history of attempts grows by exactly the revisions that writes are started for. */
  lemma AttemptsExactly(s: State, a: Step)
    requires Enabled(s, a)
    ensures Next(s, a).attempts ==
      if a.Reboot? then []
      else if a.Capture? && !a.blocked && s.loaded && EditIsDue(s.settings, a.now)
      then s.attempts + [s.settings.revision]
      else s.attempts
  {
  }

  /** The revision counter has wrapped exactly if an edit brought it to 0. */
  lemma WrapExactly(s: State, a: Step)
    requires Enabled(s, a) && !a.Reboot? && !a.Load?
    ensures Next(s, a).wrapped <==> s.wrapped || (Next(s, a).settings.revision == 0 && s.settings.revision != 0)
  {
  }

  // ----- when a reboot is safe

  /** Without a wrap: what is neither pending nor in error is saved, or was never edited. */
  predicate Settled(s: State) {
    !s.wrapped && s.loaded && !s.settings.pending && s.settings.error == 0 ==>
      s.settings.savedRevision == s.settings.revision || (s.settings.revision == 1 && s.settings.savedRevision == 0)
  }

  lemma CompleteSettled(s: State, task: nat)
    requires LockOk(s) && Inv(s) && Settled(s) && Enabled(s, Complete(task))
    ensures Settled(Next(s, Complete(task)))
  {
    assert s.holder == Some(task);
  }

  lemma LoadSettled(s: State, brightness: int, fault: int)
    requires Enabled(s, Load(brightness, fault))
    ensures Settled(Next(s, Load(brightness, fault)))
  {
    LoadExactly(s, brightness, fault);
  }

  /** An edit is pending, or changes neither revision nor error; a lease changes none of them. */
  lemma EditSettled(s: State, a: Step)
    requires Settled(s) && Enabled(s, a) && !a.Complete? && !a.Load? && !a.Reboot?
    ensures Settled(Next(s, a))
  {
  }

  lemma {:induction false} RunSettled(flash: Flash, run: seq<Step>)
    requires Play(Booted(flash, false), run).Some?
    ensures Settled(Play(Booted(flash, false), run).value)
    decreases |run|
  {
    if run != [] {
      var front, a := run[..|run| - 1], run[|run| - 1];
      var s := Play(Booted(flash, false), front).value;
      RunInv(flash, front);
      RunSettled(flash, front);
      match a {
        case Complete(task) =>
          CompleteSettled(s, task);
        case Load(brightness, fault) =>
          LoadSettled(s, brightness, fault);
        case Reboot(_) =>
        case _ =>
          EditSettled(s, a);
      }
    }
  }

  /** In every run before the revision counter wraps: a reboot is reported ready exactly if no edit waits or failed. */
  lemma ReadyExactly(flash: Flash, run: seq<Step>)
    requires Play(Booted(flash, false), run).Some?
    requires var s := Play(Booted(flash, false), run).value; s.loaded && !s.wrapped
    ensures var t := Play(Booted(flash, false), run).value.settings;
      t.RebootReady() <==> !t.pending && t.error == 0
  {
    RunSettled(flash, run);
  }
}
