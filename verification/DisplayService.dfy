/**
 Display settings as they run: edits and leases from any task, a writer that reads the settings under one lock and
 writes flash outside it, the hand-over of the writer between tasks, and reboots. Every interleaving of the sections
 is allowed; what NVS returns, what the OTA gates say and which power loss lets a write land is part of the step.
 */
module DisplayService {
  import opened Bytes
  import opened DisplaySettings

  const INVALID := 0x102
  const NO_MEM := 0x101

  datatype Owner = NoOwner | Network | Fallback

  /** Where a task stands in service: inside it the task holds the writer lock. */
  datatype Pc =
    | Outside
    | Entered
    | Writing(config: Config, revision: u32)
    | Wrote(config: Config, revision: u32, failure: int)

  /** The current key and the one of the previous firmware. */
  datatype Flash = Flash(config3: Option<seq<byte>>, config: Option<seq<byte>>)

  /** wrapped, attempts and boot are history: the revision counter overflowed, revisions written, boot brightness. */
  datatype State = State(
    flash: Flash, loaded: bool, settings: Settings, owner: Owner, ownerTask: Option<nat>, holder: Option<nat>,
    pcs: map<nat, Pc>, spawned: set<nat>, wrapped: bool, attempts: seq<u32>, boot: int)

  datatype Step =
    | Load(brightness: int, fault: int)
    | Request(c: Config, now: nat)
    | Persist(name: Option<string>, v: int, now: nat)
    | SetLease(name: Option<string>, v: int, seconds: nat, now: nat, unsafe: bool)
    | EndLease
    | SaveLease(confirmed: bool, now: nat, unsafe: bool)
    | Look(now: nat, unsafe: bool)
    | Enter(task: nat, now: nat, unsafe: bool)
    | Capture(task: nat, now: nat, blocked: bool)
    | Write(task: nat, failure: int, lands: bool)
    | Complete(task: nat)
    | Claim(task: nat)
    | StartFallback(created: Option<nat>)
    | FallbackRuns(task: nat)
    | Reboot(lands: bool)

  function At(s: State, task: nat): Pc {
    if task in s.pcs then s.pcs[task] else Outside
  }

  function Booted(flash: Flash, wrapped: bool): State {
    State(flash, false, Fresh(Defaults()), NoOwner, None, None, map[], {}, wrapped, [], 0)
  }

  /** The base configuration before anything is read. */
  function Base(brightness: int): Config {
    if 10 <= brightness <= 100 then Defaults().(chargeBrightness := brightness, batteryBrightness := brightness)
    else Defaults()
  }

  /** What a blob that is present reads as. */
  function Stored(flash: Flash): Option<seq<byte>> {
    if flash.config3.Some? then flash.config3 else flash.config
  }

  function Readable(flash: Flash): Option<Config> {
    var b := Stored(flash);
    if b.Some? && |b.value| == BLOB then Decode(b.value) else None
  }

  /** A missing blob is no error; an unreadable one is, and is not overwritten by loading. */
  function Loaded(flash: Flash, brightness: int, fault: int): Settings {
    var s := Fresh(Base(brightness));
    if fault != 0 then s.(error := fault)
    else if Stored(flash).None? then s
    else
      var c := Readable(flash);
      if c.None? then s.(error := INVALID) else s.(config := c.value, savedRevision := 1)
  }

  function WithSettings(s: State, next: Settings): State {
    s.(settings := next, wrapped := s.wrapped || (next.revision == 0 && s.settings.revision != 0))
  }

  predicate Enabled(s: State, a: Step) {
    match a
    case Load(_, _) => !s.loaded
    case Request(_, _) => s.loaded
    case Persist(_, _, _) => s.loaded
    case SetLease(_, _, _, _, _) => s.loaded
    case EndLease => s.loaded
    case SaveLease(_, _, _) => s.loaded
    case Look(_, _) => s.loaded
    case Enter(task, _, _) => At(s, task) == Outside
    case Capture(task, _, _) => At(s, task) == Entered
    case Write(task, failure, lands) => At(s, task).Writing? && (failure == 0 ==> lands)
    case Complete(task) => At(s, task).Wrote?
    case Claim(task) => s.holder.None?
    case StartFallback(created) => s.holder.None?
    case FallbackRuns(task) => s.holder.None? && task in s.spawned
    case Reboot(_) => true
  }

  function Landed(flash: Flash, c: Config): Flash {
    flash.(config3 := Some(Encode(c)))
  }

  /** Expiry first; the writer lock is taken only if free and only kept by the owner. */
  function Entering(s: State, task: nat, now: nat, unsafe: bool): State {
    var t := if s.loaded then s.(settings := s.settings.Expired(now, unsafe)) else s;
    if s.holder.Some? || s.ownerTask != Some(task) then t else t.(holder := Some(task), pcs := s.pcs[task := Entered])
  }

  /** Past the gates, the base configuration and its revision are read and the revision is marked attempted. */
  function Captured(s: State, task: nat, now: nat, blocked: bool): State {
    if blocked || !s.loaded || !s.settings.Due(now) then s.(holder := None, pcs := s.pcs[task := Outside])
    else
      var r := s.settings.revision;
      s.(pcs := s.pcs[task := Writing(s.settings.config, r)], attempts := s.attempts + [r],
         settings := s.settings.(attemptedRevision := r))
  }

  function Lease(s: State, a: Step): State
    requires a.SetLease?
  {
    var t := s.settings.Expired(a.now, a.unsafe);
    var next := t.Temporary(a.name, a.v, a.seconds, a.now);
    s.(settings := if a.unsafe || next.None? then t else next.value)
  }

  function Saved(s: State, a: Step): State
    requires a.SaveLease?
  {
    if !a.confirmed then s
    else
      var t := s.settings.Expired(a.now, a.unsafe);
      if a.unsafe then s.(settings := t) else WithSettings(s, t.TemporarySaved(true, a.now).value)
  }

  function Fallen(s: State, created: Option<nat>): State {
    if s.owner != NoOwner then s
    else if created.None? then s.(settings := s.settings.(error := NO_MEM))
    else s.(owner := Fallback, spawned := s.spawned + {created.value})
  }

  function Next(s: State, a: Step): State
    requires Enabled(s, a)
  {
    match a
    case Load(brightness, fault) =>
      s.(loaded := true, boot := brightness, settings := Loaded(s.flash, brightness, fault))
    case Request(c, now) => WithSettings(s, s.settings.Requested(c, now))
    case Persist(name, v, now) =>
      var next := s.settings.Persisted(name, v, now);
      if next.None? then s else WithSettings(s, next.value)
    case SetLease(_, _, _, _, _) => Lease(s, a)
    case EndLease => s.(settings := s.settings.Restored())
    case SaveLease(_, _, _) => Saved(s, a)
    case Look(now, unsafe) => s.(settings := s.settings.Expired(now, unsafe))
    case Enter(task, now, unsafe) => Entering(s, task, now, unsafe)
    case Capture(task, now, blocked) => Captured(s, task, now, blocked)
    case Write(task, failure, lands) =>
      var w := At(s, task);
      s.(pcs := s.pcs[task := Wrote(w.config, w.revision, failure)],
         flash := if lands then Landed(s.flash, w.config) else s.flash)
    case Complete(task) =>
      var w := At(s, task);
      s.(holder := None, pcs := s.pcs[task := Outside], settings := s.settings.Completed(w.revision, w.failure))
    case Claim(task) => if s.owner == Network then s else s.(owner := Network, ownerTask := Some(task))
    case StartFallback(created) => Fallen(s, created)
    case FallbackRuns(task) =>
      s.(spawned := s.spawned - {task}, ownerTask := if s.owner == Fallback then Some(task) else s.ownerTask)
    case Reboot(lands) =>
      var writing := s.holder.Some? && At(s, s.holder.value).Writing?;
      Booted(if lands && writing then Landed(s.flash, At(s, s.holder.value).config) else s.flash, s.wrapped)
  }

  // ----- what every step keeps

  /** Every stored value is permitted, and the revisions are in order. */
  ghost predicate SettingsOk(t: Settings) {
    && Sane(t.config) && (t.Leased() ==> Sane(t.overlay))
    && 1 <= t.revision && t.savedRevision <= t.revision && t.attemptedRevision <= t.revision
    && (t.savedRevision == t.revision ==> !t.pending)
    && (!t.pending ==> t.attemptedRevision == t.revision || t.revision == 1)
  }

  /**
   The revision in hand is the last one attempted, newer than the saved one, and if still current its contents are.
   */
  predicate InHand(t: Settings, c: Config, revision: u32) {
    && t.savedRevision < revision <= t.revision && t.attemptedRevision == revision
    && (revision == t.revision ==> c == t.config && t.pending)
  }

  /** Only the holder of the writer lock is inside service, and it is the recorded owner. */
  predicate LockOk(s: State) {
    && (forall task :: task in s.pcs && s.pcs[task] != Outside ==> s.holder == Some(task))
    && (s.holder.Some? ==> At(s, s.holder.value) != Outside && s.ownerTask == s.holder)
    && (s.owner == NoOwner ==> s.ownerTask.None?)
  }

  predicate PcOk(s: State) {
    s.holder.Some? ==>
      match At(s, s.holder.value)
      case Writing(c, revision) => s.loaded && InHand(s.settings, c, revision)
      case Wrote(c, revision, failure) =>
        s.loaded && InHand(s.settings, c, revision) && (failure == 0 ==> s.flash.config3 == Some(Encode(c)))
      case _ => true
  }

  /** A saved current revision is what flash holds; an untouched default has nothing stored. */
  predicate FlashOk(s: State) {
    && (s.settings.savedRevision == s.settings.revision ==> s.loaded && Readable(s.flash) == Some(s.settings.config))
    && (s.loaded && s.settings.revision == 1 && s.settings.savedRevision == 0 && s.settings.error == 0 ==>
        Stored(s.flash).None? && s.settings.config == Base(s.boot))
    && (s.settings.revision == 1 ==> !s.settings.pending)
  }

  predicate AttemptsOk(s: State) {
    && (!s.loaded ==> s.attempts == [])
    && (forall i :: 0 <= i < |s.attempts| ==> s.attempts[i] <= s.settings.attemptedRevision)
    && (forall i, j :: 0 <= i < j < |s.attempts| ==> s.attempts[i] < s.attempts[j])
  }

  ghost predicate Inv(s: State) {
    !s.wrapped ==> SettingsOk(s.settings) && PcOk(s) && FlashOk(s) && AttemptsOk(s)
  }

  lemma BootedInv(flash: Flash, wrapped: bool)
    ensures Inv(Booted(flash, wrapped)) && LockOk(Booted(flash, wrapped))
  {
    SanitizeExactly(Defaults());
  }

  predicate InService(a: Step) {
    a.Enter? || a.Capture? || a.Write? || a.Complete?
  }

  predicate OfOwner(a: Step) {
    a.Claim? || a.StartFallback? || a.FallbackRuns? || a.Reboot?
  }

  lemma ServiceLock(s: State, a: Step)
    requires LockOk(s) && Enabled(s, a) && InService(a)
    ensures LockOk(Next(s, a))
  {
  }

  lemma OwnerLock(s: State, a: Step)
    requires LockOk(s) && Enabled(s, a) && OfOwner(a)
    ensures LockOk(Next(s, a))
  {
  }

  /** Loads and edits leave the tasks and their lock alone. */
  lemma EditsLeaveLock(s: State, a: Step)
    requires Enabled(s, a) && !InService(a) && !OfOwner(a)
    ensures var t := Next(s, a);
      t.pcs == s.pcs && t.holder == s.holder && t.owner == s.owner && t.ownerTask == s.ownerTask
  {
  }

  lemma LockStep(s: State, a: Step)
    requires LockOk(s) && Enabled(s, a)
    ensures LockOk(Next(s, a))
  {
    if InService(a) {
      ServiceLock(s, a);
    } else if OfOwner(a) {
      OwnerLock(s, a);
    } else {
      EditsLeaveLock(s, a);
    }
  }

  /** What an edit of the settings keeps when no write is finished by it. */
  ghost predicate Edited(s: Settings, t: Settings) {
    && SettingsOk(t) && t.savedRevision == s.savedRevision && t.attemptedRevision == s.attemptedRevision
    && ((t.revision == s.revision && t.config == s.config && t.pending == s.pending
         && (s.error != 0 ==> t.error != 0)) || t.revision == s.revision + 1)
  }

  lemma RequestedEdits(s: Settings, c: Config, now: nat)
    requires SettingsOk(s) && s.Requested(c, now).revision != 0
    ensures Edited(s, s.Requested(c, now))
  {
    SanitizeExactly(c);
  }

  lemma LeaseEdits(s: Settings, a: Step)
    requires SettingsOk(s) && a.SetLease?
    ensures var t := s.Expired(a.now, a.unsafe); var next := t.Temporary(a.name, a.v, a.seconds, a.now);
      Edited(s, t) && (next.Some? ==> Edited(s, next.value))
  {
    PatchExactly(s.Expired(a.now, a.unsafe).Current(a.now), a.name, a.v);
  }

  lemma SaveEdits(s: Settings, now: nat, unsafe: bool)
    requires SettingsOk(s)
    ensures var t := s.Expired(now, unsafe); var next := t.TemporarySaved(true, now).value;
      Edited(s, t) && (next.revision != 0 ==> Edited(s, next))
  {
    var t := s.Expired(now, unsafe).Expired(now, false);
    assert Edited(s, t);
    if t.Requested(t.Effective(), now).revision != 0 {
      RequestedEdits(t, t.Effective(), now);
    }
  }

  lemma EditInv(s: State, a: Step)
    requires Inv(s) && Enabled(s, a) && !s.wrapped && !Next(s, a).wrapped
    requires a.Request? || a.Persist? || a.SetLease? || a.EndLease? || a.SaveLease? || a.Look?
    ensures Edited(s.settings, Next(s, a).settings)
  {
    match a
    case Request(c, now) => RequestedEdits(s.settings, c, now);
    case Persist(name, v, now) =>
      if Patch(s.settings.config, name, v).Some? {
        RequestedEdits(s.settings, Patch(s.settings.config, name, v).value, now);
      }
    case SetLease(_, _, _, _, _) => LeaseEdits(s.settings, a);
    case SaveLease(_, now, unsafe) => SaveEdits(s.settings, now, unsafe);
    case _ =>
  }

  lemma LoadInv(s: State, a: Step)
    requires LockOk(s) && Inv(s) && Enabled(s, a) && a.Load? && !s.wrapped
    ensures Inv(Next(s, a))
  {
    SanitizeExactly(Base(a.brightness));
    if Readable(s.flash).Some? {
      DecodeThenEncode(Stored(s.flash).value);
    }
  }

  lemma CompleteInv(s: State, a: Step)
    requires LockOk(s) && Inv(s) && Enabled(s, a) && !s.wrapped && a.Complete?
    ensures Inv(Next(s, a))
  {
    assert At(s, a.task) != Outside && s.holder == Some(a.task);
    EncodeThenDecode(At(s, a.task).config);
  }

  lemma WriteInv(s: State, a: Step)
    requires LockOk(s) && Inv(s) && Enabled(s, a) && !s.wrapped && (a.Capture? || a.Write?)
    ensures Inv(Next(s, a))
  {
    assert At(s, a.task) != Outside && s.holder == Some(a.task);
  }

  lemma EditedInv(s: State, t: State)
    requires Inv(s) && !s.wrapped && Edited(s.settings, t.settings)
    requires t == s.(settings := t.settings)
    ensures Inv(t)
  {
  }

  lemma EnterInv(s: State, a: Step)
    requires LockOk(s) && Inv(s) && Enabled(s, a) && !s.wrapped && a.Enter?
    ensures Inv(Next(s, a))
  {
    assert s.settings.Restored().config == s.settings.config;
  }

  lemma OwnerInv(s: State, a: Step)
    requires LockOk(s) && Inv(s) && Enabled(s, a) && !s.wrapped
    requires a.Claim? || a.StartFallback? || a.FallbackRuns?
    ensures Inv(Next(s, a))
  {
  }

  lemma EditStep(s: State, a: Step)
    requires Inv(s) && Enabled(s, a) && !s.wrapped && !Next(s, a).wrapped
    requires a.Request? || a.Persist? || a.SetLease? || a.EndLease? || a.SaveLease? || a.Look?
    ensures Inv(Next(s, a))
  {
    EditInv(s, a);
    EditedInv(s, Next(s, a));
  }

  lemma CountedInv(s: State, a: Step)
    requires LockOk(s) && Inv(s) && Enabled(s, a) && !s.wrapped && !Next(s, a).wrapped
    ensures Inv(Next(s, a))
  {
    match a {
      case Load(_, _) =>
        LoadInv(s, a);
      case Capture(_, _, _) | Write(_, _, _) =>
        WriteInv(s, a);
      case Complete(_) =>
        CompleteInv(s, a);
      case Reboot(_) =>
        BootedInv(Next(s, a).flash, false);
      case Enter(_, _, _) =>
        EnterInv(s, a);
      case Claim(_) | StartFallback(_) | FallbackRuns(_) =>
        OwnerInv(s, a);
      case _ =>
        EditStep(s, a);
    }
  }

  lemma StepInv(s: State, a: Step)
    requires LockOk(s) && Inv(s) && Enabled(s, a)
    ensures LockOk(Next(s, a)) && Inv(Next(s, a))
  {
    LockStep(s, a);
    if !s.wrapped && !Next(s, a).wrapped {
      CountedInv(s, a);
    }
  }

  // ----- whole runs

  /** Where a run leads, if every step of it is enabled. */
  function Play(s: State, run: seq<Step>): Option<State>
    decreases |run|
  {
    if run == [] then Some(s)
    else
      var before := Play(s, run[..|run| - 1]);
      if before.Some? && Enabled(before.value, run[|run| - 1]) then Some(Next(before.value, run[|run| - 1])) else None
  }

  lemma {:induction false} RunInv(flash: Flash, run: seq<Step>)
    requires Play(Booted(flash, false), run).Some?
    ensures LockOk(Play(Booted(flash, false), run).value) && Inv(Play(Booted(flash, false), run).value)
    decreases |run|
  {
    if run == [] {
      BootedInv(flash, false);
    } else {
      RunInv(flash, run[..|run| - 1]);
      StepInv(Play(Booted(flash, false), run[..|run| - 1]).value, run[|run| - 1]);
    }
  }

  /**
   In every run whose revision counter has not wrapped: settings without a pending edit, an error or an unsaved
   revision are what flash reads back, and the revisions attempted since the boot are all different.
   */
  lemma CleanMeansStored(flash: Flash, run: seq<Step>, i: nat, j: nat)
    requires Play(Booted(flash, false), run).Some? && !Play(Booted(flash, false), run).value.wrapped
    ensures var s := Play(Booted(flash, false), run).value;
      && (s.settings.Clean() ==> s.loaded && Readable(s.flash) == Some(s.settings.config))
      && (i < j < |s.attempts| ==> s.attempts[i] < s.attempts[j])
  {
    RunInv(flash, run);
  }

  /** If a reboot is reported to be ready, then whenever it comes the next boot loads the same configuration. */
  lemma RebootLosesNothing(flash: Flash, run: seq<Step>, lands: bool)
    requires Play(Booted(flash, false), run).Some? && !Play(Booted(flash, false), run).value.wrapped
    requires var s := Play(Booted(flash, false), run).value; s.loaded && s.settings.RebootReady()
    ensures var s := Play(Booted(flash, false), run).value;
      var t := Next(Next(s, Reboot(lands)), Load(s.boot, 0));
      t.settings.config == s.settings.config && t.settings.error == 0
  {
    RunInv(flash, run);
  }

  /** Two tasks are never inside service together, and the one that is is the recorded owner. */
  lemma OneWriter(flash: Flash, run: seq<Step>, a: nat, b: nat)
    requires Play(Booted(flash, false), run).Some?
    ensures var s := Play(Booted(flash, false), run).value;
      && (At(s, a) != Outside && At(s, b) != Outside ==> a == b)
      && (At(s, a) != Outside ==> s.ownerTask == Some(a))
  {
    RunInv(flash, run);
  }

  predicate Owns(s: State, task: nat) {
    s.owner == Network && s.ownerTask == Some(task)
  }

  lemma {:induction false} OwnsStays(s: State, run: seq<Step>, task: nat)
    requires Owns(s, task) && Play(s, run).Some? && forall a :: a in run ==> !a.Reboot?
    ensures Owns(Play(s, run).value, task)
    decreases |run|
  {
    if run != [] {
      var front, last := run[..|run| - 1], run[|run| - 1];
      assert last in run && forall a :: a in front ==> a in run;
      OwnsStays(s, front, task);
    }
  }

  lemma PlayAppend(s: State, run: seq<Step>, more: seq<Step>)
    requires Play(s, run).Some? && Play(Play(s, run).value, more).Some?
    ensures Play(s, run + more) == Play(Play(s, run).value, more)
    decreases |more|
  {
    if more == [] {
      assert run + more == run;
    } else {
      var front := more[..|more| - 1];
      PlayAppend(s, run, front);
      assert (run + more)[..|run + more| - 1] == run + front;
    }
  }

  /**
   A claim finds no writer at work, and if it succeeds then until a reboot no other task is ever inside service,
   whether a fallback task was created before, starts late or is created again.
   */
  lemma ClaimIsFinal(flash: Flash, run: seq<Step>, task: nat, more: seq<Step>, other: nat)
    requires Play(Booted(flash, false), run).Some? && Enabled(Play(Booted(flash, false), run).value, Claim(task))
    requires Play(Booted(flash, false), run).value.owner != Network
    requires var s := Next(Play(Booted(flash, false), run).value, Claim(task));
      Play(s, more).Some? && forall a :: a in more ==> !a.Reboot?
    ensures At(Play(Booted(flash, false), run).value, other) == Outside
    ensures var s := Next(Play(Booted(flash, false), run).value, Claim(task));
      At(Play(s, more).value, other) != Outside ==> other == task
  {
    var before := Play(Booted(flash, false), run).value;
    var s := Next(before, Claim(task));
    RunInv(flash, run);
    assert run == (run + [Claim(task)])[..|run|];
    assert Play(Booted(flash, false), run + [Claim(task)]) == Some(s);
    PlayAppend(Booted(flash, false), run + [Claim(task)], more);
    RunInv(flash, run + [Claim(task)] + more);
    OwnsStays(s, more, task);
  }

  // ----- where stored configurations come from

  /** The steps that ask for a configuration to be kept; of a lease only a confirmed save while it is in effect. */
  predicate Asks(s: State, a: Step, c: Config) {
    match a
    case Load(brightness, fault) => c == Loaded(s.flash, brightness, fault).config
    case Request(wanted, _) => c == Sanitize(wanted)
    case Persist(name, v, _) => Patch(s.settings.config, name, v) == Some(c)
    case SaveLease(confirmed, now, unsafe) => confirmed && !unsafe && c == s.settings.Current(now)
    case _ => false
  }

  lemma BaseComesFrom(s: State, a: Step)
    requires LockOk(s) && Inv(s) && Enabled(s, a) && !s.wrapped && !a.Reboot?
    ensures Next(s, a).settings.config == s.settings.config || Asks(s, a, Next(s, a).settings.config)
  {
    match a
    case Persist(name, v, _) =>
      PatchExactly(s.settings.config, name, v);
      if Patch(s.settings.config, name, v).Some? {
        SanitizeExactly(Patch(s.settings.config, name, v).value);
      }
    case SaveLease(_, now, unsafe) =>
      SanitizeExactly(s.settings.Current(now));
    case _ =>
  }

  predicate AskedAt(s: State, run: seq<Step>, k: nat, c: Config) {
    k < |run| && Play(s, run[..k]).Some? && Asks(Play(s, run[..k]).value, run[k], c)
  }

  ghost predicate Asked(s: State, run: seq<Step>, c: Config) {
    exists k: nat :: AskedAt(s, run, k, c)
  }

  lemma AskedLater(s: State, run: seq<Step>, c: Config)
    requires run != [] && Asked(s, run[..|run| - 1], c)
    ensures Asked(s, run, c)
  {
    var k: nat :| AskedAt(s, run[..|run| - 1], k, c);
    assert run[..|run| - 1][..k] == run[..k];
    assert AskedAt(s, run, k, c);
  }

  /** The configuration a task is writing or has written. */
  function InWriting(s: State): Option<Config> {
    if s.holder.None? then None
    else
      match At(s, s.holder.value)
      case Writing(c, _) => Some(c)
      case Wrote(c, _, _) => Some(c)
      case _ => None
  }

  ghost predicate StoredAsked(flash: Flash, run: seq<Step>, s: State) {
    || s.flash.config3 == flash.config3
    || exists c :: s.flash.config3 == Some(Encode(c)) && Asked(Booted(flash, false), run, c)
  }

  /** The base, the write in hand and any blob written so far were all asked for. */
  ghost predicate Origins(flash: Flash, run: seq<Step>, s: State) {
    && (s.loaded ==> Asked(Booted(flash, false), run, s.settings.config))
    && (InWriting(s).Some? ==> Asked(Booted(flash, false), run, InWriting(s).value))
    && StoredAsked(flash, run, s) && s.flash.config == flash.config
  }

  /** A step moves the base only by asking, starts writing only the base, and stores only what is in writing. */
  lemma Moves(s: State, a: Step)
    requires LockOk(s) && Enabled(s, a)
    ensures Next(s, a).loaded && !s.loaded ==> a.Load?
    ensures var c := InWriting(Next(s, a)); c == None || c == InWriting(s) || (s.loaded && c == Some(s.settings.config))
  {
  }

  lemma HolderWrites(s: State, task: nat)
    requires LockOk(s) && At(s, task).Writing?
    ensures InWriting(s) == Some(At(s, task).config)
  {
  }

  lemma FlashStays(s: State, a: Step)
    requires Enabled(s, a) && !a.Write? && !a.Reboot?
    ensures Next(s, a).flash == s.flash
  {
  }

  lemma FlashMoves(s: State, a: Step)
    requires LockOk(s) && Enabled(s, a)
    ensures Next(s, a).flash == s.flash
      || (InWriting(s).Some? && Next(s, a).flash == Landed(s.flash, InWriting(s).value))
  {
    if a.Write? {
      HolderWrites(s, a.task);
    } else if !a.Reboot? {
      FlashStays(s, a);
    } else if s.holder.Some? && At(s, s.holder.value).Writing? {
      HolderWrites(s, s.holder.value);
    }
  }

  lemma OriginsStep(flash: Flash, run: seq<Step>, s: State, a: Step)
    requires LockOk(s) && Inv(s) && Enabled(s, a) && !s.wrapped
    requires Play(Booted(flash, false), run) == Some(s) && Origins(flash, run, s)
    ensures Origins(flash, run + [a], Next(s, a))
  {
    var b, more, t := Booted(flash, false), run + [a], Next(s, a);
    assert more[..|more| - 1] == run && more[..|run|] == run;
    forall c | Asked(b, run, c)
      ensures Asked(b, more, c)
    {
      AskedLater(b, more, c);
    }
    Moves(s, a);
    FlashMoves(s, a);
    if t.loaded {
      BaseComesFrom(s, a);
      if Asks(s, a, t.settings.config) {
        assert AskedAt(b, more, |run|, t.settings.config);
      }
    }
  }

  lemma {:induction false} RunOrigins(flash: Flash, run: seq<Step>)
    requires Play(Booted(flash, false), run).Some? && !Play(Booted(flash, false), run).value.wrapped
    ensures Origins(flash, run, Play(Booted(flash, false), run).value)
    decreases |run|
  {
    if run != [] {
      var front := run[..|run| - 1];
      RunInv(flash, front);
      RunOrigins(flash, front);
      OriginsStep(flash, front, Play(Booted(flash, false), front).value, run[|run| - 1]);
      assert front + [run[|run| - 1]] == run;
    }
  }

  /**
   The blob in flash is the first one, or encodes what some earlier step asked to be kept: no lease on its own. The
   previous firmware's key is never written.
   */
  lemma StoredWasAsked(flash: Flash, run: seq<Step>)
    requires Play(Booted(flash, false), run).Some? && !Play(Booted(flash, false), run).value.wrapped
    ensures var s := Play(Booted(flash, false), run).value;
      s.flash.config3 == flash.config3
      || exists c :: s.flash.config3 == Some(Encode(c)) && Asked(Booted(flash, false), run, c)
    ensures Play(Booted(flash, false), run).value.flash.config == flash.config
  {
    RunOrigins(flash, run);
  }
}
