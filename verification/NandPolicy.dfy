/**
 Moving the discharge trace's storage from NVS to NAND: a stored policy decides which of the two is used, a one-time
 background worker formats, saves and activates, and the power may fail between any two steps.
 */
module NandPolicy {
  import opened Bytes
  import TraceBlob

  datatype Policy = Unknown | Nvs | Pending | Nand | Fault

  /** How far the worker has come; it holds the selection lock from Admission to Done. */
  datatype Worker = NoWorker | Queued | Admission | Marking | Formatting | Migrating | Activating | Finishing

  /** What loading or saving may use. */
  datatype Choice = UseNvs | UseNand | Closed

  /**
   Persistent: the policy key and what NAND holds. formats and moved are history: how often NAND was erased, and the
   image saved by the worker after the erase; resaved says that NAND was written again since.
   */
  datatype State = State(
    key: Option<byte>, nand: Option<seq<byte>>, policy: Policy, attempted: bool, working: bool, worker: Worker,
    snapshot: seq<byte>, formats: nat, moved: Option<seq<byte>>, resaved: bool)

  datatype Step =
    | ReadPolicy(fault: bool)
    | BeginFormat(snapshot: seq<byte>, movable: bool, fault: bool, admitted: bool, memory: bool, created: bool)
    | Advance(ok: bool, landed: bool, left: Option<seq<byte>>)
    | SaveNand(image: seq<byte>, ok: bool, left: Option<seq<byte>>)
    | Reboot(lands: bool)

  /** A unit that has never stored a policy. */
  function Init(nand: Option<seq<byte>>): State {
    State(None, nand, Unknown, false, false, NoWorker, [], 0, None, false)
  }

  predicate LockFree(s: State) {
    s.worker == NoWorker || s.worker == Queued
  }

  /** Reads the stored policy once; only a missing key selects NVS. */
  function PolicyRead(s: State, fault: bool): State {
    if s.policy != Unknown then s
    else if fault then s.(policy := Fault)
    else if s.key.None? then s.(policy := Nvs)
    else if s.key.value == 1 then s.(policy := Pending)
    else if s.key.value == 2 then s.(policy := Nand)
    else s.(policy := Fault)
  }

  /** What a load or save at this moment is directed to; while a worker exists everything is refused. */
  function Selected(s: State): Choice {
    if !LockFree(s) || s.working then Closed
    else if s.policy == Nvs then UseNvs
    else if s.policy == Nand then UseNand
    else Closed
  }

  /** The key after a write that may or may not have landed, whatever the calls report. */
  function Keyed(s: State, value: byte, landed: bool): State {
    if landed then s.(key := Some(value)) else s
  }

  /** The write counts only if no call failed and the stored key reads back as the value. */
  predicate ReadsBack(s: State, value: byte, ok: bool, landed: bool) {
    ok && Keyed(s, value, landed).key == Some(value)
  }

  function Marked(s: State, value: byte, ok: bool, landed: bool): State {
    Keyed(s, value, landed).(policy :=
      if !ReadsBack(s, value, ok, landed) then Fault else if value == 1 then Pending else Nand)
  }

  predicate Sealed(image: seq<byte>) {
    |image| == TraceBlob.BLOB && TraceBlob.IsSealed(image)
  }

  /** What may be moved: a whole blob with a good CRC, at least one row, and no recording under way. */
  predicate Movable(image: seq<byte>) {
    Sealed(image) && 0 < Get(image, 8, 2) <= TraceBlob.TraceModel.CAPACITY && image[10] == 0
  }

  predicate Enabled(s: State, a: Step) {
    match a
    case ReadPolicy(_) => LockFree(s) && !s.working
    case BeginFormat(_, _, _, _, _, _) => LockFree(s) && !s.working
    case Advance(ok, _, left) => s.worker != NoWorker && (s.worker == Migrating && ok ==> left == Some(s.snapshot))
    case SaveNand(image, ok, left) => Selected(s) == UseNand && (ok ==> left == Some(image))
    case Reboot(_) => true
  }

  /** The checks of the images themselves. */
  predicate Checked(a: Step) {
    && (a.BeginFormat? ==> a.movable == Movable(a.snapshot))
    && (a.SaveNand? ==> Sealed(a.image))
  }

  function Begun(s: State, a: Step): State
    requires a.BeginFormat?
  {
    if s.attempted then s
    else
      var t := PolicyRead(s, a.fault);
      if t.policy != Nvs || !a.movable || !a.admitted then t
      else if !a.memory || !a.created then t.(attempted := true)
      else t.(attempted := true, working := true, worker := Queued, snapshot := a.snapshot)
  }

  /** One step of the worker; any failure leads to the end without activation. */
  function Advanced(s: State, ok: bool, landed: bool, left: Option<seq<byte>>): State {
    match s.worker
    case NoWorker => s
    case Queued => s.(worker := Admission)
    case Admission => s.(worker := if ok && s.policy == Nvs then Marking else Finishing)
    case Marking =>
      Marked(s, 1, ok, landed).(worker := if ReadsBack(s, 1, ok, landed) then Formatting else Finishing)
    case Formatting =>
      s.(nand := if ok then None else left, formats := s.formats + 1, moved := None,
        worker := if ok then Migrating else Finishing)
    case Migrating =>
      s.(nand := left, moved := if ok then left else s.moved, worker := if ok then Activating else Finishing)
    case Activating => Marked(s, 2, ok, landed).(worker := Finishing)
    case Finishing => s.(worker := NoWorker, working := false)
  }

  /** Power loss: what was being written may have landed. */
  function Rebooted(s: State, lands: bool): State {
    var t := if lands && s.worker == Marking then s.(key := Some(1))
      else if lands && s.worker == Activating then s.(key := Some(2))
      else if lands && s.worker == Formatting then s.(nand := None, formats := s.formats + 1, moved := None)
      else if lands && s.worker == Migrating then s.(nand := Some(s.snapshot))
      else s;
    t.(policy := Unknown, attempted := false, working := false, worker := NoWorker, snapshot := [])
  }

  function Next(s: State, a: Step): State
    requires Enabled(s, a)
  {
    match a
    case ReadPolicy(fault) => PolicyRead(s, fault)
    case BeginFormat(_, _, _, _, _, _) => Begun(s, a)
    case Advance(ok, landed, left) => Advanced(s, ok, landed, left)
    case SaveNand(_, _, left) => s.(nand := left, resaved := true)
    case Reboot(lands) => Rebooted(s, lands)
  }

  predicate Inv(s: State) {
    && (s.policy == Nvs ==> s.key.None?)
    && (s.policy == Nand ==> s.key == Some(2))
    && (s.formats > 0 ==> s.key.Some?)
    && (s.worker == Marking ==> s.policy == Nvs && s.formats == 0)
    && (s.worker == Formatting ==> s.policy == Pending && s.key == Some(1) && s.formats == 0)
    && (s.worker == Migrating ==> s.key == Some(1) && s.policy == Pending && s.formats == 1 && s.moved.None?)
    && (s.worker == Activating ==>
        s.key == Some(1) && s.policy == Pending && s.formats == 1 && s.moved == Some(s.snapshot) == s.nand)
    && (s.key == Some(2) ==> s.formats == 1 && s.moved.Some? && (!s.resaved ==> s.nand == s.moved))
    && (s.key.Some? ==> s.key == Some(1) || s.key == Some(2))
    && (s.resaved ==> s.key == Some(2))
    && s.formats <= 1
    && (s.worker != NoWorker ==> s.working)
  }

  predicate Carries(s: State) {
    s.worker != NoWorker && !s.worker.Finishing?
  }

  /** A waiting or running worker carries a movable snapshot, and only such a one is ever saved by it. */
  predicate Whole(s: State) {
    && (s.moved.Some? ==> Movable(s.moved.value))
    && (Carries(s) ==> Movable(s.snapshot))
  }

  lemma ReadInv(s: State, fault: bool)
    requires Inv(s)
    ensures Inv(PolicyRead(s, fault))
  {
  }

  lemma BegunInv(s: State, a: Step)
    requires Inv(s) && a.BeginFormat? && Enabled(s, a)
    ensures Inv(Begun(s, a))
  {
    ReadInv(s, a.fault);
  }

  lemma MarkedInv(s: State, ok: bool, landed: bool, left: Option<seq<byte>>)
    requires Inv(s) && s.worker == Marking
    ensures Inv(Advanced(s, ok, landed, left))
  {
  }

  lemma ErasedInv(s: State, ok: bool, landed: bool, left: Option<seq<byte>>)
    requires Inv(s) && s.worker == Formatting
    ensures Inv(Advanced(s, ok, landed, left))
  {
  }

  lemma SavedInv(s: State, ok: bool, landed: bool, left: Option<seq<byte>>)
    requires Inv(s) && s.worker == Migrating && (ok ==> left == Some(s.snapshot))
    ensures Inv(Advanced(s, ok, landed, left))
  {
  }

  lemma ActivatedInv(s: State, ok: bool, landed: bool, left: Option<seq<byte>>)
    requires Inv(s) && s.worker == Activating
    ensures Inv(Advanced(s, ok, landed, left))
  {
  }

  lemma AdvancedInv(s: State, ok: bool, landed: bool, left: Option<seq<byte>>)
    requires Inv(s) && Enabled(s, Advance(ok, landed, left))
    ensures Inv(Advanced(s, ok, landed, left))
  {
    match s.worker {
      case Marking =>
        MarkedInv(s, ok, landed, left);
      case Formatting =>
        ErasedInv(s, ok, landed, left);
      case Migrating =>
        SavedInv(s, ok, landed, left);
      case Activating =>
        ActivatedInv(s, ok, landed, left);
      case _ =>
    }
  }

  lemma RebootedInv(s: State, lands: bool)
    requires Inv(s)
    ensures Inv(Rebooted(s, lands))
  {
  }

  lemma StepInv(s: State, a: Step)
    requires Inv(s) && Enabled(s, a)
    ensures Inv(Next(s, a))
  {
    match a {
      case ReadPolicy(fault) =>
        ReadInv(s, fault);
      case BeginFormat(_, _, _, _, _, _) =>
        BegunInv(s, a);
      case Advance(ok, landed, left) =>
        AdvancedInv(s, ok, landed, left);
      case SaveNand(_, _, _) =>
      case Reboot(lands) =>
        RebootedInv(s, lands);
    }
  }

  /** Only the worker moves an image, and it moves its own. */
  lemma StepMoves(s: State, a: Step)
    requires Enabled(s, a)
    ensures var t := Next(s, a);
      t.moved.Some? ==> t.moved == s.moved || (s.worker == Migrating && t.moved == Some(s.snapshot))
  {
  }

  /** A worker gets its image at its start, and the image was checked then. */
  lemma StepCarries(s: State, a: Step)
    requires Enabled(s, a) && Carries(Next(s, a))
    ensures var t := Next(s, a);
      || (Carries(s) && t.snapshot == s.snapshot)
      || (a.BeginFormat? && a.movable && t.snapshot == a.snapshot)
  {
  }

  lemma StepWhole(s: State, a: Step)
    requires Whole(s) && Enabled(s, a) && Checked(a)
    ensures Whole(Next(s, a))
  {
    StepMoves(s, a);
    if Carries(Next(s, a)) {
      StepCarries(s, a);
    }
  }

  /** Where a run leads, across any number of power losses, if every step of it is enabled. */
  function Play(s: State, run: seq<Step>): Option<State>
    decreases |run|
  {
    if run == [] then Some(s)
    else
      var before := Play(s, run[..|run| - 1]);
      var a := run[|run| - 1];
      if before.Some? && Enabled(before.value, a) && Checked(a) then Some(Next(before.value, a)) else None
  }

  lemma {:induction false} RunInv(s: State, run: seq<Step>)
    requires Inv(s) && Play(s, run).Some?
    ensures Inv(Play(s, run).value)
    decreases |run|
  {
    if run != [] {
      RunInv(s, run[..|run| - 1]);
      StepInv(Play(s, run[..|run| - 1]).value, run[|run| - 1]);
    }
  }

  lemma {:induction false} RunWhole(s: State, run: seq<Step>)
    requires Whole(s) && Play(s, run).Some?
    ensures Whole(Play(s, run).value)
    decreases |run|
  {
    if run != [] {
      RunWhole(s, run[..|run| - 1]);
      StepWhole(Play(s, run[..|run| - 1]).value, run[|run| - 1]);
    }
  }

  /**
   Wherever the power failed: a stored policy for NAND means a whole trace was saved there after the only erase, and
   unless NAND was written again it still is; NVS is used only while no policy was ever stored and nothing erased.
   */
  lemma PolicyIsTruthful(nand: Option<seq<byte>>, run: seq<Step>)
    requires Play(Init(nand), run).Some?
    ensures var s := Play(Init(nand), run).value;
      && (s.key == Some(2) ==>
          s.formats == 1 && s.moved.Some? && Movable(s.moved.value) && (!s.resaved ==> s.nand == s.moved))
      && (Selected(s) == UseNand ==> s.key == Some(2))
      && (Selected(s) == UseNvs ==> s.key.None? && s.formats == 0)
      && s.formats <= 1
  {
    RunInv(Init(nand), run);
    RunWhole(Init(nand), run);
  }

  lemma StepKey(s: State, a: Step)
    requires s.key.Some? && Enabled(s, a)
    ensures Next(s, a).key.Some?
  {
  }

  lemma {:induction false} KeyKept(s: State, run: seq<Step>)
    requires s.key.Some? && Play(s, run).Some?
    ensures Play(s, run).value.key.Some?
    decreases |run|
  {
    if run != [] {
      KeyKept(s, run[..|run| - 1]);
      StepKey(Play(s, run[..|run| - 1]).value, run[|run| - 1]);
    }
  }

  /** A stored policy stays stored, so NVS is never used again. */
  lemma KeyStays(nand: Option<seq<byte>>, run: seq<Step>, more: seq<Step>)
    requires Play(Init(nand), run).Some? && Play(Init(nand), run).value.key.Some?
    requires Play(Play(Init(nand), run).value, more).Some?
    ensures var t := Play(Play(Init(nand), run).value, more).value; t.key.Some? && Selected(t) != UseNvs
  {
    var s := Play(Init(nand), run).value;
    RunInv(Init(nand), run);
    RunInv(s, more);
    KeyKept(s, more);
  }

  /** A move was marked, and no worker is on its way from the mark to the activation. */
  predicate Interrupted(s: State) {
    s.key == Some(1) && s.worker != Formatting && s.worker != Migrating && s.worker != Activating
  }

  lemma InterruptedStep(s: State, a: Step)
    requires Inv(s) && Interrupted(s) && Enabled(s, a)
    ensures Interrupted(Next(s, a))
  {
  }

  /** A pending policy stays closed: after an interruption neither storage is ever used again. */
  lemma {:induction false} InterruptedStaysClosed(s: State, run: seq<Step>)
    requires Inv(s) && Interrupted(s) && Play(s, run).Some?
    ensures Interrupted(Play(s, run).value) && Selected(Play(s, run).value) == Closed
    decreases |run|
  {
    RunInv(s, run);
    if run != [] {
      InterruptedStaysClosed(s, run[..|run| - 1]);
      RunInv(s, run[..|run| - 1]);
      InterruptedStep(Play(s, run[..|run| - 1]).value, run[|run| - 1]);
    }
  }

  /** One step at a time, through states already known. */
  lemma PlayTo(s: State, run: seq<Step>, mid: State, a: Step)
    requires Play(s, run) == Some(mid) && Enabled(mid, a) && Checked(a)
    ensures Play(s, run + [a]) == Some(Next(mid, a))
  {
    assert (run + [a])[..|run|] == run;
  }

  predicate Opens(s: State, run: seq<Step>) {
    Play(s, run).Some? && Selected(Play(s, run).value) != Closed
  }

  /** A boot without a pending policy reads it and has its storage. */
  lemma BootOpens(s: State, run: seq<Step>, mid: State)
    requires Play(s, run) == Some(mid) && Inv(mid) && mid.key != Some(1)
    ensures Opens(s, run + [Reboot(false)] + [ReadPolicy(false)])
  {
    PlayTo(s, run, mid, Reboot(false));
    PlayTo(s, run + [Reboot(false)], Next(mid, Reboot(false)), ReadPolicy(false));
  }

  /** A worker that is on its way can still succeed. */
  lemma WorkerActivates(s: State, run: seq<Step>, mid: State) returns (more: seq<Step>)
    requires Play(s, run) == Some(mid) && Inv(mid)
    requires mid.worker == Formatting || mid.worker == Migrating || mid.worker == Activating
    ensures Opens(s, more)
    decreases mid.worker == Formatting, mid.worker == Migrating
  {
    var a := Advance(true, true, Some(mid.snapshot));
    PlayTo(s, run, mid, a);
    StepInv(mid, a);
    if mid.worker == Activating {
      BootOpens(s, run + [a], Next(mid, a));
      more := run + [a] + [Reboot(false)] + [ReadPolicy(false)];
    } else {
      more := WorkerActivates(s, run + [a], Next(mid, a));
    }
  }

  /** From a reached state some storage can be used again exactly if no move is interrupted there. */
  lemma OpenAgainExactly(nand: Option<seq<byte>>, run: seq<Step>)
    requires Play(Init(nand), run).Some?
    ensures var s := Play(Init(nand), run).value; (exists more :: Opens(s, more)) <==> !Interrupted(s)
  {
    RunInv(Init(nand), run);
    var s := Play(Init(nand), run).value;
    assert Play(s, []) == Some(s);
    if Interrupted(s) {
      forall more | Play(s, more).Some?
        ensures !Opens(s, more)
      {
        InterruptedStaysClosed(s, more);
      }
    } else if s.key == Some(1) {
      var more := WorkerActivates(s, [], s);
    } else {
      BootOpens(s, [], s);
    }
  }

  // ----- the code

  datatype Outcome = Outcome(ok: bool, landed: bool, left: Option<seq<byte>>)

  /** The worker run to its end, one outcome for each step. */
  function Work(s: State, os: seq<Outcome>): State
    decreases |os|
  {
    if s.worker == NoWorker || os == [] then s else Work(Advanced(s, os[0].ok, os[0].landed, os[0].left), os[1..])
  }

  lemma WorkStep(s: State, os: seq<Outcome>, i: nat)
    requires i < |os| && s.worker != NoWorker
    ensures Work(s, os[i..]) == Work(Advanced(s, os[i].ok, os[i].landed, os[i].left), os[i + 1..])
  {
    assert os[i..][1..] == os[i + 1..];
  }

  class Backend {
    var key: Option<byte>
    var nand: Option<seq<byte>>
    var policy: Policy
    var attempted: bool
    var working: bool
    var worker: Worker
    var snapshot: seq<byte>
    ghost var formats: nat
    ghost var moved: Option<seq<byte>>
    ghost var resaved: bool

    ghost function View(): State
      reads this
    {
      State(key, nand, policy, attempted, working, worker, snapshot, formats, moved, resaved)
    }

    constructor (nand: Option<seq<byte>>)
      ensures View() == Init(nand)
    {
      key, this.nand, policy, attempted, working, worker := None, nand, Unknown, false, false, NoWorker;
      snapshot, formats, moved, resaved := [], 0, None, false;
    }

    method Read(fault: bool) returns (usable: bool)
      modifies `policy
      ensures View() == PolicyRead(old(View()), fault) && usable == (policy == Nvs || policy == Nand)
    {
      if policy == Unknown {
        if fault { policy := Fault; }
        else if key.None? { policy := Nvs; }
        else if key.value == 1 { policy := Pending; }
        else if key.value == 2 { policy := Nand; }
        else { policy := Fault; }
      }
      usable := policy == Nvs || policy == Nand;
    }

    method WritePolicy(value: byte, o: Outcome) returns (ok: bool)
      modifies `key, `policy
      ensures View() == Marked(old(View()), value, o.ok, o.landed)
      ensures ok == ReadsBack(old(View()), value, o.ok, o.landed)
    {
      if o.landed { key := Some(value); }
      ok := o.ok;
      if ok && (key.None? || key.value != value) { ok := false; }
      policy := if !ok then Fault else if value == 1 then Pending else Nand;
    }

    /** Where a load or save goes; NVS only if it says so, and nothing while the worker is about. */
    method Select(fault: bool) returns (choice: Choice)
      modifies `policy
      ensures View() == if LockFree(old(View())) && !working then PolicyRead(old(View()), fault) else old(View())
      ensures choice == Selected(View())
    {
      if (worker != NoWorker && worker != Queued) || working { return Closed; }
      var usable := Read(fault);
      choice := if policy == Nvs then UseNvs else if policy == Nand then UseNand else Closed;
    }

    /** The policy is read, and the snapshot and the caller are checked. */
    method MayFormat(image: seq<byte>, fault: bool, admitted: bool) returns (ok: bool)
      modifies `policy
      ensures View() == PolicyRead(old(View()), fault)
      ensures ok == (policy == Nvs && Movable(image) && admitted)
    {
      var usable := Read(fault);
      ok := usable && policy == Nvs && Movable(image) && admitted;
    }

    method BeginFormat(image: seq<byte>, fault: bool, admitted: bool, memory: bool, created: bool) returns (ok: bool)
      requires LockFree(View()) && !working
      modifies this
      ensures View() == Begun(old(View()), Step.BeginFormat(image, Movable(image), fault, admitted, memory, created))
      ensures ok == working
    {
      if attempted { return false; }
      ok := MayFormat(image, fault, admitted);
      if !ok { return false; }
      attempted := true;
      if !memory || !created { return false; }
      working, worker, snapshot := true, Queued, image;
      return true;
    }

    method Wake(os: seq<Outcome>)
      requires worker == Queued && |os| > 0
      modifies `worker
      ensures Work(View(), os[1..]) == Work(old(View()), os) && worker == Admission
    {
      assert os[0..] == os;
      WorkStep(View(), os, 0);
      worker := Admission;
    }

    method Admit(os: seq<Outcome>, i: nat) returns (ok: bool)
      requires worker == Admission && i < |os|
      modifies this
      ensures Work(View(), os[i + 1..]) == Work(old(View()), os[i..])
      ensures worker == if ok then Marking else Finishing
    {
      WorkStep(View(), os, i);
      ok := os[i].ok && policy == Nvs;
      worker := if ok then Marking else Finishing;
    }

    method Mark(os: seq<Outcome>, i: nat) returns (ok: bool)
      requires worker == Marking && i < |os|
      modifies this
      ensures Work(View(), os[i + 1..]) == Work(old(View()), os[i..])
      ensures worker == if ok then Formatting else Finishing
    {
      WorkStep(View(), os, i);
      ok := WritePolicy(1, os[i]);
      worker := if ok then Formatting else Finishing;
    }

    method Erase(os: seq<Outcome>, i: nat) returns (ok: bool)
      requires worker == Formatting && i < |os|
      modifies this
      ensures Work(View(), os[i + 1..]) == Work(old(View()), os[i..])
      ensures worker == if ok then Migrating else Finishing
    {
      WorkStep(View(), os, i);
      ok := os[i].ok;
      nand, formats, moved := if ok then None else os[i].left, formats + 1, None;
      worker := if ok then Migrating else Finishing;
    }

    method SaveSnapshot(os: seq<Outcome>, i: nat) returns (ok: bool)
      requires worker == Migrating && i < |os|
      modifies this
      ensures Work(View(), os[i + 1..]) == Work(old(View()), os[i..])
      ensures worker == if ok then Activating else Finishing
    {
      WorkStep(View(), os, i);
      ok := os[i].ok;
      nand, moved := os[i].left, if ok then os[i].left else moved;
      worker := if ok then Activating else Finishing;
    }

    method Activate(os: seq<Outcome>, i: nat) returns (ok: bool)
      requires worker == Activating && i < |os|
      modifies this
      ensures Work(View(), os[i + 1..]) == Work(old(View()), os[i..])
      ensures worker == Finishing && ok == (policy == Nand)
    {
      WorkStep(View(), os, i);
      ok := WritePolicy(2, os[i]);
      worker := Finishing;
    }

    method End(os: seq<Outcome>, i: nat)
      requires worker.Finishing? && i < |os|
      modifies `worker, `working
      ensures View() == Work(old(View()), os[i..]) && worker == NoWorker
    {
      WorkStep(View(), os, i);
      worker, working := NoWorker, false;
    }

    /** After the mark: nothing is activated that was not saved, and nothing saved that was not erased before. */
    method Move(os: seq<Outcome>)
      requires worker == Formatting && |os| == 7
      modifies this
      ensures View() == Work(old(View()), os[3..]) && worker == NoWorker
    {
      var i := 4;
      var ok := Erase(os, 3);
      if ok {
        ok := SaveSnapshot(os, 4);
        i := 5;
        if ok {
          ok := Activate(os, 5);
          i := 6;
        }
      }
      End(os, i);
    }

    /** The body of the background task, without a power loss. */
    method FormatWorker(os: seq<Outcome>)
      requires worker == Queued && working && |os| == 7
      modifies this
      ensures View() == Work(old(View()), os) && worker == NoWorker
    {
      Wake(os);
      var ok := Admit(os, 1);
      if !ok {
        End(os, 2);
        return;
      }
      ok := Mark(os, 2);
      if ok { Move(os); } else { End(os, 3); }
    }
  }
}
