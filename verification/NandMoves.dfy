/** When a move to NAND starts, what each of its outcomes leaves, and what a boot then finds. */
module NandMoves {
  import opened Bytes
  import opened NandPolicy
  import TraceBlob
  import TraceLayout

  predicate Reached(nand: Option<seq<byte>>, run: seq<Step>) {
    Play(Init(nand), run).Some?
  }

  function At(nand: Option<seq<byte>>, run: seq<Step>): State
    requires Reached(nand, run)
  {
    Play(Init(nand), run).value
  }

  // ----- reading the policy

  /** What the stored key says: nothing stored means NVS, 2 means NAND, anything else that it is closed. */
  function Told(key: Option<byte>): Choice {
    if key == None then UseNvs else if key == Some(2) then UseNand else Closed
  }

  /** The first read of a boot follows the key, or closes both storages until the next boot if it fails. */
  lemma FirstReadExactly(s: State, fault: bool)
    requires s.policy == Unknown && Enabled(s, ReadPolicy(fault))
    ensures var t := Next(s, ReadPolicy(fault));
      Selected(t) == (if fault then Closed else Told(s.key)) && t.policy != Unknown && t == s.(policy := t.policy)
  {
  }

  /** While a worker exists both storages are closed; otherwise the policy read at this boot decides. */
  lemma SelectedExactly(nand: Option<seq<byte>>, run: seq<Step>)
    requires Reached(nand, run)
    ensures var s := At(nand, run);
      Selected(s) ==
        if s.worker != NoWorker then Closed
        else if s.policy == Nvs then UseNvs
        else if s.policy == Policy.Nand then UseNand
        else Closed
  {
    RunIdle(Init(nand), run);
  }

  lemma LaterReadsExactly(s: State, fault: bool)
    requires s.policy != Unknown
    ensures PolicyRead(s, fault) == s
  {
  }

  // ----- starting

  /** NVS is in use, or would be once the policy is read. */
  predicate UsesNvs(s: State, fault: bool) {
    s.policy == Nvs || (s.policy == Unknown && !fault && s.key == None)
  }

  /**
   A move starts exactly if it is the boot's first attempt, NVS is in use, the snapshot may be moved, and the caller,
   memory and task creation allow it. It changes no storage; only lack of memory or task uses up the attempt.
   */
  lemma StartExactly(nand: Option<seq<byte>>, run: seq<Step>, a: Step)
    requires Reached(nand, run) && a.BeginFormat? && Enabled(At(nand, run), a) && Checked(a)
    requires At(nand, run).worker == NoWorker
    ensures var s := At(nand, run); var t := Next(s, a);
      var ready := !s.attempted && UsesNvs(s, a.fault) && Movable(a.snapshot) && a.admitted;
      && t.key == s.key && t.nand == s.nand && t.formats == s.formats
      && t.attempted == (s.attempted || ready)
      && t.policy == (if s.attempted then s.policy else PolicyRead(s, a.fault).policy)
      && (if ready && a.memory && a.created
          then t.working && t.worker == Queued && t.snapshot == a.snapshot && t.policy == Nvs
          else !t.working && t.worker == NoWorker)
  {
    RunIdle(Init(nand), run);
  }

  /** Without a worker nothing is under way. */
  lemma {:induction false} RunIdle(s: State, run: seq<Step>)
    requires s.working == (s.worker != NoWorker) && Play(s, run).Some?
    ensures var t := Play(s, run).value; t.working == (t.worker != NoWorker)
    decreases |run|
  {
    if run != [] {
      RunIdle(s, run[..|run| - 1]);
      IdleStep(Play(s, run[..|run| - 1]).value, run[|run| - 1]);
    }
  }

  lemma IdleStep(s: State, a: Step)
    requires s.working == (s.worker != NoWorker) && Enabled(s, a)
    ensures var t := Next(s, a); t.working == (t.worker != NoWorker)
  {
  }

  /** A stored trace may be moved exactly if it has rows and is not being recorded. */
  lemma MovableExactly(t: TraceBlob.TraceModel.Trace)
    requires t.Sized()
    ensures Movable(TraceBlob.Encode(t)) <==> t.rows != [] && !t.status.armed
  {
    TraceBlob.HeadParts(t);
    TraceBlob.SealedIsSealed(TraceBlob.Body(t));
  }

  // ----- what a move leaves

  /** The steps that can fail, in order; a key write must also land. */
  predicate Admitted(os: seq<Outcome>)
    requires |os| == 7
  {
    os[1].ok
  }

  predicate MarkedOk(os: seq<Outcome>)
    requires |os| == 7
  {
    Admitted(os) && os[2].ok && os[2].landed
  }

  predicate Erased(os: seq<Outcome>)
    requires |os| == 7
  {
    MarkedOk(os) && os[3].ok
  }

  predicate Saved(os: seq<Outcome>)
    requires |os| == 7
  {
    Erased(os) && os[4].ok
  }

  predicate Activated(os: seq<Outcome>)
    requires |os| == 7
  {
    Saved(os) && os[5].ok && os[5].landed
  }

  /** A save that reports success has stored the snapshot. */
  predicate Honest(s: State, os: seq<Outcome>)
    requires |os| == 7
  {
    os[4].ok ==> os[4].left == Some(s.snapshot)
  }

  /** The key afterwards: set where a write landed, whatever it reported. */
  function KeyAfter(os: seq<Outcome>): Option<byte>
    requires |os| == 7
  {
    if Saved(os) && os[5].landed then Some(2)
    else if Admitted(os) && os[2].landed then Some(1)
    else None
  }

  function NandAfter(s: State, os: seq<Outcome>): Option<seq<byte>>
    requires |os| == 7
  {
    if Erased(os) then os[4].left else if MarkedOk(os) then os[3].left else s.nand
  }

  function ChoiceAfter(os: seq<Outcome>): Choice
    requires |os| == 7
  {
    if Activated(os) then UseNand else if Admitted(os) then Closed else UseNvs
  }

  lemma WorkOne(s: State, os: seq<Outcome>, i: nat, t: State)
    requires i < |os| && s.worker != NoWorker && t == Advanced(s, os[i].ok, os[i].landed, os[i].left)
    ensures Work(s, os[i..]) == Work(t, os[i + 1..])
  {
    WorkStep(s, os, i);
  }

  lemma WorkEnds(s: State, os: seq<Outcome>, i: nat)
    requires i < |os| && s.worker.Finishing?
    ensures Work(s, os[i..]) == s.(worker := NoWorker, working := false)
  {
    WorkStep(s, os, i);
  }

  lemma FromActivating(s: State, os: seq<Outcome>, n: State)
    requires |os| == 7 && s.worker == Activating && s.key == Some(1) && n == Work(s, os[5..])
    ensures n.worker == NoWorker && !n.working && n.nand == s.nand && n.formats == s.formats
    ensures n.key == (if os[5].landed then Some(2) else Some(1))
    ensures n.policy == (if os[5].ok && os[5].landed then Policy.Nand else Fault)
  {
    var t := Advanced(s, os[5].ok, os[5].landed, os[5].left);
    WorkOne(s, os, 5, t);
    WorkEnds(t, os, 6);
  }

  lemma FromMigrating(s: State, os: seq<Outcome>, n: State)
    requires |os| == 7 && s.worker == Migrating && s.key == Some(1) && s.policy == Pending && n == Work(s, os[4..])
    ensures n.worker == NoWorker && !n.working && n.nand == os[4].left && n.formats == s.formats
    ensures n.key == (if os[4].ok && os[5].landed then Some(2) else Some(1))
    ensures n.policy == if !os[4].ok then Pending else if os[5].ok && os[5].landed then Policy.Nand else Fault
  {
    var t := Advanced(s, os[4].ok, os[4].landed, os[4].left);
    WorkOne(s, os, 4, t);
    if os[4].ok { FromActivating(t, os, n); } else { WorkEnds(t, os, 5); }
  }

  lemma FromFormatting(s: State, os: seq<Outcome>, n: State)
    requires |os| == 7 && s.worker == Formatting && s.key == Some(1) && s.policy == Pending && n == Work(s, os[3..])
    ensures n.worker == NoWorker && !n.working && n.formats == s.formats + 1
    ensures n.nand == if os[3].ok then os[4].left else os[3].left
    ensures n.key == (if os[3].ok && os[4].ok && os[5].landed then Some(2) else Some(1))
    ensures n.policy ==
      if !os[3].ok || !os[4].ok then Pending else if os[5].ok && os[5].landed then Policy.Nand else Fault
  {
    var t := Advanced(s, os[3].ok, os[3].landed, os[3].left);
    WorkOne(s, os, 3, t);
    if os[3].ok { FromMigrating(t, os, n); } else { WorkEnds(t, os, 4); }
  }

  lemma FromMarking(s: State, os: seq<Outcome>, n: State)
    requires |os| == 7 && s.worker == Marking && s.key == None && s.policy == Nvs && n == Work(s, os[2..])
    ensures n.worker == NoWorker && !n.working
    ensures n.formats == s.formats + if os[2].ok && os[2].landed then 1 else 0
    ensures n.nand == if !(os[2].ok && os[2].landed) then s.nand else if os[3].ok then os[4].left else os[3].left
    ensures os[2].ok && os[2].landed ==>
      && n.key == (if os[3].ok && os[4].ok && os[5].landed then Some(2) else Some(1))
      && n.policy ==
         if !os[3].ok || !os[4].ok then Pending else if os[5].ok && os[5].landed then Policy.Nand else Fault
    ensures !(os[2].ok && os[2].landed) ==> n.key == (if os[2].landed then Some(1) else None) && n.policy == Fault
  {
    var t := Advanced(s, os[2].ok, os[2].landed, os[2].left);
    WorkOne(s, os, 2, t);
    if os[2].ok && os[2].landed { FromFormatting(t, os, n); } else { WorkEnds(t, os, 3); }
  }

  lemma FromAdmission(s: State, os: seq<Outcome>, n: State)
    requires |os| == 7 && s.worker == Admission && s.key == None && s.policy == Nvs && n == Work(s, os[1..])
    ensures n.worker == NoWorker && !n.working && n.key == KeyAfter(os) && n.nand == NandAfter(s, os)
    ensures Selected(n) == ChoiceAfter(os) && n.formats == s.formats + if MarkedOk(os) then 1 else 0
  {
    var t := Advanced(s, os[1].ok, os[1].landed, os[1].left);
    WorkOne(s, os, 1, t);
    if os[1].ok { FromMarking(t, os, n); } else { WorkEnds(t, os, 2); }
  }

  /**
   A move that is admitted, marks, erases, saves and activates uses NAND from then on, which holds the snapshot. One
   that is not admitted leaves everything as it was, with NVS in use. Any other leaves both storages closed: a key
   write that landed stays, and NAND holds what the erase or the save left.
   */
  lemma MoveExactly(nand: Option<seq<byte>>, run: seq<Step>, os: seq<Outcome>)
    requires Reached(nand, run) && At(nand, run).worker == Queued && At(nand, run).policy == Nvs
    requires |os| == 7 && Honest(At(nand, run), os)
    ensures var s := At(nand, run); var n := Work(s, os);
      && n.worker == NoWorker && !n.working && n.key == KeyAfter(os) && n.nand == NandAfter(s, os)
      && Selected(n) == ChoiceAfter(os) && n.formats == (if MarkedOk(os) then 1 else 0)
      && (Activated(os) ==> n.nand == Some(s.snapshot) && Movable(s.snapshot))
  {
    var s := At(nand, run);
    RunInv(Init(nand), run);
    RunWhole(Init(nand), run);
    var t := Advanced(s, os[0].ok, os[0].landed, os[0].left);
    assert os[0..] == os;
    WorkOne(s, os, 0, t);
    FromAdmission(t, os, Work(s, os));
  }

  // ----- power loss

  /** A power loss changes only what was being written, and only to what was being written. */
  lemma PowerLossExactly(s: State, lands: bool)
    ensures var t := Rebooted(s, lands);
      && t.policy == Unknown && !t.attempted && !t.working && t.worker == NoWorker
      && (lands && s.worker == Marking ==> t.key == Some(1))
      && (lands && s.worker == Activating ==> t.key == Some(2))
      && (!lands || (s.worker != Marking && s.worker != Activating) ==> t.key == s.key)
      && (lands && s.worker == Formatting ==> t.nand == None)
      && (lands && s.worker == Migrating ==> t.nand == Some(s.snapshot))
      && (!lands || (s.worker != Formatting && s.worker != Migrating) ==> t.nand == s.nand)
  {
  }
}
