/** The small label assembler: forward jumps only, offsets worked out when the program is finished. */
module Assembler {
  import opened Bytes
  import opened Bpf

  /** An instruction as it is emitted: jumps name their targets. */
  datatype Row<L> =
    | Plain(op: Op, k: nat)
    | Jump(target: L)
    | Cond(op: Op, k: nat, yes: L, no: L)

  datatype Problem = DuplicateLabel | UnknownLabel | BackwardJump | JumpTooFar

  datatype Result<+T> = Ok(value: T) | Err(problem: Problem)

  predicate WellFormed<L>(r: Row<L>) {
    && (r.Plain? ==> r.op != Ja && r.op != JeqK && r.op != JgeK && r.op != JgeX)
    && (r.Cond? ==> r.op == JeqK || r.op == JgeK || r.op == JgeX)
  }

  /** The offset from position to a label; conditional offsets have eight bits. */
  function Resolve<L>(r: Row<L>, position: nat, labels: map<L, nat>): Result<Instr> {
    match r
    case Plain(op, k) => Ok(Instr(op, 0, 0, k))
    case Jump(t) =>
      if t !in labels then Err(UnknownLabel)
      else if labels[t] <= position then Err(BackwardJump)
      else Ok(Instr(Ja, 0, 0, labels[t] - position - 1))
    case Cond(op, k, yes, no) =>
      if yes !in labels || no !in labels then Err(UnknownLabel)
      else
        var jt, jf := labels[yes] - position - 1, labels[no] - position - 1;
        if 0 <= jt <= 255 && 0 <= jf <= 255 then Ok(Instr(op, jt, jf, k)) else Err(JumpTooFar)
  }

  /** A label that is known and behind the position, by at most so many instructions. */
  predicate Reachable<L>(name: L, position: nat, labels: map<L, nat>, most: nat) {
    name in labels && position + 1 <= labels[name] <= position + 1 + most
  }

  /**
   An instruction is accepted exactly if each label it names is known and lies ahead, for a conditional jump by at most
   255 instructions in between; its offsets then count those instructions, and any other operand is kept.
   */
  lemma ResolveExactly<L>(r: Row<L>, position: nat, labels: map<L, nat>)
    ensures match r
      case Plain(op, k) => Resolve(r, position, labels) == Ok(Instr(op, 0, 0, k))
      case Jump(t) =>
        && (Resolve(r, position, labels) == Err(UnknownLabel) <==> t !in labels)
        && (Resolve(r, position, labels).Ok? <==> t in labels && Reachable(t, position, labels, labels[t]))
        && (Resolve(r, position, labels).Ok? ==>
            Resolve(r, position, labels) == Ok(Instr(Ja, 0, 0, labels[t] - (position + 1))))
      case Cond(op, k, yes, no) =>
        && (Resolve(r, position, labels) == Err(UnknownLabel) <==> yes !in labels || no !in labels)
        && (Resolve(r, position, labels).Ok? <==>
            Reachable(yes, position, labels, 255) && Reachable(no, position, labels, 255))
        && (Resolve(r, position, labels).Ok? ==>
            var jt, jf := labels[yes] - (position + 1), labels[no] - (position + 1);
            Resolve(r, position, labels) == Ok(Instr(op, jt, jf, k)))
  {
  }

  predicate FirstProblem<L>(rows: seq<Row<L>>, labels: map<L, nat>, i: nat, problem: Problem)
    requires i < |rows|
  {
    Resolve(rows[i], i, labels) == Err(problem) && forall j :: 0 <= j < i ==> Resolve(rows[j], j, labels).Ok?
  }

  class Assembler<L(==)> {
    var rows: seq<Row<L>>
    var labels: map<L, nat>

    constructor ()
      ensures rows == [] && labels == map[]
    {
      rows, labels := [], map[];
    }

    method Label(name: L) returns (r: Result<()>)
      modifies this`labels
      ensures name in old(labels) ==> r == Err(DuplicateLabel) && labels == old(labels)
      ensures name !in old(labels) ==> r == Ok(()) && labels == old(labels)[name := |rows|]
    {
      if name in labels { return Err(DuplicateLabel); }
      labels := labels[name := |rows|];
      return Ok(());
    }

    method Emit(row: Row<L>)
      modifies this`rows
      ensures rows == old(rows) + [row]
    {
      rows := rows + [row];
    }

    /** The finished program, or the first problem found. */
    method Finish() returns (r: Result<seq<Instr>>)
      ensures r.Ok? ==>
        |r.value| == |rows| && forall i :: 0 <= i < |rows| ==> Resolve(rows[i], i, labels) == Ok(r.value[i])
      ensures r.Err? ==> exists i :: 0 <= i < |rows| && FirstProblem(rows, labels, i, r.problem)
    {
      var program: seq<Instr> := [];
      for position := 0 to |rows|
        invariant |program| == position
        invariant forall i :: 0 <= i < position ==> Resolve(rows[i], i, labels) == Ok(program[i])
      {
        var one := Resolve(rows[position], position, labels);
        if one.Err? {
          assert FirstProblem(rows, labels, position, one.problem);
          return Err(one.problem);
        }
        program := program + [one.value];
      }
      return Ok(program);
    }
  }

  // ----- the meaning of a labelled program

  /** One step of the labelled program: jumps go where their labels stand. */
  function ExecRow<L>(r: Row<L>, labels: map<L, nat>, s: Machine, p: Packet): Progress
    requires s.Valid()
    requires r.Jump? ==> r.target in labels
    requires r.Cond? ==> r.yes in labels && r.no in labels
  {
    match r
    case Plain(op, k) => Exec(Instr(op, 0, 0, k), s, p)
    case Jump(t) => Running(s.(pc := labels[t]))
    case Cond(op, k, yes, no) =>
      var taken := if op == JeqK then s.a == k else if op == JgeK then s.a >= k else s.a >= s.x;
      Running(s.(pc := if taken then labels[yes] else labels[no]))
  }

  predicate Assembled<L>(rows: seq<Row<L>>, labels: map<L, nat>, prog: seq<Instr>) {
    && |prog| == |rows|
    && forall i :: 0 <= i < |rows| ==> WellFormed(rows[i]) && Resolve(rows[i], i, labels) == Ok(prog[i])
  }

  /** The labelled program run for at most n instructions; None if it has not ended by then. */
  function RunRows<L>(rows: seq<Row<L>>, labels: map<L, nat>, s: Machine, p: Packet, n: nat): (v: Option<Verdict>)
    requires s.Valid()
    decreases n
  {
    if s.pc >= |rows| then Some(Verdict(0, s.reach))
    else if n == 0 then None
    else
      var r := rows[s.pc];
      if (r.Jump? && r.target !in labels) || (r.Cond? && (r.yes !in labels || r.no !in labels)) then None
      else match ExecRow(r, labels, s, p)
        case Halted(v) => Some(v)
        case Running(t) => if t.Valid() then RunRows(rows, labels, t, p, n - 1) else None
  }

  lemma StepPreserved<L>(rows: seq<Row<L>>, labels: map<L, nat>, prog: seq<Instr>, s: Machine, p: Packet)
    requires Assembled(rows, labels, prog) && s.Valid() && s.pc < |rows|
    ensures rows[s.pc].Jump? ==> rows[s.pc].target in labels
    ensures rows[s.pc].Cond? ==> rows[s.pc].yes in labels && rows[s.pc].no in labels
    ensures ExecRow(rows[s.pc], labels, s, p) == Exec(prog[s.pc], s, p)
  {
    assert WellFormed(rows[s.pc]) && Resolve(rows[s.pc], s.pc, labels) == Ok(prog[s.pc]);
  }

  lemma RowStep<L>(rows: seq<Row<L>>, labels: map<L, nat>, prog: seq<Instr>, s: Machine, p: Packet, n: nat)
    requires Assembled(rows, labels, prog) && s.Valid() && s.pc < |rows| && n > 0
    ensures var e := Exec(prog[s.pc], s, p);
      RunRows(rows, labels, s, p, n)
        == if e.Halted? then Some(e.verdict) else RunRows(rows, labels, e.machine, p, n - 1)
  {
    StepPreserved(rows, labels, prog, s, p);
  }

  lemma RunStep(prog: seq<Instr>, s: Machine, p: Packet)
    requires s.Valid() && s.pc < |prog|
    ensures var e := Exec(prog[s.pc], s, p);
      Run(prog, s, p) == if e.Halted? then e.verdict else Run(prog, e.machine, p)
  {
  }

  lemma PastEnd<L>(rows: seq<Row<L>>, labels: map<L, nat>, prog: seq<Instr>, s: Machine, p: Packet, n: nat)
    requires |rows| == |prog| <= s.pc && s.Valid()
    ensures RunRows(rows, labels, s, p, n) == Some(Run(prog, s, p))
  {
  }

  /**
   An accepted program means what its labelled rows mean, for every packet and from every state, and it ends
   within as many instructions as are left of it.
   */
  lemma {:induction false} FinishPreserves<L>(rows: seq<Row<L>>, labels: map<L, nat>, prog: seq<Instr>, s: Machine,
      p: Packet, n: nat)
    requires Assembled(rows, labels, prog) && s.Valid() && n + s.pc >= |prog|
    ensures RunRows(rows, labels, s, p, n) == Some(Run(prog, s, p))
    decreases n
  {
    if s.pc >= |prog| {
      PastEnd(rows, labels, prog, s, p, n);
    } else {
      RowStep(rows, labels, prog, s, p, n);
      RunStep(prog, s, p);
      var e := Exec(prog[s.pc], s, p);
      if e.Running? {
        FinishPreserves(rows, labels, prog, e.machine, p, n - 1);
      }
    }
  }
}
