/** The classic BPF machine, restricted to the instructions the header filter uses. */
module Bpf {
  import opened Bytes

  datatype Op =
    | LdImm | LdMem | LdxMem | St
    | LdBInd | LdHInd | LdWInd | LdHAbs | LdLen
    | AddK | AddX | AndK | LshK | RshK
    | Tax | Txa | JeqK | JgeK | JgeX | Ja | RetA | RetK

  datatype Instr = Instr(op: Op, jt: nat, jf: nat, k: nat)

  const WORD := 0x1_0000_0000
  const CELLS := 16

  /** reach is the end of the farthest byte loaded so far. */
  datatype Machine = Machine(pc: nat, a: u32, x: u32, mem: seq<u32>, reach: nat)
  {
    predicate Valid() { |mem| == CELLS }
  }

  datatype Verdict = Verdict(result: nat, reach: nat)

  datatype Progress = Running(machine: Machine) | Halted(verdict: Verdict)

  /** A captured frame and its length on the wire. */
  datatype Packet = Packet(frame: seq<byte>, wire: u32)

  function Start(): Machine {
    Machine(0, 0, 0, seq(CELLS, _ => 0), 0)
  }

  function Byte(f: seq<byte>, p: nat): (r: u32)
    requires p + 1 <= |f|
    ensures r < 0x100
  {
    f[p]
  }

  function Half(f: seq<byte>, p: nat): (r: u32)
    requires p + 2 <= |f|
    ensures r < 0x1_0000
  {
    var high, low: int := f[p], f[p + 1];
    0x100 * high + low
  }

  function Word(f: seq<byte>, p: nat): (r: u32)
    requires p + 4 <= |f|
  {
    var high, low: int := Half(f, p), Half(f, p + 2);
    0x1_0000 * high + low
  }

  /** Bitwise and. */
  function And(a: nat, b: nat): (r: nat)
    ensures r <= a && r <= b
  {
    if a == 0 || b == 0 then 0 else (if a % 2 == 1 && b % 2 == 1 then 1 else 0) + 2 * And(a / 2, b / 2)
  }

  function Shl(a: nat, k: nat): nat
    decreases k
  {
    if k == 0 then a else Shl(2 * a, k - 1)
  }

  function Shr(a: nat, k: nat): (r: nat)
    ensures r <= a
    decreases k
  {
    if k == 0 then a else Shr(a / 2, k - 1)
  }

  function Max(a: nat, b: nat): nat {
    if a < b then b else a
  }

  function Loaded(s: Machine, f: seq<byte>, p: nat, size: nat): (r: Progress)
    requires s.Valid() && (size == 1 || size == 2 || size == 4)
    ensures r.Running? ==> r.machine.Valid()
  {
    if p + size > |f| then Halted(Verdict(0, s.reach))
    else
      var v := if size == 1 then Byte(f, p) else if size == 2 then Half(f, p) else Word(f, p);
      Running(s.(pc := s.pc + 1, a := v, reach := Max(s.reach, p + size)))
  }

  function Branch(s: Machine, i: Instr, taken: bool): Progress {
    Running(s.(pc := s.pc + 1 + (if taken then i.jt else i.jf)))
  }

  function Next(s: Machine): Machine {
    s.(pc := s.pc + 1)
  }

  /** One instruction. An access outside memory or outside scratch memory rejects the packet. */
  function Exec(i: Instr, s: Machine, p: Packet): (r: Progress)
    requires s.Valid()
    ensures r.Running? ==> r.machine.Valid() && r.machine.pc > s.pc
  {
    match i.op
    case LdImm => Running(Next(s).(a := i.k % WORD))
    case LdMem => if i.k < CELLS then Running(Next(s).(a := s.mem[i.k])) else Halted(Verdict(0, s.reach))
    case LdxMem => if i.k < CELLS then Running(Next(s).(x := s.mem[i.k])) else Halted(Verdict(0, s.reach))
    case St => if i.k < CELLS then Running(Next(s).(mem := s.mem[i.k := s.a])) else Halted(Verdict(0, s.reach))
    case LdBInd => Loaded(s, p.frame, s.x + i.k, 1)
    case LdHInd => Loaded(s, p.frame, s.x + i.k, 2)
    case LdWInd => Loaded(s, p.frame, s.x + i.k, 4)
    case LdHAbs => Loaded(s, p.frame, i.k, 2)
    case LdLen => Running(Next(s).(a := p.wire))
    case AddK => Running(Next(s).(a := (s.a + i.k) % WORD))
    case AddX => Running(Next(s).(a := (s.a + s.x) % WORD))
    case AndK => Running(Next(s).(a := And(s.a, i.k)))
    case LshK => Running(Next(s).(a := Shl(s.a, i.k) % WORD))
    case RshK => Running(Next(s).(a := Shr(s.a, i.k)))
    case Tax => Running(Next(s).(x := s.a))
    case Txa => Running(Next(s).(a := s.x))
    case JeqK => Branch(s, i, s.a == i.k)
    case JgeK => Branch(s, i, s.a >= i.k)
    case JgeX => Branch(s, i, s.a >= s.x)
    case Ja => Running(s.(pc := s.pc + 1 + i.k))
    case RetA => Halted(Verdict(s.a, s.reach))
    case RetK => Halted(Verdict(i.k, s.reach))
  }

  /** Runs to the end; falling off the end rejects. Every instruction moves forward, so this ends. */
  function Run(prog: seq<Instr>, s: Machine, p: Packet): Verdict
    requires s.Valid()
    decreases |prog| - s.pc
  {
    if s.pc >= |prog| then Verdict(0, s.reach) else
      match Exec(prog[s.pc], s, p)
      case Halted(v) => v
      case Running(t) => Run(prog, t, p)
  }

  function Filter(prog: seq<Instr>, p: Packet): Verdict {
    Run(prog, Start(), p)
  }

  // ----- masks and shifts

  lemma AndOdd(a: nat, b: nat)
    ensures And(a, 2 * b + 1) == a % 2 + 2 * And(a / 2, b)
  {
    assert (2 * b + 1) % 2 == 1 && (2 * b + 1) / 2 == b;
  }

  lemma {:induction false} AndMask(a: nat, n: nat)
    ensures And(a, Pow(n) - 1) == a % Pow(n)
    decreases n
  {
    if n > 0 {
      AndMask(a / 2, n - 1);
      AndOdd(a, Pow(n - 1) - 1);
      HalfMod(a, Pow(n - 1));
    }
  }

  function Pow(n: nat): (r: nat)
    ensures r > 0
  {
    if n == 0 then 1 else 2 * Pow(n - 1)
  }

  lemma HalfMod(a: nat, d: nat)
    requires d > 0
    ensures a % (2 * d) == 2 * (a / 2 % d) + a % 2
  {
    var q, r := a / 2 / d, a / 2 % d;
    assert a / 2 == d * q + r;
    assert 2 * (d * q) == (2 * d) * q;
    DivModUnique(a, 2 * d, q, 2 * r + a % 2);
  }

  lemma LowNibble(a: nat)
    ensures And(a, 15) == a % 16
  {
    AndMask(a, 4);
    assert Pow(4) == 16;
  }

  lemma HighNibble(a: nat)
    ensures And(a, 0xF0) == a / 16 % 16 * 16
  {
    var a1, a2, a3, a4 := a / 2, a / 4, a / 8, a / 16;
    AndDouble(a, 120);
    AndDouble(a1, 60);
    AndDouble(a2, 30);
    AndDouble(a3, 15);
    assert a1 / 2 == a2 && a2 / 2 == a3 && a3 / 2 == a4;
    LowNibble(a4);
  }

  lemma AndDouble(a: nat, b: nat)
    ensures And(a, 2 * b) == 2 * And(a / 2, b)
  {
    assert 2 * b % 2 == 0 && 2 * b / 2 == b;
  }

  lemma FragmentBits(a: nat)
    ensures And(a, 0x3FFF) == a % 0x4000
  {
    AndMask(a, 14);
    assert Pow(7) == 128 && Pow(14) == 128 * Pow(7) by {
      assert Pow(4) == 16;
      assert Pow(10) == 1024 by { assert Pow(7) == 128; }
    }
  }

  lemma ShiftByTwo(a: nat)
    ensures Shl(a, 2) == 4 * a && Shr(a, 2) == a / 4
  {
    assert Shl(2 * (2 * a), 0) == 4 * a;
    assert Shr(a / 2 / 2, 0) == a / 4;
  }

  lemma NibbleShift(h: nat, a: nat)
    requires h < 16 && a == h * 16
    ensures Shr(a, 2) == h * 4 && h % 16 == h
  {
    ShiftByTwo(a);
  }

  /** A high nibble taken as a count of four-byte words. */
  lemma NibbleWords(v: nat)
    requires v < 256
    ensures And(v, 0xF0) == v / 16 * 16 && Shr(v / 16 * 16, 2) == v / 16 * 4
  {
    HighNibble(v);
    NibbleShift(v / 16, v / 16 * 16);
  }
}
