/**
 What the assembled filter does with every packet: block by block, the machine computes a decision that is
 written here without the machine.
 */
module FilterMeaning {
  import opened Bpf
  import opened HeaderFilter

  // ----- the decision

  function PortsKeep(p: Packet, c: Config, base: nat, outbound: bool): nat {
    if base + 20 > |p.frame| then 0
    else if Half(p.frame, if outbound then base else base + 2) == c.port then base + 20 else 0
  }

  function RoomKeeps(p: Packet, c: Config, base: nat, need: nat, outbound: bool): nat {
    if p.wire >= need then PortsKeep(p, c, base, outbound) else 0
  }

  function LengthsKeep(p: Packet, c: Config, l: nat, h: nat, total: nat, th: nat, outbound: bool): nat {
    if total == 0 then RoomKeeps(p, c, l + h, l + h + th, outbound)
    else if total >= h + th then RoomKeeps(p, c, l + h, l + total, outbound) else 0
  }

  function TcpKeeps(p: Packet, c: Config, l: nat, h: nat, total: nat, outbound: bool): nat {
    if l + h + 13 > |p.frame| then 0
    else
      var th := Byte(p.frame, l + h + 12) / 16 * 4;
      if th >= 20 then LengthsKeep(p, c, l, h, total, th, outbound) else 0
  }

  function PeersKeep(p: Packet, c: Config, l: nat, h: nat, total: nat): nat {
    if l + 20 > |p.frame| then 0
    else
      var src, dst := Word(p.frame, l + 12), Word(p.frame, l + 16);
      if src == c.local && dst == c.peer then TcpKeeps(p, c, l, h, total, true)
      else if src != c.local && src == c.peer && dst == c.local then TcpKeeps(p, c, l, h, total, false)
      else 0
  }

  function SourceKeeps(p: Packet, c: Config, l: nat, h: nat, total: nat): nat {
    if l + 10 > |p.frame| || Byte(p.frame, l + 9) != 6 then 0 else PeersKeep(p, c, l, h, total)
  }

  function FieldsKeep(p: Packet, c: Config, l: nat, h: nat): nat {
    if l + 8 > |p.frame| || Half(p.frame, l + 6) % 0x4000 != 0 then 0
    else SourceKeeps(p, c, l, h, Half(p.frame, l + 2))
  }

  predicate LengthAllowed(ihl: nat, narrow: bool) {
    if narrow then ihl == 5 else ihl >= 5
  }

  function IpKeeps(p: Packet, c: Config, l: nat, narrow: bool): nat {
    if l + 1 > |p.frame| then 0
    else
      var v := Byte(p.frame, l);
      if v / 16 == 4 && LengthAllowed(v % 16, narrow) then FieldsKeep(p, c, l, 4 * (v % 16)) else 0
  }

  predicate IsTag(e: nat) {
    e == 0x8100 || e == 0x88A8
  }

  /** From the type field at position l - 2; tags is how many more tags may follow. */
  function EtherKeeps(p: Packet, c: Config, l: nat, tags: nat, narrow: bool): nat
    requires l >= 2
    decreases tags
  {
    if l > |p.frame| then 0
    else
      var e := Half(p.frame, l - 2);
      if e == 0x0800 then IpKeeps(p, c, l, narrow)
      else if IsTag(e) && tags > 0 then EtherKeeps(p, c, l + 4, tags - 1, narrow)
      else 0
  }

  /** How many bytes of the packet the filter keeps; zero drops it. */
  function Decision(p: Packet, c: Config, narrow: bool): nat {
    EtherKeeps(p, c, 14, 2, narrow)
  }

  // ----- the program, block by block

  function IhlTest(narrow: bool): Op {
    if narrow then JeqK else JgeK
  }

  /** The finished filter, or the same with its one header length test changed to equality. */
  predicate IsFilter(prog: seq<Instr>, c: Config, narrow: bool) {
    && |prog| == ROWS
    && (forall i :: 0 <= i < ROWS && i != IHL_ROW ==> prog[i] == InstrAt(i, c))
    && prog[IHL_ROW] == InstrAt(IHL_ROW, c).(op := IhlTest(narrow))
  }

  predicate EtherCode(prog: seq<Instr>) {
    && |prog| == ROWS
    && prog[0] == Instr(LdHAbs, 0, 0, 12)
    && prog[1] == Instr(JeqK, 8, 0, 0x0800)
    && prog[2] == Instr(JeqK, 1, 0, 0x8100)
    && prog[3] == Instr(JeqK, 0, 82, 0x88A8)
  }

  predicate VlanCode(prog: seq<Instr>) {
    && |prog| == ROWS
    && prog[4] == Instr(LdHAbs, 0, 0, 16)
    && prog[5] == Instr(JeqK, 7, 0, 0x0800)
    && prog[6] == Instr(JeqK, 1, 0, 0x8100)
    && prog[7] == Instr(JeqK, 0, 78, 0x88A8)
  }

  predicate Vlan2Code(prog: seq<Instr>) {
    && |prog| == ROWS
    && prog[8] == Instr(LdHAbs, 0, 0, 20)
    && prog[9] == Instr(JeqK, 6, 76, 0x0800)
  }

  predicate BaseCode(prog: seq<Instr>) {
    && |prog| == ROWS
    && prog[10] == Instr(LdImm, 0, 0, 14)
    && prog[11] == Instr(St, 0, 0, 0)
    && prog[12] == Instr(Ja, 0, 0, 6)
    && prog[13] == Instr(LdImm, 0, 0, 18)
    && prog[14] == Instr(St, 0, 0, 0)
    && prog[15] == Instr(Ja, 0, 0, 3)
    && prog[16] == Instr(LdImm, 0, 0, 22)
    && prog[17] == Instr(St, 0, 0, 0)
    && prog[18] == Instr(Ja, 0, 0, 0)
  }

  predicate VersionCode(prog: seq<Instr>, narrow: bool) {
    && |prog| == ROWS
    && prog[19] == Instr(LdxMem, 0, 0, 0)
    && prog[20] == Instr(LdBInd, 0, 0, 0)
    && prog[21] == Instr(AndK, 0, 0, 0xF0)
    && prog[22] == Instr(JeqK, 0, 63, 0x40)
    && prog[23] == Instr(LdBInd, 0, 0, 0)
    && prog[24] == Instr(AndK, 0, 0, 15)
    && prog[25] == Instr(IhlTest(narrow), 0, 60, 5)
  }

  predicate FieldsCode(prog: seq<Instr>) {
    && |prog| == ROWS
    && prog[26] == Instr(LshK, 0, 0, 2)
    && prog[27] == Instr(St, 0, 0, 1)
    && prog[28] == Instr(LdHInd, 0, 0, 2)
    && prog[29] == Instr(St, 0, 0, 2)
    && prog[30] == Instr(LdHInd, 0, 0, 6)
    && prog[31] == Instr(AndK, 0, 0, 0x3FFF)
    && prog[32] == Instr(JeqK, 0, 53, 0)
  }

  predicate SourceCode(prog: seq<Instr>, c: Config) {
    && |prog| == ROWS
    && prog[33] == Instr(LdBInd, 0, 0, 9)
    && prog[34] == Instr(JeqK, 0, 51, 6)
    && prog[35] == Instr(LdWInd, 0, 0, 12)
    && prog[36] == Instr(JeqK, 1, 0, c.local)
    && prog[37] == Instr(JeqK, 5, 48, c.peer)
  }

  predicate PeerCode(prog: seq<Instr>, c: Config) {
    && |prog| == ROWS
    && prog[38] == Instr(LdWInd, 0, 0, 16)
    && prog[39] == Instr(JeqK, 0, 46, c.peer)
    && prog[40] == Instr(LdImm, 0, 0, 1)
    && prog[41] == Instr(St, 0, 0, 3)
    && prog[42] == Instr(Ja, 0, 0, 4)
    && prog[43] == Instr(LdWInd, 0, 0, 16)
    && prog[44] == Instr(JeqK, 0, 41, c.local)
    && prog[45] == Instr(LdImm, 0, 0, 2)
    && prog[46] == Instr(St, 0, 0, 3)
  }

  predicate TcpCode(prog: seq<Instr>) {
    && |prog| == ROWS
    && prog[47] == Instr(LdMem, 0, 0, 0)
    && prog[48] == Instr(LdxMem, 0, 0, 1)
    && prog[49] == Instr(AddX, 0, 0, 0)
    && prog[50] == Instr(Tax, 0, 0, 0)
    && prog[51] == Instr(LdBInd, 0, 0, 12)
    && prog[52] == Instr(AndK, 0, 0, 0xF0)
    && prog[53] == Instr(RshK, 0, 0, 2)
    && prog[54] == Instr(JgeK, 0, 31, 20)
  }

  predicate TotalCode(prog: seq<Instr>) {
    && |prog| == ROWS
    && prog[55] == Instr(St, 0, 0, 4)
    && prog[56] == Instr(LdxMem, 0, 0, 1)
    && prog[57] == Instr(AddX, 0, 0, 0)
    && prog[58] == Instr(Tax, 0, 0, 0)
    && prog[59] == Instr(LdMem, 0, 0, 2)
    && prog[60] == Instr(JeqK, 6, 0, 0)
    && prog[61] == Instr(JgeX, 0, 24, 0)
  }

  predicate NeedCode(prog: seq<Instr>) {
    && |prog| == ROWS
    && prog[62] == Instr(LdMem, 0, 0, 0)
    && prog[63] == Instr(LdxMem, 0, 0, 2)
    && prog[64] == Instr(AddX, 0, 0, 0)
    && prog[65] == Instr(Tax, 0, 0, 0)
    && prog[66] == Instr(Ja, 0, 0, 3)
    && prog[67] == Instr(LdMem, 0, 0, 0)
    && prog[68] == Instr(AddX, 0, 0, 0)
    && prog[69] == Instr(Tax, 0, 0, 0)
    && prog[70] == Instr(LdLen, 0, 0, 0)
    && prog[71] == Instr(JgeX, 0, 14, 0)
  }

  predicate EndCode(prog: seq<Instr>) {
    && |prog| == ROWS
    && prog[72] == Instr(LdMem, 0, 0, 0)
    && prog[73] == Instr(LdxMem, 0, 0, 1)
    && prog[74] == Instr(AddX, 0, 0, 0)
    && prog[75] == Instr(Tax, 0, 0, 0)
    && prog[76] == Instr(LdBInd, 0, 0, 19)
    && prog[77] == Instr(LdMem, 0, 0, 3)
    && prog[78] == Instr(JeqK, 0, 2, 1)
  }

  predicate PortCode(prog: seq<Instr>, c: Config) {
    && |prog| == ROWS
    && prog[79] == Instr(LdHInd, 0, 0, 0)
    && prog[80] == Instr(JeqK, 2, 5, c.port)
    && prog[81] == Instr(LdHInd, 0, 0, 2)
    && prog[82] == Instr(JeqK, 0, 3, c.port)
    && prog[83] == Instr(Txa, 0, 0, 0)
    && prog[84] == Instr(AddK, 0, 0, 20)
    && prog[85] == Instr(RetA, 0, 0, 0)
  }

  predicate RejectCode(prog: seq<Instr>) {
    && |prog| == ROWS
    && prog[86] == Instr(RetK, 0, 0, 0)
  }

  // ----- running the blocks

  /** The run from s gives r, and what was loaded to accept lies within the bytes kept. */
  predicate Gives(prog: seq<Instr>, s: Machine, p: Packet, r: nat)
    requires s.Valid()
  {
    var v := Run(prog, s, p);
    v.result == r && (r > 0 ==> v.reach <= r)
  }

  lemma Go(prog: seq<Instr>, s: Machine, p: Packet, t: Machine)
    requires s.Valid() && s.pc < |prog| && Exec(prog[s.pc], s, p) == Running(t)
    ensures Run(prog, s, p) == Run(prog, t, p)
  {
  }

  lemma Stop(prog: seq<Instr>, s: Machine, p: Packet)
    requires s.Valid() && s.pc < |prog| && Exec(prog[s.pc], s, p).Halted?
    ensures Run(prog, s, p) == Exec(prog[s.pc], s, p).verdict
  {
  }

  lemma Rejects(prog: seq<Instr>, s: Machine, p: Packet)
    requires RejectCode(prog) && s.Valid() && s.pc == 86
    ensures Gives(prog, s, p, 0)
  {
    Stop(prog, s, p);
  }

  lemma RunPorts(prog: seq<Instr>, c: Config, s: Machine, p: Packet, l: nat, h: nat, outbound: bool)
    requires EndCode(prog) && PortCode(prog, c) && RejectCode(prog)
    requires s.Valid() && s.pc == 72 && l <= 22 && h <= 60 && s.reach <= l + h + 20
    requires s.mem[0] == l && s.mem[1] == h && s.mem[3] == (if outbound then 1 else 2)
    ensures Gives(prog, s, p, PortsKeep(p, c, l + h, outbound))
  {
    var s3 := s.(pc := 73, a := l);
    Go(prog, s, p, s3);
    var s4 := s3.(pc := 74, x := h);
    Go(prog, s3, p, s4);
    var s5 := s4.(pc := 75, a := l + h);
    Go(prog, s4, p, s5);
    var s6 := s5.(pc := 76, x := l + h);
    Go(prog, s5, p, s6);
    if l + h + 20 > |p.frame| {
      Stop(prog, s6, p);
    } else {
      var s7 := s6.(pc := 77, a := Byte(p.frame, l + h + 19), reach := Max(s.reach, l + h + 20));
      Go(prog, s6, p, s7);
      var s8 := s7.(pc := 78, a := s.mem[3]);
      Go(prog, s7, p, s8);
      var s9 := s8.(pc := if outbound then 79 else 81);
      Go(prog, s8, p, s9);
      RunPort(prog, c, s9, p, l + h, outbound);
    }
  }

  /** Base and twenty header bytes more are kept. */
  lemma Accepts(prog: seq<Instr>, c: Config, s: Machine, p: Packet, base: nat)
    requires PortCode(prog, c) && s.Valid() && s.pc == 83 && s.x == base && base <= 82 && s.reach <= base + 20
    ensures Gives(prog, s, p, base + 20)
  {
    var s1 := s.(pc := 84, a := base);
    Go(prog, s, p, s1);
    var s2 := s1.(pc := 85, a := base + 20);
    Go(prog, s1, p, s2);
    Stop(prog, s2, p);
  }

  lemma RunPort(prog: seq<Instr>, c: Config, s: Machine, p: Packet, base: nat, outbound: bool)
    requires PortCode(prog, c) && RejectCode(prog)
    requires s.Valid() && s.pc == (if outbound then 79 else 81) && s.x == base && base <= 82 && s.reach <= base + 20
    requires base + 20 <= |p.frame|
    ensures Gives(prog, s, p, PortsKeep(p, c, base, outbound))
  {
    var at := if outbound then base else base + 2;
    var v := Half(p.frame, at);
    var t := s.(pc := s.pc + 1, a := v, reach := Max(s.reach, at + 2));
    Go(prog, s, p, t);
    if v == c.port {
      Go(prog, t, p, t.(pc := 83));
      Accepts(prog, c, t.(pc := 83), p, base);
    } else {
      Go(prog, t, p, t.(pc := 86));
      Rejects(prog, t.(pc := 86), p);
    }
  }

  lemma RunRoom(prog: seq<Instr>, c: Config, s: Machine, p: Packet, l: nat, h: nat, need: nat, outbound: bool)
    requires NeedCode(prog) && EndCode(prog) && PortCode(prog, c) && RejectCode(prog)
    requires s.Valid() && s.pc == 70 && s.x == need && l <= 22 && h <= 60 && s.reach <= l + h + 20
    requires s.mem[0] == l && s.mem[1] == h && s.mem[3] == (if outbound then 1 else 2)
    ensures Gives(prog, s, p, RoomKeeps(p, c, l + h, need, outbound))
  {
    var t := s.(pc := 71, a := p.wire);
    Go(prog, s, p, t);
    if p.wire >= need {
      Go(prog, t, p, t.(pc := 72));
      RunPorts(prog, c, t.(pc := 72), p, l, h, outbound);
    } else {
      Go(prog, t, p, t.(pc := 86));
      Rejects(prog, t.(pc := 86), p);
    }
  }

  lemma RunNeed(prog: seq<Instr>, c: Config, s: Machine, p: Packet, l: nat, h: nat, total: nat, hl: nat, outbound: bool)
    requires NeedCode(prog) && EndCode(prog) && PortCode(prog, c) && RejectCode(prog)
    requires s.Valid() && s.pc == (if total == 0 then 67 else 62) && l <= 22 && h <= 60 && s.reach <= l + h + 20
    requires s.mem[0] == l && s.mem[1] == h && s.mem[2] == total && s.mem[3] == (if outbound then 1 else 2)
    requires total < 0x1_0000 && (total == 0 ==> s.x == hl && hl <= 120)
    ensures Gives(prog, s, p, RoomKeeps(p, c, l + h, if total == 0 then l + hl else l + total, outbound))
  {
    if total == 0 {
      var t := s.(pc := 68, a := l);
      Go(prog, s, p, t);
      var t1 := t.(pc := 69, a := l + hl);
      Go(prog, t, p, t1);
      var t2 := t1.(pc := 70, x := l + hl);
      Go(prog, t1, p, t2);
      RunRoom(prog, c, t2, p, l, h, l + hl, outbound);
    } else {
      var t := s.(pc := 63, a := l);
      Go(prog, s, p, t);
      var t1 := t.(pc := 64, x := total);
      Go(prog, t, p, t1);
      var t2 := t1.(pc := 65, a := l + total);
      Go(prog, t1, p, t2);
      var t3 := t2.(pc := 66, x := l + total);
      Go(prog, t2, p, t3);
      Go(prog, t3, p, t3.(pc := 70));
      RunRoom(prog, c, t3.(pc := 70), p, l, h, l + total, outbound);
    }
  }

  lemma RunLengths(prog: seq<Instr>, c: Config, s: Machine, p: Packet, l: nat, h: nat, total: nat, th: nat,
      outbound: bool)
    requires TotalCode(prog) && NeedCode(prog) && EndCode(prog) && PortCode(prog, c) && RejectCode(prog)
    requires s.Valid() && s.pc == 55 && s.a == th && th <= 60 && l <= 22 && h <= 60 && s.reach <= l + h + 20
    requires s.mem[0] == l && s.mem[1] == h && s.mem[2] == total && s.mem[3] == (if outbound then 1 else 2)
    requires total < 0x1_0000
    ensures Gives(prog, s, p, LengthsKeep(p, c, l, h, total, th, outbound))
  {
    var t := s.(pc := 56, mem := s.mem[4 := th]);
    Go(prog, s, p, t);
    var t1 := t.(pc := 57, x := h);
    Go(prog, t, p, t1);
    var t2 := t1.(pc := 58, a := th + h);
    Go(prog, t1, p, t2);
    var t3 := t2.(pc := 59, x := th + h);
    Go(prog, t2, p, t3);
    var t4 := t3.(pc := 60, a := total);
    Go(prog, t3, p, t4);
    if total == 0 {
      Go(prog, t4, p, t4.(pc := 67));
      RunNeed(prog, c, t4.(pc := 67), p, l, h, total, th + h, outbound);
    } else {
      var t5 := t4.(pc := 61);
      Go(prog, t4, p, t5);
      if total >= th + h {
        Go(prog, t5, p, t5.(pc := 62));
        RunNeed(prog, c, t5.(pc := 62), p, l, h, total, th + h, outbound);
      } else {
        Go(prog, t5, p, t5.(pc := 86));
        Rejects(prog, t5.(pc := 86), p);
      }
    }
  }

  predicate TailCode(prog: seq<Instr>, c: Config) {
    TcpCode(prog) && TotalCode(prog) && NeedCode(prog) && EndCode(prog) && PortCode(prog, c) && RejectCode(prog)
  }

  lemma RunTcp(prog: seq<Instr>, c: Config, s: Machine, p: Packet, l: nat, h: nat, total: nat, outbound: bool)
    requires TailCode(prog, c)
    requires s.Valid() && s.pc == 47 && l <= 22 && h <= 60 && s.reach <= l + h
    requires s.mem[0] == l && s.mem[1] == h && s.mem[2] == total && s.mem[3] == (if outbound then 1 else 2)
    requires total < 0x1_0000
    ensures Gives(prog, s, p, TcpKeeps(p, c, l, h, total, outbound))
  {
    var t := s.(pc := 48, a := l);
    Go(prog, s, p, t);
    var t1 := t.(pc := 49, x := h);
    Go(prog, t, p, t1);
    var t2 := t1.(pc := 50, a := l + h);
    Go(prog, t1, p, t2);
    var t3 := t2.(pc := 51, x := l + h);
    Go(prog, t2, p, t3);
    if l + h + 13 > |p.frame| {
      Stop(prog, t3, p);
    } else {
      var b := Byte(p.frame, l + h + 12);
      var t4 := t3.(pc := 52, a := b, reach := Max(s.reach, l + h + 13));
      Go(prog, t3, p, t4);
      RunDataOffset(prog, c, t4, p, l, h, total, b, outbound);
    }
  }

  lemma RunDataOffset(prog: seq<Instr>, c: Config, s: Machine, p: Packet, l: nat, h: nat, total: nat, b: nat,
      outbound: bool)
    requires TailCode(prog, c)
    requires s.Valid() && s.pc == 52 && s.a == b < 256 && l <= 22 && h <= 60 && s.reach <= l + h + 20
    requires s.mem[0] == l && s.mem[1] == h && s.mem[2] == total && s.mem[3] == (if outbound then 1 else 2)
    requires total < 0x1_0000
    ensures Gives(prog, s, p, if b / 16 * 4 >= 20 then LengthsKeep(p, c, l, h, total, b / 16 * 4, outbound) else 0)
  {
    NibbleWords(b);
    var t := s.(pc := 53, a := b / 16 * 16);
    Go(prog, s, p, t);
    var t1 := t.(pc := 54, a := b / 16 * 4);
    Go(prog, t, p, t1);
    if b / 16 * 4 >= 20 {
      Go(prog, t1, p, t1.(pc := 55));
      RunLengths(prog, c, t1.(pc := 55), p, l, h, total, b / 16 * 4, outbound);
    } else {
      Go(prog, t1, p, t1.(pc := 86));
      Rejects(prog, t1.(pc := 86), p);
    }
  }

  /** From the comparison of the destination address to the TCP header, one direction at a time. */
  lemma RunDestination(prog: seq<Instr>, c: Config, s: Machine, p: Packet, l: nat, h: nat, total: nat, outbound: bool)
    requires PeerCode(prog, c) && TailCode(prog, c)
    requires s.Valid() && s.pc == (if outbound then 38 else 43) && s.x == l && l <= 22 && 20 <= h <= 60
    requires s.reach <= l + 20
    requires s.mem[0] == l && s.mem[1] == h && s.mem[2] == total && total < 0x1_0000
    ensures Gives(prog, s, p,
      if l + 20 <= |p.frame| && Word(p.frame, l + 16) == (if outbound then c.peer else c.local)
      then TcpKeeps(p, c, l, h, total, outbound) else 0)
  {
    if l + 20 > |p.frame| {
      Stop(prog, s, p);
    } else {
      var dst := Word(p.frame, l + 16);
      var t := s.(pc := s.pc + 1, a := dst, reach := Max(s.reach, l + 20));
      Go(prog, s, p, t);
      if dst == (if outbound then c.peer else c.local) {
        var d := if outbound then 1 else 2;
        var t1 := t.(pc := t.pc + 1);
        Go(prog, t, p, t1);
        var t2 := t1.(pc := t1.pc + 1, a := d);
        Go(prog, t1, p, t2);
        var t3 := t2.(pc := t2.pc + 1, mem := s.mem[3 := d]);
        Go(prog, t2, p, t3);
        if outbound { Go(prog, t3, p, t3.(pc := 47)); }
        RunTcp(prog, c, t3.(pc := 47), p, l, h, total, outbound);
      } else {
        Go(prog, t, p, t.(pc := 86));
        Rejects(prog, t.(pc := 86), p);
      }
    }
  }

  lemma RunSource(prog: seq<Instr>, c: Config, s: Machine, p: Packet, l: nat, h: nat, total: nat)
    requires SourceCode(prog, c) && PeerCode(prog, c) && TailCode(prog, c)
    requires s.Valid() && s.pc == 33 && s.x == l && l <= 22 && 20 <= h <= 60 && s.reach <= l + 20
    requires s.mem[0] == l && s.mem[1] == h && s.mem[2] == total && total < 0x1_0000
    ensures Gives(prog, s, p, SourceKeeps(p, c, l, h, total))
  {
    if l + 10 > |p.frame| {
      Stop(prog, s, p);
    } else {
      var proto := Byte(p.frame, l + 9);
      var t := s.(pc := 34, a := proto, reach := Max(s.reach, l + 10));
      Go(prog, s, p, t);
      if proto != 6 {
        Go(prog, t, p, t.(pc := 86));
        Rejects(prog, t.(pc := 86), p);
      } else {
        Go(prog, t, p, t.(pc := 35));
        RunPeers(prog, c, t.(pc := 35), p, l, h, total);
      }
    }
  }

  lemma RunPeers(prog: seq<Instr>, c: Config, s: Machine, p: Packet, l: nat, h: nat, total: nat)
    requires SourceCode(prog, c) && PeerCode(prog, c) && TailCode(prog, c)
    requires s.Valid() && s.pc == 35 && s.x == l && l <= 22 && 20 <= h <= 60 && s.reach <= l + 20
    requires s.mem[0] == l && s.mem[1] == h && s.mem[2] == total && total < 0x1_0000
    ensures Gives(prog, s, p, PeersKeep(p, c, l, h, total))
  {
    if l + 16 > |p.frame| {
      Stop(prog, s, p);
    } else {
      var src := Word(p.frame, l + 12);
      var t := s.(pc := 36, a := src, reach := Max(s.reach, l + 16));
      Go(prog, s, p, t);
      if src == c.local {
        Go(prog, t, p, t.(pc := 38));
        RunDestination(prog, c, t.(pc := 38), p, l, h, total, true);
      } else {
        var t1 := t.(pc := 37);
        Go(prog, t, p, t1);
        if src == c.peer {
          Go(prog, t1, p, t1.(pc := 43));
          RunDestination(prog, c, t1.(pc := 43), p, l, h, total, false);
        } else {
          Go(prog, t1, p, t1.(pc := 86));
          Rejects(prog, t1.(pc := 86), p);
        }
      }
    }
  }

  predicate BodyCode(prog: seq<Instr>, c: Config) {
    FieldsCode(prog) && SourceCode(prog, c) && PeerCode(prog, c) && TailCode(prog, c)
  }

  lemma RunFields(prog: seq<Instr>, c: Config, s: Machine, p: Packet, l: nat, ihl: nat)
    requires BodyCode(prog, c)
    requires s.Valid() && s.pc == 26 && s.a == ihl && 5 <= ihl <= 15 && s.x == l && l <= 22 && s.reach <= l + 20
    requires s.mem[0] == l
    ensures Gives(prog, s, p, FieldsKeep(p, c, l, 4 * ihl))
  {
    ShiftByTwo(ihl);
    var t := s.(pc := 27, a := 4 * ihl);
    Go(prog, s, p, t);
    var t1 := t.(pc := 28, mem := s.mem[1 := 4 * ihl]);
    Go(prog, t, p, t1);
    if l + 4 > |p.frame| {
      Stop(prog, t1, p);
    } else {
      var total := Half(p.frame, l + 2);
      var t2 := t1.(pc := 29, a := total, reach := Max(s.reach, l + 4));
      Go(prog, t1, p, t2);
      var t3 := t2.(pc := 30, mem := t2.mem[2 := total]);
      Go(prog, t2, p, t3);
      RunFragment(prog, c, t3, p, l, 4 * ihl, total);
    }
  }

  lemma RunFragment(prog: seq<Instr>, c: Config, s: Machine, p: Packet, l: nat, h: nat, total: nat)
    requires BodyCode(prog, c)
    requires s.Valid() && s.pc == 30 && s.x == l && l <= 22 && 20 <= h <= 60 && s.reach <= l + 20
    requires s.mem[0] == l && s.mem[1] == h && s.mem[2] == total && total < 0x1_0000
    ensures Gives(prog, s, p,
      if l + 8 > |p.frame| || Half(p.frame, l + 6) % 0x4000 != 0 then 0 else SourceKeeps(p, c, l, h, total))
  {
    if l + 8 > |p.frame| {
      Stop(prog, s, p);
    } else {
      var v := Half(p.frame, l + 6);
      var t := s.(pc := 31, a := v, reach := Max(s.reach, l + 8));
      Go(prog, s, p, t);
      FragmentBits(v);
      var t1 := t.(pc := 32, a := v % 0x4000);
      Go(prog, t, p, t1);
      if v % 0x4000 == 0 {
        Go(prog, t1, p, t1.(pc := 33));
        RunSource(prog, c, t1.(pc := 33), p, l, h, total);
      } else {
        Go(prog, t1, p, t1.(pc := 86));
        Rejects(prog, t1.(pc := 86), p);
      }
    }
  }

  lemma RunIp(prog: seq<Instr>, c: Config, s: Machine, p: Packet, l: nat, narrow: bool)
    requires VersionCode(prog, narrow) && BodyCode(prog, c)
    requires s.Valid() && s.pc == 19 && s.mem[0] == l && l <= 22 && s.reach <= l
    ensures Gives(prog, s, p, IpKeeps(p, c, l, narrow))
  {
    var t := s.(pc := 20, x := l);
    Go(prog, s, p, t);
    if l + 1 > |p.frame| {
      Stop(prog, t, p);
    } else {
      var v := Byte(p.frame, l);
      var t1 := t.(pc := 21, a := v, reach := l + 1);
      Go(prog, t, p, t1);
      NibbleWords(v);
      var t2 := t1.(pc := 22, a := v / 16 * 16);
      Go(prog, t1, p, t2);
      if v / 16 == 4 {
        Go(prog, t2, p, t2.(pc := 23));
        RunIhl(prog, c, t2.(pc := 23), p, l, narrow);
      } else {
        Go(prog, t2, p, t2.(pc := 86));
        Rejects(prog, t2.(pc := 86), p);
      }
    }
  }

  lemma RunIhl(prog: seq<Instr>, c: Config, s: Machine, p: Packet, l: nat, narrow: bool)
    requires VersionCode(prog, narrow) && BodyCode(prog, c)
    requires s.Valid() && s.pc == 23 && s.mem[0] == l && s.x == l && l <= 22 && s.reach == l + 1 <= |p.frame|
    ensures var ihl := Byte(p.frame, l) % 16;
      Gives(prog, s, p, if LengthAllowed(ihl, narrow) then FieldsKeep(p, c, l, 4 * ihl) else 0)
  {
    var v := Byte(p.frame, l);
    var t := s.(pc := 24, a := v);
    Go(prog, s, p, t);
    LowNibble(v);
    var t1 := t.(pc := 25, a := v % 16);
    Go(prog, t, p, t1);
    if LengthAllowed(v % 16, narrow) {
      Go(prog, t1, p, t1.(pc := 26));
      RunFields(prog, c, t1.(pc := 26), p, l, v % 16);
    } else {
      Go(prog, t1, p, t1.(pc := 86));
      Rejects(prog, t1.(pc := 86), p);
    }
  }

  predicate WholeCode(prog: seq<Instr>, c: Config, narrow: bool) {
    && EtherCode(prog) && VlanCode(prog) && Vlan2Code(prog) && BaseCode(prog)
    && VersionCode(prog, narrow) && BodyCode(prog, c)
  }

  lemma RunBase(prog: seq<Instr>, c: Config, s: Machine, p: Packet, l: nat, narrow: bool)
    requires WholeCode(prog, c, narrow)
    requires s.Valid() && (l == 14 || l == 18 || l == 22) && s.reach <= l
    requires s.pc == (if l == 14 then 10 else if l == 18 then 13 else 16)
    ensures Gives(prog, s, p, IpKeeps(p, c, l, narrow))
  {
    var t := s.(pc := s.pc + 1, a := l);
    Go(prog, s, p, t);
    var t1 := t.(pc := t.pc + 1, mem := s.mem[0 := l]);
    Go(prog, t, p, t1);
    Go(prog, t1, p, t1.(pc := 19));
    RunIp(prog, c, t1.(pc := 19), p, l, narrow);
  }

  lemma RunVlan2(prog: seq<Instr>, c: Config, s: Machine, p: Packet, narrow: bool)
    requires WholeCode(prog, c, narrow) && s.Valid() && s.pc == 8 && s.reach <= 22
    ensures Gives(prog, s, p, EtherKeeps(p, c, 22, 0, narrow))
  {
    if 22 > |p.frame| {
      Stop(prog, s, p);
    } else {
      var e := Half(p.frame, 20);
      var t := s.(pc := 9, a := e, reach := Max(s.reach, 22));
      Go(prog, s, p, t);
      if e == 0x0800 {
        Go(prog, t, p, t.(pc := 16));
        RunBase(prog, c, t.(pc := 16), p, 22, narrow);
      } else {
        Go(prog, t, p, t.(pc := 86));
        Rejects(prog, t.(pc := 86), p);
      }
    }
  }

  lemma RunVlan(prog: seq<Instr>, c: Config, s: Machine, p: Packet, narrow: bool)
    requires WholeCode(prog, c, narrow) && s.Valid() && s.pc == 4 && s.reach <= 18
    ensures Gives(prog, s, p, EtherKeeps(p, c, 18, 1, narrow))
  {
    if 18 > |p.frame| {
      Stop(prog, s, p);
    } else {
      var e := Half(p.frame, 16);
      var t := s.(pc := 5, a := e, reach := Max(s.reach, 18));
      Go(prog, s, p, t);
      if e == 0x0800 {
        Go(prog, t, p, t.(pc := 13));
        RunBase(prog, c, t.(pc := 13), p, 18, narrow);
      } else {
        Go(prog, t, p, t.(pc := 6));
        if IsTag(e) {
          if e != 0x8100 { Go(prog, t.(pc := 6), p, t.(pc := 7)); }
          Go(prog, t.(pc := if e == 0x8100 then 6 else 7), p, t.(pc := 8));
          RunVlan2(prog, c, t.(pc := 8), p, narrow);
        } else {
          Go(prog, t.(pc := 6), p, t.(pc := 7));
          Go(prog, t.(pc := 7), p, t.(pc := 86));
          Rejects(prog, t.(pc := 86), p);
        }
      }
    }
  }

  lemma RunEther(prog: seq<Instr>, c: Config, s: Machine, p: Packet, narrow: bool)
    requires WholeCode(prog, c, narrow) && s.Valid() && s.pc == 0 && s.reach == 0
    ensures Gives(prog, s, p, EtherKeeps(p, c, 14, 2, narrow))
  {
    if 14 > |p.frame| {
      Stop(prog, s, p);
    } else {
      var e := Half(p.frame, 12);
      var t := s.(pc := 1, a := e, reach := 14);
      Go(prog, s, p, t);
      if e == 0x0800 {
        Go(prog, t, p, t.(pc := 10));
        RunBase(prog, c, t.(pc := 10), p, 14, narrow);
      } else {
        Go(prog, t, p, t.(pc := 2));
        if IsTag(e) {
          if e != 0x8100 { Go(prog, t.(pc := 2), p, t.(pc := 3)); }
          Go(prog, t.(pc := if e == 0x8100 then 2 else 3), p, t.(pc := 4));
          RunVlan(prog, c, t.(pc := 4), p, narrow);
        } else {
          Go(prog, t.(pc := 2), p, t.(pc := 3));
          Go(prog, t.(pc := 3), p, t.(pc := 86));
          Rejects(prog, t.(pc := 86), p);
        }
      }
    }
  }

  lemma FetchFront(prog: seq<Instr>, c: Config, narrow: bool)
    requires IsFilter(prog, c, narrow)
    ensures EtherCode(prog)
    ensures VlanCode(prog)
    ensures Vlan2Code(prog)
    ensures BaseCode(prog)
  {
  }

  lemma FetchIp(prog: seq<Instr>, c: Config, narrow: bool)
    requires IsFilter(prog, c, narrow)
    ensures VersionCode(prog, narrow)
    ensures FieldsCode(prog)
  {
  }

  lemma FetchAddresses(prog: seq<Instr>, c: Config, narrow: bool)
    requires IsFilter(prog, c, narrow)
    ensures SourceCode(prog, c)
    ensures PeerCode(prog, c)
  {
  }

  lemma FetchTcp(prog: seq<Instr>, c: Config, narrow: bool)
    requires IsFilter(prog, c, narrow)
    ensures TcpCode(prog)
  {
  }

  lemma FetchLengths(prog: seq<Instr>, c: Config, narrow: bool)
    requires IsFilter(prog, c, narrow)
    ensures TotalCode(prog)
    ensures NeedCode(prog)
  {
  }

  lemma FetchEnd(prog: seq<Instr>, c: Config, narrow: bool)
    requires IsFilter(prog, c, narrow)
    ensures EndCode(prog)
    ensures PortCode(prog, c)
    ensures RejectCode(prog)
  {
  }

  lemma FetchAll(prog: seq<Instr>, c: Config, narrow: bool)
    requires IsFilter(prog, c, narrow)
    ensures WholeCode(prog, c, narrow)
  {
    FetchFront(prog, c, narrow);
    FetchIp(prog, c, narrow);
    FetchAddresses(prog, c, narrow);
    FetchTcp(prog, c, narrow);
    FetchLengths(prog, c, narrow);
    FetchEnd(prog, c, narrow);
  }

  /** On every packet the program returns the decision, and loads nothing past the bytes it keeps. */
  lemma FilterDecides(prog: seq<Instr>, c: Config, p: Packet, narrow: bool)
    requires IsFilter(prog, c, narrow)
    ensures Filter(prog, p).result == Decision(p, c, narrow)
    ensures Filter(prog, p).result > 0 ==> Filter(prog, p).reach <= Filter(prog, p).result
  {
    FetchAll(prog, c, narrow);
    RunEther(prog, c, Start(), p, narrow);
  }

  /** The assembled program is the filter. */
  lemma ProgramIsFilter(c: Config)
    ensures IsFilter(Program(c), c, false)
  {
  }
}
