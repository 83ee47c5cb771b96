/** The header filter as it is assembled: every row, every label, and the program they finish to. */
module HeaderFilter {
  import opened Bytes
  import opened Bpf
  import opened Assembler

  datatype Config = Config(local: u32, peer: u32, port: u16)

  datatype Name =
    | Tag0 | Tag0Ad | Vlan1 | Tag1 | Tag1Ad | Vlan2
    | Base14 | Base18 | Base22 | Ip | Ihl | IhlOk
    | Proto | Src | SrcPeer | FromLocal | Outbound | FromPeer
    | Inbound | Tcp | TcpLen | LengthKnown | TotalOk | LengthUnknown
    | FrameLength | FrameOk | ServerSrc | ServerDst | Accept | Reject

  const ROWS := 87
  const NAMES := 30

  /** The position each label is placed at. */
  function Where(n: Name): (p: nat)
    ensures p < ROWS
  {
    match n
    case Tag0 => 2
    case Tag0Ad => 3
    case Vlan1 => 4
    case Tag1 => 6
    case Tag1Ad => 7
    case Vlan2 => 8
    case Base14 => 10
    case Base18 => 13
    case Base22 => 16
    case Ip => 19
    case Ihl => 23
    case IhlOk => 26
    case Proto => 33
    case Src => 35
    case SrcPeer => 37
    case FromLocal => 38
    case Outbound => 40
    case FromPeer => 43
    case Inbound => 45
    case Tcp => 47
    case TcpLen => 55
    case LengthKnown => 61
    case TotalOk => 62
    case LengthUnknown => 67
    case FrameLength => 70
    case FrameOk => 72
    case ServerSrc => 79
    case ServerDst => 81
    case Accept => 83
    case Reject => 86
  }

  /** Labels in the order they are placed. */
  function NameAt(k: nat): Name
    requires k < NAMES
  {
    if k == 0 then Tag0
    else if k == 1 then Tag0Ad
    else if k == 2 then Vlan1
    else if k == 3 then Tag1
    else if k == 4 then Tag1Ad
    else if k == 5 then Vlan2
    else if k == 6 then Base14
    else if k == 7 then Base18
    else if k == 8 then Base22
    else if k == 9 then Ip
    else if k == 10 then Ihl
    else if k == 11 then IhlOk
    else if k == 12 then Proto
    else if k == 13 then Src
    else if k == 14 then SrcPeer
    else if k == 15 then FromLocal
    else if k == 16 then Outbound
    else if k == 17 then FromPeer
    else if k == 18 then Inbound
    else if k == 19 then Tcp
    else if k == 20 then TcpLen
    else if k == 21 then LengthKnown
    else if k == 22 then TotalOk
    else if k == 23 then LengthUnknown
    else if k == 24 then FrameLength
    else if k == 25 then FrameOk
    else if k == 26 then ServerSrc
    else if k == 27 then ServerDst
    else if k == 28 then Accept
    else Reject
  }

  function Order(n: Name): (k: nat)
    ensures k < NAMES && NameAt(k) == n
  {
    match n
    case Tag0 => 0
    case Tag0Ad => 1
    case Vlan1 => 2
    case Tag1 => 3
    case Tag1Ad => 4
    case Vlan2 => 5
    case Base14 => 6
    case Base18 => 7
    case Base22 => 8
    case Ip => 9
    case Ihl => 10
    case IhlOk => 11
    case Proto => 12
    case Src => 13
    case SrcPeer => 14
    case FromLocal => 15
    case Outbound => 16
    case FromPeer => 17
    case Inbound => 18
    case Tcp => 19
    case TcpLen => 20
    case LengthKnown => 21
    case TotalOk => 22
    case LengthUnknown => 23
    case FrameLength => 24
    case FrameOk => 25
    case ServerSrc => 26
    case ServerDst => 27
    case Accept => 28
    case Reject => 29
  }

  // ----- the rows in the order they are emitted

  function EtherRow(i: nat): Row<Name> {
    if i == 0 then Plain(LdHAbs, 12)
    else if i == 1 then Cond(JeqK, 0x0800, Base14, Tag0)
    else if i == 2 then Cond(JeqK, 0x8100, Vlan1, Tag0Ad)
    else Cond(JeqK, 0x88A8, Vlan1, Reject)
  }

  function TagRow(i: nat): Row<Name> {
    if i == 4 then Plain(LdHAbs, 16)
    else if i == 5 then Cond(JeqK, 0x0800, Base18, Tag1)
    else if i == 6 then Cond(JeqK, 0x8100, Vlan2, Tag1Ad)
    else if i == 7 then Cond(JeqK, 0x88A8, Vlan2, Reject)
    else if i == 8 then Plain(LdHAbs, 20)
    else Cond(JeqK, 0x0800, Base22, Reject)
  }

  function BaseRow(i: nat): Row<Name> {
    if i == 10 then Plain(LdImm, 14)
    else if i == 11 then Plain(St, 0)
    else if i == 12 then Jump(Ip)
    else if i == 13 then Plain(LdImm, 18)
    else if i == 14 then Plain(St, 0)
    else Jump(Ip)
  }

  function Base22Row(i: nat): Row<Name> {
    if i == 16 then Plain(LdImm, 22)
    else if i == 17 then Plain(St, 0)
    else if i == 18 then Jump(Ip)
    else if i == 19 then Plain(LdxMem, 0)
    else if i == 20 then Plain(LdBInd, 0)
    else Plain(AndK, 0xF0)
  }

  function VersionRow(i: nat): Row<Name> {
    if i == 22 then Cond(JeqK, 0x40, Ihl, Reject)
    else if i == 23 then Plain(LdBInd, 0)
    else if i == 24 then Plain(AndK, 15)
    else Cond(JgeK, 5, IhlOk, Reject)
  }

  function IpRow(i: nat): Row<Name> {
    if i == 26 then Plain(LshK, 2)
    else if i == 27 then Plain(St, 1)
    else if i == 28 then Plain(LdHInd, 2)
    else if i == 29 then Plain(St, 2)
    else Plain(LdHInd, 6)
  }

  function ProtoRow(i: nat): Row<Name> {
    if i == 31 then Plain(AndK, 0x3FFF)
    else if i == 32 then Cond(JeqK, 0, Proto, Reject)
    else if i == 33 then Plain(LdBInd, 9)
    else Cond(JeqK, 6, Src, Reject)
  }

  function SourceRow(i: nat, c: Config): Row<Name> {
    if i == 35 then Plain(LdWInd, 12)
    else if i == 36 then Cond(JeqK, c.local, FromLocal, SrcPeer)
    else if i == 37 then Cond(JeqK, c.peer, FromPeer, Reject)
    else if i == 38 then Plain(LdWInd, 16)
    else Cond(JeqK, c.peer, Outbound, Reject)
  }

  function OutboundRow(i: nat): Row<Name> {
    if i == 40 then Plain(LdImm, 1)
    else if i == 41 then Plain(St, 3)
    else Jump(Tcp)
  }

  function InboundRow(i: nat, c: Config): Row<Name> {
    if i == 43 then Plain(LdWInd, 16)
    else if i == 44 then Cond(JeqK, c.local, Inbound, Reject)
    else if i == 45 then Plain(LdImm, 2)
    else Plain(St, 3)
  }

  function TcpRow(i: nat): Row<Name> {
    if i == 47 then Plain(LdMem, 0)
    else if i == 48 then Plain(LdxMem, 1)
    else if i == 49 then Plain(AddX, 0)
    else if i == 50 then Plain(Tax, 0)
    else if i == 51 then Plain(LdBInd, 12)
    else if i == 52 then Plain(AndK, 0xF0)
    else if i == 53 then Plain(RshK, 2)
    else Cond(JgeK, 20, TcpLen, Reject)
  }

  function TotalRow(i: nat): Row<Name> {
    if i == 55 then Plain(St, 4)
    else if i == 56 then Plain(LdxMem, 1)
    else if i == 57 then Plain(AddX, 0)
    else if i == 58 then Plain(Tax, 0)
    else if i == 59 then Plain(LdMem, 2)
    else if i == 60 then Cond(JeqK, 0, LengthUnknown, LengthKnown)
    else Cond(JgeX, 0, TotalOk, Reject)
  }

  function KnownRow(i: nat): Row<Name> {
    if i == 62 then Plain(LdMem, 0)
    else if i == 63 then Plain(LdxMem, 2)
    else if i == 64 then Plain(AddX, 0)
    else if i == 65 then Plain(Tax, 0)
    else Jump(FrameLength)
  }

  function UnknownRow(i: nat): Row<Name> {
    if i == 67 then Plain(LdMem, 0)
    else if i == 68 then Plain(AddX, 0)
    else if i == 69 then Plain(Tax, 0)
    else if i == 70 then Plain(LdLen, 0)
    else Cond(JgeX, 0, FrameOk, Reject)
  }

  function RoomRow(i: nat): Row<Name> {
    if i == 72 then Plain(LdMem, 0)
    else if i == 73 then Plain(LdxMem, 1)
    else if i == 74 then Plain(AddX, 0)
    else if i == 75 then Plain(Tax, 0)
    else if i == 76 then Plain(LdBInd, 19)
    else if i == 77 then Plain(LdMem, 3)
    else Cond(JeqK, 1, ServerSrc, ServerDst)
  }

  function PortRow(i: nat, c: Config): Row<Name> {
    if i == 79 then Plain(LdHInd, 0)
    else if i == 80 then Cond(JeqK, c.port, Accept, Reject)
    else if i == 81 then Plain(LdHInd, 2)
    else Cond(JeqK, c.port, Accept, Reject)
  }

  function EndRow(i: nat): Row<Name> {
    if i == 83 then Plain(Txa, 0)
    else if i == 84 then Plain(AddK, 20)
    else if i == 85 then Plain(RetA, 0)
    else Plain(RetK, 0)
  }

  function RowAt(i: nat, c: Config): (r: Row<Name>)
    requires i < ROWS
  {
    if i < 4 then EtherRow(i)
    else if i < 10 then TagRow(i)
    else if i < 16 then BaseRow(i)
    else if i < 22 then Base22Row(i)
    else if i < 26 then VersionRow(i)
    else if i < 31 then IpRow(i)
    else if i < 35 then ProtoRow(i)
    else if i < 40 then SourceRow(i, c)
    else if i < 43 then OutboundRow(i)
    else if i < 47 then InboundRow(i, c)
    else if i < 55 then TcpRow(i)
    else if i < 62 then TotalRow(i)
    else if i < 67 then KnownRow(i)
    else if i < 72 then UnknownRow(i)
    else if i < 79 then RoomRow(i)
    else if i < 83 then PortRow(i, c)
    else EndRow(i)
  }

  function RowsTo(n: nat, c: Config): (r: seq<Row<Name>>)
    requires n <= ROWS
    ensures |r| == n
  {
    if n == 0 then [] else RowsTo(n - 1, c) + [RowAt(n - 1, c)]
  }

  function LabelsTo(k: nat, c: Config): map<Name, nat>
    requires k <= NAMES
  {
    if k == 0 then map[] else LabelsTo(k - 1, c)[NameAt(k - 1) := Where(NameAt(k - 1))]
  }

  lemma {:induction false} RowsToAt(n: nat, c: Config, i: nat)
    requires i < n <= ROWS
    ensures RowsTo(n, c)[i] == RowAt(i, c)
  {
    if i < n - 1 { RowsToAt(n - 1, c, i); }
  }

  lemma {:induction false} LabelsToAt(k: nat, c: Config, l: Name)
    requires k <= NAMES
    ensures l in LabelsTo(k, c) <==> Order(l) < k
    ensures l in LabelsTo(k, c) ==> LabelsTo(k, c)[l] == Where(l)
  {
    if k > 0 {
      LabelsToAt(k - 1, c, l);
      OrderOfName(k - 1);
    }
  }

  lemma OrderOfName(k: nat)
    requires k < NAMES
    ensures Order(NameAt(k)) == k
  {
  }

  /** What the assembler holds after n rows and k labels. */
  ghost predicate Built(a: Assembler<Name>, n: nat, k: nat, c: Config)
    requires n <= ROWS && k <= NAMES
    reads a
  {
    a.rows == RowsTo(n, c) && a.labels == LabelsTo(k, c)
  }

  method Place(a: Assembler<Name>, name: Name, k: nat, n: nat, c: Config)
    requires k < NAMES && n <= ROWS && Built(a, n, k, c) && NameAt(k) == name && Where(name) == n
    modifies a
    ensures Built(a, n, k + 1, c)
  {
    LabelsToAt(k, c, name);
    OrderOfName(k);
    var done := a.Label(name);
  }

  method Add(a: Assembler<Name>, row: Row<Name>, k: nat, n: nat, c: Config)
    requires k <= NAMES && n < ROWS && Built(a, n, k, c) && row == RowAt(n, c)
    modifies a
    ensures Built(a, n + 1, k, c)
  {
    a.Emit(row);
  }


  method EmitEther(a: Assembler<Name>, c: Config)
    requires Built(a, 0, 0, c)
    modifies a
    ensures Built(a, 4, 2, c)
  {
    Add(a, Plain(LdHAbs, 12), 0, 0, c);
    Add(a, Cond(JeqK, 0x0800, Base14, Tag0), 0, 1, c);
    Place(a, Tag0, 0, 2, c);
    Add(a, Cond(JeqK, 0x8100, Vlan1, Tag0Ad), 1, 2, c);
    Place(a, Tag0Ad, 1, 3, c);
    Add(a, Cond(JeqK, 0x88A8, Vlan1, Reject), 2, 3, c);
  }

  method EmitTag(a: Assembler<Name>, c: Config)
    requires Built(a, 4, 2, c)
    modifies a
    ensures Built(a, 10, 6, c)
  {
    Place(a, Vlan1, 2, 4, c);
    Add(a, Plain(LdHAbs, 16), 3, 4, c);
    Add(a, Cond(JeqK, 0x0800, Base18, Tag1), 3, 5, c);
    Place(a, Tag1, 3, 6, c);
    Add(a, Cond(JeqK, 0x8100, Vlan2, Tag1Ad), 4, 6, c);
    EmitSecondTag(a, c);
  }

  method EmitSecondTag(a: Assembler<Name>, c: Config)
    requires Built(a, 7, 4, c)
    modifies a
    ensures Built(a, 10, 6, c)
  {
    Place(a, Tag1Ad, 4, 7, c);
    Add(a, Cond(JeqK, 0x88A8, Vlan2, Reject), 5, 7, c);
    Place(a, Vlan2, 5, 8, c);
    Add(a, Plain(LdHAbs, 20), 6, 8, c);
    Add(a, Cond(JeqK, 0x0800, Base22, Reject), 6, 9, c);
  }

  method EmitBase(a: Assembler<Name>, c: Config)
    requires Built(a, 10, 6, c)
    modifies a
    ensures Built(a, 16, 8, c)
  {
    Place(a, Base14, 6, 10, c);
    Add(a, Plain(LdImm, 14), 7, 10, c);
    Add(a, Plain(St, 0), 7, 11, c);
    Add(a, Jump(Ip), 7, 12, c);
    Place(a, Base18, 7, 13, c);
    Add(a, Plain(LdImm, 18), 8, 13, c);
    Add(a, Plain(St, 0), 8, 14, c);
    Add(a, Jump(Ip), 8, 15, c);
  }

  method EmitBase22(a: Assembler<Name>, c: Config)
    requires Built(a, 16, 8, c)
    modifies a
    ensures Built(a, 22, 10, c)
  {
    Place(a, Base22, 8, 16, c);
    Add(a, Plain(LdImm, 22), 9, 16, c);
    Add(a, Plain(St, 0), 9, 17, c);
    Add(a, Jump(Ip), 9, 18, c);
    Place(a, Ip, 9, 19, c);
    Add(a, Plain(LdxMem, 0), 10, 19, c);
    Add(a, Plain(LdBInd, 0), 10, 20, c);
    Add(a, Plain(AndK, 0xF0), 10, 21, c);
  }

  method EmitVersion(a: Assembler<Name>, c: Config)
    requires Built(a, 22, 10, c)
    modifies a
    ensures Built(a, 26, 11, c)
  {
    Add(a, Cond(JeqK, 0x40, Ihl, Reject), 10, 22, c);
    Place(a, Ihl, 10, 23, c);
    Add(a, Plain(LdBInd, 0), 11, 23, c);
    Add(a, Plain(AndK, 15), 11, 24, c);
    Add(a, Cond(JgeK, 5, IhlOk, Reject), 11, 25, c);
  }

  method EmitIp(a: Assembler<Name>, c: Config)
    requires Built(a, 26, 11, c)
    modifies a
    ensures Built(a, 31, 12, c)
  {
    Place(a, IhlOk, 11, 26, c);
    Add(a, Plain(LshK, 2), 12, 26, c);
    Add(a, Plain(St, 1), 12, 27, c);
    Add(a, Plain(LdHInd, 2), 12, 28, c);
    Add(a, Plain(St, 2), 12, 29, c);
    Add(a, Plain(LdHInd, 6), 12, 30, c);
  }

  method EmitProto(a: Assembler<Name>, c: Config)
    requires Built(a, 31, 12, c)
    modifies a
    ensures Built(a, 35, 13, c)
  {
    Add(a, Plain(AndK, 0x3FFF), 12, 31, c);
    Add(a, Cond(JeqK, 0, Proto, Reject), 12, 32, c);
    Place(a, Proto, 12, 33, c);
    Add(a, Plain(LdBInd, 9), 13, 33, c);
    Add(a, Cond(JeqK, 6, Src, Reject), 13, 34, c);
  }

  method EmitSource(a: Assembler<Name>, c: Config)
    requires Built(a, 35, 13, c)
    modifies a
    ensures Built(a, 40, 16, c)
  {
    Place(a, Src, 13, 35, c);
    Add(a, Plain(LdWInd, 12), 14, 35, c);
    Add(a, Cond(JeqK, c.local, FromLocal, SrcPeer), 14, 36, c);
    EmitSourcePeer(a, c);
  }

  method EmitSourcePeer(a: Assembler<Name>, c: Config)
    requires Built(a, 37, 14, c)
    modifies a
    ensures Built(a, 40, 16, c)
  {
    Place(a, SrcPeer, 14, 37, c);
    Add(a, Cond(JeqK, c.peer, FromPeer, Reject), 15, 37, c);
    Place(a, FromLocal, 15, 38, c);
    Add(a, Plain(LdWInd, 16), 16, 38, c);
    Add(a, Cond(JeqK, c.peer, Outbound, Reject), 16, 39, c);
  }

  method EmitOutbound(a: Assembler<Name>, c: Config)
    requires Built(a, 40, 16, c)
    modifies a
    ensures Built(a, 43, 17, c)
  {
    Place(a, Outbound, 16, 40, c);
    Add(a, Plain(LdImm, 1), 17, 40, c);
    Add(a, Plain(St, 3), 17, 41, c);
    Add(a, Jump(Tcp), 17, 42, c);
  }

  method EmitInbound(a: Assembler<Name>, c: Config)
    requires Built(a, 43, 17, c)
    modifies a
    ensures Built(a, 47, 19, c)
  {
    Place(a, FromPeer, 17, 43, c);
    Add(a, Plain(LdWInd, 16), 18, 43, c);
    Add(a, Cond(JeqK, c.local, Inbound, Reject), 18, 44, c);
    Place(a, Inbound, 18, 45, c);
    Add(a, Plain(LdImm, 2), 19, 45, c);
    Add(a, Plain(St, 3), 19, 46, c);
  }

  method EmitTcp(a: Assembler<Name>, c: Config)
    requires Built(a, 47, 19, c)
    modifies a
    ensures Built(a, 55, 20, c)
  {
    Place(a, Tcp, 19, 47, c);
    Add(a, Plain(LdMem, 0), 20, 47, c);
    Add(a, Plain(LdxMem, 1), 20, 48, c);
    Add(a, Plain(AddX, 0), 20, 49, c);
    Add(a, Plain(Tax, 0), 20, 50, c);
    Add(a, Plain(LdBInd, 12), 20, 51, c);
    Add(a, Plain(AndK, 0xF0), 20, 52, c);
    Add(a, Plain(RshK, 2), 20, 53, c);
    Add(a, Cond(JgeK, 20, TcpLen, Reject), 20, 54, c);
  }

  method EmitTotal(a: Assembler<Name>, c: Config)
    requires Built(a, 55, 20, c)
    modifies a
    ensures Built(a, 62, 22, c)
  {
    Place(a, TcpLen, 20, 55, c);
    Add(a, Plain(St, 4), 21, 55, c);
    Add(a, Plain(LdxMem, 1), 21, 56, c);
    Add(a, Plain(AddX, 0), 21, 57, c);
    EmitTotalCheck(a, c);
  }

  method EmitTotalCheck(a: Assembler<Name>, c: Config)
    requires Built(a, 58, 21, c)
    modifies a
    ensures Built(a, 62, 22, c)
  {
    Add(a, Plain(Tax, 0), 21, 58, c);
    Add(a, Plain(LdMem, 2), 21, 59, c);
    Add(a, Cond(JeqK, 0, LengthUnknown, LengthKnown), 21, 60, c);
    Place(a, LengthKnown, 21, 61, c);
    Add(a, Cond(JgeX, 0, TotalOk, Reject), 22, 61, c);
  }

  method EmitKnown(a: Assembler<Name>, c: Config)
    requires Built(a, 62, 22, c)
    modifies a
    ensures Built(a, 67, 23, c)
  {
    Place(a, TotalOk, 22, 62, c);
    Add(a, Plain(LdMem, 0), 23, 62, c);
    Add(a, Plain(LdxMem, 2), 23, 63, c);
    Add(a, Plain(AddX, 0), 23, 64, c);
    Add(a, Plain(Tax, 0), 23, 65, c);
    Add(a, Jump(FrameLength), 23, 66, c);
  }

  method EmitUnknown(a: Assembler<Name>, c: Config)
    requires Built(a, 67, 23, c)
    modifies a
    ensures Built(a, 72, 25, c)
  {
    Place(a, LengthUnknown, 23, 67, c);
    Add(a, Plain(LdMem, 0), 24, 67, c);
    Add(a, Plain(AddX, 0), 24, 68, c);
    Add(a, Plain(Tax, 0), 24, 69, c);
    Place(a, FrameLength, 24, 70, c);
    Add(a, Plain(LdLen, 0), 25, 70, c);
    Add(a, Cond(JgeX, 0, FrameOk, Reject), 25, 71, c);
  }

  method EmitRoom(a: Assembler<Name>, c: Config)
    requires Built(a, 72, 25, c)
    modifies a
    ensures Built(a, 79, 26, c)
  {
    Place(a, FrameOk, 25, 72, c);
    Add(a, Plain(LdMem, 0), 26, 72, c);
    Add(a, Plain(LdxMem, 1), 26, 73, c);
    Add(a, Plain(AddX, 0), 26, 74, c);
    Add(a, Plain(Tax, 0), 26, 75, c);
    Add(a, Plain(LdBInd, 19), 26, 76, c);
    Add(a, Plain(LdMem, 3), 26, 77, c);
    Add(a, Cond(JeqK, 1, ServerSrc, ServerDst), 26, 78, c);
  }

  method EmitPort(a: Assembler<Name>, c: Config)
    requires Built(a, 79, 26, c)
    modifies a
    ensures Built(a, 83, 28, c)
  {
    Place(a, ServerSrc, 26, 79, c);
    Add(a, Plain(LdHInd, 0), 27, 79, c);
    Add(a, Cond(JeqK, c.port, Accept, Reject), 27, 80, c);
    Place(a, ServerDst, 27, 81, c);
    Add(a, Plain(LdHInd, 2), 28, 81, c);
    Add(a, Cond(JeqK, c.port, Accept, Reject), 28, 82, c);
  }

  method EmitEnd(a: Assembler<Name>, c: Config)
    requires Built(a, 83, 28, c)
    modifies a
    ensures Built(a, 87, 30, c)
  {
    Place(a, Accept, 28, 83, c);
    Add(a, Plain(Txa, 0), 29, 83, c);
    Add(a, Plain(AddK, 20), 29, 84, c);
    Add(a, Plain(RetA, 0), 29, 85, c);
    Place(a, Reject, 29, 86, c);
    Add(a, Plain(RetK, 0), 30, 86, c);
  }

  method EmitFront(a: Assembler<Name>, c: Config)
    requires Built(a, 0, 0, c)
    modifies a
    ensures Built(a, 43, 17, c)
  {
    EmitEther(a, c);
    EmitTag(a, c);
    EmitBase(a, c);
    EmitBase22(a, c);
    EmitVersion(a, c);
    EmitIp(a, c);
    EmitProto(a, c);
    EmitSource(a, c);
    EmitOutbound(a, c);
  }

  method EmitBack(a: Assembler<Name>, c: Config)
    requires Built(a, 43, 17, c)
    modifies a
    ensures Built(a, 87, 30, c)
  {
    EmitInbound(a, c);
    EmitTcp(a, c);
    EmitTotal(a, c);
    EmitKnown(a, c);
    EmitUnknown(a, c);
    EmitRoom(a, c);
    EmitPort(a, c);
    EmitEnd(a, c);
  }


  function InstrOf(r: Row<Name>, i: nat): Instr {
    match r
    case Plain(op, k) => Instr(op, 0, 0, k)
    case Jump(t) => Instr(Ja, 0, 0, Offset(t, i))
    case Cond(op, k, yes, no) => Instr(op, Offset(yes, i), Offset(no, i), k)
  }

  /** The finished instruction at each position. */
  function InstrAt(i: nat, c: Config): Instr
    requires i < ROWS
  {
    InstrOf(RowAt(i, c), i)
  }

  function Offset(n: Name, i: nat): nat {
    if Where(n) > i then Where(n) - i - 1 else 0
  }

  predicate Forward(n: Name, i: nat) {
    i < Where(n) <= i + 256
  }

  const IHL_ROW := 25

  /** Jumps go forward and fit in eight bits, and only one row compares with a least header length of five. */
  predicate RowOk(r: Row<Name>, i: nat) {
    && WellFormed(r)
    && (r.Jump? ==> Forward(r.target, i))
    && (r.Cond? ==> Forward(r.yes, i) && Forward(r.no, i))
    && (r.Cond? && r.op == JgeK && r.k == 5 <==> i == IHL_ROW)
  }

  lemma EarlyForward(i: nat, c: Config)
    requires 0 <= i < 26
    ensures RowOk(RowAt(i, c), i)
  {
    if i < 4 { assert RowOk(EtherRow(i), i); }
    else if i < 10 { assert RowOk(TagRow(i), i); }
    else if i < 16 { assert RowOk(BaseRow(i), i); }
    else if i < 22 { assert RowOk(Base22Row(i), i); }
    else { assert RowOk(VersionRow(i), i); }
  }

  lemma MiddleForward(i: nat, c: Config)
    requires 26 <= i < 47
    ensures RowOk(RowAt(i, c), i)
  {
    if i < 31 { assert RowOk(IpRow(i), i); }
    else if i < 35 { assert RowOk(ProtoRow(i), i); }
    else if i < 40 { assert RowOk(SourceRow(i, c), i); }
    else if i < 43 { assert RowOk(OutboundRow(i), i); }
    else { assert RowOk(InboundRow(i, c), i); }
  }

  lemma LateForward(i: nat, c: Config)
    requires 47 <= i < 72
    ensures RowOk(RowAt(i, c), i)
  {
    if i < 55 { assert RowOk(TcpRow(i), i); }
    else if i < 62 { assert RowOk(TotalRow(i), i); }
    else if i < 67 { assert RowOk(KnownRow(i), i); }
    else { assert RowOk(UnknownRow(i), i); }
  }

  lemma LastForward(i: nat, c: Config)
    requires 72 <= i < ROWS
    ensures RowOk(RowAt(i, c), i)
  {
    if i < 79 { assert RowOk(RoomRow(i), i); }
    else if i < 83 { assert RowOk(PortRow(i, c), i); }
    else { assert RowOk(EndRow(i), i); }
  }

  lemma AllForward(i: nat, c: Config)
    requires i < ROWS
    ensures RowOk(RowAt(i, c), i)
  {
    if i < 26 { EarlyForward(i, c); }
    else if i < 47 { MiddleForward(i, c); }
    else if i < 72 { LateForward(i, c); }
    else { LastForward(i, c); }
  }

  function Program(c: Config): (p: seq<Instr>)
    ensures |p| == ROWS && forall i :: 0 <= i < ROWS ==> p[i] == InstrAt(i, c)
  {
    seq(ROWS, i requires 0 <= i < ROWS => InstrAt(i, c))
  }

  /** Assembling never fails, and gives exactly this program. */
  method BuildFilter(c: Config) returns (r: Result<seq<Instr>>)
    ensures r == Ok(Program(c))
  {
    var a := new Assembler<Name>();
    EmitFront(a, c);
    EmitBack(a, c);
    AllResolve(c);
    r := a.Finish();
    if r.Ok? {
      assert r.value == Program(c);
    }
  }

  lemma TargetResolves(n: Name, i: nat, c: Config)
    requires Forward(n, i)
    ensures n in LabelsTo(NAMES, c) && LabelsTo(NAMES, c)[n] == i + 1 + Offset(n, i) && Offset(n, i) <= 255
  {
    LabelsToAt(NAMES, c, n);
  }

  lemma ResolveRow(r: Row<Name>, i: nat, c: Config)
    requires RowOk(r, i)
    ensures Resolve(r, i, LabelsTo(NAMES, c)) == Ok(InstrOf(r, i))
  {
    match r
    case Plain(op, k) =>
    case Jump(t) => TargetResolves(t, i, c);
    case Cond(op, k, yes, no) => TargetResolves(yes, i, c); TargetResolves(no, i, c);
  }

  lemma AllResolve(c: Config)
    ensures forall i :: 0 <= i < ROWS ==> WellFormed(RowsTo(ROWS, c)[i])
    ensures forall i :: 0 <= i < ROWS ==> Resolve(RowsTo(ROWS, c)[i], i, LabelsTo(NAMES, c)) == Ok(Program(c)[i])
  {
    forall i | 0 <= i < ROWS
      ensures WellFormed(RowsTo(ROWS, c)[i]) && Resolve(RowsTo(ROWS, c)[i], i, LabelsTo(NAMES, c)) == Ok(Program(c)[i])
    {
      RowsToAt(ROWS, c, i);
      AllForward(i, c);
      ResolveRow(RowAt(i, c), i, c);
    }
  }

  /** The program means what the labelled listing means, for every packet, and ends within its own length. */
  lemma ProgramMeansListing(c: Config, p: Packet)
    ensures RunRows(RowsTo(ROWS, c), LabelsTo(NAMES, c), Start(), p, ROWS) == Some(Filter(Program(c), p))
  {
    AllResolve(c);
    FinishPreserves(RowsTo(ROWS, c), LabelsTo(NAMES, c), Program(c), Start(), p, ROWS);
  }
}
