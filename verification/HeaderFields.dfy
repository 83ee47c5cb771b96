/** What the parser returns: exactly the values a captured frame was laid out from, and nothing of any other frame. */
module HeaderFields {
  import opened Bytes
  import opened Bpf
  import opened Frames
  import opened HeaderFilter
  import opened HeaderParser

  predicate Tagged(f: Frame) {
    forall t :: t in f.tags ==> t.kind == 0x8100 || t.kind == 0x88A8
  }

  predicate IsOutbound(f: Frame, c: Config) {
    f.src == c.local && f.dst == c.peer
  }

  /** The server's port is the source port on the way out and the destination port on the way in. */
  predicate OfPeers(f: Frame, c: Config) {
    if IsOutbound(f, c) then f.sport == c.port else f.src == c.peer && f.dst == c.local && f.dport == c.port
  }

  /** Both headers fit the datagram, if it says how long it is, and the datagram fits the frame on the wire. */
  predicate LengthsAgree(f: Frame, wire: u32) {
    var headers := f.IpHeader() + f.TcpHeader();
    f.offset >= 5 && (if f.total == 0 then wire >= f.L() + headers else f.total >= headers && wire >= f.L() + f.total)
  }

  /** Captured up to the fixed TCP header, unfragmented, and of the configured connection. */
  predicate Wanted(f: Frame, wire: u32, c: Config) {
    && |f.tags| <= 2 && f.rest == [] && wire >= f.Base() + 20
    && f.fragment % 0x4000 == 0 && f.protocol == 6
    && OfPeers(f, c) && LengthsAgree(f, wire)
  }

  function MetaOf(f: Frame, wire: u32, c: Config): Meta {
    var headers := f.IpHeader() + f.TcpHeader();
    Meta(
      src := f.src, dst := f.dst, sport := f.sport, dport := f.dport, seqNo := f.number, ack := f.ack,
      flags := f.flags, win := f.win, ipLen := f.total, headerLen := headers,
      payloadLen := if f.total == 0 then -1 else f.total - headers,
      direction := if IsOutbound(f, c) then 1 else 2, lengthUnknown := f.total == 0, frameLen := wire)
  }

  lemma HalfShows(s: seq<byte>, p: nat, v: nat)
    requires Shows16(s, p, v)
    ensures Half(s, p) == v
  {
  }

  lemma WordShows(s: seq<byte>, p: nat, v: nat)
    requires Shows32(s, p, v)
    ensures Word(s, p) == v
  {
  }

  lemma IpReads(f: Frame)
    requires f.Fits()
    ensures var s, l := Laid(f), f.L();
      && Byte(s, l) == 0x40 + f.IpHeader() / 4 && Half(s, l + 2) == f.total && Half(s, l + 6) == f.fragment
      && Byte(s, l + 9) == f.protocol && Word(s, l + 12) == f.src && Word(s, l + 16) == f.dst
  {
    LaidIp(f);
    var s, l := Laid(f), f.L();
    HalfShows(s, l + 2, f.total);
    HalfShows(s, l + 6, f.fragment);
    WordShows(s, l + 12, f.src);
    WordShows(s, l + 16, f.dst);
  }

  lemma TcpReads(f: Frame)
    requires f.Fits()
    ensures var s, b := Laid(f), f.Base();
      && Half(s, b) == f.sport && Half(s, b + 2) == f.dport && Word(s, b + 4) == f.number && Word(s, b + 8) == f.ack
      && Byte(s, b + 12) == f.offset * 16 + f.reserved * 2 + f.flags / 256 && Byte(s, b + 13) == f.flags % 256
      && Half(s, b + 14) == f.win
  {
    LaidTcp(f);
    var s, b := Laid(f), f.Base();
    HalfShows(s, b, f.sport);
    HalfShows(s, b + 2, f.dport);
    WordShows(s, b + 4, f.number);
    WordShows(s, b + 8, f.ack);
    HalfShows(s, b + 14, f.win);
  }

  lemma KindReads(f: Frame, k: nat)
    requires f.Fits() && k <= |f.tags|
    ensures Half(Laid(f), 12 + 4 * k) == KindAt(f, k)
  {
    LaidKind(f, k);
    HalfShows(Laid(f), 12 + 4 * k, KindAt(f, k));
  }

  /** Behind k tags, up to two more are skipped. */
  lemma {:induction false} LayerFound(f: Frame, k: nat)
    requires f.Fits() && Tagged(f) && k <= |f.tags| && k <= 2
    ensures var layer := SkipTags(Laid(f), 14 + 4 * k, 2 - k);
      if |f.tags| <= 2 then layer == Layer(f.L(), 0x800) else layer.kind != 0x800
    decreases 2 - k
  {
    KindReads(f, k);
    if k < |f.tags| {
      assert f.tags[k] in f.tags;
      if k < 2 { LayerFound(f, k + 1); }
    }
  }

  lemma FlagsRead(f: Frame)
    requires f.Fits()
    ensures var b := f.offset * 16 + f.reserved * 2 + f.flags / 256;
      b / 16 * 4 == f.TcpHeader() && And(b, 1) * 256 + f.flags % 256 == f.flags
  {
    var b := f.offset * 16 + f.reserved * 2 + f.flags / 256;
    assert b % 2 == f.flags / 256;
    assert And(b / 2, 0) == 0;
  }

  lemma TcpIs(f: Frame, wire: u32, c: Config, outbound: bool)
    requires f.Fits() && outbound == IsOutbound(f, c)
    ensures ParseTcp(Laid(f), wire, c, f.L(), f.Base(), outbound)
      == if (if outbound then f.sport else f.dport) == c.port && LengthsAgree(f, wire) then Some(MetaOf(f, wire, c))
         else None
  {
    IpReads(f);
    TcpReads(f);
    FlagsRead(f);
  }

  lemma PeersAre(f: Frame, wire: u32, c: Config)
    requires f.Fits()
    ensures ParsePeers(Laid(f), wire, c, f.L(), f.Base())
      == if OfPeers(f, c) && LengthsAgree(f, wire) then Some(MetaOf(f, wire, c)) else None
  {
    IpReads(f);
    TcpIs(f, wire, c, IsOutbound(f, c));
  }

  lemma VersionReads(f: Frame)
    requires f.Fits()
    ensures var v := 0x40 + f.IpHeader() / 4; Shr(v, 4) == 4 && And(v, 15) * 4 == f.IpHeader() >= 20
  {
    WordsOf(f.IpHeader() / 4);
  }

  lemma WordsOf(n: nat)
    requires n < 16
    ensures Shr(0x40 + n, 4) == 4 && And(0x40 + n, 15) == n
  {
    ShrNibble(0x40 + n);
    LowNibble(0x40 + n);
  }

  lemma IpIs(f: Frame, wire: u32, c: Config)
    requires f.Fits()
    ensures ParseIp(Laid(f), wire, c, f.L())
      == if f.rest == [] && f.fragment % 0x4000 == 0 && f.protocol == 6 && OfPeers(f, c) && LengthsAgree(f, wire)
         then Some(MetaOf(f, wire, c)) else None
  {
    IpReads(f);
    VersionReads(f);
    FragmentBits(f.fragment);
    PeersAre(f, wire, c);
  }

  /**
   For every frame laid out behind any number of tags, with any options and any field values: the parser accepts it
   exactly if it is wanted, and then returns the very values it was laid out from.
   */
  lemma FieldsReturned(f: Frame, wire: u32, c: Config)
    requires f.Fits() && Tagged(f)
    ensures Parse(Laid(f), wire, c) == if Wanted(f, wire, c) then Some(MetaOf(f, wire, c)) else None
  {
    LayerFound(f, 0);
    if |f.tags| <= 2 { IpIs(f, wire, c); }
  }

  /** The narrowed parser takes of these the frames without IPv4 options. */
  lemma PlainFieldsReturned(f: Frame, wire: u32, c: Config)
    requires f.Fits() && Tagged(f)
    ensures ParsePlain(Laid(f), wire, c)
      == if Wanted(f, wire, c) && f.options == [] then Some(MetaOf(f, wire, c)) else None
  {
    FieldsReturned(f, wire, c);
    LayerFound(f, 0);
    if |f.tags| <= 2 { FirstByte(f); }
  }

  lemma FirstByte(f: Frame)
    requires f.Fits()
    ensures Byte(Laid(f), f.L()) == 0x45 <==> f.options == []
  {
    IpReads(f);
  }

  lemma CapturedPart(f: Frame)
    requires f.Fits()
    ensures Laid(f)[..f.Base() + 20] == Laid(f.(rest := []))
  {
    var g := f.(rest := []);
    assert IpBytes(g) == IpBytes(f) && TcpBytes(g) == TcpBytes(f);
    assert Laid(g) == EtherBytes(f, 0x800) + IpBytes(f) + f.options + TcpBytes(f);
  }

  /** The program keeps the headers of exactly the wanted frames, whatever follows them. */
  lemma HeadersKept(f: Frame, wire: u32, c: Config)
    requires f.Fits() && Tagged(f)
    ensures Filter(Program(c), Packet(Laid(f), wire)).result == f.Base() + 20 <==> Wanted(f.(rest := []), wire, c)
  {
    CapturedPart(f);
    FieldsReturned(f.(rest := []), wire, c);
    ProgramIsParser(Packet(Laid(f), wire), c, f.Base() + 20);
  }
}
