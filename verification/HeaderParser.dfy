/** The independent parser of the captured headers, and its agreement with the filter on every packet. */
module HeaderParser {
  import opened Bytes
  import opened Bpf
  import opened HeaderFilter
  import opened FilterMeaning

  const SHORTEST := 54
  const MAX_SNAP := 102   // two tags, the longest IPv4 header and the fixed TCP header
  const MAX_SNAP_PLAIN := 62  // two tags, an IPv4 header without options and the fixed TCP header

  datatype Meta = Meta(
    src: u32, dst: u32, sport: u32, dport: u32, seqNo: u32, ack: u32, flags: nat, win: u32, ipLen: nat,
    headerLen: nat, payloadLen: int, direction: nat, lengthUnknown: bool, frameLen: u32)

  datatype Layer = Layer(start: nat, kind: nat)

  /** Where the network layer starts and of what kind it is, after at most tags tags. */
  function SkipTags(b: seq<byte>, l: nat, tags: nat): (r: Layer)
    requires 2 <= l && l + 4 * tags <= |b|
    ensures l <= r.start <= l + 4 * tags
    decreases tags
  {
    var e := Half(b, l - 2);
    if IsTag(e) && tags > 0 then SkipTags(b, l + 4, tags - 1) else Layer(l, e)
  }

  /** The fields of an accepted header whose IPv4 header starts at l and whose TCP header starts at base. */
  function Described(b: seq<byte>, wire: u32, l: nat, base: nat, outbound: bool): Meta
    requires l + 20 <= base && base + 20 <= |b|
  {
    var total, header := Half(b, l + 2), base - l + Byte(b, base + 12) / 16 * 4;
    Meta(Word(b, l + 12), Word(b, l + 16), Half(b, base), Half(b, base + 2), Word(b, base + 4), Word(b, base + 8),
         And(Byte(b, base + 12), 1) * 256 + Byte(b, base + 13), Half(b, base + 14), total, header,
         if total != 0 then total - header else -1, if outbound then 1 else 2, total == 0, wire)
  }

  predicate LengthsFit(b: seq<byte>, wire: u32, l: nat, base: nat)
    requires l + 20 <= base && base + 20 <= |b|
  {
    var total, tcp := Half(b, l + 2), Byte(b, base + 12) / 16 * 4;
    var header := base - l + tcp;
    && tcp >= 20
    && (total == 0 || total >= header)
    && wire >= l + (if total != 0 then total else header)
  }

  function ParseTcp(b: seq<byte>, wire: u32, c: Config, l: nat, base: nat, outbound: bool): Option<Meta>
    requires l + 20 <= base && base + 20 <= |b|
  {
    if Half(b, if outbound then base else base + 2) != c.port || !LengthsFit(b, wire, l, base) then None
    else Some(Described(b, wire, l, base, outbound))
  }

  function ParsePeers(b: seq<byte>, wire: u32, c: Config, l: nat, base: nat): Option<Meta>
    requires l + 20 <= base && base + 20 <= |b|
  {
    var src, dst := Word(b, l + 12), Word(b, l + 16);
    if src == c.local && dst == c.peer then ParseTcp(b, wire, c, l, base, true)
    else if src == c.peer && dst == c.local then ParseTcp(b, wire, c, l, base, false)
    else None
  }

  function ParseIp(b: seq<byte>, wire: u32, c: Config, l: nat): Option<Meta>
    requires l + 20 <= |b|
  {
    var v := Byte(b, l);
    var ihl := And(v, 15) * 4;
    if Shr(v, 4) != 4 || ihl < 20 || |b| != l + ihl + 20 then None
    else if And(Half(b, l + 6), 0x3FFF) != 0 || Byte(b, l + 9) != 6 then None
    else ParsePeers(b, wire, c, l, l + ihl)
  }

  /** The captured bytes b of a packet of the given length on the wire. */
  function Parse(b: seq<byte>, wire: u32, c: Config): Option<Meta> {
    if !(SHORTEST <= |b| <= MAX_SNAP) || wire < |b| then None
    else
      var layer := SkipTags(b, 14, 2);
      if layer.kind != 0x0800 then None else ParseIp(b, wire, c, layer.start)
  }

  function ParsePlain(b: seq<byte>, wire: u32, c: Config): Option<Meta> {
    if !(SHORTEST <= |b| <= MAX_SNAP_PLAIN) then None
    else
      var layer := SkipTags(b, 14, 2);
      if layer.kind != 0x0800 || Byte(b, layer.start) != 0x45 then None else Parse(b, wire, c)
  }

  /** The loop over the tags. */
  method FindLayer(b: seq<byte>) returns (prefix: nat, ether: nat)
    requires |b| >= SHORTEST
    ensures Layer(prefix, ether) == SkipTags(b, 14, 2)
  {
    ether, prefix := Half(b, 12), 14;
    for i := 0 to 2
      invariant prefix == 14 + 4 * i && ether == Half(b, prefix - 2)
      invariant SkipTags(b, 14, 2) == SkipTags(b, prefix, 2 - i)
    {
      if !IsTag(ether) { break; }
      ether := Half(b, prefix + 2);
      prefix := prefix + 4;
    }
  }

  method ParseHeader(b: seq<byte>, wire: u32, c: Config) returns (r: Option<Meta>)
    ensures r == Parse(b, wire, c)
  {
    if !(SHORTEST <= |b| <= MAX_SNAP) || wire < |b| { return None; }
    var prefix, ether := FindLayer(b);
    if ether != 0x0800 { return None; }
    r := ParseIp(b, wire, c, prefix);
  }

  method ParsePlainHeader(b: seq<byte>, wire: u32, c: Config) returns (r: Option<Meta>)
    ensures r == ParsePlain(b, wire, c)
  {
    if !(SHORTEST <= |b| <= MAX_SNAP_PLAIN) { return None; }
    var prefix, ether := FindLayer(b);
    if ether != 0x0800 || Byte(b, prefix) != 0x45 { return None; }
    r := ParseHeader(b, wire, c);
  }

  // ----- agreement

  lemma DecisionSize(p: Packet, c: Config, l: nat, tags: nat, narrow: bool)
    requires l >= 2
    ensures var r := EtherKeeps(p, c, l, tags, narrow);
      r > 0 ==> l + 40 <= r <= |p.frame| && r <= l + 4 * tags + (if narrow then 40 else 80)
    decreases tags
  {
    if tags > 0 { DecisionSize(p, c, l + 4, tags - 1, narrow); }
  }

  lemma EtherSkips(p: Packet, c: Config, l: nat, tags: nat, narrow: bool)
    requires 2 <= l && l + 4 * tags <= |p.frame|
    ensures var layer := SkipTags(p.frame, l, tags);
      EtherKeeps(p, c, l, tags, narrow) == if layer.kind == 0x0800 then IpKeeps(p, c, layer.start, narrow) else 0
    decreases tags
  {
    if tags > 0 { EtherSkips(p, c, l + 4, tags - 1, narrow); }
  }

  lemma SkipPrefix(f: seq<byte>, n: nat, l: nat, tags: nat)
    requires 2 <= l && l + 4 * tags <= n <= |f|
    ensures SkipTags(f[..n], l, tags) == SkipTags(f, l, tags)
    decreases tags
  {
    if tags > 0 { SkipPrefix(f, n, l + 4, tags - 1); }
  }

  lemma ShrNibble(v: nat)
    requires v < 256
    ensures Shr(v, 4) == v / 16
  {
    assert Shr(v / 2 / 2 / 2 / 2, 0) == v / 16;
    assert Shr(v / 2 / 2, 2) == Shr(v / 2 / 2 / 2, 1);
  }

  /** From the TCP header on, the decision is the parser's. */
  lemma TcpAgrees(p: Packet, c: Config, l: nat, h: nat, n: nat, outbound: bool)
    requires 20 <= h && n == l + h + 20 <= |p.frame| && n <= p.wire
    ensures TcpKeeps(p, c, l, h, Half(p.frame, l + 2), outbound) == n
       <==> ParseTcp(p.frame[..n], p.wire, c, l, l + h, outbound).Some?
    ensures var kept := TcpKeeps(p, c, l, h, Half(p.frame, l + 2), outbound); kept == 0 || kept == n
  {
  }

  lemma TcpSize(p: Packet, c: Config, l: nat, h: nat, total: nat, outbound: bool)
    ensures var r := TcpKeeps(p, c, l, h, total, outbound); r > 0 ==> r == l + h + 20 <= |p.frame| && r <= p.wire
  {
  }

  lemma PeersSize(p: Packet, c: Config, l: nat, h: nat, total: nat)
    ensures PeersKeep(p, c, l, h, total) > 0 ==> PeersKeep(p, c, l, h, total) == l + h + 20
  {
    TcpSize(p, c, l, h, total, true);
    TcpSize(p, c, l, h, total, false);
  }

  lemma PeersAgree(p: Packet, c: Config, l: nat, h: nat, n: nat)
    requires 20 <= h && n == l + h + 20 <= |p.frame| && n <= p.wire
    ensures PeersKeep(p, c, l, h, Half(p.frame, l + 2)) == n
       <==> ParsePeers(p.frame[..n], p.wire, c, l, l + h).Some?
  {
    TcpAgrees(p, c, l, h, n, true);
    TcpAgrees(p, c, l, h, n, false);
  }

  /** On the first n bytes of a frame, the parser accepts an IPv4 packet exactly when the filter keeps n bytes of it. */
  lemma IpAgrees(p: Packet, c: Config, l: nat, n: nat)
    requires l + 40 <= n <= |p.frame| && n <= p.wire
    ensures IpKeeps(p, c, l, false) == n <==> ParseIp(p.frame[..n], p.wire, c, l).Some?
  {
    var b, v := p.frame[..n], Byte(p.frame, l);
    ShrNibble(v);
    LowNibble(v);
    FragmentBits(Half(p.frame, l + 6));
    var h := 4 * (v % 16);
    var total := Half(p.frame, l + 2);
    PeersSize(p, c, l, h, total);
    if h >= 20 && n == l + h + 20 { PeersAgree(p, c, l, h, n); }
  }

  lemma IpSize(p: Packet, c: Config, l: nat, narrow: bool)
    ensures var r := IpKeeps(p, c, l, narrow); r > 0 ==> l + 40 <= r <= |p.frame| && r <= p.wire
  {
    if l + 20 <= |p.frame| {
      var h := 4 * (Byte(p.frame, l) % 16);
      TcpSize(p, c, l, h, Half(p.frame, l + 2), true);
      TcpSize(p, c, l, h, Half(p.frame, l + 2), false);
    }
  }

  /**
   For every packet and every positive n: the filter keeps n bytes exactly when the parser accepts the first n
   bytes of the packet with that length on the wire.
   */
  lemma FilterIsParser(p: Packet, c: Config, n: nat)
    requires n > 0
    ensures Decision(p, c, false) == n <==> n <= |p.frame| && Parse(p.frame[..n], p.wire, c).Some?
  {
    DecisionSize(p, c, 14, 2, false);
    if SHORTEST <= n <= |p.frame| {
      EtherSkips(p, c, 14, 2, false);
      SkipPrefix(p.frame, n, 14, 2);
      var layer := SkipTags(p.frame, 14, 2);
      IpSize(p, c, layer.start, false);
      if layer.start + 40 <= n && n <= p.wire {
        IpAgrees(p, c, layer.start, n);
      }
    }
  }

  /** The same for the program itself: what the machine returns, and how far it looked. */
  lemma ProgramIsParser(p: Packet, c: Config, n: nat)
    requires n > 0
    ensures Filter(Program(c), p).result == n <==> n <= |p.frame| && Parse(p.frame[..n], p.wire, c).Some?
    ensures Filter(Program(c), p).result == n ==> Filter(Program(c), p).reach <= n
  {
    ProgramIsFilter(c);
    FilterDecides(Program(c), c, p, false);
    FilterIsParser(p, c, n);
  }

  // ----- without IPv4 options

  predicate PlainHeader(p: Packet) {
    |p.frame| >= SHORTEST && Byte(p.frame, SkipTags(p.frame, 14, 2).start) % 16 == 5
  }

  lemma IpNarrow(p: Packet, c: Config, l: nat)
    requires l + 1 <= |p.frame|
    ensures IpKeeps(p, c, l, true) == if Byte(p.frame, l) % 16 == 5 then IpKeeps(p, c, l, false) else 0
  {
  }

  /** The narrowed decision keeps exactly the packets whose IPv4 header is 20 bytes long, and at most 62 bytes. */
  lemma NarrowDecision(p: Packet, c: Config)
    ensures Decision(p, c, true) == if PlainHeader(p) then Decision(p, c, false) else 0
    ensures Decision(p, c, true) <= MAX_SNAP_PLAIN
  {
    DecisionSize(p, c, 14, 2, true);
    DecisionSize(p, c, 14, 2, false);
    if |p.frame| >= SHORTEST {
      EtherSkips(p, c, 14, 2, true);
      EtherSkips(p, c, 14, 2, false);
      IpNarrow(p, c, SkipTags(p.frame, 14, 2).start);
    }
  }

  lemma PlainByte(v: nat)
    requires v < 256
    ensures v == 0x45 <==> v / 16 == 4 && v % 16 == 5
  {
  }

  /** The narrowed filter keeps n bytes exactly when the narrowed parser accepts them. */
  lemma NarrowFilterIsParser(p: Packet, c: Config, n: nat)
    requires n > 0
    ensures Decision(p, c, true) == n <==> n <= |p.frame| && ParsePlain(p.frame[..n], p.wire, c).Some?
  {
    NarrowDecision(p, c);
    FilterIsParser(p, c, n);
    if SHORTEST <= n <= |p.frame| {
      var b, layer := p.frame[..n], SkipTags(p.frame, 14, 2);
      SkipPrefix(p.frame, n, 14, 2);
      var v := Byte(b, layer.start);
      PlainByte(v);
      ShrNibble(v);
    } else {
      DecisionSize(p, c, 14, 2, true);
    }
  }
}
