/**
 Ethernet frames with an IPv4 and a TCP header, laid out from the values of their fields in network order: section 3.1
 of RFC 791 and section 3.1 of RFC 9293, behind any number of 802.1Q tags.
 */
module Frames {
  import opened Bytes

  datatype Tag = Tag(kind: u16, control: u16)

  /** options is the rest of the IPv4 header; flags are the nine TCP flag bits, offset counts four-byte words. */
  datatype Frame = Frame(
    macs: seq<byte>, tags: seq<Tag>,
    tos: byte, total: u16, id: u16, fragment: u16, ttl: byte, protocol: byte, ipSum: u16, src: u32, dst: u32,
    options: seq<byte>,
    sport: u16, dport: u16, number: u32, ack: u32, offset: nat, reserved: nat, flags: nat, win: u16, tcpSum: u16,
    urgent: u16, rest: seq<byte>)
  {
    predicate Fits() {
      && |macs| == 12 && |options| % 4 == 0 && |options| <= 40
      && offset < 16 && reserved < 8 && flags < 512
    }

    /** Where the IPv4 header starts, and where the TCP header does. */
    function L(): nat { 14 + 4 * |tags| }

    function IpHeader(): nat { 20 + |options| }

    function TcpHeader(): nat { 4 * offset }

    function Base(): nat { L() + IpHeader() }
  }

  function Be16(v: u16): (s: seq<byte>)
    ensures |s| == 2
  {
    [v / 256, v % 256]
  }

  function Be32(v: u32): (s: seq<byte>)
    ensures |s| == 4
  {
    Be16(v / 0x1_0000) + Be16(v % 0x1_0000)
  }

  function TagBytes(tags: seq<Tag>): (s: seq<byte>)
    ensures |s| == 4 * |tags|
  {
    if tags == [] then [] else Be16(tags[0].kind) + Be16(tags[0].control) + TagBytes(tags[1..])
  }

  function IpBytes(f: Frame): (s: seq<byte>)
    requires f.Fits()
    ensures |s| == 20
  {
    [0x40 + f.IpHeader() / 4] + [f.tos] + Be16(f.total) + Be16(f.id) + Be16(f.fragment) + [f.ttl] + [f.protocol]
    + Be16(f.ipSum) + Be32(f.src) + Be32(f.dst)
  }

  function TcpBytes(f: Frame): (s: seq<byte>)
    requires f.Fits()
    ensures |s| == 20
  {
    Be16(f.sport) + Be16(f.dport) + Be32(f.number) + Be32(f.ack) + [f.offset * 16 + f.reserved * 2 + f.flags / 256]
    + [f.flags % 256] + Be16(f.win) + Be16(f.tcpSum) + Be16(f.urgent)
  }

  function EtherBytes(f: Frame, kind: u16): seq<byte> {
    f.macs + TagBytes(f.tags) + Be16(kind)
  }

  function Laid(f: Frame): (s: seq<byte>)
    requires f.Fits()
    ensures |s| == f.Base() + 20 + |f.rest|
  {
    EtherBytes(f, 0x800) + IpBytes(f) + f.options + TcpBytes(f) + f.rest
  }

  // ----- what stands where

  /** A two-byte number in network order. */
  predicate Shows16(s: seq<byte>, p: nat, v: nat) {
    p + 2 <= |s| && var high: nat, low: nat := s[p], s[p + 1]; v == 256 * high + low
  }

  predicate Shows32(s: seq<byte>, p: nat, v: nat) {
    && p + 4 <= |s|
    && var a: nat, b: nat, c: nat, d: nat := s[p], s[p + 1], s[p + 2], s[p + 3];
      v == 0x100_0000 * a + 0x1_0000 * b + 0x100 * c + d
  }

  lemma ShowsBe16(v: u16)
    ensures Shows16(Be16(v), 0, v)
  {
  }

  lemma ShowsBe32(v: u32)
    ensures Shows32(Be32(v), 0, v)
  {
    var high, low := Be16(v / 0x1_0000), Be16(v % 0x1_0000);
    ShowsBe16(v / 0x1_0000);
    ShowsBe16(v % 0x1_0000);
    assert Be32(v)[2] == low[0] && Be32(v)[3] == low[1];
  }

  /** A piece of a longer sequence shows what it shows by itself. */
  lemma Inside16(s: seq<byte>, at: nat, piece: seq<byte>, p: nat, v: nat)
    requires at + |piece| <= |s| && s[at..at + |piece|] == piece && Shows16(piece, p, v)
    ensures Shows16(s, at + p, v)
  {
    assert piece[p] == s[at + p] && piece[p + 1] == s[at + p + 1];
  }

  lemma Inside32(s: seq<byte>, at: nat, piece: seq<byte>, p: nat, v: nat)
    requires at + |piece| <= |s| && s[at..at + |piece|] == piece && Shows32(piece, p, v)
    ensures Shows32(s, at + p, v)
  {
    assert piece[p] == s[at + p] && piece[p + 1] == s[at + p + 1];
    assert piece[p + 2] == s[at + p + 2] && piece[p + 3] == s[at + p + 3];
  }

  lemma IpPieces(f: Frame)
    requires f.Fits()
    ensures var s := IpBytes(f);
      && s[0] == 0x40 + f.IpHeader() / 4 && s[2..4] == Be16(f.total) && s[6..8] == Be16(f.fragment)
      && s[9] == f.protocol && s[12..16] == Be32(f.src) && s[16..20] == Be32(f.dst)
  {
  }

  lemma TcpPieces(f: Frame)
    requires f.Fits()
    ensures var s := TcpBytes(f);
      && s[0..2] == Be16(f.sport) && s[2..4] == Be16(f.dport) && s[4..8] == Be32(f.number) && s[8..12] == Be32(f.ack)
      && s[12] == f.offset * 16 + f.reserved * 2 + f.flags / 256 && s[13] == f.flags % 256 && s[14..16] == Be16(f.win)
  {
  }

  lemma IpShows(f: Frame)
    requires f.Fits()
    ensures var s := IpBytes(f);
      && Shows16(s, 2, f.total) && Shows16(s, 6, f.fragment) && Shows32(s, 12, f.src) && Shows32(s, 16, f.dst)
  {
    IpPieces(f);
    var s := IpBytes(f);
    ShowsBe16(f.total);
    Inside16(s, 2, Be16(f.total), 0, f.total);
    ShowsBe16(f.fragment);
    Inside16(s, 6, Be16(f.fragment), 0, f.fragment);
    ShowsBe32(f.src);
    Inside32(s, 12, Be32(f.src), 0, f.src);
    ShowsBe32(f.dst);
    Inside32(s, 16, Be32(f.dst), 0, f.dst);
  }

  lemma TcpShows(f: Frame)
    requires f.Fits()
    ensures var s := TcpBytes(f);
      && Shows16(s, 0, f.sport) && Shows16(s, 2, f.dport) && Shows32(s, 4, f.number) && Shows32(s, 8, f.ack)
      && Shows16(s, 14, f.win)
  {
    TcpPieces(f);
    var s := TcpBytes(f);
    ShowsBe16(f.sport);
    Inside16(s, 0, Be16(f.sport), 0, f.sport);
    ShowsBe16(f.dport);
    Inside16(s, 2, Be16(f.dport), 0, f.dport);
    ShowsBe32(f.number);
    Inside32(s, 4, Be32(f.number), 0, f.number);
    ShowsBe32(f.ack);
    Inside32(s, 8, Be32(f.ack), 0, f.ack);
    ShowsBe16(f.win);
    Inside16(s, 14, Be16(f.win), 0, f.win);
  }

  /** The four parts of the frame, where they start. */
  lemma LaidParts(f: Frame)
    requires f.Fits()
    ensures var s := Laid(f);
      && s[..f.L()] == EtherBytes(f, 0x800) && s[f.L()..f.L() + 20] == IpBytes(f)
      && s[f.Base()..f.Base() + 20] == TcpBytes(f) && s[f.Base() + 20..] == f.rest
  {
  }

  /** What every frame shows of its IPv4 header. */
  lemma LaidIp(f: Frame)
    requires f.Fits()
    ensures var s, l := Laid(f), f.L();
      && s[l] == 0x40 + f.IpHeader() / 4 && Shows16(s, l + 2, f.total) && Shows16(s, l + 6, f.fragment)
      && s[l + 9] == f.protocol && Shows32(s, l + 12, f.src) && Shows32(s, l + 16, f.dst)
  {
    LaidParts(f);
    IpPieces(f);
    IpShows(f);
    var s, l, p := Laid(f), f.L(), IpBytes(f);
    assert s[l..l + 20][0] == s[l] && s[l..l + 20][9] == s[l + 9];
    Inside16(s, l, p, 2, f.total);
    Inside16(s, l, p, 6, f.fragment);
    Inside32(s, l, p, 12, f.src);
    Inside32(s, l, p, 16, f.dst);
  }

  lemma LaidTcp(f: Frame)
    requires f.Fits()
    ensures var s, b := Laid(f), f.Base();
      && Shows16(s, b, f.sport) && Shows16(s, b + 2, f.dport) && Shows32(s, b + 4, f.number) && Shows32(s, b + 8, f.ack)
      && s[b + 12] == f.offset * 16 + f.reserved * 2 + f.flags / 256 && s[b + 13] == f.flags % 256
      && Shows16(s, b + 14, f.win)
  {
    LaidParts(f);
    TcpPieces(f);
    TcpShows(f);
    var s, b, p := Laid(f), f.Base(), TcpBytes(f);
    assert s[b..b + 20][12] == s[b + 12] && s[b..b + 20][13] == s[b + 13];
    Inside16(s, b, p, 0, f.sport);
    Inside16(s, b, p, 2, f.dport);
    Inside32(s, b, p, 4, f.number);
    Inside32(s, b, p, 8, f.ack);
    Inside16(s, b, p, 14, f.win);
  }

  /** The type field that is k tags in: a tag's, or the last one. */
  function KindAt(f: Frame, k: nat): u16
    requires k <= |f.tags|
  {
    if k < |f.tags| then f.tags[k].kind else 0x800
  }

  lemma {:induction false} TagShows(tags: seq<Tag>, k: nat)
    requires k < |tags|
    ensures Shows16(TagBytes(tags), 4 * k, tags[k].kind)
  {
    var s := TagBytes(tags);
    if k == 0 {
      ShowsBe16(tags[0].kind);
      assert s[0..2] == Be16(tags[0].kind);
      Inside16(s, 0, Be16(tags[0].kind), 0, tags[0].kind);
    } else {
      TagShows(tags[1..], k - 1);
      assert s[4..4 + |TagBytes(tags[1..])|] == TagBytes(tags[1..]);
      Inside16(s, 4, TagBytes(tags[1..]), 4 * (k - 1), tags[k].kind);
    }
  }

  lemma LaidKind(f: Frame, k: nat)
    requires f.Fits() && k <= |f.tags|
    ensures Shows16(Laid(f), 12 + 4 * k, KindAt(f, k))
  {
    LaidParts(f);
    var s, e := Laid(f), EtherBytes(f, 0x800);
    if k < |f.tags| {
      TagShows(f.tags, k);
      assert e[12..12 + |TagBytes(f.tags)|] == TagBytes(f.tags);
      Inside16(e, 12, TagBytes(f.tags), 4 * k, f.tags[k].kind);
    } else {
      ShowsBe16(0x800);
      assert e[12 + 4 * k..14 + 4 * k] == Be16(0x800);
      Inside16(e, 12 + 4 * k, Be16(0x800), 0, 0x800);
    }
    assert s[0..|e|] == e;
    Inside16(s, 0, e, 12 + 4 * k, KindAt(f, k));
  }
}
