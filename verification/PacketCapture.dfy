/** Narrowing the filter to IPv4 headers without options, and reading batches of captured records. */
module PacketCapture {
  import opened Bytes
  import opened Bpf
  import opened HeaderFilter
  import opened FilterMeaning
  import opened HeaderParser
  import opened HeaderFields
  import Frames

  // ----- the one-instruction patch

  /** The row compares a header length with five, behind the mask that extracts it. */
  predicate Probed(prog: seq<Instr>, i: nat)
    requires i < |prog|
  {
    prog[i].op == JgeK && prog[i].k == 5 && prog[if i == 0 then |prog| - 1 else i - 1] == Instr(AndK, 0, 0, 15)
  }

  /** The two rows behind a probed one are looked at; running out of rows is an error. */
  predicate Overruns(prog: seq<Instr>, i: nat)
    requires i < |prog|
  {
    Probed(prog, i) && (i + 1 >= |prog| || (prog[i + 1] == Instr(LshK, 0, 0, 2) && i + 2 >= |prog|))
  }

  predicate Matches(prog: seq<Instr>, i: nat)
    requires i < |prog|
  {
    Probed(prog, i) && i + 2 < |prog| && prog[i + 1] == Instr(LshK, 0, 0, 2) && prog[i + 2] == Instr(St, 0, 0, 1)
  }

  /** Position i is the only match and no probe runs past the end. */
  predicate OnlyMatch(prog: seq<Instr>, i: nat) {
    && i < |prog| && Matches(prog, i)
    && forall j :: 0 <= j < |prog| ==> !Overruns(prog, j) && (Matches(prog, j) ==> j == i)
  }

  method PatchHeaderLength(prog: seq<Instr>) returns (r: Option<seq<Instr>>)
    ensures r.Some? ==> exists i: nat :: OnlyMatch(prog, i) && r.value == prog[i := prog[i].(op := JeqK)]
    ensures r.None? ==> forall i: nat :: !OnlyMatch(prog, i)
  {
    var matches: seq<nat> := [];
    for index := 0 to |prog|
      invariant forall k :: 0 <= k < |matches| ==> matches[k] < index && Matches(prog, matches[k])
      invariant forall j :: 0 <= j < index ==> !Overruns(prog, j) && (Matches(prog, j) ==> j in matches)
      invariant forall k, l :: 0 <= k < l < |matches| ==> matches[k] != matches[l]
    {
      if Overruns(prog, index) { return None; }
      if Matches(prog, index) { matches := matches + [index]; }
    }
    if |matches| != 1 {
      if |matches| > 1 { assert matches[0] != matches[1]; }
      return None;
    }
    assert OnlyMatch(prog, matches[0]);
    return Some(prog[matches[0] := prog[matches[0]].(op := JeqK)]);
  }

  function NarrowProgram(c: Config): (p: seq<Instr>)
    ensures |p| == ROWS
  {
    Program(c)[IHL_ROW := InstrAt(IHL_ROW, c).(op := JeqK)]
  }

  /** For every address pair and port the patch has exactly one place to go. */
  lemma PatchPlace(c: Config, i: nat)
    ensures OnlyMatch(Program(c), i) <==> i == IHL_ROW
  {
    var prog := Program(c);
    forall j | 0 <= j < ROWS
      ensures prog[j].op == JgeK && prog[j].k == 5 <==> j == IHL_ROW
    {
      AllForward(j, c);
    }
    PatchedRowMatches(c);
    assert forall j :: 0 <= j < ROWS && Probed(prog, j) ==> j == IHL_ROW;
  }

  lemma PatchedRowMatches(c: Config)
    ensures Matches(Program(c), IHL_ROW)
  {
    ProgramIsFilter(c);
    FetchIp(Program(c), c, false);
  }

  method BuildNarrowFilter(c: Config) returns (r: Option<seq<Instr>>)
    ensures r == Some(NarrowProgram(c))
  {
    var built := BuildFilter(c);
    r := PatchHeaderLength(built.value);
    PatchPlace(c, IHL_ROW);
    if r.Some? {
      var i: nat :| OnlyMatch(Program(c), i) && r.value == Program(c)[i := Program(c)[i].(op := JeqK)];
      PatchPlace(c, i);
    }
  }

  /**
   The patched program keeps exactly what the original keeps of packets with a 20-byte IPv4 header, drops all
   others, never keeps more than 62 bytes, and loads nothing past what it keeps.
   */
  lemma NarrowProgramMeaning(c: Config, p: Packet)
    ensures Filter(NarrowProgram(c), p).result == if PlainHeader(p) then Filter(Program(c), p).result else 0
    ensures Filter(NarrowProgram(c), p).result <= MAX_SNAP_PLAIN
    ensures Filter(NarrowProgram(c), p).result > 0 ==>
      Filter(NarrowProgram(c), p).reach <= Filter(NarrowProgram(c), p).result
  {
    ProgramIsFilter(c);
    FilterDecides(Program(c), c, p, false);
    NarrowIsFilter(c);
    FilterDecides(NarrowProgram(c), c, p, true);
    NarrowDecision(p, c);
  }

  lemma NarrowIsFilter(c: Config)
    ensures IsFilter(NarrowProgram(c), c, true)
  {
  }

  /** The patched program and the narrowed parser accept the same packets. */
  lemma NarrowProgramIsParser(c: Config, p: Packet, n: nat)
    requires n > 0
    ensures Filter(NarrowProgram(c), p).result == n <==> n <= |p.frame| && ParsePlain(p.frame[..n], p.wire, c).Some?
  {
    NarrowIsFilter(c);
    FilterDecides(NarrowProgram(c), c, p, true);
    NarrowFilterIsParser(p, c, n);
  }

  // ----- batches of records

  const HEADER := 20      // the record header, padding included
  const MAX_BATCH := 65536

  datatype Entry = Entry(sec: int, usec: int, meta: Meta)

  /** A four-byte little-endian two's complement integer. */
  function Signed32(v: nat): int {
    if v < 0x8000_0000 then v else v - 0x1_0000_0000
  }

  function Align4(n: nat): (r: nat)
    ensures n <= r < n + 4 && r % 4 == 0
  {
    (n + 3) / 4 * 4
  }

  /** The record at the front of s, its header fields being read. */
  function RecordOf(s: seq<byte>, sec: int, usec: int, caplen: nat, wire: u32, hdrlen: nat, c: Config)
    : (r: Option<(Entry, nat)>)
    ensures r.Some? ==> HEADER <= r.value.1 <= |s|
  {
    if hdrlen < HEADER || !(0 <= usec < 1000000) then None
    else if caplen > MAX_SNAP_PLAIN || hdrlen + caplen > |s| || Align4(hdrlen + caplen) > |s| then None
    else Timed(sec, usec, ParsePlain(s[hdrlen..hdrlen + caplen], wire, c), Align4(hdrlen + caplen))
  }

  function Timed(sec: int, usec: int, m: Option<Meta>, n: nat): Option<(Entry, nat)> {
    if m.None? then None else Some((Entry(sec, usec, m.value), n))
  }

  /** One record at the front of s: its entry and its length with padding. */
  function ReadRecord(s: seq<byte>, c: Config): (r: Option<(Entry, nat)>)
    ensures r.Some? ==> HEADER <= r.value.1 <= |s|
  {
    if |s| < HEADER then None
    else
      Pow256Values();
      RecordOf(s, Signed32(Get(s, 0, 4)), Signed32(Get(s, 4, 4)), Get(s, 8, 4), Get(s, 12, 4), Get(s, 16, 2), c)
  }

  /** All records of s, or nothing at all. */
  function ReadBatch(s: seq<byte>, c: Config): Option<seq<Entry>>
    decreases |s|
  {
    if s == [] then Some([])
    else
      var first := ReadRecord(s, c);
      if first.None? then None
      else
        var rest := ReadBatch(s[first.value.1..], c);
        if rest.None? then None else Some([first.value.0] + rest.value)
  }

  method CheckRecord(buffer: seq<byte>, offset: nat, received: nat, sec: int, usec: int, caplen: nat, wire: u32,
      hdrlen: nat, c: Config)
    returns (r: Option<(Entry, nat)>)
    requires offset < received <= |buffer|
    ensures r == RecordOf(buffer[offset..received], sec, usec, caplen, wire, hdrlen, c)
  {
    ghost var s := buffer[offset..received];
    if hdrlen < HEADER || !(0 <= usec < 1000000) { return None; }
    var end, next := offset + hdrlen + caplen, offset + Align4(hdrlen + caplen);
    if caplen > MAX_SNAP_PLAIN || end > received || next > received { return None; }
    var frame := buffer[offset + hdrlen..end];
    assert frame == s[hdrlen..hdrlen + caplen] by { SubSlice(buffer, offset, received, hdrlen, hdrlen + caplen); }
    var meta := ParsePlainHeader(frame, wire, c);
    r := Timed(sec, usec, meta, next - offset);
  }

  method ParseRecord(buffer: seq<byte>, offset: nat, received: nat, c: Config) returns (r: Option<(Entry, nat)>)
    requires offset < received <= |buffer|
    ensures r == ReadRecord(buffer[offset..received], c)
  {
    if received - offset < HEADER { return None; }
    FieldAt(buffer, offset, received, 0, 4);
    FieldAt(buffer, offset, received, 4, 4);
    FieldAt(buffer, offset, received, 8, 4);
    FieldAt(buffer, offset, received, 12, 4);
    FieldAt(buffer, offset, received, 16, 2);
    Pow256Values();
    var sec, usec := Signed32(Get(buffer, offset, 4)), Signed32(Get(buffer, offset + 4, 4));
    var caplen, datalen := Get(buffer, offset + 8, 4), Get(buffer, offset + 12, 4);
    var hdrlen := Get(buffer, offset + 16, 2);
    r := CheckRecord(buffer, offset, received, sec, usec, caplen, datalen, hdrlen, c);
  }

  lemma FieldAt(buffer: seq<byte>, offset: nat, received: nat, p: nat, n: nat)
    requires offset + p + n <= received <= |buffer|
    ensures Get(buffer[offset..received], p, n) == Get(buffer, offset + p, n)
  {
    SubSlice(buffer, offset, received, p, p + n);
  }

  const LOCAL: u32 := 0xC0A8_019A  // 192.168.1.154

  /** A capture as it was asked for; absolute says that the output file's path is. */
  datatype Session = Session(config: Config, ttl: int, absolute: bool)

  /** An address of section 3 of RFC 1918 that is neither a network's nor a broadcast one. */
  predicate PrivateUnicast(a: u32) {
    (a / 0x100_0000 == 10 || a / 0x10_0000 == 0xAC1 || a / 0x1_0000 == 0xC0A8) && 0 < a % 256 < 255
  }

  predicate Permitted(s: Session) {
    && s.config.local == LOCAL && PrivateUnicast(s.config.peer) && s.config.peer != LOCAL
    && s.config.port >= 1024 && 1 <= s.ttl <= 120 && s.absolute
  }

  datatype Batch = BadConfig | Unsafe | Rows(rows: seq<Entry>)

  /** A session that is not permitted or a length out of bounds is refused; one unsafe record refuses all. */
  method ParseBatch(buffer: seq<byte>, received: int, session: Session) returns (r: Batch)
    ensures r == if !Permitted(session) then BadConfig
      else if !(0 <= received <= |buffer| && received <= MAX_BATCH) then Unsafe
      else match ReadBatch(buffer[..received], session.config) case None => Unsafe case Some(rows) => Rows(rows)
  {
    if !Permitted(session) { return BadConfig; }
    if received < 0 || received > |buffer| || received > MAX_BATCH { return Unsafe; }
    var rows := ParseRecords(buffer, received, session.config);
    r := if rows.None? then Unsafe else Rows(rows.value);
  }

  method ParseRecords(buffer: seq<byte>, received: nat, c: Config) returns (r: Option<seq<Entry>>)
    requires received <= |buffer|
    ensures r == ReadBatch(buffer[..received], c)
  {
    ghost var rest := buffer[..received];
    ghost var goal := ReadBatch(rest, c);
    var rows: seq<Entry>, offset := [], 0;
    assert goal.Some? ==> [] + goal.value == goal.value;
    while offset < received
      invariant offset <= received && rest == buffer[offset..received]
      invariant goal == Joined(rows, ReadBatch(rest, c))
      decreases received - offset
    {
      var one := ParseRecord(buffer, offset, received, c);
      JoinStep(rows, rest, c);
      if one.None? { return None; }
      SubSlice(buffer, offset, received, one.value.1, received - offset);
      rest := rest[one.value.1..];
      rows := rows + [one.value.0];
      offset := offset + one.value.1;
    }
    assert rows + [] == rows;
    return Some(rows);
  }

  function Joined(rows: seq<Entry>, rest: Option<seq<Entry>>): Option<seq<Entry>> {
    if rest.None? then None else Some(rows + rest.value)
  }

  lemma JoinStep(rows: seq<Entry>, s: seq<byte>, c: Config)
    requires s != []
    ensures var one := ReadRecord(s, c);
      Joined(rows, ReadBatch(s, c)) ==
      if one.None? then None else Joined(rows + [one.value.0], ReadBatch(s[one.value.1..], c))
  {
    ReadFirst(s, c);
    var one := ReadRecord(s, c);
    if one.Some? {
      var rest := ReadBatch(s[one.value.1..], c);
      if rest.Some? { assert rows + ([one.value.0] + rest.value) == rows + [one.value.0] + rest.value; }
    }
  }

  /** A record as the driver lays it out. */
  datatype Record = Record(sec: int, usec: nat, wire: u32, gap: nat, frame: seq<byte>)
  {
    predicate Fits() {
      -0x8000_0000 <= sec < 0x8000_0000 && usec < 1000000 && gap < 0xFF00 && |frame| <= MAX_SNAP_PLAIN
    }
  }

  function Unsigned32(x: int): (v: nat)
    requires -0x8000_0000 <= x < 0x8000_0000
    ensures v < 0x1_0000_0000 && Signed32(v) == x
  {
    if x < 0 then x + 0x1_0000_0000 else x
  }

  function RecordHead(r: Record): (h: seq<byte>)
    requires r.Fits()
    ensures |h| == 18
  {
    LE(Unsigned32(r.sec), 4) + LE(r.usec, 4) + LE(|r.frame|, 4) + LE(r.wire, 4) + LE(HEADER + r.gap, 2)
  }

  function Padding(r: Record): nat {
    Align4(HEADER + r.gap + |r.frame|) - (HEADER + r.gap + |r.frame|)
  }

  function RecordBytes(r: Record): (s: seq<byte>)
    requires r.Fits()
    ensures |s| == Align4(HEADER + r.gap + |r.frame|)
  {
    RecordHead(r) + Zeros(2 + r.gap) + r.frame + Zeros(Padding(r))
  }

  lemma HeadPieces(a: seq<byte>, b: seq<byte>, c: seq<byte>, d: seq<byte>, e: seq<byte>, rest: seq<byte>)
    requires |a| == |b| == |c| == |d| == 4 && |e| == 2
    ensures var s := a + b + c + d + e + rest;
      s[0..4] == a && s[4..8] == b && s[8..12] == c && s[12..16] == d && s[16..18] == e
  {
  }

  lemma RecordFields(r: Record, rest: seq<byte>)
    requires r.Fits()
    ensures var s := RecordBytes(r) + rest;
      && Get(s, 0, 4) == Unsigned32(r.sec) && Get(s, 4, 4) == r.usec && Get(s, 8, 4) == |r.frame|
      && Get(s, 12, 4) == r.wire && Get(s, 16, 2) == HEADER + r.gap
  {
    var s := RecordBytes(r) + rest;
    var tail := Zeros(2 + r.gap) + r.frame + Zeros(Padding(r)) + rest;
    assert s == RecordHead(r) + tail;
    HeadPieces(LE(Unsigned32(r.sec), 4), LE(r.usec, 4), LE(|r.frame|, 4), LE(r.wire, 4), LE(HEADER + r.gap, 2), tail);
    Pow256Values();
    LERoundTrip(Unsigned32(r.sec), 4);
    LERoundTrip(r.usec, 4);
    LERoundTrip(|r.frame|, 4);
    LERoundTrip(r.wire, 4);
    LERoundTrip(HEADER + r.gap, 2);
  }

  lemma RecordFrame(r: Record, rest: seq<byte>)
    requires r.Fits()
    ensures var s := RecordBytes(r) + rest;
      && s[HEADER + r.gap..HEADER + r.gap + |r.frame|] == r.frame
      && s[|RecordBytes(r)|..] == rest
  {
    var front := RecordHead(r) + Zeros(2 + r.gap);
    assert RecordBytes(r) + rest == front + r.frame + (Zeros(Padding(r)) + rest);
  }

  function BatchBytes(rs: seq<Record>): seq<byte>
    requires forall r :: r in rs ==> r.Fits()
  {
    if rs == [] then [] else RecordBytes(rs[0]) + BatchBytes(rs[1..])
  }

  lemma FieldsRead(s: seq<byte>, r: Record, c: Config)
    requires r.Fits() && |s| >= HEADER
    requires Get(s, 0, 4) == Unsigned32(r.sec) && Get(s, 4, 4) == r.usec && Get(s, 8, 4) == |r.frame|
    requires Get(s, 12, 4) == r.wire && Get(s, 16, 2) == HEADER + r.gap
    ensures ReadRecord(s, c) == RecordOf(s, r.sec, r.usec, |r.frame|, r.wire, HEADER + r.gap, c)
  {
  }

  lemma FrameRead(s: seq<byte>, r: Record, c: Config, n: nat)
    requires r.Fits() && n == Align4(HEADER + r.gap + |r.frame|) <= |s|
    requires s[HEADER + r.gap..HEADER + r.gap + |r.frame|] == r.frame
    ensures RecordOf(s, r.sec, r.usec, |r.frame|, r.wire, HEADER + r.gap, c)
      == Timed(r.sec, r.usec, ParsePlain(r.frame, r.wire, c), n)
  {
  }

  lemma RecordRead(s: seq<byte>, r: Record, c: Config, n: nat)
    requires r.Fits() && n == Align4(HEADER + r.gap + |r.frame|) <= |s|
    requires Get(s, 0, 4) == Unsigned32(r.sec) && Get(s, 4, 4) == r.usec && Get(s, 8, 4) == |r.frame|
    requires Get(s, 12, 4) == r.wire && Get(s, 16, 2) == HEADER + r.gap
    requires s[HEADER + r.gap..HEADER + r.gap + |r.frame|] == r.frame
    ensures ReadRecord(s, c) == Timed(r.sec, r.usec, ParsePlain(r.frame, r.wire, c), n)
  {
    FieldsRead(s, r, c);
    FrameRead(s, r, c, n);
  }

  lemma ReadRecordBack(r: Record, rest: seq<byte>, c: Config)
    requires r.Fits()
    ensures var s := RecordBytes(r) + rest;
      && ReadRecord(s, c) == Timed(r.sec, r.usec, ParsePlain(r.frame, r.wire, c), |RecordBytes(r)|)
      && s[|RecordBytes(r)|..] == rest
  {
    var s := RecordBytes(r) + rest;
    RecordFields(r, rest);
    RecordFrame(r, rest);
    RecordRead(s, r, c, |RecordBytes(r)|);
  }

  lemma ReadFirst(s: seq<byte>, c: Config)
    requires s != []
    ensures var first := ReadRecord(s, c);
      ReadBatch(s, c) == if first.None? then None else Joined([first.value.0], ReadBatch(s[first.value.1..], c))
  {
  }

  /** A record of a frame without options, laid out from values the session wants. */
  predicate Captured(r: Record, f: Frames.Frame, c: Config) {
    && r.Fits() && f.Fits() && Tagged(f) && f.options == [] && Wanted(f, r.wire, c)
    && r.frame == Frames.Laid(f)
  }

  function Shown(r: Record, f: Frames.Frame, c: Config): Entry {
    Entry(r.sec, r.usec, MetaOf(f, r.wire, c))
  }

  function Entries(rs: seq<Record>, fs: seq<Frames.Frame>, c: Config): seq<Entry>
    requires |fs| == |rs|
  {
    if rs == [] then [] else [Shown(rs[0], fs[0], c)] + Entries(rs[1..], fs[1..], c)
  }

  lemma CapturedReads(r: Record, f: Frames.Frame, rest: seq<byte>, c: Config)
    requires Captured(r, f, c)
    ensures var s := RecordBytes(r) + rest;
      ReadRecord(s, c) == Some((Shown(r, f, c), |RecordBytes(r)|)) && s[|RecordBytes(r)|..] == rest
  {
    PlainFieldsReturned(f, r.wire, c);
    ReadRecordBack(r, rest, c);
  }

  lemma FirstOf(s: seq<byte>, c: Config, e: Entry, n: nat, rest: seq<byte>, es: seq<Entry>)
    requires s != [] && ReadRecord(s, c) == Some((e, n)) && s[n..] == rest && ReadBatch(rest, c) == Some(es)
    ensures ReadBatch(s, c) == Some([e] + es)
  {
    ReadFirst(s, c);
  }

  /**
   Records laid out one behind the other come back one by one and in order, each with its time stamp and the very
   field values its frame was laid out from.
   */
  lemma {:induction false} BatchRoundTrip(rs: seq<Record>, fs: seq<Frames.Frame>, c: Config)
    requires |fs| == |rs| && forall i :: 0 <= i < |rs| ==> Captured(rs[i], fs[i], c)
    ensures (forall r :: r in rs ==> r.Fits()) && ReadBatch(BatchBytes(rs), c) == Some(Entries(rs, fs, c))
  {
    if rs != [] {
      var r, f := rs[0], fs[0];
      assert Captured(r, f, c);
      BatchRoundTrip(rs[1..], fs[1..], c);
      var rest := BatchBytes(rs[1..]);
      CapturedReads(r, f, rest, c);
      FirstOf(RecordBytes(r) + rest, c, Shown(r, f, c), |RecordBytes(r)|, rest, Entries(rs[1..], fs[1..], c));
    }
  }

  /** One record the parser refuses makes the whole batch worthless, wherever it stands. */
  lemma {:induction false} BatchAtomic(rs: seq<Record>, c: Config)
    requires forall r :: r in rs ==> r.Fits()
    requires exists r :: r in rs && ParsePlain(r.frame, r.wire, c).None?
    ensures ReadBatch(BatchBytes(rs), c) == None
  {
    ReadRecordBack(rs[0], BatchBytes(rs[1..]), c);
    ReadFirst(RecordBytes(rs[0]) + BatchBytes(rs[1..]), c);
    if ParsePlain(rs[0].frame, rs[0].wire, c).Some? {
      BatchAtomic(rs[1..], c);
    }
  }
}
