/** Where each field of a trace stands in its stored form, and what the packed form looks like. */
module TraceLayout {
  import opened Bytes
  import opened Crc32
  import opened TraceModel
  import opened TraceBlob
  import opened TracePack

  // ----- the blob

  /** The two's complement value of a word. */
  function Signed(v: nat): int {
    if v < 0x8000 then v else v - 0x1_0000
  }

  /** A stored row begins with the boot, the clock and the time. */
  predicate StampsAt(b: seq<byte>, p: nat, s: Sample) {
    && p + 48 <= |b|
    && Get(b, p, 4) == s.boot && Get(b, p + 4, 8) == s.monotonicMs && Get(b, p + 12, 8) == s.epoch
  }

  predicate PowerAt(b: seq<byte>, p: nat, s: Sample) {
    && p + 48 <= |b|
    && Get(b, p + 20, 2) == s.flags && Get(b, p + 22, 2) == s.soc && Get(b, p + 24, 2) == s.voltageMv
    && Signed(Get(b, p + 26, 2)) == s.currentMa && Signed(Get(b, p + 28, 2)) == s.averageCurrentMa
    && Get(b, p + 30, 2) == s.remainingMah && Get(b, p + 32, 2) == s.fullMah
  }

  /** The last word is the raw coulomb count if bit 5 of the flags says there is one. */
  predicate HealthAt(b: seq<byte>, p: nat, s: Sample) {
    && p + 48 <= |b|
    && Get(b, p + 34, 2) == s.designMah && Get(b, p + 36, 2) == s.operationStatus
    && Get(b, p + 38, 2) == s.batteryStatus && Get(b, p + 40, 2) == s.stateOfHealth
    && Get(b, p + 42, 2) == s.cycleCount && Get(b, p + 44, 2) == s.temperatureDeciK
    && Get(b, p + 46, 2) == if s.flags / 32 % 2 == 1 then s.rawCoulombMah else 0
  }

  lemma FieldMoves(b: seq<byte>, r: seq<byte>, p: nat, q: nat, n: nat)
    requires p + |r| <= |b| && b[p..p + |r|] == r && q + n <= |r|
    ensures Get(b, p + q, n) == Get(r, q, n)
  {
    SubSlice(b, p, p + |r|, q, q + n);
  }

  lemma WordOfRow(w: seq<byte>, s: Sample, k: nat)
    requires k < 14 && w == Words(RowWords(s))
    ensures Get(w, 2 * k, 2) == RowWords(s)[k]
  {
    ReadWordsOfWords(RowWords(s));
    ReadWordsAt(w, k);
  }

  lemma MeasurementsStand(b: seq<byte>, p: nat, s: Sample)
    requires p + 48 <= |b| && b[p..p + 48] == EncodeRow(s)
    ensures b[p + 20..p + 48] == Words(RowWords(s))
  {
    RowParts(s);
    SubSlice(b, p, p + 48, 20, 48);
    assert EncodeRow(s)[20..48] == EncodeRow(s)[20..];
  }

  lemma WordStands(b: seq<byte>, p: nat, s: Sample, k: nat, q: nat)
    requires k < 14 && p + 48 <= |b| && b[p + 20..p + 48] == Words(RowWords(s)) && q == p + 20 + 2 * k
    ensures Get(b, q, 2) == RowWords(s)[k]
  {
    var w := Words(RowWords(s));
    WordOfRow(w, s, k);
    SubSlice(b, p + 20, p + 48, 2 * k, 2 * k + 2);
  }

  lemma StampsStand(b: seq<byte>, p: nat, s: Sample)
    requires p + 48 <= |b| && b[p..p + 48] == EncodeRow(s)
    ensures StampsAt(b, p, s)
  {
    var r := EncodeRow(s);
    RowParts(s);
    Pow256Values();
    FieldOfLE(r, 0, s.boot, 4);
    FieldOfLE(r, 4, s.monotonicMs, 8);
    FieldOfLE(r, 12, s.epoch, 8);
    FieldMoves(b, r, p, 0, 4);
    FieldMoves(b, r, p, 4, 8);
    FieldMoves(b, r, p, 12, 8);
  }

  lemma PowerStands(b: seq<byte>, p: nat, s: Sample)
    requires p + 48 <= |b| && b[p..p + 48] == EncodeRow(s)
    ensures PowerAt(b, p, s)
  {
    MeasurementsStand(b, p, s);
    WordStands(b, p, s, 0, p + 20);
    WordStands(b, p, s, 1, p + 22);
    WordStands(b, p, s, 2, p + 24);
    WordStands(b, p, s, 3, p + 26);
    WordStands(b, p, s, 4, p + 28);
    WordStands(b, p, s, 5, p + 30);
    WordStands(b, p, s, 6, p + 32);
  }

  lemma HealthStands(b: seq<byte>, p: nat, s: Sample)
    requires p + 48 <= |b| && b[p..p + 48] == EncodeRow(s)
    ensures HealthAt(b, p, s)
  {
    MeasurementsStand(b, p, s);
    WordStands(b, p, s, 7, p + 34);
    WordStands(b, p, s, 8, p + 36);
    WordStands(b, p, s, 9, p + 38);
    WordStands(b, p, s, 10, p + 40);
    WordStands(b, p, s, 11, p + 42);
    WordStands(b, p, s, 12, p + 44);
    WordStands(b, p, s, 13, p + 46);
  }

  /** Row i of a stored trace stands at byte 32 + 48 * i, with every field at its place. */
  lemma RowsStand(t: Trace, i: nat)
    requires t.Sized() && i < |t.rows|
    ensures var b, p, s := Encode(t), 32 + 48 * i, t.rows[i]; StampsAt(b, p, s) && PowerAt(b, p, s) && HealthAt(b, p, s)
  {
    SlotParts(t, i);
    var b, p := Encode(t), 32 + 48 * i;
    assert b[p..p + 48] == Slot(b, i);
    StampsStand(b, p, t.rows[i]);
    PowerStands(b, p, t.rows[i]);
    HealthStands(b, p, t.rows[i]);
  }

  /** Everything else in a stored trace: the header, zeros behind it and behind the rows, and the CRC at the end. */
  lemma RestStands(t: Trace)
    requires t.Sized()
    ensures var b, s := Encode(t), t.status;
      && |b| == 3108 && Get(b, 0, 4) == 0x31544447
      && Get(b, 4, 2) == (if exists i :: 0 <= i < |t.rows| && t.rows[i].flags / 32 % 2 == 1 then 2 else 1)
      && Get(b, 6, 2) == 48 && Get(b, 8, 2) == |t.rows|
      && b[10] == (if s.armed then 1 else 0)
      && b[11] == (if s.lowSeen then 1 else 0) + (if s.finalized then 2 else 0)
      && Get(b, 12, 4) == t.boot
      && (forall k :: 16 <= k < 32 || 32 + 48 * |t.rows| <= k < 3104 ==> b[k] == 0)
      && Get(b, 3104, 4) == Crc32.Crc(b[..3104])
  {
    HeadParts(t);
    TailParts(t);
    SealedIsSealed(Body(t));
    var b, n := Encode(t), HEADER + RECORD * |t.rows|;
    assert AnyRaw(t.rows) <==> exists i :: 0 <= i < |t.rows| && t.rows[i].flags / 32 % 2 == 1;
    forall k | 16 <= k < 32 || n <= k < 3104
      ensures b[k] == 0
    {
      if k < 32 { assert b[k] == b[16..32][k - 16]; } else { assert b[k] == b[n..COVERED][k - n]; }
    }
  }

  /** Every row belongs to a boot up to the trace's and has no unknown flag. */
  predicate RowsFit(t: Trace) {
    forall i :: 0 <= i < |t.rows| ==> 1 <= t.rows[i].boot <= t.boot && t.rows[i].flags < 64
  }

  /** Boots do not go back, nor does the clock within one. */
  predicate RowsFollow(t: Trace) {
    forall i :: 0 < i < |t.rows| ==>
      && t.rows[i - 1].boot <= t.rows[i].boot
      && (t.rows[i - 1].boot == t.rows[i].boot ==> t.rows[i - 1].monotonicMs <= t.rows[i].monotonicMs)
  }

  lemma OrderIs(t: Trace)
    ensures Ordered(t.rows) <==> RowsFollow(t)
  {
    assert forall i :: 0 < i < |t.rows| ==> (NotBefore(t.rows[i - 1], t.rows[i]) <==>
      && t.rows[i - 1].boot <= t.rows[i].boot
      && (t.rows[i - 1].boot == t.rows[i].boot ==> t.rows[i - 1].monotonicMs <= t.rows[i].monotonicMs));
  }

  /** Exactly which traces can be read back: in order, of permitted rows, and recording only while not finished. */
  lemma ReadableExactly(t: Trace)
    requires t.Sized()
    ensures Decode(Encode(t)).Some? <==>
      && t.boot >= 1 && RowsFit(t) && RowsFollow(t) && |t.rows| <= 64
      && (t.status.finalized ==> t.status.lowSeen && !t.status.armed)
  {
    EncodeThenDecode(t);
    OrderIs(t);
  }

  /** The first schema has no raw coulomb counts, so an accepted blob of it is the encoding of what it holds. */
  lemma FirstSchemaExactly(b: seq<byte>, t: Trace)
    requires |b| == 3108 && Decode(b) == Some(t)
    ensures Get(b, 4, 2) == 1 || Get(b, 4, 2) == 2
    ensures Get(b, 4, 2) == 1 ==> Encode(t) == b && forall i :: 0 <= i < |t.rows| ==> t.rows[i].flags < 32
  {
    if Get(b, 4, 2) == 1 {
      forall i | 0 <= i < |t.rows|
        ensures t.rows[i].flags < 32
      {
        assert RowAccepted(t.rows[i], t.boot, FlagLimit(1));
      }
      assert Schema(t.rows) == 1;
      DecodeThenEncode(b, t);
    }
  }

  /** b' is b up to the schema number, which is 2, and sealed. */
  predicate Relabelled(b: seq<byte>, b': seq<byte>) {
    |b| == |b'| == 3108 && b'[..4] == b[..4] && Get(b', 4, 2) == 2 && b'[6..3104] == b[6..3104] && IsSealed(b')
  }

  lemma SameField(b: seq<byte>, b': seq<byte>, p: nat, n: nat)
    requires Relabelled(b, b') && (p + n <= 4 || (6 <= p && p + n <= 3104))
    ensures b'[p..p + n] == b[p..p + n] && Get(b', p, n) == Get(b, p, n)
  {
    if p + n <= 4 {
      SubSlice(b, 0, 4, p, p + n);
      SubSlice(b', 0, 4, p, p + n);
      assert b[..4] == b[0..4] && b'[..4] == b'[0..4];
    } else {
      SubSlice(b, 6, 3104, p - 6, p + n - 6);
      SubSlice(b', 6, 3104, p - 6, p + n - 6);
    }
  }

  lemma SameSlot(b: seq<byte>, b': seq<byte>, i: nat, p: nat)
    requires Relabelled(b, b') && i < 64 && p == 32 + 48 * i
    ensures Slot(b', i) == Slot(b, i)
  {
    SameField(b, b', p, 48);
    assert Slot(b', i) == b'[p..p + 48] && Slot(b, i) == b[p..p + 48];
  }

  lemma SameRows(b: seq<byte>, b': seq<byte>, n: nat)
    requires Relabelled(b, b') && n <= 64
    ensures ReadRows(b', n) == ReadRows(b, n)
  {
    forall i | 0 <= i < n
      ensures ReadRows(b', n)[i] == ReadRows(b, n)[i]
    {
      SameSlot(b, b', i, 32 + 48 * i);
    }
  }

  lemma SameHead(b: seq<byte>, b': seq<byte>)
    requires Relabelled(b, b')
    ensures Get(b', 0, 4) == Get(b, 0, 4) && Get(b', 6, 2) == Get(b, 6, 2) && Get(b', 8, 2) == Get(b, 8, 2)
    ensures b'[10] == b[10] && b'[11] == b[11] && Get(b', 12, 4) == Get(b, 12, 4) && b'[16..32] == b[16..32]
  {
    SameField(b, b', 0, 4);
    SameField(b, b', 6, 2);
    SameField(b, b', 8, 2);
    SameField(b, b', 10, 2);
    assert b'[10] == b'[10..12][0] && b[10] == b[10..12][0] && b'[11] == b'[10..12][1] && b[11] == b[10..12][1];
    SameField(b, b', 12, 4);
    SameField(b, b', 16, 16);
  }

  /** The second schema takes every trace, with raw counts or without. */
  lemma SecondSchemaTakesAll(t: Trace, b': seq<byte>)
    requires Storable(t) && Relabelled(Encode(t), b')
    ensures Decode(b') == Some(Normal(t))
  {
    var b, n := Encode(t), |t.rows|;
    HeadParts(t);
    EncodeThenDecode(t);
    SameHead(b, b');
    SameRows(b, b', n);
    var p := HEADER + RECORD * n;
    SameField(b, b', p, COVERED - p);
    RowsBack(t);
    LimitLifted(Normal(t).rows, t.boot, FlagLimit(Schema(t.rows)));
  }

  lemma LimitLifted(rows: seq<Sample>, boot: u32, limit: nat)
    requires RowsAccepted(rows, boot, limit) && limit <= 64
    ensures RowsAccepted(rows, boot, 64)
  {
    forall i | 0 <= i < |rows|
      ensures RowAccepted(rows[i], boot, 64)
    {
      assert RowAccepted(rows[i], boot, limit);
    }
  }

  // ----- the packed form

  /** The longest run of zeros, or of bytes that are not zero, from the front, of at most 128. */
  predicate LongestRun(d: seq<byte>, n: nat) {
    && 1 <= n <= 128 && n <= |d|
    && (forall i :: 0 <= i < n ==> (d[i] == 0) == (d[0] == 0))
    && (n == 128 || n == |d| || (d[n] == 0) != (d[0] == 0))
  }

  lemma {:induction false} RunLengthIs(d: seq<byte>, limit: nat)
    requires d != [] && limit > 0
    ensures var n := RunLength(d, limit); n == limit || n == |d| || (d[n] == 0) != (d[0] == 0)
    decreases limit
  {
    if limit > 1 && |d| > 1 && (d[1] == 0) == (d[0] == 0) {
      RunLengthIs(d[1..], limit - 1);
    }
  }

  lemma LongestIs(d: seq<byte>, n: nat)
    requires d != [] && LongestRun(d, n)
    ensures n == RunLength(d, 128)
  {
    RunLengthIs(d, 128);
  }

  /**
   A run of n zeros is stored as the byte 127 + n; any other run as the byte n - 1 and the run itself. Runs are the
   longest possible.
   */
  lemma SqueezeFormat(d: seq<byte>, n: nat)
    requires d != [] && LongestRun(d, n)
    ensures Squeeze(d) == (if d[0] == 0 then [127 + n] else [n - 1] + d[..n]) + Squeeze(d[n..])
  {
    LongestIs(d, n);
    SqueezeFirst(d);
  }

  /** Bit k of the difference is set exactly where the byte and the one a row before disagree. */
  lemma DifferenceBits(b: seq<byte>, count: nat, i: nat, k: nat)
    requires i < |b| && 80 <= i < 32 + 48 * count && k < 8
    ensures ToBits(Delta(b, count)[i], 8)[k] == (ToBits(b[i], 8)[k] != ToBits(b[i - 48], 8)[k])
  {
    ToBitsOfFromBits(Xor(ToBits(b[i], 8), ToBits(b[i - 48], 8)));
  }

  /** All rows but the first are stored as differences; the rest of the blob as it is. */
  lemma DifferencesOnlyInRows(b: seq<byte>, count: nat, i: nat)
    requires i < |b| && !(80 <= i < 32 + 48 * count)
    ensures Delta(b, count)[i] == b[i]
  {
  }

  /** A packed trace is the frame and the squeezed differences if that is shorter, and else the trace itself. */
  lemma PackedForm(t: Trace)
    requires t.Sized()
    ensures var b := Encode(t); var p, s := Pack(b), Squeeze(Delta(b, |t.rows|));
      if 16 + |s| >= 3108 then p == b
      else
        && |p| == 16 + |s| && Get(p, 0, 4) == 0x32435447 && p[4] == 1 && p[5] == 1 && Get(p, 6, 2) == 3108
        && Get(p, 8, 2) == |s| && Get(p, 10, 2) == 0 && Get(p, 12, 4) == Crc32.Crc(p[..12] + s) && p[16..] == s
  {
    HeadParts(t);
    var b := Encode(t);
    if FRAME + |Squeezed(b)| < BLOB {
      FrameFields(Squeezed(b));
    }
  }
}
