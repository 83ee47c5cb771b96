/** The 3108-byte stored form of the trace: a 32-byte header, 64 row slots of 48 bytes and a CRC. */
module TraceBlob {
  import opened Bytes
  import opened Crc32
  import opened TraceModel

  const RECORD := 48
  const HEADER := 32
  const COVERED := 3104  // HEADER + CAPACITY * RECORD, the bytes under the CRC
  const BLOB := 3108
  const MAGIC := 0x31544447

  // ----- rows

  function ToU16(x: i16): u16 {
    if x < 0 then x + 0x1_0000 else x
  }

  function ToI16(x: u16): i16 {
    if x < 0x8000 then x else x - 0x1_0000
  }

  function RowWords(s: Sample): (w: seq<u16>)
    ensures |w| == 14
  {
    [s.flags, s.soc, s.voltageMv, ToU16(s.currentMa), ToU16(s.averageCurrentMa), s.remainingMah, s.fullMah,
     s.designMah, s.operationStatus, s.batteryStatus, s.stateOfHealth, s.cycleCount, s.temperatureDeciK,
     if s.RawCoulomb() then s.rawCoulombMah else 0]
  }

  function EncodeRow(s: Sample): (r: seq<byte>)
    ensures |r| == RECORD
  {
    LE(s.boot, 4) + LE(s.monotonicMs, 8) + LE(s.epoch, 8) + Words(RowWords(s))
  }

  function RowOf(boot: u32, ms: u64, epoch: u64, w: seq<u16>): Sample
    requires |w| == 14
  {
    Sample(boot, ms, epoch, w[0], w[1], w[2], ToI16(w[3]), ToI16(w[4]), w[5], w[6], w[7], w[8], w[9], w[10],
           w[11], w[12], w[13])
  }

  function DecodeRow(r: seq<byte>): Sample
    requires |r| == RECORD
  {
    Pow256Values();
    RowOf(Get(r, 0, 4), Get(r, 4, 8), Get(r, 12, 8), ReadWords(r[20..]))
  }

  /** A row as it is stored: the raw coulomb count only where its flag is set. */
  function NormalRow(s: Sample): Sample {
    if s.RawCoulomb() then s else s.(rawCoulombMah := 0)
  }

  lemma RowParts(s: Sample)
    ensures var r := EncodeRow(s);
      && r[0..4] == LE(s.boot, 4) && r[4..12] == LE(s.monotonicMs, 8) && r[12..20] == LE(s.epoch, 8)
      && r[20..] == Words(RowWords(s))
  {
  }

  lemma RowRoundTrip(s: Sample)
    ensures DecodeRow(EncodeRow(s)) == NormalRow(s)
  {
    RowParts(s);
    Pow256Values();
    LERoundTrip(s.boot, 4);
    LERoundTrip(s.monotonicMs, 8);
    LERoundTrip(s.epoch, 8);
    ReadWordsOfWords(RowWords(s));
  }

  lemma WordsBack(boot: u32, ms: u64, epoch: u64, w: seq<u16>)
    requires |w| == 14
    requires !RowOf(boot, ms, epoch, w).RawCoulomb() ==> w[13] == 0
    ensures RowWords(RowOf(boot, ms, epoch, w)) == w
  {
  }

  /** A stored row whose raw count is zero where its flag is clear encodes back to its own bytes. */
  lemma RowBytesBack(r: seq<byte>)
    requires |r| == RECORD
    requires !DecodeRow(r).RawCoulomb() ==> DecodeRow(r).rawCoulombMah == 0
    ensures EncodeRow(DecodeRow(r)) == r
  {
    Pow256Values();
    LEOfFromLE(r[0..4]);
    LEOfFromLE(r[4..12]);
    LEOfFromLE(r[12..20]);
    var s := DecodeRow(r);
    assert LE(s.boot, 4) == r[0..4] && LE(s.monotonicMs, 8) == r[4..12] && LE(s.epoch, 8) == r[12..20];
    assert Words(RowWords(s)) == r[20..] by {
      WordsBack(Get(r, 0, 4), Get(r, 4, 8), Get(r, 12, 8), ReadWords(r[20..]));
      WordsOfReadWords(r[20..]);
    }
    assert r == r[0..4] + r[4..12] + r[12..20] + r[20..];
  }

  function EncodeRows(rows: seq<Sample>): (r: seq<byte>)
    ensures |r| == RECORD * |rows|
  {
    if rows == [] then [] else EncodeRows(rows[..|rows| - 1]) + EncodeRow(rows[|rows| - 1])
  }

  lemma {:induction false} EncodeRowsAt(rows: seq<Sample>, i: nat)
    requires i < |rows|
    ensures EncodeRows(rows)[RECORD * i..RECORD * (i + 1)] == EncodeRow(rows[i])
  {
    var n := |rows| - 1;
    if i < n {
      EncodeRowsAt(rows[..n], i);
      assert EncodeRows(rows)[RECORD * i..RECORD * (i + 1)] == EncodeRows(rows[..n])[RECORD * i..RECORD * (i + 1)];
    }
  }

  // ----- the whole blob

  predicate AnyRaw(rows: seq<Sample>) {
    exists i :: 0 <= i < |rows| && rows[i].RawCoulomb()
  }

  function Schema(rows: seq<Sample>): nat {
    if AnyRaw(rows) then 2 else 1
  }

  function Flag(b: bool): byte {
    if b then 1 else 0
  }

  /** The sixteen header bytes that carry something. */
  function Head(t: Trace): (r: seq<byte>)
    ensures |r| == 16
  {
    LE(MAGIC, 4) + LE(Schema(t.rows), 2) + LE(RECORD, 2) + LE(|t.rows|, 2)
    + [Flag(t.status.armed)] + [Flag(t.status.lowSeen) + 2 * Flag(t.status.finalized)] + LE(t.boot, 4)
  }

  function Body(t: Trace): (r: seq<byte>)
    requires t.Sized()
    ensures |r| == COVERED
  {
    Head(t) + Zeros(16) + EncodeRows(t.rows) + Zeros(RECORD * (CAPACITY - |t.rows|))
  }

  function Sealed(body: seq<byte>): (r: seq<byte>)
    ensures |r| == |body| + 4
  {
    body + LE(Crc(body), 4)
  }

  function Encode(t: Trace): (b: seq<byte>)
    requires t.Sized()
    ensures |b| == BLOB
  {
    Sealed(Body(t))
  }

  predicate IsSealed(b: seq<byte>)
    requires |b| == BLOB
  {
    Get(b, COVERED, 4) == Crc(b[..COVERED])
  }

  predicate AllZero(s: seq<byte>) {
    forall i :: 0 <= i < |s| ==> s[i] == 0
  }

  function Slot(b: seq<byte>, i: nat): (r: seq<byte>)
    requires |b| == BLOB && i < CAPACITY
    ensures |r| == RECORD
  {
    b[HEADER + RECORD * i..HEADER + RECORD * (i + 1)]
  }

  function ReadRows(b: seq<byte>, n: nat): (r: seq<Sample>)
    requires |b| == BLOB && n <= CAPACITY
    ensures |r| == n && forall i :: 0 <= i < n ==> r[i] == DecodeRow(Slot(b, i))
  {
    seq(n, i requires 0 <= i < n => DecodeRow(Slot(b, i)))
  }

  predicate HeadAccepted(b: seq<byte>)
    requires |b| == BLOB
  {
    && Get(b, 0, 4) == MAGIC
    && (Get(b, 4, 2) == 1 || Get(b, 4, 2) == 2)
    && Get(b, 6, 2) == RECORD
    && Get(b, 8, 2) <= CAPACITY
    && b[10] <= 1
    && b[11] <= 3
    && (b[11] >= 2 ==> b[11] == 3 && b[10] == 0)
    && Get(b, 12, 4) != 0
    && AllZero(b[16..32])
  }

  predicate RowAccepted(s: Sample, boot: u32, flagLimit: nat) {
    s.boot != 0 && s.boot <= boot && s.flags < flagLimit && (s.RawCoulomb() || s.rawCoulombMah == 0)
  }

  predicate NotBefore(a: Sample, b: Sample) {
    a.boot < b.boot || (a.boot == b.boot && a.monotonicMs <= b.monotonicMs)
  }

  predicate Ordered(rows: seq<Sample>) {
    forall i :: 0 < i < |rows| ==> NotBefore(rows[i - 1], rows[i])
  }

  function FlagLimit(schema: nat): nat {
    if schema == 2 then 64 else 32
  }

  predicate RowsAccepted(rows: seq<Sample>, boot: u32, flagLimit: nat) {
    (forall i :: 0 <= i < |rows| ==> RowAccepted(rows[i], boot, flagLimit)) && Ordered(rows)
  }

  predicate Accepted(b: seq<byte>)
    requires |b| == BLOB
  {
    && HeadAccepted(b)
    && IsSealed(b)
    && RowsAccepted(ReadRows(b, Get(b, 8, 2)), BootOf(b), FlagLimit(Get(b, 4, 2)))
    && AllZero(b[HEADER + RECORD * Get(b, 8, 2)..COVERED])
  }

  function BootOf(b: seq<byte>): u32
    requires |b| == BLOB
  {
    Pow256Values();
    Get(b, 12, 4)
  }

  function Decode(b: seq<byte>): (r: Option<Trace>)
    requires |b| == BLOB
    ensures r.Some? ==> r.value.Sized()
  {
    if !Accepted(b) then None else
      Some(Trace(ReadRows(b, Get(b, 8, 2)), BootOf(b),
                 Idle.(armed := b[10] == 1, lowSeen := b[11] % 2 == 1, finalized := b[11] / 2 == 1)))
  }

  /** What a trace must satisfy to be readable after it is stored. */
  predicate Storable(t: Trace) {
    && t.Sized()
    && t.boot != 0
    && (t.status.finalized ==> t.status.lowSeen && !t.status.armed)
    && RowsStorable(t.rows, t.boot)
  }

  /** What survives storage. */
  function Normal(t: Trace): Trace {
    Trace(seq(|t.rows|, i requires 0 <= i < |t.rows| => NormalRow(t.rows[i])), t.boot,
          Idle.(armed := t.status.armed, lowSeen := t.status.lowSeen, finalized := t.status.finalized))
  }

  lemma FieldOfLE(s: seq<byte>, p: nat, v: nat, n: nat)
    requires p + n <= |s| && s[p..p + n] == LE(v, n) && v < Pow256(n)
    ensures Get(s, p, n) == v
  {
    LERoundTrip(v, n);
  }

  lemma PrefixField(b: seq<byte>, h: seq<byte>, p: nat, n: nat)
    requires p + n <= |h| <= |b| && b[..|h|] == h
    ensures Get(b, p, n) == Get(h, p, n)
  {
    forall i | p <= i < p + n
      ensures b[i] == h[i]
    {
      assert b[i] == b[..|h|][i];
    }
    assert b[p..p + n] == h[p..p + n];
  }

  lemma HeadSlices(t: Trace)
    ensures var h := Head(t);
      && h[0..4] == LE(MAGIC, 4) && h[4..6] == LE(Schema(t.rows), 2) && h[6..8] == LE(RECORD, 2)
      && h[8..10] == LE(|t.rows|, 2) && h[12..16] == LE(t.boot, 4)
      && h[10] == Flag(t.status.armed) && h[11] == Flag(t.status.lowSeen) + 2 * Flag(t.status.finalized)
  {
    SixPieces(LE(MAGIC, 4), LE(Schema(t.rows), 2), LE(RECORD, 2), LE(|t.rows|, 2),
              Flag(t.status.armed), Flag(t.status.lowSeen) + 2 * Flag(t.status.finalized), LE(t.boot, 4));
  }

  lemma SixPieces(a: seq<byte>, b: seq<byte>, c: seq<byte>, d: seq<byte>, e: byte, f: byte, g: seq<byte>)
    requires |a| == 4 && |b| == 2 && |c| == 2 && |d| == 2 && |g| == 4
    ensures var h := a + b + c + d + [e] + [f] + g;
      && h[0..4] == a && h[4..6] == b && h[6..8] == c && h[8..10] == d && h[10] == e && h[11] == f && h[12..16] == g
  {
  }

  lemma HeadFields(t: Trace)
    requires t.Sized()
    ensures var h := Head(t);
      && Get(h, 0, 4) == MAGIC && Get(h, 4, 2) == Schema(t.rows) && Get(h, 6, 2) == RECORD
      && Get(h, 8, 2) == |t.rows| && Get(h, 12, 4) == t.boot
  {
    var h := Head(t);
    HeadSlices(t);
    Pow256Values();
    FieldOfLE(h, 0, MAGIC, 4);
    FieldOfLE(h, 4, Schema(t.rows), 2);
    FieldOfLE(h, 6, RECORD, 2);
    FieldOfLE(h, 8, |t.rows|, 2);
    FieldOfLE(h, 12, t.boot, 4);
  }

  lemma HeadParts(t: Trace)
    requires t.Sized()
    ensures var b := Encode(t);
      && Get(b, 0, 4) == MAGIC && Get(b, 4, 2) == Schema(t.rows) && Get(b, 6, 2) == RECORD
      && Get(b, 8, 2) == |t.rows| && b[10] == Flag(t.status.armed)
      && b[11] == Flag(t.status.lowSeen) + 2 * Flag(t.status.finalized) && Get(b, 12, 4) == t.boot
      && AllZero(b[16..32])
  {
    var b, h := Encode(t), Head(t);
    assert b[..16] == h by { assert Body(t)[..16] == h; }
    HeadFields(t);
    PrefixField(b, h, 0, 4);
    PrefixField(b, h, 4, 2);
    PrefixField(b, h, 6, 2);
    PrefixField(b, h, 8, 2);
    PrefixField(b, h, 12, 4);
    HeadSlices(t);
    assert b[10] == b[..16][10] && b[11] == b[..16][11];
    assert b[16..32] == Body(t)[16..32] == Zeros(16);
  }

  lemma SealedIsSealed(body: seq<byte>)
    requires |body| == COVERED
    ensures IsSealed(Sealed(body))
  {
    var b := Sealed(body);
    assert b[..COVERED] == body && b[COVERED..COVERED + 4] == LE(Crc(body), 4);
    Pow256Values();
    LERoundTrip(Crc(body), 4);
  }

  lemma SlotParts(t: Trace, i: nat)
    requires t.Sized() && i < |t.rows|
    ensures Slot(Encode(t), i) == EncodeRow(t.rows[i])
  {
    EncodeRowsAt(t.rows, i);
    var front := Head(t) + Zeros(16);
    var rows := EncodeRows(t.rows);
    assert Encode(t) == front + rows + (Zeros(RECORD * (CAPACITY - |t.rows|)) + LE(Crc(Body(t)), 4));
    assert Slot(Encode(t), i) == rows[RECORD * i..RECORD * (i + 1)];
  }

  lemma TailParts(t: Trace)
    requires t.Sized()
    ensures AllZero(Encode(t)[HEADER + RECORD * |t.rows|..COVERED])
  {
    var n := HEADER + RECORD * |t.rows|;
    assert Encode(t)[n..COVERED] == Body(t)[n..] == Zeros(RECORD * (CAPACITY - |t.rows|));
  }

  lemma RowsBack(t: Trace)
    requires t.Sized()
    ensures ReadRows(Encode(t), |t.rows|) == Normal(t).rows
  {
    forall i | 0 <= i < |t.rows|
      ensures DecodeRow(Slot(Encode(t), i)) == NormalRow(t.rows[i])
    {
      SlotParts(t, i);
      RowRoundTrip(t.rows[i]);
    }
  }

  lemma NormalOrdered(rows: seq<Sample>, normal: seq<Sample>)
    requires |rows| == |normal| && forall i :: 0 <= i < |rows| ==> normal[i] == NormalRow(rows[i])
    ensures Ordered(normal) <==> Ordered(rows)
  {
    forall i | 0 < i < |rows|
      ensures NotBefore(normal[i - 1], normal[i]) == NotBefore(rows[i - 1], rows[i])
    {
    }
  }

  lemma NormalAccepted(s: Sample, boot: u32, raw: bool)
    requires s.RawCoulomb() ==> raw
    ensures RowAccepted(NormalRow(s), boot, FlagLimit(if raw then 2 else 1))
       <==> s.boot != 0 && s.boot <= boot && s.flags < 64
  {
  }

  predicate RowsStorable(rows: seq<Sample>, boot: u32) {
    (forall i :: 0 <= i < |rows| ==> rows[i].boot != 0 && rows[i].boot <= boot && rows[i].flags < 64) && Ordered(rows)
  }

  /** Flags stay under the limit of the schema number that the rows themselves determine. */
  lemma NormalRowsAccepted(t: Trace)
    requires t.Sized()
    ensures RowsStorable(t.rows, t.boot) <==> RowsAccepted(Normal(t).rows, t.boot, FlagLimit(Schema(t.rows)))
  {
    var rows := Normal(t).rows;
    NormalOrdered(t.rows, rows);
    forall i | 0 <= i < |rows|
      ensures RowAccepted(rows[i], t.boot, FlagLimit(Schema(t.rows)))
         <==> t.rows[i].boot != 0 && t.rows[i].boot <= t.boot && t.rows[i].flags < 64
    {
      assert t.rows[i].RawCoulomb() ==> AnyRaw(t.rows);
      NormalAccepted(t.rows[i], t.boot, AnyRaw(t.rows));
    }
  }

  /** A trace can be read back exactly when it is storable, and then comes back normalised. */
  lemma EncodeThenDecode(t: Trace)
    requires t.Sized()
    ensures Decode(Encode(t)) == if Storable(t) then Some(Normal(t)) else None
  {
    HeadParts(t);
    TailParts(t);
    RowsBack(t);
    NormalRowsAccepted(t);
    SealedIsSealed(Body(t));
  }

  lemma NextRowBack(b: seq<byte>, n: nat)
    requires |b| == BLOB && 0 < n <= CAPACITY && EncodeRow(DecodeRow(Slot(b, n - 1))) == Slot(b, n - 1)
    ensures EncodeRows(ReadRows(b, n)) == EncodeRows(ReadRows(b, n - 1)) + Slot(b, n - 1)
  {
    assert ReadRows(b, n)[..n - 1] == ReadRows(b, n - 1);
  }

  lemma JoinSlices(b: seq<byte>, i: nat, j: nat, k: nat)
    requires i <= j <= k <= |b|
    ensures b[i..j] + b[j..k] == b[i..k]
  {
  }

  lemma {:induction false} RowBlockBack(b: seq<byte>, n: nat)
    requires |b| == BLOB && n <= CAPACITY
    requires forall i :: 0 <= i < n ==> EncodeRow(DecodeRow(Slot(b, i))) == Slot(b, i)
    ensures EncodeRows(ReadRows(b, n)) == b[HEADER..HEADER + RECORD * n]
  {
    if n > 0 {
      RowBlockBack(b, n - 1);
      NextRowBack(b, n);
      var m := HEADER + RECORD * (n - 1);
      JoinSlices(b, HEADER, m, m + RECORD);
    }
  }

  lemma ZeroBytes(s: seq<byte>)
    requires AllZero(s)
    ensures s == Zeros(|s|)
  {
  }

  lemma HeadBack(b: seq<byte>, t: Trace)
    requires |b| == BLOB && Decode(b) == Some(t)
    ensures Head(t) == b[..4] + LE(Schema(t.rows), 2) + b[6..16]
  {
    Pow256Values();
    LEOfFromLE(b[0..4]);
    LEOfFromLE(b[6..8]);
    LEOfFromLE(b[8..10]);
    LEOfFromLE(b[12..16]);
    assert b[..4] == b[0..4];
    assert b[6..16] == b[6..8] + b[8..10] + [b[10]] + [b[11]] + b[12..16];
  }

  /** What an accepted blob decodes to is storable and already normalised. */
  lemma DecodedIsNormal(b: seq<byte>, t: Trace)
    requires |b| == BLOB && Decode(b) == Some(t)
    ensures Storable(t) && Normal(t) == t
  {
    forall i | 0 <= i < |t.rows|
      ensures RowAccepted(t.rows[i], t.boot, 64) && NormalRow(t.rows[i]) == t.rows[i]
    {
      assert RowAccepted(t.rows[i], t.boot, FlagLimit(Get(b, 4, 2)));
    }
    assert Normal(t).rows == t.rows;
  }

  lemma RowsOfBlobBack(b: seq<byte>, t: Trace)
    requires |b| == BLOB && Decode(b) == Some(t)
    ensures EncodeRows(t.rows) == b[HEADER..HEADER + RECORD * |t.rows|]
  {
    var n := |t.rows|;
    forall i | 0 <= i < n
      ensures EncodeRow(DecodeRow(Slot(b, i))) == Slot(b, i)
    {
      assert RowAccepted(t.rows[i], BootOf(b), FlagLimit(Get(b, 4, 2)));
      RowBytesBack(Slot(b, i));
    }
    RowBlockBack(b, n);
  }

  lemma Cut(b: seq<byte>, i: nat, j: nat, k: nat, l: nat, m: nat)
    requires i <= j <= k <= l <= m <= |b|
    ensures b[i..m] == b[i..j] + b[j..k] + b[k..l] + b[l..m]
  {
    assert b[i..k] == b[i..j] + b[j..k];
    assert b[i..l] == b[i..k] + b[k..l];
    assert b[i..m] == b[i..l] + b[l..m];
  }

  lemma JoinFront(x: seq<byte>, y: seq<byte>, a: seq<byte>, b: seq<byte>, c: seq<byte>, d: seq<byte>)
    ensures x + y + a + b + c + d == x + y + (a + b + c + d)
  {
  }

  lemma BodyBack(b: seq<byte>, t: Trace)
    requires |b| == BLOB && Decode(b) == Some(t)
    ensures Body(t) == b[..4] + LE(Schema(t.rows), 2) + b[6..COVERED]
  {
    var n := HEADER + RECORD * |t.rows|;
    HeadBack(b, t);
    ZeroBytes(b[16..32]);
    ZeroBytes(b[n..COVERED]);
    RowsOfBlobBack(b, t);
    Cut(b, 6, 16, 32, n, COVERED);
    JoinFront(b[..4], LE(Schema(t.rows), 2), b[6..16], b[16..32], b[32..n], b[n..COVERED]);
  }

  lemma SealedBack(b: seq<byte>)
    requires |b| == BLOB && IsSealed(b)
    ensures Sealed(b[..COVERED]) == b
  {
    LEOfFromLE(b[COVERED..COVERED + 4]);
    assert b == b[..COVERED] + b[COVERED..COVERED + 4];
  }

  /** An accepted blob re-encodes to itself exactly when its schema number is the one its rows call for. */
  lemma DecodeThenEncode(b: seq<byte>, t: Trace)
    requires |b| == BLOB && Decode(b) == Some(t)
    ensures Encode(t) == b <==> Get(b, 4, 2) == Schema(t.rows)
  {
    if Get(b, 4, 2) == Schema(t.rows) {
      BodyBack(b, t);
      LEOfFromLE(b[4..6]);
      assert b[..COVERED] == b[..4] + b[4..6] + b[6..COVERED];
      SealedBack(b);
    }
    HeadParts(t);
  }

  /** Two blobs that differ only in their CRC field cannot both be sealed. */
  lemma SealIsUnique(b: seq<byte>, b': seq<byte>)
    requires |b| == |b'| == BLOB && b != b' && b[..COVERED] == b'[..COVERED] && IsSealed(b)
    ensures !IsSealed(b')
  {
    if IsSealed(b') {
      SealedBack(b);
      SealedBack(b');
    }
  }

  /**
   Any change confined to four consecutive bytes under the CRC, or to the CRC field itself, makes an accepted blob
   unreadable.
   */
  lemma CorruptionRejected(b: seq<byte>, b': seq<byte>, p: nat)
    requires |b| == |b'| == BLOB && Decode(b).Some? && b != b'
    requires (p + 4 <= COVERED || p == COVERED) && b[..p] == b'[..p] && b[p + 4..] == b'[p + 4..]
    ensures Decode(b') == None
  {
    if p == COVERED {
      SealIsUnique(b, b');
    } else {
      var m, m' := b[..COVERED], b'[..COVERED];
      assert b[COVERED..] == b[p + 4..][COVERED - p - 4..] == b'[p + 4..][COVERED - p - 4..] == b'[COVERED..];
      assert b == m + b[COVERED..] && b' == m' + b'[COVERED..];
      assert m[..p] == b[..p] && m'[..p] == b'[..p];
      assert m[p + 4..] == b[p + 4..][..COVERED - p - 4] && m'[p + 4..] == b'[p + 4..][..COVERED - p - 4];
      BurstDetected(m, m', p);
      assert b[COVERED..COVERED + 4] == b[COVERED..] && b'[COVERED..COVERED + 4] == b'[COVERED..];
    }
  }
}
