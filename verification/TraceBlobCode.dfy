/** The loops that write and check a stored trace in a byte buffer, proved against module TraceBlob. */
module TraceBlobCode {
  import opened Bytes
  import opened Crc32
  import opened TraceModel
  import opened TraceBlob

  method Put(b: array<byte>, p: nat, v: nat, n: nat)
    requires p + n <= b.Length
    modifies b
    ensures b[..] == old(b[..p]) + LE(v, n) + old(b[p + n..])
  {
    for i := 0 to n
      invariant b[..p] == old(b[..p]) && b[p..p + i] == LE(v, n)[..i] && b[p + i..] == old(b[p + i..])
    {
      LEAt(v, n, i);
      b[p + i] := v / Pow256(i) % 256;
    }
    assert b[..] == b[..p] + b[p..p + n] + b[p + n..];
  }

  method Field(b: array<byte>, p: nat, n: nat) returns (v: nat)
    requires p + n <= b.Length
    ensures v == Get(b[..], p, n)
  {
    v := 0;
    for i := 0 to n
      invariant v == FromLE(b[p..p + i])
    {
      FromLESnoc(b[p..p + i], b[p + i]);
      assert b[p..p + i] + [b[p + i]] == b[p..p + i + 1];
      v := v + b[p + i] * Pow256(i);
    }
    assert b[..][p..p + n] == b[p..p + n];
  }

  lemma {:induction false} FromLESnoc(s: seq<byte>, x: byte)
    ensures FromLE(s + [x]) == FromLE(s) + x * Pow256(|s|)
  {
    if s == [] {
      assert FromLE([x]) == x + 256 * FromLE([x][1..]);
    } else {
      FromLESnoc(s[1..], x);
      assert (s + [x])[1..] == s[1..] + [x];
      var p := Pow256(|s| - 1);
      assert 256 * (x * p) == x * (256 * p);
    }
  }

  method CrcOf(b: array<byte>, n: nat) returns (r: u32)
    requires n <= b.Length
    ensures r == Crc(b[..n])
  {
    var c := Start();
    for i := 0 to n
      invariant |c| == 32 && c == Fold(Start(), b[..i])
    {
      ghost var s := b[..i + 1];
      assert s[..i] == b[..i];
      c := Xor(c, ToBits(b[i], 32));
      ghost var mixed := c;
      for j := 0 to 8
        invariant |c| == 32 && c == Steps(mixed, j)
      {
        StepsCompose(mixed, j, 1);
        c := BitStep(c);
      }
    }
    Pow2Values();
    r := FromBits(Not(c));
  }

  /** The buffer holds a, and zeros behind it. */
  ghost predicate Holds(b: seq<byte>, a: seq<byte>) {
    |a| <= |b| && b == a + Zeros(|b| - |a|)
  }

  lemma HoldsMore(b: seq<byte>, a: seq<byte>, c: seq<byte>)
    requires Holds(b, a) && |a| + |c| <= |b|
    ensures Holds(b[..|a|] + c + b[|a| + |c|..], a + c)
  {
  }

  lemma HoldsZeros(b: seq<byte>, a: seq<byte>, n: nat)
    requires Holds(b, a) && |a| + n <= |b|
    ensures Holds(b, a + Zeros(n))
  {
  }

  /** Writes n bytes of v directly behind what the buffer holds. */
  method Extend(b: array<byte>, p: nat, v: nat, n: nat, ghost a: seq<byte>)
    requires Holds(b[..], a) && p == |a| && p + n <= b.Length
    modifies b
    ensures Holds(b[..], a + LE(v, n))
  {
    ghost var was := b[..];
    Put(b, p, v, n);
    HoldsMore(was, a, LE(v, n));
    assert b[..] == was[..p] + LE(v, n) + was[p + n..];
  }

  /** The last, conditional word of a row: nothing is written where the flag is clear. */
  method EncodeRawInto(s: Sample, b: array<byte>, p: nat, ghost a: seq<byte>)
    requires Holds(b[..], a) && p == |a| && p + 2 <= b.Length
    modifies b
    ensures Holds(b[..], a + LE(if s.RawCoulomb() then s.rawCoulombMah else 0, 2))
  {
    if s.RawCoulomb() {
      Extend(b, p, s.rawCoulombMah, 2, a);
    } else {
      HoldsZeros(b[..], a, 2);
      assert LE(0, 2) == Zeros(2);
    }
  }

  method EncodeWordsInto(s: Sample, b: array<byte>, p: nat, ghost a: seq<byte>)
    requires Holds(b[..], a) && p == |a| && p + 28 <= b.Length
    modifies b
    ensures Holds(b[..], a + Words(RowWords(s)))
  {
    var v := [s.flags, s.soc, s.voltageMv, ToU16(s.currentMa), ToU16(s.averageCurrentMa), s.remainingMah, s.fullMah,
      s.designMah, s.operationStatus, s.batteryStatus, s.stateOfHealth, s.cycleCount, s.temperatureDeciK];
    ghost var w := RowWords(s);
    assert v == w[..13];
    assert a + Words(v[..0]) == a;
    for j := 0 to 13
      invariant Holds(b[..], a + Words(v[..j]))
    {
      Extend(b, p + 2 * j, v[j], 2, a + Words(v[..j]));
      WordsSnoc(v[..j], v[j]);
      assert v[..j] + [v[j]] == v[..j + 1];
      assert a + Words(v[..j]) + LE(v[j], 2) == a + Words(v[..j + 1]);
    }
    assert v[..13] == v;
    EncodeRawInto(s, b, p + 26, a + Words(v));
    WordsSnoc(v, w[13]);
    assert w == v + [w[13]];
    assert a + Words(v) + LE(w[13], 2) == a + Words(w);
  }

  method EncodeRowInto(s: Sample, b: array<byte>, p: nat, ghost a: seq<byte>)
    requires Holds(b[..], a) && p == |a| && p + RECORD <= b.Length
    modifies b
    ensures Holds(b[..], a + EncodeRow(s))
  {
    Extend(b, p, s.boot, 4, a);
    ghost var a1 := a + LE(s.boot, 4);
    Extend(b, p + 4, s.monotonicMs, 8, a1);
    ghost var a2 := a1 + LE(s.monotonicMs, 8);
    Extend(b, p + 12, s.epoch, 8, a2);
    EncodeWordsInto(s, b, p + 20, a2 + LE(s.epoch, 8));
    assert a2 + LE(s.epoch, 8) + Words(RowWords(s)) == a + EncodeRow(s);
  }

  lemma {:induction false} WordsSnoc(w: seq<u16>, x: u16)
    ensures Words(w + [x]) == Words(w) + LE(x, 2)
  {
    if w == [] {
      assert w + [x] == [x] && [x][1..] == [];
    } else {
      WordsSnoc(w[1..], x);
      assert (w + [x])[1..] == w[1..] + [x];
    }
  }

  method SchemaOf(m: Ring) returns (schema: nat)
    requires m.Valid()
    ensures schema == Schema(m.Contents())
  {
    ghost var rows := m.Contents();
    var raw := false;
    for i := 0 to m.count
      invariant raw == AnyRaw(rows[..i])
    {
      assert rows[..i + 1] == rows[..i] + [rows[i]];
      AnyRawSnoc(rows[..i], rows[i]);
      raw := raw || m.At(i).RawCoulomb();
    }
    assert rows[..m.count] == rows;
    schema := if raw then 2 else 1;
  }

  method EncodeHeadInto(m: Ring, b: array<byte>)
    requires m.Valid() && b.Length == BLOB && Holds(b[..], [])
    modifies b
    ensures Holds(b[..], Head(m.View()))
  {
    ghost var t := m.View();
    var schema := SchemaOf(m);
    var seen := (if m.lowSeen then 1 else 0) + (if m.finalized then 2 else 0);
    Extend(b, 0, MAGIC, 4, []);
    Extend(b, 4, schema, 2, LE(MAGIC, 4));
    Extend(b, 6, RECORD, 2, LE(MAGIC, 4) + LE(schema, 2));
    Extend(b, 8, m.count, 2, LE(MAGIC, 4) + LE(schema, 2) + LE(RECORD, 2));
    ghost var a := LE(MAGIC, 4) + LE(schema, 2) + LE(RECORD, 2) + LE(m.count, 2);
    Extend(b, 10, if m.armed then 1 else 0, 1, a);
    OneByteLE(Flag(m.armed));
    Extend(b, 11, seen, 1, a + [Flag(m.armed)]);
    OneByteLE(seen);
    Extend(b, 12, m.boot, 4, a + [Flag(m.armed)] + [seen]);
  }

  lemma OneByteLE(v: byte)
    ensures LE(v, 1) == [v]
  {
  }

  lemma AnyRawSnoc(rows: seq<Sample>, s: Sample)
    ensures AnyRaw(rows + [s]) <==> AnyRaw(rows) || s.RawCoulomb()
  {
    assert (rows + [s])[|rows|] == s;
    forall i | 0 <= i < |rows|
      ensures (rows + [s])[i] == rows[i]
    {
    }
  }

  method EncodeRowsInto(m: Ring, b: array<byte>, ghost front: seq<byte>)
    requires m.Valid() && b.Length == BLOB && |front| == HEADER && Holds(b[..], front)
    modifies b
    ensures Holds(b[..], front + EncodeRows(m.Contents()))
  {
    ghost var rows := m.Contents();
    assert front + EncodeRows(rows[..0]) == front;
    for i := 0 to m.count
      invariant Holds(b[..], front + EncodeRows(rows[..i]))
    {
      EncodeRowInto(m.At(i), b, HEADER + RECORD * i, front + EncodeRows(rows[..i]));
      assert rows[..i + 1][..i] == rows[..i];
      assert front + EncodeRows(rows[..i]) + EncodeRow(rows[i]) == front + EncodeRows(rows[..i + 1]);
    }
    assert rows[..m.count] == rows;
  }

  method EncodeInto(m: Ring, b: array<byte>)
    requires m.Valid() && b.Length == BLOB
    modifies b
    ensures b[..] == Encode(m.View())
  {
    ghost var t := m.View();
    for i := 0 to b.Length
      invariant b[..i] == Zeros(i)
    {
      b[i] := 0;
    }
    assert b[..] == [] + Zeros(BLOB);
    EncodeHeadInto(m, b);
    ghost var front := Head(t) + Zeros(16);
    HoldsZeros(b[..], Head(t), 16);
    EncodeRowsInto(m, b, front);
    HoldsZeros(b[..], front + EncodeRows(t.rows), RECORD * (CAPACITY - m.count));
    HoldsCovered(b[..], Body(t));
    var c := CrcOf(b, COVERED);
    Extend(b, COVERED, c, 4, Body(t));
  }

  lemma HoldsCovered(b: seq<byte>, a: seq<byte>)
    requires Holds(b, a)
    ensures b[..|a|] == a
  {
  }

  // ----- reading

  method ReadRow(b: array<byte>, i: nat) returns (s: Sample)
    requires b.Length == BLOB && i < CAPACITY
    ensures s == DecodeRow(Slot(b[..], i))
  {
    Pow256Values();
    var p := HEADER + RECORD * i;
    ghost var r := Slot(b[..], i);
    var boot := Field(b, p, 4);
    var ms := Field(b, p + 4, 8);
    var epoch := Field(b, p + 12, 8);
    SlotField(b[..], i, 0, 4);
    SlotField(b[..], i, 4, 8);
    SlotField(b[..], i, 12, 8);
    var w: seq<u16> := [];
    for k := 0 to 14
      invariant |w| == k && w == ReadWords(r[20..])[..k]
    {
      var x := Field(b, p + 20 + 2 * k, 2);
      SlotField(b[..], i, 20 + 2 * k, 2);
      ReadWordsAt(r[20..], k);
      SubSlice(r, 20, RECORD, 2 * k, 2 * k + 2);
      assert r[20..RECORD] == r[20..];
      w := w + [x];
    }
    s := RowOf(boot, ms, epoch, w);
  }

  lemma SlotField(b: seq<byte>, i: nat, p: nat, n: nat)
    requires |b| == BLOB && i < CAPACITY && p + n <= RECORD
    ensures Get(Slot(b, i), p, n) == Get(b, HEADER + RECORD * i + p, n)
  {
    var q := HEADER + RECORD * i;
    SubSlice(b, q, q + RECORD, p, p + n);
  }

  method CheckZero(b: array<byte>, lo: nat, hi: nat) returns (ok: bool)
    requires lo <= hi <= b.Length
    ensures ok == AllZero(b[lo..hi])
  {
    for i := lo to hi
      invariant forall j :: lo <= j < i ==> b[j] == 0
    {
      if b[i] != 0 {
        assert b[lo..hi][i - lo] != 0;
        return false;
      }
    }
    return true;
  }

  /** The fields up to the count, and whether recording was under way. */
  predicate FrontAccepted(b: seq<byte>)
    requires |b| == BLOB
  {
    && Get(b, 0, 4) == MAGIC && (Get(b, 4, 2) == 1 || Get(b, 4, 2) == 2) && Get(b, 6, 2) == RECORD
    && Get(b, 8, 2) <= CAPACITY && b[10] <= 1
  }

  /** The two flag bits of the status byte. */
  predicate BitsAccepted(armed: byte, bits: byte) {
    bits <= 3 && !(bits / 2 % 2 == 1 && (bits % 2 != 1 || armed == 1))
  }

  lemma BitsAre(armed: byte, bits: byte)
    requires armed <= 1
    ensures BitsAccepted(armed, bits) <==> bits <= 3 && (bits >= 2 ==> bits == 3 && armed == 0)
  {
  }

  lemma HeadIs(b: seq<byte>)
    requires |b| == BLOB
    ensures HeadAccepted(b) <==>
      FrontAccepted(b) && BitsAccepted(b[10], b[11]) && Get(b, 12, 4) != 0 && AllZero(b[16..32])
  {
    if b[10] <= 1 { BitsAre(b[10], b[11]); }
  }

  method CheckFront(b: array<byte>) returns (ok: bool)
    requires b.Length == BLOB
    ensures ok == FrontAccepted(b[..])
  {
    var magic := Field(b, 0, 4);
    var schema := Field(b, 4, 2);
    var record := Field(b, 6, 2);
    var count := Field(b, 8, 2);
    ok := magic == MAGIC && (schema == 1 || schema == 2) && record == RECORD && count <= CAPACITY && b[10] <= 1;
  }

  method CheckSeal(b: array<byte>) returns (ok: bool)
    requires b.Length == BLOB
    ensures ok == IsSealed(b[..])
  {
    var stored := Field(b, COVERED, 4);
    var c := CrcOf(b, COVERED);
    assert b[..][..COVERED] == b[..COVERED];
    ok := stored == c;
  }

  method CheckHead(b: array<byte>) returns (ok: bool)
    requires b.Length == BLOB
    ensures ok == (HeadAccepted(b[..]) && IsSealed(b[..]))
  {
    HeadIs(b[..]);
    var front := CheckFront(b);
    var sealed := CheckSeal(b);
    if !front || !sealed { return false; }
    var lowSeen, finalized := b[11] % 2 == 1, b[11] / 2 % 2 == 1;
    if b[11] > 3 || (finalized && (!lowSeen || b[10] == 1)) { return false; }
    var boot := Field(b, 12, 4);
    if boot == 0 { return false; }
    ok := CheckZero(b, 16, 32);
    assert b[..][16..32] == b[16..32];
  }

  predicate Follows(rows: seq<Sample>, s: Sample) {
    rows == [] || NotBefore(rows[|rows| - 1], s)
  }

  lemma RowsAcceptedSnoc(rows: seq<Sample>, s: Sample, boot: u32, limit: nat)
    ensures RowsAccepted(rows + [s], boot, limit)
       <==> RowsAccepted(rows, boot, limit) && RowAccepted(s, boot, limit) && Follows(rows, s)
  {
    var all := rows + [s];
    assert all[|rows|] == s;
    assert forall i :: 0 <= i < |rows| ==> all[i] == rows[i];
    if RowsAccepted(all, boot, limit) {
      forall i | 0 <= i < |rows|
        ensures RowAccepted(rows[i], boot, limit)
      {
        assert RowAccepted(all[i], boot, limit);
      }
      forall i | 0 < i < |rows|
        ensures NotBefore(rows[i - 1], rows[i])
      {
        assert NotBefore(all[i - 1], all[i]);
      }
      if rows != [] { assert NotBefore(all[|rows| - 1], all[|rows|]); }
    }
  }

  /** Rejecting any prefix rejects the whole. */
  lemma RowsAcceptedPrefix(rows: seq<Sample>, n: nat, boot: u32, limit: nat)
    requires n <= |rows| && RowsAccepted(rows, boot, limit)
    ensures RowsAccepted(rows[..n], boot, limit)
  {
    assert forall i :: 0 <= i < n ==> rows[..n][i] == rows[i];
  }

  method CheckRow(s: Sample, previous: Option<Sample>, boot: u32, limit: nat) returns (ok: bool)
    ensures ok == (RowAccepted(s, boot, limit) && (previous.Some? ==> NotBefore(previous.value, s)))
  {
    if s.boot == 0 || s.boot > boot || s.flags >= limit { return false; }
    if previous.Some? {
      var p := previous.value;
      if s.boot < p.boot || (s.boot == p.boot && s.monotonicMs < p.monotonicMs) { return false; }
    }
    ok := s.RawCoulomb() || s.rawCoulombMah == 0;
  }

  /** Checks row i against the row before it and stores it. */
  method CheckNextRow(b: array<byte>, m: Ring, i: nat, count: nat, boot: u32, limit: nat) returns (ok: bool)
    requires b.Length == BLOB && m.Valid() && i < count <= CAPACITY
    requires m.rows[..i] == ReadRows(b[..], count)[..i] && RowsAccepted(m.rows[..i], boot, limit)
    modifies m.rows
    ensures ok == RowsAccepted(ReadRows(b[..], count)[..i + 1], boot, limit)
    ensures ok ==> m.rows[..i + 1] == ReadRows(b[..], count)[..i + 1]
    ensures b[..] == old(b[..])
  {
    ghost var before := m.rows[..i];
    var s := ReadRow(b, i);
    assert before + [s] == ReadRows(b[..], count)[..i + 1];
    assert i > 0 ==> m.rows[i - 1] == before[i - 1];
    RowsAcceptedSnoc(before, s, boot, limit);
    ok := CheckRow(s, if i > 0 then Some(m.rows[i - 1]) else None, boot, limit);
    m.rows[i] := s;
    assert m.rows[..i + 1] == before + [s];
  }

  method CheckRows(b: array<byte>, m: Ring, count: nat, boot: u32, limit: nat) returns (ok: bool)
    requires b.Length == BLOB && m.Valid() && count <= CAPACITY
    modifies m.rows
    ensures ok == RowsAccepted(ReadRows(b[..], count), boot, limit)
    ensures ok ==> m.rows[..count] == ReadRows(b[..], count)
    ensures b[..] == old(b[..])
  {
    ghost var all := ReadRows(b[..], count);
    for i := 0 to count
      invariant m.rows[..i] == all[..i] && RowsAccepted(all[..i], boot, limit)
      invariant b[..] == old(b[..])
    {
      var fits := CheckNextRow(b, m, i, count, boot, limit);
      if !fits {
        PrefixRejects(all, i + 1, boot, limit);
        return false;
      }
    }
    assert all[..count] == all;
    return true;
  }

  lemma PrefixRejects(rows: seq<Sample>, n: nat, boot: u32, limit: nat)
    requires n <= |rows| && !RowsAccepted(rows[..n], boot, limit)
    ensures !RowsAccepted(rows, boot, limit)
  {
    if RowsAccepted(rows, boot, limit) {
      RowsAcceptedPrefix(rows, n, boot, limit);
    }
  }

  /** Makes the first count slots of a new trace its rows, with the stored flags. */
  method Adopt(r: Ring, count: nat, armed: bool, lowSeen: bool, finalized: bool)
    requires r.Valid() && r.State() == Idle && count <= CAPACITY
    modifies r
    ensures r.Valid()
    ensures r.View()
      == Trace(r.rows[..count], old(r.boot), Idle.(armed := armed, lowSeen := lowSeen, finalized := finalized))
  {
    r.armed, r.lowSeen, r.finalized := armed, lowSeen, finalized;
    r.count := count;
    r.head := count % CAPACITY;
    LogicalFront(r.rows[..], count);
  }

  /** The fresh trace read from an accepted blob, or null. */
  method DecodeBlob(b: array<byte>) returns (m: Ring?)
    requires b.Length == BLOB
    ensures m == null <==> Decode(b[..]) == None
    ensures m != null ==> fresh(m) && fresh(m.rows) && m.Valid() && Some(m.View()) == Decode(b[..])
  {
    var head := CheckHead(b);
    if !head { return null; }
    var boot, count, limit := HeadFieldsOf(b);
    var r := new Ring(boot);
    assert r.State() == Idle;
    var rows := CheckRows(b, r, count, boot, limit);
    var tail := CheckZero(b, HEADER + RECORD * count, COVERED);
    assert b[..][HEADER + RECORD * count..COVERED] == b[HEADER + RECORD * count..COVERED];
    if !rows || !tail { return null; }
    assert Accepted(b[..]);
    Adopt(r, count, b[10] == 1, b[11] % 2 == 1, b[11] / 2 == 1);
    m := r;
  }

  method HeadFieldsOf(b: array<byte>) returns (boot: u32, count: nat, limit: nat)
    requires b.Length == BLOB
    ensures boot == BootOf(b[..]) && count == Get(b[..], 8, 2) && limit == FlagLimit(Get(b[..], 4, 2))
  {
    Pow256Values();
    boot := Field(b, 12, 4);
    count := Field(b, 8, 2);
    var schema := Field(b, 4, 2);
    limit := FlagLimit(schema);
  }

  lemma LogicalFront(a: seq<Sample>, count: nat)
    requires |a| == CAPACITY && count <= CAPACITY
    ensures Logical(a, count % CAPACITY, count) == a[..count]
  {
  }
}
