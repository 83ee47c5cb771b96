/**
 The packed form of a stored trace: rows as differences from the row before, then runs of zeros and of
 non-zero literals, inside a 16-byte frame. A trace that would not shrink is stored as it is.
 */
module TracePack {
  import opened Bytes
  import opened Crc32
  import opened TraceModel
  import opened TraceBlob

  const FRAME := 16
  const FRAME_MAGIC := 0x32435447

  datatype Error = Length | Format | Crc

  datatype Result<+T> = Ok(value: T) | Err(error: Error)

  // ----- differences between rows

  predicate Differs(i: nat, count: nat) {
    HEADER + RECORD <= i < HEADER + count * RECORD
  }

  function DeltaAt(b: seq<byte>, i: nat, count: nat): byte
    requires i < |b|
  {
    if Differs(i, count) then XorByte(b[i], b[i - RECORD]) else b[i]
  }

  function Delta(b: seq<byte>, count: nat): (d: seq<byte>)
    ensures |d| == |b|
  {
    seq(|b|, i requires 0 <= i < |b| => DeltaAt(b, i, count))
  }

  /** The first n bytes with the differences undone from the front. */
  function Restore(d: seq<byte>, count: nat, n: nat): (b: seq<byte>)
    requires n <= |d|
    ensures |b| == n
  {
    if n == 0 then [] else
      var b := Restore(d, count, n - 1);
      b + [if Differs(n - 1, count) then XorByte(d[n - 1], b[n - 1 - RECORD]) else d[n - 1]]
  }

  lemma {:induction false} RestoreOfDelta(b: seq<byte>, count: nat, n: nat)
    requires n <= |b|
    ensures Restore(Delta(b, count), count, n) == b[..n]
  {
    if n > 0 {
      RestoreOfDelta(b, count, n - 1);
      if Differs(n - 1, count) {
        assert b[..n - 1][n - 1 - RECORD] == b[n - 1 - RECORD];
        XorByteTwice(b[n - 1], b[n - 1 - RECORD]);
      }
      assert b[..n] == b[..n - 1] + [b[n - 1]];
    }
  }

  // ----- runs

  /** How many bytes from the front are all zero, or all non-zero, up to limit. */
  function RunLength(d: seq<byte>, limit: nat): (n: nat)
    requires d != [] && limit > 0
    ensures 1 <= n <= limit && n <= |d|
    ensures forall i :: 0 <= i < n ==> (d[i] == 0) == (d[0] == 0)
  {
    if limit > 1 && |d| > 1 && (d[1] == 0) == (d[0] == 0)
    then 1 + RunLength(d[1..], limit - 1)
    else 1
  }

  function Token(d: seq<byte>): (t: seq<byte>)
    requires d != []
    ensures |t| == 1 + (if d[0] == 0 then 0 else RunLength(d, 128))
  {
    var n := RunLength(d, 128);
    if d[0] == 0 then [128 + n - 1] else [n - 1] + d[..n]
  }

  function Squeeze(d: seq<byte>): (s: seq<byte>) {
    if d == [] then [] else Token(d) + Squeeze(d[RunLength(d, 128)..])
  }

  /** Undoes Squeeze, refusing to produce more than room bytes, a short literal, or a zero literal. */
  function Expand(s: seq<byte>, room: nat): (r: Result<seq<byte>>)
    ensures r.Ok? ==> |r.value| <= room
    decreases |s|
  {
    if s == [] then Ok([]) else
      var n := s[0] % 128 + 1;
      if n > room then Err(Length)
      else if s[0] >= 128 then
        Prepend(Zeros(n), Expand(s[1..], room - n))
      else if n > |s| - 1 then
        Err(Length)
      else if 0 in s[1..n + 1] then Err(Format)
      else Prepend(s[1..n + 1], Expand(s[n + 1..], room - n))
  }

  function Prepend(a: seq<byte>, r: Result<seq<byte>>): Result<seq<byte>> {
    if r.Ok? then Ok(a + r.value) else r
  }

  lemma ExpandZeros(n: nat, rest: seq<byte>, room: nat)
    requires 1 <= n <= 128 && n <= room
    ensures Expand([128 + n - 1] + rest, room) == Prepend(Zeros(n), Expand(rest, room - n))
  {
    var s := [128 + n - 1] + rest;
    assert s[0] % 128 + 1 == n;
    assert s[1..] == rest;
  }

  lemma ExpandLiteral(lit: seq<byte>, rest: seq<byte>, room: nat)
    requires 1 <= |lit| <= 128 && |lit| <= room && 0 !in lit
    ensures Expand([|lit| - 1] + lit + rest, room) == Prepend(lit, Expand(rest, room - |lit|))
  {
    var n := |lit|;
    var s := [n - 1] + lit + rest;
    assert s[0] % 128 + 1 == n;
    assert s[1..n + 1] == lit;
    assert s[n + 1..] == rest;
  }

  lemma ExpandToken(d: seq<byte>, rest: seq<byte>, room: nat)
    requires d != [] && RunLength(d, 128) <= room
    ensures Expand(Token(d) + rest, room) == Prepend(d[..RunLength(d, 128)], Expand(rest, room - RunLength(d, 128)))
  {
    var n := RunLength(d, 128);
    if d[0] == 0 {
      assert d[..n] == Zeros(n);
      ExpandZeros(n, rest, room);
    } else {
      assert 0 !in d[..n];
      ExpandLiteral(d[..n], rest, room);
    }
  }

  lemma ExpandFirst(d: seq<byte>, rest: seq<byte>, room: nat)
    requires d != [] && |d| <= room
    requires Expand(rest, room - RunLength(d, 128)) == Ok(d[RunLength(d, 128)..])
    ensures Expand(Token(d) + rest, room) == Ok(d)
  {
    ExpandToken(d, rest, room);
    assert d == d[..RunLength(d, 128)] + d[RunLength(d, 128)..];
  }

  lemma SqueezeFirst(d: seq<byte>)
    requires d != []
    ensures Squeeze(d) == Token(d) + Squeeze(d[RunLength(d, 128)..])
  {
  }

  lemma ExpandNext(d: seq<byte>, n: nat, tail: seq<byte>, room: nat, left: nat)
    requires d != [] && |d| <= room && n == RunLength(d, 128) && tail == d[n..] && left == room - n
    requires Expand(Squeeze(tail), left) == Ok(tail)
    ensures Expand(Squeeze(d), room) == Ok(d)
  {
    ExpandFirst(d, Squeeze(tail), room);
    SqueezeFirst(d);
  }

  lemma {:induction false} ExpandOfSqueeze(d: seq<byte>, room: nat)
    requires |d| <= room
    ensures Expand(Squeeze(d), room) == Ok(d)
    decreases |d|
  {
    if d == [] {
      assert Squeeze(d) == [];
    } else {
      var n := RunLength(d, 128);
      var tail, left := d[n..], room - n;
      ExpandOfSqueeze(tail, left);
      ExpandNext(d, n, tail, room, left);
    }
  }

  // ----- the frame

  function FrameHead(n: nat): (h: seq<byte>)
    ensures |h| == 12
  {
    LE(FRAME_MAGIC, 4) + [1] + [1] + LE(BLOB, 2) + LE(n, 2) + LE(0, 2)
  }

  function FrameCrc(p: seq<byte>): u32
    requires |p| >= FRAME
  {
    Crc32.Crc(p[..12] + p[16..])
  }

  function Frame(s: seq<byte>): (p: seq<byte>)
    ensures |p| == FRAME + |s|
  {
    FrameHead(|s|) + LE(Crc32.Crc(FrameHead(|s|) + s), 4) + s
  }

  function CountOf(b: seq<byte>): nat
    requires |b| == BLOB
  {
    Get(b, 8, 2)
  }

  function Squeezed(b: seq<byte>): seq<byte>
    requires |b| == BLOB
  {
    Squeeze(Delta(b, CountOf(b)))
  }

  predicate Shrinks(b: seq<byte>)
    requires |b| == BLOB
  {
    CountOf(b) <= CAPACITY && FRAME + |Squeezed(b)| < BLOB
  }

  function Pack(b: seq<byte>): (p: seq<byte>)
    requires |b| == BLOB
    ensures |p| <= BLOB && (|p| < BLOB <==> Shrinks(b))
  {
    if Shrinks(b) then Frame(Squeezed(b)) else b
  }

  function Sealed4(b: seq<byte>): Result<seq<byte>>
    requires |b| == BLOB
  {
    if IsSealed(b) then Ok(b) else Err(Crc)
  }

  function Unpack(p: seq<byte>): (r: Result<seq<byte>>)
    ensures r.Ok? ==> |r.value| == BLOB && IsSealed(r.value)
  {
    if |p| > BLOB || |p| < FRAME then Err(Length)
    else if |p| == BLOB then
      if Get(p, 0, 4) != MAGIC then Err(Format) else Sealed4(p)
    else if Get(p, 0, 4) != FRAME_MAGIC || p[4] != 1 || p[5] != 1 || Get(p, 10, 2) != 0 then Err(Format)
    else if Get(p, 6, 2) != BLOB || Get(p, 8, 2) != |p| - FRAME then Err(Length)
    else if Get(p, 12, 4) != FrameCrc(p) then Err(Crc)
    else Unsqueeze(p[FRAME..])
  }

  function Unsqueeze(s: seq<byte>): (r: Result<seq<byte>>)
    ensures r.Ok? ==> |r.value| == BLOB && IsSealed(r.value)
  {
    var e := Expand(s, BLOB);
    if e.Err? then e
    else if |e.value| != BLOB then Err(Length)
    else if CountOf(e.value) > CAPACITY then Err(Format)
    else Sealed4(Restore(e.value, CountOf(e.value), BLOB))
  }

  // ----- round trips

  lemma FramePieces(a: seq<byte>, n: seq<byte>, c: seq<byte>, s: seq<byte>)
    requires |a| == 4 && |n| == 2 && |c| == 4
    ensures var p := a + [1] + [1] + LE(BLOB, 2) + n + LE(0, 2) + c + s;
      && p[0..4] == a && p[4] == 1 && p[5] == 1 && p[6..8] == LE(BLOB, 2) && p[8..10] == n
      && p[10..12] == LE(0, 2) && p[12..16] == c && p[16..] == s
      && p[..12] == a + [1] + [1] + LE(BLOB, 2) + n + LE(0, 2)
  {
  }

  lemma FrameFields(s: seq<byte>)
    requires FRAME + |s| < BLOB
    ensures var p := Frame(s);
      && Get(p, 0, 4) == FRAME_MAGIC && p[4] == 1 && p[5] == 1 && Get(p, 6, 2) == BLOB
      && Get(p, 8, 2) == |s| && Get(p, 10, 2) == 0 && Get(p, 12, 4) == FrameCrc(p) && p[FRAME..] == s
  {
    var p := Frame(s);
    var c := Crc32.Crc(FrameHead(|s|) + s);
    FramePieces(LE(FRAME_MAGIC, 4), LE(|s|, 2), LE(c, 4), s);
    Pow256Values();
    FieldOfLE(p, 0, FRAME_MAGIC, 4);
    FieldOfLE(p, 6, BLOB, 2);
    FieldOfLE(p, 8, |s|, 2);
    FieldOfLE(p, 10, 0, 2);
    FieldOfLE(p, 12, c, 4);
  }

  lemma CountUnchanged(b: seq<byte>, count: nat)
    requires |b| == BLOB
    ensures CountOf(Delta(b, count)) == CountOf(b)
  {
    assert Delta(b, count)[8..10] == b[8..10];
  }

  /** Exactly which blobs come back, on both paths: those sealed, and with the trace magic if stored raw. */
  lemma PackThenUnpack(b: seq<byte>)
    requires |b| == BLOB
    ensures Unpack(Pack(b)) ==
      if !Shrinks(b) && Get(b, 0, 4) != MAGIC then Err(Format) else if IsSealed(b) then Ok(b) else Err(Crc)
  {
    if Shrinks(b) {
      FrameFields(Squeezed(b));
      UnsqueezeBack(b);
    }
  }

  lemma UnsqueezeBack(b: seq<byte>)
    requires |b| == BLOB && CountOf(b) <= CAPACITY
    ensures Unsqueeze(Squeezed(b)) == Sealed4(b)
  {
    var count := CountOf(b);
    ExpandOfSqueeze(Delta(b, count), BLOB);
    CountUnchanged(b, count);
    RestoreOfDelta(b, count, BLOB);
    assert b[..BLOB] == b;
  }

  /** A stored trace survives packing, unpacking and decoding. */
  lemma SaveThenLoad(t: Trace)
    requires Storable(t)
    ensures Unpack(Pack(Encode(t))) == Ok(Encode(t)) && Decode(Encode(t)) == Some(Normal(t))
  {
    PackThenUnpack(Encode(t));
    HeadParts(t);
    SealedIsSealed(Body(t));
    EncodeThenDecode(t);
  }

  /** Packing never merges two sealed traces. */
  lemma PackInjective(a: seq<byte>, b: seq<byte>)
    requires |a| == |b| == BLOB && IsSealed(a) && IsSealed(b)
    requires Get(a, 0, 4) == MAGIC && Get(b, 0, 4) == MAGIC && Pack(a) == Pack(b)
    ensures a == b
  {
    PackThenUnpack(a);
    PackThenUnpack(b);
  }
}
