/**
 Machine words as bit vectors over GF(2), least significant bit first, and the reflected CRC-32
 (section 8 of RFC 1952) that every stored format in the repository computes bit by bit.
 */
module Crc32 {
  import opened Bytes

  type Bits = seq<bool>

  function ToBits(v: nat, n: nat): (r: Bits)
    ensures |r| == n
  {
    if n == 0 then [] else [v % 2 == 1] + ToBits(v / 2, n - 1)
  }

  function Pow2(n: nat): (r: nat)
    ensures r > 0
  {
    if n == 0 then 1 else 2 * Pow2(n - 1)
  }

  function FromBits(c: Bits): (r: nat)
    ensures r < Pow2(|c|)
  {
    if c == [] then 0 else (if c[0] then 1 else 0) + 2 * FromBits(c[1..])
  }

  function Xor(a: Bits, b: Bits): (r: Bits)
    requires |a| == |b|
    ensures |r| == |a| && forall i :: 0 <= i < |r| ==> r[i] == (a[i] != b[i])
  {
    seq(|a|, i requires 0 <= i < |a| => a[i] != b[i])
  }

  function Not(a: Bits): (r: Bits)
    ensures |r| == |a| && forall i :: 0 <= i < |r| ==> r[i] == !a[i]
  {
    seq(|a|, i requires 0 <= i < |a| => !a[i])
  }

  function Off(n: nat): (r: Bits)
    ensures |r| == n && forall i :: 0 <= i < n ==> !r[i]
  {
    seq(n, _ => false)
  }

  lemma {:induction false} ToBitsOfFromBits(c: Bits)
    ensures ToBits(FromBits(c), |c|) == c
  {
    if c != [] {
      ToBitsOfFromBits(c[1..]);
      var v := FromBits(c);
      assert v / 2 == FromBits(c[1..]) && (v % 2 == 1) == c[0];
    }
  }

  lemma {:induction false} FromBitsOfToBits(v: nat, n: nat)
    requires v < Pow2(n)
    ensures FromBits(ToBits(v, n)) == v
  {
    if n > 0 {
      FromBitsOfToBits(v / 2, n - 1);
      assert ToBits(v, n)[1..] == ToBits(v / 2, n - 1);
    }
  }

  lemma Pow2Values()
    ensures Pow2(8) == 0x100 && Pow2(32) == 0x1_0000_0000
  {
    assert Pow2(4) == 16;
    assert Pow2(8) == 256;
    assert Pow2(12) == 4096;
    assert Pow2(16) == 65536;
    assert Pow2(20) == 0x10_0000;
    assert Pow2(24) == 0x100_0000;
    assert Pow2(28) == 0x1000_0000;
  }

  /** The exclusive or of two bytes. */
  function XorByte(a: byte, b: byte): (r: byte) {
    Pow2Values();
    FromBits(Xor(ToBits(a, 8), ToBits(b, 8)))
  }

  lemma XorByteTwice(a: byte, b: byte)
    ensures XorByte(XorByte(a, b), b) == a
  {
    var x, y := ToBits(a, 8), ToBits(b, 8);
    ToBitsOfFromBits(Xor(x, y));
    assert Xor(Xor(x, y), y) == x;
    Pow2Values();
    FromBitsOfToBits(a, 8);
  }

  // ----- the register

  /** The bits of a run of bytes, first byte lowest. */
  function BitsOf(t: seq<byte>): (r: Bits)
    ensures |r| == 8 * |t|
  {
    if t == [] then [] else ToBits(t[0], 8) + BitsOf(t[1..])
  }

  /** The polynomial 0xedb88320, lowest hexadecimal digit first. */
  function Poly(): (r: Bits)
    ensures |r| == 32 && r[31]
  {
    [
      false, false, false, false,  // 0
      false, true, false, false,  // 2
      true, true, false, false,  // 3
      false, false, false, true,  // 8
      false, false, false, true,  // 8
      true, true, false, true,  // b
      true, false, true, true,  // d
      false, true, true, true  // e
    ]
  }

  /** c shifted right by one, with p folded in when a one drops out. */
  function Shift(c: Bits, p: Bits): (r: Bits)
    requires |c| == |p| == 32
    ensures |r| == 32
  {
    var shifted := c[1..] + [false];
    if c[0] then Xor(shifted, p) else shifted
  }

  function BitStep(c: Bits): (r: Bits)
    requires |c| == 32
    ensures |r| == 32
  {
    Shift(c, Poly())
  }

  function Steps(c: Bits, n: nat): (r: Bits)
    requires |c| == 32
    ensures |r| == 32
    decreases n, c
  {
    if n == 0 then c else Steps(BitStep(c), n - 1)
  }

  function ByteStep(c: Bits, b: byte): (r: Bits)
    requires |c| == 32
    ensures |r| == 32
  {
    Steps(Xor(c, ToBits(b, 32)), 8)
  }

  /** The register after s, starting from c. */
  function Fold(c: Bits, s: seq<byte>): (r: Bits)
    requires |c| == 32
    ensures |r| == 32
    decreases |s|
  {
    if s == [] then c else ByteStep(Fold(c, s[..|s| - 1]), s[|s| - 1])
  }

  function Start(): (r: Bits)
    ensures |r| == 32
  {
    Not(Off(32))
  }

  function Crc(s: seq<byte>): (r: u32) {
    Pow2Values();
    FromBits(Not(Fold(Start(), s)))
  }

  // ----- linear and injective

  lemma BitStepLinear(a: Bits, b: Bits)
    requires |a| == |b| == 32
    ensures BitStep(Xor(a, b)) == Xor(BitStep(a), BitStep(b))
  {
  }

  /** The shift can be undone because the polynomial has its top bit set. */
  lemma ShiftInjective(a: Bits, b: Bits, p: Bits)
    requires |a| == |b| == |p| == 32 && p[31] && Shift(a, p) == Shift(b, p)
    ensures a == b
  {
    assert Shift(a, p)[31] == a[0] && Shift(b, p)[31] == b[0];
    forall i | 1 <= i < 32
      ensures a[i] == b[i]
    {
      assert Shift(a, p)[i - 1] == (a[i] != (a[0] && p[i - 1]));
      assert Shift(b, p)[i - 1] == (b[i] != (b[0] && p[i - 1]));
    }
  }

  lemma BitStepInjective(a: Bits, b: Bits)
    requires |a| == |b| == 32 && BitStep(a) == BitStep(b)
    ensures a == b
  {
    ShiftInjective(a, b, Poly());
  }

  lemma {:induction false} StepsLinear(a: Bits, b: Bits, n: nat)
    requires |a| == |b| == 32
    ensures Steps(Xor(a, b), n) == Xor(Steps(a, n), Steps(b, n))
    decreases n
  {
    if n > 0 {
      BitStepLinear(a, b);
      StepsLinear(BitStep(a), BitStep(b), n - 1);
    }
  }

  lemma {:induction false} StepsInjective(a: Bits, b: Bits, n: nat)
    requires |a| == |b| == 32 && Steps(a, n) == Steps(b, n)
    ensures a == b
    decreases n
  {
    if n > 0 {
      StepsInjective(BitStep(a), BitStep(b), n - 1);
      BitStepInjective(a, b);
    }
  }

  lemma {:induction false} StepsCompose(c: Bits, m: nat, n: nat)
    requires |c| == 32
    ensures Steps(Steps(c, m), n) == Steps(c, m + n)
    decreases m
  {
    if m > 0 {
      StepsCompose(BitStep(c), m - 1, n);
    }
  }

  /** Zero low bits fall out without touching the polynomial. */
  lemma {:induction false} ShiftOut(c: Bits, n: nat)
    requires |c| == 32 && n <= 32 && forall i :: 0 <= i < n ==> !c[i]
    ensures Steps(c, n) == c[n..] + Off(n)
    decreases n
  {
    if n > 0 {
      ShiftOut(BitStep(c), n - 1);
      assert BitStep(c) == c[1..] + [false];
      assert (c[1..] + [false])[n - 1..] + Off(n - 1) == c[n..] + Off(n);
    } else {
      assert c[0..] + Off(0) == c;
    }
  }

  lemma {:induction false} BitsOfInjective(s: seq<byte>, t: seq<byte>)
    requires |s| == |t| && BitsOf(s) == BitsOf(t)
    ensures s == t
  {
    if s != [] {
      assert ToBits(s[0], 8) == BitsOf(s)[..8] == BitsOf(t)[..8] == ToBits(t[0], 8);
      assert BitsOf(s[1..]) == BitsOf(s)[8..] == BitsOf(t)[8..] == BitsOf(t[1..]);
      Pow2Values();
      FromBitsOfToBits(s[0], 8);
      FromBitsOfToBits(t[0], 8);
      BitsOfInjective(s[1..], t[1..]);
    }
  }

  lemma {:induction false} ToBitsZero(n: nat)
    ensures ToBits(0, n) == Off(n)
  {
    if n > 0 {
      ToBitsZero(n - 1);
    }
  }

  lemma {:induction false} ToBitsSplit(v: nat, m: nat, n: nat)
    requires v < Pow2(m)
    ensures ToBits(v, m + n) == ToBits(v, m) + Off(n)
  {
    if m == 0 {
      ToBitsZero(n);
    } else {
      ToBitsSplit(v / 2, m - 1, n);
    }
  }

  lemma {:induction false} FoldAppend(c: Bits, s: seq<byte>, t: seq<byte>)
    requires |c| == 32
    ensures Fold(c, s + t) == Fold(Fold(c, s), t)
    decreases |t|
  {
    if t == [] {
      assert s + t == s;
    } else {
      var t' := t[..|t| - 1];
      FoldAppend(c, s, t');
      assert (s + t)[..|s + t| - 1] == s + t';
    }
  }

  lemma OneByte(c: Bits, b: byte)
    requires |c| == 32
    ensures Fold(c, [b]) == Steps(Xor(c, ToBits(b, 8) + Off(24)), 8)
  {
    assert ToBits(b, 32) == ToBits(b, 8) + Off(24) by {
      Pow2Values();
      ToBitsSplit(b, 8, 24);
    }
    FoldOne(c, b);
  }

  lemma FoldOne(c: Bits, b: byte)
    requires |c| == 32
    ensures Fold(c, [b]) == ByteStep(c, b)
  {
    assert [b][..0] == [];
  }

  /** Bits above the byte being mixed in may be mixed in before the step, eight places higher. */
  lemma MixEarlier(c: Bits, low: Bits, rest: Bits)
    requires |c| == 32 && |low| == 8 && |rest| == 24
    ensures Steps(Xor(c, low + rest), 8) == Xor(Steps(Xor(c, low + Off(24)), 8), rest + Off(8))
  {
    var x, high := Xor(c, low + Off(24)), Off(8) + rest;
    assert Xor(c, low + rest) == Xor(x, high);
    StepsLinear(x, high, 8);
    ShiftOut(high, 8);
    assert high[8..] == rest;
  }

  /** Up to four byte steps are one step of the whole word: bytes may be mixed in early, higher up. */
  lemma {:induction false} WordStep(c: Bits, t: seq<byte>)
    requires |c| == 32 && |t| <= 4
    ensures Fold(c, t) == Steps(Xor(c, BitsOf(t) + Off(32 - 8 * |t|)), 8 * |t|)
    decreases |t|
  {
    if t == [] {
      assert Xor(c, BitsOf(t) + Off(32)) == c;
    } else {
      var n := |t|;
      var low, rest := ToBits(t[0], 8), BitsOf(t[1..]) + Off(32 - 8 * n);
      assert BitsOf(t) + Off(32 - 8 * n) == low + rest;
      StepsCompose(Xor(c, low + rest), 8, 8 * (n - 1));
      MixEarlier(c, low, rest);
      assert rest + Off(8) == BitsOf(t[1..]) + Off(32 - 8 * (n - 1));
      OneByte(c, t[0]);
      WordStep(Fold(c, [t[0]]), t[1..]);
      FoldAppend(c, [t[0]], t[1..]);
      assert [t[0]] + t[1..] == t;
    }
  }

  /** The same bytes never merge two different registers. */
  lemma {:induction false} FoldInjective(a: Bits, b: Bits, s: seq<byte>)
    requires |a| == |b| == 32 && Fold(a, s) == Fold(b, s)
    ensures a == b
    decreases |s|
  {
    if s != [] {
      var s', x := s[..|s| - 1], ToBits(s[|s| - 1], 32);
      var fa, fb := Fold(a, s'), Fold(b, s');
      StepsInjective(Xor(fa, x), Xor(fb, x), 8);
      assert Xor(Xor(fa, x), x) == fa && Xor(Xor(fb, x), x) == fb;
      FoldInjective(a, b, s');
    }
  }

  /** Two messages equal outside four consecutive bytes. */
  predicate SameOutside(a: seq<byte>, b: seq<byte>, p: nat) {
    && |a| == |b| && p + 4 <= |a|
    && a[..p] == b[..p] && a[p + 4..] == b[p + 4..]
  }

  lemma WindowInjective(c: Bits, s: seq<byte>, t: seq<byte>)
    requires |c| == 32 && |s| == |t| == 4 && Fold(c, s) == Fold(c, t)
    ensures s == t
  {
    WordStep(c, s);
    WordStep(c, t);
    assert BitsOf(s) + Off(0) == BitsOf(s) && BitsOf(t) + Off(0) == BitsOf(t);
    StepsInjective(Xor(c, BitsOf(s)), Xor(c, BitsOf(t)), 32);
    assert Xor(c, Xor(c, BitsOf(s))) == BitsOf(s) && Xor(c, Xor(c, BitsOf(t))) == BitsOf(t);
    BitsOfInjective(s, t);
  }

  lemma CrcInjective(a: seq<byte>, b: seq<byte>)
    requires Crc(a) == Crc(b)
    ensures Fold(Start(), a) == Fold(Start(), b)
  {
    var fa, fb := Fold(Start(), a), Fold(Start(), b);
    ToBitsOfFromBits(Not(fa));
    ToBitsOfFromBits(Not(fb));
    assert Not(Not(fa)) == fa && Not(Not(fb)) == fb;
  }

  /** Every change confined to four consecutive bytes changes the CRC. */
  lemma BurstDetected(a: seq<byte>, b: seq<byte>, p: nat)
    requires SameOutside(a, b, p)
    requires a != b
    ensures Crc(a) != Crc(b)
  {
    var wa, wb := a[p..p + 4], b[p..p + 4];
    assert a == (a[..p] + wa) + a[p + 4..] && b == (a[..p] + wb) + a[p + 4..];
    if Crc(a) == Crc(b) {
      CrcInjective(a, b);
      var c := Fold(Start(), a[..p]);
      FoldAppend(Start(), a[..p] + wa, a[p + 4..]);
      FoldAppend(Start(), a[..p] + wb, a[p + 4..]);
      FoldAppend(Start(), a[..p], wa);
      FoldAppend(Start(), a[..p], wb);
      FoldInjective(Fold(c, wa), Fold(c, wb), a[p + 4..]);
      WindowInjective(c, wa, wb);
    }
  }
}
