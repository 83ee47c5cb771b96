/** The CRC is the standard one: its polynomial, and the values that its start and its final complement determine. */
module CrcValues {
  import opened Bytes
  import opened Crc32

  /** The powers of x below 32 in the polynomial of section 8 of RFC 1952; bit i stands for x to the power 31 - i. */
  const POWERS := {26, 23, 22, 16, 12, 11, 10, 8, 7, 5, 4, 2, 1, 0}

  lemma FirstByte(i: nat)
    requires 0 <= i < 8
    ensures Poly()[i] <==> 31 - i in POWERS
  {
    var b := Poly();
    assert !b[0] && !b[1] && !b[2] && !b[3] && !b[4] && b[5] && !b[6] && !b[7];
  }

  lemma SecondByte(i: nat)
    requires 8 <= i < 16
    ensures Poly()[i] <==> 31 - i in POWERS
  {
    var b := Poly();
    assert b[8] && b[9] && !b[10] && !b[11] && !b[12] && !b[13] && !b[14] && b[15];
  }

  lemma ThirdByte(i: nat)
    requires 16 <= i < 24
    ensures Poly()[i] <==> 31 - i in POWERS
  {
    var b := Poly();
    assert !b[16] && !b[17] && !b[18] && b[19] && b[20] && b[21] && !b[22] && b[23];
  }

  lemma FourthByte(i: nat)
    requires 24 <= i < 32
    ensures Poly()[i] <==> 31 - i in POWERS
  {
    var b := Poly();
    assert b[24] && !b[25] && b[26] && b[27] && !b[28] && b[29] && b[30] && b[31];
  }

  lemma PolyIsStandard(i: nat)
    requires i < 32
    ensures Poly()[i] <==> 31 - i in POWERS
  {
    if i < 8 { FirstByte(i); }
    else if i < 16 { SecondByte(i); }
    else if i < 24 { ThirdByte(i); }
    else { FourthByte(i); }
  }

  lemma {:induction false} ZeroStays(n: nat)
    ensures Steps(Off(32), n) == Off(32)
  {
    if n > 0 {
      assert BitStep(Off(32)) == Off(32);
      ZeroStays(n - 1);
    }
  }

  lemma {:induction false} AllOff(n: nat)
    ensures FromBits(Off(n)) == 0
  {
    if n > 0 {
      assert Off(n)[1..] == Off(n - 1);
      AllOff(n - 1);
    }
  }

  lemma {:induction false} AllOn(n: nat)
    ensures FromBits(Not(Off(n))) == Pow2(n) - 1
  {
    if n > 0 {
      assert Not(Off(n))[1..] == Not(Off(n - 1));
      AllOn(n - 1);
    }
  }

  lemma {:induction false} OnesOf(n: nat)
    ensures BitsOf(seq(n, _ => 255)) == Not(Off(8 * n))
  {
    if n > 0 {
      OnesOf(n - 1);
      assert seq(n, _ => 255)[1..] == seq(n - 1, _ => 255);
      assert ToBits(255, 8) == Not(Off(8)) by { AllOnes(8); }
    }
  }

  lemma {:induction false} AllOnes(n: nat)
    ensures ToBits(Pow2(n) - 1, n) == Not(Off(n))
  {
    Pow2Values();
    if n > 0 {
      AllOnes(n - 1);
      assert (Pow2(n) - 1) / 2 == Pow2(n - 1) - 1 && (Pow2(n) - 1) % 2 == 1;
    }
  }

  lemma CrcOfNothing()
    ensures Crc([]) == 0
  {
    assert Not(Start()) == Off(32);
    AllOff(32);
  }

  lemma Cancels(t: seq<byte>)
    requires BitsOf(t) == Not(Off(32)) && |t| == 4
    ensures Fold(Start(), t) == Off(32)
  {
    WordStep(Start(), t);
    assert Xor(Start(), BitsOf(t) + Off(0)) == Off(32);
    ZeroStays(32);
  }

  lemma FourOnes(t: seq<byte>)
    requires t == [255, 255, 255, 255]
    ensures BitsOf(t) == Not(Off(32))
  {
    assert t == seq(4, _ => 255);
    OnesOf(4);
  }

  /** The CRC of nothing is 0, and that of four bytes 0xff, which cancel the start value, is 0xffffffff. */
  lemma KnownValues(t: seq<byte>)
    ensures Crc([]) == 0
    ensures t == [255, 255, 255, 255] ==> Crc(t) == 0xffff_ffff
  {
    CrcOfNothing();
    if t == [255, 255, 255, 255] {
      FourOnes(t);
      Cancels(t);
      AllOn(32);
      Pow2Values();
    }
  }
}
