/** Why a pair of boot selectors is refused, and the selectors' own CRC. */
module OtaEntries {
  import opened Bytes
  import opened Crc32
  import opened CrcValues
  import opened OtaMigrate

  /** Unlike every other CRC here it starts from a zero register: that of number 0 is 0xffffffff. */
  lemma ZeroNumber()
    ensures EntryCrc(0) == 0xffff_ffff
  {
    assert LE(0, 4) == Zeros(4);
    assert Zeros(4) == [0, 0, 0, 0];
    ZeroBits(4);
    WordStep(Off(32), LE(0, 4));
    assert Xor(Off(32), BitsOf(LE(0, 4)) + Off(0)) == Off(32);
    ZeroStays(32);
    AllOn(32);
    Pow2Values();
  }

  lemma {:induction false} ZeroBits(n: nat)
    ensures BitsOf(Zeros(n)) == Off(8 * n)
  {
    if n > 0 {
      ZeroBits(n - 1);
      ToBitsZero(8);
      assert Zeros(n)[1..] == Zeros(n - 1);
    }
  }

  /** A sector that is neither erased nor holds a number in use with its CRC; then one whose state is unknown. */
  predicate IsMalformed(sector: seq<byte>)
    requires |sector| == 4096
  {
    var n, state, crc := Get(sector, 0, 4), Get(sector, 24, 4), Get(sector, 28, 4);
    && !(n == 0xffff_ffff && state == 0xffff_ffff && crc == 0xffff_ffff)
    && (n == 0 || n == 0xffff_ffff || (0 < n < 0xffff_ffff && crc != EntryCrc(n)))
  }

  predicate HasUnknownState(sector: seq<byte>)
    requires |sector| == 4096
  {
    var n, state := Get(sector, 0, 4), Get(sector, 24, 4);
    0 < n < 0xffff_ffff && Get(sector, 28, 4) == EntryCrc(n) && state > 4
  }

  lemma ReadExactly(sector: seq<byte>, index: nat)
    requires |sector| == 4096
    ensures Read(sector, index) == Bad(Malformed) <==> IsMalformed(sector)
    ensures Read(sector, index) == Bad(UnknownState) <==> HasUnknownState(sector)
    ensures Read(sector, index) == Empty <==>
      Get(sector, 0, 4) == 0xffff_ffff && Get(sector, 24, 4) == 0xffff_ffff && Get(sector, 28, 4) == 0xffff_ffff
    ensures Read(sector, index).Bad? ==> IsMalformed(sector) || HasUnknownState(sector)
  {
    Pow256Values();
  }

  /** The highest bootable entry is the only one of its number, marked valid and of ota_0. */
  predicate Eligible(a: Slot, b: Slot) {
    && Winner(Seen(a), Seen(b)) == Some(0) && Seen(a) != Seen(b)
    && (if Seen(b).None? || (Seen(a).Some? && Seen(a).value > Seen(b).value) then a else b).entry.state == 2
  }

  lemma ErrorsOfTwo(a: Slot, b: Slot)
    requires Numbered(a, 0) && Numbered(b, 1) && a.Used? && b.Used?
    ensures var c := Choose(Listed(a) + Listed(b));
      && (c == Err(NoEligible) <==> Seen(a) == None && Seen(b) == None)
      && (c == Err(NotValidOta0) <==> !(Seen(a) == None && Seen(b) == None) && !Eligible(a, b))
      && (c.Err? ==> c.error == NoEligible || c.error == NotValidOta0 || c.error == Exhausted)
  {
    var es := Listed(a) + Listed(b);
    assert es == [a.entry, b.entry] && es[1..] == [b.entry];
    assert BootableOf([b.entry]) == if Bootable(b.entry) then [b.entry] else [];
  }

  /**
   Without a bootable entry there is nothing eligible; with one that is not the only highest, valid and of ota_0 the
   unit is in the wrong state; otherwise only the numbers can be exhausted.
   */
  lemma ErrorsExactly(a: Slot, b: Slot)
    requires Numbered(a, 0) && Numbered(b, 1)
    ensures var c := Choose(Listed(a) + Listed(b));
      && (c == Err(NoEligible) <==> Seen(a) == None && Seen(b) == None)
      && (c == Err(NotValidOta0) <==> !(Seen(a) == None && Seen(b) == None) && !Eligible(a, b))
      && (c.Err? ==> c.error == NoEligible || c.error == NotValidOta0 || c.error == Exhausted)
  {
    var es := Listed(a) + Listed(b);
    if a.Used? && b.Used? {
      ErrorsOfTwo(a, b);
    } else {
      assert es == (if a.Used? then [a.entry] else if b.Used? then [b.entry] else []);
    }
  }

  /** The first sector that cannot be read decides; otherwise what the entries say does. */
  lemma RefusedExactly(first: seq<byte>, second: seq<byte>)
    requires |first| == |second| == 4096
    ensures var r, c := Selection(first, second), Choose(Listed(Read(first, 0)) + Listed(Read(second, 1)));
      if IsMalformed(first) then r == Err(Malformed)
      else if HasUnknownState(first) then r == Err(UnknownState)
      else if IsMalformed(second) then r == Err(Malformed)
      else if HasUnknownState(second) then r == Err(UnknownState)
      else if c.Err? then r == Err(c.error)
      else r.Ok?
  {
    ReadExactly(first, 0);
    ReadExactly(second, 1);
  }
}
