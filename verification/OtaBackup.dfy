/** Reading flash back through the ROM, block by block, with every piece and the whole compared by digest. */
module OtaBackup {
  import opened Bytes
  import opened OtaMigrate

  const BLOCK := 0x1_0000

  type Digest = seq<byte> -> seq<byte>

  /** What a read of a length at an offset delivers, whatever stands there. */
  type Reader = (nat, nat) -> seq<byte>

  predicate Inside(flash: seq<byte>, offset: nat, n: nat) {
    offset + n <= |flash| && n % SECTOR == 0
  }

  /** A read counts if it has its length and the digest the ROM computes of the same place. */
  function CheckedRead(md5: Digest, read: Reader, flash: seq<byte>, offset: nat, n: nat): Option<seq<byte>>
    requires offset + n <= |flash|
  {
    var data := read(offset, n);
    if |data| != n || md5(data) != md5(flash[offset..offset + n]) then None else Some(data)
  }

  predicate LooksErased(md5: Digest, flash: seq<byte>, o: nat)
    requires o + BLOCK <= |flash|
  {
    md5(flash[o..o + BLOCK]) == md5(Fill(BLOCK))
  }

  /** No comparison of digests that is made here deceives: neither of a read nor of an erased block. */
  ghost predicate Telling(md5: Digest, read: Reader, flash: seq<byte>) {
    && (forall o: nat, n: nat :: o + n <= |flash| && CheckedRead(md5, read, flash, o, n).Some? ==>
          read(o, n) == flash[o..o + n])
    && (forall o: nat :: o + BLOCK <= |flash| && LooksErased(md5, flash, o) ==> flash[o..o + BLOCK] == Fill(BLOCK))
  }

  function Both(a: Option<seq<byte>>, b: Option<seq<byte>>): Option<seq<byte>> {
    if a.None? || b.None? then None else Some(a.value + b.value)
  }

  function Sectors(md5: Digest, read: Reader, flash: seq<byte>, offset: nat, n: nat): Option<seq<byte>>
    requires Inside(flash, offset, n)
    decreases n
  {
    if n == 0 then Some([])
    else
      Both(CheckedRead(md5, read, flash, offset, SECTOR), Sectors(md5, read, flash, offset + SECTOR, n - SECTOR))
  }

  /** A whole erased block is not read at all; anything else is read sector by sector. */
  function Block(md5: Digest, read: Reader, flash: seq<byte>, offset: nat, n: nat): Option<seq<byte>>
    requires Inside(flash, offset, n)
  {
    if n == BLOCK && LooksErased(md5, flash, offset) then Some(Fill(BLOCK))
    else Sectors(md5, read, flash, offset, n)
  }

  function CountAt(n: nat): nat {
    if n < BLOCK then n else BLOCK
  }

  function Region(md5: Digest, read: Reader, flash: seq<byte>, offset: nat, n: nat): Option<seq<byte>>
    requires Inside(flash, offset, n)
    decreases n
  {
    if n == 0 then Some([])
    else
      var count := CountAt(n);
      Both(Block(md5, read, flash, offset, count), Region(md5, read, flash, offset + count, n - count))
  }

  /** The whole must have its digest too, and the host must have kept the file. */
  function BackedUp(md5: Digest, read: Reader, host: bool, flash: seq<byte>, offset: nat, n: nat): Option<seq<byte>>
    requires offset + n <= |flash|
  {
    if offset % SECTOR != 0 || n % SECTOR != 0 || n == 0 then None
    else
      var r := Region(md5, read, flash, offset, n);
      if r.None? || !host || md5(flash[offset..offset + n]) != md5(r.value) then None else r
  }

  lemma JoinSlices(s: seq<byte>, i: nat, j: nat, k: nat)
    requires i <= j <= k <= |s|
    ensures s[i..j] + s[j..k] == s[i..k]
  {
  }

  lemma {:induction false} SectorsAre(md5: Digest, read: Reader, flash: seq<byte>, offset: nat, n: nat)
    requires Inside(flash, offset, n) && Telling(md5, read, flash) && Sectors(md5, read, flash, offset, n).Some?
    ensures Sectors(md5, read, flash, offset, n).value == flash[offset..offset + n]
    decreases n
  {
    if n > 0 {
      SectorsAre(md5, read, flash, offset + SECTOR, n - SECTOR);
      assert CheckedRead(md5, read, flash, offset, SECTOR).Some?;
      JoinSlices(flash, offset, offset + SECTOR, offset + n);
    }
  }

  lemma BlockIs(md5: Digest, read: Reader, flash: seq<byte>, offset: nat, n: nat)
    requires Inside(flash, offset, n) && Telling(md5, read, flash) && Block(md5, read, flash, offset, n).Some?
    ensures Block(md5, read, flash, offset, n).value == flash[offset..offset + n]
  {
    if n != BLOCK || !LooksErased(md5, flash, offset) {
      SectorsAre(md5, read, flash, offset, n);
    }
  }

  lemma {:induction false} RegionIs(md5: Digest, read: Reader, flash: seq<byte>, offset: nat, n: nat)
    requires Inside(flash, offset, n) && Telling(md5, read, flash) && Region(md5, read, flash, offset, n).Some?
    ensures Region(md5, read, flash, offset, n).value == flash[offset..offset + n]
    decreases n
  {
    if n > 0 {
      var count := CountAt(n);
      RegionIs(md5, read, flash, offset + count, n - count);
      BlockIs(md5, read, flash, offset, count);
      JoinSlices(flash, offset, offset + count, offset + n);
    }
  }

  /** A backup that was reported complete is what stands in flash. */
  lemma BackupIsExact(md5: Digest, read: Reader, host: bool, flash: seq<byte>, offset: nat, n: nat)
    requires offset + n <= |flash| && Telling(md5, read, flash)
    requires BackedUp(md5, read, host, flash, offset, n).Some?
    ensures BackedUp(md5, read, host, flash, offset, n).value == flash[offset..offset + n]
  {
    RegionIs(md5, read, flash, offset, n);
  }

  // ----- the code

  lemma BothTwice(data: seq<byte>, a: seq<byte>, b: Option<seq<byte>>)
    ensures Both(Some(data), Both(Some(a), b)) == Both(Some(data + a), b)
  {
    if b.Some? { assert data + (a + b.value) == data + a + b.value; }
  }

  lemma BothNothing(data: seq<byte>, r: Option<seq<byte>>)
    ensures Both(Some([]), r) == r && Both(Some(data), Some([])) == Some(data)
  {
    if r.Some? { assert [] + r.value == r.value; }
    assert data + [] == data;
  }

  /** One more sector behind what was read. */
  lemma SectorStep(md5: Digest, read: Reader, flash: seq<byte>, at: nat, left: nat, data: seq<byte>,
      next: nat, rest: nat)
    requires Inside(flash, at, left) && left > 0 && rest == left - SECTOR && next == at + SECTOR
    ensures var sector := CheckedRead(md5, read, flash, at, SECTOR);
      Both(Some(data), Sectors(md5, read, flash, at, left))
        == if sector.None? then None else Both(Some(data + sector.value), Sectors(md5, read, flash, next, rest))
  {
    var sector := CheckedRead(md5, read, flash, at, SECTOR);
    if sector.Some? { BothTwice(data, sector.value, Sectors(md5, read, flash, next, rest)); }
  }

  method ReadSectors(md5: Digest, read: Reader, flash: seq<byte>, offset: nat, n: nat)
    returns (r: Option<seq<byte>>)
    requires Inside(flash, offset, n)
    ensures r == Sectors(md5, read, flash, offset, n)
  {
    ghost var goal := Sectors(md5, read, flash, offset, n);
    var data: seq<byte>, at: nat, left: nat := [], offset, n;
    BothNothing(data, goal);
    while left > 0
      invariant Inside(flash, at, left)
      invariant goal == Both(Some(data), Sectors(md5, read, flash, at, left))
    {
      var sector := CheckedRead(md5, read, flash, at, SECTOR);
      SectorStep(md5, read, flash, at, left, data, at + SECTOR, left - SECTOR);
      if sector.None? { return None; }
      data, at, left := data + sector.value, at + SECTOR, left - SECTOR;
    }
    BothNothing(data, goal);
    return Some(data);
  }

  method ReadBlock(md5: Digest, read: Reader, flash: seq<byte>, offset: nat, n: nat)
    returns (r: Option<seq<byte>>)
    requires Inside(flash, offset, n)
    ensures r == Block(md5, read, flash, offset, n)
  {
    if n == BLOCK && LooksErased(md5, flash, offset) { return Some(Fill(BLOCK)); }
    r := ReadSectors(md5, read, flash, offset, n);
  }

  /** One more block behind what was read. */
  lemma RegionStep(md5: Digest, read: Reader, flash: seq<byte>, at: nat, left: nat, data: seq<byte>,
      next: nat, rest: nat)
    requires Inside(flash, at, left) && left > 0
    requires rest == left - CountAt(left) && next == at + CountAt(left)
    ensures var block := Block(md5, read, flash, at, CountAt(left));
      Both(Some(data), Region(md5, read, flash, at, left))
        == if block.None? then None else Both(Some(data + block.value), Region(md5, read, flash, next, rest))
  {
    var block := Block(md5, read, flash, at, CountAt(left));
    if block.Some? { BothTwice(data, block.value, Region(md5, read, flash, next, rest)); }
  }

  method ReadRegion(md5: Digest, read: Reader, flash: seq<byte>, offset: nat, n: nat)
    returns (r: Option<seq<byte>>)
    requires Inside(flash, offset, n)
    ensures r == Region(md5, read, flash, offset, n)
  {
    ghost var goal := Region(md5, read, flash, offset, n);
    var data: seq<byte>, at: nat, left: nat := [], offset, n;
    BothNothing(data, goal);
    while left > 0
      invariant Inside(flash, at, left)
      invariant goal == Both(Some(data), Region(md5, read, flash, at, left))
    {
      var count := CountAt(left);
      var block := ReadBlock(md5, read, flash, at, count);
      RegionStep(md5, read, flash, at, left, data, at + count, left - count);
      if block.None? { return None; }
      data, at, left := data + block.value, at + count, left - count;
    }
    BothNothing(data, goal);
    return Some(data);
  }

  method BackupRegion(md5: Digest, read: Reader, host: bool, flash: seq<byte>, offset: nat, n: nat)
    returns (r: Option<seq<byte>>)
    requires offset + n <= |flash|
    ensures r == BackedUp(md5, read, host, flash, offset, n)
  {
    if offset % SECTOR != 0 || n % SECTOR != 0 || n == 0 { return None; }
    r := ReadRegion(md5, read, flash, offset, n);
    if r.None? || !host || md5(flash[offset..offset + n]) != md5(r.value) { return None; }
  }
}
