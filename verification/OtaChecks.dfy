/** When the migration's reads and backups are good enough to go on, in terms of what the ROM delivers. */
module OtaChecks {
  import opened Bytes
  import opened OtaMigrate
  import opened OtaBackup
  import opened OtaWrites

  predicate Delivers(read: Reader, flash: seq<byte>, offset: nat, n: nat)
    requires offset + n <= |flash|
  {
    read(offset, n) == flash[offset..offset + n]
  }

  predicate AllFf(flash: seq<byte>, offset: nat, n: nat)
    requires offset + n <= |flash|
  {
    forall i :: offset <= i < offset + n ==> flash[i] == 0xff
  }

  /** Where no comparison deceives, a read counts exactly if it delivers what stands there. */
  lemma ReadCounts(md5: Digest, read: Reader, flash: seq<byte>, offset: nat, n: nat)
    requires Telling(md5, read, flash) && offset + n <= |flash|
    ensures CheckedRead(md5, read, flash, offset, n).Some? <==> Delivers(read, flash, offset, n)
    ensures CheckedRead(md5, read, flash, offset, n).Some? ==>
      CheckedRead(md5, read, flash, offset, n).value == flash[offset..offset + n]
  {
  }

  lemma ErasedLooks(md5: Digest, read: Reader, flash: seq<byte>, o: nat)
    requires Telling(md5, read, flash) && o + 0x1_0000 <= |flash|
    ensures LooksErased(md5, flash, o) <==> AllFf(flash, o, 0x1_0000)
  {
    var block := flash[o..o + BLOCK];
    if AllFf(flash, o, 0x1_0000) {
      assert block == Fill(BLOCK);
    }
    if block == Fill(BLOCK) {
      forall i | o <= i < o + BLOCK
        ensures flash[i] == 0xff
      {
        assert flash[i] == block[i - o];
      }
    }
  }

  /** Every sector from offset on is delivered. */
  ghost predicate SectorsDelivered(read: Reader, flash: seq<byte>, offset: nat, n: nat)
    requires offset + n <= |flash|
  {
    forall s: nat :: s * 4096 + 4096 <= n ==> Delivers(read, flash, offset + s * 4096, 4096)
  }

  lemma {:induction false} SectorsExactly(md5: Digest, read: Reader, flash: seq<byte>, offset: nat, n: nat)
    requires Telling(md5, read, flash) && Inside(flash, offset, n)
    ensures Sectors(md5, read, flash, offset, n).Some? <==> SectorsDelivered(read, flash, offset, n)
    decreases n
  {
    if n > 0 {
      ReadCounts(md5, read, flash, offset, SECTOR);
      SectorsExactly(md5, read, flash, offset + SECTOR, n - SECTOR);
      SectorsSplit(read, flash, offset, n);
    }
  }

  lemma SectorsSplit(read: Reader, flash: seq<byte>, offset: nat, n: nat)
    requires offset + n <= |flash| && n >= 4096
    ensures SectorsDelivered(read, flash, offset, n) <==>
      Delivers(read, flash, offset, 4096) && SectorsDelivered(read, flash, offset + 4096, n - 4096)
  {
    if SectorsDelivered(read, flash, offset, n) {
      assert Delivers(read, flash, offset + 0 * 4096, 4096);
      forall s: nat | s * 4096 + 4096 <= n - 4096
        ensures Delivers(read, flash, offset + 4096 + s * 4096, 4096)
      {
        assert Delivers(read, flash, offset + (s + 1) * 4096, 4096);
      }
    }
    if Delivers(read, flash, offset, 4096) && SectorsDelivered(read, flash, offset + 4096, n - 4096) {
      forall s: nat | s * 4096 + 4096 <= n
        ensures Delivers(read, flash, offset + s * 4096, 4096)
      {
        if s > 0 { assert Delivers(read, flash, offset + 4096 + (s - 1) * 4096, 4096); }
      }
    }
  }

  /** Block by block of 64 KiB: one that is whole and erased need not be delivered, of any other each sector must. */
  ghost predicate BlocksDelivered(read: Reader, flash: seq<byte>, offset: nat, n: nat)
    requires offset + n <= |flash|
    decreases n
  {
    if n == 0 then true
    else if n < 0x1_0000 then SectorsDelivered(read, flash, offset, n)
    else
      && (AllFf(flash, offset, 0x1_0000) || SectorsDelivered(read, flash, offset, 0x1_0000))
      && BlocksDelivered(read, flash, offset + 0x1_0000, n - 0x1_0000)
  }

  lemma {:induction false} RegionExactly(md5: Digest, read: Reader, flash: seq<byte>, offset: nat, n: nat)
    requires Telling(md5, read, flash) && Inside(flash, offset, n)
    ensures Region(md5, read, flash, offset, n).Some? <==> BlocksDelivered(read, flash, offset, n)
    decreases n
  {
    if n >= BLOCK {
      ErasedLooks(md5, read, flash, offset);
      SectorsExactly(md5, read, flash, offset, BLOCK);
      RegionExactly(md5, read, flash, offset + BLOCK, n - BLOCK);
    } else if n > 0 {
      SectorsExactly(md5, read, flash, offset, n);
    }
  }

  /**
   A backup is complete exactly if it is aligned and not empty, the host keeps it, and everything but whole erased
   blocks is delivered as it stands.
   */
  lemma BackupExactly(md5: Digest, read: Reader, host: bool, flash: seq<byte>, offset: nat, n: nat)
    requires Telling(md5, read, flash) && offset + n <= |flash|
    ensures BackedUp(md5, read, host, flash, offset, n).Some? <==>
      offset % 4096 == 0 && n % 4096 == 0 && n > 0 && host && BlocksDelivered(read, flash, offset, n)
  {
    if offset % 4096 == 0 && n % 4096 == 0 && n > 0 {
      RegionExactly(md5, read, flash, offset, n);
      if Region(md5, read, flash, offset, n).Some? { RegionIs(md5, read, flash, offset, n); }
    }
  }

  /** What the checks before the backups come to. */
  lemma UnderstoodExactly(parse: seq<byte> -> Option<Table>, md5: Digest, read: Reader, flash: seq<byte>,
      frozen: Frozen)
    requires |flash| == NOR && |frozen.app0| <= CAP && |frozen.app1| <= CAP && Telling(md5, read, flash)
    ensures Understood(parse, md5, read, flash, frozen) <==>
      && Delivers(read, flash, 0x9000, 0x1000) && Delivers(read, flash, 0x1_0000, 0x2000)
      && parse(flash[0x9000..0x9c00]) == Some(OLD)
      && Selection(flash[0x1_0000..0x1_1000], flash[0x1_1000..0x1_2000]).Ok?
      && md5(flash[0x2_0000..0x2_0000 + |frozen.app0|]) == md5(frozen.app0)
      && md5(flash[0x40_0000..0x40_0000 + |frozen.app1|]) == md5(frozen.app1)
  {
    ReadCounts(md5, read, flash, TABLE, SECTOR);
    ReadCounts(md5, read, flash, SELECTORS, 2 * SECTOR);
  }

  /** What the backups need: the host, the table, both selectors, and the image's place unless it may be lost. */
  lemma PreservedExactly(md5: Digest, read: Reader, host: bool, flash: seq<byte>, imageLength: nat, discard: bool)
    requires |flash| == NOR && 288 <= imageLength <= CAP && Telling(md5, read, flash)
    ensures Preserved(md5, read, host, flash, imageLength, discard) <==>
      && host && BlocksDelivered(read, flash, 0x9000, 0x1000) && BlocksDelivered(read, flash, 0x1_0000, 0x2000)
      && (discard || BlocksDelivered(read, flash, 0x80_0000, (imageLength + 4095) / 4096 * 4096))
  {
    BackupExactly(md5, read, host, flash, TABLE, SECTOR);
    BackupExactly(md5, read, host, flash, SELECTORS, 2 * SECTOR);
    BackupExactly(md5, read, host, flash, NEW_APP1, SectorSize(imageLength));
  }
}
