/** The three writes of the migration on the flash itself, and what the unit boots after each prefix of them. */
module OtaWrites {
  import opened Bytes
  import opened OtaMigrate
  import opened OtaBackup

  /** Where a partition table puts the two applications. */
  datatype Table = Table(app0: Span, app1: Span)

  const OLD := Table(Span(APP0, 0x3e_0000), Span(0x40_0000, 0x3f_0000))
  const NEW := Table(Span(APP0, 0x60_0000), Span(NEW_APP1, 0x60_0000))

  function SectorSize(n: nat): nat {
    (n + SECTOR - 1) / SECTOR * SECTOR
  }

  function RangePlan(imageLength: nat, selectorOffset: nat): Result<seq<Span>> {
    if imageLength < 288 || imageLength > CAP || (selectorOffset != SELECTORS && selectorOffset != SELECTORS + SECTOR)
    then Err(UnsafeBounds)
    else Ok([Span(NEW_APP1, SectorSize(imageLength)), Span(TABLE, SECTOR), Span(selectorOffset, SECTOR)])
  }

  /** The planned ranges never overlap or leave the flash, and stay clear of the application booted meanwhile. */
  lemma PlanIsDisjoint(imageLength: nat, selectorOffset: nat)
    requires RangePlan(imageLength, selectorOffset).Ok?
    ensures var ss := RangePlan(imageLength, selectorOffset).value;
      && Complement(ss).Ok?
      && (forall x :: In(NEW.app0, x) || x < TABLE ==> Hits(ss, x) == 0)
      && imageLength <= ss[0].length < imageLength + SECTOR && ss[0].length <= NEW.app1.length
  {
    var ss := RangePlan(imageLength, selectorOffset).value;
    assert ss[0].length <= NEW.app1.length;
    forall x
      ensures Hits(ss, x)
        == (if In(ss[0], x) then 1 else 0) + (if In(ss[1], x) then 1 else 0) + (if In(ss[2], x) then 1 else 0)
    {
      assert ss[1..] == [ss[1], ss[2]] && ss[1..][1..] == [ss[2]];
      assert Hits([ss[2]], x) == if In(ss[2], x) then 1 else 0;
    }
    assert forall s :: s in ss ==> Fits(s);
    ComplementTiles(ss);
  }

  function Apply(flash: seq<byte>, offset: nat, data: seq<byte>): (r: seq<byte>)
    requires offset + |data| <= |flash|
    ensures |r| == |flash|
    ensures forall x :: 0 <= x < |flash| ==>
      r[x] == if offset <= x < offset + |data| then data[x - offset] else flash[x]
  {
    flash[..offset] + data + flash[offset + |data|..]
  }

  lemma Elsewhere(flash: seq<byte>, offset: nat, data: seq<byte>, p: nat, q: nat)
    requires offset + |data| <= |flash| && p <= q <= |flash|
    requires q <= offset || offset + |data| <= p
    ensures Apply(flash, offset, data)[p..q] == flash[p..q]
  {
  }

  lemma Here(flash: seq<byte>, offset: nat, data: seq<byte>)
    requires offset + |data| <= |flash|
    ensures Apply(flash, offset, data)[offset..offset + |data|] == data
  {
  }

  function Selector(flash: seq<byte>, i: nat): (r: seq<byte>)
    requires |flash| == NOR && i <= 1
    ensures |r| == SECTOR
  {
    flash[SELECTORS + i * SECTOR..SELECTORS + i * SECTOR + SECTOR]
  }

  /** The span booted: the table names the applications, the selectors pick one. parse is the loader's table reader. */
  function BootedSpan(parse: seq<byte> -> Option<Table>, flash: seq<byte>): Option<Span>
    requires |flash| == NOR
  {
    var t, slot := parse(flash[TABLE..TABLE + TABLE_BYTES]), Boots(Selector(flash, 0), Selector(flash, 1));
    if t.None? || slot.None? then None else Some(if slot.value == 0 then t.value.app0 else t.value.app1)
  }

  function Contents(flash: seq<byte>, s: Span): seq<byte>
    requires |flash| == NOR && Fits(s)
  {
    flash[s.start..s.start + s.length]
  }

  /** What the migration needs to find before it writes anything. */
  predicate Ready(parse: seq<byte> -> Option<Table>, flash: seq<byte>, image: seq<byte>, table: seq<byte>) {
    && |flash| == NOR && 288 <= |image| <= CAP && |table| == TABLE_BYTES
    && parse(flash[TABLE..TABLE + TABLE_BYTES]) == Some(OLD) && parse(table) == Some(NEW)
    && Selection(Selector(flash, 0), Selector(flash, 1)).Ok?
  }

  function PlanFor(flash: seq<byte>): (p: Plan)
    requires |flash| == NOR && Selection(Selector(flash, 0), Selector(flash, 1)).Ok?
    ensures p.keepIndex <= 1 && p.offset == SELECTORS + (1 - p.keepIndex) * SECTOR && |p.data| == SECTOR
  {
    SelectionIsSafe(Selector(flash, 0), Selector(flash, 1));
    Selection(Selector(flash, 0), Selector(flash, 1)).value
  }

  function Padded(image: seq<byte>): (r: seq<byte>)
    requires 288 <= |image| <= CAP
    ensures |r| == SectorSize(|image|) <= NEW.app1.length && image <= r
  {
    image + Fill(SectorSize(|image|) - |image|)
  }

  function WithImage(flash: seq<byte>, image: seq<byte>): (r: seq<byte>)
    requires |flash| == NOR && 288 <= |image| <= CAP
    ensures |r| == NOR
  {
    Apply(flash, NEW_APP1, Padded(image))
  }

  /** The rest of the table's sector is kept. */
  function WithTable(flash: seq<byte>, table: seq<byte>): (r: seq<byte>)
    requires |flash| == NOR && |table| == TABLE_BYTES
    ensures |r| == NOR
  {
    Apply(flash, TABLE, table + flash[TABLE + TABLE_BYTES..TABLE + SECTOR])
  }

  function WithSelector(flash: seq<byte>, p: Plan, sector: seq<byte>): (r: seq<byte>)
    requires |flash| == NOR && |sector| == SECTOR && p.keepIndex <= 1
    requires p.offset == SELECTORS + (1 - p.keepIndex) * SECTOR
    ensures |r| == NOR
  {
    Apply(flash, p.offset, sector)
  }

  /** Two flash contents that differ at most in one interval. */
  predicate SameOutside(f: seq<byte>, g: seq<byte>, s: Span) {
    |f| == |g| == NOR && forall x :: 0 <= x < NOR && !In(s, x) ==> f[x] == g[x]
  }

  lemma SameSlice(f: seq<byte>, g: seq<byte>, s: Span, p: nat, q: nat)
    requires SameOutside(f, g, s) && p <= q <= NOR && (q <= s.start || s.start + s.length <= p)
    ensures f[p..q] == g[p..q]
  {
  }

  /** While the image is being written, whatever stands in its place, the same application is booted, untouched. */
  lemma ImageIsHarmless(parse: seq<byte> -> Option<Table>, flash: seq<byte>, g: seq<byte>)
    requires SameOutside(flash, g, NEW.app1)
    ensures BootedSpan(parse, g) == BootedSpan(parse, flash) && Contents(g, NEW.app0) == Contents(flash, NEW.app0)
    ensures Selector(g, 0) == Selector(flash, 0) && Selector(g, 1) == Selector(flash, 1)
    ensures g[TABLE..TABLE + TABLE_BYTES] == flash[TABLE..TABLE + TABLE_BYTES]
  {
    SameSlice(flash, g, NEW.app1, TABLE, TABLE + TABLE_BYTES);
    SameSlice(flash, g, NEW.app1, SELECTORS, SELECTORS + SECTOR);
    SameSlice(flash, g, NEW.app1, SELECTORS + SECTOR, SELECTORS + SECTOR + SECTOR);
    SameSlice(flash, g, NEW.app1, APP0, APP0 + 0x60_0000);
  }

  lemma TableKeeps(flash: seq<byte>, table: seq<byte>)
    requires |flash| == NOR && |table| == TABLE_BYTES
    ensures var g := WithTable(flash, table);
      && g[TABLE..TABLE + TABLE_BYTES] == table
      && Selector(g, 0) == Selector(flash, 0) && Selector(g, 1) == Selector(flash, 1)
      && Contents(g, NEW.app0) == Contents(flash, NEW.app0) && Contents(g, NEW.app1) == Contents(flash, NEW.app1)
  {
    var data := table + flash[TABLE + TABLE_BYTES..TABLE + SECTOR];
    Here(flash, TABLE, data);
    var g := WithTable(flash, table);
    assert g[TABLE..TABLE + TABLE_BYTES] == g[TABLE..TABLE + SECTOR][..TABLE_BYTES] == data[..TABLE_BYTES] == table;
    Elsewhere(flash, TABLE, data, SELECTORS, SELECTORS + SECTOR);
    Elsewhere(flash, TABLE, data, SELECTORS + SECTOR, SELECTORS + 2 * SECTOR);
    Elsewhere(flash, TABLE, data, APP0, APP0 + 0x60_0000);
    Elsewhere(flash, TABLE, data, NEW_APP1, NEW_APP1 + 0x60_0000);
  }

  lemma SelectorKeeps(flash: seq<byte>, p: Plan, sector: seq<byte>)
    requires |flash| == NOR && |sector| == SECTOR && p.keepIndex <= 1
    requires p.offset == SELECTORS + (1 - p.keepIndex) * SECTOR
    ensures var g := WithSelector(flash, p, sector);
      && g[TABLE..TABLE + TABLE_BYTES] == flash[TABLE..TABLE + TABLE_BYTES]
      && Selector(g, p.keepIndex) == Selector(flash, p.keepIndex) && Selector(g, 1 - p.keepIndex) == sector
      && Contents(g, NEW.app0) == Contents(flash, NEW.app0) && Contents(g, NEW.app1) == Contents(flash, NEW.app1)
  {
    Here(flash, p.offset, sector);
    var keep := SELECTORS + p.keepIndex * SECTOR;
    Elsewhere(flash, p.offset, sector, keep, keep + SECTOR);
    Elsewhere(flash, p.offset, sector, TABLE, TABLE + TABLE_BYTES);
    Elsewhere(flash, p.offset, sector, APP0, APP0 + 0x60_0000);
    Elsewhere(flash, p.offset, sector, NEW_APP1, NEW_APP1 + 0x60_0000);
  }

  /** The states between the writes, from none to all three, with the erased selector in between. */
  function Stage(flash: seq<byte>, image: seq<byte>, table: seq<byte>, k: nat): (r: seq<byte>)
    requires |flash| == NOR && 288 <= |image| <= CAP && |table| == TABLE_BYTES
    requires Selection(Selector(flash, 0), Selector(flash, 1)).Ok?
    ensures |r| == NOR
  {
    StageOf(flash, PlanFor(flash), image, table, k)
  }

  predicate Planned(p: Plan) {
    p.keepIndex <= 1 && p.offset == SELECTORS + (1 - p.keepIndex) * SECTOR && |p.data| == SECTOR
  }

  function StageOf(flash: seq<byte>, p: Plan, image: seq<byte>, table: seq<byte>, k: nat): (r: seq<byte>)
    requires |flash| == NOR && 288 <= |image| <= CAP && |table| == TABLE_BYTES && Planned(p)
    ensures |r| == NOR
  {
    if k == 0 then flash
    else if k == 1 then WithImage(flash, image)
    else
      var second := WithTable(WithImage(flash, image), table);
      if k == 2 then second else WithSelector(second, p, if k == 3 then Fill(SECTOR) else p.data)
  }

  /** The first application is untouched, and either it or the complete new image is booted. */
  predicate Safe(parse: seq<byte> -> Option<Table>, before: seq<byte>, g: seq<byte>, image: seq<byte>) {
    && |before| == |g| == NOR && Contents(g, NEW.app0) == Contents(before, NEW.app0)
    && (|| BootedSpan(parse, g) == Some(OLD.app0) || BootedSpan(parse, g) == Some(NEW.app0)
        || (BootedSpan(parse, g) == Some(NEW.app1) && image <= Contents(g, NEW.app1)))
  }

  lemma ImageStage(parse: seq<byte> -> Option<Table>, flash: seq<byte>, image: seq<byte>)
    requires |flash| == NOR && 288 <= |image| <= CAP
    ensures var g := WithImage(flash, image);
      && BootedSpan(parse, g) == BootedSpan(parse, flash) && Contents(g, NEW.app0) == Contents(flash, NEW.app0)
      && Selector(g, 0) == Selector(flash, 0) && Selector(g, 1) == Selector(flash, 1)
      && image <= Contents(g, NEW.app1)
  {
    var g := WithImage(flash, image);
    ImageIsHarmless(parse, flash, g);
    assert forall x :: 0 <= x < |image| ==> Contents(g, NEW.app1)[x] == g[NEW_APP1 + x] == image[x];
  }

  lemma BootedIs(parse: seq<byte> -> Option<Table>, g: seq<byte>, t: Table, slot: nat)
    requires |g| == NOR && parse(g[TABLE..TABLE + TABLE_BYTES]) == Some(t)
    requires Boots(Selector(g, 0), Selector(g, 1)) == Some(slot)
    ensures BootedSpan(parse, g) == Some(if slot == 0 then t.app0 else t.app1)
  {
  }

  lemma TableStage(parse: seq<byte> -> Option<Table>, flash: seq<byte>, table: seq<byte>)
    requires |flash| == NOR && |table| == TABLE_BYTES && parse(table) == Some(NEW)
    requires Boots(Selector(flash, 0), Selector(flash, 1)) == Some(0)
    ensures BootedSpan(parse, WithTable(flash, table)) == Some(NEW.app0)
  {
    TableKeeps(flash, table);
    BootedIs(parse, WithTable(flash, table), NEW, 0);
  }

  lemma SelectorStage(parse: seq<byte> -> Option<Table>, g: seq<byte>, first: seq<byte>, second: seq<byte>, p: Plan,
      written: bool)
    requires |g| == NOR && |first| == |second| == SECTOR && Selection(first, second) == Ok(p)
    requires p.keepIndex <= 1 && p.offset == SELECTORS + (1 - p.keepIndex) * SECTOR && |p.data| == SECTOR
    requires Selector(g, 0) == first && Selector(g, 1) == second && parse(g[TABLE..TABLE + TABLE_BYTES]) == Some(NEW)
    ensures BootedSpan(parse, WithSelector(g, p, if written then p.data else Fill(SECTOR)))
      == Some(if written then NEW.app1 else NEW.app0)
  {
    var sector := if written then p.data else Fill(SECTOR);
    SelectionIsSafe(first, second);
    SelectorKeeps(g, p, sector);
    BootedIs(parse, WithSelector(g, p, sector), NEW, if written then 1 else 0);
  }

  lemma LateBoots(parse: seq<byte> -> Option<Table>, flash: seq<byte>, image: seq<byte>, table: seq<byte>,
      k: nat)
    requires Ready(parse, flash, image, table) && k >= 2
    requires var g := WithImage(flash, image);
      && Contents(g, NEW.app0) == Contents(flash, NEW.app0) && image <= Contents(g, NEW.app1)
      && Selector(g, 0) == Selector(flash, 0) && Selector(g, 1) == Selector(flash, 1)
    ensures var g := Stage(flash, image, table, k);
      && BootedSpan(parse, g) == Some(if k < 4 then NEW.app0 else NEW.app1)
      && Contents(g, NEW.app0) == Contents(flash, NEW.app0) && image <= Contents(g, NEW.app1)
  {
    var p, a, b := PlanFor(flash), Selector(flash, 0), Selector(flash, 1);
    SelectionIsSafe(a, b);
    var first := WithImage(flash, image);
    var second := WithTable(first, table);
    TableKeeps(first, table);
    TableStage(parse, first, table);
    if k >= 3 {
      SelectorStage(parse, second, a, b, p, k > 3);
      SelectorKeeps(second, p, if k == 3 then Fill(SECTOR) else p.data);
    }
  }

  /**
   After every prefix of the completed writes, and with the other selector only erased, the unit boots the first
   application, whose bytes are untouched throughout; after all three it boots the new image, complete in its place.
   */
  lemma EveryPrefixBoots(parse: seq<byte> -> Option<Table>, flash: seq<byte>, image: seq<byte>, table: seq<byte>,
      k: nat)
    requires Ready(parse, flash, image, table)
    ensures var g := Stage(flash, image, table, k);
      && BootedSpan(parse, g) == Some(if k < 2 then OLD.app0 else if k < 4 then NEW.app0 else NEW.app1)
      && Contents(g, NEW.app0) == Contents(flash, NEW.app0)
      && (k > 0 ==> image <= Contents(g, NEW.app1))
      && Safe(parse, flash, g, image)
  {
    SelectionIsSafe(Selector(flash, 0), Selector(flash, 1));
    BootedIs(parse, flash, OLD, 0);
    ImageStage(parse, flash, image);
    if k >= 2 { LateBoots(parse, flash, image, table, k); }
  }

  lemma HitsThree(a: Span, b: Span, c: Span, x: int)
    ensures Hits([a, b, c], x)
      == (if In(a, x) then 1 else 0) + (if In(b, x) then 1 else 0) + (if In(c, x) then 1 else 0)
  {
    assert [a, b, c][1..] == [b, c] && [b, c][1..] == [c];
    assert Hits([c], x) == if In(c, x) then 1 else 0;
  }

  /** Nothing outside the planned ranges ever changes. */
  lemma OthersUntouched(flash: seq<byte>, image: seq<byte>, table: seq<byte>, k: nat, x: nat)
    requires |flash| == NOR && 288 <= |image| <= CAP && |table| == TABLE_BYTES
    requires Selection(Selector(flash, 0), Selector(flash, 1)).Ok?
    requires x < NOR && Hits(RangePlan(|image|, PlanFor(flash).offset).value, x) == 0
    ensures Stage(flash, image, table, k)[x] == flash[x]
  {
    var p := PlanFor(flash);
    HitsThree(Span(NEW_APP1, SectorSize(|image|)), Span(TABLE, SECTOR), Span(p.offset, SECTOR), x);
    var first := WithImage(flash, image);
    assert first[x] == flash[x];
    assert WithTable(first, table)[x] == first[x];
  }

  /** Copies of the two applications the unit is expected to hold. */
  datatype Frozen = Frozen(app0: seq<byte>, app1: seq<byte>)

  predicate Recognised(md5: seq<byte> -> seq<byte>, flash: seq<byte>, frozen: Frozen)
    requires |flash| == NOR && |frozen.app0| <= CAP && |frozen.app1| <= CAP
  {
    && md5(flash[APP0..APP0 + |frozen.app0|]) == md5(frozen.app0)
    && md5(flash[OLD.app1.start..OLD.app1.start + |frozen.app1|]) == md5(frozen.app1)
  }

  /** The table and the selectors were read and can be worked with, and the applications are those expected. */
  predicate Understood(parse: seq<byte> -> Option<Table>, md5: Digest, read: Reader, flash: seq<byte>, frozen: Frozen)
    requires |flash| == NOR && |frozen.app0| <= CAP && |frozen.app1| <= CAP
  {
    && CheckedRead(md5, read, flash, TABLE, SECTOR).Some?
    && CheckedRead(md5, read, flash, SELECTORS, 2 * SECTOR).Some?
    && parse(flash[TABLE..TABLE + TABLE_BYTES]) == Some(OLD)
    && Selection(Selector(flash, 0), Selector(flash, 1)).Ok? && Recognised(md5, flash, frozen)
  }

  /** Every region to be kept was read back and stored. */
  predicate Preserved(md5: Digest, read: Reader, host: bool, flash: seq<byte>, imageLength: nat, discard: bool)
    requires |flash| == NOR && imageLength <= CAP
  {
    && (discard || BackedUp(md5, read, host, flash, NEW_APP1, SectorSize(imageLength)).Some?)
    && BackedUp(md5, read, host, flash, TABLE, SECTOR).Some?
    && BackedUp(md5, read, host, flash, SELECTORS, 2 * SECTOR).Some?
  }

  /** What the rollback files keep; the rest of the image's place only if its loss was not authorized. */
  datatype Backup = Backup(selector: seq<byte>, table: seq<byte>, factory: Option<seq<byte>>)

  function BackupAt(flash: seq<byte>, offset: nat, imageLength: nat, discard: bool): (b: Backup)
    requires |flash| == NOR && imageLength <= CAP && offset + SECTOR <= NOR
    ensures |b.selector| == |b.table| == SECTOR && (b.factory.Some? ==> |b.factory.value| <= NEW.app1.length)
  {
    Backup(flash[offset..offset + SECTOR], flash[TABLE..TABLE + SECTOR],
      if discard then None else Some(flash[NEW_APP1..NEW_APP1 + SectorSize(imageLength)]))
  }

  function BackupOf(flash: seq<byte>, imageLength: nat, discard: bool): Backup
    requires |flash| == NOR && imageLength <= CAP && Selection(Selector(flash, 0), Selector(flash, 1)).Ok?
  {
    BackupAt(flash, PlanFor(flash).offset, imageLength, discard)
  }

  /** The first k writes of the recovery, in its order: the selector, the table, the image's place. */
  function Restored(g: seq<byte>, b: Backup, offset: nat, k: nat): (r: seq<byte>)
    requires |g| == NOR && offset + |b.selector| <= NOR && TABLE + |b.table| <= NOR
    requires b.factory.Some? ==> NEW_APP1 + |b.factory.value| <= NOR
    ensures |r| == NOR
  {
    if k == 0 then g else RestoredRest(Apply(g, offset, b.selector), b, k - 1)
  }

  function RestoredRest(g: seq<byte>, b: Backup, k: nat): (r: seq<byte>)
    requires |g| == NOR && TABLE + |b.table| <= NOR
    requires b.factory.Some? ==> NEW_APP1 + |b.factory.value| <= NOR
    ensures |r| == NOR
  {
    if k == 0 then g
    else
      var second := Apply(g, TABLE, b.table);
      if k == 1 || b.factory.None? then second else Apply(second, NEW_APP1, b.factory.value)
  }

  /** Each byte comes from the last write that reaches it. */
  lemma RestoredAt(g: seq<byte>, b: Backup, offset: nat, x: nat)
    requires |g| == NOR && offset + |b.selector| <= TABLE + NOR && x < NOR
    requires TABLE + |b.table| <= offset && offset + |b.selector| <= NEW_APP1
    requires b.factory.Some? ==> NEW_APP1 + |b.factory.value| <= NOR
    ensures Restored(g, b, offset, 3)[x] ==
      if TABLE <= x < TABLE + |b.table| then b.table[x - TABLE]
      else if offset <= x < offset + |b.selector| then b.selector[x - offset]
      else if b.factory.Some? && NEW_APP1 <= x < NEW_APP1 + |b.factory.value| then b.factory.value[x - NEW_APP1]
      else g[x]
  {
  }

  lemma RestoreByte(flash: seq<byte>, g: seq<byte>, b: Backup, image: Span, offset: nat, x: nat)
    requires |flash| == |g| == NOR && Fits(image) && image.start == NEW_APP1 && x < NOR
    requires TABLE + SECTOR <= offset && offset + SECTOR <= NEW_APP1
    requires b.selector == flash[offset..offset + SECTOR] && b.table == flash[TABLE..TABLE + SECTOR]
    requires b.factory.Some? ==> b.factory.value == flash[NEW_APP1..NEW_APP1 + image.length]
    requires Hits([image, Span(TABLE, SECTOR), Span(offset, SECTOR)], x) == 0 ==> g[x] == flash[x]
    requires b.factory.None? ==> !In(image, x)
    ensures Restored(g, b, offset, 3)[x] == flash[x]
  {
    HitsThree(image, Span(TABLE, SECTOR), Span(offset, SECTOR), x);
    RestoredAt(g, b, offset, x);
  }

  lemma RestoreAt(flash: seq<byte>, g: seq<byte>, offset: nat, image: Span, b: Backup, discard: bool)
    requires |flash| == |g| == NOR && Fits(image) && image.start == NEW_APP1
    requires TABLE + SECTOR <= offset && offset + SECTOR <= NEW_APP1
    requires b.selector == flash[offset..offset + SECTOR] && b.table == flash[TABLE..TABLE + SECTOR]
    requires if discard then b.factory == None else b.factory == Some(flash[NEW_APP1..NEW_APP1 + image.length])
    requires var ss := [image, Span(TABLE, SECTOR), Span(offset, SECTOR)];
      forall x :: 0 <= x < NOR && Hits(ss, x) == 0 ==> g[x] == flash[x]
    ensures var r := Restored(g, b, offset, 3);
      forall x :: 0 <= x < NOR && !(discard && In(image, x)) ==> r[x] == flash[x]
  {
    forall x | 0 <= x < NOR && !(discard && In(image, x))
      ensures Restored(g, b, offset, 3)[x] == flash[x]
    {
      RestoreByte(flash, g, b, image, offset, x);
    }
  }

  lemma RestorePlanned(flash: seq<byte>, g: seq<byte>, offset: nat, imageLength: nat, discard: bool)
    requires |flash| == |g| == NOR && 288 <= imageLength <= CAP
    requires offset == SELECTORS || offset == SELECTORS + SECTOR
    requires var ss := RangePlan(imageLength, offset).value;
      forall x :: 0 <= x < NOR && Hits(ss, x) == 0 ==> g[x] == flash[x]
    ensures var r := Restored(g, BackupAt(flash, offset, imageLength, discard), offset, 3);
      if discard then SameOutside(flash, r, NEW.app1) else r == flash
  {
    var b := BackupAt(flash, offset, imageLength, discard);
    RestoreAt(flash, g, offset, Span(NEW_APP1, SectorSize(imageLength)), b, discard);
  }

  /** Whatever is in the planned ranges, the backups bring back the flash, except what was given up. */
  lemma RestoreUndoes(flash: seq<byte>, g: seq<byte>, imageLength: nat, discard: bool)
    requires |flash| == |g| == NOR && 288 <= imageLength <= CAP
    requires Selection(Selector(flash, 0), Selector(flash, 1)).Ok?
    requires var ss := RangePlan(imageLength, PlanFor(flash).offset).value;
      forall x :: 0 <= x < NOR && Hits(ss, x) == 0 ==> g[x] == flash[x]
    ensures var r := Restored(g, BackupOf(flash, imageLength, discard), PlanFor(flash).offset, 3);
      if discard then SameOutside(flash, r, NEW.app1) else r == flash
  {
    RestorePlanned(flash, g, PlanFor(flash).offset, imageLength, discard);
  }

  /** No stage touches the preserved selector or the first application, and its table is one of the two. */
  lemma StageKeeps(flash: seq<byte>, p: Plan, image: seq<byte>, table: seq<byte>, j: nat)
    requires |flash| == NOR && 288 <= |image| <= CAP && |table| == TABLE_BYTES && Planned(p)
    ensures var g := StageOf(flash, p, image, table, j);
      && g[TABLE..TABLE + TABLE_BYTES] == (if j < 2 then flash[TABLE..TABLE + TABLE_BYTES] else table)
      && Selector(g, p.keepIndex) == Selector(flash, p.keepIndex)
      && Contents(g, NEW.app0) == Contents(flash, NEW.app0)
  {
    var first := WithImage(flash, image);
    ImageIsHarmless(_ => None, flash, first);
    if j >= 2 {
      TableKeeps(first, table);
      if j >= 3 { LastKeeps(WithTable(first, table), p, j == 3); }
    }
  }

  lemma LastKeeps(g: seq<byte>, p: Plan, erased: bool)
    requires |g| == NOR && Planned(p)
    ensures var r := WithSelector(g, p, if erased then Fill(SECTOR) else p.data);
      && r[TABLE..TABLE + TABLE_BYTES] == g[TABLE..TABLE + TABLE_BYTES]
      && Selector(r, p.keepIndex) == Selector(g, p.keepIndex) && Contents(r, NEW.app0) == Contents(g, NEW.app0)
  {
    SelectorKeeps(g, p, if erased then Fill(SECTOR) else p.data);
  }

  /** With the other selector back, the first application boots under either table. */
  lemma SelectorBack(parse: seq<byte> -> Option<Table>, flash: seq<byte>, g: seq<byte>, t: Table)
    requires |flash| == |g| == NOR && Selection(Selector(flash, 0), Selector(flash, 1)).Ok?
    requires parse(g[TABLE..TABLE + TABLE_BYTES]) == Some(t)
    requires Selector(g, PlanFor(flash).keepIndex) == Selector(flash, PlanFor(flash).keepIndex)
    ensures var offset := PlanFor(flash).offset; var r := Apply(g, offset, flash[offset..offset + SECTOR]);
      && Selector(r, 0) == Selector(flash, 0) && Selector(r, 1) == Selector(flash, 1)
      && BootedSpan(parse, r) == Some(t.app0) && Contents(r, NEW.app0) == Contents(g, NEW.app0)
  {
    var p := PlanFor(flash);
    var sector := flash[p.offset..p.offset + SECTOR];
    SelectionIsSafe(Selector(flash, 0), Selector(flash, 1));
    SelectorKeeps(g, p, sector);
    assert sector == Selector(flash, 1 - p.keepIndex);
    BootedIs(parse, WithSelector(g, p, sector), t, 0);
  }

  lemma TableBytesBack(flash: seq<byte>, g: seq<byte>)
    requires |flash| == |g| == NOR
    ensures Apply(g, TABLE, flash[TABLE..TABLE + SECTOR])[TABLE..TABLE + TABLE_BYTES]
      == flash[TABLE..TABLE + TABLE_BYTES]
  {
    var data := flash[TABLE..TABLE + SECTOR];
    var r := Apply(g, TABLE, data);
    Here(g, TABLE, data);
    assert r[TABLE..TABLE + TABLE_BYTES] == r[TABLE..TABLE + SECTOR][..TABLE_BYTES];
    assert data[..TABLE_BYTES] == flash[TABLE..TABLE + TABLE_BYTES];
  }

  lemma OldTableBack(parse: seq<byte> -> Option<Table>, flash: seq<byte>, g: seq<byte>)
    requires |flash| == |g| == NOR && parse(flash[TABLE..TABLE + TABLE_BYTES]) == Some(OLD)
    requires Boots(Selector(g, 0), Selector(g, 1)) == Some(0)
    ensures var r := Apply(g, TABLE, flash[TABLE..TABLE + SECTOR]);
      BootedSpan(parse, r) == Some(OLD.app0) && Contents(r, NEW.app0) == Contents(g, NEW.app0)
  {
    var data := flash[TABLE..TABLE + SECTOR];
    TableBytesBack(flash, g);
    Elsewhere(g, TABLE, data, SELECTORS, SELECTORS + SECTOR);
    Elsewhere(g, TABLE, data, SELECTORS + SECTOR, SELECTORS + 2 * SECTOR);
    Elsewhere(g, TABLE, data, APP0, APP0 + 0x60_0000);
    BootedIs(parse, Apply(g, TABLE, data), OLD, 0);
  }

  lemma FactoryBack(parse: seq<byte> -> Option<Table>, g: seq<byte>, data: seq<byte>)
    requires |g| == NOR && |data| <= NEW.app1.length
    ensures var r := Apply(g, NEW_APP1, data);
      BootedSpan(parse, r) == BootedSpan(parse, g) && Contents(r, NEW.app0) == Contents(g, NEW.app0)
  {
    ImageIsHarmless(parse, g, Apply(g, NEW_APP1, data));
  }

  lemma RestBoots(parse: seq<byte> -> Option<Table>, flash: seq<byte>, g: seq<byte>, b: Backup, k: nat)
    requires |flash| == |g| == NOR && parse(flash[TABLE..TABLE + TABLE_BYTES]) == Some(OLD)
    requires Boots(Selector(g, 0), Selector(g, 1)) == Some(0)
    requires b.table == flash[TABLE..TABLE + SECTOR] && (b.factory.Some? ==> |b.factory.value| <= NEW.app1.length)
    requires k > 0
    ensures var r := RestoredRest(g, b, k);
      BootedSpan(parse, r) == Some(OLD.app0) && Contents(r, NEW.app0) == Contents(g, NEW.app0)
  {
    OldTableBack(parse, flash, g);
    if k > 1 && b.factory.Some? {
      FactoryBack(parse, Apply(g, TABLE, b.table), b.factory.value);
    }
  }

  lemma RestoreFrom(parse: seq<byte> -> Option<Table>, flash: seq<byte>, g: seq<byte>, t: Table, b: Backup, k: nat)
    requires |flash| == |g| == NOR && Selection(Selector(flash, 0), Selector(flash, 1)).Ok?
    requires parse(flash[TABLE..TABLE + TABLE_BYTES]) == Some(OLD) && parse(g[TABLE..TABLE + TABLE_BYTES]) == Some(t)
    requires Selector(g, PlanFor(flash).keepIndex) == Selector(flash, PlanFor(flash).keepIndex)
    requires b.selector == flash[PlanFor(flash).offset..PlanFor(flash).offset + SECTOR]
    requires b.table == flash[TABLE..TABLE + SECTOR] && (b.factory.Some? ==> |b.factory.value| <= NEW.app1.length)
    requires k > 0
    ensures var r := Restored(g, b, PlanFor(flash).offset, k);
      BootedSpan(parse, r) == Some(if k > 1 then OLD.app0 else t.app0) && Contents(r, NEW.app0) == Contents(g, NEW.app0)
  {
    SelectorBack(parse, flash, g, t);
    SelectionIsSafe(Selector(flash, 0), Selector(flash, 1));
    if k > 1 {
      RestBoots(parse, flash, Apply(g, PlanFor(flash).offset, b.selector), b, k - 1);
    }
  }

  /**
   The recovery, from any stage of the migration: after each of its writes the unit boots the untouched first
   application, and from the second on as it did before the migration.
   */
  lemma RestoreBoots(parse: seq<byte> -> Option<Table>, flash: seq<byte>, image: seq<byte>, table: seq<byte>,
      j: nat, discard: bool, k: nat)
    requires Ready(parse, flash, image, table) && k > 0
    ensures var b := BackupOf(flash, |image|, discard);
      var r := Restored(Stage(flash, image, table, j), b, PlanFor(flash).offset, k);
      && BootedSpan(parse, r) == Some(if j < 2 || k > 1 then OLD.app0 else NEW.app0)
      && Contents(r, NEW.app0) == Contents(flash, NEW.app0)
  {
    StageKeeps(flash, PlanFor(flash), image, table, j);
    var t := if j < 2 then OLD else NEW;
    RestoreFrom(parse, flash, Stage(flash, image, table, j), t, BackupOf(flash, |image|, discard), k);
  }

  lemma GapIsFree(ss: seq<Span>, i: nat, x: nat)
    requires Complement(ss).Ok? && i < |Complement(ss).value| && In(Complement(ss).value[i], x)
    ensures x < NOR && Hits(ss, x) == 0
  {
    ComplementTiles(ss);
    ComplementFits(ss);
    assert Fits(Complement(ss).value[i]);
    HitAt(Complement(ss).value, i, x);
  }

  lemma GapByte(flash: seq<byte>, image: seq<byte>, table: seq<byte>, gaps: seq<Span>, i: nat, x: nat)
    requires |flash| == NOR && 288 <= |image| <= CAP && |table| == TABLE_BYTES
    requires Selection(Selector(flash, 0), Selector(flash, 1)).Ok?
    requires Complement(RangePlan(|image|, PlanFor(flash).offset).value) == Ok(gaps) && i < |gaps| && In(gaps[i], x)
    ensures x < NOR && Stage(flash, image, table, 4)[x] == flash[x]
  {
    GapIsFree(RangePlan(|image|, PlanFor(flash).offset).value, i, x);
    OthersUntouched(flash, image, table, 4, x);
  }

  lemma SameContents(f: seq<byte>, g: seq<byte>, s: Span)
    requires |f| == |g| == NOR && Fits(s) && forall x :: In(s, x) ==> f[x] == g[x]
    ensures Contents(f, s) == Contents(g, s)
  {
    var a, b := Contents(f, s), Contents(g, s);
    forall i | 0 <= i < |a|
      ensures a[i] == b[i]
    {
      assert In(s, s.start + i);
    }
  }

  /** The protected gaps between the planned ranges read the same once everything was written. */
  lemma GapsUntouched(flash: seq<byte>, image: seq<byte>, table: seq<byte>, gaps: seq<Span>, i: nat)
    requires |flash| == NOR && 288 <= |image| <= CAP && |table| == TABLE_BYTES
    requires Selection(Selector(flash, 0), Selector(flash, 1)).Ok?
    requires Complement(RangePlan(|image|, PlanFor(flash).offset).value) == Ok(gaps) && i < |gaps|
    ensures Fits(gaps[i]) && Contents(Stage(flash, image, table, 4), gaps[i]) == Contents(flash, gaps[i])
  {
    ComplementFits(RangePlan(|image|, PlanFor(flash).offset).value);
    assert Fits(gaps[i]);
    var g := Stage(flash, image, table, 4);
    forall x | In(gaps[i], x)
      ensures g[x] == flash[x]
    {
      GapByte(flash, image, table, gaps, i, x);
    }
    SameContents(g, flash, gaps[i]);
  }

  /** How one write ends: done and verified, or stopped with nothing, only the erase, or all of it in flash. */
  datatype Ending = Verified | Untouched | ErasedOnly | LandedUnverified

  predicate AllVerified(endings: seq<Ending>)
    requires |endings| == 3
  {
    endings[0] == Verified && endings[1] == Verified && endings[2] == Verified
  }

  /** The unit in its ROM loader. */
  class Rom {
    var flash: seq<byte>

    constructor (flash: seq<byte>)
      ensures this.flash == flash
    {
      this.flash := flash;
    }

    method Write(offset: nat, data: seq<byte>, ending: Ending) returns (ok: bool)
      requires offset + |data| <= |flash|
      modifies this
      ensures ok == (ending == Verified)
      ensures flash == match ending
        case Untouched => old(flash)
        case ErasedOnly => Apply(old(flash), offset, Fill(|data|))
        case _ => Apply(old(flash), offset, data)
    {
      ok := ending == Verified;
      if ending != Untouched {
        flash := flash[..offset] + (if ending == ErasedOnly then Fill(|data|) else data) + flash[offset + |data|..];
      }
    }

    /** The writes in order, each verified before the next; k tells after which the run stopped. */
    method WriteAll(image: seq<byte>, table: seq<byte>, p: Plan, endings: seq<Ending>)
      returns (done: bool, ghost k: nat)
      requires |flash| == NOR && 288 <= |image| <= CAP && |table| == TABLE_BYTES
      requires Selection(Selector(flash, 0), Selector(flash, 1)).Ok? && p == PlanFor(flash)
      requires |endings| == 3 && endings[1] != ErasedOnly
      modifies this
      ensures |flash| == NOR && (done ==> k == 4)
      ensures done == AllVerified(endings)
      ensures if endings[0] == ErasedOnly then !done && SameOutside(old(flash), flash, NEW.app1)
        else flash == Stage(old(flash), image, table, k)
    {
      ghost var before := flash;
      done, k := false, 0;
      var ok := Write(NEW_APP1, Padded(image), endings[0]);
      k := if endings[0] == Untouched then 0 else 1;
      if !ok { return; }
      ok := Write(TABLE, table + flash[TABLE + TABLE_BYTES..TABLE + SECTOR], endings[1]);
      k := if endings[1] == Untouched then 1 else 2;
      if !ok { return; }
      done := Write(p.offset, p.data, endings[2]);
      k := if endings[2] == Untouched then 2 else if endings[2] == ErasedOnly then 3 else 4;
    }

    /** Reads a digest of each span. */
    method Digests(md5: seq<byte> -> seq<byte>, spans: seq<Span>) returns (ds: seq<seq<byte>>)
      requires |flash| == NOR && forall s :: s in spans ==> Fits(s)
      ensures |ds| == |spans| && forall i :: 0 <= i < |ds| ==> ds[i] == md5(Contents(flash, spans[i]))
    {
      ds := [];
      for i := 0 to |spans|
        invariant |ds| == i && forall j :: 0 <= j < i ==> ds[j] == md5(Contents(flash, spans[j]))
      {
        ds := ds + [md5(Contents(flash, spans[i]))];
      }
    }

    method Unchanged(md5: seq<byte> -> seq<byte>, spans: seq<Span>, ds: seq<seq<byte>>) returns (same: bool)
      requires |flash| == NOR && |ds| == |spans| && forall s :: s in spans ==> Fits(s)
      ensures same == forall i :: 0 <= i < |ds| ==> ds[i] == md5(Contents(flash, spans[i]))
    {
      for i := 0 to |spans|
        invariant forall j :: 0 <= j < i ==> ds[j] == md5(Contents(flash, spans[j]))
      {
        if md5(Contents(flash, spans[i])) != ds[i] { return false; }
      }
      same := true;
    }

    /** Everything before the backups: the table, the selectors, the two applications, the gaps' digests. */
    method Prepare(parse: seq<byte> -> Option<Table>, md5: Digest, read: Reader, frozen: Frozen, image: seq<byte>)
      returns (plan: Option<Plan>, oldTable: seq<byte>, selectors: seq<byte>, gaps: seq<Span>,
        digests: seq<seq<byte>>)
      requires |flash| == NOR && 288 <= |image| <= CAP && |frozen.app0| <= CAP && |frozen.app1| <= CAP
      requires Telling(md5, read, flash)
      ensures plan.Some? <==> Understood(parse, md5, read, flash, frozen)
      ensures plan.Some? ==>
        && plan.value == PlanFor(flash)
        && oldTable == flash[TABLE..TABLE + SECTOR] && selectors == flash[SELECTORS..SELECTORS + 2 * SECTOR]
        && Complement(RangePlan(|image|, plan.value.offset).value) == Ok(gaps) && (forall s :: s in gaps ==> Fits(s))
        && |digests| == |gaps| && forall i :: 0 <= i < |gaps| ==> digests[i] == md5(Contents(flash, gaps[i]))
    {
      plan, oldTable, selectors, gaps, digests := None, [], [], [], [];
      var data := CheckedRead(md5, read, flash, TABLE, SECTOR);
      if data.None? { return; }
      oldTable := data.value;
      assert oldTable[..TABLE_BYTES] == flash[TABLE..TABLE + TABLE_BYTES];
      if parse(oldTable[..TABLE_BYTES]) != Some(OLD) { return; }
      data := CheckedRead(md5, read, flash, SELECTORS, 2 * SECTOR);
      if data.None? { return; }
      selectors := data.value;
      var selected := Select(selectors);
      assert selectors[..SECTOR] == Selector(flash, 0) && selectors[SECTOR..] == Selector(flash, 1);
      if selected.Err? || !Recognised(md5, flash, frozen) { return; }
      var p := selected.value;
      assert p == PlanFor(flash);
      gaps, digests := Survey(md5, |image|, p.offset);
      plan := Some(p);
    }

    /** The gaps between the planned ranges and their digests. */
    method Survey(md5: Digest, imageLength: nat, offset: nat) returns (gaps: seq<Span>, digests: seq<seq<byte>>)
      requires |flash| == NOR && RangePlan(imageLength, offset).Ok?
      ensures Complement(RangePlan(imageLength, offset).value) == Ok(gaps) && (forall s :: s in gaps ==> Fits(s))
      ensures |digests| == |gaps| && forall i :: 0 <= i < |gaps| ==> digests[i] == md5(Contents(flash, gaps[i]))
    {
      var ranges := RangePlan(imageLength, offset);
      PlanIsDisjoint(imageLength, offset);
      ComplementFits(ranges.value);
      var complement := FindComplement(ranges.value);
      gaps := complement.value;
      digests := Digests(md5, gaps);
    }

    /** One region, as it stands in flash if it was kept. */
    method Keep(md5: Digest, read: Reader, host: bool, offset: nat, n: nat) returns (r: Option<seq<byte>>)
      requires |flash| == NOR && offset + n <= NOR && Telling(md5, read, flash)
      ensures r == if BackedUp(md5, read, host, flash, offset, n).Some? then Some(flash[offset..offset + n]) else None
    {
      r := BackupRegion(md5, read, host, flash, offset, n);
      if r.Some? { BackupIsExact(md5, read, host, flash, offset, n); }
    }

    /**
     The rollback files: the image's place unless its loss was authorized, the table, and both selectors, of which
     the one to be overwritten is kept by itself. Table and selectors must still be what the plan was made from.
     */
    method BackUp(md5: Digest, read: Reader, host: bool, imageLength: nat, at: nat, discard: bool,
        oldTable: seq<byte>, selectors: seq<byte>)
      returns (backup: Option<Backup>)
      requires |flash| == NOR && 288 <= imageLength <= CAP && Telling(md5, read, flash)
      requires at == SELECTORS || at == SELECTORS + SECTOR
      requires oldTable == flash[TABLE..TABLE + SECTOR] && selectors == flash[SELECTORS..SELECTORS + 2 * SECTOR]
      ensures backup == if Preserved(md5, read, host, flash, imageLength, discard)
        then Some(BackupAt(flash, at, imageLength, discard)) else None
    {
      var factory := None;
      if !discard {
        factory := Keep(md5, read, host, NEW_APP1, SectorSize(imageLength));
        if factory.None? { return None; }
      }
      var kept := Keep(md5, read, host, TABLE, SECTOR);
      if kept.None? { return None; }
      var both := Keep(md5, read, host, SELECTORS, 2 * SECTOR);
      if both.None? { return None; }
      backup := Freeze(md5, at, oldTable, selectors, factory, kept.value, both.value);
    }

    /** The comparisons after the backups, which cannot fail. */
    method Freeze(md5: Digest, at: nat, oldTable: seq<byte>, selectors: seq<byte>, factory: Option<seq<byte>>,
        kept: seq<byte>, both: seq<byte>)
      returns (backup: Option<Backup>)
      requires |flash| == NOR && (at == SELECTORS || at == SELECTORS + SECTOR)
      requires kept == oldTable && both == selectors == flash[SELECTORS..SELECTORS + 2 * SECTOR]
      ensures backup == Some(Backup(flash[at..at + SECTOR], kept, factory))
    {
      if kept != oldTable || both != selectors { return None; }
      var other := selectors[at - SELECTORS..at - SELECTORS + SECTOR];
      assert other == flash[at..at + SECTOR];
      if md5(flash[at..at + SECTOR]) != md5(other) { return None; }
      return Some(Backup(other, kept, factory));
    }

    /** The last look at the protected gaps, which never fails after verified writes. */
    method CheckGaps(md5: seq<byte> -> seq<byte>, gaps: seq<Span>, digests: seq<seq<byte>>, image: seq<byte>,
        table: seq<byte>, ghost before: seq<byte>)
      returns (same: bool)
      requires |before| == NOR && 288 <= |image| <= CAP && |table| == TABLE_BYTES
      requires Selection(Selector(before, 0), Selector(before, 1)).Ok? && flash == Stage(before, image, table, 4)
      requires Complement(RangePlan(|image|, PlanFor(before).offset).value) == Ok(gaps)
      requires (forall s :: s in gaps ==> Fits(s)) && |digests| == |gaps|
      requires forall i :: 0 <= i < |gaps| ==> digests[i] == md5(Contents(before, gaps[i]))
      ensures same
    {
      forall i | 0 <= i < |digests|
        ensures digests[i] == md5(Contents(flash, gaps[i]))
      {
        GapsUntouched(before, image, table, gaps, i);
      }
      same := Unchanged(md5, gaps, digests);
    }

    /**
     Checks and backups first, then the writes: whatever fails, wherever the run stops and even if it stops at an
     erase of the image's place or of the selector, the unit boots the untouched first application, or the new image
     once all is done. read and reread are what the ROM delivers before and during the backups.
     */
    method Perform(parse: seq<byte> -> Option<Table>, md5: Digest, read: Reader, reread: Reader, host: bool,
        frozen: Frozen, image: seq<byte>, table: seq<byte>, discard: bool, endings: seq<Ending>)
      returns (done: bool, backup: Option<Backup>)
      requires |flash| == NOR && 288 <= |image| <= CAP && |table| == TABLE_BYTES && parse(table) == Some(NEW)
      requires |frozen.app0| <= CAP && |frozen.app1| <= CAP
      requires Telling(md5, read, flash) && Telling(md5, reread, flash)
      requires |endings| == 3 && endings[1] != ErasedOnly
      modifies this
      ensures |flash| == NOR
      ensures flash != old(flash) ==>
        && Understood(parse, md5, read, old(flash), frozen)
        && backup == Some(BackupOf(old(flash), |image|, discard))
      ensures done <==>
        && Understood(parse, md5, read, old(flash), frozen)
        && Preserved(md5, reread, host, old(flash), |image|, discard) && AllVerified(endings)
      ensures done ==> flash == Stage(old(flash), image, table, 4)
      ensures Ready(parse, old(flash), image, table) ==> Safe(parse, old(flash), flash, image)
    {
      ghost var before := flash;
      done, backup := false, None;
      if Ready(parse, flash, image, table) { EveryPrefixBoots(parse, flash, image, table, 0); }
      var plan, oldTable, selectors, gaps, digests := Prepare(parse, md5, read, frozen, image);
      if plan.None? { return; }
      backup := BackUp(md5, reread, host, |image|, plan.value.offset, discard, oldTable, selectors);
      if backup.None? { return; }
      ghost var k;
      done, k := WriteAll(image, table, plan.value, endings);
      if endings[0] == ErasedOnly {
        ImageIsHarmless(parse, before, flash);
      } else {
        EveryPrefixBoots(parse, before, image, table, k);
      }
      if done { done := CheckGaps(md5, gaps, digests, image, table, before); }
    }
  }
}
