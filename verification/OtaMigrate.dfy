/**
 Moving a unit from the old partition table to the new one: which boot selector to write, which flash intervals are
 written, and what the unit would boot after every prefix of the writes.
 */
module OtaMigrate {
  import opened Bytes
  import opened Crc32

  const SECTOR := 4096
  const NOR := 0x100_0000
  const CAP := 0x3e_0000
  const BLANK := 0xffff_ffff
  const TABLE := 0x9000
  const TABLE_BYTES := 0xc00
  const SELECTORS := 0x10000
  const APP0 := 0x20000
  const NEW_APP1 := 0x80_0000

  datatype Result<+T> = Ok(value: T) | Err(error: Error)

  datatype Error =
    Malformed | UnknownState | NoEligible | NotValidOta0 | Exhausted | BadIntervals | UnsafeBounds | Mismatch

  // ----- boot selectors

  /** The CRC of a selector covers its sequence number only and starts from a zero register. */
  function EntryCrc(n: u32): (r: u32) {
    Pow2Values();
    FromBits(Not(Fold(Off(32), LE(n, 4))))
  }

  function Fill(n: nat): (r: seq<byte>)
    ensures |r| == n && forall i :: 0 <= i < n ==> r[i] == 0xff
  {
    seq(n, _ => 0xff)
  }

  function EntryBytes(n: u32, state: u32): (r: seq<byte>)
    ensures |r| == 32
  {
    LE(n, 4) + Fill(20) + LE(state, 4) + LE(EntryCrc(n), 4)
  }

  function SectorBytes(n: u32, state: u32): (r: seq<byte>)
    ensures |r| == SECTOR
  {
    EntryBytes(n, state) + Fill(SECTOR - 32)
  }

  datatype Entry = Entry(number: u32, state: u32, index: nat)

  datatype Slot = Empty | Used(entry: Entry) | Bad(error: Error)

  /** How the planner reads the selector in a sector: anything neither erased nor well formed stops it. */
  function Read(sector: seq<byte>, index: nat): (r: Slot)
    requires |sector| == SECTOR
    ensures r.Used? ==> r.entry.index == index
  {
    Pow256Values();
    var n, state, crc := Get(sector, 0, 4), Get(sector, 24, 4), Get(sector, 28, 4);
    if n == BLANK && state == BLANK && crc == BLANK then Empty
    else if n == 0 || n == BLANK || crc != EntryCrc(n) then Bad(Malformed)
    else if state > 4 then Bad(UnknownState)
    else Used(Entry(n, state, index))
  }

  /** Aborted and invalid entries cannot be booted. */
  predicate Bootable(e: Entry) {
    e.state != 3 && e.state != 4
  }

  datatype Plan = Plan(keepIndex: nat, keepNumber: u32, newNumber: u32, offset: nat, data: seq<byte>)

  function Listed(s: Slot): seq<Entry> {
    if s.Used? then [s.entry] else []
  }

  /** The bootable entry with the highest number, if it is the only one. */
  function Highest(es: seq<Entry>): Option<Entry>
    requires |es| <= 2
  {
    if es == [] then None
    else if |es| == 1 then Some(es[0])
    else if es[0].number > es[1].number then Some(es[0])
    else if es[0].number < es[1].number then Some(es[1])
    else None
  }

  function BootableOf(es: seq<Entry>): (r: seq<Entry>)
    ensures |r| <= |es|
  {
    if es == [] then [] else (if Bootable(es[0]) then [es[0]] else []) + BootableOf(es[1..])
  }

  /** One above every number in use, made even. */
  function NextEven(es: seq<Entry>): nat {
    var top := if es == [] then 0 else if |es| == 1 || es[0].number > es[1].number then es[0].number else es[1].number;
    if top % 2 == 1 then top + 1 else top + 2
  }

  /** The entries read, or the first sector that cannot be. */
  function Decoded(a: Slot, b: Slot): (r: Result<seq<Entry>>)
    ensures r.Ok? ==> |r.value| <= 2
  {
    if a.Bad? then Err(a.error) else if b.Bad? then Err(b.error) else Ok(Listed(a) + Listed(b))
  }

  datatype Choice = Choice(keep: Entry, next: u32)

  /** Keep the unique highest bootable entry, which must be a valid one for ota_0, and pick the next number. */
  function Choose(es: seq<Entry>): Result<Choice>
    requires |es| <= 2
  {
    var boots := BootableOf(es);
    if boots == [] then Err(NoEligible)
    else
      var top := Highest(boots);
      if top.None? || top.value.state != 2 || top.value.number % 2 != 1 then Err(NotValidOta0)
      else if NextEven(es) >= BLANK then Err(Exhausted)
      else Ok(Choice(top.value, NextEven(es)))
  }

  /** The plan's sector goes where the kept one is not. */
  function Selection(first: seq<byte>, second: seq<byte>): (r: Result<Plan>)
    requires |first| == |second| == SECTOR
  {
    var es := Decoded(Read(first, 0), Read(second, 1));
    if es.Err? then Err(es.error)
    else
      var c := Choose(es.value);
      if c.Err? then Err(c.error)
      else
        var offset := if c.value.keep.index == 0 then SELECTORS + SECTOR else SELECTORS;
        Ok(Plan(c.value.keep.index, c.value.keep.number, c.value.next, offset, SectorBytes(c.value.next, 0)))
  }

  /** What the loader sees in a sector: an intact entry that is not ruled out. */
  function Candidate(sector: seq<byte>): Option<u32>
    requires |sector| == SECTOR
  {
    Pow256Values();
    var n, state := Get(sector, 0, 4), Get(sector, 24, 4);
    if n == 0 || n == BLANK || Get(sector, 28, 4) != EntryCrc(n) || state == 3 || state == 4 then None else Some(n)
  }

  /** The application selected from two candidates: odd numbers stand for ota_0, even ones for ota_1. */
  function Winner(a: Option<u32>, b: Option<u32>): Option<nat> {
    if a.None? && b.None? then None
    else
      var n := if b.None? || (a.Some? && a.value >= b.value) then a.value else b.value;
      if n == 0 then None else Some((n - 1) % 2)
  }

  function Boots(first: seq<byte>, second: seq<byte>): Option<nat>
    requires |first| == |second| == SECTOR
  {
    Winner(Candidate(first), Candidate(second))
  }

  lemma SectorReads(n: u32, state: u32, index: nat)
    requires 0 < n < BLANK
    ensures var s := SectorBytes(n, state);
      && Get(s, 0, 4) == n && Get(s, 24, 4) == state && Get(s, 28, 4) == EntryCrc(n)
  {
    var s := SectorBytes(n, state);
    assert s[0..4] == LE(n, 4) && s[24..28] == LE(state, 4) && s[28..32] == LE(EntryCrc(n), 4);
    Pow256Values();
    LERoundTrip(n, 4);
    LERoundTrip(state, 4);
    LERoundTrip(EntryCrc(n), 4);
  }

  lemma ErasedIsNoCandidate()
    ensures Candidate(Fill(SECTOR)) == None
  {
    var s := Fill(SECTOR);
    assert s[0..4] == Fill(4);
    assert LE(BLANK, 4) == Fill(4);
    Pow256Values();
    LERoundTrip(BLANK, 4);
  }

  /** What an entry read by the planner is to the loader. */
  function Seen(s: Slot): Option<u32> {
    if s.Used? && Bootable(s.entry) then Some(s.entry.number) else None
  }

  lemma ReadIsCandidate(sector: seq<byte>, index: nat)
    requires |sector| == SECTOR && !Read(sector, index).Bad?
    ensures Candidate(sector) == Seen(Read(sector, index))
    ensures Read(sector, index).Used? ==> 0 < Read(sector, index).entry.number < BLANK
  {
  }

  predicate Numbered(s: Slot, index: nat) {
    !s.Bad? && (s.Used? ==> 0 < s.entry.number < BLANK && s.entry.index == index)
  }

  /** The choice in the loader's terms: the kept entry wins now, wins alone, and loses to the new number. */
  predicate Wins(a: Slot, b: Slot, c: Choice) {
    var keep, next := Some(c.keep.number), Some(c.next);
    && c.keep.number < c.next < BLANK && c.next % 2 == 0 && Winner(Seen(a), Seen(b)) == Some(0)
    && (c.keep.index == 0 ==> Seen(a) == keep && Winner(keep, None) == Some(0) && Winner(keep, next) == Some(1))
    && (c.keep.index != 0 ==>
        c.keep.index == 1 && Seen(b) == keep && Winner(None, keep) == Some(0) && Winner(next, keep) == Some(1))
  }

  lemma ChoiceOfTwo(a: Slot, b: Slot)
    requires Numbered(a, 0) && Numbered(b, 1) && Choose(Listed(a) + Listed(b)).Ok? && a.Used? && b.Used?
    ensures Wins(a, b, Choose(Listed(a) + Listed(b)).value)
  {
    var es := Listed(a) + Listed(b);
    assert es == [a.entry, b.entry] && es[1..] == [b.entry];
    assert BootableOf([b.entry]) == if Bootable(b.entry) then [b.entry] else [];
  }

  lemma ChoiceWins(a: Slot, b: Slot)
    requires Numbered(a, 0) && Numbered(b, 1) && Choose(Listed(a) + Listed(b)).Ok?
    ensures Wins(a, b, Choose(Listed(a) + Listed(b)).value)
  {
    var es := Listed(a) + Listed(b);
    if a.Used? && b.Used? {
      ChoiceOfTwo(a, b);
    } else {
      assert es == (if a.Used? then [a.entry] else if b.Used? then [b.entry] else []);
    }
  }

  /**
   Exactly when there is a choice: the loader would boot ota_0 from an entry that no other bootable one ties with,
   that entry is marked valid, and no number is so high that none is left.
   */
  lemma ChooseExactly(a: Slot, b: Slot)
    requires Numbered(a, 0) && Numbered(b, 1)
    ensures Choose(Listed(a) + Listed(b)).Ok? <==>
      && Winner(Seen(a), Seen(b)) == Some(0) && Seen(a) != Seen(b)
      && (if Seen(b).None? || (Seen(a).Some? && Seen(a).value > Seen(b).value) then a else b).entry.state == 2
      && (a.Used? ==> a.entry.number < BLANK - 1) && (b.Used? ==> b.entry.number < BLANK - 1)
  {
    var es := Listed(a) + Listed(b);
    if a.Used? && b.Used? {
      assert es == [a.entry, b.entry] && es[1..] == [b.entry];
      assert BootableOf([b.entry]) == if Bootable(b.entry) then [b.entry] else [];
    } else {
      assert es == (if a.Used? then [a.entry] else if b.Used? then [b.entry] else []);
    }
  }

  /** The planner's loop over the two sectors. */
  method Select(raw: seq<byte>) returns (r: Result<Plan>)
    ensures r == if |raw| == 2 * SECTOR then Selection(raw[..SECTOR], raw[SECTOR..]) else Err(Malformed)
  {
    if |raw| != 2 * SECTOR { return Err(Malformed); }
    ghost var slots := [Read(raw[..SECTOR], 0), Read(raw[SECTOR..], 1)];
    var decoded: seq<Entry> := [];
    for index := 0 to 2
      invariant |decoded| <= index
      invariant index >= 1 ==> !slots[0].Bad?
      invariant index == 2 ==> !slots[1].Bad?
      invariant decoded == (if index >= 1 then Listed(slots[0]) else []) + (if index == 2 then Listed(slots[1]) else [])
    {
      var slot := Read(if index == 0 then raw[..SECTOR] else raw[SECTOR..], index);
      assert slot == slots[index];
      if slot.Bad? { return Err(slot.error); }
      if slot.Used? { decoded := decoded + [slot.entry]; }
    }
    var c := Choose(decoded);
    if c.Err? { return Err(c.error); }
    var keep, next := c.value.keep, c.value.next;
    return Ok(Plan(keep.index, keep.number, next, if keep.index == 0 then SELECTORS + SECTOR else SELECTORS,
      SectorBytes(next, 0)));
  }

  /** The two selector sectors with the one the plan does not keep replaced. */
  function First(p: Plan, first: seq<byte>, other: seq<byte>): seq<byte> {
    if p.keepIndex == 0 then first else other
  }

  function Second(p: Plan, second: seq<byte>, other: seq<byte>): seq<byte> {
    if p.keepIndex == 0 then other else second
  }

  lemma NewIsCandidate(n: u32)
    requires 0 < n < BLANK
    ensures Candidate(SectorBytes(n, 0)) == Some(n)
  {
    SectorReads(n, 0, 0);
  }

  lemma SelectionIs(first: seq<byte>, second: seq<byte>) returns (c: Choice)
    requires |first| == |second| == SECTOR && Selection(first, second).Ok?
    ensures var a, b := Read(first, 0), Read(second, 1); var p := Selection(first, second).value;
      && Numbered(a, 0) && Numbered(b, 1) && Choose(Listed(a) + Listed(b)) == Ok(c)
      && p.keepIndex == c.keep.index && p.keepNumber == c.keep.number && p.newNumber == c.next
      && p.offset == (if c.keep.index == 0 then SELECTORS + SECTOR else SELECTORS) && p.data == SectorBytes(c.next, 0)
  {
    var a, b := Read(first, 0), Read(second, 1);
    if !a.Bad? { ReadIsCandidate(first, 0); }
    if !b.Bad? { ReadIsCandidate(second, 1); }
    c := Choose(Listed(a) + Listed(b)).value;
  }

  /**
   For every accepted pair of selectors: the unit boots ota_0 from the kept sector, still does once the other sector
   is erased, and boots ota_1 once the plan's sector is in place, whose number is above the kept one.
   */
  lemma SelectionIsSafe(first: seq<byte>, second: seq<byte>)
    requires |first| == |second| == SECTOR && Selection(first, second).Ok?
    ensures var p := Selection(first, second).value; var erased := Fill(SECTOR);
      && p.keepIndex <= 1 && p.offset == SELECTORS + (1 - p.keepIndex) * SECTOR && |p.data| == SECTOR
      && Candidate(if p.keepIndex == 0 then first else second) == Some(p.keepNumber)
      && Candidate(p.data) == Some(p.newNumber) && p.keepNumber < p.newNumber
      && Boots(first, second) == Some(0)
      && Boots(First(p, first, erased), Second(p, second, erased)) == Some(0)
      && Boots(First(p, first, p.data), Second(p, second, p.data)) == Some(1)
  {
    var c := SelectionIs(first, second);
    ReadIsCandidate(first, 0);
    ReadIsCandidate(second, 1);
    ChoiceWins(Read(first, 0), Read(second, 1));
    NewIsCandidate(c.next);
    ErasedIsNoCandidate();
  }

  // ----- the intervals written and the rest

  datatype Span = Span(start: int, length: int)

  predicate In(s: Span, x: int) {
    s.start <= x < s.start + s.length
  }

  /** How many of the intervals hold x. */
  function Hits(ss: seq<Span>, x: int): nat {
    if ss == [] then 0 else (if In(ss[0], x) then 1 else 0) + Hits(ss[1..], x)
  }

  predicate Fits(s: Span) {
    0 <= s.start && s.length > 0 && s.start + s.length <= NOR
  }

  /** Intervals inside the flash, none empty and no two overlapping. */
  ghost predicate Disjoint(ss: seq<Span>) {
    (forall s :: s in ss ==> Fits(s)) && forall x :: Hits(ss, x) <= 1
  }

  predicate NotAfter(a: Span, b: Span) {
    a.start < b.start || (a.start == b.start && a.length <= b.length)
  }

  function Insert(s: Span, ss: seq<Span>): seq<Span> {
    if ss == [] then [s] else if NotAfter(s, ss[0]) then [s] + ss else [ss[0]] + Insert(s, ss[1..])
  }

  function Sort(ss: seq<Span>): seq<Span> {
    if ss == [] then [] else Insert(ss[0], Sort(ss[1..]))
  }

  predicate Sorted(ss: seq<Span>) {
    forall i :: 0 < i < |ss| ==> NotAfter(ss[i - 1], ss[i])
  }

  lemma {:induction false} HitsAppend(a: seq<Span>, b: seq<Span>, x: int)
    ensures Hits(a + b, x) == Hits(a, x) + Hits(b, x)
  {
    if a == [] {
      assert a + b == b;
    } else {
      assert (a + b)[1..] == a[1..] + b;
      HitsAppend(a[1..], b, x);
    }
  }

  lemma {:induction false} InsertKeeps(s: Span, ss: seq<Span>, x: int)
    requires Sorted(ss)
    ensures Sorted(Insert(s, ss)) && multiset(Insert(s, ss)) == multiset{s} + multiset(ss)
    ensures Hits(Insert(s, ss), x) == Hits([s], x) + Hits(ss, x)
  {
    if ss == [] {
    } else if NotAfter(s, ss[0]) {
      HitsAppend([s], ss, x);
    } else {
      InsertKeeps(s, ss[1..], x);
      HitsAppend([ss[0]], Insert(s, ss[1..]), x);
      HitsAppend([ss[0]], ss[1..], x);
      assert ss == [ss[0]] + ss[1..];
    }
  }

  lemma {:induction false} SortKeeps(ss: seq<Span>, x: int)
    ensures Sorted(Sort(ss)) && multiset(Sort(ss)) == multiset(ss) && Hits(Sort(ss), x) == Hits(ss, x)
  {
    if ss != [] {
      SortKeeps(ss[1..], x);
      InsertKeeps(ss[0], Sort(ss[1..]), x);
      HitsAppend([ss[0]], ss[1..], x);
      assert ss == [ss[0]] + ss[1..];
    }
  }

  /** Sweep over sorted intervals from a cursor: the gaps between them, or nothing if they overlap or stick out. */
  function Gaps(ss: seq<Span>, cursor: nat): Option<seq<Span>>
    requires cursor <= NOR
  {
    if ss == [] then Some(if cursor < NOR then [Span(cursor, NOR - cursor)] else [])
    else
      var s := ss[0];
      if s.start < cursor || s.length <= 0 || s.start + s.length > NOR then None
      else
        var rest := Gaps(ss[1..], s.start + s.length);
        if rest.None? then None
        else Some((if s.start > cursor then [Span(cursor, s.start - cursor)] else []) + rest.value)
  }

  /** Above the cursor every byte is in exactly one interval or gap, below it in none. */
  lemma {:induction false} GapsTile(ss: seq<Span>, cursor: nat, x: int)
    requires cursor <= NOR && Gaps(ss, cursor).Some?
    ensures Hits(ss, x) + Hits(Gaps(ss, cursor).value, x) == if cursor <= x < NOR then 1 else 0
    ensures forall g :: g in Gaps(ss, cursor).value ==> Fits(g) && g.start >= cursor
    ensures forall s :: s in ss ==> Fits(s)
  {
    if ss != [] {
      var s := ss[0];
      var rest := Gaps(ss[1..], s.start + s.length).value;
      GapsTile(ss[1..], s.start + s.length, x);
      var gap := if s.start > cursor then [Span(cursor, s.start - cursor)] else [];
      HitsAppend(gap, rest, x);
    }
  }

  lemma {:induction false} SortedStarts(ss: seq<Span>, i: nat)
    requires Sorted(ss) && i < |ss|
    ensures ss[0].start <= ss[i].start
  {
    if i > 0 {
      SortedStarts(ss, i - 1);
      assert NotAfter(ss[i - 1], ss[i]);
    }
  }

  lemma {:induction false} HitAt(ss: seq<Span>, i: nat, x: int)
    requires i < |ss| && In(ss[i], x)
    ensures Hits(ss, x) >= 1
    ensures forall j :: 0 <= j < i && In(ss[j], x) ==> Hits(ss, x) >= 2
  {
    if i > 0 {
      HitAt(ss[1..], i - 1, x);
      assert forall j :: 0 < j < i ==> ss[j] == ss[1..][j - 1];
    }
  }

  /** If sorted intervals have no gaps to give, one of them does not fit, lies below the cursor, or two share a byte. */
  lemma {:induction false} NoGaps(ss: seq<Span>, cursor: nat) returns (x: int)
    requires cursor <= NOR && Sorted(ss) && Gaps(ss, cursor).None?
    ensures (exists s :: s in ss && !Fits(s)) || (exists s :: s in ss && s.start < cursor) || Hits(ss, x) >= 2
  {
    x := 0;
    var s := ss[0];
    if Fits(s) && s.start >= cursor {
      var end := s.start + s.length;
      assert Sorted(ss[1..]) by {
        forall i | 0 < i < |ss[1..]| ensures NotAfter(ss[1..][i - 1], ss[1..][i]) {
          assert NotAfter(ss[i], ss[i + 1]);
        }
      }
      x := NoGaps(ss[1..], end);
      if r :| r in ss[1..] && !Fits(r) {
        assert r in ss;
      } else if r :| r in ss[1..] && r.start < end {
        var i :| 0 <= i < |ss[1..]| && ss[1..][i] == r;
        SortedStarts(ss, i + 1);
        x := r.start;
        HitAt(ss, i + 1, x);
      }
    }
  }

  function Complement(ss: seq<Span>): Result<seq<Span>> {
    var gaps := Gaps(Sort(ss), 0);
    if gaps.None? then Err(BadIntervals) else Ok(gaps.value)
  }

  /**
   The complement exists exactly for nonempty intervals inside the flash that do not overlap, and then together
   they tile it: every byte of the flash is in exactly one interval or gap.
   */
  lemma ComplementTiles(ss: seq<Span>)
    ensures Complement(ss).Ok? <==> Disjoint(ss)
    ensures Complement(ss).Ok? ==> forall x :: 0 <= x < NOR ==> Hits(ss, x) + Hits(Complement(ss).value, x) == 1
  {
    var sorted := Sort(ss);
    SortKeeps(ss, 0);
    assert forall s :: s in sorted <==> s in multiset(sorted);
    assert forall s :: s in ss <==> s in multiset(ss);
    if Gaps(sorted, 0).Some? {
      forall x
        ensures Hits(ss, x) + Hits(Gaps(sorted, 0).value, x) == if 0 <= x < NOR then 1 else 0
      {
        SortKeeps(ss, x);
        GapsTile(sorted, 0, x);
      }
      GapsTile(sorted, 0, 0);
    } else {
      var x := NoGaps(sorted, 0);
      SortKeeps(ss, x);
    }
  }

  lemma ComplementFits(ss: seq<Span>)
    requires Complement(ss).Ok?
    ensures forall g :: g in Complement(ss).value ==> Fits(g)
  {
    GapsTile(Sort(ss), 0, 0);
  }

  function Joined(out: seq<Span>, rest: Option<seq<Span>>): Option<seq<Span>> {
    if rest.None? then None else Some(out + rest.value)
  }

  lemma JoinedStep(out: seq<Span>, ss: seq<Span>, cursor: nat)
    requires cursor <= NOR && ss != []
    requires cursor <= ss[0].start && ss[0].length > 0 && ss[0].start + ss[0].length <= NOR
    ensures var s := ss[0]; var gap := if s.start > cursor then [Span(cursor, s.start - cursor)] else [];
      Joined(out, Gaps(ss, cursor)) == Joined(out + gap, Gaps(ss[1..], s.start + s.length))
  {
    var gap := if ss[0].start > cursor then [Span(cursor, ss[0].start - cursor)] else [];
    var rest := Gaps(ss[1..], ss[0].start + ss[0].length);
    if rest.Some? {
      assert out + (gap + rest.value) == out + gap + rest.value;
    }
  }

  /** The planner's sweep. */
  method FindComplement(ss: seq<Span>) returns (r: Result<seq<Span>>)
    ensures r == Complement(ss)
  {
    var sorted, cursor, out, i := Sort(ss), 0, [], 0;
    assert sorted[0..] == sorted && (Gaps(sorted, 0).Some? ==> [] + Gaps(sorted, 0).value == Gaps(sorted, 0).value);
    while i < |sorted|
      invariant 0 <= i <= |sorted| && 0 <= cursor <= NOR
      invariant Gaps(sorted, 0) == Joined(out, Gaps(sorted[i..], cursor))
    {
      var s := sorted[i];
      if s.start < cursor || s.length <= 0 || s.start + s.length > NOR { return Err(BadIntervals); }
      JoinedStep(out, sorted[i..], cursor);
      assert sorted[i..][1..] == sorted[i + 1..];
      out := out + if s.start > cursor then [Span(cursor, s.start - cursor)] else [];
      cursor := s.start + s.length;
      i := i + 1;
    }
    out := out + if cursor < NOR then [Span(cursor, NOR - cursor)] else [];
    r := Ok(out);
  }
}
