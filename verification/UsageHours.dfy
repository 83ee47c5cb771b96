/** Hourly usage from samples of a lifetime counter: what each hour reports, and that the hours add up. */
module UsageHours {
  import opened Bytes

  const HOURS := 24
  const HOUR := 3600
  const MAX_GAP := 180

  datatype Sample = Sample(epoch: int, tokens: int)

  datatype Quality = Missing | Correction | Observed | Partial | Gap

  datatype Row = Row(
    start: int, tokens: Option<int>, quality: Quality, reported: Option<int>, positive: int, correction: int,
    gapDelta: int, gapCount: nat, gapStart: Option<int>, gapEnd: Option<int>, covered: int, observations: nat)
  {
    function End(): int {
      start + HOUR
    }

    function Reported(): int {
      if reported.Some? then reported.value else 0
    }
  }

  /** Start of the local hour; the offset is in minutes. */
  function HourStart(epoch: int, offset: int): int {
    (epoch + 60 * offset) / HOUR * HOUR - 60 * offset
  }

  /** Start of the first of the hours shown. */
  function First(now: int, offset: int): int {
    HourStart(now, offset) - (HOURS - 1) * HOUR
  }

  function Blank(start: int): Row {
    Row(start, None, Missing, None, 0, 0, 0, 0, None, None, 0, 0)
  }

  function Min(a: int, b: int): int {
    if a < b then a else b
  }

  function Max(a: int, b: int): int {
    if a > b then a else b
  }

  /** The part of an interval that falls into an hour. */
  function Overlap(start: int, a: int, b: int): int {
    Max(0, Min(b, start + HOUR) - Max(a, start))
  }

  function Cover(r: Row, p: Sample, c: Sample): Row {
    if c.epoch - p.epoch <= MAX_GAP then r.(covered := r.covered + Overlap(r.start, p.epoch, c.epoch)) else r
  }

  /** The difference is booked in the hour of the later sample; across an outage it is kept apart. */
  function Book(r: Row, p: Sample, c: Sample): Row {
    var delta := c.tokens - p.tokens;
    var b := r.(reported := Some(r.Reported() + delta), correction := r.correction + Min(0, delta));
    if c.epoch - p.epoch > MAX_GAP then
      b.(gapDelta := b.gapDelta + delta, gapCount := b.gapCount + 1,
         gapStart := if b.gapStart.None? then Some(p.epoch) else b.gapStart, gapEnd := Some(c.epoch))
    else b.(observations := b.observations + 1, positive := b.positive + Max(0, delta))
  }

  function Pair(r: Row, p: Sample, c: Sample, now: int, offset: int): Row {
    if c.epoch <= p.epoch || c.epoch > now then r
    else
      var d := Cover(r, p, c);
      if HourStart(c.epoch, offset) == r.start then Book(d, p, c) else d
  }

  /** A row after the first k pairs of neighbouring samples. */
  function Fold(start: int, ss: seq<Sample>, k: nat, now: int, offset: int): (r: Row)
    requires k <= |ss|
    ensures r.start == start
  {
    if k <= 1 then Blank(start) else Pair(Fold(start, ss, k - 1, now, offset), ss[k - 2], ss[k - 1], now, offset)
  }

  function Judge(r: Row, now: int): Row {
    if r.correction < 0 then r.(quality := Correction)
    else if r.observations > 0 then
      var complete := r.covered >= Max(0, Min(now, r.End()) - r.start - MAX_GAP);
      r.(tokens := Some(r.positive), quality := if complete && r.gapCount == 0 then Observed else Partial)
    else if r.gapCount > 0 then r.(quality := Gap)
    else r
  }

  /** The hours shown for a list of samples. */
  function Hours(ss: seq<Sample>, now: int, offset: int): (r: seq<Row>)
    ensures |r| == HOURS
  {
    seq(HOURS, i requires 0 <= i < HOURS => Judge(Fold(First(now, offset) + i * HOUR, ss, |ss|, now, offset), now))
  }

  // ----- the code

  method AddCoverage(rows: array<Row>, p: Sample, c: Sample)
    modifies rows
    ensures forall i :: 0 <= i < rows.Length ==> rows[i] == Cover(old(rows[i]), p, c)
  {
    if c.epoch - p.epoch <= MAX_GAP {
      for j := 0 to rows.Length
        invariant forall i :: 0 <= i < j ==> rows[i] == Cover(old(rows[i]), p, c)
        invariant forall i :: j <= i < rows.Length ==> rows[i] == old(rows[i])
      {
        var r := rows[j];
        rows[j] := r.(covered := r.covered + Max(0, Min(c.epoch, r.End()) - Max(p.epoch, r.start)));
      }
    }
  }

  method AddDelta(rows: array<Row>, index: nat, p: Sample, c: Sample)
    requires index < rows.Length
    modifies rows
    ensures rows[..] == old(rows[..])[index := Book(old(rows[index]), p, c)]
  {
    var r, delta, gap := rows[index], c.tokens - p.tokens, c.epoch - p.epoch;
    r := r.(reported := Some((if r.reported.Some? then r.reported.value else 0) + delta));
    if delta < 0 { r := r.(correction := r.correction + delta); }
    if gap > MAX_GAP {
      r := r.(gapDelta := r.gapDelta + delta, gapCount := r.gapCount + 1);
      if r.gapStart.None? { r := r.(gapStart := Some(p.epoch)); }
      r := r.(gapEnd := Some(c.epoch));
    } else {
      r := r.(observations := r.observations + 1, positive := r.positive + Max(0, delta));
    }
    rows[index] := r;
  }

  /**
   The hour of an epoch is one of the rows exactly if the epoch lies between the first hour and the end of the last.
   */
  lemma HourIndex(epoch: int, now: int, offset: int)
    requires epoch <= now
    ensures var d := HourStart(epoch, offset) - First(now, offset);
      d % HOUR == 0 && d / HOUR < HOURS && (d >= 0 <==> epoch >= First(now, offset))
  {
    var a, b := (epoch + 60 * offset) / HOUR, (now + 60 * offset) / HOUR;
    assert a <= b;
    assert HourStart(epoch, offset) - First(now, offset) == (a - b + HOURS - 1) * HOUR;
  }

  method Aggregate(ss: seq<Sample>, now: int, offset: int) returns (rows: array<Row>)
    ensures fresh(rows) && rows[..] == Hours(ss, now, offset)
  {
    var first := First(now, offset);
    rows := new Row[HOURS](i => Blank(first + i * HOUR));
    var k := 1;
    while k < |ss|
      invariant fresh(rows) && rows.Length == HOURS && k <= Max(1, |ss|)
      invariant forall i :: 0 <= i < HOURS ==> rows[i] == Fold(first + i * HOUR, ss, Min(k, |ss|), now, offset)
    {
      var p, c := ss[k - 1], ss[k];
      if p.epoch < c.epoch <= now {
        AddCoverage(rows, p, c);
        HourIndex(c.epoch, now, offset);
        var d := HourStart(c.epoch, offset) - first;
        if d >= 0 {
          AddDelta(rows, d / HOUR, p, c);
        }
      }
      k := k + 1;
    }
    Finish(rows, now);
  }

  method Finish(rows: array<Row>, now: int)
    modifies rows
    ensures forall i :: 0 <= i < rows.Length ==> rows[i] == Judge(old(rows[i]), now)
  {
    for j := 0 to rows.Length
      invariant forall i :: 0 <= i < j ==> rows[i] == Judge(old(rows[i]), now)
      invariant forall i :: j <= i < rows.Length ==> rows[i] == old(rows[i])
    {
      var r := rows[j];
      if r.correction < 0 {
        r := r.(quality := Correction);
      } else if r.observations > 0 {
        var expected := Min(now, r.End()) - r.start;
        var complete := r.covered >= Max(0, expected - MAX_GAP);
        r := r.(tokens := Some(r.positive), quality := if complete && r.gapCount == 0 then Observed else Partial);
      } else if r.gapCount > 0 {
        r := r.(quality := Gap);
      }
      rows[j] := r;
    }
  }

  // ----- what the hours mean

  predicate Increasing(ss: seq<Sample>) {
    forall i :: 0 < i < |ss| ==> ss[i - 1].epoch < ss[i].epoch
  }

  lemma {:induction false} IncreasingAt(ss: seq<Sample>, i: nat, j: nat)
    requires Increasing(ss) && i < j < |ss|
    ensures ss[i].epoch < ss[j].epoch
    decreases j
  {
    if i < j - 1 {
      IncreasingAt(ss, i, j - 1);
    }
  }

  /** Seconds of an hour that have passed at a time. */
  function Elapsed(start: int, t: int): int {
    Max(0, Min(t, start + HOUR) - start)
  }

  /** In no hour is more time covered than has passed in it up to the last sample, and so up to now. */
  lemma {:induction false} CoverageBounded(start: int, ss: seq<Sample>, k: nat, now: int, offset: int)
    requires Increasing(ss) && 0 < k <= |ss|
    ensures 0 <= Fold(start, ss, k, now, offset).covered <= Elapsed(start, Min(ss[k - 1].epoch, now))
      || Fold(start, ss, k, now, offset).covered == 0
  {
    if k > 1 {
      CoverageBounded(start, ss, k - 1, now, offset);
      assert ss[k - 2].epoch < ss[k - 1].epoch;
    }
  }

  /**
   Each reported difference is a gain, a loss or belongs to an outage; with no loss anywhere it is gains plus outages.
   */
  lemma {:induction false} ReportedParts(start: int, ss: seq<Sample>, k: nat, now: int, offset: int)
    requires k <= |ss|
    ensures var r := Fold(start, ss, k, now, offset);
      && r.tokens == None && r.quality == Missing && r.correction <= 0 <= r.positive
      && (r.correction == 0 ==> r.Reported() == r.positive + r.gapDelta)
      && r.positive + r.gapDelta + r.correction <= r.Reported() <= r.positive + r.gapDelta
      && (r.reported.None? <==> r.observations == 0 && r.gapCount == 0)
      && (r.gapCount > 0 <==> r.gapStart.Some? && r.gapEnd.Some?)
  {
    if k > 1 {
      ReportedParts(start, ss, k - 1, now, offset);
    }
  }

  /**
   What a shown hour claims: a token count is the sum of its gains, given only without corrections; an observed hour
   has no outage and misses at most the sampling gap of the time passed in it; covered time never exceeds that time.
   */
  lemma HourIsHonest(ss: seq<Sample>, now: int, offset: int, i: nat)
    requires Increasing(ss) && i < HOURS
    ensures var r := Hours(ss, now, offset)[i];
      && r.start == First(now, offset) + i * HOUR && r.start <= now
      && 0 <= r.covered <= Elapsed(r.start, now)
      && (r.tokens.Some? <==> r.quality == Observed || r.quality == Partial)
      && (r.tokens.Some? ==> r.correction == 0 && r.tokens.value == r.positive == r.Reported() - r.gapDelta)
      && (r.quality == Observed ==> r.gapCount == 0 && r.covered >= Elapsed(r.start, now) - MAX_GAP)
      && (r.quality == Missing ==> r.Reported() == 0)
  {
    var start := First(now, offset) + i * HOUR;
    ReportedParts(start, ss, |ss|, now, offset);
    if ss != [] {
      CoverageBounded(start, ss, |ss|, now, offset);
    }
    assert HourStart(now, offset) <= now;
  }

  // ----- conservation

  function Sum(vs: seq<int>): int {
    if vs == [] then 0 else vs[0] + Sum(vs[1..])
  }

  lemma {:induction false} SumUpdate(vs: seq<int>, i: nat, v: int)
    requires i < |vs|
    ensures Sum(vs[i := v]) == Sum(vs) - vs[i] + v
  {
    if i == 0 {
      assert vs[i := v][1..] == vs[1..];
    } else {
      assert vs[i := v][1..] == vs[1..][i - 1 := v];
      SumUpdate(vs[1..], i - 1, v);
    }
  }

  lemma {:induction false} SumZero(vs: seq<int>)
    requires forall i :: 0 <= i < |vs| ==> vs[i] == 0
    ensures Sum(vs) == 0
  {
    if vs != [] {
      SumZero(vs[1..]);
    }
  }

  /** The reported differences of the hours after k samples. */
  function Reports(ss: seq<Sample>, k: nat, now: int, offset: int): (r: seq<int>)
    requires k <= |ss|
    ensures |r| == HOURS
  {
    seq(HOURS, i requires 0 <= i < HOURS => Fold(First(now, offset) + i * HOUR, ss, k, now, offset).Reported())
  }

  /** How many of the first k samples are not after t. */
  function UpTo(ss: seq<Sample>, k: nat, t: int): (r: nat)
    requires k <= |ss|
    ensures r <= k
  {
    if k == 0 then 0 else UpTo(ss, k - 1, t) + if ss[k - 1].epoch <= t then 1 else 0
  }

  /** In increasing samples those not after t come first. */
  lemma {:induction false} UpToPrefix(ss: seq<Sample>, k: nat, t: int, j: nat)
    requires Increasing(ss) && j < k <= |ss|
    ensures j < UpTo(ss, k, t) <==> ss[j].epoch <= t
    decreases k
  {
    if j < k - 1 {
      UpToPrefix(ss, k - 1, t, j);
      IncreasingAt(ss, j, k - 1);
      if ss[k - 1].epoch <= t && k > 1 {
        UpToPrefix(ss, k - 1, t, k - 2);
      }
    } else if k > 1 {
      if ss[k - 1].epoch <= t {
        assert ss[k - 2].epoch < ss[k - 1].epoch;
        UpToPrefix(ss, k - 1, t, k - 2);
      }
    }
  }

  /** Tokens at the last of the first k samples not after t, or at the first sample if there is none. */
  function TokensAt(ss: seq<Sample>, k: nat, t: int): int
    requires 0 < k <= |ss|
  {
    ss[Max(UpTo(ss, k, t), 1) - 1].tokens
  }

  lemma PairReport(r: Row, p: Sample, c: Sample, now: int, offset: int)
    requires p.epoch < c.epoch
    ensures Pair(r, p, c, now, offset).Reported() == r.Reported()
      + if c.epoch <= now && HourStart(c.epoch, offset) == r.start then c.tokens - p.tokens else 0
  {
  }

  /** One pair changes one hour's report, if any. */
  lemma ReportStep(ss: seq<Sample>, k: nat, now: int, offset: int)
    requires Increasing(ss) && 2 <= k <= |ss|
    ensures var c, p := ss[k - 1], ss[k - 2];
      Sum(Reports(ss, k, now, offset)) == Sum(Reports(ss, k - 1, now, offset))
        + if First(now, offset) <= c.epoch <= now then c.tokens - p.tokens else 0
  {
    var c, p, first := ss[k - 1], ss[k - 2], First(now, offset);
    var before, after := Reports(ss, k - 1, now, offset), Reports(ss, k, now, offset);
    var d := HourStart(c.epoch, offset) - first;
    assert p.epoch < c.epoch;
    forall j | 0 <= j < HOURS
      ensures after[j] == before[j] + if c.epoch <= now && d == j * HOUR then c.tokens - p.tokens else 0
    {
      PairReport(Fold(first + j * HOUR, ss, k - 1, now, offset), p, c, now, offset);
    }
    if c.epoch <= now {
      HourIndex(c.epoch, now, offset);
    }
    if c.epoch <= now && d >= 0 {
      var i := d / HOUR;
      assert after == before[i := before[i] + c.tokens - p.tokens];
      SumUpdate(before, i, before[i] + c.tokens - p.tokens);
    } else {
      assert after == before;
    }
  }

  lemma TokensAtStep(ss: seq<Sample>, k: nat, t: int)
    requires Increasing(ss) && 2 <= k <= |ss|
    ensures TokensAt(ss, k, t) == if ss[k - 1].epoch <= t then ss[k - 1].tokens else TokensAt(ss, k - 1, t)
    ensures ss[k - 1].epoch <= t ==> TokensAt(ss, k - 1, t) == ss[k - 2].tokens
  {
    assert ss[k - 2].epoch < ss[k - 1].epoch;
    UpToPrefix(ss, k - 1, t, k - 2);
  }

  lemma {:induction false} ReportsSum(ss: seq<Sample>, k: nat, now: int, offset: int)
    requires Increasing(ss) && 0 < k <= |ss|
    ensures Sum(Reports(ss, k, now, offset)) == TokensAt(ss, k, now) - TokensAt(ss, k, First(now, offset) - 1)
  {
    if k == 1 {
      SumZero(Reports(ss, 1, now, offset));
    } else {
      ReportsSum(ss, k - 1, now, offset);
      ReportStep(ss, k, now, offset);
      assert First(now, offset) <= now by { assert HourStart(now, offset) <= now; }
      TokensAtStep(ss, k, now);
      TokensAtStep(ss, k, First(now, offset) - 1);
    }
  }

  /**
   Conservation: the 24 reported differences add up to the counter at the last sample not after now, less the counter
   at the last sample before the first hour, or at the first sample if there is none.
   */
  lemma HoursConserve(ss: seq<Sample>, now: int, offset: int)
    requires Increasing(ss)
    ensures Sum(seq(HOURS, i requires 0 <= i < HOURS => Hours(ss, now, offset)[i].Reported())) ==
      if ss == [] then 0 else TokensAt(ss, |ss|, now) - TokensAt(ss, |ss|, First(now, offset) - 1)
  {
    var shown := seq(HOURS, i requires 0 <= i < HOURS => Hours(ss, now, offset)[i].Reported());
    assert shown == Reports(ss, |ss|, now, offset);
    if ss == [] {
      SumZero(shown);
    } else {
      ReportsSum(ss, |ss|, now, offset);
    }
  }

  // ----- the samples a response reads

  /** Those not before the cutoff, and the one before them. */
  function Selected(ss: seq<Sample>, cutoff: int): seq<Sample> {
    var n := UpTo(ss, |ss|, cutoff - 1);
    if n > 0 then ss[n - 1..] else ss
  }

  lemma {:induction false} DropEarly(start: int, ss: seq<Sample>, d: nat, k: nat, now: int, offset: int)
    requires Increasing(ss) && d < k <= |ss|
    requires ss[d].epoch < start
    ensures Fold(start, ss, k, now, offset) == Fold(start, ss[d..], k - d, now, offset)
  {
    if k > d + 1 {
      DropEarly(start, ss, d, k - 1, now, offset);
      assert ss[d..][k - d - 2] == ss[k - 2] && ss[d..][k - d - 1] == ss[k - 1];
    } else {
      EarlyIsBlank(start, ss, k, now, offset);
    }
  }

  lemma {:induction false} EarlyIsBlank(start: int, ss: seq<Sample>, k: nat, now: int, offset: int)
    requires Increasing(ss) && 0 < k <= |ss| && ss[k - 1].epoch < start
    ensures Fold(start, ss, k, now, offset) == Blank(start)
  {
    if k > 1 {
      assert ss[k - 2].epoch < ss[k - 1].epoch;
      EarlyIsBlank(start, ss, k - 1, now, offset);
      assert HourStart(ss[k - 1].epoch, offset) <= ss[k - 1].epoch;
    }
  }

  /** Reading only 25 hours and one earlier sample shows the same hours as reading all samples. */
  lemma SelectionLosesNothing(ss: seq<Sample>, asked: int, now: int, offset: int)
    requires Increasing(ss) && asked <= now
    ensures Hours(Selected(ss, asked - (HOURS + 1) * HOUR), now, offset) == Hours(ss, now, offset)
  {
    var cutoff := asked - (HOURS + 1) * HOUR;
    var n := UpTo(ss, |ss|, cutoff - 1);
    if n > 0 {
      UpToPrefix(ss, |ss|, cutoff - 1, n - 1);
      assert First(now, offset) > cutoff by { assert HourStart(now, offset) > now - HOUR; }
      forall i | 0 <= i < HOURS
        ensures Hours(ss[n - 1..], now, offset)[i] == Hours(ss, now, offset)[i]
      {
        DropEarly(First(now, offset) + i * HOUR, ss, n - 1, |ss|, now, offset);
      }
    }
  }
}
