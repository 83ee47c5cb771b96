/** What an hour's figures are, each a sum over the pairs of neighbouring samples, and when it has which quality. */
module UsageSums {
  import opened Bytes
  import opened UsageHours

  /** Pair j is that of samples j - 1 and j; it belongs to an hour if the later one lies in it, and not after now. */
  predicate InHour(ss: seq<Sample>, j: nat, start: int, now: int) {
    0 < j < |ss| && start <= ss[j].epoch < start + HOUR && ss[j].epoch <= now
  }

  predicate IsShort(ss: seq<Sample>, j: nat)
    requires 0 < j < |ss|
  {
    ss[j].epoch - ss[j - 1].epoch <= 180
  }

  predicate Loses(ss: seq<Sample>, j: nat)
    requires 0 < j < |ss|
  {
    ss[j].tokens < ss[j - 1].tokens
  }

  datatype Part = Gains | Outages | Losses | Changes | ShortPairs | OutagePairs

  /** What pair j brings to a figure: gains only if it is short, outages only if not, losses and changes either way. */
  function Share(ss: seq<Sample>, j: nat, part: Part): int
    requires 0 < j < |ss|
  {
    var delta := ss[j].tokens - ss[j - 1].tokens;
    match part
    case Gains => if IsShort(ss, j) && !Loses(ss, j) then delta else 0
    case Outages => if IsShort(ss, j) then 0 else delta
    case Losses => if Loses(ss, j) then delta else 0
    case Changes => delta
    case ShortPairs => if IsShort(ss, j) then 1 else 0
    case OutagePairs => if IsShort(ss, j) then 0 else 1
  }

  /** The sum over the pairs before k that belong to the hour. */
  function SumOf(ss: seq<Sample>, k: nat, start: int, now: int, part: Part): int
    requires k <= |ss|
  {
    if k <= 1 then 0 else
      SumOf(ss, k - 1, start, now, part) + (if InHour(ss, k - 1, start, now) then Share(ss, k - 1, part) else 0)
  }

  predicate Aligned(start: int, offset: int) {
    (start + 60 * offset) % HOUR == 0
  }

  lemma HourOf(epoch: int, start: int, offset: int)
    requires Aligned(start, offset)
    ensures HourStart(epoch, offset) == start <==> start <= epoch < start + HOUR
  {
    var a := (start + 60 * offset) / HOUR;
    assert start + 60 * offset == a * HOUR;
    assert HourStart(epoch, offset) == start <==> (epoch + 60 * offset) / HOUR == a;
  }

  lemma HoursAligned(now: int, offset: int, i: nat)
    ensures Aligned(First(now, offset) + i * HOUR, offset)
  {
    var b := (now + 60 * offset) / HOUR;
    assert First(now, offset) + i * HOUR + 60 * offset == (b - (HOURS - 1) + i) * HOUR;
  }

  predicate Figures(r: Row, ss: seq<Sample>, k: nat, start: int, now: int)
    requires k <= |ss|
  {
    && r.positive == SumOf(ss, k, start, now, Gains)
    && r.gapDelta == SumOf(ss, k, start, now, Outages)
    && r.correction == SumOf(ss, k, start, now, Losses)
    && r.Reported() == SumOf(ss, k, start, now, Changes)
    && r.observations == SumOf(ss, k, start, now, ShortPairs)
    && r.gapCount == SumOf(ss, k, start, now, OutagePairs)
  }

  lemma FiguresStep(r: Row, ss: seq<Sample>, k: nat, now: int, offset: int)
    requires Increasing(ss) && 1 < k <= |ss| && Aligned(r.start, offset) && Figures(r, ss, k - 1, r.start, now)
    ensures Figures(Pair(r, ss[k - 2], ss[k - 1], now, offset), ss, k, r.start, now)
  {
    assert ss[k - 2].epoch < ss[k - 1].epoch;
    HourOf(ss[k - 1].epoch, r.start, offset);
  }

  lemma {:induction false} FoldFigures(start: int, ss: seq<Sample>, k: nat, now: int, offset: int)
    requires Increasing(ss) && k <= |ss| && Aligned(start, offset)
    ensures Figures(Fold(start, ss, k, now, offset), ss, k, start, now)
  {
    if k > 1 {
      FoldFigures(start, ss, k - 1, now, offset);
      FiguresStep(Fold(start, ss, k - 1, now, offset), ss, k, now, offset);
    }
  }

  /** Each figure of an hour is its own sum over the pairs that belong to it. */
  lemma HourFigures(ss: seq<Sample>, now: int, offset: int, i: nat)
    requires Increasing(ss) && i < HOURS
    ensures var r := Hours(ss, now, offset)[i]; Figures(r, ss, |ss|, r.start, now)
  {
    HoursAligned(now, offset, i);
    FoldFigures(First(now, offset) + i * HOUR, ss, |ss|, now, offset);
  }

  // ----- covered time

  /** A second is covered if it lies between two samples at most 180 seconds apart, the later one not after now. */
  predicate CoveredBy(ss: seq<Sample>, j: nat, now: int, t: int) {
    0 < j < |ss| && IsShort(ss, j) && ss[j].epoch <= now && ss[j - 1].epoch <= t < ss[j].epoch
  }

  predicate Covered(ss: seq<Sample>, k: nat, now: int, t: int) {
    exists j :: 0 < j < k && CoveredBy(ss, j, now, t)
  }

  /** How many of n seconds from start on are covered by the pairs before k. */
  function Seconds(ss: seq<Sample>, k: nat, now: int, start: int, n: nat): nat {
    if n == 0 then 0 else Seconds(ss, k, now, start, n - 1) + (if Covered(ss, k, now, start + n - 1) then 1 else 0)
  }

  lemma CoveredStep(ss: seq<Sample>, k: nat, now: int, t: int)
    requires Increasing(ss) && 1 < k <= |ss|
    ensures Covered(ss, k, now, t) <==> Covered(ss, k - 1, now, t) || CoveredBy(ss, k - 1, now, t)
    ensures !(Covered(ss, k - 1, now, t) && CoveredBy(ss, k - 1, now, t))
  {
    if Covered(ss, k - 1, now, t) {
      var j: nat :| 0 < j < k - 1 && CoveredBy(ss, j, now, t);
      assert Covered(ss, k, now, t);
      if j < k - 2 { IncreasingAt(ss, j, k - 2); }
    }
    if CoveredBy(ss, k - 1, now, t) {
      assert Covered(ss, k, now, t);
    }
  }

  /** The first n seconds of an hour that lie between a and b. */
  function Between(start: int, n: int, a: int, b: int): int {
    Max(0, Min(b, start + n) - Max(a, start))
  }

  lemma {:induction false} SecondsStep(ss: seq<Sample>, k: nat, now: int, start: int, n: nat)
    requires Increasing(ss) && 1 < k <= |ss|
    ensures var p, c := ss[k - 2].epoch, ss[k - 1].epoch;
      Seconds(ss, k, now, start, n) == Seconds(ss, k - 1, now, start, n)
        + if c - p <= 180 && c <= now then Between(start, n, p, c) else 0
    decreases n
  {
    assert ss[k - 2].epoch < ss[k - 1].epoch;
    if n > 0 {
      SecondsStep(ss, k, now, start, n - 1);
      CoveredStep(ss, k, now, start + n - 1);
    }
  }

  lemma {:induction false} NoSeconds(ss: seq<Sample>, k: nat, now: int, start: int, n: nat)
    requires k <= 1
    ensures Seconds(ss, k, now, start, n) == 0
  {
    if n > 0 {
      NoSeconds(ss, k, now, start, n - 1);
    }
  }

  lemma {:induction false} FoldCovered(start: int, ss: seq<Sample>, k: nat, now: int, offset: int)
    requires Increasing(ss) && k <= |ss|
    ensures Fold(start, ss, k, now, offset).covered == Seconds(ss, k, now, start, HOUR)
    decreases k
  {
    if k > 1 {
      FoldCovered(start, ss, k - 1, now, offset);
      assert ss[k - 2].epoch < ss[k - 1].epoch;
      SecondsStep(ss, k, now, start, HOUR);
    } else {
      NoSeconds(ss, k, now, start, HOUR);
    }
  }

  /** An hour's covered time is the number of its seconds that are covered. */
  lemma HourCovered(ss: seq<Sample>, now: int, offset: int, i: nat)
    requires Increasing(ss) && i < HOURS
    ensures var r := Hours(ss, now, offset)[i]; r.covered == Seconds(ss, |ss|, now, r.start, HOUR)
  {
    FoldCovered(First(now, offset) + i * HOUR, ss, |ss|, now, offset);
  }

  // ----- qualities

  predicate AnyShort(ss: seq<Sample>, k: nat, start: int, now: int) {
    exists j :: 0 < j < k && InHour(ss, j, start, now) && IsShort(ss, j)
  }

  predicate AnyOutage(ss: seq<Sample>, k: nat, start: int, now: int) {
    exists j :: 0 < j < k && InHour(ss, j, start, now) && !IsShort(ss, j)
  }

  predicate AnyLoss(ss: seq<Sample>, k: nat, start: int, now: int) {
    exists j :: 0 < j < k && InHour(ss, j, start, now) && Loses(ss, j)
  }

  lemma {:induction false} SumsSigns(ss: seq<Sample>, k: nat, start: int, now: int)
    requires k <= |ss|
    ensures SumOf(ss, k, start, now, Losses) <= 0
    ensures SumOf(ss, k, start, now, Losses) < 0 <==> AnyLoss(ss, k, start, now)
    ensures 0 <= SumOf(ss, k, start, now, ShortPairs) && 0 <= SumOf(ss, k, start, now, OutagePairs)
    ensures 0 < SumOf(ss, k, start, now, ShortPairs) <==> AnyShort(ss, k, start, now)
    ensures 0 < SumOf(ss, k, start, now, OutagePairs) <==> AnyOutage(ss, k, start, now)
  {
    if k > 1 {
      SumsSigns(ss, k - 1, start, now);
      AnyStep(ss, k, start, now);
    }
  }

  lemma AnyStep(ss: seq<Sample>, k: nat, start: int, now: int)
    requires 1 < k <= |ss|
    ensures var last := InHour(ss, k - 1, start, now);
      && (AnyLoss(ss, k, start, now) <==> AnyLoss(ss, k - 1, start, now) || (last && Loses(ss, k - 1)))
      && (AnyShort(ss, k, start, now) <==> AnyShort(ss, k - 1, start, now) || (last && IsShort(ss, k - 1)))
      && (AnyOutage(ss, k, start, now) <==> AnyOutage(ss, k - 1, start, now) || (last && !IsShort(ss, k - 1)))
  {
  }

  /**
   An hour is a correction exactly if the counter fell in it; otherwise it is observed exactly if samples came, no
   outage ended in it, and all but 180 of its seconds up to now are covered, partial if samples came but not so, a gap
   if only outages ended in it, and missing if nothing came.
   */
  lemma QualityExactly(ss: seq<Sample>, now: int, offset: int, i: nat)
    requires Increasing(ss) && i < HOURS
    ensures var r := Hours(ss, now, offset)[i];
      var short, outage := AnyShort(ss, |ss|, r.start, now), AnyOutage(ss, |ss|, r.start, now);
      r.quality ==
        if AnyLoss(ss, |ss|, r.start, now) then Correction
        else if short && !outage && Seconds(ss, |ss|, now, r.start, HOUR) + 180 >= Elapsed(r.start, now) then Observed
        else if short then Partial
        else if outage then Gap
        else Missing
  {
    var start := First(now, offset) + i * HOUR;
    HourFigures(ss, now, offset, i);
    HourCovered(ss, now, offset, i);
    SumsSigns(ss, |ss|, start, now);
    assert Fold(start, ss, |ss|, now, offset).quality == Missing by { ReportedParts(start, ss, |ss|, now, offset); }
  }

  // ----- where outages begin and end

  predicate OutageAt(ss: seq<Sample>, j: nat, k: nat, start: int, now: int) {
    j < k && InHour(ss, j, start, now) && !IsShort(ss, j)
  }

  ghost predicate FromOutages(from: Option<int>, to: Option<int>, ss: seq<Sample>, k: nat, start: int, now: int) {
    && (from.Some? <==> to.Some?)
    && (from.Some? ==>
        && (exists j: nat :: OutageAt(ss, j, k, start, now) && from.value == ss[j - 1].epoch)
        && (exists j: nat :: OutageAt(ss, j, k, start, now) && to.value == ss[j].epoch))
  }

  /** from is where the first outage of the hour begins, to where the last one ends. */
  ghost predicate Spans(from: Option<int>, to: Option<int>, ss: seq<Sample>, k: nat, start: int, now: int) {
    && FromOutages(from, to, ss, k, start, now)
    && (forall j: nat :: OutageAt(ss, j, k, start, now) ==>
        from.Some? && to.Some? && from.value <= ss[j - 1].epoch && ss[j].epoch <= to.value)
  }

  lemma FromOutagesStep(r: Row, ss: seq<Sample>, k: nat, now: int, offset: int)
    requires Increasing(ss) && 1 < k <= |ss| && Aligned(r.start, offset)
    requires FromOutages(r.gapStart, r.gapEnd, ss, k - 1, r.start, now)
    ensures var n := Pair(r, ss[k - 2], ss[k - 1], now, offset);
      FromOutages(n.gapStart, n.gapEnd, ss, k, r.start, now)
  {
    assert ss[k - 2].epoch < ss[k - 1].epoch;
    HourOf(ss[k - 1].epoch, r.start, offset);
    if r.gapStart.Some? {
      var x: nat :| OutageAt(ss, x, k - 1, r.start, now) && r.gapStart.value == ss[x - 1].epoch;
      var y: nat :| OutageAt(ss, y, k - 1, r.start, now) && r.gapEnd.value == ss[y].epoch;
      assert OutageAt(ss, x, k, r.start, now) && OutageAt(ss, y, k, r.start, now);
    }
    if InHour(ss, k - 1, r.start, now) && !IsShort(ss, k - 1) {
      assert OutageAt(ss, k - 1, k, r.start, now);
    }
  }

  /** A pair leaves the outages' beginning alone once there is one, and moves their end to its own if it is one. */
  lemma PairSpans(r: Row, ss: seq<Sample>, k: nat, now: int, offset: int)
    requires Increasing(ss) && 1 < k <= |ss| && Aligned(r.start, offset)
    ensures var n := Pair(r, ss[k - 2], ss[k - 1], now, offset);
      if OutageAt(ss, k - 1, k, r.start, now) then
        && n.gapStart == Some(if r.gapStart.Some? then r.gapStart.value else ss[k - 2].epoch)
        && n.gapEnd == Some(ss[k - 1].epoch)
      else n.gapStart == r.gapStart && n.gapEnd == r.gapEnd
  {
    assert ss[k - 2].epoch < ss[k - 1].epoch;
    HourOf(ss[k - 1].epoch, r.start, offset);
  }

  lemma SpanBounds(r: Row, ss: seq<Sample>, k: nat, now: int, offset: int, j: nat)
    requires Increasing(ss) && 1 < k <= |ss| && Aligned(r.start, offset)
    requires Spans(r.gapStart, r.gapEnd, ss, k - 1, r.start, now) && OutageAt(ss, j, k, r.start, now)
    ensures var n := Pair(r, ss[k - 2], ss[k - 1], now, offset);
      n.gapStart.Some? && n.gapEnd.Some? && n.gapStart.value <= ss[j - 1].epoch && ss[j].epoch <= n.gapEnd.value
  {
    PairSpans(r, ss, k, now, offset);
    if j < k - 1 {
      assert OutageAt(ss, j, k - 1, r.start, now);
      IncreasingAt(ss, j, k - 1);
    } else if r.gapStart.Some? {
      var x: nat :| OutageAt(ss, x, k - 1, r.start, now) && r.gapStart.value == ss[x - 1].epoch;
      IncreasingAt(ss, x - 1, j - 1);
    }
  }

  lemma SpansStep(r: Row, ss: seq<Sample>, k: nat, now: int, offset: int)
    requires Increasing(ss) && 1 < k <= |ss| && Aligned(r.start, offset)
    requires Spans(r.gapStart, r.gapEnd, ss, k - 1, r.start, now)
    ensures var n := Pair(r, ss[k - 2], ss[k - 1], now, offset); Spans(n.gapStart, n.gapEnd, ss, k, r.start, now)
  {
    var n := Pair(r, ss[k - 2], ss[k - 1], now, offset);
    FromOutagesStep(r, ss, k, now, offset);
    forall j: nat | OutageAt(ss, j, k, r.start, now)
      ensures n.gapStart.Some? && n.gapEnd.Some? && n.gapStart.value <= ss[j - 1].epoch && ss[j].epoch <= n.gapEnd.value
    {
      SpanBounds(r, ss, k, now, offset, j);
    }
  }

  lemma {:induction false} FoldSpans(start: int, ss: seq<Sample>, k: nat, now: int, offset: int)
    requires Increasing(ss) && k <= |ss| && Aligned(start, offset)
    ensures var r := Fold(start, ss, k, now, offset); Spans(r.gapStart, r.gapEnd, ss, k, start, now)
  {
    if k > 1 {
      FoldSpans(start, ss, k - 1, now, offset);
      SpansStep(Fold(start, ss, k - 1, now, offset), ss, k, now, offset);
    }
  }

  /** gapStart is where the first outage of the hour begins, gapEnd where the last one ends; none without an outage. */
  lemma HourOutages(ss: seq<Sample>, now: int, offset: int, i: nat)
    requires Increasing(ss) && i < HOURS
    ensures var r := Hours(ss, now, offset)[i]; Spans(r.gapStart, r.gapEnd, ss, |ss|, r.start, now)
  {
    HoursAligned(now, offset, i);
    FoldSpans(First(now, offset) + i * HOUR, ss, |ss|, now, offset);
  }
}
