/**
 The remaining-quota trend: captures sorted into hourly and daily buckets, and which points may be joined by a line.
 */
module QuotaTrend {
  import opened Bytes

  const MAX_GAP := 180
  const OFFSET := 28800
  const HOUR := 3600
  const DAY := 86400

  datatype Row = Row(epoch: int, id: string, bp: int, reset: int)

  datatype Mark = Mark(epoch: int, bp: int, broken: bool, resetBefore: bool)

  datatype Point = Point(epoch: int, bp: Option<int>, broken: bool, resetBefore: bool)

  datatype Trend = Trend(
    available: bool, captured: int, age: int, limitId: string, hours: seq<Point>, days: seq<Point>)

  function Eligible(rows: seq<Row>, now: int): (r: seq<Row>) {
    if rows == [] then []
    else
      var last := rows[|rows| - 1];
      Eligible(rows[..|rows| - 1], now) + if last.epoch <= now then [last] else []
  }

  /** A capture that does not directly continue the one before it. */
  predicate Broken(rows: seq<Row>, m: nat)
    requires m < |rows|
  {
    || m == 0 || rows[m - 1].id != rows[m].id || rows[m].epoch - rows[m - 1].epoch > MAX_GAP
    || rows[m - 1].reset != rows[m].reset
  }

  predicate ResetBefore(rows: seq<Row>, m: nat)
    requires m < |rows|
  {
    m > 0 && rows[m - 1].id == rows[m].id && rows[m - 1].reset != rows[m].reset
  }

  /** The captures of one limit among the first k rows, each marked against its predecessor of any limit. */
  function Marked(rows: seq<Row>, k: nat, target: string): seq<Mark>
    requires k <= |rows|
  {
    if k == 0 then []
    else
      var r := rows[k - 1];
      Marked(rows, k - 1, target)
        + if r.id == target then [Mark(r.epoch, r.bp, Broken(rows, k - 1), ResetBefore(rows, k - 1))] else []
  }

  /** The buckets of one resolution; the last one holds now. */
  datatype Scale = Scale(now: int, span: int, step: int, count: nat) {
    function Start(): int {
      now - span
    }

    function First(): int
      requires step > 0
    {
      (now + OFFSET) / step * step - OFFSET - (count - 1) * step
    }

    function Index(epoch: int): int
      requires step > 0
    {
      (epoch + OFFSET) / step - (First() + OFFSET) / step
    }

    predicate Shows(epoch: int) {
      Start() <= epoch <= now
    }
  }

  function HourScale(now: int): Scale {
    Scale(now, DAY, HOUR, 25)
  }

  function DayScale(now: int): Scale {
    Scale(now, 7 * DAY, DAY, 8)
  }

  function Max(a: int, b: int): int {
    if a > b then a else b
  }

  function Empty(s: Scale, i: nat): Point
    requires s.step > 0
  {
    Point(Max(s.Start(), s.First() + i * s.step), None, false, false)
  }

  function Put(p: Point, m: Mark): Point {
    Point(m.epoch, Some(m.bp), p.broken || m.broken, p.resetBefore || m.resetBefore)
  }

  /** Point i after some marks: the latest one that falls into it, with the flags of all of them. */
  function Filled(s: Scale, i: nat, marks: seq<Mark>): Point
    requires s.step > 0
  {
    if marks == [] then Empty(s, i)
    else
      var p, m := Filled(s, i, marks[..|marks| - 1]), marks[|marks| - 1];
      if s.Shows(m.epoch) && s.Index(m.epoch) == i then Put(p, m) else p
  }

  function Slots(s: Scale, marks: seq<Mark>): (r: seq<Point>)
    requires s.step > 0
    ensures |r| == s.count
  {
    seq(s.count, i requires 0 <= i < s.count => Filled(s, i, marks))
  }

  predicate AnyFilled(points: seq<Point>) {
    exists p :: p in points && p.bp.Some?
  }

  function Project(rows: seq<Row>, now: int, age: int): Trend {
    var es := Eligible(rows, now);
    var target := if es == [] then "" else es[|es| - 1].id;
    var marks := Marked(es, |es|, target);
    var days := Slots(DayScale(now), marks);
    Trend(AnyFilled(days), if es == [] then 0 else es[|es| - 1].epoch,
      if es == [] then 0 else Max(0, age), target, Slots(HourScale(now), marks), days)
  }

  // ----- the code

  method FillSlots(s: Scale, marks: seq<Mark>) returns (points: array<Point>)
    requires s.step > 0
    ensures fresh(points) && points[..] == Slots(s, marks)
  {
    points := new Point[s.count](i requires i >= 0 => Empty(s, i));
    for k := 0 to |marks|
      invariant fresh(points) && points.Length == s.count
      invariant forall i :: 0 <= i < s.count ==> points[i] == Filled(s, i, marks[..k])
    {
      assert marks[..k + 1][..k] == marks[..k];
      var m := marks[k];
      if s.Start() <= m.epoch <= s.now {
        var index := (m.epoch + OFFSET) / s.step - (s.First() + OFFSET) / s.step;
        if 0 <= index < s.count {
          var p := points[index];
          points[index] := p.(epoch := m.epoch, bp := Some(m.bp), broken := p.broken || m.broken,
                              resetBefore := p.resetBefore || m.resetBefore);
        }
      }
    }
    assert marks[..|marks|] == marks;
  }

  method FindMarks(es: seq<Row>, target: string) returns (marks: seq<Mark>)
    ensures marks == Marked(es, |es|, target)
  {
    marks := [];
    var previous: Option<Row> := None;
    for k := 0 to |es|
      invariant marks == Marked(es, k, target)
      invariant previous == if k == 0 then None else Some(es[k - 1])
    {
      var r := es[k];
      if r.id == target {
        var same := previous.Some? && previous.value.id == r.id;
        var resetBefore := same && previous.value.reset != r.reset;
        var broken := previous.None? || !same || r.epoch - previous.value.epoch > MAX_GAP || resetBefore;
        marks := marks + [Mark(r.epoch, r.bp, broken, resetBefore)];
      }
      previous := Some(r);
    }
  }

  // ----- what the points mean

  predicate Increasing(rows: seq<Row>) {
    forall i :: 0 < i < |rows| ==> rows[i - 1].epoch < rows[i].epoch
  }

  lemma {:induction false} IncreasingAt(rows: seq<Row>, i: nat, j: nat)
    requires Increasing(rows) && i < j < |rows|
    ensures rows[i].epoch < rows[j].epoch
    decreases j
  {
    if i < j - 1 {
      IncreasingAt(rows, i, j - 1);
    }
  }

  /** Row m is shown in point i. */
  predicate Lands(s: Scale, rows: seq<Row>, m: nat, target: string, i: int)
    requires s.step > 0 && m < |rows|
  {
    rows[m].id == target && s.Shows(rows[m].epoch) && s.Index(rows[m].epoch) == i
  }

  /** The two resolutions shown: hours of a day and days of a week, each with one bucket to spare. */
  predicate Used(s: Scale) {
    s == HourScale(s.now) || s == DayScale(s.now)
  }

  lemma HourIndex(now: int, epoch: int)
    requires HourScale(now).Shows(epoch)
    ensures var s := HourScale(now); var i := s.Index(epoch);
      0 <= i < 25 && s.First() + i * HOUR <= epoch < s.First() + (i + 1) * HOUR
    ensures HourScale(now).First() <= HourScale(now).Start() < HourScale(now).First() + HOUR
  {
    var q := (now + OFFSET) / HOUR;
    assert HourScale(now).First() + OFFSET == (q - 24) * HOUR;
  }

  lemma DayIndex(now: int, epoch: int)
    requires DayScale(now).Shows(epoch)
    ensures var s := DayScale(now); var i := s.Index(epoch);
      0 <= i < 8 && s.First() + i * DAY <= epoch < s.First() + (i + 1) * DAY
    ensures DayScale(now).First() <= DayScale(now).Start() < DayScale(now).First() + DAY
  {
    var q := (now + OFFSET) / DAY;
    assert DayScale(now).First() + OFFSET == (q - 7) * DAY;
  }

  /**
   Every epoch of the window has exactly one bucket, whose bounds hold it; only the first reaches before the window.
   */
  lemma IndexInside(s: Scale, epoch: int)
    requires Used(s) && s.Shows(epoch)
    ensures 0 <= s.Index(epoch) < s.count
    ensures s.First() + s.Index(epoch) * s.step <= epoch < s.First() + (s.Index(epoch) + 1) * s.step
    ensures s.First() <= s.Start() < s.First() + s.step
  {
    if s == HourScale(s.now) { HourIndex(s.now, epoch); } else { DayIndex(s.now, epoch); }
  }

  predicate LatestIn(s: Scale, i: nat, rows: seq<Row>, k: nat, target: string, p: Point, m: int)
    requires s.step > 0 && k <= |rows|
  {
    && 0 <= m < k && Lands(s, rows, m, target, i) && p.epoch == rows[m].epoch && p.bp == Some(rows[m].bp)
    && forall n :: m < n < k ==> !Lands(s, rows, n, target, i)
  }

  lemma FilledStep(s: Scale, i: nat, rows: seq<Row>, k: nat, target: string)
    requires s.step > 0 && 0 < k <= |rows|
    ensures var p := Filled(s, i, Marked(rows, k - 1, target)); var r := rows[k - 1];
      Filled(s, i, Marked(rows, k, target)) ==
        if Lands(s, rows, k - 1, target, i)
        then Put(p, Mark(r.epoch, r.bp, Broken(rows, k - 1), ResetBefore(rows, k - 1))) else p
  {
    var before, after := Marked(rows, k - 1, target), Marked(rows, k, target);
    var r := rows[k - 1];
    if r.id == target {
      var mark := Mark(r.epoch, r.bp, Broken(rows, k - 1), ResetBefore(rows, k - 1));
      assert after == before + [mark] && after[..|after| - 1] == before && after[|after| - 1] == mark;
    } else {
      assert after == before + [] == before;
    }
  }

  /** A point is empty exactly if no row lands in it, and else holds the latest one that does. */
  lemma {:induction false} HoldsLatest(s: Scale, i: nat, rows: seq<Row>, k: nat, target: string) returns (m: int)
    requires s.step > 0 && k <= |rows|
    ensures var p := Filled(s, i, Marked(rows, k, target));
      if p.bp.Some? then LatestIn(s, i, rows, k, target, p, m)
      else p.epoch == Empty(s, i).epoch && forall n :: 0 <= n < k ==> !Lands(s, rows, n, target, i)
  {
    m := -1;
    if k > 0 {
      FilledStep(s, i, rows, k, target);
      m := HoldsLatest(s, i, rows, k - 1, target);
      if Lands(s, rows, k - 1, target, i) {
        m := k - 1;
      }
    }
  }

  /** Two neighbouring captures of one limit and reset, close in time. */
  predicate Joined(rows: seq<Row>, m: nat)
    requires m < |rows|
  {
    && m > 0 && rows[m - 1].id == rows[m].id && rows[m - 1].reset == rows[m].reset
    && rows[m].epoch - rows[m - 1].epoch <= MAX_GAP
  }

  predicate OtherReset(before: Row, r: Row) {
    before.id == r.id && before.reset != r.reset
  }

  /**
   The break flag is set exactly if some capture that lands in the point does not directly continue the capture before
   it; the reset flag exactly if some such capture follows one of the same limit that had another reset.
   */
  lemma {:induction false} FlagsGathered(s: Scale, i: nat, rows: seq<Row>, k: nat, target: string)
    requires s.step > 0 && k <= |rows|
    ensures var p := Filled(s, i, Marked(rows, k, target));
      && (p.broken <==> exists m :: 0 <= m < k && Lands(s, rows, m, target, i) && !Joined(rows, m))
      && (p.resetBefore <==>
          exists m :: 0 < m < k && Lands(s, rows, m, target, i) && OtherReset(rows[m - 1], rows[m]))
  {
    if k > 0 {
      FilledStep(s, i, rows, k, target);
      FlagsGathered(s, i, rows, k - 1, target);
    }
  }

  /** Point i of a projection of these rows. */
  function At(s: Scale, i: nat, rows: seq<Row>, target: string): Point
    requires s.step > 0
  {
    Filled(s, i, Marked(rows, |rows|, target))
  }

  /** Every row of the limit in the window lands in exactly one point, which is then filled, at its time or later. */
  lemma EveryRowShown(s: Scale, rows: seq<Row>, target: string, m: nat)
    requires Used(s) && Increasing(rows) && m < |rows| && rows[m].id == target && s.Shows(rows[m].epoch)
    ensures 0 <= s.Index(rows[m].epoch) < s.count
    ensures forall i :: Lands(s, rows, m, target, i) <==> i == s.Index(rows[m].epoch)
    ensures var p := At(s, s.Index(rows[m].epoch), rows, target); p.bp.Some? && p.epoch >= rows[m].epoch
  {
    IndexInside(s, rows[m].epoch);
    var i := s.Index(rows[m].epoch);
    var latest := HoldsLatest(s, i, rows, |rows|, target);
    assert Lands(s, rows, m, target, i);
    if m < latest {
      IncreasingAt(rows, m, latest);
    }
  }

  lemma PointInBucket(s: Scale, rows: seq<Row>, target: string, i: nat)
    requires Used(s) && i < s.count
    ensures var e := At(s, i, rows, target).epoch;
      s.Start() <= e <= s.now && s.First() + i * s.step <= e < s.First() + (i + 1) * s.step
  {
    var m := HoldsLatest(s, i, rows, |rows|, target);
    IndexInside(s, s.now);
    if At(s, i, rows, target).bp.Some? {
      IndexInside(s, rows[m].epoch);
    } else if s == HourScale(s.now) {
      HourIndex(s.now, s.now);
    } else {
      DayIndex(s.now, s.now);
    }
  }

  /** Point times strictly increase inside the window, filled or not. */
  lemma PointsIncrease(s: Scale, rows: seq<Row>, target: string, i: nat, j: nat)
    requires Used(s) && i < j < s.count
    ensures s.Start() <= At(s, i, rows, target).epoch < At(s, j, rows, target).epoch <= s.now
  {
    PointInBucket(s, rows, target, i);
    PointInBucket(s, rows, target, j);
    if s == HourScale(s.now) {
      assert (i + 1) * HOUR <= j * HOUR;
    } else {
      assert (i + 1) * DAY <= j * DAY;
    }
  }

  // ----- which points may be joined

  /**
   Going back from a row of an unflagged point, the rows stay in that point until the previous filled one's latest.
   */
  lemma {:induction false} BackTo(s: Scale, rows: seq<Row>, target: string, j: nat, i: nat, a: nat, m: nat)
    requires Used(s) && Increasing(rows) && j < i < s.count && a < m < |rows|
    requires LatestIn(s, j, rows, |rows|, target, At(s, j, rows, target), a)
    requires !At(s, i, rows, target).broken && Lands(s, rows, m, target, i)
    requires forall n :: j < n < i ==> At(s, n, rows, target).bp.None?
    ensures forall n :: a < n <= m ==> Joined(rows, n)
    decreases m
  {
    FlagsGathered(s, i, rows, |rows|, target);
    assert Joined(rows, m);
    if m - 1 > a {
      IncreasingAt(rows, a, m - 1);
      IncreasingAt(rows, m - 1, m);
      EveryRowShown(s, rows, target, m - 1);
      EveryRowShown(s, rows, target, m);
      EveryRowShown(s, rows, target, a);
      IndexOrder(s, rows[a].epoch, rows[m - 1].epoch);
      IndexOrder(s, rows[m - 1].epoch, rows[m].epoch);
      BackTo(s, rows, target, j, i, a, m - 1);
    }
  }

  lemma IndexOrder(s: Scale, a: int, b: int)
    requires Used(s) && a <= b
    ensures s.Index(a) <= s.Index(b)
  {
  }

  /**
   A filled point without the break flag continues the filled point before it: all captures between the two points'
   captures belong to one limit and one reset and follow each other within the permitted gap.
   */
  lemma UnflaggedIsJoined(s: Scale, rows: seq<Row>, target: string, j: nat, i: nat) returns (a: int, b: int)
    requires Used(s) && Increasing(rows) && j < i < s.count
    requires At(s, j, rows, target).bp.Some? && At(s, i, rows, target).bp.Some? && !At(s, i, rows, target).broken
    requires forall n :: j < n < i ==> At(s, n, rows, target).bp.None?
    ensures 0 <= a < b < |rows|
    ensures rows[a].epoch == At(s, j, rows, target).epoch && Some(rows[a].bp) == At(s, j, rows, target).bp
    ensures rows[b].epoch == At(s, i, rows, target).epoch && Some(rows[b].bp) == At(s, i, rows, target).bp
    ensures forall n :: a < n <= b ==> Joined(rows, n) && rows[n].id == target
  {
    a := HoldsLatest(s, j, rows, |rows|, target);
    b := HoldsLatest(s, i, rows, |rows|, target);
    PointsIncrease(s, rows, target, j, i);
    if b < a {
      IncreasingAt(rows, b, a);
    }
    BackTo(s, rows, target, j, i, a, b);
    SameLimit(rows, a, b, target);
  }

  lemma {:induction false} SameLimit(rows: seq<Row>, a: nat, b: nat, target: string)
    requires a <= b < |rows| && rows[a].id == target && forall n :: a < n <= b ==> Joined(rows, n)
    ensures forall n :: a < n <= b ==> rows[n].id == target
    decreases b
  {
    if a < b {
      SameLimit(rows, a, b - 1, target);
      assert Joined(rows, b);
    }
  }

  /** Of increasing rows the eligible ones are those in front. */
  lemma {:induction false} EligibleIncreasing(rows: seq<Row>, now: int)
    requires Increasing(rows)
    ensures Increasing(Eligible(rows, now)) && Eligible(rows, now) <= rows
  {
    if rows == [] {
    } else if rows[|rows| - 1].epoch <= now {
      EligibleAll(rows, now);
    } else {
      var front := rows[..|rows| - 1];
      EligibleIncreasing(front, now);
      assert Eligible(rows, now) == Eligible(front, now);
    }
  }

  /** Exactly the captures after now are dropped. */
  lemma {:induction false} EligibleIn(rows: seq<Row>, now: int, r: Row)
    ensures r in Eligible(rows, now) <==> r in rows && r.epoch <= now
  {
    if rows != [] {
      var front := rows[..|rows| - 1];
      EligibleIn(front, now, r);
      assert rows == front + [rows[|rows| - 1]];
    }
  }

  lemma {:induction false} EligibleAll(rows: seq<Row>, now: int)
    requires Increasing(rows) && rows != [] && rows[|rows| - 1].epoch <= now
    ensures Eligible(rows, now) == rows
  {
    if |rows| > 1 {
      EligibleAll(rows[..|rows| - 1], now);
    }
    assert rows == rows[..|rows| - 1] + [rows[|rows| - 1]];
  }

  lemma WeekHolds(es: seq<Row>, now: int, target: string)
    requires Increasing(es) && (es != [] ==> es[|es| - 1].id == target && es[|es| - 1].epoch <= now)
    ensures (exists i :: 0 <= i < 8 && At(DayScale(now), i, es, target).bp.Some?)
      <==> es != [] && es[|es| - 1].epoch >= now - 7 * DAY
  {
    var s := DayScale(now);
    if es != [] && es[|es| - 1].epoch >= now - 7 * DAY {
      EveryRowShown(s, es, target, |es| - 1);
    }
    if i :| 0 <= i < 8 && At(s, i, es, target).bp.Some? {
      var m := HoldsLatest(s, i, es, |es|, target);
      if m < |es| - 1 {
        IncreasingAt(es, m, |es| - 1);
      }
    }
  }

  lemma AnyFilledAt(points: seq<Point>)
    ensures AnyFilled(points) <==> exists i :: 0 <= i < |points| && points[i].bp.Some?
  {
    if p :| p in points && p.bp.Some? {
      var i :| 0 <= i < |points| && points[i] == p;
      assert points[i].bp.Some?;
    }
    if i :| 0 <= i < |points| && points[i].bp.Some? {
      assert points[i] in points;
    }
  }

  /** The projection shows the newest capture's limit, and is available exactly if the week holds a capture. */
  lemma ProjectionIs(rows: seq<Row>, now: int, age: int)
    requires Increasing(rows)
    ensures var es := Eligible(rows, now); var t := Project(rows, now, age);
      && Increasing(es)
      && (forall i :: 0 <= i < 25 ==> t.hours[i] == At(HourScale(now), i, es, t.limitId))
      && (forall i :: 0 <= i < 8 ==> t.days[i] == At(DayScale(now), i, es, t.limitId))
      && (t.available <==> es != [] && es[|es| - 1].epoch >= now - 7 * DAY)
  {
    EligibleIncreasing(rows, now);
    var es, t := Eligible(rows, now), Project(rows, now, age);
    if es != [] { EligibleIn(rows, now, es[|es| - 1]); }
    WeekHolds(es, now, t.limitId);
    AnyFilledAt(t.days);
    assert forall i :: 0 <= i < 8 ==> t.days[i] == At(DayScale(now), i, es, t.limitId);
  }

  /** r is a capture not after now, and none such is later. */
  ghost predicate Newest(rows: seq<Row>, now: int, r: Row) {
    && r in rows && r.epoch <= now
    && forall q :: q in rows && q.epoch <= now ==> q.epoch <= r.epoch
  }

  lemma LastIsNewest(rows: seq<Row>, now: int, r: Row)
    requires Increasing(rows)
    ensures Newest(rows, now, r) <==> Eligible(rows, now) != [] && r == Eligible(rows, now)[|Eligible(rows, now)| - 1]
  {
    var es := Eligible(rows, now);
    EligibleIncreasing(rows, now);
    EligibleIn(rows, now, r);
    if es != [] {
      var last := es[|es| - 1];
      EligibleIn(rows, now, last);
      forall q | q in rows && q.epoch <= now
        ensures q.epoch <= last.epoch && (q.epoch == last.epoch ==> q == last)
      {
        EligibleIn(rows, now, q);
        var i: nat :| i < |es| && es[i] == q;
        if i < |es| - 1 { IncreasingAt(es, i, |es| - 1); }
      }
    }
  }

  /**
   The projection names the newest capture not after now and its limit, with the age it was given or 0 for a negative
   one; without such a capture it is empty.
   */
  lemma NewestIsShown(rows: seq<Row>, now: int, age: int, r: Row)
    requires Increasing(rows)
    ensures var t := Project(rows, now, age);
      && (Newest(rows, now, r) ==>
          t.captured == r.epoch && t.limitId == r.id && t.age == if age < 0 then 0 else age)
      && ((forall q :: q in rows ==> q.epoch > now) ==> t.captured == 0 && t.limitId == "" && t.age == 0)
  {
    LastIsNewest(rows, now, r);
    var es := Eligible(rows, now);
    if es != [] { EligibleIn(rows, now, es[0]); }
  }

  method Compute(rows: seq<Row>, now: int, age: int) returns (t: Trend)
    ensures t == Project(rows, now, age)
  {
    var es := [];
    for k := 0 to |rows|
      invariant es == Eligible(rows[..k], now)
    {
      assert rows[..k + 1][..k] == rows[..k];
      if rows[k].epoch <= now { es := es + [rows[k]]; }
    }
    assert rows[..|rows|] == rows;
    var target := if es == [] then "" else es[|es| - 1].id;
    var marks := FindMarks(es, target);
    var hours := FillSlots(HourScale(now), marks);
    var days := FillSlots(DayScale(now), marks);
    t := Trend(AnyFilled(days[..]), if es == [] then 0 else es[|es| - 1].epoch,
      if es == [] then 0 else Max(0, age), target, hours[..], days[..]);
  }
}
