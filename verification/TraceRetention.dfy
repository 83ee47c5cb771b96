/** What the bounded trace still holds after any number of appended rows. */
module TraceRetention {
  import opened Bytes
  import opened TraceModel

  /** Positions k after appending row n, row v being given up if the trace is full. */
  function Grow(k: seq<nat>, n: nat, v: nat): (r: seq<nat>)
    requires |k| <= CAPACITY && v < CAPACITY
    ensures |r| == if |k| < CAPACITY then |k| + 1 else CAPACITY
  {
    (if |k| == CAPACITY then Without(k, v) else k) + [n]
  }

  /** The rows of h at positions k; positions are always within h where this is used. */
  function RowsAt(h: seq<Sample>, k: seq<nat>): (r: seq<Sample>)
    ensures |r| == |k|
  {
    seq(|k|, i requires 0 <= i < |k| => if k[i] < |h| then h[k[i]] else NoSample)
  }

  function Evicted(h: seq<Sample>, k: seq<nat>): (v: nat)
    ensures 1 <= v <= CANDIDATES
  {
    if |k| == CAPACITY then Victim(RowsAt(h, k)) else 1
  }

  /** Positions in the history h of the rows the trace holds after appending all of h. */
  function Kept(h: seq<Sample>): (k: seq<nat>)
    ensures |k| <= CAPACITY
  {
    if h == [] then [] else
      var h' := h[..|h| - 1];
      Grow(Kept(h'), |h| - 1, Evicted(h', Kept(h')))
  }

  /** The trace after appending the rows of h one by one, starting empty. */
  function Run(h: seq<Sample>): (c: seq<Sample>)
    ensures |c| <= CAPACITY
  {
    if h == [] then [] else AppendRow(Run(h[..|h| - 1]), h[|h| - 1])
  }

  lemma GrowRows(h: seq<Sample>, k: seq<nat>)
    requires h != [] && WellShaped(k, |h| - 1)
    ensures AppendRow(RowsAt(h[..|h| - 1], k), h[|h| - 1])
         == RowsAt(h, Grow(k, |h| - 1, Evicted(h[..|h| - 1], k)))
  {
    var h' := h[..|h| - 1];
    if |k| == CAPACITY {
      assert Without(RowsAt(h', k), Evicted(h', k)) == RowsAt(h, Without(k, Evicted(h', k)));
    } else {
      assert RowsAt(h', k) == RowsAt(h, k);
    }
  }

  /** The running trace is exactly the history at the kept positions. */
  lemma {:induction false} RunIsKept(h: seq<Sample>)
    ensures Run(h) == RowsAt(h, Kept(h))
  {
    if h != [] {
      RunIsKept(h[..|h| - 1]);
      Shape(h[..|h| - 1]);
      GrowRows(h, Kept(h[..|h| - 1]));
    }
  }

  predicate InOrder(k: seq<nat>, i: nat, j: nat)
    requires i < |k| && j < |k|
  {
    k[i] < k[j]
  }

  /** Increasing positions below n, everything up to 64, and the newest 32 exactly. */
  ghost predicate WellShaped(k: seq<nat>, n: nat) {
    && |k| == (if n <= CAPACITY then n else CAPACITY)
    && (forall i, j :: 0 <= i < j < |k| ==> InOrder(k, i, j))
    && (forall i :: 0 <= i < |k| ==> k[i] < n)
    && (n <= CAPACITY ==> forall i :: 0 <= i < n ==> k[i] == i)
    && (forall i :: 0 <= i < |k| && |k| - 32 <= i ==> k[i] == n - |k| + i)
  }

  lemma GrowShape(k: seq<nat>, n: nat, v: nat, r: seq<nat>, m: nat)
    requires WellShaped(k, n) && 1 <= v <= CANDIDATES && r == Grow(k, n, v) && m == n + 1
    ensures WellShaped(r, m)
  {
    forall i, j | 0 <= i < j < |r|
      ensures InOrder(r, i, j)
    {
      if j < |r| - 1 && |k| == CAPACITY {
        assert InOrder(k, if i < v then i else i + 1, if j < v then j else j + 1);
      } else if j < |r| - 1 {
        assert InOrder(k, i, j);
      }
    }
  }

  lemma KeptStep(h: seq<Sample>, before: seq<Sample>, v: nat)
    requires h != [] && before == h[..|h| - 1] && v == Evicted(before, Kept(before))
    ensures |h| == |before| + 1 && 1 <= v <= CANDIDATES && Kept(h) == Grow(Kept(before), |before|, v)
  {
  }

  /**
   Order is preserved, everything is there up to 64 rows and exactly 64 rows after that, and the newest
   32 rows of the trace are the newest 32 of the history.
   */
  lemma {:induction false} Shape(h: seq<Sample>)
    ensures WellShaped(Kept(h), |h|)
  {
    if h != [] {
      var before := h[..|h| - 1];
      var v := Evicted(before, Kept(before));
      Shape(before);
      KeptStep(h, before, v);
      GrowShape(Kept(before), |before|, v, Kept(h), |h|);
    }
  }

  // ----- the evicted row

  /** v is the least of rows 1 to 32 by priority, then by gap, then by being the latest. */
  ghost predicate Least(c: seq<Sample>, v: nat)
    requires |c| == CAPACITY
  {
    && 1 <= v <= CANDIDATES
    && forall i :: 1 <= i <= CANDIDATES && i != v ==>
        || Priority(c, v) < Priority(c, i)
        || (Priority(c, v) == Priority(c, i) &&
            (Gap(c, v) < Gap(c, i) || (Gap(c, v) == Gap(c, i) && i < v)))
  }

  lemma {:induction false} BestIsLeast(p: seq<nat>, g: seq<u64>, n: nat)
    requires 1 <= n < |p| == |g|
    ensures forall i :: 1 <= i <= n && i != BestOf(p, g, n) ==>
      var v := BestOf(p, g, n);
      p[v] < p[i] || (p[v] == p[i] && (g[v] < g[i] || (g[v] == g[i] && i < v)))
  {
    if n > 1 {
      BestIsLeast(p, g, n - 1);
    }
  }

  /** The scan picks the least candidate, and there is only one. */
  lemma VictimIsLeast(c: seq<Sample>, v: nat)
    requires |c| == CAPACITY
    ensures Least(c, v) <==> v == Victim(c)
  {
    var p, g, w := Priorities(c), Gaps(c), Victim(c);
    BestIsLeast(p, g, CANDIDATES);
    forall i | 1 <= i <= CANDIDATES && i != w
      ensures || Priority(c, w) < Priority(c, i)
              || (Priority(c, w) == Priority(c, i) &&
                  (Gap(c, w) < Gap(c, i) || (Gap(c, w) == Gap(c, i) && i < w)))
    {
      assert p[i] == Priority(c, i) && p[w] == Priority(c, w) && g[i] == Gap(c, i) && g[w] == Gap(c, w);
    }
  }

  /** An anchor rank belongs to one row only. */
  lemma RankUnique(c: seq<Sample>, i: nat, j: nat)
    requires i < j < |c| && Rank(c, i) == Rank(c, j)
    ensures Rank(c, i) == 0
  {
  }

  lemma RankValues(c: seq<Sample>, i: nat)
    requires i < |c|
    ensures Rank(c, i) in {0, 210, 211, 220, 230, 240}
  {
  }

  /** Five ranks cannot fill six rows. */
  lemma SomeOrdinaryRow(c: seq<Sample>)
    requires |c| >= 7
    ensures exists i :: 1 <= i <= 6 && Rank(c, i) == 0
  {
    var r: seq<nat> := seq(7, i requires 0 <= i < 7 => Rank(c, i));
    forall i | 1 <= i <= 6
      ensures r[i] in {0, 210, 211, 220, 230, 240}
    {
      RankValues(c, i);
    }
    forall i, j | 1 <= i < j <= 6
      ensures r[i] != r[j] || r[i] == 0
    {
      if Rank(c, i) == Rank(c, j) { RankUnique(c, i, j); }
    }
    SixInFive(r);
    var i :| 1 <= i <= 6 && r[i] == 0;
    assert Rank(c, i) == 0;
  }

  lemma SixInFive(r: seq<nat>)
    requires |r| == 7 && forall i :: 1 <= i <= 6 ==> r[i] in {0, 210, 211, 220, 230, 240}
    requires forall i, j :: 1 <= i < j <= 6 ==> r[i] != r[j] || r[i] == 0
    ensures exists i :: 1 <= i <= 6 && r[i] == 0
  {
    assert r[1] == 0 || r[2] == 0 || r[3] == 0 || r[4] == 0 || r[5] == 0 || r[6] == 0;
  }

  /** The evicted row is never an anchor. */
  lemma VictimIsNoAnchor(c: seq<Sample>)
    requires |c| == CAPACITY
    ensures Rank(c, Victim(c)) == 0 && Priority(c, Victim(c)) <= 180
  {
    SomeOrdinaryRow(c);
    var i :| 1 <= i <= 6 && Rank(c, i) == 0;
    assert Priority(c, i) <= 180;
    VictimIsLeast(c, Victim(c));
    RankValues(c, Victim(c));
  }

  // ----- retention over whole runs

  /** A position that is not given up stays. */
  lemma GrowKeeps(k: seq<nat>, n: nat, v: nat, p: nat)
    requires |k| <= CAPACITY && v < CAPACITY && p < |k|
    requires |k| == CAPACITY ==> p != v
    ensures k[p] in Grow(k, n, v)
  {
    if |k| == CAPACITY {
      var i := if p < v then p else p - 1;
      assert Grow(k, n, v)[i] == k[p];
    } else {
      assert Grow(k, n, v)[p] == k[p];
    }
  }

  lemma AnchorSurvives(h: seq<Sample>, k: seq<nat>, n: nat, p: nat)
    requires |k| <= CAPACITY && p < |k| && Rank(RowsAt(h, k), p) > 0
    ensures k[p] in Grow(k, n, Evicted(h, k))
  {
    if |k| == CAPACITY {
      VictimIsNoAnchor(RowsAt(h, k));
    }
    GrowKeeps(k, n, Evicted(h, k), p);
  }

  /** The very first row is never lost. */
  lemma {:induction false} FirstRowKept(h: seq<Sample>)
    requires h != []
    ensures Kept(h)[0] == 0
  {
    if |h| > 1 {
      FirstRowKept(h[..|h| - 1]);
    }
  }

  lemma SeenInHistory(h: seq<Sample>, k: seq<nat>, p: nat, a: Anchor)
    requires WellShaped(k, |h|) && p < |k|
    ensures Seen(RowsAt(h, k), p, a) ==> Seen(h, k[p], a)
  {
    if Seen(RowsAt(h, k), p, a) {
      var j :| 0 <= j < p && Shows(a, RowsAt(h, k)[j]);
      assert InOrder(k, j, p) && Shows(a, h[k[j]]);
    }
  }

  /** The first row to show a in the history is also the first one among the kept rows. */
  lemma FreshAmongKept(h: seq<Sample>, k: seq<nat>, p: nat, a: Anchor)
    requires WellShaped(k, |h|) && p < |k| && Fresh(h, k[p], a)
    ensures Fresh(RowsAt(h, k), p, a) && Rank(RowsAt(h, k), p) > 0
  {
    SeenInHistory(h, k, p, a);
  }

  lemma SeenPrefix(h: seq<Sample>, n: nat, i: nat, a: Anchor)
    requires i <= n <= |h|
    ensures Seen(h[..n], i, a) <==> Seen(h, i, a)
  {
    if Seen(h[..n], i, a) {
      var j :| 0 <= j < i && Shows(a, h[..n][j]);
      assert Shows(a, h[j]);
    }
    if Seen(h, i, a) {
      var j :| 0 <= j < i && Shows(a, h[j]);
      assert Shows(a, h[..n][j]);
    }
  }

  function PositionOf(k: seq<nat>, i: nat): (p: nat)
    requires i in k
    ensures p < |k| && k[p] == i
  {
    if k[0] == i then 0 else 1 + PositionOf(k[1..], i)
  }

  lemma FreshSurvives(h: seq<Sample>, k: seq<nat>, n: nat, i: nat, a: Anchor)
    requires WellShaped(k, |h|) && i in k && Fresh(h, i, a)
    ensures i in Grow(k, n, Evicted(h, k))
  {
    var p := PositionOf(k, i);
    FreshAmongKept(h, k, p, a);
    AnchorSurvives(h, k, n, p);
  }

  lemma NewestKept(h: seq<Sample>)
    requires h != []
    ensures |h| - 1 in Kept(h)
  {
    assert Kept(h)[|Kept(h)| - 1] == |h| - 1;
  }

  /** Over any run of appends, the first row to show each anchor is still in the trace. */
  lemma {:induction false} AnchorKept(h: seq<Sample>, i: nat, a: Anchor)
    requires i < |h| && Fresh(h, i, a)
    ensures i in Kept(h)
  {
    var n := |h| - 1;
    if i == n {
      NewestKept(h);
    } else {
      var h' := h[..n];
      SeenPrefix(h, n, i, a);
      AnchorKept(h', i, a);
      Shape(h');
      FreshSurvives(h', Kept(h'), n, i, a);
    }
  }

  lemma FreshPosition(h: seq<Sample>, n: nat, a: Anchor) returns (i: nat)
    requires n <= |h| && Seen(h, n, a)
    ensures i < n && Fresh(h, i, a)
  {
    i := 0;
    while !Shows(a, h[i])
      invariant i < n && !Seen(h, i, a) && Seen(h, n, a)
      decreases n - i
    {
      i := i + 1;
      assert !Seen(h, i, a);
      if i == n { assert false; }
    }
  }

  lemma DeparturePrefix(h: seq<Sample>, n: nat, i: nat)
    requires i < n <= |h| && FirstDeparture(h, i)
    ensures FirstDeparture(h[..n], i)
  {
    forall j | 0 <= j <= i
      ensures Leaves(h[..n], j) == Leaves(h, j)
    {
      SeenPrefix(h, n, j, Plateau);
    }
  }

  lemma DepartedInHistory(h: seq<Sample>, k: seq<nat>, p: nat)
    requires WellShaped(k, |h|) && p < |k|
    ensures Departed(RowsAt(h, k), p) ==> Departed(h, k[p])
  {
    if Departed(RowsAt(h, k), p) {
      var j :| 0 <= j < p && Leaves(RowsAt(h, k), j);
      SeenInHistory(h, k, j, Plateau);
      assert InOrder(k, j, p) && Leaves(h, k[j]);
    }
  }

  lemma PositionOrder(k: seq<nat>, p: nat, q: nat)
    requires forall i, j :: 0 <= i < j < |k| ==> InOrder(k, i, j)
    requires p < |k| && q < |k|
    ensures k[q] < k[p] <==> q < p
  {
    assert q < p ==> InOrder(k, q, p);
    assert p < q ==> InOrder(k, p, q);
  }

  /** If the first row at 96 was kept, the kept rows leave 96 first where the history does. */
  lemma DepartureAmongKept(h: seq<Sample>, k: seq<nat>, p: nat, q: nat)
    requires WellShaped(k, |h|) && p < |k| && q < |k|
    requires FirstDeparture(h, k[p]) && Fresh(h, k[q], Plateau) && k[q] < k[p]
    ensures FirstDeparture(RowsAt(h, k), p) && Rank(RowsAt(h, k), p) > 0
  {
    PositionOrder(k, p, q);
    assert Shows(Plateau, RowsAt(h, k)[q]);
    DepartedInHistory(h, k, p);
  }

  lemma DepartureSurvives(h: seq<Sample>, k: seq<nat>, n: nat, i: nat, f: nat)
    requires WellShaped(k, |h|) && i in k && f in k && f < i
    requires FirstDeparture(h, i) && Fresh(h, f, Plateau)
    ensures i in Grow(k, n, Evicted(h, k))
  {
    var p := PositionOf(k, i);
    DepartureAmongKept(h, k, p, PositionOf(k, f));
    AnchorSurvives(h, k, n, p);
  }

  lemma DepartureStep(h: seq<Sample>, n: nat, i: nat)
    requires n < |h| && i < n && FirstDeparture(h[..n], i) && i in Kept(h[..n])
    ensures i in Grow(Kept(h[..n]), n, Evicted(h[..n], Kept(h[..n])))
  {
    var h' := h[..n];
    var f := FreshPosition(h', i, Plateau);
    AnchorKept(h', f, Plateau);
    Shape(h');
    DepartureSurvives(h', Kept(h'), n, i, f);
  }

  /** The first valid row that leaves 96 per cent after the first valid row at 96 is still in the trace. */
  lemma {:induction false} DepartureKept(h: seq<Sample>, i: nat)
    requires i < |h| && FirstDeparture(h, i)
    ensures i in Kept(h)
  {
    var n := |h| - 1;
    if i == n {
      NewestKept(h);
    } else {
      DeparturePrefix(h, n, i);
      DepartureKept(h[..n], i);
      DepartureStep(h, n, i);
    }
  }
}
