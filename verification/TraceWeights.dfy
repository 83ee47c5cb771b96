/** Which row a full trace gives up, in terms of the rows themselves. */
module TraceWeights {
  import opened Bytes
  import opened TraceModel
  import opened TraceRetention

  /** Valid, with bit 3 of the operation status set. */
  predicate Edv2Set(s: Sample) {
    s.flags % 2 == 1 && s.operationStatus / 8 % 2 == 1
  }

  predicate Exhausted(s: Sample) {
    s.flags % 2 == 1 && s.soc == 0
  }

  /** Valid, with bit 4 of the operation status clear. */
  predicate VdqIsClear(s: Sample) {
    s.flags % 2 == 1 && s.operationStatus / 16 % 2 == 0
  }

  predicate At96(s: Sample) {
    s.flags % 2 == 1 && s.soc == 96
  }

  predicate FirstEdv2(c: seq<Sample>, i: nat)
    requires i < |c|
  {
    Edv2Set(c[i]) && forall j :: 0 <= j < i ==> !Edv2Set(c[j])
  }

  predicate FirstExhausted(c: seq<Sample>, i: nat)
    requires i < |c|
  {
    Exhausted(c[i]) && forall j :: 0 <= j < i ==> !Exhausted(c[j])
  }

  predicate FirstVdqClear(c: seq<Sample>, i: nat)
    requires i < |c|
  {
    VdqIsClear(c[i]) && forall j :: 0 <= j < i ==> !VdqIsClear(c[j])
  }

  predicate FirstAt96(c: seq<Sample>, i: nat)
    requires i < |c|
  {
    At96(c[i]) && forall j :: 0 <= j < i ==> !At96(c[j])
  }

  /** Valid and away from 96 after some row at 96. */
  predicate Below(c: seq<Sample>, i: nat)
    requires i < |c|
  {
    c[i].flags % 2 == 1 && c[i].soc != 96 && exists j :: 0 <= j < i && At96(c[j])
  }

  predicate FirstBelow(c: seq<Sample>, i: nat)
    requires i < |c|
  {
    Below(c, i) && forall k :: 0 <= k < i ==> !Below(c, k)
  }

  predicate Anchored(c: seq<Sample>, i: nat)
    requires i < |c|
  {
    FirstEdv2(c, i) || FirstExhausted(c, i) || FirstVdqClear(c, i) || FirstAt96(c, i) || FirstBelow(c, i)
  }

  lemma FreshIs(c: seq<Sample>, i: nat)
    requires i < |c|
    ensures Fresh(c, i, Edv2) <==> FirstEdv2(c, i)
    ensures Fresh(c, i, Empty) <==> FirstExhausted(c, i)
    ensures Fresh(c, i, VdqClear) <==> FirstVdqClear(c, i)
    ensures Fresh(c, i, Plateau) <==> FirstAt96(c, i)
  {
    assert forall j :: 0 <= j < i ==> Shows(Edv2, c[j]) == Edv2Set(c[j]);
    assert forall j :: 0 <= j < i ==> Shows(Empty, c[j]) == Exhausted(c[j]);
    assert forall j :: 0 <= j < i ==> Shows(VdqClear, c[j]) == VdqIsClear(c[j]);
    assert forall j :: 0 <= j < i ==> Shows(Plateau, c[j]) == At96(c[j]);
  }

  lemma LeavesIs(c: seq<Sample>, i: nat)
    requires i < |c|
    ensures Leaves(c, i) <==> Below(c, i)
  {
    assert forall j :: 0 <= j < i ==> Shows(Plateau, c[j]) == At96(c[j]);
  }

  lemma DepartureIs(c: seq<Sample>, i: nat)
    requires i < |c|
    ensures FirstDeparture(c, i) <==> FirstBelow(c, i)
  {
    forall j: nat | j <= i
      ensures Leaves(c, j) <==> Below(c, j)
    {
      LeavesIs(c, j);
    }
  }

  /** The boot changes between row i and one of its neighbours. */
  predicate AtBootChange(c: seq<Sample>, i: nat)
    requires 0 < i && i + 1 < |c|
  {
    c[i - 1].boot != c[i].boot || c[i].boot != c[i + 1].boot
  }

  /** What an inner row weighs. */
  function Weight(c: seq<Sample>, i: nat): nat
    requires 0 < i && i + 1 < |c|
  {
    if FirstEdv2(c, i) then 240
    else if FirstExhausted(c, i) then 230
    else if FirstVdqClear(c, i) then 220
    else if FirstAt96(c, i) then 211
    else if FirstBelow(c, i) then 210
    else if AtBootChange(c, i) then 180
    else if Anchored(c, i + 1) then 140
    else 0
  }

  lemma RankIs(c: seq<Sample>, i: nat)
    requires i < |c|
    ensures Rank(c, i) > 0 <==> Anchored(c, i)
    ensures Rank(c, i) ==
      if FirstEdv2(c, i) then 240
      else if FirstExhausted(c, i) then 230
      else if FirstVdqClear(c, i) then 220
      else if FirstAt96(c, i) then 211
      else if FirstBelow(c, i) then 210
      else 0
  {
    FreshIs(c, i);
    DepartureIs(c, i);
  }

  lemma PriorityIsWeight(c: seq<Sample>, i: nat)
    requires 0 < i && i + 1 < |c|
    ensures Priority(c, i) == Weight(c, i)
  {
    RankIs(c, i);
    RankIs(c, i + 1);
  }

  /** Time between the neighbours of row i, or 0 if they are of different boots. */
  function Span(c: seq<Sample>, i: nat): nat
    requires 0 < i && i + 1 < |c|
  {
    if c[i - 1].boot != c[i + 1].boot then 0
    else (c[i + 1].monotonicMs - c[i - 1].monotonicMs) % 0x1_0000_0000_0000_0000
  }

  /** Row i goes before row v if it weighs less, or spans less, or is newer. */
  predicate GoesBefore(c: seq<Sample>, i: nat, v: nat)
    requires 0 < i && i + 1 < |c| && 0 < v && v + 1 < |c|
  {
    || Weight(c, i) < Weight(c, v)
    || (Weight(c, i) == Weight(c, v) && (Span(c, i) < Span(c, v) || (Span(c, i) == Span(c, v) && i > v)))
  }

  lemma BeforeIs(c: seq<Sample>, v: nat, i: nat)
    requires |c| == 64 && 1 <= v <= 32 && 1 <= i <= 32
    ensures GoesBefore(c, v, i) <==>
      || Priority(c, v) < Priority(c, i)
      || (Priority(c, v) == Priority(c, i) && (Gap(c, v) < Gap(c, i) || (Gap(c, v) == Gap(c, i) && i < v)))
  {
    PriorityIsWeight(c, v);
    PriorityIsWeight(c, i);
  }

  /** A full trace gives up the one of rows 1 to 32 that goes before all others. */
  lemma VictimExactly(c: seq<Sample>, v: nat)
    requires |c| == 64 && 1 <= v <= 32
    ensures v == Victim(c) <==> forall i :: 1 <= i <= 32 && i != v ==> GoesBefore(c, v, i)
  {
    VictimIsLeast(c, v);
    VictimIsLeast(c, Victim(c));
    if v == Victim(c) {
      forall i | 1 <= i <= 32 && i != v
        ensures GoesBefore(c, v, i)
      {
        BeforeIs(c, v, i);
      }
    } else {
      BeforeIs(c, v, Victim(c));
      assert !GoesBefore(c, v, Victim(c));
    }
  }
}
