/** What the trace's flags mean in terms of the samples that led to them. */
module TraceStatus {
  import opened Bytes
  import opened TraceModel

  function StatusRun(start: Status, h: seq<Sample>): (t: Status)
    requires start.chargingSamples <= 2
    ensures t.chargingSamples <= 2
  {
    if h == [] then start else StatusRun(start, h[..|h| - 1]).After(h[|h| - 1])
  }

  /** A valid sample of a nearly empty battery under load. */
  predicate Discharges(s: Sample) {
    s.flags % 2 == 1 && (s.soc <= 5 || s.voltageMv <= 3500) && (s.currentMa < 0 || s.averageCurrentMa < 0)
  }

  predicate LowBy(low: bool, h: seq<Sample>, i: nat)
    requires i < |h|
  {
    low || exists j :: 0 <= j <= i && Discharges(h[j])
  }

  /** A valid sample under charge after the low one. */
  predicate Charges(low: bool, h: seq<Sample>, i: nat)
    requires i < |h|
  {
    h[i].flags % 2 == 1 && h[i].currentMa > 5 && LowBy(low, h, i)
  }

  predicate Recharged(low: bool, h: seq<Sample>, i: nat)
    requires i < |h|
  {
    i > 0 && Charges(low, h, i - 1) && Charges(low, h, i)
  }

  lemma PrefixSame(low: bool, h: seq<Sample>, n: nat, i: nat)
    requires i < n <= |h|
    ensures LowBy(low, h[..n], i) == LowBy(low, h, i) && Charges(low, h[..n], i) == Charges(low, h, i)
    ensures Recharged(low, h[..n], i) == Recharged(low, h, i)
  {
    assert forall j :: 0 <= j <= i ==> h[..n][j] == h[j];
    if i > 0 {
      assert forall j :: 0 <= j <= i - 1 ==> h[..n][j] == h[j];
    }
  }

  /** One more sample, behind rows whose last is known to charge or not. */
  lemma LastStep(t: Status, low: bool, h: seq<Sample>)
    requires h != [] && t.chargingSamples <= 2
    requires t.lowSeen <==> low || exists j :: 0 <= j < |h| - 1 && Discharges(h[j])
    requires t.chargingSamples > 0 <==> |h| > 1 && Charges(low, h, |h| - 2)
    ensures var n := t.After(h[|h| - 1]);
      && (n.lowSeen <==> LowBy(low, h, |h| - 1))
      && (n.chargingSamples > 0 <==> Charges(low, h, |h| - 1))
      && (n.chargingSamples == 2 <==> Recharged(low, h, |h| - 1))
      && n.finalized == (t.finalized || Recharged(low, h, |h| - 1))
      && n.armed == (t.armed && !Recharged(low, h, |h| - 1))
  {
    var i := |h| - 1;
    assert Discharges(h[i]) ==> LowBy(low, h, i);
    assert t.lowSeen ==> LowBy(low, h, i);
  }

  /**
   From any flags without a pending charge: low was seen exactly if some sample discharged a nearly empty battery, and
   recording ends exactly at two consecutive charging samples after that.
   */
  lemma {:induction false} StatusExactly(start: Status, h: seq<Sample>)
    requires start.chargingSamples == 0
    ensures var t, low := StatusRun(start, h), start.lowSeen;
      && (t.lowSeen <==> low || exists j :: 0 <= j < |h| && Discharges(h[j]))
      && (t.finalized <==> start.finalized || exists i :: 0 <= i < |h| && Recharged(low, h, i))
      && t.armed == (start.armed && !exists i :: 0 <= i < |h| && Recharged(low, h, i))
      && (t.chargingSamples > 0 <==> h != [] && Charges(low, h, |h| - 1))
  {
    if h != [] {
      var n, low := |h| - 1, start.lowSeen;
      var front, s := h[..n], h[n];
      StatusExactly(start, front);
      forall i: nat | i < n
        ensures Recharged(low, front, i) == Recharged(low, h, i) && Charges(low, front, i) == Charges(low, h, i)
      {
        PrefixSame(low, h, n, i);
      }
      assert forall j :: 0 <= j < n ==> front[j] == h[j];
      LastStep(StatusRun(start, front), low, h);
    }
  }

  predicate LastValid(h: seq<Sample>, i: nat) {
    i < |h| && h[i].flags % 2 == 1 && forall j :: i < j < |h| ==> h[j].flags % 2 == 0
  }

  /** The last sample's clock is remembered, and whether the last valid one was low; all is unsaved after a sample. */
  lemma {:induction false} MarksExactly(start: Status, h: seq<Sample>)
    requires start.chargingSamples == 0
    ensures var t := StatusRun(start, h);
      && (h != [] ==> t.sampled && t.dirty && t.lastSampleMs == h[|h| - 1].monotonicMs)
      && (forall i :: 0 <= i < |h| && LastValid(h, i) ==> t.lastLow == (h[i].soc <= 15 || h[i].voltageMv <= 3500))
      && ((forall i :: 0 <= i < |h| ==> h[i].flags % 2 == 0) ==> t.lastLow == start.lastLow)
      && t.checkpointed == start.checkpointed && t.lastCheckpointMs == start.lastCheckpointMs
  {
    if h != [] {
      var front := h[..|h| - 1];
      MarksExactly(start, front);
      forall i | 0 <= i < |front|
        ensures LastValid(h, i) ==> LastValid(front, i)
      {
        if LastValid(h, i) { assert forall j :: i < j < |front| ==> front[j] == h[j]; }
      }
    }
  }
}
