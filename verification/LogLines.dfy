/** Which lines of a log yield an event. */
module LogLines {
  import opened Bytes
  import opened LocalUsage

  /** A count whose total and use fit 53 bits. */
  predicate Counts(n: Note) {
    n.Count? && 0 <= n.total <= 0x1f_ffff_ffff_ffff && 0 <= n.last <= 0x1f_ffff_ffff_ffff
  }

  /** Not older than thirty days and not more than five minutes ahead. */
  predicate Timely(e: Event, now: int) {
    now - 2592000 <= e.epoch <= now + 300
  }

  /** A complete line ends with its only newline. */
  predicate IsLine(line: string) {
    line != [] && line[|line| - 1] == '\n' && forall i :: 0 <= i < |line| - 1 ==> line[i] != '\n'
  }

  function Joined(lines: seq<string>): string {
    if lines == [] then [] else lines[0] + Joined(lines[1..])
  }

  /** j is the last line before k with a plausible count. */
  predicate LastCount(read: string -> Note, lines: seq<string>, k: nat, j: nat)
    requires k <= |lines|
  {
    && j < k && Counts(read(lines[j]))
    && forall i :: j < i < k ==> !Counts(read(lines[i]))
  }

  /** The last plausible count before line k had the same total. */
  predicate Repeats(read: string -> Note, lines: seq<string>, k: nat)
    requires k < |lines| && Counts(read(lines[k]))
  {
    exists j :: 0 <= j < k && LastCount(read, lines, k, j) && read(lines[j]).total == read(lines[k]).total
  }

  /** A line yields an event if its count is plausible, its total is new, something was used, and it is recent. */
  predicate Yields(read: string -> Note, now: int, lines: seq<string>, k: nat) {
    && k < |lines| && Counts(read(lines[k])) && !Repeats(read, lines, k) && read(lines[k]).last != 0
    && Timely(EventAt(read, lines, k), now)
  }

  function EventAt(read: string -> Note, lines: seq<string>, k: nat): Event
    requires k < |lines| && read(lines[k]).Count?
  {
    var n := read(lines[k]);
    Event(n.id, n.epoch, n.last)
  }

  /** The events of the lines from k on. */
  function Yielded(read: string -> Note, now: int, lines: seq<string>, k: nat): seq<Event>
    requires k <= |lines|
    decreases |lines| - k
  {
    if k == |lines| then []
    else
      (if Yields(read, now, lines, k) then [EventAt(read, lines, k)] else []) + Yielded(read, now, lines, k + 1)
  }

  predicate IsPrevious(read: string -> Note, lines: seq<string>, k: nat, previous: Option<int>)
    requires k <= |lines|
  {
    match previous
    case Some(total) => exists j :: 0 <= j < k && LastCount(read, lines, k, j) && read(lines[j]).total == total
    case None => forall j :: 0 <= j < k ==> !Counts(read(lines[j]))
  }

  lemma OneLast(read: string -> Note, lines: seq<string>, k: nat, i: nat, j: nat)
    requires k <= |lines| && LastCount(read, lines, k, i) && LastCount(read, lines, k, j)
    ensures i == j
  {
  }

  lemma StepYields(read: string -> Note, now: int, lines: seq<string>, k: nat, previous: Option<int>)
    requires k < |lines| && IsPrevious(read, lines, k, previous)
    ensures Step(read, now, lines[k], previous).0 ==
      if Yields(read, now, lines, k) then [EventAt(read, lines, k)] else []
  {
    if Counts(read(lines[k])) {
      if previous.Some? {
        var j: nat :| j < k && LastCount(read, lines, k, j) && read(lines[j]).total == previous.value;
        forall i: nat | i < k && LastCount(read, lines, k, i) ensures i == j { OneLast(read, lines, k, i, j); }
      }
      assert Repeats(read, lines, k) <==> previous == Some(read(lines[k]).total);
    }
  }

  lemma StepPrevious(read: string -> Note, now: int, lines: seq<string>, k: nat, previous: Option<int>)
    requires k < |lines| && IsPrevious(read, lines, k, previous)
    ensures IsPrevious(read, lines, k + 1, Step(read, now, lines[k], previous).1)
  {
    if Counts(read(lines[k])) {
      assert LastCount(read, lines, k + 1, k);
    } else if previous.Some? {
      var j: nat :| j < k && LastCount(read, lines, k, j) && read(lines[j]).total == previous.value;
      assert LastCount(read, lines, k + 1, j);
    }
  }

  lemma {:induction false} LineEndsAt(text: string, offset: nat, end: nat)
    requires offset < end <= |text| && IsLine(text[offset..end])
    ensures LineEnd(text, offset) == Some(end)
    decreases end - offset
  {
    var line := text[offset..end];
    assert text[offset] == line[0] && text[end - 1] == line[|line| - 1];
    if offset + 1 < end {
      assert text[offset + 1..end] == line[1..];
      LineEndsAt(text, offset + 1, end);
    }
  }

  lemma {:induction false} NoLineEnd(text: string, offset: nat)
    requires offset <= |text| && forall i :: offset <= i < |text| ==> text[i] != '\n'
    ensures LineEnd(text, offset) == None
    decreases |text| - offset
  {
    if offset < |text| {
      NoLineEnd(text, offset + 1);
    }
  }

  predicate AllLines(lines: seq<string>) {
    forall i :: 0 <= i < |lines| ==> IsLine(lines[i])
  }

  lemma {:induction false} ScanLines(read: string -> Note, now: int, lines: seq<string>, k: nat, before: string,
      tail: string, text: string, previous: Option<int>)
    requires k <= |lines| && AllLines(lines) && '\n' !in tail && text == before + Joined(lines[k..]) + tail
    requires IsPrevious(read, lines, k, previous)
    ensures var p := Scan(read, now, text, |before|, previous);
      && p.events == Yielded(read, now, lines, k) && p.offset == |text| - |tail|
      && IsPrevious(read, lines, |lines|, p.previous)
    decreases |lines| - k
  {
    if k == |lines| {
      assert Joined(lines[k..]) == [];
      assert text == before + tail;
      NoLineEnd(text, |before|);
    } else {
      var line, rest := lines[k], Joined(lines[k + 1..]);
      assert Joined(lines[k..]) == line + rest by { assert lines[k..][1..] == lines[k + 1..]; }
      assert text == (before + line) + rest + tail;
      assert text[|before|..|before + line|] == line;
      LineEndsAt(text, |before|, |before + line|);
      ScanLine(read, now, text, |before|, previous, |before + line|);
      StepYields(read, now, lines, k, previous);
      StepPrevious(read, now, lines, k, previous);
      ScanLines(read, now, lines, k + 1, before + line, tail, text, Step(read, now, line, previous).1);
    }
  }

  /**
   One pass over a log, a partial last line aside, emits the events of exactly the lines that yield one, in order, and
   ends behind the last complete line with the total of the last plausible count: a repeated total yields nothing, a
   count of no use yields nothing but is remembered, and anything else changes nothing.
   */
  lemma PassExactly(read: string -> Note, now: int, lines: seq<string>, tail: string)
    requires AllLines(lines) && '\n' !in tail
    ensures var p := OnePass(read, now, Joined(lines) + tail);
      && p.events == Yielded(read, now, lines, 0) && p.offset == |Joined(lines)|
      && IsPrevious(read, lines, |lines|, p.previous)
  {
    assert lines[0..] == lines;
    assert Joined(lines) + tail == [] + Joined(lines[0..]) + tail;
    ScanLines(read, now, lines, 0, [], tail, Joined(lines) + tail, None);
  }

  predicate YieldedBy(read: string -> Note, now: int, lines: seq<string>, i: nat, e: Event) {
    Yields(read, now, lines, i) && e == EventAt(read, lines, i)
  }

  lemma FirstOrLater(read: string -> Note, now: int, lines: seq<string>, k: nat, e: Event)
    requires k < |lines|
    ensures e in Yielded(read, now, lines, k) <==>
      YieldedBy(read, now, lines, k, e) || e in Yielded(read, now, lines, k + 1)
  {
  }

  lemma {:induction false} YieldedExactly(read: string -> Note, now: int, lines: seq<string>, k: nat, e: Event)
    requires k <= |lines|
    ensures e in Yielded(read, now, lines, k) <==>
      exists i :: k <= i < |lines| && YieldedBy(read, now, lines, i, e)
    decreases |lines| - k
  {
    if k < |lines| {
      FirstOrLater(read, now, lines, k, e);
      YieldedExactly(read, now, lines, k + 1, e);
    }
  }

  /** Every log is complete lines and a partial one. */
  lemma {:induction false} EveryLog(text: string) returns (lines: seq<string>, tail: string)
    ensures AllLines(lines) && '\n' !in tail && text == Joined(lines) + tail
    decreases |text|
  {
    if '\n' !in text {
      lines, tail := [], text;
    } else {
      lines, tail := EveryLog(text[1..]);
      assert text == [text[0]] + text[1..];
      if text[0] == '\n' {
        lines := [[text[0]]] + lines;
      } else {
        assert Joined([]) + tail == tail;
        var first := [text[0]] + lines[0];
        lines := [first] + lines[1..];
      }
    }
  }
}
