/**
 Diagnostics of received frames: a leased filter on one source address and port, switched by requests, expiry and a
 service task, while receive calls of several tasks pass through two separate critical sections.
 */
module RxIngress {
  import opened Bytes

  const CAPACITY := 128
  const MAX_POP := 16

  datatype Classification = Invalid | NonIpv4 | Fragment | NonTcp | OtherTcp | Target

  datatype Record = Record(
    localUs: nat, ingressId: nat, src: nat, dst: nat, number: nat, ack: nat, netifResult: int, frameLength: nat,
    ipLength: nat, srcPort: nat, dstPort: nat, payload: int, flags: byte, ipHeader: nat, tcpHeader: nat, vlanTags: nat,
    classification: Classification)

  function Plain(localUs: nat, ingressId: nat, frameLength: nat): Record {
    Record(localUs, ingressId, 0, 0, 0, 0, 0, frameLength, 0, 0, 0, 0, 0, 0, 0, 0, Invalid)
  }

  function Be16(f: seq<byte>, p: nat): nat
    requires p + 2 <= |f|
  {
    var high: nat, low: nat := f[p], f[p + 1];
    256 * high + low
  }

  function Be32(f: seq<byte>, p: nat): nat
    requires p + 4 <= |f|
  {
    0x1_0000 * Be16(f, p) + Be16(f, p + 2)
  }

  predicate IsTag(kind: nat) {
    kind == 0x8100 || kind == 0x88a8
  }

  /** Behind at most two tags: where the payload starts, its type and the number of tags. */
  function Untag(f: seq<byte>, at: nat, kind: nat, tags: nat): (nat, nat, nat, bool)
    requires at <= |f| && tags <= 2
    decreases 2 - tags
  {
    if !IsTag(kind) then (at, kind, tags, true)
    else if tags == 2 || |f| - at < 4 then (at, kind, tags, false)
    else Untag(f, at + 4, Be16(f, at + 2), tags + 1)
  }

  lemma UntagInside(f: seq<byte>, at: nat, kind: nat, tags: nat)
    requires at <= |f| && tags <= 2
    ensures at <= Untag(f, at, kind, tags).0 <= |f|
    decreases 2 - tags
  {
  }

  function WithTcp(f: seq<byte>, at: nat, rest: nat, src: nat, port: nat, r: Record): Record
    requires at + rest <= |f|
  {
    if rest < 20 then r.(classification := Invalid)
    else
      var th := f[at + 12] / 16 * 4;
      if th < 20 || th > 60 || th > rest then r.(classification := Invalid)
      else
        var t := r.(srcPort := Be16(f, at), dstPort := Be16(f, at + 2), number := Be32(f, at + 4),
          ack := Be32(f, at + 8), flags := f[at + 13], tcpHeader := th, payload := rest - th);
        t.(classification := if t.src == src && t.srcPort == port then Target else OtherTcp)
  }

  function WithIp(f: seq<byte>, at: nat, src: nat, port: nat, r: Record): Record
    requires at <= |f|
  {
    if |f| - at < 20 || f[at] / 16 != 4 then r.(classification := Invalid)
    else
      var ih, total := f[at] % 16 * 4, Be16(f, at + 2);
      if ih < 20 || ih > 60 || total < ih || total > |f| - at then r.(classification := Invalid)
      else
        var t := r.(src := Be32(f, at + 12), dst := Be32(f, at + 16), ipLength := total, ipHeader := ih);
        if Be16(f, at + 6) % 0x4000 != 0 then t.(classification := Fragment)
        else if f[at + 9] != 6 then t.(classification := NonTcp)
        else WithTcp(f, at + ih, total - ih, src, port, t)
  }

  /** The header fields of a frame and what it is to the filter; every read stays inside the frame. */
  function Parse(f: seq<byte>, src: nat, port: nat, r: Record): Record {
    if |f| < 14 then r.(classification := Invalid)
    else
      var (at, kind, tags, ok) := Untag(f, 14, Be16(f, 12), 0);
      UntagInside(f, 14, Be16(f, 12), 0);
      var t := r.(vlanTags := tags);
      if !ok then t.(classification := Invalid)
      else if kind != 0x800 then t.(classification := NonIpv4)
      else WithIp(f, at, src, port, t)
  }

  /** Only frames of the filtered source are targets, and their payload fits behind both headers. */
  lemma TargetMatches(f: seq<byte>, src: nat, port: nat, r: Record)
    requires Parse(f, src, port, r).classification == Target
    ensures var t := Parse(f, src, port, r);
      && t.src == src && t.srcPort == port && t.payload >= 0
      && t.ipHeader + t.tcpHeader + t.payload == t.ipLength <= |f| - 14 - 4 * t.vlanTags
      && 20 <= t.ipHeader <= 60 && 20 <= t.tcpHeader <= 60 && t.vlanTags <= 2
  {
    UntagTags(f, 14, Be16(f, 12), 0);
  }

  lemma UntagTags(f: seq<byte>, at: nat, kind: nat, tags: nat)
    requires at <= |f| && tags <= 2
    ensures var u := Untag(f, at, kind, tags); tags <= u.2 <= 2 && u.0 == at + 4 * (u.2 - tags)
    decreases 2 - tags
  {
  }

  // ----- the ring

  function Least(a: nat, b: nat): nat {
    if a < b then a else b
  }

  /** Place of the i-th oldest record. */
  function Slot(head: nat, i: nat): (r: nat)
    requires head < CAPACITY && i <= CAPACITY
    ensures r == (head + i) % CAPACITY < CAPACITY
  {
    if head + i < CAPACITY then head + i else head + i - CAPACITY
  }

  /** What a circular buffer holds, oldest first. */
  function Unrolled(rows: seq<Record>, head: nat, count: nat): (r: seq<Record>)
    requires |rows| == CAPACITY && head < CAPACITY && count <= CAPACITY
    ensures |r| == count && forall i :: 0 <= i < count ==> r[i] == rows[Slot(head, i)]
  {
    seq(count, i requires 0 <= i < count => rows[Slot(head, i)])
  }

  lemma TakeUnrolled(rows: seq<Record>, head: nat, count: nat)
    requires |rows| == CAPACITY && head < CAPACITY && 0 < count <= CAPACITY
    ensures Unrolled(rows, head, count) == [rows[head]] + Unrolled(rows, Slot(head, 1), count - 1)
  {
    forall k | 0 < k < count
      ensures Unrolled(rows, head, count)[k] == Unrolled(rows, Slot(head, 1), count - 1)[k - 1]
    {
      assert Slot(head, k) == Slot(Slot(head, 1), k - 1);
    }
  }

  lemma PushUnrolled(rows: seq<Record>, head: nat, count: nat, r: Record)
    requires |rows| == CAPACITY && head < CAPACITY && count < CAPACITY
    ensures Unrolled(rows[Slot(head, count) := r], head, count + 1) == Unrolled(rows, head, count) + [r]
  {
    forall k | 0 <= k < count
      ensures Slot(head, k) != Slot(head, count)
    {
    }
  }

  /** The front record is the next of what was there, and behind it comes the rest. */
  lemma FrontOf(rows: seq<Record>, head: nat, was: seq<Record>, i: nat)
    requires |rows| == CAPACITY && head < CAPACITY && i < |was| <= CAPACITY
    requires Unrolled(rows, head, |was| - i) == was[i..]
    ensures rows[head] == was[i] && was[..i] + [rows[head]] == was[..i + 1]
    ensures Unrolled(rows, Slot(head, 1), |was| - (i + 1)) == was[i + 1..]
  {
    TakeUnrolled(rows, head, |was| - i);
    assert was[i..][0] == was[i] && was[i..][1..] == was[i + 1..];
    var rest := Unrolled(rows, Slot(head, 1), |was| - i - 1);
    assert rest == ([rows[head]] + rest)[1..];
  }

  class MetadataRing {
    const records: array<Record>
    var head: nat
    var count: nat

    ghost predicate Valid()
      reads this
    {
      records.Length == CAPACITY && head < CAPACITY && count <= CAPACITY
    }

    ghost function Contents(): (r: seq<Record>)
      requires Valid()
      reads this, records
      ensures |r| == count
    {
      Unrolled(records[..], head, count)
    }

    constructor ()
      ensures Valid() && Contents() == [] && fresh(records)
    {
      records := new Record[CAPACITY](_ => Plain(0, 0, 0));
      head, count := 0, 0;
    }

    method Clear()
      requires Valid()
      modifies this
      ensures Valid() && Contents() == []
    {
      head, count := 0, 0;
    }

    /** A full ring keeps what it has. */
    method Push(r: Record) returns (kept: bool)
      requires Valid()
      modifies this, records
      ensures Valid() && kept == (|old(Contents())| < CAPACITY)
      ensures Contents() == old(Contents()) + if kept then [r] else []
    {
      if count == CAPACITY { return false; }
      PushUnrolled(records[..], head, count, r);
      ghost var was := records[..];
      records[Slot(head, count)] := r;
      assert records[..] == was[Slot(head, count) := r];
      count := count + 1;
      return true;
    }

    /** The oldest records in order, at most as many as asked for and never more than 16. */
    method Pop(capacity: nat) returns (out: seq<Record>)
      requires Valid()
      modifies this
      ensures Valid() && old(Contents()) == out + Contents()
      ensures |out| == Least(Least(capacity, MAX_POP), |old(Contents())|)
    {
      var cap: nat := if capacity > MAX_POP then MAX_POP else capacity;
      var n: nat := if cap < count then cap else count;
      out := [];
      ghost var rows, was := records[..], Contents();
      var first: nat := head;
      for i := 0 to n
        invariant Valid() && count == old(count) && 0 <= first < CAPACITY
        invariant out == was[..i] && Unrolled(rows, first, |was| - i) == was[i..]
      {
        FrontOf(rows, first, was, i);
        out := out + [records[first]];
        first := Slot(first, 1);
      }
      assert was == was[..n] + was[n..];
      head := first;
      count := count - n;
    }
  }
}
