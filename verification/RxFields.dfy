/**
 What the receive filter makes of a frame: its class in terms of the frame's bytes, its fields in terms of the values
 it was laid out from, and the record a running lease keeps of it.
 */
module RxFields {
  import opened Bytes
  import Frames
  import opened RxIngress
  import opened RxLease

  // ----- the class of any bytes

  predicate TagKind(v: nat) {
    v == 0x8100 || v == 0x88A8
  }

  /** The type field k tags in. */
  function Kind(f: seq<byte>, k: nat): nat
    requires 14 + 4 * k <= |f|
  {
    var high: nat, low: nat := f[12 + 4 * k], f[13 + 4 * k];
    256 * high + low
  }

  /** Behind n tags, at most two, follows something else. */
  predicate Behind(f: seq<byte>, n: nat) {
    && n <= 2 && 14 + 4 * n <= |f| && !TagKind(Kind(f, n))
    && forall k: nat :: k < n ==> TagKind(Kind(f, k))
  }

  function Total(f: seq<byte>, l: nat): nat
    requires l + 20 <= |f|
  {
    var high: nat, low: nat := f[l + 2], f[l + 3];
    256 * high + low
  }

  function HeaderBytes(f: seq<byte>, l: nat): nat
    requires l < |f|
  {
    f[l] % 16 * 4
  }

  /** A whole IPv4 header at l, of a datagram that fits the frame. */
  predicate HasIp(f: seq<byte>, l: nat) {
    && l + 20 <= |f| && f[l] / 16 == 4 && f[l] % 16 >= 5
    && HeaderBytes(f, l) <= Total(f, l) && l + Total(f, l) <= |f|
  }

  /** Neither an offset nor more fragments: all but the two top bits are zero. */
  predicate Whole(f: seq<byte>, l: nat)
    requires l + 20 <= |f|
  {
    f[l + 6] % 64 == 0 && f[l + 7] == 0
  }

  /** The fixed TCP header and its options fit the datagram. */
  predicate HasTcp(f: seq<byte>, l: nat)
    requires HasIp(f, l)
  {
    var at, room := l + HeaderBytes(f, l), Total(f, l) - HeaderBytes(f, l);
    room >= 20 && f[at + 12] / 16 >= 5 && f[at + 12] / 16 * 4 <= room
  }

  predicate From(f: seq<byte>, l: nat, src: nat, port: nat)
    requires HasIp(f, l) && HasTcp(f, l)
  {
    var at := l + HeaderBytes(f, l);
    Frames.Shows32(f, l + 12, src) && Frames.Shows16(f, at, port)
  }

  predicate WholeTcp(f: seq<byte>, l: nat) {
    HasIp(f, l) && Whole(f, l) && f[l + 9] == 6 && HasTcp(f, l)
  }

  lemma {:induction false} UntagBehind(f: seq<byte>, n: nat, k: nat)
    requires Behind(f, n) && k <= n
    ensures Untag(f, 14 + 4 * k, Kind(f, k), k) == (14 + 4 * n, Kind(f, n), n, true)
    decreases n - k
  {
    if k < n {
      UntagBehind(f, n, k + 1);
    }
  }

  lemma {:induction false} UntagFails(f: seq<byte>, k: nat)
    requires k <= 2 && 14 + 4 * k <= |f|
    requires (forall n :: !Behind(f, n)) && forall j: nat :: j < k ==> TagKind(Kind(f, j))
    ensures !Untag(f, 14 + 4 * k, Kind(f, k), k).3
    decreases 2 - k
  {
    assert !Behind(f, k);
    if k < 2 && |f| - (14 + 4 * k) >= 4 { UntagFails(f, k + 1); }
  }

  lemma IpClass(f: seq<byte>, l: nat, src: nat, port: nat, r: Record)
    requires l <= |f|
    ensures var t := WithIp(f, l, src, port, r).classification;
      && (t == Fragment <==> HasIp(f, l) && !Whole(f, l))
      && (t == NonTcp <==> HasIp(f, l) && Whole(f, l) && f[l + 9] != 6)
      && (t == Target <==> WholeTcp(f, l) && From(f, l, src, port))
      && (t == OtherTcp <==> WholeTcp(f, l) && !From(f, l, src, port))
      && t != NonIpv4
  {
  }

  /** Exactly when a frame is of each class: it is invalid if it is of none of the others. */
  lemma ClassExactly(f: seq<byte>, n: nat, src: nat, port: nat, r: Record)
    requires Behind(f, n)
    ensures var t, l := Parse(f, src, port, r).classification, 14 + 4 * n; var ip := Kind(f, n) == 0x800;
      && (t == NonIpv4 <==> !ip)
      && (t == Fragment <==> ip && HasIp(f, l) && !Whole(f, l))
      && (t == NonTcp <==> ip && HasIp(f, l) && Whole(f, l) && f[l + 9] != 6)
      && (t == Target <==> ip && WholeTcp(f, l) && From(f, l, src, port))
      && (t == OtherTcp <==> ip && WholeTcp(f, l) && !From(f, l, src, port))
  {
    UntagBehind(f, n, 0);
    IpClass(f, 14 + 4 * n, src, port, r.(vlanTags := n));
  }

  /** Too short a frame, or one with a third tag or a tag cut short. */
  lemma NoPayload(f: seq<byte>, src: nat, port: nat, r: Record)
    requires forall n :: !Behind(f, n)
    ensures Parse(f, src, port, r).classification == Invalid
  {
    if |f| >= 14 { UntagFails(f, 0); }
  }

  // ----- the fields of a laid-out frame

  predicate Tagged(f: Frames.Frame) {
    |f.tags| <= 2 && forall t :: t in f.tags ==> TagKind(t.kind)
  }

  /** What the datagram's length allows to be read, and what the frame is. */
  function ClassOf(f: Frames.Frame, src: nat, port: nat): Classification {
    if f.total < f.IpHeader() || f.IpHeader() + 20 + |f.rest| < f.total then Invalid
    else if f.fragment % 0x4000 != 0 then Fragment
    else if f.protocol != 6 then NonTcp
    else if f.total < f.IpHeader() + 20 || f.offset < 5 || f.total < f.IpHeader() + f.TcpHeader() then Invalid
    else if f.src == src && f.sport == port then Target
    else OtherTcp
  }

  /** The addresses of a whole IPv4 header, and the rest of a whole TCP header; otherwise nothing of it. */
  function RecordOf(f: Frames.Frame, src: nat, port: nat, r: Record): Record {
    var t := r.(vlanTags := |f.tags|, classification := ClassOf(f, src, port));
    if f.total < f.IpHeader() || f.IpHeader() + 20 + |f.rest| < f.total then t
    else
      var u := t.(src := f.src, dst := f.dst, ipLength := f.total, ipHeader := f.IpHeader());
      if !u.classification.Target? && !u.classification.OtherTcp? then u
      else
        u.(srcPort := f.sport, dstPort := f.dport, number := f.number, ack := f.ack, flags := f.flags % 256,
           tcpHeader := f.TcpHeader(), payload := f.total - f.IpHeader() - f.TcpHeader())
  }

  lemma Be16Shows(s: seq<byte>, p: nat, v: nat)
    requires Frames.Shows16(s, p, v)
    ensures Be16(s, p) == v
  {
  }

  lemma Be32Shows(s: seq<byte>, p: nat, v: nat)
    requires Frames.Shows32(s, p, v)
    ensures Be32(s, p) == v
  {
  }

  lemma IpReads(f: Frames.Frame)
    requires f.Fits()
    ensures var s, l := Frames.Laid(f), f.L();
      && s[l] / 16 == 4 && s[l] % 16 * 4 == f.IpHeader() && Be16(s, l + 2) == f.total && Be16(s, l + 6) == f.fragment
      && s[l + 9] == f.protocol && Be32(s, l + 12) == f.src && Be32(s, l + 16) == f.dst
  {
    Frames.LaidIp(f);
    var s, l := Frames.Laid(f), f.L();
    Be16Shows(s, l + 2, f.total);
    Be16Shows(s, l + 6, f.fragment);
    Be32Shows(s, l + 12, f.src);
    Be32Shows(s, l + 16, f.dst);
  }

  lemma TcpReads(f: Frames.Frame)
    requires f.Fits()
    ensures var s, b := Frames.Laid(f), f.Base();
      && Be16(s, b) == f.sport && Be16(s, b + 2) == f.dport && Be32(s, b + 4) == f.number && Be32(s, b + 8) == f.ack
      && s[b + 12] / 16 == f.offset && s[b + 13] == f.flags % 256
  {
    Frames.LaidTcp(f);
    var s, b := Frames.Laid(f), f.Base();
    Be16Shows(s, b, f.sport);
    Be16Shows(s, b + 2, f.dport);
    Be32Shows(s, b + 4, f.number);
    Be32Shows(s, b + 8, f.ack);
  }

  lemma TcpIs(f: Frames.Frame, src: nat, port: nat, r: Record)
    requires f.Fits() && f.IpHeader() <= f.total <= f.IpHeader() + 20 + |f.rest|
    requires f.fragment % 0x4000 == 0 && f.protocol == 6
    ensures var t := r.(src := f.src, dst := f.dst, ipLength := f.total, ipHeader := f.IpHeader());
      WithTcp(Frames.Laid(f), f.Base(), f.total - f.IpHeader(), src, port, t).(vlanTags := |f.tags|)
        == RecordOf(f, src, port, r)
  {
    TcpReads(f);
  }

  lemma IpIs(f: Frames.Frame, src: nat, port: nat, r: Record)
    requires f.Fits() && r.vlanTags == |f.tags|
    ensures WithIp(Frames.Laid(f), f.L(), src, port, r) == RecordOf(f, src, port, r)
  {
    IpReads(f);
    if f.IpHeader() <= f.total <= f.IpHeader() + 20 + |f.rest| && f.fragment % 0x4000 == 0 && f.protocol == 6 {
      TcpIs(f, src, port, r);
    }
  }

  lemma LaidBehind(f: Frames.Frame)
    requires f.Fits() && Tagged(f)
    ensures Behind(Frames.Laid(f), |f.tags|) && Kind(Frames.Laid(f), |f.tags|) == 0x800
  {
    forall k: nat | k <= |f.tags|
      ensures Kind(Frames.Laid(f), k) == Frames.KindAt(f, k)
    {
      Frames.LaidKind(f, k);
    }
  }

  /** For every frame laid out behind at most two tags, with any options, payload and field values. */
  lemma FieldsRecorded(f: Frames.Frame, src: nat, port: nat, r: Record)
    requires f.Fits() && Tagged(f)
    ensures Parse(Frames.Laid(f), src, port, r) == RecordOf(f, src, port, r)
  {
    LaidBehind(f);
    UntagBehind(Frames.Laid(f), |f.tags|, 0);
    IpIs(f, src, port, r.(vlanTags := |f.tags|));
  }

  // ----- what a running lease keeps

  /** From a request to its lease, if nothing comes between: it runs for its time, on its address and port, afresh. */
  lemma LeaseStarts(s: State, w: Wish, now: u32, at: u32)
    requires w.on && ValidTarget(w.src, w.port, w.ttl) && s.taken.None? && !s.refusing
    ensures var a := Next(s, Step.Request(w));
      && Enabled(a, Take(now)) && Enabled(Next(a, Take(now)), SetUp(true))
      && var t := Next(Next(a, Take(now)), SetUp(true));
        && t.enabled && t.src == w.src && t.port == w.port && t.ring == [] && t.counts == NoCounts()
        && (Alive(at, t.deadline) <==> (at - now - w.ttl * 1000) % TWO32 >= 0x8000_0000)
  {
  }

  /** A lease is alive for its time to live after it was set up, whatever the clock shows and wherever it wraps. */
  lemma AliveForItsTime(now: u32, ttl: u32, later: nat)
    requires 0 < ttl <= 120 && later < 0x4000_0000
    ensures Alive((now + later) % TWO32, (now + ttl * 1000) % TWO32) <==> later < ttl * 1000
  {
  }

  function CallFor(s: State, a: Step): Call
    requires a.EnterCall?
  {
    Observed(s.generation, s.src, s.port, s.counts.seen + 1, a)
  }

  /** The time, the number and the length, cut to sixteen bits, before anything is read of the frame. */
  function FreshRecord(s: State, a: Step): Record
    requires a.EnterCall?
  {
    Plain(a.us, s.counts.seen + 1, if a.length > 0xffff then 0xffff else a.length)
  }

  lemma {:induction false} CallInFlight(run: seq<Step>, a: Step, more: seq<Step>)
    requires Play(run).Some? && a.EnterCall? && Enabled(Play(run).value, a)
    requires Play(run).value.enabled && Alive(a.us / 1000 % TWO32, Play(run).value.deadline)
    requires Play(run + [a] + more).Some? && forall b :: b in more ==> !StepLeaves(b, a.id)
    ensures var t := Play(run + [a] + more).value;
      a.id in t.calls && t.calls[a.id] == CallFor(Play(run).value, a)
    decreases |more|
  {
    if more == [] {
      assert run + [a] + more == run + [a] && (run + [a])[..|run|] == run;
    } else {
      var front, last := more[..|more| - 1], more[|more| - 1];
      assert last in more && forall b :: b in front ==> b in more;
      assert (run + [a] + more)[..|run| + |more|] == run + [a] + front;
      CallInFlight(run, a, front);
      CallStays(Play(run + [a] + front).value, last, a.id);
    }
  }

  /**
   A frame of the leased address and port, received by the watched device under a live lease: if its call leaves while
   that lease still runs and the ring has room, exactly its record is added, with the values it was laid out from.
   */
  lemma TargetIsKept(run: seq<Step>, a: Step, more: seq<Step>, f: Frames.Frame, after: u32, rc: int)
    requires Play(run).Some? && a.EnterCall? && Enabled(Play(run).value, a)
    requires Play(run).value.enabled && Alive(a.us / 1000 % TWO32, Play(run).value.deadline)
    requires a.watched && f.Fits() && Tagged(f) && a.frame == Some(Frames.Laid(f)) && a.length == |Frames.Laid(f)|
    requires ClassOf(f, Play(run).value.src, Play(run).value.port) == Target
    requires Play(run + [a] + more).Some? && forall b :: b in more ==> !StepLeaves(b, a.id)
    requires var t := Play(run + [a] + more).value;
      t.enabled && t.generation == Play(run).value.generation && Alive(after, t.deadline) && |t.ring| < CAPACITY
    ensures var s, t := Play(run).value, Play(run + [a] + more).value;
      var r := FreshRecord(s, a);
      && Enabled(t, LeaveCall(a.id, after, rc))
      && var u := Next(t, LeaveCall(a.id, after, rc));
        && u.ring == t.ring + [RecordOf(f, s.src, s.port, r).(netifResult := rc)]
        && u.counts.target == t.counts.target + 1 && u.counts.ringDrops == t.counts.ringDrops
        && var k := u.ring[|t.ring|];
          && k.localUs == a.us && k.ingressId == s.counts.seen + 1 && k.netifResult == rc
          && k.frameLength == (if a.length > 0xffff then 0xffff else a.length)
  {
    var s := Play(run).value;
    CallInFlight(run, a, more);
    TargetCall(s, a, f);
    LeaveKeeps(Play(run + [a] + more).value, a.id, CallFor(s, a), after, rc);
  }

  lemma TargetCall(s: State, a: Step, f: Frames.Frame)
    requires a.EnterCall? && a.watched && f.Fits() && Tagged(f) && a.frame == Some(Frames.Laid(f))
    ensures var c := CallFor(s, a);
      && c.watched && c.generation == s.generation
      && c.record == RecordOf(f, s.src, s.port, FreshRecord(s, a))
  {
    FieldsRecorded(f, s.src, s.port, FreshRecord(s, a));
  }

  lemma LeaveKeeps(t: State, id: nat, c: Call, after: u32, rc: int)
    requires id in t.calls && t.calls[id] == c && c.watched && c.record.classification == Target
    requires t.enabled && t.generation == c.generation && Alive(after, t.deadline) && |t.ring| < CAPACITY
    ensures var u := Next(t, LeaveCall(id, after, rc));
      && u.ring == t.ring + [c.record.(netifResult := rc)]
      && u.counts.target == t.counts.target + 1 && u.counts.ringDrops == t.counts.ringDrops
  {
  }
}
