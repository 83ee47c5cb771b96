/** The receive filter's globals, changed in place by its critical sections; the ghost field follows RxLease. */
module RxFilter {
  import opened Bytes
  import opened RxIngress
  import opened RxLease

  class Filter {
    var enabled: bool
    var pending: bool
    var generation: nat
    var wish: Wish
    var active: bool
    var queued: bool
    var deadline: u32
    var src: u32
    var port: u16
    var counts: Counts
    const ring: MetadataRing
    ghost var world: State

    ghost predicate Valid()
      reads this, ring, ring.records
    {
      && ring.Valid() && ring.Contents() == world.ring
      && enabled == world.enabled && pending == world.pending && generation == world.generation && wish == world.wish
      && active == world.active && queued == world.queued && deadline == world.deadline && src == world.src
      && port == world.port && counts == world.counts
    }

    constructor ()
      ensures Valid() && world == Init() && fresh(ring) && fresh(ring.records)
    {
      enabled, pending, generation, wish := false, false, 0, Wish(false, 0, 0, 0);
      active, queued, deadline, src, port, counts := false, false, 0, 0, 0, NoCounts();
      ring := new MetadataRing();
      world := Init();
    }

    method Request(w: Wish) returns (ok: bool)
      requires Valid()
      modifies this
      ensures Valid() && world == Next(old(world), Step.Request(w))
      ensures ok == (w.on ==> ValidTarget(w.src, w.port, w.ttl)) && (ok ==> !enabled)
    {
      ok := !w.on || ValidTarget(w.src, w.port, w.ttl);
      if ok {
        enabled, generation, wish, active, queued, pending := false, generation + 1, w, false, true, true;
      }
      world := Next(world, Step.Request(w));
    }

    /** The service's first section: expiry, then the pending wish. */
    method ServiceTakes(now: u32) returns (taken: Option<Taken>)
      requires Valid() && Enabled(world, Take(now))
      modifies this
      ensures Valid() && world == Next(old(world), Take(now)) && taken == world.taken
    {
      taken := None;
      if pending || enabled {
        if enabled && !Alive(now, deadline) {
          enabled, active, generation := false, false, generation + 1;
        }
        if pending {
          pending, queued := false, false;
          if wish.on { taken := Some(Taken(generation, wish.src, wish.port, wish.ttl, now)); }
        }
      }
      world := Next(world, Take(now));
    }

    /** The service's second section: the lease starts unless something was requested in between. */
    method ServiceSetsUp(k: Taken, handle: bool)
      requires Valid() && world.taken == Some(k)
      modifies this, ring
      ensures Valid() && world == Next(old(world), SetUp(handle))
    {
      if k.generation == generation {
        counts, src, port, queued := NoCounts(), k.src, k.port, false;
        deadline := (k.now + k.ttl * 1000) % TWO32;
        ring.Clear();
        active, enabled := handle, handle;
      }
      world := Next(world, SetUp(handle));
    }

    predicate Leased(at: u32)
      reads this
    {
      enabled && Alive(at, deadline)
    }

    method Observe(id: nat, us: nat, watched: bool, frame: Option<seq<byte>>, length: nat) returns (c: Call)
      requires Valid() && id !in world.calls && Leased(us / 1000 % TWO32)
      modifies this`counts, this`world
      ensures Valid() && world == Next(old(world), EnterCall(id, us, watched, frame, length))
      ensures id in world.calls && world.calls[id] == c
    {
      counts := counts.(seen := counts.seen + 1);
      if watched { counts := counts.(sta := counts.sta + 1); }
      c := Observed(generation, src, port, counts.seen, EnterCall(id, us, watched, frame, length));
      world := Next(world, EnterCall(id, us, watched, frame, length));
    }

    /** The first section of a receive call and the parse behind it; None is a call that observes nothing. */
    method Enter(id: nat, us: nat, watched: bool, frame: Option<seq<byte>>, length: nat) returns (call: Option<Call>)
      requires Valid() && id !in world.calls
      modifies this
      ensures Valid() && world == Next(old(world), EnterCall(id, us, watched, frame, length))
      ensures match call case Some(c) => id in world.calls && world.calls[id] == c case None => id !in world.calls
    {
      if Leased(us / 1000 % TWO32) {
        var c := Observe(id, us, watched, frame, length);
        return Some(c);
      }
      enabled, active := false, false;
      world := Next(world, EnterCall(id, us, watched, frame, length));
      return None;
    }

    /** What is counted for a call that is still of the running lease. */
    method Count(c: Call, rc: int)
      requires ring.Valid()
      modifies this`counts, ring, ring.records
      ensures ring.Valid()
      ensures counts == Tallied(CountResult(old(counts), rc), c, |old(ring.Contents())|)
      ensures ring.Contents() == old(ring.Contents())
        + if Kept(c, |old(ring.Contents())|) then [c.record.(netifResult := rc)] else []
    {
      counts := CountResult(counts, rc);
      if c.watched {
        if c.record.classification == Invalid {
          counts := counts.(invalid := counts.invalid + 1);
        } else if c.record.classification != Target {
          counts := counts.(filtered := counts.filtered + 1);
        } else {
          counts := counts.(target := counts.target + 1);
          var kept := ring.Push(c.record.(netifResult := rc));
          if !kept { counts := counts.(ringDrops := counts.ringDrops + 1); }
        }
      }
    }

    method Keep(id: nat, c: Call, after: u32, rc: int)
      requires Valid() && id in world.calls && world.calls[id] == c && Leased(after) && c.generation == generation
      modifies this, ring, ring.records
      ensures Valid() && world == Next(old(world), LeaveCall(id, after, rc))
    {
      Count(c, rc);
      world := Next(world, LeaveCall(id, after, rc));
    }

    /** The second section: only a call of the running lease is counted. */
    method Leave(id: nat, c: Call, after: u32, rc: int)
      requires Valid() && id in world.calls && world.calls[id] == c
      modifies this, ring, ring.records
      ensures Valid() && world == Next(old(world), LeaveCall(id, after, rc))
    {
      if Leased(after) && c.generation == generation {
        Keep(id, c, after, rc);
        return;
      }
      if c.generation == generation { enabled, active := false, false; }
      world := Next(world, LeaveCall(id, after, rc));
    }

    method Drain(capacity: nat) returns (out: seq<Record>)
      requires Valid()
      modifies this, ring
      ensures Valid() && world == Next(old(world), Step.Drain(capacity))
      ensures world.drained == old(world).drained + out
    {
      ghost var was := world.ring;
      out := ring.Pop(capacity);
      assert was[..|out|] == out && was[|out|..] == ring.Contents();
      world := Next(world, Step.Drain(capacity));
    }
  }
}
