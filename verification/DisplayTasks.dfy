/**
 The display settings' globals behind their two locks, changed in place by the sections of the tasks; the ghost field
 follows DisplayService.
 */
module DisplayTasks {
  import opened Bytes
  import opened DisplaySettings
  import opened DisplayService
  import opened DisplayWrites

  /** The stages of an update that matter here. */
  datatype Stage = ReadyReboot | BootChecking | Complete | Other

  /** What the update and the boot selection look like to a writer, and whether the settings lock is free. */
  datatype Gates = Gates(
    busy: bool, healthPending: bool, copied: bool, imageVerified: bool, stage: Stage, valid: bool, lockFree: bool)

  /** No commit beside an update at work, a staged image, or an image not yet confirmed. */
  predicate Open(g: Gates) {
    && !(g.busy || g.healthPending) && g.copied && g.valid && g.lockFree
    && g.stage != ReadyReboot && g.stage != BootChecking && (g.imageVerified ==> g.stage.Complete?)
  }

  method CheckGates(g: Gates) returns (blocked: bool)
    ensures blocked == !Open(g)
  {
    if g.busy || g.healthPending { return true; }
    if !g.copied { return true; }
    if (g.imageVerified && !g.stage.Complete?) || g.stage == ReadyReboot || g.stage == BootChecking { return true; }
    if !g.valid { return true; }
    blocked := !g.lockFree;
  }

  class Display {
    const model: Model
    var loaded: bool
    var owner: Owner
    var ownerTask: Option<nat>
    ghost var world: State

    ghost predicate Valid()
      reads this, model
    {
      model.View() == world.settings && loaded == world.loaded && owner == world.owner && ownerTask == world.ownerTask
    }

    constructor (ghost flash: Flash)
      ensures Valid() && fresh(model) && world == Booted(flash, false)
    {
      model := new Model();
      loaded, owner, ownerTask := false, NoOwner, None;
      world := Booted(flash, false);
    }

    /** Reads the current key, or the old one if it is missing; bad data is an error and nothing is written. */
    method ReadSettings(brightness: int, fault: int, flash: Flash)
      requires model.View() == Fresh(Defaults()).(error := model.error)
      modifies model
      ensures model.View() == Loaded(flash, brightness, fault)
    {
      if 10 <= brightness <= 100 {
        model.config := model.config.(chargeBrightness := brightness, batteryBrightness := brightness);
      }
      model.error := fault;
      if fault != 0 { return; }
      var blob := if flash.config3.Some? then flash.config3 else flash.config;
      if blob.None? { return; }
      var c := if |blob.value| == BLOB then Decode(blob.value) else None;
      if c.None? {
        model.error := INVALID;
      } else {
        model.config, model.savedRevision := c.value, model.revision;
      }
    }

    method Init(brightness: int, fault: int, flash: Flash)
      requires Valid() && !loaded && flash == world.flash
      requires world.settings == Fresh(Defaults()).(error := world.settings.error)
      modifies this, model
      ensures Valid() && world == Next(old(world), Load(brightness, fault))
    {
      ReadSettings(brightness, fault, flash);
      loaded := true;
      world := Next(world, Load(brightness, fault));
    }

    method Edit(c: Config, now: nat)
      requires Valid() && loaded
      modifies this`world, model
      ensures Valid() && world == Next(old(world), Step.Request(c, now))
    {
      model.Request(c, now);
      world := Next(world, Step.Request(c, now));
    }

    method SaveTemporary(confirmed: bool, now: nat, unsafe: bool)
      requires Valid() && loaded
      modifies this`world, model
      ensures Valid() && world == Next(old(world), SaveLease(confirmed, now, unsafe))
    {
      if confirmed {
        var ended := model.Expire(now, unsafe);
        if !unsafe {
          var ok := model.SaveTemporary(true, now);
        }
      }
      world := Next(world, SaveLease(confirmed, now, unsafe));
    }

    /** The section under the settings lock inside service: what is due is copied and marked attempted. */
    method TakeDue(task: nat, now: nat, gates: Gates) returns (due: Option<(Config, u32)>)
      requires Valid() && Enabled(world, Step.Capture(task, now, !Open(gates)))
      modifies this`world, model
      ensures Valid() && world == Next(old(world), Step.Capture(task, now, !Open(gates)))
      ensures At(world, task) == match due case Some(d) => Writing(d.0, d.1) case None => Outside
      ensures due == if Open(gates) && loaded && EditIsDue(old(model.View()), now)
        then Some((old(model.View()).config, old(model.View()).revision)) else None
    {
      due := None;
      var blocked := CheckGates(gates);
      if !blocked && loaded && model.pending && model.attemptedRevision != model.revision
         && now - model.requestedAt >= SECOND {
        due := Some((model.config, model.revision));
        model.attemptedRevision := model.revision;
      }
      world := Next(world, Step.Capture(task, now, !Open(gates)));
    }

    method Acknowledge(task: nat, revision: u32, failure: int)
      requires Valid() && Enabled(world, Step.Complete(task))
      requires At(world, task).revision == revision && At(world, task).failure == failure
      modifies this`world, model
      ensures Valid() && world == Next(old(world), Step.Complete(task))
    {
      model.Completed(revision, failure);
      world := Next(world, Step.Complete(task));
    }

    method ClaimNetworkOwner(task: nat) returns (claimed: bool)
      requires Valid() && Enabled(world, Claim(task))
      modifies this
      ensures Valid() && world == Next(old(world), Claim(task))
      ensures claimed == (old(world).owner != Network) && (claimed ==> Owns(world, task))
    {
      claimed := owner != Network;
      if claimed {
        owner, ownerTask := Network, Some(task);
      }
      world := Next(world, Claim(task));
    }

    /** If the task cannot be created the ownership is given back and the failure is reported. */
    method StartFallbackOwner(created: Option<nat>)
      requires Valid() && Enabled(world, StartFallback(created))
      modifies this, model
      ensures Valid() && world == Next(old(world), StartFallback(created))
    {
      if owner == NoOwner {
        owner := Fallback;
        if created.None? {
          owner := NoOwner;
          model.error := NO_MEM;
        }
      }
      world := Next(world, StartFallback(created));
    }

    /** The fallback task's first act: it becomes the writer only if nobody took over meanwhile. */
    method FallbackBegins(task: nat)
      requires Valid() && Enabled(world, FallbackRuns(task))
      modifies this
      ensures Valid() && world == Next(old(world), FallbackRuns(task))
    {
      if owner == Fallback {
        ownerTask := Some(task);
      }
      world := Next(world, FallbackRuns(task));
    }
  }
}
