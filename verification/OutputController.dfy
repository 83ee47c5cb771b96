/**
 The controller object itself: the shared fields, changed in place by the sections that run under the lock. The
 ghost field follows the protocol's state, and every section is shown to be one of its steps.
 */
module OutputController {
  import opened Bytes
  import opened OutputProtocol

  class Controller {
    var sequence: nat
    var epoch: nat
    var readEnteredEpoch: int
    var crossEpochDrops: nat
    var events: seq<Event>
    var readerError: bool
    var stop: bool
    ghost var model: State

    ghost predicate Valid()
      reads this
    {
      && sequence == model.sequence && epoch == model.epoch && readEnteredEpoch == model.readEntered
      && crossEpochDrops == model.drops && events == model.queue && readerError == model.error && stop == model.stop
    }

    constructor ()
      ensures Valid() && model == Init()
    {
      sequence, epoch, readEnteredEpoch, crossEpochDrops := 0, 0, -1, 0;
      events, readerError, stop := [], false, false;
      model := Init();
    }

    /** The reader notes the epoch its next read is entered in. */
    method Capture() returns (readEpoch: nat)
      requires Valid() && Enabled(model, OutputProtocol.Capture)
      modifies this
      ensures Valid() && model == Next(old(model), OutputProtocol.Capture)
      ensures model.reader == InRead(readEpoch, old(model).steps)
    {
      readEpoch := epoch;
      readEnteredEpoch := readEpoch;
      model := Next(model, OutputProtocol.Capture);
    }

    /** What follows a read: disconnects end the thread, other kinds and old epochs are passed over. */
    method Publish(e: Event, valid: bool) returns (alive: bool)
      requires Valid() && Enabled(model, OutputProtocol.Publish(valid)) && model.reader.event == e
      modifies this
      ensures Valid() && model == Next(old(model), OutputProtocol.Publish(valid))
      ensures alive == (model.reader == AtTop)
    {
      alive := true;
      if e.kind == GONE {
        readerError, alive := true, false;
      } else if e.kind != STATUS && e.kind != ACK {
      } else if e.epoch != epoch {
        crossEpochDrops := crossEpochDrops + 1;
      } else if e.kind == STATUS && !valid {
        readerError, alive := true, false;
      } else {
        sequence := sequence + 1;
        if |events| < QUEUE_LIMIT {
          events := events + [e.(number := sequence)];
        } else {
          readerError, alive := true, false;
        }
      }
      model := Next(model, OutputProtocol.Publish(valid));
    }

    /** Takes replies off the queue until it is empty or, outside the recovery, a log write fails. */
    method Drain(recovery: bool, logged: nat) returns (ok: bool)
      modifies `events
      ensures ok == (recovery || logged >= |old(events)|)
      ensures events == if ok then [] else old(events)[logged + 1..]
    {
      ok := true;
      var taken := 0;
      while ok && |events| > 0
        invariant taken <= |old(events)| && events == old(events)[taken..]
        invariant if ok then recovery || taken <= logged else !recovery && taken == logged + 1
      {
        events := events[1..];
        if !recovery && taken >= logged {
          ok := false;
        }
        taken := taken + 1;
      }
    }

    /** The first part of begin: a new epoch, the first drain and the first look at the reader's error. */
    method Open(recovery: bool, logged: nat) returns (ok: bool)
      requires Valid() && Enabled(model, OutputProtocol.Open(recovery, logged))
      modifies this
      ensures Valid() && model == Next(old(model), OutputProtocol.Open(recovery, logged))
      ensures ok == model.control.Waiting?
    {
      epoch := epoch + 1;
      ok := Drain(recovery, logged);
      if readerError && !recovery {
        ok := false;
      }
      model := Next(model, OutputProtocol.Open(recovery, logged));
    }

    /** The barrier's test: the parser has been entered in this epoch, or a recovery's wait has run out. */
    predicate Ready(recovery: bool)
      reads this
    {
      recovery || (!readerError && readEnteredEpoch == epoch)
    }

    /**
     The last part of begin, up to the native call: the second drain, the marker and the send time. The only request
     of a recovery is its setter.
     */
    method Send(recovery: bool, setter: bool, now: nat) returns (marker: nat, sendEpoch: nat, sendTick: nat)
      requires Valid() && model.control == Waiting(recovery) && Ready(recovery) && now == model.clock
      requires recovery ==> setter
      modifies this
      ensures var kinds := if setter then SETTER else QUERY;
        && Enabled(old(model), OutputProtocol.Send(kinds))
        && Valid() && model == Next(old(model), OutputProtocol.Send(kinds))
      ensures model.req.Some? && marker == model.req.value.marker && sendEpoch == model.req.value.epoch
        && sendTick == model.req.value.sendTick
    {
      ghost var kinds := if setter then SETTER else QUERY;
      var drained := Drain(true, 0);
      assert drained;
      marker, sendEpoch, sendTick := sequence, epoch, now;
      model := Next(model, OutputProtocol.Send(kinds));
    }

    /** The single request made before the reader is started. */
    method Bootstrap(now: nat) returns (marker: nat, sendEpoch: nat, sendTick: nat)
      requires Valid() && Enabled(model, OutputProtocol.Bootstrap) && now == model.clock
      modifies this
      ensures Valid() && model == Next(old(model), OutputProtocol.Bootstrap)
      ensures model.req.Some? && marker == model.req.value.marker && sendEpoch == model.req.value.epoch
        && sendTick == model.req.value.sendTick
    {
      epoch := epoch + 1;
      marker, sendEpoch, sendTick := sequence, epoch, now;
      model := Next(model, OutputProtocol.Bootstrap);
    }

    /** One turn of receive: a reply is taken and returned only if it passes all four checks. */
    method Receive(marker: nat, sendEpoch: nat, sendTick: nat, kinds: set<nat>) returns (reply: Option<Event>)
      requires Valid() && Enabled(model, OutputProtocol.Receive) && model.req.Some?
      requires marker == model.req.value.marker && sendEpoch == model.req.value.epoch
      requires sendTick == model.req.value.sendTick && kinds == model.req.value.kinds
      modifies this
      ensures Valid() && model == Next(old(model), OutputProtocol.Receive)
      ensures match reply
        case Some(e) => model.answers == old(model).answers + [Answer(old(model).req.value, e)]
        case None => model.answers == old(model).answers && model.control == Awaiting(false)
    {
      var e := events[0];
      events := events[1..];
      reply := None;
      if e.number > marker && e.epoch == sendEpoch && e.tick > sendTick && e.kind in kinds {
        reply := Some(e);
      }
      model := Next(model, OutputProtocol.Receive);
    }
  }
}
