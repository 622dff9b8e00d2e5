/** The durable storage of a device, written one effect at a time. */
module Storage {
  import opened Basics
  import opened DurableState

  class Disk {
    var record: Option<State>
    var env: Env
    var imageA: Image
    var imageB: Image
    var history: seq<Entry>
    ghost var vouched: set<Slot>
    ghost var ledger: seq<Logged>
    // Every state the storage has been in, the present one last.
    ghost var trace: seq<Durable>

    ghost function Now(): Durable
      reads this
    {
      Durable(record, env, imageA, imageB, vouched, history, ledger)
    }

    ghost predicate Valid()
      reads this
    {
      trace != [] && trace[|trace| - 1] == Now()
    }

    function ImageOf(s: Slot): Image
      reads this
    {
      if s == SlotA then imageA else imageB
    }

    constructor (record: Option<State>, env: Env, imageA: Image, imageB: Image, history: seq<Entry>,
                 ghost vouched: set<Slot>, ghost ledger: seq<Logged>)
      ensures Valid()
      ensures Now() == Durable(record, env, imageA, imageB, vouched, history, ledger)
      ensures trace == [Now()]
    {
      this.record, this.env, this.history := record, env, history;
      this.imageA, this.imageB := imageA, imageB;
      this.vouched, this.ledger := vouched, ledger;
      this.trace := [Durable(record, env, imageA, imageB, vouched, history, ledger)];
    }

    /** state.json replaced (tmp, fsync, rename) or removed. */
    method WriteRecord(r: Option<State>)
      requires Valid()
      modifies this
      ensures Valid()
      ensures Now() == old(Now()).(record := r)
      ensures trace == old(trace) + [Now()]
    {
      record := r;
      trace := trace + [Now()];
    }

    /** One atomic batch write of the bootloader environment. */
    method WriteEnv(e: Env)
      requires Valid()
      modifies this
      ensures Valid()
      ensures Now() == old(Now()).(env := e)
      ensures trace == old(trace) + [Now()]
    {
      env := e;
      trace := trace + [Now()];
    }

    /** Bytes reached a slot's partition: whatever system it held is no longer vouched for. */
    method WriteSlot(s: Slot, img: Image)
      requires Valid()
      modifies this
      ensures Valid()
      ensures Now() == old(Now()).WithImage(s, img).(vouched := old(vouched) - {s})
      ensures trace == old(trace) + [Now()]
    {
      if s == SlotA { imageA := img; } else { imageB := img; }
      vouched := vouched - {s};
      trace := trace + [Now()];
    }

    method WriteHistory(h: seq<Entry>, ghost logged: Logged)
      requires Valid()
      modifies this
      ensures Valid()
      ensures Now() == old(Now()).(history := h, ledger := old(ledger) + [logged])
      ensures trace == old(trace) + [Now()]
    {
      history := h;
      ledger := ledger + [logged];
      trace := trace + [Now()];
    }

    /** Nothing is written: from here on slot s counts as committed. Only a warrant allows it. */
    ghost method Vouch(s: Slot, why: Warrant)
      requires Valid()
      requires Supports(why, s)
      modifies this
      ensures Valid()
      ensures Now() == old(Now()).(vouched := old(vouched) + {s})
      ensures trace == old(trace) + [Now()]
      ensures record == old(record) && env == old(env) && history == old(history)
    {
      vouched := vouched + {s};
      trace := trace + [Now()];
    }
  }
}
