/** One process driving both ends of the ring in turn: the calls themselves, against a queue. The two
    processes together are `RingProtocol`.
 */
module RingBuffer {
  import opened Wrappers
  import opened Modular
  import opened RingProtocol

  class Ring {
    const cfg: Config
    const slots: array<Record>
    var head: nat
    var tail: nat
    /** The records queued, oldest first, and how many were ever taken. */
    ghost var queue: seq<Record>
    ghost var taken: nat

    ghost predicate Valid()
      reads this, slots
    {
      && cfg.Valid() && slots.Length == cfg.Capacity() && |queue| <= cfg.Capacity()
      && tail == Wrap(taken) && head == Wrap(taken + |queue|)
      && forall j :: taken <= j < taken + |queue| ==> slots[At(cfg, j)] == queue[j - taken]
    }

    constructor Create(cfg: Config)
      requires cfg.Valid()
      ensures Valid() && queue == [] && this.cfg == cfg && fresh(slots)
    {
      this.cfg := cfg;
      slots := new Record[cfg.Capacity()](_ => seq(cfg.stride, _ => 0));
      head, tail := 0, 0;
      queue, taken := [], 0;
      new;
      CapacityBelowWord(cfg);
      assert Wrap(0) == 0;
    }

    method TryPush(rec: Record) returns (pushed: bool)
      requires Valid() && |rec| == cfg.stride
      modifies this, slots
      ensures Valid()
      ensures pushed <==> |old(queue)| < cfg.Capacity()
      ensures queue == if pushed then old(queue) + [rec] else old(queue)
      ensures taken == old(taken)
    {
      hide RingProtocol.Config.Capacity, Wrap, At, WrappingSub;
      QueuedIsDifference();
      if WrappingSub(head, tail) >= cfg.Capacity() { return false; }
      Store(rec);
      return true;
    }

    lemma QueuedIsDifference()
      requires Valid()
      ensures WrappingSub(head, tail) == |queue|
    {
      CapacityBelowWord(cfg);
      WrappedDifference(taken + |queue|, taken, Word());
    }

    method Store(rec: Record)
      requires Valid() && |queue| < cfg.Capacity()
      modifies this`head, this`queue, slots
      ensures Valid() && queue == old(queue) + [rec]
    {
      hide RingProtocol.Config.Slot, RingProtocol.Config.Capacity, Wrap, At;
      ghost var at := taken + |queue|;
      SlotIsAt(cfg, at);
      WrapSucc(at);
      OtherSlots(cfg, taken, at);
      slots[cfg.Slot(head)] := rec;
      head := Wrap(head + 1);
      queue := queue + [rec];
    }

    method TryPop() returns (rec: Option<Record>)
      requires Valid()
      modifies this
      ensures Valid()
      ensures old(queue) == [] ==> rec == None && queue == []
      ensures old(queue) != [] ==> rec == Some(old(queue)[0]) && queue == old(queue)[1..]
    {
      CapacityBelowWord(cfg);
      WrappedEqual(taken + |queue|, taken, Word());
      if tail == head { return None; }
      SlotIsAt(cfg, taken);
      assert slots[At(cfg, taken)] == queue[0];
      rec := Some(slots[cfg.Slot(tail)]);
      WrapSucc(taken);
      tail := Wrap(tail + 1);
      taken := taken + 1;
      queue := queue[1..];
    }

    /** Take up to `max` records: as many as there are, in order. */
    method Drain(max: nat) returns (records: seq<Record>)
      requires Valid()
      modifies this
      ensures Valid()
      ensures var n := if max < |old(queue)| then max else |old(queue)|;
        records == old(queue)[..n] && queue == old(queue)[n..]
    {
      records := [];
      var n := 0;
      while n < max
        invariant Valid() && n == |records| <= max && n <= |old(queue)|
        invariant records == old(queue)[..n] && queue == old(queue)[n..]
      {
        var rec := TryPop();
        match rec
        case Some(r) =>
          records := records + [r];
          n := n + 1;
        case None => break;
      }
    }

    method Len() returns (n: nat)
      requires Valid()
      ensures n == |queue|
    {
      QueuedIsDifference();
      n := WrappingSub(head, tail);
    }
  }

  lemma OtherSlots(cfg: Config, lo: nat, hi: nat)
    requires lo <= hi < lo + cfg.Capacity()
    ensures forall j :: lo <= j < hi ==> At(cfg, j) != At(cfg, hi)
  {
    forall j | lo <= j < hi
      ensures At(cfg, j) != At(cfg, hi)
    {
      DistinctSlots(j, hi, cfg.Capacity());
    }
  }
}
