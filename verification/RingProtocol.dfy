/** The shared-memory ring as two processes on an x86-TSO machine.

    Each process issues its loads and stores in program order, one atomic step at a time, and every
    store goes through the process's own FIFO store buffer: it reaches memory at some later step. A
    record is copied byte by byte, in any order. The counters are 64-bit and wrap.
 */
module RingProtocol {
  import opened Modular

  const WORD_BITS: nat := 64

  type Byte = bv8

  type Record = seq<Byte>

  /** A ring of `2^log` slots; the capacity fits the `u32` header field. */
  datatype Config = Config(log: nat, stride: nat) {
    function Capacity(): nat { Pow2(log) }

    predicate Valid() { log < 32 }

    /** `index & mask`. */
    function Slot(index: nat): nat { And(index, Capacity() - 1) }
  }

  function Word(): (w: nat)
    ensures w >= 1
  {
    Pow2(WORD_BITS)
  }

  function Wrap(n: nat): nat { n % Word() }

  function WrappingSub(a: nat, b: nat): nat { (a - b) % Word() }

  /** A store in the producer's buffer: a byte of a slot, or the published head. */
  datatype Store = SlotByte(slot: nat, k: nat, b: Byte) | HeadStore(v: nat)

  /** The producer's place in `try_push_bytes`. `seen` is the true tail its loaded value stands for. */
  datatype Producer =
    | Idle
    | LoadedHead(rec: Record, head: nat)
    | LoadedTail(rec: Record, head: nat, tail: nat, seen: nat)
    | Copying(rec: Record, head: nat, todo: set<nat>)

  /** The consumer's place in `try_pop_bytes`. `seen` is the true head its loaded value stands for. */
  datatype Consumer =
    | Waiting
    | LoadedOwnTail(tail: nat)
    | LoadedPeerHead(tail: nat, head: nat, seen: nat)
    | Reading(tail: nat, got: map<nat, Byte>)

  /** `pushed` and `popped` are the calls that have returned true, in order; `visibleHead` and
      `visibleTail` are the unwrapped values behind the words in memory. */
  datatype State = State(
    slots: seq<Record>, head: nat, tail: nat,
    pbuf: seq<Store>, cbuf: seq<nat>,
    p: Producer, c: Consumer,
    pushed: seq<Record>, popped: seq<Record>, visibleHead: nat, visibleTail: nat)

  function Init(cfg: Config): State {
    State(seq(cfg.Capacity(), _ => seq(cfg.stride, _ => 0)), 0, 0, [], [], Idle, Waiting, [], [], 0, 0)
  }

  // ---------------------------------------------------------------- loads through a store buffer

  /** The newest head in the producer's own buffer, or memory's. */
  function OwnHead(memory: nat, buf: seq<Store>): nat {
    if buf == [] then memory
    else if buf[|buf| - 1].HeadStore? then buf[|buf| - 1].v
    else OwnHead(memory, buf[..|buf| - 1])
  }

  function OwnTail(memory: nat, buf: seq<nat>): nat {
    if buf == [] then memory else buf[|buf| - 1]
  }

  function PutByte(slots: seq<Record>, slot: nat, k: nat, b: Byte): seq<Record>
    requires slot < |slots| && k < |slots[slot]|
  {
    slots[slot := slots[slot][k := b]]
  }

  /** The byte offsets of a record. */
  function Offsets(stride: nat): (r: set<nat>)
    ensures forall k: nat :: k in r <==> k < stride
  {
    if stride == 0 then {} else Offsets(stride - 1) + {stride - 1}
  }

  // ---------------------------------------------------------------- the steps

  datatype Step =
    | BeginPush(rec: Record)
    | LoadTail
    | DecidePush
    | CopyByte(k: nat)
    | PublishHead
    | DrainProducer
    | BeginPop
    | LoadHead
    | DecidePop
    | ReadByte(k: nat)
    | ReleaseTail
    | DrainConsumer

  ghost predicate Enabled(cfg: Config, s: State, step: Step) {
    match step
    case BeginPush(rec) => s.p.Idle? && |rec| == cfg.stride
    case LoadTail => s.p.LoadedHead?
    case DecidePush => s.p.LoadedTail?
    case CopyByte(k) => s.p.Copying? && k in s.p.todo && k < |s.p.rec|
    case PublishHead => s.p.Copying? && s.p.todo == {}
    case DrainProducer => s.pbuf != [] && (s.pbuf[0].SlotByte? ==>
      s.pbuf[0].slot < |s.slots| && s.pbuf[0].k < |s.slots[s.pbuf[0].slot]|)
    case BeginPop => s.c.Waiting?
    case LoadHead => s.c.LoadedOwnTail?
    case DecidePop => s.c.LoadedPeerHead?
    case ReadByte(k) => s.c.Reading? && k < cfg.stride && k !in s.c.got
      && cfg.Slot(s.c.tail) < |s.slots| && k < |s.slots[cfg.Slot(s.c.tail)]|
    case ReleaseTail => s.c.Reading? && forall k :: 0 <= k < cfg.stride ==> k in s.c.got
    case DrainConsumer => s.cbuf != []
  }

  function Do(cfg: Config, s: State, step: Step): State
    requires Enabled(cfg, s, step)
  {
    match step
    case BeginPush(rec) => s.(p := LoadedHead(rec, OwnHead(s.head, s.pbuf)))
    case LoadTail => s.(p := LoadedTail(s.p.rec, s.p.head, s.tail, s.visibleTail))
    case DecidePush =>
      if WrappingSub(s.p.head, s.p.tail) >= cfg.Capacity() then s.(p := Idle)
      else s.(p := Copying(s.p.rec, s.p.head, Offsets(cfg.stride)))
    case CopyByte(k) =>
      s.(pbuf := s.pbuf + [SlotByte(cfg.Slot(s.p.head), k, s.p.rec[k])],
         p := s.p.(todo := s.p.todo - {k}))
    case PublishHead =>
      s.(pbuf := s.pbuf + [HeadStore(Wrap(s.p.head + 1))], p := Idle, pushed := s.pushed + [s.p.rec])
    case DrainProducer =>
      (match s.pbuf[0]
       case SlotByte(slot, k, b) => s.(pbuf := s.pbuf[1..], slots := PutByte(s.slots, slot, k, b))
       case HeadStore(v) => s.(pbuf := s.pbuf[1..], head := v, visibleHead := s.visibleHead + 1))
    case BeginPop => s.(c := LoadedOwnTail(OwnTail(s.tail, s.cbuf)))
    case LoadHead => s.(c := LoadedPeerHead(s.c.tail, s.head, s.visibleHead))
    case DecidePop =>
      if s.c.tail == s.c.head then s.(c := Waiting) else s.(c := Reading(s.c.tail, map[]))
    case ReadByte(k) =>
      s.(c := s.c.(got := s.c.got[k := s.slots[cfg.Slot(s.c.tail)][k]]))
    case ReleaseTail =>
      s.(cbuf := s.cbuf + [Wrap(s.c.tail + 1)], c := Waiting,
         popped := s.popped + [seq(cfg.stride, k requires 0 <= k < cfg.stride && k in s.c.got => s.c.got[k])])
    case DrainConsumer => s.(cbuf := s.cbuf[1..], tail := s.cbuf[0], visibleTail := s.visibleTail + 1)
  }

  /** The states some schedule of steps reaches. */
  ghost predicate Run(cfg: Config, steps: seq<Step>, s: State)
    decreases |steps|
  {
    if steps == [] then s == Init(cfg)
    else
      var step := steps[|steps| - 1];
      exists before :: Run(cfg, steps[..|steps| - 1], before)
        && Enabled(cfg, before, step) && s == Do(cfg, before, step)
  }

  // ---------------------------------------------------------------- the invariant

  ghost predicate Shaped(cfg: Config, slots: seq<Record>) {
    |slots| == cfg.Capacity() && forall i :: 0 <= i < |slots| ==> |slots[i]| == cfg.stride
  }

  /** The slot of the record numbered `i`. */
  function At(cfg: Config, i: nat): nat { i % cfg.Capacity() }

  /** Draining `buf` into `slots`, with `h` heads already visible, publishes record after record, each
      complete before the head that announces it, and ends with `end` heads visible. Bytes only go into
      the slot of the next record, which is free: `h` is less than a capacity past the tail `lo`. */
  ghost predicate Drains(cfg: Config, slots: seq<Record>, h: nat, buf: seq<Store>, pushed: seq<Record>, end: nat,
                         lo: nat)
    decreases |buf|
  {
    if buf == [] then h == end
    else
      match buf[0]
      case SlotByte(slot, k, b) =>
        && Shaped(cfg, slots) && slot == At(cfg, h) < |slots| && k < cfg.stride && h < lo + cfg.Capacity()
        && Drains(cfg, PutByte(slots, slot, k, b), h, buf[1..], pushed, end, lo)
      case HeadStore(v) =>
        && h < |pushed| && v == Wrap(h + 1)
        && At(cfg, h) < |slots| && slots[At(cfg, h)] == pushed[h]
        && Drains(cfg, slots, h + 1, buf[1..], pushed, end, lo)
  }

  /** Memory as it will be once the producer's buffer has drained. */
  function View(cfg: Config, slots: seq<Record>, buf: seq<Store>): seq<Record>
    decreases |buf|
  {
    if buf == [] then slots
    else
      match buf[0]
      case SlotByte(slot, k, b) =>
        if slot < |slots| && k < |slots[slot]| then View(cfg, PutByte(slots, slot, k, b), buf[1..]) else slots
      case HeadStore(_) => View(cfg, slots, buf[1..])
  }

  ghost predicate ProducerInv(cfg: Config, s: State) {
    match s.p
    case Idle => true
    case LoadedHead(rec, head) => |rec| == cfg.stride && head == Wrap(|s.pushed|)
    case LoadedTail(rec, head, tail, seen) =>
      && |rec| == cfg.stride && head == Wrap(|s.pushed|) && tail == Wrap(seen)
      && seen <= s.visibleTail && seen <= |s.pushed| <= seen + cfg.Capacity()
    case Copying(rec, head, todo) =>
      && |rec| == cfg.stride && head == Wrap(|s.pushed|)
      && |s.pushed| < s.visibleTail + cfg.Capacity()
      && var view := View(cfg, s.slots, s.pbuf);
      Shaped(cfg, view) && forall k :: 0 <= k < cfg.stride && k !in todo ==> view[At(cfg, |s.pushed|)][k] == rec[k]
  }

  ghost predicate ConsumerInv(cfg: Config, s: State)
    requires s.visibleHead <= |s.pushed|
  {
    match s.c
    case Waiting => true
    case LoadedOwnTail(tail) => tail == Wrap(|s.popped|)
    case LoadedPeerHead(tail, head, seen) =>
      tail == Wrap(|s.popped|) && head == Wrap(seen) && |s.popped| <= seen <= s.visibleHead
    case Reading(tail, got) =>
      && tail == Wrap(|s.popped|) && |s.popped| < s.visibleHead
      && |s.pushed[|s.popped|]| == cfg.stride
      && forall k :: k in got ==> k < cfg.stride && got[k] == s.pushed[|s.popped|][k]
  }

  /** The records between the visible tail and the visible head are in memory, whole. */
  ghost predicate LiveInv(cfg: Config, s: State)
    requires s.visibleHead <= |s.pushed|
  {
    forall i :: s.visibleTail <= i < s.visibleHead ==> At(cfg, i) < |s.slots| && s.slots[At(cfg, i)] == s.pushed[i]
  }

  ghost predicate Inv(cfg: Config, s: State) {
    && Shaped(cfg, s.slots)
    && s.visibleTail <= |s.popped| <= s.visibleHead <= |s.pushed| <= s.visibleTail + cfg.Capacity()
    && (forall i :: 0 <= i < |s.pushed| ==> |s.pushed[i]| == cfg.stride)
    && s.popped == s.pushed[..|s.popped|]
    && s.head == Wrap(s.visibleHead) && s.tail == Wrap(s.visibleTail)
    && |s.popped| == s.visibleTail + |s.cbuf|
    && (forall i :: 0 <= i < |s.cbuf| ==> s.cbuf[i] == Wrap(s.visibleTail + i + 1))
    && Drains(cfg, s.slots, s.visibleHead, s.pbuf, s.pushed, |s.pushed|, s.visibleTail)
    && LiveInv(cfg, s)
    && ProducerInv(cfg, s) && ConsumerInv(cfg, s)
  }

  // ---------------------------------------------------------------- arithmetic of slots and words

  lemma SlotIsAt(cfg: Config, index: nat)
    requires cfg.Valid()
    ensures cfg.Slot(Wrap(index)) == At(cfg, index) < cfg.Capacity()
  {
    MaskIsRemainder(Wrap(index), cfg.log);
    Pow2Adds(cfg.log, WORD_BITS - cfg.log);
    ModOfMod(index, cfg.Capacity(), Pow2(WORD_BITS - cfg.log));
  }

  lemma CapacityBelowWord(cfg: Config)
    requires cfg.Valid()
    ensures cfg.Capacity() < Word()
  {
    Pow2Monotone(cfg.log + 1, WORD_BITS);
    assert Pow2(cfg.log + 1) == 2 * Pow2(cfg.log);
  }

  lemma SameWord(a: nat, b: nat)
    requires b <= a < b + Word()
    ensures Wrap(a) == Wrap(b) <==> a == b
  {
    WrappedEqual(a, b, Word());
  }

  lemma WordDifference(a: nat, b: nat)
    requires b <= a < b + Word()
    ensures WrappingSub(Wrap(a), Wrap(b)) == a - b
  {
    WrappedDifference(a, b, Word());
  }

  lemma WrapSucc(n: nat)
    ensures Wrap(Wrap(n) + 1) == Wrap(n + 1)
  {
    var w := Word();
    assert n == w * (n / w) + n % w;
    ModShift(n % w + 1, w, n / w);
  }

  // ---------------------------------------------------------------- the producer's buffer

  lemma DrainsLater(cfg: Config, slots: seq<Record>, h: nat, buf: seq<Store>, pushed: seq<Record>, end: nat, lo: nat,
                    lo': nat)
    requires Drains(cfg, slots, h, buf, pushed, end, lo) && lo <= lo'
    ensures Drains(cfg, slots, h, buf, pushed, end, lo')
    decreases |buf|
  {
    if buf != [] {
      match buf[0]
      case SlotByte(slot, k, b) => DrainsLater(cfg, PutByte(slots, slot, k, b), h, buf[1..], pushed, end, lo, lo');
      case HeadStore(_) => DrainsLater(cfg, slots, h + 1, buf[1..], pushed, end, lo, lo');
    }
  }

  lemma PutByteShaped(cfg: Config, slots: seq<Record>, slot: nat, k: nat, b: Byte)
    requires Shaped(cfg, slots) && slot < |slots| && k < cfg.stride
    ensures Shaped(cfg, PutByte(slots, slot, k, b))
  {
  }

  lemma ViewShaped(cfg: Config, slots: seq<Record>, h: nat, buf: seq<Store>, pushed: seq<Record>, end: nat, lo: nat)
    requires Shaped(cfg, slots) && Drains(cfg, slots, h, buf, pushed, end, lo)
    ensures Shaped(cfg, View(cfg, slots, buf))
    decreases |buf|
  {
    if buf != [] {
      match buf[0]
      case SlotByte(slot, k, b) =>
        PutByteShaped(cfg, slots, slot, k, b);
        ViewShaped(cfg, PutByte(slots, slot, k, b), h, buf[1..], pushed, end, lo);
      case HeadStore(_) => ViewShaped(cfg, slots, h + 1, buf[1..], pushed, end, lo);
    }
  }

  /** Another byte of the next record at the end of the buffer. */
  lemma {:induction false} DrainsByte(cfg: Config, slots: seq<Record>, h: nat, buf: seq<Store>, pushed: seq<Record>,
                                      end: nat, lo: nat, k: nat, b: Byte)
    requires Shaped(cfg, slots) && Drains(cfg, slots, h, buf, pushed, end, lo)
    requires end < lo + cfg.Capacity() && k < cfg.stride
    ensures Drains(cfg, slots, h, buf + [SlotByte(At(cfg, end), k, b)], pushed, end, lo)
    ensures Shaped(cfg, View(cfg, slots, buf))
    ensures View(cfg, slots, buf + [SlotByte(At(cfg, end), k, b)]) == PutByte(View(cfg, slots, buf), At(cfg, end), k, b)
    decreases |buf|
  {
    var w := SlotByte(At(cfg, end), k, b);
    if buf == [] {
      assert ([w])[1..] == [];
      assert buf + [w] == [w];
      assert Drains(cfg, PutByte(slots, At(cfg, end), k, b), h, [], pushed, end, lo);
    } else {
      assert (buf + [w])[0] == buf[0] && (buf + [w])[1..] == buf[1..] + [w];
      match buf[0]
      case SlotByte(slot, k', b') =>
        PutByteShaped(cfg, slots, slot, k', b');
        DrainsByte(cfg, PutByte(slots, slot, k', b'), h, buf[1..], pushed, end, lo, k, b);
      case HeadStore(_) => DrainsByte(cfg, slots, h + 1, buf[1..], pushed, end, lo, k, b);
    }
  }

  /** The head that announces a record, once the buffer holds all of its bytes. */
  lemma {:induction false} DrainsHead(cfg: Config, slots: seq<Record>, h: nat, buf: seq<Store>, pushed: seq<Record>,
                                      lo: nat, rec: Record)
    requires Shaped(cfg, slots) && Drains(cfg, slots, h, buf, pushed, |pushed|, lo)
    requires At(cfg, |pushed|) < |View(cfg, slots, buf)| && View(cfg, slots, buf)[At(cfg, |pushed|)] == rec
    ensures Drains(cfg, slots, h, buf + [HeadStore(Wrap(|pushed| + 1))], pushed + [rec], |pushed| + 1, lo)
    decreases |buf|
  {
    var w := HeadStore(Wrap(|pushed| + 1));
    if buf == [] {
      assert buf + [w] == [w] && ([w])[1..] == [];
      assert Drains(cfg, slots, h + 1, [], pushed + [rec], |pushed| + 1, lo);
    } else {
      assert (buf + [w])[0] == buf[0] && (buf + [w])[1..] == buf[1..] + [w];
      match buf[0]
      case SlotByte(slot, k, b) =>
        PutByteShaped(cfg, slots, slot, k, b);
        DrainsHead(cfg, PutByte(slots, slot, k, b), h, buf[1..], pushed, lo, rec);
      case HeadStore(_) => DrainsHead(cfg, slots, h + 1, buf[1..], pushed, lo, rec);
    }
  }

  lemma OwnHeadFront(memory: nat, buf: seq<Store>)
    requires buf != []
    ensures OwnHead(memory, buf) == OwnHead(if buf[0].HeadStore? then buf[0].v else memory, buf[1..])
  {
    if |buf| > 1 && !buf[|buf| - 1].HeadStore? {
      OwnHeadFront(memory, buf[..|buf| - 1]);
      assert buf[1..][..|buf| - 2] == buf[..|buf| - 1][1..];
    }
  }

  /** Through its own buffer the producer reads the number of records it has pushed. */
  lemma {:induction false} OwnHeadIsPushed(cfg: Config, slots: seq<Record>, h: nat, buf: seq<Store>,
                                           pushed: seq<Record>, end: nat, lo: nat)
    requires Drains(cfg, slots, h, buf, pushed, end, lo)
    ensures OwnHead(Wrap(h), buf) == Wrap(end)
    decreases |buf|
  {
    if buf != [] {
      OwnHeadFront(Wrap(h), buf);
      match buf[0]
      case SlotByte(slot, k, b) => OwnHeadIsPushed(cfg, PutByte(slots, slot, k, b), h, buf[1..], pushed, end, lo);
      case HeadStore(_) => OwnHeadIsPushed(cfg, slots, h + 1, buf[1..], pushed, end, lo);
    }
  }

  // ---------------------------------------------------------------- what every step keeps

  lemma InitInv(cfg: Config)
    requires cfg.Valid()
    ensures Inv(cfg, Init(cfg))
  {
    CapacityBelowWord(cfg);
    assert Wrap(0) == 0;
  }

  lemma BeginPushKeeps(cfg: Config, s: State, rec: Record)
    requires cfg.Valid() && Inv(cfg, s) && Enabled(cfg, s, BeginPush(rec))
    ensures Inv(cfg, Do(cfg, s, BeginPush(rec)))
  {
    OwnHeadIsPushed(cfg, s.slots, s.visibleHead, s.pbuf, s.pushed, |s.pushed|, s.visibleTail);
  }

  lemma DecidePushKeeps(cfg: Config, s: State)
    requires cfg.Valid() && Inv(cfg, s) && Enabled(cfg, s, DecidePush)
    ensures Inv(cfg, Do(cfg, s, DecidePush))
    ensures Do(cfg, s, DecidePush).p.Idle? <==> |s.pushed| - s.p.seen >= cfg.Capacity()
  {
    hide Inv;
    var next := Do(cfg, s, DecidePush);
    PushDecision(cfg, s);
    ProducerMoves(cfg, s, next.p);
  }

  /** A producer that moves and stores nothing leaves the rest of the invariant alone. */
  lemma ProducerMoves(cfg: Config, s: State, p: Producer)
    requires Inv(cfg, s) && ProducerInv(cfg, s.(p := p))
    ensures Inv(cfg, s.(p := p))
  {
    hide Drains, ProducerInv, At, Wrap;
  }

  lemma PushDecision(cfg: Config, s: State)
    requires cfg.Valid() && Inv(cfg, s) && s.p.LoadedTail?
    ensures ProducerInv(cfg, Do(cfg, s, DecidePush))
    ensures Do(cfg, s, DecidePush).p.Idle? <==> |s.pushed| - s.p.seen >= cfg.Capacity()
  {
    hide Wrap, Drains, View, LiveInv, ConsumerInv;
    CapacityBelowWord(cfg);
    WordDifference(|s.pushed|, s.p.seen);
    ViewShaped(cfg, s.slots, s.visibleHead, s.pbuf, s.pushed, |s.pushed|, s.visibleTail);
  }

  /** A consumer that moves and stores nothing leaves the rest of the invariant alone. */
  lemma ConsumerMoves(cfg: Config, s: State, c: Consumer)
    requires Inv(cfg, s) && ConsumerInv(cfg, s.(c := c))
    ensures Inv(cfg, s.(c := c))
  {
    hide Drains, ConsumerInv, At, Wrap, View;
  }

  lemma CopyByteKeeps(cfg: Config, s: State, k: nat)
    requires cfg.Valid() && Inv(cfg, s) && Enabled(cfg, s, CopyByte(k))
    ensures Inv(cfg, Do(cfg, s, CopyByte(k)))
  {
    hide View, Drains, Wrap, At;
    SlotIsAt(cfg, |s.pushed|);
    DrainsByte(cfg, s.slots, s.visibleHead, s.pbuf, s.pushed, |s.pushed|, s.visibleTail, k, s.p.rec[k]);
    PutByteShaped(cfg, View(cfg, s.slots, s.pbuf), At(cfg, |s.pushed|), k, s.p.rec[k]);
  }

  lemma PublishHeadKeeps(cfg: Config, s: State)
    requires cfg.Valid() && Inv(cfg, s) && Enabled(cfg, s, PublishHead)
    ensures Inv(cfg, Do(cfg, s, PublishHead))
  {
    hide View, Drains, Wrap, At;
    SlotIsAt(cfg, |s.pushed|);
    WrapSucc(|s.pushed|);
    var view := View(cfg, s.slots, s.pbuf);
    assert view[At(cfg, |s.pushed|)] == s.p.rec;
    DrainsHead(cfg, s.slots, s.visibleHead, s.pbuf, s.pushed, s.visibleTail, s.p.rec);
  }

  lemma DrainByteKeeps(cfg: Config, s: State)
    requires cfg.Valid() && Inv(cfg, s) && Enabled(cfg, s, DrainProducer) && s.pbuf[0].SlotByte?
    ensures Inv(cfg, Do(cfg, s, DrainProducer))
  {
    var w := s.pbuf[0];
    PutByteShaped(cfg, s.slots, w.slot, w.k, w.b);
    forall i | s.visibleTail <= i < s.visibleHead
      ensures At(cfg, i) != w.slot
    {
      DistinctSlots(i, s.visibleHead, cfg.Capacity());
    }
  }

  lemma DrainHeadKeeps(cfg: Config, s: State)
    requires cfg.Valid() && Inv(cfg, s) && Enabled(cfg, s, DrainProducer) && s.pbuf[0].HeadStore?
    ensures Inv(cfg, Do(cfg, s, DrainProducer))
  {
  }

  lemma BeginPopKeeps(cfg: Config, s: State)
    requires cfg.Valid() && Inv(cfg, s) && Enabled(cfg, s, BeginPop)
    ensures Inv(cfg, Do(cfg, s, BeginPop))
  {
  }

  lemma DecidePopKeeps(cfg: Config, s: State)
    requires cfg.Valid() && Inv(cfg, s) && Enabled(cfg, s, DecidePop)
    ensures Inv(cfg, Do(cfg, s, DecidePop))
    ensures Do(cfg, s, DecidePop).c.Waiting? <==> s.c.seen == |s.popped|
  {
    hide Inv;
    var next := Do(cfg, s, DecidePop);
    PopDecision(cfg, s);
    ConsumerMoves(cfg, s, next.c);
  }

  lemma PopDecision(cfg: Config, s: State)
    requires cfg.Valid() && Inv(cfg, s) && s.c.LoadedPeerHead?
    ensures ConsumerInv(cfg, Do(cfg, s, DecidePop))
    ensures Do(cfg, s, DecidePop).c.Waiting? <==> s.c.seen == |s.popped|
  {
    hide Wrap, Drains, View, LiveInv, ProducerInv, Shaped;
    CapacityBelowWord(cfg);
    SameWord(s.c.seen, |s.popped|);
  }

  lemma ReadByteKeeps(cfg: Config, s: State, k: nat)
    requires cfg.Valid() && Inv(cfg, s) && Enabled(cfg, s, ReadByte(k))
    ensures Inv(cfg, Do(cfg, s, ReadByte(k)))
  {
    hide Inv;
    var next := Do(cfg, s, ReadByte(k));
    ByteRead(cfg, s, k);
    ConsumerMoves(cfg, s, next.c);
  }

  lemma ByteRead(cfg: Config, s: State, k: nat)
    requires cfg.Valid() && Inv(cfg, s) && Enabled(cfg, s, ReadByte(k))
    ensures ConsumerInv(cfg, Do(cfg, s, ReadByte(k)))
  {
    hide Wrap, Drains, View, ProducerInv, Shaped, At;
    SlotIsAt(cfg, |s.popped|);
    assert s.slots[At(cfg, |s.popped|)] == s.pushed[|s.popped|];
  }

  lemma ReleaseTailKeeps(cfg: Config, s: State)
    requires cfg.Valid() && Inv(cfg, s) && Enabled(cfg, s, ReleaseTail)
    ensures Inv(cfg, Do(cfg, s, ReleaseTail))
  {
    hide View, Drains, Wrap, At;
    WrapSucc(|s.popped|);
    var out := seq(cfg.stride, k requires 0 <= k < cfg.stride && k in s.c.got => s.c.got[k]);
    assert out == s.pushed[|s.popped|];
    assert s.pushed[..|s.popped| + 1] == s.pushed[..|s.popped|] + [out];
  }

  lemma DrainConsumerKeeps(cfg: Config, s: State)
    requires cfg.Valid() && Inv(cfg, s) && Enabled(cfg, s, DrainConsumer)
    ensures Inv(cfg, Do(cfg, s, DrainConsumer))
  {
    DrainsLater(cfg, s.slots, s.visibleHead, s.pbuf, s.pushed, |s.pushed|, s.visibleTail, s.visibleTail + 1);
  }

  /** Every atomic step of either process, and every drain of either buffer, keeps the invariant. */
  lemma StepKeeps(cfg: Config, s: State, step: Step)
    requires cfg.Valid() && Inv(cfg, s) && Enabled(cfg, s, step)
    ensures Inv(cfg, Do(cfg, s, step))
  {
    match step
    case BeginPush(rec) => BeginPushKeeps(cfg, s, rec);
    case LoadTail =>
    case DecidePush => DecidePushKeeps(cfg, s);
    case CopyByte(k) => CopyByteKeeps(cfg, s, k);
    case PublishHead => PublishHeadKeeps(cfg, s);
    case DrainProducer => if s.pbuf[0].SlotByte? { DrainByteKeeps(cfg, s); } else { DrainHeadKeeps(cfg, s); }
    case BeginPop => BeginPopKeeps(cfg, s);
    case LoadHead =>
    case DecidePop => DecidePopKeeps(cfg, s);
    case ReadByte(k) => ReadByteKeeps(cfg, s, k);
    case ReleaseTail => ReleaseTailKeeps(cfg, s);
    case DrainConsumer => DrainConsumerKeeps(cfg, s);
  }

  lemma {:induction false} RunKeeps(cfg: Config, steps: seq<Step>, s: State)
    requires cfg.Valid() && Run(cfg, steps, s)
    ensures Inv(cfg, s)
    decreases |steps|
  {
    if steps == [] {
      InitInv(cfg);
    } else {
      var step := steps[|steps| - 1];
      var before :| Run(cfg, steps[..|steps| - 1], before) && Enabled(cfg, before, step) && s == Do(cfg, before, step);
      RunKeeps(cfg, steps[..|steps| - 1], before);
      StepKeeps(cfg, before, step);
    }
  }

  // ---------------------------------------------------------------- what the ring promises

  /** In every interleaving, however late either buffer drains and however often the counters wrap: the
      popped records are the first pushed ones, in order and whole; the rest are queued, and at most a
      capacity of them. */
  lemma FirstInFirstOut(cfg: Config, steps: seq<Step>, s: State)
    requires cfg.Valid() && Run(cfg, steps, s)
    ensures |s.popped| <= |s.pushed|
    ensures s.pushed == s.popped + s.pushed[|s.popped|..]
    ensures |s.pushed[|s.popped|..]| <= cfg.Capacity()
  {
    hide Run, View, Drains, LiveInv, ProducerInv, ConsumerInv, Shaped, Wrap;
    RunKeeps(cfg, steps, s);
  }

  /** Every byte waiting in the buffer is for a record past the visible head, so for no slot from `at` on
      that is visible and not yet released. */
  lemma {:induction false} BytesAvoid(cfg: Config, slots: seq<Record>, h: nat, buf: seq<Store>, pushed: seq<Record>,
                                      end: nat, lo: nat, at: nat)
    requires Drains(cfg, slots, h, buf, pushed, end, lo) && lo <= at < h
    ensures forall i :: 0 <= i < |buf| && buf[i].SlotByte? ==> buf[i].slot != At(cfg, at)
    decreases |buf|
  {
    hide At;
    if buf != [] {
      match buf[0]
      case SlotByte(slot, k, b) =>
        BytesAvoid(cfg, PutByte(slots, slot, k, b), h, buf[1..], pushed, end, lo, at);
        SlotsApart(cfg, at, h);
      case HeadStore(_) => BytesAvoid(cfg, slots, h + 1, buf[1..], pushed, end, lo, at);
      assert forall i :: 1 <= i < |buf| ==> buf[i] == buf[1..][i - 1];
    }
  }

  lemma SlotsApart(cfg: Config, a: nat, b: nat)
    requires a < b < a + cfg.Capacity()
    ensures At(cfg, a) != At(cfg, b)
  {
    DistinctSlots(a, b, cfg.Capacity());
  }

  lemma ReadSlotUntouched(cfg: Config, s: State)
    requires cfg.Valid() && Inv(cfg, s) && s.c.Reading?
    ensures forall i :: 0 <= i < |s.pbuf| && s.pbuf[i].SlotByte? ==> s.pbuf[i].slot != cfg.Slot(s.c.tail)
  {
    hide View, LiveInv, Drains, At;
    SlotIsAt(cfg, |s.popped|);
    BytesAvoid(cfg, s.slots, s.visibleHead, s.pbuf, s.pushed, |s.pushed|, s.visibleTail, |s.popped|);
  }

  lemma ReadSlotUnclaimed(cfg: Config, s: State)
    requires cfg.Valid() && Inv(cfg, s) && s.c.Reading? && s.p.Copying?
    ensures cfg.Slot(s.p.head) != cfg.Slot(s.c.tail)
  {
    hide View, LiveInv, Drains;
    SlotIsAt(cfg, |s.popped|);
    SlotIsAt(cfg, |s.pushed|);
    DistinctSlots(|s.popped|, |s.pushed|, cfg.Capacity());
  }

  /** No byte is issued to, or waits in the buffer for, the slot the consumer is copying out of. */
  lemma NoWriteUnderRead(cfg: Config, steps: seq<Step>, s: State)
    requires cfg.Valid() && Run(cfg, steps, s) && s.c.Reading?
    ensures s.p.Copying? ==> cfg.Slot(s.p.head) != cfg.Slot(s.c.tail)
    ensures forall i :: 0 <= i < |s.pbuf| && s.pbuf[i].SlotByte? ==> s.pbuf[i].slot != cfg.Slot(s.c.tail)
  {
    hide Run, Inv;
    RunKeeps(cfg, steps, s);
    ReadSlotUntouched(cfg, s);
    if s.p.Copying? { ReadSlotUnclaimed(cfg, s); }
  }

  /** Every access stays inside the mapping: the bounds that guard a drain or a read always hold. */
  lemma AccessesInBounds(cfg: Config, steps: seq<Step>, s: State, k: nat)
    requires cfg.Valid() && Run(cfg, steps, s)
    ensures Enabled(cfg, s, DrainProducer) <==> s.pbuf != []
    ensures Enabled(cfg, s, ReadByte(k)) <==> s.c.Reading? && k < cfg.stride && k !in s.c.got
  {
    RunKeeps(cfg, steps, s);
    SlotIsAt(cfg, |s.popped|);
  }

  /** A push is refused exactly when, by the tail it loaded, a whole capacity was queued; a pop exactly
      when, by the head it loaded, nothing was. */
  lemma RefusalsAreExact(cfg: Config, steps: seq<Step>, s: State)
    requires cfg.Valid() && Run(cfg, steps, s)
    ensures s.p.LoadedTail? ==> (Do(cfg, s, DecidePush).p.Idle? <==> |s.pushed| == s.p.seen + cfg.Capacity())
    ensures s.c.LoadedPeerHead? ==> (Do(cfg, s, DecidePop).c.Waiting? <==> |s.popped| == s.c.seen)
  {
    RunKeeps(cfg, steps, s);
    if s.p.LoadedTail? { DecidePushKeeps(cfg, s); }
    if s.c.LoadedPeerHead? { DecidePopKeeps(cfg, s); }
  }

  lemma PopsTheNext(cfg: Config, s: State)
    requires cfg.Valid() && Inv(cfg, s) && Enabled(cfg, s, ReleaseTail)
    ensures |s.popped| < |s.pushed|
    ensures Do(cfg, s, ReleaseTail).popped == s.popped + [s.pushed[|s.popped|]]
  {
    hide View, Drains, LiveInv;
    var out := seq(cfg.stride, k requires 0 <= k < cfg.stride && k in s.c.got => s.c.got[k]);
    assert out == s.pushed[|s.popped|];
  }

  /** Completed calls are never undone, and a pop delivers the record that was next in line. */
  lemma HistoriesOnlyGrow(cfg: Config, steps: seq<Step>, s: State, step: Step)
    requires cfg.Valid() && Run(cfg, steps, s) && Enabled(cfg, s, step)
    ensures Do(cfg, s, step).pushed == if step.PublishHead? then s.pushed + [s.p.rec] else s.pushed
    ensures step.ReleaseTail? ==>
      |s.popped| < |s.pushed| && Do(cfg, s, step).popped == s.popped + [s.pushed[|s.popped|]]
    ensures !step.ReleaseTail? ==> Do(cfg, s, step).popped == s.popped
  {
    if step.ReleaseTail? {
      hide Run, Inv;
      RunKeeps(cfg, steps, s);
      PopsTheNext(cfg, s);
    }
  }

  lemma VisibleCounts(cfg: Config, s: State)
    requires cfg.Valid() && Inv(cfg, s)
    ensures OwnHead(s.head, s.pbuf) == Wrap(|s.pushed|) && OwnTail(s.tail, s.cbuf) == Wrap(|s.popped|)
    ensures s.head == Wrap(s.visibleHead) && s.tail == Wrap(s.visibleTail)
    ensures s.visibleTail <= |s.popped| <= s.visibleHead <= |s.pushed| <= s.visibleTail + cfg.Capacity()
  {
    OwnHeadIsPushed(cfg, s.slots, s.visibleHead, s.pbuf, s.pushed, |s.pushed|, s.visibleTail);
  }

  /** Both ends' `len`: what each can see queued, never more than the capacity. */
  lemma LenIsQueued(cfg: Config, steps: seq<Step>, s: State)
    requires cfg.Valid() && Run(cfg, steps, s)
    ensures WrappingSub(OwnHead(s.head, s.pbuf), s.tail) == |s.pushed| - s.visibleTail <= cfg.Capacity()
    ensures WrappingSub(s.head, OwnTail(s.tail, s.cbuf)) == s.visibleHead - |s.popped| <= cfg.Capacity()
  {
    hide Run, Inv;
    RunKeeps(cfg, steps, s);
    VisibleCounts(cfg, s);
    CapacityBelowWord(cfg);
    WrappedDifference(|s.pushed|, s.visibleTail, Word());
    WrappedDifference(s.visibleHead, |s.popped|, Word());
  }
}
