/**
 The receive side of the serial driver as a state machine. The device fills descriptor
 slots, an event handler swaps filled buffers for fresh ones and hands them to the
 interface, and a reader copies them out. They interleave freely, one list operation or
 register access per step; the handler works with a tail value that may be stale.
 */
module Receive {
  import opened Buffers
  import opened Bytes
  import opened Circular
  import opened Options
  import opened Sequences

  const SUCCESS: nat := 0
  const INTERFACES: nat := 1

  /** A descriptor slot: the host's buffer and what the device reported about it. */
  datatype Slot = Slot(buffer: Buffer, status: nat, interface: nat, length: nat)

  datatype Handler =
    | Resting
    | Looping(at: nat, end: nat, handled: nat)
    | Replacing(at: nat, end: nat, handled: nat, replacement: Buffer)

  /** A read call: `hand` is the buffer it works on, NULL if it found none. */
  datatype Reader =
    | NoRead
    | Fetching(remaining: nat)
    | Holding(remaining: nat, hand: Option<Buffer>)

  /**
   `partial` is the buffer kept from the last read. A read starts from it but writes it only
   at its end, so in between it still says what it said before. `sent` is the data of every
   deliverable packet the device ever sent, `returned` what reads ever returned.
   */
  datatype State = State(
    pool: seq<Buffer>, slots: seq<Slot>, head: nat, tail: nat, handler: Handler,
    read: seq<Buffer>, partial: Option<Buffer>, reader: Reader,
    sent: seq<byte>, returned: seq<byte>)

  /** `copies` is the outcome of the reader's copy to user memory. */
  datatype Action =
    | Deliver(status: nat, interface: nat, data: seq<byte>)
    | StartHandler
    | Handle
    | BeginRead(length: nat)
    | Read(copies: bool)

  predicate Deliverable(status: nat, interface: nat) {
    status == SUCCESS && interface < INTERFACES
  }

  /** A packet reaches the reader exactly when it is reported without error for interface 0, the only one. */
  lemma DeliverableExactly(status: nat, interface: nat)
    ensures Deliverable(status, interface) <==> status == 0 && interface == 0
  {}

  function AtNow(s: State): nat {
    if s.handler.Resting? then s.head else s.handler.at
  }

  /** A slot given a new buffer; the host rewrites its address and length only. */
  function Renewed(slot: Slot, b: Buffer): Slot {
    slot.(buffer := b, length := b.length)
  }

  function Listed(b: Option<Buffer>): seq<Buffer> {
    if b.Some? then [b.value] else []
  }

  /** The buffer to be read from first: kept from the last read or, during a read, in its hand. */
  function Front(s: State): Option<Buffer> {
    match s.reader
    case NoRead => s.partial
    case Fetching(_) => None
    case Holding(_, hand) => hand
  }

  function Replacement(h: Handler): Option<Buffer> {
    if h.Replacing? then Some(h.replacement) else None
  }

  // ---- steps ---------------------------------------------------------------------------------

  /** There is a slot to fill without making the ring look empty, and the data fits its buffer. */
  ghost predicate HasSlotFor(s: State, data: seq<byte>)
    requires RingOrder(s)
  {
    Inc(s.tail, |s.slots|) != s.head && SlotWellFormed(s.slots[s.tail])
    && |data| <= |s.slots[s.tail].buffer.memory|
  }

  /** The device fills the slot at tail. */
  ghost function DeliverStep(s: State, status: nat, interface: nat, data: seq<byte>): State
    requires RingOrder(s)
  {
    var slot := s.slots[s.tail];
    if !HasSlotFor(s, data) then
      s
    else
      s.(slots := s.slots[s.tail := Slot(slot.buffer.(memory := Write(slot.buffer.memory, 0, data)),
                                         status, interface, |data|)],
         tail := Inc(s.tail, |s.slots|),
         sent := if Deliverable(status, interface) then s.sent + data else s.sent)
  }

  function StartHandlerStep(s: State): State {
    if s.handler.Resting? then s.(handler := Looping(s.head, s.tail, 0)) else s
  }

  /** Takes a replacement first; without one the descriptor stays where it is for a later run. */
  function HandleStep(s: State): State
    requires Inv(s)
  {
    match s.handler
    case Resting => s
    case Looping(at, end, handled) =>
      if at != end && s.pool != [] then
        s.(pool := s.pool[1..], handler := Replacing(at, end, handled, Reset(s.pool[0])))
      else if s.head != at then
        s.(head := at, handler := Resting)
      else
        s.(handler := Resting)
    case Replacing(at, end, handled, replacement) => DispatchStep(s)
  }

  function Filled(slot: Slot): (b: Buffer)
    ensures b.id == slot.buffer.id && b.interface == slot.interface && b.length == slot.length
    ensures b.memory == slot.buffer.memory && b.data == slot.buffer.data
  {
    slot.buffer.(interface := slot.interface, length := slot.length)
  }

  function DispatchStep(s: State): State
    requires RingOrder(s) && s.handler.Replacing?
  {
    var Replacing(at, end, handled, replacement) := s.handler;
    var slot := s.slots[at];
    var next := s.(slots := s.slots[at := Renewed(slot, replacement)],
                   handler := Looping(Inc(at, |s.slots|), end, handled + 1));
    if slot.status != SUCCESS then
      next.(pool := s.pool + [slot.buffer])
    else if slot.interface < INTERFACES then
      next.(read := s.read + [Filled(slot)])
    else
      next.(pool := s.pool + [Filled(slot)])
  }

  function BeginReadStep(s: State, length: nat): State {
    if !s.reader.NoRead? then
      s
    else if s.partial.Some? then
      s.(reader := Holding(length, s.partial))
    else
      s.(reader := Fetching(length))
  }

  function ReadStep(s: State, copies: bool): State
    requires BuffersInv(s)
  {
    match s.reader
    case NoRead => s
    case Fetching(remaining) =>
      if s.read == [] then
        s.(reader := Holding(remaining, None))
      else
        s.(read := s.read[1..], reader := Holding(remaining, Some(s.read[0])))
    case Holding(remaining, hand) =>
      if remaining == 0 || hand.None? || !copies then
        s.(partial := hand, reader := NoRead)
      else
        assert Waiting(s)[0] == hand.value;
        CopyOut(s, remaining, hand.value)
  }

  /** Copies what fits; an emptied buffer goes back to the pool and the next one is fetched. */
  function CopyOut(s: State, remaining: nat, b: Buffer): State
    requires WellFormed(b)
  {
    var n := if remaining < b.length then remaining else b.length;
    var rest := b.(data := b.data + n, length := b.length - n);
    var next := s.(returned := s.returned + b.memory[b.data..b.data + n]);
    if rest.length == 0 then
      next.(pool := s.pool + [rest], reader := Fetching(remaining - n))
    else
      next.(reader := Holding(remaining - n, Some(rest)))
  }

  ghost function Step(s: State, a: Action): State
    requires Inv(s)
  {
    match a
    case Deliver(status, interface, data) => DeliverStep(s, status, interface, data)
    case StartHandler => StartHandlerStep(s)
    case Handle => HandleStep(s)
    case BeginRead(length) => BeginReadStep(s, length)
    case Read(copies) => ReadStep(s, copies)
  }

  // ---- the invariant ---------------------------------------------------------------------------

  /** Head, the handler's position, its end and the tail are in circular order. */
  ghost predicate RingOrder(s: State) {
    var n := |s.slots|;
    && s.head < n && s.tail < n && AtNow(s) < n
    && Between(s.head, AtNow(s), s.tail, n)
    && match s.handler
       case Resting => true
       case Looping(at, end, handled) =>
         end < n && Between(at, end, s.tail, n) && handled == Dist(s.head, at, n)
       case Replacing(at, end, handled, _) =>
         end < n && Between(at, end, s.tail, n) && handled == Dist(s.head, at, n) && at != end
  }

  predicate SlotWellFormed(slot: Slot) {
    slot.buffer.data == 0 && slot.length <= |slot.buffer.memory|
  }

  ghost predicate SlotsWellFormed(slots: seq<Slot>) {
    forall i :: 0 <= i < |slots| ==> SlotWellFormed(slots[i])
  }

  /** What a filled slot will hand to the interface. */
  function Cargo(slot: Slot): seq<byte>
    requires SlotWellFormed(slot)
  {
    if Deliverable(slot.status, slot.interface) then slot.buffer.memory[..slot.length] else []
  }

  function CargoOf(w: seq<Slot>): seq<byte>
    requires SlotsWellFormed(w)
  {
    if w == [] then [] else Cargo(w[0]) + CargoOf(w[1..])
  }

  /** Slots the device has filled and the handler has still to process. */
  function Unprocessed(s: State): seq<Slot>
    requires RingOrder(s)
  {
    Window(s.slots, AtNow(s), Dist(AtNow(s), s.tail, |s.slots|))
  }

  /** Buffers taken off the ring for the reader: in hand or kept from the last read, then the read list. */
  function Waiting(s: State): seq<Buffer> {
    Listed(Front(s)) + s.read
  }

  predicate ReplacementReady(h: Handler) {
    h.Replacing? ==> h.replacement.data == 0 && h.replacement.length <= |h.replacement.memory|
  }

  ghost predicate BuffersInv(s: State) {
    && s.slots != [] && SlotsWellFormed(s.slots) && AllWellFormed(Waiting(s))
    && ReplacementReady(s.handler)
  }

  ghost predicate StreamInv(s: State) {
    && RingOrder(s) && BuffersInv(s)
    && SlotsWellFormed(Unprocessed(s))
    && s.sent == s.returned + Stream(Waiting(s)) + CargoOf(Unprocessed(s))
  }

  function SlotBuffers(slots: seq<Slot>): (c: seq<Buffer>)
    ensures |c| == |slots| && forall i :: 0 <= i < |slots| ==> c[i] == slots[i].buffer
  {
    seq(|slots|, i requires 0 <= i < |slots| => slots[i].buffer)
  }

  ghost function Everywhere(s: State): multiset<nat> {
    Bag(s.pool) + Bag(SlotBuffers(s.slots)) + Bag(Listed(Replacement(s.handler))) + Bag(Waiting(s))
  }

  ghost predicate Inv(s: State) {
    RingOrder(s) && BuffersInv(s) && StreamInv(s)
  }

  // ---- the device -----------------------------------------------------------------------------------

  lemma {:induction false} CargoConcat(a: seq<Slot>, b: seq<Slot>)
    requires SlotsWellFormed(a) && SlotsWellFormed(b)
    ensures SlotsWellFormed(a + b) && CargoOf(a + b) == CargoOf(a) + CargoOf(b)
  {
    hide SlotWellFormed, Cargo;
    assert forall i :: 0 <= i < |a + b| ==> SlotWellFormed((a + b)[i]);
    if a == [] {
      assert a + b == b;
    } else {
      CargoConcat(a[1..], b);
      assert (a + b)[1..] == a[1..] + b && (a + b)[0] == a[0];
    }
  }

  lemma CargoOne(slot: Slot)
    requires SlotWellFormed(slot)
    ensures SlotsWellFormed([slot]) && CargoOf([slot]) == Cargo(slot)
  {
    assert CargoOf([slot][1..]) == [];
  }

  lemma DeliverOrder(s: State, after: State, slot: Slot)
    requires RingOrder(s) && Inc(s.tail, |s.slots|) != s.head
    requires after == s.(slots := s.slots[s.tail := slot], tail := Inc(s.tail, |s.slots|), sent := after.sent)
    ensures RingOrder(after) && Unprocessed(after) == Unprocessed(s) + [slot]
  {
    hide Inc, Dist, Between, At, Window;
    var n := |s.slots|;
    TailMoves(s.head, AtNow(s), s.tail, n);
    if !s.handler.Resting? {
      TailMoves(AtNow(s), s.handler.end, s.tail, n);
    }
    WindowPush(s.slots, AtNow(s), Dist(AtNow(s), s.tail, n), slot);
  }

  /** The last of three positions goes one on, short of the first: the order stays. */
  lemma TailMoves(head: nat, at: nat, tail: nat, n: nat)
    requires head < n && at < n && tail < n && Between(head, at, tail, n) && Inc(tail, n) != head
    ensures Inc(tail, n) < n && Inc(tail, n) != at && Between(head, at, Inc(tail, n), n)
    ensures Dist(at, Inc(tail, n), n) == Dist(at, tail, n) + 1 < n && At(at, Dist(at, tail, n), n) == tail
  {
    BetweenGrow(head, at, tail, n);
    DistInc(head, tail, n);
    DistInc(at, tail, n);
    hide Inc;
  }

  lemma SameSlotBuffers(slots: seq<Slot>, i: nat, slot: Slot)
    requires i < |slots| && slot.buffer.id == slots[i].buffer.id
    ensures Bag(SlotBuffers(slots[i := slot])) == Bag(SlotBuffers(slots))
  {
    assert Ids(SlotBuffers(slots[i := slot])) == Ids(SlotBuffers(slots));
  }

  lemma DeliverStream(s: State, after: State, slot: Slot)
    requires Inv(s) && RingOrder(after) && SlotWellFormed(slot)
    requires after == s.(slots := after.slots, tail := after.tail, sent := s.sent + Cargo(slot))
    requires |after.slots| == |s.slots| && SlotsWellFormed(after.slots)
    requires Unprocessed(after) == Unprocessed(s) + [slot]
    ensures Inv(after)
  {
    hide RingOrder, Unprocessed, CargoOf, Stream, Cargo;
    CargoOne(slot);
    CargoConcat(Unprocessed(s), [slot]);
    assert Waiting(after) == Waiting(s);
    hide Waiting;
    var before := s.returned + Stream(Waiting(s));
    assert before + CargoOf(Unprocessed(s)) + Cargo(slot) == before + (CargoOf(Unprocessed(s)) + Cargo(slot));
  }

  lemma DeliverKeeps(s: State, status: nat, interface: nat, data: seq<byte>)
    requires Inv(s)
    ensures Inv(DeliverStep(s, status, interface, data))
    ensures Everywhere(DeliverStep(s, status, interface, data)) == Everywhere(s)
  {
    hide Inc, BuffersInv, StreamInv, Unprocessed, Everywhere;
    var after := DeliverStep(s, status, interface, data);
    if HasSlotFor(s, data) {
      var slot := after.slots[s.tail];
      DeliverSlot(s, status, interface, data);
      DeliverOrder(s, after, slot);
      DeliverStream(s, after, slot);
    }
  }

  lemma DeliverSlot(s: State, status: nat, interface: nat, data: seq<byte>)
    requires Inv(s) && HasSlotFor(s, data)
    ensures var after := DeliverStep(s, status, interface, data);
      var slot := after.slots[s.tail];
      && SlotWellFormed(slot) && SlotsWellFormed(after.slots)
      && after.slots == s.slots[s.tail := slot]
      && after == s.(slots := after.slots, tail := Inc(s.tail, |s.slots|), sent := s.sent + Cargo(slot))
      && Everywhere(after) == Everywhere(s)
  {
    hide Inc, StreamInv;
    var after := DeliverStep(s, status, interface, data);
    var slot := after.slots[s.tail];
    assert slot.buffer.memory[..|data|] == data;
    SameSlotBuffers(s.slots, s.tail, slot);
  }

  // ---- the handler ------------------------------------------------------------------------------------

  lemma DispatchOrder(s: State)
    requires RingOrder(s) && s.handler.Replacing?
    ensures RingOrder(DispatchStep(s))
    ensures var n, at, after := |s.slots|, s.handler.at, DispatchStep(s);
      && after.slots == s.slots[at := Renewed(s.slots[at], s.handler.replacement)]
      && AtNow(after) == Inc(at, n) < n && after.tail == s.tail
      && Dist(at, s.tail, n) == Dist(Inc(at, n), s.tail, n) + 1
  {
    hide Inc, Dist, Between, Renewed, Filled;
    var n, at := |s.slots|, s.handler.at;
    BetweenDrop(at, s.handler.end, s.tail, n);
    BetweenAdvance(s.head, at, s.tail, n);
  }

  lemma DispatchWindow(s: State)
    requires RingOrder(s) && s.handler.Replacing? && RingOrder(DispatchStep(s))
    ensures Unprocessed(s) == [s.slots[s.handler.at]] + Unprocessed(DispatchStep(s))
  {
    DispatchOrder(s);
    hide Inc, Dist, Between, Window, Renewed, DispatchStep;
    var n, at, next := |s.slots|, s.handler.at, DispatchStep(s);
    DistBelow(AtNow(s), s.tail, n);
    WindowRest(s.slots, at, Dist(Inc(at, n), s.tail, n), next.slots[at]);
  }

  lemma DistBelow(a: nat, b: nat, n: nat)
    requires a < n && b < n
    ensures Dist(a, b, n) < n
  {}

  /** The buffer taken out of the slot goes to the pool or to the reader. */
  lemma DispatchLists(s: State)
    requires RingOrder(s) && s.handler.Replacing?
    ensures var after := DispatchStep(s);
      Bag(after.pool) + Bag(Waiting(after)) == Bag(s.pool) + Bag(Waiting(s)) + multiset{s.slots[s.handler.at].buffer.id}
  {
    var slot, after := s.slots[s.handler.at], DispatchStep(s);
    hide RingOrder;
    BagConcat(s.pool, [slot.buffer]);
    BagConcat(s.pool, [Filled(slot)]);
    BagConcat(Waiting(s), [Filled(slot)]);
    BagOne(slot.buffer);
    BagOne(Filled(slot));
    hide Bag;
    assert Waiting(after) == Waiting(s) || Waiting(after) == Waiting(s) + [Filled(slot)];
  }

  lemma DispatchBag(s: State)
    requires RingOrder(s) && s.handler.Replacing?
    ensures Everywhere(DispatchStep(s)) == Everywhere(s)
  {
    var after := DispatchStep(s);
    var slots, b, r := Bag(SlotBuffers(s.slots)), s.slots[s.handler.at].buffer.id, s.handler.replacement.id;
    DispatchLists(s);
    SwapSlotBuffer(s.slots, s.handler.at, Renewed(s.slots[s.handler.at], s.handler.replacement));
    BagOne(s.handler.replacement);
    BagNone();
    hide RingOrder, Bag, SlotBuffers, Waiting;
    hide DispatchStep;
    Exchange(Bag(s.pool), Bag(Waiting(s)), Bag(after.pool), Bag(Waiting(after)), slots,
             Bag(SlotBuffers(after.slots)), b, r);
  }

  lemma Exchange(p: multiset<nat>, w: multiset<nat>, p': multiset<nat>, w': multiset<nat>,
                 slots: multiset<nat>, slots': multiset<nat>, b: nat, r: nat)
    requires p' + w' == p + w + multiset{b} && slots' + multiset{b} == slots + multiset{r}
    ensures p' + slots' + multiset{} + w' == p + slots + multiset{r} + w
  {
    var sum, sum' := p + slots + multiset{r} + w, p' + slots' + multiset{} + w';
    assert sum' == (p' + w') + slots';
    assert sum' == p + w + (slots' + multiset{b});
  }

  lemma SwapSlotBuffer(slots: seq<Slot>, i: nat, slot: Slot)
    requires i < |slots|
    ensures Bag(SlotBuffers(slots[i := slot])) + multiset{slots[i].buffer.id}
         == Bag(SlotBuffers(slots)) + multiset{slot.buffer.id}
  {
    var ids, swapped := Ids(SlotBuffers(slots)), Ids(SlotBuffers(slots[i := slot]));
    assert ids == ids[..i] + [slots[i].buffer.id] + ids[i + 1..];
    assert swapped == ids[..i] + [slot.buffer.id] + ids[i + 1..];
  }

  lemma DispatchWaiting(s: State)
    requires RingOrder(s) && BuffersInv(s) && s.handler.Replacing?
    ensures var slot, after := s.slots[s.handler.at], DispatchStep(s);
      BuffersInv(after) && SlotWellFormed(slot) && Stream(Waiting(after)) == Stream(Waiting(s)) + Cargo(slot)
  {
    var slot, after := s.slots[s.handler.at], DispatchStep(s);
    hide RingOrder;
    StreamOne(Filled(slot));
    StreamConcat(Waiting(s), [Filled(slot)]);
    hide Stream;
    if Deliverable(slot.status, slot.interface) {
      assert Waiting(after) == Waiting(s) + [Filled(slot)];
    } else {
      assert Waiting(after) == Waiting(s);
    }
  }

  lemma DispatchStream(s: State)
    requires Inv(s) && s.handler.Replacing? && RingOrder(DispatchStep(s))
    requires Unprocessed(s) == [s.slots[s.handler.at]] + Unprocessed(DispatchStep(s))
    ensures Inv(DispatchStep(s))
  {
    DispatchWaiting(s);
    var slot, after := s.slots[s.handler.at], DispatchStep(s);
    CargoRest(Unprocessed(s), Unprocessed(after), slot);
    assert after.sent == s.sent && after.returned == s.returned;
    hide RingOrder, BuffersInv, Waiting, Stream, Unprocessed, CargoOf, Cargo, SlotsWellFormed, DispatchStep;
    Regroup(s.returned, Stream(Waiting(s)), Cargo(slot));
    Regroup(s.returned + Stream(Waiting(s)), Cargo(slot), CargoOf(Unprocessed(after)));
  }

  lemma CargoRest(w: seq<Slot>, rest: seq<Slot>, first: Slot)
    requires SlotsWellFormed(w) && w == [first] + rest
    ensures SlotWellFormed(first) && SlotsWellFormed(rest) && CargoOf(w) == Cargo(first) + CargoOf(rest)
  {
    assert w[0] == first && w[1..] == rest;
  }

  lemma DispatchKeeps(s: State)
    requires Inv(s) && s.handler.Replacing?
    ensures Inv(DispatchStep(s)) && Everywhere(DispatchStep(s)) == Everywhere(s)
  {
    DispatchOrder(s);
    DispatchWindow(s);
    DispatchStream(s);
    DispatchBag(s);
  }

  /** A step that leaves slots, head, tail and the handler's position alone leaves the ring's cargo alone. */
  lemma SameRing(s: State, after: State)
    requires RingOrder(s) && RingOrder(after)
    requires after.slots == s.slots && AtNow(after) == AtNow(s) && after.tail == s.tail
    ensures Unprocessed(after) == Unprocessed(s)
  {}

  /** A step that leaves the ring and the waiting buffers alone. */
  lemma SameWaiting(s: State, after: State)
    requires Inv(s) && RingOrder(after)
    requires after.slots == s.slots && AtNow(after) == AtNow(s) && after.tail == s.tail
    requires after.sent == s.sent && after.returned == s.returned && Waiting(after) == Waiting(s)
    requires ReplacementReady(after.handler)
    ensures Inv(after)
  {
    SameRing(s, after);
    hide RingOrder, Unprocessed, CargoOf, Waiting;
  }

  lemma LoopKeeps(s: State)
    requires Inv(s) && s.handler.Looping?
    ensures Inv(HandleStep(s)) && Everywhere(HandleStep(s)) == Everywhere(s)
  {
    hide Inv, HandleStep, Everywhere;
    LoopOrder(s);
    LoopBag(s);
    LoopSame(s);
    SameWaiting(s, HandleStep(s));
  }

  lemma LoopSame(s: State)
    requires Inv(s) && s.handler.Looping?
    ensures var after := HandleStep(s);
      && after.slots == s.slots && after.tail == s.tail && after.sent == s.sent && after.returned == s.returned
      && Waiting(after) == Waiting(s) && ReplacementReady(after.handler)
  {
    hide Inv;
  }

  lemma LoopBag(s: State)
    requires Inv(s) && s.handler.Looping?
    ensures Everywhere(HandleStep(s)) == Everywhere(s)
  {
    LoopSame(s);
    LoopTakes(s);
    hide Inv, Bag, Waiting, HandleStep, Listed, Replacement, SlotBuffers;
    BagNone();
    if HandleStep(s).pool != s.pool {
      BagFirst(s.pool);
      BagOne(Reset(s.pool[0]));
    }
  }

  /** What the loop takes from the pool it holds as the replacement. */
  lemma LoopTakes(s: State)
    requires Inv(s) && s.handler.Looping?
    ensures Listed(Replacement(s.handler)) == []
    ensures var after := HandleStep(s);
      if after.pool == s.pool then
        Listed(Replacement(after.handler)) == []
      else
        s.pool != [] && after.pool == s.pool[1..] && Listed(Replacement(after.handler)) == [Reset(s.pool[0])]
  {
    hide Inv;
  }

  lemma LoopOrder(s: State)
    requires Inv(s) && s.handler.Looping?
    ensures RingOrder(HandleStep(s)) && AtNow(HandleStep(s)) == AtNow(s)
  {
    hide StreamInv, BuffersInv;
  }

  // ---- the reader ------------------------------------------------------------------------------------------

  lemma BeginReadKeeps(s: State, length: nat)
    requires Inv(s)
    ensures Inv(BeginReadStep(s, length)) && Everywhere(BeginReadStep(s, length)) == Everywhere(s)
  {
    BeginReadWaiting(s, length);
    hide Waiting, StreamInv;
    SameWaiting(s, BeginReadStep(s, length));
  }

  lemma BeginReadWaiting(s: State, length: nat)
    ensures Waiting(BeginReadStep(s, length)) == Waiting(s)
  {}

  /** Fetching moves a buffer from the list to the hand, stopping moves it from there to the partial buffer. */
  ghost predicate OnlyMoves(s: State, copies: bool) {
    && (s.reader.Fetching? || s.reader.Holding?)
    && (s.reader.Holding? ==> s.reader.remaining == 0 || s.reader.hand.None? || !copies)
  }

  lemma MoveWaiting(s: State, copies: bool)
    requires BuffersInv(s) && OnlyMoves(s, copies)
    ensures Waiting(ReadStep(s, copies)) == Waiting(s)
  {
    hide AllWellFormed, SlotsWellFormed;
    if s.reader.Fetching? && s.read != [] {
      assert s.read == [s.read[0]] + s.read[1..];
    }
  }

  lemma MoveKeeps(s: State, copies: bool)
    requires Inv(s) && OnlyMoves(s, copies)
    ensures Inv(ReadStep(s, copies)) && Everywhere(ReadStep(s, copies)) == Everywhere(s)
  {
    MoveWaiting(s, copies);
    hide Waiting, StreamInv;
    SameWaiting(s, ReadStep(s, copies));
  }

  /** The buffer in hand after a copy. */
  function Rest(b: Buffer, remaining: nat): Buffer
    requires WellFormed(b)
  {
    var n := if remaining < b.length then remaining else b.length;
    b.(data := b.data + n, length := b.length - n)
  }

  lemma CopyWaiting(s: State)
    requires BuffersInv(s) && s.reader.Holding? && s.reader.remaining > 0 && s.reader.hand.Some?
    ensures var b, after := s.reader.hand.value, ReadStep(s, true);
      && WellFormed(b) && Waiting(s) == [b] + s.read
      && after == s.(pool := after.pool, reader := after.reader, returned := after.returned)
      && !after.reader.NoRead?
      && var rest := Rest(b, s.reader.remaining);
      && after.returned + Payload(rest) == s.returned + Payload(b)
      && if rest.length == 0 then
           after.pool == s.pool + [rest] && Waiting(after) == s.read
         else
           after.pool == s.pool && Waiting(after) == [rest] + s.read
  {
    var b := s.reader.hand.value;
    assert Waiting(s) == [b] + s.read && Waiting(s)[0] == b;
    var n := if s.reader.remaining < b.length then s.reader.remaining else b.length;
    assert Payload(b) == b.memory[b.data..b.data + n] + Payload(Rest(b, s.reader.remaining));
  }

  lemma CopyBag(s: State)
    requires BuffersInv(s) && s.reader.Holding? && s.reader.remaining > 0 && s.reader.hand.Some?
    ensures Everywhere(ReadStep(s, true)) == Everywhere(s)
  {
    CopyWaiting(s);
    var b, after := s.reader.hand.value, ReadStep(s, true);
    var rest := Rest(b, s.reader.remaining);
    hide BuffersInv, Waiting, ReadStep, Rest;
    BagConcat(s.pool, [rest]);
    BagConcat([b], s.read);
    BagConcat([rest], s.read);
    BagOne(b);
    BagOne(rest);
    BagNone();
    hide Bag;
    SumSame(Bag(s.pool), Bag(SlotBuffers(s.slots)), Bag(Listed(Replacement(s.handler))), Bag(s.read), multiset{b.id});
  }

  lemma SumSame(p: multiset<nat>, slots: multiset<nat>, r: multiset<nat>, w: multiset<nat>, b: multiset<nat>)
    ensures p + b + slots + r + w == p + slots + r + (b + w)
  {}

  lemma CopyKeeps(s: State)
    requires Inv(s) && s.reader.Holding? && s.reader.remaining > 0 && s.reader.hand.Some?
    ensures Inv(ReadStep(s, true)) && Everywhere(ReadStep(s, true)) == Everywhere(s)
  {
    CopyBag(s);
    CopyWaiting(s);
    var b, after := s.reader.hand.value, ReadStep(s, true);
    var rest := Rest(b, s.reader.remaining);
    FirstConsumed(b, rest, s.read);
    SameRing(s, after);
    assert rest.length == 0 ==> Payload(rest) == [];
    hide RingOrder, Unprocessed, CargoOf, Waiting, ReadStep, Everywhere, Stream, Payload, Rest, WellFormed;
    StreamKept(s.returned, after.returned, Payload(b), Payload(rest), Stream(s.read));
  }

  lemma StreamKept(returned: seq<byte>, returned': seq<byte>, b: seq<byte>, rest: seq<byte>, read: seq<byte>)
    requires returned' + rest == returned + b
    ensures returned' + (rest + read) == returned + (b + read)
    ensures rest == [] ==> returned' + read == returned + (b + read)
  {
    assert returned' + (rest + read) == returned' + rest + read;
    assert returned + (b + read) == returned + b + read;
  }

  lemma FirstConsumed(b: Buffer, rest: Buffer, read: seq<Buffer>)
    requires WellFormed(b) && WellFormed(rest) && rest.id == b.id && AllWellFormed([b] + read)
    ensures AllWellFormed(read) && AllWellFormed([rest] + read)
    ensures Stream([b] + read) == Payload(b) + Stream(read)
    ensures Stream([rest] + read) == Payload(rest) + Stream(read)
  {
    assert forall i :: 0 <= i < |read| ==> read[i] == ([b] + read)[1..][i];
    assert ([b] + read)[1..] == read && ([rest] + read)[1..] == read;
  }

  lemma StepKeeps(s: State, a: Action)
    requires Inv(s)
    ensures Inv(Step(s, a)) && Everywhere(Step(s, a)) == Everywhere(s)
  {
    hide Inv, Everywhere, DeliverStep, BeginReadStep;
    match a
    case Deliver(status, interface, data) => DeliverKeeps(s, status, interface, data);
    case StartHandler => StartHandlerKeeps(s);
    case Handle =>
      if s.handler.Looping? { LoopKeeps(s); } else if s.handler.Replacing? { DispatchKeeps(s); }
    case BeginRead(length) => BeginReadKeeps(s, length);
    case Read(copies) =>
      if OnlyMoves(s, copies) { MoveKeeps(s, copies); } else if s.reader.Holding? { CopyKeeps(s); }
  }

  lemma StartHandlerKeeps(s: State)
    requires Inv(s)
    ensures Inv(StartHandlerStep(s)) && Everywhere(StartHandlerStep(s)) == Everywhere(s)
  {
    var after := StartHandlerStep(s);
    assert RingOrder(after);
    hide RingOrder, StreamInv, Waiting;
    SameWaiting(s, after);
  }

  // ---- runs -----------------------------------------------------------------------------------------------

  predicate Untouched(slot: Slot) {
    slot.buffer == Reset(slot.buffer) && slot.length == slot.buffer.length
  }

  /** An empty ring with a whole buffer in every slot, and the other buffers in the pool. */
  ghost predicate Init(s: State) {
    && s.head == s.tail < |s.slots|
    && (forall i :: 0 <= i < |s.slots| ==> Untouched(s.slots[i]))
    && s.handler.Resting? && s.reader.NoRead? && s.partial == None
    && s.read == [] && s.sent == [] && s.returned == []
  }

  lemma InitInv(s: State)
    requires Init(s)
    ensures Inv(s) && Everywhere(s) == Bag(s.pool) + Bag(SlotBuffers(s.slots))
  {
    assert Waiting(s) == [] && Unprocessed(s) == [];
    BagNone();
  }

  ghost function Run(init: State, actions: seq<Action>): (s: State)
    requires Init(init)
    ensures Inv(s)
  {
    if actions == [] then
      InitInv(init);
      init
    else
      var before := Run(init, actions[..|actions| - 1]);
      var a := actions[|actions| - 1];
      StepKeeps(before, a);
      Step(before, a)
  }

  /**
   In every interleaving, and however often the pool runs dry, the data of the deliverable
   packets sent is what reads returned, then what waits for the reader, then what is on the
   ring; and a run of the handler moves the head register exactly when it handled a slot.
   */
  lemma EveryInterleavingKeepsOrder(init: State, actions: seq<Action>)
    requires Init(init)
    ensures var s := Run(init, actions);
      && s.returned <= s.sent
      && s.sent[|s.returned|..] == Stream(Waiting(s)) + CargoOf(Unprocessed(s))
      && (s.handler.Looping? ==> (s.head != s.handler.at <==> 0 < s.handler.handled))
  {
    var s := Run(init, actions);
    assert s.handler.Looping? ==> (s.head != s.handler.at <==> 0 < s.handler.handled);
    SentInOrder(s);
    hide *;
    assert s.sent == s.returned + (Stream(Waiting(s)) + CargoOf(Unprocessed(s)));
  }

  lemma SentInOrder(s: State)
    requires Inv(s)
    ensures s.sent == s.returned + (Stream(Waiting(s)) + CargoOf(Unprocessed(s)))
  {
    hide RingOrder, Waiting, Unprocessed, Stream, CargoOf, BuffersInv;
  }

  /** In every interleaving each buffer is in one place, and every slot has one. */
  lemma {:induction false} BuffersConserved(init: State, actions: seq<Action>)
    requires Init(init)
    ensures var s := Run(init, actions);
      Bag(s.pool) + Bag(SlotBuffers(s.slots)) + Bag(Listed(Replacement(s.handler))) + Bag(Waiting(s))
        == Bag(init.pool) + Bag(SlotBuffers(init.slots))
  {
    if actions == [] {
      InitInv(init);
    } else {
      hide Init, Inv, Step, Bag, Waiting, SlotBuffers;
      BuffersConserved(init, actions[..|actions| - 1]);
      StepKeeps(Run(init, actions[..|actions| - 1]), actions[|actions| - 1]);
    }
  }

  // ---- polling ------------------------------------------------------------------------------------------------

  /** The driver's report that there is something to read. */
  predicate DataAvailable(s: State) {
    s.partial.Some? || s.read != []
  }

  ghost predicate NoEmptyPackets(actions: seq<Action>) {
    forall a :: a in actions && a.Deliver? && Deliverable(a.status, a.interface) ==> a.data != []
  }

  ghost predicate Loaded(c: seq<Buffer>) {
    forall i :: 0 <= i < |c| ==> 0 < c[i].length
  }

  ghost predicate LoadedSlots(w: seq<Slot>) {
    forall i :: 0 <= i < |w| && Deliverable(w[i].status, w[i].interface) ==> 0 < w[i].length
  }

  /** No buffer on its way to the reader is empty. */
  ghost predicate NothingEmpty(s: State) {
    Inv(s) && LoadedSlots(Unprocessed(s)) && Loaded(Waiting(s))
  }

  lemma DeliverNothingEmpty(s: State, status: nat, interface: nat, data: seq<byte>)
    requires NothingEmpty(s) && (Deliverable(status, interface) ==> data != [])
    ensures NothingEmpty(DeliverStep(s, status, interface, data))
  {
    hide RingOrder, Unprocessed, Waiting, BuffersInv, StreamInv, HasSlotFor, Loaded, LoadedSlots, Everywhere;
    DeliverKeeps(s, status, interface, data);
    if HasSlotFor(s, data) {
      var after := DeliverStep(s, status, interface, data);
      DeliverSlot(s, status, interface, data);
      DeliverRoom(s, data);
      var slot := after.slots[s.tail];
      assert slot.status == status && slot.interface == interface && slot.length == |data|;
      DeliverOrder(s, after, slot);
      DeliverWaiting(s, status, interface, data);
      hide DeliverStep;
      MoreLoadedSlots(Unprocessed(s), slot);
    }
  }

  lemma MoreLoadedSlots(w: seq<Slot>, slot: Slot)
    requires LoadedSlots(w) && (Deliverable(slot.status, slot.interface) ==> 0 < slot.length)
    ensures LoadedSlots(w + [slot])
  {}

  lemma FewerLoadedSlots(w: seq<Slot>, rest: seq<Slot>, slot: Slot)
    requires LoadedSlots(w) && w == [slot] + rest
    ensures LoadedSlots(rest) && (Deliverable(slot.status, slot.interface) ==> 0 < slot.length)
  {
    assert w[0] == slot;
    forall i | 0 <= i < |rest|
      ensures Deliverable(rest[i].status, rest[i].interface) ==> 0 < rest[i].length
    {
      assert w[i + 1] == rest[i];
    }
  }

  lemma DeliverRoom(s: State, data: seq<byte>)
    requires RingOrder(s) && HasSlotFor(s, data)
    ensures s.tail < |s.slots| && Inc(s.tail, |s.slots|) != s.head
  {}

  lemma DeliverWaiting(s: State, status: nat, interface: nat, data: seq<byte>)
    requires RingOrder(s)
    ensures Waiting(DeliverStep(s, status, interface, data)) == Waiting(s)
  {}

  lemma HandleNothingEmpty(s: State)
    requires NothingEmpty(s)
    ensures NothingEmpty(HandleStep(s))
  {
    hide RingOrder, Unprocessed, Waiting, BuffersInv, StreamInv, LoadedSlots, Loaded, DispatchStep;
    if s.handler.Replacing? {
      DispatchKeeps(s);
      DispatchWindow(s);
      DispatchNothingEmpty(s);
    } else if s.handler.Looping? {
      LoopKeeps(s);
      LoopOrder(s);
      LoopSame(s);
      SameRing(s, HandleStep(s));
    }
  }

  lemma DispatchNothingEmpty(s: State)
    requires NothingEmpty(s) && s.handler.Replacing? && RingOrder(DispatchStep(s))
    requires Unprocessed(s) == [s.slots[s.handler.at]] + Unprocessed(DispatchStep(s))
    ensures LoadedSlots(Unprocessed(DispatchStep(s))) && Loaded(Waiting(DispatchStep(s)))
  {
    assert RingOrder(s) && s.handler.at < |s.slots|;
    hide Inv, RingOrder, Unprocessed, LoadedSlots;
    FewerLoadedSlots(Unprocessed(s), Unprocessed(DispatchStep(s)), s.slots[s.handler.at]);
    DispatchLoaded(s);
  }

  lemma DispatchLoaded(s: State)
    requires RingOrder(s) && s.handler.Replacing? && Loaded(Waiting(s))
    requires var slot := s.slots[s.handler.at]; Deliverable(slot.status, slot.interface) ==> 0 < slot.length
    ensures Loaded(Waiting(DispatchStep(s)))
  {
    var slot, after := s.slots[s.handler.at], DispatchStep(s);
    hide RingOrder;
    assert Waiting(after)
        == if Deliverable(slot.status, slot.interface) then Waiting(s) + [Filled(slot)] else Waiting(s);
    hide Waiting, DispatchStep;
  }

  lemma ReadNothingEmpty(s: State, copies: bool)
    requires NothingEmpty(s)
    ensures NothingEmpty(ReadStep(s, copies))
  {
    hide RingOrder, Unprocessed, Waiting, StreamInv, LoadedSlots, Loaded, ReadStep;
    var after := ReadStep(s, copies);
    if OnlyMoves(s, copies) {
      MoveKeeps(s, copies);
      MoveWaiting(s, copies);
      ReadFrame(s, copies);
      SameRing(s, after);
    } else if s.reader.Holding? {
      CopyKeeps(s);
      CopyWaiting(s);
      ReadFrame(s, copies);
      SameRing(s, after);
      RestLoaded(s.reader.hand.value, Rest(s.reader.hand.value, s.reader.remaining), s.read);
    } else {
      ReadFrame(s, copies);
    }
  }

  lemma ReadFrame(s: State, copies: bool)
    requires BuffersInv(s)
    ensures var after := ReadStep(s, copies);
      && after.slots == s.slots && AtNow(after) == AtNow(s) && after.tail == s.tail
      && (s.reader.NoRead? ==> after == s)
  {
    hide BuffersInv;
  }

  lemma RestLoaded(b: Buffer, rest: Buffer, read: seq<Buffer>)
    requires Loaded([b] + read)
    ensures Loaded(read) && (0 < rest.length ==> Loaded([rest] + read))
  {
    forall i | 0 <= i < |read|
      ensures 0 < read[i].length
    {
      assert ([b] + read)[i + 1] == read[i];
    }
  }

  lemma StepNothingEmpty(s: State, a: Action)
    requires NothingEmpty(s) && (a.Deliver? && Deliverable(a.status, a.interface) ==> a.data != [])
    ensures NothingEmpty(Step(s, a))
  {
    match a
    case Deliver(status, interface, data) => DeliverNothingEmpty(s, status, interface, data);
    case StartHandler => StartNothingEmpty(s);
    case Handle => HandleNothingEmpty(s);
    case BeginRead(length) => BeginNothingEmpty(s, length);
    case Read(copies) => ReadNothingEmpty(s, copies);
    hide *;
  }

  lemma StartNothingEmpty(s: State)
    requires NothingEmpty(s)
    ensures NothingEmpty(StartHandlerStep(s))
  {
    StartHandlerKeeps(s);
    hide RingOrder, Unprocessed, BuffersInv, StreamInv, LoadedSlots, Loaded;
    SameRing(s, StartHandlerStep(s));
    assert Waiting(StartHandlerStep(s)) == Waiting(s);
  }

  lemma BeginNothingEmpty(s: State, length: nat)
    requires NothingEmpty(s)
    ensures NothingEmpty(BeginReadStep(s, length))
  {
    BeginReadKeeps(s, length);
    BeginReadWaiting(s, length);
    hide RingOrder, Unprocessed, BuffersInv, StreamInv, LoadedSlots, Loaded, Waiting;
    SameRing(s, BeginReadStep(s, length));
  }

  lemma {:induction false} RunNothingEmpty(init: State, actions: seq<Action>)
    requires Init(init) && NoEmptyPackets(actions)
    ensures NothingEmpty(Run(init, actions))
  {
    if actions == [] {
      InitInv(init);
      assert Waiting(init) == [] && Unprocessed(init) == [];
    } else {
      hide NothingEmpty, Step;
      RunNothingEmpty(init, actions[..|actions| - 1]);
      StepNothingEmpty(Run(init, actions[..|actions| - 1]), actions[|actions| - 1]);
    }
  }

  /** A read in progress has the last unread buffer in its hand, and nothing was kept before it. */
  predicate Overlooked(s: State) {
    !s.reader.NoRead? && s.partial.None? && Front(s).Some? && 0 < Front(s).value.length && s.read == []
  }

  /** A read in progress has emptied the last buffer, but the one it started from is still on record. */
  predicate Outdated(s: State) {
    !s.reader.NoRead? && s.partial.Some? && Front(s).None? && s.read == []
  }

  /** All that waits is packets without data. */
  predicate Hollow(s: State) {
    && (s.partial.Some? || s.read != []) && Waiting(s) != []
    && forall i :: 0 <= i < |Waiting(s)| ==> Waiting(s)[i].length == 0
  }

  /** Polling now would report data exactly when there are unread bytes. */
  ghost predicate Truthful(s: State) {
    AllWellFormed(Waiting(s)) && (DataAvailable(s) <==> Stream(Waiting(s)) != [])
  }

  /** How a report can be wrong: in the first case it misses bytes, in the others it reports some that are not there. */
  lemma PollCases(init: State, actions: seq<Action>)
    requires Init(init)
    ensures var s := Run(init, actions);
      && AllWellFormed(Waiting(s))
      && (Truthful(s) <==> !Overlooked(s) && !Outdated(s) && !Hollow(s))
      && (Overlooked(s) ==> !DataAvailable(s) && Stream(Waiting(s)) != [])
      && (Outdated(s) || Hollow(s) ==> DataAvailable(s) && Stream(Waiting(s)) == [])
  {
    hide *;
    var s := Run(init, actions);
    WaitingWellFormed(s);
    StreamEmpty(Waiting(s));
    PollSees(s);
    TruthfulIs(s);
  }

  lemma TruthfulIs(s: State)
    requires AllWellFormed(Waiting(s))
    ensures Truthful(s) <==> (DataAvailable(s) <==> Stream(Waiting(s)) != [])
  {}

  lemma WaitingWellFormed(s: State)
    requires Inv(s)
    ensures AllWellFormed(Waiting(s))
  {
    hide RingOrder, StreamInv, Waiting, AllWellFormed;
  }

  /** There are no bytes exactly when no buffer has any. */
  lemma {:induction false} StreamEmpty(c: seq<Buffer>)
    requires AllWellFormed(c)
    ensures Stream(c) == [] <==> forall i :: 0 <= i < |c| ==> c[i].length == 0
  {
    if c != [] {
      StreamEmpty(c[1..]);
      assert Stream(c) == Payload(c[0]) + Stream(c[1..]) && |Payload(c[0])| == c[0].length;
      assert forall i :: 0 < i < |c| ==> c[i] == c[1..][i - 1];
    }
  }

  lemma PollSees(s: State)
    ensures var empty := forall i :: 0 <= i < |Waiting(s)| ==> Waiting(s)[i].length == 0;
      && ((DataAvailable(s) <==> !empty) <==> !Overlooked(s) && !Outdated(s) && !Hollow(s))
      && (Overlooked(s) ==> !DataAvailable(s) && !empty)
      && (Outdated(s) || Hollow(s) ==> DataAvailable(s) && empty)
  {
    if s.read == [] && Front(s).Some? {
      assert Waiting(s)[0] == Front(s).value;
    }
  }

  /** Only empty packets wait only if the device has delivered an empty packet. */
  lemma NeverHollow(init: State, actions: seq<Action>)
    requires Init(init) && NoEmptyPackets(actions)
    ensures !Hollow(Run(init, actions))
  {
    RunNothingEmpty(init, actions);
    hide Waiting, Unprocessed, RingOrder, Run;
    var waiting := Waiting(Run(init, actions));
    assert waiting != [] ==> 0 < waiting[0].length;
  }

  /**
   When the device delivers no empty packet, polling is right at any time except during a
   read that has left nothing on the read list.
   */
  lemma PollIsTruthful(init: State, actions: seq<Action>)
    requires Init(init) && NoEmptyPackets(actions)
    requires Run(init, actions).reader.NoRead? || Run(init, actions).read != []
    ensures Truthful(Run(init, actions))
  {
    PollCases(init, actions);
    NeverHollow(init, actions);
    hide Run, Truthful, NoEmptyPackets, Init;
  }

  // ---- and it can be wrong then ------------------------------------------------------------------------------

  /** This run, which has delivered packets of this length only, ends in `s`. */
  ghost predicate Reached(init: State, actions: seq<Action>, s: State, length: nat) {
    Init(init) && (0 < length ==> NoEmptyPackets(actions)) && Run(init, actions) == s
  }

  lemma ReachedMore(init: State, actions: seq<Action>, s: State, length: nat, a: Action)
    requires Reached(init, actions, s, length) && (a.Deliver? ==> |a.data| == length)
    ensures Inv(s) && Reached(init, actions + [a], Step(s, a), length)
  {
    hide Init, Step, Inv;
    var more := actions + [a];
    assert more[..|more| - 1] == actions && more[|more| - 1] == a;
    hide NoEmptyPackets;
    if 0 < length {
      MorePackets(actions, a);
    }
  }

  lemma MorePackets(actions: seq<Action>, a: Action)
    requires NoEmptyPackets(actions) && (a.Deliver? && Deliverable(a.status, a.interface) ==> a.data != [])
    ensures NoEmptyPackets(actions + [a])
  {}

  /** There is room for a packet, and a buffer to replace its own. */
  ghost predicate CanArrive(init: State, data: seq<byte>) {
    Init(init) && 1 < |init.slots| && init.pool != [] && |data| <= |init.slots[init.tail].buffer.memory|
  }

  /** The read list has one buffer, and no read has begun. */
  predicate OnePacket(s: State, length: nat) {
    && s.reader.NoRead? && s.partial == None
    && |s.read| == 1 && s.read[0].data == 0 && s.read[0].length == length && WellFormed(s.read[0])
  }

  lemma Delivered(init: State, data: seq<byte>)
    requires CanArrive(init, data) && Inv(init)
    ensures var s := DeliverStep(init, SUCCESS, 0, data);
      && Inv(s) && s.handler.Resting? && s.head == init.head && s.tail == Inc(init.tail, |init.slots|) != s.head
      && s.pool == init.pool && s.slots[s.head] == init.slots[s.head].(
           buffer := s.slots[s.head].buffer, status := SUCCESS, interface := 0, length := |data|)
      && s.slots[s.head].buffer.data == 0 && |data| <= |s.slots[s.head].buffer.memory|
      && s.read == [] && s.partial == None && s.reader.NoRead?
  {
    DeliverKeeps(init, SUCCESS, 0, data);
    IncIs(init.tail, |init.slots|);
    hide Inc, StreamInv;
  }

  lemma Dispatched(s: State, length: nat)
    requires Inv(s) && s.handler.Replacing? && Inv(DispatchStep(s))
    requires s.slots[s.handler.at].status == SUCCESS && s.slots[s.handler.at].interface == 0
    requires s.slots[s.handler.at].buffer.data == 0 && s.slots[s.handler.at].length == length
    requires length <= |s.slots[s.handler.at].buffer.memory|
    requires s.read == [] && s.partial == None && s.reader.NoRead?
    ensures OnePacket(DispatchStep(s), length)
  {
    hide Inv, Inc;
  }

  lemma PacketArrives(init: State, data: seq<byte>) returns (actions: seq<Action>, s: State)
    requires CanArrive(init, data)
    ensures Reached(init, actions, s, |data|) && OnePacket(s, |data|)
  {
    InitInv(init);
    Delivered(init, data);
    assert Reached(init, [], init, |data|);
    hide Init, Reached, Inv, DeliverStep, Inc, DispatchStep, OnePacket;
    ReachedMore(init, [], init, |data|, Deliver(SUCCESS, 0, data));
    actions, s := PacketHandled(init, [] + [Deliver(SUCCESS, 0, data)], DeliverStep(init, SUCCESS, 0, data), |data|);
  }

  lemma PacketHandled(init: State, actions: seq<Action>, s: State, length: nat)
    returns (more: seq<Action>, after: State)
    requires Reached(init, actions, s, length)
    requires s.handler.Resting? && s.head < |s.slots| && s.tail != s.head && s.pool != []
    requires s.slots[s.head].status == SUCCESS && s.slots[s.head].interface == 0 && s.slots[s.head].length == length
    requires s.slots[s.head].buffer.data == 0 && length <= |s.slots[s.head].buffer.memory|
    requires s.read == [] && s.partial == None && s.reader.NoRead?
    ensures Reached(init, more, after, length) && OnePacket(after, length)
  {
    hide Init, Reached, Inv, Inc, DispatchStep, OnePacket, RingOrder;
    ReachedMore(init, actions, s, length, StartHandler);
    more, after := actions + [StartHandler], Step(s, StartHandler);
    ReachedMore(init, more, after, length, Handle);
    more, after := more + [Handle], Step(after, Handle);
    assert after.handler.Replacing? && after.handler.at == s.head && after.slots == s.slots;
    ReachedMore(init, more, after, length, Handle);
    DispatchKeeps(after);
    Dispatched(after, length);
    more, after := more + [Handle], Step(after, Handle);
  }

  /** From every such state a run leads to a read that has fetched the only packet: the poll misses it. */
  lemma PollOverlooks(init: State, data: seq<byte>) returns (actions: seq<Action>)
    requires CanArrive(init, data) && data != []
    ensures NoEmptyPackets(actions)
    ensures var s := Run(init, actions);
      && AllWellFormed(Waiting(s)) && !s.reader.NoRead? && s.read == []
      && !DataAvailable(s) && Stream(Waiting(s)) != []
  {
    var s;
    actions, s := PacketArrives(init, data);
    hide Reached, Inv;
    actions, s := FirstByte(init, actions, s, |data|);
    ReachedRuns(init, actions, s, |data|);
    hide Run, Waiting;
    PollCases(init, actions);
  }

  lemma ReachedRuns(init: State, actions: seq<Action>, s: State, length: nat)
    requires Reached(init, actions, s, length)
    ensures Init(init) && (0 < length ==> NoEmptyPackets(actions)) && Run(init, actions) == s
  {}

  /** A read of one byte, up to its copy. */
  lemma FirstByte(init: State, actions: seq<Action>, s: State, length: nat) returns (more: seq<Action>, after: State)
    requires Reached(init, actions, s, length) && OnePacket(s, length) && 0 < length
    ensures Reached(init, more, after, length) && after.read == [] && after.partial == None
    ensures after.reader.Holding? && after.reader.remaining == 1 && after.reader.hand == Some(s.read[0])
  {
    hide Reached, Inv;
    ReachedMore(init, actions, s, length, BeginRead(1));
    more, after := actions + [BeginRead(1)], Step(s, BeginRead(1));
    ReachedMore(init, more, after, length, Read(true));
    more, after := more + [Read(true)], Step(after, Read(true));
  }

  /** The rest of that read: all but one byte are kept. */
  lemma RestKept(init: State, actions: seq<Action>, s: State, b: Buffer, length: nat)
    returns (more: seq<Action>, after: State)
    requires Reached(init, actions, s, length) && s.read == [] && WellFormed(b) && 1 < b.length
    requires s.reader == Holding(1, Some(b))
    ensures Reached(init, more, after, length) && after.read == [] && after.reader.NoRead?
    ensures after.partial.Some? && after.partial.value.length == b.length - 1 && WellFormed(after.partial.value)
  {
    hide Reached, Inv;
    ReachedMore(init, actions, s, length, Read(true));
    more, after := actions + [Read(true)], Step(s, Read(true));
    ReachedMore(init, more, after, length, Read(true));
    more, after := more + [Read(true)], Step(after, Read(true));
  }

  /** A read of what is kept, up to the point where it has emptied it. */
  lemma RestRead(init: State, actions: seq<Action>, s: State, b: Buffer, length: nat) returns (more: seq<Action>)
    requires Reached(init, actions, s, length) && s.read == [] && s.reader.NoRead? && s.partial == Some(b)
    requires WellFormed(b) && 0 < b.length
    ensures (0 < length ==> NoEmptyPackets(more)) && Outdated(Run(init, more))
  {
    hide Reached, Inv;
    ReachedMore(init, actions, s, length, BeginRead(b.length));
    var after := Step(s, BeginRead(b.length));
    more := actions + [BeginRead(b.length)];
    ReachedMore(init, more, after, length, Read(true));
    more, after := more + [Read(true)], Step(after, Read(true));
    ReachedRuns(init, more, after, length);
  }

  /** And one to a read that has taken what an earlier read left: the poll reports it still. */
  lemma PollOutdated(init: State, data: seq<byte>) returns (actions: seq<Action>)
    requires CanArrive(init, data) && 2 <= |data|
    ensures NoEmptyPackets(actions)
    ensures var s := Run(init, actions);
      && AllWellFormed(Waiting(s)) && !s.reader.NoRead? && s.read == []
      && DataAvailable(s) && Stream(Waiting(s)) == []
  {
    var s;
    actions, s := PacketArrives(init, data);
    hide Reached, Inv, Init, CanArrive, Run, Waiting, NoEmptyPackets, DataAvailable;
    var b := s.read[0];
    actions, s := FirstByte(init, actions, s, |data|);
    actions, s := RestKept(init, actions, s, b, |data|);
    actions := RestRead(init, actions, s, s.partial.value, |data|);
    ArriveInit(init, data);
    PollCases(init, actions);
  }

  lemma ArriveInit(init: State, data: seq<byte>)
    requires CanArrive(init, data)
    ensures Init(init)
  {}
  /** With a packet that has no data, a run leads to a wrong report with no read in progress. */
  lemma PollHollow(init: State) returns (actions: seq<Action>)
    requires CanArrive(init, [])
    ensures var s := Run(init, actions);
      && AllWellFormed(Waiting(s)) && s.reader.NoRead? && DataAvailable(s) && Stream(Waiting(s)) == []
  {
    var s;
    actions, s := PacketArrives(init, []);
    hide Reached, Inv;
    ReachedRuns(init, actions, s, 0);
    hide Run;
    PollCases(init, actions);
  }

  /** A poll at the end of this run, which delivers no empty packet, is made in this situation. */
  ghost predicate PolledIn(init: State, actions: seq<Action>, reading: bool, listed: bool)
    requires Init(init)
  {
    && NoEmptyPackets(actions)
    && reading == !Run(init, actions).reader.NoRead?
    && listed == (Run(init, actions).read != [])
  }

  /**
   Whether a read is in progress and whether the read list is empty decides if a report can
   be trusted: it is right in all runs in which it is made like that exactly when no read is
   in progress or the list is not empty.
   */
  lemma PollTrustedExactlyWhen(init: State, reading: bool, listed: bool)
    requires CanArrive(init, [0])
    ensures (forall actions :: PolledIn(init, actions, reading, listed) ==> Truthful(Run(init, actions)))
        <==> !reading || listed
  {
    hide Init, Run, NoEmptyPackets, Truthful, CanArrive;
    ArriveInit(init, [0]);
    if !reading || listed {
      forall actions | PolledIn(init, actions, reading, listed)
        ensures Truthful(Run(init, actions))
      {
        PollIsTruthful(init, actions);
      }
    } else {
      var actions := PollOverlooks(init, [0]);
      TruthfulIs(Run(init, actions));
      assert PolledIn(init, actions, reading, listed);
    }
  }
}
