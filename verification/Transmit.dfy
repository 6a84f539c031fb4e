/**
 The transmit side of the serial driver as a state machine. A writer fragments user
 data into pooled buffers, an event handler moves buffers between lists and the
 descriptor ring, and the device consumes the ring. They interleave freely: each list
 operation and each register access is one step, and the handler works with a head
 value that may be stale.
 */
module Transmit {
  import opened Buffers
  import opened Bytes
  import opened Circular
  import opened Options
  import opened Sequences

  /** The event handler: its local copies of the ring registers. `filled` counts slots filled in this run. */
  datatype Handler =
    | Resting
    | Reclaiming(oldest: nat, seen: nat, end: nat)
    | Filling(seen: nat, end: nat, filled: nat)

  /** A write call: `done` bytes of `data` are copied; the last buffer of `chain` is the current one. */
  datatype Writer =
    | NoWrite
    | Allocating(data: seq<byte>, done: nat, chain: seq<Buffer>)
    | Copying(data: seq<byte>, done: nat, chain: seq<Buffer>)
    | Putting(data: seq<byte>, done: nat, chain: seq<Buffer>)

  /**
   Lists, descriptor slots, and the registers head (device's), tail and oldest (host's).
   `accepted` is what write calls reported as accepted, `queued` what was ever put on the
   write list, `consumed` what the device took.
   */
  datatype State = State(
    interface: int, pool: seq<Buffer>, write: seq<Buffer>,
    slots: seq<Option<Buffer>>, head: nat, tail: nat, oldest: nat,
    handler: Handler, writer: Writer,
    accepted: seq<byte>, queued: seq<byte>, consumed: seq<byte>)

  /** `copies` is the outcome of the writer's copy from user memory. */
  datatype Action = StartHandler | Handle | BeginWrite(data: seq<byte>) | Write(copies: bool) | Consume

  function OldestNow(s: State): nat {
    if s.handler.Reclaiming? then s.handler.oldest else s.oldest
  }

  function TailNow(s: State): nat {
    if s.handler.Resting? then s.tail else s.handler.end
  }

  function Chain(w: Writer): seq<Buffer> {
    if w.NoWrite? then [] else w.chain
  }

  // ---- steps -------------------------------------------------------------------------------

  function StartHandlerStep(s: State): State {
    if s.handler.Resting? then s.(handler := Reclaiming(s.oldest, s.head, s.tail)) else s
  }

  /** One turn of the handler's loops, or what it does between them. */
  function HandleStep(s: State): State
    requires Inv(s)
  {
    match s.handler
    case Resting => s
    case Reclaiming(oldest, seen, end) =>
      if oldest != seen then ReclaimStep(s) else s.(oldest := oldest, handler := Filling(seen, end, 0))
    case Filling(seen, end, filled) =>
      if Inc(end, |s.slots|) != seen && s.write != [] then
        FillStep(s)
      else if s.tail != end then
        s.(tail := end, handler := Resting)
      else
        s.(handler := Resting)
  }

  function ReclaimStep(s: State): State
    requires Inv(s) && s.handler.Reclaiming? && s.handler.oldest != s.handler.seen
  {
    var oldest := s.handler.oldest;
    OldestHeld(s);
    s.(pool := s.pool + [s.slots[oldest].value], slots := s.slots[oldest := None],
       handler := s.handler.(oldest := Inc(oldest, |s.slots|)))
  }

  function FillStep(s: State): State
    requires Inv(s) && s.handler.Filling? && s.write != []
  {
    var end := s.handler.end;
    s.(slots := s.slots[end := Some(s.write[0])], write := s.write[1..],
       handler := s.handler.(end := Inc(end, |s.slots|), filled := s.handler.filled + 1))
  }

  function WriteStep(s: State, copies: bool): State
    requires Inv(s)
  {
    match s.writer
    case NoWrite => s
    case Allocating(data, done, chain) =>
      if s.pool == [] then
        s.(writer := Putting(data, done, chain))
      else
        s.(pool := s.pool[1..], writer := Copying(data, done, chain + [Reset(s.pool[0])]))
    case Copying(data, done, chain) =>
      if done == |data| || !copies then
        s.(writer := Putting(data, done, chain))
      else
        s.(writer := CopyFragment(s.interface, data, done, chain))
    case Putting(data, done, chain) =>
      s.(write := s.write + chain, queued := s.queued + Stream(chain), accepted := s.accepted + data[..done],
         writer := NoWrite)
  }

  /** Fills the current buffer; only if data remains is another one asked for. */
  function CopyFragment(interface: int, data: seq<byte>, done: nat, chain: seq<Buffer>): Writer
    requires done < |data| && chain != [] && AllWellFormed(chain)
  {
    var last := |chain| - 1;
    var n := if |data| - done < chain[last].length then |data| - done else chain[last].length;
    var filled := chain[..last] + [Fill(chain[last], data[done..done + n], interface)];
    if done + n < |data| then Allocating(data, done + n, filled) else Putting(data, done + n, filled)
  }

  function ConsumeStep(s: State): State
    requires Inv(s)
  {
    if s.head == s.tail then
      s
    else
      HeadHeld(s);
      s.(consumed := s.consumed + Payload(s.slots[s.head].value), head := Inc(s.head, |s.slots|))
  }

  function Step(s: State, a: Action): State
    requires Inv(s)
  {
    match a
    case StartHandler => StartHandlerStep(s)
    case Handle => HandleStep(s)
    case BeginWrite(data) => if s.writer.NoWrite? then s.(writer := Allocating(data, 0, [])) else s
    case Write(copies) => WriteStep(s, copies)
    case Consume => ConsumeStep(s)
  }

  // ---- the invariant -------------------------------------------------------------------------

  /** The registers and the handler's copies of them are in circular order: oldest, head, tail, end. */
  ghost predicate RingOrder(s: State) {
    var n := |s.slots|;
    && s.head < n && s.tail < n && s.oldest < n && OldestNow(s) < n && TailNow(s) < n
    && Between(OldestNow(s), s.head, TailNow(s), n)
    && Between(s.head, s.tail, TailNow(s), n)
    && match s.handler
       case Resting => true
       case Reclaiming(oldest, seen, end) => end == s.tail && seen < n && Between(oldest, seen, s.head, n)
       case Filling(seen, end, filled) => seen == s.oldest && filled == Dist(s.tail, end, n)
  }

  function Held(s: State): nat
    requires RingOrder(s)
  {
    Dist(OldestNow(s), TailNow(s), |s.slots|)
  }

  /** A slot holds a buffer exactly when it lies from oldest up to the tail. */
  ghost predicate SlotsHeld(s: State) {
    && RingOrder(s)
    && forall i :: 0 <= i < |s.slots| ==> (s.slots[At(OldestNow(s), i, |s.slots|)].Some? <==> i < Held(s))
  }

  ghost predicate AllHeld(w: seq<Option<Buffer>>) {
    forall i :: 0 <= i < |w| ==> w[i].Some? && WellFormed(w[i].value)
  }

  function Values(w: seq<Option<Buffer>>): (c: seq<Buffer>)
    requires AllHeld(w)
    ensures |c| == |w| && AllWellFormed(c) && forall i :: 0 <= i < |w| ==> c[i] == w[i].value
  {
    seq(|w|, i requires 0 <= i < |w| => w[i].value)
  }

  /** The slots from oldest to the tail: buffers the device has or had. */
  function OnRing(s: State): seq<Option<Buffer>>
    requires RingOrder(s)
  {
    Window(s.slots, OldestNow(s), Held(s))
  }

  /** The slots from head to the tail: buffers the device has still to consume. */
  function Unconsumed(s: State): seq<Option<Buffer>>
    requires RingOrder(s)
  {
    Window(s.slots, s.head, Dist(s.head, TailNow(s), |s.slots|))
  }

  ghost predicate BuffersInv(s: State) {
    && RingOrder(s) && AllHeld(OnRing(s)) && AllHeld(Unconsumed(s))
    && AllWellFormed(s.write) && AllWellFormed(Chain(s.writer))
    && (s.writer.Copying? ==> s.writer.chain != [])
    && (!s.writer.NoWrite? ==> s.writer.done <= |s.writer.data|)
  }

  /** What was queued is what the device consumed, then what the ring holds for it, then the write list. */
  ghost predicate StreamInv(s: State) {
    BuffersInv(s) && s.queued == s.consumed + Stream(Values(Unconsumed(s))) + Stream(s.write)
  }

  /** Every buffer of the transmit side, wherever it is. */
  ghost function Everywhere(s: State): multiset<nat>
    requires BuffersInv(s)
  {
    Bag(s.pool) + Bag(s.write) + Bag(Values(OnRing(s))) + Bag(Chain(s.writer))
  }

  ghost predicate Inv(s: State) {
    RingOrder(s) && SlotsHeld(s) && StreamInv(s)
  }

  lemma OldestHeld(s: State)
    requires Inv(s) && s.handler.Reclaiming? && s.handler.oldest != s.handler.seen
    ensures s.handler.oldest < |s.slots| && s.slots[s.handler.oldest].Some?
  {
    assert At(OldestNow(s), 0, |s.slots|) == s.handler.oldest;
  }

  lemma HeadHeld(s: State)
    requires Inv(s) && s.head != s.tail
    ensures s.slots[s.head].Some? && WellFormed(s.slots[s.head].value)
  {
    assert Unconsumed(s)[0] == s.slots[s.head];
  }

  // ---- reclaiming --------------------------------------------------------------------------------

  lemma ReclaimOrder(s: State)
    requires Inv(s) && s.handler.Reclaiming? && s.handler.oldest != s.handler.seen
    ensures RingOrder(ReclaimStep(s)) && Held(ReclaimStep(s)) == Held(s) - 1
    ensures s.handler.oldest != TailNow(s)
  {
    hide StreamInv, SlotsHeld, Inc;
    OldestHeld(s);
    var n := |s.slots|;
    DistInc(s.handler.oldest, s.handler.seen, n);
    DistInc(s.handler.oldest, s.head, n);
    DistInc(s.handler.oldest, TailNow(s), n);
  }

  lemma ReclaimSlots(s: State)
    requires Inv(s) && s.handler.Reclaiming? && s.handler.oldest != s.handler.seen
    ensures SlotsHeld(ReclaimStep(s))
  {
    ReclaimOrder(s);
    IncIs(s.handler.oldest, |s.slots|);
    assert 0 < Held(s) < |s.slots|;
    HeldOneLess(s.slots, s.handler.oldest, Held(s));
    hide StreamInv, Inc, RingOrder, At, Between, Dist;
  }

  /** The slot reclaimed lies outside what the device still has to consume. */
  lemma OldestOutside(s: State)
    requires RingOrder(s) && s.handler.Reclaiming? && s.handler.oldest != s.handler.seen
    ensures var n, o := |s.slots|, s.handler.oldest;
      Dist(s.head, TailNow(s), n) <= Dist(s.head, o, n) < n && At(s.head, Dist(s.head, o, n), n) == o
  {}

  lemma ReclaimWindows(s: State)
    requires Inv(s) && s.handler.Reclaiming? && s.handler.oldest != s.handler.seen
    requires RingOrder(ReclaimStep(s)) && Held(ReclaimStep(s)) == Held(s) - 1
    ensures OnRing(s) == [s.slots[s.handler.oldest]] + OnRing(ReclaimStep(s))
    ensures Unconsumed(ReclaimStep(s)) == Unconsumed(s)
  {
    hide StreamInv, SlotsHeld, Inc, Between;
    var n, o, k := |s.slots|, s.handler.oldest, Held(s);
    IncIs(o, n);
    WindowPop(s.slots, o, k);
    WindowFrame(s.slots, Inc(o, n), k - 1, n - 1, None);
    OldestOutside(s);
    WindowFrame(s.slots, s.head, Dist(s.head, TailNow(s), n), Dist(s.head, o, n), None);
  }

  lemma ReclaimKeeps(s: State)
    requires Inv(s) && s.handler.Reclaiming? && s.handler.oldest != s.handler.seen
    ensures Inv(ReclaimStep(s)) && Everywhere(ReclaimStep(s)) == Everywhere(s)
  {
    ReclaimOrder(s);
    ReclaimSlots(s);
    ReclaimWindows(s);
    OldestHeld(s);
    hide Inc, RingOrder, SlotsHeld, OnRing, Unconsumed;
    var after, b := ReclaimStep(s), s.slots[s.handler.oldest].value;
    HeldRest(OnRing(s), OnRing(after), Some(b));
    hide AllHeld, Values;
    BagConcat(s.pool, [b]);
  }

  /** Taking the first slot off a window of held buffers. */
  lemma HeldRest(w: seq<Option<Buffer>>, rest: seq<Option<Buffer>>, first: Option<Buffer>)
    requires AllHeld(w) && w == [first] + rest
    ensures first.Some? && WellFormed(first.value)
    ensures AllHeld(rest) && Bag(Values(w)) == Bag([first.value]) + Bag(Values(rest))
    ensures Stream(Values(w)) == Payload(first.value) + Stream(Values(rest))
  {
    assert w[0] == first;
    forall i | 0 <= i < |rest|
      ensures rest[i].Some? && WellFormed(rest[i].value)
    {
      assert w[i + 1] == rest[i];
    }
    assert Values(w) == [first.value] + Values(rest);
    BagConcat([first.value], Values(rest));
    assert Values(w)[1..] == Values(rest);
  }

  /** Putting one more held buffer behind a window. */
  lemma HeldMore(w: seq<Option<Buffer>>, more: seq<Option<Buffer>>, b: Buffer)
    requires AllHeld(w) && more == w + [Some(b)] && WellFormed(b)
    ensures AllHeld(more) && Bag(Values(more)) == Bag(Values(w)) + Bag([b])
    ensures Stream(Values(more)) == Stream(Values(w)) + Payload(b)
  {
    assert Values(more) == Values(w) + [b];
    BagConcat(Values(w), [b]);
    StreamOne(b);
    StreamConcat(Values(w), [b]);
  }

  // ---- filling ------------------------------------------------------------------------------------

  ghost predicate CanFill(s: State) {
    Inv(s) && s.handler.Filling? && Inc(s.handler.end, |s.slots|) != s.handler.seen && s.write != []
  }

  lemma FillOrder(s: State)
    requires CanFill(s)
    ensures RingOrder(FillStep(s)) && Held(FillStep(s)) == Held(s) + 1 < |s.slots|
    ensures Dist(s.head, TailNow(FillStep(s)), |s.slots|) == Dist(s.head, TailNow(s), |s.slots|) + 1
  {
    hide StreamInv, SlotsHeld, Inc;
    var n := |s.slots|;
    DistInc(s.oldest, s.handler.end, n);
    DistInc(s.head, s.handler.end, n);
    DistInc(s.tail, s.handler.end, n);
  }

  /** The slot filled is an empty one: a held slot is never overwritten. */
  lemma FillSlots(s: State)
    requires CanFill(s)
    ensures s.slots[s.handler.end] == None
    ensures SlotsHeld(FillStep(s))
  {
    FillOrder(s);
    hide StreamInv, Inc;
    assert At(OldestNow(s), Held(s), |s.slots|) == s.handler.end;
    HeldOneMore(s.slots, OldestNow(s), Held(s), s.write[0]);
    hide RingOrder, At, Between, Dist;
  }

  /** Filling the first empty slot after those held. */
  lemma HeldOneMore<T>(slots: seq<Option<T>>, from: nat, k: nat, x: T)
    requires from < |slots| && k < |slots|
    requires forall i :: 0 <= i < |slots| ==> (slots[At(from, i, |slots|)].Some? <==> i < k)
    ensures slots[At(from, k, |slots|)] == None
    ensures var filled := slots[At(from, k, |slots|) := Some(x)];
      forall i :: 0 <= i < |slots| ==> (filled[At(from, i, |slots|)].Some? <==> i < k + 1)
  {}

  /** Emptying the first of those held. */
  lemma HeldOneLess<T>(slots: seq<Option<T>>, from: nat, k: nat)
    requires from < |slots| && 0 < k < |slots| && At(from, 1, |slots|) < |slots|
    requires forall i :: 0 <= i < |slots| ==> (slots[At(from, i, |slots|)].Some? <==> i < k)
    ensures var emptied, next := slots[from := None], At(from, 1, |slots|);
      forall i :: 0 <= i < |slots| ==> (emptied[At(next, i, |slots|)].Some? <==> i < k - 1)
  {
    var n, next := |slots|, At(from, 1, |slots|);
    forall i | 0 <= i < n
      ensures slots[from := None][At(next, i, n)].Some? <==> i < k - 1
    {
      if i < n - 1 {
        assert At(next, i, n) == At(from, i + 1, n);
      }
    }
  }

  lemma FillWindows(s: State)
    requires CanFill(s)
    ensures RingOrder(FillStep(s))
    ensures OnRing(FillStep(s)) == OnRing(s) + [Some(s.write[0])]
    ensures Unconsumed(FillStep(s)) == Unconsumed(s) + [Some(s.write[0])]
  {
    FillOrder(s);
    hide StreamInv, SlotsHeld, Inc;
    var n := |s.slots|;
    assert At(OldestNow(s), Held(s), n) == s.handler.end;
    assert At(s.head, Dist(s.head, s.handler.end, n), n) == s.handler.end;
    WindowPush(s.slots, OldestNow(s), Held(s), Some(s.write[0]));
    WindowPush(s.slots, s.head, Dist(s.head, s.handler.end, n), Some(s.write[0]));
  }

  lemma FillStream(s: State)
    requires CanFill(s) && RingOrder(FillStep(s))
    requires OnRing(FillStep(s)) == OnRing(s) + [Some(s.write[0])]
    requires Unconsumed(FillStep(s)) == Unconsumed(s) + [Some(s.write[0])]
    ensures StreamInv(FillStep(s))
  {
    var after, b := FillStep(s), s.write[0];
    assert after.consumed == s.consumed && after.queued == s.queued && after.write == s.write[1..];
    hide Inc, RingOrder, SlotsHeld, OnRing, Unconsumed;
    HeldMore(OnRing(s), OnRing(after), b);
    HeldMore(Unconsumed(s), Unconsumed(after), b);
    assert Stream(s.write) == Payload(b) + Stream(s.write[1..]);
    assert AllWellFormed(s.write[1..]);
    hide AllHeld, Values, Stream, AllWellFormed;
    Regroup(s.consumed, Stream(Values(Unconsumed(s))), Payload(b));
    Regroup(s.consumed + Stream(Values(Unconsumed(s))), Payload(b), Stream(s.write[1..]));
  }

  lemma FillKeeps(s: State)
    requires CanFill(s)
    ensures Inv(FillStep(s)) && Everywhere(FillStep(s)) == Everywhere(s)
  {
    FillOrder(s);
    FillSlots(s);
    FillWindows(s);
    FillStream(s);
    hide Inc, RingOrder, SlotsHeld, OnRing, Unconsumed;
    var after, b := FillStep(s), s.write[0];
    HeldMore(OnRing(s), OnRing(after), b);
    hide AllHeld, Values, Stream;
    BagFirst(s.write);
    BagOne(b);
  }

  // ---- between the loops ------------------------------------------------------------------------------

  lemma TurnKeeps(s: State)
    requires Inv(s)
    requires s.handler.Reclaiming? ==> s.handler.oldest == s.handler.seen
    requires s.handler.Filling? ==> Inc(s.handler.end, |s.slots|) == s.handler.seen || s.write == []
    ensures Inv(HandleStep(s)) && Everywhere(HandleStep(s)) == Everywhere(s)
  {
    hide StreamInv, SlotsHeld, Inc;
    var after := HandleStep(s);
    assert RingOrder(after) && OldestNow(after) == OldestNow(s) && TailNow(after) == TailNow(s);
    SamePlaces(s, after);
  }

  /** A step that moves no register and no buffer keeps the rest of the invariant. */
  lemma SamePlaces(s: State, after: State)
    requires Inv(s) && RingOrder(after)
    requires after == s.(tail := after.tail, oldest := after.oldest, handler := after.handler)
    requires OldestNow(after) == OldestNow(s) && TailNow(after) == TailNow(s)
    ensures Inv(after) && Everywhere(after) == Everywhere(s)
  {
    hide RingOrder, Dist;
    assert OnRing(after) == OnRing(s) && Unconsumed(after) == Unconsumed(s);
  }

  lemma HandleKeeps(s: State)
    requires Inv(s)
    ensures Inv(HandleStep(s)) && Everywhere(HandleStep(s)) == Everywhere(s)
  {
    hide StreamInv, SlotsHeld, ReclaimStep, FillStep, Inc, Everywhere;
    if s.handler.Reclaiming? && s.handler.oldest != s.handler.seen {
      ReclaimKeeps(s);
    } else if s.handler.Filling? && Inc(s.handler.end, |s.slots|) != s.handler.seen && s.write != [] {
      FillKeeps(s);
    } else {
      TurnKeeps(s);
    }
  }

  lemma StartHandlerKeeps(s: State)
    requires Inv(s)
    ensures Inv(StartHandlerStep(s)) && Everywhere(StartHandlerStep(s)) == Everywhere(s)
  {
    hide StreamInv, SlotsHeld;
    SamePlaces(s, StartHandlerStep(s));
  }

  // ---- the device ---------------------------------------------------------------------------------------

  lemma ConsumeOrder(s: State)
    requires Inv(s) && s.head != s.tail
    ensures s.slots[s.head].Some? && RingOrder(ConsumeStep(s))
    ensures var n := |s.slots|; Dist(s.head, TailNow(s), n) == Dist(Inc(s.head, n), TailNow(s), n) + 1
  {
    HeadHeld(s);
    hide StreamInv, SlotsHeld, Inc, Between, Dist;
    var n := |s.slots|;
    BetweenDrop(s.head, s.tail, TailNow(s), n);
    BetweenAdvance(OldestNow(s), s.head, TailNow(s), n);
    if s.handler.Reclaiming? {
      BetweenGrow(s.handler.oldest, s.handler.seen, s.head, n);
    }
  }

  lemma ConsumeWindows(s: State)
    requires Inv(s) && s.head != s.tail
    ensures s.slots[s.head].Some? && RingOrder(ConsumeStep(s))
    ensures Unconsumed(s) == [s.slots[s.head]] + Unconsumed(ConsumeStep(s))
    ensures OnRing(ConsumeStep(s)) == OnRing(s)
  {
    HeadHeld(s);
    ConsumeOrder(s);
    hide StreamInv, SlotsHeld, Inc, Between, Dist;
    WindowPop(s.slots, s.head, Dist(s.head, TailNow(s), |s.slots|));
  }

  lemma ConsumeKeeps(s: State)
    requires Inv(s)
    ensures Inv(ConsumeStep(s)) && Everywhere(ConsumeStep(s)) == Everywhere(s)
  {
    if s.head != s.tail {
      ConsumeWindows(s);
      var after, b := ConsumeStep(s), s.slots[s.head].value;
      hide RingOrder, Dist, Inc, OnRing, Unconsumed;
      HeldRest(Unconsumed(s), Unconsumed(after), Some(b));
      hide AllHeld, Values;
      var rest := Stream(Values(Unconsumed(after)));
      assert s.consumed + (Payload(b) + rest) == s.consumed + Payload(b) + rest;
    }
  }

  // ---- writing ------------------------------------------------------------------------------------------

  /** The writer leaves the ring alone. */
  lemma SameRing(s: State, after: State)
    requires Inv(s)
    requires after == s.(pool := after.pool, write := after.write, writer := after.writer,
                         accepted := after.accepted, queued := after.queued)
    ensures RingOrder(after) && SlotsHeld(after)
    ensures OnRing(after) == OnRing(s) && Unconsumed(after) == Unconsumed(s)
  {}

  lemma AllocateKeeps(s: State)
    requires Inv(s) && s.writer.Allocating?
    ensures forall copies :: Inv(WriteStep(s, copies)) && Everywhere(WriteStep(s, copies)) == Everywhere(s)
  {
    SameRing(s, WriteStep(s, true));
    hide RingOrder, SlotsHeld, OnRing, Unconsumed, AllHeld, Values, Stream;
    if s.pool != [] {
      var b := Reset(s.pool[0]);
      BagConcat(s.writer.chain, [b]);
      BagFirst(s.pool);
      BagOne(b);
    }
  }

  lemma CopyKeeps(s: State, copies: bool)
    requires Inv(s) && s.writer.Copying?
    ensures Inv(WriteStep(s, copies)) && Everywhere(WriteStep(s, copies)) == Everywhere(s)
  {
    SameRing(s, WriteStep(s, copies));
    hide RingOrder, SlotsHeld, OnRing, Unconsumed, AllHeld, Values, Stream, Fill;
    var Copying(data, done, chain) := s.writer;
    if done < |data| && copies {
      assert Ids(Chain(CopyFragment(s.interface, data, done, chain))) == Ids(chain);
    }
  }

  lemma PutKeeps(s: State)
    requires Inv(s) && s.writer.Putting?
    ensures forall copies :: Inv(WriteStep(s, copies)) && Everywhere(WriteStep(s, copies)) == Everywhere(s)
  {
    var after := WriteStep(s, true);
    assert forall copies :: WriteStep(s, copies) == after;
    SameRing(s, after);
    PutStream(s, after);
    PutBag(s, after);
    hide *;
  }

  lemma PutStream(s: State, after: State)
    requires Inv(s) && s.writer.Putting? && after == WriteStep(s, true)
    requires RingOrder(after) && SlotsHeld(after) && OnRing(after) == OnRing(s) && Unconsumed(after) == Unconsumed(s)
    ensures Inv(after)
  {
    hide RingOrder, SlotsHeld, OnRing, Unconsumed, AllHeld, Values;
    StreamConcat(s.write, s.writer.chain);
    hide Stream;
    Regroup(s.consumed + Stream(Values(Unconsumed(s))), Stream(s.write), Stream(s.writer.chain));
  }

  lemma PutBag(s: State, after: State)
    requires Inv(s) && s.writer.Putting? && after == WriteStep(s, true) && Inv(after)
    requires OnRing(after) == OnRing(s)
    ensures Everywhere(after) == Everywhere(s)
  {
    hide RingOrder, SlotsHeld, OnRing, Unconsumed, AllHeld, Values, StreamInv;
    BagConcat(s.write, s.writer.chain);
    BagNone();
    hide Bag;
  }

  lemma WriteKeeps(s: State, copies: bool)
    requires Inv(s)
    ensures Inv(WriteStep(s, copies)) && Everywhere(WriteStep(s, copies)) == Everywhere(s)
  {
    hide Inv, Everywhere;
    match s.writer
    case NoWrite =>
    case Allocating(_, _, _) => AllocateKeeps(s);
    case Copying(_, _, _) => CopyKeeps(s, copies);
    case Putting(_, _, _) => PutKeeps(s);
  }

  lemma StepKeeps(s: State, a: Action)
    requires Inv(s)
    ensures Inv(Step(s, a)) && Everywhere(Step(s, a)) == Everywhere(s)
  {
    hide HandleStep, ConsumeStep, WriteStep, StartHandlerStep, RingOrder, SlotsHeld, OnRing, Unconsumed;
    match a
    case StartHandler => StartHandlerKeeps(s);
    case Handle => HandleKeeps(s);
    case BeginWrite(_) => SameRing(s, Step(s, a));
    case Write(copies) => WriteKeeps(s, copies);
    case Consume => ConsumeKeeps(s);
  }

  // ---- runs ----------------------------------------------------------------------------------------------

  /** Registers at one position of an empty ring, and every buffer in the pool. */
  ghost predicate Init(s: State) {
    && s.head == s.tail == s.oldest < |s.slots|
    && (forall i :: 0 <= i < |s.slots| ==> s.slots[i] == None)
    && s.handler.Resting? && s.writer.NoWrite?
    && s.write == [] && s.accepted == [] && s.queued == [] && s.consumed == []
  }

  lemma InitInv(s: State)
    requires Init(s)
    ensures Inv(s) && Everywhere(s) == Bag(s.pool)
  {
    assert Window(s.slots, s.head, 0) == [];
    assert Values([]) == [];
    assert Ids([]) == [];
  }

  ghost function Run(init: State, actions: seq<Action>): (s: State)
    requires Init(init)
    ensures Inv(s)
  {
    if actions == [] then
      InitInv(init);
      init
    else
      var before := Run(init, actions[..|actions| - 1]);
      var a := actions[|actions| - 1];
      StepKeeps(before, a);
      Step(before, a)
  }

  /**
   In every interleaving: the device consumes exactly what was queued, in order; a slot
   holds a buffer exactly when it lies between old and the tail; and a run of the handler
   moves the tail register exactly when it filled a slot.
   */
  lemma EveryInterleavingKeepsOrder(init: State, actions: seq<Action>)
    requires Init(init)
    ensures var s := Run(init, actions);
      && s.consumed <= s.queued
      && s.queued[|s.consumed|..] == Stream(Values(Unconsumed(s))) + Stream(s.write)
      && SlotsHeld(s)
      && (s.handler.Filling? ==> (s.tail != s.handler.end <==> 0 < s.handler.filled))
  {
    var s := Run(init, actions);
    assert s.handler.Filling? ==> (s.tail != s.handler.end <==> 0 < s.handler.filled);
    hide *;
    var rest := Stream(Values(Unconsumed(s))) + Stream(s.write);
    assert s.queued == s.consumed + rest by {
      QueuedInOrder(s);
    }
  }

  lemma QueuedInOrder(s: State)
    requires Inv(s)
    ensures s.queued == s.consumed + (Stream(Values(Unconsumed(s))) + Stream(s.write))
  {
    hide RingOrder, SlotsHeld, Unconsumed, Values, Stream;
  }

  /** In every interleaving each buffer of the pool is in exactly one place. */
  lemma {:induction false} BuffersConserved(init: State, actions: seq<Action>)
    requires Init(init)
    ensures var s := Run(init, actions);
      Bag(s.pool) + Bag(s.write) + Bag(Values(OnRing(s))) + Bag(Chain(s.writer)) == Bag(init.pool)
  {
    if actions == [] {
      InitInv(init);
    } else {
      hide Init, Inv, Step, Bag;
      BuffersConserved(init, actions[..|actions| - 1]);
      StepKeeps(Run(init, actions[..|actions| - 1]), actions[|actions| - 1]);
    }
  }

  // ---- what writes report ------------------------------------------------------------------------------

  /** Every write has data, and no copy from user memory fails. */
  ghost predicate CleanActions(actions: seq<Action>) {
    forall a :: a in actions ==> (a.BeginWrite? ==> a.data != []) && (a.Write? ==> a.copies)
  }

  /** The chain of a call holds what the call has copied; only a buffer about to be filled is still whole. */
  ghost predicate CleanWriter(w: Writer) {
    match w
    case NoWrite => true
    case Allocating(data, done, chain) => done < |data| && AllWellFormed(chain) && Stream(chain) == data[..done]
    case Copying(data, done, chain) =>
      && done < |data| && chain != [] && AllWellFormed(chain)
      && Stream(chain[..|chain| - 1]) == data[..done]
    case Putting(data, done, chain) => done <= |data| && AllWellFormed(chain) && Stream(chain) == data[..done]
  }

  lemma CleanCopy(interface: int, data: seq<byte>, done: nat, chain: seq<Buffer>)
    requires CleanWriter(Copying(data, done, chain))
    ensures CleanWriter(CopyFragment(interface, data, done, chain))
  {
    var last := |chain| - 1;
    var n := if |data| - done < chain[last].length then |data| - done else chain[last].length;
    assert AllWellFormed(chain[..last]) && WellFormed(chain[last]);
    CleanMore(interface, data, done, chain[..last], chain[last], n);
    hide AllWellFormed, Stream, Fill, WellFormed;
  }

  lemma CleanMore(interface: int, data: seq<byte>, done: nat, before: seq<Buffer>, b: Buffer, n: nat)
    requires AllWellFormed(before) && WellFormed(b) && done + n <= |data| && n <= b.length
    requires Stream(before) == data[..done]
    ensures var filled := before + [Fill(b, data[done..done + n], interface)];
      AllWellFormed(filled) && Stream(filled) == data[..done + n]
  {
    var filled := Fill(b, data[done..done + n], interface);
    StreamOne(filled);
    StreamConcat(before, [filled]);
    hide Stream, Fill, AllWellFormed, WellFormed;
    assert data[..done + n] == data[..done] + data[done..done + n];
  }

  lemma CleanStep(s: State, a: Action)
    requires Inv(s) && CleanWriter(s.writer) && s.accepted == s.queued
    requires (a.BeginWrite? ==> a.data != []) && (a.Write? ==> a.copies)
    ensures CleanWriter(Step(s, a).writer) && Step(s, a).accepted == Step(s, a).queued
  {
    hide RingOrder, SlotsHeld, StreamInv, OnRing, Unconsumed, CopyFragment;
    match a
    case Write(_) =>
      if s.writer.Copying? {
        CleanCopy(s.interface, s.writer.data, s.writer.done, s.writer.chain);
      } else if s.writer.Allocating? && s.pool != [] {
        var chain := s.writer.chain;
        assert (chain + [Reset(s.pool[0])])[..|chain|] == chain;
      }
    case _ =>
  }

  lemma {:induction false} CleanRun(init: State, actions: seq<Action>)
    requires Init(init) && CleanActions(actions)
    ensures CleanWriter(Run(init, actions).writer) && Run(init, actions).accepted == Run(init, actions).queued
  {
    if actions != [] {
      hide Init, Inv, Step, CleanWriter;
      CleanRun(init, actions[..|actions| - 1]);
      CleanStep(Run(init, actions[..|actions| - 1]), actions[|actions| - 1]);
    }
  }

  /**
   In every interleaving of non-empty writes whose copies succeed, with handler runs and
   the device: the bytes the writes reported as accepted are those the device consumed,
   then those in the slots from head to tail, then those on the write list, in order.
   */
  lemma AcceptedBytesArriveInOrder(init: State, actions: seq<Action>)
    requires Init(init) && CleanActions(actions)
    ensures var s := Run(init, actions);
      s.accepted == s.consumed + Stream(Values(Unconsumed(s))) + Stream(s.write)
  {
    CleanRun(init, actions);
    hide Run, RingOrder, SlotsHeld, Unconsumed, Values, Stream;
  }
  // ---- the device, undisturbed ---------------------------------------------------------------------------

  /** The device consumes until the ring is empty. */
  ghost function Drain(s: State): State
    requires Inv(s)
    decreases if RingOrder(s) then Dist(s.head, s.tail, |s.slots|) else 0
  {
    if s.head == s.tail then
      s
    else
      ConsumeCloser(s);
      Drain(ConsumeStep(s))
  }

  lemma ConsumeCloser(s: State)
    requires Inv(s) && s.head != s.tail
    ensures RingOrder(s)
    ensures var after := ConsumeStep(s);
      && Inv(after) && RingOrder(after) && after == s.(head := after.head, consumed := after.consumed)
      && Dist(after.head, after.tail, |after.slots|) == Dist(s.head, s.tail, |s.slots|) - 1
  {
    ConsumeKeeps(s);
    hide StreamInv, SlotsHeld, Inc;
    DistInc(s.head, s.tail, |s.slots|);
    HeadHeld(s);
  }

  lemma {:induction false} DrainKeeps(s: State)
    requires Inv(s)
    ensures Inv(Drain(s)) && Drain(s) == s.(head := s.tail, consumed := Drain(s).consumed)
    decreases if RingOrder(s) then Dist(s.head, s.tail, |s.slots|) else 0
  {
    hide Inv, ConsumeStep;
    if s.head != s.tail {
      ConsumeCloser(s);
      DrainKeeps(ConsumeStep(s));
    }
  }

  /** Left alone, the device empties the ring: between runs of the handler only the write list is left unconsumed. */
  lemma DrainsRing(s: State)
    requires Inv(s) && s.handler.Resting?
    ensures AllWellFormed(s.write) && Drain(s) == s.(head := s.tail, consumed := Drain(s).consumed)
    ensures s.queued == Drain(s).consumed + Stream(s.write)
  {
    hide Drain, Inv;
    DrainKeeps(s);
    NothingOnRing(Drain(s));
  }

  lemma NothingOnRing(s: State)
    requires Inv(s) && s.handler.Resting? && s.head == s.tail
    ensures AllWellFormed(s.write) && s.queued == s.consumed + Stream(s.write)
  {
    assert Unconsumed(s) == [] && Values([]) == [];
    assert s.consumed + [] == s.consumed;
    hide SlotsHeld, Unconsumed;
  }
}
