/** One run of the receive event handler with no one else at work. */
module ReceiveHandler {
  import opened Buffers
  import opened Circular
  import opened Sequences
  import R = Receive

  /** What the handler works on: pool, read list, descriptor slots, and the slot it is at. */
  datatype Ring = Ring(pool: seq<Buffer>, read: seq<Buffer>, slots: seq<R.Slot>, at: nat)

  /** The slot's buffer goes to the reader, or back to the pool; the slot gets a fresh one. */
  function Replace(r: Ring, replacement: Buffer): Ring
    requires r.at < |r.slots|
  {
    var slot := r.slots[r.at];
    var next := r.(slots := r.slots[r.at := R.Renewed(slot, replacement)], at := Inc(r.at, |r.slots|));
    if slot.status != R.SUCCESS then
      next.(pool := r.pool + [slot.buffer])
    else if slot.interface < R.INTERFACES then
      next.(read := r.read + [R.Filled(slot)])
    else
      next.(pool := r.pool + [R.Filled(slot)])
  }

  function ServeOne(r: Ring): Ring
    requires r.at < |r.slots| && r.pool != []
  {
    Replace(r.(pool := r.pool[1..]), Reset(r.pool[0]))
  }

  /** Serves slots up to `end`, or until the pool has no replacement. */
  function Serve(r: Ring, end: nat): Ring
    requires r.at < |r.slots| && end < |r.slots|
    decreases Dist(r.at, end, |r.slots|)
  {
    if r.at == end || r.pool == [] then
      r
    else
      DistInc(r.at, end, |r.slots|);
      Serve(ServeOne(r), end)
  }

  // ---- what a run does, outright ---------------------------------------------------------------

  /** The buffers that filled slots hand to the reader, in order. */
  function Delivered(w: seq<R.Slot>): seq<Buffer> {
    if w == [] then
      []
    else
      (if R.Deliverable(w[0].status, w[0].interface) then [R.Filled(w[0])] else []) + Delivered(w[1..])
  }

  /** A slot ready for the device again: a whole buffer, its full length on offer. */
  predicate Ready(slot: R.Slot) {
    slot.buffer == Reset(slot.buffer) && slot.length == |slot.buffer.memory|
  }

  /**
   The slots served are a stretch from the first on, ending at `end` or where the pool ran
   dry; their packets go to the read list in order, they are ready again, and no other slot
   changes.
   */
  lemma {:induction false} ServeEffect(r: Ring, end: nat)
    requires r.at < |r.slots| && end < |r.slots|
    ensures var after, n := Serve(r, end), |r.slots|;
      && |after.slots| == n && after.at < n
      && var k := Dist(r.at, after.at, n);
      && k <= Dist(r.at, end, n) && (after.at == end || after.pool == [])
      && after.read == r.read + Delivered(Window(r.slots, r.at, k))
      && (forall i :: 0 <= i < n ==>
            var p := At(r.at, i, n);
            if i < k then Ready(after.slots[p]) else after.slots[p] == r.slots[p])
    decreases Dist(r.at, end, |r.slots|)
  {
    hide *;
    var n := |r.slots|;
    DistInc(r.at, end, n);
    ServeTurn(r, end);
    if r.at != end && r.pool != [] {
      var next, after := ServeOne(r), Serve(r, end);
      ServeOneMore(r, 0);
      ServeEffect(next, end);
      var k := Dist(next.at, after.at, n);
      StretchGrows(r.at, after.at, end, n);
      ServeOneMore(r, k);
      ServeSlots(r, next.slots, after.slots, k);
    }
  }

  lemma ServeTurn(r: Ring, end: nat)
    requires r.at < |r.slots| && end < |r.slots|
    ensures var n := |r.slots|;
      if r.at == end || r.pool == [] then
        && Serve(r, end) == r && Dist(r.at, r.at, n) == 0 && r.read == r.read + Delivered(Window(r.slots, r.at, 0))
      else
        ServeOne(r).at < |ServeOne(r).slots| == n && Serve(r, end) == Serve(ServeOne(r), end)
  {
    DistInc(r.at, end, |r.slots|);
    hide Inc;
  }

  /** A stretch that ends before `end` still does with the slot before it. */
  lemma StretchGrows(at: nat, stop: nat, end: nat, n: nat)
    requires at < n && stop < n && end < n && at != end && Inc(at, n) < n
    requires Dist(Inc(at, n), stop, n) <= Dist(Inc(at, n), end, n)
    ensures Inc(at, n) == At(at, 1, n) && Dist(Inc(at, n), stop, n) < n
    ensures Dist(at, stop, n) == Dist(Inc(at, n), stop, n) + 1 <= Dist(at, end, n)
  {
    DistInc(at, end, n);
    DistInc(at, stop, n);
    IncIs(at, n);
    hide Inc;
  }

  lemma ServeOneMore(r: Ring, k: nat)
    requires r.at < |r.slots| && r.pool != [] && k < |r.slots|
    ensures var next, n := ServeOne(r), |r.slots|;
      && next.at == Inc(r.at, n) < n && Ready(next.slots[r.at]) && |next.slots| == n
      && (forall i :: 0 <= i < n && i != r.at ==> next.slots[i] == r.slots[i])
      && next.read + Delivered(Window(next.slots, next.at, k)) == r.read + Delivered(Window(r.slots, r.at, k + 1))
  {
    hide *;
    ServeOneSlot(r);
    var next, slot := ServeOne(r), r.slots[r.at];
    WindowRest(r.slots, r.at, k, next.slots[r.at]);
    var w := Window(next.slots, next.at, k);
    DeliveredMore(slot, w);
    Regroup(r.read, Delivered([slot]), Delivered(w));
  }

  lemma ServeOneSlot(r: Ring)
    requires r.at < |r.slots| && r.pool != []
    ensures var next := ServeOne(r);
      && next.at == Inc(r.at, |r.slots|) && |next.slots| == |r.slots|
      && next.slots == r.slots[r.at := next.slots[r.at]] && Ready(next.slots[r.at])
      && next.read == r.read + Delivered([r.slots[r.at]])
  {
    DeliveredMore(r.slots[r.at], []);
    hide Inc, Delivered;
  }

  lemma DeliveredMore(slot: R.Slot, w: seq<R.Slot>)
    ensures Delivered([slot] + w) == Delivered([slot]) + Delivered(w)
    ensures Delivered([slot]) == if R.Deliverable(slot.status, slot.interface) then [R.Filled(slot)] else []
  {
    assert ([slot] + w)[1..] == w && [slot][1..] == [];
  }

  lemma ServeSlots(r: Ring, middle: seq<R.Slot>, slots: seq<R.Slot>, k: nat)
    requires var n := |r.slots|;
      && r.at < n && k < n && |middle| == n && |slots| == n
      && Ready(middle[r.at]) && (forall i :: 0 <= i < n && i != r.at ==> middle[i] == r.slots[i])
      && var from := At(r.at, 1, n);
      from < n && forall i :: 0 <= i < n ==>
        if i < k then Ready(slots[At(from, i, n)]) else slots[At(from, i, n)] == middle[At(from, i, n)]
    ensures var n := |r.slots|;
      forall i :: 0 <= i < n ==>
        if i < k + 1 then Ready(slots[At(r.at, i, n)]) else slots[At(r.at, i, n)] == r.slots[At(r.at, i, n)]
  {
    var n := |r.slots|;
    var from := At(r.at, 1, n);
    hide Ready;
    forall i | 0 <= i < n
      ensures if i < k + 1 then Ready(slots[At(r.at, i, n)]) else slots[At(r.at, i, n)] == r.slots[At(r.at, i, n)]
    {
      if i > 0 {
        assert At(from, i - 1, n) == At(r.at, i, n);
      } else {
        assert At(from, n - 1, n) == r.at;
      }
    }
  }

  // ---- the state machine's handler, undisturbed --------------------------------------------------

  function AsRing(s: R.State): Ring {
    Ring(s.pool, s.read, s.slots, R.AtNow(s))
  }

  function Turns(s: R.State): nat
    requires !s.handler.Resting? ==> s.handler.at < |s.slots| && s.handler.end < |s.slots|
  {
    match s.handler
    case Resting => 0
    case Looping(at, end, _) => 2 * Dist(at, end, |s.slots|) + 1
    case Replacing(at, end, _, _) => 2 * Dist(at, end, |s.slots|)
  }

  lemma Smaller(s: R.State)
    requires R.Inv(s) && R.Inv(R.HandleStep(s)) && !s.handler.Resting?
    ensures Turns(R.HandleStep(s)) < Turns(s)
  {
    hide R.StreamInv, R.BuffersInv, Inc, Dist;
    DistInc(s.handler.at, s.handler.end, |s.slots|);
  }

  lemma HandleKeeps(s: R.State)
    requires R.Inv(s)
    ensures R.Inv(R.HandleStep(s))
  {
    R.StepKeeps(s, R.Handle);
  }

  /** The handler alone until it rests. */
  ghost function Drive(s: R.State): R.State
    requires R.Inv(s)
    decreases Turns(s)
  {
    if s.handler.Resting? then
      s
    else
      HandleKeeps(s);
      Smaller(s);
      Drive(R.HandleStep(s))
  }

  /** Left alone, the step-by-step handler does what one run does. */
  lemma {:induction false} DriveFromLoop(s: R.State)
    requires R.Inv(s) && s.handler.Looping?
    ensures var r := Serve(AsRing(s), s.handler.end);
      Drive(s) == s.(pool := r.pool, read := r.read, slots := r.slots, head := r.at, handler := R.Resting)
    decreases Turns(s)
  {
    HandleKeeps(s);
    Smaller(s);
    var first := R.HandleStep(s);
    if s.handler.at == s.handler.end || s.pool == [] {
      assert Drive(first) == first;
    } else {
      HandleKeeps(first);
      Smaller(first);
      var second := R.HandleStep(first);
      assert AsRing(second) == ServeOne(AsRing(s));
      DriveFromLoop(second);
      hide R.Inv, Inc;
    }
  }
  /** From its start on, the handler of the state machine left alone does what one run does, up to the tail it reads. */
  lemma DriveIsServe(s: R.State)
    requires R.Inv(s) && s.handler.Resting?
    ensures R.Inv(R.StartHandlerStep(s)) && s.head < |s.slots| && s.tail < |s.slots|
    ensures var r := Serve(Ring(s.pool, s.read, s.slots, s.head), s.tail);
      Drive(R.StartHandlerStep(s)) == s.(pool := r.pool, read := r.read, slots := r.slots, head := r.at)
  {
    R.StartHandlerKeeps(s);
    hide R.Inv, Drive, Serve;
    DriveFromLoop(R.StartHandlerStep(s));
  }
}
