/**
 One run of the transmit event handler with no one else at work, for buffers of any
 kind: values in the state machine, descriptors on the heap.
 */
module RingHandler {
  import opened Buffers
  import opened Bytes
  import opened Circular
  import opened Options
  import T = Transmit

  /** What the handler works on: pool, write list, descriptor slots, and its own two registers. */
  datatype Ring<B> = Ring(pool: seq<B>, write: seq<B>, slots: seq<Option<B>>, oldest: nat, tail: nat)

  predicate Loaded<B>(slots: seq<Option<B>>, from: nat, k: nat)
    requires from < |slots| && k <= |slots|
  {
    forall i :: 0 <= i < k ==> slots[At(from, i, |slots|)].Some?
  }

  ghost predicate Sound<B>(r: Ring<B>, head: nat) {
    var n := |r.slots|;
    r.oldest < n && r.tail < n && head < n && Loaded(r.slots, r.oldest, Dist(r.oldest, head, n))
  }

  ghost function Remaining<B>(r: Ring<B>, head: nat): nat
    requires Sound(r, head)
  {
    Dist(r.oldest, head, |r.slots|)
  }

  lemma LoadedRest<B>(r: Ring<B>, head: nat)
    requires Sound(r, head) && r.oldest != head
    ensures r.oldest < |r.slots| && r.slots[r.oldest].Some?
    ensures Sound(ReclaimOne(r), head) && Remaining(ReclaimOne(r), head) == Remaining(r, head) - 1
  {
    var n := |r.slots|;
    assert At(r.oldest, 0, n) == r.oldest;
    DistInc(r.oldest, head, n);
    IncIs(r.oldest, n);
    hide Inc;
    var after := ReclaimOne(r);
    forall i | 0 <= i < Dist(after.oldest, head, n)
      ensures after.slots[At(after.oldest, i, n)].Some?
    {
      assert At(after.oldest, i, n) == At(r.oldest, i + 1, n);
    }
  }

  function ReclaimOne<B>(r: Ring<B>): Ring<B>
    requires r.oldest < |r.slots|
  {
    match r.slots[r.oldest]
    case None => r.(oldest := Inc(r.oldest, |r.slots|))
    case Some(b) => r.(pool := r.pool + [b], slots := r.slots[r.oldest := None], oldest := Inc(r.oldest, |r.slots|))
  }

  /** Frees the buffers of the slots before head. */
  ghost function Reclaim<B>(r: Ring<B>, head: nat): Ring<B>
    requires Sound(r, head)
    decreases Remaining(r, head)
  {
    if r.oldest == head then
      r
    else
      LoadedRest(r, head);
      Reclaim(ReclaimOne(r), head)
  }

  function FillOne<B>(r: Ring<B>): Ring<B>
    requires r.tail < |r.slots| && r.write != []
  {
    r.(write := r.write[1..], slots := r.slots[r.tail := Some(r.write[0])], tail := Inc(r.tail, |r.slots|))
  }

  /** Fills slots from tail on while there are buffers to send and a slot is left before head. */
  function Fill<B>(r: Ring<B>, head: nat): Ring<B>
    requires r.tail < |r.slots|
    decreases |r.write|
  {
    if Inc(r.tail, |r.slots|) == head || r.write == [] then r else Fill(FillOne(r), head)
  }

  ghost function Run<B>(r: Ring<B>, head: nat): Ring<B>
    requires Sound(r, head)
  {
    ReclaimTail(r, head);
    Fill(Reclaim(r, head), head)
  }

  // ---- what a run does, outright -------------------------------------------------------------

  lemma {:induction false} ReclaimTail<B>(r: Ring<B>, head: nat)
    requires Sound(r, head)
    ensures var after := Reclaim(r, head);
      after.tail == r.tail && after.write == r.write && |after.slots| == |r.slots| && after.oldest == head
    decreases Remaining(r, head)
  {
    if r.oldest != head {
      LoadedRest(r, head);
      hide Sound, Inc;
      ReclaimTail(ReclaimOne(r), head);
    }
  }

  /** The slots between old and head are emptied, their buffers freed in order, and nothing else changes. */
  lemma {:induction false} ReclaimEffect<B>(r: Ring<B>, head: nat)
    requires Sound(r, head)
    ensures var after, k, n := Reclaim(r, head), Dist(r.oldest, head, |r.slots|), |r.slots|;
      && |after.slots| == n && after.oldest == head && after.tail == r.tail && after.write == r.write
      && |after.pool| == |r.pool| + k && r.pool <= after.pool
      && (forall i :: 0 <= i < k ==> Some(after.pool[|r.pool| + i]) == r.slots[At(r.oldest, i, n)])
      && (forall i :: 0 <= i < n ==>
            after.slots[At(r.oldest, i, n)] == if i < k then None else r.slots[At(r.oldest, i, n)])
    decreases Remaining(r, head)
  {
    var n, k := |r.slots|, Dist(r.oldest, head, |r.slots|);
    if r.oldest != head {
      LoadedRest(r, head);
      var next, after := ReclaimOne(r), Reclaim(r, head);
      ReclaimEffect(next, head);
      IncIs(r.oldest, n);
      hide Inc, Sound, Reclaim, Dist;
      ReclaimMore(r.pool, r.slots, r.oldest, after.pool, after.slots, k);
    }
  }

  /** The first slot emptied, then the others. */
  lemma ReclaimMore<B>(pool: seq<B>, slots: seq<Option<B>>, oldest: nat, freed: seq<B>, emptied: seq<Option<B>>, k: nat)
    requires oldest < |slots| == |emptied| && 0 < k < |slots| && slots[oldest].Some?
    requires var n, next, middle := |slots|, At(oldest, 1, |slots|), slots[oldest := None];
      && next < n && |freed| == |pool| + 1 + (k - 1) && pool + [slots[oldest].value] <= freed
      && (forall i :: 0 <= i < k - 1 ==> Some(freed[|pool| + 1 + i]) == middle[At(next, i, n)])
      && (forall i :: 0 <= i < n ==> emptied[At(next, i, n)] == if i < k - 1 then None else middle[At(next, i, n)])
    ensures pool <= freed
    ensures forall i :: 0 <= i < k ==> Some(freed[|pool| + i]) == slots[At(oldest, i, |slots|)]
    ensures forall i :: 0 <= i < |slots| ==>
      emptied[At(oldest, i, |slots|)] == if i < k then None else slots[At(oldest, i, |slots|)]
  {
    var n, next := |slots|, At(oldest, 1, |slots|);
    assert freed[|pool|] == (pool + [slots[oldest].value])[|pool|];
    forall i | 0 <= i < k
      ensures Some(freed[|pool| + i]) == slots[At(oldest, i, n)]
    {
      if i > 0 {
        assert At(next, i - 1, n) == At(oldest, i, n);
      }
    }
    forall i | 0 <= i < n
      ensures emptied[At(oldest, i, n)] == if i < k then None else slots[At(oldest, i, n)]
    {
      if i > 0 {
        assert At(next, i - 1, n) == At(oldest, i, n);
      } else {
        assert At(next, n - 1, n) == oldest;
      }
    }
  }

  /** How many of w buffers the ring takes, and that taking one leaves one less to take. */
  lemma RoomLeft(w: nat, head: nat, tail: nat, n: nat)
    requires head < n && tail < n
    ensures Inc(tail, n) == At(tail, 1, n) < n && At(tail, 0, n) == tail
    ensures Dist(head, tail, n) < n
    ensures var m := Min(w, n - 1 - Dist(head, tail, n));
      && m <= w && m < n
      && if w == 0 || Inc(tail, n) == head then
           m == 0
         else
           && 0 < m && Min(w - 1, n - 1 - Dist(head, Inc(tail, n), n)) == m - 1
           && At(Inc(tail, n), m - 1, n) == At(tail, m, n)
  {
    DistInc(head, tail, n);
    IncIs(tail, n);
    hide Inc;
  }

  lemma FillTurn<B>(r: Ring<B>, head: nat)
    requires r.tail < |r.slots| && head < |r.slots|
    ensures if r.write == [] || Inc(r.tail, |r.slots|) == head then
        Fill(r, head) == r
      else
        && Inc(r.tail, |r.slots|) < |r.slots| && Fill(r, head) == Fill(FillOne(r), head)
        && FillOne(r) == r.(write := r.write[1..], slots := r.slots[r.tail := Some(r.write[0])],
                            tail := Inc(r.tail, |r.slots|))
  {
    DistInc(head, r.tail, |r.slots|);
    hide Inc;
  }

  /** From `tail` on, `m` slots hold the first buffers of the write list, and the others what they held. */
  ghost predicate FilledFrom<B>(slots: seq<Option<B>>, tail: nat, write: seq<B>, m: nat, after: seq<Option<B>>) {
    && tail < |slots| == |after| && m <= |write|
    && forall i :: 0 <= i < |slots| ==>
         after[At(tail, i, |slots|)] == if i < m then Some(write[i]) else slots[At(tail, i, |slots|)]
  }

  lemma NoneFilled<B>(slots: seq<Option<B>>, tail: nat, write: seq<B>)
    requires tail < |slots|
    ensures write[0..] == write && FilledFrom(slots, tail, write, 0, slots)
  {}

  /** As many buffers as there is room for, one slot staying free, go to the slots from tail on, in order. */
  lemma {:induction false} FillEffect<B>(r: Ring<B>, head: nat)
    requires r.tail < |r.slots| && head < |r.slots|
    ensures var after, n := Fill(r, head), |r.slots|;
      var m := Min(|r.write|, n - 1 - Dist(head, r.tail, n));
      && |after.slots| == n && after.oldest == r.oldest && after.pool == r.pool
      && after.tail == At(r.tail, m, n) && after.write == r.write[m..]
      && FilledFrom(r.slots, r.tail, r.write, m, after.slots)
    decreases |r.write|
  {
    hide *;
    RoomLeft(|r.write|, head, r.tail, |r.slots|);
    FillTurn(r, head);
    if r.write == [] || Inc(r.tail, |r.slots|) == head {
      NoneFilled(r.slots, r.tail, r.write);
    } else {
      var n := |r.slots|;
      var m := Min(|r.write|, n - 1 - Dist(head, r.tail, n));
      FillEffect(FillOne(r), head);
      assert r.write[1..][m - 1..] == r.write[m..];
      FillMore(r.slots, r.write, r.tail, Fill(r, head).slots, m);
    }
  }

  /** The first slot filled, then the others. */
  lemma FillMore<B>(slots: seq<Option<B>>, write: seq<B>, tail: nat, filled: seq<Option<B>>, m: nat)
    requires tail < |slots| == |filled| && 0 < m <= |write| && m < |slots|
    requires FilledFrom(slots[tail := Some(write[0])], At(tail, 1, |slots|), write[1..], m - 1, filled)
    ensures FilledFrom(slots, tail, write, m, filled)
  {
    var n, next := |slots|, At(tail, 1, |slots|);
    forall i | 0 <= i < n
      ensures filled[At(tail, i, n)] == if i < m then Some(write[i]) else slots[At(tail, i, n)]
    {
      if i > 0 {
        assert At(next, i - 1, n) == At(tail, i, n);
      } else {
        assert At(next, n - 1, n) == tail;
      }
    }
  }

  // ---- the state machine's handler, undisturbed ---------------------------------------------------

  function AsRing(s: T.State): Ring<Buffer> {
    Ring(s.pool, s.write, s.slots, T.OldestNow(s), T.TailNow(s))
  }

  /** How far the handler is from its end: the phase, then the turns left in its loop at most. */
  function Phase(s: T.State): nat {
    match s.handler
    case Resting => 0
    case Filling(_, _, _) => 1
    case Reclaiming(_, _, _) => 2
  }

  function Turns(s: T.State): nat
    requires s.handler.Reclaiming? ==> s.handler.oldest < |s.slots| && s.handler.seen < |s.slots|
  {
    if s.handler.Reclaiming? then Dist(s.handler.oldest, s.handler.seen, |s.slots|) else |s.write|
  }

  /** The handler alone until it rests. */
  ghost function Drive(s: T.State): T.State
    requires T.Inv(s)
    decreases Phase(s), Turns(s)
  {
    if s.handler.Resting? then
      s
    else
      T.HandleKeeps(s);
      DriveSmaller(s);
      Drive(T.HandleStep(s))
  }

  lemma DriveSmaller(s: T.State)
    requires T.Inv(s) && T.Inv(T.HandleStep(s)) && !s.handler.Resting?
    ensures var after := T.HandleStep(s);
      Phase(after) < Phase(s) || (Phase(after) == Phase(s) && Turns(after) < Turns(s))
  {
    hide T.StreamInv, T.SlotsHeld, Inc;
    if s.handler.Reclaiming? && s.handler.oldest != s.handler.seen {
      DistInc(s.handler.oldest, s.handler.seen, |s.slots|);
    }
  }

  lemma HandlerSound(s: T.State)
    requires T.Inv(s) && s.handler.Reclaiming?
    ensures Sound(AsRing(s), s.handler.seen)
  {
    hide T.StreamInv;
  }

  lemma {:induction false} DriveReclaims(s: T.State)
    requires T.Inv(s) && s.handler.Reclaiming?
    ensures Sound(AsRing(s), s.handler.seen)
    ensures var r := Reclaim(AsRing(s), s.handler.seen);
      var after := s.(pool := r.pool, slots := r.slots, oldest := r.oldest,
                      handler := T.Filling(s.handler.seen, s.handler.end, 0));
      T.Inv(after) && Drive(s) == Drive(after)
    decreases Turns(s)
  {
    HandlerSound(s);
    T.HandleKeeps(s);
    DriveSmaller(s);
    var next := T.HandleStep(s);
    if s.handler.oldest != s.handler.seen {
      HandlerSound(next);
      DriveReclaims(next);
      T.OldestHeld(s);
      assert AsRing(next) == ReclaimOne(AsRing(s));
      hide T.Inv, Sound, Inc;
    }
  }

  lemma {:induction false} DriveFills(s: T.State)
    requires T.Inv(s) && s.handler.Filling?
    ensures s.handler.end < |s.slots|
    ensures var r := Fill(AsRing(s), s.handler.seen);
      Drive(s) == s.(write := r.write, slots := r.slots, tail := r.tail, handler := T.Resting)
    decreases |s.write|
  {
    T.HandleKeeps(s);
    DriveSmaller(s);
    var next := T.HandleStep(s);
    if next.handler.Filling? {
      DriveFills(next);
      assert AsRing(next) == FillOne(AsRing(s));
      hide T.Inv, Inc;
    } else {
      assert Drive(next) == next;
      hide T.Inv, Inc;
    }
  }

  /** The machine between the handler's two loops, after an undisturbed first loop. */
  ghost function Reclaimed(s: T.State): T.State
    requires s.handler.Resting? && Sound(AsRing(s), s.head)
  {
    var r := Reclaim(AsRing(s), s.head);
    s.(pool := r.pool, slots := r.slots, oldest := r.oldest, handler := T.Filling(s.head, s.tail, 0))
  }

  lemma DriveToReclaimed(s: T.State)
    requires T.Inv(s) && s.handler.Resting?
    ensures T.Inv(T.StartHandlerStep(s)) && Sound(AsRing(s), s.head)
    ensures T.Inv(Reclaimed(s)) && Drive(T.StartHandlerStep(s)) == Drive(Reclaimed(s))
  {
    T.StartHandlerKeeps(s);
    var started := T.StartHandlerStep(s);
    assert AsRing(started) == AsRing(s);
    HandlerSound(started);
    DriveReclaims(started);
    hide T.Inv, Reclaim, Drive, Sound;
    ReclaimTail(AsRing(started), s.head);
  }

  /** After a run nothing is left to reclaim before the next. */
  lemma RunSound<B>(r: Ring<B>, head: nat)
    requires Sound(r, head)
    ensures Sound(Run(r, head), head)
  {
    ReclaimTail(r, head);
    FillEffect(Reclaim(r, head), head);
    hide Fill, Reclaim;
  }

  /** Left alone, the step-by-step handler does what one run does. */
  lemma DriveIsRun(s: T.State)
    requires T.Inv(s) && s.handler.Resting?
    ensures T.Inv(T.StartHandlerStep(s)) && Sound(AsRing(s), s.head)
    ensures var r := Run(AsRing(s), s.head);
      Drive(T.StartHandlerStep(s))
        == s.(pool := r.pool, write := r.write, slots := r.slots, oldest := r.oldest, tail := r.tail)
  {
    DriveToReclaimed(s);
    hide T.Inv, Reclaim, Fill, Drive, Sound;
    ReclaimTail(AsRing(s), s.head);
    var r := Reclaim(AsRing(s), s.head);
    FillFrame(r, s.head);
    assert AsRing(Reclaimed(s)) == r;
    DriveFills(Reclaimed(s));
  }

  lemma {:induction false} FillFrame<B>(r: Ring<B>, head: nat)
    requires r.tail < |r.slots|
    ensures Fill(r, head).pool == r.pool && Fill(r, head).oldest == r.oldest
    decreases |r.write|
  {
    if Inc(r.tail, |r.slots|) != head && r.write != [] {
      FillFrame(FillOne(r), head);
    }
  }
}
