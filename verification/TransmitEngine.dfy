/**
 The transmit side of the serial driver on the heap: pool and write list are linked
 lists of descriptors, the slots of the ring an array. Moving descriptors about changes
 no payload, which the modifies clauses say: only `next` fields of descriptors change.
 */
module TransmitEngines {
  import opened BufferLists
  import opened Circular
  import opened Options
  import opened Sequences
  import H = RingHandler

  /** Slots as options: NULL is an empty slot. */
  function Refs(c: seq<BufferDescriptor?>): (r: seq<Option<BufferDescriptor>>)
    ensures |r| == |c|
    ensures forall i :: 0 <= i < |c| ==> r[i] == if c[i] == null then None else Some(c[i])
  {
    seq(|c|, i requires 0 <= i < |c| => if c[i] == null then None else Some(c[i]))
  }

  /** No descriptor is in two places. */
  ghost predicate Separate(pool: seq<BufferDescriptor>, write: seq<BufferDescriptor>, slots: seq<BufferDescriptor?>) {
    && (forall i, j :: 0 <= i < |pool| && 0 <= j < |write| ==> pool[i] != write[j])
    && (forall i, j :: 0 <= i < |pool| && 0 <= j < |slots| ==> pool[i] != slots[j])
    && (forall i, j :: 0 <= i < |write| && 0 <= j < |slots| ==> write[i] != slots[j])
    && (forall i, j :: 0 <= i < j < |slots| && slots[i] != null ==> slots[i] != slots[j])
  }

  class TransmitEngine {
    const interface: int
    const pool: BufferList
    const write: BufferList
    const slots: array<BufferDescriptor?>
    var head: nat
    var tail: nat
    var oldest: nat

    /** An empty ring at some position. */
    constructor (interface: int, pool: BufferList, ndesc: nat, position: nat)
      requires pool.Valid() && position < ndesc
      ensures this.interface == interface && this.pool == pool && slots.Length == ndesc
      ensures fresh(write) && fresh(slots)
      ensures head == tail == oldest == position && Valid()
      ensures Ring() == H.Ring(pool.items, [], seq(ndesc, _ => None), position, position)
    {
      this.interface, this.pool := interface, pool;
      write := new BufferList();
      slots := new BufferDescriptor?[ndesc](_ => null);
      head, tail, oldest := position, position, position;
    }

    /** Everything the handler works on, given its own two registers. */
    ghost function RingAt(oldest: nat, tail: nat): H.Ring<BufferDescriptor>
      reads pool, write, slots
    {
      H.Ring(pool.items, write.items, Refs(slots[..]), oldest, tail)
    }

    ghost function Ring(): H.Ring<BufferDescriptor>
      reads this, pool, write, slots
    {
      RingAt(oldest, tail)
    }

    /** Sound lists, no descriptor in two places, and none linked to another while in a slot. */
    ghost predicate Sound()
      reads pool, write, slots, pool.items`next, pool.items`length, write.items`next, write.items`length
      reads (set b: BufferDescriptor | b in slots[..])`next
    {
      && pool != write && pool.Valid() && write.Valid()
      && Separate(pool.items, write.items, slots[..])
      && forall i :: 0 <= i < slots.Length && slots[i] != null ==> slots[i].next == null
    }

    ghost predicate Valid()
      reads this, pool, write, slots, pool.items`next, pool.items`length, write.items`next, write.items`length
      reads (set b: BufferDescriptor | b in slots[..])`next
    {
      Sound() && H.Sound(Ring(), head)
    }

    /** Frees the buffer of the slot at `at`. */
    method ReclaimOne(at: nat, ghost tail: nat)
      requires Sound() && at < slots.Length && slots[at] != null
      modifies pool, slots, pool.items`next
      ensures Sound()
      ensures pool.items == old(pool.items) + [old(slots[at])] && slots[..] == old(slots[..])[at := null]
      ensures RingAt(Inc(at, slots.Length), tail) == H.ReclaimOne(old(RingAt(at, tail)))
    {
      var bd := slots[at];
      ghost var before := slots[..];
      PoolApart(at);
      hide Distinct, Linked, TotalLength, Separate;
      var _ := pool.Put(bd, [bd]);
      slots[at] := null;
      assert slots[..] == before[at := null];
      assert Refs(slots[..]) == Refs(before)[at := None];
      Moved(old(pool.items), bd, write.items, before, at);
    }

    lemma PoolApart(at: nat)
      requires Sound() && at < slots.Length && slots[at] != null
      ensures Distinct(pool.items + [slots[at]]) && Linked([slots[at]])
    {}

    /** A descriptor moved from a slot to the pool is still in one place only. */
    static lemma Moved(pool: seq<BufferDescriptor>, bd: BufferDescriptor, write: seq<BufferDescriptor>,
                       slots: seq<BufferDescriptor?>, at: nat)
      requires Separate(pool, write, slots) && at < |slots| && slots[at] == bd
      ensures Separate(pool + [bd], write, slots[at := null])
    {}

    /** Gives the slot at `at` the first buffer of the write list, if there is one. */
    method FillOne(at: nat, ghost oldest: nat) returns (filled: bool)
      requires Sound() && at < slots.Length
      modifies write, slots, write.items`next
      ensures Sound()
      ensures filled <==> old(write.items) != []
      ensures write.items == if filled then old(write.items)[1..] else []
      ensures RingAt(oldest, if filled then Inc(at, slots.Length) else at)
           == if filled then H.FillOne(old(RingAt(oldest, at))) else old(RingAt(oldest, at))
    {
      ghost var waiting, before := write.items, slots[..];
      WriteApart(at);
      hide Distinct, Linked, TotalLength, Separate;
      var bd := write.Get();
      if bd == null {
        return false;
      }
      slots[at] := bd;
      assert slots[..] == before[at := bd];
      assert Refs(slots[..]) == Refs(before)[at := Some(bd)];
      filled := true;
    }

    lemma WriteApart(at: nat)
      requires Sound() && at < slots.Length
      ensures write.items != [] ==>
        Separate(pool.items, write.items[1..], slots[..][at := write.items[0]])
    {}

    /** The handler's first loop. */
    method ReclaimAll(seen: nat, ghost tail: nat) returns (at: nat)
      requires Sound() && H.Sound(RingAt(oldest, tail), seen)
      modifies pool, slots, pool.items`next, (set b: BufferDescriptor | b in slots[..])`next
      ensures Sound() && RingAt(at, tail) == H.Reclaim(old(RingAt(oldest, tail)), seen)
    {
      hide Separate, Distinct, Linked, TotalLength, H.Sound, H.ReclaimOne;
      at := oldest;
      while at != seen
        invariant Sound() && H.Sound(RingAt(at, tail), seen)
        invariant H.Reclaim(RingAt(at, tail), seen) == H.Reclaim(old(RingAt(oldest, tail)), seen)
        invariant forall b :: b in pool.items ==> b in old(pool.items) || b in old(slots[..])
        invariant forall b: BufferDescriptor :: b in slots[..] ==> b in old(slots[..])
        decreases H.Remaining(RingAt(at, tail), seen)
      {
        H.LoadedRest(RingAt(at, tail), seen);
        ReclaimOne(at, tail);
        at := (at + 1) % slots.Length;
      }
    }

    /** The handler's second loop. */
    method FillAll(seen: nat) returns (at: nat)
      requires Sound() && tail < slots.Length
      modifies write, slots, write.items`next
      ensures Sound() && RingAt(oldest, at) == H.Fill(old(RingAt(oldest, tail)), seen)
    {
      hide Separate, Distinct, Linked, TotalLength, H.FillOne;
      at := tail;
      ghost var taken := 0;
      while (at + 1) % slots.Length != seen
        invariant Sound() && at < slots.Length
        invariant H.Fill(RingAt(oldest, at), seen) == H.Fill(old(RingAt(oldest, tail)), seen)
        invariant taken <= |old(write.items)| && write.items == old(write.items)[taken..]
        decreases |write.items|
      {
        var filled := FillOne(at, oldest);
        if !filled {
          break;
        }
        taken := taken + 1;
        at := (at + 1) % slots.Length;
      }
    }

    /** Frees what the device is done with, then gives it more, and publishes both. */
    method EventHandler()
      requires Valid()
      modifies `tail, `oldest, pool, write, slots, pool.items`next, write.items`next
      modifies (set b: BufferDescriptor | b in slots[..])`next
      ensures Valid() && Ring() == H.Run(old(Ring()), head)
    {
      hide *;
      var seen := head;
      RunParts();
      var at := ReclaimAll(seen, tail);
      oldest := at;
      RunMiddle(tail, old(Ring()));
      at := FillAll(seen);
      if tail != at {
        tail := at;
      }
      RunDone();
    }

    /** What a run starts from. */
    lemma RunParts()
      requires Valid()
      ensures Sound() && Ring() == RingAt(oldest, tail) && H.Sound(Ring(), head)
      ensures pool != write
      ensures var middle := H.Reclaim(Ring(), head);
        middle.tail < |middle.slots| && H.Run(Ring(), head) == H.Fill(middle, head)
      ensures H.Sound(H.Run(Ring(), head), head) && tail < slots.Length
    {
      H.ReclaimTail(Ring(), head);
      H.RunSound(Ring(), head);
      hide H.Fill, H.Reclaim, Sound;
    }

    /** Between its loops. */
    lemma RunMiddle(tail: nat, before: H.Ring<BufferDescriptor>)
      requires H.Sound(before, head) && RingAt(oldest, tail) == H.Reclaim(before, head) && this.tail == tail
      ensures tail < slots.Length && RingAt(oldest, this.tail) == RingAt(oldest, tail)
    {
      H.ReclaimTail(before, head);
      hide H.Reclaim;
    }

    lemma RunDone()
      requires Sound() && H.Sound(RingAt(oldest, tail), head)
      ensures Valid() && Ring() == RingAt(oldest, tail)
    {}
  }
}
