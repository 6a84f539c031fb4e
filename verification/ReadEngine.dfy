/** The read call on the heap: it consumes queued descriptors in place and gives them back to the pool. */
module ReadEngines {
  import opened BufferLists
  import opened Buffers
  import opened Bytes
  import opened Sequences
  import A = Reassembly
  import R = Receive

  /** What a whole call yields, told from the middle of it. */
  ghost predicate Open(whole: A.Result, returned: seq<byte>, freed: seq<Buffer>, waiting: seq<Buffer>,
                       remaining: nat, copies: nat) {
    AllWellFormed(waiting) &&
    var more := A.ReadCall(waiting, remaining, copies);
    whole == A.Result(returned + more.returned, freed + more.freed, more.waiting)
  }

  lemma OpenStart(waiting: seq<Buffer>, remaining: nat, copies: nat)
    requires AllWellFormed(waiting)
    ensures Open(A.ReadCall(waiting, remaining, copies), [], [], waiting, remaining, copies)
  {
    var more := A.ReadCall(waiting, remaining, copies);
    assert [] + more.returned == more.returned && [] + more.freed == more.freed;
  }

  lemma OpenEnd(whole: A.Result, returned: seq<byte>, freed: seq<Buffer>, waiting: seq<Buffer>, remaining: nat,
                copies: nat)
    requires Open(whole, returned, freed, waiting, remaining, copies)
    requires remaining == 0 || waiting == [] || copies == 0
    ensures whole == A.Result(returned, freed, waiting)
  {}

  lemma OpenCopy(whole: A.Result, returned: seq<byte>, freed: seq<Buffer>, waiting: seq<Buffer>,
                 remaining: nat, copies: nat)
    requires Open(whole, returned, freed, waiting, remaining, copies)
    requires 0 < remaining && waiting != [] && 0 < copies
    ensures WellFormed(waiting[0]) && |A.Taken(waiting[0], remaining)| <= remaining
    ensures var bytes, rest := A.Taken(waiting[0], remaining), R.Rest(waiting[0], remaining);
      if rest.length > 0 then
        Open(whole, returned + bytes, freed, [rest] + waiting[1..], remaining - |bytes|, copies - 1)
      else
        Open(whole, returned + bytes, freed + [rest], waiting[1..], remaining - |bytes|, copies - 1)
  {
    var bytes, rest := A.Taken(waiting[0], remaining), R.Rest(waiting[0], remaining);
    var more := A.ReadCall(waiting[1..], remaining - |bytes|, copies - 1);
    A.RestOfStream(waiting, remaining);
    A.RestOfBuffer(waiting[0], remaining);
    assert freed + [rest] + more.freed == freed + ([rest] + more.freed);
    assert returned + bytes + more.returned == returned + (bytes + more.returned);
    hide AllWellFormed, R.Rest, A.Taken, Stream, WellFormed;
  }

  class Reader {
    const pool: BufferList
    const read: BufferList
    var partial: BufferDescriptor?

    constructor (pool: BufferList, read: BufferList)
      requires pool != read && pool.Valid() && read.Valid() && Distinct(pool.items + read.items)
      requires AllWellFormed(Views(read.items))
      ensures this.pool == pool && this.read == read && partial == null && Valid()
    {
      hide Distinct, AllWellFormed, Views, BufferList.Valid;
      this.pool, this.read, partial := pool, read, null;
      new;
      assert [] + read.items == read.items;
    }

    static ghost function Held(bd: BufferDescriptor?): seq<BufferDescriptor> {
      if bd == null then [] else [bd]
    }

    /** The descriptors with unread data: the one kept from the last call, then the list. */
    ghost function Waiting(): seq<BufferDescriptor>
      reads this, read
    {
      Held(partial) + read.items
    }

    ghost predicate Valid()
      reads this, pool, read, pool.items, read.items, partial
    {
      && pool != read && pool.Valid() && read.Valid()
      && Distinct(pool.items + Waiting())
      && (partial != null ==> partial.next == null)
      && AllWellFormed(Views(Waiting()))
    }

    /** In the middle of a call, with `bd` in hand: every descriptor is where it was, or in the pool. */
    ghost predicate Stage(bd: BufferDescriptor?, everything: seq<BufferDescriptor>)
      reads pool, read, pool.items, read.items, bd
    {
      && pool != read && pool.Valid() && read.Valid()
      && (if bd == null then read.items == [] else bd.next == null)
      && pool.items + Held(bd) + read.items == everything
    }

    /** Copies from the front of a buffer; the lists do not notice. */
    method CopyOut(bd: BufferDescriptor, remaining: nat) returns (bytes: seq<byte>)
      requires pool.Valid() && read.Valid() && WellFormed(bd.View()) && bd !in pool.items && bd !in read.items
      modifies bd`data, bd`length
      ensures pool.Valid() && read.Valid()
      ensures Views(pool.items) == old(Views(pool.items)) && Views(read.items) == old(Views(read.items))
      ensures bytes == A.Taken(old(bd.View()), remaining) && bd.View() == R.Rest(old(bd.View()), remaining)
      ensures bd.length == bd.View().length
    {
      hide Distinct, Linked, TotalLength, Views, BufferList.Valid;
      var n := Min(remaining, bd.length);
      bytes := bd.memory[bd.data..bd.data + n];
      bd.data := bd.data + n;
      bd.length := bd.length - n;
    }

    static lemma HeldFirst(bd: BufferDescriptor?, rest: seq<BufferDescriptor>, waiting: seq<BufferDescriptor>)
      requires if waiting == [] then bd == null && rest == [] else bd == waiting[0] && rest == waiting[1..]
      ensures Held(bd) + rest == waiting
    {}

    /** Takes the next buffer off the read list; the pool does not notice. */
    method Fetch() returns (next: BufferDescriptor?)
      requires pool != read && pool.Valid() && read.Valid()
      requires forall b :: b in read.First() ==> b !in pool.items
      modifies read, read.First()`next
      ensures pool.Valid() && read.Valid() && Views(pool.items) == old(Views(pool.items))
      ensures if next == null then read.items == [] else next.next == null
      ensures Held(next) + read.items == old(read.items)
      ensures Views(Held(next) + read.items) == old(Views(read.items))
    {
      hide *;
      ghost var waiting := read.items;
      next := read.Get();
      HeldFirst(next, read.items, waiting);
    }

    /** Frees an emptied buffer and fetches the next one; no payload changes. */
    method Recycle(bd: BufferDescriptor) returns (next: BufferDescriptor?)
      requires pool != read && pool.Valid() && read.Valid() && bd.next == null
      requires bd !in pool.items && bd !in read.items && bd !in pool.Last()
      requires forall b :: b in pool.Last() ==> b !in read.items
      requires forall b :: b in read.First() ==> b !in pool.items && b != bd
      modifies pool, read, pool.Last()`next, read.First()`next
      ensures pool.Valid() && read.Valid()
      ensures pool.items == old(pool.items) + [bd] && Views(pool.items) == old(Views(pool.items)) + [bd.View()]
      ensures if next == null then read.items == [] else next.next == null
      ensures Held(next) + read.items == old(read.items)
      ensures Views(Held(next) + read.items) == old(Views(read.items))
    {
      hide *;
      ghost var waiting := read.items;
      pool.Append(bd);
      next := Fetch();
    }

    lemma StageApart(bd: BufferDescriptor, everything: seq<BufferDescriptor>)
      requires Stage(bd, everything) && Distinct(everything)
      ensures pool != read && pool.Valid() && read.Valid() && bd.next == null
      ensures bd !in pool.items && bd !in read.items && bd !in pool.Last()
      ensures pool.items + Held(bd) + read.items == everything
      ensures forall b :: b in pool.Last() ==> b !in read.items
      ensures forall b :: b in read.First() ==> b !in pool.items && b != bd
      ensures forall b :: b in pool.items || b in read.items || b == bd ==> b in everything
      ensures forall b :: b in pool.Last() || b in read.First() ==> b in everything
    {
      DistinctParts(pool.items + [bd], read.items);
      DistinctParts(pool.items, [bd]);
      pool.EndsIn();
      read.EndsIn();
      assert forall b :: b in pool.items ==> b in pool.items + [bd];
      assert bd in [bd] && bd in pool.items + [bd];
      hide Distinct, BufferList.Valid, BufferList.First, BufferList.Last;
    }

    /** One turn of the read loop. */
    method Turn(bd: BufferDescriptor, remaining: nat, ghost everything: seq<BufferDescriptor>)
      returns (bytes: seq<byte>, next: BufferDescriptor?)
      requires Stage(bd, everything) && Distinct(everything) && WellFormed(bd.View())
      modifies pool, read, everything
      ensures Stage(next, everything)
      ensures var rest := R.Rest(old(bd.View()), remaining);
        && bytes == A.Taken(old(bd.View()), remaining)
        && if rest.length > 0 then
             next != null && Views(pool.items) == old(Views(pool.items))
             && Views(Held(next) + read.items) == [rest] + old(Views(read.items))
           else
             Views(pool.items) == old(Views(pool.items)) + [rest]
             && Views(Held(next) + read.items) == old(Views(read.items))
    {
      hide *;
      StageApart(bd, everything);
      ghost var p, r := pool.items, read.items;
      bytes := CopyOut(bd, remaining);
      next := bd;
      if bd.length == 0 {
        next := Recycle(bd);
        Onwards(p, bd, r, everything, next);
      } else {
        Staying(bd, everything);
      }
    }

    /** The next buffer is in hand. */
    lemma Onwards(p: seq<BufferDescriptor>, bd: BufferDescriptor, r: seq<BufferDescriptor>,
                  everything: seq<BufferDescriptor>,
                  next: BufferDescriptor?)
      requires p + Held(bd) + r == everything && pool.items == p + [bd] && Held(next) + read.items == r
      requires pool != read && pool.Valid() && read.Valid()
      requires if next == null then read.items == [] else next.next == null
      ensures Stage(next, everything)
    {
      assert p + [bd] + Held(next) + read.items == p + [bd] + (Held(next) + read.items);
    }

    /** The same buffer is still in hand. */
    lemma Staying(bd: BufferDescriptor, everything: seq<BufferDescriptor>)
      requires pool.items + Held(bd) + read.items == everything
      requires pool != read && pool.Valid() && read.Valid() && bd.next == null
      ensures Stage(bd, everything) && Views(Held(bd) + read.items) == [bd.View()] + Views(read.items)
    {
      assert ([bd] + read.items)[1..] == read.items;
    }

    /** The buffer a call starts with: the partial one, or the first of the list. */
    method Take(ghost everything: seq<BufferDescriptor>) returns (bd: BufferDescriptor?)
      requires Valid() && everything == pool.items + Waiting()
      modifies read, read.First()`next
      ensures Stage(bd, everything)
      ensures Views(pool.items) == old(Views(pool.items)) && Views(Held(bd) + read.items) == old(Views(Waiting()))
    {
      hide *;
      ghost var p, r := pool.items, read.items;
      bd := partial;
      if bd == null {
        NonePartial();
        bd := Fetch();
        HandFilled(p, r, bd, everything);
      } else {
        SomePartial();
      }
    }

    lemma NonePartial()
      requires Valid() && partial == null
      ensures pool != read && pool.Valid() && read.Valid() && Waiting() == read.items
      ensures forall b :: b in read.First() ==> b !in pool.items
    {
      FirstElsewhere();
      hide Distinct;
    }

    lemma SomePartial()
      requires Valid() && partial != null
      ensures Stage(partial, pool.items + Waiting()) && Waiting() == Held(partial) + read.items
    {
      assert pool.items + Held(partial) + read.items == pool.items + Waiting();
      hide Distinct;
    }

    lemma HandFilled(p: seq<BufferDescriptor>, r: seq<BufferDescriptor>, bd: BufferDescriptor?,
                     everything: seq<BufferDescriptor>)
      requires pool != read && pool.Valid() && read.Valid() && pool.items == p && Held(bd) + read.items == r
        && everything == p + r
      requires if bd == null then read.items == [] else bd.next == null
      ensures Stage(bd, everything)
    {
      assert p + Held(bd) + read.items == p + (Held(bd) + read.items);
    }

    lemma FirstElsewhere()
      requires Valid()
      ensures forall b :: b in read.First() ==> b !in pool.items
      ensures forall b :: b in read.First() ==> b in pool.items + Waiting()
    {
      DistinctParts(pool.items, Waiting());
      read.EndsIn();
      assert forall b :: b in read.items ==> b in Waiting();
      hide Distinct;
    }

    lemma InHand(bd: BufferDescriptor)
      ensures var waiting := Views(Held(bd) + read.items);
        waiting != [] && waiting[0] == bd.View() && waiting[1..] == Views(read.items)
    {
      assert ([bd] + read.items)[1..] == read.items;
    }

    /** The read loop. It stops when enough is copied, nothing waits, or a copy fails. */
    method ReadLoop(start: BufferDescriptor?, ghost everything: seq<BufferDescriptor>, ghost whole: A.Result,
                    ghost pooled: seq<Buffer>, length: nat, copies: nat)
      returns (bd: BufferDescriptor?, bytes: seq<byte>)
      requires Stage(start, everything) && Distinct(everything) && Views(pool.items) == pooled
      requires Open(whole, [], [], Views(Held(start) + read.items), length, copies)
      modifies pool, read, everything
      ensures Stage(bd, everything)
      ensures whole.returned == bytes && whole.waiting == Views(Held(bd) + read.items)
      ensures Views(pool.items) == pooled + whole.freed
    {
      hide *;
      ghost var freed := [];
      assert pooled + [] == pooled;
      var remaining: nat, left: nat := length, copies;
      bd, bytes := start, [];
      while remaining > 0 && bd != null
        invariant Stage(bd, everything) && Views(pool.items) == pooled + freed
        invariant Open(whole, bytes, freed, Views(Held(bd) + read.items), remaining, left)
        decreases left
      {
        if left == 0 {
          break;
        }
        InHand(bd);
        OpenCopy(whole, bytes, freed, Views(Held(bd) + read.items), remaining, left);
        ghost var rest := R.Rest(bd.View(), remaining);
        var taken;
        taken, bd := Turn(bd, remaining, everything);
        bytes := bytes + taken;
        remaining := remaining - |taken|;
        left := left - 1;
        if rest.length == 0 {
          assert pooled + freed + [rest] == pooled + (freed + [rest]);
          freed := freed + [rest];
        }
      }
      if bd == null {
        NoneInHand(bd, everything);
      }
      OpenEnd(whole, bytes, freed, Views(Held(bd) + read.items), remaining, left);
    }

    lemma NoneInHand(bd: BufferDescriptor?, everything: seq<BufferDescriptor>)
      requires Stage(bd, everything) && bd == null
      ensures Views(Held(bd) + read.items) == []
    {}

    /** The read call: returns bytes of the waiting packets, as far as asked for, and frees what it empties. */
    method Read(length: nat, copies: nat) returns (bytes: seq<byte>)
      requires Valid()
      modifies `partial, pool, read, pool.items + Waiting()
      ensures Valid() && pool.items + Waiting() == old(pool.items + Waiting())
      ensures var r := A.ReadCall(old(Views(Waiting())), length, copies);
        && bytes == r.returned && Views(Waiting()) == r.waiting
        && Views(pool.items) == old(Views(pool.items)) + r.freed
    {
      ghost var everything, waiting, pooled := pool.items + Waiting(), Views(Waiting()), Views(pool.items);
      ghost var whole := A.ReadCall(waiting, length, copies);
      assert Distinct(everything);
      OpenStart(waiting, length, copies);
      A.LosesNothing(waiting, length, copies);
      bytes := ReadStaged(everything, waiting, pooled, whole, length, copies);
    }

    method ReadStaged(ghost everything: seq<BufferDescriptor>, ghost waiting: seq<Buffer>, ghost pooled: seq<Buffer>,
                      ghost whole: A.Result, length: nat, copies: nat)
      returns (bytes: seq<byte>)
      requires Valid() && everything == pool.items + Waiting() && Distinct(everything)
      requires waiting == Views(Waiting()) && pooled == Views(pool.items)
      requires Open(whole, [], [], waiting, length, copies) && AllWellFormed(whole.waiting)
      modifies `partial, pool, read, everything
      ensures Valid() && pool.items + Waiting() == everything
      ensures bytes == whole.returned && Views(Waiting()) == whole.waiting && Views(pool.items) == pooled + whole.freed
    {
      hide *;
      FirstElsewhere();
      var bd := Take(everything);
      bd, bytes := ReadLoop(bd, everything, whole, pooled, length, copies);
      partial := bd;
      Settled(everything);
    }

    lemma Settled(everything: seq<BufferDescriptor>)
      requires Stage(partial, everything) && Distinct(everything) && AllWellFormed(Views(Held(partial) + read.items))
      ensures Valid() && pool.items + Waiting() == everything && Waiting() == Held(partial) + read.items
    {
      hide Distinct, AllWellFormed, Views, BufferList.Valid;
      Regroup(pool.items, Held(partial), read.items);
    }

    /** The driver's report that there is something to read. */
    method DataAvailable() returns (available: bool)
      requires Valid()
      ensures available <==> Views(Waiting()) != []
    {
      var _, buffers := read.Info();
      available := partial != null || buffers != 0;
    }
  }
}
