/**
 The receive side of the serial driver on the heap: pool and read list are linked lists
 of descriptors, the slots of the ring an array, and what the device reports about each
 slot another.
 */
module ReceiveEngines {
  import opened BufferLists
  import opened Buffers
  import opened Circular
  import opened Sequences
  import H = ReceiveHandler
  import R = Receive

  /** What device and host tell each other about a slot. */
  datatype TransferDescriptor = TransferDescriptor(status: nat, interface: nat, length: nat)

  /** Slots as values: each buffer with its transfer descriptor. */
  ghost function Zip(v: seq<Buffer>, t: seq<TransferDescriptor>): (slots: seq<R.Slot>)
    requires |v| == |t|
    ensures |slots| == |v|
    ensures forall i :: 0 <= i < |v| ==> slots[i] == R.Slot(v[i], t[i].status, t[i].interface, t[i].length)
  {
    seq(|v|, i requires 0 <= i < |v| => R.Slot(v[i], t[i].status, t[i].interface, t[i].length))
  }

  ghost predicate Separate(pool: seq<BufferDescriptor>, read: seq<BufferDescriptor>, ring: seq<BufferDescriptor>) {
    && Distinct(pool) && Distinct(read) && Distinct(ring)
    && Disjoint(pool, read) && Disjoint(pool, ring) && Disjoint(read, ring)
  }

  ghost function All(pool: seq<BufferDescriptor>, read: seq<BufferDescriptor>,
                     ring: seq<BufferDescriptor>): set<BufferDescriptor> {
    (set b | b in pool) + (set b | b in read) + (set b | b in ring)
  }

  lemma Pushed(c: seq<BufferDescriptor>, b: BufferDescriptor)
    requires Distinct(c) && b !in c
    ensures Distinct(c + [b])
    ensures forall x :: x in c + [b] <==> x in c || x == b
  {}

  lemma Popped(c: seq<BufferDescriptor>)
    requires Distinct(c) && c != []
    ensures Distinct(c[1..])
    ensures forall x :: x in c[1..] <==> x in c && x != c[0]
  {
    assert c == [c[0]] + c[1..];
    DistinctParts([c[0]], c[1..]);
  }

  lemma Swapped(c: seq<BufferDescriptor>, at: nat, b: BufferDescriptor)
    requires Distinct(c) && at < |c| && b !in c
    ensures Distinct(c[at := b])
    ensures forall x :: x in c[at := b] <==> x == b || (x in c && x != c[at])
  {
    var swapped := c[at := b];
    forall x | x in c && x != c[at]
      ensures x in swapped
    {
      var i :| 0 <= i < |c| && c[i] == x;
      assert swapped[i] == x;
    }
    assert swapped[at] == b;
  }

  /** The first of the pool takes the place of a slot's buffer, which moves to one of the lists. */
  lemma Exchanged(pool: seq<BufferDescriptor>, read: seq<BufferDescriptor>, ring: seq<BufferDescriptor>,
                  at: nat, toReader: bool)
    requires Separate(pool, read, ring) && pool != [] && at < |ring|
    ensures var pool' := if toReader then pool[1..] else pool[1..] + [ring[at]];
      var read' := if toReader then read + [ring[at]] else read;
      var ring' := ring[at := pool[0]];
      Separate(pool', read', ring') && All(pool', read', ring') == All(pool, read, ring)
  {
    Popped(pool);
    Swapped(ring, at, pool[0]);
    assert ring[at] in ring && pool[0] in pool;
    Pushed(pool[1..], ring[at]);
    Pushed(read, ring[at]);
    hide Distinct;
  }

  class ReceiveEngine {
    const pool: BufferList
    const read: BufferList
    const slots: array<BufferDescriptor>
    const transfers: array<TransferDescriptor>
    var head: nat
    var tail: nat

    /** No descriptor is in two places, and none in a slot is linked to another. */
    ghost predicate Sound()
      reads pool, read, slots, pool.items`next, pool.items`length, read.items`next, read.items`length, slots[..]`next
    {
      && pool != read && pool.Valid() && read.Valid()
      && transfers.Length == slots.Length
      && Separate(pool.items, read.items, slots[..]) && Loose(slots[..])
    }

    ghost function Owned(): set<BufferDescriptor>
      reads pool, read, slots
    {
      All(pool.items, read.items, slots[..])
    }

    ghost function RingAt(at: nat): (r: H.Ring)
      requires transfers.Length == slots.Length
      reads pool, read, slots, transfers, pool.items, read.items, slots[..]
      ensures |r.slots| == slots.Length && r.at == at && (r.pool == [] <==> pool.items == [])
    {
      H.Ring(Views(pool.items), Views(read.items), Zip(Views(slots[..]), transfers[..]), at)
    }

    /** An empty ring with a buffer in every slot; `reports` is what the transfer descriptors held before. */
    constructor (pool: BufferList, ring: seq<BufferDescriptor>, reports: seq<TransferDescriptor>, position: nat)
      requires pool.Valid() && position < |ring| && |reports| == |ring|
      requires Distinct(ring) && Disjoint(pool.items, ring)
      requires forall i :: 0 <= i < |ring| ==> ring[i].next == null
      ensures this.pool == pool && fresh(read) && fresh(slots) && fresh(transfers) && Sound()
      ensures head == tail == position && slots[..] == ring && read.items == []
      ensures |transfers[..]| == |ring|
      ensures forall i :: 0 <= i < |ring| ==> transfers[i] == reports[i].(length := ring[i].length)
    {
      this.pool := pool;
      read := new BufferList();
      slots := new BufferDescriptor[|ring|](i requires 0 <= i < |ring| => ring[i]);
      transfers := new TransferDescriptor[|ring|](
        i requires 0 <= i < |ring| && |reports| == |ring| reads ring => reports[i].(length := ring[i].length));
      head, tail := position, position;
      new;
      assert slots[..] == ring;
      hide Distinct, Linked, TotalLength;
    }

    /** The descriptors taken so far: whole, and linked to nothing. */
    static ghost predicate Taken(ring: seq<BufferDescriptor>, views: seq<Buffer>)
      reads ring
    {
      && |ring| <= |views|
      && forall i :: 0 <= i < |ring| ==> ring[i].next == null && ring[i].View() == Reset(views[i])
    }

    /** The descriptors of `ring` taken from the pool, the others of `all` still in it. */
    static ghost predicate Taking(pool: BufferList, ring: seq<BufferDescriptor>, all: seq<BufferDescriptor>,
                                  views: seq<Buffer>)
      reads pool, pool.items, ring
    {
      && pool.Valid() && ring + pool.items == all && |views| == |all|
      && Views(pool.items) == views[|ring|..] && Taken(ring, views)
    }

    /** Takes a whole buffer from the pool for every slot; fails if the pool runs dry. */
    static method TakeRing(pool: BufferList, ndesc: nat) returns (ok: bool, ring: seq<BufferDescriptor>)
      requires pool.Valid()
      modifies pool, pool.items
      ensures pool.Valid()
      ensures ok <==> ndesc <= |old(pool.items)|
      ensures ok ==> |ring| == ndesc && Taking(pool, ring, old(pool.items), old(Views(pool.items)))
    {
      ghost var all, views := pool.items, Views(pool.items);
      assert [] + all == all && views[0..] == views && Taking(pool, [], all, views) && Distinct(all);
      hide *;
      ok, ring := TakeLoop(pool, ndesc, all, views);
    }

    static method TakeLoop(pool: BufferList, ndesc: nat, ghost all: seq<BufferDescriptor>, ghost views: seq<Buffer>)
      returns (ok: bool, ring: seq<BufferDescriptor>)
      requires pool.Valid() && Taking(pool, [], all, views) && Distinct(all)
      modifies pool, all
      ensures pool.Valid()
      ensures ok <==> ndesc <= |all|
      ensures ok ==> |ring| == ndesc && Taking(pool, ring, all, views)
    {
      hide *;
      ring := [];
      while |ring| < ndesc
        invariant |ring| <= ndesc && |ring| <= |all| && pool.Valid() && Taking(pool, ring, all, views)
      {
        var bd := TakeOne(pool, ring, all, views);
        if bd == null {
          return false, [];
        }
        ring := ring + [bd];
      }
      ok := true;
    }

    /** One more descriptor; those taken before do not notice. */
    static method TakeOne(pool: BufferList, ghost ring: seq<BufferDescriptor>,
                          ghost all: seq<BufferDescriptor>, ghost views: seq<Buffer>)
      returns (bd: BufferDescriptor?)
      requires Taking(pool, ring, all, views) && Distinct(all)
      modifies pool, all
      ensures pool.Valid()
      ensures bd == null ==> |all| == |ring|
      ensures bd != null ==> |ring| < |all| && Taking(pool, ring + [bd], all, views)
    {
      hide Distinct, Linked, TotalLength, Views, Reset, Taken, BufferList.Valid;
      if pool.items != [] {
        FirstApart(ring, pool.items, all);
      }
      assert forall b :: b in pool.First() ==> b !in ring && b in all;
      bd := pool.Allocate();
      if bd != null {
        TakenMore(ring, bd, views);
      }
    }

    static lemma TakenMore(ring: seq<BufferDescriptor>, bd: BufferDescriptor, views: seq<Buffer>)
      requires Taken(ring, views) && |ring| < |views| && bd.next == null && bd.View() == Reset(views[|ring|])
      ensures Taken(ring + [bd], views)
    {}

    static lemma FirstApart(ring: seq<BufferDescriptor>, rest: seq<BufferDescriptor>, all: seq<BufferDescriptor>)
      requires all == ring + rest && Distinct(all) && rest != []
      ensures rest[0] !in ring && rest[0] in all && ring + [rest[0]] + rest[1..] == all
    {
      assert all[|ring|] == rest[0];
      assert forall i :: 0 <= i < |ring| ==> all[i] == ring[i];
    }

    ghost predicate Valid()
      reads this, pool, read, slots, pool.items`next, pool.items`length, read.items`next, read.items`length,
        slots[..]`next
    {
      Sound() && head < slots.Length && tail < slots.Length
    }

    /** Tells a descriptor what the device reported. */
    static method Tag(bd: BufferDescriptor, interface: nat, length: nat)
      modifies bd
      ensures bd.View() == old(bd.View()).(interface := interface, length := length) && bd.next == null
    {
      bd.interface := interface;
      bd.length := length;
      bd.next := null;
    }

    /** A ring without one of its buffers. */
    static ghost function Others(ring: seq<BufferDescriptor>, at: nat): seq<BufferDescriptor>
      requires at < |ring|
    {
      ring[..at] + ring[at + 1..]
    }

    /** These values are the others with `b` put in at `at`. */
    static ghost predicate Around(v: seq<Buffer>, at: nat, others: seq<Buffer>, b: Buffer) {
      |others| == |v| - 1 && at < |v| && v == others[..at] + [b] + others[at..]
    }

    static lemma ViewsAround(ring: seq<BufferDescriptor>, at: nat, b: BufferDescriptor)
      requires at < |ring|
      ensures Around(Views(ring[at := b]), at, Views(Others(ring, at)), b.View())
    {
      var v, w := Views(ring[at := b]), Views(Others(ring, at));
      assert v[..at] == w[..at];
      assert v[at + 1..] == w[at..];
      assert v[at] == b.View();
      hide Views, Others;
      assert v == v[..at] + [v[at]] + v[at + 1..];
    }

    /** Two ways to fill the same gap. */
    static lemma SameGap(v: seq<Buffer>, v': seq<Buffer>, at: nat, others: seq<Buffer>, b: Buffer, b': Buffer)
      requires Around(v, at, others, b) && Around(v', at, others, b')
      ensures v' == v[at := b']
    {}

    static lemma ZipUpdate(v: seq<Buffer>, t: seq<TransferDescriptor>, at: nat, b: Buffer)
      requires |v| == |t| && at < |v|
      ensures Zip(v[at := b], t[at := t[at].(length := b.length)]) == Zip(v, t)[at := R.Renewed(Zip(v, t)[at], b)]
    {}

    /** None of them is linked to another. */
    static ghost predicate Loose(c: seq<BufferDescriptor>)
      reads c`next
    {
      forall i :: 0 <= i < |c| ==> c[i].next == null
    }

    /** Where the buffer of a slot goes: marked with what was reported, unless that is an error. */
    static ghost function Reported(b: Buffer, td: TransferDescriptor): Buffer {
      if td.status == R.SUCCESS then b.(interface := td.interface, length := td.length) else b
    }

    /** Hands a slot's buffer to the reader, or back to the pool; the other slots do not notice. */
    method Dispatch(bd: BufferDescriptor, td: TransferDescriptor, ghost others: seq<BufferDescriptor>)
      requires pool != read && pool.Valid() && read.Valid() && bd.next == null
      requires bd !in pool.items && bd !in read.items && bd !in others && Loose(others)
      requires bd !in pool.Last() && bd !in read.Last()
      requires forall b :: b in pool.Last() ==> b !in read.items && b !in others
      requires forall b :: b in read.Last() ==> b !in pool.items && b !in others
      modifies pool, read, bd, pool.Last()`next, read.Last()`next
      ensures pool.Valid() && read.Valid() && Loose(others) && Views(others) == old(Views(others))
      ensures var b := Reported(old(bd.View()), td);
        if R.Deliverable(td.status, td.interface) then
          && pool.items == old(pool.items) && Views(pool.items) == old(Views(pool.items))
          && read.items == old(read.items) + [bd] && Views(read.items) == old(Views(read.items)) + [b]
        else
          && read.items == old(read.items) && Views(read.items) == old(Views(read.items))
          && pool.items == old(pool.items) + [bd] && Views(pool.items) == old(Views(pool.items)) + [b]
    {
      hide Distinct, Linked, TotalLength, Views, Loose, BufferList.Last, BufferList.Valid;
      if td.status != R.SUCCESS {
        pool.Append(bd);
      } else {
        Tag(bd, td.interface, td.length);
        if td.interface < R.INTERFACES {
          read.Append(bd);
        } else {
          pool.Append(bd);
        }
      }
    }

    static lemma OthersApart(ring: seq<BufferDescriptor>, at: nat)
      requires at < |ring| && Distinct(ring)
      ensures ring[at] !in Others(ring, at) && forall b :: b in Others(ring, at) ==> b in ring
      ensures Loose(ring) ==> Loose(Others(ring, at))
    {}

    static lemma LooseAround(ring: seq<BufferDescriptor>, at: nat, b: BufferDescriptor)
      requires at < |ring| && Loose(Others(ring, at)) && b.next == null
      ensures Loose(ring[at := b])
    {
      var others := Others(ring, at);
      var swapped := ring[at := b];
      forall i | 0 <= i < |swapped|
        ensures swapped[i].next == null
      {
        if i < at {
          assert others[i] == ring[i];
        } else if i > at {
          assert others[i - 1] == ring[i];
        }
      }
    }

    /** Takes a whole buffer from the pool; neither the read list nor the slots notice. */
    method TakeReplacement() returns (replacement: BufferDescriptor?)
      requires pool != read && pool.Valid() && read.Valid() && Loose(slots[..])
      requires forall b :: b in pool.First() ==> b !in read.items && b !in slots[..]
      modifies pool, pool.First()
      ensures pool.Valid() && read.Valid() && Loose(slots[..])
      ensures Views(read.items) == old(Views(read.items)) && Views(slots[..]) == old(Views(slots[..]))
      ensures old(pool.items) == [] ==> replacement == null && pool.items == []
      ensures old(pool.items) != [] ==>
        && replacement == old(pool.items)[0] && pool.items == old(pool.items)[1..]
        && replacement.next == null && replacement.View() == Reset(old(Views(pool.items))[0])
        && Views(pool.items) == old(Views(pool.items))[1..]
    {
      hide *;
      replacement := pool.Allocate();
    }

    /** Dispatches the buffer of the slot at `at` and puts another one in its place. */
    method Replace(at: nat, replacement: BufferDescriptor, ghost ring: seq<BufferDescriptor>,
                   ghost others: seq<BufferDescriptor>)
      requires ring == slots[..] && at < slots.Length == transfers.Length && others == Others(ring, at)
      requires pool != read && pool.Valid() && read.Valid() && slots[at].next == null && Loose(others)
      requires slots[at] !in pool.items && slots[at] !in read.items && slots[at] !in others
      requires slots[at] !in pool.Last() && slots[at] !in read.Last()
      requires forall b :: b in pool.Last() ==> b !in read.items && b !in others
      requires forall b :: b in read.Last() ==> b !in pool.items && b !in others
      requires replacement.next == null && replacement != slots[at]
      requires replacement !in pool.Last() && replacement !in read.Last()
      modifies pool, read, slots, transfers, slots[at], pool.Last()`next, read.Last()`next
      ensures pool.Valid() && read.Valid() && Loose(slots[..])
      ensures slots[..] == ring[at := replacement]
      ensures transfers[..] == old(transfers[..])[at := old(transfers[at]).(length := replacement.View().length)]
      ensures replacement.View() == old(replacement.View())
      ensures Views(slots[..]) == old(Views(slots[..]))[at := replacement.View()]
      ensures var td, b := old(transfers[at]), Reported(old(slots[at].View()), old(transfers[at]));
        if R.Deliverable(td.status, td.interface) then
          && pool.items == old(pool.items) && Views(pool.items) == old(Views(pool.items))
          && read.items == old(read.items) + [ring[at]] && Views(read.items) == old(Views(read.items)) + [b]
        else
          && read.items == old(read.items) && Views(read.items) == old(Views(read.items))
          && pool.items == old(pool.items) + [ring[at]] && Views(pool.items) == old(Views(pool.items)) + [b]
    {
      hide *;
      var td, bd := transfers[at], slots[at];
      ghost var v, b, w := Views(ring), bd.View(), Views(others);
      assert ring[at := bd] == ring;
      ViewsAround(ring, at, bd);
      Dispatch(bd, td, others);
      PutInSlot(at, td, replacement, ring, others);
      SameGap(v, Views(slots[..]), at, w, b, replacement.View());
    }

    /** Gives the slot at `at` a buffer, and the device its length. */
    method PutInSlot(at: nat, td: TransferDescriptor, replacement: BufferDescriptor,
                     ghost ring: seq<BufferDescriptor>, ghost others: seq<BufferDescriptor>)
      requires ring == slots[..] && at < slots.Length == transfers.Length && others == Others(ring, at)
      requires Loose(others) && replacement.next == null && td == transfers[at]
      modifies slots, transfers
      ensures slots[..] == ring[at := replacement] && Loose(slots[..])
      ensures transfers[..] == old(transfers[..])[at := td.(length := replacement.View().length)]
      ensures Around(Views(slots[..]), at, Views(others), replacement.View())
    {
      assert replacement.View().length == replacement.length;
      hide *;
      slots[at] := replacement;
      transfers[at] := td.(length := replacement.length);
      assert slots[..] == ring[at := replacement];
      LooseAround(ring, at, replacement);
      ViewsAround(ring, at, replacement);
    }

    /** With a replacement in hand, everything is still apart. */
    lemma ReplacementApart(at: nat, replacement: BufferDescriptor)
      requires Separate([replacement] + pool.items, read.items, slots[..]) && at < slots.Length && Loose(slots[..])
      ensures var bd, others := slots[at], Others(slots[..], at);
        && bd.next == null && Loose(others)
        && bd !in pool.items && bd !in read.items && bd !in others && bd != replacement
        && bd !in pool.Last() && bd !in read.Last() && replacement !in pool.Last() && replacement !in read.Last()
        && (forall b :: b in pool.Last() ==> b !in read.items && b !in others)
        && (forall b :: b in read.Last() ==> b !in pool.items && b !in others)
      ensures slots[at] in slots[..]
      ensures forall b :: b in pool.Last() ==> b in [replacement] + pool.items
      ensures forall b :: b in read.Last() ==> b in read.items
    {
      var bd, pooled := slots[at], [replacement] + pool.items;
      assert bd in slots[..] && pooled[0] == replacement;
      assert forall b :: b in pool.items ==> b in pooled;
      DistinctParts([replacement], pool.items);
      OthersApart(slots[..], at);
      pool.EndsIn();
      read.EndsIn();
      assert replacement in pooled && replacement in [replacement];
      hide Distinct, Others, Loose, BufferList.Last;
    }

    lemma SoundParts(at: nat)
      requires Sound()
      ensures pool != read && pool.Valid() && read.Valid() && transfers.Length == slots.Length
      ensures Separate(pool.items, read.items, slots[..]) && Loose(slots[..])
      ensures forall b :: b in pool.First() ==> b in Owned() && b !in read.items && b !in slots[..]
      ensures RingAt(at) == H.Ring(Views(pool.items), Views(read.items), Zip(Views(slots[..]), transfers[..]), at)
      ensures Owned() == All(pool.items, read.items, slots[..])
      ensures forall b :: b in pool.items || b in read.items || b in slots[..] <==> b in Owned()
    {
      pool.EndsIn();
      hide Distinct;
    }

    lemma SoundWhole(at: nat)
      requires pool != read && pool.Valid() && read.Valid() && transfers.Length == slots.Length
      requires Separate(pool.items, read.items, slots[..]) && Loose(slots[..])
      ensures Sound() && Owned() == All(pool.items, read.items, slots[..])
      ensures RingAt(at) == H.Ring(Views(pool.items), Views(read.items), Zip(Views(slots[..]), transfers[..]), at)
    {}

    /** What serving a slot comes to, from the values of its parts. */
    static lemma ServedValues(p: seq<Buffer>, r: seq<Buffer>, v: seq<Buffer>, t: seq<TransferDescriptor>, at: nat,
                              p': seq<Buffer>, r': seq<Buffer>, v': seq<Buffer>, t': seq<TransferDescriptor>)
      requires |v| == |t| && at < |v| && p != []
      requires v' == v[at := Reset(p[0])] && t' == t[at := t[at].(length := Reset(p[0]).length)]
      requires var b := Reported(v[at], t[at]);
        if R.Deliverable(t[at].status, t[at].interface) then
          p' == p[1..] && r' == r + [b]
        else
          p' == p[1..] + [b] && r' == r
      ensures H.Ring(p', r', Zip(v', t'), Inc(at, |v|)) == H.ServeOne(H.Ring(p, r, Zip(v, t), at))
    {
      ZipUpdate(v, t, at, Reset(p[0]));
    }

    /** Serves the slot at `at` with the first buffer of the pool, if there is one. */
    method ServeOne(at: nat) returns (served: bool)
      requires Sound() && at < slots.Length
      modifies pool, read, slots, transfers, Owned()
      ensures Sound() && Owned() == old(Owned())
      ensures served <==> old(pool.items) != []
      ensures if served then
          RingAt(Inc(at, slots.Length)) == H.ServeOne(old(RingAt(at)))
        else
          RingAt(at) == old(RingAt(at))
    {
      hide *;
      SoundParts(at);
      ghost var p, r, ring, t := pool.items, read.items, slots[..], transfers[..];
      ghost var pv, rv, v := Views(p), Views(r), Views(ring);
      var replacement := TakeReplacement();
      if replacement == null {
        SoundWhole(at);
        return false;
      }
      ghost var toReader := R.Deliverable(transfers[at].status, transfers[at].interface);
      assert [replacement] + pool.items == p;
      ReplacementApart(at, replacement);
      Replace(at, replacement, ring, Others(ring, at));
      Exchanged(p, r, ring, at, toReader);
      SoundWhole(Inc(at, slots.Length));
      ServedValues(pv, rv, v, t, at, Views(pool.items), Views(read.items), Views(slots[..]), transfers[..]);
      served := true;
    }

    /** The handler's loop: `restart` says that the pool ran dry before `end`. */
    method ServeAll(from: nat, end: nat) returns (at: nat, restart: bool)
      requires Sound() && from < slots.Length && end < slots.Length
      modifies pool, read, slots, transfers, Owned()
      ensures Sound() && Owned() == old(Owned()) && at < slots.Length
      ensures RingAt(at) == H.Serve(old(RingAt(from)), end)
      ensures restart <==> at != end
    {
      ServeStep(RingAt(from), end);
      hide *;
      at, restart := from, false;
      while at != end
        invariant Sound() && Owned() == old(Owned()) && at < slots.Length && !restart
        invariant H.Serve(RingAt(at), end) == H.Serve(old(RingAt(from)), end)
        decreases Dist(at, end, slots.Length)
      {
        ServeStep(RingAt(at), end);
        var served := ServeOne(at);
        if !served {
          restart := true;
          break;
        }
        at := (at + 1) % slots.Length;
      }
      ServeStep(RingAt(at), end);
    }

    static lemma ServeStep(r: H.Ring, end: nat)
      requires r.at < |r.slots| && end < |r.slots|
      ensures if r.at == end || r.pool == [] then
          H.Serve(r, end) == r
        else
          && Inc(r.at, |r.slots|) == (r.at + 1) % |r.slots| < |r.slots|
          && Dist(Inc(r.at, |r.slots|), end, |r.slots|) < Dist(r.at, end, |r.slots|)
          && H.Serve(r, end) == H.Serve(H.ServeOne(r), end)
    {
      DistInc(r.at, end, |r.slots|);
      assert Inc(r.at, |r.slots|) == (r.at + 1) % |r.slots|;
      hide Inc, Dist, H.ServeOne;
    }

    /** Serves what the device has filled and publishes how far it came. */
    method EventHandler() returns (restart: bool)
      requires Valid()
      modifies `head, pool, read, slots, transfers, Owned()
      ensures Valid() && Owned() == old(Owned())
      ensures RingAt(head) == H.Serve(old(RingAt(head)), tail)
      ensures restart <==> head != tail
    {
      hide Sound, Owned, RingAt, H.Serve;
      var at;
      at, restart := ServeAll(head, tail);
      if head != at {
        head := at;
      }
    }
  }
}
