/** The write call on the heap: it fills pooled descriptors in place, links them and queues the chain. */
module WriteEngines {
  import opened BufferLists
  import opened Buffers
  import opened Bytes
  import opened Sequences
  import F = Fragments

  /** What a whole call yields, told from the middle of it: `current` is still to be filled. */
  ghost predicate Open(whole: F.Result, interface: int, done: seq<Buffer>, current: Buffer, pool: seq<Buffer>,
                       data: seq<byte>, copied: nat, copies: nat)
    requires copied <= |data|
  {
    var rest := F.WriteCall(interface, [current] + pool, data[copied..], copies);
    && current == Reset(current)
    && whole == F.Result(done + rest.chain, rest.pool, copied + rest.done)
  }

  lemma OpenStart(interface: int, pool: seq<Buffer>, data: seq<byte>, copies: nat)
    requires pool != []
    ensures Open(F.WriteCall(interface, pool, data, copies), interface, [], Reset(pool[0]), pool[1..], data, 0, copies)
  {
    var again := [Reset(pool[0])] + pool[1..];
    assert again[1..] == pool[1..] && data[0..] == data;
    assert F.WriteCall(interface, again, data, copies) == F.WriteCall(interface, pool, data, copies);
    var r := F.WriteCall(interface, pool, data, copies);
    assert [] + r.chain == r.chain;
  }

  /** Nothing left to copy, or a failing copy: the current buffer stays as it is. */
  lemma OpenStuck(whole: F.Result, interface: int, done: seq<Buffer>, current: Buffer, pool: seq<Buffer>,
                  data: seq<byte>, copied: nat, copies: nat)
    requires copied <= |data| && Open(whole, interface, done, current, pool, data, copied, copies)
    requires copied == |data| || copies == 0
    ensures whole == F.Result(done + [current], pool, copied)
  {
    assert ([current] + pool)[1..] == pool;
  }

  /** Between two buffers: those in `done` are full, and the call will come out as `whole`. */
  ghost predicate Between(whole: F.Result, interface: int, done: seq<Buffer>, pool: seq<Buffer>,
                          data: seq<byte>, copied: nat, copies: nat)
    requires copied <= |data|
  {
    if copied == |data| || pool == [] then
      whole == F.Result(done, pool, copied)
    else
      Open(whole, interface, done, Reset(pool[0]), pool[1..], data, copied, copies)
  }

  /** A fragment is copied; `n` is its length. */
  lemma OpenCopy(whole: F.Result, interface: int, done: seq<Buffer>, current: Buffer, pool: seq<Buffer>,
                 data: seq<byte>, copied: nat, copies: nat, n: nat)
    requires copied < |data| && 0 < copies && Open(whole, interface, done, current, pool, data, copied, copies)
    requires n == Min(|data| - copied, current.length)
    ensures WellFormed(current)
    ensures var filled := Fill(current, data[copied..copied + n], interface);
      Between(whole, interface, done + [filled], pool, data, copied + n, copies - 1)
  {
    assert ([current] + pool)[1..] == pool;
    assert data[copied..][..n] == data[copied..copied + n];
    assert data[copied..][n..] == data[copied + n..];
    var filled := Fill(current, data[copied..copied + n], interface);
    if copied + n < |data| {
      var rest := F.WriteCall(interface, pool, data[copied + n..], copies - 1);
      assert done + ([filled] + rest.chain) == done + [filled] + rest.chain;
      if pool != [] {
        OpenStart(interface, pool, data[copied + n..], copies - 1);
        assert data[copied + n..][0..] == data[copied + n..];
      }
    }
  }

  class Writer {
    const interface: int
    const pool: BufferList
    const write: BufferList

    constructor (interface: int, pool: BufferList, write: BufferList)
      ensures this.interface == interface && this.pool == pool && this.write == write
    {
      this.interface, this.pool, this.write := interface, pool, write;
    }

    ghost predicate Valid()
      reads pool, write, pool.items`next, pool.items`length, write.items`next, write.items`length
    {
      && pool != write && pool.Valid() && write.Valid()
      && Distinct(write.items + pool.items)
    }

    /** The driver's report that a write would be accepted. */
    method BufferAvailable() returns (available: bool)
      requires pool.Valid()
      ensures available <==> Views(pool.items) != []
    {
      var _, buffers := pool.Info();
      available := buffers != 0;
    }

    /** Copies bytes to the start of a whole buffer and cuts it to them. */
    method FillBuffer(bd: BufferDescriptor, bytes: seq<byte>)
      requires bd.data == 0 && |bytes| <= bd.length <= |bd.memory|
      modifies bd`length, bd`interface, bd`memory
      ensures bd.View() == Fill(old(bd.View()), bytes, interface)
    {
      bd.memory := Bytes.Write(bd.memory, bd.data, bytes);
      bd.length := |bytes|;
      bd.interface := interface;
    }

    /** Takes one more descriptor; a chain apart from the pool does not notice. */
    method AllocateApart(ghost chain: seq<BufferDescriptor>) returns (next: BufferDescriptor?)
      requires pool.Valid() && Disjoint(chain, pool.items) && Linked(chain)
      modifies pool, pool.First()
      ensures pool.Valid() && Linked(chain) && Views(chain) == old(Views(chain))
      ensures forall b :: b in chain ==> b !in pool.items && b != next
      ensures old(pool.items) == [] ==> next == null && pool.items == []
      ensures old(pool.items) != [] ==>
        && next == old(pool.items)[0] && pool.items == old(pool.items)[1..]
        && next.next == null && next.View() == Reset(old(Views(pool.items))[0])
        && Views(pool.items) == old(Views(pool.items))[1..]
    {
      assert pool.items != [] ==> pool.items[0] in pool.items;
      assert forall x :: x in chain ==> x !in pool.First();
      assert pool.items != [] ==> Disjoint(chain, pool.items[1..]);
      hide Distinct, TotalLength, Views, Linked, Reset, Disjoint;
      next := pool.Allocate();
    }

    /** Takes one more descriptor and links it behind the chain. */
    method NextBuffer(bd: BufferDescriptor, ghost chain: seq<BufferDescriptor>) returns (next: BufferDescriptor?)
      requires pool.Valid() && Disjoint(chain, pool.items) && Linked(chain)
      requires chain != [] && bd == chain[|chain| - 1] && Distinct(chain)
      modifies pool, pool.First(), bd`next
      ensures pool.Valid() && Views(chain) == old(Views(chain))
      ensures old(pool.items) == [] ==> next == null && pool.items == [] && Linked(chain)
      ensures old(pool.items) != [] ==>
        && next == old(pool.items)[0] && pool.items == old(pool.items)[1..]
        && next.View() == Reset(old(Views(pool.items))[0])
        && Views(pool.items) == old(Views(pool.items))[1..]
        && Linked(chain + [next])
    {
      hide *;
      next := AllocateApart(chain);
      assert bd in chain;
      LinkLast(bd, chain, next);
    }

    /** Points the last descriptor of a chain at a single one, or at nothing. */
    method LinkLast(bd: BufferDescriptor, ghost chain: seq<BufferDescriptor>, next: BufferDescriptor?)
      requires chain != [] && bd == chain[|chain| - 1] && Distinct(chain) && Linked(chain)
      requires next != null ==> next != bd && next.next == null
      modifies bd`next
      ensures Linked(if next == null then chain else chain + [next])
    {
      bd.next := next;
      if next != null {
        BufferList.Joined(chain, [next]);
      }
    }

    /** The first `k` of the pool's descriptors are chained up for the call, the others still in the pool. */
    ghost predicate Chained(all: seq<BufferDescriptor>, k: nat)
      reads pool, pool.items`next, pool.items`length, all`next
    {
      && k <= |all| && pool.Valid() && pool.items == all[k..] && Linked(all[..k])
    }

    /** The call stands at `bd` with `copied` bytes done, and will come out as `whole`. */
    ghost predicate Stage(whole: F.Result, bd: BufferDescriptor?, all: seq<BufferDescriptor>, k: nat,
                          data: seq<byte>, copied: nat, copies: nat)
      requires k <= |all|
      reads all
    {
      && copied <= |data|
      && if bd != null && copied < |data| then
           && 0 < k && bd == all[k - 1]
           && Open(whole, interface, Views(all[..k - 1]), bd.View(), Views(all[k..]), data, copied, copies)
         else
           whole == F.Result(Views(all[..k]), Views(all[k..]), copied)
    }

    lemma ViewsPrefix(all: seq<BufferDescriptor>, k: nat)
      requires 0 < k <= |all|
      ensures Views(all[..k]) == Views(all[..k - 1]) + [all[k - 1].View()]
    {}

    lemma LastApart(all: seq<BufferDescriptor>, k: nat)
      requires 0 < k <= |all| && Distinct(all)
      ensures all[k - 1] !in all[..k - 1] && all[k - 1] !in all[k..]
    {}

    /** Fills the last descriptor of the chain; no other one notices. */
    method FillLast(ghost all: seq<BufferDescriptor>, ghost k: nat, bd: BufferDescriptor, bytes: seq<byte>)
      requires 0 < k <= |all| && bd == all[k - 1] && Chained(all, k) && pool.items == all[k..]
      requires bd !in all[..k - 1] && bd !in all[k..]
      requires bd.data == 0 && |bytes| <= bd.length <= |bd.memory|
      modifies bd`length, bd`interface, bd`memory
      ensures Chained(all, k)
      ensures Views(all[..k]) == old(Views(all[..k - 1])) + [Fill(old(bd.View()), bytes, interface)]
      ensures Views(all[k..]) == old(Views(all[k..]))
    {
      hide *;
      FillBuffer(bd, bytes);
      ViewsPrefix(all, k);
    }

    lemma FirstPooled(all: seq<BufferDescriptor>, k: nat)
      requires k < |all| && Distinct(all)
      ensures all[k..][0] == all[k] && all[k..][1..] == all[k + 1..]
      ensures all[..k] + [all[k]] == all[..k + 1] && Distinct(all[..k] + all[k..])
      ensures Views(all[k..])[1..] == Views(all[k + 1..])
    {
      assert all[..k] + all[k..] == all;
    }

    /** Takes the next descriptor of the pool, if there is one, into the chain. */
    method ExtendChain(ghost all: seq<BufferDescriptor>, ghost k: nat, bd: BufferDescriptor)
      returns (next: BufferDescriptor?)
      requires Chained(all, k) && 0 < k && bd == all[k - 1] && Distinct(all)
      modifies pool, pool.First(), bd`next
      ensures next == null <==> k == |all|
      ensures Chained(all, if next == null then k else k + 1)
      ensures Views(all[..k]) == old(Views(all[..k]))
      ensures next != null ==>
        && k < |all| && next == all[k] && next.View() == Reset(old(Views(all[k..]))[0])
        && Views(all[k + 1..]) == old(Views(all[k..]))[1..]
    {
      hide Distinct, Linked, TotalLength, Views, BufferList.Valid;
      assert all[..k] + all[k..] == all;
      if k < |all| {
        FirstPooled(all, k);
      }
      DistinctParts(all[..k], all[k..]);
      ghost var chain := all[..k];
      next := NextBuffer(bd, chain);
    }

    /** One turn of the write loop up to the next buffer: fills the current one. */
    method CopyInto(bd: BufferDescriptor, ghost all: seq<BufferDescriptor>, ghost k: nat, ghost whole: F.Result,
                    data: seq<byte>, copied: nat, ghost copies: nat)
      returns (n: nat)
      requires Chained(all, k) && Stage(whole, bd, all, k, data, copied, copies)
      requires copied < |data| && 0 < copies && Distinct(all)
      modifies bd`length, bd`interface, bd`memory
      ensures 0 < k && bd == all[k - 1] && Chained(all, k)
      ensures n <= |data| - copied
      ensures Between(whole, interface, Views(all[..k]), Views(all[k..]), data, copied + n, copies - 1)
    {
      ghost var before, current, pooled := Views(all[..k - 1]), bd.View(), Views(all[k..]);
      LastApart(all, k);
      n := Min(bd.length, |data| - copied);
      OpenCopy(whole, interface, before, current, pooled, data, copied, copies, n);
      assert bd.data == 0 && n <= bd.length <= |bd.memory|;
      hide *;
      FillLast(all, k, bd, data[copied..copied + n]);
    }

    /** One turn of the write loop: fills the current buffer and, if data remains, takes another one. */
    method CopyFragment(bd: BufferDescriptor, ghost all: seq<BufferDescriptor>, ghost k: nat, ghost whole: F.Result,
                        data: seq<byte>, copied: nat, ghost copies: nat)
      returns (next: BufferDescriptor?, n: nat, ghost k': nat)
      requires Chained(all, k) && Stage(whole, bd, all, k, data, copied, copies)
      requires copied < |data| && 0 < copies && Distinct(all)
      modifies pool, all
      ensures n <= |data| - copied && k <= k' <= |all|
      ensures next == null || copied + n == |data| || k < k'
      ensures Chained(all, k') && Stage(whole, next, all, k', data, copied + n, copies - 1)
    {
      PartsOf(all, k);
      hide Open, Distinct, Linked, Views, TotalLength, Fill, Reset, Chained;
      k' := k;
      n := CopyInto(bd, all, k, whole, data, copied, copies);
      next := bd;
      if copied + n < |data| {
        next := ExtendChain(all, k, bd);
        if next != null {
          k' := k + 1;
        }
      }
    }

    /** The write call: accepts what the pool has room for, as one chain of buffers for the device. */
    method Write(data: seq<byte>, copies: nat) returns (accepted: nat)
      requires Valid()
      modifies pool, write, pool.items, write.items`next
      ensures Valid()
      ensures var all, r := old(pool.items), F.WriteCall(interface, old(Views(pool.items)), data, copies);
        && |r.chain| <= |all| && accepted == r.done
        && write.items == old(write.items) + all[..|r.chain|] && pool.items == all[|r.chain|..]
        && Views(all[..|r.chain|]) == r.chain && Views(all[|r.chain|..]) == r.pool
      ensures Views(old(write.items)) == old(Views(write.items))
    {
      ghost var all, queue, whole := pool.items, write.items, F.WriteCall(interface, Views(pool.items), data, copies);
      DistinctParts(queue, all);
      DisjointPositions(queue, all);
      hide *;
      var head;
      ghost var k;
      head, accepted, k := BuildApart(queue, all, whole, data, copies);
      DistinctPrefix(queue, all, k);
      QueueChain(head, queue, all, k);
    }

    lemma DistinctPrefix(queue: seq<BufferDescriptor>, all: seq<BufferDescriptor>, k: nat)
      requires Distinct(queue + all) && k <= |all|
      ensures Distinct(queue + all[..k]) && Distinct(queue + all[..k] + all[k..])
    {
      assert queue + all[..k] + all[k..] == queue + all;
      DistinctParts(queue + all[..k], all[k..]);
    }

    /** The loop, seen from the write list: nothing on it changes. */
    method BuildApart(ghost queue: seq<BufferDescriptor>, ghost all: seq<BufferDescriptor>, ghost whole: F.Result,
                      data: seq<byte>, copies: nat)
      returns (head: BufferDescriptor?, accepted: nat, ghost k: nat)
      requires pool != write && pool.Valid() && write.Valid() && queue == write.items && all == pool.items
      requires Distinct(all) && forall i, j :: 0 <= i < |queue| && 0 <= j < |all| ==> queue[i] != all[j]
      requires whole == F.WriteCall(interface, Views(all), data, copies)
      modifies pool, all
      ensures k <= |all| && Chained(all, k) && whole == F.Result(Views(all[..k]), Views(all[k..]), accepted)
      ensures head == if all == [] then null else all[0]
      ensures k == 0 <==> all == []
      ensures write.Valid() && write.items == queue && Views(queue) == old(Views(queue))
    {
      hide *;
      head, accepted, k := BuildChain(all, whole, data, copies);
    }

    /** Puts the chain on the write list; no payload changes. */
    method QueueChain(head: BufferDescriptor?, ghost queue: seq<BufferDescriptor>,
                      ghost all: seq<BufferDescriptor>, ghost k: nat)
      requires pool != write && write.Valid() && write.items == queue && Chained(all, k)
      requires Distinct(queue + all[..k]) && Disjoint(queue, all)
      requires head == if all == [] then null else all[0]
      requires k == 0 <==> all == []
      modifies write, write.Last()`next
      ensures pool.Valid() && write.Valid() && write.items == queue + all[..k] && pool.items == all[k..]
      ensures Views(all[..k]) == old(Views(all[..k])) && Views(all[k..]) == old(Views(all[k..]))
      ensures Views(queue) == old(Views(queue))
    {
      hide *;
      ChainApart(queue, all, k);
      var _ := write.Put(head, all[..k]);
    }

    lemma ChainApart(queue: seq<BufferDescriptor>, all: seq<BufferDescriptor>, k: nat)
      requires write.items == queue && Chained(all, k) && Disjoint(queue, all)
      ensures k <= |all| && Linked(all[..k]) && pool.Valid() && pool.items == all[k..]
      ensures forall b :: b in write.Last() ==> b !in pool.items && b !in all[..k] && b !in all[k..]
    {
      write.EndsIn();
      PartsOf(all, k);
      hide Linked, BufferList.Valid, BufferList.Last;
    }

    /** The chain the call builds: it holds what the call accepts. */
    method BuildChain(ghost all: seq<BufferDescriptor>, ghost whole: F.Result, data: seq<byte>, copies: nat)
      returns (head: BufferDescriptor?, accepted: nat, ghost k: nat)
      requires pool.Valid() && all == pool.items && Distinct(all)
      requires whole == F.WriteCall(interface, Views(all), data, copies)
      modifies pool, all
      ensures k <= |all| && Chained(all, k) && whole == F.Result(Views(all[..k]), Views(all[k..]), accepted)
      ensures head == if all == [] then null else all[0]
      ensures k == 0 <==> all == []
    {
      assert forall b :: b in pool.First() ==> b in all;
      hide *;
      head := Start(all, whole, data, copies);
      k := if head == null then 0 else 1;
      var bd, left;
      bd, accepted, left, k := CopyLoop(head, all, k, whole, data, copies);
      StageEnd(whole, bd, all, k, data, accepted, left);
    }

    /** The write loop. It stops when all is copied, the pool has run dry, or a copy fails. */
    method CopyLoop(head: BufferDescriptor?, ghost all: seq<BufferDescriptor>, ghost start: nat, ghost whole: F.Result,
                    data: seq<byte>, copies: nat)
      returns (bd: BufferDescriptor?, copied: nat, left: nat, ghost k: nat)
      requires start <= |all| && Distinct(all)
      requires Chained(all, start) && Stage(whole, head, all, start, data, 0, copies)
      modifies pool, all
      ensures start <= k <= |all| && copied <= |data|
      ensures Chained(all, k) && Stage(whole, bd, all, k, data, copied, left)
      ensures bd == null || copied == |data| || left == 0
    {
      hide *;
      bd, copied, left, k := head, 0, copies, start;
      while copied < |data| && bd != null
        invariant start <= k <= |all| && copied <= |data|
        invariant Chained(all, k) && Stage(whole, bd, all, k, data, copied, left)
        decreases left
      {
        if left == 0 {
          break;
        }
        var n;
        bd, n, k := CopyFragment(bd, all, k, whole, data, copied, left);
        copied := copied + n;
        left := left - 1;
      }
    }

    lemma PartsOf(all: seq<BufferDescriptor>, k: nat)
      requires k <= |all|
      ensures forall b :: b in all[..k] || b in all[k..] ==> b in all
    {}

    /** Before the loop: the first buffer, if the pool has one. */
    method Start(ghost all: seq<BufferDescriptor>, ghost whole: F.Result, data: seq<byte>, ghost copies: nat)
      returns (bd: BufferDescriptor?)
      requires pool.Valid() && all == pool.items && whole == F.WriteCall(interface, Views(all), data, copies)
      modifies pool, pool.First()
      ensures bd == if all == [] then null else all[0]
      ensures var k := if all == [] then 0 else 1;
        Chained(all, k) && Stage(whole, bd, all, k, data, 0, copies)
    {
      ghost var pooled := Views(all);
      bd := pool.Allocate();
      if bd != null {
        OpenStart(interface, pooled, data, copies);
        assert pooled[1..] == Views(all[1..]) && Views(all[..0]) == [];
        assert all[..1] == [bd];
        if data == [] {
          OpenStuck(whole, interface, [], bd.View(), Views(all[1..]), data, 0, copies);
        }
      }
    }

    /** However the loop ends, the chain is what the call yields. */
    lemma StageEnd(whole: F.Result, bd: BufferDescriptor?, all: seq<BufferDescriptor>, k: nat,
                   data: seq<byte>, copied: nat, copies: nat)
      requires k <= |all| && Stage(whole, bd, all, k, data, copied, copies)
      requires bd == null || copied == |data| || copies == 0
      ensures whole == F.Result(Views(all[..k]), Views(all[k..]), copied)
    {
      if bd != null && copied < |data| {
        OpenStuck(whole, interface, Views(all[..k - 1]), bd.View(), Views(all[k..]), data, copied, copies);
        ViewsPrefix(all, k);
      }
    }
  }
}
