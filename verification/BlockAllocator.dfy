/**
 The manager of VPU memory: fixed blocks, a free list threaded through an array with
 one link per block, and cookies that are the blocks' host virtual addresses.
 */
module BlockAllocator {
  import opened FreeChain
  import opened Options

  const BLOCK: nat := 16 * 1024
  const ADDRESS_MODULUS: nat := 0x1_0000_0000_0000_0000

  /** A manager's fields; `list` is NULL after cleanup. */
  datatype Manager = Manager(virtual: nat, physical: nat, size: nat, list: Option<seq<Link>>, free: Link)

  predicate IsCookie(m: Manager, cookie: nat) {
    m.virtual <= cookie < m.virtual + m.size
  }

  predicate IsCookieStrict(m: Manager, cookie: nat) {
    IsCookie(m, cookie) && cookie % BLOCK == 0
  }

  function Cookie(m: Manager, index: nat): nat {
    m.virtual + index * BLOCK
  }

  function Index(m: Manager, cookie: nat): nat
    requires m.virtual <= cookie
  {
    (cookie - m.virtual) / BLOCK
  }

  /** The free list in force is `chain`; every other block is handed out. */
  ghost predicate Valid(m: Manager, chain: seq<nat>) {
    && 0 < m.virtual && BLOCK <= m.size && m.virtual + m.size <= ADDRESS_MODULUS
    && m.list.Some? && |m.list.value| == m.size / BLOCK
    && IsChain(m.list.value, m.free, chain)
  }

  ghost predicate IsLive(m: Manager, chain: seq<nat>, cookie: nat) {
    exists i: nat :: i < m.size / BLOCK && i !in chain && cookie == Cookie(m, i)
  }

  function Alloc(m: Manager, size: nat): (Manager, Option<nat>)
    requires m.list.Some? && m.free.Some? ==> m.free.value < |m.list.value|
  {
    if size > BLOCK || m.list.None? || m.free.None? then
      (m, None)
    else
      (m.(free := m.list.value[m.free.value]), Some(Cookie(m, m.free.value)))
  }

  /**
   `Free` writes the link of any cookie that passes the strict test and makes it the first;
   a link behind the list is written to other memory, which is not part of this model.
   */
  function Free(m: Manager, cookie: nat): Manager {
    if m.list.None? || !IsCookieStrict(m, cookie) then
      m
    else
      var index, links := Index(m, cookie), m.list.value;
      m.(list := Some(if index < |links| then links[index := m.free] else links), free := Some(index))
  }

  /** The physical address, wrapping as u64 does; 0 outside the managed region. */
  function Physical(m: Manager, cookie: nat): nat {
    if IsCookie(m, cookie) then (cookie - m.virtual + m.physical) % ADDRESS_MODULUS else 0
  }

  // ---- one call --------------------------------------------------------------------

  lemma IndexOfCookie(m: Manager, i: nat)
    requires i < m.size / BLOCK
    ensures IsCookie(m, Cookie(m, i)) && Index(m, Cookie(m, i)) == i
    ensures Cookie(m, i) + BLOCK <= m.virtual + m.size
    ensures Cookie(m, i) % BLOCK == 0 <==> m.virtual % BLOCK == 0
  {}

  /** An allocation fails for an oversized request or an empty list only, and takes the first free block. */
  lemma AllocTakesFirst(m: Manager, chain: seq<nat>, size: nat)
    requires Valid(m, chain)
    ensures m.free.Some? ==> m.free.value < |m.list.value|
    ensures var (after, cookie) := Alloc(m, size);
      if size > BLOCK || chain == [] then
        after == m && cookie == None
      else
        && cookie == Some(Cookie(m, chain[0])) && cookie.value != 0
        && IsLive(after, chain[1..], cookie.value) && !IsLive(m, chain, cookie.value)
        && Valid(after, chain[1..])
  {
    ChainDistinct(m.list.value, m.free, chain);
    if size <= BLOCK && chain != [] {
      assert chain[0] !in chain[1..];
      IndexOfCookie(m, chain[0]);
      forall i: nat | i < m.size / BLOCK && Cookie(m, i) == Cookie(m, chain[0])
        ensures i == chain[0]
      {
        IndexOfCookie(m, i);
      }
    }
  }

  /** Freeing a block that is handed out puts it in front, exactly when the region's base is aligned. */
  lemma FreeReturnsBlock(m: Manager, chain: seq<nat>, i: nat)
    requires Valid(m, chain) && i < m.size / BLOCK && i !in chain
    ensures Index(m, Cookie(m, i)) < |m.list.value|
    ensures if m.virtual % BLOCK == 0 then
      Valid(Free(m, Cookie(m, i)), [i] + chain)
    else
      Free(m, Cookie(m, i)) == m
  {
    IndexOfCookie(m, i);
    ChainPush(m.list.value, m.free, chain, i);
  }

  /**
   A free changes nothing unless the value is a multiple of the block size in the region, and
   then the value names the entry that becomes the first; in a region of whole blocks from an
   aligned base, the values that change something are the cookies of its blocks.
   */
  lemma FreeTakesBlocksOnly(m: Manager, chain: seq<nat>, cookie: nat)
    requires Valid(m, chain)
    ensures cookie % BLOCK != 0 || cookie < m.virtual || m.virtual + m.size <= cookie ==> Free(m, cookie) == m
    ensures cookie % BLOCK == 0 && m.virtual <= cookie < m.virtual + m.size ==>
      Free(m, cookie).free == Some((cookie - m.virtual) / BLOCK)
    ensures m.virtual % BLOCK == 0 && m.size % BLOCK == 0 ==>
      (cookie % BLOCK == 0 && m.virtual <= cookie < m.virtual + m.size
       <==> exists i: nat :: i < m.size / BLOCK && cookie == Cookie(m, i))
  {
    if m.virtual % BLOCK == 0 && m.size % BLOCK == 0 {
      if cookie % BLOCK == 0 && m.virtual <= cookie < m.virtual + m.size {
        var i := (cookie - m.virtual) / BLOCK;
        assert i < m.size / BLOCK && cookie == Cookie(m, i);
      }
      if i: nat :| i < m.size / BLOCK && cookie == Cookie(m, i) {
        IndexOfCookie(m, i);
      }
    }
  }

  /** The value passes the strict test, but lies behind the last whole block. */
  predicate Overruns(m: Manager, cookie: nat) {
    IsCookieStrict(m, cookie) && Index(m, cookie) == m.size / BLOCK
  }

  /** Any value is ignored, or put in front, or leaves no proper list: if its block is free already or is none. */
  lemma FreeKeepsListExactlyWhenNotFree(m: Manager, chain: seq<nat>, cookie: nat)
    requires Valid(m, chain)
    ensures (exists after :: Valid(Free(m, cookie), after))
        <==> !(IsCookieStrict(m, cookie) && Index(m, cookie) in chain) && !Overruns(m, cookie)
    ensures !IsCookieStrict(m, cookie) ==> Free(m, cookie) == m
    ensures IsCookieStrict(m, cookie) && Index(m, cookie) !in chain && !Overruns(m, cookie) ==>
      Valid(Free(m, cookie), [Index(m, cookie)] + chain)
  {
    if IsCookieStrict(m, cookie) {
      StrictIndex(m, cookie);
      var i := Index(m, cookie);
      if Overruns(m, cookie) {
        assert forall after :: !Valid(Free(m, cookie), after);
      } else if i in chain {
        forall after
          ensures !Valid(Free(m, cookie), after)
        {
          ChainPushTwice(m.list.value, m.free, chain, i, after);
        }
      } else {
        ChainPush(m.list.value, m.free, chain, i);
        assert Valid(Free(m, cookie), [i] + chain);
      }
    } else {
      assert Valid(Free(m, cookie), chain);
    }
  }

  lemma StrictIndex(m: Manager, cookie: nat)
    requires IsCookie(m, cookie)
    ensures Index(m, cookie) <= m.size / BLOCK
  {}

  /** The first multiple of the block size from an address on. */
  function AlignUp(address: nat): (aligned: nat)
    ensures aligned % BLOCK == 0 && address <= aligned < address + BLOCK
  {
    (address + BLOCK - 1) / BLOCK * BLOCK
  }

  /**
   Nothing checks that a value is in front of the end of the last whole block. One behind it
   passes as a cookie, and its free writes past the end of the list, exactly when the region
   has a part left over in which an aligned address lies; never when its size is a multiple
   of the block size.
   */
  lemma OverrunExactlyWhenPartLeftOver(m: Manager, chain: seq<nat>)
    requires Valid(m, chain)
    ensures var end := m.virtual + m.size / BLOCK * BLOCK;
      && ((exists cookie: nat :: Overruns(m, cookie)) <==> AlignUp(end) < m.virtual + m.size)
      && (forall cookie: nat :: Overruns(m, cookie) ==> |m.list.value| == Index(m, cookie))
      && (m.size % BLOCK == 0 ==> forall cookie: nat :: !Overruns(m, cookie))
  {
    var end := m.virtual + m.size / BLOCK * BLOCK;
    var first := AlignUp(end);
    forall cookie: nat | Overruns(m, cookie)
      ensures end <= first <= cookie < m.virtual + m.size
    {
      OverrunBounds(m, cookie);
      NextAligned(end, cookie);
    }
    if first < m.virtual + m.size {
      OverrunAt(m, first);
    }
  }

  lemma OverrunBounds(m: Manager, cookie: nat)
    requires Overruns(m, cookie)
    ensures m.virtual + m.size / BLOCK * BLOCK <= cookie
  {}

  lemma NextAligned(address: nat, aligned: nat)
    requires address <= aligned && aligned % BLOCK == 0
    ensures AlignUp(address) <= aligned
  {}

  lemma OverrunAt(m: Manager, cookie: nat)
    requires cookie % BLOCK == 0 && m.virtual + m.size / BLOCK * BLOCK <= cookie < m.virtual + m.size
    ensures Overruns(m, cookie)
  {}

  // ---- runs --------------------------------------------------------------------------

  function FreshLinks(n: nat): (links: seq<Link>)
    ensures |links| == n && forall i :: 0 <= i < n ==> links[i] == if i + 1 < n then Some(i + 1) else None
  {
    seq(n, i requires 0 <= i < n => if i + 1 < n then Some(i + 1) else None)
  }

  function Fresh(virtual: nat, physical: nat, size: nat): Manager {
    Manager(virtual, physical, size, Some(FreshLinks(size / BLOCK)), Some(0))
  }

  datatype Operation = AllocOp(size: nat) | FreeOp(cookie: nat)

  /** A manager, the cookies its clients hold, and the free blocks in the order of the list. */
  datatype History = History(manager: Manager, live: set<nat>, chain: seq<nat>)

  /** What clients hold is exactly what the free list lacks. */
  ghost predicate Agree(h: History) {
    && Valid(h.manager, h.chain)
    && h.manager.virtual % BLOCK == 0
    && (forall cookie :: cookie in h.live <==> IsLive(h.manager, h.chain, cookie))
    && |h.chain| + |h.live| == h.manager.size / BLOCK
  }

  lemma LiveIndex(m: Manager, chain: seq<nat>, cookie: nat)
    requires Valid(m, chain) && IsLive(m, chain, cookie)
    ensures IsCookie(m, cookie) && Index(m, cookie) < m.size / BLOCK
    ensures Index(m, cookie) !in chain && cookie == Cookie(m, Index(m, cookie))
  {
    var i: nat :| i < m.size / BLOCK && i !in chain && cookie == Cookie(m, i);
    IndexOfCookie(m, i);
  }

  lemma AllocAgrees(h: History, size: nat)
    requires Agree(h) && size <= BLOCK && h.chain != []
    ensures h.manager.free.Some? && h.manager.free.value < |h.manager.list.value|
    ensures var (after, cookie) := Alloc(h.manager, size);
      cookie.Some? && Agree(History(after, h.live + {cookie.value}, h.chain[1..]))
  {
    AllocTakesFirst(h.manager, h.chain, size);
    var (after, cookie) := Alloc(h.manager, size);
    ChainDistinct(h.manager.list.value, h.manager.free, h.chain);
    forall other
      ensures IsLive(after, h.chain[1..], other) <==> IsLive(h.manager, h.chain, other) || other == cookie.value
    {
      LiveAfterTaking(h.manager, after, h.chain, other);
    }
  }

  lemma LiveAfterTaking(m: Manager, after: Manager, chain: seq<nat>, other: nat)
    requires Valid(m, chain) && chain != [] && chain[0] !in chain[1..] && chain[0] < m.size / BLOCK
    requires after.virtual == m.virtual && after.size == m.size
    ensures IsLive(after, chain[1..], other) <==> IsLive(m, chain, other) || other == Cookie(m, chain[0])
  {
    assert chain == [chain[0]] + chain[1..];
    if IsLive(after, chain[1..], other) {
      var i: nat :| i < m.size / BLOCK && i !in chain[1..] && other == Cookie(m, i);
      assert i == chain[0] || i !in chain;
    }
    if other == Cookie(m, chain[0]) {
      assert other == Cookie(after, chain[0]);
    }
    if IsLive(m, chain, other) {
      var i: nat :| i < m.size / BLOCK && i !in chain && other == Cookie(m, i);
      assert i !in chain[1..] && other == Cookie(after, i);
    }
  }

  lemma FreeAgrees(h: History, cookie: nat)
    requires Agree(h) && cookie in h.live
    ensures IsCookie(h.manager, cookie) && Index(h.manager, cookie) < |h.manager.list.value|
    ensures Agree(History(Free(h.manager, cookie), h.live - {cookie}, [Index(h.manager, cookie)] + h.chain))
  {
    LiveIndex(h.manager, h.chain, cookie);
    var i := Index(h.manager, cookie);
    FreeReturnsBlock(h.manager, h.chain, i);
    var after := Free(h.manager, cookie);
    ChainDistinct(after.list.value, after.free, [i] + h.chain);
    forall other
      ensures IsLive(after, [i] + h.chain, other) <==> IsLive(h.manager, h.chain, other) && other != cookie
    {
      LiveAfterReturning(h.manager, after, h.chain, i, other);
    }
  }

  lemma LiveAfterReturning(m: Manager, after: Manager, chain: seq<nat>, i: nat, other: nat)
    requires i < m.size / BLOCK && after.virtual == m.virtual && after.size == m.size
    ensures IsLive(after, [i] + chain, other) <==> IsLive(m, chain, other) && other != Cookie(m, i)
  {
    if IsLive(m, chain, other) {
      var j: nat :| j < m.size / BLOCK && j !in chain && other == Cookie(m, j);
      IndexOfCookie(m, j);
      assert other == Cookie(after, j);
    }
    if IsLive(after, [i] + chain, other) {
      var j: nat :| j < m.size / BLOCK && j !in [i] + chain && other == Cookie(after, j);
      IndexOfCookie(m, j);
      IndexOfCookie(m, i);
      assert i in [i] + chain && j !in chain && other == Cookie(m, j);
    }
  }

  /** Clients free what they hold, and nothing else. */
  ghost function Apply(h: History, op: Operation): (after: History)
    requires Agree(h)
    ensures Agree(after) && after.manager.virtual == h.manager.virtual
    ensures after.manager.physical == h.manager.physical && after.manager.size == h.manager.size
  {
    match op
    case AllocOp(size) =>
      AllocTakesFirst(h.manager, h.chain, size);
      var (after, cookie) := Alloc(h.manager, size);
      if cookie.Some? then
        AllocAgrees(h, size);
        History(after, h.live + {cookie.value}, h.chain[1..])
      else
        h
    case FreeOp(cookie) =>
      if cookie in h.live then
        FreeAgrees(h, cookie);
        History(Free(h.manager, cookie), h.live - {cookie}, [Index(h.manager, cookie)] + h.chain)
      else
        h
  }

  ghost function Run(virtual: nat, physical: nat, size: nat, ops: seq<Operation>): (h: History)
    requires 0 < virtual && virtual % BLOCK == 0 && BLOCK <= size && virtual + size <= ADDRESS_MODULUS
    ensures Agree(h) && h.manager.virtual == virtual && h.manager.physical == physical && h.manager.size == size
  {
    if ops == [] then
      FreshAgrees(virtual, physical, size);
      History(Fresh(virtual, physical, size), {}, CountUp(0, size / BLOCK))
    else
      Apply(Run(virtual, physical, size, ops[..|ops| - 1]), ops[|ops| - 1])
  }

  lemma FreshAgrees(virtual: nat, physical: nat, size: nat)
    requires 0 < virtual && virtual % BLOCK == 0 && BLOCK <= size && virtual + size <= ADDRESS_MODULUS
    ensures Agree(History(Fresh(virtual, physical, size), {}, CountUp(0, size / BLOCK)))
  {
    FreshChain(FreshLinks(size / BLOCK), 0);
    forall i: nat | i < size / BLOCK
      ensures i in CountUp(0, size / BLOCK)
    {
      CountUpHas(0, size / BLOCK, i);
    }
  }

  predicate Apart(a: nat, b: nat) {
    a + BLOCK <= b || b + BLOCK <= a
  }

  lemma BlocksApart(m: Manager, i: nat, j: nat)
    requires i < m.size / BLOCK && j < m.size / BLOCK && i != j
    ensures Apart(Cookie(m, i), Cookie(m, j))
  {
    if i < j {
      assert Cookie(m, i) + (j - i) * BLOCK == Cookie(m, j);
    } else {
      assert Cookie(m, j) + (i - j) * BLOCK == Cookie(m, i);
    }
  }

  lemma PhysicalOffset(m: Manager, cookie: nat)
    requires m.physical + m.size <= ADDRESS_MODULUS
    ensures Physical(m, cookie)
         == if m.virtual <= cookie < m.virtual + m.size then m.physical + (cookie - m.virtual) else 0
  {}

  /** After any run, two live cookies name whole aligned blocks that are apart, in both address spaces. */
  lemma LiveBlocksDisjoint(virtual: nat, physical: nat, size: nat, ops: seq<Operation>, a: nat, b: nat)
    requires 0 < virtual && virtual % BLOCK == 0 && BLOCK <= size && virtual + size <= ADDRESS_MODULUS
    requires var h := Run(virtual, physical, size, ops); a in h.live && b in h.live && a != b
    ensures virtual <= a && a + BLOCK <= virtual + size && a % BLOCK == 0
    ensures Apart(a, b)
    ensures var m := Run(virtual, physical, size, ops).manager;
      physical + size <= ADDRESS_MODULUS ==>
        && Apart(Physical(m, a), Physical(m, b))
        && physical <= Physical(m, a) && Physical(m, a) + BLOCK <= physical + size
  {
    var h := Run(virtual, physical, size, ops);
    hide Run, IsChain, Index, Physical;
    var m := h.manager;
    LiveIndex(m, h.chain, a);
    LiveIndex(m, h.chain, b);
    IndexOfCookie(m, Index(m, a));
    BlocksApart(m, Index(m, a), Index(m, b));
    if physical + size <= ADDRESS_MODULUS {
      PhysicalOffset(m, a);
      PhysicalOffset(m, b);
    }
  }

  /** A block is free or handed out, never both; a request of one block's size fails only when all are out. */
  lemma RequestFailsOnlyWhenAllLive(virtual: nat, physical: nat, size: nat, ops: seq<Operation>, request: nat)
    requires 0 < virtual && virtual % BLOCK == 0 && BLOCK <= size && virtual + size <= ADDRESS_MODULUS
    ensures var h := Run(virtual, physical, size, ops);
      && |h.chain| + |h.live| == size / BLOCK
      && (h.manager.free.Some? ==> h.manager.free.value < |h.manager.list.value|)
      && (Alloc(h.manager, request).1 == None <==> request > BLOCK || |h.live| == size / BLOCK)
  {
    var h := Run(virtual, physical, size, ops);
    AllocTakesFirst(h.manager, h.chain, request);
  }
}
