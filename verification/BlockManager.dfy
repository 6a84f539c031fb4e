/** The memory manager object, updated in place and tied to the functions of BlockAllocator. */
module BlockManagers {
  import opened Bytes
  import opened FreeChain
  import opened Options
  import BA = BlockAllocator

  class BlockManager {
    var virtual: nat
    var physical: nat
    var size: nat
    var list: array?<Link>
    var free: Link
    ghost var chain: seq<nat>

    ghost function State(): BA.Manager
      reads this, list
    {
      BA.Manager(virtual, physical, size, if list == null then None else Some(list[..]), free)
    }

    /** Before a cleanup the free list is `chain`; after it, nothing is left to hand out. */
    ghost predicate Valid()
      reads this, list
    {
      if list == null then free == None else BA.Valid(State(), chain)
    }

    constructor ()
      ensures Valid() && list == null
    {
      list, free := null, None;
    }

    /** Sets up the list with every block on it; `granted` says whether memory for the list is found. */
    method Init(virtual: nat, physical: nat, size: nat, granted: bool) returns (ok: bool)
      requires 0 < virtual && BA.BLOCK <= size && virtual + size <= BA.ADDRESS_MODULUS
      modifies this
      ensures Valid() && ok == granted
      ensures ok ==> fresh(list) && State() == BA.Fresh(virtual, physical, size)
      ensures ok ==> chain == CountUp(0, size / BA.BLOCK)
      ensures !ok ==> list == null
    {
      this.virtual, this.physical, this.size := virtual, physical, size;
      list, free := null, None;
      ok := granted;
      if granted {
        var links := CreateFreeList(size / BA.BLOCK);
        list, free := links, Some(0);
        assert State() == BA.Fresh(virtual, physical, size);
        FreshChain(links[..], 0);
        hide IsChain, CountUp;
        chain := CountUp(0, size / BA.BLOCK);
      }
    }

    /** A list of all blocks, each linked to the next and the last to nothing. */
    static method CreateFreeList(blocks: nat) returns (links: array<Link>)
      requires 0 < blocks
      ensures fresh(links) && links[..] == BA.FreshLinks(blocks)
    {
      links := new Link[blocks](_ => None);
      var index := 0;
      while index < blocks - 1
        invariant 0 <= index <= blocks - 1
        invariant forall i :: 0 <= i < index ==> links[i] == Some(i + 1)
      {
        links[index] := Some(index + 1);
        index := index + 1;
      }
      links[index] := None;
    }

    method Cleanup()
      modifies this
      ensures Valid() && list == null
    {
      list, free := null, None;
    }

    /** A free block's cookie, or 0 for NULL. */
    method Alloc(request: nat) returns (cookie: nat)
      requires Valid()
      modifies this`free, this`chain
      ensures Valid()
      ensures old(list) != null ==>
        BA.Alloc(old(State()), request) == (State(), if cookie == 0 then None else Some(cookie))
      ensures cookie != 0 <==> list != null && request <= BA.BLOCK && old(chain) != []
      ensures cookie != 0 ==> chain == old(chain)[1..] && BA.IsLive(State(), chain, cookie)
      ensures cookie == 0 ==> chain == old(chain)
    {
      cookie := 0;
      if list != null {
        BA.AllocTakesFirst(State(), chain, request);
      }
      if request > BA.BLOCK {
        return;
      }
      if list != null && free.Some? {
        var available := free.value;
        free := list[available];
        cookie := virtual + available * BA.BLOCK;
        chain := chain[1..];
      }
    }

    /** What a value handed over for freeing does: a block goes to the front of the list, anything else is ignored. */
    ghost predicate Returns(cookie: nat)
      reads this, list
    {
      list != null && BA.IsCookieStrict(State(), cookie)
    }

    /**
     Puts back a block. Nothing checks that it is handed out; if it is free already, or lies
     behind the last whole block, what is left is no proper list.
     */
    method Free(cookie: nat)
      requires Valid()
      modifies this`free, this`chain, list
      ensures old(list) != null ==> State() == BA.Free(old(State()), cookie)
      ensures old(list) == null ==> free == None
      ensures cookie % BA.BLOCK != 0 || cookie < virtual || virtual + size <= cookie ==>
        State() == old(State()) && chain == old(chain)
      ensures var i := if old(Returns(cookie)) then BA.Index(old(State()), cookie) else 0;
        && chain == (if old(Returns(cookie)) then [i] + old(chain) else old(chain))
        && (Valid() <==> !(old(Returns(cookie)) && (i in old(chain) || BA.Overruns(old(State()), cookie))))
    {
      if list != null {
        ghost var before := State();
        BA.FreeKeepsListExactlyWhenNotFree(before, chain, cookie);
        BA.FreeTakesBlocksOnly(before, chain, cookie);
        if virtual <= cookie < virtual + size && cookie % BA.BLOCK == 0 {
          var index := (cookie - virtual) / BA.BLOCK;
          // A write behind the list is not part of this model.
          if index < list.Length {
            list[index] := free;
          }
          free := Some(index);
          chain := [index] + chain;
        }
      }
    }

    /** Counts the free blocks by walking the list; both counts are reported as u32. */
    method Usage() returns (available: u32, total: u32)
      requires Valid()
      ensures available == if list == null then 0 else |chain| % U32_MODULUS
      ensures total == size / BA.BLOCK % U32_MODULUS
    {
      available := Tally();
      total := size / BA.BLOCK % U32_MODULUS;
    }

    /** The walk over the free list, with its u32 counter. */
    method Tally() returns (tally: u32)
      requires Valid()
      ensures tally == if list == null then 0 else |chain| % U32_MODULUS
    {
      ghost var links, rest := if list == null then [] else list[..], if list == null then [] else chain;
      assert IsChain(links, free, rest);
      hide *;
      tally := 0;
      var next := free;
      ghost var seen, all := 0, |rest|;
      while next.Some?
        invariant seen + |rest| == all && tally == seen % U32_MODULUS
        invariant IsChain(links, next, rest)
        decreases |rest|
      {
        ChainStep(links, next, rest);
        NextTally(seen);
        tally := (tally + 1) % U32_MODULUS;
        next := list[next.value];
        seen, rest := seen + 1, rest[1..];
      }
      ChainEnd(links, rest);
    }

    static lemma NextTally(seen: nat)
      ensures (seen % U32_MODULUS + 1) % U32_MODULUS == (seen + 1) % U32_MODULUS
    {}
  }
  /** What `Usage` reports as available is, after any run, the total less what clients hold. */
  lemma AvailableIsTotalMinusLive(m: BlockManager, virtual: nat, physical: nat, size: nat, ops: seq<BA.Operation>)
    requires 0 < virtual && virtual % BA.BLOCK == 0 && BA.BLOCK <= size && virtual + size <= BA.ADDRESS_MODULUS
    requires m.Valid() && m.list != null && m.State() == BA.Run(virtual, physical, size, ops).manager
    ensures |m.chain| == size / BA.BLOCK - |BA.Run(virtual, physical, size, ops).live|
  {
    var h := BA.Run(virtual, physical, size, ops);
    hide BA.Run, BA.IsLive;
    ChainUnique(h.manager.list.value, h.manager.free, h.chain, m.chain);
  }
}
