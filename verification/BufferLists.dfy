/** Buffer descriptors and the linked lists of them, relinked in place. */
module BufferLists {
  import opened Buffers
  import opened Bytes
  import opened Sequences

  class BufferDescriptor {
    ghost const id: nat
    var memory: seq<byte>
    var next: BufferDescriptor?
    var data: nat
    var length: nat
    var interface: int

    constructor (length: nat, ghost id: nat)
      ensures this.id == id && |memory| == length && next == null
      ensures View() == Reset(View())
    {
      this.id := id;
      memory := seq(length, _ => 0);
      next, data, this.length, interface := null, 0, length, -1;
    }

    ghost function View(): Buffer
      reads this`data, this`length, this`interface, this`memory
    {
      Buffer(id, memory, data, length, interface)
    }

    /** As a pool hands it out. */
    method Reinitialize()
      modifies this
      ensures View() == Reset(old(View())) && next == null
    {
      data, length, next, interface := 0, |memory|, null, -1;
    }
  }

  ghost predicate Disjoint(a: seq<BufferDescriptor>, b: seq<BufferDescriptor>) {
    forall x :: x in a ==> x !in b
  }

  lemma DistinctParts(a: seq<BufferDescriptor>, b: seq<BufferDescriptor>)
    requires Distinct(a + b)
    ensures Distinct(a) && Distinct(b) && Disjoint(a, b)
  {
    var all := a + b;
    forall i, j | 0 <= i < |a| && 0 <= j < |b|
      ensures a[i] != b[j]
    {
      assert all[i] == a[i] && all[|a| + j] == b[j];
    }
    forall i, j | 0 <= i < j < |b|
      ensures b[i] != b[j]
    {
      assert all[|a| + i] == b[i] && all[|a| + j] == b[j];
    }
    forall i, j | 0 <= i < j < |a|
      ensures a[i] != a[j]
    {
      assert all[i] == a[i] && all[j] == a[j];
    }
  }

  /** Disjointness by positions, the form in which frames need it. */
  lemma DisjointPositions(a: seq<BufferDescriptor>, b: seq<BufferDescriptor>)
    requires Disjoint(a, b)
    ensures forall i, j :: 0 <= i < |a| && 0 <= j < |b| ==> a[i] != b[j]
  {
    forall i, j | 0 <= i < |a| && 0 <= j < |b|
      ensures a[i] != b[j]
    {
      assert a[i] in a && b[j] in b;
    }
  }

  ghost function After(c: seq<BufferDescriptor>, i: nat): BufferDescriptor? {
    if i + 1 < |c| then c[i + 1] else null
  }

  /** Each descriptor points to the one after it, the last to nothing. */
  ghost predicate Linked(c: seq<BufferDescriptor>)
    reads c`next
  {
    forall i {:trigger After(c, i)} :: 0 <= i < |c| ==> c[i].next == After(c, i)
  }

  /** The descriptors as values, in order. */
  ghost function Views(c: seq<BufferDescriptor>): (v: seq<Buffer>)
    reads c`data, c`length, c`interface, c`memory
    ensures |v| == |c| && forall i :: 0 <= i < |c| ==> v[i] == c[i].View()
  {
    if c == [] then [] else [c[0].View()] + Views(c[1..])
  }

  lemma ViewsPush(c: seq<BufferDescriptor>, b: BufferDescriptor)
    ensures Views(c + [b]) == Views(c) + [b.View()]
  {}

  ghost function TotalLength(c: seq<BufferDescriptor>): nat
    reads c`length
  {
    if c == [] then 0 else c[0].length + TotalLength(c[1..])
  }

  /** The bytes accounted for are the bytes of the payloads. */
  lemma {:induction false} BytesAreStream(c: seq<BufferDescriptor>)
    requires AllWellFormed(Views(c))
    ensures TotalLength(c) == |Stream(Views(c))|
  {
    if c != [] {
      assert Views(c)[1..] == Views(c[1..]) && Views(c)[0] == c[0].View();
      BytesAreStream(c[1..]);
    }
  }

  lemma TotalMore(c: seq<BufferDescriptor>, b: BufferDescriptor)
    ensures TotalLength(c + [b]) == TotalLength(c) + b.length
  {
    if c == [] {
      assert [b][1..] == [];
    } else {
      TotalMore(c[1..], b);
      assert (c + [b])[1..] == c[1..] + [b];
    }
  }

  class BufferList {
    var bytes: nat
    var buffers: nat
    var head: BufferDescriptor?
    var tail: BufferDescriptor?
    ghost var items: seq<BufferDescriptor>

    /** The chain from head is `items`, ends at tail, and is accounted for exactly. */
    ghost predicate Valid()
      reads this, items`next, items`length
    {
      && Distinct(items)
      && Linked(items)
      && (items == [] ==> head == null && tail == null)
      && (items != [] ==> head == items[0] && tail == items[|items| - 1])
      && buffers == |items|
      && bytes == TotalLength(items)
    }

    ghost function First(): set<BufferDescriptor>
      reads this
    {
      if items == [] then {} else {items[0]}
    }

    ghost function Last(): set<BufferDescriptor>
      reads this
    {
      if items == [] then {} else {items[|items| - 1]}
    }

    lemma EndsIn()
      ensures forall b :: b in First() || b in Last() ==> b in items
    {}

    constructor ()
      ensures Valid() && items == []
    {
      bytes, buffers, head, tail, items := 0, 0, null, null, [];
    }

    /** Appends a chain of descriptors; a NULL chain is refused. */
    method Put(bd: BufferDescriptor?, ghost chain: seq<BufferDescriptor>) returns (ok: bool)
      requires Valid()
      requires bd == if chain == [] then null else chain[0]
      requires Linked(chain) && Distinct(items + chain)
      modifies this, Last()`next
      ensures Valid() && items == old(items) + chain
      ensures ok == (bd != null)
    {
      if bd == null {
        return false;
      }
      Attach(bd, chain);
      hide Distinct, Linked, TotalLength;
      Account(bd, chain);
      items := items + chain;
      ok := true;
    }

    /** Puts one descriptor at the end; no payload changes. */
    method Append(bd: BufferDescriptor)
      requires Valid() && bd !in items && bd.next == null
      modifies this, Last()`next
      ensures Valid() && items == old(items) + [bd] && bd.next == null
      ensures Views(items) == old(Views(items)) + [bd.View()]
    {
      OneMore(items, bd);
      assert bd !in Last();
      hide *;
      ViewsPush(items, bd);
      var _ := Put(bd, [bd]);
    }

    static lemma OneMore(c: seq<BufferDescriptor>, bd: BufferDescriptor)
      requires Distinct(c) && bd !in c && bd.next == null
      ensures Linked([bd]) && Distinct(c + [bd])
    {}

    /** Links a chain behind the last descriptor, or makes it the list. */
    method Attach(bd: BufferDescriptor, ghost chain: seq<BufferDescriptor>)
      requires Valid() && chain != [] && bd == chain[0]
      requires Linked(chain) && Distinct(items + chain)
      modifies `head, Last()`next
      ensures head == (items + chain)[0] && Linked(items + chain) && Linked(chain)
    {
      hide TotalLength;
      DistinctParts(items, chain);
      assert forall x :: x in chain ==> x !in Last();
      if head != null {
        tail.next := bd;
      } else {
        head := bd;
      }
      hide Distinct;
      Joined(items, chain);
    }

    /** Walks a chain just linked in: moves tail to its end and counts it. */
    method Account(bd: BufferDescriptor, ghost chain: seq<BufferDescriptor>)
      requires chain != [] && bd == chain[0] && Linked(chain)
      requires buffers == |items| && bytes == TotalLength(items)
      modifies `tail, `bytes, `buffers
      ensures tail == chain[|chain| - 1]
      ensures buffers == |items + chain| && bytes == TotalLength(items + chain)
    {
      hide *;
      var next: BufferDescriptor? := bd;
      ghost var done := 0;
      NoneCounted(chain);
      while next != null
        invariant done <= |chain| && next == if done < |chain| then chain[done] else null
        invariant done > 0 ==> tail == chain[done - 1]
        invariant Counted(chain, done)
        decreases |chain| - done
      {
        OneCounted(chain, done);
        tail := next;
        bytes := bytes + next.length;
        buffers := buffers + 1;
        NextIs(chain, done);
        next := next.next;
        done := done + 1;
        CountedIs(chain, done);
      }
      AllCounted(chain);
    }

    /** The accounting covers the list and the first of a chain being put behind it. */
    ghost predicate Counted(chain: seq<BufferDescriptor>, done: nat)
      requires done <= |chain|
      reads this, items`length, chain`length
    {
      buffers == |items| + done && bytes == TotalLength(items + chain[..done])
    }

    lemma NoneCounted(chain: seq<BufferDescriptor>)
      requires buffers == |items| && bytes == TotalLength(items)
      ensures Counted(chain, 0)
    {
      assert items + chain[..0] == items;
    }

    lemma OneCounted(chain: seq<BufferDescriptor>, done: nat)
      requires done < |chain| && Counted(chain, done)
      ensures buffers + 1 == |items| + done + 1
      ensures bytes + chain[done].length == TotalLength(items + chain[..done + 1])
    {
      TotalMore(items + chain[..done], chain[done]);
      assert items + chain[..done] + [chain[done]] == items + chain[..done + 1];
    }

    lemma CountedIs(chain: seq<BufferDescriptor>, done: nat)
      requires done <= |chain| && buffers == |items| + done && bytes == TotalLength(items + chain[..done])
      ensures Counted(chain, done)
    {}

    lemma AllCounted(chain: seq<BufferDescriptor>)
      requires Counted(chain, |chain|)
      ensures buffers == |items + chain| && bytes == TotalLength(items + chain)
    {
      assert chain[..|chain|] == chain;
    }

    static lemma NextIs(c: seq<BufferDescriptor>, i: nat)
      requires Linked(c) && i < |c|
      ensures c[i].next == if i + 1 < |c| then c[i + 1] else null
    {
      assert c[i].next == After(c, i);
    }

    /** A chain whose last descriptor points at another chain. */
    static lemma Joined(before: seq<BufferDescriptor>, chain: seq<BufferDescriptor>)
      requires Linked(chain) && chain != []
      requires forall i {:trigger After(before, i)} :: 0 <= i < |before| - 1 ==> before[i].next == After(before, i)
      requires before != [] ==> before[|before| - 1].next == chain[0]
      ensures Linked(before + chain)
    {
      var all := before + chain;
      forall i | 0 <= i < |all|
        ensures all[i].next == After(all, i)
      {
        if i < |before| {
          assert all[i] == before[i];
          assert After(all, i) == if i + 1 < |before| then After(before, i) else chain[0];
        } else {
          assert all[i] == chain[i - |before|];
          assert After(all, i) == After(chain, i - |before|);
        }
      }
    }

    /** Takes the first descriptor, or none. */
    method Get() returns (bd: BufferDescriptor?)
      requires Valid()
      modifies this, First()`next
      ensures Valid()
      ensures old(items) == [] ==> bd == null && items == []
      ensures old(items) != [] ==> bd == old(items)[0] && items == old(items)[1..] && bd.next == null
      ensures bd !in items
    {
      bd := head;
      if head != null {
        Rest(items);
        head := head.next;
        if head == null {
          tail := null;
        }
        bd.next := null;
        bytes := bytes - bd.length;
        buffers := buffers - 1;
        items := items[1..];
      }
    }

    /** Takes the first descriptor of a pool, if there is one, and makes it whole again. */
    method Allocate() returns (bd: BufferDescriptor?)
      requires Valid()
      modifies this, First()
      ensures Valid()
      ensures old(items) == [] ==> bd == null && items == []
      ensures old(items) != [] ==>
        && bd == old(items)[0] && items == old(items)[1..]
        && bd.next == null && bd.View() == Reset(old(Views(items))[0])
        && Views(items) == old(Views(items))[1..]
    {
      hide Linked, Distinct, TotalLength, Reset, Views;
      ghost var before := Views(items);
      bd := Get();
      if bd != null {
        ghost var rest := Views(items);
        assert rest == before[1..];
        bd.Reinitialize();
        assert Views(items) == rest;
      }
    }

    /** A chain without its first descriptor. */
    static lemma Rest(c: seq<BufferDescriptor>)
      requires c != [] && Linked(c) && Distinct(c)
      ensures c[0].next == (if |c| > 1 then c[1] else null) && Linked(c[1..]) && Distinct(c[1..])
      ensures forall i :: 0 <= i < |c[1..]| ==> c[1..][i] != c[0]
    {
      assert c[0].next == After(c, 0);
      forall i | 0 <= i < |c[1..]|
        ensures c[1..][i].next == After(c[1..], i)
      {
        assert c[1..][i] == c[i + 1] && After(c[1..], i) == After(c, i + 1);
      }
    }

    method Info() returns (bytes: nat, buffers: nat)
      requires Valid()
      ensures bytes == TotalLength(items) && buffers == |items|
    {
      bytes, buffers := this.bytes, this.buffers;
    }
  }
}
