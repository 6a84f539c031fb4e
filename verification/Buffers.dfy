/** The buffers of the serial driver, as values, and the byte streams that lists of them carry. */
module Buffers {
  import opened Bytes

  /** A buffer: its memory, and the part of it, `length` bytes from `data` on, that carries payload. */
  datatype Buffer = Buffer(id: nat, memory: seq<byte>, data: nat, length: nat, interface: int)

  predicate WellFormed(b: Buffer) {
    b.data + b.length <= |b.memory|
  }

  function Payload(b: Buffer): seq<byte>
    requires WellFormed(b)
  {
    b.memory[b.data..b.data + b.length]
  }

  ghost predicate AllWellFormed(c: seq<Buffer>) {
    forall i :: 0 <= i < |c| ==> WellFormed(c[i])
  }

  /** A buffer as a pool hands it out: all of its memory is payload, of no interface. */
  function Reset(b: Buffer): (r: Buffer)
    ensures WellFormed(r) && r.id == b.id && r.memory == b.memory && Payload(r) == b.memory && r.interface == -1
  {
    Buffer(b.id, b.memory, 0, |b.memory|, -1)
  }

  /** A buffer whose payload starts with new bytes, and is cut to them. */
  function Fill(b: Buffer, bytes: seq<byte>, interface: int): (r: Buffer)
    requires WellFormed(b) && |bytes| <= b.length
    ensures WellFormed(r) && Payload(r) == bytes && r.id == b.id && |r.memory| == |b.memory|
    ensures r.interface == interface
  {
    Buffer(b.id, Write(b.memory, b.data, bytes), b.data, |bytes|, interface)
  }

  /** The payloads of a list of buffers, in order. */
  function Stream(c: seq<Buffer>): seq<byte>
    requires AllWellFormed(c)
  {
    if c == [] then [] else Payload(c[0]) + Stream(c[1..])
  }

  lemma {:induction false} StreamConcat(a: seq<Buffer>, b: seq<Buffer>)
    requires AllWellFormed(a) && AllWellFormed(b)
    ensures AllWellFormed(a + b) && Stream(a + b) == Stream(a) + Stream(b)
  {
    if a == [] {
      assert a + b == b;
    } else {
      StreamConcat(a[1..], b);
      assert (a + b)[1..] == a[1..] + b;
    }
  }

  lemma StreamOne(b: Buffer)
    requires WellFormed(b)
    ensures AllWellFormed([b]) && Stream([b]) == Payload(b)
  {
    assert Stream([b][1..]) == [];
  }

  function Ids(c: seq<Buffer>): (ids: seq<nat>)
    ensures |ids| == |c| && forall i :: 0 <= i < |c| ==> ids[i] == c[i].id
  {
    seq(|c|, i requires 0 <= i < |c| => c[i].id)
  }

  /** Which buffers are in a list. */
  ghost function Bag(c: seq<Buffer>): multiset<nat> {
    multiset(Ids(c))
  }

  lemma BagConcat(a: seq<Buffer>, b: seq<Buffer>)
    ensures Bag(a + b) == Bag(a) + Bag(b)
  {
    assert Ids(a + b) == Ids(a) + Ids(b);
  }

  lemma BagOne(b: Buffer)
    ensures Bag([b]) == multiset{b.id}
  {
    assert Ids([b]) == [b.id];
  }

  lemma BagNone()
    ensures Bag([]) == multiset{}
  {
    assert Ids([]) == [];
  }

  lemma BagFirst(c: seq<Buffer>)
    requires c != []
    ensures Bag(c) == multiset{c[0].id} + Bag(c[1..])
  {
    BagConcat([c[0]], c[1..]);
    BagOne(c[0]);
    assert c == [c[0]] + c[1..];
  }
}
