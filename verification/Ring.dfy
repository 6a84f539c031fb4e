/**
 The variable-length message ring of the VPU command queues, as functions on its
 concrete state. The abstract queue is not a ghost companion: `Walk` recovers it
 from memory, head and tail, reading what a consumer would read.
 */
module Ring {
  import opened Bytes
  import opened Options

  const MARKER: u32 := 0xFFFF_FFFF

  type Record = seq<byte>

  /** Control registers and memory of one queue; its size is that of the memory. */
  datatype Queue = Queue(mem: seq<byte>, head: nat, tail: nat)

  /** What the producer must hand over: a rounded length repeated in the first word. */
  predicate WellFormed(r: Record) {
    && 4 <= |r|
    && |r| % 4 == 0
    && |r| + 4 < U32_MODULUS
    && Read32(r, 0) == |r|
  }

  /** The records from head to tail, or None when they do not parse. */
  function Walk(mem: seq<byte>, head: nat, tail: nat): Option<seq<Record>>
    requires head <= |mem| && tail <= |mem|
    decreases if head > tail then 1 else 0, |mem| - head
  {
    if head == tail then
      Some([])
    else if head + 4 > |mem| then
      None
    else
      var length := Read32(mem, head);
      if length == MARKER then
        if head > tail then Walk(mem, 0, tail) else None
      else if length < 4 || length % 4 != 0 || head + length > (if head < tail then tail else |mem|) then
        None
      else
        match Walk(mem, head + length, tail)
        case None => None
        case Some(rest) => Some([mem[head..head + length]] + rest)
  }

  /** The shape every reachable queue has. */
  ghost predicate Valid(q: Queue) {
    && q.head % 4 == 0 && q.tail % 4 == 0
    && q.tail + 4 < |q.mem| < U32_MODULUS
    && q.head <= |q.mem|
    && (q.head > q.tail ==> 0 < q.tail && q.tail + 4 < q.head)
    && Walk(q.mem, q.head, q.tail).Some?
  }

  ghost function Contents(q: Queue): seq<Record>
    requires Valid(q)
  {
    Walk(q.mem, q.head, q.tail).value
  }

  lemma Bounds(q: Queue)
    requires Valid(q)
    ensures q.head <= |q.mem| && q.tail + 4 < |q.mem| < U32_MODULUS
  {}

  /** Bytes between head and tail, which the consumer has still to read. */
  predicate Live(head: nat, tail: nat, i: nat) {
    if head <= tail then head <= i < tail else head <= i || i < tail
  }

  ghost predicate SameLive(a: seq<byte>, b: seq<byte>, head: nat, tail: nat) {
    && |a| == |b|
    && forall i :: 0 <= i < |a| && Live(head, tail, i) ==> a[i] == b[i]
  }

  // ---- pushing --------------------------------------------------------------

  datatype Placement = Append | Wrap | NoSpace

  function RoundUp(length: nat): (rounded: nat)
    ensures rounded % 4 == 0 && length <= rounded < length + 4
  {
    (length + 3) / 4 * 4
  }

  function Diff(a: nat, b: nat): nat {
    if a > b then a - b else b - a
  }

  /** The producer's decision. The space is a record and one spare word, in u32 arithmetic. */
  function Place(head: nat, tail: nat, size: nat, length: nat): Placement {
    var space := (length % U32_MODULUS + 4) % U32_MODULUS;
    if tail >= head then
      if Diff(tail, size) > space then Append
      else if head > space then Wrap
      else NoSpace
    else if Diff(head, tail) > space then Append
    else NoSpace
  }

  /** Without overflow the decision is about plain distances. */
  lemma PlaceMeans(head: nat, tail: nat, size: nat, length: nat)
    requires length + 4 < U32_MODULUS
    ensures Place(head, tail, size, length) ==
      if tail >= head then
        if Diff(tail, size) > length + 4 then Append else if head > length + 4 then Wrap else NoSpace
      else
        if Diff(head, tail) > length + 4 then Append else NoSpace
  {
    assert (length % U32_MODULUS + 4) % U32_MODULUS == length + 4;
  }

  function Push(q: Queue, r: Record): (result: (Queue, bool))
    requires q.tail + 4 < |q.mem|
    requires q.head <= |q.mem|
    requires |r| + 4 < U32_MODULUS
  {
    match Place(q.head, q.tail, |q.mem|, |r|)
    case Append => (Queue(Write(q.mem, q.tail, r), q.head, q.tail + |r|), true)
    case Wrap => (Queue(Write(Write(q.mem, q.tail, Word(MARKER)), 0, r), q.head, |r|), true)
    case NoSpace => (q, false)
  }

  /** A pull: skips a marker, then takes the record at head if its copy can be allocated. */
  function Pull(q: Queue, granted: bool): (Queue, Option<Record>)
    requires Valid(q)
    decreases if q.head > q.tail then 1 else 0
  {
    if q.head == q.tail then
      (q, None)
    else
      var length := Read32(q.mem, q.head);
      if length == MARKER then
        assert Walk(q.mem, 0, q.tail) == Walk(q.mem, q.head, q.tail);
        Pull(q.(head := 0), granted)
      else if granted then
        (q.(head := q.head + length), Some(q.mem[q.head..q.head + length]))
      else
        (q, None)
  }

  // ---- how memory writes act on the walk --------------------------------------

  lemma WordKept(a: seq<byte>, b: seq<byte>, at: nat)
    requires |a| == |b| && at + 4 <= |a|
    requires forall i :: at <= i < at + 4 ==> a[i] == b[i]
    ensures Read32(a, at) == Read32(b, at)
  {}

  /** A record alone between head and tail is what the walk finds. */
  lemma WalkOne(mem: seq<byte>, at: nat, r: Record)
    requires WellFormed(r) && at + |r| <= |mem| && mem[at..at + |r|] == r
    ensures Walk(mem, at, at + |r|) == Some([r])
  {
    assert mem[at..at + 4] == r[0..4];
    Read32Same(mem, at, r, 0);
    WalkRecord(mem, at, at + |r|, |r|);
    assert [r] + [] == [r];
  }

  /** What lies at head when the walk succeeds: a marker to go round at, or a whole record. */
  lemma WalkShape(mem: seq<byte>, head: nat, tail: nat)
    requires head <= |mem| && tail <= |mem| && head != tail
    requires Walk(mem, head, tail).Some?
    ensures head + 4 <= |mem|
    ensures var length := Read32(mem, head);
      if length == MARKER then
        head > tail && Walk(mem, head, tail) == Walk(mem, 0, tail)
      else
        && 4 <= length && length % 4 == 0
        && head + length <= (if head < tail then tail else |mem|)
        && Walk(mem, head + length, tail).Some?
        && Walk(mem, head, tail).value == [mem[head..head + length]] + Walk(mem, head + length, tail).value
  {}

  /** One step of the walk over a record. */
  lemma WalkRecord(mem: seq<byte>, head: nat, tail: nat, length: nat)
    requires head <= |mem| && tail <= |mem| && head != tail && head + 4 <= |mem|
    requires Read32(mem, head) == length != MARKER
    requires 4 <= length && length % 4 == 0
    requires head + length <= if head < tail then tail else |mem|
    requires Walk(mem, head + length, tail).Some?
    ensures Walk(mem, head, tail) == Some([mem[head..head + length]] + Walk(mem, head + length, tail).value)
  {}

  lemma WalkMarker(mem: seq<byte>, head: nat, tail: nat)
    requires tail < head && head + 4 <= |mem| && Read32(mem, head) == MARKER
    ensures Walk(mem, head, tail) == Walk(mem, 0, tail)
  {}

  lemma FirstKept(a: seq<byte>, b: seq<byte>, head: nat, tail: nat, length: nat, rest: seq<Record>, r: Record)
    requires SameLive(a, b, head, tail) && head != tail
    requires head + length <= |a| && (head < tail ==> head + length <= tail)
    ensures [a[head..head + length]] + rest + [r] == [b[head..head + length]] + (rest + [r])
  {
    assert a[head..head + length] == b[head..head + length];
  }

  /** A record that is read first stays first when another one is read last. */
  lemma FirstThenLast(a: seq<byte>, b: seq<byte>, head: nat, tail: nat, end: nat, r: Record)
    requires head <= |a| && tail <= |a| && head != tail && end <= |b| && head != end
    requires Walk(a, head, tail).Some? && SameLive(a, b, head, tail)
    requires head + 4 <= |a| && Read32(a, head) != MARKER
    requires var length := Read32(a, head);
      && head + length <= (if head < end then end else |b|) && head + length <= |a|
      && Walk(a, head + length, tail).Some?
      && Walk(b, head + length, end) == Some(Walk(a, head + length, tail).value + [r])
    ensures Walk(b, head, end) == Some(Walk(a, head, tail).value + [r])
  {
    hide Walk, Read32;
    WalkShape(a, head, tail);
    WordKept(a, b, head);
    var length := Read32(a, head);
    WalkRecord(b, head, end, length);
    FirstKept(a, b, head, tail, length, Walk(a, head + length, tail).value, r);
  }

  lemma AppendFirst(a: seq<byte>, b: seq<byte>, tail: nat, r: Record)
    requires tail <= |a| && WellFormed(r) && tail + |r| <= |b| && b[tail..tail + |r|] == r
    ensures Walk(b, tail, tail + |r|) == Some(Walk(a, tail, tail).value + [r])
  {
    WalkOne(b, tail, r);
    assert [] + [r] == [r];
  }

  /** A record written at tail is walked last when the queue does not go round. */
  lemma {:induction false} AppendStraight(a: seq<byte>, b: seq<byte>, head: nat, tail: nat, r: Record)
    requires head <= tail <= |a| && Walk(a, head, tail).Some? && SameLive(a, b, head, tail)
    requires WellFormed(r) && tail + |r| <= |b| && b[tail..tail + |r|] == r
    ensures Walk(b, head, tail + |r|) == Some(Walk(a, head, tail).value + [r])
    decreases |a| - head
  {
    hide Walk, Read32;
    if head == tail {
      AppendFirst(a, b, tail, r);
    } else {
      WalkShape(a, head, tail);
      var length := Read32(a, head);
      AppendStraight(a, b, head + length, tail, r);
      FirstThenLast(a, b, head, tail, tail + |r|, r);
    }
  }

  /** A record written at tail, clear of the live bytes, is walked last. */
  lemma {:induction false} AppendWalk(a: seq<byte>, b: seq<byte>, head: nat, tail: nat, r: Record)
    requires head <= |a| && tail <= |a|
    requires Walk(a, head, tail).Some? && SameLive(a, b, head, tail)
    requires WellFormed(r)
    requires if head > tail then tail + |r| < head else tail + |r| <= |b|
    requires b[tail..tail + |r|] == r
    ensures Walk(b, head, tail + |r|) == Some(Walk(a, head, tail).value + [r])
    decreases |a| - head
  {
    hide Walk, Read32;
    if head <= tail {
      AppendStraight(a, b, head, tail, r);
    } else {
      WalkShape(a, head, tail);
      var length := Read32(a, head);
      if length == MARKER {
        WordKept(a, b, head);
        AppendStraight(a, b, 0, tail, r);
        WalkMarker(b, head, tail + |r|);
      } else {
        AppendWalk(a, b, head + length, tail, r);
        FirstThenLast(a, b, head, tail, tail + |r|, r);
      }
    }
  }

  /** The walk depends on the live bytes only. */
  lemma {:induction false} SameWalk(a: seq<byte>, b: seq<byte>, head: nat, tail: nat)
    requires head <= |a| && tail <= |a|
    requires Walk(a, head, tail).Some? && SameLive(a, b, head, tail)
    ensures Walk(b, head, tail) == Walk(a, head, tail)
    decreases if head > tail then 1 else 0, |a| - head
  {
    hide *;
    if head == tail {
      SameNothing(a, b, head);
    } else {
      WalkShape(a, head, tail);
      LiveWord(a, b, head, tail);
      var length := Read32(a, head);
      if length == MARKER {
        SameWalk(a, b, 0, tail);
        WalkMarker(b, head, tail);
      } else {
        LiveRest(a, b, head, tail, length);
        SameWalk(a, b, head + length, tail);
        WalkRecord(b, head, tail, length);
      }
    }
  }

  /** The live bytes from head on are the same, and so are those after them and those at the start. */
  lemma LiveRest(a: seq<byte>, b: seq<byte>, head: nat, tail: nat, length: nat)
    requires SameLive(a, b, head, tail) && head != tail && tail <= |a|
    requires head + length <= if head < tail then tail else |a|
    ensures |a| == |b| && a[head..head + length] == b[head..head + length]
    ensures SameLive(a, b, head + length, tail) && (tail < head ==> SameLive(a, b, 0, tail))
  {}

  lemma SameNothing(a: seq<byte>, b: seq<byte>, at: nat)
    requires at <= |a| && SameLive(a, b, at, at)
    ensures |a| == |b| && Walk(b, at, at) == Walk(a, at, at)
  {}

  lemma LiveWord(a: seq<byte>, b: seq<byte>, head: nat, tail: nat)
    requires SameLive(a, b, head, tail) && head != tail && tail <= |a|
    requires head + 4 <= if head < tail then tail else |a|
    ensures |a| == |b| && Read32(a, head) == Read32(b, head)
    ensures tail < head ==> SameLive(a, b, 0, tail)
  {
    WordKept(a, b, head);
  }

  /** A marker at tail and a record at offset 0 make the walk go round. */
  lemma {:induction false} WrapWalk(a: seq<byte>, b: seq<byte>, head: nat, tail: nat, r: Record)
    requires head <= tail <= |a| && Walk(a, head, tail).Some? && SameLive(a, b, head, tail)
    requires WellFormed(r) && |r| < head && tail + 4 <= |b|
    requires Read32(b, tail) == MARKER && b[..|r|] == r
    ensures Walk(b, head, |r|) == Some(Walk(a, head, tail).value + [r])
    decreases |a| - head
  {
    hide Walk, Read32, WellFormed;
    if head == tail {
      WrapFirst(a, b, tail, r);
    } else {
      WalkShape(a, head, tail);
      var length := Read32(a, head);
      WrapWalk(a, b, head + length, tail, r);
      FirstThenLast(a, b, head, tail, |r|, r);
    }
  }

  lemma WrapFirst(a: seq<byte>, b: seq<byte>, tail: nat, r: Record)
    requires |r| < tail <= |a| && WellFormed(r) && tail + 4 <= |b|
    requires Read32(b, tail) == MARKER && b[..|r|] == r
    ensures Walk(b, tail, |r|) == Some(Walk(a, tail, tail).value + [r])
  {
    WalkOne(b, 0, r);
    WalkMarker(b, tail, |r|);
    assert [] + [r] == [r];
  }

  /** Every walked record is well formed. */
  lemma {:induction false} WalkWellFormed(mem: seq<byte>, head: nat, tail: nat)
    requires head <= |mem| && tail + 4 < |mem| < U32_MODULUS
    requires Walk(mem, head, tail).Some?
    ensures forall r :: r in Walk(mem, head, tail).value ==> WellFormed(r)
    decreases if head > tail then 1 else 0, |mem| - head
  {
    hide *;
    if head == tail {
      EmptyWalk(mem, head);
    } else {
      WalkShape(mem, head, tail);
      var length := Read32(mem, head);
      if length == MARKER {
        WalkWellFormed(mem, 0, tail);
      } else {
        WalkWellFormed(mem, head + length, tail);
        if head + length != tail {
          WalkShape(mem, head + length, tail);
        }
        RecordWellFormed(mem, head, length);
      }
    }
  }

  lemma EmptyWalk(mem: seq<byte>, at: nat)
    requires at <= |mem|
    ensures Walk(mem, at, at) == Some([])
  {}

  lemma RecordWellFormed(mem: seq<byte>, at: nat, length: nat)
    requires 4 <= length && length % 4 == 0 && length + 4 < U32_MODULUS
    requires at + length <= |mem| && Read32(mem, at) == length
    ensures WellFormed(mem[at..at + length])
  {
    Read32Same(mem, at, mem[at..at + length], 0);
  }

  // ---- refinement of a FIFO ----------------------------------------------------

  /** Full and empty are never confused: the registers meet exactly when nothing is queued. */
  lemma EmptyExactlyWhenRegistersMeet(q: Queue)
    requires Valid(q)
    ensures q.head == q.tail <==> Contents(q) == []
  {
    if q.head > q.tail && Read32(q.mem, q.head) == MARKER {
      assert Contents(q) == Walk(q.mem, 0, q.tail).value;
    }
  }

  lemma Aligned(a: nat, b: nat)
    requires a % 4 == 0 && b % 4 == 0
    ensures (a + b) % 4 == 0
  {}

  lemma PushInPlace(q: Queue, r: Record)
    requires Valid(q) && WellFormed(r)
    requires q.tail + |r| + 4 < if q.head > q.tail then q.head else |q.mem|
    ensures var after := Queue(Write(q.mem, q.tail, r), q.head, q.tail + |r|);
      Valid(after) && Contents(after) == Contents(q) + [r]
  {
    hide Walk, Read32;
    var mem := Write(q.mem, q.tail, r);
    assert mem[q.tail..q.tail + |r|] == r;
    assert SameLive(q.mem, mem, q.head, q.tail);
    AppendWalk(q.mem, mem, q.head, q.tail, r);
    Aligned(q.tail, |r|);
  }

  lemma PushAround(q: Queue, r: Record)
    requires Valid(q) && WellFormed(r)
    requires |r| + 4 < q.head <= q.tail
    ensures var after := Queue(Write(Write(q.mem, q.tail, Word(MARKER)), 0, r), q.head, |r|);
      Valid(after) && Contents(after) == Contents(q) + [r]
  {
    var mem := Write(Write(q.mem, q.tail, Word(MARKER)), 0, r);
    assert mem[q.tail..q.tail + 4] == Word(MARKER)[0..4];
    Read32Same(mem, q.tail, Word(MARKER), 0);
    assert mem[..|r|] == r;
    WrapWalk(q.mem, mem, q.head, q.tail, r);
  }

  /** A push that finds room appends its record; one that does not changes nothing. */
  lemma PushAppends(q: Queue, r: Record)
    requires Valid(q) && WellFormed(r)
    ensures var (after, pushed) := Push(q, r);
      && Valid(after) && after.head == q.head && |after.mem| == |q.mem|
      && pushed == (Place(q.head, q.tail, |q.mem|, |r|) != NoSpace)
      && Contents(after) == (if pushed then Contents(q) + [r] else Contents(q))
      && (!pushed ==> after == q)
  {
    hide Walk, Read32;
    match Place(q.head, q.tail, |q.mem|, |r|)
    case NoSpace =>
    case Append => PushInPlace(q, r);
    case Wrap => PushAround(q, r);
  }

  lemma PullNothing(q: Queue, granted: bool)
    requires Valid(q) && q.head == q.tail
    ensures Pull(q, granted) == (q, None)
  {}

  /** One turn of a pull on a queue that is not empty. */
  lemma PullTurn(q: Queue, granted: bool)
    requires Valid(q) && q.head != q.tail
    ensures q.head + 4 <= |q.mem|
    ensures var length := Read32(q.mem, q.head);
      if length == MARKER then
        q.head > q.tail > 0 && Valid(q.(head := 0)) && Pull(q, granted) == Pull(q.(head := 0), granted)
      else
        && q.head + length <= |q.mem| < U32_MODULUS
        && Pull(q, granted) == if granted then
             (q.(head := q.head + length), Some(q.mem[q.head..q.head + length]))
           else
             (q, None)
  {
    hide Walk, Read32;
    WalkShape(q.mem, q.head, q.tail);
  }

  /** What that turn makes of the contents. */
  lemma ContentsTurn(q: Queue)
    requires Valid(q) && q.head != q.tail
    ensures q.head + 4 <= |q.mem|
    ensures var length := Read32(q.mem, q.head);
      if length == MARKER then
        Valid(q.(head := 0)) && Contents(q.(head := 0)) == Contents(q)
      else
        && q.head + length <= |q.mem| && Valid(q.(head := q.head + length))
        && Contents(q) == [q.mem[q.head..q.head + length]] + Contents(q.(head := q.head + length))
  {
    hide Walk, Read32;
    WalkShape(q.mem, q.head, q.tail);
    if Read32(q.mem, q.head) != MARKER {
      Aligned(q.head, Read32(q.mem, q.head));
    }
  }

  /** A pull hands out the oldest record; it hands out none only if there is none or no memory for it. */
  lemma {:induction false} PullTakesOldest(q: Queue, granted: bool)
    requires Valid(q)
    ensures var (after, element) := Pull(q, granted);
      && Valid(after) && after.tail == q.tail && after.mem == q.mem
      && element == (if granted && Contents(q) != [] then Some(Contents(q)[0]) else None)
      && Contents(after) == (if element.Some? then Contents(q)[1..] else Contents(q))
    decreases if q.head > q.tail then 1 else 0
  {
    hide Walk, Read32, Pull, Valid, Contents;
    EmptyExactlyWhenRegistersMeet(q);
    if q.head == q.tail {
      PullNothing(q, granted);
    } else {
      PullTurn(q, granted);
      ContentsTurn(q);
      if Read32(q.mem, q.head) == MARKER {
        PullTakesOldest(q.(head := 0), granted);
      }
    }
  }

  datatype Operation = PushOp(record: Record) | PullOp(granted: bool)

  /** A run of the queue with what it accepted and what it handed out. */
  datatype History = History(queue: Queue, accepted: seq<Record>, delivered: seq<Record>)

  function Empty(mem: seq<byte>): Queue {
    Queue(mem, 0, 0)
  }

  ghost predicate WellFormedOps(ops: seq<Operation>) {
    forall op :: op in ops && op.PushOp? ==> WellFormed(op.record)
  }

  ghost function Apply(h: History, op: Operation): (after: History)
    requires Valid(h.queue) && (op.PushOp? ==> WellFormed(op.record))
    ensures Valid(after.queue) && |after.queue.mem| == |h.queue.mem|
  {
    hide Walk, Read32, Push, Pull;
    match op
    case PushOp(r) =>
      PushAppends(h.queue, r);
      var (queue, pushed) := Push(h.queue, r);
      History(queue, if pushed then h.accepted + [r] else h.accepted, h.delivered)
    case PullOp(granted) =>
      PullTakesOldest(h.queue, granted);
      var (queue, element) := Pull(h.queue, granted);
      History(queue, h.accepted, if element.Some? then h.delivered + [element.value] else h.delivered)
  }

  /** The history after a sequence of operations on a new queue. */
  ghost function Run(mem: seq<byte>, ops: seq<Operation>): (h: History)
    requires 4 < |mem| < U32_MODULUS && WellFormedOps(ops)
    ensures Valid(h.queue) && |h.queue.mem| == |mem|
  {
    if ops == [] then
      History(Empty(mem), [], [])
    else
      Apply(Run(mem, ops[..|ops| - 1]), ops[|ops| - 1])
  }

  /** Whatever is pushed and pulled, in any order, records leave in the order they entered. */
  lemma {:induction false} QueueIsFifo(mem: seq<byte>, ops: seq<Operation>)
    requires 4 < |mem| < U32_MODULUS && WellFormedOps(ops)
    ensures var h := Run(mem, ops); h.accepted == h.delivered + Contents(h.queue)
  {
    hide Walk, Read32, Push, Pull, Valid, Contents, WellFormed;
    if ops == [] {
      NewIsEmpty(mem);
    } else {
      var before := Run(mem, ops[..|ops| - 1]);
      QueueIsFifo(mem, ops[..|ops| - 1]);
      match ops[|ops| - 1]
      case PushOp(r) => PushAppends(before.queue, r);
      case PullOp(granted) => PullTakesOldest(before.queue, granted);
    }
  }

  lemma NewIsEmpty(mem: seq<byte>)
    requires 4 < |mem| < U32_MODULUS
    ensures Valid(Empty(mem)) && Contents(Empty(mem)) == []
  {}

  // ---- progress on an empty queue --------------------------------------------------

  /** Every aligned position that leaves a spare word is reached by an empty queue. */
  lemma EmptyQueueReaches(mem: seq<byte>, p: nat) returns (ops: seq<Operation>)
    requires 4 < |mem| < U32_MODULUS && p % 4 == 0 && p + 4 < |mem|
    ensures WellFormedOps(ops)
    ensures Contents(Run(mem, ops).queue) == [] && Run(mem, ops).queue.head == p
  {
    if p == 0 {
      return [];
    }
    var r := Word(p) + seq(p - 4, _ => 0);
    Read32Same(r, 0, Word(p), 0);
    hide Walk, Read32;
    ops := [PushOp(r)];
    var before := Run(mem, []);
    assert ops[..0] == [];
    var pushed := Run(mem, ops);
    PushAppends(before.queue, r);
    assert pushed == Apply(before, PushOp(r));
    ops := ops + [PullOp(true)];
    assert ops[..1] == [PushOp(r)];
    PullTakesOldest(pushed.queue, true);
    EmptyExactlyWhenRegistersMeet(Run(mem, ops).queue);
  }

  ghost predicate EmptyAfter(mem: seq<byte>, ops: seq<Operation>)
    requires 4 < |mem| < U32_MODULUS
  {
    WellFormedOps(ops) && Contents(Run(mem, ops).queue) == []
  }

  ghost predicate HasRoomAfter(mem: seq<byte>, ops: seq<Operation>, length: nat)
    requires 4 < |mem| < U32_MODULUS && WellFormedOps(ops)
  {
    var q := Run(mem, ops).queue;
    Place(q.head, q.tail, |q.mem|, length) != NoSpace
  }

  lemma RoomForTwo(mem: seq<byte>, ops: seq<Operation>, length: nat)
    requires 4 < |mem| < U32_MODULUS && EmptyAfter(mem, ops)
    requires 2 * (length + 4) < |mem|
    ensures HasRoomAfter(mem, ops, length)
  {
    hide Walk, Run;
    EmptyExactlyWhenRegistersMeet(Run(mem, ops).queue);
  }

  lemma NoRoomForTwo(mem: seq<byte>, length: nat) returns (ops: seq<Operation>)
    requires 4 < |mem| < U32_MODULUS
    requires 4 <= length && length % 4 == 0 && length + 4 < U32_MODULUS
    requires |mem| <= 2 * (length + 4)
    ensures EmptyAfter(mem, ops) && !HasRoomAfter(mem, ops, length)
  {
    hide Walk, Run, Place, Contents;
    var p := NoSpaceAt(|mem|, length);
    ops := EmptyQueueReaches(mem, p);
    EmptyExactlyWhenRegistersMeet(Run(mem, ops).queue);
  }

  /** Where both registers stand when a record that does not fit twice finds no room. */
  lemma NoSpaceAt(size: nat, length: nat) returns (p: nat)
    requires 4 < size < U32_MODULUS && 4 <= length && length % 4 == 0 && length + 4 < U32_MODULUS
    requires size <= 2 * (length + 4)
    ensures p % 4 == 0 && p + 4 < size && Place(p, p, size, length) == NoSpace
  {
    assert (length % U32_MODULUS + 4) % U32_MODULUS == length + 4;
    if length + 8 < size {
      p := length + 4;
    } else {
      p := (size - 5) / 4 * 4;
      assert size - 8 <= p <= size - 5;
    }
  }

  /** An empty queue has room wherever earlier traffic left it exactly when the record fits twice. */
  lemma EmptyPushBound(mem: seq<byte>, length: nat)
    requires 4 < |mem| < U32_MODULUS
    requires 4 <= length && length % 4 == 0 && length + 4 < U32_MODULUS
    ensures 2 * (length + 4) < |mem| <==>
      forall ops :: EmptyAfter(mem, ops) ==> HasRoomAfter(mem, ops, length)
  {
    if 2 * (length + 4) < |mem| {
      forall ops | EmptyAfter(mem, ops)
        ensures HasRoomAfter(mem, ops, length)
      {
        RoomForTwo(mem, ops, length);
      }
    } else {
      var ops := NoRoomForTwo(mem, length);
    }
  }
}
