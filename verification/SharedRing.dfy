/**
 The ring with its two ends running at once. Host and device share only memory, head
 and tail; every register access, the marker and each payload byte is one step, and a
 producer decides on a head value that may be stale by then. Only the lock of each side
 is respected: one producer and one consumer are active at a time.
 */
module SharedRing {
  import opened Bytes
  import opened Options
  import opened Ring

  datatype Producer =
    | Ready
    | SawHead(record: Record, seen: nat)
    | AtMarker(record: Record, seen: nat)
    | Copying(record: Record, seen: nat, wraps: bool, done: nat)

  datatype Consumer =
    | Idle
    | SawOwnHead(start: nat)
    | NotEmpty
    | AtRecord(start: nat)
    | AtWrap
    | Taking(start: nat, length: nat, taken: seq<byte>)

  datatype State = State(
    mem: seq<byte>, head: nat, tail: nat,
    producer: Producer, consumer: Consumer,
    published: seq<Record>, pulled: seq<Record>)

  /** The scheduler's choice; `granted` is the outcome of the consumer's allocation. */
  datatype Action = BeginPush(record: Record) | Produce | BeginPull | Consume(granted: bool)

  /** Where a producer in the Copying state puts its record. */
  function Target(s: State): nat
    requires s.producer.Copying?
  {
    if s.producer.wraps then 0 else s.tail
  }

  /** The producer's next step writes address `i`. */
  predicate WritesAt(s: State, i: nat) {
    match s.producer
    case AtMarker(_, _) => s.tail <= i < s.tail + 4
    case Copying(r, _, _, done) => done < |r| && i == Target(s) + done
    case _ => false
  }

  function ProducerStep(s: State): State
    requires Inv(s)
  {
    match s.producer
    case Ready => s
    case SawHead(r, seen) =>
      (match Place(seen, s.tail, |s.mem|, |r|)
       case Append => s.(producer := Copying(r, seen, false, 0))
       case Wrap => s.(producer := AtMarker(r, seen))
       case NoSpace => s.(producer := Ready))
    case AtMarker(r, seen) =>
      s.(mem := Write(s.mem, s.tail, Word(MARKER)), producer := Copying(r, seen, true, 0))
    case Copying(r, seen, wraps, done) =>
      if done < |r| then
        s.(mem := s.mem[Target(s) + done := r[done]], producer := Copying(r, seen, wraps, done + 1))
      else
        s.(tail := Target(s) + |r|, published := s.published + [r], producer := Ready)
  }

  function ConsumerStep(s: State, granted: bool): State
    requires Inv(s)
  {
    match s.consumer
    case Idle => s
    case SawOwnHead(start) =>
      s.(consumer := if s.tail == start then Idle else NotEmpty)
    case NotEmpty =>
      s.(consumer := AtRecord(s.head))
    case AtRecord(start) =>
      Unconsumed(s);
      var length := Read32(s.mem, start);
      s.(consumer := if length == MARKER then AtWrap else if granted then Taking(start, length, []) else Idle)
    case AtWrap =>
      s.(head := 0, consumer := SawOwnHead(0))
    case Taking(start, length, taken) =>
      if |taken| < length then
        Unconsumed(s);
        s.(consumer := Taking(start, length, taken + [s.mem[start + |taken|]]))
      else
        s.(head := start + length, pulled := s.pulled + [taken], consumer := Idle)
  }

  function Step(s: State, a: Action): State
    requires Inv(s) && (a.BeginPush? ==> WellFormed(a.record))
  {
    match a
    case BeginPush(r) => if s.producer.Ready? then s.(producer := SawHead(r, s.head)) else s
    case Produce => ProducerStep(s)
    case BeginPull => if s.consumer.Idle? then s.(consumer := SawOwnHead(s.head)) else s
    case Consume(granted) => ConsumerStep(s, granted)
  }

  // ---- the invariant -----------------------------------------------------------

  function Shared(s: State): Queue {
    Queue(s.mem, s.head, s.tail)
  }

  /** The consumer, last seen at `seen`, can have moved to `head` by consuming up to tail. */
  predicate Caught(seen: nat, head: nat, tail: nat) {
    if seen <= tail then seen <= head <= tail else seen <= head || head <= tail
  }

  ghost predicate ProducerInv(s: State) {
    match s.producer
    case Ready => true
    case SawHead(r, seen) =>
      WellFormed(r) && seen <= |s.mem| && Caught(seen, s.head, s.tail)
    case AtMarker(r, seen) =>
      WellFormed(r) && Caught(seen, s.head, s.tail) && |r| + 4 < seen <= s.tail
    case Copying(r, seen, wraps, done) =>
      && WellFormed(r) && seen <= |s.mem| && s.tail + 4 <= |s.mem| && Caught(seen, s.head, s.tail)
      && done <= |r|
      && (if wraps then |r| + 4 < seen <= s.tail && Read32(s.mem, s.tail) == MARKER
          else s.tail + |r| + 4 < if s.tail < seen then seen else |s.mem|)
      && s.mem[Target(s)..Target(s) + done] == r[..done]
  }

  ghost predicate ConsumerInv(s: State) {
    match s.consumer
    case Idle => true
    case SawOwnHead(start) => start == s.head
    case NotEmpty => s.head != s.tail
    case AtRecord(start) => start == s.head != s.tail
    case AtWrap => s.head != s.tail && s.head + 4 <= |s.mem| && Read32(s.mem, s.head) == MARKER
    case Taking(start, length, taken) =>
      && start == s.head != s.tail && s.head + 4 <= |s.mem|
      && Read32(s.mem, s.head) == length != MARKER
      && |taken| <= length && start + length <= |s.mem|
      && taken == s.mem[start..start + |taken|]
  }

  ghost predicate Inv(s: State) {
    && Valid(Shared(s))
    && s.published == s.pulled + Contents(Shared(s))
    && ProducerInv(s)
    && ConsumerInv(s)
  }

  lemma Unconsumed(s: State)
    requires Valid(Shared(s)) && s.head != s.tail
    ensures s.head + 4 <= |s.mem|
    ensures forall i :: s.head <= i < s.head + 4 ==> Live(s.head, s.tail, i)
    ensures var length := Read32(s.mem, s.head);
      length != MARKER ==>
        && s.head + length <= |s.mem|
        && forall i :: s.head <= i < s.head + length ==> Live(s.head, s.tail, i)
  {
    hide Walk, Read32;
    WalkShape(s.mem, s.head, s.tail);
  }

  // ---- every step keeps it ---------------------------------------------------------

  /** Writing bytes that are not live is invisible to the consumer. */
  lemma DeadWrite(s: State, mem: seq<byte>)
    requires Inv(s) && SameLive(s.mem, mem, s.head, s.tail)
    ensures Valid(Queue(mem, s.head, s.tail)) && Contents(Queue(mem, s.head, s.tail)) == Contents(Shared(s))
    ensures ConsumerInv(s.(mem := mem))
  {
    hide Walk, Read32;
    SameWalk(s.mem, mem, s.head, s.tail);
    if s.head != s.tail {
      Unconsumed(s);
      WordKept(s.mem, mem, s.head);
      if s.consumer.Taking? {
        var k := |s.consumer.taken|;
        assert s.mem[s.head..s.head + k] == mem[s.head..s.head + k];
      }
    }
  }

  /** The address written next holds nothing the consumer still has to read. */
  lemma WritesAreDead(s: State, i: nat)
    requires Inv(s) && WritesAt(s, i)
    ensures i < |s.mem| && !Live(s.head, s.tail, i)
  {
    hide Walk, Read32;
  }

  /** Where the producer's next step is said not to write it does not, and it leaves every unread byte alone. */
  lemma ProducerWritesThere(s: State, i: nat)
    requires Inv(s) && i < |s.mem|
    ensures |ProducerStep(s).mem| == |s.mem|
    ensures !WritesAt(s, i) || Live(s.head, s.tail, i) ==> ProducerStep(s).mem[i] == s.mem[i]
  {
    hide Walk, Read32;
    if WritesAt(s, i) {
      WritesAreDead(s, i);
    }
  }

  /**
   A producer that decides on a head value that is out of date does what it would do on the
   present one, or finds no room.
   */
  lemma StaleDecision(s: State)
    requires Inv(s) && s.producer.SawHead?
    ensures var r, seen := s.producer.record, s.producer.seen;
      var decision := Place(seen, s.tail, |s.mem|, |r|);
      decision == NoSpace || decision == Place(s.head, s.tail, |s.mem|, |r|)
  {
    hide Walk, Read32;
  }

  lemma DecideKeeps(s: State)
    requires Inv(s) && s.producer.SawHead?
    ensures Inv(ProducerStep(s))
  {
    DecideProducer(s);
    var after := ProducerStep(s);
    assert after == s.(producer := after.producer);
    hide ProducerStep, ProducerInv, Ring.Valid, Contents;
  }

  lemma DecideProducer(s: State)
    requires Inv(s) && s.producer.SawHead?
    ensures ProducerInv(ProducerStep(s))
  {
    var SawHead(r, seen) := s.producer;
    Bounds(Shared(s));
    PlaceMeans(seen, s.tail, |s.mem|, |r|);
    assert s.mem[s.tail..s.tail] == r[..0] == s.mem[0..0];
    hide Walk, Read32, Contents, ConsumerInv, Ring.Valid, Place;
  }

  lemma MarkKeeps(s: State)
    requires Inv(s) && s.producer.AtMarker?
    ensures Inv(ProducerStep(s))
  {
    hide Walk, Read32;
    var mem := Write(s.mem, s.tail, Word(MARKER));
    DeadWrite(s, mem);
    assert mem[s.tail..s.tail + 4] == Word(MARKER)[0..4];
    Read32Same(mem, s.tail, Word(MARKER), 0);
  }

  lemma CopyKeeps(s: State)
    requires Inv(s) && s.producer.Copying? && s.producer.done < |s.producer.record|
    ensures Inv(ProducerStep(s))
  {
    var at := Target(s) + s.producer.done;
    WritesAreDead(s, at);
    DeadWrite(s, s.mem[at := s.producer.record[s.producer.done]]);
    CopyProducer(s);
    var after := ProducerStep(s);
    assert after == s.(producer := after.producer, mem := after.mem);
    assert after.mem == s.mem[at := s.producer.record[s.producer.done]];
    hide ProducerStep, ProducerInv, Ring.Valid, Contents, Walk, Read32;
  }

  lemma CopyProducer(s: State)
    requires Inv(s) && s.producer.Copying? && s.producer.done < |s.producer.record|
    ensures ProducerInv(ProducerStep(s))
  {
    hide Walk, Read32, Contents, ConsumerInv, Caught;
    var Copying(r, seen, wraps, done) := s.producer;
    var at := Target(s);
    var mem := s.mem[at + done := r[done]];
    if wraps {
      WordKept(s.mem, mem, s.tail);
    }
    CopiedMore(s.mem, at, r, done);
  }

  lemma CopiedMore(mem: seq<byte>, at: nat, r: Record, done: nat)
    requires done < |r| && at + done < |mem| && mem[at..at + done] == r[..done]
    ensures mem[at + done := r[done]][at..at + (done + 1)] == r[..done + 1]
  {
    assert mem[at + done := r[done]][at..at + (done + 1)] == mem[at..at + done] + [r[done]];
    assert r[..done + 1] == r[..done] + [r[done]];
  }

  lemma PublishKeeps(s: State)
    requires Inv(s) && s.producer.Copying? && s.producer.done == |s.producer.record|
    ensures Inv(ProducerStep(s))
  {
    hide Walk, Read32;
    var r := s.producer.record;
    assert r[..|r|] == r;
    if s.producer.wraps {
      assert s.mem[..|r|] == s.mem[0..0 + |r|];
      WrapWalk(s.mem, s.mem, s.head, s.tail, r);
    } else {
      AppendWalk(s.mem, s.mem, s.head, s.tail, r);
    }
    Aligned(s.tail, |r|);
    EmptyExactlyWhenRegistersMeet(Shared(ProducerStep(s)));
  }

  lemma ProducerKeeps(s: State)
    requires Inv(s)
    ensures Inv(ProducerStep(s))
  {
    match s.producer
    case Ready =>
    case SawHead(_, _) => DecideKeeps(s);
    case AtMarker(_, _) => MarkKeeps(s);
    case Copying(r, _, _, done) =>
      if done < |r| { CopyKeeps(s); } else { PublishKeeps(s); }
  }

  /** Consuming a record takes it off the front of what is queued. */
  lemma TakeKeeps(s: State)
    requires Inv(s) && s.consumer.Taking? && |s.consumer.taken| == s.consumer.length
    ensures forall granted :: Inv(ConsumerStep(s, granted))
  {
    hide Walk, Read32;
    WalkShape(s.mem, s.head, s.tail);
    Aligned(s.head, s.consumer.length);
    var rest := Walk(s.mem, s.head + s.consumer.length, s.tail).value;
    assert s.pulled + ([s.consumer.taken] + rest) == s.pulled + [s.consumer.taken] + rest;
  }

  lemma ReadKeeps(s: State, granted: bool)
    requires Inv(s) && (s.consumer.AtRecord? || s.consumer.Taking?)
    requires s.consumer.Taking? ==> |s.consumer.taken| < s.consumer.length
    ensures Inv(ConsumerStep(s, granted))
  {
    hide Walk, Read32, ProducerInv, Ring.Valid, Contents, Live;
    Unconsumed(s);
    if s.consumer.Taking? {
      OneMoreByte(s.mem, s.consumer.start, |s.consumer.taken|);
    }
    SameProducer(s, ConsumerStep(s, granted));
  }

  lemma OneMoreByte(mem: seq<byte>, start: nat, n: nat)
    requires start + n < |mem|
    ensures mem[start..start + (n + 1)] == mem[start..start + n] + [mem[start + n]]
  {}

  lemma SameProducer(s: State, after: State)
    requires ProducerInv(s) && after == s.(consumer := after.consumer)
    ensures ProducerInv(after)
  {}

  lemma WrapKeeps(s: State, granted: bool)
    requires Inv(s) && s.consumer.AtWrap?
    ensures Inv(ConsumerStep(s, granted))
  {
    hide Walk, Read32;
    WalkShape(s.mem, s.head, s.tail);
  }

  lemma ConsumerKeeps(s: State, granted: bool)
    requires Inv(s)
    ensures Inv(ConsumerStep(s, granted))
  {
    hide Walk, Read32;
    match s.consumer
    case Idle =>
    case SawOwnHead(_) =>
    case NotEmpty =>
    case AtRecord(_) => ReadKeeps(s, granted);
    case AtWrap => WrapKeeps(s, granted);
    case Taking(_, length, taken) =>
      if |taken| < length { ReadKeeps(s, granted); } else { TakeKeeps(s); }
  }

  // ---- runs ---------------------------------------------------------------------------

  ghost predicate WellFormedActions(actions: seq<Action>) {
    forall a :: a in actions && a.BeginPush? ==> WellFormed(a.record)
  }

  /** The state after any schedule, from a quiescent queue in any valid position. */
  ghost function Run(start: Queue, actions: seq<Action>): (s: State)
    requires Valid(start) && WellFormedActions(actions)
    ensures Inv(s)
  {
    if actions == [] then
      State(start.mem, start.head, start.tail, Ready, Idle, Contents(start), [])
    else
      var before := Run(start, actions[..|actions| - 1]);
      var a := actions[|actions| - 1];
      StepKeeps(before, a);
      Step(before, a)
  }

  lemma StepKeeps(s: State, a: Action)
    requires Inv(s) && (a.BeginPush? ==> WellFormed(a.record))
    ensures Inv(Step(s, a))
  {
    hide Walk, Read32;
    match a
    case BeginPush(_) =>
    case Produce => ProducerKeeps(s);
    case BeginPull =>
    case Consume(granted) => ConsumerKeeps(s, granted);
  }

  /** In every schedule the producer stays off unread bytes, and records leave in publication order. */
  lemma EveryScheduleIsSafe(start: Queue, actions: seq<Action>)
    requires Valid(start) && WellFormedActions(actions)
    ensures var s := Run(start, actions);
      && (forall i: nat :: WritesAt(s, i) ==> i < |s.mem| && !Live(s.head, s.tail, i))
      && |ProducerStep(s).mem| == |s.mem|
      && (forall i: nat :: i < |s.mem| && Live(s.head, s.tail, i) ==> ProducerStep(s).mem[i] == s.mem[i])
      && s.pulled <= s.published
      && Contents(Shared(s)) == s.published[|s.pulled|..]
  {
    var s := Run(start, actions);
    forall i: nat | WritesAt(s, i)
      ensures i < |s.mem| && !Live(s.head, s.tail, i)
    {
      WritesAreDead(s, i);
    }
    forall i: nat | i < |s.mem|
      ensures |ProducerStep(s).mem| == |s.mem|
      ensures Live(s.head, s.tail, i) ==> ProducerStep(s).mem[i] == s.mem[i]
    {
      ProducerWritesThere(s, i);
    }
  }
  // ---- what a push and a pull achieve --------------------------------------------------

  /** How many steps the producer has before it at most. */
  function ProducerLeft(s: State): nat {
    match s.producer
    case Ready => 0
    case SawHead(r, _) => |r| + 3
    case AtMarker(r, _) => |r| + 2
    case Copying(r, _, _, done) => if done <= |r| then |r| - done + 1 else 1
  }

  /** The producer alone until its push is over. */
  ghost function DriveProducer(s: State): State
    requires Inv(s)
    decreases ProducerLeft(s)
  {
    if s.producer.Ready? then
      s
    else
      ProducerKeeps(s);
      DriveProducer(ProducerStep(s))
  }

  /** A state after a push, its consumer where it was. */
  function Pushed(s: State, mem: seq<byte>, tail: nat, r: Record): State {
    s.(mem := mem, tail := tail, published := s.published + [r], producer := Ready)
  }

  /** A producer that is copying puts all of its record at its place, and publishes it. */
  lemma {:induction false} CopiesAll(s: State)
    requires Inv(s) && s.producer.Copying?
    ensures var Copying(r, _, _, done) := s.producer;
      && done <= |r| && Target(s) + |r| <= |s.mem|
      && DriveProducer(s) == Pushed(s, Filled(s.mem, Target(s), r, done), Target(s) + |r|, r)
    decreases ProducerLeft(s)
  {
    hide Inv, ProducerStep, DriveProducer, Filled;
    CopyStep(s);
    DriveTurn(s);
    var r, done := s.producer.record, s.producer.done;
    if done < |r| {
      CopiesAll(ProducerStep(s));
      FilledMore(s.mem, Target(s), r, done);
    } else {
      DriveTurn(ProducerStep(s));
      FilledAll(s.mem, Target(s), r);
    }
  }

  /** Memory once the rest of a record is copied behind its first `done` bytes at `at`. */
  function Filled(mem: seq<byte>, at: nat, r: Record, done: nat): seq<byte>
    requires done <= |r| && at + |r| <= |mem|
  {
    Write(mem, at + done, r[done..])
  }

  lemma FilledMore(mem: seq<byte>, at: nat, r: Record, done: nat)
    requires done < |r| && at + |r| <= |mem|
    ensures Filled(mem[at + done := r[done]], at, r, done + 1) == Filled(mem, at, r, done)
  {}

  lemma FilledAll(mem: seq<byte>, at: nat, r: Record)
    requires at + |r| <= |mem|
    ensures Filled(mem, at, r, |r|) == mem && Filled(mem, at, r, 0) == Write(mem, at, r)
  {
    assert r[0..] == r;
  }

  lemma DriveTurn(s: State)
    requires Inv(s)
    ensures if s.producer.Ready? then
        DriveProducer(s) == s
      else
        Inv(ProducerStep(s)) && DriveProducer(s) == DriveProducer(ProducerStep(s))
  {
    ProducerKeeps(s);
    hide Inv, ProducerStep;
  }

  lemma CopyStep(s: State)
    requires Inv(s) && s.producer.Copying?
    ensures var Copying(r, seen, wraps, done) := s.producer;
      && done <= |r| && Target(s) + |r| <= |s.mem|
      && ProducerStep(s) == if done < |r| then
           s.(mem := s.mem[Target(s) + done := r[done]], producer := Copying(r, seen, wraps, done + 1))
         else
           Pushed(s, s.mem, Target(s) + |r|, r)
  {
    hide Ring.Valid, Contents, ConsumerInv, Caught, Read32, WellFormed;
  }

  /** A push or pull in progress is not disturbed by another one: it waits for the lock. */
  lemma OneAtATime(s: State, r: Record)
    requires Inv(s) && WellFormed(r)
    ensures !s.producer.Ready? ==> Step(s, BeginPush(r)) == s
    ensures !s.consumer.Idle? ==> Step(s, BeginPull) == s
  {}

  /**
   A push left alone does what a push does: it leaves memory and registers of `Ring.Push`,
   and publishes its record exactly when that finds room.
   */
  lemma ProducerAloneIsPush(s: State, r: Record)
    requires Inv(s) && s.producer.Ready? && WellFormed(r)
    ensures Inv(Step(s, BeginPush(r))) && s.tail + 4 < |s.mem| && s.head <= |s.mem|
    ensures var (q, pushed) := Push(Shared(s), r);
      DriveProducer(Step(s, BeginPush(r)))
      == s.(mem := q.mem, head := q.head, tail := q.tail,
            published := if pushed then s.published + [r] else s.published)
  {
    Bounds(Shared(s));
    StepKeeps(s, BeginPush(r));
    var begun := Step(s, BeginPush(r));
    assert begun == s.(producer := SawHead(r, s.head));
    PushDecided(begun);
    hide Inv, DriveProducer;
  }

  /**
   However a push was interleaved up to now, left alone it comes to its end: its record is
   published unless the head it saw leaves no room.
   */
  lemma PushDecided(s: State)
    requires Inv(s) && s.producer.SawHead?
    ensures var SawHead(r, seen) := s.producer;
      && s.tail + 4 < |s.mem|
      && match Place(seen, s.tail, |s.mem|, |r|)
         case NoSpace => DriveProducer(s) == s.(producer := Ready)
         case Append =>
           s.tail + |r| <= |s.mem| && DriveProducer(s) == Pushed(s, Write(s.mem, s.tail, r), s.tail + |r|, r)
         case Wrap =>
           var marked := Write(s.mem, s.tail, Word(MARKER));
           |r| <= |marked| && DriveProducer(s) == Pushed(s, Write(marked, 0, r), |r|, r)
  {
    hide Inv, ProducerStep, DriveProducer, Write, Place;
    DecideStep(s);
    DriveTurn(s);
    var SawHead(r, seen) := s.producer;
    var first := ProducerStep(s);
    match Place(seen, s.tail, |s.mem|, |r|)
    case NoSpace => DriveTurn(first);
    case Append =>
      CopiesAll(first);
      FilledAll(s.mem, s.tail, r);
    case Wrap =>
      MarkStep(first);
      DriveTurn(first);
      CopiesAll(ProducerStep(first));
      FilledAll(ProducerStep(first).mem, 0, r);
  }

  lemma DecideStep(s: State)
    requires Inv(s) && s.producer.SawHead?
    ensures s.tail + 4 < |s.mem|
    ensures var SawHead(r, seen) := s.producer;
      ProducerStep(s) == s.(producer := match Place(seen, s.tail, |s.mem|, |r|)
                                        case Append => Copying(r, seen, false, 0)
                                        case Wrap => AtMarker(r, seen)
                                        case NoSpace => Ready)
  {
    hide Contents, ConsumerInv, ProducerInv, Place, Walk;
  }

  lemma MarkStep(s: State)
    requires Inv(s) && s.producer.AtMarker?
    ensures s.tail + 4 < |s.mem|
    ensures ProducerStep(s) == s.(mem := Write(s.mem, s.tail, Word(MARKER)),
                                  producer := Copying(s.producer.record, s.producer.seen, true, 0))
  {
    hide Contents, ConsumerInv, ProducerInv, Walk;
  }
  function ConsumerPhase(c: Consumer): nat {
    match c
    case Idle => 0
    case Taking(_, _, _) => 1
    case AtWrap => 2
    case AtRecord(_) => 3
    case NotEmpty => 4
    case SawOwnHead(_) => 5
  }

  function TakingLeft(c: Consumer): nat {
    if c.Taking? && |c.taken| <= c.length then c.length - |c.taken| else 0
  }

  lemma ConsumerProgress(s: State, granted: bool)
    requires Inv(s) && !s.consumer.Idle?
    ensures var after := ConsumerStep(s, granted);
      || (s.head > s.tail && after.head <= after.tail)
      || ((s.head > s.tail <==> after.head > after.tail)
          && (ConsumerPhase(after.consumer) < ConsumerPhase(s.consumer)
              || (after.consumer.Taking? && s.consumer.Taking?
                  && TakingLeft(after.consumer) < TakingLeft(s.consumer))))
      || (after.consumer.Idle? && after.head <= after.tail)
  {
    hide Walk, Read32, ProducerInv, Contents;
    if s.consumer.AtWrap? || s.consumer.Taking? {
      WalkShape(s.mem, s.head, s.tail);
    }
  }

  /** The consumer alone until its pull is over. */
  ghost function DriveConsumer(s: State, granted: bool): State
    requires Inv(s)
    decreases if s.head > s.tail && !s.consumer.Idle? then 1 else 0, ConsumerPhase(s.consumer), TakingLeft(s.consumer)
  {
    if s.consumer.Idle? then
      s
    else
      ConsumerKeeps(s, granted);
      ConsumerProgress(s, granted);
      DriveConsumer(ConsumerStep(s, granted), granted)
  }

  lemma ConsumeTurn(s: State, granted: bool)
    requires Inv(s)
    ensures if s.consumer.Idle? then
        DriveConsumer(s, granted) == s
      else
        && Inv(ConsumerStep(s, granted))
        && DriveConsumer(s, granted) == DriveConsumer(ConsumerStep(s, granted), granted)
  {
    ConsumerKeeps(s, granted);
    hide Inv, ConsumerStep;
  }

  /** A consumer in the middle of a record takes all of it. */
  lemma {:induction false} TakesAll(s: State, granted: bool)
    requires Inv(s) && s.consumer.Taking?
    ensures var Taking(start, length, _) := s.consumer;
      && start + length <= |s.mem|
      && DriveConsumer(s, granted)
         == s.(head := start + length, pulled := s.pulled + [s.mem[start..start + length]], consumer := Idle)
    decreases TakingLeft(s.consumer)
  {
    hide Inv, ConsumerStep, DriveConsumer;
    TakeStep(s, granted);
    ConsumeTurn(s, granted);
    var next := ConsumerStep(s, granted);
    if next.consumer.Taking? {
      TakesAll(next, granted);
    } else {
      ConsumeTurn(next, granted);
    }
  }

  lemma TakeStep(s: State, granted: bool)
    requires Inv(s) && s.consumer.Taking?
    ensures var Taking(start, length, taken) := s.consumer;
      && start + length <= |s.mem|
      && ConsumerStep(s, granted) == if |taken| < length then
           s.(consumer := Taking(start, length, taken + [s.mem[start + |taken|]]))
         else
           s.(head := start + length, pulled := s.pulled + [s.mem[start..start + length]], consumer := Idle)
  {
    hide Walk, Read32, ProducerInv, Ring.Valid, Contents;
  }

  /** The steps of a pull up to the record or the marker at head. */
  lemma LookStep(s: State, granted: bool)
    requires Inv(s) && s.consumer == SawOwnHead(s.head)
    ensures var first := ConsumerStep(s, granted);
      if s.head == s.tail then
        first == s.(consumer := Idle)
      else
        && Inv(first) && first == s.(consumer := NotEmpty)
        && var second := ConsumerStep(first, granted);
        && Inv(second) && second == s.(consumer := AtRecord(s.head))
        && s.head + 4 <= |s.mem|
        && var third, length := ConsumerStep(second, granted), Read32(s.mem, s.head);
        && third == s.(consumer := if length == MARKER then AtWrap
                                   else if granted then Taking(s.head, length, []) else Idle)
  {
    ConsumerKeeps(s, granted);
    if s.head != s.tail {
      ConsumerKeeps(ConsumerStep(s, granted), granted);
      Unconsumed(s);
    }
    hide Walk, Read32, ProducerInv, ConsumerInv, Ring.Valid, Contents;
  }

  lemma WrapStep(s: State, granted: bool)
    requires Inv(s) && s.consumer.AtWrap?
    ensures ConsumerStep(s, granted) == s.(head := 0, consumer := SawOwnHead(0))
    ensures s.head > s.tail && s.head + 4 <= |s.mem| && Read32(s.mem, s.head) == MARKER
  {
    hide Walk, Read32, ProducerInv, Contents;
    WalkShape(s.mem, s.head, s.tail);
  }

  /** What a pull leaves, told from the state that its first look at head gives. */
  lemma {:induction false} LooksAndTakes(s: State, granted: bool)
    requires Inv(s) && s.consumer == SawOwnHead(s.head)
    ensures Ring.Valid(Shared(s))
    ensures var (q, element) := Pull(Shared(s), granted);
      DriveConsumer(s, granted)
      == s.(head := q.head, pulled := if element.Some? then s.pulled + [element.value] else s.pulled, consumer := Idle)
    decreases if s.head > s.tail then 1 else 0
  {
    hide Inv, ConsumerStep, DriveConsumer, Pull, Ring.Valid, Read32;
    SharedValid(s);
    LookStep(s, granted);
    ConsumeTurn(s, granted);
    var first := ConsumerStep(s, granted);
    ConsumeTurn(first, granted);
    PullIs(Shared(s), granted);
    if s.head != s.tail {
      var second := ConsumerStep(first, granted);
      ConsumeTurn(second, granted);
      var third := ConsumerStep(second, granted);
      ConsumeTurn(third, granted);
      if third.consumer.Taking? {
        TakesAll(third, granted);
      } else if third.consumer.AtWrap? {
        WrapStep(third, granted);
        LooksAndTakes(ConsumerStep(third, granted), granted);
      }
    }
  }

  lemma SharedValid(s: State)
    requires Inv(s)
    ensures Ring.Valid(Shared(s))
  {}

  /** One look of a pull. */
  lemma PullIs(q: Queue, granted: bool)
    requires Ring.Valid(q)
    ensures if q.head == q.tail then
        Pull(q, granted) == (q, None)
      else
        && q.head + 4 <= |q.mem|
        && var length := Read32(q.mem, q.head);
        if length == MARKER then
          Ring.Valid(q.(head := 0)) && Pull(q, granted) == Pull(q.(head := 0), granted)
        else
          && q.head + length <= |q.mem|
          && Pull(q, granted)
             == if granted then (q.(head := q.head + length), Some(q.mem[q.head..q.head + length])) else (q, None)
  {
    hide Walk, Read32;
    if q.head != q.tail {
      WalkShape(q.mem, q.head, q.tail);
    }
  }

  /** A pull left alone does what `Ring.Pull` does, and delivers what that returns. */
  lemma ConsumerAloneIsPull(s: State, granted: bool)
    requires Inv(s) && s.consumer.Idle?
    ensures Inv(Step(s, BeginPull)) && Ring.Valid(Shared(s))
    ensures var (q, element) := Pull(Shared(s), granted);
      DriveConsumer(Step(s, BeginPull), granted)
      == s.(head := q.head, pulled := if element.Some? then s.pulled + [element.value] else s.pulled)
  {
    hide Inv, ConsumerStep, DriveConsumer, Pull, Ring.Valid;
    StepKeeps(s, BeginPull);
    SharedValid(s);
    LooksAndTakes(Step(s, BeginPull), granted);
  }
}
