/** One read call with no one else at work: how queued packets are reassembled into a byte stream. */
module Reassembly {
  import opened Buffers
  import opened Bytes
  import opened Options
  import opened Sequences
  import R = Receive

  /** The bytes a call returns, the buffers it empties, and those still waiting, the one in hand first. */
  datatype Result = Result(returned: seq<byte>, freed: seq<Buffer>, waiting: seq<Buffer>)

  /** What one copy takes from the front of a buffer. */
  function Taken(b: Buffer, remaining: nat): (bytes: seq<byte>)
    requires WellFormed(b)
    ensures |bytes| == Min(remaining, b.length)
  {
    b.memory[b.data..b.data + Min(remaining, b.length)]
  }

  /** The call; the first `copies` copies to user memory succeed and the next one fails. */
  function ReadCall(waiting: seq<Buffer>, remaining: nat, copies: nat): Result
    requires AllWellFormed(waiting)
  {
    if remaining == 0 || waiting == [] || copies == 0 then
      Result([], [], waiting)
    else
      var b := waiting[0];
      var bytes, rest := Taken(b, remaining), R.Rest(b, remaining);
      if rest.length > 0 then
        Result(bytes, [], [rest] + waiting[1..])
      else
        var more := ReadCall(waiting[1..], remaining - |bytes|, copies - 1);
        Result(bytes + more.returned, [rest] + more.freed, more.waiting)
  }

  /** The buffers a call can copy from before one of its copies fails. */
  function Reachable(waiting: seq<Buffer>, copies: nat): seq<Buffer> {
    waiting[..Min(copies, |waiting|)]
  }

  lemma RestOfBuffer(b: Buffer, remaining: nat)
    requires WellFormed(b)
    ensures var rest := R.Rest(b, remaining);
      && rest.id == b.id && WellFormed(rest) && Payload(b) == Taken(b, remaining) + Payload(rest)
      && (rest.length == 0 ==> Payload(rest) == []) && (rest.length > 0 ==> |Taken(b, remaining)| == remaining)
  {}

  /** What a copy takes from the front of the first buffer is missing from the stream afterwards. */
  lemma RestOfStream(waiting: seq<Buffer>, remaining: nat)
    requires AllWellFormed(waiting) && waiting != []
    ensures var b, rest := waiting[0], R.Rest(waiting[0], remaining);
      && WellFormed(b) && AllWellFormed(waiting[1..]) && AllWellFormed([rest] + waiting[1..])
      && Stream(waiting) == Payload(b) + Stream(waiting[1..])
      && Stream(waiting) == Taken(b, remaining) + Stream([rest] + waiting[1..])
      && (rest.length == 0 ==> Stream(waiting) == Taken(b, remaining) + Stream(waiting[1..]))
  {
    var b, rest, read := waiting[0], R.Rest(waiting[0], remaining), waiting[1..];
    assert waiting == [b] + read;
    RestOfBuffer(b, remaining);
    R.FirstConsumed(b, rest, read);
    hide *;
    Regroup(Taken(b, remaining), Payload(rest), Stream(read));
    assert Taken(b, remaining) + [] == Taken(b, remaining);
  }

  lemma SameIds(waiting: seq<Buffer>, rest: Buffer)
    requires waiting != [] && rest.id == waiting[0].id
    ensures Ids([]) + Ids([rest] + waiting[1..]) == Ids(waiting)
  {}

  lemma MoreIds(waiting: seq<Buffer>, rest: Buffer, more: Result)
    requires waiting != [] && rest.id == waiting[0].id
    requires Ids(more.freed) + Ids(more.waiting) == Ids(waiting[1..])
    ensures Ids([rest] + more.freed) + Ids(more.waiting) == Ids(waiting)
  {
    hide Ids;
    assert Ids([rest] + more.freed) == [rest.id] + Ids(more.freed);
    assert Ids(waiting) == [rest.id] + Ids(waiting[1..]);
    assert [rest.id] + Ids(more.freed) + Ids(more.waiting) == [rest.id] + (Ids(more.freed) + Ids(more.waiting));
  }

  /**
   Whatever packets wait: the bytes returned are the start of their stream, the rest of it
   still waits, and each buffer is either freed, empty, or waits as before.
   */
  lemma {:induction false} LosesNothing(waiting: seq<Buffer>, remaining: nat, copies: nat)
    requires AllWellFormed(waiting)
    ensures var r := ReadCall(waiting, remaining, copies);
      && AllWellFormed(r.waiting) && r.returned + Stream(r.waiting) == Stream(waiting)
      && Ids(r.freed) + Ids(r.waiting) == Ids(waiting)
      && forall i :: 0 <= i < |r.freed| ==> r.freed[i].length == 0
    decreases |waiting|
  {
    hide Stream, AllWellFormed, R.Rest, Taken, Ids;
    if remaining == 0 || waiting == [] || copies == 0 {
      assert [] + Stream(waiting) == Stream(waiting);
      assert Ids([]) + Ids(waiting) == Ids(waiting);
    } else {
      RestOfStream(waiting, remaining);
      RestOfBuffer(waiting[0], remaining);
      var bytes, rest := Taken(waiting[0], remaining), R.Rest(waiting[0], remaining);
      if rest.length > 0 {
        SameIds(waiting, rest);
      } else {
        LosesNothing(waiting[1..], remaining - |bytes|, copies - 1);
        var more := ReadCall(waiting[1..], remaining - |bytes|, copies - 1);
        MoreIds(waiting, rest, more);
        Regroup(bytes, more.returned, Stream(more.waiting));
      }
    }
  }

  /** How much a call returns: as much as asked for of what it can reach, and all of that if it is less. */
  lemma {:induction false} ReturnsWhatItReaches(waiting: seq<Buffer>, remaining: nat, copies: nat)
    requires AllWellFormed(waiting)
    ensures var reach := Stream(Reachable(waiting, copies));
      ReadCall(waiting, remaining, copies).returned == reach[..Min(remaining, |reach|)]
    decreases |waiting|
  {
    if remaining > 0 && waiting != [] && copies > 0 {
      var b, rest := waiting[0], R.Rest(waiting[0], remaining);
      var bytes, c' := Taken(b, remaining), Reachable(waiting[1..], copies - 1);
      ReachableFirst(waiting, copies);
      RestOfBuffer(b, remaining);
      hide Stream, AllWellFormed, R.Rest, Taken, Reachable, Payload, Min;
      if rest.length == 0 {
        ReturnsWhatItReaches(waiting[1..], remaining - |bytes|, copies - 1);
        assert bytes + [] == bytes;
        Onwards(bytes, Stream(c'), remaining);
      } else {
        Enough(bytes, Payload(rest), Stream(c'));
      }
    }
  }

  lemma ReachableFirst(waiting: seq<Buffer>, copies: nat)
    requires AllWellFormed(waiting) && waiting != [] && copies > 0
    ensures var c, c' := Reachable(waiting, copies), Reachable(waiting[1..], copies - 1);
      && AllWellFormed(waiting[1..]) && AllWellFormed(c') && AllWellFormed(c)
      && Stream(c) == Payload(waiting[0]) + Stream(c')
  {
    var c, c' := Reachable(waiting, copies), Reachable(waiting[1..], copies - 1);
    assert c[0] == waiting[0] && c[1..] == c';
  }

  lemma Enough(a: seq<byte>, b: seq<byte>, c: seq<byte>)
    ensures a == (a + b + c)[..Min(|a|, |a + b + c|)]
  {}

  lemma Onwards(a: seq<byte>, b: seq<byte>, remaining: nat)
    requires |a| <= remaining
    ensures a + b[..Min(remaining - |a|, |b|)] == (a + b)[..Min(remaining, |a + b|)]
  {}

  // ---- the state machine's reader, undisturbed -----------------------------------------------------

  function Phase(r: R.Reader): nat {
    match r
    case NoRead => 0
    case Holding(_, _) => 1
    case Fetching(_) => 2
  }

  function Left(r: R.Reader): nat {
    if r.NoRead? then 0 else r.remaining
  }

  /** The reader alone until its call is over. */
  ghost function Drive(s: R.State, copies: nat): R.State
    requires R.Inv(s)
    decreases |R.Waiting(s)|, Left(s.reader), Phase(s.reader)
  {
    if s.reader.NoRead? then
      s
    else
      ReadKeeps(s, copies > 0);
      Smaller(s, copies > 0);
      var used := if s.reader.Holding? && s.reader.remaining > 0 && s.reader.hand.Some? && copies > 0 then 1 else 0;
      Drive(R.ReadStep(s, copies > 0), copies - used)
  }

  lemma ReadKeeps(s: R.State, copies: bool)
    requires R.Inv(s)
    ensures R.Inv(R.ReadStep(s, copies))
  {
    hide R.Inv, R.Everywhere, R.ReadStep;
    R.StepKeeps(s, R.Read(copies));
  }

  lemma Smaller(s: R.State, copies: bool)
    requires R.Inv(s) && !s.reader.NoRead?
    ensures var after := R.ReadStep(s, copies);
      || |R.Waiting(after)| < |R.Waiting(s)|
      || (|R.Waiting(after)| == |R.Waiting(s)| && Left(after.reader) < Left(s.reader))
      || (|R.Waiting(after)| == |R.Waiting(s)| && Left(after.reader) == Left(s.reader)
        && Phase(after.reader) < Phase(s.reader))
  {
    if R.OnlyMoves(s, copies) {
      R.MoveWaiting(s, copies);
    } else {
      R.CopyWaiting(s);
    }
    hide R.Inv, R.BuffersInv, R.Waiting;
  }

  /** What the call has done when it is over: the first buffer still waiting is the partial one. */
  ghost predicate CallOver(s: R.State, r: Result, after: R.State) {
    && after.returned == s.returned + r.returned && after.pool == s.pool + r.freed && after.reader.NoRead?
    && after == s.(pool := after.pool, read := after.read, partial := after.partial,
                   reader := after.reader, returned := after.returned)
    && R.Listed(after.partial) + after.read == r.waiting
    && (after.partial.None? ==> after.read == [])
  }

  /** The reader's steps for one copy, up to the next buffer in hand. */
  function AfterCopy(s: R.State): R.State
    requires R.Inv(s) && s.reader.Holding? && s.reader.remaining > 0 && s.reader.hand.Some?
    requires R.Inv(R.ReadStep(s, true))
  {
    var first := R.ReadStep(s, true);
    if first.reader.Holding? then first else R.ReadStep(first, true)
  }

  /** One copy: what is returned and freed, and what waits then. */
  lemma CopyEffect(s: R.State)
    requires R.Inv(s) && s.reader.Holding? && s.reader.remaining > 0 && s.reader.hand.Some?
    ensures R.Inv(R.ReadStep(s, true)) && R.Inv(AfterCopy(s)) && AllWellFormed(R.Waiting(s))
    ensures var b, after := s.reader.hand.value, AfterCopy(s);
      var bytes, rest := Taken(b, s.reader.remaining), R.Rest(b, s.reader.remaining);
      && WellFormed(b) && R.Waiting(s) == [b] + s.read
      && after == s.(pool := after.pool, read := after.read, reader := after.reader, returned := s.returned + bytes)
      && after.reader.Holding? && after.reader.remaining == s.reader.remaining - |bytes|
      && (after.reader.hand.None? ==> after.read == [])
      && if rest.length > 0 then
           after.pool == s.pool && R.Waiting(after) == [rest] + s.read
         else
           after.pool == s.pool + [rest] && R.Waiting(after) == s.read
  {
    CopyReader(s);
    ReadKeeps(s, true);
    R.CopyWaiting(s);
    hide R.Inv, R.BuffersInv, R.Waiting, R.ReadStep, R.Rest, Taken;
    var first := R.ReadStep(s, true);
    if first.reader.Fetching? {
      FetchEffect(first);
    }
  }

  lemma CopyReader(s: R.State)
    requires R.BuffersInv(s) && s.reader.Holding? && s.reader.remaining > 0 && s.reader.hand.Some?
    ensures AllWellFormed(R.Waiting(s)) && WellFormed(s.reader.hand.value)
    ensures var b, after := s.reader.hand.value, R.ReadStep(s, true);
      var bytes, rest := Taken(b, s.reader.remaining), R.Rest(b, s.reader.remaining);
      && after.returned == s.returned + bytes && after.read == s.read
      && after.reader == if rest.length > 0 then
           R.Holding(s.reader.remaining - |bytes|, Some(rest))
         else
           R.Fetching(s.reader.remaining - |bytes|)
  {
    assert R.Waiting(s)[0] == s.reader.hand.value;
    hide R.BuffersInv;
  }

  lemma FetchEffect(s: R.State)
    requires R.Inv(s) && s.reader.Fetching?
    ensures R.Inv(R.ReadStep(s, true))
    ensures var after := R.ReadStep(s, true);
      && after == s.(read := after.read, reader := after.reader)
      && after.reader.Holding? && after.reader.remaining == s.reader.remaining
      && (after.reader.hand.None? ==> after.read == [])
      && R.Waiting(after) == R.Waiting(s)
  {
    ReadKeeps(s, true);
    R.MoveWaiting(s, true);
    hide R.Inv, R.BuffersInv, R.Waiting;
  }

  lemma DriveCopy(s: R.State, copies: nat)
    requires R.Inv(s) && s.reader.Holding? && s.reader.remaining > 0 && s.reader.hand.Some? && copies > 0
    requires R.Inv(R.ReadStep(s, true)) && R.Inv(AfterCopy(s))
    ensures Drive(s, copies) == Drive(AfterCopy(s), copies - 1)
  {
    var first := R.ReadStep(s, true);
    assert Drive(s, copies) == Drive(first, copies - 1);
    hide R.Inv, R.Waiting;
  }

  /** From a buffer in hand, or none left, the reader left alone does what the call does. */
  lemma {:induction false} DriveFromHand(s: R.State, copies: nat)
    requires R.Inv(s) && s.reader.Holding? && (s.reader.hand.None? ==> s.read == [])
    ensures AllWellFormed(R.Waiting(s))
    ensures CallOver(s, ReadCall(R.Waiting(s), s.reader.remaining, copies), Drive(s, copies))
    decreases |R.Waiting(s)|, s.reader.remaining
  {
    hide R.Inv, R.Waiting, R.Rest, Taken, AfterCopy, Drive, CallOver, AllWellFormed, R.ReadStep;
    if R.OnlyMoves(s, copies > 0) {
      MoveIsLast(s, copies);
    } else {
      CopyEffect(s);
      DriveCopy(s, copies);
      var next := AfterCopy(s);
      var b, remaining := s.reader.hand.value, s.reader.remaining;
      var bytes, rest := Taken(b, remaining), R.Rest(b, remaining);
      RestOfBuffer(b, remaining);
      DriveFromHand(next, copies - 1);
      assert R.Waiting(s)[0] == s.reader.hand.value && R.Waiting(s)[1..] == s.read;
      if rest.length > 0 {
        CallMore(s, next, bytes, [], Result([], [], R.Waiting(next)), Drive(s, copies));
        assert ReadCall(R.Waiting(s), remaining, copies) == Result(bytes, [], [rest] + s.read);
        assert bytes + [] == bytes;
      } else {
        CallMore(s, next, bytes, [rest], ReadCall(s.read, next.reader.remaining, copies - 1), Drive(s, copies));
      }
    }
  }

  lemma CallMore(s: R.State, next: R.State, bytes: seq<byte>, freed: seq<Buffer>, more: Result, after: R.State)
    requires next == s.(pool := s.pool + freed, read := next.read, reader := next.reader,
                        returned := s.returned + bytes)
    requires CallOver(next, more, after)
    ensures CallOver(s, Result(bytes + more.returned, freed + more.freed, more.waiting), after)
  {
    Regroup(s.returned, bytes, more.returned);
    assert s.pool + freed + more.freed == s.pool + (freed + more.freed);
  }

  lemma MoveIsLast(s: R.State, copies: nat)
    requires R.Inv(s) && s.reader.Holding? && (s.reader.hand.None? ==> s.read == [])
    requires R.OnlyMoves(s, copies > 0)
    ensures AllWellFormed(R.Waiting(s))
    ensures CallOver(s, ReadCall(R.Waiting(s), s.reader.remaining, copies), Drive(s, copies))
  {
    ReadKeeps(s, copies > 0);
    var first := R.ReadStep(s, copies > 0);
    assert Drive(s, copies) == Drive(first, copies) == first;
  }
  /** From its begin on, with a partial buffer or without, the reader left alone does what the call does. */
  lemma DriveIsCall(s: R.State, length: nat, copies: nat)
    requires R.Inv(s) && s.reader.NoRead?
    ensures R.Inv(R.BeginReadStep(s, length)) && AllWellFormed(R.Waiting(s))
    ensures CallOver(s, ReadCall(R.Waiting(s), length, copies), Drive(R.BeginReadStep(s, length), copies))
  {
    R.BeginReadKeeps(s, length);
    R.BeginReadWaiting(s, length);
    hide R.Inv, R.Waiting, ReadCall, AllWellFormed, R.ReadStep, R.BuffersInv;
    var begun := R.BeginReadStep(s, length);
    if s.partial.Some? {
      hide Drive;
      DriveFromHand(begun, copies);
    } else {
      FetchEffect(begun);
      DriveFetch(begun, copies);
      hide Drive;
      DriveFromHand(R.ReadStep(begun, true), copies);
    }
  }

  lemma DriveFetch(s: R.State, copies: nat)
    requires R.Inv(s) && s.reader.Fetching? && R.Inv(R.ReadStep(s, true))
    ensures Drive(s, copies) == Drive(R.ReadStep(s, true), copies)
  {
    assert R.ReadStep(s, copies > 0) == R.ReadStep(s, true);
    hide R.Inv, R.Waiting;
  }
}
