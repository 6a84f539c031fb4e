/** One write call with no one else at work: how user data is cut into pooled buffers. */
module Fragments {
  import opened Buffers
  import opened Bytes
  import opened Sequences
  import T = Transmit

  /** The buffers a call queues, what it leaves in the pool, and how many bytes it accepts. */
  datatype Result = Result(chain: seq<Buffer>, pool: seq<Buffer>, done: nat)

  /** The call; the first `copies` copies from user memory succeed and the next one fails. */
  function WriteCall(interface: int, pool: seq<Buffer>, data: seq<byte>, copies: nat): Result {
    if pool == [] then
      Result([], [], 0)
    else
      var b := Reset(pool[0]);
      if data == [] || copies == 0 then
        Result([b], pool[1..], 0)
      else
        var n := Min(|data|, b.length);
        var filled := Fill(b, data[..n], interface);
        if n == |data| then
          Result([filled], pool[1..], n)
        else
          var rest := WriteCall(interface, pool[1..], data[n..], copies - 1);
          Result([filled] + rest.chain, rest.pool, n + rest.done)
  }

  /** All buffers have memory for one fragment. */
  ghost predicate Uniform(pool: seq<Buffer>, fragment: nat) {
    0 < fragment && forall i :: 0 <= i < |pool| ==> |pool[i].memory| == fragment
  }

  lemma {:induction false} CallShape(interface: int, pool: seq<Buffer>, data: seq<byte>, copies: nat)
    ensures var r := WriteCall(interface, pool, data, copies);
      && AllWellFormed(r.chain) && r.done <= |data|
      && |r.chain| <= |pool| && r.pool == pool[|r.chain|..]
      && Ids(r.chain) == Ids(pool[..|r.chain|])
    decreases |pool|
  {
    if pool != [] && data != [] && copies > 0 && |pool[0].memory| < |data| {
      var n := |pool[0].memory|;
      CallShape(interface, pool[1..], data[n..], copies - 1);
      var r, rest := WriteCall(interface, pool, data, copies), WriteCall(interface, pool[1..], data[n..], copies - 1);
      hide WriteCall, Ids, Fill, Reset;
      ShapeMore(pool, r.chain[0], r.chain, rest.chain);
    }
  }

  lemma ShapeMore(pool: seq<Buffer>, first: Buffer, chain: seq<Buffer>, rest: seq<Buffer>)
    requires pool != [] && first.id == pool[0].id && chain == [first] + rest && |rest| < |pool|
    requires Ids(rest) == Ids(pool[1..][..|rest|])
    ensures pool[1..][|rest|..] == pool[|chain|..] && Ids(chain) == Ids(pool[..|chain|])
  {
    assert pool[..|chain|] == [pool[0]] + pool[1..][..|rest|];
    assert Ids(chain) == [first.id] + Ids(rest);
  }

  /** No copy is needed after the ones that succeed. */
  predicate CopiesSuffice(pool: seq<Buffer>, data: seq<byte>, copies: nat, fragment: nat) {
    Min(|data|, |pool| * fragment) <= copies * fragment
  }

  /** Nothing will go wrong: no buffer to fill, or data to fill it with and no failing copy. */
  predicate Clean(pool: seq<Buffer>, data: seq<byte>, copies: nat, fragment: nat) {
    pool == [] || (data != [] && CopiesSuffice(pool, data, copies, fragment))
  }

  /** What the call queues is what it reports as accepted. */
  ghost predicate Faithful(interface: int, pool: seq<Buffer>, data: seq<byte>, copies: nat) {
    var r := WriteCall(interface, pool, data, copies);
    AllWellFormed(r.chain) && r.done <= |data| && Stream(r.chain) == data[..r.done]
  }

  lemma CopiesSufficeStep(pool: seq<Buffer>, data: seq<byte>, copies: nat, fragment: nat)
    requires pool != [] && 0 < fragment < |data| && 0 < copies
    ensures CopiesSuffice(pool, data, copies, fragment)
        <==> CopiesSuffice(pool[1..], data[fragment..], copies - 1, fragment)
    ensures Min(|data|, |pool| * fragment) == fragment + Min(|data[fragment..]|, |pool[1..]| * fragment)
  {
    assert |pool| * fragment == fragment + (|pool| - 1) * fragment;
    assert copies * fragment == fragment + (copies - 1) * fragment;
  }

  /** How much is accepted when no copy fails: all the data, or all the pool can hold. */
  lemma {:induction false} AcceptsWhatFits(interface: int, pool: seq<Buffer>, data: seq<byte>, copies: nat,
                                           fragment: nat)
    requires Uniform(pool, fragment) && data != [] && CopiesSuffice(pool, data, copies, fragment)
    ensures var r := WriteCall(interface, pool, data, copies);
      && r.done == Min(|data|, |pool| * fragment)
      && (forall i :: 0 <= i < |r.chain| ==> r.chain[i].interface == interface)
      && (forall i :: 0 <= i < |r.chain| - 1 ==> r.chain[i].length == fragment)
    decreases |pool|
  {
    if pool != [] {
      assert copies > 0 by {
        assert |pool| * fragment >= fragment;
      }
      if fragment < |data| {
        CopiesSufficeStep(pool, data, copies, fragment);
        AcceptsWhatFits(interface, pool[1..], data[fragment..], copies - 1, fragment);
      } else {
        assert |pool| * fragment >= fragment;
      }
    }
  }

  /** A pool is reported to have a buffer exactly when a write whose first copy succeeds accepts some bytes. */
  lemma AvailableExactlyWhenAccepting(interface: int, pool: seq<Buffer>, data: seq<byte>, copies: nat, fragment: nat)
    requires Uniform(pool, fragment) && data != [] && 0 < copies
    ensures pool != [] <==> 0 < WriteCall(interface, pool, data, copies).done
  {
    if pool != [] {
      assert |pool[0].memory| == fragment;
    }
  }

  lemma OneFragment(interface: int, pool: seq<Buffer>, data: seq<byte>, copies: nat, fragment: nat)
    requires Uniform(pool, fragment) && pool != [] && fragment < |data| && 0 < copies
    ensures Uniform(pool[1..], fragment)
    ensures Faithful(interface, pool, data, copies)
        <==> Faithful(interface, pool[1..], data[fragment..], copies - 1)
  {
    var r := WriteCall(interface, pool, data, copies);
    var rest := WriteCall(interface, pool[1..], data[fragment..], copies - 1);
    FirstOfCall(interface, pool, data, copies, fragment);
    hide WriteCall;
    CallShape(interface, pool, data, copies);
    CallShape(interface, pool[1..], data[fragment..], copies - 1);
    FirstOfStream(r.chain, rest.chain, data[..fragment]);
    hide Stream, AllWellFormed;
    PrefixFrom(data, fragment, Stream(rest.chain), rest.done);
  }

  lemma FirstOfCall(interface: int, pool: seq<Buffer>, data: seq<byte>, copies: nat, fragment: nat)
    requires Uniform(pool, fragment) && pool != [] && fragment < |data| && 0 < copies
    ensures var r := WriteCall(interface, pool, data, copies);
      var rest := WriteCall(interface, pool[1..], data[fragment..], copies - 1);
      && r.chain != [] && r.chain[1..] == rest.chain && r.done == fragment + rest.done
      && WellFormed(r.chain[0]) && Payload(r.chain[0]) == data[..fragment]
  {}

  lemma FirstOfStream(c: seq<Buffer>, rest: seq<Buffer>, first: seq<byte>)
    requires c != [] && c[1..] == rest && AllWellFormed(c) && AllWellFormed(rest) && Payload(c[0]) == first
    ensures Stream(c) == first + Stream(rest)
  {}

  lemma PrefixFrom(data: seq<byte>, fragment: nat, rest: seq<byte>, done: nat)
    requires fragment <= |data|
    ensures fragment + done <= |data| ==>
      (data[..fragment] + rest == data[..fragment + done] <==> rest == data[fragment..][..done])
  {
    if fragment + done <= |data| {
      assert data[..fragment + done] == data[..fragment] + data[fragment..][..done];
      if data[..fragment] + rest == data[..fragment + done] {
        assert rest == (data[..fragment] + rest)[fragment..];
      }
    }
  }

  lemma CleanStep(pool: seq<Buffer>, data: seq<byte>, copies: nat, fragment: nat)
    requires pool != [] && 0 < fragment < |data| && 0 < copies
    ensures Clean(pool, data, copies, fragment) <==> Clean(pool[1..], data[fragment..], copies - 1, fragment)
  {
    CopiesSufficeStep(pool, data, copies, fragment);
    assert copies * fragment >= fragment;
  }

  lemma StuckFragment(interface: int, pool: seq<Buffer>, data: seq<byte>, copies: nat, fragment: nat)
    requires Uniform(pool, fragment) && pool != [] && (data == [] || copies == 0)
    ensures !Clean(pool, data, copies, fragment) && !Faithful(interface, pool, data, copies)
  {
    StreamOne(Reset(pool[0]));
    assert |pool| * fragment >= fragment;
  }

  lemma LastFragment(interface: int, pool: seq<Buffer>, data: seq<byte>, copies: nat, fragment: nat)
    requires Uniform(pool, fragment) && pool != [] && 0 < |data| <= fragment && 0 < copies
    ensures Clean(pool, data, copies, fragment) && Faithful(interface, pool, data, copies)
  {
    assert data[..|data|] == data;
    StreamOne(Fill(Reset(pool[0]), data[..|data|], interface));
    assert copies * fragment >= fragment;
  }

  /**
   A call queues exactly what it reports as accepted when the pool is empty, or there is
   data and no copy fails, and only then: otherwise a whole unfilled buffer is queued.
   */
  lemma {:induction false} QueuesWhatItAccepts(interface: int, pool: seq<Buffer>, data: seq<byte>, copies: nat,
                                               fragment: nat)
    requires Uniform(pool, fragment)
    ensures Faithful(interface, pool, data, copies) <==> Clean(pool, data, copies, fragment)
    decreases |pool|
  {
    if pool != [] {
      hide Faithful, Clean;
      if data == [] || copies == 0 {
        StuckFragment(interface, pool, data, copies, fragment);
      } else if |data| <= fragment {
        LastFragment(interface, pool, data, copies, fragment);
      } else {
        CleanStep(pool, data, copies, fragment);
        OneFragment(interface, pool, data, copies, fragment);
        QueuesWhatItAccepts(interface, pool[1..], data[fragment..], copies - 1, fragment);
      }
    }
  }

  // ---- the state machine's writer, undisturbed --------------------------------------------------

  function Phase(w: T.Writer): nat {
    match w
    case NoWrite => 0
    case Putting(_, _, _) => 1
    case Allocating(_, _, _) => 2
    case Copying(_, _, _) => 3
  }

  /** The writer alone until its call is over; the first `copies` copies succeed and the next one fails. */
  ghost function Drive(s: T.State, copies: nat): T.State
    requires T.Inv(s)
    decreases |s.pool|, Phase(s.writer)
  {
    if s.writer.NoWrite? then
      s
    else
      T.WriteKeeps(s, copies > 0);
      Smaller(s, copies > 0);
      var used := if s.writer.Copying? && s.writer.done < |s.writer.data| && copies > 0 then 1 else 0;
      Drive(T.WriteStep(s, copies > 0), copies - used)
  }

  lemma Smaller(s: T.State, copies: bool)
    requires T.Inv(s) && !s.writer.NoWrite?
    ensures var after := T.WriteStep(s, copies);
      |after.pool| < |s.pool| || (after.pool == s.pool && Phase(after.writer) < Phase(s.writer))
  {
    hide T.StreamInv, T.SlotsHeld, T.RingOrder;
  }

  /** What the call has done when it is over. */
  ghost predicate CallOver(s: T.State, chain: seq<Buffer>, r: Result, after: T.State)
    requires s.writer.Allocating?
  {
    var done := s.writer.done + r.done;
    && AllWellFormed(chain + r.chain) && done <= |s.writer.data|
    && after == s.(pool := r.pool, write := s.write + (chain + r.chain),
                   queued := s.queued + Stream(chain + r.chain), accepted := s.accepted + s.writer.data[..done],
                   writer := T.NoWrite)
  }

  /** The writer's two steps for one buffer, up to the next buffer or the end. */
  function AfterBuffer(s: T.State, copies: nat): T.State
    requires s.writer.Allocating? && s.writer.done <= |s.writer.data| && s.pool != []
  {
    var Allocating(data, done, chain) := s.writer;
    var b := Reset(s.pool[0]);
    if done == |data| || copies == 0 then
      s.(pool := s.pool[1..], writer := T.Putting(data, done, chain + [b]))
    else
      var n := Min(|data| - done, b.length);
      var next := chain + [Fill(b, data[done..done + n], s.interface)];
      s.(pool := s.pool[1..],
         writer := if done + n < |data| then T.Allocating(data, done + n, next) else T.Putting(data, done + n, next))
  }

  lemma AfterBufferIs(s: T.State, copies: nat)
    requires s.writer.Allocating? && s.writer.done <= |s.writer.data| && s.pool != []
    ensures var next := AfterBuffer(s, copies);
      && next == s.(pool := s.pool[1..], writer := next.writer)
      && (next.writer.Putting? || next.writer.Allocating?)
  {}

  lemma DriveBuffer(s: T.State, copies: nat)
    requires T.Inv(s) && s.writer.Allocating? && s.pool != []
    ensures s.writer.done <= |s.writer.data| && T.Inv(AfterBuffer(s, copies))
    ensures Drive(s, copies) == Drive(AfterBuffer(s, copies),
      if s.writer.done < |s.writer.data| && copies > 0 then copies - 1 else copies)
  {
    var first := T.WriteStep(s, copies > 0);
    T.WriteKeeps(s, copies > 0);
    T.WriteKeeps(first, copies > 0);
    BufferSteps(s, copies);
    assert first.writer.done == s.writer.done && first.writer.data == s.writer.data;
    hide T.Inv, T.WriteStep, AfterBuffer;
    assert Drive(s, copies) == Drive(first, copies);
  }

  lemma BufferSteps(s: T.State, copies: nat)
    requires T.Inv(s) && s.writer.Allocating? && s.pool != []
    requires T.Inv(T.WriteStep(s, copies > 0))
    ensures s.writer.done <= |s.writer.data| && !T.WriteStep(s, copies > 0).writer.NoWrite?
    ensures T.WriteStep(s, copies > 0).writer.Copying?
    ensures T.WriteStep(T.WriteStep(s, copies > 0), copies > 0) == AfterBuffer(s, copies)
  {
    hide T.SlotsHeld, T.RingOrder, Fill;
    var next := s.writer.chain + [Reset(s.pool[0])];
    assert next[..|next| - 1] == s.writer.chain;
  }

  /** From a buffer to be asked for on, the writer left alone does what the call does. */
  lemma {:induction false} DriveFromBuffer(s: T.State, copies: nat)
    requires T.Inv(s) && s.writer.Allocating?
    ensures var w := s.writer;
      w.done <= |w.data| &&
      CallOver(s, w.chain, WriteCall(s.interface, s.pool, w.data[w.done..], copies), Drive(s, copies))
    decreases |s.pool|
  {
    hide *;
    var Allocating(data, done, chain) := s.writer;
    if s.pool == [] {
      DriveDry(s, copies);
    } else {
      DriveBuffer(s, copies);
      var next := AfterBuffer(s, copies);
      AfterBufferIs(s, copies);
      if next.writer.Putting? {
        DriveLast(s, copies);
      } else {
        DriveGoesOn(s, copies);
        DriveFromBuffer(next, copies - 1);
        CallMore(s, next, WriteCall(s.interface, s.pool, data[done..], copies),
                 WriteCall(s.interface, next.pool, data[next.writer.done..], copies - 1), Drive(s, copies));
      }
    }
  }

  lemma DriveDry(s: T.State, copies: nat)
    requires T.Inv(s) && s.writer.Allocating? && s.pool == []
    ensures var w := s.writer;
      w.done <= |w.data| && CallOver(s, w.chain, WriteCall(s.interface, s.pool, w.data[w.done..], copies),
        Drive(s, copies))
  {
    T.WriteKeeps(s, copies > 0);
    DrivePut(T.WriteStep(s, copies > 0), copies);
    assert s.writer.chain + [] == s.writer.chain;
  }

  lemma DriveLast(s: T.State, copies: nat)
    requires T.Inv(s) && s.writer.Allocating? && s.pool != [] && s.writer.done <= |s.writer.data|
    requires AfterBuffer(s, copies).writer.Putting? && T.Inv(AfterBuffer(s, copies))
    requires Drive(s, copies) == Drive(AfterBuffer(s, copies),
      if s.writer.done < |s.writer.data| && copies > 0 then copies - 1 else copies)
    ensures CallOver(s, s.writer.chain, WriteCall(s.interface, s.pool, s.writer.data[s.writer.done..], copies),
      Drive(s, copies))
  {
    var next := AfterBuffer(s, copies);
    assert next == s.(pool := next.pool, writer := next.writer);
    hide T.Inv, Drive, WriteCall, AfterBuffer;
    DrivePut(next, if s.writer.done < |s.writer.data| && copies > 0 then copies - 1 else copies);
    DriveEnds(s, copies);
  }

  lemma CallMore(s: T.State, next: T.State, r: Result, rest: Result, after: T.State)
    requires s.writer.Allocating? && next.writer.Allocating? && next == s.(pool := next.pool, writer := next.writer)
    requires next.writer.data == s.writer.data && next.writer.done + rest.done == s.writer.done + r.done
    requires next.writer.chain + rest.chain == s.writer.chain + r.chain && rest.pool == r.pool
    requires CallOver(next, next.writer.chain, rest, after)
    ensures CallOver(s, s.writer.chain, r, after)
  {}

  lemma DriveEnds(s: T.State, copies: nat)
    requires s.writer.Allocating? && s.pool != [] && s.writer.done <= |s.writer.data|
    requires AfterBuffer(s, copies).writer.Putting?
    ensures var w := s.writer;
      var r := WriteCall(s.interface, s.pool, w.data[w.done..], copies);
      && AfterBuffer(s, copies).writer.chain == w.chain + r.chain
      && AfterBuffer(s, copies).writer.done == w.done + r.done && AfterBuffer(s, copies).writer.data == w.data
      && AfterBuffer(s, copies).pool == r.pool
  {
    var Allocating(data, done, _) := s.writer;
    if done < |data| && copies > 0 {
      var n := |data| - done;
      assert data[done..][..n] == data[done..done + n];
    }
  }

  lemma DriveGoesOn(s: T.State, copies: nat)
    requires s.writer.Allocating? && s.pool != [] && s.writer.done <= |s.writer.data|
    requires AfterBuffer(s, copies).writer.Allocating?
    ensures copies > 0 && s.writer.done < |s.writer.data|
    ensures var w, next := s.writer, AfterBuffer(s, copies);
      var r := WriteCall(s.interface, s.pool, w.data[w.done..], copies);
      var rest := WriteCall(s.interface, next.pool, w.data[next.writer.done..], copies - 1);
      && next.writer.chain + rest.chain == w.chain + r.chain
      && next.writer.done + rest.done == w.done + r.done && next.writer.data == w.data
      && rest.pool == r.pool
  {
    hide *;
    GoesOnWith(s, copies);
    var Allocating(data, done, chain) := s.writer;
    var n := |s.pool[0].memory|;
    Pieces(data, done, n);
    CallGoesOn(s.interface, s.pool, data[done..], copies);
    var filled := Fill(Reset(s.pool[0]), data[done..done + n], s.interface);
    Regroup(chain, [filled], WriteCall(s.interface, s.pool[1..], data[done + n..], copies - 1).chain);
  }

  lemma GoesOnWith(s: T.State, copies: nat)
    requires s.writer.Allocating? && s.pool != [] && s.writer.done <= |s.writer.data|
    requires AfterBuffer(s, copies).writer.Allocating?
    ensures var w, b, n := s.writer, Reset(s.pool[0]), |s.pool[0].memory|;
      && copies > 0 && w.done + n < |w.data| && WellFormed(b) && b.length == n
      && AfterBuffer(s, copies).pool == s.pool[1..]
      && AfterBuffer(s, copies).writer
         == T.Allocating(w.data, w.done + n, w.chain + [Fill(b, w.data[w.done..w.done + n], s.interface)])
  {
    hide Fill;
  }

  lemma CallGoesOn(interface: int, pool: seq<Buffer>, data: seq<byte>, copies: nat)
    requires pool != [] && copies > 0 && |pool[0].memory| < |data|
    ensures WellFormed(Reset(pool[0])) && Reset(pool[0]).length == |pool[0].memory|
    ensures var n := |pool[0].memory|;
      var filled := Fill(Reset(pool[0]), data[..n], interface);
      var rest := WriteCall(interface, pool[1..], data[n..], copies - 1);
      WriteCall(interface, pool, data, copies) == Result([filled] + rest.chain, rest.pool, n + rest.done)
  {
    hide Fill;
  }

  lemma DrivePut(s: T.State, copies: nat)
    requires T.Inv(s) && s.writer.Putting?
    ensures s.writer.done <= |s.writer.data|
    ensures Drive(s, copies) == s.(write := s.write + s.writer.chain, queued := s.queued + Stream(s.writer.chain),
                                   accepted := s.accepted + s.writer.data[..s.writer.done], writer := T.NoWrite)
  {
    T.WriteKeeps(s, copies > 0);
    hide T.Inv;
    assert Drive(T.WriteStep(s, copies > 0), copies) == T.WriteStep(s, copies > 0);
  }
  /** From its begin on, the step-by-step writer left alone does what the call does. */
  lemma DriveIsCall(s: T.State, data: seq<byte>, copies: nat)
    requires T.Inv(s) && s.writer.NoWrite?
    ensures T.Inv(T.Step(s, T.BeginWrite(data)))
    ensures var r := WriteCall(s.interface, s.pool, data, copies);
      && r.done <= |data| && AllWellFormed(r.chain)
      && Drive(T.Step(s, T.BeginWrite(data)), copies)
         == s.(pool := r.pool, write := s.write + r.chain, queued := s.queued + Stream(r.chain),
               accepted := s.accepted + data[..r.done])
  {
    hide T.Inv, Drive, WriteCall, AllWellFormed, Stream;
    T.StepKeeps(s, T.BeginWrite(data));
    var begun := T.Step(s, T.BeginWrite(data));
    DriveFromBuffer(begun, copies);
    assert data[0..] == data;
    var r := WriteCall(s.interface, s.pool, data, copies);
    assert [] + r.chain == r.chain;
  }
  /** Every buffer that was filled is marked with the interface; one left unfilled is not. */
  lemma {:induction false} FragmentsMarked(interface: int, pool: seq<Buffer>, data: seq<byte>, copies: nat)
    ensures var r := WriteCall(interface, pool, data, copies);
      forall i :: 0 <= i < |r.chain| ==> r.chain[i].interface == if data != [] && i < copies then interface else -1
    decreases |pool|
  {
    if pool != [] && data != [] && copies > 0 && |pool[0].memory| < |data| {
      var n := |pool[0].memory|;
      CallGoesOn(interface, pool, data, copies);
      FragmentsMarked(interface, pool[1..], data[n..], copies - 1);
      hide WriteCall, Fill, Reset;
    }
  }
}
