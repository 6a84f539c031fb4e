/** Both ways through the serial driver from end to end, each party doing its part in turn. */
module EndToEnd {
  import opened Buffers
  import opened Bytes
  import opened Circular
  import opened Options
  import F = Fragments
  import RH = RingHandler
  import T = Transmit
  import A = Reassembly
  import R = Receive
  import S = ReceiveHandler

  // ---- transmitting ----------------------------------------------------------------------------

  lemma {:induction false} WriterKeeps(s: T.State, copies: nat)
    requires T.Inv(s)
    ensures T.Inv(F.Drive(s, copies))
    decreases |s.pool|, F.Phase(s.writer)
  {
    hide T.Inv, T.WriteStep;
    if !s.writer.NoWrite? {
      T.WriteKeeps(s, copies > 0);
      F.Smaller(s, copies > 0);
      var used := if s.writer.Copying? && s.writer.done < |s.writer.data| && copies > 0 then 1 else 0;
      WriterKeeps(T.WriteStep(s, copies > 0), copies - used);
    }
  }

  lemma {:induction false} HandlerKeeps(s: T.State)
    requires T.Inv(s)
    ensures T.Inv(RH.Drive(s))
    decreases RH.Phase(s), RH.Turns(s)
  {
    hide T.Inv, T.HandleStep;
    if !s.handler.Resting? {
      T.HandleKeeps(s);
      RH.DriveSmaller(s);
      HandlerKeeps(T.HandleStep(s));
    }
  }

  /** A write call, a run of the event handler, and the device consuming what it finds. */
  ghost function Transmitted(s: T.State, data: seq<byte>, copies: nat): T.State
    requires T.Inv(s)
  {
    T.StepKeeps(s, T.BeginWrite(data));
    var written := F.Drive(T.Step(s, T.BeginWrite(data)), copies);
    WriterKeeps(T.Step(s, T.BeginWrite(data)), copies);
    T.StartHandlerKeeps(written);
    var handled := RH.Drive(T.StartHandlerStep(written));
    HandlerKeeps(T.StartHandlerStep(written));
    T.Drain(handled)
  }

  /**
   On an idle transmitter whose ring has room for the fragments, what a write accepts is
   what the device consumes next, if no buffer had to be queued unfilled.
   */
  lemma WriteArrives(s: T.State, data: seq<byte>, copies: nat, fragment: nat)
    requires T.Inv(s) && s.handler.Resting? && s.writer.NoWrite? && s.write == [] && s.head == s.tail
    requires F.Uniform(s.pool, fragment) && F.Clean(s.pool, data, copies, fragment)
    requires |F.WriteCall(s.interface, s.pool, data, copies).chain| < |s.slots|
    ensures var r, after := F.WriteCall(s.interface, s.pool, data, copies), Transmitted(s, data, copies);
      && r.done <= |data| && after.accepted == s.accepted + data[..r.done]
      && after.consumed == s.consumed + data[..r.done]
      && after.write == [] && after.head == after.tail
  {
    hide T.Inv, T.Step, F.WriteCall, F.Drive, RH.Drive, T.Drain, F.Clean, F.Uniform, T.StartHandlerStep;
    var r := F.WriteCall(s.interface, s.pool, data, copies);
    T.NothingOnRing(s);
    F.DriveIsCall(s, data, copies);
    F.QueuesWhatItAccepts(s.interface, s.pool, data, copies, fragment);
    T.StepKeeps(s, T.BeginWrite(data));
    WriterKeeps(T.Step(s, T.BeginWrite(data)), copies);
    var written := F.Drive(T.Step(s, T.BeginWrite(data)), copies);
    RunMovesAll(written);
    var handled := RH.Drive(T.StartHandlerStep(written));
    T.DrainsRing(handled);
    T.DrainKeeps(handled);
    assert [] + r.chain == r.chain;
    assert s.consumed + [] == s.consumed;
    assert handled.queued == s.queued + Stream(r.chain);
  }

  /** With the ring consumed, a run of the handler takes all of a write list that fits. */
  lemma RunMovesAll(s: T.State)
    requires T.Inv(s) && s.handler.Resting? && s.head == s.tail && |s.write| < |s.slots|
    ensures T.Inv(T.StartHandlerStep(s))
    ensures var after := RH.Drive(T.StartHandlerStep(s));
      && T.Inv(after) && after.write == [] && after.handler.Resting? && after.head == s.head
      && after == s.(pool := after.pool, write := [], slots := after.slots, oldest := after.oldest, tail := after.tail)
  {
    hide T.Inv, T.StartHandlerStep, RH.Drive, RH.Run, RH.Sound;
    RH.DriveIsRun(s);
    HandlerKeeps(T.StartHandlerStep(s));
    RunLeavesNothing(RH.AsRing(s), s.head);
    AsRingIs(s);
  }

  lemma AsRingIs(s: T.State)
    requires s.handler.Resting?
    ensures RH.AsRing(s) == RH.Ring(s.pool, s.write, s.slots, s.oldest, s.tail)
  {}

  lemma RunLeavesNothing<B>(r: RH.Ring<B>, head: nat)
    requires RH.Sound(r, head) && r.tail == head && |r.write| < |r.slots|
    ensures RH.Run(r, head).write == []
  {
    RH.ReclaimTail(r, head);
    RH.ReclaimEffect(r, head);
    hide RH.Reclaim, RH.Fill;
    RH.FillEffect(RH.Reclaim(r, head), head);
  }
  // ---- receiving -------------------------------------------------------------------------------

  lemma {:induction false} ServerKeeps(s: R.State)
    requires R.Inv(s)
    ensures R.Inv(S.Drive(s))
    decreases S.Turns(s)
  {
    hide R.Inv, R.HandleStep;
    if !s.handler.Resting? {
      S.HandleKeeps(s);
      S.Smaller(s);
      ServerKeeps(R.HandleStep(s));
    }
  }

  /** A packet of the device, a run of the event handler, and a read call. */
  ghost function Received(s: R.State, data: seq<byte>, length: nat, copies: nat): R.State
    requires R.Inv(s)
  {
    R.DeliverKeeps(s, R.SUCCESS, 0, data);
    var delivered := R.DeliverStep(s, R.SUCCESS, 0, data);
    R.StartHandlerKeeps(delivered);
    var handled := S.Drive(R.StartHandlerStep(delivered));
    ServerKeeps(R.StartHandlerStep(delivered));
    R.BeginReadKeeps(handled, length);
    A.Drive(R.BeginReadStep(handled, length), copies)
  }

  /**
   On an idle receiver with a buffer to spare and a slot that holds it, a packet is what a
   read returns next, as far as that asks for.
   */
  lemma PacketIsRead(s: R.State, data: seq<byte>, length: nat, copies: nat)
    requires R.Inv(s) && s.handler.Resting? && s.reader.NoRead? && s.partial == None && s.read == []
    requires s.head == s.tail < |s.slots| && 1 < |s.slots| && s.pool != []
    requires |data| <= |s.slots[s.tail].buffer.memory| && 0 < copies
    ensures var after := Received(s, data, length, copies);
      && after.sent == s.sent + data && after.returned == s.returned + data[..Min(length, |data|)]
      && after.head == after.tail && after.reader.NoRead?
  {
    hide R.Inv, R.DeliverStep, R.StartHandlerStep, R.BeginReadStep, S.Drive, S.Serve, A.Drive, R.Waiting, A.ReadCall,
      Inc, AllWellFormed, Min, S.Delivered, R.Filled, Payload;
    R.DeliverKeeps(s, R.SUCCESS, 0, data);
    PacketOnRing(s, data);
    var delivered := R.DeliverStep(s, R.SUCCESS, 0, data);
    R.StartHandlerKeeps(delivered);
    S.DriveIsServe(delivered);
    ServesOne(S.Ring(delivered.pool, delivered.read, delivered.slots, delivered.head), delivered.tail);
    ServerKeeps(R.StartHandlerStep(delivered));
    var handled := S.Drive(R.StartHandlerStep(delivered));
    var b := R.Filled(delivered.slots[s.tail]);
    assert [] + [b] == [b];
    WaitingIs(handled, b);
    R.BeginReadKeeps(handled, length);
    A.DriveIsCall(handled, length, copies);
    ReadsPrefix(b, data, length, copies);
  }

  lemma PacketOnRing(s: R.State, data: seq<byte>)
    requires R.Inv(s) && s.handler.Resting? && s.head == s.tail < |s.slots| && 1 < |s.slots|
    requires |data| <= |s.slots[s.tail].buffer.memory|
    ensures var after := R.DeliverStep(s, R.SUCCESS, 0, data);
      && |after.slots| == |s.slots| && after.tail == Inc(s.tail, |s.slots|) != s.head && after.tail < |after.slots|
      && after == s.(slots := after.slots, tail := after.tail, sent := s.sent + data)
      && var slot := after.slots[s.tail];
      && R.Deliverable(slot.status, slot.interface) && WellFormed(R.Filled(slot)) && Payload(R.Filled(slot)) == data
  {
    IncIs(s.tail, |s.slots|);
    hide Inc, R.StreamInv;
    R.DeliverSlot(s, R.SUCCESS, 0, data);
  }

  /** A run over one packet for a reader, with a replacement at hand. */
  lemma ServesOne(r: S.Ring, end: nat)
    requires r.at < |r.slots| && end == Inc(r.at, |r.slots|) != r.at && end < |r.slots| && r.pool != []
    requires R.Deliverable(r.slots[r.at].status, r.slots[r.at].interface)
    ensures var after := S.Serve(r, end);
      after.at == end && after.read == r.read + [R.Filled(r.slots[r.at])]
  {
    hide Inc, S.Serve, S.ServeOne, S.Ready, R.Deliverable, R.Filled, S.Delivered;
    S.ServeTurn(r, end);
    S.ServeOneSlot(r);
    S.DeliveredMore(r.slots[r.at], []);
    S.ServeTurn(S.ServeOne(r), end);
  }

  lemma WaitingIs(s: R.State, b: Buffer)
    requires s.reader.NoRead? && s.partial == None && s.read == [b]
    ensures R.Waiting(s) == [b]
  {}

  lemma ReadsPrefix(b: Buffer, data: seq<byte>, length: nat, copies: nat)
    requires WellFormed(b) && Payload(b) == data && 0 < copies
    ensures AllWellFormed([b]) && A.ReadCall([b], length, copies).returned == data[..Min(length, |data|)]
  {
    A.ReturnsWhatItReaches([b], length, copies);
    assert A.Reachable([b], copies) == [b];
    assert Stream([b]) == data;
  }
}
