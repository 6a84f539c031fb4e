/**
 Sending commands and matching replies, end to end: the command table, the ring that
 carries commands out, a device that answers each command once, and the ring that
 carries replies back. Senders, device and reply handler interleave freely: an add, a
 push, a pull, a removal and a callback are a step each. Host and device share no lock,
 so a sender may find the ring full on a head value that is out of date; that this is
 all that can come of it is `StaleDecision` in module SharedRing.
 */
module CommandTracking {
  import opened Bytes
  import opened CommandList
  import opened Options
  import opened Ring
  import opened Sequences

  const HEADER: nat := 16
  const POSITIONS: nat := 0x1_0000

  datatype Channel = CommandChannel | DmaChannel

  /** The operations a channel takes: 1 executes a buffer, 2 to 6 move memory, 7 is a fence. */
  predicate Accepts(channel: Channel, operation: u32) {
    match channel
    case CommandChannel => operation == 1 || operation == 7
    case DmaChannel => 2 <= operation <= 7
  }

  /** Operations 1 to 7 are taken at all; both channels take the fence, and only 1 does not go to the DMA channel. */
  lemma AcceptedExactly(operation: u32)
    ensures Accepts(CommandChannel, operation) || Accepts(DmaChannel, operation) <==> 1 <= operation <= 7
    ensures Accepts(CommandChannel, operation) && Accepts(DmaChannel, operation) <==> operation == 7
    ensures Accepts(CommandChannel, operation) && !Accepts(DmaChannel, operation) <==> operation == 1
  {}

  /** Sequence number in the upper half, position in the lower. */
  function GenerateId(seqno: nat, position: nat): u32 {
    seqno % POSITIONS * POSITIONS + position % POSITIONS
  }

  function IdToPosition(id: u32): nat {
    id % POSITIONS
  }

  predicate IsMessage(r: Record) {
    WellFormed(r) && HEADER <= |r|
  }

  function IdOf(r: Record): u32
    requires 8 <= |r|
  {
    Read32(r, 4)
  }

  function WithId(r: Record, id: u32): Record
    requires 8 <= |r|
  {
    Write(r, 4, Word(id))
  }

  /** Frees the position a reply names and makes the callback found there. */
  function ReplyToCommand(t: Table, id: u32): (Table, seq<Event>) {
    var (after, entry) := Remove(t, IdToPosition(id));
    (after,
     if entry.Some? && entry.value.callback.Some? then
       [Event(entry.value.callback.value, entry.value.command, entry.value.arg)]
     else
       [])
  }

  lemma IdRoundTrip(seqno: nat, position: nat)
    requires position < POSITIONS
    ensures IdToPosition(GenerateId(seqno, position)) == position
    ensures GenerateId(seqno, position) / 0x1_0000 == seqno % 0x1_0000
    ensures GenerateId(seqno, position) % 0x1_0000 == position
  {}

  /** Two ids are the same only for the same position and, up to wrap-around, the same sequence number. */
  lemma IdsDiffer(seqno: nat, position: nat, seqno': nat, position': nat)
    requires position < POSITIONS && position' < POSITIONS
    requires GenerateId(seqno, position) == GenerateId(seqno', position')
    ensures position == position' && seqno % POSITIONS == seqno' % POSITIONS
  {
    IdRoundTrip(seqno, position);
    IdRoundTrip(seqno', position');
  }

  lemma WithIdIsMessage(r: Record, id: u32)
    requires IsMessage(r)
    ensures IsMessage(WithId(r, id)) && IdOf(WithId(r, id)) == id
    ensures forall i :: 0 <= i < |r| && !(4 <= i < 8) ==> WithId(r, id)[i] == r[i]
  {
    var w := WithId(r, id);
    Read32Same(w, 0, r, 0);
    assert w[4..8] == Word(id)[0..4];
    Read32Same(w, 4, Word(id), 0);
  }

  // ---- the system ----------------------------------------------------------------------

  /** One command that was given a position. */
  datatype Send = Send(command: nat, callback: Option<nat>, arg: nat, record: Record, position: nat)

  /** What the reply handler is at: with the id of a reply pulled, or with a callback to make, if any. */
  datatype Handling = Idle | Pulled(id: u32) | Calling(events: seq<Event>)

  /**
   Sends are named by their number. Each is in one place: waiting between its add and its
   push, in the ring, in the device, among the replies, in the reply handler's hand,
   answered, or rejected by a full ring.
   */
  datatype State = State(
    channel: Channel, table: Table, seqno: nat, sends: seq<Send>,
    waiting: seq<nat>, rejected: seq<nat>, pushed: seq<nat>,
    outgoing: Queue, inRing: seq<nat>,
    device: seq<u32>, inDevice: seq<nat>,
    replies: Queue, inReplies: seq<nat>,
    handling: Handling, inHand: seq<nat>,
    answered: seq<nat>, made: seq<Event>)

  /** An outdated FinishSend fails, as far as the ring is concerned, whether or not there is room by now. */
  datatype Action =
    | BeginSend(command: nat, record: Record, callback: Option<nat>, arg: nat)
    | FinishSend(sender: nat, outdated: bool)
    | DeviceTake
    | DeviceReply(which: nat, reply: Record)
    | HostPull
    | HostRemove
    | HostCall

  ghost predicate Possible(s: State, a: Action) {
    match a
    case BeginSend(_, record, _, _) => IsMessage(record)
    case FinishSend(i, _) => i < |s.waiting|
    case DeviceTake => true
    case DeviceReply(i, reply) => i < |s.device| && IsMessage(reply) && IdOf(reply) == s.device[i]
    case HostPull => true
    case HostRemove => true
    case HostCall => true
  }

  function Without<T>(c: seq<T>, i: nat): seq<T>
    requires i < |c|
  {
    c[..i] + c[i + 1..]
  }

  ghost function Step(s: State, a: Action): State
    requires Inv(s) && Possible(s, a)
  {
    match a
    case BeginSend(command, record, callback, arg) => BeginSendStep(s, command, record, callback, arg)
    case FinishSend(i, outdated) => FinishSendStep(s, i, outdated)
    case DeviceTake => DeviceTakeStep(s)
    case DeviceReply(i, reply) => DeviceReplyStep(s, i, reply)
    case HostPull => HostPullStep(s)
    case HostRemove => HostRemoveStep(s)
    case HostCall => HostCallStep(s)
  }

  ghost function BeginSendStep(s: State, command: nat, record: Record, callback: Option<nat>, arg: nat): State
    requires Inv(s) && IsMessage(record)
  {
    FreeInTable(s);
    var (table, position) := Add(s.table, command, callback, arg);
    if !Accepts(s.channel, Read32(record, 12)) || position.None? then
      s
    else
      s.(table := table,
         sends := s.sends + [Send(command, callback, arg, record, position.value)],
         waiting := s.waiting + [|s.sends|])
  }

  ghost function FinishSendStep(s: State, i: nat, outdated: bool): State
    requires Inv(s) && i < |s.waiting|
  {
    var k := s.waiting[i];
    Located(s, k);
    var record := WithId(s.sends[k].record, GenerateId(s.seqno, s.sends[k].position));
    var (outgoing, ok) := if outdated then (s.outgoing, false) else Push(s.outgoing, record);
    var next := s.(seqno := s.seqno + 1, waiting := Without(s.waiting, i));
    if ok then
      next.(outgoing := outgoing, inRing := s.inRing + [k], pushed := s.pushed + [k])
    else
      next.(table := Remove(s.table, s.sends[k].position).0, rejected := s.rejected + [k])
  }

  ghost function DeviceTakeStep(s: State): State
    requires Inv(s)
  {
    var (outgoing, record) := Pull(s.outgoing, true);
    if record.None? then
      s
    else
      PullTakesOldest(s.outgoing, true);
      s.(outgoing := outgoing, inRing := s.inRing[1..],
         device := s.device + [IdOf(record.value)], inDevice := s.inDevice + [s.inRing[0]])
  }

  ghost function DeviceReplyStep(s: State, i: nat, reply: Record): State
    requires Inv(s) && i < |s.device| && IsMessage(reply)
  {
    var (replies, ok) := Push(s.replies, reply);
    if ok then
      s.(replies := replies, inReplies := s.inReplies + [s.inDevice[i]],
         device := Without(s.device, i), inDevice := Without(s.inDevice, i))
    else
      s
  }

  ghost function HostPullStep(s: State): State
    requires Inv(s)
  {
    var (replies, reply) := Pull(s.replies, true);
    if !s.handling.Idle? || reply.None? then
      s
    else
      PullTakesOldest(s.replies, true);
      s.(replies := replies, inReplies := s.inReplies[1..],
         handling := Pulled(IdOf(reply.value)), inHand := [s.inReplies[0]])
  }

  ghost function HostRemoveStep(s: State): State
    requires Inv(s)
  {
    if !s.handling.Pulled? then
      s
    else
      var (table, events) := ReplyToCommand(s.table, s.handling.id);
      s.(table := table, handling := Calling(events), inHand := [], answered := s.answered + s.inHand)
  }

  function HostCallStep(s: State): State {
    if !s.handling.Calling? then s else s.(handling := Idle, made := s.made + s.handling.events)
  }

  // ---- the invariant -------------------------------------------------------------------

  /** Where every send is. */
  ghost function Everywhere(s: State): multiset<nat> {
    multiset(s.answered) + multiset(s.rejected) + multiset(s.inHand) + multiset(s.inReplies) + multiset(s.inDevice)
    + multiset(s.inRing) + multiset(s.waiting)
  }

  ghost predicate FlightInv(s: State) {
    && (forall k: nat :: Everywhere(s)[k] == if k < |s.sends| then 1 else 0)
    && multiset(s.pushed)
       == multiset(s.answered) + multiset(s.inHand) + multiset(s.inReplies) + multiset(s.inDevice) + multiset(s.inRing)
  }

  /** A send still occupies its table entry. */
  ghost predicate Live(s: State, k: nat) {
    k < |s.sends| && k !in s.answered && k !in s.rejected
  }

  ghost predicate Held(t: Table, send: Send) {
    && send.position < |t.entries|
    && t.entries[send.position].command == Some(send.command)
    && t.entries[send.position].callback == send.callback
    && t.entries[send.position].arg == send.arg
  }

  ghost predicate HolderOf(s: State, p: nat, k: nat) {
    Live(s, k) && s.sends[k].position == p
  }

  /** Live sends and occupied table entries correspond one to one. */
  ghost predicate TableInv(s: State) {
    && (exists chain :: CommandList.Valid(s.table, chain))
    && |s.table.entries| <= POSITIONS
    && (forall k: nat :: Live(s, k) ==> Held(s.table, s.sends[k]))
    && (forall j: nat, k: nat :: Live(s, j) && Live(s, k) && s.sends[j].position == s.sends[k].position ==> j == k)
    && (forall p: nat :: p < |s.table.entries| && s.table.entries[p].command.Some? ==>
          exists k: nat :: HolderOf(s, p, k))
  }

  ghost predicate AllMessages(records: seq<Record>) {
    forall i :: 0 <= i < |records| ==> IsMessage(records[i])
  }

  function Ids(records: seq<Record>): (ids: seq<u32>)
    requires forall i :: 0 <= i < |records| ==> 8 <= |records[i]|
    ensures |ids| == |records|
    ensures forall i :: 0 <= i < |records| ==> ids[i] == IdOf(records[i])
  {
    seq(|records|, i requires 0 <= i < |records| => IdOf(records[i]))
  }

  /** Each id carries the position of the send it travels for. */
  ghost predicate Tagged(ids: seq<u32>, numbers: seq<nat>, sends: seq<Send>) {
    && |ids| == |numbers|
    && forall i :: 0 <= i < |ids| ==> numbers[i] < |sends| && IdToPosition(ids[i]) == sends[numbers[i]].position
  }

  ghost predicate Carries(q: Queue, numbers: seq<nat>, sends: seq<Send>) {
    && Ring.Valid(q)
    && AllMessages(Contents(q))
    && Tagged(Ids(Contents(q)), numbers, sends)
  }

  ghost predicate TransportInv(s: State) {
    && (forall k :: 0 <= k < |s.sends| ==> IsMessage(s.sends[k].record))
    && Carries(s.outgoing, s.inRing, s.sends)
    && Tagged(s.device, s.inDevice, s.sends)
    && Carries(s.replies, s.inReplies, s.sends)
    && Tagged(IdInHand(s.handling), s.inHand, s.sends)
  }

  function IdInHand(h: Handling): seq<u32> {
    if h.Pulled? then [h.id] else []
  }

  /** The callback the handler is about to make. */
  function Due(h: Handling): seq<Event> {
    if h.Calling? then h.events else []
  }

  /** The callback a send asked for. */
  function OwedTo(send: Send): seq<Event> {
    if send.callback.Some? then [Event(send.callback.value, Some(send.command), send.arg)] else []
  }

  function OwedFor(sends: seq<Send>, numbers: seq<nat>): seq<Event>
    requires forall i :: 0 <= i < |numbers| ==> numbers[i] < |sends|
  {
    if numbers == [] then
      []
    else
      OwedFor(sends, numbers[..|numbers| - 1]) + OwedTo(sends[numbers[|numbers| - 1]])
  }

  ghost predicate MadeInv(s: State) {
    && (forall i :: 0 <= i < |s.answered| ==> s.answered[i] < |s.sends|)
    && s.made + Due(s.handling) == OwedFor(s.sends, s.answered)
  }

  ghost predicate Inv(s: State) {
    FlightInv(s) && TableInv(s) && TransportInv(s) && MadeInv(s)
  }

  lemma FreeInTable(s: State)
    requires TableInv(s)
    ensures s.table.free.Some? ==> s.table.free.value < |s.table.entries|
  {
    var chain :| CommandList.Valid(s.table, chain);
    AddTakesFirst(s.table, chain, 0, None, 0);
  }

  /** A send found in one place is in no other. */
  lemma Located(s: State, k: nat)
    requires FlightInv(s)
    requires k in s.waiting || k in s.inRing || k in s.inDevice || k in s.inReplies || k in s.inHand
    ensures Live(s, k)
  {
    assert Everywhere(s)[k] >= 1;
  }

  // ---- bags and tags ----------------------------------------------------------------------

  lemma BagWithout<T>(c: seq<T>, i: nat)
    requires i < |c|
    ensures multiset(Without(c, i)) + multiset{c[i]} == multiset(c)
  {
    assert c == c[..i] + [c[i]] + c[i + 1..];
  }

  lemma BagTail<T>(c: seq<T>)
    requires c != []
    ensures multiset(c[1..]) + multiset{c[0]} == multiset(c)
  {
    assert c == [c[0]] + c[1..];
  }

  lemma TaggedWithout(ids: seq<u32>, numbers: seq<nat>, sends: seq<Send>, i: nat)
    requires Tagged(ids, numbers, sends) && i < |ids|
    ensures Tagged(Without(ids, i), Without(numbers, i), sends)
  {}

  /** A push of a message tagged for send k keeps a ring's tags. */
  lemma CarriesPushed(q: Queue, numbers: seq<nat>, sends: seq<Send>, r: Record, k: nat)
    requires Carries(q, numbers, sends) && IsMessage(r)
    requires k < |sends| && IdToPosition(IdOf(r)) == sends[k].position
    ensures var (after, ok) := Push(q, r);
      Carries(after, if ok then numbers + [k] else numbers, sends)
  {
    hide Walk, Read32, Ring.Valid, Place;
    Bounds(q);
    PushAppends(q, r);
    var (after, ok) := Push(q, r);
    if ok {
      assert Contents(after) == Contents(q) + [r];
      assert Ids(Contents(after)) == Ids(Contents(q)) + [IdOf(r)];
    }
  }

  /** A pull takes the first tag away. */
  lemma CarriesPulled(q: Queue, numbers: seq<nat>, sends: seq<Send>)
    requires Carries(q, numbers, sends)
    ensures var (after, r) := Pull(q, true);
      if r.None? then
        after == q
      else
        && numbers != [] && IsMessage(r.value)
        && numbers[0] < |sends| && IdToPosition(IdOf(r.value)) == sends[numbers[0]].position
        && Carries(after, numbers[1..], sends)
  {
    hide Walk, Read32, Ring.Valid;
    EmptyExactlyWhenRegistersMeet(q);
    PullTakesOldest(q, true);
    var (after, r) := Pull(q, true);
    if r.Some? {
      assert Ids(Contents(after)) == Ids(Contents(q))[1..];
    }
  }

  lemma CarriesMore(q: Queue, numbers: seq<nat>, sends: seq<Send>, send: Send)
    requires Carries(q, numbers, sends)
    ensures Carries(q, numbers, sends + [send])
  {
    hide Walk, Read32, Ring.Valid, Ids;
  }

  lemma {:induction false} OwedForMore(sends: seq<Send>, numbers: seq<nat>, send: Send)
    requires forall i :: 0 <= i < |numbers| ==> numbers[i] < |sends|
    ensures OwedFor(sends + [send], numbers) == OwedFor(sends, numbers)
  {
    if numbers != [] {
      OwedForMore(sends, numbers[..|numbers| - 1], send);
    }
  }

  // ---- every step keeps the invariant ---------------------------------------------------------

  lemma BeginSendKeeps(s: State, command: nat, record: Record, callback: Option<nat>, arg: nat)
    requires Inv(s) && IsMessage(record)
    ensures Inv(BeginSendStep(s, command, record, callback, arg))
  {
    var after := BeginSendStep(s, command, record, callback, arg);
    if after != s {
      BeginSendFlight(s, after);
      BeginSendTable(s, after);
      BeginSendTransport(s, after);
      hide *;
    }
  }

  lemma BeginSendFlight(s: State, after: State)
    requires FlightInv(s) && |after.sends| == |s.sends| + 1
    requires after == s.(table := after.table, sends := after.sends, waiting := s.waiting + [|s.sends|])
    ensures FlightInv(after)
  {
    assert Everywhere(after) == Everywhere(s) + multiset{|s.sends|};
  }

  lemma BeginSendTable(s: State, after: State)
    requires FlightInv(s) && TableInv(s) && s.table.free.Some?
    requires s.table.free.value < |s.table.entries|
    requires |after.sends| == |s.sends| + 1
    requires var send := after.sends[|s.sends|];
      && after.table == Add(s.table, send.command, send.callback, send.arg).0
      && send.position == s.table.free.value
      && after.sends == s.sends + [send] && after.answered == s.answered && after.rejected == s.rejected
    ensures TableInv(after)
  {
    hide Everywhere;
    var send := after.sends[|s.sends|];
    var chain :| CommandList.Valid(s.table, chain);
    AddTakesFirst(s.table, chain, send.command, send.callback, send.arg);
    forall p: nat | p < |after.table.entries| && after.table.entries[p].command.Some?
      ensures exists k: nat :: HolderOf(after, p, k)
    {
      if p == send.position {
        NewNumber(s, after);
        assert HolderOf(after, p, |s.sends|);
      } else {
        var k: nat :| HolderOf(s, p, k);
        assert HolderOf(after, p, k);
      }
    }
  }

  lemma NewNumber(s: State, after: State)
    requires FlightInv(s) && after.answered == s.answered && after.rejected == s.rejected
    requires |after.sends| == |s.sends| + 1
    ensures Live(after, |s.sends|)
  {
    assert Everywhere(s)[|s.sends|] == 0;
  }

  lemma BeginSendTransport(s: State, after: State)
    requires TransportInv(s) && MadeInv(s) && |after.sends| == |s.sends| + 1
    requires after == s.(table := after.table, sends := after.sends, waiting := after.waiting)
    requires var send := after.sends[|s.sends|]; after.sends == s.sends + [send] && IsMessage(send.record)
    ensures TransportInv(after) && MadeInv(after)
  {
    hide Carries;
    var send := after.sends[|s.sends|];
    CarriesMore(s.outgoing, s.inRing, s.sends, send);
    CarriesMore(s.replies, s.inReplies, s.sends, send);
    OwedForMore(s.sends, s.answered, send);
  }

  // A push that succeeds moves a send into the ring; one that fails gives its position back.

  lemma FinishSendKeeps(s: State, i: nat, outdated: bool)
    requires Inv(s) && i < |s.waiting|
    ensures Inv(FinishSendStep(s, i, outdated))
  {
    FinishSendFlight(s, i, outdated);
    FinishSendTable(s, i, outdated);
    FinishSendTransport(s, i, outdated);
    hide *;
  }

  lemma FinishSendFlight(s: State, i: nat, outdated: bool)
    requires Inv(s) && i < |s.waiting|
    ensures FlightInv(FinishSendStep(s, i, outdated))
  {
    hide TableInv, TransportInv, MadeInv, FlightInv, Push, Remove, WithId, Without;
    var after := FinishSendStep(s, i, outdated);
    if after.rejected == s.rejected {
      FlightPushed(s, after, i);
    } else {
      FlightRejected(s, after, i);
    }
  }

  lemma FlightPushed(s: State, after: State, i: nat)
    requires FlightInv(s) && i < |s.waiting|
    requires after == s.(seqno := after.seqno, outgoing := after.outgoing, waiting := Without(s.waiting, i),
                         inRing := s.inRing + [s.waiting[i]], pushed := s.pushed + [s.waiting[i]])
    ensures FlightInv(after)
  {
    hide Without;
    BagWithout(s.waiting, i);
    FlightMoved(s, after, multiset{s.waiting[i]});
  }

  lemma FlightRejected(s: State, after: State, i: nat)
    requires FlightInv(s) && i < |s.waiting|
    requires after == s.(seqno := after.seqno, table := after.table, waiting := Without(s.waiting, i),
                         rejected := s.rejected + [s.waiting[i]])
    ensures FlightInv(after)
  {
    hide Without;
    BagWithout(s.waiting, i);
    FlightMoved(s, after, multiset{});
  }

  /** Sends that only change place stay in one place each; `entered` of them entered the ring. */
  lemma FlightMoved(s: State, after: State, entered: multiset<nat>)
    requires FlightInv(s) && |after.sends| == |s.sends|
    requires Everywhere(after) == Everywhere(s)
    requires multiset(after.pushed) == multiset(s.pushed) + entered
    requires multiset(after.answered) + multiset(after.inHand) + multiset(after.inReplies) + multiset(after.inDevice)
               + multiset(after.inRing)
      == multiset(s.answered) + multiset(s.inHand) + multiset(s.inReplies) + multiset(s.inDevice) + multiset(s.inRing)
         + entered
    ensures FlightInv(after)
  {
    hide Everywhere;
  }

  lemma FinishSendTable(s: State, i: nat, outdated: bool)
    requires Inv(s) && i < |s.waiting|
    ensures TableInv(FinishSendStep(s, i, outdated))
  {
    var k := s.waiting[i];
    Located(s, k);
    hide FlightInv, TransportInv, MadeInv, Push, WithId, Remove;
    var after := FinishSendStep(s, i, outdated);
    if after.rejected == s.rejected {
      SameLive(s, after);
    } else {
      assert Held(s.table, s.sends[k]);
      hide TableInv;
      ReleaseKeepsTable(s, after, k);
    }
  }

  lemma FinishSendTransport(s: State, i: nat, outdated: bool)
    requires Inv(s) && i < |s.waiting|
    ensures TransportInv(FinishSendStep(s, i, outdated)) && MadeInv(FinishSendStep(s, i, outdated))
  {
    var k := s.waiting[i];
    Located(s, k);
    hide FlightInv, Carries;
    var send := s.sends[k];
    var id := GenerateId(s.seqno, send.position);
    assert Held(s.table, send);
    IdRoundTrip(s.seqno, send.position);
    WithIdIsMessage(send.record, id);
    CarriesPushed(s.outgoing, s.inRing, s.sends, WithId(send.record, id), k);
  }

  lemma SameLive(s: State, after: State)
    requires TableInv(s) && after.table == s.table && after.sends == s.sends
    requires after.answered == s.answered && after.rejected == s.rejected
    ensures TableInv(after)
  {
    forall p: nat | p < |after.table.entries| && after.table.entries[p].command.Some?
      ensures exists k: nat :: HolderOf(after, p, k)
    {
      var k: nat :| HolderOf(s, p, k);
      assert HolderOf(after, p, k);
    }
  }

  /** Removing a live send's entry once it is answered or rejected. */
  lemma ReleaseKeepsTable(s: State, after: State, k: nat)
    requires TableInv(s) && Live(s, k) && s.sends[k].position < |s.table.entries|
    requires after.sends == s.sends && after.table == Remove(s.table, s.sends[k].position).0
    requires forall j: nat :: Live(after, j) <==> Live(s, j) && j != k
    ensures TableInv(after)
  {
    var p := s.sends[k].position;
    assert Held(s.table, s.sends[k]);
    var chain :| CommandList.Valid(s.table, chain);
    RemoveFrees(s.table, chain, p);
    forall q: nat | q < |after.table.entries| && after.table.entries[q].command.Some?
      ensures exists j: nat :: HolderOf(after, q, j)
    {
      var j: nat :| HolderOf(s, q, j);
      assert HolderOf(after, q, j);
    }
  }

  // The device moves sends along; the table does not notice.

  lemma DeviceTakeKeeps(s: State)
    requires Inv(s)
    ensures Inv(DeviceTakeStep(s))
  {
    hide Carries, TableInv, FlightInv, Pull, IdOf;
    var after := DeviceTakeStep(s);
    if after != s {
      CarriesPulled(s.outgoing, s.inRing, s.sends);
      SameLive(s, after);
      hide *;
      BagTail(s.inRing);
      hide TransportInv, MadeInv;
      DeviceTakeFlight(s, after);
    }
  }

  lemma DeviceTakeFlight(s: State, after: State)
    requires FlightInv(s) && s.inRing != []
    requires after == s.(outgoing := after.outgoing, inRing := s.inRing[1..],
                         device := after.device, inDevice := s.inDevice + [s.inRing[0]])
    ensures FlightInv(after)
  {
    BagTail(s.inRing);
    FlightMoved(s, after, multiset{});
  }

  lemma DeviceReplyKeeps(s: State, i: nat, reply: Record)
    requires Inv(s) && i < |s.device| && IsMessage(reply) && IdOf(reply) == s.device[i]
    ensures Inv(DeviceReplyStep(s, i, reply))
  {
    hide Carries, TableInv, FlightInv, Push, IdOf, Without;
    var after := DeviceReplyStep(s, i, reply);
    if after != s {
      CarriesPushed(s.replies, s.inReplies, s.sends, reply, s.inDevice[i]);
      TaggedWithout(s.device, s.inDevice, s.sends, i);
      SameLive(s, after);
      DeviceReplyFlight(s, after, i);
    }
  }

  lemma DeviceReplyFlight(s: State, after: State, i: nat)
    requires FlightInv(s) && i < |s.inDevice|
    requires after == s.(replies := after.replies, inReplies := s.inReplies + [s.inDevice[i]],
                         device := after.device, inDevice := Without(s.inDevice, i))
    ensures FlightInv(after)
  {
    hide Without;
    BagWithout(s.inDevice, i);
    FlightMoved(s, after, multiset{});
  }

  // A reply is pulled, then it frees its send's entry, and then its callback is made.

  lemma HostPullKeeps(s: State)
    requires Inv(s)
    ensures Inv(HostPullStep(s))
  {
    hide TableInv, FlightInv, MadeInv, Pull, IdOf, Walk, Ids, AllMessages;
    var after := HostPullStep(s);
    if after != s {
      CarriesPulled(s.replies, s.inReplies, s.sends);
      HostPullFlight(s, after);
      SameLive(s, after);
      SameMade(s, after);
    }
  }

  lemma HostPullFlight(s: State, after: State)
    requires FlightInv(s) && s.inReplies != [] && s.inHand == []
    requires after == s.(replies := after.replies, inReplies := s.inReplies[1..],
                         handling := after.handling, inHand := [s.inReplies[0]])
    ensures FlightInv(after)
  {
    BagTail(s.inReplies);
    FlightMoved(s, after, multiset{});
  }

  lemma SameMade(s: State, after: State)
    requires MadeInv(s) && after.sends == s.sends && after.answered == s.answered
    requires after.made + Due(after.handling) == s.made + Due(s.handling)
    ensures MadeInv(after)
  {}

  lemma HostRemoveKeeps(s: State)
    requires Inv(s)
    ensures Inv(HostRemoveStep(s))
  {
    hide TableInv, FlightInv, MadeInv, ReplyToCommand, Carries;
    var after := HostRemoveStep(s);
    if after != s {
      assert |s.inHand| == 1 && s.inHand[0] < |s.sends|;
      assert s.inHand == [s.inHand[0]];
      HostRemoveFlight(s, after);
      HostRemoveTable(s, after, s.handling.id);
      HostRemoveMade(s, after, s.handling.id);
    }
  }

  lemma HostRemoveFlight(s: State, after: State)
    requires FlightInv(s) && s.inHand != []
    requires after == s.(table := after.table, handling := after.handling, inHand := [],
                         answered := s.answered + s.inHand)
    ensures FlightInv(after)
  {
    FlightMoved(s, after, multiset{});
  }

  lemma HostRemoveTable(s: State, after: State, id: u32)
    requires FlightInv(s) && TableInv(s) && |s.inHand| == 1
    requires s.inHand[0] < |s.sends| && IdToPosition(id) == s.sends[s.inHand[0]].position
    requires after.answered == s.answered + [s.inHand[0]] && after.rejected == s.rejected
    requires after.sends == s.sends && after.table == ReplyToCommand(s.table, id).0
    ensures TableInv(after)
  {
    hide Remove;
    var k := s.inHand[0];
    Located(s, k);
    hide FlightInv;
    assert Held(s.table, s.sends[k]);
    hide TableInv;
    ReleaseKeepsTable(s, after, k);
  }

  lemma HostRemoveMade(s: State, after: State, id: u32)
    requires FlightInv(s) && TableInv(s) && MadeInv(s) && |s.inHand| == 1 && Due(s.handling) == []
    requires s.inHand[0] < |s.sends| && IdToPosition(id) == s.sends[s.inHand[0]].position
    requires after.answered == s.answered + [s.inHand[0]] && after.made == s.made
    requires after.sends == s.sends && after.handling == Calling(ReplyToCommand(s.table, id).1)
    ensures MadeInv(after)
  {
    var k := s.inHand[0];
    Located(s, k);
    hide FlightInv, Everywhere;
    assert Held(s.table, s.sends[k]);
    hide TableInv;
    assert ReplyToCommand(s.table, id).1 == OwedTo(s.sends[k]);
    assert s.made + [] == s.made;
    assert after.answered[..|after.answered| - 1] == s.answered;
  }

  lemma HostCallKeeps(s: State)
    requires Inv(s)
    ensures Inv(HostCallStep(s))
  {
    hide TableInv, FlightInv, MadeInv, Carries;
    var after := HostCallStep(s);
    if s.handling.Calling? {
      assert after.made + [] == after.made;
      SameMade(s, after);
      SameLive(s, after);
      FlightMoved(s, after, multiset{});
    }
  }

  lemma StepKeeps(s: State, a: Action)
    requires Inv(s) && Possible(s, a)
    ensures Inv(Step(s, a))
  {
    hide Inv, BeginSendStep, FinishSendStep, DeviceTakeStep, DeviceReplyStep, IdOf;
    hide HostPullStep, HostRemoveStep, HostCallStep;
    match a
    case BeginSend(command, record, callback, arg) => BeginSendKeeps(s, command, record, callback, arg);
    case FinishSend(i, outdated) => FinishSendKeeps(s, i, outdated);
    case DeviceTake => DeviceTakeKeeps(s);
    case DeviceReply(i, reply) => DeviceReplyKeeps(s, i, reply);
    case HostPull => HostPullKeeps(s);
    case HostRemove => HostRemoveKeeps(s);
    case HostCall => HostCallKeeps(s);
  }

  // ---- runs --------------------------------------------------------------------------------------

  /** An idle system: an empty table and two empty rings. */
  ghost predicate Init(s: State) {
    && (exists chain :: CommandList.Valid(s.table, chain))
    && |s.table.entries| <= POSITIONS
    && (forall p :: 0 <= p < |s.table.entries| ==> s.table.entries[p].command == None)
    && Ring.Valid(s.outgoing) && Contents(s.outgoing) == []
    && Ring.Valid(s.replies) && Contents(s.replies) == []
    && s.sends == [] && s.waiting == [] && s.rejected == [] && s.pushed == [] && s.inRing == []
    && s.device == [] && s.inDevice == [] && s.inReplies == []
    && s.handling.Idle? && s.inHand == [] && s.answered == [] && s.made == []
  }

  lemma InitInv(s: State)
    requires Init(s)
    ensures Inv(s)
  {}

  /** The state after the actions, in order; one that is not possible when its turn comes is skipped. */
  ghost function Run(init: State, actions: seq<Action>): (s: State)
    requires Init(init)
    ensures Inv(s)
  {
    if actions == [] then
      InitInv(init);
      init
    else
      var before := Run(init, actions[..|actions| - 1]);
      var a := actions[|actions| - 1];
      if Possible(before, a) then
        StepKeeps(before, a);
        Step(before, a)
      else
        before
  }

  /** The device answers in the order in which it takes commands. */
  ghost predicate AnswersInOrder(actions: seq<Action>) {
    forall a :: a in actions && a.DeviceReply? ==> a.which == 0
  }

  ghost predicate InOrder(s: State) {
    s.pushed == s.answered + s.inHand + s.inReplies + s.inDevice + s.inRing
  }

  lemma StepInOrder(s: State, a: Action)
    requires Inv(s) && Possible(s, a) && InOrder(s) && (a.DeviceReply? ==> a.which == 0)
    ensures InOrder(Step(s, a))
  {
    hide Carries, TableInv, FlightInv, MadeInv, Pull, Push, IdOf, ReplyToCommand, Add, Tagged;
    match a
    case BeginSend(_, _, _, _) =>
    case FinishSend(i, _) => FinishInOrder(s, i, Step(s, a));
    case DeviceTake => TakeInOrder(s);
    case DeviceReply(i, reply) =>
      HoldsIds(s);
      ReplyInOrder(s, Step(s, a));
    case HostPull => PullInOrder(s);
    case HostRemove =>
    case HostCall =>
  }

  lemma FinishInOrder(s: State, i: nat, after: State)
    requires InOrder(s) && i < |s.waiting| && after.answered == s.answered && after.inHand == s.inHand
    requires after.inReplies == s.inReplies && after.inDevice == s.inDevice
    requires (after.inRing == s.inRing && after.pushed == s.pushed)
          || (after.inRing == s.inRing + [s.waiting[i]] && after.pushed == s.pushed + [s.waiting[i]])
    ensures InOrder(after)
  {}

  lemma TakeInOrder(s: State)
    requires Inv(s) && InOrder(s)
    ensures InOrder(DeviceTakeStep(s))
  {
    hide Carries, TableInv, FlightInv, MadeInv, Pull, IdOf, Tagged;
    var after := DeviceTakeStep(s);
    if after != s {
      CarriesPulled(s.outgoing, s.inRing, s.sends);
      assert s.inRing == [s.inRing[0]] + s.inRing[1..];
    }
  }

  /** The device names as many commands as it holds. */
  lemma HoldsIds(s: State)
    requires TransportInv(s)
    ensures |s.inDevice| == |s.device|
  {}

  lemma ReplyInOrder(s: State, after: State)
    requires InOrder(s) && s.inDevice != []
    requires after.answered == s.answered && after.inHand == s.inHand && after.inRing == s.inRing
    requires after.pushed == s.pushed
    requires (after.inReplies == s.inReplies && after.inDevice == s.inDevice)
          || (after.inReplies == s.inReplies + [s.inDevice[0]] && after.inDevice == Without(s.inDevice, 0))
    ensures InOrder(after)
  {
    assert s.inDevice == [s.inDevice[0]] + Without(s.inDevice, 0);
  }

  lemma PullInOrder(s: State)
    requires Inv(s) && InOrder(s)
    ensures InOrder(HostPullStep(s))
  {
    hide Carries, TableInv, FlightInv, MadeInv, Pull, IdOf;
    var after := HostPullStep(s);
    if after != s {
      CarriesPulled(s.replies, s.inReplies, s.sends);
      assert s.inReplies == [s.inReplies[0]] + s.inReplies[1..];
    }
  }

  /**
   With a device that answers in order, sends are answered in the order their commands were
   pushed, and the callbacks made are those of an initial part of that order.
   */
  lemma {:induction false} CallbacksFollowPushOrder(init: State, actions: seq<Action>)
    requires Init(init) && AnswersInOrder(actions)
    ensures var s := Run(init, actions);
      && InOrder(s)
      && s.answered <= s.pushed
      && s.made + Due(s.handling) == OwedFor(s.sends, s.pushed[..|s.answered|])
  {
    hide Init, Step, Possible, FlightInv, TableInv, TransportInv;
    if actions != [] {
      CallbacksFollowPushOrder(init, actions[..|actions| - 1]);
      var before := Run(init, actions[..|actions| - 1]);
      var a := actions[|actions| - 1];
      if Possible(before, a) {
        StepInOrder(before, a);
      }
    } else {
      InitInOrder(init);
    }
    var s := Run(init, actions);
    assert s.pushed[..|s.answered|] == s.answered;
  }

  lemma InitInOrder(s: State)
    requires Init(s)
    ensures InOrder(s)
  {}

  // ---- the final flush -----------------------------------------------------------------------------

  /** The live sends at positions from `p` on, in position order. */
  ghost function LiveFrom(s: State, p: nat): seq<nat>
    requires TableInv(s) && p <= |s.table.entries|
    decreases |s.table.entries| - p
  {
    if p == |s.table.entries| then
      []
    else if s.table.entries[p].command.Some? then
      var k: nat :| HolderOf(s, p, k);
      [k] + LiveFrom(s, p + 1)
    else
      LiveFrom(s, p + 1)
  }

  lemma {:induction false} LiveFromOnce(s: State, p: nat, k: nat)
    requires TableInv(s) && p <= |s.table.entries|
    ensures multiset(LiveFrom(s, p))[k] == if Live(s, k) && p <= s.sends[k].position then 1 else 0
    decreases |s.table.entries| - p
  {
    if p < |s.table.entries| {
      LiveFromOnce(s, p + 1, k);
      if Live(s, k) {
        assert Held(s.table, s.sends[k]);
      }
      if s.table.entries[p].command.Some? {
        var j := LiveFrom(s, p)[0];
        assert HolderOf(s, p, j);
        assert LiveFrom(s, p) == [j] + LiveFrom(s, p + 1);
      }
    }
  }

  ghost predicate Known(sends: seq<Send>, numbers: seq<nat>) {
    forall i :: 0 <= i < |numbers| ==> numbers[i] < |sends|
  }

  lemma {:induction false} OwedForConcat(sends: seq<Send>, a: seq<nat>, b: seq<nat>)
    requires Known(sends, a) && Known(sends, b)
    ensures Known(sends, a + b) && OwedFor(sends, a + b) == OwedFor(sends, a) + OwedFor(sends, b)
  {
    if b == [] {
      assert a + b == a;
    } else {
      OwedForConcat(sends, a, b[..|b| - 1]);
      assert (a + b)[..|a + b| - 1] == a + b[..|b| - 1];
      hide OwedTo;
      Regroup(OwedFor(sends, a), OwedFor(sends, b[..|b| - 1]), OwedTo(sends[b[|b| - 1]]));
    }
  }

  lemma {:induction false} FlushMakesOwed(s: State, p: nat)
    requires TableInv(s) && p <= |s.table.entries|
    ensures Known(s.sends, LiveFrom(s, p))
    ensures AllOwed(s.table.entries[p..]) == OwedFor(s.sends, LiveFrom(s, p))
    decreases |s.table.entries| - p
  {
    if p < |s.table.entries| {
      FlushMakesOwed(s, p + 1);
      assert s.table.entries[p..][1..] == s.table.entries[p + 1..];
      if s.table.entries[p].command.Some? {
        var k := LiveFrom(s, p)[0];
        assert HolderOf(s, p, k) && Held(s.table, s.sends[k]);
        OwedForConcat(s.sends, [k], LiveFrom(s, p + 1));
        assert OwedFor(s.sends, [k]) == OwedTo(s.sends[k]);
      }
    }
  }

  /**
   When a run ends with a flush, wherever senders, device and reply handler are, every send
   that was not rejected is answered or flushed, exactly once, and the callbacks made over
   the whole run, counting the one the handler is about to make, are exactly those the
   answered and flushed sends asked for, each with its own command and argument: first the
   answered ones in reply order, then the flushed ones by position.
   */
  lemma EverySendIsCalledBackOnce(init: State, actions: seq<Action>) returns (flushed: seq<nat>)
    requires Init(init)
    ensures var s := Run(init, actions);
      var settled := s.answered + flushed;
      && (forall k: nat :: multiset(settled)[k] == if k < |s.sends| && k !in s.rejected then 1 else 0)
      && Known(s.sends, settled)
      && s.made + Due(s.handling) + FlushFrom(s.table, 0).1 == OwedFor(s.sends, settled)
  {
    var s := Run(init, actions);
    flushed := LiveFrom(s, 0);
    hide Run, TransportInv;
    forall k: nat
      ensures multiset(s.answered + flushed)[k] == if k < |s.sends| && k !in s.rejected then 1 else 0
    {
      LiveFromOnce(s, 0, k);
      SettledOnce(s, k);
    }
    FlushMakesOwed(s, 0);
    FlushEffect(s.table);
    assert s.table.entries[0..] == s.table.entries;
    OwedForConcat(s.sends, s.answered, flushed);
  }

  lemma SettledOnce(s: State, k: nat)
    requires FlightInv(s)
    ensures multiset(s.answered)[k] + (if Live(s, k) then 1 else 0) ==
      if k < |s.sends| && k !in s.rejected then 1 else 0
  {
    assert Everywhere(s)[k] == if k < |s.sends| then 1 else 0;
  }
  /** What handling replies with these ids makes of a table, one after the other, and the callbacks. */
  function HandleIds(t: Table, ids: seq<u32>): (Table, seq<Event>)
    decreases |ids|
  {
    if ids == [] then
      (t, [])
    else
      var (next, made) := ReplyToCommand(t, ids[0]);
      var (after, more) := HandleIds(next, ids[1..]);
      (after, made + more)
  }

  lemma {:induction false} HandleIdsMore(t: Table, ids: seq<u32>, id: u32)
    ensures var (before, made) := HandleIds(t, ids);
      var (after, last) := ReplyToCommand(before, id);
      HandleIds(t, ids + [id]) == (after, made + last)
    decreases |ids|
  {
    hide ReplyToCommand;
    if ids == [] {
      assert ids + [id] == [id] && [id][1..] == [];
      var last := ReplyToCommand(t, id).1;
      assert last + [] == last && [] + last == last;
    } else {
      var (next, first) := ReplyToCommand(t, ids[0]);
      HandleIdsMore(next, ids[1..], id);
      assert (ids + [id])[1..] == ids[1..] + [id];
      var (before, made) := HandleIds(next, ids[1..]);
      Regroup(first, made, ReplyToCommand(before, id).1);
    }
  }

  ghost predicate Blank(t: Table) {
    forall p :: 0 <= p < |t.entries| ==> t.entries[p] == Unused(t.entries[p].next)
  }

  /**
   After the flush that ends a run no reply makes a callback, not the one in the handler's
   hand nor any other, whatever its id: nothing is called back a second time.
   */
  lemma NoCallbackAfterFlush(init: State, actions: seq<Action>, ids: seq<u32>)
    requires Init(init)
    ensures HandleIds(FlushFrom(Run(init, actions).table, 0).0, ids).1 == []
  {
    FlushBlanks(Run(init, actions));
    hide *;
    BlankIsSilent(FlushFrom(Run(init, actions).table, 0).0, ids);
  }

  lemma FlushBlanks(s: State)
    requires Inv(s)
    ensures Blank(FlushFrom(s.table, 0).0)
  {
    hide FlightInv, TransportInv, MadeInv;
    FlushEffect(s.table);
  }

  lemma {:induction false} BlankIsSilent(t: Table, ids: seq<u32>)
    requires Blank(t)
    ensures HandleIds(t, ids).1 == []
    decreases |ids|
  {
    if ids != [] {
      BlankReply(t, ids[0]);
      hide Blank, ReplyToCommand;
      BlankIsSilent(ReplyToCommand(t, ids[0]).0, ids[1..]);
    }
  }

  lemma BlankReply(t: Table, id: u32)
    requires Blank(t)
    ensures Blank(ReplyToCommand(t, id).0) && ReplyToCommand(t, id).1 == []
  {}
  // ---- what a send and a reply achieve ----------------------------------------------------

  /**
   A sender that sees the ring as it is pushes its stamped command exactly when there is room
   for it, and otherwise is turned away with the ring as it was.
   */
  lemma FinishSendPushes(s: State, i: nat)
    requires Inv(s) && i < |s.waiting|
    ensures s.waiting[i] < |s.sends| && Ring.Valid(s.outgoing)
    ensures var k, after := s.waiting[i], FinishSendStep(s, i, false);
      var send := s.sends[k];
      && IsMessage(send.record) && Ring.Valid(after.outgoing)
      && var record := WithId(send.record, GenerateId(s.seqno, send.position));
      && after.seqno == s.seqno + 1 && after.waiting == Without(s.waiting, i)
      && if Place(s.outgoing.head, s.outgoing.tail, |s.outgoing.mem|, |record|) != NoSpace then
           && after.pushed == s.pushed + [k] && after.inRing == s.inRing + [k] && after.rejected == s.rejected
           && Contents(after.outgoing) == Contents(s.outgoing) + [record] && after.table == s.table
         else
           && after.rejected == s.rejected + [k] && after.pushed == s.pushed && after.inRing == s.inRing
           && after.outgoing == s.outgoing && after.table == Remove(s.table, send.position).0
  {
    hide Inv, FinishSendStep, Place, Push, Contents, Remove, Ring.Valid, WithId, GenerateId, IsMessage, Without;
    FinishSendIs(s, i);
    RingInState(s);
    var send := s.sends[s.waiting[i]];
    MessageOf(s, s.waiting[i]);
    WithIdIsMessage(send.record, GenerateId(s.seqno, send.position));
    WellFormedMessage(WithId(send.record, GenerateId(s.seqno, send.position)));
    PushAppends(s.outgoing, WithId(send.record, GenerateId(s.seqno, send.position)));
  }

  lemma MessageOf(s: State, k: nat)
    requires Inv(s) && k < |s.sends|
    ensures IsMessage(s.sends[k].record)
  {}

  lemma WellFormedMessage(r: Record)
    requires IsMessage(r)
    ensures WellFormed(r)
  {}

  /** The two steps of a send that nothing comes between. */
  ghost function SendSteps(s: State, command: nat, record: Record, callback: Option<nat>, arg: nat): State
    requires Inv(s) && IsMessage(record)
  {
    BeginSendKeeps(s, command, record, callback, arg);
    var begun := BeginSendStep(s, command, record, callback, arg);
    if |begun.waiting| <= |s.waiting| then begun else FinishSendStep(begun, |s.waiting|, false)
  }

  /**
   Undisturbed, a send has the outcome of the send call: nothing for an operation that the
   channel does not take or without a free entry; otherwise the command is pushed under the
   next id, or, for lack of room, its entry is given back.
   */
  lemma SendAlone(s: State, chain: seq<nat>, command: nat, record: Record, callback: Option<nat>, arg: nat)
    requires Inv(s) && IsMessage(record) && CommandList.Valid(s.table, chain)
    ensures s.table.free.Some? ==> s.table.free.value < |s.table.entries|
    ensures s.outgoing.tail + 4 < |s.outgoing.mem| && s.outgoing.head <= |s.outgoing.mem|
    ensures 16 <= |record| && |record| + 4 < U32_MODULUS
    ensures var after := SendSteps(s, command, record, callback, arg);
      if !Accepts(s.channel, Read32(record, 12)) || chain == [] then
        after == s
      else
        var (outgoing, pushed) := Push(s.outgoing, WithId(record, GenerateId(s.seqno, chain[0])));
        after == s.(seqno := s.seqno + 1,
                    sends := s.sends + [Send(command, callback, arg, record, chain[0])],
                    outgoing := outgoing,
                    table := if pushed then Add(s.table, command, callback, arg).0 else s.table,
                    pushed := if pushed then s.pushed + [|s.sends|] else s.pushed,
                    inRing := if pushed then s.inRing + [|s.sends|] else s.inRing,
                    rejected := if pushed then s.rejected else s.rejected + [|s.sends|])
  {
    hide Inv, BeginSendStep, FinishSendStep, Add, Remove, CommandList.Valid, Push, Read32, Ring.Valid, WithId,
      GenerateId, IsMessage, Accepts;
    FreeInState(s);
    RingInState(s);
    RecordBounds(record);
    BeginSendKeeps(s, command, record, callback, arg);
    BeginSendIs(s, chain, command, record, callback, arg);
    if Accepts(s.channel, Read32(record, 12)) && chain != [] {
      var begun := BeginSendStep(s, command, record, callback, arg);
      FinishSendIs(begun, |s.waiting|);
      RemoveUndoesAdd(s.table, chain, command, callback, arg);
      assert Without(begun.waiting, |s.waiting|) == s.waiting;
    }
  }

  lemma FreeInState(s: State)
    requires Inv(s)
    ensures s.table.free.Some? ==> s.table.free.value < |s.table.entries|
  {
    FreeInTable(s);
  }

  lemma RingInState(s: State)
    requires Inv(s)
    ensures Ring.Valid(s.outgoing) && s.outgoing.tail + 4 < |s.outgoing.mem| && s.outgoing.head <= |s.outgoing.mem|
  {
    hide FlightInv, TableInv, MadeInv, Walk;
  }

  lemma RecordBounds(record: Record)
    requires IsMessage(record)
    ensures 16 <= |record| && |record| + 4 < U32_MODULUS
    ensures forall id :: |WithId(record, id)| == |record|
  {}

  lemma BeginSendIs(s: State, chain: seq<nat>, command: nat, record: Record, callback: Option<nat>, arg: nat)
    requires Inv(s) && IsMessage(record) && CommandList.Valid(s.table, chain)
    ensures 16 <= |record| && (s.table.free.Some? ==> s.table.free.value < |s.table.entries|)
    ensures BeginSendStep(s, command, record, callback, arg)
         == if !Accepts(s.channel, Read32(record, 12)) || chain == [] then
              s
            else
              s.(table := Add(s.table, command, callback, arg).0, waiting := s.waiting + [|s.sends|],
                 sends := s.sends + [Send(command, callback, arg, record, chain[0])])
  {
    hide FlightInv, TableInv, TransportInv, MadeInv, Add, CommandList.Valid, Read32, Accepts;
    FreeInState(s);
    AddTakesFirst(s.table, chain, command, callback, arg);
    AllInUse(s.table, chain);
  }

  lemma FinishSendIs(s: State, i: nat)
    requires Inv(s) && i < |s.waiting|
    ensures s.waiting[i] < |s.sends|
    ensures s.outgoing.tail + 4 < |s.outgoing.mem| && s.outgoing.head <= |s.outgoing.mem|
    ensures var k := s.waiting[i];
      var send := s.sends[k];
      && 16 <= |send.record| && |send.record| + 4 < U32_MODULUS
      && var (outgoing, pushed) := Push(s.outgoing, WithId(send.record, GenerateId(s.seqno, send.position)));
         FinishSendStep(s, i, false)
         == s.(seqno := s.seqno + 1, waiting := Without(s.waiting, i), outgoing := outgoing,
               table := if pushed then s.table else Remove(s.table, send.position).0,
               pushed := if pushed then s.pushed + [k] else s.pushed,
               inRing := if pushed then s.inRing + [k] else s.inRing,
               rejected := if pushed then s.rejected else s.rejected + [k])
  {
    hide FlightInv, TableInv, TransportInv, MadeInv, Remove, Read32, Ring.Valid, WithId, Without, GenerateId, IsMessage,
      Contents, Place;
    RingInState(s);
    WaitingSend(s, i);
    var record := s.sends[s.waiting[i]].record;
    var stamped := WithId(record, GenerateId(s.seqno, s.sends[s.waiting[i]].position));
    RecordBounds(record);
    WithIdIsMessage(record, GenerateId(s.seqno, s.sends[s.waiting[i]].position));
    WellFormedMessage(stamped);
    PushAppends(s.outgoing, stamped);
  }

  lemma WaitingSend(s: State, i: nat)
    requires Inv(s) && i < |s.waiting|
    ensures s.waiting[i] < |s.sends| && IsMessage(s.sends[s.waiting[i]].record)
  {
    Located(s, s.waiting[i]);
    MessageOf(s, s.waiting[i]);
  }
  /** The device takes the oldest command, if there is one. */
  lemma DeviceTakeIs(s: State)
    requires Inv(s)
    ensures Ring.Valid(s.outgoing) && |s.inRing| == |Contents(s.outgoing)|
    ensures var after, queued := DeviceTakeStep(s), Contents(s.outgoing);
      if queued == [] then
        after == s
      else
        && Ring.Valid(after.outgoing) && Contents(after.outgoing) == queued[1..] && 8 <= |queued[0]|
        && after == s.(outgoing := after.outgoing, inRing := s.inRing[1..],
                       device := s.device + [IdOf(queued[0])], inDevice := s.inDevice + [s.inRing[0]])
  {
    hide FlightInv, TableInv, MadeInv, Walk, Pull, Read32, Contents, Ring.Valid;
    RingInState(s);
    PullTakesOldest(s.outgoing, true);
  }

  /** A reply of the device is queued if there is room for it. */
  lemma DeviceReplyIs(s: State, i: nat, reply: Record)
    requires Inv(s) && i < |s.device| && IsMessage(reply)
    ensures Ring.Valid(s.replies) && |s.inDevice| == |s.device|
    ensures var after, q := DeviceReplyStep(s, i, reply), s.replies;
      if Place(q.head, q.tail, |q.mem|, |reply|) == NoSpace then
        after == s
      else
        && Ring.Valid(after.replies) && Contents(after.replies) == Contents(q) + [reply]
        && after == s.(replies := after.replies, inReplies := s.inReplies + [s.inDevice[i]],
                       device := Without(s.device, i), inDevice := Without(s.inDevice, i))
  {
    hide FlightInv, TableInv, MadeInv, Walk, Push, Place, Read32, Contents, Ring.Valid, Without, Tagged, AllMessages;
    RepliesInState(s);
    WellFormedMessage(reply);
    PushAppends(s.replies, reply);
  }

  lemma RepliesInState(s: State)
    requires Inv(s)
    ensures Ring.Valid(s.replies) && AllMessages(Contents(s.replies)) && |s.inReplies| == |Contents(s.replies)|
    ensures |s.inDevice| == |s.device|
  {
    hide FlightInv, TableInv, MadeInv, Walk;
  }

  /** The three steps of handling a reply. */
  ghost function HandleSteps(s: State): State
    requires Inv(s)
  {
    HostPullKeeps(s);
    HostRemoveKeeps(HostPullStep(s));
    HostCallStep(HostRemoveStep(HostPullStep(s)))
  }

  /** Undisturbed, the oldest reply is handled: its id names the entry that is freed and called back. */
  lemma ReplyAlone(s: State)
    requires Inv(s) && s.handling.Idle?
    ensures Ring.Valid(s.replies) && AllMessages(Contents(s.replies)) && |s.inReplies| == |Contents(s.replies)|
    ensures var after, queued := HandleSteps(s), Contents(s.replies);
      if queued == [] then
        after == s
      else
        var (table, events) := ReplyToCommand(s.table, IdOf(queued[0]));
        && Ring.Valid(after.replies) && Contents(after.replies) == queued[1..]
        && after == s.(replies := after.replies, inReplies := s.inReplies[1..], table := table, inHand := [],
                       made := s.made + events, answered := s.answered + [s.inReplies[0]])
  {
    hide Inv, HostPullStep, ReplyToCommand, Contents, Ring.Valid, IsMessage, AllMessages;
    RepliesInState(s);
    HostPullKeeps(s);
    HostPullIs(s);
  }

  lemma HostPullIs(s: State)
    requires Inv(s) && s.handling.Idle?
    ensures Ring.Valid(s.replies) && |s.inReplies| == |Contents(s.replies)| && AllMessages(Contents(s.replies))
    ensures var after, queued := HostPullStep(s), Contents(s.replies);
      if queued == [] then
        after == s
      else
        && Ring.Valid(after.replies) && Contents(after.replies) == queued[1..]
        && after == s.(replies := after.replies, inReplies := s.inReplies[1..],
                       handling := Pulled(IdOf(queued[0])), inHand := [s.inReplies[0]])
  {
    hide FlightInv, TableInv, MadeInv, TransportInv, Walk, Pull, Read32, Contents, Ring.Valid, IsMessage;
    RepliesInState(s);
    PullTakesOldest(s.replies, true);
  }

  /**
   The round trip: on a quiet channel with a free entry and room in both rings, a command
   that is sent, taken, answered under its id and handled makes exactly the callback it asked
   for, and table, rings and device are as before.
   */
  lemma RoundTrip(s: State, chain: seq<nat>, command: nat, record: Record, callback: Option<nat>, arg: nat,
                  reply: Record)
    requires Inv(s) && s.handling.Idle? && s.device == []
    requires Ring.Valid(s.outgoing) && Contents(s.outgoing) == []
    requires Ring.Valid(s.replies) && Contents(s.replies) == []
    requires CommandList.Valid(s.table, chain) && chain != []
    requires IsMessage(record) && IsMessage(reply) && Accepts(s.channel, Read32(record, 12))
    requires IdOf(reply) == GenerateId(s.seqno, chain[0])
    requires Place(s.outgoing.head, s.outgoing.tail, |s.outgoing.mem|, |record|) != NoSpace
    requires Place(s.replies.head, s.replies.tail, |s.replies.mem|, |reply|) != NoSpace
    ensures var sent := SendSteps(s, command, record, callback, arg);
      && Inv(sent) && Inv(DeviceTakeStep(sent)) && |DeviceTakeStep(sent).device| == 1
      && DeviceTakeStep(sent).device[0] == IdOf(reply)
      && var replied := DeviceReplyStep(DeviceTakeStep(sent), 0, reply);
      && Inv(replied)
      && var after := HandleSteps(replied);
      && after.made == s.made + (if callback.Some? then [Event(callback.value, Some(command), arg)] else [])
      && after.answered == s.answered + [|s.sends|] && after.table == s.table && after.device == []
      && Ring.Valid(after.outgoing) && Contents(after.outgoing) == []
      && Ring.Valid(after.replies) && Contents(after.replies) == []
  {
    hide *;
    RecordBounds(record);
    SendAlone(s, chain, command, record, callback, arg);
    WithIdIsMessage(record, GenerateId(s.seqno, chain[0]));
    var stamped := WithId(record, GenerateId(s.seqno, chain[0]));
    WellFormedMessage(stamped);
    PushAppends(s.outgoing, stamped);
    SendKeeps(s, command, record, callback, arg);
    var sent := SendSteps(s, command, record, callback, arg);
    DeviceTakeIs(sent);
    assert Contents(sent.outgoing) == [stamped];
    DeviceTakeKeeps(sent);
    var taken := DeviceTakeStep(sent);
    DeviceReplyIs(taken, 0, reply);
    DeviceReplyKeeps(taken, 0, reply);
    var replied := DeviceReplyStep(taken, 0, reply);
    ReplyAlone(replied);
    PositionsFit(s, chain);
    AddedEntryReplies(s.table, chain, command, callback, arg, s.seqno);
    WithoutOnly(taken.device);
    assert Contents(replied.replies) == [reply];
  }

  lemma WithoutOnly<T>(c: seq<T>)
    requires |c| == 1
    ensures Without(c, 0) == []
  {}

  lemma SendKeeps(s: State, command: nat, record: Record, callback: Option<nat>, arg: nat)
    requires Inv(s) && IsMessage(record)
    ensures Inv(SendSteps(s, command, record, callback, arg))
  {
    hide Inv, BeginSendStep, FinishSendStep;
    BeginSendKeeps(s, command, record, callback, arg);
    var begun := BeginSendStep(s, command, record, callback, arg);
    if |begun.waiting| > |s.waiting| {
      FinishSendKeeps(begun, |s.waiting|, false);
    }
  }

  lemma PositionsFit(s: State, chain: seq<nat>)
    requires Inv(s) && CommandList.Valid(s.table, chain) && chain != []
    ensures chain[0] < |s.table.entries| <= POSITIONS
  {
    AllInUse(s.table, chain);
  }

  /** A reply under the id of a command just added frees its entry again and makes its callback. */
  lemma AddedEntryReplies(t: Table, chain: seq<nat>, command: nat, callback: Option<nat>, arg: nat, seqno: nat)
    requires CommandList.Valid(t, chain) && chain != [] && chain[0] < |t.entries| <= POSITIONS
    requires t.free.Some? ==> t.free.value < |t.entries|
    ensures ReplyToCommand(Add(t, command, callback, arg).0, GenerateId(seqno, chain[0]))
         == (t, if callback.Some? then [Event(callback.value, Some(command), arg)] else [])
  {
    AddTakesFirst(t, chain, command, callback, arg);
    RemoveUndoesAdd(t, chain, command, callback, arg);
    IdRoundTrip(seqno, chain[0]);
    hide CommandList.Valid, GenerateId, IdToPosition, Add;
  }
}
