/** The command table and the send and reply paths around it, updated in place. */
module CommandChannels {
  import opened Bytes
  import opened FreeChain
  import opened MessageQueues
  import opened Options
  import CL = CommandList
  import CT = CommandTracking
  import Ring

  class CommandTable {
    const entries: array<CL.Entry>
    var free: Link

    ghost function State(): CL.Table
      reads this, entries
    {
      CL.Table(entries[..], free)
    }

    /** All entries free, each linked to the next. */
    constructor (size: nat)
      requires 0 < size
      ensures fresh(entries) && entries.Length == size
      ensures CL.Valid(State(), CountUp(0, size))
    {
      var base := new CL.Entry[size](_ => CL.Unused(None));
      var index := 0;
      while index < size - 1
        invariant 0 <= index <= size - 1
        invariant forall i :: 0 <= i < size ==> base[i] == CL.Unused(if i < index then Some(i + 1) else None)
        modifies base
      {
        base[index] := CL.Unused(Some(index + 1));
        index := index + 1;
      }
      base[index] := CL.Unused(None);
      entries, free := base, Some(0);
      new;
      FreshChain(CL.Links(entries[..]), 0);
      forall p | 0 <= p < size
        ensures p in CountUp(0, size)
      {
        CountUpHas(0, size, p);
      }
    }

    method Add(command: nat, callback: Option<nat>, arg: nat) returns (position: Option<nat>)
      requires free.Some? ==> free.value < entries.Length
      modifies this, entries
      ensures (State(), position) == CL.Add(old(State()), command, callback, arg)
    {
      if free.None? {
        return None;
      }
      var entry := free.value;
      free := entries[entry].next;
      entries[entry] := entries[entry].(command := Some(command), callback := callback, arg := arg);
      position := Some(entry);
    }

    /** Blanks any position in range and hands out what it held. */
    method Remove(position: nat) returns (entry: Option<CL.Entry>)
      modifies this, entries
      ensures (State(), entry) == CL.Remove(old(State()), position)
    {
      if position >= entries.Length {
        return None;
      }
      entry := Some(entries[position].(next := None));
      entries[position] := CL.Unused(free);
      free := Some(position);
    }

    /** Removes every position in order, making the callbacks found; returns them as made. */
    method Flush() returns (made: seq<CL.Event>)
      modifies this, entries
      ensures (State(), made) == CL.FlushFrom(old(State()), 0)
    {
      hide CL.FlushFrom, CL.FlushGoesOn, CL.Remove, CL.Owed;
      made := [];
      var index := 0;
      ghost var whole := CL.FlushFrom(State(), 0);
      CL.FlushStarts(State());
      while index < entries.Length
        invariant index <= entries.Length == |State().entries| && CL.FlushGoesOn(whole, State(), index, made)
      {
        CL.FlushTurn(whole, State(), index, made);
        var entry := Remove(index);
        made := made + CL.Owed(entry.value);
        index := index + 1;
      }
      CL.FlushEnds(whole, State(), index, made);
    }
  }

  /** What the table and the callbacks made become when replies are handled in order. */
  ghost function HandleReplies(t: CL.Table, replies: seq<Ring.Record>): (CL.Table, seq<CL.Event>)
    requires CT.AllMessages(replies)
  {
    if replies == [] then
      (t, [])
    else
      var (before, made) := HandleReplies(t, replies[..|replies| - 1]);
      var (after, last) := CT.ReplyToCommand(before, CT.IdOf(replies[|replies| - 1]));
      (after, made + last)
  }

  /** It does not matter whether the replies are told from the first on or up to the last. */
  lemma {:induction false} HandleRepliesIsFold(t: CL.Table, replies: seq<Ring.Record>)
    requires CT.AllMessages(replies)
    ensures HandleReplies(t, replies) == CT.HandleIds(t, CT.Ids(replies))
    decreases |replies|
  {
    hide CT.ReplyToCommand, CT.IdOf, Read32;
    if replies != [] {
      var k := |replies| - 1;
      HandleRepliesIsFold(t, replies[..k]);
      CT.HandleIdsMore(t, CT.Ids(replies[..k]), CT.IdOf(replies[k]));
      assert CT.Ids(replies) == CT.Ids(replies[..k]) + [CT.IdOf(replies[k])];
    }
  }

  datatype Status = Sent | Invalid | Full

  /** The buffer begins with a message, as long as its length word says; what is behind that is not sent. */
  predicate Holds(b: seq<byte>) {
    CT.HEADER <= |b| && Read32(b, 0) <= |b| && CT.IsMessage(b[..Read32(b, 0)])
  }

  function Message(b: seq<byte>): Ring.Record
    requires Holds(b)
  {
    b[..Read32(b, 0)]
  }

  lemma Stamped(b: seq<byte>, id: u32)
    requires Holds(b)
    ensures Holds(Write(b, 4, Word(id))) && Message(Write(b, 4, Word(id))) == CT.WithId(Message(b), id)
  {
    var w, n := Write(b, 4, Word(id)), Read32(b, 0);
    CT.WithIdIsMessage(b[..n], id);
    Read32Same(w, 0, b, 0);
    assert w[..n] == Write(b[..n], 4, Word(id));
  }

  /** Rounding does not change the length of a message. */
  lemma MessageRounded(b: seq<byte>)
    requires Holds(b)
    ensures Ring.RoundUp(Read32(b, 0)) == Read32(b, 0) && Ring.WellFormed(Message(b))
  {}

  lemma HandleOneMore(t: CL.Table, replies: seq<Ring.Record>, n: nat)
    requires CT.AllMessages(replies) && n < |replies|
    ensures CT.AllMessages(replies[..n]) && CT.AllMessages(replies[..n + 1]) && CT.IsMessage(replies[n])
    ensures var (before, made) := HandleReplies(t, replies[..n]);
      var (after, last) := CT.ReplyToCommand(before, CT.IdOf(replies[n]));
      HandleReplies(t, replies[..n + 1]) == (after, made + last)
    ensures replies[n..][0] == replies[n] && replies[n..][1..] == replies[n + 1..]
  {
    assert replies[..n + 1][..n] == replies[..n];
    hide CT.IsMessage, CT.IdOf, CT.ReplyToCommand;
  }

  class CommandChannel {
    const channel: CT.Channel
    const table: CommandTable
    const outgoing: MessageQueue
    const replies: MessageQueue
    var seqno: nat

    constructor (channel: CT.Channel, table: CommandTable, outgoing: MessageQueue, replies: MessageQueue)
      ensures this.channel == channel && this.table == table
      ensures this.outgoing == outgoing && this.replies == replies && seqno == 0
    {
      this.channel, this.table, this.outgoing, this.replies := channel, table, outgoing, replies;
      seqno := 0;
    }

    ghost predicate Valid(chain: seq<nat>)
      reads this, table, table.entries, outgoing, outgoing.memory, replies, replies.memory
    {
      && CL.Valid(table.State(), chain)
      && outgoing.Valid() && replies.Valid()
      && outgoing != replies && outgoing.memory != replies.memory
    }

    /** Finds the command a position and pushes it under a new id; a full ring undoes all of it. */
    method Send(command: nat, buffer: array?<byte>, callback: Option<nat>, arg: nat, ghost chain: seq<nat>)
      returns (status: Status)
      requires Valid(chain)
      requires buffer != null ==>
        Holds(buffer[..]) && buffer != outgoing.memory && buffer != replies.memory
      modifies this`seqno, table, table.entries, outgoing, outgoing.memory
      modifies if buffer == null then {} else {buffer}
      ensures status == Invalid <==> buffer == null || !CT.Accepts(channel, Read32(old(buffer[..]), 12))
      ensures status == Invalid || chain == [] ==>
        table.State() == old(table.State()) && outgoing.State() == old(outgoing.State())
      ensures status != Invalid && chain == [] ==> status == Full
      ensures status != Invalid && chain != [] ==>
        var id := CT.GenerateId(old(seqno), chain[0]);
        && seqno == old(seqno) + 1
        && Holds(buffer[..]) && Message(buffer[..]) == CT.WithId(Message(old(buffer[..])), id)
        && (outgoing.State(), status == Sent) == Ring.Push(old(outgoing.State()), Message(buffer[..]))
        && table.State() == (if status == Sent
             then CL.Add(old(table.State()), command, callback, arg).0 else old(table.State()))
      ensures Valid(if status == Sent then chain[1..] else chain)
    {
      hide CL.Valid, CL.Add, CL.Remove, CT.WithId, CT.GenerateId, Read32, Ring.Push, Ring.Valid,
        Ring.Walk;
      if buffer == null {
        return Invalid;
      }
      var operation := Read32(buffer[..], 12);
      if !CT.Accepts(channel, operation) {
        return Invalid;
      }
      CL.AddTakesFirst(table.State(), chain, command, callback, arg);
      var position := table.Add(command, callback, arg);
      if position.None? {
        return Full;
      }
      CL.RemoveUndoesAdd(old(table.State()), chain, command, callback, arg);
      var pushed := PushStamped(buffer, position.value);
      if !pushed {
        var _ := table.Remove(position.value);
        return Full;
      }
      status := Sent;
    }

    /** Pushes a command under a new id. */
    method PushStamped(buffer: array<byte>, position: nat) returns (pushed: bool)
      requires outgoing.Valid() && Holds(buffer[..]) && buffer != outgoing.memory
      modifies this`seqno, outgoing, outgoing.memory, buffer
      ensures outgoing.Valid() && seqno == old(seqno) + 1 && Holds(buffer[..])
      ensures Message(buffer[..]) == CT.WithId(Message(old(buffer[..])), CT.GenerateId(old(seqno), position))
      ensures (outgoing.State(), pushed) == Ring.Push(old(outgoing.State()), Message(buffer[..]))
    {
      hide *;
      var id := CT.GenerateId(seqno, position);
      seqno := seqno + 1;
      StampId(buffer, id);
      var length := Length(buffer);
      pushed := outgoing.Push(buffer[..], length);
    }

    method Length(buffer: array<byte>) returns (length: u32)
      requires Holds(buffer[..])
      ensures Ring.RoundUp(length) <= buffer.Length && buffer[..][..Ring.RoundUp(length)] == Message(buffer[..])
      ensures Ring.WellFormed(buffer[..][..Ring.RoundUp(length)])
    {
      MessageRounded(buffer[..]);
      hide Read32, Ring.RoundUp, Ring.WellFormed, CT.IsMessage;
      length := Read32(buffer[..], 0);
    }

    method StampId(buffer: array<byte>, id: u32)
      requires Holds(buffer[..])
      modifies buffer
      ensures Holds(buffer[..]) && Message(buffer[..]) == CT.WithId(Message(old(buffer[..])), id)
    {
      Stamped(buffer[..], id);
      hide Message, Read32, CT.IsMessage;
      var word := Word(id);
      forall i | 0 <= i < 4 {
        buffer[4 + i] := word[i];
      }
      assert buffer[..] == Write(old(buffer[..]), 4, word);
    }

    /**
     Handles up to 20 replies; asks to be run again when the budget is used up. Memory is
     found for the first `grants` replies and not for the next: the NULL it is given for that
     one is used, and the handler comes no further.
     */
    method UpdateHandler(grants: nat) returns (made: seq<CL.Event>, again: bool, crashed: bool)
      requires replies.Valid() && CT.AllMessages(replies.Contents())
      modifies table, table.entries, replies`head
      ensures replies.Valid()
      ensures var pending := |old(replies.Contents())|;
        var handled := Min(20, Min(pending, grants));
        && replies.Contents() == old(replies.Contents())[handled..]
        && (table.State(), made) == HandleReplies(old(table.State()), old(replies.Contents())[..handled])
        && (again <==> 20 <= pending && 20 <= grants)
        && (crashed <==> grants < 20 && grants < pending)
    {
      hide *;
      made, crashed := [], false;
      var budget, left := 20, grants;
      ghost var first, pending, handled := table.State(), replies.Contents(), 0;
      HandledNone();
      while budget > 0
        invariant 0 <= budget && handled == 20 - budget && handled + left == grants && !crashed
        invariant Handled(first, pending, handled, made)
      {
        budget := budget - 1;
        HandledIs(first, pending, handled, made);
        var empty := replies.IsEmpty();
        if empty {
          MinIs(handled, |pending|, grants);
          again := false;
          return;
        }
        var callbacks;
        callbacks, crashed := HandleOne(0 < left, first, pending, handled, made);
        if crashed {
          HandledIs(first, pending, handled, made);
          MinIs(handled, |pending|, grants);
          again := false;
          return;
        }
        made := made + callbacks;
        left := left - 1;
        handled := handled + 1;
      }
      HandledIs(first, pending, handled, made);
      MinIs(handled, |pending|, grants);
      again := true;
    }

    static lemma MinIs(handled: nat, pending: nat, grants: nat)
      requires handled <= 20 && handled <= pending && handled <= grants
      requires handled == 20 || handled == pending || handled == grants
      ensures Min(20, Min(pending, grants)) == handled
    {}

    /** The first `n` pending replies are handled, with these callbacks. */
    ghost predicate Handled(first: CL.Table, pending: seq<Ring.Record>, n: nat, made: seq<CL.Event>)
      reads table, table.entries, replies, replies.memory
    {
      && CT.AllMessages(pending) && n <= |pending|
      && replies.Valid() && replies.Contents() == pending[n..]
      && (table.State(), made) == HandleReplies(first, pending[..n])
    }

    lemma HandledNone()
      requires replies.Valid() && CT.AllMessages(replies.Contents())
      ensures Handled(table.State(), replies.Contents(), 0, [])
    {
      hide CT.AllMessages, MessageQueue.Valid, MessageQueue.Contents;
    }

    lemma HandledIs(first: CL.Table, pending: seq<Ring.Record>, n: nat, made: seq<CL.Event>)
      requires Handled(first, pending, n, made)
      ensures CT.AllMessages(pending) && n <= |pending| && replies.Valid() && replies.Contents() == pending[n..]
      ensures replies.Contents() == [] <==> n == |pending|
      ensures (table.State(), made) == HandleReplies(first, pending[..n])
    {
      hide CT.AllMessages, HandleReplies, MessageQueue.Valid, MessageQueue.Contents;
    }

    /** Handles the next reply, if there is memory for it. */
    method HandleOne(granted: bool, ghost first: CL.Table, ghost pending: seq<Ring.Record>, ghost n: nat,
                     ghost made: seq<CL.Event>)
      returns (callbacks: seq<CL.Event>, crashed: bool)
      requires Handled(first, pending, n, made) && n < |pending|
      modifies table, table.entries, replies`head
      ensures crashed <==> !granted
      ensures if crashed then Handled(first, pending, n, made) else Handled(first, pending, n + 1, made + callbacks)
    {
      hide CT.AllMessages, CT.IsMessage, CT.IdOf, CT.ReplyToCommand, HandleReplies, Ring.Pull,
        MessageQueue.Valid, MessageQueue.Contents;
      HandleOneMore(first, pending, n);
      var reply := replies.Pull(granted);
      if reply.None? {
        return [], true;
      }
      callbacks := ReplyToCommand(reply.value);
      crashed := false;
    }

    method ReplyToCommand(reply: seq<byte>) returns (made: seq<CL.Event>)
      requires CT.IsMessage(reply)
      modifies table, table.entries
      ensures (table.State(), made) == CT.ReplyToCommand(old(table.State()), CT.IdOf(reply))
    {
      var position := CT.IdToPosition(CT.IdOf(reply));
      var entry := table.Remove(position);
      made := [];
      if entry.Some? && entry.value.callback.Some? {
        made := [CL.Event(entry.value.callback.value, entry.value.command, entry.value.arg)];
      }
    }
  }
}
