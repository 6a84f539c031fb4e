/**
 The driver's queue object: shared memory and the two control registers, updated in
 place. Each method is tied to the function of module Ring that specifies it, and to
 the abstract FIFO.
 */
module MessageQueues {
  import opened Bytes
  import opened Options
  import Ring

  class MessageQueue {
    const memory: array<byte>
    var head: u32
    var tail: u32

    ghost function State(): Ring.Queue
      reads this, memory
    {
      Ring.Queue(memory[..], head, tail)
    }

    ghost predicate Valid()
      reads this, memory
    {
      Ring.Valid(State())
    }

    ghost function Contents(): seq<Ring.Record>
      requires Valid()
      reads this, memory
    {
      Ring.Contents(State())
    }

    /** Attaches to control registers and memory set up by the device. */
    constructor (memory: array<byte>, head: u32, tail: u32)
      ensures this.memory == memory && State() == Ring.Queue(memory[..], head, tail)
    {
      this.memory := memory;
      this.head, this.tail := head, tail;
    }

    /** Discards everything; the other side must be quiescent. */
    method Reset()
      modifies this
      ensures State() == Ring.Queue(memory[..], 0, 0)
      ensures 4 < memory.Length < U32_MODULUS ==> Valid() && Contents() == []
    {
      tail := 0;
      head := 0;
    }

    method IsEmpty() returns (empty: bool)
      requires Valid()
      ensures empty <==> Contents() == []
    {
      Ring.EmptyExactlyWhenRegistersMeet(State());
      empty := tail == head;
    }

    method Enqueue(at: u32, element: seq<byte>, length: u32)
      requires length <= |element| && at + length <= memory.Length
      requires at + length < U32_MODULUS
      modifies this`tail, memory
      ensures memory[..] == Write(old(memory[..]), at, element[..length])
      ensures tail == at + length
    {
      forall i | 0 <= i < length {
        memory[at + i] := element[i];
      }
      tail := at + length;
    }

    /** Copies the rounded length of `element` into the ring, or reports that there is no room. */
    method Push(element: seq<byte>, length: nat) returns (pushed: bool)
      requires Valid()
      requires Ring.RoundUp(length) <= |element| && Ring.WellFormed(element[..Ring.RoundUp(length)])
      modifies this, memory
      ensures var record := element[..Ring.RoundUp(length)];
        && (State(), pushed) == Ring.Push(old(State()), record)
        && Valid()
        && Contents() == (if pushed then old(Contents()) + [record] else old(Contents()))
        && (!pushed ==> Ring.Place(old(head), old(tail), memory.Length, |record|) == Ring.NoSpace)
    {
      var length := (length + 3) / 4 * 4;
      ghost var before, record := State(), element[..length];
      Ring.PushAppends(before, record);
      PushIs(before, record);
      Ring.Bounds(before);
      assert |record| == length && length + 4 < U32_MODULUS;
      hide *;
      pushed := PushRounded(element, length);
    }

    /** The decision and the writes, for a length already rounded. */
    method PushRounded(element: seq<byte>, length: nat) returns (pushed: bool)
      requires length <= |element| && length + 4 < U32_MODULUS
      requires tail + 4 < memory.Length < U32_MODULUS && head <= memory.Length
      modifies this, memory
      ensures (State(), pushed) == Pushed(old(State()), element[..length])
    {
      assert (length % U32_MODULUS + 4) % U32_MODULUS == length + 4;
      hide Word, Write, Read32;
      var space := (length % U32_MODULUS + 4) % U32_MODULUS;
      pushed := true;
      if tail >= head {
        if Ring.Diff(tail, memory.Length) > space {
          Enqueue(tail, element, length);
        } else if head > space {
          Mark(tail);
          Enqueue(0, element, length);
        } else {
          pushed := false;
        }
      } else {
        if Ring.Diff(head, tail) > space {
          Enqueue(tail, element, length);
        } else {
          pushed := false;
        }
      }
    }

    /** A push, decided on plain distances. */
    static function Pushed(q: Ring.Queue, r: Ring.Record): (Ring.Queue, bool)
      requires q.tail + 4 < |q.mem| && q.head <= |q.mem|
    {
      if (if q.tail >= q.head then Ring.Diff(q.tail, |q.mem|) else Ring.Diff(q.head, q.tail)) > |r| + 4 then
        (Ring.Queue(Write(q.mem, q.tail, r), q.head, q.tail + |r|), true)
      else if q.tail >= q.head && q.head > |r| + 4 then
        (Ring.Queue(Write(Write(q.mem, q.tail, Word(Ring.MARKER)), 0, r), q.head, |r|), true)
      else
        (q, false)
    }

    /** Writes the marker that sends the consumer back to the start. */
    method Mark(at: u32)
      requires at + 4 <= memory.Length
      modifies memory
      ensures memory[..] == Write(old(memory[..]), at, Word(Ring.MARKER))
    {
      var marker := Word(Ring.MARKER);
      hide Word, Read32;
      forall i | 0 <= i < 4 {
        memory[at + i] := marker[i];
      }
      assert memory[..] == Write(old(memory[..]), at, marker);
    }

    static lemma PushIs(q: Ring.Queue, r: Ring.Record)
      requires q.tail + 4 < |q.mem| && q.head <= |q.mem| && |r| + 4 < U32_MODULUS
      ensures Ring.Push(q, r) == Pushed(q, r)
      ensures !Pushed(q, r).1 <==> Ring.Place(q.head, q.tail, |q.mem|, |r|) == Ring.NoSpace
    {
      Ring.PlaceMeans(q.head, q.tail, |q.mem|, |r|);
      hide Word, Read32, Ring.Place;
    }

    /** Takes the oldest record, skipping a marker; `granted` says whether memory for the copy is found. */
    method Pull(granted: bool) returns (element: Option<seq<byte>>)
      requires Valid()
      modifies this`head
      ensures (State(), element) == Ring.Pull(old(State()), granted)
      ensures Valid()
      ensures element == if granted && old(Contents()) != [] then Some(old(Contents())[0]) else None
      ensures Contents() == if element.Some? then old(Contents())[1..] else old(Contents())
    {
      Ring.PullTakesOldest(State(), granted);
      hide Ring.Valid, Ring.Pull, Ring.Contents;
      element := PullLoop(granted);
    }

    method PullLoop(granted: bool) returns (element: Option<seq<byte>>)
      requires Ring.Valid(State())
      modifies this`head
      ensures (State(), element) == Ring.Pull(old(State()), granted)
    {
      hide Ring.Valid, Ring.Pull, Read32;
      element := None;
      while head != tail
        invariant Ring.Valid(State()) && element == None
        invariant Ring.Pull(State(), granted) == Ring.Pull(old(State()), granted)
        decreases if head > tail then 1 else 0
      {
        Ring.PullTurn(State(), granted);
        var length := Word32(head);
        if length != Ring.MARKER {
          if granted {
            element := Some(memory[head..head + length]);
            head := head + length;
          }
          return;
        }
        head := 0;
      }
      Ring.PullNothing(State(), granted);
    }

    function Word32(at: u32): u32
      requires at + 4 <= memory.Length
      reads memory
    {
      Read32(memory[..], at)
    }
  }
}
