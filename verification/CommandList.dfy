/**
 The table in which sent commands wait for their replies: an array of entries whose
 unused ones form a free list. Commands, callbacks and arguments are opaque numbers.
 */
module CommandList {
  import opened FreeChain
  import opened Options
  import opened Sequences

  datatype Entry = Entry(next: Link, command: Option<nat>, callback: Option<nat>, arg: nat)

  datatype Table = Table(entries: seq<Entry>, free: Link)

  /** A callback made: which one, on which command, with which argument. */
  datatype Event = Event(callback: nat, command: Option<nat>, arg: nat)

  function Unused(next: Link): Entry {
    Entry(next, None, None, 0)
  }

  function Links(entries: seq<Entry>): (links: seq<Link>)
    ensures |links| == |entries|
    ensures forall i :: 0 <= i < |entries| ==> links[i] == entries[i].next
  {
    seq(|entries|, i requires 0 <= i < |entries| => entries[i].next)
  }

  /** The free list is `chain`; its entries are blank and all others hold a command. */
  ghost predicate Valid(t: Table, chain: seq<nat>) {
    && 0 < |t.entries|
    && IsChain(Links(t.entries), t.free, chain)
    && forall p :: 0 <= p < |t.entries| ==>
         if p in chain then t.entries[p] == Unused(t.entries[p].next) else t.entries[p].command.Some?
  }

  /** Takes the first free entry for a command, or reports that there is none. */
  function Add(t: Table, command: nat, callback: Option<nat>, arg: nat): (Table, Option<nat>)
    requires t.free.Some? ==> t.free.value < |t.entries|
  {
    if t.free.None? then
      (t, None)
    else
      var p := t.free.value;
      (Table(t.entries[p := Entry(t.entries[p].next, Some(command), callback, arg)], t.entries[p].next), Some(p))
  }

  /** Blanks an entry and puts it in front of the free list, whether or not it was in use. */
  function Remove(t: Table, position: nat): (Table, Option<Entry>)
  {
    if position < |t.entries| then
      (Table(t.entries[position := Unused(t.free)], Some(position)), Some(t.entries[position].(next := None)))
    else
      (t, None)
  }

  /** The callback owed for an entry that is flushed. */
  function Owed(e: Entry): seq<Event> {
    if e.command.Some? && e.callback.Some? then [Event(e.callback.value, e.command, e.arg)] else []
  }

  /** Removes every position from `index` on, in order. */
  function FlushFrom(t: Table, index: nat): (Table, seq<Event>)
    requires index <= |t.entries|
    decreases |t.entries| - index
  {
    if index == |t.entries| then
      (t, [])
    else
      var (removed, entry) := Remove(t, index);
      var (after, events) := FlushFrom(removed, index + 1);
      (after, Owed(entry.value) + events)
  }

  /** What a whole flush yields, told from the middle of it. */
  ghost predicate FlushGoesOn(whole: (Table, seq<Event>), t: Table, index: nat, made: seq<Event>) {
    && index <= |t.entries|
    && var (after, events) := FlushFrom(t, index);
    whole == (after, made + events)
  }

  lemma FlushStarts(t: Table)
    ensures FlushGoesOn(FlushFrom(t, 0), t, 0, [])
  {
    assert [] + FlushFrom(t, 0).1 == FlushFrom(t, 0).1;
    hide FlushFrom;
  }

  lemma FlushTurn(whole: (Table, seq<Event>), t: Table, index: nat, made: seq<Event>)
    requires FlushGoesOn(whole, t, index, made) && index < |t.entries|
    ensures var (removed, entry) := Remove(t, index);
      entry.Some? && |removed.entries| == |t.entries|
      && FlushGoesOn(whole, removed, index + 1, made + Owed(entry.value))
  {
    var (removed, entry) := Remove(t, index);
    Regroup(made, Owed(entry.value), FlushFrom(removed, index + 1).1);
  }

  lemma FlushEnds(whole: (Table, seq<Event>), t: Table, index: nat, made: seq<Event>)
    requires FlushGoesOn(whole, t, index, made) && index == |t.entries|
    ensures whole == (t, made)
  {
    assert made + [] == made;
  }

  // ---- one call ------------------------------------------------------------------------

  lemma LinksUpdate(entries: seq<Entry>, p: nat, e: Entry)
    requires p < |entries|
    ensures Links(entries[p := e]) == Links(entries)[p := e.next]
  {}

  /** An add fails exactly when every entry is in use; otherwise it moves the first free entry into use. */
  lemma AddTakesFirst(t: Table, chain: seq<nat>, command: nat, callback: Option<nat>, arg: nat)
    requires Valid(t, chain)
    ensures t.free.Some? ==> t.free.value < |t.entries|
    ensures var (after, position) := Add(t, command, callback, arg);
      && (position == None <==> forall p :: 0 <= p < |t.entries| ==> t.entries[p].command.Some?)
      && (position == None ==> chain == [] && after == t)
      && (position.Some? ==>
            && chain != [] && position.value == chain[0]
            && Valid(after, chain[1..])
            && after.entries == t.entries[chain[0] := after.entries[chain[0]]]
            && after.entries[chain[0]] == Entry(t.entries[chain[0]].next, Some(command), callback, arg))
  {
    hide Links;
    ChainDistinct(Links(t.entries), t.free, chain);
    if chain != [] {
      var after := Add(t, command, callback, arg).0;
      assert chain == [chain[0]] + chain[1..];
      assert t.entries[chain[0]].command == None;
      LinksUpdate(t.entries, chain[0], after.entries[chain[0]]);
      assert Links(after.entries) == Links(t.entries);
    }
  }

  /** Removing an entry in use frees it; the caller gets what it held. */
  lemma RemoveFrees(t: Table, chain: seq<nat>, position: nat)
    requires Valid(t, chain) && position < |t.entries| && position !in chain
    ensures var (after, entry) := Remove(t, position);
      && Valid(after, [position] + chain)
      && after.entries == t.entries[position := after.entries[position]]
      && entry == Some(t.entries[position].(next := None)) && entry.value.command.Some?
  {
    hide Links;
    LinksUpdate(t.entries, position, Unused(t.free));
    ChainPush(Links(t.entries), t.free, chain, position);
  }

  /** A position is removed without harm exactly when it is in use: nothing checks that. */
  lemma RemoveKeepsListExactlyWhenInUse(t: Table, chain: seq<nat>, position: nat)
    requires Valid(t, chain) && position < |t.entries|
    ensures (exists after :: Valid(Remove(t, position).0, after)) <==> t.entries[position].command.Some?
  {
    hide Links;
    LinksUpdate(t.entries, position, Unused(t.free));
    if position in chain {
      forall after
        ensures !Valid(Remove(t, position).0, after)
      {
        ChainPushTwice(Links(t.entries), t.free, chain, position, after);
      }
    } else {
      RemoveFrees(t, chain, position);
    }
  }

  /** Taking back an add, as a send does when its push fails, restores the table exactly. */
  lemma RemoveUndoesAdd(t: Table, chain: seq<nat>, command: nat, callback: Option<nat>, arg: nat)
    requires Valid(t, chain) && chain != []
    ensures t.free == Some(chain[0]) && chain[0] < |t.entries|
    ensures Remove(Add(t, command, callback, arg).0, chain[0]).0 == t
  {
    AddTakesFirst(t, chain, command, callback, arg);
  }

  // ---- flushing ---------------------------------------------------------------------------

  /** Every callback owed by the table, in position order. */
  function AllOwed(entries: seq<Entry>): seq<Event> {
    if entries == [] then [] else Owed(entries[0]) + AllOwed(entries[1..])
  }

  /** The entries a flush leaves: each linked to the one below it, the lowest to the old free list. */
  function Cleared(n: nat, free: Link): seq<Entry> {
    seq(n, i requires 0 <= i < n => Unused(if i == 0 then free else Some(i - 1)))
  }

  lemma {:induction false} FlushFromEffect(t: Table, index: nat, n: nat, free: Link)
    requires n == |t.entries| && index <= n
    requires t.free == if index == 0 then free else Some(index - 1)
    requires t.entries[..index] == Cleared(n, free)[..index]
    ensures FlushFrom(t, index).0.entries == Cleared(n, free)
    ensures FlushFrom(t, index).0.free == if n == 0 then free else Some(n - 1)
    ensures FlushFrom(t, index).1 == AllOwed(t.entries[index..])
    decreases n - index
  {
    if index < n {
      var removed := Remove(t, index).0;
      assert removed.entries[..index + 1] == Cleared(n, free)[..index + 1];
      FlushFromEffect(removed, index + 1, n, free);
      assert removed.entries[index + 1..] == t.entries[index..][1..];
    }
  }

  /** A flush makes each callback owed once, in position order, and rebuilds the list over all entries. */
  lemma FlushEffect(t: Table)
    requires 0 < |t.entries|
    ensures var n := |t.entries|;
      FlushFrom(t, 0) == (Table(Cleared(n, t.free), Some(n - 1)), AllOwed(t.entries))
  {
    FlushFromEffect(t, 0, |t.entries|, t.free);
    assert t.entries[0..] == t.entries;
  }

  /** n - 1, ..., 1, 0. */
  function Down(n: nat): (c: seq<nat>)
    ensures |c| == n && forall i :: 0 <= i < n ==> c[i] == n - 1 - i
  {
    seq(n, i requires 0 <= i < n => n - 1 - i)
  }

  lemma {:induction false} ClearedChain(n: nat, k: nat)
    requires k <= n
    ensures IsChain(Links(Cleared(n, None)), if k == 0 then None else Some(k - 1), Down(k))
  {
    if k > 0 {
      ClearedChain(n, k - 1);
      assert Down(k)[1..] == Down(k - 1);
    }
  }

  /** Every entry has a successor, so the list of free entries goes round for ever. */
  ghost predicate Endless(t: Table) {
    && t.free.Some? && t.free.value < |t.entries|
    && forall p :: 0 <= p < |t.entries| ==> t.entries[p].next.Some? && t.entries[p].next.value < |t.entries|
  }

  lemma {:induction false} EndlessHasNoChain(t: Table, start: Link, c: seq<nat>)
    requires Endless(t) && start.Some?
    ensures !IsChain(Links(t.entries), start, c)
    decreases |c|
  {
    if IsChain(Links(t.entries), start, c) {
      EndlessHasNoChain(t, Links(t.entries)[c[0]], c[1..]);
    }
  }

  lemma AllInUse(t: Table, chain: seq<nat>)
    requires Valid(t, chain)
    ensures 0 < |t.entries|
    ensures chain == [] <==> forall p :: 0 <= p < |t.entries| ==> t.entries[p].command.Some?
    ensures chain == [] <==> t.free == None
    ensures chain != [] ==> t.free == Some(chain[0]) && chain[0] < |t.entries|
  {
    ChainDistinct(Links(t.entries), t.free, chain);
    if chain != [] {
      assert t.entries[chain[0]].command == None;
    }
  }

  lemma DownIsAll(n: nat)
    ensures forall p :: 0 <= p < n ==> p in Down(n)
  {
    forall p | 0 <= p < n
      ensures p in Down(n)
    {
      assert Down(n)[n - 1 - p] == p;
    }
  }

  lemma FlushedFull(n: nat)
    requires 0 < n
    ensures Valid(Table(Cleared(n, None), Some(n - 1)), Down(n))
  {
    ClearedChain(n, n);
    DownIsAll(n);
    hide Down, IsChain;
  }

  lemma FlushedPartly(n: nat, free: nat)
    requires free < n
    ensures var after := Table(Cleared(n, Some(free)), Some(n - 1));
      Endless(after) && forall c :: !Valid(after, c)
  {
    var after := Table(Cleared(n, Some(free)), Some(n - 1));
    assert Endless(after);
    hide Endless, Cleared, IsChain;
    forall c
      ensures !Valid(after, c)
    {
      EndlessHasNoChain(after, after.free, c);
    }
  }

  /** The flush leaves a proper free list exactly when the table was full. */
  lemma FlushKeepsListExactlyWhenFull(t: Table, chain: seq<nat>)
    requires Valid(t, chain)
    ensures var after := FlushFrom(t, 0).0;
      && ((exists c :: Valid(after, c)) <==> forall p :: 0 <= p < |t.entries| ==> t.entries[p].command.Some?)
      && (chain == [] ==> Valid(after, Down(|t.entries|)))
      && (chain != [] ==> Endless(after))
  {
    var n := |t.entries|;
    FlushEffect(t);
    AllInUse(t, chain);
    hide Valid, FlushFrom, Endless, Cleared;
    if chain == [] {
      FlushedFull(n);
    } else {
      FlushedPartly(n, chain[0]);
    }
  }

  /** The positions handed out by `count` adds in a row. */
  function Positions(t: Table, command: nat, count: nat): seq<Option<nat>>
    requires Endless(t)
    decreases count
  {
    if count == 0 then
      []
    else
      var (after, position) := Add(t, command, None, 0);
      [position] + Positions(after, command, count - 1)
  }

  lemma {:induction false} PositionsSucceed(t: Table, command: nat, count: nat)
    requires Endless(t)
    ensures |Positions(t, command, count)| == count
    ensures forall i :: 0 <= i < count ==> Positions(t, command, count)[i].Some?
    decreases count
  {
    if count > 0 {
      PositionsSucceed(Add(t, command, None, 0).0, command, count - 1);
    }
  }

  /** In a list without end an add succeeds and leaves the links alone. */
  lemma FirstPosition(t: Table, command: nat, count: nat)
    requires Endless(t) && 0 < count
    ensures var after := Add(t, command, None, 0).0;
      && Endless(after) && Links(after.entries) == Links(t.entries)
      && after.free == Links(t.entries)[t.free.value]
      && Positions(t, command, count) == [t.free] + Positions(after, command, count - 1)
  {
    var after := Add(t, command, None, 0).0;
    LinksUpdate(t.entries, t.free.value, after.entries[t.free.value]);
  }

  lemma ClearedLinks(n: nat, free: Link)
    ensures Links(Cleared(n, free)) == seq(n, i requires 0 <= i < n => if i == 0 then free else Some(i - 1))
  {}

  lemma {:induction false} PositionsGoRound(t: Table, command: nat, free: nat, k: nat, count: nat)
    requires Endless(t) && k < |t.entries| && free < |t.entries| && t.free == Some(k)
    requires Links(t.entries) == Links(Cleared(|t.entries|, Some(free)))
    requires k + 1 < count
    ensures |Positions(t, command, count)| == count
    ensures Positions(t, command, count)[k + 1] == Some(free)
    ensures forall p :: 0 <= p <= k ==> Positions(t, command, count)[k - p] == Some(p)
    decreases k
  {
    hide *;
    var after := Add(t, command, None, 0).0;
    FirstPosition(t, command, count);
    PositionsSucceed(t, command, count);
    ClearedLinks(|t.entries|, Some(free));
    if k > 0 {
      PositionsGoRound(after, command, free, k - 1, count - 1);
      forall p | 0 <= p < k
        ensures Positions(t, command, count)[k - p] == Some(p)
      {
        assert Positions(after, command, count - 1)[k - 1 - p] == Some(p);
      }
    } else {
      FirstPosition(after, command, count - 1);
    }
  }

  /** The same for the table such a flush leaves, whatever it held. */
  lemma AddsGoRound(n: nat, free: nat, command: nat, count: nat)
    requires free < n < count
    ensures var after := Table(Cleared(n, Some(free)), Some(n - 1));
      && Endless(after)
      && |Positions(after, command, count)| == count
      && (forall i :: 0 <= i < count ==> Positions(after, command, count)[i].Some?)
      && Positions(after, command, count)[n] == Positions(after, command, count)[n - 1 - free] == Some(free)
  {
    var after := Table(Cleared(n, Some(free)), Some(n - 1));
    assert |after.entries| == n;
    hide *;
    FlushedPartly(n, free);
    PositionsSucceed(after, command, count);
    PositionsGoRound(after, command, free, n - 1, count);
  }

  /**
   After a flush of a table that was not full, adds never fail again: the one after the
   n-th is given a position already handed out, and the command waiting there is lost.
   */
  lemma AddsAfterPartialFlush(t: Table, chain: seq<nat>, command: nat, count: nat)
    requires Valid(t, chain) && chain != [] && |t.entries| < count
    ensures var n, after := |t.entries|, FlushFrom(t, 0).0;
      && Endless(after)
      && |Positions(after, command, count)| == count
      && (forall i :: 0 <= i < count ==> Positions(after, command, count)[i].Some?)
      && chain[0] < n
      && Positions(after, command, count)[n] == Positions(after, command, count)[n - 1 - chain[0]] == Some(chain[0])
  {
    hide *;
    AllInUse(t, chain);
    FlushEffect(t);
    AddsGoRound(|t.entries|, chain[0], command, count);
  }
}
