/** How the boot loader waits for the device: a poll loop with two time budgets. */
module BootPolling {
  import opened Bytes
  import opened Options

  const READY: u32 := 0x0000_0000
  const PENDING: u32 := 0xFFFF_FFFF
  const STARTING: u32 := 0x5555_5555
  const DMA_DONE: u32 := 0xDDDD_DDDD
  const BOOT: u32 := 0xBBBB_BBBB
  const DMA_ERROR: u32 := 0xDEAD_AAAA

  const PENDING_BUDGET: nat := 100
  const STARTING_BUDGET: nat := 1500

  datatype Mode = Unknown | Boot | Loader | AppVpual | AppVpulink

  datatype Outcome = Done | TimedOut | ProtocolError

  /** What one poll decides, given how many pending and starting readings came before it. */
  function Answer(mode: Mode, now: Mode, status: u32, pendings: nat, startings: nat): Option<Outcome> {
    if mode != now then Some(Done)
    else if status == READY then None
    else if status == DMA_DONE then Some(Done)
    else if status == PENDING then if pendings < PENDING_BUDGET then None else Some(TimedOut)
    else if status == STARTING then if startings < STARTING_BUDGET then None else Some(TimedOut)
    else Some(ProtocolError)
  }

  /** How often a status is read from poll `from` up to, but not including, poll `to`. */
  ghost function Count(statuses: nat -> u32, value: u32, from: nat, end: nat): nat
    requires from <= end
    decreases end
  {
    if from == end then 0 else Count(statuses, value, from, end - 1) + if statuses(end - 1) == value then 1 else 0
  }

  ghost function AnswerAt(modes: nat -> Mode, statuses: nat -> u32, mode: Mode, from: nat, at: nat): Option<Outcome>
    requires from <= at
  {
    Answer(mode, modes(at), statuses(at), Count(statuses, PENDING, from, at), Count(statuses, STARTING, from, at))
  }

  /** No poll from `from` up to `at` decides anything. */
  ghost predicate Undecided(modes: nat -> Mode, statuses: nat -> u32, mode: Mode, from: nat, at: nat)
    requires from <= at
  {
    forall t :: from <= t < at ==> AnswerAt(modes, statuses, mode, from, t) == None
  }

  /** The wait that begins at poll `from` ends with poll `at`. */
  ghost predicate EndsAt(modes: nat -> Mode, statuses: nat -> u32, mode: Mode, from: nat, at: nat, outcome: Outcome) {
    && from <= at && Undecided(modes, statuses, mode, from, at)
    && AnswerAt(modes, statuses, mode, from, at) == Some(outcome)
  }

  lemma {:induction false} UndecidedCounts(modes: nat -> Mode, statuses: nat -> u32, mode: Mode, from: nat, at: nat)
    requires from <= at && Undecided(modes, statuses, mode, from, at)
    ensures Count(statuses, PENDING, from, at) <= PENDING_BUDGET
    ensures Count(statuses, STARTING, from, at) <= STARTING_BUDGET
    ensures at - from
         == Count(statuses, READY, from, at) + Count(statuses, PENDING, from, at) + Count(statuses, STARTING, from, at)
    decreases at
  {
    if from < at {
      UndecidedCounts(modes, statuses, mode, from, at - 1);
      assert AnswerAt(modes, statuses, mode, from, at - 1) == None;
    }
  }

  /**
   Whatever the device reads as: a wait that ends has slept at most 1600 times, once for
   each pending or starting reading before the last, and has polled at most 1601 times
   more than it read READY.
   */
  lemma BoundedPolling(modes: nat -> Mode, statuses: nat -> u32, mode: Mode, from: nat, at: nat, outcome: Outcome)
    requires EndsAt(modes, statuses, mode, from, at, outcome)
    ensures Count(statuses, PENDING, from, at) + Count(statuses, STARTING, from, at) <= 1600
    ensures at + 1 - from <= 1601 + Count(statuses, READY, from, at)
  {
    UndecidedCounts(modes, statuses, mode, from, at);
  }

  /** The end of a wait is determined by the readings. */
  lemma EndsOnce(modes: nat -> Mode, statuses: nat -> u32, mode: Mode, from: nat, at: nat, outcome: Outcome,
                 at': nat, outcome': Outcome)
    requires EndsAt(modes, statuses, mode, from, at, outcome) && EndsAt(modes, statuses, mode, from, at', outcome')
    ensures at == at' && outcome == outcome'
  {
    assert !(at < at') by {
      assert AnswerAt(modes, statuses, mode, from, at) != None;
    }
    assert !(at' < at) by {
      assert AnswerAt(modes, statuses, mode, from, at') != None;
    }
  }

  lemma CountMore(statuses: nat -> u32, value: u32, from: nat, end: nat)
    requires from <= end
    ensures Count(statuses, value, from, end + 1) == Count(statuses, value, from, end)
      + if statuses(end) == value then 1 else 0
  {}

  /** The wait that begins at poll `from` comes to an end. */
  ghost predicate Ends(modes: nat -> Mode, statuses: nat -> u32, mode: Mode, from: nat) {
    exists at: nat, outcome :: EndsAt(modes, statuses, mode, from, at, outcome)
  }

  /** The device is in its mode and reads READY, or PENDING or STARTING not too often by now. */
  ghost predicate GoesOn(modes: nat -> Mode, statuses: nat -> u32, mode: Mode, from: nat, t: nat)
    requires from <= t
  {
    && modes(t) == mode && (statuses(t) == READY || statuses(t) == PENDING || statuses(t) == STARTING)
    && Count(statuses, PENDING, from, t + 1) <= 100 && Count(statuses, STARTING, from, t + 1) <= 1500
  }

  /**
   A wait never ends exactly when the device stays in its mode for ever and reads nothing but
   READY, PENDING at most 100 times and STARTING at most 1500 times.
   */
  lemma NeverEndsExactlyWhen(modes: nat -> Mode, statuses: nat -> u32, mode: Mode, from: nat)
    ensures !Ends(modes, statuses, mode, from) <==>
      forall t: nat :: from <= t ==> GoesOn(modes, statuses, mode, from, t)
  {
    hide Undecided, Count, EndsAt;
    if !Ends(modes, statuses, mode, from) {
      forall t: nat | from <= t
        ensures GoesOn(modes, statuses, mode, from, t)
      {
        NeverDecided(modes, statuses, mode, from, t);
        NeverDecided(modes, statuses, mode, from, t + 1);
        PollGoesOn(modes, statuses, mode, from, t);
      }
    } else {
      var end, outcome := EndOf(modes, statuses, mode, from);
      EndDoesNotGoOn(modes, statuses, mode, from, end, outcome);
    }
  }

  lemma PollGoesOn(modes: nat -> Mode, statuses: nat -> u32, mode: Mode, from: nat, t: nat)
    requires from <= t && Undecided(modes, statuses, mode, from, t) && Undecided(modes, statuses, mode, from, t + 1)
    ensures GoesOn(modes, statuses, mode, from, t)
  {
    UndecidedCounts(modes, statuses, mode, from, t + 1);
    assert AnswerAt(modes, statuses, mode, from, t) == None;
    hide Undecided, Count;
  }

  lemma EndDoesNotGoOn(modes: nat -> Mode, statuses: nat -> u32, mode: Mode, from: nat, end: nat, outcome: Outcome)
    requires EndsAt(modes, statuses, mode, from, end, outcome)
    ensures from <= end && !GoesOn(modes, statuses, mode, from, end)
  {
    CountMore(statuses, PENDING, from, end);
    CountMore(statuses, STARTING, from, end);
    hide Undecided, Count;
  }

  lemma {:induction false} NeverDecided(modes: nat -> Mode, statuses: nat -> u32, mode: Mode, from: nat, at: nat)
    requires from <= at && !Ends(modes, statuses, mode, from)
    ensures Undecided(modes, statuses, mode, from, at)
    decreases at
  {
    if from < at {
      NeverDecided(modes, statuses, mode, from, at - 1);
      PollDecides(modes, statuses, mode, from, at - 1);
    }
  }

  /** From poll `k` on, nothing but READY is read, and the device stays in this mode. */
  ghost predicate ReadyFrom(modes: nat -> Mode, statuses: nat -> u32, mode: Mode, k: nat) {
    forall t: nat :: k <= t ==> modes(t) == mode && statuses(t) == READY
  }

  /** Every wait ends on a device that does not go over to READY for good, however often it reads READY. */
  lemma EndsUnlessReadyForever(modes: nat -> Mode, statuses: nat -> u32, mode: Mode, from: nat)
    requires forall k: nat :: !ReadyFrom(modes, statuses, mode, k)
    ensures Ends(modes, statuses, mode, from)
  {
    if !Ends(modes, statuses, mode, from) {
      var at := Sleeps(modes, statuses, mode, from, 1601);
      UndecidedCounts(modes, statuses, mode, from, at);
    }
  }

  /** A wait that does not end sleeps any number of times, unless READY is all there is from some time on. */
  lemma {:induction false} Sleeps(modes: nat -> Mode, statuses: nat -> u32, mode: Mode, from: nat, n: nat)
    returns (at: nat)
    requires forall k: nat :: !ReadyFrom(modes, statuses, mode, k)
    requires !Ends(modes, statuses, mode, from)
    ensures from <= at && Undecided(modes, statuses, mode, from, at)
    ensures n <= Count(statuses, PENDING, from, at) + Count(statuses, STARTING, from, at)
  {
    if n == 0 {
      at := from;
    } else {
      var before := Sleeps(modes, statuses, mode, from, n - 1);
      assert !ReadyFrom(modes, statuses, mode, before);
      var t: nat :| before <= t && !(modes(t) == mode && statuses(t) == READY);
      at := t + 1;
      NeverDecided(modes, statuses, mode, from, at);
      assert AnswerAt(modes, statuses, mode, from, t) == None;
      CountGrows(statuses, PENDING, from, before, t);
      CountGrows(statuses, STARTING, from, before, t);
    }
  }

  lemma {:induction false} CountGrows(statuses: nat -> u32, value: u32, from: nat, a: nat, b: nat)
    requires from <= a <= b
    ensures Count(statuses, value, from, a) <= Count(statuses, value, from, b)
    decreases b
  {
    if a < b {
      CountGrows(statuses, value, from, a, b - 1);
    }
  }

  /** How soon: by the time the device has read something other than READY 1601 times, the wait has ended. */
  lemma EndsWithinBudgets(modes: nat -> Mode, statuses: nat -> u32, mode: Mode, from: nat, until: nat)
    requires from <= until && 1600 < until - from - Count(statuses, READY, from, until)
    ensures exists at: nat, outcome :: at < until && EndsAt(modes, statuses, mode, from, at, outcome)
  {
    var at := from;
    while AnswerAt(modes, statuses, mode, from, at).None?
      invariant from <= at < until && Undecided(modes, statuses, mode, from, at)
      decreases until - at
    {
      at := at + 1;
      if at == until {
        UndecidedCounts(modes, statuses, mode, from, at);
      }
    }
    assert EndsAt(modes, statuses, mode, from, at, AnswerAt(modes, statuses, mode, from, at).value);
  }

  /** That is within 1600 polls of the last time it reads READY, if there is one. */
  lemma EndsSoonAfterReady(modes: nat -> Mode, statuses: nat -> u32, mode: Mode, from: nat, settled: nat)
    requires forall t :: from + settled <= t ==> statuses(t) != READY
    ensures exists at: nat, outcome :: at <= from + settled + 1600 && EndsAt(modes, statuses, mode, from, at, outcome)
  {
    var until := from + settled + 1601;
    ReadyBefore(statuses, from, from + settled, until);
    EndsWithinBudgets(modes, statuses, mode, from, until);
  }

  lemma {:induction false} ReadyBefore(statuses: nat -> u32, from: nat, settled: nat, at: nat)
    requires from <= settled <= at
    requires forall t :: settled <= t < at ==> statuses(t) != READY
    ensures Count(statuses, READY, from, at) <= settled - from
    decreases at
  {
    if from < at {
      ReadyBefore(statuses, from, if settled < at then settled else at - 1, at - 1);
    }
  }

  /** A wait times out exactly when one of the budgets is used up before anything else is decided. */
  lemma TimesOutExactlyWhenBudgetIsSpent(modes: nat -> Mode, statuses: nat -> u32, mode: Mode, from: nat,
                                         at: nat, outcome: Outcome)
    requires EndsAt(modes, statuses, mode, from, at, outcome)
    ensures outcome == TimedOut <==>
      && modes(at) == mode
      && (Count(statuses, PENDING, from, at + 1) == 101 || Count(statuses, STARTING, from, at + 1) == 1501)
  {
    UndecidedCounts(modes, statuses, mode, from, at);
    CountMore(statuses, PENDING, from, at);
    CountMore(statuses, STARTING, from, at);
  }

  lemma DecidesNothing(modes: nat -> Mode, statuses: nat -> u32, mode: Mode, from: nat, t: nat)
    requires from <= t && Count(statuses, PENDING, from, t) <= 100 && Count(statuses, STARTING, from, t) <= 1500
    ensures AnswerAt(modes, statuses, mode, from, t) == None <==> GoesOn(modes, statuses, mode, from, t)
  {
    CountMore(statuses, PENDING, from, t);
    CountMore(statuses, STARTING, from, t);
    hide Count;
  }

  lemma {:induction false} UndecidedGoesOn(modes: nat -> Mode, statuses: nat -> u32, mode: Mode, from: nat, at: nat)
    requires from <= at
    ensures Undecided(modes, statuses, mode, from, at) <==>
      forall t :: from <= t < at ==> GoesOn(modes, statuses, mode, from, t)
    decreases at
  {
    hide GoesOn, AnswerAt, Count;
    if from < at {
      UndecidedGoesOn(modes, statuses, mode, from, at - 1);
      if Undecided(modes, statuses, mode, from, at - 1) {
        UndecidedCounts(modes, statuses, mode, from, at - 1);
        DecidesNothing(modes, statuses, mode, from, at - 1);
      }
    }
  }

  /**
   A wait ends with the first poll that finds another mode, or DMA_DONE, or the 101st PENDING
   or 1501st STARTING, or a status that is none of these nor READY; and that says how.
   */
  lemma EndsExactlyWhen(modes: nat -> Mode, statuses: nat -> u32, mode: Mode, from: nat, at: nat, outcome: Outcome)
    requires from <= at
    ensures EndsAt(modes, statuses, mode, from, at, outcome) <==>
      && (forall t :: from <= t < at ==> GoesOn(modes, statuses, mode, from, t))
      && match outcome
         case Done => modes(at) != mode || statuses(at) == DMA_DONE
         case TimedOut =>
           && modes(at) == mode
           && ((statuses(at) == PENDING && Count(statuses, PENDING, from, at) == 100)
               || (statuses(at) == STARTING && Count(statuses, STARTING, from, at) == 1500))
         case ProtocolError =>
           modes(at) == mode && statuses(at) !in {READY, DMA_DONE, PENDING, STARTING}
  {
    UndecidedGoesOn(modes, statuses, mode, from, at);
    if Undecided(modes, statuses, mode, from, at) {
      UndecidedCounts(modes, statuses, mode, from, at);
    }
    hide Undecided, Count, GoesOn;
  }

  /** Before poll `at`: nothing is decided, and these budgets are left after so many sleeps. */
  ghost predicate Underway(modes: nat -> Mode, statuses: nat -> u32, mode: Mode, from: nat, at: nat,
                           pending: int, starting: int, sleeps: int) {
    && from <= at && Undecided(modes, statuses, mode, from, at)
    && 0 <= pending == PENDING_BUDGET - Count(statuses, PENDING, from, at)
    && 0 <= starting == STARTING_BUDGET - Count(statuses, STARTING, from, at)
    && sleeps == Count(statuses, PENDING, from, at) + Count(statuses, STARTING, from, at)
  }

  lemma NoPollYet(modes: nat -> Mode, statuses: nat -> u32, mode: Mode, from: nat)
    ensures Underway(modes, statuses, mode, from, from, 100, 1500, 0)
  {}

  /** A poll that the wait has come to is not behind its end. */
  lemma StillToCome(modes: nat -> Mode, statuses: nat -> u32, mode: Mode, from: nat, at: nat,
                    pending: int, starting: int, sleeps: int, end: nat, outcome: Outcome)
    requires Underway(modes, statuses, mode, from, at, pending, starting, sleeps)
    requires EndsAt(modes, statuses, mode, from, end, outcome)
    ensures at <= end
  {}

  lemma EndOf(modes: nat -> Mode, statuses: nat -> u32, mode: Mode, from: nat) returns (end: nat, outcome: Outcome)
    requires Ends(modes, statuses, mode, from)
    ensures from <= end && EndsAt(modes, statuses, mode, from, end, outcome)
  {
    end, outcome :| EndsAt(modes, statuses, mode, from, end, outcome);
  }

  /** What a poll that ends the wait has cost by then. */
  lemma Spent(modes: nat -> Mode, statuses: nat -> u32, mode: Mode, from: nat, at: nat,
              pending: int, starting: int, sleeps: int)
    requires Underway(modes, statuses, mode, from, at, pending, starting, sleeps)
    ensures from <= at && 0 <= pending && 0 <= starting
    ensures sleeps == Count(statuses, PENDING, from, at) + Count(statuses, STARTING, from, at) <= 1600
    ensures at + 1 - from <= 1601 + Count(statuses, READY, from, at)
  {
    UndecidedCounts(modes, statuses, mode, from, at);
  }

  /** One more poll ends the wait, or goes on with what is left of the budgets. */
  lemma Poll(modes: nat -> Mode, statuses: nat -> u32, mode: Mode, from: nat, at: nat,
             pending: int, starting: int, sleeps: int)
    requires Underway(modes, statuses, mode, from, at, pending, starting, sleeps)
    ensures mode != modes(at) || statuses(at) == DMA_DONE ==> EndsAt(modes, statuses, mode, from, at, Done)
    ensures mode == modes(at) ==>
      if statuses(at) == DMA_DONE then
        true
      else if statuses(at) == PENDING then
        if pending == 0 then
          EndsAt(modes, statuses, mode, from, at, TimedOut)
        else
          Underway(modes, statuses, mode, from, at + 1, pending - 1, starting, sleeps + 1)
      else if statuses(at) == STARTING then
        if starting == 0 then
          EndsAt(modes, statuses, mode, from, at, TimedOut)
        else
          Underway(modes, statuses, mode, from, at + 1, pending, starting - 1, sleeps + 1)
      else if statuses(at) == READY then
        Underway(modes, statuses, mode, from, at + 1, pending, starting, sleeps)
      else
        EndsAt(modes, statuses, mode, from, at, ProtocolError)
  {
    PollDecides(modes, statuses, mode, from, at);
    CountMore(statuses, PENDING, from, at);
    CountMore(statuses, STARTING, from, at);
    hide Undecided, EndsAt, Count;
  }

  lemma PollDecides(modes: nat -> Mode, statuses: nat -> u32, mode: Mode, from: nat, at: nat)
    requires from <= at && Undecided(modes, statuses, mode, from, at)
    ensures match AnswerAt(modes, statuses, mode, from, at)
      case None => Undecided(modes, statuses, mode, from, at + 1)
      case Some(outcome) => EndsAt(modes, statuses, mode, from, at, outcome)
  {}
}
