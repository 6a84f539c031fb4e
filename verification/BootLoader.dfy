/**
 The boot loader: it hands the device an image in chunks and waits for each. The n-th time
 the host looks at the device, it finds mode `modes(n)` and status `statuses(n)`, and its
 n-th request for memory or a mapping is met if `granted(n)`, whatever those may be.
 */
module BootLoader {
  import opened BootImage
  import opened BootPolling
  import opened Bytes
  import opened Options
  import opened Sequences

  datatype Result = Success | NotReady | MappingFailed | WaitFailed(outcome: Outcome)

  /** A size as the signed 32-bit result of a load. */
  function AsInt(n: nat): int {
    (n + 0x8000_0000) % U32_MODULUS - 0x8000_0000
  }

  /** The result is right for sizes it can hold, and says -1 for one that is not a failure now and then. */
  lemma AsIntIs(n: nat)
    ensures -0x8000_0000 <= AsInt(n) < 0x8000_0000 && AsInt(n) % U32_MODULUS == n % U32_MODULUS
    ensures AsInt(n) == n <==> n < 0x8000_0000
    ensures AsInt(n) == -1 <==> n % U32_MODULUS == U32_MODULUS - 1
  {}

  /** A transfer that was started: when the device was found ready for it, and how its wait ended and when. */
  datatype Transfer = Transfer(begun: nat, outcome: Outcome, ended: nat)

  ghost predicate AllDone(ts: seq<Transfer>) {
    forall i :: 0 <= i < |ts| ==> ts[i].outcome == Done
  }

  /** The next look at the device after these transfers. */
  function After(ts: seq<Transfer>, from: nat): nat {
    if ts == [] then from else ts[|ts| - 1].ended + 1
  }

  /** When the device is told of them: after the look that found it ready. */
  function Times(ts: seq<Transfer>): (ats: seq<nat>)
    ensures |ats| == |ts|
  {
    seq(|ts|, i requires 0 <= i < |ts| => ts[i].begun + 1)
  }

  lemma TimesMore(ts: seq<Transfer>, t: Transfer)
    ensures Times(ts + [t]) == Times(ts) + [t.begun + 1]
  {}

  /** How a load went: the transfers started for the second stage and for the image's chunks. */
  datatype Load = Load(ok: bool, second: seq<Transfer>, chunks: seq<Transfer>)

  /** The second stage, for an image that needs it. */
  function SecondStage(image: seq<byte>, loader: seq<byte>): seq<seq<byte>> {
    if |image| > MAX_CHUNK then [loader] else []
  }

  /** What one transfer asks for: a cache, memory from it, and a mapping. */
  const REQUESTS: nat := 3

  class Device {
    const modes: nat -> Mode
    const statuses: nat -> u32
    const granted: nat -> bool
    const loader: seq<byte>
    var now: nat
    var slept: nat
    var asked: nat
    var writes: seq<Write>

    constructor (modes: nat -> Mode, statuses: nat -> u32, granted: nat -> bool, loader: seq<byte>)
      ensures this.modes == modes && this.statuses == statuses && this.granted == granted && this.loader == loader
      ensures now == 0 && slept == 0 && asked == 0 && writes == []
    {
      this.modes, this.statuses, this.granted, this.loader := modes, statuses, granted, loader;
      now, slept, asked, writes := 0, 0, 0, [];
    }

    /** The device would be told to fetch now. */
    ghost predicate Accepts(at: nat) {
      statuses(at) == READY || statuses(at) == DMA_DONE
    }

    /** A chunk whose turn is now is transferred. */
    ghost predicate StartsAt(from: nat, asked: nat) {
      granted(asked) && granted(asked + 1) && Accepts(from) && granted(asked + 2)
    }

    /** The wait for a transfer that begins now ends. */
    ghost predicate NextEnds(from: nat, asked: nat) {
      StartsAt(from, asked) ==> Ends(modes, statuses, modes(from), from + 1)
    }

    /** The device accepted this transfer, and its readings ended the wait for it like that. */
    ghost predicate Ran(t: Transfer) {
      Accepts(t.begun) && EndsAt(modes, statuses, modes(t.begun), t.begun + 1, t.ended, t.outcome)
    }

    /** The waits for up to `n` transfers end that follow one another, the first of them begun now. */
    ghost predicate TransfersEnd(from: nat, asked: nat, n: nat)
      decreases n
    {
      0 < n ==>
        && NextEnds(from, asked)
        && forall t :: Ran(t) && t.begun == from && t.outcome == Done ==>
             TransfersEnd(t.ended + 1, asked + REQUESTS, n - 1)
    }

    /**
     All waits of a load that is begun now end. Loads are called only when this is so; when a
     wait ends and when it does not is told by `NeverEndsExactlyWhen`.
     */
    ghost predicate LoadEnds(image: seq<byte>, from: nat, asked: nat) {
      if |image| <= MAX_CHUNK then
        TransfersEnd(from, asked, |Chunks(image)|)
      else
        && NextEnds(from, asked)
        && forall t :: Ran(t) && t.begun == from && t.outcome == Done && modes(t.ended + 1) == Loader ==>
             TransfersEnd(t.ended + 2, asked + REQUESTS, |Chunks(image)|)
    }

    /** All loads end on a device that does not stay in one mode and read READY for good. */
    lemma LoadEndsUnlessReadyForever(image: seq<byte>, from: nat, asked: nat)
      requires forall mode, k: nat :: !ReadyFrom(modes, statuses, mode, k)
      ensures LoadEnds(image, from, asked)
    {
      hide TransfersEnd, EndsAt, ReadyFrom, Chunks, Ran;
      EndsUnlessReadyForever(modes, statuses, modes(from), from + 1);
      forall at: nat, asked': nat
        ensures TransfersEnd(at, asked', |Chunks(image)|)
      {
        TransfersEndUnlessReadyForever(at, asked', |Chunks(image)|);
      }
    }

    lemma {:induction false} TransfersEndUnlessReadyForever(from: nat, asked: nat, n: nat)
      requires forall mode, k: nat :: !ReadyFrom(modes, statuses, mode, k)
      ensures TransfersEnd(from, asked, n)
      decreases n
    {
      hide EndsAt, ReadyFrom, Ran;
      if 0 < n {
        EndsUnlessReadyForever(modes, statuses, modes(from), from + 1);
        forall t | Ran(t) && t.begun == from && t.outcome == Done
          ensures TransfersEnd(t.ended + 1, asked + REQUESTS, n - 1)
        {
          TransfersEndUnlessReadyForever(t.ended + 1, asked + REQUESTS, n - 1);
        }
      }
    }

    lemma FirstEnds(from: nat, asked: nat, n: nat)
      requires TransfersEnd(from, asked, n) && 0 < n
      ensures NextEnds(from, asked)
    {}

    lemma RestEnds(from: nat, asked: nat, n: nat, t: Transfer)
      requires TransfersEnd(from, asked, n) && 0 < n && t.begun == from && Ran(t) && t.outcome == Done
      ensures TransfersEnd(t.ended + 1, asked + REQUESTS, n - 1)
    {}

    lemma SecondStageEnds(image: seq<byte>, from: nat, asked: nat)
      requires LoadEnds(image, from, asked) && |image| > MAX_CHUNK && |loader| == LOADER_SIZE
      ensures LoadEnds(loader, from, asked)
    {
      OneChunk(loader);
      forall t: Transfer
        ensures TransfersEnd(t.ended + 1, asked + REQUESTS, 0)
      {
      }
      hide Ran, Chunks, NextEnds;
      assert TransfersEnd(from, asked, 1);
    }

    lemma ChunksEnd(image: seq<byte>, from: nat, asked: nat, t: Transfer)
      requires LoadEnds(image, from, asked) && |image| > MAX_CHUNK
      requires t.begun == from && Ran(t) && t.outcome == Done && modes(t.ended + 1) == Loader
      ensures TransfersEnd(t.ended + 2, asked + REQUESTS, |Chunks(image)|)
    {}

    lemma ImageEnds(image: seq<byte>, from: nat, asked: nat)
      requires LoadEnds(image, from, asked) && |image| <= MAX_CHUNK
      ensures TransfersEnd(from, asked, |Chunks(image)|)
    {}

    /** Polls until the device is done with a transfer, leaves its mode, fails, or a budget is spent. */
    method WaitForCompletion(mode: Mode) returns (outcome: Outcome)
      requires Ends(modes, statuses, mode, now)
      modifies `now, `slept
      ensures old(now) < now && EndsAt(modes, statuses, mode, old(now), now - 1, outcome)
      ensures slept - old(slept)
           == Count(statuses, PENDING, old(now), now - 1) + Count(statuses, STARTING, old(now), now - 1) <= 1600
      ensures now - old(now) <= 1601 + Count(statuses, READY, old(now), now - 1)
    {
      hide *;
      ghost var from := now;
      var startTimeout, pendingTimeout := 1500, 100;
      NoPollYet(modes, statuses, mode, from);
      ghost var end, decided := EndOf(modes, statuses, mode, from);
      while true
        invariant Underway(modes, statuses, mode, from, now, pendingTimeout, startTimeout, slept - old(slept))
        invariant now <= end
        decreases end - now
      {
        Spent(modes, statuses, mode, from, now, pendingTimeout, startTimeout, slept - old(slept));
        Poll(modes, statuses, mode, from, now, pendingTimeout, startTimeout, slept - old(slept));
        var at := now;
        now := now + 1;
        if mode != modes(at) {
          return Done;
        }
        var ready := statuses(at);
        if ready == DMA_DONE {
          return Done;
        } else if ready == PENDING {
          if pendingTimeout == 0 {
            return TimedOut;
          }
          pendingTimeout := pendingTimeout - 1;
          slept := slept + 1;
        } else if ready == STARTING {
          if startTimeout == 0 {
            return TimedOut;
          }
          startTimeout := startTimeout - 1;
          slept := slept + 1;
        } else if ready != READY {
          return ProtocolError;
        }
        StillToCome(modes, statuses, mode, from, now, pendingTimeout, startTimeout, slept - old(slept), end, decided);
      }
    }

    /**
     Transfers one chunk if the device is ready for it and the chunk can be mapped. A device
     in loader mode is told to boot after the last one, whether or not that arrived.
     */
    method TransferImage(image: seq<byte>, bootNow: bool) returns (result: Result)
      requires Accepts(now) && granted(asked) ==> Ends(modes, statuses, modes(now), now + 1)
      modifies `now, `slept, `asked, `writes
      ensures old(now) < now && asked == old(asked) + if Accepts(old(now)) then 1 else 0
      ensures result == NotReady <==> !Accepts(old(now))
      ensures result == MappingFailed <==> Accepts(old(now)) && !granted(old(asked))
      ensures Accepts(old(now)) && granted(old(asked)) ==>
        && (result == Success || (result.WaitFailed? && result.outcome != Done))
        && EndsAt(modes, statuses, modes(old(now)), old(now) + 1, now - 1,
                  if result == Success then Done else result.outcome)
      ensures var started := Accepts(old(now)) && granted(old(asked));
        && (!started ==> now == old(now) + 1)
        && writes == old(writes) + (if started then TransferOf(image, old(now) + 1) else [])
                     + BootOf(started && bootNow && modes(old(now)) == Loader, now)
    {
      hide EndsAt, Ends;
      ghost var before, begun := writes, now;
      var mode, ready := modes(now), statuses(now);
      now := now + 1;
      if ready != READY && ready != DMA_DONE {
        return NotReady;
      }
      var mapped := granted(asked);
      asked := asked + 1;
      if !mapped {
        return MappingFailed;
      }
      writes := writes + [Start(now, image)];
      writes := writes + [Length(now, |image| % U32_MODULUS)];
      writes := writes + [Status(now, PENDING)];
      assert writes == before + TransferOf(image, begun + 1);
      hide TransferOf;
      var outcome := WaitForCompletion(mode);
      if bootNow && mode == Loader {
        writes := writes + [Status(now, BOOT)];
      }
      result := if outcome == Done then Success else WaitFailed(outcome);
    }

    /** What a load stages: copies from user memory may fail, copies from kernel memory do not. */
    static ghost function Staging(image: seq<byte>, copies: seq<Copy>, userland: bool): (s: seq<seq<byte>>)
      requires userland ==> AllFit(copies, Chunks(image))
      ensures |s| == |Chunks(image)|
    {
      if userland then StagedChunks(Chunks(image), copies) else Chunks(image)
    }

    static lemma StagingSmall(image: seq<byte>, copies: seq<Copy>, userland: bool)
      requires userland ==> AllFit(copies, Chunks(image))
      ensures AllSmall(Staging(image, copies, userland))
    {
      ChunksSmall(image, copies);
      hide AllSmall, Chunks, AllFit, StagedChunks;
    }

    /** Transfers one after the other without a look in between, each after the completion of those before. */
    ghost predicate Series(ts: seq<Transfer>, from: nat, asked: nat) {
      ts == [] ||
      var earlier, t := ts[..|ts| - 1], ts[|ts| - 1];
      && Ran(t) && t.begun == After(earlier, from) && StartsAt(t.begun, asked + REQUESTS * |earlier|)
      && AllDone(earlier) && Series(earlier, from, asked)
    }

    lemma SeriesMore(ts: seq<Transfer>, from: nat, asked: nat, t: Transfer)
      requires Series(ts, from, asked) && AllDone(ts) && Ran(t) && t.begun == After(ts, from)
      requires StartsAt(t.begun, asked + REQUESTS * |ts|)
      ensures Series(ts + [t], from, asked) && (AllDone(ts + [t]) <==> t.outcome == Done)
      ensures After(ts + [t], from) == t.ended + 1
    {
      var more := ts + [t];
      assert more[..|more| - 1] == ts && more[|more| - 1] == t;
    }

    lemma {:induction false} SeriesForward(ts: seq<Transfer>, from: nat, asked: nat)
      requires Series(ts, from, asked)
      ensures from <= After(ts, from)
    {
      if ts != [] {
        SeriesForward(ts[..|ts| - 1], from, asked);
      }
    }

    /** Each transfer of a series ran in its time, and all but the last came to their end. */
    lemma {:induction false} SeriesAt(ts: seq<Transfer>, from: nat, asked: nat, i: nat)
      requires Series(ts, from, asked) && i < |ts|
      ensures StartsAt(ts[i].begun, asked + REQUESTS * i)
      ensures Ran(ts[i]) && from <= ts[i].begun < ts[i].ended < After(ts, from)
      ensures ts[i].begun == After(ts[..i], from)
      ensures i < |ts| - 1 ==> ts[i].outcome == Done
      decreases |ts|
    {
      var earlier := ts[..|ts| - 1];
      SeriesForward(earlier, from, asked);
      if i < |ts| - 1 {
        SeriesAt(earlier, from, asked, i);
        assert earlier[i] == ts[i] && earlier[..i] == ts[..i];
      }
    }

    /** These transfers are all of up to `n` that there were: done, failed, or the next one did not start. */
    ghost predicate NoNext(ts: seq<Transfer>, n: nat, from: nat, asked: nat) {
      || |ts| == n
      || (ts != [] && ts[|ts| - 1].outcome != Done)
      || !StartsAt(After(ts, from), asked + REQUESTS * |ts|)
    }

    /**
     Stages one chunk, if there is memory for that, and transfers it. A failed copy is only
     reported. The result is good exactly when a transfer ran and its wait ended well.
     */
    method LoadChunk(chunk: seq<byte>, copy: Copy, bootNow: bool) returns (ok: bool, ghost ran: Option<Transfer>)
      requires NextEnds(now, asked) && Fits(copy, chunk)
      modifies `now, `slept, `asked, `writes
      ensures old(now) <= now
      ensures ran.Some? <==> StartsAt(old(now), old(asked))
      ensures ran.Some? ==>
        && ran.value.begun == old(now) && ran.value.ended + 1 == now && Ran(ran.value)
        && asked == old(asked) + REQUESTS
      ensures ok <==> ran.Some? && ran.value.outcome == Done
      ensures var booted := ran.Some? && bootNow && modes(old(now)) == Loader;
        writes == old(writes) + (if ran.Some? then TransferOf(Staged(chunk, copy), old(now) + 1) else [])
                  + BootOf(booted, now)
    {
      hide TransferOf, BootOf, EndsAt, Ends;
      NoBoot(writes, now);
      ran := None;
      var cached := granted(asked);
      asked := asked + 1;
      if !cached {
        return false, ran;
      }
      var held := granted(asked);
      asked := asked + 1;
      if !held {
        return false, ran;
      }
      ghost var begun, started := now, Accepts(now) && granted(asked);
      var result := TransferImage(Staged(chunk, copy), bootNow);
      ok := result == Success;
      if started {
        ran := Some(Transfer(begun, if ok then Done else result.outcome, now - 1));
      }
    }

    /** `at` bytes of the image are its first `k` chunks. */
    static ghost predicate Cut(image: seq<byte>, at: nat, k: nat) {
      && at <= |image| && k <= |Chunks(image)| && Chunks(image)[k..] == Chunks(image[at..])
      && (at == |image| <==> k == |Chunks(image)|)
    }

    static lemma NextChunk(image: seq<byte>, at: nat, k: nat)
      requires Cut(image, at, k) && at < |image|
      ensures var size := ChunkSize(|image| - at);
        && k < |Chunks(image)| && Chunks(image)[k] == image[at..at + size] && Cut(image, at + size, k + 1)
        && (k + 1 == |Chunks(image)| <==> size == |image| - at)
    {
      hide Chunks, ChunkSize;
      var left, size := image[at..], ChunkSize(|image| - at);
      Pieces(image, at, size);
      FirstChunk(left);
      DropMore(Chunks(image), k, left[..size], Chunks(left[size..]));
    }

    static lemma FirstChunk(left: seq<byte>)
      requires left != []
      ensures var size := ChunkSize(|left|);
        && Chunks(left) == [left[..size]] + Chunks(left[size..]) && (Chunks(left[size..]) == [] <==> left[size..] == [])
    {
      var rest := left[ChunkSize(|left|)..];
      assert Chunks(left) == [left[..ChunkSize(|left|)]] + Chunks(rest);
      assert rest != [] ==> Chunks(rest)[0] == rest[..ChunkSize(|rest|)];
    }

    static lemma DropMore(c: seq<seq<byte>>, k: nat, x: seq<byte>, rest: seq<seq<byte>>)
      requires k <= |c| && c[k..] == [x] + rest
      ensures k < |c| && c[k] == x && c[k + 1..] == rest && (k + 1 == |c| <==> rest == [])
    {
      assert c[k..][0] == c[k] && c[k..][1..] == c[k + 1..];
    }

    /** The log after these transfers of the first chunks. */
    static ghost predicate Logged(log: seq<Write>, before: seq<Write>, staging: seq<seq<byte>>, ts: seq<Transfer>,
                                  booted: bool) {
      |ts| <= |staging| && log == before + TransfersOf(staging[..|ts|], Times(ts)) + BootOf(booted, After(ts, 0))
    }

    static lemma LogMore(log: seq<Write>, before: seq<Write>, staging: seq<seq<byte>>, ts: seq<Transfer>,
                         log': seq<Write>, ran: Option<Transfer>, booted: bool)
      requires Logged(log, before, staging, ts, false) && |ts| < |staging| && (booted ==> ran.Some?)
      requires log' == match ran
                       case None => log
                       case Some(t) => log + TransferOf(staging[|ts|], t.begun + 1) + BootOf(booted, t.ended + 1)
      ensures Logged(log', before, staging, if ran.Some? then ts + [ran.value] else ts, booted)
    {
      match ran
      case None =>
      case Some(t) =>
        var k := |ts|;
        TimesMore(ts, t);
        assert staging[..k + 1][..k] == staging[..k] && staging[..k + 1][k] == staging[k];
        assert (Times(ts) + [t.begun + 1])[..k] == Times(ts);
        var transfers := TransfersOf(staging[..k], Times(ts));
        Regroup(before, transfers, TransferOf(staging[k], t.begun + 1));
        assert before + transfers + [] == before + transfers;
        hide TransferOf, Times;
        assert TransfersOf(staging[..k + 1], Times(ts + [t])) == transfers + TransferOf(staging[k], t.begun + 1);
    }

    static lemma StagingAt(image: seq<byte>, copies: seq<Copy>, userland: bool, k: nat)
      requires userland ==> AllFit(copies, Chunks(image))
      requires k < |Chunks(image)|
      ensures userland ==> |copies| == |Chunks(image)|
      ensures var copy := if userland then copies[k] else Copy(0, []);
        Fits(copy, Chunks(image)[k]) && Staging(image, copies, userland)[k] == Staged(Chunks(image)[k], copy)
    {}

    /** Stages and transfers the next chunk of an image. */
    method LoadNext(image: seq<byte>, copies: seq<Copy>, userland: bool, at: nat, k: nat,
                    ghost before: seq<Write>, ghost ts: seq<Transfer>)
      returns (ok: bool, size: nat, ghost ran: Option<Transfer>)
      requires NextEnds(now, asked)
      requires userland ==> AllFit(copies, Chunks(image))
      requires Cut(image, at, k) && at < |image| && k == |ts|
      requires Logged(writes, before, Staging(image, copies, userland), ts, false)
      modifies `now, `slept, `asked, `writes
      ensures old(now) <= now
      ensures ran.Some? <==> StartsAt(old(now), old(asked))
      ensures ran.Some? ==>
        && ran.value.begun == old(now) && ran.value.ended + 1 == now && Ran(ran.value)
        && asked == old(asked) + REQUESTS
      ensures ok <==> ran.Some? && ran.value.outcome == Done
      ensures 0 < size <= |image| - at && Cut(image, at + size, k + 1) && k < |Chunks(image)|
      ensures k + 1 == |Chunks(image)| <==> at + size == |image|
      ensures var booted := ran.Some? && at + size == |image| && modes(old(now)) == Loader;
        Logged(writes, before, Staging(image, copies, userland), if ran.Some? then ts + [ran.value] else ts, booted)
    {
      hide *;
      ghost var log, staging := writes, Staging(image, copies, userland);
      size := ChunkSize(|image| - at);
      var bootNow := |image| - at - size == 0;
      NextChunk(image, at, k);
      StagingAt(image, copies, userland, k);
      var copy := if userland then copies[k] else Copy(0, []);
      ghost var booted := modes(now) == Loader;
      ok, ran := LoadChunk(image[at..at + size], copy, bootNow);
      booted := ran.Some? && bootNow && booted;
      NoBoot(log, now);
      LogMore(log, before, staging, ts, writes, ran, booted);
    }

    static lemma NoBoot(log: seq<Write>, at: nat)
      ensures log + [] + BootOf(false, at) == log && BootOf(false, at) == []
    {}

    /** The last of these transfers was started in loader mode. */
    ghost predicate LastInLoader(ts: seq<Transfer>) {
      ts != [] && modes(ts[|ts| - 1].begun) == Loader
    }

    /**
     Stages and transfers the chunks of an image, one after the other, as long as all goes
     well; `ts` are the transfers it started on.
     */
    method LoadChunks(image: seq<byte>, copies: seq<Copy>, userland: bool) returns (ok: bool, ghost ts: seq<Transfer>)
      requires TransfersEnd(now, asked, |Chunks(image)|)
      requires userland ==> AllFit(copies, Chunks(image))
      modifies `now, `slept, `asked, `writes
      ensures |ts| <= |Chunks(image)| && Series(ts, old(now), old(asked)) && After(ts, old(now)) <= now
      ensures NoNext(ts, |Chunks(image)|, old(now), old(asked))
      ensures ok <==> |ts| == |Chunks(image)| && AllDone(ts)
      ensures ok ==> now == After(ts, old(now)) && asked == old(asked) + REQUESTS * |ts|
      ensures var booted := |ts| == |Chunks(image)| && LastInLoader(ts);
        Logged(writes, old(writes), Staging(image, copies, userland), ts, booted)
    {
      hide *;
      ghost var staging, before, from, first := Staging(image, copies, userland), writes, now, asked;
      var left: nat, at: nat, k: nat := |image|, 0, 0;
      ts := [];
      NothingSoFar(image, staging, writes, now, asked);
      while left > 0
        invariant at + left == |image| && k == |ts| && old(now) <= now
        invariant SoFar(image, staging, before, from, first, at, ts, writes, now, asked)
      {
        ghost var start, log, ran: Option<Transfer> := now, writes, None;
        var size;
        NextOfSoFar(image, staging, before, from, first, at, ts, writes, now, asked);
        ok, size, ran := LoadNext(image, copies, userland, at, k, before, ts);
        OneMore(image, staging, before, from, first, at, ts, log, start, size, ran, writes, now);
        if ok {
          OneMoreDone(image, staging, before, from, first, at, ts, log, size, ran.value, writes);
        }
        if ran.Some? {
          ts := ts + [ran.value];
        }
        if !ok {
          return;
        }
        k := k + 1;
        at := at + size;
        left := left - size;
      }
      ok := true;
      AllSoFar(image, staging, before, from, first, at, ts, writes, now, asked);
    }

    /** The transfers of a load at the top of its loop, with `at` bytes done. */
    ghost predicate SoFar(image: seq<byte>, staging: seq<seq<byte>>, before: seq<Write>, from: nat, first: nat,
                          at: nat, ts: seq<Transfer>, log: seq<Write>, now: nat, asked: nat) {
      && Cut(image, at, |ts|) && |staging| == |Chunks(image)|
      && TransfersEnd(now, asked, |Chunks(image)| - |ts|)
      && Series(ts, from, first) && AllDone(ts) && now == After(ts, from) && asked == first + REQUESTS * |ts|
      && Logged(log, before, staging, ts, at == |image| && LastInLoader(ts))
    }

    lemma NothingSoFar(image: seq<byte>, staging: seq<seq<byte>>, log: seq<Write>, now: nat, asked: nat)
      requires |staging| == |Chunks(image)| && TransfersEnd(now, asked, |Chunks(image)|)
      ensures SoFar(image, staging, log, now, asked, 0, [], log, now, asked)
    {
      NothingLogged(image, log, staging);
      hide Cut, Chunks, TransfersEnd, Logged;
    }

    static lemma NothingLogged(image: seq<byte>, log: seq<Write>, staging: seq<seq<byte>>)
      ensures Cut(image, 0, 0) && Logged(log, log, staging, [], false)
      ensures |image| == 0 <==> |Chunks(image)| == 0
    {
      assert image[0..] == image && staging[..0] == [] && Times([]) == [];
    }

    lemma NextOfSoFar(image: seq<byte>, staging: seq<seq<byte>>, before: seq<Write>, from: nat, first: nat,
                      at: nat, ts: seq<Transfer>, log: seq<Write>, now: nat, asked: nat)
      requires SoFar(image, staging, before, from, first, at, ts, log, now, asked) && at < |image|
      ensures NextEnds(now, asked) && Cut(image, at, |ts|) && Logged(log, before, staging, ts, false)
      ensures asked == first + REQUESTS * |ts| && now == After(ts, from)
    {
      hide Chunks, Series, AllDone, Logged, NextEnds;
      FirstEnds(now, asked, |Chunks(image)| - |ts|);
    }

    /** What a whole load of an image's chunks has done. */
    lemma AllSoFar(image: seq<byte>, staging: seq<seq<byte>>, before: seq<Write>, from: nat, first: nat,
                   at: nat, ts: seq<Transfer>, log: seq<Write>, now: nat, asked: nat)
      requires SoFar(image, staging, before, from, first, at, ts, log, now, asked) && at == |image|
      ensures |ts| == |Chunks(image)| && AllDone(ts) && Series(ts, from, first) && now == After(ts, from)
      ensures asked == first + REQUESTS * |ts| && NoNext(ts, |Chunks(image)|, from, first)
      ensures Logged(log, before, staging, ts, LastInLoader(ts))
    {
      hide Chunks, Series, Logged, TransfersEnd;
    }

    /** What the next turn of the loop adds. */
    lemma OneMore(image: seq<byte>, staging: seq<seq<byte>>, before: seq<Write>, from: nat, first: nat, at: nat,
                  ts: seq<Transfer>, log: seq<Write>, start: nat, size: nat, ran: Option<Transfer>,
                  log': seq<Write>, now: nat)
      requires SoFar(image, staging, before, from, first, at, ts, log, start, first + REQUESTS * |ts|) && at < |image|
      requires start <= now && Cut(image, at + size, |ts| + 1)
      requires ran.Some? ==> ran.value.begun == start && ran.value.ended + 1 == now && Ran(ran.value)
      requires ran.Some? <==> StartsAt(start, first + REQUESTS * |ts|)
      requires var booted := ran.Some? && at + size == |image| && modes(start) == Loader;
        Logged(log', before, staging, if ran.Some? then ts + [ran.value] else ts, booted)
      ensures var more, done := if ran.Some? then ts + [ran.value] else ts, ran.Some? && ran.value.outcome == Done;
        && |more| <= |Chunks(image)| && Series(more, from, first) && After(more, from) <= now
        && (!done ==> NoNext(more, |Chunks(image)|, from, first))
        && Logged(log', before, staging, more, |more| == |Chunks(image)| && LastInLoader(more))
        && (|more| == |Chunks(image)| && AllDone(more) <==> at + size == |image| && done)
    {
      hide Chunks, Series, Logged, TransfersEnd, LastInLoader, Ran, AllDone, After, StartsAt;
      Extended(ts, from, first, ran);
    }

    /** After a transfer that was done the loop goes on. */
    lemma OneMoreDone(image: seq<byte>, staging: seq<seq<byte>>, before: seq<Write>, from: nat, first: nat, at: nat,
                      ts: seq<Transfer>, log: seq<Write>, size: nat, t: Transfer, log': seq<Write>)
      requires SoFar(image, staging, before, from, first, at, ts, log, t.begun, first + REQUESTS * |ts|) && at < |image|
      requires Cut(image, at + size, |ts| + 1) && Ran(t) && t.outcome == Done
      requires StartsAt(t.begun, first + REQUESTS * |ts|)
      requires Logged(log', before, staging, ts + [t], at + size == |image| && modes(t.begun) == Loader)
      ensures SoFar(image, staging, before, from, first, at + size, ts + [t], log', t.ended + 1,
                    first + REQUESTS * |ts| + REQUESTS)
    {
      hide Chunks, Series, Logged, TransfersEnd, LastInLoader, Ran, AllDone, After;
      Extended(ts, from, first, Some(t));
      RestEnds(t.begun, first + REQUESTS * |ts|, |Chunks(image)| - |ts|, t);
    }

    /** A series with what the next turn of the loop adds to it. */
    lemma Extended(ts: seq<Transfer>, from: nat, asked: nat, ran: Option<Transfer>)
      requires Series(ts, from, asked) && AllDone(ts)
      requires ran.Some? ==>
        ran.value.begun == After(ts, from) && Ran(ran.value) && StartsAt(ran.value.begun, asked + REQUESTS * |ts|)
      ensures match ran
        case None => true
        case Some(t) =>
          && Series(ts + [t], from, asked) && (AllDone(ts + [t]) <==> t.outcome == Done)
          && After(ts + [t], from) == t.ended + 1
          && (LastInLoader(ts + [t]) <==> modes(t.begun) == Loader)
          && (ts + [t])[|ts + [t]| - 1] == t
    {
      if ran.Some? {
        SeriesMore(ts, from, asked, ran.value);
      }
    }

    /** The part of the log that transfers of the first of these chunks leave. */
    ghost function Part(chunks: seq<seq<byte>>, ts: seq<Transfer>): seq<Write>
      requires |ts| <= |chunks|
    {
      TransfersOf(chunks[..|ts|], Times(ts)) + BootOf(|ts| == |chunks| && LastInLoader(ts), After(ts, 0))
    }

    /** When the chunks of the image have their turn: after the second stage, if any, and a look at the mode. */
    function ChunksFrom(load: Load, second: seq<seq<byte>>, from: nat): nat {
      if second == [] then from else After(load.second, from) + 1
    }

    /** The second stage, if any, was transferred, and left the device in loader mode. */
    ghost predicate SecondStageDone(load: Load, second: seq<seq<byte>>, from: nat) {
      && |load.second| == |second| && AllDone(load.second)
      && (second != [] ==> modes(After(load.second, from)) == Loader)
    }

    /**
     A load begun at look `from` and request `asked`, with its writes: the second stage first,
     if it is needed, then the chunks, each transfer right after the one before, for as long
     as they start and end well; and a boot only after the last of either. It is a success
     exactly when every transfer was started and its wait ended well.
     */
    ghost predicate Describes(load: Load, log: seq<Write>, before: seq<Write>, staging: seq<seq<byte>>,
                              second: seq<seq<byte>>, from: nat, asked: nat) {
      var begin, done := ChunksFrom(load, second, from), SecondStageDone(load, second, from);
      && |load.second| <= |second| && |load.chunks| <= |staging|
      && Series(load.second, from, asked) && NoNext(load.second, |second|, from, asked)
      && Series(load.chunks, begin, asked + REQUESTS * |second|)
      && (if done then NoNext(load.chunks, |staging|, begin, asked + REQUESTS * |second|) else load.chunks == [])
      && (load.ok <==> done && |load.chunks| == |staging| && AllDone(load.chunks))
      && log == before + Part(second, load.second) + Part(staging, load.chunks)
    }

    lemma NoPart(chunks: seq<seq<byte>>)
      ensures Part(chunks, []) == []
    {
      assert chunks[..0] == [] && Times([]) == [];
    }

    lemma NothingWritten(before: seq<Write>)
      ensures before == before + Part([], [])
    {
      NoPart([]);
    }

    static lemma OneChunk(loader: seq<byte>)
      requires |loader| == LOADER_SIZE
      ensures SecondStage(loader, loader) == [] && Chunks(loader) == [loader] && Staging(loader, [], false) == [loader]
    {
      assert loader[..ChunkSize(|loader|)] == loader && loader[ChunkSize(|loader|)..] == [];
      assert Chunks(loader) == [loader] + Chunks([]);
    }

    /** The second stage's own load, as the first part of the whole one. */
    lemma SecondStageLoaded(load: Load, log: seq<Write>, before: seq<Write>, from: nat, asked: nat)
      requires |loader| == LOADER_SIZE
      requires Describes(load, log, before, Staging(loader, [], false), SecondStage(loader, loader), from, asked)
      ensures load.ok <==> |load.chunks| == 1 && AllDone(load.chunks)
      ensures load.ok ==> Ran(load.chunks[0]) && load.chunks[0].outcome == Done && load.chunks[0].begun == from
      ensures load.ok ==> After(load.chunks, from) == load.chunks[0].ended + 1
      ensures load.ok ==> REQUESTS * (|load.second| + |load.chunks|) == REQUESTS
      ensures ChunksFrom(load, SecondStage(loader, loader), from) == from
      ensures |load.chunks| <= 1 && Series(load.chunks, from, asked) && NoNext(load.chunks, 1, from, asked)
      ensures log == before + Part([loader], load.chunks)
    {
      OneChunk(loader);
      NoPart([]);
      hide TransfersOf, Chunks, BootOf, Staging, Part, Series, SecondStage, Ran, StartsAt;
      assert load.second == [];
      if load.ok {
        SeriesAt(load.chunks, from, asked, 0);
        assert load.chunks[..0] == [];
      }
      assert before + [] == before;
    }

    /** A load that comes no further than its second stage. */
    lemma StoppedEarly(load: Load, log: seq<Write>, before: seq<Write>, staging: seq<seq<byte>>, from: nat, asked: nat)
      requires load.chunks == [] && !load.ok
      requires |load.second| <= 1 && Series(load.second, from, asked) && NoNext(load.second, 1, from, asked)
      requires |load.second| == 1 && AllDone(load.second) ==> modes(After(load.second, from)) != Loader
      requires log == before + Part([loader], load.second)
      ensures Describes(load, log, before, staging, [loader], from, asked)
    {
      NoPart(staging);
      hide Part, NoNext;
      assert log + [] == log;
    }

    /** A load that comes to its chunks. */
    lemma ChunksLoaded(load: Load, middle: seq<Write>, before: seq<Write>, staging: seq<seq<byte>>,
                       second: seq<seq<byte>>, log: seq<Write>, from: nat, asked: nat)
      requires Series(load.second, from, asked) && NoNext(load.second, |second|, from, asked)
      requires SecondStageDone(load, second, from)
      requires middle == before + Part(second, load.second)
      requires |load.chunks| <= |staging|
      requires Series(load.chunks, ChunksFrom(load, second, from), asked + REQUESTS * |second|)
      requires NoNext(load.chunks, |staging|, ChunksFrom(load, second, from), asked + REQUESTS * |second|)
      requires load.ok <==> |load.chunks| == |staging| && AllDone(load.chunks)
      requires Logged(log, middle, staging, load.chunks, |load.chunks| == |staging| && LastInLoader(load.chunks))
      ensures Describes(load, log, before, staging, second, from, asked)
    {
      hide TransfersOf, BootOf, Series, AllDone, Times, LastInLoader;
      Regroup(middle, TransfersOf(staging[..|load.chunks|], Times(load.chunks)),
              BootOf(|load.chunks| == |staging| && LastInLoader(load.chunks), After(load.chunks, 0)));
      assert log == middle + Part(staging, load.chunks);
    }

    // ---- what every load has done ------------------------------------------------------------------

    /**
     However a load went: the device fetched the second stage, if it is needed, and then a
     prefix of the staged chunks, byte for byte, each when it was found ready for it and
     before the wait for it began; it was told to boot once after the last of either, each
     time if it was in loader mode; and only the last transfer started can have failed.
     */
    lemma FetchesInOrder(load: Load, log: seq<Write>, before: seq<Write>, staging: seq<seq<byte>>,
                         second: seq<seq<byte>>, from: nat, asked: nat)
      requires Describes(load, log, before, staging, second, from, asked) && AllSmall(second) && AllSmall(staging)
      ensures Payloads(log) == Payloads(before) + second[..|load.second|] + staging[..|load.chunks|]
      ensures Told(log, PENDING) == Told(before, PENDING) + Times(load.second) + Times(load.chunks)
      ensures Told(log, BOOT)
           == Told(before, BOOT)
              + (if |load.second| == |second| && LastInLoader(load.second) then [After(load.second, 0)] else [])
              + (if |load.chunks| == |staging| && LastInLoader(load.chunks) then [After(load.chunks, 0)] else [])
      ensures |load.chunks| == |staging| && LastInLoader(load.chunks) ==>
        log != [] && log[|log| - 1] == Status(After(load.chunks, 0), BOOT)
      ensures var ts := load.second + load.chunks;
        forall i :: 0 <= i < |ts| ==> Ran(ts[i]) && (i < |ts| - 1 ==> ts[i].outcome == Done)
    {
      LogIs(load, log, before, staging, second, from, asked);
      PartLog(before, second, load.second);
      PartLog(before + Part(second, load.second), staging, load.chunks);
      OnlyLastFails(load, log, before, staging, second, from, asked);
      BootLast(before + Part(second, load.second), staging, load.chunks);
      hide *;
    }

    lemma LogIs(load: Load, log: seq<Write>, before: seq<Write>, staging: seq<seq<byte>>,
                second: seq<seq<byte>>, from: nat, asked: nat)
      requires Describes(load, log, before, staging, second, from, asked)
      ensures |load.second| <= |second| && |load.chunks| <= |staging|
      ensures log == before + Part(second, load.second) + Part(staging, load.chunks)
    {}

    lemma PartLog(log: seq<Write>, chunks: seq<seq<byte>>, ts: seq<Transfer>)
      requires |ts| <= |chunks| && AllSmall(chunks)
      ensures Payloads(log + Part(chunks, ts)) == Payloads(log) + chunks[..|ts|]
      ensures Told(log + Part(chunks, ts), PENDING) == Told(log, PENDING) + Times(ts)
      ensures Told(log + Part(chunks, ts), BOOT)
           == Told(log, BOOT) + if |ts| == |chunks| && LastInLoader(ts) then [After(ts, 0)] else []
    {
      assert AllSmall(chunks[..|ts|]);
      hide AllSmall, Payloads, Told, TransfersOf, BootOf, Times, LastInLoader;
      LoadLog(log, chunks[..|ts|], Times(ts), |ts| == |chunks| && LastInLoader(ts), After(ts, 0));
    }

    lemma BootLast(log: seq<Write>, chunks: seq<seq<byte>>, ts: seq<Transfer>)
      requires |ts| <= |chunks|
      ensures |ts| == |chunks| && LastInLoader(ts) ==>
        var after := log + Part(chunks, ts);
        after != [] && after[|after| - 1] == Status(After(ts, 0), BOOT)
    {
      hide TransfersOf, Times;
    }

    lemma OnlyLastFails(load: Load, log: seq<Write>, before: seq<Write>, staging: seq<seq<byte>>,
                        second: seq<seq<byte>>, from: nat, asked: nat)
      requires Describes(load, log, before, staging, second, from, asked)
      ensures var ts := load.second + load.chunks;
        forall i :: 0 <= i < |ts| ==> Ran(ts[i]) && (i < |ts| - 1 ==> ts[i].outcome == Done)
    {
      var ts := load.second + load.chunks;
      hide Series, Ran, NoNext, Part;
      forall i | 0 <= i < |ts|
        ensures Ran(ts[i]) && (i < |ts| - 1 ==> ts[i].outcome == Done)
      {
        if i < |load.second| {
          SeriesAt(load.second, from, asked, i);
        } else {
          SeriesAt(load.chunks, ChunksFrom(load, second, from), asked + REQUESTS * |second|, i - |load.second|);
        }
      }
    }

    /**
     A load that succeeds makes the device fetch the whole image, if no copy from user memory
     failed: in as few chunks of at most 4 MiB as will hold it, and the device has come to
     the end of the transfer of each.
     */
    lemma SuccessCovers(load: Load, log: seq<Write>, before: seq<Write>, image: seq<byte>, copies: seq<Copy>,
                        userland: bool, from: nat, asked: nat)
      requires userland ==> AllFit(copies, Chunks(image)) && NothingMissing(copies)
      requires |loader| == LOADER_SIZE
      requires Describes(load, log, before, Staging(image, copies, userland), SecondStage(image, loader), from, asked)
      requires load.ok
      ensures var n := |Payloads(before)| + if |image| > MAX_CHUNK then 1 else 0;
        && n <= |Payloads(log)| && Concat(Payloads(log)[n..]) == image
        && |Payloads(log)[n..]| == CeilDiv(|image|, MAX_CHUNK)
        && (forall i :: n <= i < |Payloads(log)| ==> |Payloads(log)[i]| <= MAX_CHUNK)
        && (|image| > MAX_CHUNK ==> Payloads(log)[n - 1] == loader)
      ensures |load.chunks| == CeilDiv(|image|, MAX_CHUNK)
      ensures forall t :: t in load.second || t in load.chunks ==>
        EndsAt(modes, statuses, modes(t.begun), t.begun + 1, t.ended, Done)
      ensures image != [] && (forall t: nat :: from <= t ==> modes(t) == Loader) ==>
        log != [] && Says(log[|log| - 1], BOOT)
    {
      hide *;
      var staging, second := Staging(image, copies, userland), SecondStage(image, loader);
      StagingSmall(image, copies, userland);
      SecondStageFor(image);
      FetchesInOrder(load, log, before, staging, second, from, asked);
      EverythingDone(load, log, before, staging, second, from, asked);
      EndedWell(load, second);
      StagedWhole(image, copies, userland);
      ImageOnLog(image, Payloads(before) + second, Payloads(log));
      SaysBoot();
      assert second[..|second|] == second && staging[..|staging|] == staging;
    }

    static lemma SaysBoot()
      ensures forall at :: Says(Status(at, BOOT), BOOT)
    {}

    /** What a successful load has done. */
    lemma EverythingDone(load: Load, log: seq<Write>, before: seq<Write>, staging: seq<seq<byte>>,
                         second: seq<seq<byte>>, from: nat, asked: nat)
      requires Describes(load, log, before, staging, second, from, asked) && load.ok
      ensures |load.second| == |second| && AllDone(load.second) && |load.chunks| == |staging| && AllDone(load.chunks)
      ensures (forall t: nat :: from <= t ==> modes(t) == Loader) ==>
        && (staging != [] ==> LastInLoader(load.chunks))
        && (second != [] ==> LastInLoader(load.second))
    {
      hide Series, AllDone, Part, Ran, NoNext;
      var begin := ChunksFrom(load, second, from);
      SeriesForward(load.second, from, asked);
      if staging != [] {
        SeriesAt(load.chunks, begin, asked + REQUESTS * |second|, |load.chunks| - 1);
      }
      if second != [] {
        SeriesAt(load.second, from, asked, |load.second| - 1);
      }
    }

    lemma SecondStageFor(image: seq<byte>)
      ensures SecondStage(image, loader) == if |image| > MAX_CHUNK then [loader] else []
      ensures |loader| == LOADER_SIZE ==> AllSmall(SecondStage(image, loader))
      ensures REQUESTS * |SecondStage(image, loader)| == if |image| > MAX_CHUNK then REQUESTS else 0
    {}

    static lemma StagedWhole(image: seq<byte>, copies: seq<Copy>, userland: bool)
      requires userland ==> AllFit(copies, Chunks(image)) && NothingMissing(copies)
      ensures Staging(image, copies, userland) == Chunks(image) && (image != [] ==> Chunks(image) != [])
    {
      if userland {
        CompleteIsExact(Chunks(image), copies);
      }
    }

    /** What is fetched after the second stage makes up the image. */
    static lemma ImageOnLog(image: seq<byte>, earlier: seq<seq<byte>>, fetched: seq<seq<byte>>)
      requires fetched == earlier + Chunks(image)
      ensures var n := |earlier|;
        && n <= |fetched| && Concat(fetched[n..]) == image
        && |fetched[n..]| == |Chunks(image)| == CeilDiv(|image|, MAX_CHUNK)
        && (forall i :: n <= i < |fetched| ==> |fetched[i]| <= MAX_CHUNK)
        && (forall i :: 0 <= i < n ==> fetched[i] == earlier[i])
    {
      ChunksCover(image);
      hide Chunks, Concat, CeilDiv;
      assert fetched[|earlier|..] == Chunks(image);
    }

    lemma EndedWell(load: Load, second: seq<seq<byte>>)
      requires AllDone(load.second) && AllDone(load.chunks)
      requires var ts := load.second + load.chunks; forall i :: 0 <= i < |ts| ==> Ran(ts[i])
      ensures forall t :: t in load.second || t in load.chunks ==>
        EndsAt(modes, statuses, modes(t.begun), t.begun + 1, t.ended, Done)
    {
      var ts := load.second + load.chunks;
      hide EndsAt;
      forall t | t in load.second || t in load.chunks
        ensures EndsAt(modes, statuses, modes(t.begun), t.begun + 1, t.ended, Done)
      {
        assert t in ts && t.outcome == Done;
        var i :| 0 <= i < |ts| && ts[i] == t;
        assert Ran(ts[i]);
      }
    }

    // ---- there is only one way it can go ----------------------------------------------------------------

    /** What the device reads as and what is granted determine a load and all that it writes. */
    lemma LoadIsDetermined(a: Load, logA: seq<Write>, b: Load, logB: seq<Write>, before: seq<Write>,
                           staging: seq<seq<byte>>, second: seq<seq<byte>>, from: nat, asked: nat)
      requires Describes(a, logA, before, staging, second, from, asked)
      requires Describes(b, logB, before, staging, second, from, asked)
      ensures a == b && logA == logB
    {
      hide Series, NoNext, Part, AllDone, Ran;
      SameSeries(a.second, b.second, |second|, from, asked);
      if SecondStageDone(a, second, from) {
        SameSeries(a.chunks, b.chunks, |staging|, ChunksFrom(a, second, from), asked + REQUESTS * |second|);
      }
    }

    lemma SameSeries(a: seq<Transfer>, b: seq<Transfer>, n: nat, from: nat, asked: nat)
      requires Series(a, from, asked) && NoNext(a, n, from, asked) && |a| <= n
      requires Series(b, from, asked) && NoNext(b, n, from, asked) && |b| <= n
      ensures a == b
    {
      hide Series, Ran, NoNext, StartsAt;
      if |a| <= |b| {
        SamePrefix(a, b, n, from, asked);
      } else {
        SamePrefix(b, a, n, from, asked);
      }
    }

    lemma SamePrefix(a: seq<Transfer>, b: seq<Transfer>, n: nat, from: nat, asked: nat)
      requires Series(a, from, asked) && NoNext(a, n, from, asked) && |a| <= |b| <= n && Series(b, from, asked)
      ensures a == b
    {
      hide Series, Ran, StartsAt;
      CommonPrefix(a, b, from, asked, |a|);
      assert a[..|a|] == a && b[..|b|] == b;
      if |a| < |b| {
        LongerContinues(a, b, from, asked);
        assert false;
      }
    }

    /** Where a longer series goes on, the shorter one would have. */
    lemma LongerContinues(a: seq<Transfer>, b: seq<Transfer>, from: nat, asked: nat)
      requires |a| < |b| && a == b[..|a|] && Series(b, from, asked)
      ensures StartsAt(After(a, from), asked + REQUESTS * |a|) && (a != [] ==> a[|a| - 1].outcome == Done)
    {
      hide Series, Ran, StartsAt;
      SeriesAt(b, from, asked, |a|);
      if a != [] {
        SeriesAt(b, from, asked, |a| - 1);
      }
    }

    lemma {:induction false} CommonPrefix(a: seq<Transfer>, b: seq<Transfer>, from: nat, asked: nat, k: nat)
      requires Series(a, from, asked) && Series(b, from, asked) && k <= |a| && k <= |b|
      ensures a[..k] == b[..k]
    {
      hide *;
      if 0 < k {
        CommonPrefix(a, b, from, asked, k - 1);
        SeriesAt(a, from, asked, k - 1);
        SeriesAt(b, from, asked, k - 1);
        SameTransfer(a[k - 1], b[k - 1]);
        assert a[..k] == a[..k - 1] + [a[k - 1]] && b[..k] == b[..k - 1] + [b[k - 1]];
      }
    }

    lemma SameTransfer(t: Transfer, u: Transfer)
      requires Ran(t) && Ran(u) && t.begun == u.begun
      ensures t == u
    {
      EndsOnce(modes, statuses, modes(t.begun), t.begun + 1, t.ended, t.outcome, u.ended, u.outcome);
    }

    // ---- boots that come too early or too often ---------------------------------------------------

    ghost predicate AlwaysGranted() {
      forall n: nat :: granted(n)
    }

    /** In loader mode, ready once, and in error ever after. */
    ghost predicate FailsAtOnce() {
      forall t: nat :: modes(t) == Loader && statuses(t) == if t == 0 then READY else DMA_ERROR
    }

    /** Such a device is told to boot an image that it has failed to fetch. */
    lemma BootsAfterFailure(load: Load, log: seq<Write>, before: seq<Write>, image: seq<byte>, copies: seq<Copy>,
                            userland: bool, asked: nat)
      requires FailsAtOnce() && AlwaysGranted() && 0 < |image| <= MAX_CHUNK
      requires userland ==> AllFit(copies, Chunks(image))
      requires Describes(load, log, before, Staging(image, copies, userland), SecondStage(image, loader), 0, asked)
      ensures load == Load(false, [], [Transfer(0, ProtocolError, 1)])
      ensures Told(log, BOOT) == Told(before, BOOT) + [2]
    {
      hide *;
      var staging, second := Staging(image, copies, userland), SecondStage(image, loader);
      OnlyChunk(image);
      SecondStageFor(image);
      StagingSmall(image, copies, userland);
      NoSecond(load, log, before, staging, second, 0, asked);
      NoneSmall();
      OneFails(load.chunks, asked);
      FetchesInOrder(load, log, before, staging, second, 0, asked);
    }

    static lemma OnlyChunk(image: seq<byte>)
      requires 0 < |image| <= MAX_CHUNK
      ensures |Chunks(image)| == 1
    {
      ChunksCover(image);
      hide Chunks, Concat;
    }

    /** A load that needs no second stage. */
    lemma NoSecond(load: Load, log: seq<Write>, before: seq<Write>, staging: seq<seq<byte>>, second: seq<seq<byte>>,
                   from: nat, asked: nat)
      requires Describes(load, log, before, staging, second, from, asked) && second == []
      ensures load.second == [] && AllDone([]) && |load.chunks| <= |staging|
      ensures Series(load.chunks, from, asked) && NoNext(load.chunks, |staging|, from, asked)
      ensures load.ok <==> |load.chunks| == |staging| && AllDone(load.chunks)
      ensures !LastInLoader([])
    {
      hide Series, NoNext, Part;
    }

    lemma OneFails(ts: seq<Transfer>, asked: nat)
      requires FailsAtOnce() && AlwaysGranted()
      requires Series(ts, 0, asked) && NoNext(ts, 1, 0, asked) && |ts| <= 1
      ensures ts == [Transfer(0, ProtocolError, 1)] && !AllDone(ts) && LastInLoader(ts) && After(ts, 0) == 2
    {
      assert EndsAt(modes, statuses, modes(0), 1, 1, ProtocolError);
      if ts != [] {
        SeriesAt(ts, 0, asked, 0);
        EndsOnce(modes, statuses, modes(0), 1, ts[0].ended, ts[0].outcome, 1, ProtocolError);
        assert ts[0].outcome != Done;
      }
      hide Series, EndsAt;
    }

    /** And there is such a load. */
    lemma FailureHappens(staging: seq<seq<byte>>, asked: nat) returns (load: Load, log: seq<Write>)
      requires FailsAtOnce() && AlwaysGranted() && |staging| == 1
      ensures Describes(load, log, [], staging, [], 0, asked)
    {
      hide *;
      var t := Transfer(0, ProtocolError, 1);
      OneFailed(t, asked);
      NoStages(Load(false, [], []), 0, asked);
      SecondStageIn(Load(false, [], []), [], 0);
      load := Load(false, [], [t]);
      log := [] + Part(staging, [t]);
      NoPart([]);
      PartLogged([], staging, [t]);
      assert REQUESTS * |load.second| == 0;
      ChunksLoaded(load, [], [], staging, [], log, 0, asked);
    }

    lemma OneFailed(t: Transfer, asked: nat)
      requires FailsAtOnce() && AlwaysGranted() && t == Transfer(0, ProtocolError, 1)
      ensures Series([t], 0, asked) && NoNext([t], 1, 0, asked) && !AllDone([t])
    {
      assert EndsAt(modes, statuses, modes(0), 1, 1, ProtocolError);
      hide EndsAt;
      SeriesMore([], 0, asked, t);
      assert [] + [t] == [t];
    }

    lemma PartLogged(middle: seq<Write>, staging: seq<seq<byte>>, ts: seq<Transfer>)
      requires |ts| <= |staging|
      ensures Logged(middle + Part(staging, ts), middle, staging, ts, |ts| == |staging| && LastInLoader(ts))
    {
      hide TransfersOf, Times, LastInLoader, BootOf;
      Regroup(middle, TransfersOf(staging[..|ts|], Times(ts)),
              BootOf(|ts| == |staging| && LastInLoader(ts), After(ts, 0)));
    }

    /** In loader mode, and done with everything at once. */
    ghost predicate DoneAtOnce() {
      forall t: nat :: modes(t) == Loader && statuses(t) == DMA_DONE
    }

    /**
     The load of a large image into such a device is a success, and the device is told to
     boot twice, before the first chunk of the image and after the last.
     */
    lemma BootsTwice(load: Load, log: seq<Write>, before: seq<Write>, image: seq<byte>, copies: seq<Copy>,
                     userland: bool, from: nat, asked: nat)
      requires DoneAtOnce() && AlwaysGranted() && |image| > MAX_CHUNK && |loader| == LOADER_SIZE
      requires userland ==> AllFit(copies, Chunks(image))
      requires Describes(load, log, before, Staging(image, copies, userland), SecondStage(image, loader), from, asked)
      ensures load.ok
      ensures Told(log, BOOT) == Told(before, BOOT) + [After(load.second, from), After(load.chunks, from)]
      ensures |Told(log, PENDING)| == |Told(before, PENDING)| + 1 + CeilDiv(|image|, MAX_CHUNK)
    {
      hide *;
      var staging, second := Staging(image, copies, userland), SecondStage(image, loader);
      StagingSmall(image, copies, userland);
      SecondStageFor(image);
      ChunksCover(image);
      AllSucceed(load, log, before, staging, second, from, asked);
      EverythingDone(load, log, before, staging, second, from, asked);
      NonEmpty(image);
      AlwaysLoader();
      AfterNonEmpty(load.second, from);
      AfterNonEmpty(load.chunks, from);
      FetchesInOrder(load, log, before, staging, second, from, asked);
    }

    /** And there is such a load. */
    lemma DoubleBootHappens(image: seq<byte>, asked: nat) returns (load: Load, log: seq<Write>)
      requires DoneAtOnce() && AlwaysGranted() && |image| > MAX_CHUNK
      ensures Describes(load, log, [], Chunks(image), SecondStage(image, loader), 0, asked) && load.ok
    {
      hide *;
      var stages, staging := SecondStage(image, loader), Chunks(image);
      SecondStageFor(image);
      var second, ts := Smooth(0, 1), Smooth(3, |staging|);
      SmoothRuns(0, asked, 1);
      SmoothRuns(3, asked + REQUESTS, |staging|);
      AlwaysLoader();
      SecondStageIn(Load(false, second, []), stages, 0);
      load := Load(true, second, ts);
      var middle := [] + Part(stages, second);
      log := middle + Part(staging, ts);
      PartLogged(middle, staging, ts);
      ChunksLoaded(load, middle, [], staging, stages, log, 0, asked);
    }

    static ghost function Smooth(from: nat, n: nat): (ts: seq<Transfer>)
      ensures |ts| == n && AllDone(ts)
    {
      if n == 0 then [] else Smooth(from, n - 1) + [Transfer(from + 2 * n - 2, Done, from + 2 * n - 1)]
    }

    lemma {:induction false} SmoothRuns(from: nat, asked: nat, n: nat)
      requires DoneAtOnce() && AlwaysGranted()
      ensures Series(Smooth(from, n), from, asked) && After(Smooth(from, n), from) == from + 2 * n
      ensures NoNext(Smooth(from, n), n, from, asked)
    {
      if 0 < n {
        SmoothRuns(from, asked, n - 1);
        var t := Transfer(from + 2 * n - 2, Done, from + 2 * n - 1);
        assert EndsAt(modes, statuses, modes(t.begun), t.begun + 1, t.ended, Done);
        hide EndsAt;
        SeriesMore(Smooth(from, n - 1), from, asked, t);
      }
    }

    lemma AfterNonEmpty(ts: seq<Transfer>, from: nat)
      ensures ts != [] ==> After(ts, from) == After(ts, 0)
    {}

    lemma AlwaysLoader()
      requires DoneAtOnce()
      ensures forall t: nat :: modes(t) == Loader
    {}

    static lemma NonEmpty(image: seq<byte>)
      requires |image| > MAX_CHUNK
      ensures Chunks(image) != []
    {}

    lemma AllSucceed(load: Load, log: seq<Write>, before: seq<Write>, staging: seq<seq<byte>>, second: seq<seq<byte>>,
                     from: nat, asked: nat)
      requires DoneAtOnce() && AlwaysGranted()
      requires Describes(load, log, before, staging, second, from, asked)
      ensures load.ok
    {
      hide Series, NoNext, Part, Ran;
      NoneStops(load.second, |second|, from, asked);
      NoneStops(load.chunks, |staging|, ChunksFrom(load, second, from), asked + REQUESTS * |second|);
    }

    lemma NoneStops(ts: seq<Transfer>, n: nat, from: nat, asked: nat)
      requires DoneAtOnce() && AlwaysGranted() && Series(ts, from, asked) && |ts| <= n
      ensures AllDone(ts) && (NoNext(ts, n, from, asked) ==> |ts| == n)
    {
      hide Series;
      forall i | 0 <= i < |ts|
        ensures ts[i].outcome == Done
      {
        SeriesAt(ts, from, asked, i);
        var t := ts[i];
        assert EndsAt(modes, statuses, modes(t.begun), t.begun + 1, t.begun + 1, Done);
        EndsOnce(modes, statuses, modes(t.begun), t.begun + 1, t.ended, t.outcome, t.begun + 1, Done);
      }
    }

    // ---- the load call ---------------------------------------------------------------------------

    /** Loads an image, one larger than 4 MiB by way of the second-stage loader. */
    method LoadImage(image: seq<byte>, copies: seq<Copy>, userland: bool) returns (r: int, ghost load: Load)
      requires LoadEnds(image, now, asked) && |loader| == LOADER_SIZE
      requires userland ==> AllFit(copies, Chunks(image))
      modifies `now, `slept, `asked, `writes
      ensures Describes(load, writes, old(writes),
                        Staging(image, copies, userland), SecondStage(image, loader), old(now), old(asked))
      ensures r == if load.ok then AsInt(|image|) else -1
      ensures load.ok ==>
        && now == After(load.chunks, ChunksFrom(load, SecondStage(image, loader), old(now)))
        && asked == old(asked) + REQUESTS * (|load.second| + |load.chunks|)
      decreases |image|
    {
      hide *;
      ghost var before, from, first := writes, now, asked;
      ghost var staging, stages := Staging(image, copies, userland), SecondStage(image, loader);
      SecondStageFor(image);
      LoaderIsSmall();
      NothingWritten(before);
      load := Load(false, [], []);
      if |image| > MAX_CHUNK {
        ghost var second;
        SecondStageEnds(image, now, asked);
        r, second := LoadImage(loader, [], false);
        load := Load(false, second.chunks, []);
        SecondStageLoaded(second, writes, before, from, first);
        if r != |loader| {
          StoppedEarly(load, writes, before, staging, from, first);
          return -1, load;
        }
        var mode := modes(now);
        now := now + 1;
        if mode != Loader {
          StoppedEarly(load, writes, before, staging, from, first);
          return -1, load;
        }
        ChunksEnd(image, from, first, second.chunks[0]);
      } else {
        ImageEnds(image, now, asked);
        NoStages(load, from, first);
      }
      SecondStageIn(load, stages, from);
      ghost var middle, start := writes, load;
      var ok;
      ghost var ts;
      ok, ts := LoadChunks(image, copies, userland);
      load := start.(ok := ok, chunks := ts);
      ChunksLoaded(load, middle, before, staging, stages, writes, from, first);
      r := if ok then AsInt(|image|) else -1;
    }

    lemma NoStages(load: Load, from: nat, asked: nat)
      requires load.second == []
      ensures Series(load.second, from, asked) && NoNext(load.second, 0, from, asked) && AllDone(load.second)
    {}

    lemma SecondStageIn(load: Load, second: seq<seq<byte>>, from: nat)
      requires |load.second| == |second| && AllDone(load.second)
      requires second != [] ==> modes(After(load.second, from)) == Loader
      ensures forall ok, ts :: SecondStageDone(load.(ok := ok, chunks := ts), second, from)
      ensures forall ok, ts :: ChunksFrom(load.(ok := ok, chunks := ts), second, from)
                            == if second == [] then from else After(load.second, from) + 1
    {}

    lemma LoaderIsSmall()
      requires |loader| == LOADER_SIZE
      ensures |loader| <= MAX_CHUNK && AsInt(|loader|) == |loader| && SecondStage(loader, loader) == []
    {}
  }
}
