/** How a boot image is cut into chunks, and what a load leaves in the log of register writes. */
module BootImage {
  import opened BootPolling
  import opened Bytes
  import opened Sequences

  /** The largest contiguous buffer, 4 MiB. */
  const MAX_CHUNK: nat := 4 * 1024 * 1024

  /** The size of the second-stage loader. */
  const LOADER_SIZE: nat := 72272

  /**
   Register writes: the address, as what is staged there, and the length of a transfer; the
   status register. A write comes after the first `at` looks at the device.
   */
  datatype Write = Start(at: nat, staged: seq<byte>) | Length(at: nat, value: u32) | Status(at: nat, value: u32)

  /** The outcome of a copy from user memory: how many bytes are missing, and what is in their place. */
  datatype Copy = Copy(uncopied: nat, stale: seq<byte>)

  function ChunkSize(left: nat): (size: nat)
    ensures size <= left && size <= MAX_CHUNK && (0 < left ==> 0 < size)
  {
    if left > MAX_CHUNK then MAX_CHUNK else left
  }

  function Chunks(image: seq<byte>): seq<seq<byte>> {
    if image == [] then [] else [image[..ChunkSize(|image|)]] + Chunks(image[ChunkSize(|image|)..])
  }

  function Concat(parts: seq<seq<byte>>): seq<byte> {
    if parts == [] then [] else parts[0] + Concat(parts[1..])
  }

  function CeilDiv(n: nat, d: nat): nat
    requires 0 < d
  {
    (n + d - 1) / d
  }

  /** An image is cut into as few chunks as will hold it, none empty, and they make up the image. */
  lemma {:induction false} ChunksCover(image: seq<byte>)
    ensures Concat(Chunks(image)) == image && |Chunks(image)| == CeilDiv(|image|, MAX_CHUNK)
    ensures forall i :: 0 <= i < |Chunks(image)| ==> 0 < |Chunks(image)[i]| <= MAX_CHUNK
    ensures forall i :: 0 <= i < |Chunks(image)| - 1 ==> |Chunks(image)[i]| == MAX_CHUNK
    decreases |image|
  {
    if image != [] {
      var n := ChunkSize(|image|);
      var rest := Chunks(image[n..]);
      ChunksCover(image[n..]);
      assert Chunks(image)[1..] == rest;
      assert image == image[..n] + image[n..];
      if rest == [] {
        assert image[n..] == [];
      }
    }
  }

  // ---- staging ----------------------------------------------------------------------------------

  predicate Fits(copy: Copy, chunk: seq<byte>) {
    copy.uncopied == |copy.stale| <= |chunk|
  }

  /** A chunk as it is in the kernel's buffer after the copy, whose failure is only reported. */
  function Staged(chunk: seq<byte>, copy: Copy): seq<byte>
    requires Fits(copy, chunk)
  {
    chunk[..|chunk| - copy.uncopied] + copy.stale
  }

  ghost predicate AllFit(copies: seq<Copy>, chunks: seq<seq<byte>>) {
    |copies| == |chunks| && forall i :: 0 <= i < |chunks| ==> Fits(copies[i], chunks[i])
  }

  function StagedChunks(chunks: seq<seq<byte>>, copies: seq<Copy>): (s: seq<seq<byte>>)
    requires AllFit(copies, chunks)
    ensures |s| == |chunks| && forall i :: 0 <= i < |s| ==> s[i] == Staged(chunks[i], copies[i])
  {
    seq(|chunks|, i requires 0 <= i < |chunks| => Staged(chunks[i], copies[i]))
  }

  ghost predicate NothingMissing(copies: seq<Copy>) {
    forall i :: 0 <= i < |copies| ==> copies[i].uncopied == 0
  }

  lemma CompleteIsExact(chunks: seq<seq<byte>>, copies: seq<Copy>)
    requires AllFit(copies, chunks) && NothingMissing(copies)
    ensures StagedChunks(chunks, copies) == chunks
  {
    forall i | 0 <= i < |chunks|
      ensures Staged(chunks[i], copies[i]) == chunks[i]
    {
      assert copies[i].stale == [];
    }
  }

  lemma {:induction false} SameParts(a: seq<seq<byte>>, b: seq<seq<byte>>)
    requires |a| == |b| && Concat(a) == Concat(b) && forall i :: 0 <= i < |a| ==> |a[i]| == |b[i]|
    ensures a == b
  {
    if a != [] {
      assert a[0] == Concat(a)[..|a[0]|] && b[0] == Concat(b)[..|b[0]|];
      assert Concat(a[1..]) == Concat(a)[|a[0]|..] && Concat(b[1..]) == Concat(b)[|b[0]|..];
      SameParts(a[1..], b[1..]);
      assert a == [a[0]] + a[1..] && b == [b[0]] + b[1..];
    }
  }

  /** The same copies with other bytes in place of the missing ones. */
  ghost predicate SameFaults(copies: seq<Copy>, other: seq<Copy>) {
    |copies| == |other| && forall i :: 0 <= i < |copies| ==> copies[i].uncopied == other[i].uncopied
  }

  /** Every missing byte replaced by a wrong one. */
  function Spoiled(chunk: seq<byte>, uncopied: nat): (copy: Copy)
    requires uncopied <= |chunk|
    ensures Fits(copy, chunk) && copy.uncopied == uncopied
    ensures 0 < uncopied ==> Staged(chunk, copy) != chunk
  {
    var from := |chunk| - uncopied;
    var copy := Copy(uncopied, seq(uncopied, i requires 0 <= i < uncopied => if chunk[from + i] == 0 then 1 else 0));
    assert 0 < uncopied ==> Staged(chunk, copy)[from] != chunk[from];
    copy
  }

  /**
   The chunks handed to the device make up the image, whatever was in the staging buffers
   before, when no copy from user memory fails, and only then.
   */
  lemma ArrivesExactlyWhenCopied(image: seq<byte>, copies: seq<Copy>)
    requires AllFit(copies, Chunks(image))
    ensures (forall other :: SameFaults(copies, other) && AllFit(other, Chunks(image)) ==>
               Concat(StagedChunks(Chunks(image), other)) == image)
        <==> NothingMissing(copies)
  {
    var chunks := Chunks(image);
    ChunksCover(image);
    hide Concat, Chunks;
    if NothingMissing(copies) {
      forall other | SameFaults(copies, other) && AllFit(other, chunks)
        ensures Concat(StagedChunks(chunks, other)) == image
      {
        CompleteIsExact(chunks, other);
      }
    } else {
      var other := Spoils(chunks, copies);
      assert Concat(StagedChunks(chunks, other)) != image;
    }
  }

  /** What the staging buffers could have held for a failed copy to show. */
  lemma Spoils(chunks: seq<seq<byte>>, copies: seq<Copy>) returns (other: seq<Copy>)
    requires AllFit(copies, chunks) && !NothingMissing(copies)
    ensures SameFaults(copies, other) && AllFit(other, chunks)
    ensures Concat(StagedChunks(chunks, other)) != Concat(chunks)
  {
    var k :| 0 <= k < |copies| && copies[k].uncopied != 0;
    other := copies[k := Spoiled(chunks[k], copies[k].uncopied)];
    var staged := StagedChunks(chunks, other);
    assert staged[k] != chunks[k];
    hide Concat;
    if Concat(staged) == Concat(chunks) {
      SameParts(staged, chunks);
      assert false;
    }
  }

  // ---- the log of a load ------------------------------------------------------------------------

  /** The writes that start the transfer of one chunk. */
  function TransferOf(chunk: seq<byte>, at: nat): seq<Write> {
    [Start(at, chunk), Length(at, |chunk| % U32_MODULUS), Status(at, PENDING)]
  }

  function TransfersOf(chunks: seq<seq<byte>>, ats: seq<nat>): seq<Write>
    requires |chunks| == |ats|
  {
    if chunks == [] then
      []
    else
      var k := |chunks| - 1;
      TransfersOf(chunks[..k], ats[..k]) + TransferOf(chunks[k], ats[k])
  }

  function BootOf(booted: bool, at: nat): seq<Write> {
    if booted then [Status(at, BOOT)] else []
  }

  // ---- what a device makes of it ------------------------------------------------------------------

  /** What is staged at the address last written. */
  function LastStart(log: seq<Write>): seq<byte> {
    if log == [] then [] else if log[|log| - 1].Start? then log[|log| - 1].staged else LastStart(log[..|log| - 1])
  }

  function LastLength(log: seq<Write>): nat {
    if log == [] then 0 else if log[|log| - 1].Length? then log[|log| - 1].value else LastLength(log[..|log| - 1])
  }

  /** So many bytes from an address at which these are staged; what lies behind them is taken for zeros. */
  function Fetch(staged: seq<byte>, length: nat): (bytes: seq<byte>)
    ensures |bytes| == length
  {
    if length <= |staged| then staged[..length] else staged + seq(length - |staged|, _ => 0)
  }

  predicate Says(w: Write, status: u32) {
    w.Status? && w.value == status
  }

  /** What the device fetches, in order: at each PENDING as many bytes as the length register says. */
  function Payloads(log: seq<Write>): seq<seq<byte>> {
    if log == [] then
      []
    else
      var earlier := log[..|log| - 1];
      Payloads(earlier) + if Says(log[|log| - 1], PENDING) then [Fetch(LastStart(earlier), LastLength(earlier))] else []
  }

  /** When the device is told this. */
  function Told(log: seq<Write>, status: u32): seq<nat> {
    if log == [] then
      []
    else
      Told(log[..|log| - 1], status) + if Says(log[|log| - 1], status) then [log[|log| - 1].at] else []
  }

  lemma OneWrite(log: seq<Write>, w: Write)
    ensures Payloads(log + [w])
         == Payloads(log) + (if Says(w, PENDING) then [Fetch(LastStart(log), LastLength(log))] else [])
    ensures LastStart(log + [w]) == if w.Start? then w.staged else LastStart(log)
    ensures LastLength(log + [w]) == if w.Length? then w.value else LastLength(log)
    ensures forall status :: Told(log + [w], status) == Told(log, status) + if Says(w, status) then [w.at] else []
  {
    assert (log + [w])[..|log|] == log;
  }

  /** A transfer is fetched whole, in one piece, from when it is told of. */
  lemma TransferLog(log: seq<Write>, chunk: seq<byte>, at: nat)
    requires |chunk| <= MAX_CHUNK
    ensures Payloads(log + TransferOf(chunk, at)) == Payloads(log) + [chunk]
    ensures Told(log + TransferOf(chunk, at), PENDING) == Told(log, PENDING) + [at]
    ensures Told(log + TransferOf(chunk, at), BOOT) == Told(log, BOOT)
  {
    var a, b, c := Start(at, chunk), Length(at, |chunk| % U32_MODULUS), Status(at, PENDING);
    hide Payloads, Told, LastStart, LastLength;
    assert log + TransferOf(chunk, at) == log + [a] + [b] + [c];
    hide TransferOf;
    assert |chunk| % U32_MODULUS == |chunk| && Fetch(chunk, |chunk|) == chunk;
    hide Fetch;
    OneWrite(log, a);
    OneWrite(log + [a], b);
    OneWrite(log + [a] + [b], c);
    assert Told(log, PENDING) + [] + [] + [at] == Told(log, PENDING) + [at];
    assert Told(log, BOOT) + [] + [] + [] == Told(log, BOOT);
    assert Payloads(log) + [] + [] + [chunk] == Payloads(log) + [chunk];
  }

  ghost predicate AllSmall(chunks: seq<seq<byte>>) {
    forall i :: 0 <= i < |chunks| ==> |chunks[i]| <= MAX_CHUNK
  }

  lemma NoneSmall()
    ensures AllSmall([])
  {}

  lemma {:induction false} TransfersLog(log: seq<Write>, chunks: seq<seq<byte>>, ats: seq<nat>)
    requires |chunks| == |ats| && AllSmall(chunks)
    ensures Payloads(log + TransfersOf(chunks, ats)) == Payloads(log) + chunks
    ensures Told(log + TransfersOf(chunks, ats), PENDING) == Told(log, PENDING) + ats
    ensures Told(log + TransfersOf(chunks, ats), BOOT) == Told(log, BOOT)
    decreases |chunks|
  {
    if chunks == [] {
      assert log + [] == log;
    } else {
      var k := |chunks| - 1;
      TransfersLog(log, chunks[..k], ats[..k]);
      var most := TransfersOf(chunks[..k], ats[..k]);
      hide Payloads, Told, TransferOf;
      TransferLog(log + most, chunks[k], ats[k]);
      Regroup(log, most, TransferOf(chunks[k], ats[k]));
      assert chunks[..k] + [chunks[k]] == chunks && ats[..k] + [ats[k]] == ats;
      Regroup(Payloads(log), chunks[..k], [chunks[k]]);
      Regroup(Told(log, PENDING), ats[..k], [ats[k]]);
    }
  }

  /**
   Behind any log, transfers of chunks of at most 4 MiB are fetched byte for byte, each when
   it is told of, and at most one boot follows the last of them.
   */
  lemma LoadLog(log: seq<Write>, chunks: seq<seq<byte>>, ats: seq<nat>, booted: bool, at: nat)
    requires |chunks| == |ats| && AllSmall(chunks)
    ensures var after := log + (TransfersOf(chunks, ats) + BootOf(booted, at));
      && Payloads(after) == Payloads(log) + chunks
      && Told(after, PENDING) == Told(log, PENDING) + ats
      && Told(after, BOOT) == Told(log, BOOT) + if booted then [at] else []
  {
    var transfers := TransfersOf(chunks, ats);
    TransfersLog(log, chunks, ats);
    Regroup(log, transfers, BootOf(booted, at));
    hide Payloads, Told, TransfersOf;
    if booted {
      OneWrite(log + transfers, Status(at, BOOT));
      assert Payloads(log) + chunks + [] == Payloads(log) + chunks;
      assert Told(log, PENDING) + ats + [] == Told(log, PENDING) + ats;
    } else {
      assert log + transfers + [] == log + transfers;
    }
  }

  /** The chunks of an image are small enough, and so is what is staged of them. */
  lemma ChunksSmall(image: seq<byte>, copies: seq<Copy>)
    ensures AllSmall(Chunks(image))
    ensures AllFit(copies, Chunks(image)) ==> AllSmall(StagedChunks(Chunks(image), copies))
  {
    ChunksCover(image);
    hide Chunks;
  }
}
