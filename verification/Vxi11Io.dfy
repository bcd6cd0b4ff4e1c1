/**
 device_write and device_read over a held bus. The backend, the clock and the abort channel
 are parameters: what each attempt does, when it is made, and whether an abort was waiting.
 */
module Vxi11Io {
  import opened Common
  import opened Timeouts
  import NiFraming

  const NO_ERROR := 0
  const INVALID_LINK := 4
  const LOCKED := 11
  const IO_TIMEOUT := 15
  const IO_ERROR := 17
  const ABORT := 23

  /** Not an answer: the read loop subtracted more than it had. */
  const UNDERFLOW := 0x1_0000_0000

  const WRITE_CHUNK := 4096
  const MAX_READ := 65536
  const NS_PER_MS := 1_000_000

  /** How the link lookup and the lock gate answered. */
  datatype Gate = UnknownLink | LockedOut | Open(interface: bool)

  function EffectiveTimeout(ioTimeoutMs: u32, defaultMs: u32): u32 {
    if ioTimeoutMs == 0 then defaultMs else ioTimeoutMs
  }

  function Deadline(start: nat, ioTimeoutMs: u32, defaultMs: u32): nat {
    start + EffectiveTimeout(ioTimeoutMs, defaultMs) * NS_PER_MS
  }

  function RemainingNs(deadline: nat, now: nat): nat { if now < deadline then deadline - now else 0 }

  /** The bus for the length of one call: backend settings that outlive it, and what was done on it. */
  class HeldBus {
    const sliceMs: Option<nat>
    var timeoutMs: nat
    var eosChar: byte
    var eosEnabled: bool
    var sent: seq<Chunk>
    var slices: seq<Slice>

    constructor (slice: Option<nat>, defaultMs: nat)
      ensures sliceMs == slice && timeoutMs == defaultMs && sent == [] && slices == []
    {
      sliceMs, timeoutMs, eosChar, eosEnabled, sent, slices := slice, defaultMs, 0x0a, false, [], [];
    }
  }

  // ---- device_write ----

  datatype Sent = Accepted | TimedOut | Broke

  /** One turn of the loop: the clock, whether an abort is waiting, what the backend does with the chunk. */
  datatype WriteTick = WriteTick(now: nat, abort: bool, sent: Sent)

  /** One transfer handed to the backend, with the wait its adapter was told. */
  datatype Chunk = Chunk(addressed: bool, bytes: seq<byte>, eoi: bool, waitMs: nat, accepted: bool)

  datatype WriteCall = WriteCall(data: seq<byte>, sendEoi: bool, interface: bool, deadline: nat)

  datatype WriteEnd = WriteEnd(chunks: seq<Chunk>, error: nat, written: nat)

  predicate Starts(c: WriteCall, k: nat) { k == 0 || k * WRITE_CHUNK < |c.data| }

  function ChunkEnd(c: WriteCall, k: nat): nat { Min((k + 1) * WRITE_CHUNK, |c.data|) }

  function AcceptedBytes(chunks: seq<Chunk>): seq<byte> {
    if chunks == [] then [] else
    var last := chunks[|chunks| - 1];
    AcceptedBytes(chunks[..|chunks| - 1]) + if last.accepted then last.bytes else []
  }

  lemma AcceptedOfLast(chunks: seq<Chunk>, last: Chunk)
    ensures AcceptedBytes(chunks + [last]) == AcceptedBytes(chunks) + if last.accepted then last.bytes else []
  {
    assert (chunks + [last])[..|chunks|] == chunks;
  }

  /**
   Transfer `j` is the j-th slice of the data: only the very first addresses, EOI is on the
   one with the last byte or on none, and every wait is finite and within the time left.
   */
  predicate IsTransfer(c: WriteCall, t: WriteTick, j: nat, chunk: Chunk) {
    && Starts(c, j)
    && chunk.bytes == c.data[j * WRITE_CHUNK..ChunkEnd(c, j)]
    && (chunk.addressed <==> j == 0 && !c.interface)
    && (chunk.eoi <==> c.sendEoi && ChunkEnd(c, j) == |c.data|)
    && 1 <= chunk.waitMs <= Max(1, RemainingNs(c.deadline, t.now) / NS_PER_MS)
    && (chunk.accepted <==> t.sent.Accepted?)
    && !t.abort
  }

  /** The loop comes to turn `n`: nothing sent yet, or the last transfer was accepted and data is left. */
  predicate GoesRound(c: WriteCall, env: nat -> WriteTick, n: nat) {
    n == 0 || (env(n - 1).sent.Accepted? && ChunkEnd(c, n - 1) != |c.data|)
  }

  /** Every transfer is such a one; one that is followed by another was accepted and did not finish the data. */
  predicate IsWrite(c: WriteCall, env: nat -> WriteTick, chunks: seq<Chunk>, goesOn: bool) {
    forall j {:trigger chunks[j]} :: 0 <= j < |chunks| ==>
      && IsTransfer(c, env(j), j, chunks[j])
      && (goesOn || j < |chunks| - 1 ==> chunks[j].accepted && ChunkEnd(c, j) != |c.data|)
  }

  /** Each answer says exactly where and why the loop stopped. */
  predicate Verdict(c: WriteCall, env: nat -> WriteTick, n: nat, error: nat) {
    && (error == ABORT <==> GoesRound(c, env, n) && env(n).abort)
    && (error == IO_TIMEOUT <==> || (GoesRound(c, env, n) && !env(n).abort && RemainingNs(c.deadline, env(n).now) == 0)
                                 || (n > 0 && env(n - 1).sent.TimedOut?))
    && (error == IO_ERROR <==> n > 0 && env(n - 1).sent.Broke?)
    && (error == NO_ERROR <==> n > 0 && env(n - 1).sent.Accepted? && ChunkEnd(c, n - 1) == |c.data|)
  }

  /** What device_write promises of its transfers, its byte count and its answer. */
  predicate KeepsWritePromises(c: WriteCall, env: nat -> WriteTick, r: WriteEnd) {
    && IsWrite(c, env, r.chunks, false)
    && r.written <= |c.data|
    && AcceptedBytes(r.chunks) == c.data[..r.written]
    && (r.error == NO_ERROR ==> r.written == |c.data|)
    && Verdict(c, env, |r.chunks|, r.error)
  }

  /** So EOI goes out at most once, with the last byte, on the last transfer of the call. */
  lemma EoiGoesOutOnce(c: WriteCall, env: nat -> WriteTick, r: WriteEnd, j: nat)
    requires KeepsWritePromises(c, env, r) && j < |r.chunks| && r.chunks[j].eoi
    ensures c.sendEoi && j == |r.chunks| - 1
    ensures c.data != [] ==> r.chunks[j].bytes != [] && r.chunks[j].bytes[|r.chunks[j].bytes| - 1] == c.data[|c.data| - 1]
  {
    assert IsTransfer(c, env(j), j, r.chunks[j]);
  }

  /** The loop invariant: whole chunks acknowledged, more to send. */
  predicate WriteSoFar(c: WriteCall, env: nat -> WriteTick, chunks: seq<Chunk>) {
    && Starts(c, |chunks|) && GoesRound(c, env, |chunks|)
    && IsWrite(c, env, chunks, true)
    && AcceptedBytes(chunks) == c.data[..|chunks| * WRITE_CHUNK]
  }

  lemma WriteGrows(c: WriteCall, env: nat -> WriteTick, chunks: seq<Chunk>, chunk: Chunk)
    requires IsWrite(c, env, chunks, true) && IsTransfer(c, env(|chunks|), |chunks|, chunk)
    ensures IsWrite(c, env, chunks + [chunk], chunk.accepted && ChunkEnd(c, |chunks|) != |c.data|)
  {
    var more := chunks + [chunk];
    forall j | 0 <= j < |chunks| ensures more[j] == chunks[j] {
    }
  }

  lemma AcceptedGrows(data: seq<byte>, chunks: seq<Chunk>, chunk: Chunk, a: nat, b: nat)
    requires a <= b <= |data| && AcceptedBytes(chunks) == data[..a] && chunk.bytes == data[a..b]
    ensures AcceptedBytes(chunks + [chunk]) == data[..if chunk.accepted then b else a]
  {
    AcceptedOfLast(chunks, chunk);
    PrefixExtends(data, a, b);
  }

  /** Stopping before a transfer, on an abort or the deadline. */
  lemma WriteStops(c: WriteCall, env: nat -> WriteTick, chunks: seq<Chunk>)
    requires WriteSoFar(c, env, chunks)
    requires env(|chunks|).abort || RemainingNs(c.deadline, env(|chunks|).now) == 0
    ensures KeepsWritePromises(c, env, WriteEnd(chunks, if env(|chunks|).abort then ABORT else IO_TIMEOUT, |chunks| * WRITE_CHUNK))
  {
  }

  /** After a transfer the loop ends or its invariant holds again. */
  lemma WriteGoesOn(c: WriteCall, env: nat -> WriteTick, chunks: seq<Chunk>, chunk: Chunk)
    requires WriteSoFar(c, env, chunks) && IsTransfer(c, env(|chunks|), |chunks|, chunk)
    ensures !chunk.accepted ==>
              KeepsWritePromises(c, env, WriteEnd(chunks + [chunk], if env(|chunks|).sent.TimedOut? then IO_TIMEOUT else IO_ERROR, |chunks| * WRITE_CHUNK))
    ensures chunk.accepted && ChunkEnd(c, |chunks|) == |c.data| ==>
              KeepsWritePromises(c, env, WriteEnd(chunks + [chunk], NO_ERROR, |c.data|))
    ensures chunk.accepted && ChunkEnd(c, |chunks|) != |c.data| ==> WriteSoFar(c, env, chunks + [chunk])
  {
    WriteGrows(c, env, chunks, chunk);
    AcceptedGrows(c.data, chunks, chunk, |chunks| * WRITE_CHUNK, ChunkEnd(c, |chunks|));
  }

  /** The transfer of turn `k`, with the wait its adapter is told. */
  method NextChunk(c: WriteCall, t: WriteTick, k: nat) returns (chunk: Chunk)
    requires Starts(c, k) && !t.abort && RemainingNs(c.deadline, t.now) > 0
    ensures IsTransfer(c, t, k, chunk)
  {
    var written, total := k * WRITE_CHUNK, |c.data|;
    var budgetMs := RemainingNs(c.deadline, t.now) / NS_PER_MS;
    var timeoutMs := AdapterFloorMs(budgetMs);
    WriteWaitIsBounded(budgetMs);
    var end := Min(written + WRITE_CHUNK, total);
    chunk := Chunk(written == 0 && !c.interface, c.data[written..end], c.sendEoi && end == total,
                   TimeoutCodeFloor(timeoutMs).1, t.sent.Accepted?);
  }

  /** The chunk loop. */
  method WriteChunks(c: WriteCall, env: nat -> WriteTick) returns (r: WriteEnd)
    ensures KeepsWritePromises(c, env, r)
  {
    var k: nat, written: nat, total, chunks: seq<Chunk> := 0, 0, |c.data|, [];
    while true
      invariant k == |chunks| && written == k * WRITE_CHUNK && WriteSoFar(c, env, chunks)
      decreases total - written
    {
      var t := env(k);
      if t.abort {
        WriteStops(c, env, chunks);
        return WriteEnd(chunks, ABORT, written);
      }
      if RemainingNs(c.deadline, t.now) == 0 {
        WriteStops(c, env, chunks);
        return WriteEnd(chunks, IO_TIMEOUT, written);
      }
      var end := Min(written + WRITE_CHUNK, total);
      var last := end == total;
      var chunk := NextChunk(c, t, k);
      WriteGoesOn(c, env, chunks, chunk);
      chunks := chunks + [chunk];
      if !t.sent.Accepted? {
        return WriteEnd(chunks, if t.sent.TimedOut? then IO_TIMEOUT else IO_ERROR, written);
      }
      written := end;
      if last {
        return WriteEnd(chunks, NO_ERROR, written);
      }
      k := k + 1;
    }
  }

  method DeviceWrite(bus: HeldBus, gate: Gate, data: seq<byte>, sendEoi: bool, ioTimeoutMs: u32, defaultMs: u32,
                     start: nat, env: nat -> WriteTick, lateAbort: bool)
    returns (error: nat, size: nat, ghost r: WriteEnd)
    modifies bus`timeoutMs, bus`sent
    ensures gate.UnknownLink? ==> error == INVALID_LINK && size == 0
    ensures gate.LockedOut? ==> error == LOCKED && size == 0
    ensures !gate.Open? ==> bus.timeoutMs == old(bus.timeoutMs) && bus.sent == old(bus.sent)
    ensures gate.Open? ==>
              && KeepsWritePromises(WriteCall(data, sendEoi, gate.interface, Deadline(start, ioTimeoutMs, defaultMs)), env, r)
              && bus.timeoutMs == defaultMs
              && bus.sent == old(bus.sent) + r.chunks
              && size == r.written
              && error == if r.error == NO_ERROR && lateAbort then ABORT else r.error
  {
    r := WriteEnd([], NO_ERROR, 0);
    if gate.UnknownLink? {
      error, size := INVALID_LINK, 0;
      return;
    }
    if gate.LockedOut? {
      error, size := LOCKED, 0;
      return;
    }
    var done := WriteChunks(WriteCall(data, sendEoi, gate.interface, Deadline(start, ioTimeoutMs, defaultMs)), env);
    bus.sent := bus.sent + done.chunks;
    bus.timeoutMs := defaultMs;
    error := if done.error == NO_ERROR && lateAbort then ABORT else done.error;
    size, r := done.written, done;
  }

  // ---- device_read ----

  datatype Attempt = Got(bytes: seq<byte>, end: bool) | Quiet | Fault

  /** One turn: an abort waiting or not, how long the attempt took, how far a sleep overshoots, what came back. */
  datatype ReadTick = ReadTick(abort: bool, spentNs: nat, oversleepNs: nat, attempt: Attempt)

  /** One attempt as the backend saw it: when it began, how much was asked for, its wait, its terminator, and the bytes it brought. */
  datatype Slice = Slice(at: nat, asked: nat, addressed: bool, waitMs: nat, terminator: Option<byte>, bytes: seq<byte>, end: bool)

  datatype Reason = Reason(reqcnt: bool, chr: bool, end: bool) {
    predicate Any() { reqcnt || chr || end }
    function Code(): nat { (if reqcnt then 1 else 0) + (if chr then 2 else 0) + (if end then 4 else 0) }
  }

  datatype ReadCall = ReadCall(requestSize: nat, interface: bool, termChr: Option<byte>, deadline: nat, sliceMs: Option<nat>)

  /** `Overran`: more came than was wanted, nothing ended the read, and the next length to ask for is below zero. */
  datatype How = Terminated(reason: Reason) | DeadlinePassed | Aborted | Faulted | Overran

  datatype ReadEnd = ReadEnd(slices: seq<Slice>, how: How, data: seq<byte>)

  function Clamp(c: ReadCall): nat { Min(c.requestSize, MAX_READ) }

  /** The adapter's poll slice, or the whole budget where the adapter keeps exact time; never 0. */
  function SliceFor(c: ReadCall, remainingMs: nat): nat {
    if c.sliceMs.Some? then Max(1, Min(remainingMs, c.sliceMs.value)) else Max(1, remainingMs)
  }

  /** When the turn of an attempt is over: a fast one that brought nothing is paced out, so the loop cannot spin. */
  function Over(slice: Slice, t: ReadTick): nat {
    var floorNs := if t.attempt.Got? then slice.waitMs * NS_PER_MS else 50 * NS_PER_MS;
    if slice.bytes == [] && t.spentNs < floorNs then slice.at + floorNs + t.oversleepNs else slice.at + t.spentNs
  }

  /** The clock once these attempts are over. */
  function Now(start: nat, env: nat -> ReadTick, slices: seq<Slice>): nat {
    if slices == [] then start else Over(slices[|slices| - 1], env(|slices| - 1))
  }

  function ReasonFor(c: ReadCall, data: seq<byte>, end: bool): Reason {
    Reason(|data| == c.requestSize, c.termChr.Some? && data != [] && data[|data| - 1] == c.termChr.value, end)
  }

  /** What an attempt adds to the data: all it brought, however much was asked for. */
  function Brought(attempt: Attempt): seq<byte> { if attempt.Got? then attempt.bytes else [] }

  function SliceBytes(slices: seq<Slice>): seq<byte> {
    if slices == [] then [] else SliceBytes(slices[..|slices| - 1]) + slices[|slices| - 1].bytes
  }

  lemma SliceBytesOfLast(slices: seq<Slice>, last: Slice)
    ensures SliceBytes(slices + [last]) == SliceBytes(slices) + last.bytes
  {
    assert (slices + [last])[..|slices|] == slices;
  }

  /** These attempts leave the read going: no fault, no reason to stop, and the clamp is not filled exactly. */
  predicate Continues(c: ReadCall, env: nat -> ReadTick, slices: seq<Slice>) {
    && |SliceBytes(slices)| != Clamp(c)
    && (slices != [] ==>
          var attempt := env(|slices| - 1).attempt;
          !attempt.Fault? && (attempt.Got? ==> !ReasonFor(c, SliceBytes(slices), slices[|slices| - 1].end).Any()))
  }

  /**
   Each attempt came after ones that left the read going, began when they were over, and asked
   for what was still wanted. So the read stops at the first reason to.
   */
  predicate InTurn(c: ReadCall, start: nat, env: nat -> ReadTick, slices: seq<Slice>) {
    slices == [] || (
      var before, last := slices[..|slices| - 1], slices[|slices| - 1];
      && InTurn(c, start, env, before) && Continues(c, env, before)
      && last.at == Now(start, env, before)
      && 0 < last.asked == Clamp(c) - |SliceBytes(before)|
      && last.bytes == Brought(env(|slices| - 1).attempt))
  }

  /**
   An attempt began before the deadline, with this call's terminator and a positive wait within
   the time left and the adapter's slice.
   */
  predicate IsSlice(c: ReadCall, t: ReadTick, slice: Slice) {
    && slice.terminator == c.termChr && slice.addressed == !c.interface
    && slice.at < c.deadline
    && 1 <= slice.waitMs <= Max(1, (c.deadline - slice.at) / NS_PER_MS)
    && (c.sliceMs.Some? ==> slice.waitMs <= Max(1, c.sliceMs.value))
    && !t.abort
    && slice.end == (t.attempt.Got? && t.attempt.end)
  }

  predicate SlicesOk(c: ReadCall, env: nat -> ReadTick, slices: seq<Slice>) {
    forall j {:trigger slices[j]} :: 0 <= j < |slices| ==> IsSlice(c, env(j), slices[j])
  }

  /**
   What device_read promises: the data is the attempts' bytes in order, up to the first reason to
   stop. A read that terminated did so for a stated reason, or filled the clamp of a request that
   asked for more; each reason bit is set exactly when it is true of the data returned. The other
   ways of ending say what stopped it: an abort waiting, the deadline passed, a fault of the bus,
   or more data than the clamp with no reason to stop.
   */
  predicate KeepsReadPromises(c: ReadCall, start: nat, env: nat -> ReadTick, r: ReadEnd) {
    var n := |r.slices|;
    && InTurn(c, start, env, r.slices) && SlicesOk(c, env, r.slices)
    && r.data == SliceBytes(r.slices)
    && (r.how.Aborted? ==> env(n).abort && Continues(c, env, r.slices))
    && (r.how.DeadlinePassed? ==> !env(n).abort && c.deadline <= Now(start, env, r.slices) && Continues(c, env, r.slices))
    && (r.how.Faulted? <==> n > 0 && env(n - 1).attempt.Fault?)
    && (r.how.Terminated? ==>
          && n > 0 && env(n - 1).attempt.Got?
          && r.how.reason == ReasonFor(c, r.data, r.slices[n - 1].end)
          && (!r.how.reason.Any() ==> |r.data| == MAX_READ < c.requestSize))
    && (r.how.Overran? ==> !env(n).abort && Now(start, env, r.slices) < c.deadline && Continues(c, env, r.slices) && |r.data| > Clamp(c))
  }

  /** No attempt brought more than it was asked for. */
  predicate WithinAsked(slices: seq<Slice>) {
    forall j {:trigger slices[j]} :: 0 <= j < |slices| ==> |slices[j].bytes| <= slices[j].asked
  }

  lemma {:induction false} EarlierWithin(c: ReadCall, start: nat, env: nat -> ReadTick, slices: seq<Slice>)
    requires InTurn(c, start, env, slices) && slices != []
    ensures WithinAsked(slices[..|slices| - 1])
  {
    var before := slices[..|slices| - 1];
    if before != [] {
      EarlierWithin(c, start, env, before);
      var earlier, last := before[..|before| - 1], before[|before| - 1];
      assert slices[|slices| - 1].asked > 0;
      assert |SliceBytes(before)| == |SliceBytes(earlier)| + |last.bytes|;
      forall j | 0 <= j < |before| ensures |before[j].bytes| <= before[j].asked {
        if j < |earlier| {
          assert before[j] == earlier[j];
        }
      }
    }
  }

  /** The data stays within the clamp, and the loop's own arithmetic within its range, exactly when no attempt brought more than it was asked for. */
  lemma WithinClampIff(c: ReadCall, start: nat, env: nat -> ReadTick, r: ReadEnd)
    requires c.requestSize > 0 && KeepsReadPromises(c, start, env, r)
    ensures |r.data| <= Clamp(c) <==> WithinAsked(r.slices)
    ensures r.how.Overran? ==> !WithinAsked(r.slices)
  {
    if r.slices != [] {
      EarlierWithin(c, start, env, r.slices);
      var before, last := r.slices[..|r.slices| - 1], r.slices[|r.slices| - 1];
      assert |r.data| == |SliceBytes(before)| + |last.bytes|;
      assert forall j :: 0 <= j < |before| ==> r.slices[j] == before[j];
    }
  }

  /** Over the NI backend, which cuts every reply to what was asked, the data stays within the clamp. */
  lemma NiReadsWithinClamp(c: ReadCall, start: nat, env: nat -> ReadTick, r: ReadEnd, replies: seq<seq<byte>>)
    requires c.requestSize > 0 && KeepsReadPromises(c, start, env, r) && |replies| == |r.slices|
    requires forall j {:trigger r.slices[j]} :: 0 <= j < |r.slices| ==>
               r.slices[j].bytes == [] || NiFraming.DataOf(replies[j], Min(r.slices[j].asked, 0xffff)) == Some(NiFraming.Reading(r.slices[j].bytes, r.slices[j].end))
    ensures |r.data| <= Clamp(c) && !r.how.Overran?
  {
    forall j | 0 <= j < |r.slices| ensures |r.slices[j].bytes| <= r.slices[j].asked {
      NiFraming.NeverMoreThanAsked(replies[j], Min(r.slices[j].asked, 0xffff));
    }
    WithinClampIff(c, start, env, r);
  }

  lemma LastBrought(c: ReadCall, start: nat, env: nat -> ReadTick, slices: seq<Slice>)
    requires InTurn(c, start, env, slices)
    ensures slices == [] || |SliceBytes(slices)| >= |Brought(env(|slices| - 1).attempt)|
  {
  }

  /** A turn that brings four bytes, with or without the end mark. */
  function FourBytes(end: bool): nat -> ReadTick { (i: nat) => ReadTick(false, 0, 0, Got([1, 2, 3, 4], end)) }

  /** A request for one byte, and a backend that brings four: four are returned if it marks the end, and the read overruns if it does not. */
  lemma OverfullRead(start: nat, end: bool, r: ReadEnd)
    requires KeepsReadPromises(ReadCall(1, false, None, start + NS_PER_MS, None), start, FourBytes(end), r)
    ensures r.data == [1, 2, 3, 4]
    ensures if end then r.how == Terminated(Reason(false, false, true)) else r.how.Overran?
  {
    var c, env, n := ReadCall(1, false, None, start + NS_PER_MS, None), FourBytes(end), |r.slices|;
    assert Now(start, env, []) == start && !env(n).abort;
    assert n > 0;
    var before, last := r.slices[..n - 1], r.slices[n - 1];
    assert last.asked == 1 - |SliceBytes(before)|;
    LastBrought(c, start, env, before);
    assert before == [] && r.data == [] + [1, 2, 3, 4];
    assert last.end == end;
  }

  /** The loop invariant: every attempt so far left the loop going. */
  predicate ReadSoFar(c: ReadCall, start: nat, env: nat -> ReadTick, slices: seq<Slice>, data: seq<byte>) {
    InTurn(c, start, env, slices) && SlicesOk(c, env, slices) && data == SliceBytes(slices) && Continues(c, env, slices)
  }

  /** The attempt of a turn that finds no abort and time left. */
  method NextSlice(c: ReadCall, t: ReadTick, data: seq<byte>, now: nat) returns (slice: Slice)
    requires !t.abort && |data| < Clamp(c) && now < c.deadline
    ensures IsSlice(c, t, slice) && slice.at == now && slice.asked == Clamp(c) - |data| && slice.bytes == Brought(t.attempt)
  {
    var waitMs := SliceFor(c, (c.deadline - now) / NS_PER_MS);
    slice := Slice(now, Clamp(c) - |data|, !c.interface, waitMs, c.termChr, Brought(t.attempt), t.attempt.Got? && t.attempt.end);
  }

  lemma SlicesGrow(c: ReadCall, start: nat, env: nat -> ReadTick, slices: seq<Slice>, data: seq<byte>, slice: Slice)
    requires ReadSoFar(c, start, env, slices, data) && slice.at == Now(start, env, slices)
    requires IsSlice(c, env(|slices|), slice) && 0 < slice.asked == Clamp(c) - |data| && slice.bytes == Brought(env(|slices|).attempt)
    ensures InTurn(c, start, env, slices + [slice]) && SlicesOk(c, env, slices + [slice])
    ensures SliceBytes(slices + [slice]) == data + slice.bytes
  {
    var more := slices + [slice];
    SliceBytesOfLast(slices, slice);
    assert more[..|slices|] == slices;
    forall j | 0 <= j < |slices| ensures more[j] == slices[j] {
    }
  }

  /** After an attempt the loop ends or its invariant holds again. */
  lemma ReadGoesOn(c: ReadCall, start: nat, env: nat -> ReadTick, slices: seq<Slice>, data: seq<byte>, slice: Slice)
    requires ReadSoFar(c, start, env, slices, data) && slice.at == Now(start, env, slices)
    requires IsSlice(c, env(|slices|), slice) && 0 < slice.asked == Clamp(c) - |data| && slice.bytes == Brought(env(|slices|).attempt)
    ensures env(|slices|).attempt.Fault? ==> KeepsReadPromises(c, start, env, ReadEnd(slices + [slice], Faulted, data + slice.bytes))
    ensures env(|slices|).attempt.Quiet? ==> ReadSoFar(c, start, env, slices + [slice], data + slice.bytes)
    ensures env(|slices|).attempt.Got? ==>
              var all := data + slice.bytes;
              var why := ReasonFor(c, all, slice.end);
              if why.Any() || |all| == Clamp(c) then KeepsReadPromises(c, start, env, ReadEnd(slices + [slice], Terminated(why), all))
              else ReadSoFar(c, start, env, slices + [slice], all)
  {
    SlicesGrow(c, start, env, slices, data, slice);
  }

  /** Stopping before an attempt: an abort, the deadline, or nothing left to ask for. */
  lemma ReadStops(c: ReadCall, start: nat, env: nat -> ReadTick, slices: seq<Slice>, data: seq<byte>, how: How)
    requires ReadSoFar(c, start, env, slices, data)
    requires how == if env(|slices|).abort then Aborted else if c.deadline <= Now(start, env, slices) then DeadlinePassed else Overran
    requires how.Overran? ==> |data| > Clamp(c)
    ensures KeepsReadPromises(c, start, env, ReadEnd(slices, how, data))
  {
  }

  /** Bytes still wanted plus time left. */
  function Budget(c: ReadCall, data: seq<byte>, now: nat): int { Clamp(c) - |data| + RemainingNs(c.deadline, now) }

  /** One turn that makes an attempt: the read ends, or goes on with less of its budget. */
  method Turn(c: ReadCall, start: nat, env: nat -> ReadTick, slices: seq<Slice>, data: seq<byte>)
    returns (slice: Slice, ended: Option<How>)
    requires ReadSoFar(c, start, env, slices, data) && |data| < Clamp(c)
    requires !env(|slices|).abort && Now(start, env, slices) < c.deadline
    ensures ended.Some? ==> KeepsReadPromises(c, start, env, ReadEnd(slices + [slice], ended.value, data + slice.bytes))
    ensures ended.None? ==> ReadSoFar(c, start, env, slices + [slice], data + slice.bytes)
    ensures Budget(c, data + slice.bytes, Over(slice, env(|slices|))) < Budget(c, data, Now(start, env, slices)) || ended.Some?
  {
    var t := env(|slices|);
    slice := NextSlice(c, t, data, Now(start, env, slices));
    ReadGoesOn(c, start, env, slices, data, slice);
    var all := data + slice.bytes;
    ended := None;
    if t.attempt.Fault? {
      ended := Some(Faulted);
    } else if t.attempt.Got? {
      var why := ReasonFor(c, all, slice.end);
      if why.Any() || |all| == Clamp(c) {
        ended := Some(Terminated(why));
      }
    }
  }

  /**
   The polling loop. Each slice records the length it asked for and the timeout the backend was
   set to. The budget shrinks on every turn, as long as the length to ask for next is above zero;
   where it is not, the model stops at the subtraction.
   */
  method ReadSlices(c: ReadCall, start: nat, env: nat -> ReadTick) returns (r: ReadEnd)
    requires c.requestSize > 0
    ensures KeepsReadPromises(c, start, env, r)
  {
    var now: nat, data: seq<byte>, slices: seq<Slice> := start, [], [];
    while true
      invariant now == Now(start, env, slices) && ReadSoFar(c, start, env, slices, data)
      decreases Budget(c, data, now)
    {
      var t := env(|slices|);
      if t.abort {
        ReadStops(c, start, env, slices, data, Aborted);
        return ReadEnd(slices, Aborted, data);
      }
      if RemainingNs(c.deadline, now) == 0 {
        ReadStops(c, start, env, slices, data, DeadlinePassed);
        return ReadEnd(slices, DeadlinePassed, data);
      }
      if |data| > Clamp(c) {
        ReadStops(c, start, env, slices, data, Overran);
        return ReadEnd(slices, Overran, data);
      }
      var slice, ended := Turn(c, start, env, slices, data);
      slices, data := slices + [slice], data + slice.bytes;
      if ended.Some? {
        return ReadEnd(slices, ended.value, data);
      }
      now := Over(slice, t);
    }
  }

  /** A read that filled its clamp without a reason asked for more than the clamp: the client comes back for the rest. */
  method DeviceRead(bus: HeldBus, gate: Gate, requestSize: u32, termChr: Option<byte>, ioTimeoutMs: u32, defaultMs: u32,
                    start: nat, env: nat -> ReadTick)
    returns (error: nat, reason: nat, data: seq<byte>, ghost r: ReadEnd)
    modifies bus`timeoutMs, bus`eosChar, bus`eosEnabled, bus`slices
    ensures !r.how.Overran? ==> bus.eosChar == old(bus.eosChar) && bus.eosEnabled == old(bus.eosEnabled)
    ensures gate.UnknownLink? ==> (error, reason, data) == (INVALID_LINK, 0, [])
    ensures !gate.UnknownLink? && requestSize == 0 ==> (error, reason, data) == (NO_ERROR, 1, [])
    ensures gate.LockedOut? && requestSize > 0 ==> (error, reason, data) == (LOCKED, 0, [])
    ensures !gate.Open? || requestSize == 0 ==> bus.timeoutMs == old(bus.timeoutMs) && bus.slices == old(bus.slices)
    ensures gate.Open? && requestSize > 0 ==>
              && KeepsReadPromises(ReadCall(requestSize, gate.interface, termChr, Deadline(start, ioTimeoutMs, defaultMs), bus.sliceMs), start, env, r)
              && (!r.how.Overran? ==> bus.timeoutMs == defaultMs)
              && bus.slices == old(bus.slices) + r.slices
              && match r.how
                 case Terminated(why) => (error, reason, data) == (NO_ERROR, why.Code(), r.data)
                 case DeadlinePassed => (error, reason, data) == (IO_TIMEOUT, 0, r.data)
                 case Aborted => (error, reason, data) == (ABORT, 0, r.data)
                 case Faulted => (error, reason, data) == (IO_ERROR, 0, [])
                 case Overran => (error, reason, data) == (UNDERFLOW, 0, [])
  {
    r := ReadEnd([], DeadlinePassed, []);
    if gate.UnknownLink? {
      error, reason, data := INVALID_LINK, 0, [];
      return;
    }
    if requestSize == 0 {
      error, reason, data := NO_ERROR, 1, [];
      return;
    }
    if gate.LockedOut? {
      error, reason, data := LOCKED, 0, [];
      return;
    }
    var savedChar, savedOn := bus.eosChar, bus.eosEnabled;
    if termChr.Some? {
      bus.eosChar, bus.eosEnabled := termChr.value, true;
    } else {
      bus.eosEnabled := false;
    }
    var terminator := if bus.eosEnabled then Some(bus.eosChar) else None;
    var done := ReadSlices(ReadCall(requestSize, gate.interface, terminator, Deadline(start, ioTimeoutMs, defaultMs), bus.sliceMs), start, env);
    bus.slices, data, r := bus.slices + done.slices, done.data, done;
    if done.how.Overran? {
      error, reason, data := UNDERFLOW, 0, [];
      return;
    }
    bus.eosChar, bus.eosEnabled, bus.timeoutMs := savedChar, savedOn, defaultMs;
    match done.how
    case Terminated(why) => error, reason := NO_ERROR, why.Code();
    case DeadlinePassed => error, reason := IO_TIMEOUT, 0;
    case Aborted => error, reason := ABORT, 0;
    case Faulted => error, reason, data := IO_ERROR, 0, [];
  }
}
