/** USBTMC bulk messages: tags, headers and padding. */
module UsbtmcProtocol {
  import opened Common
  import opened Bytes

  const HEADER_LEN := 12
  const DEV_DEP_MSG_OUT: byte := 1
  const DEV_DEP_MSG_IN: byte := 2

  function NextTag(tag: byte): byte { if tag == 255 then 1 else tag + 1 }

  /** The tag after `k` messages. */
  function TagAfter(tag: byte, k: nat): byte { if k == 0 then tag else NextTag(TagAfter(tag, k - 1)) }

  lemma {:induction false} TagCycles(tag: byte, k: nat)
    requires k > 0
    ensures TagAfter(tag, k) == (tag + k - 1) % 255 + 1
  {
    if k > 1 {
      TagCycles(tag, k - 1);
    }
  }

  lemma RemaindersDiffer(a: nat, d: nat)
    requires 0 < d < 255
    ensures a % 255 != (a + d) % 255
  {
    assert a == 255 * (a / 255) + a % 255;
    assert a + d == 255 * ((a + d) / 255) + (a + d) % 255;
  }

  /** Tags are never 0, and any 255 in a row are distinct. */
  lemma TagsDistinct(tag: byte, i: nat, j: nat)
    requires 0 < i < j < i + 255
    ensures TagAfter(tag, i) != 0 && TagAfter(tag, i) != TagAfter(tag, j)
  {
    TagCycles(tag, i);
    TagCycles(tag, j);
    RemaindersDiffer(tag + i - 1, j - i);
  }

  function PadLen(len: nat): nat { (4 - len % 4) % 4 }

  function Zeros(n: nat): seq<byte> { seq(n, i => 0) }

  function Header(id: byte, tag: byte, size: u32, attrs: byte, b9: byte): seq<byte> {
    [id, tag, 255 - tag, 0] + ToBytesLe(size, 4) + [attrs, b9, 0, 0]
  }

  function EncodeOut(tag: byte, data: seq<byte>, eom: bool): seq<byte> {
    Header(DEV_DEP_MSG_OUT, tag, |data| % 0x1_0000_0000, if eom then 1 else 0, 0) + data + Zeros(PadLen(|data|))
  }

  function EncodeRequest(tag: byte, maxLen: u32, termChar: Option<byte>): seq<byte> {
    match termChar
    case Some(c) => Header(DEV_DEP_MSG_IN, tag, maxLen, 2, c)
    case None => Header(DEV_DEP_MSG_IN, tag, maxLen, 0, 0)
  }

  /** What a device sends for a request with this tag: header, data, and padding to a multiple of four. */
  function EncodeIn(tag: byte, data: seq<byte>, eom: bool, termChar: bool): seq<byte>
    requires |data| < 0x1_0000_0000
  {
    Header(DEV_DEP_MSG_IN, tag, |data|, (if eom then 1 else 0) + (if termChar then 2 else 0), 0) + data + Zeros(PadLen(|data|))
  }

  datatype InMessage = InMessage(data: seq<byte>, eom: bool, termChar: bool, size: nat)

  function Parse(buf: seq<byte>, tag: byte): Option<InMessage> {
    if |buf| < HEADER_LEN || buf[0] != DEV_DEP_MSG_IN || buf[1] != tag || buf[2] != 255 - tag then None
    else
      var size := FromBytesLe(buf[4..8]);
      Some(InMessage(buf[HEADER_LEN..HEADER_LEN + Min(size, |buf| - HEADER_LEN)], buf[8] % 2 == 1, buf[8] / 2 % 2 == 1, size))
  }

  lemma PadsToFour(len: nat)
    ensures (HEADER_LEN + len + PadLen(len)) % 4 == 0
  {
    assert len == 4 * (len / 4) + len % 4;
  }

  lemma OutIsPadded(tag: byte, data: seq<byte>, eom: bool)
    ensures |EncodeOut(tag, data, eom)| % 4 == 0
    ensures EncodeOut(tag, data, eom)[HEADER_LEN..HEADER_LEN + |data|] == data
  {
    PadsToFour(|data|);
  }

  /** A device's transfer parses to its data and marks, padding gone, exactly for the request that carries its tag. */
  lemma InRoundTrip(tag: byte, data: seq<byte>, eom: bool, termChar: bool, asked: byte)
    requires |data| < 0x1_0000_0000
    ensures Parse(EncodeIn(tag, data, eom, termChar), asked) == if asked == tag then Some(InMessage(data, eom, termChar, |data|)) else None
  {
    var buf := EncodeIn(tag, data, eom, termChar);
    Radixes();
    NumberRoundTripLe(|data|, 4);
    assert buf[4..8] == ToBytesLe(|data|, 4);
    assert buf[HEADER_LEN..HEADER_LEN + |data|] == data;
  }

  /** A reply is taken for another request's exactly when a multiple of 255 requests lies between them. */
  lemma StaleReplyTakenIff(start: byte, i: nat, j: nat, data: seq<byte>, eom: bool, termChar: bool)
    requires 0 < i <= j && |data| < 0x1_0000_0000
    ensures Parse(EncodeIn(TagAfter(start, i), data, eom, termChar), TagAfter(start, j)).Some? <==> (j - i) % 255 == 0
  {
    TagCycles(start, i);
    TagCycles(start, j);
    RemaindersAgree(start + i - 1, j - i);
    InRoundTrip(TagAfter(start, i), data, eom, termChar, TagAfter(start, j));
  }

  lemma RemaindersAgree(a: nat, d: nat)
    ensures a % 255 == (a + d) % 255 <==> d % 255 == 0
  {
    assert a == 255 * (a / 255) + a % 255;
    assert a + d == 255 * ((a + d) / 255) + (a + d) % 255;
    assert d == 255 * (d / 255) + d % 255;
  }

  /** So a reply to any of the 254 requests before this one is refused, whatever else is in it. */
  lemma StaleReplyRefused(start: byte, i: nat, j: nat, buf: seq<byte>)
    requires 0 < i < j < i + 255 && |buf| >= HEADER_LEN && buf[1] == TagAfter(start, i)
    ensures Parse(buf, TagAfter(start, j)).None?
  {
    TagsDistinct(start, i, j);
  }
}

/**
 The bulk pipe of one interface. Every await may succeed, fail, or never come back because the
 future was dropped; a dropped call returns at once and does nothing more.
 */
module UsbtmcPipe {
  import opened Bytes
  import opened Common
  import opened UsbtmcProtocol

  const HANDSHAKE_POLLS := 50
  const READ_RESYNC_ATTEMPTS := 3
  const MAX_READ_TRANSFER := 1_048_576

  datatype Wait = Ok | Failed | Dropped

  // ---- The recovery handshakes ----

  datatype Request = InitiateAbortIn(tag: byte) | CheckAbortIn | InitiateAbortOut(tag: byte) | CheckAbortOut | InitiateClear | CheckClear

  /** The device's answer to a control request. */
  datatype Status = Success | Pending | NotInProgress | Other

  datatype Step = Asked(request: Request, status: Status) | ResetIn | ResetOut

  /** Polls of one request: pending until the device is done, or for all fifty. */
  predicate PollsEnd(check: Request, polls: seq<Step>, done: bool) {
    && 0 < |polls| <= HANDSHAKE_POLLS
    && (forall i :: 0 <= i < |polls| - 1 ==> polls[i] == Asked(check, Pending))
    && polls[|polls| - 1] == Asked(check, if done then Success else Pending)
    && (!done ==> |polls| == HANDSHAKE_POLLS)
  }

  /** An abort: nothing in progress and a reset, or started, polled to an end, and reset. */
  predicate IsAbort(steps: seq<Step>, initiate: Request, before: seq<Step>, check: Request, reset: Step) {
    || steps == [Asked(initiate, NotInProgress), reset]
    || (var k := 1 + |before|;
        && |steps| > k
        && steps[..k] == [Asked(initiate, Success)] + before
        && steps[|steps| - 1] == reset
        && (PollsEnd(check, steps[k..|steps| - 1], true) || PollsEnd(check, steps[k..|steps| - 1], false)))
  }

  /** A clear: started, polled until the device said it was done, and both pipes reset. */
  predicate IsClear(steps: seq<Step>) {
    && |steps| > 3
    && steps[0] == Asked(InitiateClear, Success)
    && PollsEnd(CheckClear, steps[1..|steps| - 2], true)
    && steps[|steps| - 2..] == [ResetIn, ResetOut]
  }

  method Await() returns (w: Wait) {
    w := *;
  }

  method Control(request: Request) returns (w: Wait, s: Status) {
    w, s := *, *;
  }

  /** Poll until the device is done, for as long as it says it is not. A read that drains its FIFO in between may fail. */
  method Poll(check: Request) returns (w: Wait, done: bool, polls: seq<Step>)
    ensures w.Ok? ==> PollsEnd(check, polls, done)
  {
    done, polls := false, [];
    for i := 0 to HANDSHAKE_POLLS
      invariant !done && |polls| == i
      invariant forall k :: 0 <= k < i ==> polls[k] == Asked(check, Pending)
    {
      var status;
      w, status := Control(check);
      if !w.Ok? {
        return;
      }
      polls := polls + [Asked(check, status)];
      match status
      case Success =>
        done := true;
        return;
      case Pending =>
        var pause := Await();
        if pause.Dropped? {
          w := Dropped;
          return;
        }
      case _ =>
        w := Failed;
        return;
    }
    w := Ok;
  }

  method AbortInHandshake(t: byte) returns (w: Wait, steps: seq<Step>)
    ensures w.Ok? ==> IsAbort(steps, InitiateAbortIn(t), [ResetIn], CheckAbortIn, ResetIn)
  {
    var status;
    var polls: seq<Step> := [];
    w, status := Control(InitiateAbortIn(t));
    steps := [Asked(InitiateAbortIn(t), status)];
    if !w.Ok? {
      return;
    }
    match status {
      case Success =>
        w := Await();
        if !w.Ok? {
          return;
        }
        var done;
        w, done, polls := Poll(CheckAbortIn);
        if !w.Ok? {
          return;
        }
        steps := steps + [ResetIn] + polls;
      case NotInProgress =>
      case _ =>
        w := Failed;
        return;
    }
    w := Await();
    steps := steps + [ResetIn];
    assert status.Success? ==> steps[2..|steps| - 1] == polls;
  }

  method AbortOutHandshake(t: byte) returns (w: Wait, steps: seq<Step>)
    ensures w.Ok? ==> IsAbort(steps, InitiateAbortOut(t), [], CheckAbortOut, ResetOut)
  {
    var status;
    var polls: seq<Step> := [];
    w, status := Control(InitiateAbortOut(t));
    steps := [Asked(InitiateAbortOut(t), status)];
    if !w.Ok? {
      return;
    }
    match status {
      case Success =>
        var done;
        w, done, polls := Poll(CheckAbortOut);
        if !w.Ok? {
          return;
        }
        steps := steps + polls;
      case NotInProgress =>
      case _ =>
        w := Failed;
        return;
    }
    w := Await();
    steps := steps + [ResetOut];
    assert status.Success? ==> steps[1..|steps| - 1] == polls;
  }

  /** The heavier reset: it counts only if the device says it is done and both pipes are reset. */
  method ClearHandshake() returns (w: Wait, steps: seq<Step>)
    ensures w.Ok? ==> IsClear(steps)
  {
    var status, done;
    var polls;
    w, status := Control(InitiateClear);
    steps := [Asked(InitiateClear, status)];
    if !w.Ok? {
      return;
    }
    if !status.Success? {
      w := Failed;
      return;
    }
    w, done, polls := Poll(CheckClear);
    if !w.Ok? {
      return;
    }
    if !done {
      w := Failed;
      return;
    }
    w := Await();
    if !w.Ok? {
      return;
    }
    w := Await();
    steps := steps + polls + [ResetIn, ResetOut];
    assert steps[1..|steps| - 2] == polls;
  }

  // ---- The pipe ----

  /**
   What happened on the pipe, in order; an abort or a clear carries its handshake. Requests are
   numbered by the tags taken. `LeftBehind` is what the host cannot see: a request whose bulk-OUT
   failed or was dropped, and which the device took all the same.
   */
  datatype Act =
    | Submit(tag: byte, message: seq<byte>)
    | Accepted
    | LeftBehind(number: nat)
    | Awaiting(number: nat)
    | Taken(number: nat)
    | AbortedIn(tag: byte, steps: seq<Step>)
    | AbortedOut(tag: byte, steps: seq<Step>)
    | Cleared(steps: seq<Step>)

  /** The bulk-OUT message that was submitted and neither accepted, nor aborted under its own tag, nor cleared. */
  function OutAfter(before: Option<byte>, act: Act): Option<byte> {
    match act
    case Submit(tag, _) => Some(tag)
    case Accepted => None
    case AbortedOut(tag, _) => if before == Some(tag) then None else before
    case Cleared(_) => None
    case _ => before
  }

  function TagOf(number: nat): byte { TagAfter(0, number) }

  /** The accepted request whose reply was neither taken, nor aborted under its own tag, nor cleared. */
  function InAfter(before: Option<nat>, act: Act): Option<nat> {
    match act
    case Awaiting(number) => Some(number)
    case Taken(number) => if before == Some(number) then None else before
    case AbortedIn(tag, _) => if before.Some? && TagOf(before.value) == tag then None else before
    case Cleared(_) => None
    case _ => before
  }

  function OpenOut(wire: seq<Act>): Option<byte> {
    if wire == [] then None else OutAfter(OpenOut(wire[..|wire| - 1]), wire[|wire| - 1])
  }

  function OpenIn(wire: seq<Act>): Option<nat> {
    if wire == [] then None else InAfter(OpenIn(wire[..|wire| - 1]), wire[|wire| - 1])
  }

  /** Recovery is claimed only for a handshake that ran its course. */
  predicate Earned(act: Act) {
    match act
    case AbortedIn(tag, steps) => IsAbort(steps, InitiateAbortIn(tag), [ResetIn], CheckAbortIn, ResetIn)
    case AbortedOut(tag, steps) => IsAbort(steps, InitiateAbortOut(tag), [], CheckAbortOut, ResetOut)
    case Cleared(steps) => IsClear(steps)
    case _ => true
  }

  /** Every message was submitted onto a pipe with nothing open in either direction, and every recovery was earned. */
  predicate InStep(wire: seq<Act>) {
    wire == [] || (
      var before, last := wire[..|wire| - 1], wire[|wire| - 1];
      InStep(before) && Earned(last) && Follows(before, last))
  }

  predicate Follows(before: seq<Act>, act: Act) {
    && (act.Submit? ==> OpenOut(before).None? && OpenIn(before).None?)
    && (act.Awaiting? ==> OpenIn(before).None?)
    && (act.Accepted? ==> before != [] && before[|before| - 1].Submit?)
    && (act.LeftBehind? ==> before != [] && before[|before| - 1].Submit?)
  }

  lemma {:induction false} Followed(wire: seq<Act>, i: nat)
    requires InStep(wire) && i < |wire|
    ensures Follows(wire[..i], wire[i])
  {
    var before := wire[..|wire| - 1];
    if i < |before| {
      Followed(before, i);
      assert before[..i] == wire[..i];
    }
  }

  lemma SubmittedOntoASettledPipe(wire: seq<Act>, i: nat)
    requires InStep(wire) && i < |wire| && wire[i].Submit?
    ensures OpenOut(wire[..i]).None? && OpenIn(wire[..i]).None?
  {
    Followed(wire, i);
  }

  lemma Logged(wire: seq<Act>, act: Act)
    ensures OpenOut(wire + [act]) == OutAfter(OpenOut(wire), act)
    ensures OpenIn(wire + [act]) == InAfter(OpenIn(wire), act)
    ensures InStep(wire + [act]) <==> InStep(wire) && Earned(act) && Follows(wire, act)
  {
    assert (wire + [act])[..|wire|] == wire;
  }

  // ---- replies the device may still owe ----

  /** The device said the abort was complete; a reply not in progress, or fifty times pending, is no such word. */
  predicate Confirmed(steps: seq<Step>) { |steps| > 1 && steps[|steps| - 2] == Asked(CheckAbortIn, Success) }

  /** From here on the device may answer request `n`, though the host may have given up on it. */
  predicate Raises(act: Act, n: nat) { act == LeftBehind(n) || act == Awaiting(n) }

  /** From here on it will not. */
  predicate Ends(act: Act, n: nat) {
    act == Taken(n) || act.Cleared? || (act.AbortedIn? && act.tag == TagOf(n) && Confirmed(act.steps))
  }

  predicate Owes(wire: seq<Act>, n: nat) {
    wire != [] && (Raises(wire[|wire| - 1], n) || (Owes(wire[..|wire| - 1], n) && !Ends(wire[|wire| - 1], n)))
  }

  predicate NeverEnded(wire: seq<Act>, n: nat, i: nat) { forall j :: i < j < |wire| ==> !Ends(wire[j], n) }

  lemma {:induction false} OwesSince(wire: seq<Act>, n: nat) returns (i: nat)
    requires Owes(wire, n)
    ensures i < |wire| && Raises(wire[i], n) && NeverEnded(wire, n, i)
  {
    var before := wire[..|wire| - 1];
    if Raises(wire[|wire| - 1], n) {
      i := |wire| - 1;
    } else {
      i := OwesSince(before, n);
      assert wire[i] == before[i] && forall j :: i < j < |before| ==> wire[j] == before[j];
    }
  }

  lemma {:induction false} StillOwes(wire: seq<Act>, n: nat, i: nat)
    requires i < |wire| && Raises(wire[i], n) && NeverEnded(wire, n, i)
    ensures Owes(wire, n)
  {
    if i < |wire| - 1 {
      var before := wire[..|wire| - 1];
      assert before[i] == wire[i] && forall j :: i < j < |before| ==> before[j] == wire[j];
      StillOwes(before, n, i);
    }
  }

  /** An awaited reply stays awaited until it is taken, cleared, or an abort is made under its tag. */
  lemma {:induction false} AwaitedUntilAborted(wire: seq<Act>, n: nat, i: nat)
    requires InStep(wire) && i < |wire| && wire[i] == Awaiting(n) && NeverEnded(wire, n, i)
    ensures OpenIn(wire) == Some(n) || exists k :: i < k < |wire| && wire[k].AbortedIn? && wire[k].tag == TagOf(n)
  {
    if i < |wire| - 1 {
      var before, last := wire[..|wire| - 1], wire[|wire| - 1];
      assert before[i] == wire[i] && forall j :: i < j < |before| ==> before[j] == wire[j];
      AwaitedUntilAborted(before, n, i);
      assert !Ends(last, n);
      if OpenIn(before) != Some(n) {
        var k :| i < k < |before| && before[k].AbortedIn? && before[k].tag == TagOf(n);
        assert wire[k] == before[k];
      } else if OpenIn(wire) != Some(n) {
        assert wire[|wire| - 1].AbortedIn?;
      }
    }
  }

  /** Request `n` was given up: left behind in its bulk-OUT, or its reply aborted without the device's word. */
  predicate GivenUp(wire: seq<Act>, n: nat, i: nat) {
    && i < |wire| && NeverEnded(wire, n, i)
    && (|| wire[i] == LeftBehind(n)
        || (wire[i] == Awaiting(n) && exists k :: i < k < |wire| && wire[k].AbortedIn? && wire[k].tag == TagOf(n)))
  }

  /** Exactly then a pipe with no reply open by the host's own account still has one owed. */
  lemma SettledYetOwedIff(wire: seq<Act>, n: nat)
    requires InStep(wire) && OpenIn(wire).None?
    ensures Owes(wire, n) <==> exists i: nat :: GivenUp(wire, n, i)
  {
    if Owes(wire, n) {
      var i := OwesSince(wire, n);
      if wire[i] == Awaiting(n) {
        AwaitedUntilAborted(wire, n, i);
      }
      assert GivenUp(wire, n, i);
    }
    if exists i: nat :: GivenUp(wire, n, i) {
      var i: nat :| GivenUp(wire, n, i);
      StillOwes(wire, n, i);
    }
  }

  /** What the host sees: a bulk-OUT that did not complete, or an abort of the reply with this tag that went unconfirmed. */
  predicate SeenGivenUp(wire: seq<Act>, tag: byte, i: nat) {
    && i < |wire|
    && (|| (wire[i].Submit? && !(i + 1 < |wire| && wire[i + 1].Accepted?))
        || (wire[i].AbortedIn? && wire[i].tag == tag && !Confirmed(wire[i].steps)))
  }

  /** So a reply may be owed only if the host saw one of those, and no clear completed since. */
  lemma OwedOnlyIfSeen(wire: seq<Act>, n: nat) returns (i: nat)
    requires InStep(wire) && OpenIn(wire).None? && Owes(wire, n)
    ensures SeenGivenUp(wire, TagOf(n), i) && forall j :: i <= j < |wire| ==> !wire[j].Cleared?
  {
    SettledYetOwedIff(wire, n);
    var k: nat :| GivenUp(wire, n, k);
    if wire[k] == LeftBehind(n) {
      Followed(wire, k);
      i := k - 1;
      assert wire[..k][k - 1] == wire[i];
    } else {
      i :| k < i < |wire| && wire[i].AbortedIn? && wire[i].tag == TagOf(n);
    }
  }

  /** A run in which the next message goes out with a reply owed: the request was dropped after the device took it, and nothing was in progress to abort. */
  lemma SubmittedWithAReplyOwed(request: seq<byte>, next: seq<byte>)
    ensures var wire := [Submit(1, request), LeftBehind(1), AbortedOut(1, [Asked(InitiateAbortOut(1), NotInProgress), ResetOut])];
            InStep(wire + [Submit(2, next)]) && OpenOut(wire).None? && OpenIn(wire).None? && Owes(wire, 1)
  {
    var a, b, c := Submit(1, request), LeftBehind(1), AbortedOut(1, [Asked(InitiateAbortOut(1), NotInProgress), ResetOut]);
    assert InStep([]) && OpenOut([]).None? && OpenIn([]).None?;
    Logged([], a);
    assert [] + [a] == [a];
    Logged([a], b);
    assert [a] + [b] == [a, b];
    Logged([a, b], c);
    assert [a, b] + [c] == [a, b, c];
    Logged([a, b, c], Submit(2, next));
    StillOwes([a, b, c], 1, 1);
  }

  /** Requests are numbered from 1 up to the tags taken. */
  predicate Numbered(wire: seq<Act>, taken: nat) {
    forall i :: 0 <= i < |wire| ==> HasNumber(wire[i], taken)
  }

  predicate HasNumber(act: Act, taken: nat) { act.LeftBehind? || act.Awaiting? ==> 0 < act.number <= taken }

  /** Logging an act that may follow. */
  lemma Logs(wire: seq<Act>, act: Act, taken: nat)
    requires InStep(wire) && Numbered(wire, taken) && Earned(act) && Follows(wire, act) && HasNumber(act, taken)
    ensures InStep(wire + [act]) && Numbered(wire + [act], taken)
    ensures OpenOut(wire + [act]) == OutAfter(OpenOut(wire), act)
    ensures OpenIn(wire + [act]) == InAfter(OpenIn(wire), act)
  {
    Logged(wire, act);
  }

  /** So no reply still owed is returned by any of the next 254 requests' reads. */
  lemma OwedReplyNotReturned(wire: seq<Act>, taken: nat, n: nat, t: Transfer)
    requires Numbered(wire, taken) && Owes(wire, n)
    requires CarriesOwnTag(t) && taken < t.number < n + 255
    ensures t.buf[1] != TagOf(n)
  {
    var i := OwesSince(wire, n);
    assert HasNumber(wire[i], taken);
    if t.buf[1] == TagOf(n) {
      StaleReplyRefused(0, n, t.number, t.buf);
    }
  }

  predicate EndsWith(wire: seq<Act>, last: seq<Act>) { |last| <= |wire| && wire[|wire| - |last|..] == last }

  /** How much a read asks for. */
  function Wanted(maxLen: nat): u32 { Min(Max(maxLen, 1), MAX_READ_TRANSFER) }

  datatype Op =
    | Write(data: seq<byte>, eom: bool, fate: Fate)
    | Read(maxLen: nat, termChar: Option<byte>, fates: nat -> Fate, arrivals: nat -> nat -> Arrival)
    | Clear
    | Ifc
    | Trigger(message: seq<byte>, fate: Fate)

  /** What one bulk-IN read brings. */
  datatype Arrival = Buffer(bytes: seq<byte>) | Nothing | Never

  datatype Reading = Got(data: seq<byte>, ended: bool) | Lost | Gone

  /** How a bulk-OUT transfer ended, and whether the device took the message all the same. */
  datatype Fate = Went | Refused(took: bool) | Vanished(took: bool)

  predicate Leaves(asks: bool, fate: Fate) { asks && !fate.Went? && fate.took }

  /** A reply that was taken: the request's number, the buffer, and what it was parsed to. */
  datatype Transfer = Transfer(number: nat, buf: seq<byte>, data: seq<byte>, ended: bool)

  predicate CarriesOwnTag(t: Transfer) {
    var m := Parse(t.buf, TagOf(t.number));
    m.Some? && t.data == m.value.data && t.ended == (m.value.eom || m.value.termChar)
  }

  function Joined(ts: seq<Transfer>): seq<byte> {
    if ts == [] then [] else Joined(ts[..|ts| - 1]) + ts[|ts| - 1].data
  }

  lemma JoinedOfLast(ts: seq<Transfer>, last: Transfer)
    ensures Joined(ts + [last]) == Joined(ts) + last.data
  {
    assert (ts + [last])[..|ts|] == ts;
  }

  /** Transfers that leave a read of `want` bytes going: each brought something, none the end, and more is wanted. */
  predicate GoesOn(ts: seq<Transfer>, want: nat) {
    && |Joined(ts)| < want
    && forall i :: 0 <= i < |ts| ==> CarriesOwnTag(ts[i]) && !ts[i].ended && ts[i].data != []
  }

  /** What a read of `want` bytes returns: all its transfers in order, ended if and only if the last one was. */
  predicate Reassembles(ts: seq<Transfer>, want: nat, data: seq<byte>, ended: bool) {
    && ts != [] && data == Joined(ts)
    && GoesOn(ts[..|ts| - 1], want)
    && (var last := ts[|ts| - 1];
        CarriesOwnTag(last) && ended == last.ended && (ended || |data| >= want || last.data == []))
  }

  /** The transfers of consecutive requests. */
  predicate NumberedFrom(ts: seq<Transfer>, first: nat) {
    forall i :: 0 <= i < |ts| ==> ts[i].number == first + i
  }

  lemma TransferAdds(ts: seq<Transfer>, t: Transfer, want: nat, first: nat)
    requires GoesOn(ts, want) && CarriesOwnTag(t) && NumberedFrom(ts, first) && t.number == first + |ts|
    ensures NumberedFrom(ts + [t], first)
    ensures t.ended || |Joined(ts)| + |t.data| >= want || t.data == [] ==> Reassembles(ts + [t], want, Joined(ts) + t.data, t.ended)
    ensures !t.ended && |Joined(ts)| + |t.data| < want && t.data != [] ==> GoesOn(ts + [t], want)
    ensures Joined(ts + [t]) == Joined(ts) + t.data
  {
    JoinedOfLast(ts, t);
    assert (ts + [t])[..|ts|] == ts;
  }

  /** A conforming device hands out `message` in order, never more than was asked for and never nothing, and marks the end of it alone. */
  predicate Conforms(ts: seq<Transfer>, message: seq<byte>, want: nat) {
    ts == [] || (
      var before, last := ts[..|ts| - 1], ts[|ts| - 1];
      var p := |Joined(before)|;
      && Conforms(before, message, want)
      && (last.data != [] || message == [])
      && p + |last.data| <= want && p + |last.data| <= |message|
      && last.data == message[p..p + |last.data|]
      && (last.ended <==> p + |last.data| == |message|))
  }

  lemma {:induction false} ConformsInOrder(ts: seq<Transfer>, message: seq<byte>, want: nat)
    requires Conforms(ts, message, want)
    ensures |Joined(ts)| <= Min(want, |message|) && Joined(ts) == message[..|Joined(ts)|]
  {
    if ts != [] {
      var before := ts[..|ts| - 1];
      ConformsInOrder(before, message, want);
      PrefixExtends(message, |Joined(before)|, |Joined(ts)|);
    }
  }

  /** So the caller never sees the device's own chunking: it gets the whole message, ended, or its first `want` bytes, not ended. */
  lemma ReadsWholeMessage(ts: seq<Transfer>, message: seq<byte>, want: nat, data: seq<byte>, ended: bool)
    requires want > 0 && Reassembles(ts, want, data, ended) && Conforms(ts, message, want)
    ensures if |message| <= want then data == message && ended else data == message[..want] && !ended
  {
    ConformsInOrder(ts, message, want);
    assert message[..|message|] == message;
  }

  /** None of these transfers is a reply that the device owed when the read began, for requests less than 255 back. */
  ghost predicate NoneOwed(wire: seq<Act>, ts: seq<Transfer>) {
    forall i, n: nat :: 0 <= i < |ts| && Owes(wire, n) && ts[i].number < n + 255 ==> |ts[i].buf| > 1 && ts[i].buf[1] != TagOf(n)
  }

  lemma NoneOwedReturned(wire: seq<Act>, taken: nat, ts: seq<Transfer>, want: nat, data: seq<byte>, ended: bool)
    requires Numbered(wire, taken) && Reassembles(ts, want, data, ended)
    requires forall i :: 0 <= i < |ts| ==> ts[i].number > taken
    ensures NoneOwed(wire, ts)
  {
    forall i, n: nat | 0 <= i < |ts| && Owes(wire, n) && ts[i].number < n + 255 ensures |ts[i].buf| > 1 && ts[i].buf[1] != TagOf(n) {
      if i < |ts| - 1 {
        assert ts[i] == ts[..|ts| - 1][i];
      }
      assert CarriesOwnTag(ts[i]);
      OwedReplyNotReturned(wire, taken, n, ts[i]);
    }
  }

  // ---- reads that bring more than was asked for ----

  /** What the last transfer was asked for. */
  function LastAsked(ts: seq<Transfer>, want: nat): int
    requires ts != []
  {
    want - |Joined(ts[..|ts| - 1])|
  }

  /** A read returns no more than `want` bytes exactly when the last transfer's size field, or what came of it, is within what it was asked for. */
  lemma ReadsNoMoreIff(ts: seq<Transfer>, want: nat, data: seq<byte>, ended: bool)
    requires Reassembles(ts, want, data, ended)
    ensures var last := ts[|ts| - 1];
            (|data| <= want <==>
               Min(FromBytesLe(last.buf[4..8]), |last.buf| - HEADER_LEN) <= LastAsked(ts, want))
    ensures var last := ts[|ts| - 1];
            |last.buf| <= HEADER_LEN + LastAsked(ts, want) + PadLen(LastAsked(ts, want)) ==> |data| <= want + 3
  {
    var last := ts[|ts| - 1];
    assert |data| == |Joined(ts[..|ts| - 1])| + |last.data|;
  }

  /** A device that answers a request for one byte with four, within the padding the read has room for. */
  lemma FourForOne()
    ensures var t := Transfer(1, EncodeIn(1, [1, 2, 3, 4], true, false), [1, 2, 3, 4], true);
            Reassembles([t], 1, [1, 2, 3, 4], true) && |t.buf| == HEADER_LEN + 1 + PadLen(1)
  {
    var t := Transfer(1, EncodeIn(1, [1, 2, 3, 4], true, false), [1, 2, 3, 4], true);
    InRoundTrip(1, [1, 2, 3, 4], true, false, 1);
    assert TagOf(1) == 1 by { TagCycles(0, 1); }
    JoinedOfLast([], t);
    assert [] + [t] == [t] && [t][..0] == [];
  }

  /** The outcome of reading until a buffer carries the request's tag: found, none of at most four did, or the call was dropped. */
  datatype Resynced = Found(attempt: nat, message: InMessage) | NoneFound | CallDropped

  /** Read, discard what does not answer the request, and read again, up to three times. */
  method Resync(tag: byte, arrivals: nat -> Arrival) returns (r: Resynced)
    ensures r.Found? ==>
              && r.attempt <= READ_RESYNC_ATTEMPTS && arrivals(r.attempt).Buffer?
              && Parse(arrivals(r.attempt).bytes, tag) == Some(r.message)
              && forall i: nat :: i < r.attempt ==> arrivals(i).Buffer? && Parse(arrivals(i).bytes, tag).None?
    ensures r.NoneFound? ==> forall i: nat :: i <= READ_RESYNC_ATTEMPTS && arrivals(i).Buffer? && Parse(arrivals(i).bytes, tag).Some? ==>
              exists j: nat :: j < i && arrivals(j).Nothing?
  {
    for k := 0 to READ_RESYNC_ATTEMPTS + 1
      invariant forall i: nat :: i < k ==> arrivals(i).Buffer? && Parse(arrivals(i).bytes, tag).None?
    {
      var a := arrivals(k);
      if a.Never? {
        return CallDropped;
      }
      if a.Nothing? {
        return NoneFound;
      }
      var m := Parse(a.bytes, tag);
      if m.Some? {
        return Found(k, m.value);
      }
    }
    return NoneFound;
  }

  class Pipe {
    var tag: byte
    var pendingOut: Option<byte>
    var pendingIn: Option<byte>
    ghost var wire: seq<Act>
    ghost var taken: nat

    /** Whatever is open on the wire has its flag set, with its tag. */
    ghost predicate Valid()
      reads this
    {
      && InStep(wire)
      && (OpenOut(wire).Some? ==> pendingOut == OpenOut(wire))
      && (OpenIn(wire).Some? ==> pendingIn == Some(TagOf(OpenIn(wire).value)))
      && tag == TagAfter(0, taken)
      && Numbered(wire, taken)
    }

    constructor ()
      ensures Valid() && wire == [] && pendingIn.None? && pendingOut.None?
    {
      tag, pendingOut, pendingIn, wire, taken := 0, None, None, [], 0;
    }

    method TakeTag() returns (t: byte)
      requires Valid()
      modifies this`tag, this`taken
      ensures Valid() && taken == old(taken) + 1 && t == tag == TagAfter(0, taken)
    {
      tag, taken := NextTag(tag), taken + 1;
      t := tag;
    }

    method AbortBulkIn(t: byte) returns (w: Wait, ghost steps: seq<Step>)
      requires Valid()
      modifies this`wire
      ensures Valid() && wire == old(wire) + if w.Ok? then [AbortedIn(t, steps)] else []
      ensures OpenOut(wire) == OpenOut(old(wire)) && (w.Ok? && pendingIn == Some(t) ==> OpenIn(wire).None?)
    {
      w, steps := AbortInHandshake(t);
      if w.Ok? {
        Logs(wire, AbortedIn(t, steps), taken);
        wire := wire + [AbortedIn(t, steps)];
      }
    }

    method AbortBulkOut(t: byte) returns (w: Wait, ghost steps: seq<Step>)
      requires Valid()
      modifies this`wire
      ensures Valid() && wire == old(wire) + if w.Ok? then [AbortedOut(t, steps)] else []
      ensures OpenIn(wire) == OpenIn(old(wire)) && (w.Ok? && pendingOut == Some(t) ==> OpenOut(wire).None?)
    {
      w, steps := AbortOutHandshake(t);
      if w.Ok? {
        Logs(wire, AbortedOut(t, steps), taken);
        wire := wire + [AbortedOut(t, steps)];
      }
    }

    method ClearDevice() returns (w: Wait, ghost steps: seq<Step>)
      requires Valid()
      modifies this`wire, this`pendingIn, this`pendingOut
      ensures Valid() && wire == old(wire) + if w.Ok? then [Cleared(steps)] else []
      ensures w.Ok? ==> pendingIn.None? && pendingOut.None?
      ensures !w.Ok? ==> pendingIn == old(pendingIn) && pendingOut == old(pendingOut)
    {
      w, steps := ClearHandshake();
      if w.Ok? {
        Logs(wire, Cleared(steps), taken);
        wire := wire + [Cleared(steps)];
        pendingIn, pendingOut := None, None;
      }
    }

    /** The abort of each endpoint that needs one: a reply first, then a message. */
    method AbortBoth() returns (w: Wait)
      requires Valid()
      modifies this`wire
      ensures Valid() && old(wire) <= wire
      ensures w.Ok? ==> OpenIn(wire).None? && OpenOut(wire).None?
    {
      w := Ok;
      ghost var steps;
      if pendingIn.Some? {
        w, steps := AbortBulkIn(pendingIn.value);
      }
      if pendingOut.Some? && w.Ok? {
        w, steps := AbortBulkOut(pendingOut.value);
      }
    }

    /** Both flags are cleared, and then nothing is open, or neither is touched. */
    method Settle() returns (w: Wait)
      requires Valid()
      modifies this`wire, this`pendingIn, this`pendingOut
      ensures Valid() && old(wire) <= wire
      ensures w.Ok? ==> pendingIn.None? && pendingOut.None?
      ensures !w.Ok? ==> pendingIn == old(pendingIn) && pendingOut == old(pendingOut)
    {
      if pendingIn.None? && pendingOut.None? {
        return Ok;
      }
      w := AbortBoth();
      if w.Failed? {
        ghost var steps;
        w, steps := ClearDevice();
      } else if w.Ok? {
        pendingIn, pendingOut := None, None;
      }
    }

    method Fail() returns (dropped: bool)
      requires Valid()
      modifies this`wire, this`pendingIn, this`pendingOut
      ensures Valid() && old(wire) <= wire
    {
      var w := Settle();
      dropped := w.Dropped?;
    }

    method Offer(message: seq<byte>, t: byte)
      requires Valid() && pendingIn.None? && pendingOut.None?
      modifies this`wire, this`pendingOut
      ensures Valid() && pendingOut == Some(t) && wire == old(wire) + [Submit(t, message)]
    {
      pendingOut := Some(t);
      Logs(wire, Submit(t, message), taken);
      wire := wire + [Submit(t, message)];
    }

    /** The device takes a request whose transfer does not complete. */
    ghost method LeaveBehind()
      requires Valid() && taken > 0 && wire != [] && wire[|wire| - 1].Submit?
      modifies this`wire
      ensures Valid() && wire == old(wire) + [LeftBehind(taken)]
    {
      Logs(wire, LeftBehind(taken), taken);
      wire := wire + [LeftBehind(taken)];
    }

    method Accept(message: seq<byte>, t: byte)
      requires Valid() && pendingIn.None? && wire != [] && wire[|wire| - 1] == Submit(t, message)
      modifies this`wire, this`pendingOut
      ensures Valid() && pendingOut.None? && wire == old(wire) + [Accepted]
    {
      pendingOut := None;
      Logs(wire, Accepted, taken);
      wire := wire + [Accepted];
    }

    /** The transfer does not complete; a request may be taken by the device all the same. */
    method FallShort(fate: Fate, left: bool) returns (w: Wait)
      requires Valid() && taken > 0 && !fate.Went? && wire != [] && wire[|wire| - 1].Submit?
      modifies this`wire, this`pendingIn, this`pendingOut
      ensures Valid() && !w.Ok? && old(wire) + (if left then [LeftBehind(taken)] else []) <= wire
      ensures fate.Vanished? ==> w.Dropped? && pendingOut == old(pendingOut)
    {
      if left {
        LeaveBehind();
      }
      w := Dropped;
      if fate.Refused? {
        var dropped := Fail();
        w := if dropped then Dropped else Failed;
      }
    }

    /** On a settled pipe: submit, and see what becomes of the transfer. */
    method Deliver(message: seq<byte>, t: byte, asks: bool, fate: Fate) returns (w: Wait)
      requires Valid() && pendingIn.None? && pendingOut.None? && t == tag && taken > 0
      modifies this`wire, this`pendingIn, this`pendingOut
      ensures Valid() && (w.Ok? <==> fate.Went?)
      ensures w.Ok? ==> pendingIn.None? && pendingOut.None? && wire == old(wire) + [Submit(t, message)] + [Accepted]
      ensures !w.Ok? ==> old(wire) + [Submit(t, message)] + (if Leaves(asks, fate) then [LeftBehind(taken)] else []) <= wire
      ensures fate.Vanished? ==> w.Dropped? && pendingOut == Some(t)
    {
      Offer(message, t);
      if fate.Went? {
        Accept(message, t);
        w := Ok;
      } else {
        w := FallShort(fate, Leaves(asks, fate));
      }
    }

    /**
     Submit one bulk-OUT message, but only onto a settled pipe. A request that the device took
     although its transfer failed or was dropped is left behind.
     */
    method SendMessage(message: seq<byte>, t: byte, asks: bool, fate: Fate) returns (w: Wait, ghost settled: Option<seq<Act>>)
      requires Valid() && t == tag && taken > 0
      modifies this`wire, this`pendingIn, this`pendingOut
      ensures Valid() && (w.Ok? ==> settled.Some?)
      ensures settled.Some? ==> old(wire) <= settled.value && (w.Ok? <==> fate.Went?)
      ensures w.Ok? ==> pendingIn.None? && pendingOut.None? && wire == settled.value + [Submit(t, message)] + [Accepted]
      ensures settled.Some? && !w.Ok? ==> settled.value + [Submit(t, message)] + (if Leaves(asks, fate) then [LeftBehind(taken)] else []) <= wire
      ensures settled.Some? && fate.Vanished? ==> w.Dropped? && pendingOut == Some(t)
    {
      settled := None;
      w := Settle();
      if w.Ok? {
        settled := Some(wire);
        w := Deliver(message, t, asks, fate);
      }
    }

    method WriteMessage(data: seq<byte>, eom: bool, fate: Fate) returns (w: Wait)
      requires Valid()
      modifies this
      ensures Valid() && taken == old(taken) + 1
      ensures w.Ok? ==> EndsWith(wire, [Submit(tag, EncodeOut(tag, data, eom)), Accepted])
    {
      var t := TakeTag();
      ghost var settled;
      w, settled := SendMessage(EncodeOut(t, data, eom), t, false, fate);
    }

    method Expect()
      requires Valid() && pendingIn.None? && taken > 0
      modifies this`wire, this`pendingIn
      ensures Valid() && pendingIn == Some(tag) && wire == old(wire) + [Awaiting(taken)]
    {
      pendingIn := Some(tag);
      Logs(wire, Awaiting(taken), taken);
      wire := wire + [Awaiting(taken)];
    }

    method TakeReply()
      requires Valid() && wire != [] && wire[|wire| - 1] == Awaiting(taken)
      modifies this`wire, this`pendingIn
      ensures Valid() && pendingIn.None? && wire == old(wire) + [Taken(taken)]
    {
      pendingIn := None;
      Logs(wire, Taken(taken), taken);
      wire := wire + [Taken(taken)];
    }

    /** Ask for up to `maxLen` bytes under a fresh tag; asked, the reply is awaited. */
    method Ask(maxLen: nat, termChar: Option<byte>, fate: Fate) returns (w: Wait, ghost settled: seq<Act>)
      requires Valid()
      modifies this
      ensures Valid() && taken == old(taken) + 1
      ensures w.Ok? ==>
                && pendingOut.None?
                && wire == settled + [Submit(tag, EncodeRequest(tag, Wanted(maxLen), termChar)), Accepted, Awaiting(taken)]
    {
      var mine := TakeTag();
      ghost var at;
      w, at := SendMessage(EncodeRequest(mine, Wanted(maxLen), termChar), mine, true, fate);
      settled := if at.Some? then at.value else [];
      if w.Ok? {
        Expect();
      }
    }

    /** One request and the reply that answers it: stale or broken buffers before it are skipped. */
    method ReadOneTransfer(maxLen: nat, termChar: Option<byte>, fate: Fate, arrivals: nat -> Arrival)
      returns (r: Reading, ghost t: Transfer, ghost attempt: nat, ghost settled: seq<Act>)
      requires Valid()
      modifies this
      ensures Valid() && taken == old(taken) + 1 && t.number == taken
      ensures r.Got? ==>
                && pendingIn.None? && pendingOut.None?
                && wire == settled + [Submit(tag, EncodeRequest(tag, Wanted(maxLen), termChar)), Accepted, Awaiting(taken)] + [Taken(taken)]
                && CarriesOwnTag(t) && r == Got(t.data, t.ended)
                && attempt <= READ_RESYNC_ATTEMPTS && arrivals(attempt) == Buffer(t.buf)
                && forall i: nat :: i < attempt ==> arrivals(i).Buffer? && Parse(arrivals(i).bytes, tag).None?
    {
      var w;
      w, settled := Ask(maxLen, termChar, fate);
      t, attempt := Transfer(taken, [], [], false), 0;
      if !w.Ok? {
        r := if w.Dropped? then Gone else Lost;
        return;
      }
      var found := Resync(tag, arrivals);
      match found
      case Found(k, m) =>
        var ended := m.eom || m.termChar;
        t, attempt := Transfer(taken, arrivals(k).bytes, m.data, ended), k;
        TakeReply();
        r := Got(m.data, ended);
      case NoneFound =>
        var dropped := Fail();
        r := if dropped then Gone else Lost;
      case CallDropped =>
        r := Gone;
    }

    /** A whole read: none of what it returns is a reply still owed to one of the 254 requests before. */
    method ReadMessage(maxLen: nat, termChar: Option<byte>, fates: nat -> Fate, arrivals: nat -> nat -> Arrival) returns (r: Reading, ghost ts: seq<Transfer>)
      requires Valid()
      modifies this
      ensures Valid()
      ensures r.Got? ==> Reassembles(ts, Wanted(maxLen), r.data, r.ended) && NoneOwed(old(wire), ts)
    {
      r, ts := ReadTransfers(maxLen, termChar, fates, arrivals);
      if r.Got? {
        NoneOwedReturned(old(wire), old(taken), ts, Wanted(maxLen), r.data, r.ended);
      }
    }

    /** Read on across transfers until the end is marked, `want` bytes are in, or nothing comes. */
    method ReadTransfers(maxLen: nat, termChar: Option<byte>, fates: nat -> Fate, arrivals: nat -> nat -> Arrival) returns (r: Reading, ghost ts: seq<Transfer>)
      requires Valid()
      modifies this
      ensures Valid()
      ensures r.Got? ==> Reassembles(ts, Wanted(maxLen), r.data, r.ended)
      ensures NumberedFrom(ts, old(taken) + 1)
    {
      var want := Wanted(maxLen);
      var turn: nat, out: seq<byte> := 0, [];
      ts := [];
      while true
        invariant Valid() && turn == |ts| && out == Joined(ts) && GoesOn(ts, want)
        invariant taken == old(taken) + |ts| && NumberedFrom(ts, old(taken) + 1)
        decreases want - |out|
      {
        var one, t, attempt, settled := ReadOneTransfer(want - |out|, termChar, fates(turn), arrivals(turn));
        if !one.Got? {
          r := one;
          return;
        }
        TransferAdds(ts, t, want, old(taken) + 1);
        ts := ts + [t];
        out := out + one.data;
        if one.ended || |out| >= want || one.data == [] {
          r := Got(out, one.ended);
          return;
        }
        turn := turn + 1;
      }
    }

    /** Any operations in any order, each of them failing or dropped anywhere: the pipe is never used out of step. */
    method RunAll(ops: seq<Op>)
      requires Valid()
      modifies this
      ensures Valid()
    {
      for i := 0 to |ops|
        invariant Valid()
      {
        match ops[i]
        case Write(data, eom, fate) => var _ := WriteMessage(data, eom, fate);
        case Read(maxLen, termChar, fates, arrivals) => var _, _ := ReadMessage(maxLen, termChar, fates, arrivals);
        case Clear => var _, _ := ClearDevice();
        case Ifc => var _ := Settle();
        case Trigger(message, fate) =>
          var t := TakeTag();
          var _, _ := SendMessage(message, t, false, fate);
      }
    }
  }
}
