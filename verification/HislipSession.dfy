/**
 One HiSLIP session: the message-available bookkeeping its two channels share, and the
 assembly of commands on the synchronous channel while the other may clear the device.
 */
module HislipSession {
  import opened Common

  const FIRST_MESSAGE_ID: u32 := 0xffff_ff00

  /** Message ids count up by two and wrap at 32 bits. */
  function Id(n: int): u32 { (FIRST_MESSAGE_ID + 2 * n) % 0x1_0000_0000 }

  lemma IdsAgree(m: int, n: int)
    ensures Id(m) == Id(n) <==> (m - n) % 0x8000_0000 == 0
  {
    var a, b := FIRST_MESSAGE_ID + 2 * m, FIRST_MESSAGE_ID + 2 * n;
    assert a % 0x1_0000_0000 == b % 0x1_0000_0000 <==> (a - b) % 0x1_0000_0000 == 0;
    assert a - b == 2 * (m - n);
  }

  lemma IdsStep(n: int)
    ensures (Id(n) + 2) % 0x1_0000_0000 == Id(n + 1)
    ensures (Id(n) - 2) % 0x1_0000_0000 == Id(n - 1)
  {
  }

  // ---- The session's shared state ----

  datatype State = State(overlapped: bool, mav: bool, lastMessageId: u32, nextServerId: u32)

  /** A client message arrives, a reply is announced, one of its messages is sent, a device clear completes. */
  datatype Event =
    | Client(id: u32, rmtDelivered: bool)
    | Reply
    | Send
    | ClearComplete(overlapped: bool)

  function Fresh(overlapped: bool): State {
    State(overlapped, false, Id(-1), FIRST_MESSAGE_ID)
  }

  function Step(s: State, e: Event): State {
    match e
    case Client(id, rmt) => s.(lastMessageId := id, mav := s.mav && !rmt)
    case Reply => s.(mav := true)
    case Send => if s.overlapped then s.(nextServerId := (s.nextServerId + 2) % 0x1_0000_0000) else s
    case ClearComplete(overlapped) => s.(mav := false, overlapped := overlapped, nextServerId := FIRST_MESSAGE_ID)
  }

  function Run(overlapped: bool, events: seq<Event>): State {
    if events == [] then Fresh(overlapped) else Step(Run(overlapped, events[..|events| - 1]), events[|events| - 1])
  }

  /** Whether a status query quoting `id` is told that a message is available. */
  predicate Mav(s: State, id: u32) {
    if s.overlapped then id != (s.nextServerId - 2) % 0x1_0000_0000 else s.mav && id == s.lastMessageId
  }

  // What the two modes promise is stated over the events alone.

  function SentSinceClear(events: seq<Event>): nat {
    if events == [] || events[|events| - 1].ClearComplete? then 0 else
    SentSinceClear(events[..|events| - 1]) + if events[|events| - 1].Send? then 1 else 0
  }

  /** Some reply was announced and neither an RMT-delivered message nor a clear came after it. */
  ghost predicate ReplyPending(events: seq<Event>) {
    exists i :: 0 <= i < |events| && events[i].Reply? && forall j :: i < j < |events| ==> !Consumes(events[j])
  }

  predicate Consumes(e: Event) { e.ClearComplete? || (e.Client? && e.rmtDelivered) }

  function ClientIds(events: seq<Event>): seq<u32> {
    if events == [] then [] else
    ClientIds(events[..|events| - 1]) + if events[|events| - 1].Client? then [events[|events| - 1].id] else []
  }

  lemma {:induction false} ServerIdsCount(overlapped: bool, events: seq<Event>)
    ensures var s := Run(overlapped, events);
            if s.overlapped then s.nextServerId == Id(SentSinceClear(events)) else s.nextServerId == FIRST_MESSAGE_ID
  {
    if events != [] {
      ServerIdsCount(overlapped, events[..|events| - 1]);
      IdsStep(SentSinceClear(events[..|events| - 1]));
    }
  }

  /**
   Overlapped mode. A client that has been handed `k` of the `n` messages sent since the last
   clear quotes the id of the last of them; it is told that a message is available exactly when
   some are outstanding, as long as fewer than 2^31 are, and in general unless their number is
   a multiple of 2^31.
   */
  lemma OverlappedMav(overlapped: bool, events: seq<Event>, k: nat)
    requires Run(overlapped, events).overlapped && k <= SentSinceClear(events)
    ensures var n: int := SentSinceClear(events);
            && (Mav(Run(overlapped, events), Id(k - 1)) <==> (n - k) % 0x8000_0000 != 0)
            && (n - k < 0x8000_0000 ==> (Mav(Run(overlapped, events), Id(k - 1)) <==> k < n))
  {
    var n: int := SentSinceClear(events);
    ServerIdsCount(overlapped, events);
    IdsStep(n);
    IdsAgree(n - 1, k - 1);
  }

  lemma {:induction false} PendingIsTheFlag(overlapped: bool, events: seq<Event>)
    ensures Run(overlapped, events).mav <==> ReplyPending(events)
  {
    if events != [] {
      var before, e := events[..|events| - 1], events[|events| - 1];
      PendingIsTheFlag(overlapped, before);
      if e.Reply? {
        assert events[|events| - 1].Reply?;
      } else if !Consumes(e) {
        if ReplyPending(before) {
          var i :| 0 <= i < |before| && before[i].Reply? && forall j :: i < j < |before| ==> !Consumes(before[j]);
          assert events[i].Reply?;
        }
        if ReplyPending(events) {
          var i :| 0 <= i < |events| && events[i].Reply? && forall j :: i < j < |events| ==> !Consumes(events[j]);
          assert before[i].Reply?;
        }
      }
    }
  }

  lemma {:induction false} LastClientId(overlapped: bool, events: seq<Event>)
    ensures var ids := ClientIds(events);
            Run(overlapped, events).lastMessageId == if ids == [] then Id(-1) else ids[|ids| - 1]
  {
    if events != [] {
      LastClientId(overlapped, events[..|events| - 1]);
    }
  }

  /**
   Synchronized mode, for every quoted id: MAV exactly when a reply is pending and the quoted
   id is that of the latest client message.
   */
  lemma SynchronizedMav(overlapped: bool, events: seq<Event>, id: u32)
    requires !Run(overlapped, events).overlapped
    ensures var ids := ClientIds(events);
            (Mav(Run(overlapped, events), id)
        <==> ReplyPending(events) && id == if ids == [] then Id(-1) else ids[|ids| - 1])
  {
    PendingIsTheFlag(overlapped, events);
    LastClientId(overlapped, events);
  }

  /**
   The client numbers its messages Id(0), Id(1), ... and its status query quotes the one before
   its counter. Having sent `m` of which the server has noted all, it therefore reads MAV
   exactly while a reply is pending; with some still on their way it reads MAV false.
   */
  lemma ClientReadsMav(overlapped: bool, events: seq<Event>, m: nat)
    requires !Run(overlapped, events).overlapped
    requires forall i :: 0 <= i < |ClientIds(events)| ==> ClientIds(events)[i] == Id(i)
    requires |ClientIds(events)| <= m
    ensures Mav(Run(overlapped, events), Id(m - 1))
       <==> ReplyPending(events) && (m - |ClientIds(events)|) % 0x8000_0000 == 0
  {
    var j := |ClientIds(events)|;
    SynchronizedMav(overlapped, events, Id(m - 1));
    IdsAgree(m - 1, j - 1);
  }

  /**
   This repository's own client never says RMT-delivered and never completes a clear, so for its
   runs MAV never falls: once a first reply has been announced, its status reads MAV for good.
   */
  lemma OwnClientMavStays(overlapped: bool, events: seq<Event>)
    requires forall i :: 0 <= i < |events| ==> !events[i].ClearComplete? && !(events[i].Client? && events[i].rmtDelivered)
    requires !Run(overlapped, events).overlapped
    requires forall i :: 0 <= i < |ClientIds(events)| ==> ClientIds(events)[i] == Id(i)
    ensures Mav(Run(overlapped, events), Id(|ClientIds(events)| - 1)) <==> exists i :: 0 <= i < |events| && events[i].Reply?
  {
    ClientReadsMav(overlapped, events, |ClientIds(events)|);
    if i :| 0 <= i < |events| && events[i].Reply? {
      assert forall j :: i < j < |events| ==> !Consumes(events[j]);
    }
  }

  /** The server's entry for a session. */
  class SessionEntry {
    var overlapped: bool
    var mav: bool
    var lastMessageId: u32
    var nextServerMessageId: u32

    function Now(): State
      reads this
    {
      State(overlapped, mav, lastMessageId, nextServerMessageId)
    }

    constructor (overlap: bool)
      ensures Now() == Fresh(overlap)
    {
      overlapped, mav, lastMessageId, nextServerMessageId := overlap, false, FIRST_MESSAGE_ID - 2, FIRST_MESSAGE_ID;
    }

    method NoteClientMessage(id: u32, rmtDelivered: bool)
      modifies this
      ensures Now() == Step(old(Now()), Client(id, rmtDelivered))
    {
      lastMessageId := id;
      if rmtDelivered {
        mav := false;
      }
    }

    method AnnounceReply()
      modifies this
      ensures Now() == Step(old(Now()), Reply)
    {
      mav := true;
    }

    method SetOverlapped(on: bool)
      modifies this
      ensures Now() == Step(old(Now()), ClearComplete(on))
    {
      mav := false;
      overlapped := on;
      nextServerMessageId := FIRST_MESSAGE_ID;
    }

    /** In synchronized mode the request's own id, in overlapped mode the next of the server's. */
    method ResponseMessageId(requestId: u32) returns (id: u32)
      modifies this
      ensures Now() == Step(old(Now()), Send)
      ensures id == if old(overlapped) then old(nextServerMessageId) else requestId
    {
      if overlapped {
        id := nextServerMessageId;
        nextServerMessageId := (nextServerMessageId + 2) % 0x1_0000_0000;
      } else {
        id := requestId;
      }
    }

    method MavBit(messageId: u32) returns (bit: byte)
      ensures bit == if Mav(Now(), messageId) then 0x10 else 0
    {
      if overlapped {
        var lastSent := (nextServerMessageId - 2) % 0x1_0000_0000;
        return if messageId == lastSent then 0 else 0x10;
      }
      if !mav {
        return 0;
      }
      if messageId != lastMessageId {
        return 0;
      }
      return 0x10;
    }
  }

  /** The client's counter: after `sent` messages the next carries Id(sent), and status quotes the one before. */
  class MessageCounter {
    var messageId: u32
    ghost var sent: nat

    ghost predicate Valid()
      reads this
    {
      messageId == Id(sent)
    }

    constructor ()
      ensures Valid() && sent == 0
    {
      messageId, sent := FIRST_MESSAGE_ID, 0;
    }

    method NextMessageId() returns (id: u32)
      requires Valid()
      modifies this
      ensures Valid() && sent == old(sent) + 1 && id == Id(old(sent))
    {
      id := messageId;
      IdsStep(sent);
      messageId := (messageId + 2) % 0x1_0000_0000;
      sent := sent + 1;
    }

    method StatusQuotes() returns (id: u32)
      requires Valid()
      ensures id == Id(sent - 1)
    {
      IdsStep(sent);
      id := (messageId - 2) % 0x1_0000_0000;
    }
  }
}

/**
 Command assembly. The synchronous loop looks at the clear counter after each message it has
 read; the asynchronous channel may bump that counter at any point in between.
 */
module HislipAssembly {
  import opened Common

  datatype Event =
    | Bump
    | Data(payload: seq<byte>)
    | DataEnd(payload: seq<byte>)
    | OtherMessage
    | Unreadable

  predicate Cuts(e: Event) { e.Bump? || e.DataEnd? }

  function Payload(e: Event): seq<byte> { if e.Data? || e.DataEnd? then e.payload else [] }

  /** The payloads of events `lo` up to, not including, `hi`, in order. */
  function Payloads(events: seq<Event>, lo: nat, hi: nat): seq<byte>
    requires hi <= |events|
  {
    if hi <= lo then [] else Payloads(events, lo, hi - 1) + Payload(events[hi - 1])
  }

  /** How many of the first `n` events are a DataEND. */
  function Ends(events: seq<Event>, n: nat): nat
    requires n <= |events|
  {
    if n == 0 then 0 else Ends(events, n - 1) + if events[n - 1].DataEnd? then 1 else 0
  }

  /** Within the first `n` events, just past the later of the last clear and the last DataEND. */
  function Start(events: seq<Event>, n: nat): (lo: nat)
    requires n <= |events|
    ensures lo <= n
    ensures lo > 0 ==> Cuts(events[lo - 1])
    ensures forall k :: lo <= k < n ==> !Cuts(events[k])
  {
    if n == 0 || Cuts(events[n - 1]) then n else Start(events, n - 1)
  }

  /** A stretch of the events: those from `lo` up to, not including, `hi`. */
  datatype Span = Span(lo: nat, hi: nat)

  /**
   Command `j` is the payloads of one stretch that ends with the j-th DataEND, begins right
   after a clear, after the DataEND before it, or at the start of the session, and has no clear
   and no DataEND inside.
   */
  predicate IsStretch(events: seq<Event>, j: nat, s: Span, command: seq<byte>) {
    && s.lo < s.hi <= |events|
    && events[s.hi - 1].DataEnd? && Ends(events, s.hi) == j + 1
    && (forall k :: s.lo <= k < s.hi - 1 ==> !Cuts(events[k]))
    && (s.lo > 0 ==> Cuts(events[s.lo - 1]))
    && command == Payloads(events, s.lo, s.hi)
  }

  /** The commands of the first `n` events: at each DataEND, the payloads since the later of the last clear and the DataEND before. */
  function Commands(events: seq<Event>, n: nat): (cs: seq<seq<byte>>)
    requires n <= |events|
    ensures |cs| == Ends(events, n)
  {
    if n == 0 then [] else
    Commands(events, n - 1) + if events[n - 1].DataEnd? then [Payloads(events, Start(events, n - 1), n)] else []
  }

  /** So no command mixes bytes from both sides of a clear, or of a DataEND. */
  lemma {:induction false} CommandIsOneStretch(events: seq<Event>, n: nat, j: nat) returns (s: Span)
    requires n <= |events| && j < |Commands(events, n)|
    ensures IsStretch(events, j, s, Commands(events, n)[j]) && s.hi <= n
  {
    if j < |Commands(events, n - 1)| {
      s := CommandIsOneStretch(events, n - 1, j);
    } else {
      s := Span(Start(events, n - 1), n);
    }
  }

  /** The synchronous loop, over any interleaving with clears. */
  method SyncLoop(events: seq<Event>) returns (executed: seq<seq<byte>>)
    ensures executed == Commands(events, |events|)
  {
    var buffer, epoch, clearEpoch := [], 0, 0;
    executed := [];
    for i := 0 to |events|
      invariant epoch <= clearEpoch
      invariant Payloads(events, Start(events, i), i) == if epoch == clearEpoch then buffer else []
      invariant executed == Commands(events, i)
    {
      var e := events[i];
      if e.Bump? {
        clearEpoch := clearEpoch + 1;
      } else if !e.Unreadable? {
        if clearEpoch != epoch {
          epoch, buffer := clearEpoch, [];
        }
        if e.Data? || e.DataEnd? {
          buffer := buffer + e.payload;
          if e.DataEnd? {
            executed, buffer := executed + [buffer], [];
          }
        }
      }
    }
  }
}
