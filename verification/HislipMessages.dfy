/** HiSLIP messages on the wire, the splitting of a reply into messages, and the client's query. */
module HislipMessages {
  import opened Common
  import opened Bytes
  import opened HislipSession

  const HEADER := 16
  const MIN_CHUNK := 256
  const DATA: byte := 6
  const DATA_END: byte := 7

  /** The message type is carried as its code; `Recognized` says which codes name one. */
  datatype Message = Message(kind: byte, control: byte, parameter: u32, payload: seq<byte>)

  predicate Recognized(kind: byte) { kind <= 38 || kind >= 128 }

  predicate Sendable(m: Message) { Recognized(m.kind) && |m.payload| < 0x1_0000_0000_0000_0000 }

  function Encode(m: Message): (b: seq<byte>)
    ensures |b| == HEADER + |m.payload|
  {
    [0x48, 0x53, m.kind, m.control] + ToBytes(m.parameter, 4) + ToBytes(|m.payload|, 8) + m.payload
  }

  datatype Outcome = Closed | BadPrologue | TooLarge | Unrecognized | Read(message: Message)

  function DeclaredLength(stream: seq<byte>): nat
    requires |stream| >= HEADER
  {
    FromBytes(stream[8..HEADER])
  }

  /** One message off the stream, and what is left of the stream. A payload cut short by the end of the stream is taken as it is. */
  function ReadFrom(stream: seq<byte>, maxlen: nat): (Outcome, seq<byte>) {
    if |stream| < HEADER then (Closed, [])
    else
      var rest, len := stream[HEADER..], DeclaredLength(stream);
      if stream[..2] != [0x48, 0x53] then (BadPrologue, rest)
      else if len > maxlen then (TooLarge, rest)
      else
        var n := Min(len, |rest|);
        if Recognized(stream[2]) then (Read(Message(stream[2], stream[3], Parameter(stream), rest[..n])), rest[n..])
        else (Unrecognized, rest[n..])
  }

  function Parameter(stream: seq<byte>): u32
    requires |stream| >= HEADER
  {
    FromBytesFits(stream[4..8]);
    Radixes();
    FromBytes(stream[4..8])
  }

  lemma HeaderRoundTrip(m: Message, tail: seq<byte>)
    requires |m.payload| < 0x1_0000_0000_0000_0000
    ensures var s := Encode(m) + tail;
            && s[..2] == [0x48, 0x53] && s[2] == m.kind && s[3] == m.control
            && Parameter(s) == m.parameter && DeclaredLength(s) == |m.payload| && s[HEADER..] == m.payload + tail
  {
    var s := Encode(m) + tail;
    Radixes();
    NumberRoundTrip(m.parameter, 4);
    NumberRoundTrip(|m.payload|, 8);
    assert s[4..8] == ToBytes(m.parameter, 4);
    assert s[8..HEADER] == ToBytes(|m.payload|, 8);
  }

  /** What write_to writes, read_from reads back, with whatever follows left on the stream, unless it is over the reader's limit. */
  lemma MessageRoundTrip(m: Message, tail: seq<byte>, maxlen: nat)
    requires Sendable(m)
    ensures |m.payload| <= maxlen ==> ReadFrom(Encode(m) + tail, maxlen) == (Read(m), tail)
    ensures |m.payload| > maxlen ==> ReadFrom(Encode(m) + tail, maxlen).0 == TooLarge
  {
    HeaderRoundTrip(m, tail);
    assert (m.payload + tail)[..|m.payload|] == m.payload;
    assert (m.payload + tail)[|m.payload|..] == tail;
  }

  /** Conversely a message that was read is what the stream began with, exactly when the stream held all of the declared payload. */
  lemma ReadIsOnTheWire(stream: seq<byte>, maxlen: nat)
    requires ReadFrom(stream, maxlen).0.Read?
    ensures var (r, rest) := ReadFrom(stream, maxlen);
            (stream == Encode(r.message) + rest <==> HEADER + DeclaredLength(stream) <= |stream|)
  {
    var (r, rest) := ReadFrom(stream, maxlen);
    var m := r.message;
    BytesRoundTrip(stream[4..8]);
    BytesRoundTrip(stream[8..HEADER]);
    FromBytesFits(stream[8..HEADER]);
    Radixes();
    if HEADER + DeclaredLength(stream) <= |stream| {
      assert stream[..4] == [0x48, 0x53, m.kind, m.control] by {
        assert stream[0] == stream[..2][0] && stream[1] == stream[..2][1];
      }
      assert stream == stream[..4] + stream[4..8] + stream[8..HEADER] + stream[HEADER..];
      assert stream[HEADER..] == m.payload + rest;
    } else {
      HeaderRoundTrip(m, rest);
    }
  }

  /** A message whose payload the stream cuts short is accepted as if what arrived were all of it. */
  lemma ShortPayloadIsAccepted(m: Message, n: nat, maxlen: nat)
    requires Sendable(m) && n <= |m.payload| <= maxlen
    ensures ReadFrom(Encode(m)[..HEADER + n], maxlen) == (Read(m.(payload := m.payload[..n])), [])
  {
    var s, cut := Encode(m), Encode(m)[..HEADER + n];
    assert s + [] == s;
    HeaderRoundTrip(m, []);
    assert cut[..2] == s[..2] && cut[4..8] == s[4..8] && cut[8..HEADER] == s[8..HEADER];
    assert cut[HEADER..] == m.payload[..n] && m.payload[..n][..n] == m.payload[..n] && m.payload[..n][n..] == [];
  }

  // ---- Splitting a reply ----

  function ChunkMax(clientMax: nat): nat { Max(clientMax - HEADER, MIN_CHUNK) }

  function Joined(msgs: seq<Message>): seq<byte> {
    if msgs == [] then [] else Joined(msgs[..|msgs| - 1]) + msgs[|msgs| - 1].payload
  }

  lemma JoinedOfLast(msgs: seq<Message>, last: Message)
    ensures Joined(msgs + [last]) == Joined(msgs) + last.payload
  {
    assert (msgs + [last])[..|msgs|] == msgs;
  }

  /** Only the last message ends the reply; the others are full chunks, and only an empty reply has an empty one. */
  predicate ChunksOf(msgs: seq<Message>, max: nat, more: bool) {
    forall i :: 0 <= i < |msgs| ==>
      && msgs[i].control == 0 && |msgs[i].payload| <= max
      && (if more || i < |msgs| - 1 then msgs[i].kind == DATA && |msgs[i].payload| == max else msgs[i].kind == DATA_END)
  }

  /** The messages of one reply: together the data, each within the client's maximum, whatever that is, or 272 bytes with its header. */
  predicate IsReply(msgs: seq<Message>, data: seq<byte>, clientMax: nat) {
    && msgs != [] && Joined(msgs) == data
    && ChunksOf(msgs, ChunkMax(clientMax), false)
    && (msgs[|msgs| - 1].payload == [] <==> data == [])
  }

  /** The id of the i-th message of a reply begun in state `s`. */
  function ReplyId(s: State, requestId: u32, i: nat): u32 {
    if s.overlapped then (s.nextServerId + 2 * i) % 0x1_0000_0000 else requestId
  }

  predicate Numbered(msgs: seq<Message>, s: State, requestId: u32) {
    forall i :: 0 <= i < |msgs| ==> msgs[i].parameter == ReplyId(s, requestId, i)
  }

  /** The session after `n` messages have been sent. */
  function AfterSends(s: State, n: nat): State {
    if s.overlapped then s.(nextServerId := (s.nextServerId + 2 * n) % 0x1_0000_0000) else s
  }

  lemma SendAgain(s: State, n: nat)
    ensures HislipSession.Step(AfterSends(s, n), Send) == AfterSends(s, n + 1)
  {
  }

  lemma ChunkAdds(msgs: seq<Message>, m: Message, data: seq<byte>, at: nat, end: nat, max: nat)
    requires at < end == Min(at + max, |data|) && Joined(msgs) == data[..at] && ChunksOf(msgs, max, true)
    requires m.control == 0 && m.payload == data[at..end] && m.kind == if end == |data| then DATA_END else DATA
    ensures Joined(msgs + [m]) == data[..end] && ChunksOf(msgs + [m], max, end < |data|)
  {
    JoinedOfLast(msgs, m);
    PrefixExtends(data, at, end);
    var more := msgs + [m];
    forall i | 0 <= i < |msgs| ensures more[i] == msgs[i] {
    }
  }

  method WriteResponse(entry: SessionEntry, clientMax: nat, requestId: u32, data: seq<byte>) returns (msgs: seq<Message>)
    modifies entry
    ensures IsReply(msgs, data, clientMax)
    ensures Numbered(msgs, old(entry.Now()), requestId)
    ensures entry.Now() == AfterSends(old(entry.Now()), |msgs|)
  {
    var max := Max(clientMax - HEADER, MIN_CHUNK);
    msgs := [];
    ghost var before := entry.Now();
    if data == [] {
      SendAgain(before, 0);
      var id := entry.ResponseMessageId(requestId);
      msgs := [Message(DATA_END, 0, id, [])];
      return;
    }
    var at := 0;
    while at < |data|
      invariant 0 <= at <= |data| && Joined(msgs) == data[..at]
      invariant ChunksOf(msgs, max, at < |data|)
      invariant at > 0 ==> msgs != []
      invariant msgs != [] ==> msgs[|msgs| - 1].payload != []
      invariant Numbered(msgs, before, requestId) && entry.Now() == AfterSends(before, |msgs|)
    {
      var end := Min(at + max, |data|);
      SendAgain(before, |msgs|);
      var id := entry.ResponseMessageId(requestId);
      var m := Message(if end == |data| then DATA_END else DATA, 0, id, data[at..end]);
      ChunkAdds(msgs, m, data, at, end, max);
      msgs := msgs + [m];
      at := end;
    }
  }

  lemma WithinClientMax(msgs: seq<Message>, data: seq<byte>, clientMax: nat, i: nat)
    requires IsReply(msgs, data, clientMax) && i < |msgs|
    ensures |Encode(msgs[i])| <= Max(clientMax, HEADER + MIN_CHUNK)
  {
  }

  // ---- The client's query ----

  datatype Answer = Answered(data: seq<byte>) | WrongId | Refused(kind: byte) | Unreadable(why: Outcome)

  /** Collect the reply to request `id`, having `out` of it already. */
  function Collect(stream: seq<byte>, id: u32, maxlen: nat, out: seq<byte>): (Answer, seq<byte>)
    decreases |stream|
  {
    var (r, rest) := ReadFrom(stream, maxlen);
    if !r.Read? then (Unreadable(r), rest)
    else if r.message.kind != DATA && r.message.kind != DATA_END then (Refused(r.message.kind), rest)
    else if r.message.parameter != id then (WrongId, rest)
    else if r.message.kind == DATA_END then (Answered(out + r.message.payload), rest)
    else Collect(rest, id, maxlen, out + r.message.payload)
  }

  class Reader {
    var rest: seq<byte>

    constructor (stream: seq<byte>)
      ensures rest == stream
    {
      rest := stream;
    }

    method ReadMessage(maxlen: nat) returns (r: Outcome)
      modifies this
      ensures (r, rest) == ReadFrom(old(rest), maxlen)
      ensures r.Read? ==> |rest| < |old(rest)|
    {
      var (outcome, left) := ReadFrom(rest, maxlen);
      r, rest := outcome, left;
    }

    /** The loop of `query`, after the command has been sent as message `id`. */
    method ReadReply(id: u32, maxlen: nat) returns (answer: Answer)
      modifies this
      ensures (answer, rest) == Collect(old(rest), id, maxlen, [])
    {
      var out: seq<byte> := [];
      while true
        invariant Collect(rest, id, maxlen, out) == Collect(old(rest), id, maxlen, [])
        decreases |rest|
      {
        var r := ReadMessage(maxlen);
        if !r.Read? {
          return Unreadable(r);
        }
        if r.message.kind != DATA && r.message.kind != DATA_END {
          return Refused(r.message.kind);
        }
        if r.message.parameter != id {
          return WrongId;
        }
        out := out + r.message.payload;
        if r.message.kind == DATA_END {
          return Answered(out);
        }
      }
    }
  }

  /** Messages `j` and on, as written to the stream. */
  function EncodeFrom(msgs: seq<Message>, j: nat): seq<byte>
    decreases |msgs| - j
  {
    if j >= |msgs| then [] else Encode(msgs[j]) + EncodeFrom(msgs, j + 1)
  }

  lemma CollectsOne(m: Message, rest: seq<byte>, maxlen: nat, out: seq<byte>)
    requires Sendable(m) && |m.payload| <= maxlen && (m.kind == DATA || m.kind == DATA_END)
    ensures Collect(Encode(m) + rest, m.parameter, maxlen, out)
         == if m.kind == DATA_END then (Answered(out + m.payload), rest) else Collect(rest, m.parameter, maxlen, out + m.payload)
  {
    MessageRoundTrip(m, rest, maxlen);
  }

  /** Reading message after message off the stream gives `msgs` from `j` on, and then leaves `left`. */
  predicate ReadsAs(stream: seq<byte>, msgs: seq<Message>, j: nat, left: seq<byte>, maxlen: nat)
    decreases |msgs| - j
  {
    if j >= |msgs| then stream == left else
    var (r, rest) := ReadFrom(stream, maxlen);
    r == Read(msgs[j]) && ReadsAs(rest, msgs, j + 1, left, maxlen)
  }

  lemma ReadsOneMore(msgs: seq<Message>, j: nat, rest: seq<byte>, left: seq<byte>, maxlen: nat)
    requires j < |msgs| && Sendable(msgs[j]) && |msgs[j].payload| <= maxlen && ReadsAs(rest, msgs, j + 1, left, maxlen)
    ensures ReadsAs(Encode(msgs[j]) + rest, msgs, j, left, maxlen)
  {
    MessageRoundTrip(msgs[j], rest, maxlen);
  }

  /** Any messages, whatever their ids, read back as themselves and leave the stream at what follows. */
  lemma {:induction false} StreamRoundTrip(msgs: seq<Message>, j: nat, tail: seq<byte>, maxlen: nat)
    requires j <= |msgs| && forall i :: 0 <= i < |msgs| ==> Sendable(msgs[i]) && |msgs[i].payload| <= maxlen
    ensures ReadsAs(EncodeFrom(msgs, j) + tail, msgs, j, tail, maxlen)
    decreases |msgs| - j
  {
    if j < |msgs| {
      StreamRoundTrip(msgs, j + 1, tail, maxlen);
      ReadsOneMore(msgs, j, EncodeFrom(msgs, j + 1) + tail, tail, maxlen);
      Assoc(Encode(msgs[j]), EncodeFrom(msgs, j + 1), tail);
    } else {
      assert EncodeFrom(msgs, j) + tail == tail;
    }
  }

  /** So the messages of a reply in either mode come off the stream as they went on, within the client's own limit. */
  lemma ReplyReadsBack(msgs: seq<Message>, data: seq<byte>, clientMax: nat, s: State, requestId: u32, tail: seq<byte>)
    requires IsReply(msgs, data, clientMax) && Numbered(msgs, s, requestId) && |data| < 0x1_0000_0000_0000_0000
    requires clientMax >= MIN_CHUNK || |data| <= clientMax
    ensures ReadsAs(EncodeFrom(msgs, 0) + tail, msgs, 0, tail, clientMax)
  {
    ChunksWithin(msgs);
    StreamRoundTrip(msgs, 0, tail, clientMax);
  }

  lemma OneMoreMessage(msgs: seq<Message>, j: nat, tail: seq<byte>)
    requires j < |msgs|
    ensures EncodeFrom(msgs, j) + tail == Encode(msgs[j]) + (EncodeFrom(msgs, j + 1) + tail)
    ensures Joined(msgs[..j + 1]) == Joined(msgs[..j]) + msgs[j].payload
  {
    assert msgs[..j + 1] == msgs[..j] + [msgs[j]];
    JoinedOfLast(msgs[..j], msgs[j]);
  }

  lemma {:induction false} CollectsReply(msgs: seq<Message>, j: nat, id: u32, maxlen: nat, max: nat, tail: seq<byte>)
    requires j < |msgs| && ChunksOf(msgs, max, false)
    requires forall i :: 0 <= i < |msgs| ==> Sendable(msgs[i]) && msgs[i].parameter == id && |msgs[i].payload| <= maxlen
    ensures Collect(EncodeFrom(msgs, j) + tail, id, maxlen, Joined(msgs[..j])) == (Answered(Joined(msgs)), tail)
    decreases |msgs| - j
  {
    OneMoreMessage(msgs, j, tail);
    CollectsOne(msgs[j], EncodeFrom(msgs, j + 1) + tail, maxlen, Joined(msgs[..j]));
    if j == |msgs| - 1 {
      assert msgs[..j + 1] == msgs && EncodeFrom(msgs, j + 1) + tail == tail;
    } else {
      CollectsReply(msgs, j + 1, id, maxlen, max, tail);
    }
  }

  /**
   A synchronized reply, written to the stream, comes back from the client's query as exactly
   the data, whatever follows it, if and only if the client's own limit admits the server's
   smallest chunk or the whole reply.
   */
  lemma QueryRoundTrip(msgs: seq<Message>, data: seq<byte>, clientMax: nat, id: u32, tail: seq<byte>)
    requires IsReply(msgs, data, clientMax) && |data| < 0x1_0000_0000_0000_0000
    requires forall i :: 0 <= i < |msgs| ==> msgs[i].parameter == id
    ensures Collect(EncodeFrom(msgs, 0) + tail, id, clientMax, []) == (Answered(data), tail)
       <==> clientMax >= MIN_CHUNK || |data| <= clientMax
  {
    ChunksWithin(msgs);
    if clientMax >= MIN_CHUNK || |data| <= clientMax {
      CollectsReply(msgs, 0, id, clientMax, ChunkMax(clientMax), tail);
      assert msgs[..0] == [];
    } else {
      FirstChunkIsLong(msgs, data, clientMax);
      var rest := EncodeFrom(msgs, 1) + tail;
      assert EncodeFrom(msgs, 0) + tail == Encode(msgs[0]) + rest;
      MessageRoundTrip(msgs[0], rest, clientMax);
    }
  }

  lemma {:induction false} ChunksWithin(msgs: seq<Message>)
    ensures forall i :: 0 <= i < |msgs| ==> |msgs[i].payload| <= |Joined(msgs)|
  {
    if msgs != [] {
      ChunksWithin(msgs[..|msgs| - 1]);
      forall i | 0 <= i < |msgs| - 1 ensures |msgs[i].payload| <= |Joined(msgs)| {
        assert msgs[i] == msgs[..|msgs| - 1][i];
      }
    }
  }

  lemma FirstChunkIsLong(msgs: seq<Message>, data: seq<byte>, clientMax: nat)
    requires IsReply(msgs, data, clientMax) && clientMax < MIN_CHUNK && |data| > clientMax
    ensures |msgs[0].payload| > clientMax
  {
    if |msgs| == 1 {
      assert msgs == [] + [msgs[0]];
      JoinedOfLast([], msgs[0]);
    }
  }
}
