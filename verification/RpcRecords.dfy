/** Record marking over a stream (section 11 of RFC 5531). */
module RpcRecords {
  import opened Common
  import opened Bytes

  const LAST := 0x8000_0000

  datatype Outcome = Record(bytes: seq<byte>) | NoRecord | CutOff | OverLimit

  /** The word that heads a fragment. */
  function HeadOf(stream: seq<byte>): u32
    requires |stream| >= 4
  {
    FromBytesFits(stream[..4]);
    Radixes();
    FromBytes(stream[..4])
  }

  function LengthOf(head: u32): nat { head % LAST }

  /** One record off the stream, `record` of it already there, and what is left of the stream. */
  function ReadOn(stream: seq<byte>, max: nat, record: seq<byte>): (Outcome, seq<byte>)
    decreases |stream|
  {
    if |stream| < 4 then (if record == [] then NoRecord else CutOff, [])
    else
      var head, rest := HeadOf(stream), stream[4..];
      var len := LengthOf(head);
      if |record| + len > max then (OverLimit, rest)
      else if |rest| < len then (CutOff, [])
      else if head >= LAST then (Record(record + rest[..len]), rest[len..])
      else ReadOn(rest[len..], max, record + rest[..len])
  }

  class RecordStream {
    var rest: seq<byte>

    constructor (bytes: seq<byte>)
      ensures rest == bytes
    {
      rest := bytes;
    }

    method ReadRecord(max: nat) returns (r: Outcome)
      modifies this
      ensures (r, rest) == ReadOn(old(rest), max, [])
    {
      var record: seq<byte> := [];
      while true
        invariant ReadOn(rest, max, record) == ReadOn(old(rest), max, [])
        decreases |rest|
      {
        if |rest| < 4 {
          rest := [];
          return if record == [] then NoRecord else CutOff;
        }
        var head := HeadOf(rest);
        rest := rest[4..];
        var len := LengthOf(head);
        if |record| + len > max {
          return OverLimit;
        }
        if |rest| < len {
          rest := [];
          return CutOff;
        }
        record, rest := record + rest[..len], rest[len..];
        if head >= LAST {
          return Record(record);
        }
      }
    }

    /** One record as a single last fragment. */
    method WriteRecord(payload: seq<byte>) returns (ok: bool)
      modifies this
      ensures ok <==> |payload| < LAST
      ensures rest == old(rest) + if ok then Fragment(payload, true) else []
    {
      if |payload| > 0x7fff_ffff {
        return false;
      }
      rest := rest + ToBytes(LAST + |payload|, 4) + payload;
      return true;
    }
  }

  function Fragment(bytes: seq<byte>, last: bool): seq<byte> {
    ToBytes((if last then LAST else 0) + |bytes|, 4) + bytes
  }

  lemma FragmentHead(bytes: seq<byte>, last: bool, tail: seq<byte>)
    requires |bytes| < LAST
    ensures var s := Fragment(bytes, last) + tail;
            && |s| >= 4 && HeadOf(s) == (if last then LAST else 0) + |bytes|
            && LengthOf(HeadOf(s)) == |bytes| && s[4..] == bytes + tail
  {
    var s, head := Fragment(bytes, last) + tail, (if last then LAST else 0) + |bytes|;
    Radixes();
    NumberRoundTrip(head, 4);
    assert s[..4] == ToBytes(head, 4);
  }

  /** One fragment is taken in whole, or refused because the record would pass the limit. */
  lemma ReadsFragment(bytes: seq<byte>, last: bool, tail: seq<byte>, max: nat, record: seq<byte>)
    requires |bytes| < LAST
    ensures |record| + |bytes| <= max ==>
              ReadOn(Fragment(bytes, last) + tail, max, record) == if last then (Record(record + bytes), tail) else ReadOn(tail, max, record + bytes)
    ensures |record| + |bytes| > max ==> ReadOn(Fragment(bytes, last) + tail, max, record).0 == OverLimit
  {
    FragmentHead(bytes, last, tail);
    assert (bytes + tail)[..|bytes|] == bytes && (bytes + tail)[|bytes|..] == tail;
  }

  /** Fragments `j` and on, the last of them marked. */
  function Fragments(parts: seq<seq<byte>>, j: nat): seq<byte>
    decreases |parts| - j
  {
    if j >= |parts| then [] else Fragment(parts[j], j == |parts| - 1) + Fragments(parts, j + 1)
  }

  /** The parts from `j` on, joined. */
  function Joined(parts: seq<seq<byte>>, j: nat): seq<byte>
    decreases |parts| - j
  {
    if j >= |parts| then [] else parts[j] + Joined(parts, j + 1)
  }

  lemma OneMorePart(parts: seq<seq<byte>>, j: nat, tail: seq<byte>, record: seq<byte>)
    requires j < |parts|
    ensures Fragments(parts, j) + tail == Fragment(parts[j], j == |parts| - 1) + (Fragments(parts, j + 1) + tail)
    ensures record + Joined(parts, j) == record + parts[j] + Joined(parts, j + 1)
  {
    Assoc(Fragment(parts[j], j == |parts| - 1), Fragments(parts, j + 1), tail);
    Assoc(record, parts[j], Joined(parts, j + 1));
  }

  lemma {:induction false} ReadsFragments(parts: seq<seq<byte>>, j: nat, tail: seq<byte>, max: nat, record: seq<byte>)
    requires j < |parts| && forall i :: 0 <= i < |parts| ==> |parts[i]| < LAST
    requires |record| <= max
    ensures |record + Joined(parts, j)| <= max ==> ReadOn(Fragments(parts, j) + tail, max, record) == (Record(record + Joined(parts, j)), tail)
    ensures |record + Joined(parts, j)| > max ==> ReadOn(Fragments(parts, j) + tail, max, record).0 == OverLimit
    decreases |parts| - j
  {
    OneMorePart(parts, j, tail, record);
    ReadsFragment(parts[j], j == |parts| - 1, Fragments(parts, j + 1) + tail, max, record);
    if j == |parts| - 1 {
      assert Fragments(parts, j + 1) + tail == tail && record + parts[j] + [] == record + parts[j];
    } else if |record| + |parts[j]| <= max {
      ReadsFragments(parts, j + 1, tail, max, record + parts[j]);
    }
  }

  /**
   However a record is cut into fragments, empty ones included, it reads back whole and leaves
   the stream at the next one, exactly when it is within the limit.
   */
  lemma RecordRoundTrip(parts: seq<seq<byte>>, tail: seq<byte>, max: nat)
    requires parts != [] && forall i :: 0 <= i < |parts| ==> |parts[i]| < LAST
    ensures |Joined(parts, 0)| <= max ==> ReadOn(Fragments(parts, 0) + tail, max, []) == (Record(Joined(parts, 0)), tail)
    ensures |Joined(parts, 0)| > max ==> ReadOn(Fragments(parts, 0) + tail, max, []).0 == OverLimit
  {
    ReadsFragments(parts, 0, tail, max, []);
    assert [] + Joined(parts, 0) == Joined(parts, 0);
  }

  predicate AllZero(s: seq<byte>) { forall i :: 0 <= i < |s| ==> s[i] == 0 }

  lemma {:induction false} ZeroBytes(b: seq<byte>)
    ensures FromBytes(b) == 0 <==> AllZero(b)
  {
    if b != [] {
      ZeroBytes(b[..|b| - 1]);
      assert forall i :: 0 <= i < |b| - 1 ==> b[..|b| - 1][i] == b[i];
    }
  }

  function WholeWords(stream: seq<byte>): seq<byte> { stream[..|stream| - |stream| % 4] }

  lemma FirstWordZero(stream: seq<byte>)
    requires |stream| >= 4
    ensures AllZero(WholeWords(stream)) <==> HeadOf(stream) == 0 && AllZero(WholeWords(stream[4..]))
  {
    var whole, rest := WholeWords(stream), WholeWords(stream[4..]);
    ZeroBytes(stream[..4]);
    assert forall i :: 0 <= i < 4 ==> whole[i] == stream[..4][i];
    assert forall i :: 0 <= i < |rest| ==> whole[i + 4] == rest[i];
    assert forall i :: 4 <= i < |whole| ==> whole[i] == rest[i - 4];
  }

  lemma EmptyFragmentSkipped(stream: seq<byte>, max: nat)
    requires |stream| >= 4 && HeadOf(stream) == 0
    ensures ReadOn(stream, max, []) == ReadOn(stream[4..], max, [])
  {
    var rest := stream[4..];
    assert rest[..0] == [] && rest[0..] == rest;
  }

  /**
   "No record" is meant for a peer that hung up between records. It is answered exactly when
   the stream is whole words of zero, which are empty fragments, and then fewer than four
   bytes: also when the peer hung up inside a header.
   */
  lemma {:induction false} NoRecordIff(stream: seq<byte>, max: nat)
    ensures ReadOn(stream, max, []).0 == NoRecord <==> AllZero(WholeWords(stream))
    decreases |stream|
  {
    if |stream| >= 4 {
      FirstWordZero(stream);
      if HeadOf(stream) == 0 {
        EmptyFragmentSkipped(stream, max);
        NoRecordIff(stream[4..], max);
      } else {
        NeverEmptyAgain(stream, max);
      }
    }
  }

  lemma NeverEmptyAgain(stream: seq<byte>, max: nat)
    requires |stream| >= 4 && HeadOf(stream) != 0
    ensures ReadOn(stream, max, []).0 != NoRecord
  {
    var head, rest := HeadOf(stream), stream[4..];
    var len := LengthOf(head);
    assert [] + rest[..Min(len, |rest|)] == rest[..Min(len, |rest|)];
    if len <= max && len <= |rest| && head < LAST {
      StaysStarted(rest[len..], max, rest[..len]);
    }
  }

  lemma {:induction false} StaysStarted(stream: seq<byte>, max: nat, record: seq<byte>)
    requires record != []
    ensures ReadOn(stream, max, record).0 != NoRecord
    decreases |stream|
  {
    if |stream| >= 4 {
      var rest, len := stream[4..], LengthOf(HeadOf(stream));
      if len <= |rest| {
        StaysStarted(rest[len..], max, record + rest[..len]);
      }
    }
  }
}

/** The portmapper's DUMP list (section 3 of RFC 1833). */
module Portmap {
  import opened Common
  import opened Xdr

  const MAPPING: seq<Kind> := [U32, U32, U32, U32]

  datatype Mapping = Mapping(prog: u32, vers: u32, prot: u32, port: u32)

  function Fields(m: Mapping): seq<Value> { [Num(m.prog), Num(m.vers), Num(m.prot), Num(m.port)] }

  function Entry(m: Mapping): seq<byte> { Put(Bool, Flag(true)) + PutAll(MAPPING, Fields(m)) }

  /** Entries `j` and on, with the mark that ends the list. */
  function ListFrom(ms: seq<Mapping>, j: nat): seq<byte>
    decreases |ms| - j
  {
    if j >= |ms| then Put(Bool, Flag(false)) else Entry(ms[j]) + ListFrom(ms, j + 1)
  }

  method EncodeDumpReply(ms: seq<Mapping>) returns (buf: seq<byte>)
    ensures buf == ListFrom(ms, 0)
  {
    buf := [];
    for i := 0 to |ms|
      invariant buf + ListFrom(ms, i) == ListFrom(ms, 0)
    {
      Assoc(buf, Entry(ms[i]), ListFrom(ms, i + 1));
      buf := buf + Entry(ms[i]);
    }
    buf := buf + Put(Bool, Flag(false));
  }

  datatype Dump = List(mappings: seq<Mapping>) | Malformed(error: XdrError)

  /** The list that continues at `pos`, `found` of it read already. */
  function DumpOn(data: seq<byte>, pos: nat, found: seq<Mapping>): Dump
    decreases |data| - pos
  {
    match Get(Bool, data, pos)
    case Bad(e) => Malformed(e)
    case Good(more, p) =>
      if !more.on then List(found)
      else
        match GetAll(MAPPING, data, p, 4)
        case Bad(e) => Malformed(e)
        case Good(vs, q) =>
          GotInBounds(MAPPING, data, p, 4);
          assert MAPPING[..4] == MAPPING;
          assert forall i :: 0 <= i < 4 ==> InBounds(MAPPING[i], vs[i]);
          GetAllAdvances(data, p);
          DumpOn(data, q, found + [Mapping(vs[0].n, vs[1].n, vs[2].n, vs[3].n)])
  }

  lemma GetAllAdvances(data: seq<byte>, at: nat)
    requires GetAll(MAPPING, data, at, 4).Good?
    ensures GetAll(MAPPING, data, at, 4).pos > at
  {
    ChainAdvances(MAPPING, data, at, 4);
  }

  lemma {:induction false} ChainAdvances(ks: seq<Kind>, data: seq<byte>, at: nat, n: nat)
    requires n <= |ks| && GetAll(ks, data, at, n).Good?
    ensures GetAll(ks, data, at, n).pos >= at + n
  {
    if n > 0 {
      ChainAdvances(ks, data, at, n - 1);
    }
  }

  method DecodeDumpReply(data: seq<byte>) returns (r: Dump)
    ensures r == DumpOn(data, 0, [])
  {
    var c := new Cursor(data);
    var found: seq<Mapping> := [];
    while true
      invariant c.Valid() && c.data == data && fresh(c)
      invariant DumpOn(data, c.pos, found) == DumpOn(data, 0, [])
      decreases |data| - c.pos
    {
      var more := c.Next(Bool);
      if more.Bad? {
        return Malformed(more.error);
      }
      if !more.value.on {
        return List(found);
      }
      ghost var at := c.pos;
      var vs: seq<Value> := [];
      for i := 0 to 4
        invariant c.Valid() && c.data == data && fresh(c) && |vs| == i
        invariant GetAll(MAPPING, data, at, i) == Good(vs, c.pos)
      {
        var v := c.Next(U32);
        if v.Bad? {
          StopsHere(data, at, i, v.error);
          return Malformed(v.error);
        }
        vs := vs + [v.value];
      }
      GotInBounds(MAPPING, data, at, 4);
      assert forall i :: 0 <= i < 4 ==> InBounds(MAPPING[..4][i], vs[i]);
      GetAllAdvances(data, at);
      found := found + [Mapping(vs[0].n, vs[1].n, vs[2].n, vs[3].n)];
    }
  }

  lemma {:induction false} StopsHere(data: seq<byte>, at: nat, i: nat, e: XdrError)
    requires i < 4 && GetAll(MAPPING, data, at, i).Good? && Get(U32, data, GetAll(MAPPING, data, at, i).pos) == Bad(e)
    ensures GetAll(MAPPING, data, at, 4) == Bad(e)
  {
    StaysBad(Getter(MAPPING, data), at, i + 1, 4);
  }

  lemma {:induction false} StaysBad(get: (nat, nat) -> Got<Value>, at: nat, m: nat, n: nat)
    requires m <= n && Chain(get, at, m).Bad?
    ensures Chain(get, at, n) == Chain(get, at, m)
  {
    if m < n {
      StaysBad(get, at, m, n - 1);
    }
  }

  lemma EntryHasParts(m: Mapping, data: seq<byte>, pos: nat)
    requires HasAt(data, pos, Entry(m))
    ensures HasAt(data, pos, Put(Bool, Flag(true))) && HasAt(data, pos + 4, PutAll(MAPPING, Fields(m)))
    ensures |Entry(m)| == 4 + |PutAll(MAPPING, Fields(m))|
  {
    var body := PutAll(MAPPING, Fields(m));
    HasPartAt(data, pos, Entry(m), 0, 4);
    HasPartAt(data, pos, Entry(m), 4, 4 + |body|);
    assert Entry(m)[0..4] == Put(Bool, Flag(true)) && Entry(m)[4..4 + |body|] == body;
  }

  lemma ReadsEntry(m: Mapping, data: seq<byte>, pos: nat, found: seq<Mapping>)
    requires HasAt(data, pos, Entry(m))
    ensures DumpOn(data, pos, found) == DumpOn(data, pos + |Entry(m)|, found + [m])
  {
    EntryHasParts(m, data, pos);
    ItemRoundTrip(Bool, Flag(true), data, pos);
    LayoutRoundTrip(MAPPING, Fields(m), data, pos + 4);
  }

  lemma ListHolds(ms: seq<Mapping>, j: nat, data: seq<byte>, pos: nat)
    requires j < |ms| && HasAt(data, pos, ListFrom(ms, j))
    ensures HasAt(data, pos, Entry(ms[j])) && HasAt(data, pos + |Entry(ms[j])|, ListFrom(ms, j + 1))
  {
    var list, first := ListFrom(ms, j), Entry(ms[j]);
    HasPartAt(data, pos, list, 0, |first|);
    HasPartAt(data, pos, list, |first|, |list|);
    assert list[0..|first|] == first && list[|first|..|list|] == ListFrom(ms, j + 1);
  }

  lemma ListEnds(data: seq<byte>, pos: nat, found: seq<Mapping>)
    requires HasAt(data, pos, Put(Bool, Flag(false)))
    ensures DumpOn(data, pos, found) == List(found)
  {
    ItemRoundTrip(Bool, Flag(false), data, pos);
  }

  lemma {:induction false} ReadsList(ms: seq<Mapping>, j: nat, data: seq<byte>, pos: nat)
    requires j <= |ms| && HasAt(data, pos, ListFrom(ms, j))
    ensures DumpOn(data, pos, ms[..j]) == List(ms)
    decreases |ms| - j
  {
    if j == |ms| {
      ListEnds(data, pos, ms[..j]);
      assert ms[..j] == ms;
    } else {
      ListHolds(ms, j, data, pos);
      ReadsEntry(ms[j], data, pos, ms[..j]);
      assert ms[..j + 1] == ms[..j] + [ms[j]];
      ReadsList(ms, j + 1, data, pos + |Entry(ms[j])|);
    }
  }

  /** Any list of mappings decodes to itself, whatever follows it. */
  lemma DumpRoundTrip(ms: seq<Mapping>, tail: seq<byte>)
    ensures DumpOn(ListFrom(ms, 0) + tail, 0, []) == List(ms)
  {
    assert HasAt(ListFrom(ms, 0) + tail, 0, ListFrom(ms, 0));
    ReadsList(ms, 0, ListFrom(ms, 0) + tail, 0);
    assert ms[..0] == [];
  }
}
