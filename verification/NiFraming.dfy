/** The NI adapter's reply framing. */
module NiFraming {
  import opened Common

  const REGISTER_DATA_START: byte := 0x34
  const REGISTER_DATA_END: byte := 0x35
  const DATA_BLOCK: byte := 0x36
  const EXTENDED_BLOCK: byte := 0x37
  const READ_STATUS: byte := 0x38

  // ---- Register reads ----

  /** Where result `j` of a register read stands: chunks of a start mark and three bytes. */
  function ResultAt(j: nat): nat { 4 * (j / 3) + 1 + j % 3 }

  function Chunks(num: nat): nat { (num + 2) / 3 }

  /** `num` results in chunks of three, each chunk marked, the last one filled up, and the end mark after it. */
  predicate RegisterFrame(buf: seq<byte>, num: nat) {
    && |buf| > 4 * Chunks(num) && buf[4 * Chunks(num)] == REGISTER_DATA_END
    && forall c :: 0 <= c < Chunks(num) ==> buf[4 * c] == REGISTER_DATA_START
  }

  /** The parser accepts exactly the frames, and returns exactly the bytes in them. */
  method ParseRegisterReadResponse(buf: seq<byte>, num: nat) returns (r: Option<seq<byte>>)
    ensures r.Some? <==> RegisterFrame(buf, num)
    ensures r.Some? ==> |r.value| == num && forall j :: 0 <= j < num ==> ResultAt(j) < |buf| && r.value[j] == buf[ResultAt(j)]
  {
    var i, out := 0, [];
    ghost var done := 0;
    while |out| < num
      invariant done <= Chunks(num) && |out| == Min(3 * done, num)
      invariant i == if |out| == 3 * done then 4 * done else ResultAt(num - 1) + 1
      invariant forall c :: 0 <= c < done ==> 4 * c < |buf| && buf[4 * c] == REGISTER_DATA_START
      invariant forall j :: 0 <= j < |out| ==> ResultAt(j) < |buf| && out[j] == buf[ResultAt(j)]
      decreases num - |out|
    {
      if i >= |buf| || buf[i] != REGISTER_DATA_START {
        return None;
      }
      i := i + 1;
      ghost var k := 0;
      for n := 0 to 3
        invariant k == n || (k < n && |out| == num)
        invariant |out| == 3 * done + k <= num
        invariant i == 4 * done + 1 + k
        invariant forall j :: 0 <= j < |out| ==> ResultAt(j) < |buf| && out[j] == buf[ResultAt(j)]
      {
        if |out| == num {
          break;
        }
        if i >= |buf| {
          return None;
        }
        out := out + [buf[i]];
        i, k := i + 1, k + 1;
      }
      done := done + 1;
    }
    while i % 4 != 0
      invariant i <= 4 * Chunks(num) && 4 * Chunks(num) - i < 4
      decreases 4 * Chunks(num) - i
    {
      i := i + 1;
    }
    if i >= |buf| || buf[i] != REGISTER_DATA_END {
      return None;
    }
    return Some(out);
  }

  // ---- Data reads ----

  /** The blocks that begin at `i`, up to the first byte that does not begin one: their bytes, how many, the last one's size, and where they end. */
  datatype Blocks = Blocks(data: seq<byte>, count: nat, size: nat, end: nat) | Broken

  function BlocksOn(buf: seq<byte>, i: nat, data: seq<byte>, count: nat, size: nat): Blocks
    decreases |buf| - i
  {
    if i < |buf| && buf[i] == DATA_BLOCK then
      if i + 16 > |buf| then Broken else BlocksOn(buf, i + 16, data + buf[i + 1..i + 16], count + 1, 15)
    else if i < |buf| && buf[i] == EXTENDED_BLOCK then
      if i + 32 > |buf| || buf[i + 1] != 0 then Broken else BlocksOn(buf, i + 32, data + buf[i + 2..i + 32], count + 1, 30)
    else Blocks(data, count, size, i)
  }

  datatype Reading = Reading(data: seq<byte>, end: bool)

  /** What a data-read reply says: its blocks cut to the length the trailing count gives, and the END bit of its status. */
  function DataOf(buf: seq<byte>, maxLen: nat): Option<Reading> {
    Conclude(BlocksOn(buf, 0, [], 0, 0), buf, maxLen)
  }

  function Conclude(blocks: Blocks, buf: seq<byte>, maxLen: nat): Option<Reading> {
    match blocks
    case Broken => None
    case Blocks(data, count, size, at) =>
      if |buf| < at + 8 || buf[at] != READ_STATUS || buf[at + 3] !in READ_OK then None
      else if count > 0 && |buf| <= at + 9 then None
      else
        var actual: nat := if count > 0 then (count - 1) * size + buf[at + 9] else 0;
        Some(Reading(data[..Min(|data|, Min(actual, maxLen))], buf[at + 1] / 0x20 % 2 == 1))
  }

  /** No error, aborted, and timed out keep what was read; the other codes are refused. */
  const READ_OK: set<byte> := {0, 1, 10}

  /** The bytes of one block, taken one by one. */
  method TakeBlock(buf: seq<byte>, first: nat, size: nat) returns (r: Option<seq<byte>>)
    ensures r == if first + size <= |buf| then Some(buf[first..first + size]) else None
  {
    var bytes: seq<byte> := [];
    for k := 0 to size
      invariant first + k <= |buf| || k == 0
      invariant bytes == if k == 0 then [] else buf[first..first + k]
    {
      if first + k >= |buf| {
        return None;
      }
      bytes := bytes + [buf[first + k]];
    }
    return if size == 0 && first > |buf| then None else Some(bytes);
  }

  method ParseDataReadResponse(buf: seq<byte>, maxLen: nat) returns (r: Option<Reading>)
    ensures r == DataOf(buf, maxLen)
  {
    var i: nat, data: seq<byte>, count: nat, size: nat := 0, [], 0, 0;
    while i < |buf| && (buf[i] == DATA_BLOCK || buf[i] == EXTENDED_BLOCK)
      invariant 0 <= i <= |buf|
      invariant BlocksOn(buf, i, data, count, size) == BlocksOn(buf, 0, [], 0, 0)
      decreases |buf| - i
    {
      if buf[i] == DATA_BLOCK {
        size, i := 15, i + 1;
      } else {
        size, i := 30, i + 1;
        if i >= |buf| || buf[i] != 0 {
          return None;
        }
        i := i + 1;
      }
      var block := TakeBlock(buf, i, size);
      if block.None? {
        return None;
      }
      data, i, count := data + block.value, i + size, count + 1;
    }
    if |buf| < i + 8 || buf[i] != READ_STATUS || buf[i + 3] !in READ_OK {
      return None;
    }
    var end := buf[i + 1] / 0x20 % 2 == 1;
    if count > 0 && i + 9 >= |buf| {
      return None;
    }
    var actual: nat := if count > 0 then (count - 1) * size + buf[i + 9] else 0;
    return Some(Reading(data[..Min(|data|, Min(actual, maxLen))], end));
  }

  function BlockSize(extended: bool): nat { if extended then 30 else 15 }

  function Block(bytes: seq<byte>, extended: bool): seq<byte> { (if extended then [EXTENDED_BLOCK, 0] else [DATA_BLOCK]) + bytes }

  /** Blocks `j` and on, all of one size. */
  function BlocksFrom(blocks: seq<seq<byte>>, extended: bool, j: nat): seq<byte>
    decreases |blocks| - j
  {
    if j >= |blocks| then [] else Block(blocks[j], extended) + BlocksFrom(blocks, extended, j + 1)
  }

  /** `data` laid out in full blocks of one size, the last one filled up with anything. */
  predicate LaidOut(data: seq<byte>, blocks: seq<seq<byte>>, extended: bool) {
    && (forall b :: 0 <= b < |blocks| ==> |blocks[b]| == BlockSize(extended))
    && data <= Flatten(blocks)
    && (|blocks| > 0 ==> (|blocks| - 1) * BlockSize(extended) < |data|)
  }

  lemma ReadsBlock(buf: seq<byte>, i: nat, bytes: seq<byte>, extended: bool, data: seq<byte>, count: nat, size: nat)
    requires HasAt(buf, i, Block(bytes, extended)) && |bytes| == BlockSize(extended)
    ensures BlocksOn(buf, i, data, count, size) == BlocksOn(buf, i + |Block(bytes, extended)|, data + bytes, count + 1, |bytes|)
  {
    var block, n := Block(bytes, extended), if extended then 2 else 1;
    HasPartAt(buf, i, block, 0, 1);
    HasPartAt(buf, i, block, n, |block|);
    assert block[n..|block|] == bytes && block[0..1] == [block[0]];
    assert buf[i] == buf[i..i + 1][0];
    if extended {
      HasPartAt(buf, i, block, 1, 2);
      assert block[1..2] == [0] && buf[i + 1] == buf[i + 1..i + 2][0];
    }
  }

  lemma FirstBlockAt(buf: seq<byte>, i: nat, blocks: seq<seq<byte>>, extended: bool, j: nat)
    requires j < |blocks| && HasAt(buf, i, BlocksFrom(blocks, extended, j))
    ensures HasAt(buf, i, Block(blocks[j], extended))
    ensures HasAt(buf, i + |Block(blocks[j], extended)|, BlocksFrom(blocks, extended, j + 1))
    ensures Flatten(blocks[..j + 1]) == Flatten(blocks[..j]) + blocks[j]
  {
    var all, first := BlocksFrom(blocks, extended, j), Block(blocks[j], extended);
    HasPartAt(buf, i, all, 0, |first|);
    HasPartAt(buf, i, all, |first|, |all|);
    assert all[0..|first|] == first && all[|first|..|all|] == BlocksFrom(blocks, extended, j + 1);
    assert blocks[..j + 1][..j] == blocks[..j];
  }

  lemma {:induction false} ReadsBlocks(buf: seq<byte>, i: nat, blocks: seq<seq<byte>>, extended: bool, j: nat, size: nat)
    requires j <= |blocks| && forall b :: 0 <= b < |blocks| ==> |blocks[b]| == BlockSize(extended)
    requires HasAt(buf, i, BlocksFrom(blocks, extended, j))
    requires i + |BlocksFrom(blocks, extended, j)| < |buf| && buf[i + |BlocksFrom(blocks, extended, j)|] == READ_STATUS
    ensures BlocksOn(buf, i, Flatten(blocks[..j]), j, size)
         == Blocks(Flatten(blocks), |blocks|, if j < |blocks| then BlockSize(extended) else size, i + |BlocksFrom(blocks, extended, j)|)
    decreases |blocks| - j
  {
    if j == |blocks| {
      assert blocks[..j] == blocks;
    } else {
      FirstBlockAt(buf, i, blocks, extended, j);
      ReadsBlock(buf, i, blocks[j], extended, Flatten(blocks[..j]), j, size);
      ReadsBlocks(buf, i + |Block(blocks[j], extended)|, blocks, extended, j + 1, BlockSize(extended));
    }
  }

  /** Any bytes in uniform blocks come back exactly, up to the length asked for, with the END bit of the status. */
  lemma DataReadRoundTrip(data: seq<byte>, blocks: seq<seq<byte>>, extended: bool, status: seq<byte>, tail: seq<byte>, maxLen: nat)
    requires LaidOut(data, blocks, extended)
    requires |status| == 8 && status[0] == READ_STATUS && status[3] in READ_OK
    requires blocks != [] ==> |tail| >= 2 && tail[1] == |data| - (|blocks| - 1) * BlockSize(extended)
    ensures DataOf(BlocksFrom(blocks, extended, 0) + status + tail, maxLen)
         == Some(Reading(data[..Min(|data|, maxLen)], status[1] / 0x20 % 2 == 1))
  {
    var frames := BlocksFrom(blocks, extended, 0);
    var buf := frames + status + tail;
    assert HasAt(buf, 0, frames) && buf[|frames|] == READ_STATUS;
    assert blocks[..0] == [];
    ReadsBlocks(buf, 0, blocks, extended, 0, 0);
    Concludes(data, Flatten(blocks), |blocks|, BlockSize(extended), frames, status, tail, maxLen);
  }

  lemma Concludes(data: seq<byte>, flat: seq<byte>, count: nat, size: nat, frames: seq<byte>, status: seq<byte>, tail: seq<byte>, maxLen: nat)
    requires data <= flat && (count == 0 ==> data == [])
    requires |status| == 8 && status[0] == READ_STATUS && status[3] in READ_OK
    requires count > 0 ==> |tail| >= 2 && tail[1] == |data| - (count - 1) * size
    ensures Conclude(Blocks(flat, count, if count > 0 then size else 0, |frames|), frames + status + tail, maxLen)
         == Some(Reading(data[..Min(|data|, maxLen)], status[1] / 0x20 % 2 == 1))
  {
    var buf, at := frames + status + tail, |frames|;
    assert buf[at] == status[0] && buf[at + 1] == status[1] && buf[at + 3] == status[3];
    if count > 0 {
      assert buf[at + 9] == tail[1];
    }
    var n := Min(|data|, maxLen);
    assert flat[..n] == data[..n];
  }

  /** Whatever the reply holds, no more is returned than was asked for. */
  lemma NeverMoreThanAsked(buf: seq<byte>, maxLen: nat)
    ensures DataOf(buf, maxLen).Some? ==> |DataOf(buf, maxLen).value.data| <= maxLen
  {
  }

  // ---- Write and command replies ----

  /** Bytes transferred, from a status block whose count is the negated residue. */
  function Transferred(buf: seq<byte>, requested: nat): Option<nat> {
    if |buf| < 8 || buf[3] > 1 then None
    else Some(Max(0, requested - (0x1_0000 - Word(buf[4], buf[5])) % 0x1_0000))
  }

  function Word(low: int, high: int): int { low + 0x100 * high }

  /**
   A reply that left `residue` bytes untransferred reports the rest, and only codes 0 and 1
   are taken for success: an aborted transfer is one, however little of it went out.
   */
  lemma ResidueReported(buf: seq<byte>, requested: nat, residue: nat)
    requires |buf| >= 8 && residue <= requested && residue < 0x1_0000
    requires Word(buf[4], buf[5]) == (0x1_0000 - residue) % 0x1_0000
    ensures Transferred(buf, requested) == if buf[3] <= 1 then Some(requested - residue) else None
  {
  }
}
