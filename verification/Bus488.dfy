/**
 An IEEE 488.1 bus as far as addressing goes: who is addressed to talk, who is addressed to
 listen, whether ATN is asserted, and whether the bus is in serial-poll mode.
 */
module Bus488 {
  import opened Common

  type Pad = p: int | 0 <= p <= 30

  datatype Bus = Bus(talker: Option<Pad>, listeners: set<Pad>, atn: bool, serialPoll: bool)

  const SPE: byte := 0x18
  const SPD: byte := 0x19
  const UNL: byte := 0x3f
  const UNT: byte := 0x5f

  /** `0x20 | (pad & 0x1f)`. */
  function ListenAddress(pad: Pad): byte { 0x20 + pad }

  /** `0x40 | (pad & 0x1f)`. */
  function TalkAddress(pad: Pad): byte { 0x40 + pad }

  /** One command byte under ATN. Listeners accumulate; a new talker replaces the old one. */
  function Command(b: Bus, c: byte): Bus {
    var code := c % 0x80;
    if code == UNL then b.(listeners := {})
    else if code == UNT then b.(talker := None)
    else if 0x20 <= code < 0x3f then b.(listeners := b.listeners + {code - 0x20})
    else if 0x40 <= code < 0x5f then b.(talker := Some(code - 0x40))
    else if code == SPE then b.(serialPoll := true)
    else if code == SPD then b.(serialPoll := false)
    else b
  }

  function Commands(b: Bus, cs: seq<byte>): Bus {
    if cs == [] then b else Command(Commands(b, cs[..|cs| - 1]), cs[|cs| - 1])
  }

  /** Take control, send the bytes, and go to standby or stay in control. */
  function Commanded(b: Bus, cs: seq<byte>, standby: bool): Bus {
    Commands(b.(atn := true), cs).(atn := !standby)
  }

  /** The IFC pulse unaddresses everybody; leaving serial-poll mode is SPD's business. */
  function Cleared(b: Bus): Bus { b.(talker := None, listeners := {}) }

  lemma {:induction false} CommandsConcat(b: Bus, xs: seq<byte>, ys: seq<byte>)
    ensures Commands(b, xs + ys) == Commands(Commands(b, xs), ys)
  {
    if ys == [] {
      assert xs + ys == xs;
    } else {
      assert (xs + ys)[..|xs + ys| - 1] == xs + ys[..|ys| - 1];
      CommandsConcat(b, xs, ys[..|ys| - 1]);
    }
  }

  lemma CommandsOfTwo(b: Bus, x: byte, y: byte)
    ensures Commands(b, [x]) == Command(b, x)
    ensures Commands(b, [x, y]) == Command(Command(b, x), y)
  {
    assert [x][..0] == [];
    assert [x, y][..1] == [x];
  }

  lemma CommandsOfThree(b: Bus, x: byte, y: byte, z: byte)
    ensures Commands(b, [x, y, z]) == Command(Command(Command(b, x), y), z)
  {
    CommandsOfTwo(b, x, y);
    assert [x, y, z][..2] == [x, y];
  }

  // ---- the addressing sequences the backends use ----

  function WriteAddressing(me: Pad, pad: Pad): seq<byte> { [UNL, TalkAddress(me), ListenAddress(pad)] }

  /** In listen-only mode no talker is named. */
  function ReadAddressingBytes(me: Pad, talker: Option<Pad>): seq<byte> {
    if talker.None? then [UNL, ListenAddress(me)] else [UNL, ListenAddress(me), TalkAddress(talker.value)]
  }

  const POLL_RESTORE := [SPD, UNT]

  function PollAddressing(me: Pad, pad: Pad): seq<byte> { [UNL, SPE, TalkAddress(pad), ListenAddress(me)] }

  /** Whatever was addressed before, exactly the target listens and only we talk. */
  lemma WriteAddressesExactlyOne(b: Bus, me: Pad, pad: Pad)
    ensures Commanded(b, WriteAddressing(me, pad), true) == Bus(Some(me), {pad}, false, b.serialPoll)
  {
    CommandsOfThree(b.(atn := true), UNL, TalkAddress(me), ListenAddress(pad));
  }

  lemma ReadAddressesExactlyUs(b: Bus, me: Pad, talker: Option<Pad>)
    ensures Commanded(b, ReadAddressingBytes(me, talker), true)
         == Bus(if talker.None? then b.talker else talker, {me}, false, b.serialPoll)
  {
    CommandsOfTwo(b.(atn := true), UNL, ListenAddress(me));
    if talker.Some? {
      CommandsOfThree(b.(atn := true), UNL, ListenAddress(me), TalkAddress(talker.value));
    }
  }

  /** ATN is released, we are the only listener, and the named talker, if any, is the talker. */
  predicate AddressedForRead(b: Bus, me: Pad, talker: Option<Pad>) {
    !b.atn && b.listeners == {me} && (talker.Some? ==> b.talker == talker)
  }

  /** Addressing a bus that is already addressed changes nothing, so skipping it is invisible. */
  lemma ReaddressingIsInvisible(b: Bus, me: Pad, talker: Option<Pad>)
    ensures AddressedForRead(b, me, talker) <==> Commanded(b, ReadAddressingBytes(me, talker), true) == b
  {
    ReadAddressesExactlyUs(b, me, talker);
  }

  lemma PollAddressed(b: Bus, me: Pad, pad: Pad)
    ensures Commanded(b, PollAddressing(me, pad), false) == Bus(Some(pad), {me}, true, true)
  {
    var cs := PollAddressing(me, pad);
    CommandsConcat(b.(atn := true), [UNL, SPE], [TalkAddress(pad), ListenAddress(me)]);
    assert cs == [UNL, SPE] + [TalkAddress(pad), ListenAddress(me)];
    CommandsOfTwo(b.(atn := true), UNL, SPE);
    CommandsOfTwo(Commands(b.(atn := true), [UNL, SPE]), TalkAddress(pad), ListenAddress(me));
  }

  lemma PollRestored(b: Bus)
    ensures Commanded(b, POLL_RESTORE, false) == b.(talker := None, serialPoll := false, atn := true)
  {
    CommandsOfTwo(b.(atn := true), SPD, UNT);
  }

  lemma {:induction false} CommandsKeepAtn(b: Bus, cs: seq<byte>)
    ensures Commands(b, cs).atn == b.atn
  {
    if cs != [] {
      CommandsKeepAtn(b, cs[..|cs| - 1]);
    }
  }
}

/**
 What an adapter answers, and what happened on the bus meanwhile. A transport error says
 nothing about what happened. A reply says it, but the backend reads little of it: of a command
 transfer only the error code, of take-control, standby and IFC nothing at all.
 */
module AdapterReplies {
  import opened Common
  import opened Bus488

  const MAX_COMMAND_LEN := 16

  /** An operation whose reply nobody reads: lost or heard, it took effect or not. */
  datatype Unread = Lost(done: bool) | Heard(done: bool)

  /** A command transfer: broken off by the transport, or answered with a code and the bytes left over. */
  datatype Transfer = Broken(reached: nat) | Reply(code: byte, residue: nat)

  /** A register write, whose reply is checked: a confirmed one took effect. */
  datatype Checked = Confirmed | Unconfirmed(done: bool) {
    predicate Done() { Confirmed? || done }
  }

  /** The answers to one command sequence, transfer by transfer. */
  datatype CommandReplies = CommandReplies(control: Unread, transfers: nat -> Transfer, standby: Unread)

  /** Codes 0 and 1 are taken for success, whatever is left over. */
  predicate Accepted(t: Transfer) { t.Reply? && t.code <= 1 }

  function Reached(len: nat, t: Transfer): nat {
    match t
    case Broken(reached) => Min(reached, len)
    case Reply(_, residue) => len - Min(residue, len)
  }

  function ChunkAt(bytes: seq<byte>, k: nat): seq<byte> {
    bytes[Min(k * MAX_COMMAND_LEN, |bytes|)..Min((k + 1) * MAX_COMMAND_LEN, |bytes|)]
  }

  function Rounds(bytes: seq<byte>): nat { (|bytes| + MAX_COMMAND_LEN - 1) / MAX_COMMAND_LEN }

  /** The adapter raises ATN for the bytes it sends. */
  function UnderAtn(b: Bus, cs: seq<byte>): Bus { if cs == [] then b else Commands(b.(atn := true), cs) }

  function Driven(b: Bus, atn: bool, done: bool): Bus { if done then b.(atn := atn) else b }

  /** The first `k` transfers: the bus after them, and whether each was taken for success. */
  function Transfers(b: Bus, bytes: seq<byte>, ts: nat -> Transfer, k: nat): (Bus, bool) {
    if k == 0 then (b, true) else
    var (before, ok) := Transfers(b, bytes, ts, k - 1);
    if !ok then (before, false) else
    var chunk := ChunkAt(bytes, k - 1);
    (UnderAtn(before, chunk[..Reached(|chunk|, ts(k - 1))]), Accepted(ts(k - 1)))
  }

  /** A whole command sequence as the code runs it: the bus it leaves, and whether the code takes it for success. */
  function Commanding(b: Bus, bytes: seq<byte>, standby: bool, r: CommandReplies): (Bus, bool) {
    var taken := Driven(b, true, r.control.done);
    if r.control.Lost? then (taken, false) else
    var (sent, ok) := Transfers(taken, bytes, r.transfers, Rounds(bytes));
    if !ok || !standby then (sent, ok) else (Driven(sent, false, r.standby.done), r.standby.Heard?)
  }

  /** What the code takes for success was carried out whole. */
  predicate HonestUnread(u: Unread) { u.Heard? ==> u.done }

  ghost predicate HonestReplies(r: CommandReplies) {
    && HonestUnread(r.control) && HonestUnread(r.standby)
    && forall k :: Accepted(r.transfers(k)) ==> r.transfers(k).residue == 0
  }

  lemma ChunksJoin(bytes: seq<byte>, k: nat)
    requires k < Rounds(bytes)
    ensures k * MAX_COMMAND_LEN < |bytes|
    ensures bytes[..k * MAX_COMMAND_LEN] + ChunkAt(bytes, k) == bytes[..Min((k + 1) * MAX_COMMAND_LEN, |bytes|)]
    ensures ChunkAt(bytes, k) != []
  {
  }

  lemma {:induction false} HonestTransfers(b: Bus, bytes: seq<byte>, ts: nat -> Transfer, k: nat)
    requires b.atn && k <= Rounds(bytes) && Transfers(b, bytes, ts, k).1
    requires forall i :: Accepted(ts(i)) ==> ts(i).residue == 0
    ensures Transfers(b, bytes, ts, k).0 == Commands(b, bytes[..Min(k * MAX_COMMAND_LEN, |bytes|)])
  {
    if k > 0 {
      HonestTransfers(b, bytes, ts, k - 1);
      ChunksJoin(bytes, k - 1);
      var head, chunk := bytes[..(k - 1) * MAX_COMMAND_LEN], ChunkAt(bytes, k - 1);
      assert Accepted(ts(k - 1)) && chunk[..|chunk|] == chunk;
      CommandsConcat(b, head, chunk);
      CommandsKeepAtn(b, head);
    }
  }

  /** With honest replies, success means the whole sequence and the line where it was to be left. */
  lemma HonestSuccessIsWhole(b: Bus, bytes: seq<byte>, standby: bool, r: CommandReplies)
    requires HonestReplies(r) && Commanding(b, bytes, standby, r).1
    ensures Commanding(b, bytes, standby, r).0 == Commanded(b, bytes, standby)
  {
    var taken := b.(atn := true);
    HonestTransfers(taken, bytes, r.transfers, Rounds(bytes));
    assert bytes[..|bytes|] == bytes;
    CommandsKeepAtn(taken, bytes);
  }

  /** How many bytes of a one-transfer sequence reached the bus. */
  function SentOf(bytes: seq<byte>, r: CommandReplies): nat { Reached(|bytes|, r.transfers(0)) }

  lemma OneTransfer(b: Bus, bytes: seq<byte>, standby: bool, r: CommandReplies)
    requires 0 < |bytes| <= MAX_COMMAND_LEN && Commanding(b, bytes, standby, r).1
    ensures var sent := UnderAtn(Driven(b, true, r.control.done), bytes[..SentOf(bytes, r)]);
            Commanding(b, bytes, standby, r).0 == if standby then Driven(sent, false, r.standby.done) else sent
  {
    assert Rounds(bytes) == 1 && ChunkAt(bytes, 0) == bytes;
    assert Transfers(Driven(b, true, r.control.done), bytes, r.transfers, 0).1;
  }

  lemma Prefixes(b: Bus, x: byte, y: byte)
    ensures Commands(b, [x, y][..0]) == b
    ensures Commands(b, [x, y][..1]) == Command(b, x)
    ensures Commands(b, [x, y][..2]) == Command(Command(b, x), y)
  {
    CommandsOfTwo(b, x, y);
    assert [x, y][..0] == [] && [x, y][..1] == [x] && [x, y][..2] == [x, y];
  }

  /** What the first `n` bytes of a read addressing leave. */
  lemma ReadPrefix(b: Bus, me: Pad, talker: Option<Pad>, n: nat)
    requires n <= |ReadAddressingBytes(me, talker)|
    ensures Commands(b, ReadAddressingBytes(me, talker)[..n])
         == Bus(if n == 3 then talker else b.talker, if n == 0 then b.listeners else if n == 1 then {} else {me}, b.atn, b.serialPoll)
  {
    var cs := ReadAddressingBytes(me, talker);
    if n == 0 {
      assert cs[..0] == [];
    } else if n < 3 {
      assert cs[..n] == [UNL, ListenAddress(me)][..n] && [UNL, ListenAddress(me)][..1] == [UNL];
      assert [UNL, ListenAddress(me)][..2] == [UNL, ListenAddress(me)];
      CommandsOfTwo(b, UNL, ListenAddress(me));
    } else {
      assert cs[..3] == cs;
      CommandsOfThree(b, UNL, ListenAddress(me), TalkAddress(talker.value));
    }
  }

  /** And of a write addressing. */
  lemma WritePrefix(b: Bus, me: Pad, pad: Pad, n: nat)
    requires n <= 3
    ensures Commands(b, WriteAddressing(me, pad)[..n])
         == Bus(if n < 2 then b.talker else Some(me), if n == 0 then b.listeners else if n == 3 then {pad} else {}, b.atn, b.serialPoll)
  {
    var cs := WriteAddressing(me, pad);
    if n == 0 {
      assert cs[..0] == [];
    } else if n < 3 {
      assert cs[..n] == [UNL, TalkAddress(me)][..n] && [UNL, TalkAddress(me)][..1] == [UNL];
      assert [UNL, TalkAddress(me)][..2] == [UNL, TalkAddress(me)];
      CommandsOfTwo(b, UNL, TalkAddress(me));
    } else {
      assert cs[..3] == cs;
      CommandsOfThree(b, UNL, TalkAddress(me), ListenAddress(pad));
    }
  }

  // ---- exactly when an accepted sequence left the bus as it should ----

  /** ATN is down after an accepted sequence with standby. */
  predicate LineDown(b: Bus, sent: nat, r: CommandReplies) {
    r.standby.done || (sent == 0 && !b.atn && !r.control.done)
  }

  /**
   Read addressing that the code took for success, and therefore remembers: the bus is addressed
   for it exactly when the line went down and all bytes were sent, or the ones that were not were
   not needed.
   */
  lemma ReadAddressedIff(b: Bus, me: Pad, talker: Option<Pad>, r: CommandReplies)
    requires Commanding(b, ReadAddressingBytes(me, talker), true, r).1
    ensures var n := SentOf(ReadAddressingBytes(me, talker), r);
            (AddressedForRead(Commanding(b, ReadAddressingBytes(me, talker), true, r).0, me, talker)
        <==> && LineDown(b, n, r)
             && (|| n == |ReadAddressingBytes(me, talker)|
                 || (n == 2 && b.talker == talker)
                 || (n == 0 && b.listeners == {me} && (talker.Some? ==> b.talker == talker))))
  {
    OneTransfer(b, ReadAddressingBytes(me, talker), true, r);
    ReadPrefix(b.(atn := true), me, talker, SentOf(ReadAddressingBytes(me, talker), r));
  }

  /** So it is right whatever the bus was before exactly when nothing was left over and the line went down. */
  lemma ReadAddressedFromAnywhereIff(me: Pad, talker: Option<Pad>, r: CommandReplies)
    requires forall b: Bus :: Commanding(b, ReadAddressingBytes(me, talker), true, r).1
    ensures (forall b: Bus :: AddressedForRead(Commanding(b, ReadAddressingBytes(me, talker), true, r).0, me, talker))
       <==> SentOf(ReadAddressingBytes(me, talker), r) == |ReadAddressingBytes(me, talker)| && r.standby.done
  {
    var bytes := ReadAddressingBytes(me, talker);
    var worst := Bus(None, {}, true, false);
    ReadAddressedIff(worst, me, talker, r);
    forall b: Bus | SentOf(bytes, r) == |bytes| && r.standby.done
      ensures AddressedForRead(Commanding(b, bytes, true, r).0, me, talker)
    {
      ReadAddressedIff(b, me, talker, r);
    }
    assert Commanding(worst, bytes, true, r).1;
  }

  /** Write addressing that the code took for success: exactly the target listens, and the data phase is safe, exactly then. */
  lemma WriteAddressedIff(b: Bus, me: Pad, pad: Pad, r: CommandReplies)
    requires Commanding(b, WriteAddressing(me, pad), true, r).1
    ensures var after, n := Commanding(b, WriteAddressing(me, pad), true, r).0, SentOf(WriteAddressing(me, pad), r);
            && (after.listeners == {pad} <==> n == 3 || (n == 0 && b.listeners == {pad}))
            && (after.listeners == {pad} && after.talker == Some(me) && !after.atn
                <==> LineDown(b, n, r) && (n == 3 || (n == 0 && b.listeners == {pad} && b.talker == Some(me))))
  {
    OneTransfer(b, WriteAddressing(me, pad), true, r);
    WritePrefix(b.(atn := true), me, pad, SentOf(WriteAddressing(me, pad), r));
  }

  /** The restore after a poll that the code took for success: out of serial-poll mode with no talker exactly then. */
  lemma PollRestoredIff(b: Bus, r: CommandReplies)
    requires Commanding(b, POLL_RESTORE, false, r).1
    ensures var after, n := Commanding(b, POLL_RESTORE, false, r).0, SentOf(POLL_RESTORE, r);
            (!after.serialPoll && after.talker.None?
        <==> n == 2 || (b.talker.None? && (n == 1 || !b.serialPoll)))
  {
    OneTransfer(b, POLL_RESTORE, false, r);
    Prefixes(b.(atn := true), SPD, UNT);
    assert SentOf(POLL_RESTORE, r) <= 2;
  }

  /** Nobody listens when bring-up primes exactly when IFC happened, UNL got out, or nobody listened anyway. */
  lemma PrimingIff(b: Bus, pad: Pad, cleared: bool, r: CommandReplies)
    ensures var idle := if cleared then Cleared(b) else b;
            (Commanding(idle, [UNL, TalkAddress(pad)], false, r).0.listeners == {}
        <==> cleared || b.listeners == {} || (r.control.Heard? && SentOf([UNL, TalkAddress(pad)], r) > 0))
  {
    var idle, cs := if cleared then Cleared(b) else b, [UNL, TalkAddress(pad)];
    var taken := Driven(idle, true, r.control.done);
    Prefixes(taken.(atn := true), UNL, TalkAddress(pad));
    assert Rounds(cs) == 1 && ChunkAt(cs, 0) == cs;
    assert Transfers(taken, cs, r.transfers, 0) == (taken, true);
    assert Transfers(taken, cs, r.transfers, 1).0 == UnderAtn(taken, cs[..SentOf(cs, r)]);
    assert SentOf(cs, r) <= 2;
  }
}

/** The adapter on the bus, and what was done on it. */
module BusAdapter {
  import opened Common
  import opened Bus488
  import opened AdapterReplies

  datatype Act =
    | Sent(bytes: seq<byte>)                               // command bytes attempted
    | AcceptorReady | AcceptorStopped | MonitorRearmed
    | WriteTo(me: Pad, pad: Pad, bytes: seq<byte>, eoi: bool, bus: Bus)
    | ReadFrom(me: Pad, talker: Option<Pad>, bus: Bus)
    | Priming(bus: Bus)                                    // the throw-away first write of init
    | Unaddressed(bytes: seq<byte>, eoi: bool, bus: Bus)   // a data phase that relies on earlier addressing
    | Recovered                                            // abort, drain and IFC after a stall

  /** What must be true of the bus when a data phase starts. */
  predicate SafePhase(a: Act) {
    match a
    case WriteTo(me, pad, _, _, b) => b.listeners == {pad} && b.talker == Some(me) && !b.atn
    case ReadFrom(me, talker, b) => AddressedForRead(b, me, talker)
    case Priming(b) => b.listeners == {}
    case _ => true
  }

  /** What a register sequence that resets the chip leaves: the bus is not to be relied on. */
  datatype Reset = Reset(ok: bool, bus: Bus, halt: bool, address: Pad)

  class Adapter {
    var bus: Bus
    var halt: bool
    var address: Pad
    var acts: seq<Act>

    constructor (b: Bus)
      ensures acts == [] && bus == b && address == 0
    {
      bus, halt, address, acts := b, true, 0, [];
    }

    method TakeControl(r: Unread) returns (ok: bool)
      modifies this`bus
      ensures bus == Driven(old(bus), true, r.done) && ok == r.Heard?
    {
      if r.done { bus := bus.(atn := true); }
      ok := r.Heard?;
    }

    method GoToStandby(r: Unread) returns (ok: bool)
      modifies this`bus
      ensures bus == Driven(old(bus), false, r.done) && ok == r.Heard?
    {
      if r.done { bus := bus.(atn := false); }
      ok := r.Heard?;
    }

    method PulseIfc(r: Unread) returns (ok: bool)
      modifies this`bus
      ensures bus == (if r.done then Cleared(old(bus)) else old(bus)) && ok == r.Heard?
    {
      if r.done { bus := Cleared(bus); }
      ok := r.Heard?;
    }

    method CommandTransfer(chunk: seq<byte>, t: Transfer) returns (ok: bool)
      modifies this`bus
      ensures bus == UnderAtn(old(bus), chunk[..Reached(|chunk|, t)]) && ok == Accepted(t)
    {
      bus := UnderAtn(bus, chunk[..Reached(|chunk|, t)]);
      ok := Accepted(t);
    }

    /** A sequence that writes the address register leaves it at `target` if it succeeds; one that does not leaves it alone. */
    method Reconfigure(r: Reset, target: Option<Pad>) returns (ok: bool)
      modifies this`bus, this`halt, this`address
      ensures bus == r.bus && halt == r.halt && ok == r.ok
      ensures address == if target.None? then old(address) else if ok then target.value else r.address
    {
      bus, halt, ok := r.bus, r.halt, r.ok;
      if target.Some? {
        address := if ok then target.value else r.address;
      }
    }

    method WriteAddress(pad: Pad, r: Checked) returns (ok: bool)
      modifies this`address
      ensures address == (if r.Done() then pad else old(address)) && ok == r.Confirmed?
    {
      if r.Done() { address := pad; }
      ok := r.Confirmed?;
    }

    method ReadyAcceptor(r: Checked) returns (ok: bool)
      modifies this`halt, this`acts
      ensures acts == old(acts) + [AcceptorReady]
      ensures halt == (if r.Done() then false else old(halt)) && ok == r.Confirmed?
    {
      acts := acts + [AcceptorReady];
      if r.Done() { halt := false; }
      ok := r.Confirmed?;
    }

    method RestoreAcceptor(r: Checked) returns (ok: bool)
      modifies this`halt, this`acts
      ensures acts == old(acts) + [AcceptorStopped]
      ensures halt == (if r.Done() then true else old(halt)) && ok == r.Confirmed?
    {
      acts := acts + [AcceptorStopped];
      if r.Done() { halt := true; }
      ok := r.Confirmed?;
    }

    /** A step that moves no addressing: a data phase, or the re-arming of the monitor. */
    method Record(a: Act) returns (ok: bool)
      modifies this`acts
      ensures acts == old(acts) + [a]
    {
      acts := acts + [a];
      ok := *;
    }
  }
}
