/**
 The NI GPIB-USB-HS backend and its addressing cache. What the adapter answers is a parameter of
 every operation. As far as the cache and the safety of data phases go, the operation awaited
 failing covers a future dropped at that await; a dropped poll or bring-up also leaves out the
 steps that a failed one still makes.
 */
module NiBackend {
  import opened Common
  import opened Bus488
  import opened AdapterReplies
  import opened BusAdapter
  import NiFraming

  const MAX_TRANSFER_LEN := 0xffff

  /** The addressing a read set up: who talks (nobody named in listen-only), who listens. */
  datatype ReadAddressing = ReadAddressing(talker: Option<Pad>, listener: Pad)

  /** How far an operation with a data phase got. */
  datatype Outcome = Refused | NotAddressed | Transferred(ok: bool)

  datatype PollOutcome = NotStarted | NoStatus | Status

  datatype PollReplies = PollReplies(
    enable: CommandReplies, ready: Checked, standby: Unread, byteCame: bool, stop: Checked, restore: CommandReplies)

  datatype InitReplies = InitReplies(
    ready: bool, setup: Reset, ifc: Unread, ren: bool, address: CommandReplies, monitor: bool)

  datatype Op =
    | Write(pad: Pad, data: seq<byte>, eoi: bool, replies: CommandReplies)
    | Read(pad: Pad, replies: CommandReplies)
    | SerialPoll(pad: Pad, poll: PollReplies)
    | SendCommand(bytes: seq<byte>, standby: bool, replies: CommandReplies)
    | Ifc(line: Unread)
    | SetAtn(on: bool, line: Unread)
    | WriteUnaddressed(data: seq<byte>, eoi: bool)
    | ReadUnaddressed
    | SetControllerPad(address: nat, register: Checked)
    | SetListenOnly(enable: bool, reset: Reset, init: InitReplies)
    | SetDeviceMode(device: Option<nat>, reset: Reset, init: InitReplies)
    | OtherController(bus: Bus)
    | Init(me: Pad, init: InitReplies)

  /** Every reply the code takes for success stands for the whole of what it answers. */
  ghost predicate HonestOp(op: Op) {
    match op
    case Write(_, _, _, r) => HonestReplies(r)
    case Read(_, r) => HonestReplies(r)
    case SerialPoll(_, p) => HonestReplies(p.enable) && HonestReplies(p.restore)
    case SendCommand(_, _, r) => HonestReplies(r)
    case SetListenOnly(_, _, init) => HonestInit(init)
    case SetDeviceMode(_, _, init) => HonestInit(init)
    case Init(_, init) => HonestInit(init)
    case _ => true
  }

  /** No write of the chip's address register goes unconfirmed. */
  predicate ConfirmedOp(op: Op) {
    match op
    case SetControllerPad(address, register) => address > 30 || register.Confirmed?
    case SetListenOnly(enable, _, init) => enable || (init.ready && init.setup.ok)
    case SetDeviceMode(device, _, init) => if device.Some? then device.value > 30 else init.ready && init.setup.ok
    case Init(_, init) => init.ready && init.setup.ok
    case _ => true
  }

  ghost predicate HonestInit(init: InitReplies) { HonestUnread(init.ifc) && HonestReplies(init.address) }

  class NiUsbHs {
    const adapter: Adapter
    var myPad: Pad
    var listenOnly: bool
    var deviceAddress: Option<Pad>
    var readAddressing: Option<ReadAddressing>
    ghost var whole: bool   // every reply taken for success so far stood for the whole of what it answered
    ghost var placed: bool  // the last write of the chip's address register was confirmed

    constructor (a: Adapter)
      requires a.acts == []
      ensures adapter == a && Valid() && whole && !placed && readAddressing.None?
      ensures myPad == 0 && !listenOnly && deviceAddress.None?
    {
      adapter := a;
      myPad, listenOnly, deviceAddress, readAddressing, whole, placed := 0, false, None, None, true, false;
    }

    /**
     A remembered addressing is the addressing the next read would set up. As long as every reply
     taken for success was whole, the bus is in exactly that state, and every data phase was safe.
     The chip is at the backend's address as long as the last write of its register was confirmed.
     */
    ghost predicate Valid()
      reads this, adapter
    {
      && (readAddressing.Some? ==>
            && deviceAddress.None?
            && readAddressing.value.listener == myPad
            && (readAddressing.value.talker.None? <==> listenOnly))
      && (whole ==>
            && (readAddressing.Some? ==> AddressedForRead(adapter.bus, myPad, readAddressing.value.talker))
            && (forall a :: a in adapter.acts ==> SafePhase(a)))
      && (placed ==> adapter.address == myPad)
    }

    /** The command bytes, sixteen to a transfer, until one is not taken for success. */
    method CommandChunks(bytes: seq<byte>, ts: nat -> Transfer) returns (ok: bool)
      modifies adapter`bus
      ensures (adapter.bus, ok) == Transfers(old(adapter.bus), bytes, ts, Rounds(bytes))
    {
      ok := true;
      var k: nat, i := 0, 0;
      while i < |bytes|
        invariant i == Min(k * MAX_COMMAND_LEN, |bytes|) && k <= Rounds(bytes)
        invariant ok && (adapter.bus, true) == Transfers(old(adapter.bus), bytes, ts, k)
        decreases |bytes| - i
      {
        var end := Min(i + MAX_COMMAND_LEN, |bytes|);
        assert bytes[i..end] == ChunkAt(bytes, k);
        ok := adapter.CommandTransfer(bytes[i..end], ts(k));
        k, i := k + 1, end;
        if !ok {
          StaysRefused(old(adapter.bus), bytes, ts, k, Rounds(bytes));
          return;
        }
      }
      assert k == Rounds(bytes);
    }

    /** Take control, send the bytes, optionally go to standby; forget any read addressing first. */
    method Command(bytes: seq<byte>, standby: bool, r: CommandReplies) returns (ok: bool)
      requires Valid()
      modifies this`readAddressing, this`whole, adapter
      ensures Valid() && readAddressing.None?
      ensures adapter.acts == old(adapter.acts) + [Sent(bytes)]
      ensures adapter.halt == old(adapter.halt) && adapter.address == old(adapter.address)
      ensures (adapter.bus, ok) == Commanding(old(adapter.bus), bytes, standby, r)
      ensures whole == (old(whole) && HonestReplies(r))
    {
      readAddressing, whole := None, whole && HonestReplies(r);
      adapter.acts := adapter.acts + [Sent(bytes)];
      ok := adapter.TakeControl(r.control);
      if !ok {
        return;
      }
      ok := CommandChunks(bytes, r.transfers);
      if ok && standby {
        ok := adapter.GoToStandby(r.standby);
      }
    }

    /** A data phase starts on the bus that the accepted addressing left. */
    method WriteAddressed(pad: Pad, data: seq<byte>, eoi: bool, r: CommandReplies) returns (o: Outcome)
      requires Valid()
      modifies this`readAddressing, this`whole, adapter
      ensures Valid() && whole == (old(whole) && (o.Refused? || HonestReplies(r)))
      ensures o.Refused? <==> listenOnly || deviceAddress.Some?
      ensures o.Refused? ==> adapter.bus == old(adapter.bus) && adapter.acts == old(adapter.acts)
      ensures !o.Refused? ==>
                && adapter.bus == Commanding(old(adapter.bus), WriteAddressing(myPad, pad), true, r).0
                && (o.Transferred? <==> Commanding(old(adapter.bus), WriteAddressing(myPad, pad), true, r).1)
      ensures o.Transferred? && whole ==> Reaches(adapter.bus, myPad, pad)
      ensures adapter.address == old(adapter.address)
      ensures o.NotAddressed? ==> adapter.acts == old(adapter.acts) + [Sent(WriteAddressing(myPad, pad))]
      ensures o.Transferred? ==>
                var pieces := Pieces(Instrument(myPad, pad, adapter.bus), data, eoi);
                exists k :: 0 < k <= |pieces| && (o.ok ==> k == |pieces|)
                     && adapter.acts == old(adapter.acts) + [Sent(WriteAddressing(myPad, pad))] + pieces[..k]
    {
      if listenOnly || deviceAddress.Some? {
        return Refused;
      }
      var addressed := Command(WriteAddressing(myPad, pad), true, r);
      if !addressed {
        return NotAddressed;
      }
      if whole {
        HonestSuccessIsWhole(old(adapter.bus), WriteAddressing(myPad, pad), true, r);
        WriteAddressesExactlyOne(old(adapter.bus), myPad, pad);
      }
      var done, k := WriteDataBody(Instrument(myPad, pad, adapter.bus), data, eoi);
      return Transferred(done);
    }

    /** The data half of a write: one transfer after another until one fails or all are through. */
    method WriteDataBody(target: Target, data: seq<byte>, eoi: bool) returns (ok: bool, ghost k: nat)
      requires Valid() && (whole ==> SafePhase(Piece(target, [], eoi)))
      modifies adapter`acts
      ensures Valid()
      ensures 0 < k <= |Pieces(target, data, eoi)| && (ok ==> k == |Pieces(target, data, eoi)|)
      ensures adapter.acts == old(adapter.acts) + Pieces(target, data, eoi)[..k]
    {
      ghost var pieces := Pieces(target, data, eoi);
      if whole {
        PiecesAreSafe(target, data, eoi);
      }
      var rest := data;
      k := 0;
      while true
        invariant k < |pieces| && pieces[k..] == Pieces(target, rest, eoi)
        invariant adapter.acts == old(adapter.acts) + pieces[..k]
        decreases |rest|
      {
        var n := Min(|rest|, MAX_TRANSFER_LEN);
        var last := n == |rest|;
        NextPiece(target, pieces, rest, eoi, k);
        ok := adapter.Record(Piece(target, rest[..n], eoi && last));
        k := k + 1;
        if !ok || last {
          return;
        }
        rest := rest[n..];
      }
    }

    /**
     A message in several calls, as device_write makes them: the first addresses, the others rely
     on it. With whole replies every one of them reaches exactly the target.
     */
    method WriteInChunks(pad: Pad, chunks: seq<seq<byte>>, eoi: bool, r: CommandReplies) returns (ok: bool)
      requires Valid() && chunks != []
      modifies this`readAddressing, this`whole, adapter
      ensures Valid() && (old(whole) && HonestReplies(r) ==> whole) && adapter.address == old(adapter.address)
      ensures old(adapter.acts) <= adapter.acts
      ensures whole ==> forall i :: |old(adapter.acts)| <= i < |adapter.acts| ==> ReachesOnly(adapter.acts[i], myPad, pad)
    {
      var first := WriteAddressed(pad, chunks[0], eoi && |chunks| == 1, r);
      PiecesReach(Instrument(myPad, pad, adapter.bus), chunks[0], eoi && |chunks| == 1, myPad, pad);
      ok := first.Transferred? && first.ok;
      ghost var bus, honest := adapter.bus, whole;
      var i := 1;
      while ok && i < |chunks|
        invariant Valid() && old(adapter.acts) <= adapter.acts && 1 <= i <= |chunks| && adapter.bus == bus && whole == honest && adapter.address == old(adapter.address)
        invariant ok && whole ==> Reaches(bus, myPad, pad)
        invariant whole ==> forall j :: |old(adapter.acts)| <= j < |adapter.acts| ==> ReachesOnly(adapter.acts[j], myPad, pad)
      {
        var last := i == |chunks| - 1;
        PiecesReach(Nobody(adapter.bus), chunks[i], eoi && last, myPad, pad);
        ghost var k;
        ok, k := WriteDataBody(Nobody(adapter.bus), chunks[i], eoi && last);
        i := i + 1;
      }
    }

    /**
     Read: address once, then leave the bus alone. With whole replies, whether or not addressing
     was skipped, the data phase starts on the bus that re-addressing would have produced.
     */
    method ReadAddressed(pad: Pad, r: CommandReplies) returns (o: Outcome)
      requires Valid()
      modifies this`readAddressing, this`whole, adapter
      ensures Valid() && (old(whole) && HonestReplies(r) ==> whole) && adapter.address == old(adapter.address)
      ensures deviceAddress.Some? ==> o.Transferred? && adapter.bus == old(adapter.bus) && readAddressing == old(readAddressing)
      ensures deviceAddress.None? ==>
                var talker := if listenOnly then None else Some(pad);
                var want, bytes := Some(ReadAddressing(talker, myPad)), ReadAddressingBytes(myPad, talker);
                if old(readAddressing) == want then
                  && o.Transferred? && readAddressing == want && adapter.bus == old(adapter.bus)
                  && adapter.acts == old(adapter.acts) + [ReadFrom(myPad, talker, adapter.bus)]
                  && (whole ==> adapter.bus == Commanded(adapter.bus, bytes, true))
                else
                  && o.Transferred? == Commanding(old(adapter.bus), bytes, true, r).1
                  && adapter.bus == Commanding(old(adapter.bus), bytes, true, r).0
                  && readAddressing == (if o.Transferred? then want else None)
                  && adapter.acts == old(adapter.acts) + [Sent(bytes)] + (if o.Transferred? then [ReadFrom(myPad, talker, adapter.bus)] else [])
                  && (whole && o.Transferred? ==> adapter.bus == Commanded(old(adapter.bus), bytes, true))
      ensures !o.Refused?
    {
      if deviceAddress.Some? {
        var ok := adapter.Record(Unaddressed([], false, adapter.bus));
        return Transferred(ok);
      }
      var talker := if listenOnly then None else Some(pad);
      ReaddressingIsInvisible(adapter.bus, myPad, talker);
      var want := ReadAddressing(talker, myPad);
      if readAddressing != Some(want) {
        var addressed := Command(ReadAddressingBytes(myPad, talker), true, r);
        if !addressed {
          return NotAddressed;
        }
        if whole {
          HonestSuccessIsWhole(old(adapter.bus), ReadAddressingBytes(myPad, talker), true, r);
          ReadAddressesExactlyUs(old(adapter.bus), myPad, talker);
        }
        readAddressing := Some(want);
      }
      var ok := adapter.Record(ReadFrom(myPad, talker, adapter.bus));
      return Transferred(ok);
    }

    /** From the acceptor on: every path stops it again, sends SPD and UNT, and re-arms the monitor. */
    method PollReady(p: PollReplies) returns (status: bool)
      requires Valid() && readAddressing.None?
      modifies this`readAddressing, this`whole, adapter
      ensures Valid() && readAddressing.None? && adapter.address == old(adapter.address)
      ensures whole == (old(whole) && HonestReplies(p.restore))
      ensures adapter.acts == old(adapter.acts) + [AcceptorStopped, Sent(POLL_RESTORE), MonitorRearmed]
      ensures adapter.bus == Commanding(Driven(old(adapter.bus), false, p.standby.done), POLL_RESTORE, false, p.restore).0
      ensures status <==> p.standby.Heard? && p.byteCame && p.stop.Confirmed?
                          && Commanding(Driven(old(adapter.bus), false, p.standby.done), POLL_RESTORE, false, p.restore).1
      ensures status ==> adapter.halt
    {
      var standby := adapter.GoToStandby(p.standby);
      var stopped := adapter.RestoreAcceptor(p.stop);
      var restored := Command(POLL_RESTORE, false, p.restore);
      var rearmed := adapter.Record(MonitorRearmed);
      status := standby && p.byteCame && stopped && restored;
    }

    /**
     Serial poll. Past the acceptor-ready write every path stops the acceptor, sends SPD and
     UNT, and re-arms the monitor. A status returned means HALT is set and the restore was taken
     for success; with honest replies the bus is back to normal.
     */
    method Poll(pad: Pad, p: PollReplies) returns (o: PollOutcome)
      requires Valid()
      modifies this`readAddressing, this`whole, adapter
      ensures Valid() && readAddressing.None? && adapter.address == old(adapter.address)
      ensures old(whole) && HonestReplies(p.enable) && HonestReplies(p.restore) ==> whole
      ensures !o.NotStarted? ==>
                && adapter.acts == old(adapter.acts) + [Sent(PollAddressing(myPad, pad)), AcceptorReady, AcceptorStopped, Sent(POLL_RESTORE), MonitorRearmed]
                && adapter.bus == Commanding(Polled(old(adapter.bus), myPad, pad, p), POLL_RESTORE, false, p.restore).0
      ensures o.NotStarted? <==> !(Commanding(old(adapter.bus), PollAddressing(myPad, pad), false, p.enable).1 && p.ready.Confirmed?)
      ensures o.Status? <==>
                && !o.NotStarted? && p.standby.Heard? && p.byteCame && p.stop.Confirmed?
                && Commanding(Polled(old(adapter.bus), myPad, pad, p), POLL_RESTORE, false, p.restore).1
      ensures o.Status? ==> adapter.halt
      ensures o.Status? && HonestReplies(p.restore) ==> !adapter.bus.serialPoll && adapter.bus.talker.None?
      ensures o.Status? && HonestReplies(p.enable) && HonestReplies(p.restore) ==> adapter.bus.listeners == {myPad}
    {
      HonestPollRestores(adapter.bus, myPad, pad, p);
      var enabled := Command(PollAddressing(myPad, pad), false, p.enable);
      if !enabled {
        return NotStarted;
      }
      var ready := adapter.ReadyAcceptor(p.ready);
      if !ready {
        return NotStarted;
      }
      var status := PollReady(p);
      return if status then Status else NoStatus;
    }

    method InterfaceClear(line: Unread) returns (ok: bool)
      requires Valid()
      modifies this`readAddressing, adapter`bus
      ensures Valid() && readAddressing.None?
      ensures adapter.bus == (if line.done then Cleared(old(adapter.bus)) else old(adapter.bus)) && ok == line.Heard?
    {
      readAddressing := None;
      ok := adapter.PulseIfc(line);
    }

    method SetAtnLine(on: bool, line: Unread) returns (ok: bool)
      requires Valid()
      modifies this`readAddressing, adapter`bus
      ensures Valid() && readAddressing.None?
      ensures adapter.bus == Driven(old(adapter.bus), on, line.done) && ok == line.Heard?
    {
      readAddressing := None;
      if on {
        ok := adapter.TakeControl(line);
      } else {
        ok := adapter.GoToStandby(line);
      }
    }

    /**
     The cache is dropped only once the address register write was confirmed. One that took
     effect without being confirmed leaves the chip at another address than the backend's, and
     the cache, if any, naming a listener that is no longer the chip.
     */
    method SetControllerAddress(pad: nat, register: Checked) returns (ok: bool)
      requires Valid()
      modifies this`readAddressing, this`myPad, this`placed, adapter`address
      ensures Valid() && (ok <==> pad <= 30 && register.Confirmed?)
      ensures placed == (ok || (old(placed) && pad > 30))
      ensures adapter.address == if pad <= 30 && register.Done() then pad else old(adapter.address)
      ensures ok ==> myPad == pad && adapter.address == pad && readAddressing.None?
      ensures !ok ==> myPad == old(myPad) && readAddressing == old(readAddressing)
      ensures old(adapter.address) == old(myPad) ==>
                (adapter.address == myPad <==> ok || pad > 30 || pad == myPad || !register.Done())
    {
      if pad > 30 {
        return false;
      }
      ok := adapter.WriteAddress(pad, register);
      placed := ok;
      if ok {
        myPad := pad;
        readAddressing := None;
      }
    }

    /** Bring-up. The priming write goes out on the bus that IFC and the addressing left. */
    method Initialize(pad: Pad, init: InitReplies) returns (ok: bool)
      requires Valid()
      modifies this`myPad, this`readAddressing, this`whole, this`placed, adapter
      ensures Valid() && readAddressing.None? && myPad == pad
      ensures placed == (init.ready && init.setup.ok)
      ensures old(whole) && HonestInit(init) ==> whole
      ensures ok <==> Primes(init) && init.monitor
      ensures Primes(init) ==>
                && adapter.bus == PrimedBus(pad, init)
                && adapter.acts == old(adapter.acts) + [Sent([UNL, TalkAddress(pad)]), Priming(adapter.bus)]
      ensures !Primes(init) ==> adapter.acts == old(adapter.acts)
    {
      myPad := pad;
      readAddressing, whole, placed := None, whole && HonestInit(init), false;
      if !init.ready {
        return false;
      }
      ok := adapter.Reconfigure(init.setup, Some(pad));
      placed := ok;
      if !ok {
        return;
      }
      ok := InterfaceClear(init.ifc);
      if !ok {
        return;
      }
      if !init.ren {
        return false;
      }
      PrimingIff(init.setup.bus, pad, init.ifc.done, init.address);
      Prime(init.address);
      ok := init.monitor;
    }

    /** Make ourselves the talker, whether or not that works, and spend the first data write. */
    method Prime(r: CommandReplies)
      requires Valid() && readAddressing.None?
      requires whole ==> Commanding(adapter.bus, [UNL, TalkAddress(myPad)], false, r).0.listeners == {}
      modifies this`readAddressing, this`whole, adapter
      ensures Valid() && readAddressing.None? && whole == (old(whole) && HonestReplies(r)) && adapter.address == old(adapter.address)
      ensures adapter.bus == Commanding(old(adapter.bus), [UNL, TalkAddress(myPad)], false, r).0
      ensures adapter.acts == old(adapter.acts) + [Sent([UNL, TalkAddress(myPad)]), Priming(adapter.bus)]
    {
      var addressed := Command([UNL, TalkAddress(myPad)], false, r);
      var primed := adapter.Record(Priming(adapter.bus));
    }

    method EnterListenOnly(enable: bool, reset: Reset, init: InitReplies) returns (ok: bool)
      requires Valid()
      modifies this`myPad, this`readAddressing, this`listenOnly, this`whole, this`placed, adapter
      ensures Valid() && readAddressing.None? && myPad == old(myPad)
      ensures placed == if enable then old(placed) else init.ready && init.setup.ok
      ensures old(whole) && HonestInit(init) ==> whole
      ensures listenOnly == if enable then old(listenOnly) || ok else false
    {
      readAddressing := None;
      if !enable {
        listenOnly := false;
        ok := Initialize(myPad, init);
        return;
      }
      ok := adapter.Reconfigure(reset, None);
      if ok {
        listenOnly := true;
      }
    }

    method EnterDeviceMode(address: Option<nat>, reset: Reset, init: InitReplies) returns (ok: bool)
      requires Valid()
      modifies this`myPad, this`readAddressing, this`listenOnly, this`deviceAddress, this`whole, this`placed, adapter
      ensures Valid() && readAddressing.None? && myPad == old(myPad)
      ensures placed == match address
                        case None => init.ready && init.setup.ok
                        case Some(a) => old(placed) && a > 30
      ensures old(whole) && HonestInit(init) ==> whole
      ensures address.None? ==> deviceAddress.None?
      ensures ok && address.Some? ==> address.value <= 30 && deviceAddress == Some(address.value) && !listenOnly
      ensures !ok && address.Some? ==> deviceAddress == old(deviceAddress) && listenOnly == old(listenOnly)
    {
      readAddressing := None;
      if address.None? {
        deviceAddress := None;
        ok := Initialize(myPad, init);
        return;
      }
      if address.value > 30 {
        return false;
      }
      placed := false;
      ok := adapter.Reconfigure(reset, Some(address.value));
      if ok {
        deviceAddress := Some(address.value);
        listenOnly := false;
      }
    }

    /** While we are a device, somebody else commands the bus. */
    method OtherControllerActs(bus: Bus)
      requires Valid() && deviceAddress.Some?
      modifies adapter`bus
      ensures Valid()
    {
      adapter.bus := bus;
    }

    method RunOne(op: Op)
      requires Valid()
      modifies this, adapter
      ensures Valid() && (old(whole) && HonestOp(op) ==> whole) && (old(placed) && ConfirmedOp(op) ==> placed)
    {
      match op
      case Write(pad, data, eoi, r) => var _ := WriteAddressed(pad, data, eoi, r);
      case Read(pad, r) => var _ := ReadAddressed(pad, r);
      case SerialPoll(pad, p) => var _ := Poll(pad, p);
      case SendCommand(bytes, standby, r) => var _ := Command(bytes, standby, r);
      case Ifc(line) => var _ := InterfaceClear(line);
      case SetAtn(on, line) => var _ := SetAtnLine(on, line);
      case WriteUnaddressed(data, eoi) => if !listenOnly { var _, _ := WriteDataBody(Nobody(adapter.bus), data, eoi); }
      case ReadUnaddressed => var _ := adapter.Record(Unaddressed([], false, adapter.bus));
      case SetControllerPad(address, register) => var _ := SetControllerAddress(address, register);
      case SetListenOnly(enable, reset, init) => var _ := EnterListenOnly(enable, reset, init);
      case SetDeviceMode(device, reset, init) => var _ := EnterDeviceMode(device, reset, init);
      case OtherController(bus) => if deviceAddress.Some? { OtherControllerActs(bus); }
      case Init(me, init) => var _ := Initialize(me, init);
    }

    /**
     Any operations in any order, any of them failing anywhere: as long as every reply the code
     took for success was whole, the cache agrees with the bus and every data phase was safe; as
     long as every write of the address register was confirmed, the chip is where it should be.
     */
    method RunAll(ops: seq<Op>)
      requires Valid()
      modifies this, adapter
      ensures Valid()
      ensures old(whole) && (forall i :: 0 <= i < |ops| ==> HonestOp(ops[i])) ==> whole
      ensures old(placed) && (forall i :: 0 <= i < |ops| ==> ConfirmedOp(ops[i])) ==> placed
    {
      for i := 0 to |ops|
        invariant Valid()
        invariant old(whole) && (forall j :: 0 <= j < i ==> HonestOp(ops[j])) ==> whole
        invariant old(placed) && (forall j :: 0 <= j < i ==> ConfirmedOp(ops[j])) ==> placed
      {
        RunOne(ops[i]);
      }
    }
  }

  lemma {:induction false} StaysRefused(b: Bus, bytes: seq<byte>, ts: nat -> Transfer, k: nat, n: nat)
    requires k <= n && !Transfers(b, bytes, ts, k).1
    ensures Transfers(b, bytes, ts, n) == Transfers(b, bytes, ts, k)
  {
    if k < n {
      StaysRefused(b, bytes, ts, k, n - 1);
    }
  }

  /** The bus when a poll comes to its restore. */
  function Polled(b: Bus, me: Pad, pad: Pad, p: PollReplies): Bus {
    Driven(Commanding(b, PollAddressing(me, pad), false, p.enable).0, false, p.standby.done)
  }

  lemma HonestPollRestores(b: Bus, me: Pad, pad: Pad, p: PollReplies)
    ensures var (after, restored) := Commanding(Polled(b, me, pad, p), POLL_RESTORE, false, p.restore);
            restored && HonestReplies(p.restore) ==>
              && !after.serialPoll && after.talker.None?
              && (Commanding(b, PollAddressing(me, pad), false, p.enable).1 && HonestReplies(p.enable) ==> after.listeners == {me})
  {
    if Commanding(b, PollAddressing(me, pad), false, p.enable).1 && HonestReplies(p.enable) {
      HonestSuccessIsWhole(b, PollAddressing(me, pad), false, p.enable);
      PollAddressed(b, me, pad);
    }
    var polled := Polled(b, me, pad, p);
    if HonestReplies(p.restore) && Commanding(polled, POLL_RESTORE, false, p.restore).1 {
      HonestSuccessIsWhole(polled, POLL_RESTORE, false, p.restore);
      PollRestored(polled);
    }
  }

  /** Bring-up gets as far as its priming write. */
  predicate Primes(init: InitReplies) { init.ready && init.setup.ok && init.ifc.Heard? && init.ren }

  function PrimedBus(pad: Pad, init: InitReplies): Bus {
    Commanding(if init.ifc.done then Cleared(init.setup.bus) else init.setup.bus, [UNL, TalkAddress(pad)], false, init.address).0
  }

  /** What the backend makes of a reply to a command transfer is what the status block says of it. */
  lemma ReplyReadAs(buf: seq<byte>, len: nat, residue: nat)
    requires |buf| >= 8 && residue <= len && residue < 0x1_0000
    requires NiFraming.Word(buf[4], buf[5]) == (0x1_0000 - residue) % 0x1_0000
    ensures NiFraming.Transferred(buf, len).Some? <==> Accepted(Reply(buf[3], residue))
    ensures Accepted(Reply(buf[3], residue)) ==> NiFraming.Transferred(buf, len).value == Reached(len, Reply(buf[3], residue))
  {
    NiFraming.ResidueReported(buf, len, residue);
  }

  // ---- replies the code takes for success that were not whole ----

  /** An aborted transfer of which nothing was sent, answered like everything else. */
  function ShortReplies(residue: nat): CommandReplies {
    CommandReplies(Heard(true), (k: nat) => Reply(1, residue), Heard(true))
  }

  lemma ShortOutcome(b: Bus, bytes: seq<byte>, standby: bool)
    requires 0 < |bytes| <= MAX_COMMAND_LEN
    ensures Commanding(b, bytes, standby, ShortReplies(|bytes|)) == (b.(atn := !standby), true)
  {
    var r := ShortReplies(|bytes|);
    assert Rounds(bytes) == 1 && ChunkAt(bytes, 0) == bytes;
    assert Transfers(b.(atn := true), bytes, r.transfers, 0) == (b.(atn := true), true);
    assert Transfers(b.(atn := true), bytes, r.transfers, 1) == (b.(atn := true), true);
  }

  /** Everything sent and answered. */
  const WHOLE_REPLIES := CommandReplies(Heard(true), (k: nat) => Reply(0, 0), Heard(true))

  lemma WholeOutcome(b: Bus, bytes: seq<byte>, standby: bool)
    requires 0 < |bytes| <= MAX_COMMAND_LEN
    ensures Commanding(b, bytes, standby, WHOLE_REPLIES) == (Commanded(b, bytes, standby), true)
  {
    var r := WHOLE_REPLIES;
    assert Rounds(bytes) == 1 && ChunkAt(bytes, 0) == bytes;
    assert Transfers(b.(atn := true), bytes, r.transfers, 0).1;
    assert Transfers(b.(atn := true), bytes, r.transfers, 1).1;
    HonestSuccessIsWhole(b, bytes, standby, r);
  }

  /** A read remembers an addressing that never reached the bus, so the next read skips it. */
  method WrongCache() returns (backend: NiUsbHs)
    ensures backend.readAddressing == Some(ReadAddressing(Some(7), 0)) && !backend.adapter.bus.atn
    ensures backend.adapter.bus.listeners == {} && backend.adapter.bus.talker.None?
  {
    var a := new Adapter(Bus(None, {}, true, false));
    backend := new NiUsbHs(a);
    ShortOutcome(a.bus, ReadAddressingBytes(0, Some(7)), true);
    var _ := backend.ReadAddressed(7, ShortReplies(3));
  }

  /** A write to 7 starts its data phase with 5 listening. */
  method WrongListener() returns (backend: NiUsbHs)
    ensures exists a :: a in backend.adapter.acts && a.WriteTo? && a.pad == 7 && a.bus.listeners == {5}
  {
    var adapter := new Adapter(Bus(Some(0), {5}, false, false));
    backend := new NiUsbHs(adapter);
    ShortOutcome(adapter.bus, WriteAddressing(0, 7), true);
    ghost var pieces := Pieces(Instrument(0, 7, Bus(Some(0), {5}, false, false)), [1], true);
    var _ := backend.WriteAddressed(7, [1], true, ShortReplies(3));
    assert backend.adapter.acts[1] == pieces[0];
  }

  /** A poll returns a status and leaves the bus in serial-poll mode. */
  method StuckPoll() returns (backend: NiUsbHs, o: PollOutcome)
    ensures o.Status? && backend.adapter.bus.serialPoll && backend.adapter.bus.talker == Some(7)
  {
    var a := new Adapter(Bus(None, {}, false, false));
    backend := new NiUsbHs(a);
    var p := PollReplies(WHOLE_REPLIES, Confirmed, Heard(true), true, Confirmed, ShortReplies(2));
    WholeOutcome(a.bus, PollAddressing(0, 7), false);
    PollAddressed(a.bus, 0, 7);
    ShortOutcome(Polled(a.bus, 0, 7, p), POLL_RESTORE, false);
    o := backend.Poll(7, p);
  }

  /** Bring-up primes with 5 listening: IFC was answered and did not happen, and UNL did not get out. */
  method PrimedListener() returns (backend: NiUsbHs)
    ensures exists b :: Priming(b) in backend.adapter.acts && b.listeners == {5}
  {
    var b := Bus(None, {5}, false, false);
    var a := new Adapter(b);
    backend := new NiUsbHs(a);
    var init := InitReplies(true, Reset(true, b, true, 0), Heard(false), true, ShortReplies(2), true);
    ShortOutcome(b, [UNL, TalkAddress(0)], false);
    var _ := backend.Initialize(0, init);
    assert Priming(backend.adapter.bus) in backend.adapter.acts;
  }

  /** A new controller address takes effect without being confirmed: the cache still names the old one, where the chip no longer is. */
  method MovedChip() returns (backend: NiUsbHs)
    ensures backend.readAddressing == Some(ReadAddressing(Some(7), 0)) && backend.myPad == 0 && backend.adapter.address == 9
    ensures backend.adapter.bus.listeners == {0}
  {
    var b := Bus(None, {}, false, false);
    var a := new Adapter(b);
    backend := new NiUsbHs(a);
    var bytes := ReadAddressingBytes(0, Some(7));
    WholeOutcome(b, bytes, true);
    ReadAddressesExactlyUs(b, 0, Some(7));
    var o := backend.ReadAddressed(7, WHOLE_REPLIES);
    assert backend.readAddressing == Some(ReadAddressing(Some(7), 0));
    assert a.bus == Commanded(b, bytes, true);
    var ok := backend.SetControllerAddress(9, Unconfirmed(true));
  }

  // ---- what a write puts on the wire ----

  datatype Target = Nobody(bus: Bus) | Instrument(me: Pad, pad: Pad, bus: Bus)

  function Piece(target: Target, bytes: seq<byte>, eoi: bool): Act {
    match target
    case Nobody(bus) => Unaddressed(bytes, eoi, bus)
    case Instrument(me, pad, bus) => WriteTo(me, pad, bytes, eoi, bus)
  }

  /** The transfers of one write, in order; an empty write is one empty transfer. */
  function Pieces(target: Target, data: seq<byte>, eoi: bool): seq<Act> {
    if |data| <= MAX_TRANSFER_LEN then [Piece(target, data, eoi)]
    else [Piece(target, data[..MAX_TRANSFER_LEN], false)] + Pieces(target, data[MAX_TRANSFER_LEN..], eoi)
  }

  function Payload(acts: seq<Act>): seq<byte> {
    if acts == [] then [] else (if acts[0].WriteTo? || acts[0].Unaddressed? then acts[0].bytes else []) + Payload(acts[1..])
  }

  lemma FirstPiece(target: Target, data: seq<byte>, eoi: bool)
    ensures var n := Min(|data|, MAX_TRANSFER_LEN);
            var ps := Pieces(target, data, eoi);
            && ps[0] == Piece(target, data[..n], eoi && n == |data|)
            && (if n == |data| then |ps| == 1 else |ps| > 1 && ps[1..] == Pieces(target, data[n..], eoi))
  {
    assert data[..|data|] == data;
    var rest := if |data| <= MAX_TRANSFER_LEN then [] else Pieces(target, data[MAX_TRANSFER_LEN..], eoi);
    assert Pieces(target, data, eoi)[1..] == rest;
  }

  /** Piece `k`, where the pieces from there on are those of `rest`. */
  lemma NextPiece(target: Target, pieces: seq<Act>, rest: seq<byte>, eoi: bool, k: nat)
    requires k < |pieces| && pieces[k..] == Pieces(target, rest, eoi)
    ensures var n := Min(|rest|, MAX_TRANSFER_LEN);
            && pieces[..k] + [Piece(target, rest[..n], eoi && n == |rest|)] == pieces[..k + 1]
            && (n == |rest| ==> k + 1 == |pieces|)
            && (n < |rest| ==> k + 1 < |pieces| && pieces[k + 1..] == Pieces(target, rest[n..], eoi))
  {
    FirstPiece(target, rest, eoi);
    assert pieces[k] == pieces[k..][0] && pieces[k + 1..] == pieces[k..][1..];
  }

  lemma {:induction false} PiecesAreSafe(target: Target, data: seq<byte>, eoi: bool)
    requires SafePhase(Piece(target, [], eoi))
    ensures forall a :: a in Pieces(target, data, eoi) ==> SafePhase(a)
  {
    if |data| > MAX_TRANSFER_LEN {
      PiecesAreSafe(target, data[MAX_TRANSFER_LEN..], eoi);
    }
  }

  /** They carry the data in order, each within the adapter's limit, with EOI on the last at most. */
  lemma {:induction false} PiecesCarryTheData(target: Target, data: seq<byte>, eoi: bool)
    ensures var ps := Pieces(target, data, eoi);
            && ps != []
            && Payload(ps) == data
            && forall k :: 0 <= k < |ps| ==>
                 && (ps[k].WriteTo? || ps[k].Unaddressed?)
                 && |ps[k].bytes| <= MAX_TRANSFER_LEN
                 && ps[k] == Piece(target, ps[k].bytes, eoi && k == |ps| - 1)
  {
    var ps := Pieces(target, data, eoi);
    if |data| <= MAX_TRANSFER_LEN {
      assert ps[1..] == [];
    } else {
      var rest := Pieces(target, data[MAX_TRANSFER_LEN..], eoi);
      PiecesCarryTheData(target, data[MAX_TRANSFER_LEN..], eoi);
      assert ps[1..] == rest;
      assert data[..MAX_TRANSFER_LEN] + data[MAX_TRANSFER_LEN..] == data;
      assert forall k :: 1 <= k < |ps| ==> ps[k] == rest[k - 1];
    }
  }

  predicate Reaches(b: Bus, me: Pad, pad: Pad) { b.listeners == {pad} && b.talker == Some(me) && !b.atn }

  /** A data phase of a message, addressed or not, that reaches the target and nobody else. */
  predicate ReachesOnly(a: Act, me: Pad, pad: Pad) { a.WriteTo? || a.Unaddressed? ==> Reaches(a.bus, me, pad) }

  lemma PiecesReach(target: Target, data: seq<byte>, eoi: bool, me: Pad, pad: Pad)
    ensures Reaches(target.bus, me, pad) ==> forall a :: a in Pieces(target, data, eoi) ==> ReachesOnly(a, me, pad)
  {
    PiecesCarryTheData(target, data, eoi);
    var ps := Pieces(target, data, eoi);
    forall a | a in ps ensures a == Piece(target, a.bytes, a.eoi) {
      var k :| 0 <= k < |ps| && ps[k] == a;
    }
  }
}
