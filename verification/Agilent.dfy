/**
 The Agilent 82357 backend, as far as addressing goes. It always names itself as address 0, and
 its firmware raises ATN itself.
 */
module Agilent {
  import opened Common
  import opened Bus488
  import opened BusAdapter

  datatype PollOutcome = NotStarted | NoStatus | Status

  /**
   A command transfer: not submitted whole; stalled, with a pulse of IFC that works or not; or
   answered with a count of the bytes sent, which nobody looks at.
   */
  datatype Answer = NotSubmitted(reached: nat) | Stalled(reached: nat, ifc: bool) | Counted(count: nat)

  function Reached(bytes: seq<byte>, a: Answer): nat {
    Min(if a.Counted? then a.count else a.reached, |bytes|)
  }

  /** The bus a command transfer leaves, recovery included. */
  function After(b: Bus, bytes: seq<byte>, a: Answer): Bus {
    var sent := Commands(b, bytes[..Reached(bytes, a)]);
    if a.Stalled? && a.ifc then Cleared(sent) else sent
  }

  /** A transfer that is taken for success sent everything. */
  predicate Honest(bytes: seq<byte>, a: Answer) { a.Counted? ==> a.count >= |bytes| }

  /** A poll's read: a status byte, an answer without one, or a failure that ends in recovery. */
  datatype PollRead = StatusByte | Empty | Broken(ifc: bool)

  datatype PollAnswers = PollAnswers(enable: Answer, armed: bool, read: PollRead, restore: Answer)

  class GpibController {
    const adapter: Adapter
    var listenOnly: bool
    ghost var whole: bool  // every command taken for success so far was sent whole

    constructor (a: Adapter)
      requires a.acts == []
      ensures adapter == a && Valid() && whole && !listenOnly
    {
      adapter := a;
      listenOnly, whole := false, true;
    }

    /** As long as every command taken for success was whole, every addressed write went to exactly its instrument. */
    ghost predicate Valid() reads this, adapter {
      whole ==> forall a :: a in adapter.acts && a.WriteTo? ==> a.bus.listeners == {a.pad} && a.bus.talker == Some(a.me)
    }

    /** A stall ends in recovery, which may or may not reach the bus. The count in the answer is dropped. */
    method SendCommandBytes(bytes: seq<byte>, a: Answer) returns (ok: bool)
      requires Valid()
      modifies this`whole, adapter
      ensures Valid() && (ok <==> a.Counted?)
      ensures adapter.bus == After(old(adapter.bus), bytes, a)
      ensures adapter.acts == old(adapter.acts) + [Sent(bytes)] + if a.Stalled? then [Recovered] else []
      ensures whole == (old(whole) && Honest(bytes, a))
    {
      whole := whole && Honest(bytes, a);
      adapter.acts := adapter.acts + [Sent(bytes)];
      adapter.bus := Commands(adapter.bus, bytes[..Reached(bytes, a)]);
      if a.Stalled? {
        Recover(a.ifc);
      }
      ok := a.Counted?;
    }

    /** Abort, drain and pulse IFC, each best effort. */
    method Recover(ifc: bool)
      requires Valid()
      modifies adapter
      ensures Valid() && adapter.acts == old(adapter.acts) + [Recovered]
      ensures adapter.bus == if ifc then Cleared(old(adapter.bus)) else old(adapter.bus)
    {
      adapter.acts := adapter.acts + [Recovered];
      if ifc { adapter.bus := Cleared(adapter.bus); }
    }

    /** The data phase starts on the bus the accepted command left; a stalled data phase ends in recovery. */
    method Write(pad: Pad, data: seq<byte>, eoi: bool, a: Answer, sent: Answer) returns (ok: bool)
      requires Valid()
      modifies this`whole, adapter
      ensures Valid() && (old(whole) && Honest(WriteAddressing(0, pad), a) ==> whole)
      ensures listenOnly ==> !ok && adapter.acts == old(adapter.acts) && adapter.bus == old(adapter.bus)
      ensures !listenOnly ==>
                var addressed := After(old(adapter.bus), WriteAddressing(0, pad), a);
                && (ok <==> a.Counted? && sent.Counted?)
                && adapter.acts == old(adapter.acts) + [Sent(WriteAddressing(0, pad))]
                     + (if a.Stalled? then [Recovered] else if a.Counted? then [WriteTo(0, pad, data, eoi, addressed)] else [])
                     + (if a.Counted? && sent.Stalled? then [Recovered] else [])
    {
      if listenOnly {
        return false;
      }
      ok := SendCommandBytes(WriteAddressing(0, pad), a);
      if !ok {
        return;
      }
      WriteAddressedIff(old(adapter.bus), pad, a.count);
      adapter.acts := adapter.acts + [WriteTo(0, pad, data, eoi, adapter.bus)];
      if sent.Stalled? {
        Recover(sent.ifc);
      }
      ok := sent.Counted?;
    }

    /** Serial poll: SPD and UNT are attempted on success and on failure alike, after recovery on failure. */
    method SerialPoll(pad: Pad, p: PollAnswers) returns (o: PollOutcome)
      requires Valid()
      modifies this`whole, adapter
      ensures Valid()
      ensures o.NotStarted? <==> !p.enable.Counted? || !p.armed
      ensures o.Status? <==> !o.NotStarted? && p.read.StatusByte? && p.restore.Counted?
      ensures !o.NotStarted? ==>
                && adapter.bus == After(Polled(old(adapter.bus), pad, p), POLL_RESTORE, p.restore)
                && adapter.acts == old(adapter.acts) + [Sent(PollAddressing(0, pad))] + (if p.read.Broken? then [Recovered] else [])
                     + [Sent(POLL_RESTORE)] + (if p.restore.Stalled? then [Recovered] else [])
      ensures o.Status? && Honest(POLL_RESTORE, p.restore) ==> !adapter.bus.serialPoll && adapter.bus.talker.None?
    {
      var enabled := SendCommandBytes(PollAddressing(0, pad), p.enable);
      if !enabled || !p.armed {
        return NotStarted;
      }
      if p.read.Broken? {
        Recover(p.read.ifc);
      }
      ghost var polled := adapter.bus;
      var restored := SendCommandBytes(POLL_RESTORE, p.restore);
      if restored {
        PollRestoredIff(polled, p.restore.count);
      }
      return if p.read.StatusByte? && restored then Status else NoStatus;
    }
  }

  /** The bus when a poll comes to its restore. */
  function Polled(b: Bus, pad: Pad, p: PollAnswers): Bus {
    var enabled := After(b, PollAddressing(0, pad), p.enable);
    if p.read.Broken? && p.read.ifc then Cleared(enabled) else enabled
  }

  // ---- exactly when a command that was taken for success did its work ----

  /** Exactly the target listens, whatever the bus was, unless bytes were left over that were needed. */
  lemma WriteAddressedIff(b: Bus, pad: Pad, count: nat)
    ensures var after, n := After(b, WriteAddressing(0, pad), Counted(count)), Min(count, 3);
            && (after.listeners == {pad} <==> n == 3 || (n == 0 && b.listeners == {pad}))
            && (after.listeners == {pad} && after.talker == Some(0) <==> n == 3 || (n == 0 && b.listeners == {pad} && b.talker == Some(0)))
  {
    var cs := WriteAddressing(0, pad);
    assert cs[..0] == [] && cs[..1] == [UNL] && cs[..2] == [UNL, TalkAddress(0)] && cs[..3] == cs;
    CommandsOfTwo(b, UNL, TalkAddress(0));
    CommandsOfThree(b, UNL, TalkAddress(0), ListenAddress(pad));
  }

  lemma PollRestoredIff(b: Bus, count: nat)
    ensures var after, n := After(b, POLL_RESTORE, Counted(count)), Min(count, 2);
            (!after.serialPoll && after.talker.None? <==> n == 2 || (b.talker.None? && (n == 1 || !b.serialPoll)))
  {
    assert POLL_RESTORE[..0] == [] && POLL_RESTORE[..1] == [SPD] && POLL_RESTORE[..2] == POLL_RESTORE;
    CommandsOfTwo(b, SPD, UNT);
  }

  /** A write to 7 starts its data phase with 5 listening: the addressing was answered with a count of 0. */
  method WrongListener() returns (controller: GpibController)
    ensures exists a :: a in controller.adapter.acts && a.WriteTo? && a.pad == 7 && a.bus.listeners == {5}
  {
    var adapter := new Adapter(Bus(Some(0), {5}, false, false));
    controller := new GpibController(adapter);
    WriteAddressedIff(adapter.bus, 7, 0);
    assert WriteAddressing(0, 7)[..0] == [];
    ghost var addressed := After(adapter.bus, WriteAddressing(0, 7), Counted(0));
    var _ := controller.Write(7, [1], true, Counted(0), Counted(1));
    assert controller.adapter.acts[1] == WriteTo(0, 7, [1], true, addressed);
  }

  /** A poll returns a status and leaves the bus in serial-poll mode: the restore was answered with a count of 0. */
  method StuckPoll() returns (controller: GpibController, o: PollOutcome)
    ensures o.Status? && controller.adapter.bus.serialPoll
  {
    var adapter := new Adapter(Bus(None, {}, false, false));
    controller := new GpibController(adapter);
    var p := PollAnswers(Counted(4), true, StatusByte, Counted(0));
    var cs := PollAddressing(0, 7);
    assert cs[..4] == [UNL, SPE] + [TalkAddress(7), ListenAddress(0)];
    CommandsConcat(adapter.bus, [UNL, SPE], [TalkAddress(7), ListenAddress(0)]);
    CommandsOfTwo(adapter.bus, UNL, SPE);
    CommandsOfTwo(Commands(adapter.bus, [UNL, SPE]), TalkAddress(7), ListenAddress(0));
    PollRestoredIff(Polled(adapter.bus, 7, p), 0);
    assert POLL_RESTORE[..0] == [];
    o := controller.SerialPoll(7, p);
  }
}
