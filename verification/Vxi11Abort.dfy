/**
 The abort window of one VXI-11 link. The abort channel is another connection, so its
 device_abort may land at any await of the core call; calls on one link run one at a time.
 */
module Vxi11Abort {
  const ABORT := 23

  datatype Flags = Flags(inFlight: bool, aborted: bool, permit: bool)

  /** Bus operations test the flag between slices; the lock wait only after a notification. */
  datatype Kind = BusCall | LockWait

  /** The flags of the link, with the history the theorems speak about. */
  datatype State = State(
    flags: Flags,
    kind: Kind,
    window: nat,           // number of the latest window
    delivered: set<nat>,   // windows in which an abort arrived
    aborts: nat,           // aborts that found a call in flight
    results: map<nat, nat>)

  datatype Event =
    | Open(kind: Kind)
    | Abort
    | Poll               // the call reaches a point where it looks for an abort
    | Finish(code: nat)  // it ends for a reason of its own

  function Opened(f: Flags): Flags { f.(inFlight := true) }
  function Delivered(f: Flags): Flags { if f.inFlight then f.(aborted := true, permit := true) else f }
  function Closed(f: Flags): Flags { f.(aborted := false, inFlight := false) }

  function Step(s: State, e: Event): State {
    match e
    case Open(kind) =>
      if s.flags.inFlight then s
      else s.(flags := Opened(s.flags), kind := kind, window := s.window + 1)
    case Abort =>
      if s.flags.inFlight then
        s.(flags := Delivered(s.flags), delivered := s.delivered + {s.window}, aborts := s.aborts + 1)
      else s
    case Poll =>
      if !s.flags.inFlight || (s.kind.LockWait? && !s.flags.permit) then s
      else
        var woken := if s.kind.LockWait? then s.flags.(permit := false) else s.flags;
        if woken.aborted then s.(flags := Closed(woken), results := s.results[s.window := ABORT])
        else s.(flags := woken)
    case Finish(code) =>
      if s.flags.inFlight && code != ABORT then
        s.(flags := Closed(s.flags), results := s.results[s.window := code])
      else s
  }

  function Run(events: seq<Event>): State {
    if events == [] then State(Flags(false, false, false), BusCall, 0, {}, 0, map[])
    else Step(Run(events[..|events| - 1]), events[|events| - 1])
  }

  ghost predicate WindowOk(s: State) {
    && (s.flags.aborted ==> s.flags.inFlight && s.flags.permit)
    && (s.flags.inFlight ==> (s.flags.aborted <==> s.window in s.delivered) && s.window !in s.results)
    && (forall w :: w in s.delivered || w in s.results ==> w <= s.window)
    && (forall w :: w in s.results && s.results[w] == ABORT ==> w in s.delivered)
    && |s.delivered| <= s.aborts
  }

  lemma {:induction false} RunKeepsWindow(events: seq<Event>)
    ensures WindowOk(Run(events))
  {
    if events != [] {
      RunKeepsWindow(events[..|events| - 1]);
    }
  }

  /**
   A call that looks for an abort returns 23 exactly when one arrived inside its own window.
   In particular a permit left over from an earlier window ends no later lock wait.
   */
  lemma AbortEndsOnlyItsCall(events: seq<Event>)
    requires Run(events).flags.inFlight
    ensures var s := Run(events);
            && (s.window in s.delivered ==> Step(s, Poll) == s.(flags := Step(s, Poll).flags, results := s.results[s.window := ABORT])
                                            && !Step(s, Poll).flags.inFlight)
            && (s.window !in s.delivered ==> Step(s, Poll).flags.inFlight && Step(s, Poll).results == s.results)
  {
    RunKeepsWindow(events);
  }

  function EndedByAbort(s: State): set<nat> { set w | w in s.results && s.results[w] == ABORT }

  /** No abort is spent twice: calls ended by one never outnumber the aborts that hit a call. */
  lemma AbortsAreSpentOnce(events: seq<Event>)
    ensures var s := Run(events);
            |EndedByAbort(s)| <= |s.delivered| <= s.aborts
  {
    RunKeepsWindow(events);
    var s := Run(events);
    assert s.delivered == EndedByAbort(s) + (s.delivered - EndedByAbort(s));
  }

  /** A window's result is never overwritten by a later event. */
  lemma ResultsAreFinal(events: seq<Event>, e: Event, w: nat)
    requires w in Run(events).results
    ensures w in Run(events + [e]).results && Run(events + [e]).results[w] == Run(events).results[w]
  {
    RunKeepsWindow(events);
    assert (events + [e])[..|events|] == events;
  }

  /** The link object and the guard that opens and closes its window. */
  class Link {
    var inFlight: bool
    var aborted: bool
    var permit: bool

    function Now(): Flags reads this { Flags(inFlight, aborted, permit) }

    constructor ()
      ensures Now() == Flags(false, false, false)
    {
      inFlight, aborted, permit := false, false, false;
    }

    method OpenWindow()
      modifies this
      ensures Now() == Opened(old(Now()))
    {
      inFlight := true;
    }

    /** `aborted.swap(false)`. */
    method TakeAbort() returns (taken: bool)
      modifies this
      ensures taken <==> old(aborted)
      ensures Now() == old(Now()).(aborted := false)
    {
      taken := aborted;
      aborted := false;
    }

    /** The guard's drop. */
    method CloseWindow()
      modifies this
      ensures Now() == Closed(old(Now()))
    {
      aborted := false;
      inFlight := false;
    }

    /** device_abort for this link. */
    method AbortDispatch()
      modifies this
      ensures Now() == Delivered(old(Now()))
    {
      if inFlight {
        aborted := true;
        permit := true;
      }
    }

    /** The notified branch of device_lock's select: 23, or keep waiting. */
    method LockWaitNotified() returns (ended: bool)
      requires inFlight && permit
      modifies this
      ensures ended <==> old(aborted)
      ensures Now() == if ended then Closed(old(Now()).(permit := false)) else old(Now()).(permit := false)
    {
      permit := false;
      ended := TakeAbort();
      if ended {
        CloseWindow();
      }
    }
  }
}
