/**
 Firewall disarm reports (src/chainremote_firewall.rs with the report and acknowledgement in
 `send_heartbeat` of src/chainremote_heartbeat.rs): a watcher thread raises a flag, the heartbeat thread
 looks at it, reports it, and puts it down once the report has succeeded.
 */
module Firewall {
  import opened Options

  /** A beat under way: whether it carries the flag, and whether the panel has received it. */
  datatype Flight = Flight(flagged: bool, received: bool)

  /** `disarms`, `acked`, `counted` and `lost` record history: disarms that happened, flagged beats the
      agent saw succeed, flagged beats the panel counted, and those among them whose reply was lost. */
  datatype State = State(pending: bool, flight: Option<Flight>,
                         disarms: nat, acked: nat, counted: nat, lost: nat)

  const INIT := State(false, None, 0, 0, 0, 0)

  datatype Event = Disarm | Peek(regular: bool) | Received | Succeeds | Fails

  predicate Enabled(s: State, e: Event) {
    match e
    case Disarm => true
    case Peek(_) => s.flight.None?
    case Received => s.flight.Some? && !s.flight.value.received
    case Succeeds => s.flight.Some? && s.flight.value.received
    case Fails => s.flight.Some?
  }

  function Next(s: State, e: Event): State
    requires Enabled(s, e)
  {
    match e
    case Disarm => s.(pending := true, disarms := s.disarms + 1)
    case Peek(regular) => s.(flight := Some(Flight(regular && s.pending, false)))
    case Received =>
      var flagged := s.flight.value.flagged;
      s.(flight := Some(Flight(flagged, true)), counted := s.counted + if flagged then 1 else 0)
    case Succeeds =>
      var flagged := s.flight.value.flagged;
      s.(flight := None, pending := s.pending && !flagged, acked := s.acked + if flagged then 1 else 0)
    case Fails =>
      var f := s.flight.value;
      s.(flight := None, lost := s.lost + if f.flagged && f.received then 1 else 0)
  }

  predicate Legal(s: State, run: seq<Event>)
    decreases |run|
  {
    run == [] || (Enabled(s, run[0]) && Legal(Next(s, run[0]), run[1..]))
  }

  function After(s: State, run: seq<Event>): State
    requires Legal(s, run)
    decreases |run|
  {
    if run == [] then s else After(Next(s, run[0]), run[1..])
  }

  predicate Inv(s: State) {
    && s.acked + (if s.pending then 1 else 0) <= s.disarms
    && (s.flight.Some? && s.flight.value.flagged ==> s.pending)
    && s.counted == s.acked + s.lost
         + if s.flight.Some? && s.flight.value.flagged && s.flight.value.received then 1 else 0
  }

  lemma {:induction false} InvAfter(s: State, run: seq<Event>)
    requires Inv(s) && Legal(s, run)
    ensures Inv(After(s, run))
    decreases |run|
  {
    if run != [] {
      InvAfter(Next(s, run[0]), run[1..]);
    }
  }

  /** Main result: under every interleaving the successful reports, and one more if a report is still
      due, never exceed the disarms; the panel counts too many only where replies were lost. */
  lemma {:induction false} ReportsNeverExceedDisarms(run: seq<Event>)
    requires Legal(INIT, run)
    ensures var s := After(INIT, run);
      && s.acked + (if s.pending then 1 else 0) <= s.disarms
      && s.counted <= s.disarms + s.lost
  {
    InvAfter(INIT, run);
  }

  /** Main result: a disarm that lands with no beat under way stays pending, through any number of failed
      beats and further disarms, until a beat that carries it succeeds. */
  lemma {:induction false} PendingUntilReported(s: State, run: seq<Event>)
    requires s.pending && Legal(s, run)
    ensures After(s, run).acked >= s.acked
    ensures After(s, run).pending || After(s, run).acked > s.acked
    decreases |run|
  {
    if run != [] {
      var n := Next(s, run[0]);
      if n.pending {
        PendingUntilReported(n, run[1..]);
      } else {
        AckedGrows(n, run[1..]);
      }
    }
  }

  lemma {:induction false} AckedGrows(s: State, run: seq<Event>)
    requires Legal(s, run)
    ensures After(s, run).acked >= s.acked
    decreases |run|
  {
    if run != [] {
      AckedGrows(Next(s, run[0]), run[1..]);
    }
  }

  /** One disarm and one regular beat, with no beat under way before. The report counts once on both sides;
      if its reply is lost the panel has counted it and it is due again, and if the panel never gets it, it
      is only due again. */
  lemma {:induction false} OneDisarmReported(s: State)
    requires s.flight.None?
    ensures var run := [Disarm, Peek(true), Received, Succeeds];
      Legal(s, run) && After(s, run) ==
        s.(pending := false, disarms := s.disarms + 1, acked := s.acked + 1, counted := s.counted + 1)
    ensures var run := [Disarm, Peek(true), Received, Fails];
      Legal(s, run) && After(s, run) ==
        s.(pending := true, disarms := s.disarms + 1, counted := s.counted + 1, lost := s.lost + 1)
    ensures var run := [Disarm, Peek(true), Fails];
      Legal(s, run) && After(s, run) == s.(pending := true, disarms := s.disarms + 1)
    ensures var run := [Disarm, Peek(false), Received, Succeeds];
      Legal(s, run) && After(s, run) == s.(pending := true, disarms := s.disarms + 1)
  {
    var up := Next(s, Disarm);
    var sent, plain := Next(up, Peek(true)), Next(up, Peek(false));
    Tail(s, Disarm, [Peek(true), Received, Succeeds]);
    Tail(up, Peek(true), [Received, Succeeds]);
    Tail(sent, Received, [Succeeds]);
    Tail(Next(sent, Received), Succeeds, []);
    Tail(s, Disarm, [Peek(true), Received, Fails]);
    Tail(up, Peek(true), [Received, Fails]);
    Tail(sent, Received, [Fails]);
    Tail(Next(sent, Received), Fails, []);
    Tail(s, Disarm, [Peek(true), Fails]);
    Tail(up, Peek(true), [Fails]);
    Tail(sent, Fails, []);
    Tail(s, Disarm, [Peek(false), Received, Succeeds]);
    Tail(up, Peek(false), [Received, Succeeds]);
    Tail(plain, Received, [Succeeds]);
    Tail(Next(plain, Received), Succeeds, []);
  }

  lemma {:induction false} Tail(s: State, e: Event, rest: seq<Event>)
    requires Enabled(s, e)
    ensures Legal(s, [e] + rest) <==> Legal(Next(s, e), rest)
    ensures Legal(Next(s, e), rest) ==> After(s, [e] + rest) == After(Next(s, e), rest)
  {
    assert ([e] + rest)[1..] == rest;
  }

  /** The watcher keeps its flag up while a beat is under way, whatever it does meanwhile. */
  lemma {:induction false} InFlightDisarms(s: State, n: nat)
    requires s.flight.Some? && s.flight.value.received
    requires s.flight.value.flagged ==> s.pending
    ensures var run := seq(n, i => Disarm) + [Succeeds];
      Legal(s, run) && After(s, run).flight.None?
      && (After(s, run).pending <==> !s.flight.value.flagged && (s.pending || n > 0))
      && After(s, run).disarms == s.disarms + n
      && After(s, run).acked == s.acked + if s.flight.value.flagged then 1 else 0
    decreases n
  {
    var run := seq(n, i => Disarm) + [Succeeds];
    if n == 0 {
      assert run == [Succeeds];
    } else {
      assert run[0] == Disarm && run[1..] == seq(n - 1, i => Disarm) + [Succeeds];
      InFlightDisarms(Next(s, Disarm), n - 1);
    }
  }

  /** A disarm that lands while a beat is under way that succeeds is never reported on its own exactly
      when that beat already carried the flag: the acknowledgement then wipes out both. */
  lemma {:induction false} LandingInFlightLostIff(s: State)
    requires Inv(s) && s.flight.Some? && s.flight.value.received
    ensures var run := [Disarm, Succeeds];
      Legal(s, run) && (!After(s, run).pending <==> s.flight.value.flagged)
  {
  }

  // ---------------------------------------------------------------- the flags themselves

  /** The three flags, and for the proof alone the state of the protocol they are a part of. */
  class Flags {
    var control: bool
    var disarmedPending: bool
    var controlCache: string
    ghost var protocol: State

    ghost predicate Valid()
      reads this
    {
      protocol.pending == disarmedPending && Inv(protocol)
    }

    /** A start of the service: the watcher is armed from the cached state at once. */
    constructor (controlCache: string)
      ensures this.controlCache == controlCache && !disarmedPending
      ensures control <==> controlCache == "Y"
      ensures Valid() && protocol == INIT
    {
      this.controlCache := controlCache;
      disarmedPending := false;
      control := controlCache == "Y";
      protocol := INIT;
    }

    /** After any reply, a restart comes up with the state that reply asked for. */
    method SetControl(on: bool)
      requires Valid()
      modifies this`control, this`controlCache
      ensures Valid()
      ensures control == on && (controlCache == "Y" <==> on)
      ensures controlCache == "Y" || controlCache == "N"
    {
      control := on;
      var want := if on then "Y" else "N";
      if controlCache != want {
        controlCache := want;
      }
    }

    /** What a beat carries: beats with a cleanup result never carry the flag. */
    method PeekForBeat(regular: bool) returns (flagged: bool)
      requires Valid() && Enabled(protocol, Peek(regular))
      modifies this`protocol
      ensures Valid() && protocol == Next(old(protocol), Peek(regular))
      ensures flagged == (regular && disarmedPending) && protocol.flight == Some(Flight(flagged, false))
    {
      flagged := false;
      if regular {
        flagged := disarmedPending;
      }
      protocol := Next(protocol, Peek(regular));
    }

    /** A beat has succeeded: the flag is put down if that beat carried it. */
    method Acknowledge(flagged: bool)
      requires Valid() && protocol.flight == Some(Flight(flagged, true))
      modifies this`disarmedPending, this`protocol
      ensures Valid() && protocol == Next(old(protocol), Succeeds)
      ensures disarmedPending == (old(disarmedPending) && !flagged)
    {
      if flagged {
        disarmedPending := false;
      }
      protocol := Next(protocol, Succeeds);
    }

    /** What the agent does not see: the panel receives the beat under way, or the beat fails. */
    ghost method Elsewhere(e: Event)
      requires Valid() && (e.Received? || e.Fails?) && Enabled(protocol, e)
      modifies this`protocol
      ensures Valid() && protocol == Next(old(protocol), e)
    {
      protocol := Next(protocol, e);
    }

    /** One round of the watcher. `enabled` is what the registry says, `netshOk` whether netsh worked. */
    method WatchOnce(enabled: Option<bool>, netshOk: bool) returns (disarmed: bool)
      requires Valid()
      modifies this`disarmedPending, this`protocol
      ensures disarmed <==> control && enabled == Some(true) && netshOk
      ensures Valid() && protocol == if disarmed then Next(old(protocol), Disarm) else old(protocol)
    {
      disarmed := false;
      if !control {
        return;
      }
      if enabled == Some(true) {
        if netshOk {
          disarmedPending := true;
          protocol := Next(protocol, Disarm);
          disarmed := true;
        }
      }
    }
  }
}
