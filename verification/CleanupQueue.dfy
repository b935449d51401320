/**
 The disk-cleanup command between the agent of src/chainremote_heartbeat.rs and the panel
 (chainremote-admin/lib/data/customers.ts): the panel drops a queued request when a result arrives that is
 stamped no earlier than the request was made, whichever cleanup the result is of.
 */
module CleanupQueue {
  import opened Options
  import Cleanup

  /** How the panel reads times: when a request was made, by its own clock, and when a cleanup was done, by
      the clock of the agent, if the result says. */
  datatype Times = Times(made: string -> int, finished: string -> Option<int>)

  function Stamp(times: Times, result: string, now: int): int {
    if times.finished(result).Some? then times.finished(result).value else now
  }

  predicate Drops(times: Times, queue: string, result: string, now: int) {
    queue != "" && result != "" && times.made(queue) <= Stamp(times, result, now)
  }

  /** Where a tick stands. `fetched` is the request its regular beat found in the queue, "" for none. */
  datatype Phase =
    | Resting
    | InHand(fetched: string)
    | Reporting(result: string, autoNext: bool)
    | BeforeAuto

  datatype State = State(agent: Cleanup.Saved, queue: string, phase: Phase)

  /** `Dies` is an error that ends the tick, or the end of the process, outside of a cleanup. */
  datatype Event =
    | Ask(v: string)
    | Fetch
    | Handle(text: string, crash: Cleanup.Crash)
    | Auto(c: Cleanup.Check)
    | Receive(now: int)
    | ReportLost
    | Dies

  predicate Enabled(s: State, e: Event) {
    match e
    case Ask(v) => v != ""
    case Fetch => s.phase.Resting?
    case Handle(_, _) => s.phase.InHand?
    case Auto(_) => s.phase.BeforeAuto?
    case Receive(_) => s.phase.Reporting?
    case ReportLost => s.phase.Reporting?
    case Dies => true
  }

  function Reported(s: State): Phase
    requires s.phase.Reporting?
  {
    if s.phase.autoNext then BeforeAuto else Resting
  }

  function Handled(s: State, d: Cleanup.Delivery): State {
    var report := Cleanup.ReportOn(s.agent, d);
    State(Cleanup.AfterRequest(s.agent, d), s.queue,
          if report.Some? then Reporting(report.value, true)
          else if s.agent.done == d.requestedAt then BeforeAuto else Resting)
  }

  function Next(times: Times, s: State, e: Event): State
    requires Enabled(s, e)
  {
    match e
    case Ask(v) => s.(queue := v)
    case Fetch => s.(phase := InHand(s.queue))
    case Handle(text, crash) =>
      if s.phase.fetched == "" then s.(phase := BeforeAuto)
      else Handled(s, Cleanup.Delivery(s.phase.fetched, text, crash))
    case Auto(c) =>
      State(Cleanup.AfterCheck(s.agent, c), s.queue,
            if Completes(s, e) then Reporting(c.text, false) else Resting)
    case Receive(now) =>
      s.(queue := if Drops(times, s.queue, s.phase.result, now) then "" else s.queue, phase := Reported(s))
    case ReportLost => s.(phase := Reported(s))
    case Dies => s.(phase := Resting)
  }

  /** An automatic cleanup that runs to its end. */
  predicate Completes(s: State, e: Event) {
    e.Auto? && Cleanup.AutoRuns(s.agent, e.c) && !e.c.dies
  }

  predicate Legal(times: Times, s: State, run: seq<Event>)
    decreases |run|
  {
    run == [] || (Enabled(s, run[0]) && Legal(times, Next(times, s, run[0]), run[1..]))
  }

  function After(times: Times, s: State, run: seq<Event>): State
    requires Legal(times, s, run)
    decreases |run|
  {
    if run == [] then s else After(times, Next(times, s, run[0]), run[1..])
  }

  /** A tick in full: it fetches a fresh request, runs it and reports the result, and runs the automatic
      cleanup after that, whether or not the panel gets either report; then it rests. */
  lemma {:induction false} FullTick(times: Times, s: State, text: string, c: Cleanup.Check, first: Event, second: Event)
    requires s.phase.Resting? && s.queue != "" && s.queue != s.agent.done
    requires (first.Receive? || first.ReportLost?) && (second.Receive? || second.ReportLost?)
    requires Cleanup.AutoRuns(s.agent, c) && !c.dies
    ensures var run := [Fetch, Handle(text, Cleanup.Survives), first, Auto(c), second];
      && Legal(times, s, run)
      && var n := After(times, s, run);
         && n.agent == Cleanup.AfterCheck(s.agent.(done := s.queue, result := text), c) && n.agent.done == s.queue
         && n.agent.result == c.text && n.phase == Resting
         && (first.ReportLost? && second.ReportLost? ==> n.queue == s.queue)
  {
    var run := [Fetch, Handle(text, Cleanup.Survives), first, Auto(c), second];
    var s1 := Next(times, s, Fetch);
    var s2 := Next(times, s1, Handle(text, Cleanup.Survives));
    var s3 := Next(times, s2, first);
    var s4 := Next(times, s3, Auto(c));
    Unfold(times, s, run);
    assert run[1..][1..] == run[2..] && run[2..][1..] == run[3..] && run[3..][1..] == run[4..] && run[4..][1..] == [];
    Unfold(times, s1, run[1..]);
    Unfold(times, s2, run[2..]);
    Unfold(times, s3, run[3..]);
    Unfold(times, s4, run[4..]);
  }

  /** A tick that finds nothing goes on to the automatic cleanup, and any tick may end at any point. */
  lemma {:induction false} EmptyTick(times: Times, s: State, text: string, crash: Cleanup.Crash, c: Cleanup.Check)
    requires s.queue == "" && !(Cleanup.AutoRuns(s.agent, c) && !c.dies)
    ensures Enabled(s, Dies) && Next(times, s, Dies) == s.(phase := Resting)
    ensures s.phase.Resting? ==>
      && Legal(times, s, [Fetch, Handle(text, crash), Auto(c)])
      && After(times, s, [Fetch, Handle(text, crash), Auto(c)]) == s.(agent := Cleanup.AfterCheck(s.agent, c))
    ensures forall v :: v != "" ==> Enabled(s, Ask(v)) && Next(times, s, Ask(v)) == s.(queue := v)
  {
    if s.phase.Resting? {
      var run := [Fetch, Handle(text, crash), Auto(c)];
      var s1 := Next(times, s, Fetch);
      var s2 := Next(times, s1, Handle(text, crash));
      assert run[1..][1..] == run[2..] && run[2..][1..] == [];
      Unfold(times, s, run);
      Unfold(times, s1, run[1..]);
      Unfold(times, s2, run[2..]);
    }
  }

  lemma {:induction false} Unfold(times: Times, s: State, run: seq<Event>)
    requires run != []
    ensures Legal(times, s, run) <==> Enabled(s, run[0]) && Legal(times, Next(times, s, run[0]), run[1..])
    ensures Legal(times, s, run) ==> After(times, s, run) == After(times, Next(times, s, run[0]), run[1..])
  {
  }

  predicate NoAsks(run: seq<Event>) {
    forall i :: 0 <= i < |run| ==> !run[i].Ask?
  }

  // ---------------------------------------------------------------- run before it is dropped

  /** A request `v` that the current tick, if there is one, has found in the queue. */
  predicate Served(s: State, v: string) {
    && (s.queue == v || (s.queue == "" && s.agent.done == v))
    && (s.phase.InHand? ==> s.phase.fetched == v || (s.phase.fetched == "" && s.agent.done == v))
    && (s.phase.Reporting? || s.phase.BeforeAuto? ==> s.agent.done == v)
  }

  lemma {:induction false} ServedAfter(times: Times, s: State, v: string, run: seq<Event>)
    requires Served(s, v) && v != "" && NoAsks(run) && Legal(times, s, run)
    ensures Served(After(times, s, run), v)
    decreases |run|
  {
    if run != [] {
      ServedAfter(times, Next(times, s, run[0]), v, run[1..]);
    }
  }

  /** Main result: a request that is in the queue when a tick begins is run before it is dropped, whatever
      is lost, dies or is wrong with the clocks, unless the dealer replaces it. */
  lemma {:induction false} RunBeforeDropped(times: Times, s: State, run: seq<Event>)
    requires s.phase.Resting? && s.queue != "" && NoAsks(run) && Legal(times, s, run)
    ensures var n := After(times, s, run);
      && (n.queue == s.queue || n.queue == "")
      && (n.queue == "" ==> n.agent.done == s.queue)
  {
    ServedAfter(times, s, s.queue, run);
  }

  lemma {:induction false} NeverRunAfterwards(times: Times, s: State, run: seq<Event>)
    requires s.queue == "" && !s.phase.InHand? && NoAsks(run) && Legal(times, s, run)
    ensures var n := After(times, s, run); n.queue == "" && n.agent.done == s.agent.done
    decreases |run|
  {
    if run != [] {
      if run[0].Fetch? {
        NeverRunFetched(times, Next(times, s, run[0]), run[1..]);
      } else {
        NeverRunAfterwards(times, Next(times, s, run[0]), run[1..]);
      }
    }
  }

  lemma {:induction false} NeverRunFetched(times: Times, s: State, run: seq<Event>)
    requires s.queue == "" && s.phase == InHand("") && NoAsks(run) && Legal(times, s, run)
    ensures var n := After(times, s, run); n.queue == "" && n.agent.done == s.agent.done
    decreases |run|
  {
    if run != [] {
      NeverRunAfterwards(times, Next(times, s, run[0]), run[1..]);
    }
  }

  /** The panel's code means to drop only the request that a result is of. The failing case: a click while
      the cleanup of an older request runs is dropped with its result, and never run, exactly if the click
      came no later than the result says that cleanup was done, so always when the clocks agree. */
  lemma {:induction false} ClickDuringCleanupDroppedIff(times: Times, s: State, v: string, text: string, now: int,
                                                        later: seq<Event>)
    requires s.phase.InHand? && s.phase.fetched != "" && s.phase.fetched != s.agent.done && text != ""
    requires v != "" && v != s.phase.fetched
    requires NoAsks(later) && Legal(times, s, [Ask(v), Handle(text, Cleanup.Survives), Receive(now)] + later)
    ensures Legal(times, s, [Ask(v), Handle(text, Cleanup.Survives), Receive(now)])
    ensures var n := After(times, s, [Ask(v), Handle(text, Cleanup.Survives), Receive(now)]);
      && (n.queue == "" <==> times.made(v) <= if times.finished(text).Some? then times.finished(text).value else now) && (n.queue != "" ==> n.queue == v)
      && (n.queue == "" ==> Legal(times, n, later) && After(times, n, later).agent.done == s.phase.fetched)
  {
    Three(times, s, [Ask(v), Handle(text, Cleanup.Survives), Receive(now)], later);
    var n := After(times, s, [Ask(v), Handle(text, Cleanup.Survives), Receive(now)]);
    if n.queue == "" {
      NeverRunAfterwards(times, n, later);
    }
  }

  /** So is a click between the beat and the automatic cleanup of the same tick. The automatic cleanup
      leaves the recycle bin alone, which the request was to empty. */
  lemma {:induction false} AutomaticResultDropsClickIff(times: Times, s: State, v: string, c: Cleanup.Check, now: int,
                                                        later: seq<Event>)
    requires s.phase.BeforeAuto? && Cleanup.AutoRuns(s.agent, c) && !c.dies && c.text != ""
    requires v != "" && v != s.agent.done
    requires NoAsks(later) && Legal(times, s, [Ask(v), Auto(c), Receive(now)] + later)
    ensures Legal(times, s, [Ask(v), Auto(c), Receive(now)])
    ensures var n := After(times, s, [Ask(v), Auto(c), Receive(now)]);
      && (n.queue == "" <==> times.made(v) <= if times.finished(c.text).Some? then times.finished(c.text).value else now) && (n.queue != "" ==> n.queue == v)
      && (n.queue == "" ==> Legal(times, n, later) && After(times, n, later).agent.done == s.agent.done)
  {
    Three(times, s, [Ask(v), Auto(c), Receive(now)], later);
    var n := After(times, s, [Ask(v), Auto(c), Receive(now)]);
    if n.queue == "" {
      NeverRunAfterwards(times, n, later);
    }
  }

  lemma {:induction false} Three(times: Times, s: State, run: seq<Event>, later: seq<Event>)
    requires |run| == 3 && Legal(times, s, run + later)
    ensures Legal(times, s, run)
    ensures var s1 := Next(times, s, run[0]);
      && Enabled(s1, run[1])
      && var s2 := Next(times, s1, run[1]);
         Enabled(s2, run[2]) && After(times, s, run) == Next(times, s2, run[2]) && Legal(times, Next(times, s2, run[2]), later)
  {
    var s1 := Next(times, s, run[0]);
    assert (run + later)[1..] == run[1..] + later && (run[1..] + later)[1..] == run[2..] + later;
    assert (run[2..] + later)[1..] == later && run[1..][1..] == run[2..] && run[2..][1..] == [];
    var s2 := Next(times, s1, run[1]);
    assert Legal(times, s2, run[2..] + later);
    assert Legal(times, s2, run[2..]) && After(times, s2, run[2..]) == Next(times, s2, run[2]);
    assert Legal(times, s1, run[1..]) && After(times, s1, run[1..]) == After(times, s2, run[2..]);
  }

  // ---------------------------------------------------------------- when it is dropped

  /** What a tick reports is what is saved. */
  predicate ReportsSaved(s: State) {
    s.phase.Reporting? ==> s.phase.result == s.agent.result
  }

  /** This step brings the panel a result that drops request `v`. */
  predicate BringsResult(times: Times, s: State, e: Event, v: string) {
    e.Receive? && Drops(times, v, s.agent.result, e.now)
  }

  predicate Brought(times: Times, s: State, run: seq<Event>, v: string)
    requires Legal(times, s, run)
    decreases |run|
  {
    run != [] && (BringsResult(times, s, run[0], v) || Brought(times, Next(times, s, run[0]), run[1..], v))
  }

  /** Main result: a queued request is dropped exactly by the first report that arrives while the agent has
      a result saved that is stamped no earlier than the request was made. */
  lemma {:induction false} DroppedIff(times: Times, s: State, run: seq<Event>)
    requires ReportsSaved(s) && s.queue != "" && NoAsks(run) && Legal(times, s, run)
    ensures After(times, s, run).queue == "" <==> Brought(times, s, run, s.queue)
    decreases |run|
  {
    if run != [] {
      var n := Next(times, s, run[0]);
      if n.queue == "" {
        StaysDropped(times, n, run[1..]);
      } else {
        DroppedIff(times, n, run[1..]);
      }
    }
  }

  lemma {:induction false} StaysDropped(times: Times, s: State, run: seq<Event>)
    requires s.queue == "" && NoAsks(run) && Legal(times, s, run)
    ensures After(times, s, run).queue == ""
    decreases |run|
  {
    if run != [] {
      StaysDropped(times, Next(times, s, run[0]), run[1..]);
    }
  }

  predicate NoAutoCompletes(times: Times, s: State, run: seq<Event>)
    requires Legal(times, s, run)
    decreases |run|
  {
    run == [] || (!Completes(s, run[0]) && NoAutoCompletes(times, Next(times, s, run[0]), run[1..]))
  }

  /** Main result: once a request has been handled, redeliveries drain it exactly if a report arrives and
      the saved result is stamped no earlier than the request: never if the clock of the agent was behind
      when the cleanup ended, or if it died and an older result is saved, however often it is sent again. */
  lemma {:induction false} HandledRequestDrainedIff(times: Times, s: State, run: seq<Event>)
    requires ReportsSaved(s) && s.queue != "" && s.agent.done == s.queue && NoAsks(run)
    requires s.phase.InHand? ==> s.phase.fetched == s.queue
    requires Legal(times, s, run) && NoAutoCompletes(times, s, run)
    ensures After(times, s, run).queue == "" <==>
      s.agent.result != "" && exists i ::
        && 0 <= i < |run| && run[i].Receive?
        && times.made(s.queue) <=
             if times.finished(s.agent.result).Some? then times.finished(s.agent.result).value else run[i].now
    decreases |run|
  {
    if run != [] {
      var n, rest := Next(times, s, run[0]), run[1..];
      assert forall i :: 0 <= i < |rest| ==> rest[i] == run[i + 1];
      if n.queue == "" {
        StaysDropped(times, n, rest);
        assert run[0].Receive?;
      } else {
        HandledRequestDrainedIff(times, n, rest);
        if i :| 0 <= i < |run| && run[i].Receive? && Drops(times, s.queue, s.agent.result, run[i].now) {
          assert i > 0 && rest[i - 1].Receive?;
        }
      }
    }
  }
}
