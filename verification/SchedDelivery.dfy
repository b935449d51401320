/**
 Whether a request to close the window gets through, between the agent of src/chainremote_heartbeat.rs and
 the panel, which drops a request when a report tells of a window it does not know.
 */
module SchedDelivery {
  import opened Options
  import Sched
  import opened ClosePanel
  import opened SchedClose

  predicate NoRequests(run: seq<Event>) {
    forall i :: 0 <= i < |run| ==> !run[i].Request?
  }

  // ---------------------------------------------------------------- how long a request stays queued

  /** Unless this step records a report that drops it, a request stays in the queue. */
  predicate KeptAt(s: State, e: Event) {
    e.Store? && s.exchange.Sent? && s.exchange.report.Some? ==> Keeps(s.row, s.exchange.report.value, e.hq)
  }

  lemma {:induction false} DroppedForGood(s: State, run: seq<Event>)
    requires s.row.request == "" && NoRequests(run)
    ensures After(s, run).row.request == ""
    ensures !Clearing(s) ==> var n := After(s, run);
      !Clearing(n) && n.agent.done == s.agent.done && n.handled == s.handled
    decreases |run|
  {
    if run != [] {
      DroppedForGood(Next(s, run[0]), run[1..]);
    }
  }

  lemma {:induction false} KeptStep(s: State, run: seq<Event>)
    requires run != []
    ensures (forall i :: 0 <= i < |run| ==> KeptAt(After(s, run[..i]), run[i])) <==>
      KeptAt(s, run[0]) && forall i :: 0 <= i < |run[1..]| ==> KeptAt(After(Next(s, run[0]), run[1..][..i]), run[1..][i])
  {
    var next, rest := Next(s, run[0]), run[1..];
    assert run[..0] == [];
    forall i | 0 <= i < |rest| ensures After(s, run[..i + 1]) == After(next, rest[..i]) && rest[i] == run[i + 1] {
      assert run[..i + 1][1..] == rest[..i];
    }
    if forall i :: 0 <= i < |run| ==> KeptAt(After(s, run[..i]), run[i]) {
      forall i | 0 <= i < |rest| ensures KeptAt(After(next, rest[..i]), rest[i]) {
        assert KeptAt(After(s, run[..i + 1]), run[i + 1]);
      }
      assert KeptAt(After(s, run[..0]), run[0]);
    }
    if KeptAt(s, run[0]) && forall i :: 0 <= i < |rest| ==> KeptAt(After(next, rest[..i]), rest[i]) {
      forall i | 0 <= i < |run| ensures KeptAt(After(s, run[..i]), run[i]) {
        if i > 0 {
          assert KeptAt(After(next, rest[..i - 1]), rest[i - 1]);
        }
      }
    }
  }

  /** Main result: until the dealer makes another one, a request is in the queue exactly as long as every
      report recorded was of a window whose end the panel knew already, or of an end it does not record. */
  lemma {:induction false} RequestStaysQueuedIff(s: State, run: seq<Event>)
    requires s.row.request != "" && NoRequests(run)
    ensures After(s, run).row.request == s.row.request || After(s, run).row.request == ""
    ensures After(s, run).row.request != "" <==>
      forall i :: 0 <= i < |run| ==> KeptAt(After(s, run[..i]), run[i])
    decreases |run|
  {
    if run != [] {
      var next := Next(s, run[0]);
      KeptStep(s, run);
      if next.row.request != "" {
        RequestStaysQueuedIff(next, run[1..]);
      } else {
        DroppedForGood(next, run[1..]);
      }
    }
  }

  // ---------------------------------------------------------------- one exchange

  predicate Quiet(e: Event) {
    !e.Request? && !(e.Local? && e.e.Grant?)
  }

  predicate QuietRun(run: seq<Event>) {
    forall i :: 0 <= i < |run| ==> Quiet(run[i])
  }

  predicate OnlyLocal(run: seq<Event>) {
    forall i :: 0 <= i < |run| ==> Quiet(run[i]) && (run[i].Local? || run[i].TakeJustCleared?)
  }

  /** What other threads do while the report is on its way, before the reply is filled in, and while it is
      on its way. */
  datatype Flights = Flights(up: seq<Event>, between: seq<Event>, down: seq<Event>)

  predicate LocalFlights(f: Flights) {
    OnlyLocal(f.up) && OnlyLocal(f.between) && OnlyLocal(f.down)
  }

  /** A regular exchange in which nothing is lost. */
  function Exchanged(t: nat, hq: int, f: Flights): seq<Event> {
    [Send(t, true)] + (f.up + ([Store(hq)] + (f.between + ([Reply] + (f.down + [Arrive])))))
  }

  lemma {:induction false} LocalEffect(s: State, run: seq<Event>)
    requires OnlyLocal(run)
    ensures Legal(s, run)
    ensures var n := After(s, run);
      && n == s.(agent := n.agent) && n.agent.done == s.agent.done
      && (n.agent.marker.Some? ==> s.agent.marker.Some? && n.agent.marker.value.end == s.agent.marker.value.end)
    decreases |run|
  {
    if run != [] {
      LocalEffect(Next(s, run[0]), run[1..]);
    }
  }

  /** What other threads do to the window, as operations of module `Sched`. */
  function Operations(run: seq<Event>): seq<Sched.Entry>
    decreases |run|
  {
    if run == [] then [] else
      (if run[0].Local? then [Sched.At(run[0].t, run[0].e)] else []) + Operations(run[1..])
  }

  /** While no reply arrives, the window runs as module `Sched` says, whatever the exchange does, but for the
      look each regular report takes. */
  lemma {:induction false} WindowFollowsOperations(s: State, run: seq<Event>)
    requires forall i :: 0 <= i < |run| ==> !run[i].Arrive? && !run[i].DiesWhileClosing? && !run[i].Send?
    ensures After(s, run).agent.marker == Sched.Final(s.agent.marker, Operations(run))
    decreases |run|
  {
    if run != [] {
      WindowFollowsOperations(Next(s, run[0]), run[1..]);
      if run[0].Local? {
        assert Operations(run)[1..] == Operations(run[1..]);
      } else {
        assert Operations(run) == Operations(run[1..]);
      }
    }
  }

  /** The agent does not see the exchange until the reply arrives. */
  lemma {:induction false} LocalAgent(s: State, z: State, run: seq<Event>)
    requires OnlyLocal(run) && s.agent == z.agent
    ensures After(s, run).agent == After(z, run).agent
    decreases |run|
  {
    if run != [] {
      LocalAgent(Next(s, run[0]), Next(z, run[0]), run[1..]);
    }
  }

  /** The agent as other threads leave it by the time the reply arrives. */
  function Meanwhile(s: State, t: nat, f: Flights): Agent {
    After(After(After(Next(s, Send(t, true)), f.up), f.between), f.down).agent
  }

  lemma {:induction false} ExchangeEffect(s: State, t: nat, hq: int, f: Flights)
    requires s.exchange.Idle? && LocalFlights(f)
    ensures Legal(s, Exchanged(t, hq, f))
    ensures var row := Recorded(s.row, Reported(Sched.Live(s.agent.marker, t)), hq);
      var n, a := After(s, Exchanged(t, hq, f)), Meanwhile(s, t, f);
      && n.row == row && n.exchange.Idle? && n.issued == s.issued && a.done == s.agent.done
      && (row.request == "" ==> n.agent == a && n.handled == s.handled)
      && (row.request != "" ==> n.agent == Handle(a, row.request))
    ensures var m, a := Sched.Live(s.agent.marker, t), Meanwhile(s, t, f);
      a.marker.Some? ==> m.Some? && a.marker.value.end == m.value.end
  {
    var tail3 := f.down + [Arrive];
    var tail2 := f.between + ([Reply] + tail3);
    var tail1 := f.up + ([Store(hq)] + tail2);
    var s1 := Next(s, Send(t, true));
    assert Exchanged(t, hq, f)[1..] == tail1;
    LocalEffect(s1, f.up);
    Split(s1, f.up, [Store(hq)] + tail2);
    var s2 := After(s1, f.up);
    var s3 := Next(s2, Store(hq));
    assert ([Store(hq)] + tail2)[1..] == tail2;
    LocalEffect(s3, f.between);
    Split(s3, f.between, [Reply] + tail3);
    LocalAgent(s3, s2, f.between);
    var s4 := After(s3, f.between);
    var s5 := Next(s4, Reply);
    assert ([Reply] + tail3)[1..] == tail3;
    LocalEffect(s5, f.down);
    Split(s5, f.down, [Arrive]);
    LocalAgent(s5, After(s2, f.between), f.down);
    assert [Arrive][1..] == [];
    LocalEffect(s2, f.between);
    LocalEffect(After(s2, f.between), f.down);
  }

  /** Main result: with a fresh request in the queue and a window standing, an exchange in which nothing is
      lost closes the window if and only if the panel knows of that very window, by its end, or does not
      record ends so far ahead. Otherwise the request is gone and the window is as other threads leave it;
      the panel now knows of it, so that a second request would be carried out. */
  lemma {:induction false} FirstExchangeClosesIff(s: State, v: string, t: nat, hq: int, f: Flights)
    requires s.row.request == v && v != "" && s.agent.done != v && s.exchange.Idle? && LocalFlights(f)
    requires Sched.Live(s.agent.marker, t).Some?
    ensures var n, end := After(s, Exchanged(t, hq, f)), s.agent.marker.value.end;
      var closes := s.row.openUntil == Some(end) || end > hq + MAX_AHEAD_SECS;
      && Legal(s, Exchanged(t, hq, f)) && n.exchange.Idle?
      && (n.agent.done == v <==> closes)
      && (closes ==> n.agent == Agent(None, v, true) && n.row == s.row)
      && (!closes ==> n.agent == Meanwhile(s, t, f) && n.row == Row(Some(end), ""))
  {
    ExchangeEffect(s, t, hq, f);
  }

  /** How far an exchange gets before it is lost. */
  datatype Cut = BeforeRecorded | BeforeReply | BeforeArrival

  function LostExchange(t: nat, hq: int, cut: Cut): seq<Event> {
    match cut
    case BeforeRecorded => [Send(t, true), Lost]
    case BeforeReply => [Send(t, true), Store(hq), Lost]
    case BeforeArrival => [Send(t, true), Store(hq), Reply, Lost]
  }

  /** Main result: where an exchange under a standing window is lost decides. Before its report is recorded
      it leaves no trace; after that, the panel knows the window and has dropped a request it took for one
      for another window. The agent notices nothing, and the next exchange can begin. */
  lemma {:induction false} LostExchangeEffect(s: State, t: nat, hq: int, cut: Cut)
    requires s.exchange.Idle? && Sched.Live(s.agent.marker, t).Some?
    ensures var n, end := After(s, LostExchange(t, hq, cut)), s.agent.marker.value.end;
      && Legal(s, LostExchange(t, hq, cut)) && n.exchange.Idle? && n.agent == s.agent
      && n.issued == s.issued && n.handled == s.handled
      && n.row == if cut.BeforeRecorded? || s.row.openUntil == Some(end) || end > hq + 25 * 3600 then s.row
                  else Row(Some(end), "")
  {
    var run := LostExchange(t, hq, cut);
    var sent := Next(s, Send(t, true));
    var stored := Next(sent, Store(hq));
    Unfold(s, run);
    Unfold(sent, run[1..]);
    match cut
    case BeforeRecorded =>
      assert run[1..][1..] == [];
    case BeforeReply =>
      Unfold(stored, run[1..][1..]);
      assert run[1..][1..][1..] == [];
    case BeforeArrival =>
      Unfold(stored, run[1..][1..]);
      Unfold(Next(stored, Reply), run[1..][1..][1..]);
      assert run[1..][1..][1..][1..] == [];
  }

  /** Main result: with an empty queue an exchange in which nothing is lost leaves the agent alone and tells
      the panel of the window that stands, unless its end is more than 25 hours ahead, or that there is
      none. */
  lemma {:induction false} ExchangeTeachesPanel(s: State, t: nat, hq: int, f: Flights)
    requires s.row.request == "" && s.exchange.Idle? && LocalFlights(f)
    ensures var n, m := After(s, Exchanged(t, hq, f)), s.agent.marker;
      && Legal(s, Exchanged(t, hq, f)) && n.exchange.Idle? && n.agent == Meanwhile(s, t, f)
      && (if m.None? || t >= m.value.end || t - m.value.grantedAt >= 24 * 3600 then n.row == Row(None, "")
          else if m.value.end <= hq + 25 * 3600 then n.row == Row(Some(m.value.end), "")
          else n.row == s.row)
  {
    ExchangeEffect(s, t, hq, f);
  }

  /** Main result: grant, exchange, request, exchange. Once the panel has heard of the window, the next
      request for it is carried out by the next exchange. */
  lemma {:induction false} RequestAfterReportCloses(s: State, t: nat, g: Sched.Event, t1: nat, hq1: int, f1: Flights,
                                                    v: string, t2: nat, hq2: int, f2: Flights)
    requires g.Grant? && s.row.request == "" && s.exchange.Idle? && LocalFlights(f1) && LocalFlights(f2)
    requires var w := Sched.Step(None, t, g).0.value; t1 < w.end <= hq1 + 25 * 3600 && t1 - t < 24 * 3600
    requires var n := After(Next(s, Local(t, g)), Exchanged(t1, hq1, f1));
      && Enabled(n, Request(v)) && v != s.agent.done && Sched.Live(n.agent.marker, t2).Some?
    ensures var n := After(Next(s, Local(t, g)), Exchanged(t1, hq1, f1));
      After(n, [Request(v)] + Exchanged(t2, hq2, f2)).agent == Agent(None, v, true)
  {
    var granted := Next(s, Local(t, g));
    var n := After(granted, Exchanged(t1, hq1, f1));
    ExchangeTeachesPanel(granted, t1, hq1, f1);
    ExchangeEffect(granted, t1, hq1, f1);
    assert ([Request(v)] + Exchanged(t2, hq2, f2))[1..] == Exchanged(t2, hq2, f2);
    FirstExchangeClosesIff(Next(n, Request(v)), v, t2, hq2, f2);
  }

  /** The failing case, which the heartbeat's nap was shortened for: the customer grants a window, the
      dealer cancels at once, before the panel has heard of the window, and the very report that tells the
      panel of it wipes out the request. With no further request the agent never clears for one. */
  lemma {:induction false} CancelRightAfterGrantIsDropped(s: State, t: nat, g: Sched.Event, v: string, u: nat, hq: int,
                                                          f: Flights, later: seq<Event>)
    requires g.Grant? && s.exchange.Idle? && Enabled(s, Request(v)) && s.agent.done != v
    requires LocalFlights(f) && NoRequests(later)
    requires var w := Sched.Step(None, t, g).0;
      Sched.Live(w, u) == w && s.row.openUntil != Some(w.value.end) && w.value.end <= hq + MAX_AHEAD_SECS
    ensures var asked := After(s, [Local(t, g), Request(v)]);
      var n := After(asked, Exchanged(u, hq, f));
      && Legal(s, [Local(t, g), Request(v)]) && Legal(asked, Exchanged(u, hq, f))
      && n.agent == Meanwhile(asked, u, f) && n.row.request == ""
      && After(n, later).agent.done == s.agent.done && After(n, later).row.request == ""
      && After(n, later).handled == s.handled
  {
    var run := [Local(t, g), Request(v)];
    assert run[1..] == [Request(v)] && [Request(v)][1..] == [];
    var asked := Next(Next(s, Local(t, g)), Request(v));
    assert After(s, run) == After(Next(s, Local(t, g)), run[1..]) == asked;
    FirstExchangeClosesIff(asked, v, u, hq, f);
    ExchangeEffect(asked, u, hq, f);
    DroppedForGood(After(asked, Exchanged(u, hq, f)), later);
  }

  /** After that, pressing again helps, as long as the window has not been replaced by another. */
  lemma {:induction false} PressingAgainCloses(s: State, v: string, t: nat, hq: int, f: Flights,
                                               again: string, t2: nat, hq2: int, f2: Flights)
    requires s.row.request == v && v != "" && s.agent.done != v && s.exchange.Idle?
    requires LocalFlights(f) && LocalFlights(f2) && Sched.Live(s.agent.marker, t).Some?
    requires var n := After(s, Exchanged(t, hq, f));
      && n.agent.done != v
      && Enabled(n, Request(again)) && again != n.agent.done && Sched.Live(n.agent.marker, t2).Some?
    ensures var n := After(s, Exchanged(t, hq, f));
      After(n, [Request(again)] + Exchanged(t2, hq2, f2)).agent == Agent(None, again, true)
  {
    var n := After(s, Exchanged(t, hq, f));
    FirstExchangeClosesIff(s, v, t, hq, f);
    ExchangeEffect(s, t, hq, f);
    var asked := Next(n, Request(again));
    assert ([Request(again)] + Exchanged(t2, hq2, f2))[1..] == Exchanged(t2, hq2, f2);
    FirstExchangeClosesIff(asked, again, t2, hq2, f2);
  }

  // ---------------------------------------------------------------- two exchanges settle the matter

  /** The window is closed for `v`, and nothing on its way says otherwise. */
  predicate Closed(s: State, v: string) {
    && s.agent.marker.None? && s.agent.done == v && (s.row.request == v || s.row.request == "")
    && (s.exchange.Sent? && s.exchange.report.Some? ==> s.exchange.report.value == 0)
    && (s.exchange.Replying? ==> s.exchange.request == v || s.exchange.request == "")
  }

  lemma {:induction false} ClosedAfter(s: State, v: string, run: seq<Event>)
    requires Closed(s, v) && Legal(s, run) && QuietRun(run)
    ensures Closed(After(s, run), v)
    ensures s.row == Row(None, "") ==> After(s, run).row == Row(None, "")
    decreases |run|
  {
    if run != [] {
      ClosedAfter(Next(s, run[0]), v, run[1..]);
    }
  }

  /** Main result: from a fresh request on, with no further grant or request, an exchange in which nothing
      is lost and a second one, after whatever has been lost or polled in between, leave no window, an
      empty queue and a panel that shows none, for good, if and only if the panel knew the window at the
      first, or does not record ends so far ahead. Otherwise the request is never carried out. */
  lemma {:induction false} TwoBeatsCloseForGood(s: State, v: string, t1: nat, hq1: int, f1: Flights, b: seq<Event>,
                                                t2: nat, hq2: int, f2: Flights, c: seq<Event>)
    requires s.row.request == v && v != "" && s.agent.done != v && s.exchange.Idle?
    requires Sched.Live(s.agent.marker, t1).Some?
    requires LocalFlights(f1) && LocalFlights(f2) && QuietRun(b) && QuietRun(c)
    requires Legal(s, Exchanged(t1, hq1, f1) + (b + (Exchanged(t2, hq2, f2) + c)))
    ensures var n, end := After(s, Exchanged(t1, hq1, f1) + (b + (Exchanged(t2, hq2, f2) + c))), s.agent.marker.value.end;
      if s.row.openUntil == Some(end) || end > hq1 + MAX_AHEAD_SECS
        then n.agent.marker == None && n.agent.done == v && n.row == Row(None, "")
        else n.agent.done == s.agent.done && n.row.request == "" && n.handled == s.handled
  {
    var e1, e2 := Exchanged(t1, hq1, f1), Exchanged(t2, hq2, f2);
    var end := s.agent.marker.value.end;
    Split(s, e1, b + (e2 + c));
    var s1 := After(s, e1);
    FirstExchangeClosesIff(s, v, t1, hq1, f1);
    Split(s1, b, e2 + c);
    var s2 := After(s1, b);
    Split(s2, e2, c);
    var s3 := After(s2, e2);
    if s.row.openUntil == Some(end) || end > hq1 + MAX_AHEAD_SECS {
      ClosedAfter(s1, v, b);
      assert s2.exchange.Idle? by {
        Unfold(s2, e2);
      }
      ExchangeEffect(s2, t2, hq2, f2);
      assert Closed(s3, v);
      ClosedAfter(s3, v, c);
    } else {
      assert NoRequests(b + (e2 + c));
      DroppedForGood(s1, b + (e2 + c));
      ExchangeEffect(s, t1, hq1, f1);
    }
  }
}
