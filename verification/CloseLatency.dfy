/**
 The heartbeat loop and the close command together, over one run on one time line: how long a request to
 close the window takes. Time is seconds of sleep since the service started; `clock` gives the reading of
 the system clock at each of them and may go back.
 */
module CloseLatency {
  import opened Options
  import Sched
  import opened ClosePanel
  import opened SchedClose
  import opened SchedDelivery
  import opened Cadence

  /** What happens during a nap, and when: operations of other threads and of the loop itself, which looks
      at the window, and requests of the dealer. */
  datatype Timed = Timed(u: nat, e: Event)

  /** A nap and the tick that ends it: an exchange at `end` in which nothing is lost, recorded when the
      clock of the panel stands at `hq`, and what other threads do meanwhile. */
  datatype Round = Round(nap: seq<Timed>, end: nat, hq: int, flights: Flights)

  function Events(nap: seq<Timed>): (r: seq<Event>)
    ensures |r| == |nap|
  {
    seq(|nap|, i requires 0 <= i < |nap| => nap[i].e)
  }

  /** The state at `u`, in a nap that began in state `s`. */
  function StateAt(s: State, nap: seq<Timed>, u: nat): State
    decreases |nap|
  {
    if nap == [] || u < nap[0].u then s else StateAt(Next(s, nap[0].e), nap[1..], u)
  }

  predicate ShowsWindow(s: State, now: int) {
    Sched.Live(s.agent.marker, now).Some?
  }

  /** What a look at the window finds at each moment of the nap. */
  function Looks(s: State, nap: seq<Timed>, clock: nat -> nat): nat -> bool {
    (u: nat) => ShowsWindow(StateAt(s, nap, u), clock(u))
  }

  predicate InOrder(nap: seq<Timed>, clock: nat -> nat, start: nat, end: nat) {
    && (forall i, j :: 0 <= i < j < |nap| ==> nap[i].u <= nap[j].u)
    && forall i :: 0 <= i < |nap| ==>
         && start <= nap[i].u <= end
         && (nap[i].e.Request? || (nap[i].e.Local? && nap[i].e.t == clock(nap[i].u)))
  }

  /** From the end of one tick, in state `s` at `start`, the loop runs `r`. It takes the flag, looks at the
      window, chooses its nap by the two, and sleeps through it or until a look finds a new window. */
  ghost predicate IsRound(clock: nat -> nat, s: State, start: nat, r: Round) {
    var napping := Next(s, TakeJustCleared);
    var seen := ShowsWindow(napping, clock(start));
    && InOrder(r.nap, clock, start, r.end)
    && NapEnds(Looks(napping, r.nap, clock), seen, start, NapLength(seen, s.agent.justCleared), r.end)
    && LocalFlights(r.flights)
  }

  function Ticking(clock: nat -> nat, r: Round): seq<Event> {
    Exchanged(clock(r.end), r.hq, r.flights)
  }

  function RoundEvents(clock: nat -> nat, r: Round): seq<Event> {
    [TakeJustCleared] + (Events(r.nap) + Ticking(clock, r))
  }

  lemma {:induction false} StateAtEnd(s: State, nap: seq<Timed>, u: nat)
    requires forall i :: 0 <= i < |nap| ==> nap[i].u <= u
    ensures StateAt(s, nap, u) == After(s, Events(nap))
    decreases |nap|
  {
    if nap != [] {
      assert Events(nap)[1..] == Events(nap[1..]);
      StateAtEnd(Next(s, nap[0].e), nap[1..], u);
    }
  }

  predicate AllLocal(run: seq<Event>) {
    forall i :: 0 <= i < |run| ==> run[i].Local?
  }

  lemma {:induction false} LocalLegal(s: State, run: seq<Event>)
    requires AllLocal(run)
    ensures Legal(s, run)
    ensures var n := After(s, run); n == s.(agent := n.agent) && n.agent.done == s.agent.done
    decreases |run|
  {
    if run != [] {
      LocalLegal(Next(s, run[0]), run[1..]);
    }
  }

  /** The state right after the request, when `before` came first in the nap. */
  function Asked(s: State, before: seq<Timed>, v: string): State {
    Next(After(Next(s, TakeJustCleared), Events(before)), Request(v))
  }

  lemma {:induction false} AskedSplit(s: State, before: seq<Timed>, v: string, rest: seq<Event>)
    requires AllLocal(Events(before)) && Enabled(s, Request(v))
    ensures var asked := Asked(s, before, v);
      && asked.row == s.row.(request := v) && asked.exchange == s.exchange && asked.agent.done == s.agent.done
      && asked.handled == s.handled
      && After(Next(s, TakeJustCleared), Events(before) + ([Request(v)] + rest)) == After(asked, rest)
      && (Legal(Next(s, TakeJustCleared), Events(before) + ([Request(v)] + rest)) <==> Legal(asked, rest))
  {
    var napping := Next(s, TakeJustCleared);
    LocalLegal(napping, Events(before));
    Split(napping, Events(before), [Request(v)] + rest);
    assert ([Request(v)] + rest)[1..] == rest;
  }

  /** A round in whose nap, at `a`, request `v` is queued while a window stands and stays. */
  ghost predicate AsksInNap(clock: nat -> nat, s: State, start: nat, r: Round,
                            before: seq<Timed>, v: string, a: nat, later: seq<Timed>) {
    && IsRound(clock, s, start, r) && r.nap == before + ([Timed(a, Request(v))] + later)
    && s.exchange.Idle? && Enabled(s, Request(v)) && s.agent.done != v
    && AllLocal(Events(before)) && OnlyLocal(Events(later))
    && forall u: nat :: a <= u <= r.end ==> Looks(Next(s, TakeJustCleared), r.nap, clock)(u)
  }

  /** At its tick the panel knows the window that stands, or does not record ends so far ahead. */
  predicate Known(s: State, before: seq<Timed>, v: string, hq: int) {
    var m := Asked(s, before, v).agent.marker;
    m.Some? && (s.row.openUntil == Some(m.value.end) || m.value.end > hq + MAX_AHEAD_SECS)
  }

  /** The events of such a round, split at the request. */
  lemma {:induction false} AskingEvents(clock: nat -> nat, r: Round, before: seq<Timed>, v: string, a: nat, later: seq<Timed>)
    requires r.nap == before + ([Timed(a, Request(v))] + later)
    ensures Events(r.nap) == Events(before) + ([Request(v)] + Events(later))
    ensures RoundEvents(clock, r)
      == [TakeJustCleared] + (Events(before) + ([Request(v)] + (Events(later) + Ticking(clock, r))))
  {
    assert Events(r.nap) == Events(before) + ([Request(v)] + Events(later));
  }

  lemma {:induction false} FirstTickInTime(clock: nat -> nat, s: State, start: nat, r: Round,
                                           before: seq<Timed>, v: string, a: nat, later: seq<Timed>)
    requires AsksInNap(clock, s, start, r, before, v, a, later)
    ensures r.end <= a + SCHED_INTERVAL
    ensures ShowsWindow(After(Asked(s, before, v), Events(later)), clock(r.end))
  {
    var napping := Next(s, TakeJustCleared);
    assert r.nap[|before|] == Timed(a, Request(v));
    NapEndsSoon(Looks(napping, r.nap, clock), ShowsWindow(napping, clock(start)), s.agent.justCleared, start, r.end, a);
    assert Looks(napping, r.nap, clock)(r.end);
    StateAtEnd(napping, r.nap, r.end);
    AskingEvents(clock, r, before, v, a, later);
    AskedSplit(s, before, v, Events(later));
  }

  /** The tick after the request: it closes the window, or drops the request. */
  lemma {:induction false} FirstRound(clock: nat -> nat, s: State, start: nat, r: Round,
                                      before: seq<Timed>, v: string, a: nat, later: seq<Timed>)
    requires AsksInNap(clock, s, start, r, before, v, a, later)
    ensures Legal(s, RoundEvents(clock, r))
    ensures var n := After(s, RoundEvents(clock, r));
      && n.exchange.Idle?
      && if Known(s, before, v, r.hq) then n.agent == Agent(None, v, true) && n.row.request == v
         else n.agent.done == s.agent.done && n.row.request == "" && n.handled == s.handled
  {
    var asked, rest := Asked(s, before, v), Events(later) + Ticking(clock, r);
    FirstTickInTime(clock, s, start, r, before, v, a, later);
    AskingEvents(clock, r, before, v, a, later);
    assert RoundEvents(clock, r)[1..] == Events(before) + ([Request(v)] + rest);
    AskedSplit(s, before, v, rest);
    LocalEffect(asked, Events(later));
    Split(asked, Events(later), Ticking(clock, r));
    FirstExchangeClosesIff(After(asked, Events(later)), v, clock(r.end), r.hq, r.flights);
    ExchangeEffect(After(asked, Events(later)), clock(r.end), r.hq, r.flights);
  }

  /** The round after that, with the window closed. */
  lemma {:induction false} SecondRound(clock: nat -> nat, s: State, start: nat, r: Round, v: string)
    requires IsRound(clock, s, start, r) && OnlyLocal(Events(r.nap)) && s.exchange.Idle?
    ensures Legal(s, RoundEvents(clock, r))
    ensures s.agent == Agent(None, v, true) && s.row.request == v ==>
      var n := After(s, RoundEvents(clock, r)); n.agent.marker == None && n.row == Row(None, "")
  {
    var napping := Next(s, TakeJustCleared);
    assert RoundEvents(clock, r)[1..] == Events(r.nap) + Ticking(clock, r);
    LocalEffect(napping, Events(r.nap));
    Split(napping, Events(r.nap), Ticking(clock, r));
    ExchangeEffect(After(napping, Events(r.nap)), clock(r.end), r.hq, r.flights);
  }

  /** A request that has been dropped stays so through another round. */
  lemma {:induction false} DroppedRound(clock: nat -> nat, s: State, start: nat, r: Round)
    requires IsRound(clock, s, start, r) && OnlyLocal(Events(r.nap)) && s.exchange.Idle? && s.row.request == ""
    ensures var n := After(s, RoundEvents(clock, r));
      n.row.request == "" && n.agent.done == s.agent.done && n.handled == s.handled
  {
    assert NoRequests(RoundEvents(clock, r));
    DroppedForGood(s, RoundEvents(clock, r));
  }

  /** Main result: the dealer queues request `v` at `a` while a window stands and stays, and no message of
      the next two ticks is lost. The first of them comes within a minute. If the panel knows that window,
      it closes it, and the second tick, within one more minute, tells the panel, which shows it closed and
      has an empty queue again. If not, the first tick drops the request, which is never carried out. */
  lemma {:induction false} CloseTakesEffectWithinTwoMinutes(clock: nat -> nat, s: State, start: nat, r1: Round,
                                                            before: seq<Timed>, v: string, a: nat,
                                                            later: seq<Timed>, r2: Round)
    requires AsksInNap(clock, s, start, r1, before, v, a, later)
    requires IsRound(clock, After(s, RoundEvents(clock, r1)), r1.end, r2) && OnlyLocal(Events(r2.nap))
    ensures Legal(s, RoundEvents(clock, r1) + RoundEvents(clock, r2))
    ensures var one := After(s, RoundEvents(clock, r1));
      var two := After(one, RoundEvents(clock, r2));
      && r1.end <= a + SCHED_INTERVAL
      && (one.agent.done == v <==> Known(s, before, v, r1.hq))
      && (Known(s, before, v, r1.hq) ==>
            && one.agent.marker == None
            && r2.end <= a + 2 * SCHED_INTERVAL && two.agent.marker == None && two.row == Row(None, ""))
      && (!Known(s, before, v, r1.hq) ==>
            && one.row.request == two.row.request == ""
            && one.agent.done == two.agent.done == s.agent.done && two.handled == s.handled)
  {
    var e1, e2 := RoundEvents(clock, r1), RoundEvents(clock, r2);
    var one := After(s, e1);
    FirstTickInTime(clock, s, start, r1, before, v, a, later);
    FirstRound(clock, s, start, r1, before, v, a, later);
    SecondRound(clock, one, r1.end, r2, v);
    Split(s, e1, e2);
    if !Known(s, before, v, r1.hq) {
      DroppedRound(clock, one, r1.end, r2);
    }
  }

  /** Main result: with no window and nothing in the queue, the nap is a minute after a window was cleared
      and ten minutes otherwise; the flag holds for one nap only, so the next is ten minutes in any case. */
  lemma {:induction false} OneShortNapAfterClearing(clock: nat -> nat, s: State, start: nat, r1: Round, r2: Round)
    requires s.exchange.Idle? && s.agent.marker == None && s.row.request == ""
    requires OnlyLocal(Events(r1.nap)) && OnlyLocal(Events(r2.nap))
    requires IsRound(clock, s, start, r1) && IsRound(clock, After(s, RoundEvents(clock, r1)), r1.end, r2)
    ensures r1.end == start + (if s.agent.justCleared then 60 else 600) && r2.end == r1.end + 600
    ensures s == INIT ==> r1.end == start + 600
  {
    NothingShown(clock, s, start, r1);
    NothingShown(clock, After(s, RoundEvents(clock, r1)), r1.end, r2);
  }

  lemma {:induction false} NothingShown(clock: nat -> nat, s: State, start: nat, r: Round)
    requires s.exchange.Idle? && s.agent.marker == None && s.row.request == ""
    requires OnlyLocal(Events(r.nap)) && IsRound(clock, s, start, r)
    ensures r.end == start + if s.agent.justCleared then 60 else 600
    ensures var n := After(s, RoundEvents(clock, r));
      n.exchange.Idle? && n.agent.marker == None && n.row.request == "" && !n.agent.justCleared
  {
    var napping := Next(s, TakeJustCleared);
    forall u: nat ensures !Looks(napping, r.nap, clock)(u) {
      NoWindowAt(napping, r.nap, u);
      assert Looks(napping, r.nap, clock)(u) == ShowsWindow(StateAt(napping, r.nap, u), clock(u));
    }
    assert RoundEvents(clock, r)[1..] == Events(r.nap) + Ticking(clock, r);
    LocalEffect(napping, Events(r.nap));
    Split(napping, Events(r.nap), Ticking(clock, r));
    ExchangeEffect(After(napping, Events(r.nap)), clock(r.end), r.hq, r.flights);
    FlagStaysDown(napping, Events(r.nap));
    var z := Next(After(napping, Events(r.nap)), Send(clock(r.end), true));
    FlagStaysDown(z, r.flights.up);
    FlagStaysDown(After(z, r.flights.up), r.flights.between);
    FlagStaysDown(After(After(z, r.flights.up), r.flights.between), r.flights.down);
  }

  lemma {:induction false} NoWindowAt(s: State, nap: seq<Timed>, u: nat)
    requires s.agent.marker == None && OnlyLocal(Events(nap))
    ensures StateAt(s, nap, u).agent.marker == None
    decreases |nap|
  {
    if nap != [] && nap[0].u <= u {
      assert Events(nap)[0] == nap[0].e && Events(nap[1..]) == Events(nap)[1..];
      NoWindowAt(Next(s, nap[0].e), nap[1..], u);
    }
  }

  lemma {:induction false} FlagStaysDown(s: State, run: seq<Event>)
    requires OnlyLocal(run) && !s.agent.justCleared
    ensures !After(s, run).agent.justCleared
    decreases |run|
  {
    if run != [] {
      FlagStaysDown(Next(s, run[0]), run[1..]);
    }
  }
}
