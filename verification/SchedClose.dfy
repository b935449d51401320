/**
 The "close the window" command of src/chainremote_heartbeat.rs, agent and panel together: the dealer queues
 a request at the panel, heartbeat replies carry it down, the agent clears the window and remembers the
 request, and reports empty the queue. Messages get lost and requests are delivered again. What is proved
 here is safety; whether a request gets through is the subject of module `SchedDelivery`.
 */
module SchedClose {
  import opened Options
  import Sched
  import opened Dedupe
  import opened ClosePanel

  /** The agent's side: the marker, the last request handled, and the flag that shortens the next nap. */
  datatype Agent = Agent(marker: Sched.Marker, done: string, justCleared: bool)

  function Handle(a: Agent, requestedAt: string): Agent {
    if a.done == requestedAt then a else Agent(None, requestedAt, true)
  }

  /** The process dies after it has cleared and before it has remembered; the flag, in memory, is gone. */
  function CutOff(a: Agent, requestedAt: string): Agent {
    if a.done == requestedAt then a else Agent(None, a.done, false)
  }

  class CloseHandler {
    const file: Sched.MarkerFile
    var done: string
    var justCleared: bool

    constructor (file: Sched.MarkerFile)
      ensures this.file == file && done == "" && !justCleared
    {
      this.file := file;
      done, justCleared := "", false;
    }

    function State(): Agent
      reads this, file
    {
      Agent(file.marker, done, justCleared)
    }

    method HandleSchedClose(requestedAt: string, dies: bool)
      modifies this, file
      ensures State() == if dies then CutOff(old(State()), requestedAt) else Handle(old(State()), requestedAt)
    {
      if done == requestedAt {
        return;
      }
      file.Clear();
      justCleared := true;
      if dies {
        justCleared := false;
        return;
      }
      done := requestedAt;
    }

    /** The `swap` of the nap loop: take the flag and put it down. */
    method TakeJustCleared() returns (was: bool)
      modifies this`justCleared
      ensures was == old(justCleared) && !justCleared
    {
      was := justCleared;
      justCleared := false;
    }
  }

  // ---------------------------------------------------------------- the two parties

  /** One heartbeat exchange: the report is on its way, has been recorded, or the reply, with the request
      in its `schedClose` field or "", is on its way back. Beats with a cleanup result report no end. */
  datatype Exchange = Idle | Sent(report: Option<int>) | Stored | Replying(request: string)

  /** `issued` and `handled` record history: the requests made, and those cleared for and remembered. */
  datatype State = State(agent: Agent, row: Row, exchange: Exchange, issued: seq<string>, handled: seq<string>)

  const INIT := State(Agent(None, "", false), Row(None, ""), Idle, [], [])

  /** `Send` reads the window and puts the end into a report, `Store` is the panel recording it when its
      clock stands at `hq`, `Reply` reads the queue, and at any point the exchange may be lost. Clock
      readings of the agent are never negative. */
  datatype Event =
    | Local(t: nat, e: Sched.Event)
    | TakeJustCleared
    | Request(v: string)
    | Send(at: nat, regular: bool)
    | Store(hq: int)
    | Reply
    | Arrive
    | Lost
    | DiesWhileClosing

  predicate Enabled(s: State, e: Event) {
    match e
    case Request(v) => v != "" && (v !in s.issued || v == s.issued[|s.issued| - 1])
    case Send(_, _) => s.exchange.Idle?
    case Store(_) => s.exchange.Sent?
    case Reply => s.exchange.Stored?
    case Arrive => s.exchange.Replying?
    case Lost => !s.exchange.Idle?
    case DiesWhileClosing => Clearing(s)
    case _ => true
  }

  /** The reply on its way carries a request that the agent will clear for. */
  predicate Clearing(s: State) {
    s.exchange.Replying? && s.exchange.request != "" && s.exchange.request != s.agent.done
  }

  function Reported(m: Sched.Marker): int {
    if m.Some? then m.value.end else 0
  }

  function Next(s: State, e: Event): State {
    var a := s.agent;
    match e
    case Local(t, op) => s.(agent := a.(marker := Sched.Step(a.marker, t, op).0))
    case TakeJustCleared => s.(agent := a.(justCleared := false))
    case Request(v) => s.(row := s.row.(request := v), issued := if v in s.issued then s.issued else s.issued + [v])
    case Send(t, regular) =>
      var m := Sched.Live(a.marker, t);
      if regular then s.(agent := a.(marker := m), exchange := Sent(Some(Reported(m))))
      else s.(exchange := Sent(None))
    case Store(hq) =>
      if s.exchange.Sent? && s.exchange.report.Some?
        then s.(row := Recorded(s.row, s.exchange.report.value, hq), exchange := Stored)
        else s.(exchange := Stored)
    case Reply => s.(exchange := Replying(s.row.request))
    case Arrive =>
      if !Clearing(s) then s.(exchange := Idle) else
        var v := s.exchange.request;
        s.(agent := Handle(a, v), exchange := Idle, handled := s.handled + [v])
    case Lost => s.(exchange := Idle)
    case DiesWhileClosing =>
      if Clearing(s) then s.(agent := CutOff(a, s.exchange.request), exchange := Idle) else s
  }

  predicate Legal(s: State, run: seq<Event>)
    decreases |run|
  {
    run == [] || (Enabled(s, run[0]) && Legal(Next(s, run[0]), run[1..]))
  }

  function After(s: State, run: seq<Event>): State
    decreases |run|
  {
    if run == [] then s else After(Next(s, run[0]), run[1..])
  }

  lemma {:induction false} Split(s: State, x: seq<Event>, y: seq<Event>)
    ensures After(s, x + y) == After(After(s, x), y)
    ensures Legal(s, x + y) <==> Legal(s, x) && Legal(After(s, x), y)
    decreases |x|
  {
    if x == [] {
      assert x + y == y;
    } else {
      assert (x + y)[1..] == x[1..] + y;
      Split(Next(s, x[0]), x[1..], y);
    }
  }

  // ---------------------------------------------------------------- safety

  function Nth(issued: seq<string>, n: nat): string
    requires n <= |issued|
  {
    if n == 0 then "" else issued[n - 1]
  }

  /** The agent is at request number `d`, a reply under way carries number `r` unless it carries none,
      the panel holds the newest or none. */
  predicate Inv(s: State, d: nat, r: nat) {
    && d <= r <= |s.issued|
    && NoRepeats(s.issued) && "" !in s.issued
    && s.agent.done == Nth(s.issued, d)
    && (s.row.request == "" || s.row.request == Nth(s.issued, |s.issued|))
    && (s.exchange.Replying? && s.exchange.request != "" ==> s.exchange.request == Nth(s.issued, r))
    && NoRepeats(s.handled) && (forall v :: v in s.handled ==> v in s.issued[..d])
    && (s.agent.done != "" ==> s.agent.done in s.handled)
  }

  lemma {:induction false} InvArrives(s: State, d: nat, r: nat) returns (d': nat)
    requires Inv(s, d, r) && Enabled(s, Arrive)
    ensures Inv(Next(s, Arrive), d', r)
  {
    d' := d;
    if Clearing(s) {
      var v := s.exchange.request;
      d' := r;
      assert v !in s.issued[..d];
      assert forall x :: x in s.issued[..d] ==> x in s.issued[..r];
      assert v == s.issued[..r][r - 1];
    }
  }

  lemma {:induction false} InvRequest(s: State, d: nat, r: nat, v: string)
    requires Inv(s, d, r) && Enabled(s, Request(v))
    ensures Inv(Next(s, Request(v)), d, r)
  {
    if v !in s.issued {
      assert (s.issued + [v])[..d] == s.issued[..d];
    }
  }

  lemma {:induction false} InvNext(s: State, d: nat, r: nat, e: Event) returns (d': nat, r': nat)
    requires Inv(s, d, r) && Enabled(s, e)
    ensures Inv(Next(s, e), d', r')
  {
    d', r' := d, r;
    match e
    case Request(v) =>
      InvRequest(s, d, r, v);
    case Reply =>
      r' := |s.issued|;
    case Arrive =>
      d' := InvArrives(s, d, r);
    case _ =>
  }

  lemma {:induction false} InvAfter(s: State, d: nat, r: nat, run: seq<Event>) returns (d': nat, r': nat)
    requires Inv(s, d, r) && Legal(s, run)
    ensures Inv(After(s, run), d', r')
    decreases |run|
  {
    d', r' := d, r;
    if run != [] {
      d', r' := InvNext(s, d, r, run[0]);
      d', r' := InvAfter(Next(s, run[0]), d', r', run[1..]);
    }
  }

  /** How often the window was cleared for request `v`. */
  function Clears(s: State, run: seq<Event>, v: string): nat
    decreases |run|
  {
    if run == [] then 0 else
      (if (run[0].Arrive? || run[0].DiesWhileClosing?) && Clearing(s) && s.exchange.request == v then 1 else 0)
        + Clears(Next(s, run[0]), run[1..], v)
  }

  /** How often the process died in the middle of that. */
  function Deaths(s: State, run: seq<Event>, v: string): nat
    decreases |run|
  {
    if run == [] then 0 else
      (if run[0].DiesWhileClosing? && Clearing(s) && s.exchange.request == v then 1 else 0)
        + Deaths(Next(s, run[0]), run[1..], v)
  }

  lemma {:induction false} ClearsAddUp(s: State, run: seq<Event>, v: string)
    ensures Clears(s, run, v) + multiset(s.handled)[v] == Deaths(s, run, v) + multiset(After(s, run).handled)[v]
    decreases |run|
  {
    if run != [] {
      var n := Next(s, run[0]);
      ClearsAddUp(n, run[1..], v);
      assert n.handled == if run[0].Arrive? && Clearing(s) then s.handled + [s.exchange.request] else s.handled;
    }
  }

  lemma {:induction false} OnceInNoRepeats(s: seq<string>, v: string)
    requires NoRepeats(s)
    ensures multiset(s)[v] == if v in s then 1 else 0
    decreases |s|
  {
    if s != [] {
      var n := |s| - 1;
      assert s == s[..n] + [s[n]];
      assert forall i, j :: 0 <= i < j < n ==> s[..n][i] != s[..n][j];
      OnceInNoRepeats(s[..n], v);
      assert s[n] !in s[..n];
    }
  }

  /** Main result: under any losses, redeliveries and deaths every request is cleared for and remembered
      at most once, and the window is cleared for it once more for each death in the middle of that, all
      of which come before. A reply that brings a request leaves the agent, so any window granted since,
      as it is if and only if that request has been remembered. */
  lemma {:induction false} RedeliveryNeverCloses(run: seq<Event>, v: string)
    requires Legal(INIT, run)
    ensures var s := After(INIT, run);
      && NoRepeats(s.handled)
      && Clears(INIT, run, v) == Deaths(INIT, run, v) + (if v in s.handled then 1 else 0)
      && (s.exchange == Replying(v) && v != "" ==>
            (Next(s, Arrive).agent == s.agent <==> v in s.handled)
            && (Enabled(s, DiesWhileClosing) <==> v !in s.handled))
  {
    var s := After(INIT, run);
    var d, r := InvAfter(INIT, 0, 0, run);
    ClearsAddUp(INIT, run, v);
    OnceInNoRepeats(s.handled, v);
    if s.exchange == Replying(v) && v in s.handled {
      var i :| 0 <= i < d && s.issued[..d][i] == v;
      assert s.issued[i] == s.issued[r - 1];
      assert r == d;
    }
  }

  /** The failing case: the process dies after it has cleared for `v` and before it has remembered that,
      and the customer grants a new window. The next exchange closes it exactly if it is one that carries
      a cleanup result, or if the panel takes the new window for the old one, which ended then, too. */
  lemma {:induction false} DeathLetsRedeliveryClose(s: State, v: string, t: nat, g: Sched.Event,
                                                    now: nat, regular: bool, hq: int)
    requires s.exchange == Replying(v) && s.row.request == v && v != "" && s.agent.done != v && g.Grant?
    requires var w := Sched.Step(None, t, g).0; Sched.Live(w, now) == w
    ensures var w, run := Sched.Step(None, t, g).0, [DiesWhileClosing, Local(t, g), Send(now, regular), Store(hq), Reply];
      && Legal(s, run + [Arrive]) && After(s, run).agent.marker == w
      && (After(s, run + [Arrive]).agent.marker == None <==> !regular || Keeps(s.row, w.value.end, hq))
  {
    var run := [DiesWhileClosing, Local(t, g), Send(now, regular), Store(hq), Reply];
    var w := Sched.Step(None, t, g).0;
    var s2 := Next(Next(s, DiesWhileClosing), Local(t, g));
    var s3 := Next(s2, Send(now, regular));
    Five(s, run);
    assert s3.agent == s2.agent == Agent(w, s.agent.done, false) && s3.row == s.row;
    assert s3.exchange == Sent(if regular then Some(w.value.end) else None);
    Split(s, run, [Arrive]);
    assert [Arrive][1..] == [];
  }

  lemma {:induction false} Five(s: State, run: seq<Event>)
    requires |run| == 5
    ensures var s1 := Next(s, run[0]);
      var s2 := Next(s1, run[1]);
      var s3 := Next(s2, run[2]);
      var s4 := Next(s3, run[3]);
      && After(s, run) == Next(s4, run[4])
      && (Legal(s, run) <==> Enabled(s, run[0]) && Enabled(s1, run[1]) && Enabled(s2, run[2])
                             && Enabled(s3, run[3]) && Enabled(s4, run[4]))
  {
    var s1 := Next(s, run[0]);
    var s2 := Next(s1, run[1]);
    var s3 := Next(s2, run[2]);
    var s4 := Next(s3, run[3]);
    Unfold(s, run);
    Unfold(s1, run[1..]);
    assert run[1..][1..] == run[2..] && run[2..][1..] == run[3..] && run[3..][1..] == run[4..] && run[4..][1..] == [];
    Unfold(s2, run[2..]);
    Unfold(s3, run[3..]);
    Unfold(s4, run[4..]);
  }

  lemma {:induction false} Unfold(s: State, run: seq<Event>)
    requires run != []
    ensures After(s, run) == After(Next(s, run[0]), run[1..])
    ensures Legal(s, run) <==> Enabled(s, run[0]) && Legal(Next(s, run[0]), run[1..])
  {
  }
}
