/**
 Token recovery in `tick` of src/chainremote_heartbeat.rs: the agent keeps a token across reboots, the
 panel (chainremote-admin/lib/data/customers.ts) keeps the one it issued last, and a rejected beat makes
 the agent register again, once.
 */
module Token {
  import opened Options

  /** What the network and the panel make of one HTTP exchange. `Refused` is any error status but a
      rejected token; it changes nothing at the panel. */
  datatype Fate = Delivered | RequestLost | ReplyLost | Refused

  /** The exchanges one tick may need, in order: a first registration, a beat, a registration after a
      rejection, a second beat. `first` and `second` are the tokens the panel would issue. Before either
      beat another machine with the same id may register: `early` and `late` are then its tokens. */
  datatype Net = Net(reg1: Fate, first: string, early: Option<string>, beat1: Fate,
                     reg2: Fate, second: string, late: Option<string>, beat2: Fate)

  /** Whether the agent was installed with a key to enroll, its token ("" when it has none) and the one
      the panel has for it. */
  datatype Pair = Pair(keyed: bool, local: string, panel: Option<string>)

  datatype Outcome = Outcome(pair: Pair, ok: bool, beats: nat, registrations: nat)

  predicate Accepts(panel: Option<string>, token: string) {
    panel == Some(token)
  }

  predicate InSync(p: Pair) {
    p.local != "" && Accepts(p.panel, p.local)
  }

  predicate IssuesTokens(net: Net) {
    net.first != "" && net.second != ""
  }

  predicate NoRivals(net: Net) {
    net.early.None? && net.late.None?
  }

  predicate LossFree(net: Net) {
    && IssuesTokens(net) && NoRivals(net)
    && net.reg1 == net.beat1 == net.reg2 == net.beat2 == Delivered
  }

  /** An agent with a key gets its token replaced; one without gets a first token and no other. */
  predicate Issues(keyed: bool, panel: Option<string>) {
    keyed || panel.None?
  }

  function Registered(keyed: bool, panel: Option<string>, fate: Fate, token: string): Option<string> {
    if Issues(keyed, panel) && (fate == Delivered || fate == ReplyLost) then Some(token) else panel
  }

  /** The agent learns its new token. */
  predicate Gets(keyed: bool, panel: Option<string>, fate: Fate) {
    Issues(keyed, panel) && fate == Delivered
  }

  function Overtaken(panel: Option<string>, rival: Option<string>): Option<string> {
    if rival.Some? then rival else panel
  }

  /** The second half of a tick, after a rejected beat: the local token is dropped before anything else. */
  function Recover(keyed: bool, panel: Option<string>, net: Net, beats: nat, registrations: nat): Outcome {
    var after := Registered(keyed, panel, net.reg2, net.second);
    if !Gets(keyed, panel, net.reg2) then Outcome(Pair(keyed, "", after), false, beats, registrations + 1) else
      var seen := Overtaken(after, net.late);
      Outcome(Pair(keyed, net.second, seen), net.beat2 == Delivered && Accepts(seen, net.second),
              beats + 1, registrations + 1)
  }

  function Tick(p: Pair, net: Net): Outcome {
    var first := p.local == "";
    var panel := if first then Registered(p.keyed, p.panel, net.reg1, net.first) else p.panel;
    var registrations := if first then 1 else 0;
    if first && !Gets(p.keyed, p.panel, net.reg1) then Outcome(p.(panel := panel), false, 0, 1) else
      var token := if first then net.first else p.local;
      var seen := Overtaken(panel, net.early);
      if net.beat1 != Delivered then Outcome(Pair(p.keyed, token, seen), false, 1, registrations)
      else if Accepts(seen, token) then Outcome(Pair(p.keyed, token, seen), true, 1, registrations)
      else Recover(p.keyed, seen, net, 1, registrations)
  }

  class Panel {
    var token: Option<string>

    constructor (token: Option<string>)
      ensures this.token == token
    {
      this.token := token;
    }

    /** With a key, registration replaces whatever token was there, and without one it is refused if there
        is one; the caller learns a new token if the reply arrives. */
    method Register(keyed: bool, fate: Fate, issued: string) returns (r: Option<string>)
      modifies this
      ensures token == Registered(keyed, old(token), fate, issued)
      ensures r == if Gets(keyed, old(token), fate) then Some(issued) else None
    {
      r := None;
      if !keyed && token.Some? {
        return;
      }
      if fate == Delivered || fate == ReplyLost {
        token := Some(issued);
      }
      if fate == Delivered {
        r := Some(issued);
      }
    }

    /** None when the exchange failed, else whether the token was accepted. */
    method Beat(fate: Fate, presented: string) returns (accepted: Option<bool>)
      ensures accepted == if fate == Delivered then Some(Accepts(token, presented)) else None
    {
      accepted := if fate == Delivered then Some(token == Some(presented)) else None;
    }
  }

  class TokenKeeper {
    const keyed: bool
    var local: string

    constructor (keyed: bool, local: string)
      ensures this.keyed == keyed && this.local == local
    {
      this.keyed, this.local := keyed, local;
    }

    method RunTick(panel: Panel, net: Net) returns (ok: bool, beats: nat, registrations: nat)
      modifies this, panel
      ensures Outcome(Pair(keyed, local, panel.token), ok, beats, registrations)
        == Tick(Pair(keyed, old(local), old(panel.token)), net)
    {
      ok, beats, registrations := false, 0, 0;
      var stored := local;
      if stored == "" {
        registrations := 1;
        var acquired := panel.Register(keyed, net.reg1, net.first);
        if acquired.None? {
          return;
        }
        local := acquired.value;
        stored := acquired.value;
      }
      if net.early.Some? {
        panel.token := net.early;
      }
      beats := 1;
      var accepted := panel.Beat(net.beat1, stored);
      if accepted.None? {
        return;
      }
      if accepted.value {
        ok := true;
        return;
      }
      local := "";
      registrations := registrations + 1;
      var issued := panel.Register(keyed, net.reg2, net.second);
      if issued.None? {
        return;
      }
      local := issued.value;
      if net.late.Some? {
        panel.token := net.late;
      }
      beats := beats + 1;
      accepted := panel.Beat(net.beat2, issued.value);
      ok := accepted == Some(true);
    }
  }

  // ---------------------------------------------------------------- histories

  /** A tick, a registration by another machine with the same id, the loss of the local token, or that of
      the panel's, which drops it when a device is moved to another customer. */
  datatype Event = Ticked(net: Net) | RivalRegisters(token: string) | LocalTokenLost | PanelForgets

  /** Where a history leads, and how many beats and registrations it takes. */
  datatype History = History(pair: Pair, beats: nat, registrations: nat)

  function After(p: Pair, e: Event): History {
    match e
    case Ticked(net) => var o := Tick(p, net); History(o.pair, o.beats, o.registrations)
    case RivalRegisters(token) => History(p.(panel := Some(token)), 0, 0)
    case LocalTokenLost => History(p.(local := ""), 0, 0)
    case PanelForgets => History(p.(panel := None), 0, 0)
  }

  function Run(p: Pair, events: seq<Event>): History
    decreases |events|
  {
    if events == [] then History(p, 0, 0) else
      var one := After(p, events[0]);
      var rest := Run(one.pair, events[1..]);
      History(rest.pair, one.beats + rest.beats, one.registrations + rest.registrations)
  }

  /** The first beat of a tick from `p` is received and rejected. */
  predicate FirstBeatRejected(p: Pair, net: Net) {
    && net.beat1 == Delivered
    && if p.local != "" then !Accepts(Overtaken(p.panel, net.early), p.local)
       else Gets(p.keyed, p.panel, net.reg1) && net.early.Some? && net.early.value != net.first
  }

  /** What takes the two out of sync, or keeps them so: a registration by a rival, the loss of a token
      there is, and a registration the agent makes that yields none, lost or refused. Lost and refused
      beats are none, and neither is what would have become of exchanges the tick does not get to. */
  function DisturbancesIn(p: Pair, e: Event): nat {
    match e
    case Ticked(net) =>
      if p.local == "" && !Gets(p.keyed, p.panel, net.reg1) then 1 else
        (if net.early.Some? then 1 else 0) + (if FirstBeatRejected(p, net) && SecondDisturbed(p, net) then 1 else 0)
    case RivalRegisters(_) => 1
    case LocalTokenLost => if p.local != "" then 1 else 0
    case PanelForgets => if p.panel.Some? then 1 else 0
  }

  /** What the panel has when a tick registers after a rejected beat. */
  function PanelAtRecovery(p: Pair, net: Net): Option<string> {
    Overtaken(if p.local == "" then Some(net.first) else p.panel, net.early)
  }

  predicate SecondDisturbed(p: Pair, net: Net) {
    !Gets(p.keyed, PanelAtRecovery(p, net), net.reg2) || net.late.Some?
  }

  function Disturbances(p: Pair, events: seq<Event>): nat
    decreases |events|
  {
    if events == [] then 0 else DisturbancesIn(p, events[0]) + Disturbances(After(p, events[0]).pair, events[1..])
  }

  predicate Issuing(events: seq<Event>) {
    forall e :: e in events && e.Ticked? ==> IssuesTokens(e.net)
  }

  /** Main result: over every history the agent registers at most once for each disturbance, and once
      more if the two did not agree to begin with, however many ticks there are and beats are lost. */
  lemma {:induction false} OneRegistrationPerDisturbance(p: Pair, events: seq<Event>)
    requires Issuing(events)
    ensures Run(p, events).registrations <= (if InSync(p) then 0 else 1) + Disturbances(p, events)
    decreases |events|
  {
    if events != [] {
      assert events[0] in events;
      OneRegistrationPerDisturbance(After(p, events[0]).pair, events[1..]);
    }
  }

  /** A registration by another machine, or the loss of a token on one side. */
  predicate BreaksSync(p: Pair, e: Event) {
    e.LocalTokenLost? || e.PanelForgets? || (e.RivalRegisters? && e.token != p.local)
  }

  /** Each of these, followed by a tick without losses, costs an agent with a key exactly one registration
      and leaves the two in sync again. An agent without a key gets over it only if it is the panel that has
      lost its token. */
  lemma {:induction false} EachBreakCostsOne(p: Pair, e: Event, net: Net)
    requires InSync(p) && BreaksSync(p, e) && LossFree(net)
    ensures var h := Run(p, [e, Ticked(net)]);
      && Disturbances(p, [e]) == 1
      && h.registrations == 1 && h.pair.keyed == p.keyed
      && (InSync(h.pair) <==> p.keyed || e.PanelForgets?)
      && (InSync(h.pair) ==> Disturbances(p, [e, Ticked(net)]) == 1)
      && (e.RivalRegisters? ==> h.beats == if p.keyed then 2 else 1)
      && (e.RivalRegisters? && !p.keyed ==> h.pair == Pair(false, "", Some(e.token)))
      && (e.LocalTokenLost? ==> h.beats == if p.keyed then 1 else 0)
      && (e.PanelForgets? ==> h.beats == 2)
  {
    var broken := After(p, e);
    assert [e, Ticked(net)][1..] == [Ticked(net)] && [Ticked(net)][1..] == [] && [e][1..] == [];
    assert Run(broken.pair, [Ticked(net)]) == After(broken.pair, Ticked(net));
    assert Disturbances(p, [e, Ticked(net)]) == 1 + Disturbances(broken.pair, [Ticked(net)]);
    assert Disturbances(broken.pair, [Ticked(net)]) == DisturbancesIn(broken.pair, Ticked(net));
  }

  /** `breaks` and ticks without losses by turns. */
  function ByTurns(breaks: seq<Event>, net: Net): seq<Event>
    decreases |breaks|
  {
    if breaks == [] then [] else [breaks[0], Ticked(net)] + ByTurns(breaks[1..], net)
  }

  predicate AllBreak(p: Pair, breaks: seq<Event>, net: Net)
    decreases |breaks|
  {
    breaks == [] ||
    (BreaksSync(p, breaks[0]) && AllBreak(Run(p, [breaks[0], Ticked(net)]).pair, breaks[1..], net))
  }

  /** Main result: the bound of `OneRegistrationPerDisturbance` is reached for every number of disturbances. */
  lemma {:induction false} BoundIsReached(p: Pair, breaks: seq<Event>, net: Net)
    requires InSync(p) && p.keyed && LossFree(net) && AllBreak(p, breaks, net)
    ensures var events := ByTurns(breaks, net);
      && Run(p, events).registrations == Disturbances(p, events) == |breaks|
      && InSync(Run(p, events).pair)
    decreases |breaks|
  {
    if breaks != [] {
      var pair := [breaks[0], Ticked(net)];
      EachBreakCostsOne(p, breaks[0], net);
      RunConcat(p, pair, ByTurns(breaks[1..], net));
      BoundIsReached(Run(p, pair).pair, breaks[1..], net);
    }
  }

  predicate TicksUndisturbed(events: seq<Event>) {
    forall e :: e in events ==> e.Ticked? && e.net.early.None?
  }

  /** Main result: parties in sync stay so through every run of ticks, whatever is lost or refused, and
      never register again. */
  lemma {:induction false} LossesNeverBreakSync(p: Pair, events: seq<Event>)
    requires InSync(p)
    requires TicksUndisturbed(events)
    ensures var o := Run(p, events);
      o.pair == p && o.registrations == 0 && o.beats == |events|
    decreases |events|
  {
    if events != [] {
      assert events[0] in events;
      LossesNeverBreakSync(p, events[1..]);
    }
  }

  lemma {:induction false} RunConcat(p: Pair, a: seq<Event>, b: seq<Event>)
    ensures Run(p, a + b).pair == Run(Run(p, a).pair, b).pair
    ensures Run(p, a + b).registrations == Run(p, a).registrations + Run(Run(p, a).pair, b).registrations
    ensures Run(p, a + b).beats == Run(p, a).beats + Run(Run(p, a).pair, b).beats
    ensures Disturbances(p, a + b) == Disturbances(p, a) + Disturbances(Run(p, a).pair, b)
    decreases |a|
  {
    if a == [] {
      assert a + b == b;
    } else {
      assert (a + b)[0] == a[0] && (a + b)[1..] == a[1..] + b;
      RunConcat(After(p, a[0]).pair, a[1..], b);
    }
  }

  /** The panel still answers: it issues a token, or the two agree as it is. */
  predicate Recoverable(p: Pair) {
    Issues(p.keyed, p.panel) || InSync(p)
  }

  /** Main result: whatever happened before, one tick without losses ends accepted and in sync if and only
      if the agent has a key, or the two agree already, or the panel has no token. It then takes at most
      two beats and one registration, and none when the two agreed; every run of ticks after it, with
      losses, keeps the token and registers no more. */
  lemma {:induction false} SelfStabilises(p: Pair, history: seq<Event>, net: Net, later: seq<Event>)
    requires LossFree(net) && TicksUndisturbed(later)
    ensures var before := Run(p, history);
      var o := Tick(before.pair, net);
      && (o.ok <==> Recoverable(before.pair)) && (InSync(o.pair) <==> o.ok)
      && o.beats <= 2 && o.registrations <= 1
      && (o.registrations == 0 <==> InSync(before.pair))
      && (o.beats == 2 <==> before.pair.local != "" && !InSync(before.pair) && o.ok)
      && (o.ok ==> Run(p, history + ([Ticked(net)] + later)).pair == o.pair
                   && Run(p, history + ([Ticked(net)] + later)).registrations == before.registrations + o.registrations)
  {
    var before := Run(p, history).pair;
    var tail := [Ticked(net)] + later;
    RunConcat(p, history, tail);
    assert tail[0] == Ticked(net) && tail[1..] == later;
    if Tick(before, net).ok {
      LossesNeverBreakSync(Tick(before, net).pair, later);
    }
  }

  /** The failing case: an agent without a key whose token is lost or replaced, while the panel has one,
      never gets in again, and asks for a token at every tick that hears of the rejection. Only the panel
      can end that, by forgetting its token. */
  lemma {:induction false} KeylessNeverRecovers(p: Pair, events: seq<Event>)
    requires !Recoverable(p) && Issuing(events)
    requires forall e :: e in events ==> (e.Ticked? && e.net.early.None?) || e.LocalTokenLost?
    ensures var o := Run(p, events);
      && !Recoverable(o.pair) && o.pair.panel == p.panel
      && (forall i :: 0 <= i < |events| && events[i].Ticked? ==> !Tick(Run(p, events[..i]).pair, events[i].net).ok)
    decreases |events|
  {
    if events != [] {
      var n, rest := After(p, events[0]).pair, events[1..];
      assert events[0] in events && forall e :: e in rest ==> e in events;
      KeylessNeverRecovers(n, rest);
      assert events[..0] == [];
      forall i | 0 < i < |events| && events[i].Ticked? ensures !Tick(Run(p, events[..i]).pair, events[i].net).ok {
        assert events[..i][1..] == rest[..i - 1] && rest[i - 1] == events[i];
      }
    }
  }

  /** What a tick without rivals leaves on both sides. A registration whose request gets there changes the
      panel's token although the agent may not learn it, and a rejection that is heard costs the agent its
      own. */
  lemma {:induction false} PairAfterTick(p: Pair, net: Net)
    requires IssuesTokens(net) && NoRivals(net)
    ensures var o, n, may := Tick(p, net), Tick(p, net).pair, p.keyed || p.panel == None;
      var arrives1 := may && (net.reg1 == Delivered || net.reg1 == ReplyLost);
      var arrives2 := may && (net.reg2 == Delivered || net.reg2 == ReplyLost);
      var rejected := p.panel != Some(p.local) && net.beat1 == Delivered;
      && n.keyed == p.keyed
      && (p.local == "" ==>
            && n.panel == (if arrives1 then Some(net.first) else p.panel)
            && n.local == (if arrives1 && net.reg1 == Delivered then net.first else "")
            && o.registrations == 1 && o.beats == (if arrives1 && net.reg1 == Delivered then 1 else 0))
      && (p.local != "" ==>
            && n.panel == (if rejected && arrives2 then Some(net.second) else p.panel)
            && n.local == (if !rejected then p.local else if arrives2 && net.reg2 == Delivered then net.second else "")
            && o.registrations == (if rejected then 1 else 0)
            && o.beats == (if rejected && arrives2 && net.reg2 == Delivered then 2 else 1))
  {
  }

  /** Main result: the first registration of an agent without a key fails. If it is the reply that is lost,
      the panel has issued the one token it will, and without rivals no later tick succeeds; if the request
      did not get there, the next tick without losses does. */
  lemma {:induction false} LostFirstReplyLocksOut(net: Net, later: seq<Event>, next: Net)
    requires IssuesTokens(net) && net.reg1 != Delivered && Issuing(later) && TicksUndisturbed(later) && LossFree(next)
    ensures var n := Tick(Pair(false, "", None), net).pair;
      && (net.reg1 == ReplyLost ==>
            && n == Pair(false, "", Some(net.first))
            && forall i :: 0 <= i < |later| ==> !Tick(Run(n, later[..i]).pair, later[i].net).ok)
      && (Tick(n, next).ok <==> net.reg1 != ReplyLost)
  {
    var n := Tick(Pair(false, "", None), net).pair;
    if net.reg1 == ReplyLost {
      KeylessNeverRecovers(n, later);
    }
  }

  /** Without a rival, a tick succeeds exactly when every exchange it needs gets through and the panel issues
      the token it asks for; a tick that fails leaves a token the panel rejects only if it never heard that
      it is rejected. */
  lemma {:induction false} TickSucceedsIff(p: Pair, net: Net)
    requires IssuesTokens(net) && NoRivals(net)
    ensures var o, issues := Tick(p, net), Issues(p.keyed, p.panel);
      && (p.local == "" ==> (o.ok <==> issues && net.reg1 == net.beat1 == Delivered))
      && (InSync(p) ==> (o.ok <==> net.beat1 == Delivered))
      && (p.local != "" && !InSync(p) ==> (o.ok <==> issues && net.beat1 == net.reg2 == net.beat2 == Delivered))
      && (!InSync(o.pair) && o.pair.local != "" ==> o.pair.local == p.local && net.beat1 != Delivered)
  {
  }

  /** A tick is rejected twice, its last branch, exactly when its first beat is rejected, the registration
      after that yields a token and a rival registers after it. A tick that starts without a token, or in
      sync, needs another rival before the first beat for that. */
  lemma {:induction false} DoubleRejectionIff(p: Pair, net: Net)
    requires IssuesTokens(net)
    ensures var o := Tick(p, net);
      o.beats == 2 && net.beat2 == Delivered && !o.ok <==>
        FirstBeatRejected(p, net) && Gets(p.keyed, PanelAtRecovery(p, net), net.reg2) && net.beat2 == Delivered
        && net.late.Some? && net.late.value != net.second
    ensures FirstBeatRejected(p, net) && (p.local == "" || InSync(p)) ==> net.early.Some?
    ensures Tick(p, net).registrations == (if p.local == "" then 1 else 0) + if FirstBeatRejected(p, net) then 1 else 0
  {
  }
}
