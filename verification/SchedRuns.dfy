/** What the window of module `Sched` promises over whole runs of operations. */
module SchedRuns {
  import opened Options
  import opened Sched

  // ---------------------------------------------------------------- runs, step by step

  lemma {:induction false} AnswerAt(m: Marker, run: seq<Entry>, i: nat)
    requires i < |run|
    ensures Answers(m, run)[i] == Step(Final(m, run[..i]), run[i].t, run[i].e).1
    decreases |run|
  {
    if i > 0 {
      AnswerAt(Step(m, run[0].t, run[0].e).0, run[1..], i - 1);
      assert run[1..][..i - 1] == run[..i][1..];
    }
  }

  lemma {:induction false} FinalSplit(m: Marker, run: seq<Entry>, i: nat)
    requires i <= |run|
    ensures Final(m, run) == Final(Final(m, run[..i]), run[i..])
    decreases |run|
  {
    if i > 0 {
      FinalSplit(Step(m, run[0].t, run[0].e).0, run[1..], i - 1);
      assert run[1..][..i - 1] == run[..i][1..] && run[1..][i - 1..] == run[i..];
    }
  }

  // ---------------------------------------------------------------- lazy expiry refines eager expiry

  function Expire(m: Marker, t: int): Marker {
    if m.Some? && (Ended(m.value, t) || IdledOut(m.value, t)) then None else m
  }

  /** A machine that watches the clock: it looks at every second after `since`, up to `until`. */
  function Lapse(m: Marker, since: int, until: int): Marker
    decreases until - since
  {
    if until <= since then m else Expire(Lapse(m, since, until - 1), until)
  }

  predicate Polls(e: Event) {
    e.IsOpen? || e.Status? || e.IsActiveNow?
  }

  /** The eager machine drops the window the instant it is over, so its queries have no effect. */
  function EagerStep(m: Marker, clock: int, t: int, e: Event): Marker {
    var live := Lapse(m, clock, t);
    if Polls(e) then live else Expire(Step(live, t, e).0, t)
  }

  function EagerOpens(m: Marker, clock: int, run: seq<Entry>): (r: seq<bool>)
    ensures |r| == |run|
    decreases |run|
  {
    if run == [] then [] else
      var next := EagerStep(m, clock, run[0].t, run[0].e);
      [next.Some? && next.value.start <= run[0].t] + EagerOpens(next, run[0].t, run[1..])
  }

  /** The callers' side (src/server/connection.rs): the clock does not go back, a start is noted only
      where `is_open` holds, an end only for a noted session, one such session at a time. */
  predicate Obliging(m: Marker, active: bool, clock: int, run: seq<Entry>)
    decreases |run|
  {
    run == [] ||
    (var At(t, e) := run[0];
     && clock <= t
     && (e.SessionStart? ==> !active && m.Some? && Passes(m.value, t))
     && (e.SessionEnd? ==> active)
     && Obliging(Step(m, t, e).0, e.SessionStart? || (active && !e.SessionEnd?), t, run[1..]))
  }

  lemma {:induction false} LapseIsExpire(m: Marker, since: int, until: int)
    requires since <= until
    ensures Lapse(Expire(m, since), since, until) == Expire(m, until)
    decreases until - since
  {
    if since < until {
      LapseIsExpire(m, since, until - 1);
    }
  }

  /** For every state whatsoever, expiring late gives what expiring at once gives, except exactly when
      a session note lands on a window that is already over by idleness alone. */
  lemma {:induction false} StepCommutesIff(m: Marker, t: int, e: Event)
    ensures Expire(Step(m, t, e).0, t) == Expire(Step(Expire(m, t), t, e).0, t)
      <==> !((e.SessionStart? || e.SessionEnd?) && m.Some? && IdledOut(m.value, t) && !Ended(m.value, t))
  {
  }

  lemma {:induction false} LazyFollowsEager(m: Marker, active: bool, clock: int, run: seq<Entry>)
    requires Obliging(m, active, clock, run)
    requires active && m.Some? ==> m.value.inSession || m.value.lastSessionEnd.None?
    ensures forall i :: 0 <= i < |run| && run[i].e.IsOpen? ==>
      Answers(m, run)[i] == Yes(EagerOpens(Expire(m, clock), clock, run)[i])
    decreases |run|
  {
    if run != [] {
      var At(t, e) := run[0];
      LapseIsExpire(m, clock, t);
      StepCommutesIff(m, t, e);
      var next := Step(m, t, e).0;
      assert EagerStep(Expire(m, clock), clock, t, e) == Expire(next, t);
      LazyFollowsEager(next, e.SessionStart? || (active && !e.SessionEnd?), t, run[1..]);
    }
  }

  /** Main result: looking at the clock only when asked answers exactly as watching every second. */
  lemma {:induction false} LazyExpiryRefinesEager(clock: int, run: seq<Entry>)
    requires Obliging(None, false, clock, run)
    ensures forall i :: 0 <= i < |run| && run[i].e.IsOpen? ==>
      Answers(None, run)[i] == Yes(EagerOpens(None, clock, run)[i])
  {
    LazyFollowsEager(None, false, clock, run);
  }

  lemma {:induction false} AnswersTail(m: Marker, head: Entry, tail: seq<Entry>)
    ensures Answers(m, [head] + tail)[1..] == Answers(Step(m, head.t, head.e).0, tail)
  {
  }

  lemma {:induction false} EagerOpensTail(m: Marker, clock: int, head: Entry, tail: seq<Entry>)
    ensures EagerOpens(m, clock, [head] + tail)[1..]
      == EagerOpens(EagerStep(m, clock, head.t, head.e), head.t, tail)
  {
  }

  /** `in_session` is one flag, not a count. Two sessions overlap: the first end starts the idle clock
      while the second is still there, and the second end, 15 minutes later, revives the window. */
  lemma {:induction false} OverlappingSessionsReviveIdleWindow()
    ensures var late := [At(900, SessionEnd), At(900, IsOpen)];
      var run := [At(0, SessionStart)] + ([At(0, SessionStart)] + ([At(0, SessionEnd)] + late));
      var m := Some(Granted(0, 5000, 0, "", 0));
      Answers(m, run)[4] == Yes(true) && EagerOpens(m, 0, run)[4] == false
  {
    var w := Granted(0, 5000, 0, "", 0);
    var joined := Some(w.(inSession := true));
    var left := Some(w.(lastSessionEnd := Some(0)));
    var late := [At(900, SessionEnd), At(900, IsOpen)];
    var run2 := [At(0, SessionEnd)] + late;
    var run1 := [At(0, SessionStart)] + run2;
    AnswersTail(Some(w), At(0, SessionStart), run1);
    AnswersTail(joined, At(0, SessionStart), run2);
    AnswersTail(joined, At(0, SessionEnd), late);
    assert Answers(left, late)[1] == Yes(true);
    EagerOpensTail(Some(w), 0, At(0, SessionStart), run1);
    EagerOpensTail(joined, 0, At(0, SessionStart), run2);
    EagerOpensTail(joined, 0, At(0, SessionEnd), late);
    LapseIsExpire(left, 0, 900);
    assert EagerStep(left, 0, 900, SessionEnd) == None;
    assert !EagerOpens(left, 0, late)[1];
  }

  // ---------------------------------------------------------------- wrong clocks

  function ShiftWindow(w: Window, d: int): Window {
    w.(start := w.start + d, end := w.end + d, grantedAt := w.grantedAt + d,
       lastSessionEnd := if w.lastSessionEnd.Some? then Some(w.lastSessionEnd.value + d) else None)
  }

  function ShiftMarker(m: Marker, d: int): Marker {
    if m.Some? then Some(ShiftWindow(m.value, d)) else None
  }

  /** The same operations on a machine whose clock is `d` ahead. What HQ sent stays the same. */
  function ShiftEntry(x: Entry, d: int): Entry {
    At(x.t + d, if x.e.IsActiveNow? then IsActiveNow(x.e.again + d) else x.e)
  }

  function ShiftAnswer(a: Answer, d: int): Answer {
    if a.Shown? then Shown(ShiftMarker(a.w, d)) else a
  }

  lemma {:induction false} StepShift(m: Marker, x: Entry, d: int)
    ensures var y := ShiftEntry(x, d);
      Step(ShiftMarker(m, d), y.t, y.e)
        == (ShiftMarker(Step(m, x.t, x.e).0, d), ShiftAnswer(Step(m, x.t, x.e).1, d))
  {
  }

  /** Main result: two machines whose clocks differ by a constant answer alike at every step of every
      run; only the times `status` shows are, like all local times, `d` apart. */
  lemma {:induction false} SkewBisimulation(m: Marker, run: seq<Entry>, d: int)
    ensures var skewed := seq(|run|, i requires 0 <= i < |run| => ShiftEntry(run[i], d));
      Answers(ShiftMarker(m, d), skewed)
        == seq(|run|, i requires 0 <= i < |run| => ShiftAnswer(Answers(m, run)[i], d))
    decreases |run|
  {
    if run != [] {
      StepShift(m, run[0], d);
      var skewed := seq(|run|, i requires 0 <= i < |run| => ShiftEntry(run[i], d));
      var rest := run[1..];
      assert skewed[1..] == seq(|rest|, i requires 0 <= i < |rest| => ShiftEntry(rest[i], d));
      SkewBisimulation(Step(m, run[0].t, run[0].e).0, rest, d);
    }
  }

  predicate From(t: int, run: seq<Entry>) {
    Nondecreasing(run) && forall i :: 0 <= i < |run| ==> t <= run[i].t
  }

  /** A window in which no session has ended yet is never idle, and only a grant or a clear replaces it. */
  lemma {:induction false} UnendedWindow(w: Window, t: int, run: seq<Entry>, i: nat)
    requires From(t, run) && i < |run| && run[i].e.IsOpen?
    requires w.lastSessionEnd.None?
    requires forall j :: 0 <= j < i ==> Polls(run[j].e) || run[j].e.SessionStart?
    ensures Answers(Some(w), run)[i] == Yes(w.start <= run[i].t && !Ended(w, run[i].t))
    ensures Answers(None, run)[i] == Yes(false)
    decreases i
  {
    if i > 0 {
      var next := Step(Some(w), run[0].t, run[0].e).0;
      UnendedWindow(w.(inSession := true), run[0].t, run[1..], i - 1);
      UnendedWindow(w, run[0].t, run[1..], i - 1);
      assert next == Some(w) || next == Some(w.(inSession := true)) || (next == None && Ended(w, run[0].t));
      assert run[0].t <= run[i].t;
    }
  }

  /** Main result: until a session ends, the window is open exactly while the clock of HQ stands in
      [max(start, hq_now), min(end, hq_now + 24 h)), however wrong the local clock is. */
  lemma {:induction false} OpenExactlyInHqTime(m: Marker, g: Event, t: int, run: seq<Entry>, i: nat)
    requires g.Grant? && From(t, run) && i < |run| && run[i].e.IsOpen?
    requires forall j :: 0 <= j < i ==> Polls(run[j].e) || run[j].e.SessionStart?
    ensures var hq := run[i].t + (g.hqNow - t);
      Answers(m, [At(t, g)] + run)[i + 1]
        == Yes(g.start <= hq && g.hqNow <= hq && hq < g.end && hq < g.hqNow + MAX_WINDOW_SECS)
  {
    AnswersTail(m, At(t, g), run);
    UnendedWindow(Granted(g.start, g.end, g.hqNow, g.caption, t), t, run, i);
  }

  function Note(w: Window, x: Entry): Window {
    if x.e.SessionStart? then w.(inSession := true)
    else if x.e.SessionEnd? then w.(inSession := false, lastSessionEnd := Some(x.t))
    else w
  }

  /** The window with all session notes of the run in it, as if nothing ever dropped it. */
  function Noted(w: Window, run: seq<Entry>): Window
    decreases |run|
  {
    if run == [] then w else Noted(Note(w, run[0]), run[1..])
  }

  lemma {:induction false} NotedKeepsHours(w: Window, run: seq<Entry>)
    ensures var n := Noted(w, run); n.start == w.start && n.end == w.end && n.grantedAt == w.grantedAt
    decreases |run|
  {
    if run != [] {
      NotedKeepsHours(Note(w, run[0]), run[1..]);
    }
  }

  /** No earlier `is_open` has found the window started and idle. */
  predicate NeverFoundIdle(w: Window, run: seq<Entry>, i: nat)
    requires i <= |run|
  {
    forall k :: 0 <= k < i && run[k].e.IsOpen? && w.start <= run[k].t ==> !IdledOut(Noted(w, run[..k]), run[k].t)
  }

  lemma {:induction false} NeverFoundIdleStep(w: Window, run: seq<Entry>, i: nat)
    requires 0 < i <= |run|
    ensures NeverFoundIdle(w, run, i) <==>
      (run[0].e.IsOpen? && w.start <= run[0].t ==> !IdledOut(w, run[0].t))
      && NeverFoundIdle(Note(w, run[0]), run[1..], i - 1)
  {
    var rest, v := run[1..], Note(w, run[0]);
    assert run[..0] == [];
    forall k | 0 <= k < i - 1 ensures rest[k] == run[k + 1] && Noted(v, rest[..k]) == Noted(w, run[..k + 1]) {
      assert run[..k + 1][1..] == rest[..k];
    }
    if NeverFoundIdle(w, run, i) {
      forall k | 0 <= k < i - 1 && rest[k].e.IsOpen? && v.start <= rest[k].t
        ensures !IdledOut(Noted(v, rest[..k]), rest[k].t)
      {
        assert run[k + 1].e.IsOpen?;
      }
    }
    if (run[0].e.IsOpen? && w.start <= run[0].t ==> !IdledOut(w, run[0].t)) && NeverFoundIdle(v, rest, i - 1) {
      forall k | 0 <= k < i && run[k].e.IsOpen? && w.start <= run[k].t
        ensures !IdledOut(Noted(w, run[..k]), run[k].t)
      {
        assert k > 0 ==> rest[k - 1].e.IsOpen?;
      }
    }
  }

  /** Main result: between two grants, whatever sessions are noted and however often anyone looks, a
      window is open exactly when the hours and the session notes so far allow it and no earlier
      `is_open` has found it idle. */
  lemma {:induction false} OpenIff(w: Window, t: int, run: seq<Entry>, i: nat)
    requires From(t, run) && i < |run| && run[i].e.IsOpen?
    requires forall j :: 0 <= j < i ==> !run[j].e.Grant? && !run[j].e.Clear?
    ensures Answers(Some(w), run)[i]
      == Yes(Passes(Noted(w, run[..i]), run[i].t) && NeverFoundIdle(w, run, i))
    ensures Answers(None, run)[i] == Yes(false)
    decreases i
  {
    if i > 0 {
      var next := Step(Some(w), run[0].t, run[0].e).0;
      OpenIff(Note(w, run[0]), run[0].t, run[1..], i - 1);
      NeverFoundIdleStep(w, run, i);
      NotedKeepsHours(w, run[..i]);
      assert run[..i][1..] == run[1..][..i - 1];
      assert run[0].t <= run[i].t;
      assert next == Some(Note(w, run[0]))
        || (next == None && (Ended(w, run[0].t) || (run[0].e.IsOpen? && w.start <= run[0].t && IdledOut(w, run[0].t))));
    }
  }

  lemma {:induction false} OneEndNoted(w: Window, run: seq<Entry>, e: nat, i: nat)
    requires w.lastSessionEnd.None? && e < |run| && i <= |run| && run[e].e.SessionEnd?
    requires forall j :: 0 <= j < i && j != e ==> Polls(run[j].e) || (j < e && run[j].e.SessionStart?)
    ensures var n := Noted(w, run[..i]);
      if i <= e then n.lastSessionEnd.None? else n.lastSessionEnd == Some(run[e].t) && !n.inSession
    decreases i
  {
    if i > 0 {
      var n := Noted(w, run[..i - 1]);
      OneEndNoted(w, run, e, i - 1);
      NotedSnoc(w, run[..i - 1], run[i - 1]);
      assert run[..i] == run[..i - 1] + [run[i - 1]];
    }
  }

  lemma {:induction false} NotedSnoc(w: Window, run: seq<Entry>, x: Entry)
    ensures Noted(w, run + [x]) == Note(Noted(w, run), x)
    decreases |run|
  {
    if run == [] {
      assert run + [x] == [x] && [x][1..] == [];
    } else {
      assert (run + [x])[1..] == run[1..] + [x];
      NotedSnoc(Note(w, run[0]), run[1..], x);
    }
  }

  /** The source promises that idleness counts only after a first session in the window. It does not:
      whichever session ends, also one that was let in by the window before, starts the idle clock of the
      new one. After a grant, through any polls and session starts up to that one end and any polls after
      it, the window is open exactly in its HQ hours and for 15 minutes after the end. */
  lemma {:induction false} StaleSessionEndKillsPendingWindow(m: Marker, g: Event, t: int, run: seq<Entry>,
                                                             e: nat, i: nat)
    requires g.Grant? && From(t, run) && e < i < |run| && run[e].e.SessionEnd? && run[i].e.IsOpen?
    requires forall j :: 0 <= j < i && j != e ==> Polls(run[j].e) || (j < e && run[j].e.SessionStart?)
    ensures var hq := run[i].t + (g.hqNow - t);
      Answers(m, [At(t, g)] + run)[i + 1]
        == Yes(g.start <= hq && g.hqNow <= hq && hq < g.end && hq < g.hqNow + MAX_WINDOW_SECS
               && run[i].t < run[e].t + IDLE_CLOSE_SECS)
  {
    var w := Granted(g.start, g.end, g.hqNow, g.caption, t);
    AnswersTail(m, At(t, g), run);
    OpenIff(w, t, run, i);
    OneEndNoted(w, run, e, i);
    NotedKeepsHours(w, run[..i]);
    forall k | 0 <= k < i && IdledOut(Noted(w, run[..k]), run[k].t)
      ensures k > e && IDLE_CLOSE_SECS <= run[i].t - run[e].t
    {
      OneEndNoted(w, run, e, k);
      assert run[k].t <= run[i].t;
    }
  }

  // ---------------------------------------------------------------- the cap, under any clock

  /** `w` is what the grant at position `j` of the run wrote, up to session notes, and nothing has
      replaced or cleared it in the first `i` operations. */
  predicate WrittenBy(w: Window, run: seq<Entry>, j: nat, i: nat) {
    && j < i <= |run| && run[j].e.Grant?
    && (forall k :: j < k < i ==> !run[k].e.Grant? && !run[k].e.Clear?)
    && (var g := run[j].e;
        var v := Granted(g.start, g.end, g.hqNow, g.caption, run[j].t);
        w.start == v.start && w.end == v.end && w.grantedAt == v.grantedAt && w.caption == v.caption)
  }

  lemma {:induction false} MarkerIsAGrant(run: seq<Entry>) returns (j: nat)
    ensures var m := Final(None, run); m.Some? ==> WrittenBy(m.value, run, j, |run|)
    decreases |run|
  {
    j := 0;
    if run != [] {
      var n := |run| - 1;
      FinalSplit(None, run, n);
      var before := Final(None, run[..n]);
      assert Final(None, run) == Step(before, run[n].t, run[n].e).0 by {
        assert run[n..][1..] == [];
      }
      if run[n].e.Grant? {
        j := n;
        var g := run[n].e;
        assert Final(None, run) == Some(Granted(g.start, g.end, g.hqNow, g.caption, run[n].t));
      } else {
        j := MarkerIsAGrant(run[..n]);
        if before.Some? {
          assert forall k :: j < k < n ==> run[..n][k] == run[k];
        }
      }
    }
  }

  /** The grant at position `j` still stands at position `i` and allows entry there. */
  predicate Covers(run: seq<Entry>, j: nat, i: nat)
    requires i < |run|
  {
    && j < i && run[j].e.Grant?
    && (forall k :: j < k < i ==> !run[k].e.Grant? && !run[k].e.Clear?)
    && (var g := run[j].e;
        var w := Granted(g.start, g.end, g.hqNow, g.caption, run[j].t);
        w.start <= run[i].t < w.end)
    && run[j].t <= run[i].t < run[j].t + MAX_WINDOW_SECS
  }

  /** Main result: for every run and every clock, also one that jumps back, an open answer is covered by
      a grant still standing, inside its hours and inside the 24 hours after it. */
  lemma {:induction false} OpenOnlyUnderAGrant(run: seq<Entry>, i: nat)
    requires i < |run| && run[i].e.IsOpen? && Answers(None, run)[i] == Yes(true)
    ensures exists j :: Covers(run, j, i)
  {
    AnswerAt(None, run, i);
    var j := MarkerIsAGrant(run[..i]);
    assert WrittenBy(Final(None, run[..i]).value, run[..i], j, i);
    assert forall k :: 0 <= k < i ==> run[..i][k] == run[k];
    assert Covers(run, j, i);
  }

  /** The explicit cap checks of `is_open` and `status` never fire: the end time has closed the window. */
  lemma {:induction false} CapCheckNeverFires(run: seq<Entry>, t: int)
    ensures var m := Final(None, run); m.Some? && t < m.value.end ==> !CapReached(m.value, t)
  {
    var j := MarkerIsAGrant(run);
  }

  lemma {:induction false} StartStays(m: Marker, t: int, run: seq<Entry>)
    requires From(t, run)
    requires forall k :: 0 <= k < |run| ==> !run[k].e.Grant?
    ensures var n := Final(m, run); n.Some? ==> m.Some? && n.value.start == m.value.start
    decreases |run|
  {
    if run != [] {
      StartStays(Step(m, run[0].t, run[0].e).0, run[0].t, run[1..]);
    }
  }

  /** Main result: with a clock that does not go back, the answers between two grants are closed, then
      open, then closed for good, whatever sessions are noted. */
  lemma {:induction false} OnlyAGrantReopens(m: Marker, run: seq<Entry>, i: nat, j: nat, k: nat)
    requires Nondecreasing(run) && i < j < k < |run|
    requires forall x :: 0 <= x < |run| ==> !run[x].e.Grant?
    requires run[i].e.IsOpen? && run[j].e.IsOpen? && run[k].e.IsOpen?
    requires Answers(m, run)[i] == Yes(true) && Answers(m, run)[j] == Yes(false)
    ensures Answers(m, run)[k] == Yes(false)
  {
    var atI, atJ := Final(m, run[..i]), Final(m, run[..j]);
    AnswerAt(m, run, i);
    AnswerAt(m, run, j);
    AnswerAt(m, run, k);
    FinalSplit(m, run[..j], i);
    assert run[..j][..i] == run[..i];
    StartStays(atI, run[i].t, run[i..j]);
    assert run[..j][i..] == run[i..j];
    FinalSplit(m, run[..k], j);
    assert run[..k][..j] == run[..j] && run[..k][j..] == run[j..k];
    assert Step(atJ, run[j].t, IsOpen).0 == None;
    assert Final(atJ, run[j..k]) == Final(None, run[j..k][1..]);
    assert run[j..k][1..] == run[j + 1..k];
    StartStays(None, run[j].t, run[j + 1..k]);
  }

  // ---------------------------------------------------------------- status polling is unobservable

  /** The elements that are not marked as extra. */
  function Without<T>(xs: seq<T>, extra: seq<bool>): seq<T>
    requires |xs| == |extra|
    decreases |xs|
  {
    if xs == [] then [] else (if extra[0] then [] else [xs[0]]) + Without(xs[1..], extra[1..])
  }

  predicate Gone(m: Marker, t: int) {
    m.None? || Ended(m.value, t)
  }

  lemma {:induction false} PollsUnobservable(m: Marker, n: Marker, t: int, run: seq<Entry>, extra: seq<bool>)
    requires |extra| == |run| && From(t, run)
    requires forall i :: 0 <= i < |run| && extra[i] ==> run[i].e.Status? || run[i].e.IsActiveNow?
    requires m == n || (Gone(m, t) && Gone(n, t))
    ensures Without(Answers(m, run), extra) == Answers(n, Without(run, extra))
    decreases |run|
  {
    if run != [] {
      var At(now, e) := run[0];
      var m', n' := Step(m, now, e).0, if extra[0] then n else Step(n, now, e).0;
      assert Gone(m, t) && Gone(n, t) ==> Gone(m, now) && Gone(n, now);
      PollsUnobservable(m', n', now, run[1..], extra[1..]);
      var rest := Without(run[1..], extra[1..]);
      assert Answers(m, run)[1..] == Answers(m', run[1..]);
      if extra[0] {
        assert Without(run, extra) == rest;
      } else {
        AnswersTail(n, run[0], rest);
        assert Step(m, now, e).1 == Step(n, now, e).1;
        assert Without(run, extra) == [run[0]] + rest;
        assert Answers(n, [run[0]] + rest) == [Step(n, now, e).1] + Answers(n', rest);
      }
    }
  }

  /** Main result: on a clock that does not go back, extra `status` and `is_active_now` calls from any
      screen change no answer of the calls that are there anyway. */
  lemma {:induction false} StatusPollingUnobservable(m: Marker, run: seq<Entry>, extra: seq<bool>)
    requires |extra| == |run| && Nondecreasing(run)
    requires forall i :: 0 <= i < |run| && extra[i] ==> run[i].e.Status? || run[i].e.IsActiveNow?
    ensures Without(Answers(m, run), extra) == Answers(m, Without(run, extra))
  {
    PollsUnobservable(m, m, if run == [] then 0 else run[0].t, run, extra);
  }

  /** The operation tells that there is a window. */
  predicate Sees(m: Marker, x: Entry) {
    m.Some? &&
    match x.e
    case IsOpen => Passes(m.value, x.t)
    case Status => !Ended(m.value, x.t)
    case IsActiveNow(again) => !Ended(m.value, x.t) && m.value.start <= again
    case _ => false
  }

  /** Before the next grant, some operation of the run tells that there is a window. */
  predicate SeesBeforeGrant(m: Marker, run: seq<Entry>) {
    exists k :: 0 <= k < |run| && Sees(Final(m, run[..k]), run[k]) && forall h :: 0 <= h < k ==> !run[h].e.Grant?
  }

  lemma {:induction false} LossObservableIff(m: Marker, run: seq<Entry>)
    ensures Answers(m, run) != Answers(None, run) <==> SeesBeforeGrant(m, run)
    decreases |run|
  {
    if run != [] {
      var next, rest := Step(m, run[0].t, run[0].e).0, run[1..];
      assert run == [run[0]] + rest && run[..0] == [];
      AnswersTail(m, run[0], rest);
      AnswersTail(None, run[0], rest);
      assert Answers(m, run)[0] != Answers(None, run)[0] <==> Sees(m, run[0]);
      if run[0].e.Grant? {
        assert next == Step(None, run[0].t, run[0].e).0;
        assert Answers(m, run)[1..] == Answers(None, run)[1..];
      } else {
        LossObservableIff(next, rest);
        LossStep(m, run);
        assert Answers(m, run) == [Answers(m, run)[0]] + Answers(m, run)[1..];
        assert Answers(None, run) == [Answers(None, run)[0]] + Answers(None, run)[1..];
      }
    }
  }

  lemma {:induction false} LossStep(m: Marker, run: seq<Entry>)
    requires run != [] && !run[0].e.Grant?
    ensures SeesBeforeGrant(m, run) <==>
      Sees(m, run[0]) || SeesBeforeGrant(Step(m, run[0].t, run[0].e).0, run[1..])
  {
    var next, rest := Step(m, run[0].t, run[0].e).0, run[1..];
    assert run[..0] == [];
    forall k | 0 <= k < |rest| ensures Final(m, run[..k + 1]) == Final(next, rest[..k]) && rest[k] == run[k + 1] {
      assert run[..k + 1][1..] == rest[..k];
    }
    if k :| 0 <= k < |rest| && Sees(Final(next, rest[..k]), rest[k]) && forall h :: 0 <= h < k ==> !rest[h].e.Grant? {
      assert Sees(Final(m, run[..k + 1]), run[k + 1]);
      assert forall h :: 0 < h < k + 1 ==> run[h] == rest[h - 1];
    }
    if k :| 0 < k < |run| && Sees(Final(m, run[..k]), run[k]) && forall h :: 0 <= h < k ==> !run[h].e.Grant? {
      assert Sees(Final(next, rest[..k - 1]), rest[k - 1]);
    }
  }

  lemma {:induction false} AnswersSplit(m: Marker, x: seq<Entry>, y: seq<Entry>)
    ensures Answers(m, x + y)[|x|..] == Answers(Final(m, x), y)
    decreases |x|
  {
    if x == [] {
      assert x + y == y;
    } else {
      assert (x + y)[0] == x[0] && (x + y)[1..] == x[1..] + y;
      AnswersSplit(Step(m, x[0].t, x[0].e).0, x[1..], y);
    }
  }

  /** Main result, for every clock: one more `status` or `is_active_now` somewhere in a run changes a later
      answer if and only if it looks at a moment after the end of the window that is there, and without it
      some later operation, before the next grant, would still tell that there is a window. */
  lemma {:induction false} PollObservableIff(m: Marker, x: seq<Entry>, poll: Entry, y: seq<Entry>)
    requires poll.e.Status? || poll.e.IsActiveNow?
    ensures var w := Final(m, x);
      (Answers(m, x + ([poll] + y))[|x| + 1..] != Answers(m, x + y)[|x|..])
        <==> (w.Some? && Ended(w.value, poll.t) && SeesBeforeGrant(w, y))
  {
    var w := Final(m, x);
    AnswersSplit(m, x, [poll] + y);
    AnswersSplit(m, x, y);
    AnswersTail(w, poll, y);
    assert Answers(m, x + ([poll] + y))[|x| + 1..] == Answers(m, x + ([poll] + y))[|x|..][1..];
    LossObservableIff(w, y);
  }

  /** Its shortest case: a look at `u` changes what `is_open` answers at `t` exactly when the window is
      over at `u` and lets in at `t`, so only when the clock has jumped back. */
  lemma {:induction false} PollObservableWhenClockJumpsBack(m: Marker, u: int, t: int)
    ensures (Answers(m, [At(u, Status), At(t, IsOpen)])[1] != Answers(m, [At(t, IsOpen)])[0])
      <==> (m.Some? && Ended(m.value, u) && Passes(m.value, t))
    ensures m.Some? && Ended(m.value, u) && Passes(m.value, t) ==> t < u
  {
  }

  /** Open implies active implies shown; what is active but not open is idle, nothing else. */
  lemma {:induction false} OpenActiveShown(m: Marker, t: int, again: int)
    requires t <= again
    ensures Step(m, t, IsOpen).1 == Yes(true) ==> Step(m, t, IsActiveNow(again)).1 == Yes(true)
    ensures Step(m, t, IsActiveNow(again)).1 == Yes(true) ==> Step(m, t, Status).1 == Shown(m) && m.Some?
    ensures Step(m, t, IsActiveNow(t)).1 == Yes(true) ==>
      (Step(m, t, IsOpen).1 == Yes(false) <==> IdledOut(m.value, t))
  {
  }

  /** The limits in seconds: 15 idle minutes, a day. */
  lemma {:induction false} LimitsInSeconds(w: Window)
    requires w.start == w.grantedAt == 0 && w.end == 86400 && w.lastSessionEnd == Some(1000) && !w.inSession
    ensures Step(Some(w), 1899, IsOpen).1 == Yes(true) && Step(Some(w), 1900, IsOpen).1 == Yes(false)
    ensures Step(Some(w.(inSession := true)), 86399, IsOpen).1 == Yes(true)
    ensures Granted(0, 90000, 0, "", 0).end == 86400
    ensures Step(Some(w.(end := 90000, inSession := true)), 86400, IsOpen) == (None, Yes(false))
    ensures Step(Some(w.(end := 90000, inSession := true)), 86400, Status) == (None, Shown(None))
  {
  }

  /** What a look leaves of a window, in seconds: `is_open` drops one that is over, or started and a day old
      or idle for 15 minutes; `status` one that is over or a day old. */
  lemma {:induction false} LookDropsIff(w: Window, t: int)
    ensures Step(Some(w), t, IsOpen).0 ==
      if t >= w.end || (t >= w.start && (t - w.grantedAt >= 86400
           || (!w.inSession && w.lastSessionEnd.Some? && t - w.lastSessionEnd.value >= 900)))
        then None else Some(w)
    ensures Step(Some(w), t, Status).0 == if t >= w.end || t - w.grantedAt >= 86400 then None else Some(w)
  {
  }
}
