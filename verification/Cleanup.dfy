/**
 The disk-cleanup command and the automatic cleanup of src/chainremote_heartbeat.rs. Which files a
 cleanup removes is the subject of module `TempCleaner`; here it only yields a result text.
 */
module Cleanup {
  import opened Options
  import opened Decimal
  import opened Dedupe
  import opened Spacing

  const AUTO_CLEAN_THRESHOLD: nat := 5 * 1024 * 1024 * 1024
  const AUTO_CLEAN_MIN_INTERVAL_SECS: nat := 24 * 3600

  /** The three persisted options, all "" at first. */
  datatype Saved = Saved(done: string, result: string, autoAt: string)

  /** Where the process dies while it handles a request, if it does. */
  datatype Crash = Survives | DiesInCleanup | DiesBeforeResult

  /** A reply that asks for a cleanup, and the text the cleanup yields if it runs. */
  datatype Delivery = Delivery(requestedAt: string, text: string, crash: Crash)

  /** Disk space and clock as the automatic cleanup finds them; either reading may fail. */
  datatype Check = Check(free: Option<nat>, now: Option<U64>, text: string, dies: bool)

  function AfterRequest(o: Saved, d: Delivery): Saved {
    if o.done == d.requestedAt || d.crash.DiesInCleanup? then o
    else if d.crash.DiesBeforeResult? then o.(done := d.requestedAt)
    else o.(done := d.requestedAt, result := d.text)
  }

  /** What a redelivery sends when the result slot holds `result`. */
  function Resent(result: string): Option<string> {
    if result == "" then None else Some(result)
  }

  /** The report that is sent at once: a fresh result, or the saved one for a request seen before. */
  function ReportOn(o: Saved, d: Delivery): Option<string> {
    if o.done == d.requestedAt then Resent(o.result)
    else if d.crash.Survives? then Some(d.text) else None
  }

  function LastAuto(o: Saved): U64 {
    if Parse(o.autoAt).Some? then Parse(o.autoAt).value else 0
  }

  predicate AutoRuns(o: Saved, c: Check) {
    && c.free.Some? && c.free.value < AUTO_CLEAN_THRESHOLD
    && c.now.Some? && c.now.value >= LastAuto(o) + AUTO_CLEAN_MIN_INTERVAL_SECS
  }

  function AfterCheck(o: Saved, c: Check): Saved {
    if !AutoRuns(o, c) then o
    else if c.dies then o.(autoAt := Print(c.now.value))
    else o.(autoAt := Print(c.now.value), result := c.text)
  }

  class CleanupAgent {
    var done: string
    var result: string
    var autoAt: string

    constructor ()
      ensures State() == Saved("", "", "")
    {
      done, result, autoAt := "", "", "";
    }

    function State(): Saved
      reads this
    {
      Saved(done, result, autoAt)
    }

    method HandleCleanupRequest(d: Delivery) returns (ran: bool, report: Option<string>)
      modifies this`done, this`result
      ensures State() == AfterRequest(old(State()), d)
      ensures ran == (old(done) != d.requestedAt)
      ensures report == ReportOn(old(State()), d)
    {
      ran, report := false, None;
      if done == d.requestedAt {
        if result != "" {
          report := Some(result);
        }
        return;
      }
      ran := true;
      if d.crash.DiesInCleanup? {
        return;
      }
      done := d.requestedAt;
      if d.crash.DiesBeforeResult? {
        return;
      }
      result := d.text;
      report := Some(d.text);
    }

    method MaybeAutoCleanup(c: Check) returns (ran: bool)
      modifies this`autoAt, this`result
      ensures ran == AutoRuns(old(State()), c)
      ensures State() == AfterCheck(old(State()), c)
    {
      ran := false;
      if c.free.None? {
        return;
      }
      if c.free.value >= AUTO_CLEAN_THRESHOLD {
        return;
      }
      if c.now.None? {
        return;
      }
      var now := c.now.value;
      var parsed := Parse(autoAt);
      var last := if parsed.Some? then parsed.value else 0;
      // u64 subtraction saturates at zero.
      var elapsed := if now < last then 0 else now - last;
      if elapsed < AUTO_CLEAN_MIN_INTERVAL_SECS {
        return;
      }
      autoAt := Print(now);
      ran := true;
      if c.dies {
        return;
      }
      result := c.text;
    }
  }

  // ---------------------------------------------------------------- one manual cleanup a request

  datatype Event = Request(d: Delivery) | Auto(c: Check)

  function Next(o: Saved, e: Event): Saved {
    match e
    case Request(d) => AfterRequest(o, d)
    case Auto(c) => AfterCheck(o, c)
  }

  function After(o: Saved, run: seq<Event>): Saved
    decreases |run|
  {
    if run == [] then o else After(Next(o, run[0]), run[1..])
  }

  function Delivered(run: seq<Event>): seq<string>
    decreases |run|
  {
    if run == [] then [] else
      (if run[0].Request? then [run[0].d.requestedAt] else []) + Delivered(run[1..])
  }

  /** How often the recycle-bin cleanup ran for request `v`. */
  function ManualRuns(o: Saved, run: seq<Event>, v: string): nat
    decreases |run|
  {
    if run == [] then 0 else
      (if run[0].Request? && run[0].d.requestedAt == v && o.done != v then 1 else 0)
        + ManualRuns(Next(o, run[0]), run[1..], v)
  }

  predicate Asks(e: Event, v: string) {
    e.Request? && e.d.requestedAt == v
  }

  /** How often the process died inside a cleanup that `v` had started. */
  function DeathsIn(o: Saved, run: seq<Event>, v: string): nat
    decreases |run|
  {
    if run == [] then 0 else
      (if Asks(run[0], v) && o.done != v && run[0].d.crash.DiesInCleanup? then 1 else 0)
        + DeathsIn(Next(o, run[0]), run[1..], v)
  }

  /** Out of the deliveries of `v` the first ones, up to and with the first that does not die in its
      cleanup. Which these are can be read off the run, whatever was saved before. */
  function Leading(run: seq<Event>, v: string): nat
    decreases |run|
  {
    if run == [] then 0
    else if !Asks(run[0], v) then Leading(run[1..], v)
    else if run[0].d.crash.DiesInCleanup? then 1 + Leading(run[1..], v)
    else 1
  }

  lemma {:induction false} NoRunUnlessAsked(o: Saved, run: seq<Event>, v: string)
    requires v !in Delivered(run)
    ensures ManualRuns(o, run, v) == 0
    decreases |run|
  {
    if run != [] {
      NoRunUnlessAsked(Next(o, run[0]), run[1..], v);
    }
  }

  lemma {:induction false} NeverReturnsSkip(x: string, y: string, rest: seq<string>)
    requires NeverReturns([x] + ([y] + rest))
    ensures NeverReturns([x] + rest) && NeverReturns([y] + rest) && (x in rest ==> x == y)
  {
    NeverReturnsTail(x, [y] + rest);
    NeverReturnsTail(y, rest);
    NeverReturnsTail(x, rest);
  }

  lemma {:induction false} HandledRunsNoMore(o: Saved, run: seq<Event>)
    requires NeverReturns([o.done] + Delivered(run))
    ensures ManualRuns(o, run, o.done) == 0
    decreases |run|
  {
    if run != [] {
      var n, rest := Next(o, run[0]), Delivered(run[1..]);
      if run[0].Request? {
        assert Delivered(run) == [run[0].d.requestedAt] + rest;
        NeverReturnsSkip(o.done, run[0].d.requestedAt, rest);
      } else {
        assert Delivered(run) == rest;
      }
      if n.done == o.done {
        HandledRunsNoMore(n, run[1..]);
      } else {
        NoRunUnlessAsked(n, run[1..], o.done);
      }
    }
  }

  /** Some delivery of `v` does not die in its cleanup. */
  predicate OneSurvives(run: seq<Event>, v: string) {
    exists i :: 0 <= i < |run| && Asks(run[i], v) && !run[i].d.crash.DiesInCleanup?
  }

  lemma {:induction false} OneSurvivesStep(run: seq<Event>, v: string)
    requires run != []
    ensures OneSurvives(run, v) <==>
      (Asks(run[0], v) && !run[0].d.crash.DiesInCleanup?) || OneSurvives(run[1..], v)
  {
    var rest := run[1..];
    assert forall i :: 0 <= i < |rest| ==> rest[i] == run[i + 1];
    if i :| 0 <= i < |run| && Asks(run[i], v) && !run[i].d.crash.DiesInCleanup? {
      assert i > 0 ==> Asks(rest[i - 1], v);
    }
  }

  lemma {:induction false} HandledDiesNoMore(o: Saved, run: seq<Event>)
    requires NeverReturns([o.done] + Delivered(run))
    ensures DeathsIn(o, run, o.done) == 0
    decreases |run|
  {
    DeathsAreRuns(o, run, o.done);
    HandledRunsNoMore(o, run);
  }

  lemma {:induction false} DeathsAreRuns(o: Saved, run: seq<Event>, v: string)
    ensures DeathsIn(o, run, v) <= ManualRuns(o, run, v)
    decreases |run|
  {
    if run != [] {
      DeathsAreRuns(Next(o, run[0]), run[1..], v);
    }
  }

  lemma {:induction false} RunsAreLeading(o: Saved, run: seq<Event>, v: string)
    requires NeverReturns([o.done] + Delivered(run)) && o.done != v
    ensures ManualRuns(o, run, v) == Leading(run, v) == DeathsIn(o, run, v) + (if OneSurvives(run, v) then 1 else 0)
    decreases |run|
  {
    if run != [] {
      OneSurvivesStep(run, v);
      var n, rest := Next(o, run[0]), Delivered(run[1..]);
      if run[0].Request? {
        assert Delivered(run) == [run[0].d.requestedAt] + rest;
        NeverReturnsSkip(o.done, run[0].d.requestedAt, rest);
      } else {
        assert Delivered(run) == rest;
      }
      if n.done == v {
        HandledRunsNoMore(n, run[1..]);
        HandledDiesNoMore(n, run[1..]);
      } else {
        RunsAreLeading(n, run[1..], v);
      }
    }
  }

  /** The first delivery of `v` in the run. */
  predicate FirstAsk(run: seq<Event>, i: nat, v: string) {
    i < |run| && Asks(run[i], v) && forall h :: 0 <= h < i ==> !Asks(run[h], v)
  }

  /** The first delivery of `v` dies in its cleanup, and another one follows. */
  predicate DiesAndReturns(run: seq<Event>, v: string) {
    exists i, j :: 0 <= i < j < |run| && FirstAsk(run, i, v) && run[i].d.crash.DiesInCleanup? && Asks(run[j], v)
  }

  lemma {:induction false} LeadingAsked(run: seq<Event>, v: string)
    ensures Leading(run, v) > 0 <==> exists j :: 0 <= j < |run| && Asks(run[j], v)
    decreases |run|
  {
    if run != [] && !Asks(run[0], v) {
      LeadingAsked(run[1..], v);
      assert forall j :: 0 < j < |run| ==> run[j] == run[1..][j - 1];
      assert forall j :: 0 <= j < |run[1..]| ==> run[1..][j] == run[j + 1];
    }
  }

  lemma {:induction false} LeadingOnceIff(run: seq<Event>, v: string)
    ensures Leading(run, v) <= 1 <==> !DiesAndReturns(run, v)
    decreases |run|
  {
    if run != [] {
      var rest := run[1..];
      assert forall j :: 0 < j < |run| ==> run[j] == rest[j - 1];
      assert forall j :: 0 <= j < |rest| ==> rest[j] == run[j + 1];
      if Asks(run[0], v) {
        LeadingAsked(rest, v);
        assert FirstAsk(run, 0, v);
        assert forall i :: FirstAsk(run, i, v) ==> i == 0;
      } else {
        LeadingOnceIff(rest, v);
        assert forall i: nat :: i > 0 && FirstAsk(run, i, v) ==> FirstAsk(rest, i - 1, v);
        assert forall i: nat :: FirstAsk(rest, i, v) ==> FirstAsk(run, i + 1, v);
      }
    }
  }

  /** Main result: however often a request is delivered again and whatever automatic cleanups come in
      between, it runs once for each of its first deliveries up to the first that survives its cleanup:
      once for each death in its cleanups, and once more if some delivery survives, so at most once if and
      only if no death in the cleanup of its first delivery is followed by another delivery of it. */
  lemma {:induction false} ManualCleanupRunsOnce(o: Saved, run: seq<Event>, v: string)
    requires NeverReturns([o.done] + Delivered(run)) && o.done != v
    ensures ManualRuns(o, run, v) == Leading(run, v) == DeathsIn(o, run, v) + (if OneSurvives(run, v) then 1 else 0)
    ensures ManualRuns(o, run, v) <= 1 <==> !DiesAndReturns(run, v)
    ensures ManualRuns(o, run, v) > 0 <==> exists j :: 0 <= j < |run| && Asks(run[j], v)
  {
    RunsAreLeading(o, run, v);
    LeadingOnceIff(run, v);
    LeadingAsked(run, v);
  }

  /** An instance: the request is remembered only after the cleanup, so a death in it repeats it. */
  lemma {:induction false} DeathRepeatsCleanup(text: string)
    ensures var r := Delivery("v", text, Survives);
      ManualRuns(Saved("", "", ""), [Request(r.(crash := DiesInCleanup)), Request(r)], "v") == 2
  {
    var r := Delivery("v", text, Survives);
    var run := [Request(r.(crash := DiesInCleanup)), Request(r)];
    assert run[1..] == [Request(r)];
    assert ManualRuns(Saved("", "", ""), run[1..], "v") == 1 + ManualRuns(Saved("v", text, ""), run[1..][1..], "v");
  }

  /** The results of the automatic cleanups of a run that were completed. */
  function AutoResults(o: Saved, run: seq<Event>): seq<string>
    decreases |run|
  {
    if run == [] then [] else
      (if run[0].Auto? && AutoRuns(o, run[0].c) && !run[0].c.dies then [run[0].c.text] else [])
        + AutoResults(Next(o, run[0]), run[1..])
  }

  /** A redelivery runs nothing and sends what the one result slot holds, which is the text of the newest
      automatic cleanup, or what it held before if there was none. */
  lemma {:induction false} RedeliverySendsTheSlot(o: Saved, run: seq<Event>, again: Delivery)
    requires again.requestedAt == o.done
    requires forall v :: v in Delivered(run) ==> v == o.done
    ensures var n, autos := After(o, run), AutoResults(o, run);
      var sent := if autos == [] then o.result else autos[|autos| - 1];
      && AfterRequest(n, again) == n && n.done == o.done && n.result == sent
      && ReportOn(n, again) == Resent(sent)
    decreases |run|
  {
    if run != [] {
      assert Delivered(run) ==
        (if run[0].Request? then [run[0].d.requestedAt] else []) + Delivered(run[1..]);
      assert run[0].Request? ==> run[0].d.requestedAt in Delivered(run);
      assert forall v :: v in Delivered(run[1..]) ==> v in Delivered(run);
      RedeliverySendsTheSlot(Next(o, run[0]), run[1..], again);
    }
  }

  /** Main result: after a request has run, a redelivery of it runs nothing and sends the result of that
      run exactly when no automatic cleanup has completed since and the process did not die before the
      result was saved, or when the text that stands in the one result slot instead is the same. */
  lemma {:induction false} RedeliveryResends(o: Saved, d: Delivery, run: seq<Event>, again: Delivery)
    requires o.done != d.requestedAt && !d.crash.DiesInCleanup?
    requires forall v :: v in Delivered(run) ==> v == d.requestedAt
    requires again.requestedAt == d.requestedAt
    ensures var ran := AfterRequest(o, d);
      var n, autos := After(ran, run), AutoResults(ran, run);
      && AfterRequest(n, again) == n
      && (ReportOn(n, again) == Resent(d.text) <==>
            if autos == [] then d.crash.Survives? || o.result == d.text else autos[|autos| - 1] == d.text)
  {
    RedeliverySendsTheSlot(AfterRequest(o, d), run, again);
  }

  /** The failing case: the process dies between remembering request "b" and saving its result, and the
      redelivery sends the result of request "a" in its place. */
  lemma {:induction false} DeathSendsOlderResult(text: string, again: string)
    ensures var n := AfterRequest(Saved("a", "old", ""), Delivery("b", text, DiesBeforeResult));
      ReportOn(n, Delivery("b", again, Survives)) == Some("old")
  {
  }

  // ---------------------------------------------------------------- at most one automatic cleanup a day

  function Stamps(o: Saved, run: seq<Event>): seq<nat>
    decreases |run|
  {
    if run == [] then [] else
      (if run[0].Auto? && AutoRuns(o, run[0].c) then [run[0].c.now.value] else [])
        + Stamps(Next(o, run[0]), run[1..])
  }

  lemma {:induction false} StampsConcat(o: Saved, a: seq<Event>, b: seq<Event>)
    ensures Stamps(o, a + b) == Stamps(o, a) + Stamps(After(o, a), b)
    decreases |a|
  {
    if a == [] {
      assert a + b == b;
    } else {
      assert (a + b)[0] == a[0] && (a + b)[1..] == a[1..] + b;
      StampsConcat(Next(o, a[0]), a[1..], b);
    }
  }

  lemma {:induction false} StampsSpaced(o: Saved, run: seq<Event>)
    ensures var s := Stamps(o, run);
      Spaced(s, AUTO_CLEAN_MIN_INTERVAL_SECS)
      && (s != [] ==> s[0] >= LastAuto(o) + AUTO_CLEAN_MIN_INTERVAL_SECS)
    decreases |run|
  {
    if run != [] {
      StampsSpaced(Next(o, run[0]), run[1..]);
      if run[0].Auto? && AutoRuns(o, run[0].c) {
        RoundTrip(run[0].c.now.value);
      }
    }
  }

  /** Main result: for every clock, also one that jumps back, and with deaths in the middle of cleanups,
      `k` automatic cleanups carry stamps at least (k - 1) times 24 hours apart. */
  lemma {:induction false} AutoCleanupBound(o: Saved, run: seq<Event>)
    requires Stamps(o, run) != []
    ensures var s := Stamps(o, run);
      s[0] + (|s| - 1) * AUTO_CLEAN_MIN_INTERVAL_SECS <= s[|s| - 1]
  {
    StampsSpaced(o, run);
    SpacedSpan(Stamps(o, run), AUTO_CLEAN_MIN_INTERVAL_SECS);
  }

  /** Main result: the automatic cleanup runs exactly if both readings work, less than 5 GiB are free, and
      the clock has reached 24 hours after the stored stamp, or after 0 if that cannot be read. It leaves
      its own stamp, and its text if it gets to its end. */
  lemma {:induction false} AutoRunsExactly(o: Saved, c: Check)
    ensures var last := if Parse(o.autoAt).Some? then Parse(o.autoAt).value else 0;
      if c.free.Some? && c.now.Some? && c.free.value < 5 * 1024 * 1024 * 1024 && c.now.value >= last + 24 * 3600
        then AfterCheck(o, c) == Saved(o.done, if c.dies then o.result else c.text, Print(c.now.value))
             && Stamps(o, [Auto(c)]) == [c.now.value]
        else AfterCheck(o, c) == o && Stamps(o, [Auto(c)]) == []
  {
    assert [Auto(c)][1..] == [];
  }

  /** An automatic cleanup at `s` keeps the next one away for exactly a day, also when it dies. */
  lemma {:induction false} StampHoldsADay(o: Saved, first: Check, c: Check)
    requires first.now.Some? && Stamps(o, [Auto(first)]) != [] && c.free.Some? && c.free.value < 5 * 1024 * 1024 * 1024 && c.now.Some?
    ensures Stamps(AfterCheck(o, first), [Auto(c)]) ==
      if c.now.value >= first.now.value + 24 * 3600 then [c.now.value] else []
  {
    AutoRunsExactly(o, first);
    RoundTrip(first.now.value);
    AutoRunsExactly(AfterCheck(o, first), c);
  }
}
