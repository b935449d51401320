/**
 How often the heartbeat loop of src/chainremote_heartbeat.rs runs (`run_loop`, `nap_watching_sched`).
 Time is seconds of sleep since the service started. `live(s)` is what a look at the window during a nap
 finds at time `s`; `seen(i)` is what `status` shows right after tick `i`, which both the choice of the
 nap and its first look read; `justCleared(i)` tells whether tick `i` has cleared a window.
 */
module Cadence {
  const FIRST_DELAY: nat := 60 * 2
  const HEARTBEAT_INTERVAL: nat := 60 * 10
  const SCHED_INTERVAL: nat := 60
  const SLICE: nat := 10

  /** A moment at which a nap that began at `start` looks at the window. */
  predicate LooksAt(start: nat, total: nat, s: nat) {
    start < s <= start + total && (s - start) % SLICE == 0
  }

  /** The nap that begins at `start` ends at `end`: in time, or at the first look that finds a window
      where there was none at the beginning. */
  ghost predicate NapEnds(live: nat -> bool, hadSched: bool, start: nat, total: nat, end: nat) {
    && start <= end <= start + total
    && (end == start + total || (!hadSched && LooksAt(start, total, end) && live(end)))
    && (!hadSched ==> forall s: nat :: LooksAt(start, total, s) && s < end ==> !live(s))
  }

  /** Within one slice there is no look but the one at its end. */
  lemma {:induction false} NoLookInsideSlice(start: nat, total: nat, slept: nat, s: nat)
    requires slept % SLICE == 0 && start + slept < s < start + slept + SLICE
    ensures !LooksAt(start, total, s)
  {
  }

  method NapWatchingSched(live: nat -> bool, hadSched: bool, start: nat, total: nat) returns (end: nat)
    ensures NapEnds(live, hadSched, start, total, end)
  {
    var slept := 0;
    while slept < total
      invariant slept <= total && (slept < total ==> slept % SLICE == 0)
      invariant !hadSched ==> forall s: nat ::
        LooksAt(start, total, s) && s <= start + slept && s < start + total ==> !live(s)
      decreases total - slept
    {
      var slice := if total - slept < SLICE then total - slept else SLICE;
      forall s: nat | start + slept < s < start + slept + SLICE
        ensures !LooksAt(start, total, s)
      {
        NoLookInsideSlice(start, total, slept, s);
      }
      slept := slept + slice;
      if !hadSched && live(start + slept) {
        return start + slept;
      }
    }
    return start + slept;
  }

  function NapLength(seen: bool, justCleared: bool): nat {
    if justCleared || seen then SCHED_INTERVAL else HEARTBEAT_INTERVAL
  }

  /** `times` are the times of the first ticks of the loop. */
  ghost predicate TickTimes(live: nat -> bool, seen: nat -> bool, justCleared: nat -> bool, times: seq<nat>) {
    && times != [] && times[0] == FIRST_DELAY
    && forall i :: 0 <= i < |times| - 1 ==>
         NapEnds(live, seen(i), times[i], NapLength(seen(i), justCleared(i)), times[i + 1])
  }

  /** `run_loop`, stopped after `n` naps. */
  method RunLoop(live: nat -> bool, seen: nat -> bool, justCleared: nat -> bool, n: nat) returns (times: seq<nat>)
    ensures |times| == n + 1 && TickTimes(live, seen, justCleared, times)
  {
    times := [FIRST_DELAY];
    var now := FIRST_DELAY;
    for i := 0 to n
      invariant |times| == i + 1 && TickTimes(live, seen, justCleared, times) && now == times[i]
    {
      var nap := if justCleared(i) || seen(i) then SCHED_INTERVAL else HEARTBEAT_INTERVAL;
      now := NapWatchingSched(live, seen(i), now, nap);
      times := times + [now];
    }
  }

  /** A nap has one end only, so the loop has one schedule only. */
  lemma {:induction false} NapEndsOnce(live: nat -> bool, hadSched: bool, start: nat, total: nat,
                                       end1: nat, end2: nat)
    requires NapEnds(live, hadSched, start, total, end1) && NapEnds(live, hadSched, start, total, end2)
    ensures end1 == end2
  {
  }

  /** Every nap has an end, whatever the looks find. */
  lemma {:induction false} EveryNapEnds(live: nat -> bool, hadSched: bool, start: nat, total: nat, slept: nat)
      returns (end: nat)
    requires slept <= total && (slept < total ==> slept % SLICE == 0)
    requires !hadSched ==> forall s: nat :: LooksAt(start, total, s) && s <= start + slept && s < start + total ==> !live(s)
    ensures NapEnds(live, hadSched, start, total, end)
    decreases total - slept
  {
    if slept == total {
      end := start + total;
    } else {
      var next := if total - slept < SLICE then total else slept + SLICE;
      forall s: nat | start + slept < s < start + slept + SLICE ensures !LooksAt(start, total, s) {
        NoLookInsideSlice(start, total, slept, s);
      }
      if !hadSched && live(start + next) && next < total {
        end := start + next;
      } else {
        end := EveryNapEnds(live, hadSched, start, total, next);
      }
    }
  }

  /** No nap is shorter than a slice or longer than ten minutes, so every moment falls into one. */
  lemma {:induction false} TicksAdvance(live: nat -> bool, seen: nat -> bool, justCleared: nat -> bool,
                                        times: seq<nat>, i: nat)
    requires TickTimes(live, seen, justCleared, times) && i < |times|
    ensures FIRST_DELAY + SLICE * i <= times[i] <= FIRST_DELAY + HEARTBEAT_INTERVAL * i
  {
    if i > 0 {
      TicksAdvance(live, seen, justCleared, times, i - 1);
      var total := NapLength(seen(i - 1), justCleared(i - 1));
      assert NapEnds(live, seen(i - 1), times[i - 1], total, times[i - 1 + 1]);
    }
  }

  /** A nap during which a window appears, at `a`, and stays ends within a minute of that, and within one
      slice if it was to be a long one. */
  lemma {:induction false} NapEndsSoon(live: nat -> bool, hadSched: bool, justCleared: bool, start: nat, end: nat, a: nat)
    requires NapEnds(live, hadSched, start, NapLength(hadSched, justCleared), end)
    requires start <= a <= end && forall s: nat :: a <= s <= end && start < s ==> live(s)
    ensures end <= a + SCHED_INTERVAL
    ensures !hadSched && !justCleared ==> end <= a + SLICE && (start < a ==> end < a + SLICE)
  {
    if !hadSched {
      var look: nat := start + if a == start then SLICE else (a - start + SLICE - 1) / SLICE * SLICE;
      assert a <= look <= a + SLICE && (start < a ==> look < a + SLICE);
      assert look < end ==> LooksAt(start, NapLength(hadSched, justCleared), look) && live(look);
    }
  }

  /** Main result: if a window is there from `a` until the next tick, that tick comes within a minute,
      even when the nap began with no window in sight. A grant in a long nap ends it within one slice. */
  lemma {:induction false} LiveWindowTicksWithinAMinute(live: nat -> bool, seen: nat -> bool,
                                                        justCleared: nat -> bool, times: seq<nat>,
                                                        i: nat, a: nat)
    requires TickTimes(live, seen, justCleared, times) && i + 1 < |times|
    requires times[i] <= a <= times[i + 1]
    requires forall s: nat :: a <= s <= times[i + 1] && times[i] < s ==> live(s)
    ensures times[i + 1] <= a + SCHED_INTERVAL
    ensures !seen(i) && !justCleared(i) ==>
      times[i + 1] <= a + SLICE && (times[i] < a ==> times[i + 1] < a + SLICE)
  {
    NapEndsSoon(live, seen(i), justCleared(i), times[i], times[i + 1], a);
  }

  /** Main result: the first tick comes after two minutes; while a window is shown, or right after one was
      cleared and with none in sight, the next comes exactly a minute later. */
  lemma {:induction false} ShownWindowTicksEveryMinute(live: nat -> bool, seen: nat -> bool,
                                                       justCleared: nat -> bool, times: seq<nat>, i: nat)
    requires TickTimes(live, seen, justCleared, times) && i + 1 < |times|
    requires seen(i) || (justCleared(i) && forall s: nat :: times[i] < s < times[i] + 60 ==> !live(s))
    ensures times[0] == 120 && times[i + 1] == times[i] + 60
  {
    assert NapEnds(live, seen(i), times[i], NapLength(seen(i), justCleared(i)), times[i + 1]);
  }

  /** Main result: a window that appears in the middle of a long nap, `k` seconds after its beginning, wakes
      it at the next multiple of ten seconds. */
  lemma {:induction false} NewWindowEndsNapAtNextLook(live: nat -> bool, seen: nat -> bool,
                                                      justCleared: nat -> bool, times: seq<nat>, i: nat, k: nat)
    requires TickTimes(live, seen, justCleared, times) && i + 1 < |times|
    requires !seen(i) && !justCleared(i) && 0 < k <= 600
    requires forall s: nat :: times[i] < s <= times[i] + 600 ==> (live(s) <==> s >= times[i] + k)
    ensures times[i + 1] == times[i] + (k + 9) / 10 * 10
  {
    var look: nat := times[i] + (k + 9) / 10 * 10;
    assert NapEnds(live, seen(i), times[i], NapLength(seen(i), justCleared(i)), times[i + 1]);
    assert LooksAt(times[i], 600, look) && live(look);
  }

  /** With no window in sight and none just cleared, ticks are ten minutes of sleep apart, exactly. */
  lemma {:induction false} QuietLoopTicksEveryTenMinutes(live: nat -> bool, seen: nat -> bool,
                                                         justCleared: nat -> bool, times: seq<nat>, i: nat)
    requires TickTimes(live, seen, justCleared, times) && i + 1 < |times|
    requires !justCleared(i) && !seen(i)
    requires forall s: nat :: times[i] < s <= times[i] + HEARTBEAT_INTERVAL ==> !live(s)
    ensures times[i + 1] == times[i] + HEARTBEAT_INTERVAL
  {
  }
}
