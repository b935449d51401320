/**
 How long a recorded direct-connect failure counts (src/chainremote_direct.rs), with the two places in
 src/client.rs that take the full window and record the result.
 */
module Direct {
  import opened Options
  import opened Decimal
  import opened Spacing

  const RETRY_AFTER_SECS: nat := 6 * 60 * 60
  const KEY := "cr-direct-fail-at"

  datatype Peer = Peer(directFailures: nat, uiFlutter: map<string, string>)

  function Stamped(p: Peer, keep: bool, now: U64): Peer {
    p.(uiFlutter := if keep then p.uiFlutter[KEY := Print(now)] else p.uiFlutter - {KEY})
  }

  function StampOf(p: Peer): Option<U64> {
    if KEY in p.uiFlutter then Parse(p.uiFlutter[KEY]) else None
  }

  predicate RetryDue(p: Peer, now: U64) {
    match StampOf(p)
    case None => true
    case Some(at) => now < at || now - at >= RETRY_AFTER_SECS
  }

  /** `Unreported` covers failed connects, forced relay and callers that do not update the record. */
  datatype Outcome = DirectConnection | RelayConnection | Unreported

  /** One connection attempt reads the clock up to three times: for the check, for the stamp of a retry,
      and for the stamp of a changed result. */
  datatype Attempt = Attempt(check: U64, take: U64, settle: U64, outcome: Outcome)

  predicate TakesRetry(p: Peer, a: Attempt) {
    p.directFailures > 0 && RetryDue(p, a.check)
  }

  function AfterAttempt(p: Peer, a: Attempt): Peer {
    var q := if TakesRetry(p, a) then Stamped(p, true, a.take) else p;
    if a.outcome.Unreported? || (q.directFailures == 0) == a.outcome.DirectConnection? then q else
      var n := if a.outcome.DirectConnection? then 0 else 1;
      Stamped(q.(directFailures := n), n > 0, a.settle)
  }

  class PeerConfig {
    var directFailures: nat
    var uiFlutter: map<string, string>

    constructor ()
      ensures State() == Peer(0, map[])
    {
      directFailures, uiFlutter := 0, map[];
    }

    function State(): Peer
      reads this
    {
      Peer(directFailures, uiFlutter)
    }

    method Stamp(keep: bool, now: U64)
      modifies this
      ensures State() == Stamped(old(State()), keep, now)
    {
      if keep {
        uiFlutter := uiFlutter[KEY := Print(now)];
      } else {
        uiFlutter := uiFlutter - {KEY};
      }
    }

    method IsRetryDue(now: U64) returns (due: bool)
      ensures due == RetryDue(State(), now)
    {
      if KEY !in uiFlutter {
        return true;
      }
      var at := Parse(uiFlutter[KEY]);
      if at.None? {
        return true;
      }
      return now < at.value || now - at.value >= RETRY_AFTER_SECS;
    }

    method Connect(a: Attempt) returns (retry: bool)
      modifies this
      ensures retry == TakesRetry(old(State()), a)
      ensures State() == AfterAttempt(old(State()), a)
    {
      retry := false;
      if directFailures > 0 {
        retry := IsRetryDue(a.check);
      }
      if retry {
        Stamp(true, a.take);
      }
      if !a.outcome.Unreported? {
        var direct := a.outcome.DirectConnection?;
        if (directFailures == 0) != direct {
          directFailures := if direct then 0 else 1;
          Stamp(directFailures > 0, a.settle);
        }
      }
    }
  }

  /** A stamp written at `s` keeps the full window away for exactly six hours, and no longer when the
      clock is set back. */
  lemma {:induction false} StampHoldsSixHours(p: Peer, s: U64, t: U64)
    ensures RetryDue(Stamped(p, true, s), t) <==> t < s || t >= s + RETRY_AFTER_SECS
    ensures RetryDue(Stamped(p, false, s), t)
  {
    RoundTrip(s);
  }

  predicate ClockFrom(clock: nat, run: seq<Attempt>)
    decreases |run|
  {
    run == [] || (clock <= run[0].check <= run[0].take <= run[0].settle && ClockFrom(run[0].settle, run[1..]))
  }

  /** The times at which attempts of the run took the full window again. */
  function Retries(p: Peer, run: seq<Attempt>): seq<nat>
    decreases |run|
  {
    if run == [] then [] else
      (if TakesRetry(p, run[0]) then [run[0].check] else []) + Retries(AfterAttempt(p, run[0]), run[1..])
  }

  function After(p: Peer, run: seq<Attempt>): Peer
    decreases |run|
  {
    if run == [] then p else After(AfterAttempt(p, run[0]), run[1..])
  }

  lemma {:induction false} RetriesConcat(p: Peer, a: seq<Attempt>, b: seq<Attempt>)
    ensures Retries(p, a + b) == Retries(p, a) + Retries(After(p, a), b)
    decreases |a|
  {
    if a == [] {
      assert a + b == b;
    } else {
      assert (a + b)[0] == a[0] && (a + b)[1..] == a[1..] + b;
      RetriesConcat(AfterAttempt(p, a[0]), a[1..], b);
    }
  }

  lemma {:induction false} RetriesSpaced(p: Peer, clock: nat, run: seq<Attempt>)
    requires ClockFrom(clock, run)
    requires forall a :: a in run ==> !a.outcome.DirectConnection?
    ensures var r := Retries(p, run);
      && Spaced(r, RETRY_AFTER_SECS)
      && (r != [] && StampOf(p).Some? && StampOf(p).value <= clock ==>
            r[0] >= StampOf(p).value + RETRY_AFTER_SECS)
    decreases |run|
  {
    if run != [] {
      var a := run[0];
      var q := AfterAttempt(p, a);
      RoundTrip(a.take);
      RoundTrip(a.settle);
      RetriesSpaced(q, a.settle, run[1..]);
      if TakesRetry(p, a) {
        assert StampOf(q) == Some(a.take);
      } else {
        assert StampOf(q) == StampOf(p) || StampOf(q) == Some(a.settle);
      }
    }
  }

  /** Main result: on a clock that does not go back, `k` retries with the full window and no direct
      connection in between span at least (k - 1) times six hours. */
  lemma {:induction false} RetryBound(p: Peer, clock: nat, run: seq<Attempt>)
    requires ClockFrom(clock, run)
    requires forall a :: a in run ==> !a.outcome.DirectConnection?
    requires Retries(p, run) != []
    ensures var r := Retries(p, run);
      r[0] + (|r| - 1) * RETRY_AFTER_SECS <= r[|r| - 1]
  {
    RetriesSpaced(p, clock, run);
    SpacedSpan(Retries(p, run), RETRY_AFTER_SECS);
  }

  /** Main result: an attempt takes the full window again exactly if a failure is recorded, however many, and
      its stamp is missing, cannot be read, lies ahead of the clock, or is six hours old. It then leaves a
      new stamp; a connection that changes the record leaves a stamp after a failure, and none and no
      failure after success. */
  lemma {:induction false} AttemptExactly(p: Peer, a: Attempt)
    ensures var stamp := if "cr-direct-fail-at" in p.uiFlutter then Parse(p.uiFlutter["cr-direct-fail-at"]) else None;
      var takes := p.directFailures >= 1 && (stamp.None? || a.check < stamp.value || a.check - stamp.value >= 6 * 3600);
      var q := AfterAttempt(p, a);
      && Retries(p, [a]) == (if takes then [a.check] else [])
      && (a.outcome.DirectConnection? ==> q.directFailures == 0 && (p.directFailures > 0 ==> StampOf(q) == None))
      && (a.outcome.RelayConnection? ==>
            && q.directFailures == (if p.directFailures == 0 then 1 else p.directFailures)
            && StampOf(q) == (if p.directFailures == 0 then Some(a.settle) else if takes then Some(a.take) else stamp))
      && (a.outcome.Unreported? ==>
            q.directFailures == p.directFailures && StampOf(q) == if takes then Some(a.take) else stamp)
      && (forall k :: k != "cr-direct-fail-at" ==>
            (k in q.uiFlutter <==> k in p.uiFlutter) && (k in p.uiFlutter ==> q.uiFlutter[k] == p.uiFlutter[k]))
  {
    assert [a][1..] == [];
    RoundTrip(a.take);
    RoundTrip(a.settle);
  }
}
