/**
 Commands come down with every reply until the panel forgets them, and the agent acts only on a value
 that differs from the last one it acted on (src/chainremote_heartbeat.rs, `handle_sched_close` and
 `handle_cleanup_request`). When is that once per value?
 */
module Dedupe {
  /** The requests that really clear, out of all that are delivered. */
  function Handled(done: string, delivered: seq<string>): seq<string>
    decreases |delivered|
  {
    if delivered == [] then []
    else if delivered[0] == done then Handled(done, delivered[1..])
    else [delivered[0]] + Handled(delivered[0], delivered[1..])
  }

  predicate NoRepeats<T(==)>(s: seq<T>) {
    forall i, j :: 0 <= i < j < |s| ==> s[i] != s[j]
  }

  /** Nothing comes back after something else came in between. */
  predicate NeverReturns(s: seq<string>) {
    forall i, j, k :: 0 <= i < j < k < |s| && s[i] == s[k] ==> s[j] == s[i]
  }

  lemma {:induction false} HandledMembers(done: string, delivered: seq<string>)
    ensures forall v :: v in Handled(done, delivered) ==> v in delivered
    ensures forall v :: v in delivered ==> v == done || v in Handled(done, delivered)
    decreases |delivered|
  {
    if delivered != [] {
      HandledMembers(if delivered[0] == done then done else delivered[0], delivered[1..]);
    }
  }

  lemma {:induction false} NeverReturnsTail(first: string, rest: seq<string>)
    ensures NeverReturns([first] + rest) <==>
      NeverReturns(rest) && (first in rest ==> rest[0] == first)
  {
    var all := [first] + rest;
    assert all[1..] == rest;
    if NeverReturns(all) {
      forall i, j, k | 0 <= i < j < k < |rest| && rest[i] == rest[k] ensures rest[j] == rest[i] {
        assert all[i + 1] == all[k + 1] ==> all[j + 1] == all[i + 1];
      }
      if first in rest {
        var k :| 0 <= k < |rest| && rest[k] == first;
        if k > 0 {
          assert all[0] == all[k + 1] ==> all[1] == all[0];
        }
      }
    }
    if NeverReturns(rest) && (first in rest ==> rest[0] == first) {
      forall i, j, k | 0 <= i < j < k < |all| && all[i] == all[k] ensures all[j] == all[i] {
        assert all[k] == rest[k - 1] && all[j] == rest[j - 1];
        if i == 0 && j > 1 {
          assert rest[0] == rest[k - 1] ==> rest[j - 1] == rest[0];
        } else if i > 0 {
          assert all[i] == rest[i - 1];
        }
      }
    }
  }

  /** Main result: every request value clears at most once exactly when the panel never goes back to an
      older value after a newer one. */
  lemma {:induction false} ClearsOnceIff(done: string, delivered: seq<string>)
    ensures NoRepeats([done] + Handled(done, delivered)) <==> NeverReturns([done] + delivered)
    decreases |delivered|
  {
    if delivered == [] {
      assert [done] + delivered == [done];
    } else {
      var v, rest := delivered[0], delivered[1..];
      assert delivered == [v] + rest;
      NeverReturnsTail(done, delivered);
      ClearsOnceIff(v, rest);
      if v == done {
        assert Handled(done, delivered) == Handled(v, rest);
      } else {
        var h := [v] + Handled(v, rest);
        assert Handled(done, delivered) == h;
        HandledMembers(v, rest);
        assert done in delivered <==> done in h;
        assert ([done] + h)[1..] == h;
        assert NoRepeats([done] + h) <==> NoRepeats(h) && done !in h by {
          if NoRepeats([done] + h) {
            forall i, j | 0 <= i < j < |h| ensures h[i] != h[j] {
              assert ([done] + h)[i + 1] != ([done] + h)[j + 1];
            }
            forall j | 0 <= j < |h| ensures h[j] != done {
              assert ([done] + h)[0] != ([done] + h)[j + 1];
            }
          }
        }
      }
    }
  }
}
