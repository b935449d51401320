/**
 What a copy that never overwrites does to a store: a list of operations, each of which creates a
 folder or a document where nothing is yet. Files on disk and registry keys are both such stores.
 */
module Overlay {
  datatype Content = Folder | Document(data: string)

  /** `Abort` stands for an entry of the source that cannot be read, `Blocked` for a document that cannot be
      written, which does not matter where there is one already. */
  datatype Op<K> = MakeDir(at: K) | Copy(at: K, data: string) | Blocked(at: K) | Abort

  predicate Puts<K>(op: Op<K>) {
    op.MakeDir? || op.Copy?
  }

  function Put<K>(op: Op<K>): Content
    requires Puts(op)
  {
    if op.MakeDir? then Folder else Document(op.data)
  }

  /** A folder cannot be made where a document stands; a copy that finds something is skipped. */
  predicate Fails<K(==)>(d: map<K, Content>, op: Op<K>) {
    op.Abort? || (op.Blocked? && op.at !in d) || (op.MakeDir? && op.at in d && d[op.at].Document?)
  }

  function Apply<K(==)>(d: map<K, Content>, op: Op<K>): map<K, Content>
    requires !Fails(d, op)
  {
    if op.at in d then d else d[op.at := Put(op)]
  }

  /** Performs the operations in order and stops at the first that fails. */
  function Perform<K(==)>(d: map<K, Content>, ops: seq<Op<K>>): (map<K, Content>, bool)
    decreases |ops|
  {
    if ops == [] then (d, true)
    else if Fails(d, ops[0]) then (d, false)
    else Perform(Apply(d, ops[0]), ops[1..])
  }

  lemma {:induction false} PerformOne<K>(d: map<K, Content>, op: Op<K>)
    requires !Fails(d, op)
    ensures Perform(d, [op]) == (Apply(d, op), true)
  {
    assert [op][1..] == [];
  }

  /** What the operations would make of an empty store: the first operation for a place wins. */
  function Planned<K(==)>(ops: seq<Op<K>>): map<K, Content>
    decreases |ops|
  {
    if ops == [] then map[]
    else if !Puts(ops[0]) then Planned(ops[1..])
    else Planned(ops[1..])[ops[0].at := Put(ops[0])]
  }

  /** `e` holds everything `d` holds, unchanged. */
  predicate Extends<K(==)>(e: map<K, Content>, d: map<K, Content>) {
    forall k :: k in d ==> k in e && e[k] == d[k]
  }

  lemma {:induction false} PerformConcat<K>(d: map<K, Content>, a: seq<Op<K>>, b: seq<Op<K>>)
    ensures Perform(d, a + b) ==
      if Perform(d, a).1 then Perform(Perform(d, a).0, b) else Perform(d, a)
    decreases |a|
  {
    if a == [] {
      assert a + b == b;
    } else {
      assert (a + b)[1..] == a[1..] + b;
      if !Fails(d, a[0]) {
        PerformConcat(Apply(d, a[0]), a[1..], b);
      }
    }
  }

  /** Main result: nothing that was there is changed or removed, whether the copy succeeds or fails. */
  lemma {:induction false} NothingOverwritten<K>(d: map<K, Content>, ops: seq<Op<K>>)
    ensures Extends(Perform(d, ops).0, d)
    decreases |ops|
  {
    if ops != [] && !Fails(d, ops[0]) {
      NothingOverwritten(Apply(d, ops[0]), ops[1..]);
    }
  }

  /** Main result: a copy that succeeds is a merge in which the store wins over the plan. */
  lemma {:induction false} PerformMerges<K>(d: map<K, Content>, ops: seq<Op<K>>)
    requires Perform(d, ops).1
    ensures Perform(d, ops).0 == Planned(ops) + d
    decreases |ops|
  {
    if ops != [] {
      PerformMerges(Apply(d, ops[0]), ops[1..]);
      assert Planned(ops) + d == Planned(ops[1..]) + Apply(d, ops[0]);
    }
  }

  /** Main result: a copy succeeds exactly when every entry can be read, every document that cannot be
      written is there already, and no folder is to be made where a document stands or has just been
      copied to. */
  lemma {:induction false} PerformSucceedsIff<K>(d: map<K, Content>, ops: seq<Op<K>>)
    ensures Perform(d, ops).1 <==>
      forall i :: 0 <= i < |ops| ==> !Fails(Planned(ops[..i]) + d, ops[i])
    decreases |ops|
  {
    if ops != [] {
      assert ops[..0] == [] && map[] + d == d;
      if Fails(d, ops[0]) {
        assert Fails(Planned(ops[..0]) + d, ops[0]);
      } else {
        var e, rest := Apply(d, ops[0]), ops[1..];
        PerformSucceedsIff(e, rest);
        forall i | 0 <= i < |rest|
          ensures Planned(rest[..i]) + e == Planned(ops[..i + 1]) + d && rest[i] == ops[i + 1]
        {
          assert ops[..i + 1][1..] == rest[..i] && ops[..i + 1][0] == ops[0];
        }
        if forall i :: 0 <= i < |rest| ==> !Fails(Planned(rest[..i]) + e, rest[i]) {
          forall i | 0 <= i < |ops| ensures !Fails(Planned(ops[..i]) + d, ops[i]) {
            if i > 0 {
              assert !Fails(Planned(rest[..i - 1]) + e, rest[i - 1]);
            }
          }
        } else {
          var i :| 0 <= i < |rest| && Fails(Planned(rest[..i]) + e, rest[i]);
          assert Fails(Planned(ops[..i + 1]) + d, ops[i + 1]);
        }
      }
    }
  }

  /** Performing again what has been performed changes nothing, also after more has been added, but not
      just what had been blocked. */
  lemma {:induction false} ReplayChangesNothing<K>(d: map<K, Content>, ops: seq<Op<K>>, e: map<K, Content>)
    requires Extends(e, Perform(d, ops).0)
    requires forall op :: op in ops && op.Blocked? && op.at in e ==> op.at in Perform(d, ops).0
    ensures Perform(e, ops) == (e, Perform(d, ops).1)
    decreases |ops|
  {
    if ops != [] {
      assert ops[0] in ops && forall op :: op in ops[1..] ==> op in ops;
      if Fails(d, ops[0]) {
        assert Fails(e, ops[0]);
      } else {
        var next := Apply(d, ops[0]);
        NothingOverwritten(next, ops[1..]);
        assert ops[0].at in next && ops[0].at in e;
        ReplayChangesNothing(next, ops[1..], e);
      }
    }
  }

  /** Main result: stopping after any number of operations and starting over gives what one
      uninterrupted run gives, also when that run fails. */
  lemma {:induction false} StopAndRerun<K>(d: map<K, Content>, ops: seq<Op<K>>, k: nat)
    requires k <= |ops|
    ensures Perform(Perform(d, ops[..k]).0, ops) == Perform(d, ops)
    decreases |ops|
  {
    if k > 0 && !Fails(d, ops[0]) {
      var next := Apply(d, ops[0]);
      assert ops[..k][1..] == ops[1..][..k - 1];
      var stopped := Perform(next, ops[1..][..k - 1]).0;
      assert Perform(d, ops[..k]).0 == stopped;
      NothingOverwritten(next, ops[1..][..k - 1]);
      assert ops[0].at in next && ops[0].at in stopped;
      StopAndRerun(next, ops[1..], k - 1);
      assert !Fails(stopped, ops[0]) && Apply(stopped, ops[0]) == stopped;
    }
  }

  // ---------------------------------------------------------------- what is left to do

  /** The operations that take place, up to the first that fails; all of them if none does. */
  function Executed<K(==)>(d: map<K, Content>, ops: seq<Op<K>>): (r: seq<Op<K>>)
    ensures r <= ops && (Perform(d, ops).1 <==> r == ops)
    decreases |ops|
  {
    if ops == [] || Fails(d, ops[0]) then [] else [ops[0]] + Executed(Apply(d, ops[0]), ops[1..])
  }

  /** Every operation that takes place finds something there already, or only touches `except`. */
  predicate Settled<K(==)>(d: map<K, Content>, ops: seq<Op<K>>, except: set<K>) {
    forall op :: op in Executed(d, ops) ==> !op.Abort? && (op.at in d || op.at in except)
  }

  /** A copy, also one that fails, adds nothing outside `except` exactly when it is settled. */
  lemma {:induction false} AddsNothingIff<K>(d: map<K, Content>, ops: seq<Op<K>>, except: set<K>)
    ensures Perform(d, ops).0 - except == d - except <==> Settled(d, ops, except)
    decreases |ops|
  {
    if ops != [] && !Fails(d, ops[0]) {
      var next, at := Apply(d, ops[0]), ops[0].at;
      assert Executed(d, ops) == [ops[0]] + Executed(next, ops[1..]);
      NothingOverwritten(next, ops[1..]);
      if at in d || at in except {
        assert next - except == d - except;
        AddsNothingIff(next, ops[1..], except);
        assert Settled(d, ops, except) <==> Settled(next, ops[1..], except);
      } else {
        assert at in Perform(d, ops).0 - except;
        assert ops[0] in Executed(d, ops);
      }
    }
  }

  /** Only what stands at the places of the operations matters to them. */
  lemma {:induction false} ExecutedDependsOnPlaces<K>(d: map<K, Content>, e: map<K, Content>, ops: seq<Op<K>>)
    requires forall op :: op in ops && !op.Abort? ==>
      (op.at in d <==> op.at in e) && (op.at in d ==> d[op.at] == e[op.at])
    ensures Executed(d, ops) == Executed(e, ops)
    decreases |ops|
  {
    if ops != [] {
      assert ops[0] in ops;
      if !Fails(d, ops[0]) {
        ExecutedDependsOnPlaces(Apply(d, ops[0]), Apply(e, ops[0]), ops[1..]);
      }
    }
  }

  lemma {:induction false} OtherPlacesStay<K>(d: map<K, Content>, ops: seq<Op<K>>, p: K)
    requires forall op :: op in ops ==> op.Abort? || op.at != p
    ensures var n := Perform(d, ops).0; (p in n <==> p in d) && (p in d ==> n[p] == d[p])
    decreases |ops|
  {
    if ops != [] && !Fails(d, ops[0]) {
      assert ops[0] in ops;
      OtherPlacesStay(Apply(d, ops[0]), ops[1..], p);
    }
  }

  // ---------------------------------------------------------------- copies that follow one another

  /** Several copies; one that fails does not keep the next from being tried. */
  function PerformAll<K(==)>(d: map<K, Content>, stages: seq<seq<Op<K>>>): map<K, Content>
    decreases |stages|
  {
    if stages == [] then d else PerformAll(Perform(d, stages[0]).0, stages[1..])
  }

  /** The store at the moment the process dies: before operation `k` of stage `i`. */
  function Interrupted<K(==)>(d: map<K, Content>, stages: seq<seq<Op<K>>>, i: nat, k: nat): map<K, Content>
    requires i < |stages| && k <= |stages[i]|
    decreases |stages|
  {
    if i == 0 then Perform(d, stages[0][..k]).0
    else Interrupted(Perform(d, stages[0]).0, stages[1..], i - 1, k)
  }

  /** Everything before stage `i` has been performed, as far as it goes, and `k` operations of that stage. */
  lemma {:induction false} InterruptedAfter<K>(d: map<K, Content>, stages: seq<seq<Op<K>>>, i: nat, k: nat)
    requires i < |stages| && k <= |stages[i]|
    ensures Interrupted(d, stages, i, k) == Perform(PerformAll(d, stages[..i]), stages[i][..k]).0
    decreases |stages|
  {
    if i > 0 {
      assert stages[..i][0] == stages[0] && stages[..i][1..] == stages[1..][..i - 1];
      InterruptedAfter(Perform(d, stages[0]).0, stages[1..], i - 1, k);
    }
  }

  /** No later copy fills a place that is blocked for an earlier one. */
  predicate BlockedApart<K(==)>(stages: seq<seq<Op<K>>>)
    decreases |stages|
  {
    stages == [] ||
    (&& (forall op :: op in stages[0] && op.Blocked? ==> Untouched(stages[1..], op.at))
     && BlockedApart(stages[1..]))
  }

  predicate Untouched<K(==)>(stages: seq<seq<Op<K>>>, p: K) {
    forall j :: 0 <= j < |stages| ==> forall op :: op in stages[j] ==> op.Abort? || op.at != p
  }

  lemma {:induction false} UntouchedStays<K>(d: map<K, Content>, stages: seq<seq<Op<K>>>, p: K)
    requires Untouched(stages, p)
    ensures p in PerformAll(d, stages) <==> p in d
    decreases |stages|
  {
    if stages != [] {
      OtherPlacesStay(d, stages[0], p);
      assert forall j :: 0 <= j < |stages[1..]| ==> stages[1..][j] == stages[j + 1];
      UntouchedStays(Perform(d, stages[0]).0, stages[1..], p);
    }
  }

  lemma {:induction false} UntouchedInterrupted<K>(d: map<K, Content>, stages: seq<seq<Op<K>>>, i: nat, k: nat, p: K)
    requires i < |stages| && k <= |stages[i]| && Untouched(stages, p)
    ensures p in Interrupted(d, stages, i, k) <==> p in d
    decreases |stages|
  {
    if i == 0 {
      assert forall op :: op in stages[0][..k] ==> op in stages[0];
      OtherPlacesStay(d, stages[0][..k], p);
    } else {
      OtherPlacesStay(d, stages[0], p);
      assert forall j :: 0 <= j < |stages[1..]| ==> stages[1..][j] == stages[j + 1];
      UntouchedInterrupted(Perform(d, stages[0]).0, stages[1..], i - 1, k, p);
    }
  }

  lemma {:induction false} InterruptedExtends<K>(d: map<K, Content>, stages: seq<seq<Op<K>>>, i: nat, k: nat)
    requires i < |stages| && k <= |stages[i]|
    ensures Extends(Interrupted(d, stages, i, k), d)
    decreases |stages|
  {
    if i == 0 {
      NothingOverwritten(d, stages[0][..k]);
    } else {
      NothingOverwritten(d, stages[0]);
      InterruptedExtends(Perform(d, stages[0]).0, stages[1..], i - 1, k);
    }
  }

  /** Main result: wherever the process dies, running all copies again completes them. */
  lemma {:induction false} RerunCompletes<K>(d: map<K, Content>, stages: seq<seq<Op<K>>>, i: nat, k: nat)
    requires i < |stages| && k <= |stages[i]| && BlockedApart(stages)
    ensures PerformAll(Interrupted(d, stages, i, k), stages) == PerformAll(d, stages)
    decreases |stages|
  {
    if i == 0 {
      StopAndRerun(d, stages[0], k);
    } else {
      var next := Perform(d, stages[0]).0;
      var stopped := Interrupted(next, stages[1..], i - 1, k);
      InterruptedExtends(next, stages[1..], i - 1, k);
      forall op | op in stages[0] && op.Blocked? && op.at in stopped ensures op.at in next {
        UntouchedInterrupted(next, stages[1..], i - 1, k, op.at);
      }
      ReplayChangesNothing(d, stages[0], stopped);
      RerunCompletes(next, stages[1..], i - 1, k);
    }
  }

  lemma {:induction false} PerformAllExtends<K>(d: map<K, Content>, stages: seq<seq<Op<K>>>)
    ensures Extends(PerformAll(d, stages), d)
    decreases |stages|
  {
    if stages != [] {
      NothingOverwritten(d, stages[0]);
      PerformAllExtends(Perform(d, stages[0]).0, stages[1..]);
    }
  }

  /** Running all copies again, after all of them have run, changes nothing. */
  lemma {:induction false} AllAgainChangesNothing<K>(d: map<K, Content>, stages: seq<seq<Op<K>>>)
    requires BlockedApart(stages)
    ensures PerformAll(PerformAll(d, stages), stages) == PerformAll(d, stages)
  {
    AllAgainFrom(d, stages, PerformAll(d, stages));
  }

  lemma {:induction false} AllAgainFrom<K>(d: map<K, Content>, stages: seq<seq<Op<K>>>, e: map<K, Content>)
    requires BlockedApart(stages) && e == PerformAll(d, stages)
    ensures PerformAll(e, stages) == e
    decreases |stages|
  {
    if stages != [] {
      var next := Perform(d, stages[0]).0;
      PerformAllExtends(next, stages[1..]);
      forall op | op in stages[0] && op.Blocked? && op.at in e ensures op.at in next {
        UntouchedStays(next, stages[1..], op.at);
      }
      ReplayChangesNothing(d, stages[0], e);
      AllAgainFrom(next, stages[1..], e);
    }
  }
}
