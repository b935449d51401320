/** The Temp cleaner `clean_dir` of src/chainremote_heartbeat.rs and the run that calls it. */
module TempCleaner {
  import opened Options
  import opened FileTree

  predicate Removes(file: Node, cutoff: int) {
    file.File? && file.mtime.Some? && file.mtime.value < cutoff && !file.locked
  }

  /** The files a sweep removes: old for certain, not locked, and reached. */
  function Doomed(cutoff: int): Leaf -> bool {
    (l: Leaf) => l.reached && Removes(l.file, cutoff)
  }

  /** The files a sweep sees and leaves. */
  function Spared(cutoff: int): Leaf -> bool {
    (l: Leaf) => l.reached && !Removes(l.file, cutoff)
  }

  /** Entries a sweep meets whose metadata it cannot read. */
  function StatFailures(items: seq<Item>, depth: nat): nat
    decreases items
  {
    if items == [] then 0 else
      var item := items[0];
      (if !item.listed then 0
       else if !item.stat then 1
       else if item.node.Dir? && Entered(item.node.listable, depth + 1) then StatFailures(item.node.items, depth + 1)
       else 0) + StatFailures(items[1..], depth)
  }

  /** What a sweep leaves of a list of entries, and what it adds to the three counters. */
  datatype Swept = Swept(items: seq<Item>, freed: nat, deleted: nat, skipped: nat)

  function Join(a: Swept, b: Swept): Swept {
    Swept(a.items + b.items, a.freed + b.freed, a.deleted + b.deleted, a.skipped + b.skipped)
  }

  function SweepDir(listable: bool, items: seq<Item>, cutoff: int, depth: nat): Swept
    decreases items, 2
  {
    if Entered(listable, depth) then SweepItems(items, cutoff, depth) else Swept(items, 0, 0, 0)
  }

  function SweepItems(items: seq<Item>, cutoff: int, depth: nat): Swept
    decreases items, 1
  {
    if items == [] then Swept([], 0, 0, 0)
    else Join(SweepItem(items[0], cutoff, depth), SweepItems(items[1..], cutoff, depth))
  }

  function SweepItem(item: Item, cutoff: int, depth: nat): Swept
    decreases item, 0
  {
    if !item.listed then Swept([item], 0, 0, 0)
    else if !item.stat then Swept([item], 0, 0, 1)
    else match item.node
      case File(len, _, _) =>
        if Removes(item.node, cutoff) then Swept([], len, 1, 0) else Swept([item], 0, 0, 1)
      case Dir(listable, pinned, items) =>
        var inner := SweepDir(listable, items, cutoff, depth + 1);
        inner.(items := if inner.items == [] && !pinned then []
                        else [item.(node := Dir(listable, pinned, inner.items))])
  }

  /** `freed`, `deleted` and `skipped` are the counters the source passes down by reference. */
  class Cleaner {
    var freed: nat
    var deleted: nat
    var skipped: nat

    constructor ()
      ensures freed == deleted == skipped == 0
    {
      freed, deleted, skipped := 0, 0, 0;
    }

    ghost predicate Adds(s: Swept, freedBefore: nat, deletedBefore: nat, skippedBefore: nat)
      reads this
    {
      && freed == freedBefore + s.freed
      && deleted == deletedBefore + s.deleted
      && skipped == skippedBefore + s.skipped
    }

    method CleanDir(listable: bool, items: seq<Item>, cutoff: int, depth: nat) returns (left: seq<Item>)
      modifies this
      ensures left == SweepDir(listable, items, cutoff, depth).items
      ensures Adds(SweepDir(listable, items, cutoff, depth), old(freed), old(deleted), old(skipped))
      decreases items, 1
    {
      if depth > MAX_DEPTH {
        return items;
      }
      if !listable {
        return items;
      }
      left := [];
      ghost var all := SweepItems(items, cutoff, depth);
      assert items[0..] == items;
      for i := 0 to |items|
        invariant left + SweepItems(items[i..], cutoff, depth).items == all.items
        invariant freed + SweepItems(items[i..], cutoff, depth).freed == old(freed) + all.freed
        invariant deleted + SweepItems(items[i..], cutoff, depth).deleted == old(deleted) + all.deleted
        invariant skipped + SweepItems(items[i..], cutoff, depth).skipped == old(skipped) + all.skipped
      {
        assert items[i..][0] == items[i] && items[i..][1..] == items[i + 1..];
        var kept := CleanEntry(items[i], cutoff, depth);
        left := left + kept;
      }
    }

    /** One round of the loop of `clean_dir`. */
    method CleanEntry(item: Item, cutoff: int, depth: nat) returns (kept: seq<Item>)
      modifies this
      ensures kept == SweepItem(item, cutoff, depth).items
      ensures Adds(SweepItem(item, cutoff, depth), old(freed), old(deleted), old(skipped))
      decreases item, 0
    {
      kept := [item];
      if !item.listed {
        return;
      }
      if !item.stat {
        skipped := skipped + 1;
        return;
      }
      match item.node
      case Dir(listable, pinned, items) =>
        var inner := CleanDir(listable, items, cutoff, depth + 1);
        if inner == [] && !pinned {
          kept := [];
        } else {
          kept := [item.(node := Dir(listable, pinned, inner))];
        }
      case File(len, mtime, locked) =>
        if mtime.None? || mtime.value >= cutoff {
          skipped := skipped + 1;
          return;
        }
        if !locked {
          freed := freed + len;
          deleted := deleted + 1;
          kept := [];
        } else {
          skipped := skipped + 1;
        }
    }
  }

  // ---------------------------------------------------------------- exactly the doomed files go

  /** What a sweep did to the leaves of a list of entries it went through. */
  predicate SweptAsPromised(before: seq<Leaf>, after: seq<Leaf>, s: Swept, failures: nat, cutoff: int) {
    && after == Filter(Not(Doomed(cutoff)), before)
    && s.freed == Bytes(Filter(Doomed(cutoff), before))
    && s.deleted == |Filter(Doomed(cutoff), before)|
    && s.skipped == |Filter(Spared(cutoff), before)| + failures
  }

  lemma {:induction false} PromisesJoin(b1: seq<Leaf>, a1: seq<Leaf>, s1: Swept, f1: nat,
                     b2: seq<Leaf>, a2: seq<Leaf>, s2: Swept, f2: nat, cutoff: int)
    requires SweptAsPromised(b1, a1, s1, f1, cutoff) && SweptAsPromised(b2, a2, s2, f2, cutoff)
    ensures SweptAsPromised(b1 + b2, a1 + a2, Join(s1, s2), f1 + f2, cutoff)
  {
    FilterConcat(Not(Doomed(cutoff)), b1, b2);
    FilterConcat(Doomed(cutoff), b1, b2);
    FilterConcat(Spared(cutoff), b1, b2);
    BytesConcat(Filter(Doomed(cutoff), b1), Filter(Doomed(cutoff), b2));
  }

  /** Files that are not reached are not touched and not counted. */
  lemma {:induction false} UnreachedPromise(before: seq<Leaf>, s: Swept, failures: nat, cutoff: int)
    requires forall l :: l in before ==> !l.reached
    requires s.freed == s.deleted == 0 && s.skipped == failures
    ensures SweptAsPromised(before, before, s, failures, cutoff)
  {
    FilterAll(Not(Doomed(cutoff)), before);
    FilterAll(Not(Spared(cutoff)), before);
    NotNot(Doomed(cutoff), before);
    NotNot(Spared(cutoff), before);
  }

  lemma {:induction false} NotNot<T>(p: T -> bool, s: seq<T>)
    ensures Filter(Not(Not(p)), s) == Filter(p, s)
    decreases |s|
  {
    if s != [] {
      NotNot(p, s[1..]);
    }
  }

  lemma {:induction false} LeavesConcat(a: seq<Item>, b: seq<Item>, reached: bool, depth: nat, path: seq<string>)
    ensures Leaves(a + b, reached, depth, path) == Leaves(a, reached, depth, path) + Leaves(b, reached, depth, path)
    decreases |a|
  {
    if a == [] {
      assert a + b == b;
    } else {
      assert (a + b)[1..] == a[1..] + b;
      LeavesConcat(a[1..], b, reached, depth, path);
    }
  }

  lemma {:induction false} LeavesOfOne(item: Item, reached: bool, depth: nat, path: seq<string>)
    ensures Leaves([item], reached, depth, path) == LeavesOf(item, reached, depth, path)
  {
  }

  lemma {:induction false} SweepItemsPromise(items: seq<Item>, cutoff: int, depth: nat, path: seq<string>)
    requires depth <= MAX_DEPTH
    ensures var s := SweepItems(items, cutoff, depth);
      SweptAsPromised(Leaves(items, true, depth, path), Leaves(s.items, true, depth, path), s,
                      StatFailures(items, depth), cutoff)
    decreases items, 1
  {
    if items != [] {
      var one, rest := SweepItem(items[0], cutoff, depth), SweepItems(items[1..], cutoff, depth);
      SweepItemPromise(items[0], cutoff, depth, path);
      SweepItemsPromise(items[1..], cutoff, depth, path);
      LeavesConcat(one.items, rest.items, true, depth, path);
      PromisesJoin(LeavesOf(items[0], true, depth, path), Leaves(one.items, true, depth, path), one,
                   StatFailures([items[0]], depth),
                   Leaves(items[1..], true, depth, path), Leaves(rest.items, true, depth, path), rest,
                   StatFailures(items[1..], depth), cutoff);
      assert StatFailures(items, depth) == StatFailures([items[0]], depth) + StatFailures(items[1..], depth) by {
        assert [items[0]][1..] == [];
      }
    }
  }

  lemma {:induction false} SweepItemPromise(item: Item, cutoff: int, depth: nat, path: seq<string>)
    requires depth <= MAX_DEPTH
    ensures var s := SweepItem(item, cutoff, depth);
      SweptAsPromised(LeavesOf(item, true, depth, path), Leaves(s.items, true, depth, path), s,
                      StatFailures([item], depth), cutoff)
    decreases item, 0
  {
    var s := SweepItem(item, cutoff, depth);
    var here := path + [item.name];
    assert [item][1..] == [];
    LeavesOfOne(item, true, depth, path);
    match item.node
    case File(_, _, _) =>
      var leaf := Leaf(here, Seen(item, true), item.node);
      assert Leaves([item], true, depth, path) == [leaf];
      assert [leaf][1..] == [];
      assert Bytes([leaf]) == item.node.len;
    case Dir(listable, pinned, items) =>
      if Seen(item, true) && Entered(listable, depth + 1) {
        SweepItemsPromise(items, cutoff, depth + 1, here);
        var left := item.(node := Dir(listable, pinned, SweepItems(items, cutoff, depth + 1).items));
        LeavesOfOne(left, true, depth, path);
      } else {
        ClosedDirPromise(item, cutoff, depth, path);
      }
  }

  /** A directory that is not entered is left as it is, unless there is nothing in it. */
  lemma {:induction false} ClosedDirPromise(item: Item, cutoff: int, depth: nat, path: seq<string>)
    requires item.node.Dir? && !(Seen(item, true) && Entered(item.node.listable, depth + 1))
    ensures var s := SweepItem(item, cutoff, depth);
      SweptAsPromised(LeavesOf(item, true, depth, path), Leaves(s.items, true, depth, path), s,
                      StatFailures([item], depth), cutoff)
  {
    var s, here, items := SweepItem(item, cutoff, depth), path + [item.name], item.node.items;
    assert [item][1..] == [];
    if Seen(item, true) {
      assert SweepDir(item.node.listable, items, cutoff, depth + 1) == Swept(items, 0, 0, 0);
      assert s == Swept(if items == [] && !item.node.pinned then [] else [item], 0, 0, 0);
    }
    LeavesOfOne(item, true, depth, path);
    UnreachedLeaves(items, depth + 1, here);
    assert LeavesOf(item, true, depth, path) == Leaves(items, false, depth + 1, here);
    assert s.freed == s.deleted == 0 && s.skipped == StatFailures([item], depth);
    UnreachedPromise(LeavesOf(item, true, depth, path), s, StatFailures([item], depth), cutoff);
    if s.items == [] {
      assert items == [];
    } else {
      assert s.items == [item];
    }
  }

  /** Main result, for every tree: a sweep removes exactly the files it reaches that are old and not
      locked; all others stay, where they are and as they are. The bytes add up, and the counters count
      every file reached and every entry whose metadata could not be read. */
  lemma {:induction false} SweepRemovesExactlyTheDoomed(listable: bool, items: seq<Item>, cutoff: int, path: seq<string>)
    ensures var s := SweepDir(listable, items, cutoff, 0);
      var before := Leaves(items, listable, 0, path);
      var after := Leaves(s.items, listable, 0, path);
      && after == Filter(Not(Doomed(cutoff)), before)
      && Bytes(before) == Bytes(after) + s.freed
      && |before| == |after| + s.deleted
      && (listable ==> s.skipped == |Filter(Spared(cutoff), before)| + StatFailures(items, 0))
  {
    var before := Leaves(items, listable, 0, path);
    if listable {
      SweepItemsPromise(items, cutoff, 0, path);
    } else {
      UnreachedLeaves(items, 0, path);
      UnreachedPromise(before, SweepDir(listable, items, cutoff, 0), 0, cutoff);
    }
    FilterSplits(Doomed(cutoff), before);
  }

  /** Main result, in the terms of the file alone: a file is gone after a sweep if and only if it was reached,
      was not locked, and was known to have been modified before the cutoff. */
  lemma {:induction false} GoneIff(listable: bool, items: seq<Item>, cutoff: int, path: seq<string>, l: Leaf)
    requires l in Leaves(items, listable, 0, path)
    ensures l !in Leaves(SweepDir(listable, items, cutoff, 0).items, listable, 0, path) <==>
      l.file.File? && l.reached && !l.file.locked && l.file.mtime.Some? && l.file.mtime.value < cutoff
  {
    SweepRemovesExactlyTheDoomed(listable, items, cutoff, path);
    InFilter(Not(Doomed(cutoff)), Leaves(items, listable, 0, path), l);
    LeavesWithin(items, listable, 0, path, l);
  }

  // ---------------------------------------------------------------- directories

  /** An entry of which a sweep leaves nothing: a doomed file, or a directory that can be removed and of
      whose content nothing is left. */
  predicate Vanishes(item: Item, cutoff: int, depth: nat)
    decreases item, 0
  {
    item.listed && item.stat &&
    match item.node
    case File(_, _, _) => Removes(item.node, cutoff)
    case Dir(listable, pinned, items) =>
      !pinned && (items == [] || (Entered(listable, depth + 1) && AllVanish(items, cutoff, depth + 1)))
  }

  predicate AllVanish(items: seq<Item>, cutoff: int, depth: nat)
    decreases items, 1
  {
    items == [] || (Vanishes(items[0], cutoff, depth) && AllVanish(items[1..], cutoff, depth))
  }

  lemma {:induction false} VanishingItems(items: seq<Item>, cutoff: int, depth: nat)
    ensures SweepItems(items, cutoff, depth).items == [] <==> AllVanish(items, cutoff, depth)
    decreases items, 1
  {
    if items != [] {
      OnlyEmptyDirectoriesGo(items[0], cutoff, depth);
      VanishingItems(items[1..], cutoff, depth);
    }
  }

  /** Main result: a directory goes exactly when nothing is left in it, all the way down. */
  lemma {:induction false} OnlyEmptyDirectoriesGo(item: Item, cutoff: int, depth: nat)
    ensures SweepItem(item, cutoff, depth).items == [] <==> Vanishes(item, cutoff, depth)
    decreases item, 0
  {
    if item.node.Dir? {
      VanishingItems(item.node.items, cutoff, depth + 1);
    }
  }

  lemma {:induction false} SweepConcat(a: seq<Item>, b: seq<Item>, cutoff: int, depth: nat)
    ensures SweepItems(a + b, cutoff, depth) == Join(SweepItems(a, cutoff, depth), SweepItems(b, cutoff, depth))
    decreases |a|
  {
    var sb := SweepItems(b, cutoff, depth);
    if a == [] {
      assert a + b == b;
      assert Join(Swept([], 0, 0, 0), sb) == sb;
    } else {
      var one, rest := SweepItem(a[0], cutoff, depth), SweepItems(a[1..], cutoff, depth);
      assert (a + b)[0] == a[0] && (a + b)[1..] == a[1..] + b;
      SweepConcat(a[1..], b, cutoff, depth);
      assert SweepItems(a + b, cutoff, depth) == Join(one, Join(rest, sb));
      JoinAssociates(one, rest, sb);
    }
  }

  lemma {:induction false} JoinAssociates(a: Swept, b: Swept, c: Swept)
    ensures Join(a, Join(b, c)) == Join(Join(a, b), c)
  {
  }

  lemma {:induction false} SweepOne(item: Item, cutoff: int, depth: nat)
    ensures SweepItems([item], cutoff, depth) == SweepItem(item, cutoff, depth)
  {
  }

  lemma {:induction false} SweepItemsTwice(items: seq<Item>, cutoff: int, depth: nat)
    ensures var s := SweepItems(items, cutoff, depth);
      SweepItems(s.items, cutoff, depth) == Swept(s.items, 0, 0, s.skipped)
    decreases items, 1
  {
    if items != [] {
      var one, rest := SweepItem(items[0], cutoff, depth), SweepItems(items[1..], cutoff, depth);
      SweepItemTwice(items[0], cutoff, depth);
      SweepItemsTwice(items[1..], cutoff, depth);
      SweepConcat(one.items, rest.items, cutoff, depth);
    }
  }

  lemma {:induction false} SweepItemTwice(item: Item, cutoff: int, depth: nat)
    ensures var s := SweepItem(item, cutoff, depth);
      SweepItems(s.items, cutoff, depth) == Swept(s.items, 0, 0, s.skipped)
    decreases item, 0
  {
    var s := SweepItem(item, cutoff, depth);
    if s.items != [] {
      SweepOne(s.items[0], cutoff, depth);
    }
    if item.node.Dir? {
      SweepItemsTwice(item.node.items, cutoff, depth + 1);
    }
  }

  /** Main result: a second sweep with the same cutoff finds nothing more to remove, neither file nor
      directory, and skips what the first one skipped. */
  lemma {:induction false} SweepIsIdempotent(listable: bool, items: seq<Item>, cutoff: int, depth: nat)
    ensures var s := SweepDir(listable, items, cutoff, depth);
      SweepDir(listable, s.items, cutoff, depth) == Swept(s.items, 0, 0, s.skipped)
  {
    SweepItemsTwice(items, cutoff, depth);
  }

  // ---------------------------------------------------------------- the whole run

  datatype Root = Root(listable: bool, items: seq<Item>)

  /** The bytes and the items in the recycle bin. */
  datatype Bin = Bin(size: nat, count: nat)

  /** Whether the bin is to be emptied too; then, whether its size could be asked for, and what is left
      in it afterwards, which is all of it when the emptying fails. */
  datatype Recycling = LeaveBin | EmptyBin(queried: bool, left: Bin)

  /** What a whole run leaves, and the three numbers it reports. */
  datatype Cleaned = Cleaned(roots: seq<Root>, freed: nat, deleted: nat, skipped: nat, bin: Bin)

  function SweptRoots(roots: seq<Root>, cutoff: int, bin: Bin): Cleaned
    decreases |roots|
  {
    if roots == [] then Cleaned([], 0, 0, 0, bin) else
      var s := SweepDir(roots[0].listable, roots[0].items, cutoff, 0);
      var rest := SweptRoots(roots[1..], cutoff, bin);
      Cleaned([roots[0].(items := s.items)] + rest.roots, s.freed + rest.freed, s.deleted + rest.deleted,
              s.skipped + rest.skipped, rest.bin)
  }

  /** What was modified within the last hour stays. Times count 100 ns, as those of files do. */
  const RECENT: int := 3600 * 10_000_000

  /** The size of the bin is added before it is emptied, whatever becomes of that. */
  function CleanedUp(roots: seq<Root>, now: int, bin: Bin, recycling: Recycling): Cleaned {
    var swept := SweptRoots(roots, now - RECENT, bin);
    match recycling
    case LeaveBin => swept
    case EmptyBin(queried, left) =>
      var c := swept.(bin := left);
      if queried then c.(freed := c.freed + bin.size, deleted := c.deleted + bin.count) else c
  }

  /** What is left and counted so far, and what is still to come, make up `all`. */
  ghost predicate SoFar(left: seq<Root>, freed: nat, deleted: nat, skipped: nat, rest: Cleaned, all: Cleaned) {
    && left + rest.roots == all.roots && freed + rest.freed == all.freed
    && deleted + rest.deleted == all.deleted && skipped + rest.skipped == all.skipped && rest.bin == all.bin
  }

  lemma {:induction false} SweptRootsStep(roots: seq<Root>, i: nat, cutoff: int, bin: Bin,
                                          left: seq<Root>, freed: nat, deleted: nat, skipped: nat, all: Cleaned)
    requires i < |roots|
    requires SoFar(left, freed, deleted, skipped, SweptRoots(roots[i..], cutoff, bin), all)
    ensures var s := SweepDir(roots[i].listable, roots[i].items, cutoff, 0);
      SoFar(left + [roots[i].(items := s.items)], freed + s.freed, deleted + s.deleted, skipped + s.skipped,
            SweptRoots(roots[i + 1..], cutoff, bin), all)
  {
    var s, rest := SweepDir(roots[i].listable, roots[i].items, cutoff, 0), SweptRoots(roots[i + 1..], cutoff, bin);
    assert roots[i..][0] == roots[i] && roots[i..][1..] == roots[i + 1..];
    var swept := roots[i].(items := s.items);
    assert left + ([swept] + rest.roots) == (left + [swept]) + rest.roots;
  }

  /** `run_disk_cleanup`: all Temp folders, and the recycle bin when a person asked for it. */
  method RunDiskCleanup(roots: seq<Root>, now: int, bin: Bin, recycling: Recycling)
    returns (left: seq<Root>, freed: nat, deleted: nat, skipped: nat, binLeft: Bin)
    ensures Cleaned(left, freed, deleted, skipped, binLeft) == CleanedUp(roots, now, bin, recycling)
  {
    var cleaner := new Cleaner();
    var cutoff := now - RECENT;
    left, binLeft := [], bin;
    ghost var all := SweptRoots(roots, cutoff, bin);
    assert roots[0..] == roots;
    for i := 0 to |roots|
      invariant SoFar(left, cleaner.freed, cleaner.deleted, cleaner.skipped, SweptRoots(roots[i..], cutoff, bin), all)
    {
      SweptRootsStep(roots, i, cutoff, bin, left, cleaner.freed, cleaner.deleted, cleaner.skipped, all);
      var items := cleaner.CleanDir(roots[i].listable, roots[i].items, cutoff, 0);
      left := left + [roots[i].(items := items)];
    }
    freed, deleted, skipped := cleaner.freed, cleaner.deleted, cleaner.skipped;
    if recycling.EmptyBin? {
      if recycling.queried {
        freed := freed + bin.size;
        deleted := deleted + bin.count;
      }
      binLeft := recycling.left;
    }
  }

  /** All files below all Temp folders. */
  function RootLeaves(roots: seq<Root>): seq<Leaf>
    decreases |roots|
  {
    if roots == [] then [] else Leaves(roots[0].items, roots[0].listable, 0, []) + RootLeaves(roots[1..])
  }

  function RootStatFailures(roots: seq<Root>): nat
    decreases |roots|
  {
    if roots == [] then 0 else
      (if roots[0].listable then StatFailures(roots[0].items, 0) else 0) + RootStatFailures(roots[1..])
  }

  lemma {:induction false} SweptRootsPromise(roots: seq<Root>, cutoff: int, bin: Bin)
    ensures var c := SweptRoots(roots, cutoff, bin);
      SweptAsPromised(RootLeaves(roots), RootLeaves(c.roots), Swept([], c.freed, c.deleted, c.skipped),
                      RootStatFailures(roots), cutoff)
      && c.bin == bin
    decreases |roots|
  {
    if roots != [] {
      var r, rest := roots[0], SweptRoots(roots[1..], cutoff, bin);
      var s := SweepDir(r.listable, r.items, cutoff, 0);
      var before, failures := Leaves(r.items, r.listable, 0, []), if r.listable then StatFailures(r.items, 0) else 0;
      if r.listable {
        SweepItemsPromise(r.items, cutoff, 0, []);
      } else {
        UnreachedLeaves(r.items, 0, []);
        UnreachedPromise(before, s, 0, cutoff);
      }
      SweptRootsPromise(roots[1..], cutoff, bin);
      PromisesJoin(before, Leaves(s.items, r.listable, 0, []), s, failures,
                   RootLeaves(roots[1..]), RootLeaves(rest.roots), Swept([], rest.freed, rest.deleted, rest.skipped),
                   RootStatFailures(roots[1..]), cutoff);
      assert SweptRoots(roots, cutoff, bin).roots[1..] == rest.roots;
    }
  }

  /** Main result: over all Temp folders exactly the reached files go that are not locked and are known not to
      have been modified within the last hour, and what is reported as skipped are the other files reached
      and the entries that cannot be read. The reported bytes are those that are gone if and only if the bin
      was left alone, or was emptied of all that was counted, or was not counted and lost nothing; so are
      the reported numbers. */
  lemma {:induction false} ReportIsTrueIff(roots: seq<Root>, now: int, bin: Bin, recycling: Recycling)
    ensures var c := CleanedUp(roots, now, bin, recycling);
      var before, after := RootLeaves(roots), RootLeaves(c.roots);
      && after == Filter(Not(Doomed(now - RECENT)), before)
      && (forall l :: l in before ==>
            (l !in after <==> l.file.File? && l.reached && !l.file.locked
                              && l.file.mtime.Some? && l.file.mtime.value < now - 3600 * 10_000_000))
      && c.skipped == |Filter(Spared(now - RECENT), before)| + RootStatFailures(roots)
      && (Bytes(before) + bin.size == Bytes(after) + c.bin.size + c.freed <==>
            (recycling.EmptyBin? ==> recycling.left.size == if recycling.queried then 0 else bin.size))
      && (|before| + bin.count == |after| + c.bin.count + c.deleted <==>
            (recycling.EmptyBin? ==> recycling.left.count == if recycling.queried then 0 else bin.count))
  {
    var before := RootLeaves(roots);
    SweptRootsPromise(roots, now - RECENT, bin);
    FilterSplits(Doomed(now - RECENT), before);
    forall l | l in before
      ensures l in Filter(Not(Doomed(now - RECENT)), before) <==> !Doomed(now - RECENT)(l)
    {
      InFilter(Not(Doomed(now - RECENT)), before, l);
    }
  }

  /** The failing case: the bin answers the question for its size but cannot be emptied. All of it is
      reported as freed, and all of it is still there. */
  lemma {:induction false} FullBinReportedAsFreed(now: int, bin: Bin)
    requires bin.size > 0
    ensures var c := CleanedUp([], now, bin, EmptyBin(true, bin));
      c.freed == c.bin.size == bin.size && RootLeaves([]) == RootLeaves(c.roots) == []
  {
  }
}
