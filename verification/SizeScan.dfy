/** The time-limited folder sizes of src/chainremote_heartbeat.rs (`dir_size_budgeted`, `measured_top_dirs`). */
module SizeScan {
  import opened Options
  import opened FileTree

  /** The total of the files a walk reaches. */
  function ReachedBytes(leaves: seq<Leaf>): nat
    decreases |leaves|
  {
    if leaves == [] then 0 else
      (if leaves[0].reached then LeafLen(leaves[0]) else 0) + ReachedBytes(leaves[1..])
  }

  lemma {:induction false} ReachedConcat(a: seq<Leaf>, b: seq<Leaf>)
    ensures ReachedBytes(a + b) == ReachedBytes(a) + ReachedBytes(b)
    decreases |a|
  {
    if a == [] {
      assert a + b == b;
    } else {
      assert (a + b)[1..] == a[1..] + b;
      ReachedConcat(a[1..], b);
    }
  }

  lemma {:induction false} ReachedAtMostAll(leaves: seq<Leaf>)
    ensures ReachedBytes(leaves) <= Bytes(leaves)
    ensures (forall l :: l in leaves ==> l.reached) ==> ReachedBytes(leaves) == Bytes(leaves)
    ensures (forall l :: l in leaves ==> !l.reached) ==> ReachedBytes(leaves) == 0
    decreases |leaves|
  {
    if leaves != [] {
      assert forall l :: l in leaves[1..] ==> l in leaves;
      ReachedAtMostAll(leaves[1..]);
      assert leaves[0] in leaves;
    }
  }

  function Reach(items: seq<Item>, reached: bool, depth: nat): nat {
    ReachedBytes(Leaves(items, reached, depth, []))
  }

  lemma {:induction false} PathFree(items: seq<Item>, reached: bool, depth: nat, p: seq<string>, q: seq<string>)
    ensures ReachedBytes(Leaves(items, reached, depth, p)) == ReachedBytes(Leaves(items, reached, depth, q))
    decreases items
  {
    if items != [] {
      var here := items[0];
      PathFree(items[1..], reached, depth, p, q);
      if here.node.Dir? {
        PathFree(here.node.items, Seen(here, reached) && Entered(here.node.listable, depth + 1), depth + 1,
                 p + [here.name], q + [here.name]);
      } else {
        var l := Leaf(p + [here.name], Seen(here, reached), here.node);
        assert [l][1..] == [];
        assert ReachedBytes([l]) == ReachedBytes([l.(path := q + [here.name])]);
      }
      ReachedConcat(LeavesOf(here, reached, depth, p), Leaves(items[1..], reached, depth, p));
      ReachedConcat(LeavesOf(here, reached, depth, q), Leaves(items[1..], reached, depth, q));
    }
  }

  /** What one entry of a directory that is read contributes. */
  function EntryReach(item: Item, depth: nat): nat {
    if !Seen(item, true) then 0
    else match item.node
      case File(len, _, _) => len
      case Dir(listable, _, items) => Reach(items, Entered(listable, depth + 1), depth + 1)
  }

  lemma {:induction false} ReachCons(items: seq<Item>, depth: nat)
    requires items != []
    ensures Reach(items, true, depth) == EntryReach(items[0], depth) + Reach(items[1..], true, depth)
  {
    var item := items[0];
    ReachedConcat(LeavesOf(item, true, depth, []), Leaves(items[1..], true, depth, []));
    match item.node
    case File(_, _, _) =>
      var l := Leaf([] + [item.name], Seen(item, true), item.node);
      assert [l][1..] == [];
      assert LeavesOf(item, true, depth, []) == [l];
    case Dir(listable, _, inner) =>
      PathFree(inner, Seen(item, true) && Entered(listable, depth + 1), depth + 1, [] + [item.name], []);
      if !Seen(item, true) {
        UnreachedLeaves(inner, depth + 1, []);
        ReachedAtMostAll(Leaves(inner, false, depth + 1, []));
      }
  }

  /** A clock that is looked at again and again: `late(k)` says whether look number `k` finds the
      deadline passed. Nothing is assumed about it, not even that it stays passed. */
  class Scanner {
    const late: nat -> bool
    var looks: nat
    var measuredAt: nat

    constructor (late: nat -> bool)
      ensures this.late == late && looks == measuredAt == 0
    {
      this.late := late;
      looks, measuredAt := 0, 0;
    }

    method Look() returns (isLate: bool)
      modifies this`looks
      ensures looks == old(looks) + 1 && isLate == late(old(looks))
    {
      isLate := late(looks);
      looks := looks + 1;
    }

    /** No look since number `k` found the deadline passed. */
    ghost predicate OnTimeSince(k: nat)
      reads this
    {
      forall j: nat :: k <= j < looks ==> !late(j)
    }

    /** Every look from number `k` on finds the deadline passed. */
    ghost predicate LateFrom(k: nat) {
      forall j: nat :: k <= j ==> late(j)
    }

    /** `dir_size_budgeted`: never more than the files reached, and all of them if no look was late. A call
        made after the deadline looks once and counts nothing; one under way then makes at most 64 more
        looks for each level of directories it is in. */
    method DirSize(listable: bool, items: seq<Item>, depth: nat) returns (sum: nat)
      modifies this`looks
      ensures looks >= old(looks)
      ensures sum <= Reach(items, Entered(listable, depth), depth)
      ensures OnTimeSince(old(looks)) ==> sum == Reach(items, Entered(listable, depth), depth)
      ensures depth > MAX_DEPTH ==> looks == old(looks)
      ensures late(old(looks)) ==> sum == 0 && looks <= old(looks) + 1
      ensures forall k: nat :: LateFrom(k) && old(looks) <= k ==> looks <= k + LooksLeft(depth)
      decreases items, 1
    {
      sum := 0;
      UnreachedLeaves(items, depth, []);
      ReachedAtMostAll(Leaves(items, false, depth, []));
      if depth > MAX_DEPTH {
        return;
      }
      var isLate := Look();
      if isLate {
        return;
      }
      if !listable {
        return;
      }
      var listed := 0;
      assert items[0..] == items;
      for i := 0 to |items|
        invariant looks > old(looks)
        invariant sum + Reach(items[i..], true, depth) <= Reach(items, true, depth)
        invariant OnTimeSince(old(looks)) ==>
          sum + Reach(items[i..], true, depth) == Reach(items, true, depth)
        invariant listed == 0 ==> looks == old(looks) + 1
        invariant forall k: nat :: LateFrom(k) && old(looks) < k < looks ==>
          listed > 0 && looks <= k + LooksLeft(depth + 1) + (listed - 1) % 64
        invariant !late(old(looks))
      {
        assert items[i..][0] == items[i] && items[i..][1..] == items[i + 1..];
        ReachCons(items[i..], depth);
        if items[i].listed {
          if listed % 64 == 0 {
            isLate := Look();
            if isLate {
              break;
            }
          }
          listed := listed + 1;
          var size := EntrySize(items[i], depth);
          sum := sum + size;
        }
      }
    }

    method EntrySize(item: Item, depth: nat) returns (size: nat)
      requires item.listed
      modifies this`looks
      ensures looks >= old(looks)
      ensures size <= EntryReach(item, depth)
      ensures OnTimeSince(old(looks)) ==> size == EntryReach(item, depth)
      ensures late(old(looks)) ==> looks <= old(looks) + 1
      ensures forall k: nat :: LateFrom(k) && old(looks) <= k ==> looks <= k + LooksLeft(depth + 1)
      decreases item, 0
    {
      size := 0;
      if item.stat {
        match item.node
        case Dir(listable, _, items) =>
          size := DirSize(listable, items, depth + 1);
        case File(len, _, _) =>
          size := len;
      }
    }

    /** `measured_top_dirs`. `found` is the list before sorting: what the scan took each folder for. */
    method MeasuredTopDirs(diskFree: nat, now: Option<nat>, roots: seq<Root>)
      returns (report: Option<seq<Sized>>, found: seq<Sized>)
      modifies this
      ensures var due := now.Some? && diskFree < 20 * 1024 * 1024 * 1024
          && (old(measuredAt) == 0 || now.value >= old(measuredAt) + 6 * 3600);
        if !due then report == None && measuredAt == old(measuredAt) && looks == old(looks) else
        && measuredAt == now.value
        && report == (if found == [] then None else Some(TopOf(found)))
        && Picked(found, AllCandidates(roots))
        && (forall k: nat, n: nat :: LateFrom(k) && old(looks) <= k && NoRootOver(roots, n) ==>
              looks <= k + 64 * 17 + n + 1)
        && (OnTimeSince(old(looks)) ==> found == AllLarge(roots))
    {
      report, found := None, [];
      if now.None? {
        return;
      }
      var last := measuredAt;
      var elapsed := if now.value < last then 0 else now.value - last;
      if diskFree >= LOW_BYTES || (last != 0 && elapsed < REMEASURE_SECS) {
        return;
      }
      measuredAt := now.value;
      found := ScanRoots(roots);
      report := if found == [] then None else Some(TopOf(found));
    }

    method ScanRoots(roots: seq<Root>) returns (large: seq<Sized>)
      modifies this`looks
      ensures looks >= old(looks)
      ensures Picked(large, AllCandidates(roots))
      ensures OnTimeSince(old(looks)) ==> large == AllLarge(roots)
      ensures forall k: nat, n: nat :: LateFrom(k) && old(looks) <= k && NoRootOver(roots, n) ==>
        looks <= k + LooksLeft(0) + n + 1
    {
      large := [];
      assert roots[0..] == roots && roots[..0] == [];
      for r := 0 to |roots|
        invariant looks >= old(looks)
        invariant Picked(large, AllCandidates(roots[..r]))
        invariant forall k: nat, n: nat :: LateFrom(k) && old(looks) <= k && NoRootOver(roots, n) ==>
          looks <= k + LooksLeft(0) + n
        invariant OnTimeSince(old(looks)) ==> large + AllLarge(roots[r..]) == AllLarge(roots)
      {
        var root := roots[r];
        AllLargeCons(roots[r..]);
        assert roots[r..][0] == root && roots[r..][1..] == roots[r + 1..];
        var isLate := Look();
        if isLate {
          AllCandidatesSplit(roots, r);
          PickedNone(AllCandidates(roots[r..]));
          PickedConcat(large, AllCandidates(roots[..r]), [], AllCandidates(roots[r..]));
          assert large + [] == large;
          return;
        }
        AllCandidatesSnoc(roots, r);
        if root.listable {
          var more := ScanFolders(root);
          PickedConcat(large, AllCandidates(roots[..r]), more, Candidates(root.name, root.folders));
          Associates(large, more, AllLarge(roots[r + 1..]));
          large := large + more;
        } else {
          assert AllCandidates(roots[..r + 1]) == AllCandidates(roots[..r]);
        }
      }
      assert roots[..|roots|] == roots;
    }

    method ScanFolders(root: Root) returns (large: seq<Sized>)
      requires root.listable
      modifies this`looks
      ensures looks >= old(looks)
      ensures Picked(large, Candidates(root.name, root.folders))
      ensures OnTimeSince(old(looks)) ==> large == LargeFolders(root.name, root.folders)
      ensures forall k: nat :: LateFrom(k) && old(looks) <= k ==> looks <= k + LooksLeft(0) + |root.folders|
    {
      large := [];
      var folders := root.folders;
      assert folders[0..] == folders && folders[..0] == [];
      for i := 0 to |folders|
        invariant looks >= old(looks)
        invariant Picked(large, Candidates(root.name, folders[..i]))
        invariant forall k: nat :: LateFrom(k) && old(looks) <= k ==> looks <= k + LooksLeft(0) + i
        invariant OnTimeSince(old(looks)) ==>
          large + LargeFolders(root.name, folders[i..]) == LargeFolders(root.name, folders)
      {
        assert folders[i..][0] == folders[i] && folders[i..][1..] == folders[i + 1..];
        var more := ScanFolder(root, folders[i]);
        Associates(large, more, LargeFolders(root.name, folders[i + 1..]));
        CandidatesSnoc(root.name, folders, i);
        PickedConcat(large, Candidates(root.name, folders[..i]), more, IfCandidate(root.name, folders[i]));
        large := large + more;
      }
      assert folders[..|folders|] == folders;
    }

    /** One round of the inner loop: the folder, if it is large enough as far as it was measured. */
    method ScanFolder(root: Root, folder: Item) returns (more: seq<Sized>)
      requires root.listable && folder in root.folders
      modifies this`looks
      ensures looks >= old(looks)
      ensures Picked(more, IfCandidate(root.name, folder))
      ensures OnTimeSince(old(looks)) ==> more == IfLarge(root.name, folder)
      ensures late(old(looks)) ==> more == [] && looks <= old(looks) + 1
      ensures forall k: nat :: LateFrom(k) && old(looks) <= k ==> looks <= k + LooksLeft(0)
    {
      more := [];
      if Candidate(folder) {
        var size := DirSize(folder.node.listable, folder.node.items, 0);
        if size >= MIN_REPORT_BYTES {
          assert size <= FolderReach(folder);
          more := [Sized(Label(root.name, folder), size)];
          assert more[1..] == [] && IfCandidate(root.name, folder)[1..] == [];
        }
      }
    }
  }

  /** How many looks a walk at `depth` may make after the deadline. */
  function LooksLeft(depth: nat): nat {
    if depth > 16 then 0 else 64 * (17 - depth)
  }

  // ---------------------------------------------------------------- the report of the largest folders

  const LOW_BYTES: nat := 20 * 1024 * 1024 * 1024
  const REMEASURE_SECS: nat := 6 * 3600
  const TOP_N: nat := 8
  const MIN_REPORT_BYTES: nat := 200 * 1024 * 1024

  /** One of the parent folders whose sub-folders are measured. */
  datatype Root = Root(name: string, listable: bool, folders: seq<Item>)

  predicate NoRootOver(roots: seq<Root>, n: nat) {
    forall r :: 0 <= r < |roots| ==> |roots[r].folders| <= n
  }

  datatype Sized = Sized(title: string, bytes: nat)

  function Lower(s: string): string {
    seq(|s|, i requires 0 <= i < |s| =>
      if 'A' <= s[i] <= 'Z' then ((s[i] as int) + 32) as char else s[i])
  }

  /** Temp is reported elsewhere and not counted twice. */
  predicate Candidate(folder: Item) {
    folder.listed && folder.stat && folder.node.Dir? && Lower(folder.name) != "temp"
  }

  function Label(root: string, folder: Item): string {
    root + "\\" + folder.name
  }

  function FolderReach(folder: Item): nat {
    if folder.node.Dir? then Reach(folder.node.items, Entered(folder.node.listable, 0), 0) else 0
  }

  /** The folder with all bytes reached in it, whatever its size. */
  function IfCandidate(root: string, folder: Item): seq<Sized> {
    if Candidate(folder) then [Sized(Label(root, folder), FolderReach(folder))] else []
  }

  function Candidates(root: string, folders: seq<Item>): seq<Sized>
    decreases |folders|
  {
    if folders == [] then [] else IfCandidate(root, folders[0]) + Candidates(root, folders[1..])
  }

  /** Every folder the scan comes by, in order. */
  function AllCandidates(roots: seq<Root>): seq<Sized>
    decreases |roots|
  {
    if roots == [] then [] else
      (if roots[0].listable then Candidates(roots[0].name, roots[0].folders) else []) + AllCandidates(roots[1..])
  }

  /** The entry is of that folder, not overstated, and large enough to be reported. */
  predicate Measures(f: Sized, folder: Sized) {
    f.title == folder.title && MIN_REPORT_BYTES <= f.bytes <= folder.bytes
  }

  /** Some of the folders, each at most once and in the same order, each with no more than its bytes. */
  predicate Picked(found: seq<Sized>, folders: seq<Sized>)
    decreases |folders|
  {
    if found == [] then true
    else if folders == [] then false
    else (Measures(found[0], folders[0]) && Picked(found[1..], folders[1..])) || Picked(found, folders[1..])
  }

  /** The name is "temp", in whatever case. */
  predicate NamedTemp(name: string) {
    && |name| == 4 && (name[0] == 't' || name[0] == 'T') && (name[1] == 'e' || name[1] == 'E')
    && (name[2] == 'm' || name[2] == 'M') && (name[3] == 'p' || name[3] == 'P')
  }

  /** The scan comes by the readable directories whose names are not "temp", and by all of these. */
  lemma {:induction false} CandidatesExactly(root: string, folders: seq<Item>)
    ensures forall f :: f in Candidates(root, folders) <==>
      exists d :: d in folders && ComesBy(d) && f == FullEntry(root, d)
    decreases |folders|
  {
    if folders != [] {
      CandidatesExactly(root, folders[1..]);
      LowerTemp(folders[0].name);
      assert folders == [folders[0]] + folders[1..];
      forall f
        ensures f in Candidates(root, folders) <==> exists d :: d in folders && ComesBy(d) && f == FullEntry(root, d)
      {
        assert f in Candidates(root, folders) <==> f in IfCandidate(root, folders[0]) || f in Candidates(root, folders[1..]);
        if d :| d in folders && ComesBy(d) && f == FullEntry(root, d) {
          assert d == folders[0] || d in folders[1..];
        }
        if f in IfCandidate(root, folders[0]) {
          assert folders[0] in folders && f == FullEntry(root, folders[0]);
        } else if f in Candidates(root, folders[1..]) {
          var d :| d in folders[1..] && ComesBy(d) && f == FullEntry(root, d);
          assert d in folders;
        }
      }
    }
  }

  predicate ComesBy(folder: Item) {
    folder.listed && folder.stat && folder.node.Dir? && !NamedTemp(folder.name)
  }

  /** The bytes of the files a walk of the folder reaches. */
  function FilesReached(folder: Item): nat
    requires folder.node.Dir?
  {
    ReachedBytes(Leaves(folder.node.items, folder.node.listable, 0, []))
  }

  predicate IsLarge(folder: Item) {
    ComesBy(folder) && FilesReached(folder) >= 200 * 1024 * 1024
  }

  /** The entry of a folder at full size. */
  function FullEntry(root: string, folder: Item): Sized
    requires folder.node.Dir?
  {
    Sized(root + "\\" + folder.name, FilesReached(folder))
  }

  /** What is reported when no look is late: all of these of at least 200 MB, at full size. */
  lemma {:induction false} LargeExactly(root: string, folders: seq<Item>)
    ensures forall f :: f in LargeFolders(root, folders) <==>
      exists d :: d in folders && IsLarge(d) && f == FullEntry(root, d)
    decreases |folders|
  {
    if folders != [] {
      LargeExactly(root, folders[1..]);
      LowerTemp(folders[0].name);
      assert folders == [folders[0]] + folders[1..];
      forall f
        ensures f in LargeFolders(root, folders) <==> exists d :: d in folders && IsLarge(d) && f == FullEntry(root, d)
      {
        assert f in LargeFolders(root, folders) <==> f in IfLarge(root, folders[0]) || f in LargeFolders(root, folders[1..]);
        if d :| d in folders && IsLarge(d) && f == FullEntry(root, d) {
          assert d == folders[0] || d in folders[1..];
        }
        if f in IfLarge(root, folders[0]) {
          assert folders[0] in folders && f == FullEntry(root, folders[0]);
        } else if f in LargeFolders(root, folders[1..]) {
          var d :| d in folders[1..] && IsLarge(d) && f == FullEntry(root, d);
          assert d in folders;
        }
      }
    }
  }

  lemma {:induction false} LowerTemp(name: string)
    ensures Lower(name) == "temp" <==> NamedTemp(name)
  {
    var l := Lower(name);
    if NamedTemp(name) {
      assert l == [l[0], l[1], l[2], l[3]] == "temp";
    }
    if l == "temp" {
      assert l[0] == 't' && l[1] == 'e' && l[2] == 'm' && l[3] == 'p';
    }
  }

  lemma {:induction false} PickedNone(folders: seq<Sized>)
    ensures Picked([], folders)
  {
  }

  lemma {:induction false} PickedConcat(f: seq<Sized>, a: seq<Sized>, g: seq<Sized>, b: seq<Sized>)
    requires Picked(f, a) && Picked(g, b)
    ensures Picked(f + g, a + b)
    decreases |a|
  {
    if a == [] {
      assert f + g == g && a + b == b;
    } else {
      assert (a + b)[0] == a[0] && (a + b)[1..] == a[1..] + b;
      if f == [] {
        PickedConcat([], a[1..], g, b);
        assert f + g == [] + g;
      } else if Picked(f, a[1..]) {
        PickedConcat(f, a[1..], g, b);
      } else {
        PickedConcat(f[1..], a[1..], g, b);
        assert (f + g)[0] == f[0] && (f + g)[1..] == f[1..] + g;
      }
    }
  }

  /** The entries of `found` belong to these positions of the scan, which ascend. */
  predicate Positions(at: seq<nat>, found: seq<Sized>, folders: seq<Sized>) {
    && |at| == |found|
    && (forall k :: 0 <= k < |at| ==> at[k] < |folders| && Measures(found[k], folders[at[k]]))
    && (forall j, k :: 0 <= j < k < |at| ==> at[j] < at[k])
  }

  lemma {:induction false} PositionsLater(at: seq<nat>, found: seq<Sized>, folders: seq<Sized>) returns (later: seq<nat>)
    requires folders != [] && Positions(at, found, folders[1..])
    ensures Positions(later, found, folders) && forall k :: 0 <= k < |later| ==> later[k] > 0
  {
    later := seq(|at|, i requires 0 <= i < |at| => at[i] + 1);
    assert forall i :: 0 <= i < |folders[1..]| ==> folders[1..][i] == folders[i + 1];
  }

  /** No folder is reported twice: the entries belong to different folders, in the order of the scan. */
  lemma {:induction false} PickedPositions(found: seq<Sized>, folders: seq<Sized>) returns (at: seq<nat>)
    requires Picked(found, folders)
    ensures Positions(at, found, folders)
    ensures |at| == |found|
    ensures forall k :: 0 <= k < |at| ==>
      && at[k] < |folders| && found[k].title == folders[at[k]].title
      && 200 * 1024 * 1024 <= found[k].bytes <= folders[at[k]].bytes
    ensures forall j, k :: 0 <= j < k < |at| ==> at[j] < at[k]
    decreases |folders|
  {
    at := [];
    if found != [] {
      if Measures(found[0], folders[0]) && Picked(found[1..], folders[1..]) {
        var rest := PickedPositions(found[1..], folders[1..]);
        rest := PositionsLater(rest, found[1..], folders);
        at := [0] + rest;
        assert forall k :: 0 < k < |at| ==> at[k] == rest[k - 1] && found[k] == found[1..][k - 1];
      } else {
        at := PickedPositions(found, folders[1..]);
        at := PositionsLater(at, found, folders);
      }
    }
  }

  lemma {:induction false} CandidatesSnoc(root: string, folders: seq<Item>, i: nat)
    requires i < |folders|
    ensures Candidates(root, folders[..i + 1]) == Candidates(root, folders[..i]) + IfCandidate(root, folders[i])
    decreases |folders|
  {
    if i == 0 {
      assert folders[..1][1..] == [] && folders[..0] == [];
    } else {
      CandidatesSnoc(root, folders[1..], i - 1);
      assert folders[1..][..i] == folders[..i + 1][1..] && folders[1..][..i - 1] == folders[..i][1..];
      Associates(IfCandidate(root, folders[0]), Candidates(root, folders[..i][1..]), IfCandidate(root, folders[i]));
    }
  }

  lemma {:induction false} AllCandidatesSnoc(roots: seq<Root>, r: nat)
    requires r < |roots|
    ensures AllCandidates(roots[..r + 1]) == AllCandidates(roots[..r])
      + if roots[r].listable then Candidates(roots[r].name, roots[r].folders) else []
    decreases |roots|
  {
    var mine := if roots[r].listable then Candidates(roots[r].name, roots[r].folders) else [];
    if r == 0 {
      assert roots[..1][1..] == [] && roots[..0] == [];
    } else {
      var first := if roots[0].listable then Candidates(roots[0].name, roots[0].folders) else [];
      AllCandidatesSnoc(roots[1..], r - 1);
      assert roots[1..][..r] == roots[..r + 1][1..] && roots[1..][..r - 1] == roots[..r][1..];
      Associates(first, AllCandidates(roots[..r][1..]), mine);
    }
  }

  lemma {:induction false} AllCandidatesSplit(roots: seq<Root>, r: nat)
    requires r <= |roots|
    ensures AllCandidates(roots) == AllCandidates(roots[..r]) + AllCandidates(roots[r..])
    decreases |roots|
  {
    if r == 0 {
      assert roots[..0] == [] && roots[0..] == roots;
    } else {
      var first := if roots[0].listable then Candidates(roots[0].name, roots[0].folders) else [];
      AllCandidatesSplit(roots[1..], r - 1);
      assert roots[1..][..r - 1] == roots[..r][1..] && roots[1..][r - 1..] == roots[r..];
      Associates(first, AllCandidates(roots[..r][1..]), AllCandidates(roots[r..]));
    }
  }

  function IfLarge(root: string, folder: Item): seq<Sized> {
    if Candidate(folder) && FolderReach(folder) >= MIN_REPORT_BYTES
      then [Sized(Label(root, folder), FolderReach(folder))] else []
  }

  function LargeFolders(root: string, folders: seq<Item>): seq<Sized>
    decreases |folders|
  {
    if folders == [] then [] else IfLarge(root, folders[0]) + LargeFolders(root, folders[1..])
  }

  /** Every folder worth a report, with its full size. */
  function AllLarge(roots: seq<Root>): seq<Sized>
    decreases |roots|
  {
    if roots == [] then [] else
      (if roots[0].listable then LargeFolders(roots[0].name, roots[0].folders) else []) + AllLarge(roots[1..])
  }

  lemma {:induction false} Associates<T>(a: seq<T>, b: seq<T>, c: seq<T>)
    ensures (a + b) + c == a + (b + c)
  {
  }

  lemma {:induction false} AllLargeCons(roots: seq<Root>)
    requires roots != []
    ensures AllLarge(roots) == if roots[0].listable
      then LargeFolders(roots[0].name, roots[0].folders) + AllLarge(roots[1..]) else AllLarge(roots[1..])
  {
  }

  /** The stable descending sort of the standard library, as an insertion of one element after another. */
  function Insert(x: Sized, s: seq<Sized>): seq<Sized>
    decreases |s|
  {
    if s == [] || s[0].bytes < x.bytes then [x] + s else [s[0]] + Insert(x, s[1..])
  }

  function SortDescending(s: seq<Sized>): seq<Sized>
    decreases |s|
  {
    if s == [] then [] else Insert(s[|s| - 1], SortDescending(s[..|s| - 1]))
  }

  function TopOf(s: seq<Sized>): seq<Sized> {
    var sorted := SortDescending(s);
    if |sorted| > TOP_N then sorted[..TOP_N] else sorted
  }

  predicate Descending(s: seq<Sized>) {
    forall i, j :: 0 <= i < j < |s| ==> s[i].bytes >= s[j].bytes
  }

  lemma {:induction false} InsertKeeps(x: Sized, s: seq<Sized>)
    ensures multiset(Insert(x, s)) == multiset(s) + multiset{x} && |Insert(x, s)| == |s| + 1
    decreases |s|
  {
    if s != [] && s[0].bytes >= x.bytes {
      InsertKeeps(x, s[1..]);
      assert s == [s[0]] + s[1..];
    } else {
      assert Insert(x, s) == [x] + s;
    }
  }

  lemma {:induction false} InsertDescends(x: Sized, s: seq<Sized>)
    requires Descending(s)
    ensures Descending(Insert(x, s))
    ensures Insert(x, s)[0] == x || (s != [] && Insert(x, s)[0] == s[0])
    decreases |s|
  {
    if s != [] && s[0].bytes >= x.bytes {
      InsertDescends(x, s[1..]);
      var tail := Insert(x, s[1..]);
      assert tail[0].bytes <= s[0].bytes;
      assert forall j :: 0 <= j < |tail| ==> tail[j].bytes <= tail[0].bytes;
    }
  }

  lemma {:induction false} SortSorts(s: seq<Sized>)
    ensures Descending(SortDescending(s)) && multiset(SortDescending(s)) == multiset(s)
    ensures |SortDescending(s)| == |s|
    decreases |s|
  {
    if s != [] {
      var n := |s| - 1;
      SortSorts(s[..n]);
      InsertDescends(s[n], SortDescending(s[..n]));
      InsertKeeps(s[n], SortDescending(s[..n]));
      assert s == s[..n] + [s[n]];
    }
  }

  lemma {:induction false} CutInTwo(sorted: seq<Sized>, n: nat)
    requires n <= |sorted| && Descending(sorted)
    ensures multiset(sorted) == multiset(sorted[..n]) + multiset(sorted[n..])
    ensures Descending(sorted[..n])
    ensures forall i, j :: 0 <= i < n && 0 <= j < |sorted| - n ==> sorted[n..][j].bytes <= sorted[..n][i].bytes
  {
    assert sorted == sorted[..n] + sorted[n..];
  }

  /** The entries of one size, in order. */
  function OfSize(s: seq<Sized>, bytes: nat): seq<Sized>
    decreases |s|
  {
    if s == [] then [] else (if s[0].bytes == bytes then [s[0]] else []) + OfSize(s[1..], bytes)
  }

  lemma {:induction false} OfSizeConcat(a: seq<Sized>, b: seq<Sized>, bytes: nat)
    ensures OfSize(a + b, bytes) == OfSize(a, bytes) + OfSize(b, bytes)
    decreases |a|
  {
    if a == [] {
      assert a + b == b;
    } else {
      assert (a + b)[0] == a[0] && (a + b)[1..] == a[1..] + b;
      OfSizeConcat(a[1..], b, bytes);
    }
  }

  lemma {:induction false} InsertIsStable(x: Sized, s: seq<Sized>, bytes: nat)
    requires Descending(s)
    ensures OfSize(Insert(x, s), bytes) == OfSize(s + [x], bytes)
    decreases |s|
  {
    OfSizeConcat(s, [x], bytes);
    assert [x][1..] == [];
    if s != [] && s[0].bytes >= x.bytes {
      InsertIsStable(x, s[1..], bytes);
      OfSizeConcat(s[1..], [x], bytes);
    } else {
      assert ([x] + s)[1..] == s;
      if x.bytes == bytes {
        NoneOfSize(s, bytes);
      }
    }
  }

  lemma {:induction false} NoneOfSize(s: seq<Sized>, bytes: nat)
    requires Descending(s) && (s != [] ==> s[0].bytes < bytes)
    ensures OfSize(s, bytes) == []
    decreases |s|
  {
    if s != [] {
      NoneOfSize(s[1..], bytes);
    }
  }

  /** Folders of the same size stay in the order of the scan. */
  lemma {:induction false} SortIsStable(s: seq<Sized>, bytes: nat)
    ensures OfSize(SortDescending(s), bytes) == OfSize(s, bytes)
    decreases |s|
  {
    if s != [] {
      var n := |s| - 1;
      SortSorts(s[..n]);
      SortIsStable(s[..n], bytes);
      InsertIsStable(s[n], SortDescending(s[..n]), bytes);
      OfSizeConcat(SortDescending(s[..n]), [s[n]], bytes);
      OfSizeConcat(s[..n], [s[n]], bytes);
      assert s == s[..n] + [s[n]];
    }
  }

  /** Main result: the report is in descending order and holds at most eight of the folders found; no
      folder left out is larger than one reported, and any is left out only if eight are reported. */
  lemma {:induction false} ReportDominates(found: seq<Sized>) returns (dropped: seq<Sized>)
    ensures var top := TopOf(found);
      && Descending(top) && |top| <= 8 && (dropped != [] ==> |top| == 8)
      && multiset(found) == multiset(top) + multiset(dropped)
      && (forall bytes :: OfSize(top + dropped, bytes) == OfSize(found, bytes))
      && forall i, j :: 0 <= i < |top| && 0 <= j < |dropped| ==> dropped[j].bytes <= top[i].bytes
  {
    SortSorts(found);
    var sorted := SortDescending(found);
    var n := if |sorted| > TOP_N then TOP_N else |sorted|;
    CutInTwo(sorted, n);
    dropped := sorted[n..];
    assert TopOf(found) == sorted[..n];
    assert sorted == sorted[..n] + dropped;
    forall bytes ensures OfSize(sorted, bytes) == OfSize(found, bytes) {
      SortIsStable(found, bytes);
    }
  }
}
