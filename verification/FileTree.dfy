/** Directory trees as the cleaner and the sizer of src/chainremote_heartbeat.rs see them. */
module FileTree {
  import opened Options

  const MAX_DEPTH: nat := 16

  /** `listed` is false for an entry whose listing failed, `stat` for one whose metadata cannot be read. */
  datatype Item = Item(name: string, listed: bool, stat: bool, node: Node)

  /** A locked file cannot be removed; a pinned directory cannot, even when it is empty. `mtime` is
      missing when the modification time is unknown. `listable` is false when `read_dir` fails. */
  datatype Node =
    | File(len: nat, mtime: Option<int>, locked: bool)
    | Dir(listable: bool, pinned: bool, items: seq<Item>)

  /** A file with the path to it. `reached` tells whether a walk gets its metadata: every directory
      above is listable and not below the depth guard, and every entry on the way can be read. */
  datatype Leaf = Leaf(path: seq<string>, reached: bool, file: Node)

  predicate Entered(listable: bool, depth: nat) {
    listable && depth <= MAX_DEPTH
  }

  predicate Seen(item: Item, reached: bool) {
    reached && item.listed && item.stat
  }

  /** All files of a directory at `depth`, in order. */
  function Leaves(items: seq<Item>, reached: bool, depth: nat, path: seq<string>): seq<Leaf>
    decreases items, 1
  {
    if items == [] then [] else
      LeavesOf(items[0], reached, depth, path) + Leaves(items[1..], reached, depth, path)
  }

  function LeavesOf(item: Item, reached: bool, depth: nat, path: seq<string>): seq<Leaf>
    decreases item, 0
  {
    var here := path + [item.name];
    match item.node
    case File(_, _, _) => [Leaf(here, Seen(item, reached), item.node)]
    case Dir(listable, _, items) =>
      Leaves(items, Seen(item, reached) && Entered(listable, depth + 1), depth + 1, here)
  }

  function LeafLen(l: Leaf): nat {
    if l.file.File? then l.file.len else 0
  }

  function Bytes(leaves: seq<Leaf>): nat
    decreases |leaves|
  {
    if leaves == [] then 0 else LeafLen(leaves[0]) + Bytes(leaves[1..])
  }

  /** The leaves that satisfy `p`, in order. */
  function Filter<T>(p: T -> bool, s: seq<T>): seq<T>
    decreases |s|
  {
    if s == [] then [] else (if p(s[0]) then [s[0]] else []) + Filter(p, s[1..])
  }

  lemma {:induction false} BytesConcat(a: seq<Leaf>, b: seq<Leaf>)
    ensures Bytes(a + b) == Bytes(a) + Bytes(b)
    decreases |a|
  {
    if a == [] {
      assert a + b == b;
    } else {
      assert (a + b)[1..] == a[1..] + b;
      BytesConcat(a[1..], b);
    }
  }

  lemma {:induction false} FilterConcat<T>(p: T -> bool, a: seq<T>, b: seq<T>)
    ensures Filter(p, a + b) == Filter(p, a) + Filter(p, b)
    decreases |a|
  {
    if a == [] {
      assert a + b == b;
    } else {
      var head := if p(a[0]) then [a[0]] else [];
      assert (a + b)[0] == a[0] && (a + b)[1..] == a[1..] + b;
      FilterConcat(p, a[1..], b);
      assert head + (Filter(p, a[1..]) + Filter(p, b)) == (head + Filter(p, a[1..])) + Filter(p, b);
    }
  }

  function Not<T>(p: T -> bool): T -> bool {
    x => !p(x)
  }

  /** What is filtered out and what stays add up. */
  lemma {:induction false} FilterSplits(p: Leaf -> bool, s: seq<Leaf>)
    ensures Bytes(Filter(p, s)) + Bytes(Filter(Not(p), s)) == Bytes(s)
    ensures |Filter(p, s)| + |Filter(Not(p), s)| == |s|
    decreases |s|
  {
    if s != [] {
      FilterSplits(p, s[1..]);
      BytesConcat(if p(s[0]) then [s[0]] else [], Filter(p, s[1..]));
      BytesConcat(if p(s[0]) then [] else [s[0]], Filter(Not(p), s[1..]));
      assert Bytes([s[0]]) == LeafLen(s[0]);
    }
  }

  lemma {:induction false} FilterAll<T>(p: T -> bool, s: seq<T>)
    requires forall x :: x in s ==> p(x)
    ensures Filter(p, s) == s && Filter(Not(p), s) == []
    decreases |s|
  {
    if s != [] {
      FilterAll(p, s[1..]);
    }
  }

  /** Below an unreached directory nothing is reached. */
  lemma {:induction false} UnreachedLeaves(items: seq<Item>, depth: nat, path: seq<string>)
    ensures forall l :: l in Leaves(items, false, depth, path) ==> !l.reached
    decreases items
  {
    if items != [] {
      UnreachedLeaves(items[1..], depth, path);
      if items[0].node.Dir? {
        UnreachedLeaves(items[0].node.items, depth + 1, path + [items[0].name]);
      }
    }
  }

  lemma {:induction false} InFilter<T>(p: T -> bool, s: seq<T>, x: T)
    ensures x in Filter(p, s) <==> x in s && p(x)
    decreases |s|
  {
    if s != [] {
      InFilter(p, s[1..], x);
      assert s == [s[0]] + s[1..];
    }
  }

  /** Every entry and every directory can be read. */
  predicate AllReadable(items: seq<Item>)
    decreases items
  {
    forall i :: 0 <= i < |items| ==>
      && items[i].listed && items[i].stat
      && (items[i].node.Dir? ==> items[i].node.listable && AllReadable(items[i].node.items))
  }

  lemma {:induction false} LeavesWithin(items: seq<Item>, reached: bool, depth: nat, path: seq<string>, l: Leaf)
    requires l in Leaves(items, reached, depth, path)
    ensures l.file.File? && |l.path| > |path| && path <= l.path
    ensures depth <= 16 && |path| == depth && l.reached ==> |l.path| <= 17
    ensures depth <= 16 && |path| == depth && reached && AllReadable(items) && |l.path| <= 17 ==> l.reached
    decreases items
  {
    var item := items[0];
    if l in LeavesOf(item, reached, depth, path) {
      if item.node.Dir? {
        var inside := Seen(item, reached) && Entered(item.node.listable, depth + 1);
        LeavesWithin(item.node.items, inside, depth + 1, path + [item.name], l);
        if depth == 16 {
          UnreachedLeaves(item.node.items, depth + 1, path + [item.name]);
        }
      }
    } else {
      assert forall i :: 0 <= i < |items[1..]| ==> items[1..][i] == items[i + 1];
      LeavesWithin(items[1..], reached, depth, path, l);
    }
  }

  /** A file is reached at most 16 directories below the one a walk starts from, and always so if everything
      on the way can be read. */
  lemma {:induction false} ReachedToDepth16(items: seq<Item>, listable: bool, l: Leaf)
    requires l in Leaves(items, listable, 0, [])
    ensures l.reached ==> |l.path| <= 17
    ensures listable && AllReadable(items) ==> (l.reached <==> |l.path| <= 17)
  {
    LeavesWithin(items, listable, 0, [], l);
  }
}
