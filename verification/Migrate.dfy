/**
 The migration from the old RustDesk installation (src/chainremote_migrate.rs): folders and registry
 keys are copied under new names into a store that may already hold data of its own.
 */
module Migrate {
  import opened Options
  import opened Overlay

  type Path = seq<string>

  /** The new store: files and folders, registry keys, and the values of a registry key. */
  datatype Place = OnDisk(path: Path) | RegKey(key: Path) | RegValue(of: Path, name: string)

  type Store = map<Place, Content>

  // ---------------------------------------------------------------- names

  const OLD_UPPER := "RustDesk"
  const OLD_LOWER := "rustdesk"
  const NEW_NAME := "ChainRemote"

  function RenameLegacy(name: string): string {
    if OLD_UPPER <= name then NEW_NAME + name[|OLD_UPPER|..]
    else if OLD_LOWER <= name then NEW_NAME + name[|OLD_LOWER|..]
    else name
  }

  /** Names that start with one of the three prefixes and go on with `rest`. */
  predicate Kin(name: string, rest: string) {
    name == OLD_UPPER + rest || name == OLD_LOWER + rest || name == NEW_NAME + rest
  }

  lemma {:induction false} RenamedKin(name: string, rest: string)
    ensures RenameLegacy(name) == NEW_NAME + rest <==> Kin(name, rest)
  {
    if OLD_UPPER <= name {
      assert name == OLD_UPPER + name[|OLD_UPPER|..];
      assert name[0] == 'R';
      assert (NEW_NAME + rest)[|NEW_NAME|..] == rest;
      assert RenameLegacy(name)[|NEW_NAME|..] == name[|OLD_UPPER|..];
    } else if OLD_LOWER <= name {
      assert name == OLD_LOWER + name[|OLD_LOWER|..];
      assert name[0] == 'r';
      assert (NEW_NAME + rest)[|NEW_NAME|..] == rest;
      assert RenameLegacy(name)[|NEW_NAME|..] == name[|OLD_LOWER|..];
    } else {
      assert name != OLD_UPPER + rest && name != OLD_LOWER + rest;
    }
  }

  /** Two different names meet under the new prefix exactly when they are the same but for one of the
      three prefixes. */
  lemma {:induction false} RenameCollidesIff(a: string, b: string)
    requires a != b
    ensures RenameLegacy(a) == RenameLegacy(b) <==> exists rest :: Kin(a, rest) && Kin(b, rest)
  {
    if RenameLegacy(a) == RenameLegacy(b) {
      var rest := if OLD_UPPER <= a || OLD_LOWER <= a then a[8..] else b[8..];
      RenamedKin(a, rest);
      RenamedKin(b, rest);
      assert Kin(a, rest) && Kin(b, rest);
    }
    if rest :| Kin(a, rest) && Kin(b, rest) {
      RenamedKin(a, rest);
      RenamedKin(b, rest);
    }
  }

  lemma {:induction false} RenameTwice(name: string)
    ensures RenameLegacy(RenameLegacy(name)) == RenameLegacy(name)
  {
    var r := RenameLegacy(name);
    if r != name {
      assert r[0] == 'C';
    }
  }

  lemma {:induction false} RenamesPrefixOnly(rest: string)
    ensures RenameLegacy("RustDesk" + rest) == "ChainRemote" + rest
    ensures RenameLegacy("rustdesk" + rest) == "ChainRemote" + rest
    ensures !("RustDesk" <= rest) && !("rustdesk" <= rest) ==> RenameLegacy(rest) == rest
  {
    RenamedKin("RustDesk" + rest, rest);
    RenamedKin("rustdesk" + rest, rest);
  }

  function RenamePath(path: Path): Path {
    seq(|path|, i requires 0 <= i < |path| => RenameLegacy(path[i]))
  }

  // ---------------------------------------------------------------- folders

  /** Links and devices are ignored; a file may fail to be copied, which is logged and passed over; an
      entry that cannot be read ends the copy. */
  datatype Node = File(data: string, readable: bool) | Link | Broken | Dir(items: seq<Item>)
  datatype Item = Item(name: string, node: Node)

  /** What stands where in the old folder, in the order it is walked; None is an unreadable entry. */
  datatype Entry = Entry(path: Path, content: Option<Content>)

  function Listing(items: seq<Item>, at: Path): seq<Entry>
    decreases items, 1
  {
    if items == [] then [] else ListingOf(items[0], at) + Listing(items[1..], at)
  }

  function ListingOf(item: Item, at: Path): seq<Entry>
    decreases item, 0
  {
    var here := at + [item.name];
    match item.node
    case File(data, readable) => if readable then [Entry(here, Some(Document(data)))] else []
    case Link => []
    case Broken => [Entry(here, None)]
    case Dir(items) => [Entry(here, Some(Folder))] + Listing(items, here)
  }

  /** The same entries at their new places below `dst`. */
  function Moved(entries: seq<Entry>, dst: Path): (ops: seq<Op<Place>>)
    ensures |ops| == |entries|
    decreases |entries|
  {
    if entries == [] then [] else
      [match entries[0].content
       case None => Abort
       case Some(Folder) => MakeDir(OnDisk(dst + RenamePath(entries[0].path)))
       case Some(Document(data)) => Copy(OnDisk(dst + RenamePath(entries[0].path)), data)]
      + Moved(entries[1..], dst)
  }

  function FolderOps(items: seq<Item>, dst: Path): seq<Op<Place>> {
    [MakeDir(OnDisk(dst))] + Moved(Listing(items, []), dst)
  }

  lemma {:induction false} MovedConcat(a: seq<Entry>, b: seq<Entry>, dst: Path)
    ensures Moved(a + b, dst) == Moved(a, dst) + Moved(b, dst)
    decreases |a|
  {
    if a == [] {
      assert a + b == b;
    } else {
      assert (a + b)[1..] == a[1..] + b;
      MovedConcat(a[1..], b, dst);
    }
  }

  lemma {:induction false} RenameStep(dst: Path, at: Path, name: string, rest: Path)
    ensures (dst + RenamePath(at)) + [RenameLegacy(name)] == dst + RenamePath(at + [name])
    ensures RenamePath(at + rest) == RenamePath(at) + RenamePath(rest)
  {
  }

  /** Walking a sub-folder on its own and renaming below its new place gives the same operations. */
  lemma {:induction false} ListingBelow(items: seq<Item>, at: Path, below: Path, dst: Path)
    ensures Moved(Listing(items, at + below), dst) == Moved(Listing(items, below), dst + RenamePath(at))
    decreases items, 1
  {
    if items != [] {
      EntryBelow(items[0], at, below, dst);
      ListingBelow(items[1..], at, below, dst);
      MovedConcat(ListingOf(items[0], at + below), Listing(items[1..], at + below), dst);
      MovedConcat(ListingOf(items[0], below), Listing(items[1..], below), dst + RenamePath(at));
    }
  }

  lemma {:induction false} EntryBelow(item: Item, at: Path, below: Path, dst: Path)
    ensures Moved(ListingOf(item, at + below), dst) == Moved(ListingOf(item, below), dst + RenamePath(at))
    decreases item, 0
  {
    var here := below + [item.name];
    assert (at + below) + [item.name] == at + here;
    RenameStep(dst, at, "", here);
    assert dst + RenamePath(at + here) == (dst + RenamePath(at)) + RenamePath(here);
    match item.node
    case Dir(inner) =>
      ListingBelow(inner, at, here, dst);
      MovedConcat([Entry(at + here, Some(Folder))], Listing(inner, at + here), dst);
      MovedConcat([Entry(here, Some(Folder))], Listing(inner, here), dst + RenamePath(at));
    case _ =>
  }

  lemma {:induction false} MovedAt(entries: seq<Entry>, dst: Path, i: nat)
    requires i < |entries|
    ensures var op, content := Moved(entries, dst)[i], entries[i].content;
      if content.None? then op.Abort?
      else Puts(op) && op.at == OnDisk(dst + RenamePath(entries[i].path)) && Put(op) == content.value
    decreases |entries|
  {
    if i > 0 {
      MovedAt(entries[1..], dst, i - 1);
    }
  }

  lemma {:induction false} PlannedFirst(ops: seq<Op<Place>>, i: nat)
    requires i < |ops| && Puts(ops[i])
    requires forall j :: 0 <= j < i ==> !Puts(ops[j]) || ops[j].at != ops[i].at
    ensures ops[i].at in Planned(ops) && Planned(ops)[ops[i].at] == Put(ops[i])
    decreases |ops|
  {
    if i > 0 {
      PlannedFirst(ops[1..], i - 1);
    }
  }

  lemma {:induction false} PlannedOrigin(ops: seq<Op<Place>>, p: Place) returns (i: nat)
    requires p in Planned(ops)
    ensures i < |ops| && Puts(ops[i]) && ops[i].at == p
    decreases |ops|
  {
    if Puts(ops[0]) && ops[0].at == p {
      i := 0;
    } else {
      i := PlannedOrigin(ops[1..], p);
      i := i + 1;
    }
  }

  /** Main result: after a copy that succeeds, every readable entry of the old folder stands at its
      renamed path, unless something stood there before or an earlier entry took the same path. */
  lemma {:induction false} EveryEntryArrives(store: Store, items: seq<Item>, dst: Path, i: nat)
    requires Perform(store, FolderOps(items, dst)).1
    requires i < |Listing(items, [])|
    requires forall j :: 0 <= j < i ==>
      RenamePath(Listing(items, [])[j].path) != RenamePath(Listing(items, [])[i].path)
    ensures var e := Listing(items, [])[i];
      var place := OnDisk(dst + RenamePath(e.path));
      var after := Perform(store, FolderOps(items, dst)).0;
      e.content.Some? && place in after
      && after[place] == if place in store then store[place] else e.content.value
  {
    var ops := FolderOps(items, dst);
    MovedAt(Listing(items, []), dst, i);
    assert ops[i + 1] == Moved(Listing(items, []), dst)[i];
    PerformMerges(store, ops);
    PerformSucceedsIff(store, ops);
    assert !Fails(Planned(ops[..i + 1]) + store, ops[i + 1]);
    FirstForItsPlace(items, dst, i);
    PlannedFirst(ops, i + 1);
  }

  lemma {:induction false} FirstForItsPlace(items: seq<Item>, dst: Path, i: nat)
    requires i < |Listing(items, [])| && Listing(items, [])[i].content.Some?
    requires forall j :: 0 <= j < i ==>
      RenamePath(Listing(items, [])[j].path) != RenamePath(Listing(items, [])[i].path)
    ensures var ops := FolderOps(items, dst);
      Puts(ops[i + 1]) && forall j :: 0 <= j < i + 1 ==> !Puts(ops[j]) || ops[j].at != ops[i + 1].at
  {
    var entries, ops := Listing(items, []), FolderOps(items, dst);
    var y := RenamePath(entries[i].path);
    MovedAt(entries, dst, i);
    assert ops[i + 1] == Moved(entries, dst)[i];
    ListingPaths(items, [], i);
    assert (dst + y)[|dst|..] == y;
    forall j | 0 <= j < i + 1 ensures !Puts(ops[j]) || ops[j].at != ops[i + 1].at {
      if j == 0 {
        assert |dst + y| > |dst|;
      } else {
        MovedAt(entries, dst, j - 1);
        assert ops[j] == Moved(entries, dst)[j - 1];
        var x := RenamePath(entries[j - 1].path);
        assert (dst + x)[|dst|..] == x;
      }
    }
  }

  lemma {:induction false} ListingPaths(items: seq<Item>, at: Path, i: nat)
    requires i < |Listing(items, at)|
    ensures |Listing(items, at)[i].path| > |at|
    decreases items
  {
    var first := ListingOf(items[0], at);
    if i >= |first| {
      ListingPaths(items[1..], at, i - |first|);
    } else if items[0].node.Dir? && i > 0 {
      ListingPaths(items[0].node.items, at + [items[0].name], i - 1);
    }
  }

  /** What stands in the old folder at path `p`: a file that can be copied, a folder, or, as None, an entry
      that cannot be read. */
  ghost predicate Stands(items: seq<Item>, p: Path, content: Option<Content>)
    decreases |p|
  {
    p != [] && exists i :: 0 <= i < |items| && StandsIn(items[i], p, content)
  }

  ghost predicate StandsIn(item: Item, p: Path, content: Option<Content>)
    requires p != []
    decreases |p|, 0
  {
    item.name == p[0] &&
    if |p| > 1 then item.node.Dir? && Stands(item.node.items, p[1..], content)
    else match content
      case None => item.node.Broken?
      case Some(Folder) => item.node.Dir?
      case Some(Document(data)) => item.node == File(data, true)
  }

  lemma {:induction false} ListingOfBelow(item: Item, at: Path, e: Entry)
    requires e in ListingOf(item, at)
    ensures at + [item.name] <= e.path
    decreases item, 0
  {
    if item.node.Dir? && e != Entry(at + [item.name], Some(Folder)) {
      ListingBelowAt(item.node.items, at + [item.name], e);
    }
  }

  lemma {:induction false} ListingBelowAt(items: seq<Item>, at: Path, e: Entry)
    requires e in Listing(items, at)
    ensures at <= e.path && |e.path| > |at|
    decreases items, 1
  {
    if e in ListingOf(items[0], at) {
      ListingOfBelow(items[0], at, e);
    } else {
      ListingBelowAt(items[1..], at, e);
    }
  }

  lemma {:induction false} ListingOfExactly(item: Item, at: Path, p: Path, content: Option<Content>)
    requires p != []
    ensures Entry(at + p, content) in ListingOf(item, at) <==> StandsIn(item, p, content)
    decreases item, 0
  {
    var here, e := at + [item.name], Entry(at + p, content);
    if e in ListingOf(item, at) {
      ListingOfBelow(item, at, e);
      assert (at + p)[|at|] == here[|at|];
    }
    if item.name == p[0] {
      assert at + p == here + p[1..];
      if |p| == 1 {
        assert here + p[1..] == here;
        if item.node.Dir? && e in Listing(item.node.items, here) {
          ListingBelowAt(item.node.items, here, e);
        }
      } else if item.node.Dir? {
        ListingExactly(item.node.items, here, p[1..], content);
        assert |at + p| > |here|;
      } else {
        assert |at + p| > |here|;
      }
    }
  }

  /** The copy lists exactly what stands in the old folder, at every level. */
  lemma {:induction false} ListingExactly(items: seq<Item>, at: Path, p: Path, content: Option<Content>)
    requires p != []
    ensures Entry(at + p, content) in Listing(items, at) <==> Stands(items, p, content)
    decreases items, 1
  {
    if items != [] {
      var e := Entry(at + p, content);
      ListingOfExactly(items[0], at, p, content);
      ListingExactly(items[1..], at, p, content);
      assert e in Listing(items, at) <==> e in ListingOf(items[0], at) || e in Listing(items[1..], at);
      assert forall i :: 0 <= i < |items[1..]| ==> items[1..][i] == items[i + 1];
      if i :| 0 <= i < |items| && StandsIn(items[i], p, content) {
        assert i > 0 ==> StandsIn(items[1..][i - 1], p, content);
      }
    }
  }

  /** Nothing else appears: what is new is the target folder or an entry of the old one. */
  lemma {:induction false} OnlyEntriesArrive(store: Store, items: seq<Item>, dst: Path, p: Place) returns (i: nat)
    requires Perform(store, FolderOps(items, dst)).1
    requires p in Perform(store, FolderOps(items, dst)).0 && p !in store && p != OnDisk(dst)
    ensures i < |Listing(items, [])| && p == OnDisk(dst + RenamePath(Listing(items, [])[i].path))
  {
    var ops := FolderOps(items, dst);
    PerformMerges(store, ops);
    assert p in Planned(ops) + store;
    i := PlannedOrigin(ops, p);
    assert ops[i] == Moved(Listing(items, []), dst)[i - 1];
    i := i - 1;
    MovedAt(Listing(items, []), dst, i);
  }

  // ---------------------------------------------------------------- registry keys

  /** A registry key with its values and sub-keys. None is a value that cannot be read; one that can may
      fail to be written. `opens` tells whether a sub-key can be opened, and made in the new place. */
  datatype Key = Key(values: seq<Value>, subkeys: seq<Subkey>)
  datatype Value = Value(name: string, data: Option<string>, writable: bool)
  datatype Subkey = Subkey(name: string, opens: bool, key: Key)

  function ValueOps(values: seq<Value>, at: Path): seq<Op<Place>>
    decreases |values|
  {
    if values == [] then [] else
      [match values[0].data
       case None => Abort
       case Some(data) =>
         if values[0].writable then Copy(RegValue(at, values[0].name), data) else Blocked(RegValue(at, values[0].name))]
      + ValueOps(values[1..], at)
  }

  /** What is done below a key that has been created: its values first, then its sub-keys. */
  function KeyOps(key: Key, at: Path): seq<Op<Place>>
    decreases key, 1
  {
    ValueOps(key.values, at) + SubkeyOps(key.subkeys, at)
  }

  function SubkeyOps(subkeys: seq<Subkey>, at: Path): seq<Op<Place>>
    decreases subkeys, 0
  {
    if subkeys == [] then [] else
      (if subkeys[0].opens
         then [MakeDir(RegKey(at + [subkeys[0].name]))] + KeyOps(subkeys[0].key, at + [subkeys[0].name])
         else [Abort])
      + SubkeyOps(subkeys[1..], at)
  }

  /** The old key holds this value, `p` levels of sub-keys down, and it can be written. */
  predicate Holds(key: Key, p: Path, name: string, data: string)
    decreases key
  {
    if p == [] then Value(name, Some(data), true) in key.values
    else exists i :: 0 <= i < |key.subkeys| && key.subkeys[i].name == p[0]
           && key.subkeys[i].opens && Holds(key.subkeys[i].key, p[1..], name, data)
  }

  /** Everything in the key can be read, and written in the new place. */
  predicate Readable(key: Key) {
    && (forall v :: v in key.values ==> v.data.Some? && v.writable)
    && (forall i :: 0 <= i < |key.subkeys| ==> key.subkeys[i].opens && Readable(key.subkeys[i].key))
  }

  /** Operations at or below the new key `at`. */
  predicate Below(op: Op<Place>, at: Path, readable: bool) {
    match op
    case MakeDir(place) => place.RegKey? && at < place.key
    case Copy(place, _) => place.RegValue? && at <= place.of
    case Blocked(place) => !readable && place.RegValue? && at <= place.of
    case Abort => !readable
  }

  lemma {:induction false} ValueOpsExactly(values: seq<Value>, at: Path, name: string, data: string)
    ensures Copy(RegValue(at, name), data) in ValueOps(values, at) <==> Value(name, Some(data), true) in values
    ensures forall op :: op in ValueOps(values, at) ==>
      if op.Abort? then exists v :: v in values && v.data.None?
      else !op.MakeDir? && op.at.RegValue? && op.at.of == at && (op.Blocked? ==> exists v :: v in values && !v.writable)
    decreases |values|
  {
    if values != [] {
      ValueOpsExactly(values[1..], at, name, data);
      assert values == [values[0]] + values[1..];
    }
  }

  lemma {:induction false} KeyOpsBelow(key: Key, at: Path)
    ensures forall op :: op in KeyOps(key, at) ==> Below(op, at, Readable(key))
    decreases key, 1
  {
    ValueOpsExactly(key.values, at, "", "");
    SubkeyOpsBelow(key.subkeys, at);
  }

  lemma {:induction false} SubkeyOpsBelow(subkeys: seq<Subkey>, at: Path)
    ensures forall op :: op in SubkeyOps(subkeys, at) ==>
      Below(op, at, forall i :: 0 <= i < |subkeys| ==> subkeys[i].opens && Readable(subkeys[i].key))
      && (op.Copy? ==> at < op.at.of)
    decreases subkeys, 0
  {
    if subkeys != [] {
      var sub := subkeys[0];
      KeyOpsBelow(sub.key, at + [sub.name]);
      SubkeyOpsBelow(subkeys[1..], at);
      assert forall i :: 0 <= i < |subkeys[1..]| ==> subkeys[1..][i] == subkeys[i + 1];
      forall op | op in KeyOps(sub.key, at + [sub.name])
        ensures Below(op, at, Readable(sub.key)) && (op.Copy? ==> at < op.at.of)
      {
        assert Below(op, at + [sub.name], Readable(sub.key));
      }
    }
  }

  /** The copy of a key sets exactly the values the old key holds, at every level. */
  lemma {:induction false} KeyOpsHold(key: Key, at: Path, p: Path, name: string, data: string)
    ensures Copy(RegValue(at + p, name), data) in KeyOps(key, at) <==> Holds(key, p, name, data)
    decreases key, 1
  {
    ValueOpsExactly(key.values, at, name, data);
    SubkeyOpsBelow(key.subkeys, at);
    var op := Copy(RegValue(at + p, name), data);
    if p == [] {
      assert at + p == at;
      assert op !in SubkeyOps(key.subkeys, at);
    } else {
      assert |at + p| > |at|;
      assert op !in ValueOps(key.values, at);
      SubkeyOpsHold(key.subkeys, at, p, name, data);
    }
  }

  lemma {:induction false} SubkeyOpsHold(subkeys: seq<Subkey>, at: Path, p: Path, name: string, data: string)
    requires p != []
    ensures Copy(RegValue(at + p, name), data) in SubkeyOps(subkeys, at)
      <==> exists i :: 0 <= i < |subkeys| && subkeys[i].name == p[0] && subkeys[i].opens && Holds(subkeys[i].key, p[1..], name, data)
    decreases subkeys, 0
  {
    if subkeys != [] {
      var sub, rest := subkeys[0], subkeys[1..];
      var op := Copy(RegValue(at + p, name), data);
      SubkeyOpsHold(rest, at, p, name, data);
      assert op in KeyOps(sub.key, at + [sub.name]) <==> sub.name == p[0] && Holds(sub.key, p[1..], name, data) by {
        if sub.name == p[0] {
          assert (at + [sub.name]) + p[1..] == at + p;
          KeyOpsHold(sub.key, at + [sub.name], p[1..], name, data);
        } else {
          KeyOpsBelow(sub.key, at + [sub.name]);
          assert (at + p)[|at|] == p[0] && (at + [sub.name])[|at|] == sub.name;
        }
      }
      assert op in SubkeyOps(subkeys, at) <==>
        (sub.opens && op in KeyOps(sub.key, at + [sub.name])) || op in SubkeyOps(rest, at);
      assert forall i :: 0 <= i < |rest| ==> rest[i] == subkeys[i + 1];
      if i :| 0 <= i < |rest| && rest[i].name == p[0] && rest[i].opens && Holds(rest[i].key, p[1..], name, data) {
        assert subkeys[i + 1].name == p[0];
      }
      if i :| 0 <= i < |subkeys| && subkeys[i].name == p[0] && subkeys[i].opens && Holds(subkeys[i].key, p[1..], name, data) {
        assert i > 0 ==> rest[i - 1] == subkeys[i];
      }
    }
  }

  /** Keys and values have names of their own, so a readable key has no clash to fail on. */
  lemma {:induction false} KeysNeverClash(store: Store, ops: seq<Op<Place>>)
    requires forall op :: op in ops ==> Puts(op) && (if op.MakeDir? then op.at.RegKey? else op.at.RegValue?)
    requires forall p :: p in store && p.RegKey? ==> store[p] == Folder
    ensures Perform(store, ops).1
    decreases |ops|
  {
    if ops != [] {
      assert ops[0] in ops;
      KeysNeverClash(Apply(store, ops[0]), ops[1..]);
    }
  }

  /** Main result: a key that can be read and written is copied without fail, and each of its values stands under the new
      key unless the new key has a value of that name already. */
  lemma {:induction false} EveryValueArrives(store: Store, key: Key, at: Path, p: Path, name: string, data: string)
    requires Readable(key) && Holds(key, p, name, data)
    requires forall d :: Holds(key, p, name, d) ==> d == data
    requires forall q :: q in store && q.RegKey? ==> store[q] == Folder
    ensures var (after, ok) := Perform(store, KeyStage(key, at));
      var place := RegValue(at + p, name);
      ok && place in after
      && after[place] == if place in store then store[place] else Document(data)
  {
    var ops := KeyStage(key, at);
    var place := RegValue(at + p, name);
    KeyOpsBelow(key, at);
    KeysNeverClash(store, ops);
    PerformMerges(store, ops);
    KeyOpsHold(key, at, p, name, data);
    var i := FirstWithPlace(ops, place);
    PlannedFirst(ops, i);
    assert ops[i] in KeyOps(key, at);
    KeyOpsHold(key, at, p, name, ops[i].data);
  }

  lemma {:induction false} FirstWithPlace(ops: seq<Op<Place>>, place: Place) returns (i: nat)
    requires exists op :: op in ops && Puts(op) && op.at == place
    ensures i < |ops| && Puts(ops[i]) && ops[i].at == place
    ensures forall j :: 0 <= j < i ==> !Puts(ops[j]) || ops[j].at != place
    decreases |ops|
  {
    if Puts(ops[0]) && ops[0].at == place {
      i := 0;
    } else {
      assert ops == [ops[0]] + ops[1..];
      i := FirstWithPlace(ops[1..], place);
      i := i + 1;
    }
  }

  // ---------------------------------------------------------------- the migration

  const MARKER := ".chainremote_migrated_from_rustdesk_v1"

  /** The old installation: user data, service data and registry key, as far as they exist, and whether
      `sc delete` gets rid of the old service. */
  datatype Old = Old(appData: Option<seq<Item>>, serviceData: Option<seq<Item>>, key: Option<Key>,
                     serviceGoes: bool)

  /** Where the new data goes: user data, service data, registry key. */
  datatype Target = Target(root: Path, serviceRoot: Path, key: Path)

  /** The new store, and whether the old service is still there. */
  datatype Machine = Machine(store: Store, service: bool)

  function KeyStage(key: Key, at: Path): seq<Op<Place>> {
    [MakeDir(RegKey(at))] + KeyOps(key, at)
  }

  function Stages(was: Old, target: Target): seq<seq<Op<Place>>> {
    [if was.appData.Some? then FolderOps(was.appData.value, target.root) else [],
     if was.serviceData.Some? then FolderOps(was.serviceData.value, target.serviceRoot) else [],
     if was.key.Some? then KeyStage(was.key.value, target.key) else []]
  }

  function MarkerPlace(target: Target): Place {
    OnDisk(target.root + [MARKER])
  }

  /** Creates the root if need be and writes the marker into it. */
  function Marked(store: Store, target: Target, text: string): Store {
    var place := OnDisk(target.root);
    if Fails(store, MakeDir(place)) then store
    else Apply(store, MakeDir(place))[MarkerPlace(target) := Document(text)]
  }

  function Migrated(m: Machine, was: Old, target: Target): Machine {
    if MarkerPlace(target) in m.store then m
    else if was.appData.None? && !m.service then m.(store := Marked(m.store, target, "clean_install"))
    else Machine(Marked(PerformAll(m.store, Stages(was, target)), target, "migrated"), m.service && !was.serviceGoes)
  }

  class Installer {
    var store: Store
    var service: bool

    constructor (store: Store, service: bool)
      ensures this.store == store && this.service == service
    {
      this.store, this.service := store, service;
    }

    /** `create_dir_all`, of which only the last folder is new. */
    method MakeFolder(place: Place) returns (ok: bool)
      modifies this`store
      ensures (store, ok) == Perform(old(store), [MakeDir(place)])
    {
      if !Fails(store, Op.MakeDir(place)) {
        PerformOne(store, MakeDir(place));
      }
      ok := !(place in store && store[place].Document?);
      if ok && place !in store {
        store := store[place := Folder];
      }
    }

    /** `copy_dir_recursive`. A false result is the error it returns. */
    method CopyDir(items: seq<Item>, dst: Path) returns (ok: bool)
      modifies this`store
      ensures (store, ok) == Perform(old(store), FolderOps(items, dst))
      decreases items
    {
      ghost var all := Perform(store, FolderOps(items, dst));
      PerformConcat(store, [MakeDir(OnDisk(dst))], Moved(Listing(items, []), dst));
      ok := MakeFolder(OnDisk(dst));
      if !ok {
        return;
      }
      assert items[0..] == items;
      for i := 0 to |items|
        invariant Perform(store, Moved(Listing(items[i..], []), dst)) == all
        invariant ok
      {
        var item := items[i];
        ghost var mine, rest := Moved(ListingOf(item, []), dst), Moved(Listing(items[i + 1..], []), dst);
        CopyDirStep(store, items, i, dst);
        var dstPath := dst + [RenameLegacy(item.name)];
        match item.node
        case Broken =>
          assert mine == [Abort];
          return false;
        case Dir(inner) =>
          SubfolderOps(inner, item.name, dst);
          ok := CopyDir(inner, dstPath);
          if !ok {
            return;
          }
        case File(data, readable) =>
          assert readable ==> mine == [Copy(OnDisk(dstPath), data)] by {
            RenameStep(dst, [], item.name, []);
            assert RenamePath([]) == [] && dst + [] == dst && [] + [item.name] == [item.name];
          }
          assert readable && !Fails(store, mine[0]) ==> Perform(store, mine) == (Apply(store, mine[0]), true) by {
            if readable && !Fails(store, mine[0]) {
              PerformOne(store, mine[0]);
            }
          }
          if OnDisk(dstPath) !in store {
            if readable {
              store := store[OnDisk(dstPath) := Document(data)];
            }
          }
        case Link =>
      }
    }

    /** `copy_reg_key_recursive`. A false result is the error it returns. */
    method CopyKey(key: Key, at: Path) returns (ok: bool)
      modifies this`store
      ensures (store, ok) == Perform(old(store), KeyOps(key, at))
      decreases key
    {
      ghost var all := Perform(store, KeyOps(key, at));
      var values, subkeys := key.values, key.subkeys;
      assert values[0..] == values && subkeys[0..] == subkeys;
      for i := 0 to |values|
        invariant Perform(store, ValueOps(values[i..], at) + SubkeyOps(subkeys, at)) == all
      {
        assert values[i..][0] == values[i] && values[i..][1..] == values[i + 1..];
        ghost var later := ValueOps(values[i + 1..], at) + SubkeyOps(subkeys, at);
        if values[i].data.None? {
          assert ValueOps(values[i..], at) + SubkeyOps(subkeys, at) == [Abort] + later;
          return false;
        }
        var place, data := RegValue(at, values[i].name), values[i].data.value;
        ghost var op: Op<Place> := if values[i].writable then Copy(place, data) else Blocked(place);
        assert ValueOps(values[i..], at) + SubkeyOps(subkeys, at) == [op] + later;
        assert ([op] + later)[1..] == later;
        if place !in store {
          if !values[i].writable {
            return false;
          }
          store := store[place := Document(data)];
        }
      }
      assert ValueOps(values[|values|..], at) + SubkeyOps(subkeys, at) == SubkeyOps(subkeys, at);
      for i := 0 to |subkeys|
        invariant Perform(store, SubkeyOps(subkeys[i..], at)) == all
      {
        var sub := subkeys[i];
        var below := at + [sub.name];
        assert subkeys[i..][0] == sub && subkeys[i..][1..] == subkeys[i + 1..];
        if !sub.opens {
          return false;
        }
        ghost var mine := [MakeDir(RegKey(below))];
        PerformConcat(store, mine + KeyOps(sub.key, below), SubkeyOps(subkeys[i + 1..], at));
        PerformConcat(store, mine, KeyOps(sub.key, below));
        ok := MakeFolder(RegKey(below));
        if !ok {
          return;
        }
        ok := CopyKey(sub.key, below);
        if !ok {
          return;
        }
      }
      ok := true;
    }

    /** `copy_hklm_software_key`. */
    method CopySoftwareKey(key: Key, at: Path) returns (ok: bool)
      modifies this`store
      ensures (store, ok) == Perform(old(store), KeyStage(key, at))
    {
      PerformConcat(store, [MakeDir(RegKey(at))], KeyOps(key, at));
      ok := MakeFolder(RegKey(at));
      if ok {
        ok := CopyKey(key, at);
      }
    }

    method WriteMarker(target: Target, text: string)
      modifies this`store
      ensures store == Marked(old(store), target, text)
    {
      assert [MakeDir(OnDisk(target.root))][1..] == [];
      var ok := MakeFolder(OnDisk(target.root));
      if ok {
        store := store[MarkerPlace(target) := Document(text)];
      }
    }

    /** `migrate_from_rustdesk_once`: errors of a step are logged and the next step is taken. */
    method MigrateOnce(was: Old, target: Target)
      modifies this
      ensures Machine(store, service) == Migrated(Machine(old(store), old(service)), was, target)
    {
      if MarkerPlace(target) in store {
        return;
      }
      if was.appData.None? && !service {
        WriteMarker(target, "clean_install");
        return;
      }
      if service {
        service := !was.serviceGoes;
      }
      ghost var stages := Stages(was, target);
      ghost var before := store;
      if was.appData.Some? {
        var _ := CopyDir(was.appData.value, target.root);
      }
      assert store == Perform(before, stages[0]).0;
      ghost var middle := store;
      if was.serviceData.Some? {
        var _ := CopyDir(was.serviceData.value, target.serviceRoot);
      }
      assert store == Perform(middle, stages[1]).0;
      ghost var late := store;
      if was.key.Some? {
        var _ := CopySoftwareKey(was.key.value, target.key);
      }
      assert store == Perform(late, stages[2]).0;
      PerformThree(before, stages);
      WriteMarker(target, "migrated");
    }
  }

  lemma {:induction false} PerformThree(store: Store, stages: seq<seq<Op<Place>>>)
    requires |stages| == 3
    ensures PerformAll(store, stages)
      == Perform(Perform(Perform(store, stages[0]).0, stages[1]).0, stages[2]).0
  {
    var two := stages[1..];
    var one := two[1..];
    var d := Perform(store, stages[0]).0;
    assert PerformAll(store, stages) == PerformAll(d, two);
    assert two[0] == stages[1] && PerformAll(d, two) == PerformAll(Perform(d, two[0]).0, one);
    var e := Perform(d, stages[1]).0;
    assert one[0] == stages[2] && one[1..] == [];
    assert PerformAll(e, one) == PerformAll(Perform(e, one[0]).0, one[1..]);
  }

  /** One round of the copy loop: the operations of one entry, and then those of the others. */
  lemma {:induction false} CopyDirStep(store: Store, items: seq<Item>, i: nat, dst: Path)
    requires i < |items|
    ensures var mine, rest := Moved(ListingOf(items[i], []), dst), Moved(Listing(items[i + 1..], []), dst);
      Perform(store, Moved(Listing(items[i..], []), dst)) ==
        if Perform(store, mine).1 then Perform(Perform(store, mine).0, rest) else Perform(store, mine)
  {
    assert items[i..][0] == items[i] && items[i..][1..] == items[i + 1..];
    MovedConcat(ListingOf(items[i], []), Listing(items[i + 1..], []), dst);
    PerformConcat(store, Moved(ListingOf(items[i], []), dst), Moved(Listing(items[i + 1..], []), dst));
  }

  lemma {:induction false} SubfolderOps(inner: seq<Item>, name: string, dst: Path)
    ensures Moved(ListingOf(Item(name, Dir(inner)), []), dst) == FolderOps(inner, dst + [RenameLegacy(name)])
  {
    var at: Path := [] + [name];
    assert at == [name] && at + [] == at;
    assert RenamePath(at) == [RenameLegacy(name)];
    ListingBelow(inner, at, [], dst);
    MovedConcat([Entry(at, Some(Folder))], Listing(inner, at), dst);
    assert Moved([Entry(at, Some(Folder))], dst) == [MakeDir(OnDisk(dst + RenamePath(at)))];
  }

  // ---------------------------------------------------------------- once, again, and after a crash

  /** Main result: starting the migration again never changes the store, marker or not. */
  lemma {:induction false} MigrationIsIdempotent(m: Machine, was: Old, target: Target)
    ensures var once := Migrated(m, was, target);
      Migrated(once, was, target).store == once.store
  {
    var once := Migrated(m, was, target);
    if MarkerPlace(target) !in once.store {
      var stages := Stages(was, target);
      if was.appData.Some? || m.service {
        StagesApart(was, target);
        AllAgainChangesNothing(m.store, stages);
      }
    }
  }

  /** Only values of the registry key are ever blocked, and that is copied last. */
  lemma {:induction false} StagesApart(was: Old, target: Target)
    ensures BlockedApart(Stages(was, target))
  {
    var stages := Stages(was, target);
    if was.appData.Some? {
      FolderOpsOnDisk(was.appData.value, target.root);
    }
    if was.serviceData.Some? {
      FolderOpsOnDisk(was.serviceData.value, target.serviceRoot);
    }
    assert forall op: Op<Place> :: op in stages[0] || op in stages[1] ==> !op.Blocked?;
    assert stages[1..][0] == stages[1] && stages[1..][1..][0] == stages[2] && stages[1..][1..][1..] == [];
    assert BlockedApart(stages[1..][1..]);
  }

  // ---------------------------------------------------------------- what a migration brings

  /** There is an old installation, and it has not been migrated yet. */
  predicate Migrates(m: Machine, was: Old, target: Target) {
    OnDisk(target.root + [".chainremote_migrated_from_rustdesk_v1"]) !in m.store && (was.appData.Some? || m.service)
  }

  lemma {:induction false} StagesInTurn(m: Machine, was: Old, target: Target)
    requires Migrates(m, was, target)
    ensures var stages := Stages(was, target);
      var d1 := Perform(m.store, stages[0]).0;
      var d2 := Perform(d1, stages[1]).0;
      var d3 := Perform(d2, stages[2]).0;
      && Extends(d1, m.store) && Extends(d2, d1) && Extends(d3, d2)
      && Migrated(m, was, target).store == Marked(d3, target, "migrated")
  {
    var stages := Stages(was, target);
    var d1 := Perform(m.store, stages[0]).0;
    var d2 := Perform(d1, stages[1]).0;
    PerformThree(m.store, stages);
    NothingOverwritten(m.store, stages[0]);
    NothingOverwritten(d1, stages[1]);
    NothingOverwritten(d2, stages[2]);
  }

  /** Main result: after a migration each entry of the old user data stands at its renamed path below the
      new root, unless something stood there before or an earlier entry took that path; only the marker
      replaces what may have its place. It supposes that the copy of the user data succeeds. */
  lemma {:induction false} UserDataArrives(m: Machine, was: Old, target: Target, items: seq<Item>, i: nat)
    requires Migrates(m, was, target) && was.appData == Some(items)
    requires Perform(m.store, FolderOps(items, target.root)).1
    requires i < |Listing(items, [])|
    requires forall j :: 0 <= j < i ==>
      RenamePath(Listing(items, [])[j].path) != RenamePath(Listing(items, [])[i].path)
    ensures var e, store := Listing(items, [])[i], Migrated(m, was, target).store;
      var place := OnDisk(target.root + RenamePath(e.path));
      e.content.Some? && place in store
      && store[place] ==
        if place == MarkerPlace(target) then Document("migrated")
        else if place in m.store then m.store[place] else e.content.value
  {
    StagesInTurn(m, was, target);
    EveryEntryArrives(m.store, items, target.root, i);
    RootStands(m.store, items, target.root);
  }

  lemma {:induction false} RootStands(store: Store, items: seq<Item>, dst: Path)
    requires Perform(store, FolderOps(items, dst)).1
    ensures var n := Perform(store, FolderOps(items, dst)).0; OnDisk(dst) in n && n[OnDisk(dst)] == Folder
  {
    var ops := FolderOps(items, dst);
    assert !Fails(store, ops[0]);
    NothingOverwritten(Apply(store, ops[0]), ops[1..]);
    assert OnDisk(dst) in Apply(store, ops[0]);
  }

  /** Main result: so does each entry of the old service data below the new service root. An entry of the
      user data may have its place already. It supposes that this copy succeeds, not that the one of the
      user data does. */
  lemma {:induction false} ServiceDataArrives(m: Machine, was: Old, target: Target, items: seq<Item>, i: nat)
    requires Migrates(m, was, target) && was.serviceData == Some(items)
    requires var before := if was.appData.Some? then Perform(m.store, FolderOps(was.appData.value, target.root)).0 else m.store;
      Perform(before, FolderOps(items, target.serviceRoot)).1
    requires i < |Listing(items, [])|
    requires forall j :: 0 <= j < i ==>
      RenamePath(Listing(items, [])[j].path) != RenamePath(Listing(items, [])[i].path)
    ensures var before := if was.appData.Some? then Perform(m.store, FolderOps(was.appData.value, target.root)).0 else m.store;
      var e, store := Listing(items, [])[i], Migrated(m, was, target).store;
      var place := OnDisk(target.serviceRoot + RenamePath(e.path));
      e.content.Some? && place in store
      && (place != MarkerPlace(target) ==>
            store[place] == if place in before then before[place] else e.content.value)
  {
    StagesInTurn(m, was, target);
    var before := Perform(m.store, Stages(was, target)[0]).0;
    EveryEntryArrives(before, items, target.serviceRoot, i);
  }

  /** Main result: so does each value of the old registry key, at every level, below the new key, if all of
      it can be read and written, whatever becomes of the folders. */
  lemma {:induction false} ValuesArrive(m: Machine, was: Old, target: Target, key: Key, p: Path, name: string, data: string)
    requires Migrates(m, was, target) && was.key == Some(key)
    requires Readable(key) && Holds(key, p, name, data)
    requires forall d :: Holds(key, p, name, d) ==> d == data
    requires forall q :: q in m.store && q.RegKey? ==> m.store[q] == Folder
    ensures var store, place := Migrated(m, was, target).store, RegValue(target.key + p, name);
      place in store && store[place] == if place in m.store then m.store[place] else Document(data)
  {
    var stages := Stages(was, target);
    StagesInTurn(m, was, target);
    var d1 := Perform(m.store, stages[0]).0;
    var d2 := Perform(d1, stages[1]).0;
    if was.appData.Some? {
      FolderOpsOnDisk(was.appData.value, target.root);
    }
    if was.serviceData.Some? {
      FolderOpsOnDisk(was.serviceData.value, target.serviceRoot);
    }
    forall q: Place | !q.OnDisk?
      ensures (q in d2 <==> q in m.store) && (q in m.store ==> d2[q] == m.store[q])
    {
      OtherPlacesStay(m.store, stages[0], q);
      OtherPlacesStay(d1, stages[1], q);
    }
    EveryValueArrives(d2, key, target.key, p, name, data);
  }

  /** The new places on disk are these and no others: the roots, the marker, and the renamed paths of old
      entries below the root of their kind. */
  predicate Expected(was: Old, target: Target, p: Place) {
    || p == OnDisk(target.root) || p == OnDisk(target.root + [".chainremote_migrated_from_rustdesk_v1"])
    || (was.appData.Some? && CopiedTo(was.appData.value, target.root, p))
    || (was.serviceData.Some? && CopiedTo(was.serviceData.value, target.serviceRoot, p))
  }

  predicate CopiedTo(items: seq<Item>, dst: Path, p: Place) {
    p == OnDisk(dst) ||
    exists i :: 0 <= i < |Listing(items, [])| && p == OnDisk(dst + RenamePath(Listing(items, [])[i].path))
  }

  lemma {:induction false} FolderOpsGoThere(items: seq<Item>, dst: Path, k: nat)
    requires k < |FolderOps(items, dst)| && !FolderOps(items, dst)[k].Abort?
    ensures CopiedTo(items, dst, FolderOps(items, dst)[k].at)
  {
    var ops := FolderOps(items, dst);
    if k > 0 {
      MovedAt(Listing(items, []), dst, k - 1);
      assert ops[k] == Moved(Listing(items, []), dst)[k - 1];
    }
  }

  lemma {:induction false} NewInFolder(store: Store, items: seq<Item>, dst: Path, p: Place)
    requires p in Perform(store, FolderOps(items, dst)).0 && p !in store
    ensures p.OnDisk? && CopiedTo(items, dst, p)
  {
    var ops := FolderOps(items, dst);
    if forall op: Op<Place> :: op in ops ==> op.Abort? || op.at != p {
      OtherPlacesStay(store, ops, p);
    } else {
      var k :| 0 <= k < |ops| && !ops[k].Abort? && ops[k].at == p;
      FolderOpsGoThere(items, dst, k);
      FolderOpsOnDisk(items, dst);
    }
  }

  lemma {:induction false} NewInKey(store: Store, key: Key, at: Path, p: Place)
    requires p in Perform(store, KeyStage(key, at)).0 && p !in store
    ensures (p.RegKey? && at <= p.key) || (p.RegValue? && at <= p.of)
  {
    KeyOpsBelow(key, at);
    if forall op: Op<Place> :: op in KeyStage(key, at) ==> op.Abort? || op.at != p {
      OtherPlacesStay(store, KeyStage(key, at), p);
    }
  }

  /** Main result: a migration, whatever of it fails, leaves what was there as it was, but for the marker,
      and puts nothing anywhere else on the disk, or anywhere outside the new registry key. */
  lemma {:induction false} NothingElseArrives(m: Machine, was: Old, target: Target, p: Place)
    ensures var store := Migrated(m, was, target).store;
      && (p in m.store && p != MarkerPlace(target) ==> p in store && store[p] == m.store[p])
      && (p in store && p !in m.store && p.OnDisk? ==> Expected(was, target, p))
      && (p in store && p !in m.store && p.RegKey? ==> target.key <= p.key)
      && (p in store && p !in m.store && p.RegValue? ==> target.key <= p.of)
  {
    if Migrates(m, was, target) {
      StagesInTurn(m, was, target);
      var stages := Stages(was, target);
      var d1 := Perform(m.store, stages[0]).0;
      var d2 := Perform(d1, stages[1]).0;
      var d3 := Perform(d2, stages[2]).0;
      if p in d1 && p !in m.store {
        NewInFolder(m.store, was.appData.value, target.root, p);
      } else if p in d2 && p !in d1 {
        NewInFolder(d1, was.serviceData.value, target.serviceRoot, p);
      } else if p in d3 && p !in d2 {
        NewInKey(d2, was.key.value, target.key, p);
      }
    }
  }

  /** After a migration the marker says of which kind it was, wherever the root can be a folder, and the old
      service is gone if it could be deleted; a marker that was there before stops everything. */
  lemma {:induction false} MarkerAndService(m: Machine, was: Old, target: Target)
    ensures var n, marker := Migrated(m, was, target), OnDisk(target.root + [".chainremote_migrated_from_rustdesk_v1"]);
      && (marker in m.store ==> n == m)
      && (marker !in m.store ==> (n.service <==> m.service && !was.serviceGoes))
      && (marker !in m.store && (OnDisk(target.root) in m.store ==> m.store[OnDisk(target.root)].Folder?)
          && was.appData.None? && !m.service ==>
            n.store == m.store[OnDisk(target.root) := Folder][marker := Document("clean_install")])
      && (Migrates(m, was, target) && was.appData.Some? && Perform(m.store, FolderOps(was.appData.value, target.root)).1 ==>
            marker in n.store && n.store[marker] == Document("migrated"))
  {
    if Migrates(m, was, target) && was.appData.Some? && Perform(m.store, FolderOps(was.appData.value, target.root)).1 {
      StagesInTurn(m, was, target);
      RootStands(m.store, was.appData.value, target.root);
    }
  }

  /** Everything but the marker and the folder it is in. */
  function Rest(store: Store, target: Target): Store {
    store - {OnDisk(target.root), MarkerPlace(target)}
  }

  lemma {:induction false} FolderOpsOnDisk(items: seq<Item>, dst: Path)
    ensures forall op :: op in FolderOps(items, dst) ==> op.Abort? || (Puts(op) && op.at.OnDisk?)
  {
    var ops := FolderOps(items, dst);
    forall i | 0 <= i < |ops| ensures ops[i].Abort? || (Puts(ops[i]) && ops[i].at.OnDisk?) {
      if i > 0 {
        MovedAt(Listing(items, []), dst, i - 1);
        assert ops[i] == Moved(Listing(items, []), dst)[i - 1];
      }
    }
  }

  /** On a machine without old user data, nothing is missing from this store: whatever the copies of
      service data and registry would still do finds its place taken, or is the root or the marker. */
  predicate NothingLeft(store: Store, was: Old, target: Target) {
    && (was.serviceData.Some? ==> Settled(store, FolderOps(was.serviceData.value, target.serviceRoot),
                                          {OnDisk(target.root), MarkerPlace(target)}))
    && (was.key.Some? ==> Settled(store, KeyStage(was.key.value, target.key), {}))
  }

  lemma {:induction false} KeyStageSettled(store: Store, later: Store, key: Key, at: Path, except: set<Place>)
    requires forall p :: p in except ==> p.OnDisk?
    requires forall p: Place :: !p.OnDisk? ==>
      (p in store <==> p in later) && (p in store ==> store[p] == later[p])
    ensures Settled(later, KeyStage(key, at), except) <==> Settled(store, KeyStage(key, at), {})
  {
    var ops := KeyStage(key, at);
    KeyOpsBelow(key, at);
    assert forall op :: op in ops ==> op.Abort? || !op.at.OnDisk?;
    ExecutedDependsOnPlaces(store, later, ops);
    assert forall op :: op in Executed(store, ops) ==> op in ops;
  }

  lemma {:induction false} NothingLeftIff(store: Store, was: Old, target: Target)
    requires was.appData.None?
    ensures Rest(PerformAll(store, Stages(was, target)), target) == Rest(store, target)
      <==> NothingLeft(store, was, target)
  {
    var stages, except := Stages(was, target), {OnDisk(target.root), MarkerPlace(target)};
    PerformThree(store, stages);
    var later := Perform(store, stages[1]).0;
    var last := Perform(later, stages[2]).0;
    NothingOverwritten(store, stages[1]);
    NothingOverwritten(later, stages[2]);
    AddsNothingIff(store, stages[1], except);
    AddsNothingIff(later, stages[2], except);
    assert last - except == store - except <==>
      later - except == store - except && last - except == later - except by {
      if last - except == store - except {
        forall p | p in later && p !in except ensures p in store {
          assert p in last - except;
        }
      }
    }
    if was.serviceData.Some? {
      FolderOpsOnDisk(was.serviceData.value, target.serviceRoot);
    }
    forall p: Place | !p.OnDisk?
      ensures (p in store <==> p in later) && (p in store ==> store[p] == later[p])
    {
      OtherPlacesStay(store, stages[1], p);
    }
    if was.key.Some? {
      KeyStageSettled(store, later, was.key.value, target.key, except);
    }
  }

  /** Main result: the process dies in the middle of the copies, the service already gone, and the
      program starts again. The result is that of an undisturbed run exactly when the user data of the
      old installation still tells that there is one, or the service could not be deleted, or the store
      already holds all that was left to copy. Otherwise the second start takes the machine for a clean
      installation. */
  lemma {:induction false} CrashRecoversIff(m: Machine, was: Old, target: Target, i: nat, k: nat)
    requires was.appData.Some? || m.service
    requires MarkerPlace(target) !in m.store
    requires i < 3 && k <= |Stages(was, target)[i]|
    requires MarkerPlace(target) !in Interrupted(m.store, Stages(was, target), i, k)
    ensures var stages := Stages(was, target);
      var crashed := Machine(Interrupted(m.store, stages, i, k), m.service && !was.serviceGoes);
      && (was.appData.Some? || crashed.service ==>
            Migrated(crashed, was, target).store == Migrated(m, was, target).store)
      && ((Rest(Migrated(crashed, was, target).store, target) == Rest(Migrated(m, was, target).store, target))
          <==> (was.appData.Some? || crashed.service || NothingLeft(crashed.store, was, target)))
  {
    var stages := Stages(was, target);
    var stopped := Interrupted(m.store, stages, i, k);
    StagesApart(was, target);
    RerunCompletes(m.store, stages, i, k);
    MarkerOnly(stopped, target, "clean_install");
    MarkerOnly(PerformAll(m.store, stages), target, "migrated");
    if was.appData.None? {
      NothingLeftIff(stopped, was, target);
    }
  }

  lemma {:induction false} MarkerOnly(store: Store, target: Target, text: string)
    ensures Rest(Marked(store, target, text), target) == Rest(store, target)
  {
  }

  /** A machine with a service but no user data: after a crash its service data is not migrated. */
  lemma {:induction false} LateCrashLosesServiceData(target: Target, data: string)
    requires OnDisk(target.serviceRoot + ["id.toml"]) != MarkerPlace(target)
    requires target.serviceRoot + ["id.toml"] != target.root && target.serviceRoot != target.root + [MARKER]
    ensures var was := Old(None, Some([Item("id.toml", File(data, true))]), None, true);
      var place := OnDisk(target.serviceRoot + ["id.toml"]);
      var crashed := Machine(Interrupted(map[], Stages(was, target), 0, 0), false);
      place in Migrated(Machine(map[], true), was, target).store
      && place !in Migrated(crashed, was, target).store
  {
    var items := [Item("id.toml", File(data, true))];
    var was := Old(None, Some(items), None, true);
    var stages := Stages(was, target);
    var place := OnDisk(target.serviceRoot + ["id.toml"]);
    var entry := Entry(["id.toml"], Some(Document(data)));
    assert items[1..] == [] && [] + ["id.toml"] == ["id.toml"];
    assert Listing(items, []) == [entry];
    assert RenamePath(["id.toml"]) == ["id.toml"];
    assert Moved([entry], target.serviceRoot) == [Copy(place, data)];
    assert stages[1] == [MakeDir(OnDisk(target.serviceRoot)), Copy(place, data)];
    var made := Perform(map[], stages[1]).0;
    var folder: Store := map[OnDisk(target.serviceRoot) := Folder];
    assert stages[1][1..] == [Copy(place, data)] && stages[1][1..][1..] == [];
    assert Apply(map[], stages[1][0]) == folder;
    assert Perform(map[], stages[1]) == Perform(folder, [Copy(place, data)]);
    assert place !in folder;
    PerformOne(folder, Copy(place, data));
    assert made == folder[place := Document(data)];
    PerformThree(map[], stages);
    assert Perform(made, stages[2]).0 == made;
  }
}
