/**
 The per-account connection records of src/chainremote_auth.rs: the live folder `peers` belongs to the
 account in the owner option, those of other accounts are parked in folders named after their owners.
 */
module PeerStore {

  type Records = set<string>

  /** The folders beside each other in the configuration directory, and the owner option. */
  datatype State = State(dirs: map<string, Records>, owner: string)

  const LIVE := "peers"

  // ---------------------------------------------------------------- folder names

  predicate Alphanumeric(c: char) {
    'a' <= c <= 'z' || 'A' <= c <= 'Z' || '0' <= c <= '9'
  }

  function Tag(owner: string): string {
    seq(|owner|, i requires 0 <= i < |owner| => if Alphanumeric(owner[i]) then owner[i] else '_')
  }

  function Archive(owner: string): string {
    LIVE + "-" + Tag(owner)
  }

  /** Two accounts share a folder exactly when they differ only in which punctuation they have where. */
  lemma {:induction false} SameArchiveIff(a: string, b: string)
    ensures Archive(a) == Archive(b) <==> |a| == |b| && forall i :: 0 <= i < |a| ==>
      a[i] == b[i] || (!Alphanumeric(a[i]) && !Alphanumeric(b[i]))
    ensures Archive(a) != LIVE
  {
    assert Archive(a)[|LIVE + "-"|..] == Tag(a) && Archive(b)[|LIVE + "-"|..] == Tag(b);
    if Tag(a) == Tag(b) {
      assert |Tag(a)| == |Tag(b)|;
      forall i | 0 <= i < |a| ensures a[i] == b[i] || (!Alphanumeric(a[i]) && !Alphanumeric(b[i])) {
        assert Tag(a)[i] == Tag(b)[i];
      }
    }
    if |a| == |b| && forall i :: 0 <= i < |a| ==> a[i] == b[i] || (!Alphanumeric(a[i]) && !Alphanumeric(b[i])) {
      assert Tag(a) == Tag(b);
    }
  }

  /** Letters and digits of ASCII stay, every other character becomes an underscore. */
  lemma {:induction false} ArchiveNamesInFull()
    ensures Archive("azAZ09") == "peers-azAZ09"
    ensures Archive("`{@[/:|.-_") == "peers-__________"
  {
    assert Tag("azAZ09") == "azAZ09";
    assert Tag("`{@[/:|.-_") == "__________";
  }

  // ---------------------------------------------------------------- switching accounts

  /** Which of the file operations of one switch work: removing an old archive, parking the live folder,
      bringing an archive back. */
  datatype Fate = Fate(remove: bool, park: bool, restore: bool)

  const NO_FAILURE := Fate(true, true, true)

  function Rename(dirs: map<string, Records>, src: string, dst: string): map<string, Records>
    requires src in dirs && dst !in dirs
  {
    (dirs - {src})[dst := dirs[src]]
  }

  /** The parking half. The flag tells whether the switch goes on. */
  function Parked(dirs: map<string, Records>, prev: string, fate: Fate): (map<string, Records>, bool) {
    if LIVE !in dirs then (dirs, true) else
      var cleared := if fate.remove then dirs - {Archive(prev)} else dirs;
      if fate.park && LIVE in cleared && Archive(prev) !in cleared
        then (Rename(cleared, LIVE, Archive(prev)), true) else (cleared, false)
  }

  function Restored(dirs: map<string, Records>, next: string, fate: Fate): map<string, Records> {
    if Archive(next) in dirs && fate.restore && LIVE !in dirs then Rename(dirs, Archive(next), LIVE)
    else if LIVE in dirs then dirs else dirs[LIVE := {}]
  }

  function Swapped(dirs: map<string, Records>, prev: string, next: string, fate: Fate): map<string, Records> {
    var (parked, goesOn) := Parked(dirs, prev, fate);
    if goesOn then Restored(parked, next, fate) else parked
  }

  function LoggedIn(s: State, owner: string, fate: Fate): State {
    if s.owner == owner then s
    else State(if s.owner != "" then Swapped(s.dirs, s.owner, owner, fate) else s.dirs, owner)
  }

  class PeerFolders {
    var dirs: map<string, Records>
    var owner: string

    constructor (dirs: map<string, Records>)
      ensures this.dirs == dirs && owner == ""
    {
      this.dirs, owner := dirs, "";
    }

    function View(): State
      reads this
    {
      State(dirs, owner)
    }

    method SwapPeerStore(prev: string, next: string, fate: Fate)
      modifies this`dirs
      ensures dirs == Swapped(old(dirs), prev, next, fate)
    {
      SameArchiveIff(prev, next);
      SameArchiveIff(next, prev);
      var prevDir := Archive(prev);
      if LIVE in dirs {
        if prevDir in dirs {
          if fate.remove {
            dirs := dirs - {prevDir};
          }
        }
        assert prevDir !in old(dirs) ==> old(dirs) - {prevDir} == old(dirs);
        if !fate.park || prevDir in dirs {
          return;
        }
        dirs := (dirs - {LIVE})[prevDir := dirs[LIVE]];
      }
      var nextDir := Archive(next);
      if nextDir in dirs {
        if fate.restore {
          dirs := (dirs - {nextDir})[LIVE := dirs[nextDir]];
        } else {
          dirs := dirs[LIVE := {}];
        }
      } else {
        dirs := dirs[LIVE := {}];
      }
    }

    method ResetPeersIfAccountChanged(tenantId: string, email: string, fate: Fate)
      modifies this
      ensures View() == LoggedIn(old(View()), tenantId + "|" + email, fate)
    {
      var next := tenantId + "|" + email;
      var prev := owner;
      if prev == next {
        return;
      }
      if prev != "" {
        SwapPeerStore(prev, next, fate);
      }
      owner := next;
    }
  }

  // ---------------------------------------------------------------- the abstract store

  /** What the folders implement: every account has its own records, "" those from before any login. */
  datatype Accounts = Accounts(records: map<string, Records>, current: string)

  function Get(m: map<string, Records>, k: string): Records {
    if k in m then m[k] else {}
  }

  /** A login, or work with the live folder that leaves it with the given records. */
  datatype Event = Login(owner: string, fate: Fate) | Use(records: Records)

  function Next(s: State, e: Event): State {
    match e
    case Login(owner, fate) => LoggedIn(s, owner, fate)
    case Use(records) => s.(dirs := s.dirs[LIVE := records])
  }

  function NextAccounts(a: Accounts, e: Event): Accounts {
    match e
    case Login(owner, _) =>
      if a.current == "" && owner != "" then Accounts(a.records[owner := Get(a.records, "")], owner)
      else a.(current := owner)
    case Use(records) => a.(records := a.records[a.current := records])
  }

  function After(s: State, run: seq<Event>): State
    decreases |run|
  {
    if run == [] then s else After(Next(s, run[0]), run[1..])
  }

  function AfterAccounts(a: Accounts, run: seq<Event>): Accounts
    decreases |run|
  {
    if run == [] then a else AfterAccounts(NextAccounts(a, run[0]), run[1..])
  }

  predicate DistinctTags(owners: set<string>) {
    "" !in owners && forall a, b :: a in owners && b in owners && a != b ==> Archive(a) != Archive(b)
  }

  /** The live folder holds the records of the current account, the archives those of the others, and
      the current account has no archive. */
  predicate Implements(s: State, a: Accounts, owners: set<string>) {
    && s.owner == a.current && (s.owner == "" || s.owner in owners)
    && Get(s.dirs, LIVE) == Get(a.records, a.current)
    && (forall o :: o in owners && o != s.owner ==> Get(s.dirs, Archive(o)) == Get(a.records, o))
    && (s.owner != "" ==> Archive(s.owner) !in s.dirs)
    && (s.owner == "" ==> forall o :: o in owners ==> Archive(o) !in s.dirs)
  }

  lemma {:induction false} LoginImplements(s: State, a: Accounts, owners: set<string>, owner: string)
    requires DistinctTags(owners) && Implements(s, a, owners) && owner in owners
    ensures Implements(Next(s, Login(owner, NO_FAILURE)), NextAccounts(a, Login(owner, NO_FAILURE)), owners)
  {
  }

  /** Main result: over every sequence of logins without file errors, by accounts whose tags differ, live
      folder and archives are exactly a map from accounts to records. */
  lemma {:induction false} FoldersImplementAccounts(s: State, a: Accounts, owners: set<string>, run: seq<Event>)
    requires DistinctTags(owners) && Implements(s, a, owners)
    requires forall e :: e in run && e.Login? ==> e.owner in owners && e.fate == NO_FAILURE
    ensures Implements(After(s, run), AfterAccounts(a, run), owners)
    decreases |run|
  {
    if run != [] {
      assert run[0] in run;
      SameArchiveIff(s.owner, s.owner);
      forall o ensures Archive(o) != LIVE {
        SameArchiveIff(o, o);
      }
      if run[0].Login? {
        LoginImplements(s, a, owners, run[0].owner);
      }
      FoldersImplementAccounts(Next(s, run[0]), NextAccounts(a, run[0]), owners, run[1..]);
    }
  }

  /** Main result: from an installation no account has used yet, whatever is in the live folder; it passes
      to the first account that logs in. */
  lemma {:induction false} FoldersFromTheBeginning(rs: Records, owners: set<string>, run: seq<Event>)
    requires DistinctTags(owners)
    requires forall e :: e in run && e.Login? ==> e.owner in owners && e.fate == NO_FAILURE
    ensures Implements(After(State(map[LIVE := rs], ""), run), AfterAccounts(Accounts(map["" := rs], ""), run), owners)
  {
    forall o ensures Archive(o) != LIVE {
      SameArchiveIff(o, o);
    }
    FoldersImplementAccounts(State(map[LIVE := rs], ""), Accounts(map["" := rs], ""), owners, run);
  }

  /** Two accounts of one shop, say, have tags of their own. */
  lemma {:induction false} TagsDiffer(a: string, b: string)
    requires a != "" && b != "" && |a| != |b|
    ensures DistinctTags({a, b})
  {
    SameArchiveIff(a, b);
    SameArchiveIff(b, a);
  }

  lemma {:induction false} OthersLeaveRecords(a: Accounts, run: seq<Event>, owner: string)
    requires a.current != owner && a.current != ""
    requires forall e :: e in run && e.Login? ==> e.owner != owner && e.owner != ""
    ensures var n := AfterAccounts(a, run);
      Get(n.records, owner) == Get(a.records, owner) && n.current != owner && n.current != ""
    decreases |run|
  {
    if run != [] {
      assert run[0] in run;
      OthersLeaveRecords(NextAccounts(a, run[0]), run[1..], owner);
    }
  }

  /** Main result: whatever other accounts do in between, an account finds its records as it left them,
      and while it is away the live folder never shows them unless they are another's as well. */
  lemma {:induction false} RecordsComeBack(s: State, a: Accounts, owners: set<string>, other: string, run: seq<Event>)
    requires DistinctTags(owners) && Implements(s, a, owners) && s.owner != ""
    requires other in owners && other != s.owner
    requires forall e :: e in run && e.Login? ==> e.owner in owners && e.owner != s.owner && e.fate == NO_FAILURE
    ensures var away := After(Next(s, Login(other, NO_FAILURE)), run);
      && Get(away.dirs, Archive(s.owner)) == Get(s.dirs, LIVE)
      && Get(Next(away, Login(s.owner, NO_FAILURE)).dirs, LIVE) == Get(s.dirs, LIVE)
  {
    var s1, a1 := Next(s, Login(other, NO_FAILURE)), NextAccounts(a, Login(other, NO_FAILURE));
    LoginImplements(s, a, owners, other);
    FoldersImplementAccounts(s1, a1, owners, run);
    OthersLeaveRecords(a1, run, s.owner);
    LoginImplements(After(s1, run), AfterAccounts(a1, run), owners, s.owner);
  }

  // ---------------------------------------------------------------- no record is lost or doubled

  function Holders(dirs: map<string, Records>, r: string): set<string> {
    set d | d in dirs && r in dirs[d]
  }

  /** In how many folders the record is. */
  function Copies(dirs: map<string, Records>, r: string): nat {
    |Holders(dirs, r)|
  }

  /** The branch that removes an old archive is taken, and the record is in it. */
  predicate Removes(s: State, owner: string, fate: Fate, r: string) {
    && s.owner != owner && s.owner != ""
    && LIVE in s.dirs && fate.remove && r in Get(s.dirs, Archive(s.owner))
  }

  lemma {:induction false} RenameKeepsCopies(dirs: map<string, Records>, src: string, dst: string, r: string)
    requires src in dirs && dst !in dirs
    ensures Copies(Rename(dirs, src, dst), r) == Copies(dirs, r)
  {
    assert Holders(Rename(dirs, src, dst), r) ==
      if r in dirs[src] then Holders(dirs, r) - {src} + {dst} else Holders(dirs, r);
  }

  lemma {:induction false} RestoredKeepsCopies(dirs: map<string, Records>, next: string, fate: Fate, r: string)
    ensures Copies(Restored(dirs, next, fate), r) == Copies(dirs, r)
  {
    if Archive(next) in dirs && fate.restore && LIVE !in dirs {
      RenameKeepsCopies(dirs, Archive(next), LIVE, r);
    } else {
      assert Holders(Restored(dirs, next, fate), r) == Holders(dirs, r);
    }
  }

  lemma {:induction false} ParkedCopies(dirs: map<string, Records>, prev: string, fate: Fate, r: string)
    ensures Copies(Parked(dirs, prev, fate).0, r)
        + (if LIVE in dirs && fate.remove && r in Get(dirs, Archive(prev)) then 1 else 0)
      == Copies(dirs, r)
  {
    if LIVE in dirs {
      var cleared := if fate.remove then dirs - {Archive(prev)} else dirs;
      assert Holders(cleared, r) ==
        if fate.remove && r in Get(dirs, Archive(prev)) then Holders(dirs, r) - {Archive(prev)} else Holders(dirs, r);
      if fate.park && LIVE in cleared && Archive(prev) !in cleared {
        RenameKeepsCopies(cleared, LIVE, Archive(prev), r);
      }
    }
  }

  /** A login, whatever fails in it and whoever logs in, neither makes up a record nor doubles one, and
      loses one only where it removes the archive with it. */
  lemma {:induction false} LoginConservesRecords(s: State, owner: string, fate: Fate, r: string)
    ensures Copies(LoggedIn(s, owner, fate).dirs, r) + (if Removes(s, owner, fate, r) then 1 else 0)
      == Copies(s.dirs, r)
  {
    if s.owner != owner && s.owner != "" {
      ParkedCopies(s.dirs, s.owner, fate, r);
      RestoredKeepsCopies(Parked(s.dirs, s.owner, fate).0, owner, fate, r);
    }
  }

  /** How often a record was put into the live folder, taken out of it, and removed with an archive. */
  datatype Tally = Tally(added: nat, taken: nat, removed: nat)

  function Tallied(s: State, run: seq<Event>, r: string): Tally
    decreases |run|
  {
    if run == [] then Tally(0, 0, 0) else
      var rest := Tallied(Next(s, run[0]), run[1..], r);
      match run[0]
      case Login(owner, fate) => rest.(removed := rest.removed + if Removes(s, owner, fate, r) then 1 else 0)
      case Use(records) =>
        var had := r in Get(s.dirs, LIVE);
        rest.(added := rest.added + (if !had && r in records then 1 else 0),
              taken := rest.taken + if had && r !in records then 1 else 0)
  }

  lemma {:induction false} CopiesWithLive(dirs: map<string, Records>, records: Records, r: string)
    ensures Copies(dirs[LIVE := records], r) == |Holders(dirs, r) - {LIVE}| + if r in records then 1 else 0
  {
    var others := Holders(dirs, r) - {LIVE};
    if r in records {
      assert Holders(dirs[LIVE := records], r) == others + {LIVE};
    } else {
      assert Holders(dirs[LIVE := records], r) == others;
    }
  }

  lemma {:induction false} UseCopies(s: State, records: Records, r: string)
    ensures Copies(s.dirs[LIVE := records], r) + (if r in Get(s.dirs, LIVE) then 1 else 0)
      == Copies(s.dirs, r) + if r in records then 1 else 0
  {
    CopiesWithLive(s.dirs, records, r);
    if LIVE in s.dirs {
      CopiesWithLive(s.dirs, s.dirs[LIVE], r);
      assert s.dirs[LIVE := s.dirs[LIVE]] == s.dirs;
    } else {
      assert Holders(s.dirs, r) - {LIVE} == Holders(s.dirs, r);
    }
  }

  /** Main result: over every run, with any file errors and any account names, the number of copies of a
      record changes by use of the live folder and by removed archives alone. */
  lemma {:induction false} RecordsConserved(s: State, run: seq<Event>, r: string)
    ensures var t := Tallied(s, run, r);
      Copies(After(s, run).dirs, r) + t.taken + t.removed == Copies(s.dirs, r) + t.added
    decreases |run|
  {
    if run != [] {
      RecordsConserved(Next(s, run[0]), run[1..], r);
      match run[0]
      case Login(owner, fate) => LoginConservesRecords(s, owner, fate, r);
      case Use(records) => UseCopies(s, records, r);
    }
  }

  /** Without file errors, and with tags that differ, no login removes an archive. */
  lemma {:induction false} NothingRemovedWithoutFailures(s: State, a: Accounts, owners: set<string>, run: seq<Event>, r: string)
    requires DistinctTags(owners) && Implements(s, a, owners)
    requires forall e :: e in run && e.Login? ==> e.owner in owners && e.fate == NO_FAILURE
    ensures Tallied(s, run, r).removed == 0
    decreases |run|
  {
    if run != [] {
      assert run[0] in run;
      assert run == [run[0]] + run[1..];
      FoldersImplementAccounts(s, a, owners, [run[0]]);
      assert After(s, [run[0]]) == Next(s, run[0]) by {
        assert [run[0]][1..] == [];
      }
      assert AfterAccounts(a, [run[0]]) == NextAccounts(a, run[0]) by {
        assert [run[0]][1..] == [];
      }
      NothingRemovedWithoutFailures(Next(s, run[0]), NextAccounts(a, run[0]), owners, run[1..], r);
    }
  }

  // ---------------------------------------------------------------- where it fails

  /** Distinct tags are needed: the second of two accounts sees the records of the first exactly when
      their tags are the same. */
  lemma {:induction false} SwitchShowsForeignRecordsIff(dirs: map<string, Records>, a: string, b: string, rs: Records)
    requires a != b && a != "" && b != "" && rs != {}
    requires Archive(a) !in dirs && Archive(b) !in dirs
    ensures var n := Next(Next(Next(State(dirs, ""), Login(a, NO_FAILURE)), Use(rs)), Login(b, NO_FAILURE));
      && (Get(n.dirs, LIVE) == rs <==> Archive(a) == Archive(b))
      && (Get(n.dirs, LIVE) == {} <==> Archive(a) != Archive(b))
  {
  }

  /** The parking half of a switch away from the account in the owner option goes on. */
  predicate ParkWorks(s: State, fate: Fate) {
    LIVE !in s.dirs || (fate.park && (Archive(s.owner) !in s.dirs || fate.remove))
  }

  /** With file errors the owner option advances all the same. If the old account's folder could be put
      away, the new account sees its own records exactly if they could be brought back, or were none;
      otherwise it sees the records of the old account. */
  lemma {:induction false} FailedSwitchIsolatesIff(s: State, a: Accounts, owners: set<string>, owner: string, fate: Fate)
    requires DistinctTags(owners) && Implements(s, a, owners) && owner in owners
    requires s.owner != "" && s.owner != owner
    ensures var n := LoggedIn(s, owner, fate);
      && n.owner == owner
      && if ParkWorks(s, fate)
           then (Get(n.dirs, LIVE) == Get(a.records, owner) <==> fate.restore || Get(a.records, owner) == {})
                && (!fate.restore ==> Get(n.dirs, LIVE) == {})
           else Get(n.dirs, LIVE) == Get(a.records, s.owner)
  {
  }

  /** Only work with the live folder, and logins of an account that is logged in already. */
  predicate StaysWith(run: seq<Event>, owner: string) {
    forall i :: 0 <= i < |run| ==> run[i].Use? || run[i].owner == owner
  }

  lemma {:induction false} StayKeepsArchives(s: State, run: seq<Event>)
    requires StaysWith(run, s.owner)
    ensures var n := After(s, run);
      && n.owner == s.owner
      && (forall d :: d != LIVE ==> (d in n.dirs <==> d in s.dirs) && Get(n.dirs, d) == Get(s.dirs, d))
      && (LIVE in n.dirs <==> LIVE in s.dirs || exists i :: 0 <= i < |run| && run[i].Use?)
    decreases |run|
  {
    if run != [] {
      var rest := run[1..];
      assert forall i :: 0 <= i < |rest| ==> rest[i] == run[i + 1];
      StayKeepsArchives(Next(s, run[0]), rest);
      assert (exists i :: 0 <= i < |run| && run[i].Use?) <==>
        run[0].Use? || exists i :: 0 <= i < |rest| && rest[i].Use? by {
        if i :| 0 <= i < |run| && run[i].Use? {
          assert i > 0 ==> rest[i - 1].Use?;
        }
      }
    }
  }

  /** The source promises that archives are put aside, not deleted. Account `p` logs in, works, and is
      followed by another: its archive is removed, with the records in it, if and only if `p` had one,
      the removal works, and the login of `p` did not bring it back: because the first login never
      does, or because the folder of the account before could not be parked or the archive of `p` not
      be restored. */
  lemma {:induction false} ArchiveRemovedIff(s: State, p: string, f1: Fate, work: seq<Event>, next: string, f2: Fate, r: string)
    requires p != "" && s.owner != p && next != p && StaysWith(work, p)
    requires s.owner != "" ==> Archive(s.owner) != Archive(p)
    ensures var away := After(LoggedIn(s, p, f1), work);
      Removes(away, next, f2, r) <==>
        && r in Get(s.dirs, Archive(p)) && f2.remove
        && (if s.owner == "" then LIVE in s.dirs || exists i :: 0 <= i < |work| && work[i].Use?
            else !(ParkWorks(s, f1) && f1.restore))
  {
    SameArchiveIff(s.owner, p);
    SameArchiveIff(p, p);
    StayKeepsArchives(LoggedIn(s, p, f1), work);
  }

  /** Whoever is logged in after a run, but was not before it, logged in at some point and stayed. */
  lemma {:induction false} LastSwitch(s: State, run: seq<Event>) returns (j: nat)
    requires After(s, run).owner != s.owner
    ensures var p := After(s, run).owner;
      && j < |run| && run[j].Login? && run[j].owner == p
      && After(s, run[..j]).owner != p && StaysWith(run[j + 1..], p)
      && After(s, run) == After(LoggedIn(After(s, run[..j]), p, run[j].fate), run[j + 1..])
    decreases |run|
  {
    var n, rest := Next(s, run[0]), run[1..];
    var p := After(s, run).owner;
    if n.owner != p {
      j := LastSwitch(n, rest);
      assert run[..j + 1][1..] == rest[..j] && run[j + 2..] == rest[j + 1..];
      j := j + 1;
    } else if forall i :: 0 <= i < |rest| ==> rest[i].Use? || rest[i].owner == p {
      j := 0;
    } else {
      j := LeftAndBack(n, rest);
      assert run[..j + 1][1..] == rest[..j] && run[j + 2..] == rest[j + 1..];
      j := j + 1;
    }
  }

  lemma {:induction false} LeftAndBack(s: State, run: seq<Event>) returns (j: nat)
    requires After(s, run).owner == s.owner && !StaysWith(run, s.owner)
    ensures var p := s.owner;
      && j < |run| && run[j].Login? && run[j].owner == p
      && After(s, run[..j]).owner != p && StaysWith(run[j + 1..], p)
      && After(s, run) == After(LoggedIn(After(s, run[..j]), p, run[j].fate), run[j + 1..])
    decreases |run|
  {
    var n, rest := Next(s, run[0]), run[1..];
    assert forall i :: 0 <= i < |rest| ==> rest[i] == run[i + 1];
    if n.owner != s.owner {
      j := LastSwitch(n, rest);
    } else {
      j := LeftAndBack(n, rest);
    }
    assert run[..j + 1][1..] == rest[..j] && run[j + 2..] == rest[j + 1..];
    j := j + 1;
  }

  /** Main result: over every run with file errors by accounts whose tags differ, a login removes a record
      with an archive exactly as `ArchiveRemovedIff` says of the last login of the account before. */
  lemma {:induction false} RunRemovesIff(s: State, run: seq<Event>, next: string, fate: Fate, r: string) returns (j: nat)
    requires var p := After(s, run).owner; p != "" && p != s.owner && p != next
    requires forall i, k :: 0 <= i <= k <= |run| ==>
      var a, b := After(s, run[..i]).owner, After(s, run[..k]).owner; a != b && a != "" ==> Archive(a) != Archive(b)
    ensures j < |run| && run[j].Login? && run[j].owner == After(s, run).owner && StaysWith(run[j + 1..], run[j].owner)
    ensures var before, p := After(s, run[..j]), run[j].owner;
      && before.owner != p
      && (Removes(After(s, run), next, fate, r) <==>
            && r in Get(before.dirs, Archive(p)) && fate.remove
            && (if before.owner == "" then LIVE in before.dirs || exists i :: j < i < |run| && run[i].Use?
                else !(ParkWorks(before, run[j].fate) && run[j].fate.restore)))
  {
    j := LastSwitch(s, run);
    var before, p, work := After(s, run[..j]), run[j].owner, run[j + 1..];
    assert run[..|run|] == run;
    ArchiveRemovedIff(before, p, run[j].fate, work, next, fate, r);
    assert forall i :: 0 <= i < |work| ==> work[i] == run[i + j + 1];
    if i :| j < i < |run| && run[i].Use? {
      assert work[i - j - 1].Use?;
    }
  }

  /** The failing case: the archive of "b" cannot be brought back when "b" logs in; the next login, in
      which nothing fails, removes it, and its records are nowhere. */
  lemma {:induction false} FailedRestoreLosesArchive(rs: Records)
    ensures var s := State(map[LIVE := {}, Archive("b") := rs], "a");
      var n := After(s, [Login("b", Fate(true, true, false)), Login("c", NO_FAILURE)]);
      forall d :: d in n.dirs ==> n.dirs[d] == {}
  {
    SameArchiveIff("a", "b");
    SameArchiveIff("b", "c");
    SameArchiveIff("c", "b");
    assert "a"[0] == 'a' && "b"[0] == 'b' && "c"[0] == 'c';
    var s := State(map[LIVE := {}, Archive("b") := rs], "a");
    var failing, working := Login("b", Fate(true, true, false)), Login("c", NO_FAILURE);
    assert [failing, working][1..] == [working] && [working][1..] == [];
    var one := Next(s, failing);
    assert Archive("a") !in s.dirs && s.dirs - {Archive("a")} == s.dirs;
    assert Rename(s.dirs, LIVE, Archive("a")) == map[Archive("a") := {}, Archive("b") := rs];
    assert one == State(map[LIVE := {}, Archive("a") := {}, Archive("b") := rs], "b");
    assert After(s, [failing, working]) == After(one, [working]) == Next(one, working);
  }

  // ---------------------------------------------------------------- whose records

  /** Record `r` of account `a` is where it belongs: in the live folder while `a` is logged in, or in the
      archive of `a`. */
  predicate AtHome(s: State, a: string, r: string) {
    forall d :: d in s.dirs && r in s.dirs[d] ==> d == Archive(a) || (d == LIVE && s.owner == a)
  }

  /** No archive but that of `a` holds the record. */
  predicate WellFiled(s: State, a: string, r: string) {
    forall d :: d in s.dirs && r in s.dirs[d] ==> d == Archive(a) || d == LIVE
  }

  /** Only `a` puts the record into the live folder, and the tags of the others differ from that of `a`. */
  predicate Belongs(s: State, e: Event, a: string, r: string) {
    match e
    case Login(owner, _) => owner != "" && (owner != a ==> Archive(owner) != Archive(a))
    case Use(records) => r in records ==> s.owner == a || r in Get(s.dirs, LIVE)
  }

  predicate BelongsAll(s: State, run: seq<Event>, a: string, r: string)
    decreases |run|
  {
    run == [] || (Belongs(s, run[0], a, r) && BelongsAll(Next(s, run[0]), run[1..], a, r))
  }

  predicate TagApart(s: State, a: string) {
    s.owner != "" && s.owner != a ==> Archive(s.owner) != Archive(a)
  }

  /** A switch away from `a` that leaves the live folder, with the record in it, to the next account. */
  predicate LeftBehind(s: State, e: Event, a: string, r: string) {
    && e.Login? && s.owner == a && e.owner != a
    && r in Get(s.dirs, LIVE) && !ParkWorks(s, e.fate)
  }

  /** A switch away from another account that puts the live folder, with the record in it, into the archive
      of that account, and does not bring it back at once for an account with the same tag. */
  predicate Misfiled(s: State, e: Event, a: string, r: string) {
    && e.Login? && s.owner != a && s.owner != "" && e.owner != s.owner
    && r in Get(s.dirs, LIVE) && ParkWorks(s, e.fate)
    && !(e.fate.restore && Archive(e.owner) == Archive(s.owner))
  }

  lemma {:induction false} HomeStep(s: State, e: Event, a: string, r: string)
    requires a != "" && TagApart(s, a) && Belongs(s, e, a, r)
    ensures TagApart(Next(s, e), a)
    ensures AtHome(s, a, r) ==> (AtHome(Next(s, e), a, r) <==> !LeftBehind(s, e, a, r))
    ensures WellFiled(s, a, r) ==> (WellFiled(Next(s, e), a, r) <==> !Misfiled(s, e, a, r))
  {
    SameArchiveIff(a, a);
    SameArchiveIff(s.owner, s.owner);
    if e.Login? {
      SameArchiveIff(e.owner, e.owner);
    }
    if LeftBehind(s, e, a, r) {
      assert LIVE in Next(s, e).dirs && r in Next(s, e).dirs[LIVE];
    }
    if Misfiled(s, e, a, r) && WellFiled(s, a, r) {
      assert Archive(s.owner) in Next(s, e).dirs && r in Next(s, e).dirs[Archive(s.owner)];
    }
  }

  lemma {:induction false} StateSteps(s: State, run: seq<Event>, i: nat)
    requires i < |run|
    ensures After(s, run[..i + 1]) == Next(After(s, run[..i]), run[i])
    decreases |run|
  {
    if i == 0 {
      assert run[..1][1..] == [] && run[..0] == [];
    } else {
      StateSteps(Next(s, run[0]), run[1..], i - 1);
      assert run[1..][..i] == run[..i + 1][1..] && run[1..][..i - 1] == run[..i][1..];
    }
  }

  lemma {:induction false} BelongsAt(s: State, run: seq<Event>, a: string, r: string, i: nat)
    requires i < |run| && a != "" && TagApart(s, a) && BelongsAll(s, run, a, r)
    ensures Belongs(After(s, run[..i]), run[i], a, r) && TagApart(After(s, run[..i]), a)
    decreases |run|
  {
    if i == 0 {
      assert run[..0] == [];
    } else {
      HomeStep(s, run[0], a, r);
      BelongsAt(Next(s, run[0]), run[1..], a, r, i - 1);
      assert run[1..][..i - 1] == run[..i][1..];
    }
  }

  /** Main result: parked records are said to come back to their own account only. Over every run with file
      errors, by accounts whose tags differ from that of `a`, a record of `a` is always where it belongs if
      and only if no switch away from `a` fails to put its folder away; and no archive of another account
      ever holds it if and only if no other account that was left with it is later switched away from with
      success. */
  lemma {:induction false} RecordsStayHomeIff(s: State, run: seq<Event>, a: string, r: string)
    requires a != "" && TagApart(s, a) && BelongsAll(s, run, a, r) && AtHome(s, a, r)
    ensures (forall i :: 0 <= i <= |run| ==> AtHome(After(s, run[..i]), a, r))
      <==> (forall i :: 0 <= i < |run| ==> !LeftBehind(After(s, run[..i]), run[i], a, r))
    ensures (forall i :: 0 <= i <= |run| ==> WellFiled(After(s, run[..i]), a, r))
      <==> (forall i :: 0 <= i < |run| ==> !Misfiled(After(s, run[..i]), run[i], a, r))
  {
    forall i | 0 <= i < |run|
      ensures var t := After(s, run[..i]);
        && (AtHome(t, a, r) ==> (AtHome(After(s, run[..i + 1]), a, r) <==> !LeftBehind(t, run[i], a, r)))
        && (WellFiled(t, a, r) ==> (WellFiled(After(s, run[..i + 1]), a, r) <==> !Misfiled(t, run[i], a, r)))
    {
      StateSteps(s, run, i);
      BelongsAt(s, run, a, r, i);
      HomeStep(After(s, run[..i]), run[i], a, r);
    }
    assert run[..0] == [];
    if forall i :: 0 <= i < |run| ==> !LeftBehind(After(s, run[..i]), run[i], a, r) {
      for n := 0 to |run|
        invariant forall i :: 0 <= i <= n ==> AtHome(After(s, run[..i]), a, r)
      {
        assert !LeftBehind(After(s, run[..n]), run[n], a, r);
      }
    }
    if forall i :: 0 <= i < |run| ==> !Misfiled(After(s, run[..i]), run[i], a, r) {
      for n := 0 to |run|
        invariant forall i :: 0 <= i <= n ==> WellFiled(After(s, run[..i]), a, r)
      {
        assert !Misfiled(After(s, run[..n]), run[n], a, r);
      }
    }
    if forall i :: 0 <= i <= |run| ==> AtHome(After(s, run[..i]), a, r) {
      forall i | 0 <= i < |run| ensures !LeftBehind(After(s, run[..i]), run[i], a, r) {
        assert AtHome(After(s, run[..i]), a, r) && AtHome(After(s, run[..i + 1]), a, r);
      }
    }
    if forall i :: 0 <= i <= |run| ==> WellFiled(After(s, run[..i]), a, r) {
      forall i | 0 <= i < |run| ensures !Misfiled(After(s, run[..i]), run[i], a, r) {
        assert WellFiled(After(s, run[..i]), a, r) && WellFiled(After(s, run[..i + 1]), a, r);
      }
    }
  }

  /** The failing case: the folder of "a" cannot be put away when "b" logs in. The next switch files it
      under "b", and when "b" comes back it gets the records of "a", which "a" does not. */
  lemma {:induction false} FailedParkHandsRecordsOver(rs: Records, r: string)
    ensures var s := State(map[LIVE := rs], "a");
      var away := After(s, [Login("b", Fate(true, false, true)), Login("c", NO_FAILURE)]);
      && LeftBehind(s, Login("b", Fate(true, false, true)), "a", r) == (r in rs)
      && AtHome(s, "a", r) && BelongsAll(s, [Login("b", Fate(true, false, true)), Login("c", NO_FAILURE)], "a", r)
      && Get(away.dirs, Archive("b")) == rs
      && Get(Next(away, Login("b", NO_FAILURE)).dirs, LIVE) == rs
      && Get(Next(away, Login("a", NO_FAILURE)).dirs, LIVE) == {}
  {
    SameArchiveIff("a", "b");
    SameArchiveIff("b", "c");
    SameArchiveIff("c", "a");
    SameArchiveIff("b", "a");
    assert "a"[0] == 'a' && "b"[0] == 'b' && "c"[0] == 'c';
    var s := State(map[LIVE := rs], "a");
    var failing, working := Login("b", Fate(true, false, true)), Login("c", NO_FAILURE);
    assert [failing, working][1..] == [working] && [working][1..] == [];
    var one := Next(s, failing);
    assert s.dirs - {Archive("a")} == s.dirs;
    assert one == State(s.dirs, "b");
    assert After(s, [failing, working]) == After(one, [working]) == Next(one, working);
    assert Rename(s.dirs, LIVE, Archive("b")) == map[Archive("b") := rs];
    assert s.dirs - {Archive("b")} == s.dirs;
  }
}
