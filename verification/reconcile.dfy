/** `_sync_recursive` and `sync_directories`: one directory level is
    snapshotted, then four passes run in order over the live destination
    entries — copy what only the source has, overwrite common files whose
    contents differ, delete what only the destination has, descend into the
    common directories. With `dryRun` every pass reports instead of acting. */
module Reconcile {
  import opened Tree
  import opened Names
  import opened Listing
  import opened Compare

  /** The five things the reconciler does to a destination entry. */
  datatype Kind = CopyDir | CopyFile | Update | RemoveDir | RemoveFile

  /** One emitted line: the kind of action, the entry's path below both
      roots, and whether it was only reported (dry run) or carried out. */
  datatype Action = Action(kind: Kind, path: Path, dryRun: bool)

  /** The destination directory's entries after a pass, and what the pass emitted. */
  datatype Level = Level(entries: map<Name, Node>, actions: seq<Action>)

  /** The destination tree after reconciling it, and everything emitted on the way. */
  datatype Outcome = Outcome(tree: Node, actions: seq<Action>)

  /** Why the entry point refuses to start. */
  datatype SyncError = SourceNotADirectory | DestinationNotADirectory

  /** The entry point's result: the reconciled destination, or the refusal. */
  datatype Result = Synced(outcome: Outcome) | Refused(error: SyncError)

  /** A source-only directory is copied as a whole subtree, anything else as a file. */
  function CopyKind(entry: Node): Kind
  {
    if entry.Dir? then CopyDir else CopyFile
  }

  /** A destination-only directory is removed as a whole subtree, anything else unlinked. */
  function RemoveKind(entry: Node): Kind
  {
    if entry.Dir? then RemoveDir else RemoveFile
  }

  /** The source entries listed in `names`. */
  function Pick(src: map<Name, Node>, names: seq<Name>): map<Name, Node>
    requires forall n :: n in names ==> n in src
  {
    map n | n in names :: src[n]
  }

  lemma PickStep(src: map<Name, Node>, cur: map<Name, Node>, names: seq<Name>)
    requires names != [] && forall n :: n in names ==> n in src
    ensures cur[names[0] := src[names[0]]] + Pick(src, names[1..]) == cur + Pick(src, names)
  {
  }

  lemma DropStep(cur: map<Name, Node>, names: seq<Name>)
    requires names != []
    ensures cur - {names[0]} - (set m | m in names[1..]) == cur - (set m | m in names)
  {
  }

  /** Writing the listed source entries leaves every other destination entry as it was. */
  lemma PickKeeps(src: map<Name, Node>, cur: map<Name, Node>, names: seq<Name>, dryRun: bool, out: map<Name, Node>)
    requires forall n :: n in names ==> n in src
    requires out == if dryRun then cur else cur + Pick(src, names)
    ensures forall n :: n in cur && n !in names ==> n in out && out[n] == cur[n]
  {
  }

  /** Deleting the listed names leaves every other destination entry as it was. */
  lemma DropKeeps(cur: map<Name, Node>, names: seq<Name>, dryRun: bool, out: map<Name, Node>)
    requires out == if dryRun then cur else cur - (set m | m in names)
    ensures forall n :: n in cur && n !in names ==> n in out && out[n] == cur[n]
  {
  }

  /** Every action in `acts` concerns an entry strictly below `at` and carries the run's mode. */
  predicate Inside(acts: seq<Action>, at: Path, dryRun: bool)
  {
    forall a :: a in acts ==> |a.path| > |at| && a.path[..|at|] == at && a.dryRun == dryRun
  }

  lemma InsideConcat(a: seq<Action>, b: seq<Action>, at: Path, dryRun: bool)
    requires Inside(a, at, dryRun) && Inside(b, at, dryRun)
    ensures Inside(a + b, at, dryRun)
  {
  }

  /** The listed names whose two entries differ, in listing order. */
  function Differing(src: map<Name, Node>, dst: map<Name, Node>, names: seq<Name>): (changed: seq<Name>)
    requires forall n :: n in names ==> n in src && n in dst
    ensures forall n :: n in changed <==> n in names && src[n] != dst[n]
    ensures |changed| <= |names|
    ensures Distinct(names) ==> Distinct(changed)
  {
    if names == [] then []
    else (if src[names[0]] != dst[names[0]] then [names[0]] else []) + Differing(src, dst, names[1..])
  }

  /** `Differing` keeps the listing's order: from a sorted listing it picks a
      sorted list, so the Update lines come out in dircmp's order. */
  lemma {:induction false} DifferingInOrder(src: map<Name, Node>, dst: map<Name, Node>, names: seq<Name>)
    requires forall n :: n in names ==> n in src && n in dst
    requires Ascending(names)
    ensures Ascending(Differing(src, dst, names))
    decreases |names|
  {
    if names != [] {
      var rest := Differing(src, dst, names[1..]);
      assert Ascending(names[1..]);
      DifferingInOrder(src, dst, names[1..]);
      if src[names[0]] != dst[names[0]] {
        AscendingPrepend(names, rest);
      }
    }
  }

  lemma DifferingFrame(src: map<Name, Node>, dst: map<Name, Node>, dst': map<Name, Node>, names: seq<Name>)
    requires forall n :: n in names ==> n in src && n in dst && n in dst' && dst[n] == dst'[n]
    ensures Differing(src, dst, names) == Differing(src, dst', names)
  {
  }

  /** The `left_only` pass: copy each listed source entry into the destination. */
  function CopyNew(src: map<Name, Node>, cur: map<Name, Node>, names: seq<Name>, dryRun: bool, at: Path): (r: Level)
    requires forall n :: n in names ==> n in src
    ensures r.entries == if dryRun then cur else cur + Pick(src, names)
    ensures |r.actions| == |names|
    ensures forall i :: 0 <= i < |names| ==>
      r.actions[i] == Action(CopyKind(src[names[i]]), at + [names[i]], dryRun)
    ensures Inside(r.actions, at, dryRun)
    decreases |names|
  {
    if names == [] then Level(cur, [])
    else
      var n := names[0];
      var next := if dryRun then cur else cur[n := src[n]];
      var rest := CopyNew(src, next, names[1..], dryRun, at);
      PickStep(src, cur, names);
      Level(rest.entries, [Action(CopyKind(src[n]), at + [n], dryRun)] + rest.actions)
  }

  /** One Update action per listed name, in listing order. */
  function Updates(changed: seq<Name>, at: Path, dryRun: bool): (acts: seq<Action>)
    ensures |acts| == |changed|
    ensures forall i :: 0 <= i < |changed| ==> acts[i] == Action(Update, at + [changed[i]], dryRun)
  {
    if changed == [] then [] else [Action(Update, at + [changed[0]], dryRun)] + Updates(changed[1..], at, dryRun)
  }

  /** The facts one step of the `common_files` pass relies on: deciding the
      first name and moving on leaves the closed forms intact. */
  lemma UpdateStep(src: map<Name, Node>, cur: map<Name, Node>, next: map<Name, Node>, names: seq<Name>, dryRun: bool, at: Path)
    requires names != [] && Distinct(names)
    requires forall n :: n in names ==> n in src && n in cur
    requires next == if src[names[0]] != cur[names[0]] && !dryRun then cur[names[0] := src[names[0]]] else cur
    ensures forall n :: n in names[1..] ==> n in next && next[n] == cur[n]
    ensures !dryRun ==> next + Pick(src, names[1..]) == cur + Pick(src, names)
    ensures Updates(Differing(src, cur, names), at, dryRun) ==
      (if src[names[0]] != cur[names[0]] then [Action(Update, at + [names[0]], dryRun)] else [])
      + Updates(Differing(src, next, names[1..]), at, dryRun)
  {
    var n := names[0];
    assert n !in names[1..];
    DifferingFrame(src, cur, next, names[1..]);
    if src[n] == cur[n] {
      assert cur[n := src[n]] == cur;
    }
    PickStep(src, cur, names);
  }

  /** The `common_files` pass: overwrite each listed destination file whose
      contents differ from the source file's. */
  function UpdateChanged(src: map<Name, Node>, cur: map<Name, Node>, names: seq<Name>, dryRun: bool, at: Path): (r: Level)
    requires forall n :: n in names ==> n in src && src[n].File? && n in cur && cur[n].File?
    requires Distinct(names)
    ensures r.entries == if dryRun then cur else cur + Pick(src, names)
    ensures r.actions == Updates(Differing(src, cur, names), at, dryRun)
    ensures Inside(r.actions, at, dryRun)
    decreases |names|
  {
    if names == [] then Level(cur, [])
    else
      var n := names[0];
      var differs := !SameContents(src[n].bytes, cur[n].bytes);
      var next := if differs && !dryRun then cur[n := src[n]] else cur;
      UpdateStep(src, cur, next, names, dryRun, at);
      var rest := UpdateChanged(src, next, names[1..], dryRun, at);
      Level(rest.entries, (if differs then [Action(Update, at + [n], dryRun)] else []) + rest.actions)
  }

  /** The `right_only` pass: delete each listed destination entry. */
  function RemoveStale(cur: map<Name, Node>, names: seq<Name>, dryRun: bool, at: Path): (r: Level)
    requires forall n :: n in names ==> n in cur
    requires Distinct(names)
    ensures r.entries == if dryRun then cur else cur - (set n | n in names)
    ensures |r.actions| == |names|
    ensures forall i :: 0 <= i < |names| ==>
      r.actions[i] == Action(RemoveKind(cur[names[i]]), at + [names[i]], dryRun)
    ensures Inside(r.actions, at, dryRun)
    decreases |names|
  {
    if names == [] then Level(cur, [])
    else
      var n := names[0];
      var next := if dryRun then cur else cur - {n};
      var rest := RemoveStale(next, names[1..], dryRun, at);
      DropStep(cur, names);
      Level(rest.entries, [Action(RemoveKind(cur[n]), at + [n], dryRun)] + rest.actions)
  }

  /** The actions of reconciling the subdirectory `n` of `at` all lie below `at + [n]`. */
  lemma NestedPaths(acts: seq<Action>, at: Path, n: Name, dryRun: bool)
    requires Inside(acts, at + [n], dryRun)
    ensures forall a :: a in acts ==> |a.path| > |at| + 1 && a.path[..|at|] == at && a.path[|at|] == n && a.dryRun == dryRun
  {
    forall a | a in acts
      ensures a.path[..|at|] == at && a.path[|at|] == n
    {
      assert a.path[..|at| + 1] == at + [n];
      assert a.path[..|at|] == (at + [n])[..|at|];
    }
  }

  /** What lies below `at + [n]` lies below `at`. */
  lemma InsideParent(acts: seq<Action>, at: Path, n: Name, dryRun: bool)
    requires Inside(acts, at + [n], dryRun)
    ensures Inside(acts, at, dryRun)
  {
    NestedPaths(acts, at, n, dryRun);
  }

  /** The `common_dirs` pass: reconcile each listed pair of subdirectories in turn. */
  function RecurseCommon(src: Node, cur: map<Name, Node>, names: seq<Name>, dryRun: bool, ignore: set<Name>, at: Path): (r: Level)
    requires src.Dir?
    requires forall n :: n in names ==> n in src.children && src.children[n].Dir? && n in cur && cur[n].Dir?
    requires Distinct(names)
    ensures r.entries.Keys == cur.Keys
    ensures dryRun ==> r.entries == cur
    ensures Inside(r.actions, at, dryRun)
    decreases src, 1, |names|
  {
    if names == [] then Level(cur, [])
    else
      var n := names[0];
      var sub := SyncDir(src.children[n], cur[n], dryRun, ignore, at + [n]);
      InsideParent(sub.actions, at, n, dryRun);
      var rest := RecurseCommon(src, cur[n := sub.tree], names[1..], dryRun, ignore, at);
      InsideConcat(sub.actions, rest.actions, at, dryRun);
      Level(rest.entries, sub.actions + rest.actions)
  }

  /** `_sync_recursive` on a source directory and a destination directory
      whose entries sit at `at` below the two roots. */
  function SyncDir(src: Node, dst: Node, dryRun: bool, ignore: set<Name>, at: Path): (r: Outcome)
    requires src.Dir? && dst.Dir?
    ensures r.tree.Dir?
    ensures dryRun ==> r.tree == dst
    ensures !dryRun ==> forall n :: n in r.tree.children <==>
      (n in src.children && n !in ignore) || (n in dst.children && n in ignore)
    ensures Inside(r.actions, at, dryRun)
    decreases src, 2, 0
  {
    var snap := Classify(src.children, dst.children, ignore);
    var copied := CopyNew(src.children, dst.children, snap.leftOnly, dryRun, at);
    PickKeeps(src.children, dst.children, snap.leftOnly, dryRun, copied.entries);
    var updated := UpdateChanged(src.children, copied.entries, snap.commonFiles, dryRun, at);
    PickKeeps(src.children, copied.entries, snap.commonFiles, dryRun, updated.entries);
    var removed := RemoveStale(updated.entries, snap.rightOnly, dryRun, at);
    DropKeeps(updated.entries, snap.rightOnly, dryRun, removed.entries);
    var nested := RecurseCommon(src, removed.entries, snap.commonDirs, dryRun, ignore, at);
    InsideConcat(copied.actions, updated.actions, at, dryRun);
    InsideConcat(copied.actions + updated.actions, removed.actions, at, dryRun);
    InsideConcat(copied.actions + updated.actions + removed.actions, nested.actions, at, dryRun);
    Outcome(Dir(nested.entries), copied.actions + updated.actions + removed.actions + nested.actions)
  }

  /** What the `common_dirs` pass leaves at a name: the reconciled
      subdirectory for a listed name, the old entry for any other. */
  lemma {:induction false} NestedEntry(src: Node, cur: map<Name, Node>, names: seq<Name>, dryRun: bool, ignore: set<Name>, at: Path, n: Name)
    requires src.Dir?
    requires forall m :: m in names ==> m in src.children && src.children[m].Dir? && m in cur && cur[m].Dir?
    requires Distinct(names)
    requires n in cur
    ensures var r := RecurseCommon(src, cur, names, dryRun, ignore, at);
      && (n !in names ==> r.entries[n] == cur[n])
      && (n in names ==> r.entries[n] == SyncDir(src.children[n], cur[n], dryRun, ignore, at + [n]).tree)
    decreases |names|
  {
    if names != [] {
      var m := names[0];
      var sub := SyncDir(src.children[m], cur[m], dryRun, ignore, at + [m]);
      assert m !in names[1..];
      NestedEntry(src, cur[m := sub.tree], names[1..], dryRun, ignore, at, n);
    }
  }

  /** The effect of one real (non-dry) run on each name of the destination
      directory, by the name's class in the snapshot. */
  lemma LevelEffect(src: Node, dst: Node, ignore: set<Name>, at: Path, n: Name)
    requires src.Dir? && dst.Dir?
    ensures var t := SyncDir(src, dst, false, ignore, at).tree.children;
      var s := src.children;
      var d := dst.children;
      && (n in s && n !in ignore && (n !in d || (s[n].File? && d[n].File?)) ==> n in t && t[n] == s[n])
      && (n in s && n in d && n !in ignore && s[n].Dir? && d[n].Dir? ==>
            n in t && t[n] == SyncDir(s[n], d[n], false, ignore, at + [n]).tree)
      && (n !in s && n in d && n !in ignore ==> n !in t)
      && (n in d && (n in ignore || (n in s && s[n].Dir? != d[n].Dir?)) ==> n in t && t[n] == d[n])
  {
    var s := src.children;
    var d := dst.children;
    var snap := Classify(s, d, ignore);
    var copied := CopyNew(s, d, snap.leftOnly, false, at);
    PickKeeps(s, d, snap.leftOnly, false, copied.entries);
    var updated := UpdateChanged(s, copied.entries, snap.commonFiles, false, at);
    PickKeeps(s, copied.entries, snap.commonFiles, false, updated.entries);
    var removed := RemoveStale(updated.entries, snap.rightOnly, false, at);
    DropKeeps(updated.entries, snap.rightOnly, false, removed.entries);
    if n in removed.entries {
      NestedEntry(src, removed.entries, snap.commonDirs, false, ignore, at, n);
    }
    if n in s && n !in ignore && n !in d {
      assert n in snap.leftOnly;
      assert n in Pick(s, snap.leftOnly);
      assert copied.entries[n] == s[n];
    }
    if n in s && n !in ignore && n in d && s[n].File? && d[n].File? {
      assert n in snap.commonFiles;
      assert n in Pick(s, snap.commonFiles);
      assert updated.entries[n] == s[n];
    }
  }

  /** `sync_directories`: the source must be a directory, then the
      destination must be one; only then is anything reconciled. */
  function SyncDirectories(src: Option<Node>, dst: Option<Node>, dryRun: bool, ignore: set<Name>): (r: Result)
    ensures !IsDirectory(src) ==> r == Refused(SourceNotADirectory)
    ensures IsDirectory(src) && !IsDirectory(dst) ==> r == Refused(DestinationNotADirectory)
    ensures r.Synced? <==> IsDirectory(src) && IsDirectory(dst)
    ensures r.Synced? ==> r.outcome.tree.Dir? && Inside(r.outcome.actions, [], dryRun)
    ensures r.Synced? && dryRun ==> r.outcome.tree == dst.value
  {
    if !IsDirectory(src) then Refused(SourceNotADirectory)
    else if !IsDirectory(dst) then Refused(DestinationNotADirectory)
    else Synced(SyncDir(src.value, dst.value, dryRun, ignore, []))
  }
}
