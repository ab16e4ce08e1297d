/** What one run emits for each entry of a directory pair, and what it leaves
    there: one action per copied, updated or removed entry, covering the
    entry's whole subtree; the subdirectory's own actions for a common
    directory; nothing for a skipped name. */
module Entries {
  import opened Tree
  import opened Names
  import opened Listing
  import opened Reconcile

  /** The actions concerning `p` or anything below it, in emission order. */
  function ActionsUnder(acts: seq<Action>, p: Path): (sel: seq<Action>)
    ensures forall a :: a in sel <==> a in acts && IsPrefix(p, a.path)
    ensures |sel| <= |acts|
  {
    if acts == [] then []
    else (if IsPrefix(p, acts[0].path) then [acts[0]] else []) + ActionsUnder(acts[1..], p)
  }

  lemma UnderConcat(a: seq<Action>, b: seq<Action>, p: Path)
    ensures ActionsUnder(a + b, p) == ActionsUnder(a, p) + ActionsUnder(b, p)
  {
    if a != [] {
      assert (a + b)[0] == a[0];
      assert (a + b)[1..] == a[1..] + b;
      UnderConcat(a[1..], b, p);
    } else {
      assert a + b == b;
    }
  }

  lemma UnderNone(acts: seq<Action>, p: Path)
    requires forall a :: a in acts ==> !IsPrefix(p, a.path)
    ensures ActionsUnder(acts, p) == []
  {
  }

  lemma UnderAll(acts: seq<Action>, p: Path)
    requires forall a :: a in acts ==> IsPrefix(p, a.path)
    ensures ActionsUnder(acts, p) == acts
  {
    if acts != [] {
      UnderAll(acts[1..], p);
    }
  }

  /** `at + [n]` lies on a path exactly when the path goes through `at` and then `n`. */
  lemma PrefixStep(at: Path, n: Name, q: Path)
    ensures IsPrefix(at + [n], q) <==> |q| > |at| && q[..|at|] == at && q[|at|] == n
  {
    if |q| > |at| {
      assert q[..|at| + 1] == q[..|at|] + [q[|at|]];
    }
  }

  /** Actions emitted one per listed name, each exactly at `at + [name]`: a
      name has its own single action below it, any other name none. */
  lemma {:induction false} UnderShallow(acts: seq<Action>, names: seq<Name>, at: Path, n: Name)
    requires |acts| == |names| && Distinct(names)
    requires forall i :: 0 <= i < |acts| ==> acts[i].path == at + [names[i]]
    ensures n !in names ==> ActionsUnder(acts, at + [n]) == []
    ensures forall i :: 0 <= i < |names| && names[i] == n ==> ActionsUnder(acts, at + [n]) == [acts[i]]
  {
    if acts != [] {
      PrefixStep(at, n, acts[0].path);
      UnderShallow(acts[1..], names[1..], at, n);
      if names[0] == n {
        assert n !in names[1..];
      }
    }
  }

  /** Actions all inside the subtree at `at + [m]`: the whole list lies
      below `at + [m]` and none of it below a sibling `at + [n]`. */
  lemma SubtreeUnder(acts: seq<Action>, at: Path, m: Name, n: Name, dryRun: bool)
    requires Inside(acts, at + [m], dryRun)
    ensures m == n ==> ActionsUnder(acts, at + [n]) == acts
    ensures m != n ==> ActionsUnder(acts, at + [n]) == []
  {
    NestedPaths(acts, at, m, dryRun);
    forall a | a in acts
      ensures IsPrefix(at + [n], a.path) <==> m == n
    {
      PrefixStep(at, n, a.path);
    }
    if m == n {
      UnderAll(acts, at + [n]);
    } else {
      UnderNone(acts, at + [n]);
    }
  }

  /** After the `common_dirs` pass handles its first name, the rest of the
      list still meets the pass's requirements, and the other entries are
      as they were. */
  lemma NestedRest(src: Node, cur: map<Name, Node>, names: seq<Name>, dryRun: bool, ignore: set<Name>, at: Path)
    requires src.Dir? && names != []
    requires forall m :: m in names ==> m in src.children && src.children[m].Dir? && m in cur && cur[m].Dir?
    requires Distinct(names)
    ensures var m := names[0];
      var next := cur[m := SyncDir(src.children[m], cur[m], dryRun, ignore, at + [m]).tree];
      && (forall k :: k in names[1..] ==> k in src.children && src.children[k].Dir? && k in next && next[k] == cur[k])
      && Distinct(names[1..])
      && m !in names[1..]
  {
    var rest := names[1..];
    forall k | k in rest
      ensures k in names && k != names[0]
    {
      var i :| 0 <= i < |rest| && rest[i] == k;
      assert names[i + 1] == k;
    }
    forall i, j | 0 <= i < j < |rest|
      ensures rest[i] != rest[j]
    {
      assert rest[i] == names[i + 1] && rest[j] == names[j + 1];
    }
  }

  /** The `common_dirs` pass emits nothing below a name it does not list. */
  lemma {:induction false} NestedUnderOther(src: Node, cur: map<Name, Node>, names: seq<Name>, dryRun: bool, ignore: set<Name>, at: Path, n: Name)
    requires src.Dir?
    requires forall m :: m in names ==> m in src.children && src.children[m].Dir? && m in cur && cur[m].Dir?
    requires Distinct(names)
    requires n !in names
    ensures ActionsUnder(RecurseCommon(src, cur, names, dryRun, ignore, at).actions, at + [n]) == []
    decreases |names|
  {
    if names != [] {
      var m := names[0];
      var sub := SyncDir(src.children[m], cur[m], dryRun, ignore, at + [m]);
      var next := cur[m := sub.tree];
      NestedRest(src, cur, names, dryRun, ignore, at);
      var rest := RecurseCommon(src, next, names[1..], dryRun, ignore, at);
      UnderConcat(sub.actions, rest.actions, at + [n]);
      SubtreeUnder(sub.actions, at, m, n, dryRun);
      NestedUnderOther(src, next, names[1..], dryRun, ignore, at, n);
    }
  }

  /** The `common_dirs` pass: below a listed name lie exactly the actions of
      that subdirectory's reconciliation. */
  lemma {:induction false} NestedUnderOwn(src: Node, cur: map<Name, Node>, names: seq<Name>, dryRun: bool, ignore: set<Name>, at: Path, n: Name)
    requires src.Dir?
    requires forall m :: m in names ==> m in src.children && src.children[m].Dir? && m in cur && cur[m].Dir?
    requires Distinct(names)
    requires n in names
    ensures ActionsUnder(RecurseCommon(src, cur, names, dryRun, ignore, at).actions, at + [n]) ==
      SyncDir(src.children[n], cur[n], dryRun, ignore, at + [n]).actions
    decreases |names|
  {
    var m := names[0];
    var sub := SyncDir(src.children[m], cur[m], dryRun, ignore, at + [m]);
    var next := cur[m := sub.tree];
    NestedRest(src, cur, names, dryRun, ignore, at);
    var rest := RecurseCommon(src, next, names[1..], dryRun, ignore, at);
    UnderConcat(sub.actions, rest.actions, at + [n]);
    SubtreeUnder(sub.actions, at, m, n, dryRun);
    if m == n {
      NestedUnderOther(src, next, names[1..], dryRun, ignore, at, n);
    } else {
      assert n in names[1..];
      NestedUnderOwn(src, next, names[1..], dryRun, ignore, at, n);
    }
  }

  /** The `left_only` pass emits one action below a listed name, none below others. */
  lemma CopiesUnder(src: map<Name, Node>, cur: map<Name, Node>, names: seq<Name>, dryRun: bool, at: Path, n: Name)
    requires forall m :: m in names ==> m in src
    requires Distinct(names)
    ensures ActionsUnder(CopyNew(src, cur, names, dryRun, at).actions, at + [n]) ==
      if n in names then [Action(CopyKind(src[n]), at + [n], dryRun)] else []
  {
    UnderShallow(CopyNew(src, cur, names, dryRun, at).actions, names, at, n);
  }

  /** The `common_files` pass emits one action below a listed name whose
      two files differ, none below others. */
  lemma UpdatesUnder(src: map<Name, Node>, cur: map<Name, Node>, names: seq<Name>, dryRun: bool, at: Path, n: Name)
    requires forall m :: m in names ==> m in src && src[m].File? && m in cur && cur[m].File?
    requires Distinct(names)
    ensures ActionsUnder(UpdateChanged(src, cur, names, dryRun, at).actions, at + [n]) ==
      if n in names && src[n] != cur[n] then [Action(Update, at + [n], dryRun)] else []
  {
    var changed := Differing(src, cur, names);
    UnderShallow(UpdateChanged(src, cur, names, dryRun, at).actions, changed, at, n);
  }

  /** The `right_only` pass emits one action below a listed name, none below others. */
  lemma RemovalsUnder(cur: map<Name, Node>, names: seq<Name>, dryRun: bool, at: Path, n: Name)
    requires forall m :: m in names ==> m in cur
    requires Distinct(names)
    ensures ActionsUnder(RemoveStale(cur, names, dryRun, at).actions, at + [n]) ==
      if n in names then [Action(RemoveKind(cur[n]), at + [n], dryRun)] else []
  {
    UnderShallow(RemoveStale(cur, names, dryRun, at).actions, names, at, n);
  }

  /** The `common_dirs` pass, both cases together. */
  lemma NestedUnder(src: Node, cur: map<Name, Node>, names: seq<Name>, dryRun: bool, ignore: set<Name>, at: Path, n: Name)
    requires src.Dir?
    requires forall m :: m in names ==> m in src.children && src.children[m].Dir? && m in cur && cur[m].Dir?
    requires Distinct(names)
    ensures ActionsUnder(RecurseCommon(src, cur, names, dryRun, ignore, at).actions, at + [n]) ==
      if n in names then SyncDir(src.children[n], cur[n], dryRun, ignore, at + [n]).actions else []
  {
    if n in names {
      NestedUnderOwn(src, cur, names, dryRun, ignore, at, n);
    } else {
      NestedUnderOther(src, cur, names, dryRun, ignore, at, n);
    }
  }

  /** Everything one run emits at or below the entry `n` of the directory
      pair, group by group: the copy if only the source lists `n`, the
      update if both list it as files with different contents, the removal
      if only the destination lists it, the subdirectory's own actions if
      both list it as directories; ignored and type-mismatched names get
      nothing. */
  lemma EntryActions(src: Node, dst: Node, dryRun: bool, ignore: set<Name>, at: Path, n: Name)
    requires src.Dir? && dst.Dir?
    ensures var s := src.children;
      var d := dst.children;
      ActionsUnder(SyncDir(src, dst, dryRun, ignore, at).actions, at + [n]) ==
        (if n in s && n !in d && n !in ignore then [Action(CopyKind(s[n]), at + [n], dryRun)] else [])
        + (if n in s && n in d && n !in ignore && s[n].File? && d[n].File? && s[n] != d[n]
           then [Action(Update, at + [n], dryRun)] else [])
        + (if n !in s && n in d && n !in ignore then [Action(RemoveKind(d[n]), at + [n], dryRun)] else [])
        + (if n in s && n in d && n !in ignore && s[n].Dir? && d[n].Dir?
           then SyncDir(s[n], d[n], dryRun, ignore, at + [n]).actions else [])
  {
    var s := src.children;
    var d := dst.children;
    var snap := Classify(s, d, ignore);
    var copied := CopyNew(s, d, snap.leftOnly, dryRun, at);
    PickKeeps(s, d, snap.leftOnly, dryRun, copied.entries);
    var updated := UpdateChanged(s, copied.entries, snap.commonFiles, dryRun, at);
    PickKeeps(s, copied.entries, snap.commonFiles, dryRun, updated.entries);
    var removed := RemoveStale(updated.entries, snap.rightOnly, dryRun, at);
    DropKeeps(updated.entries, snap.rightOnly, dryRun, removed.entries);
    var nested := RecurseCommon(src, removed.entries, snap.commonDirs, dryRun, ignore, at);
    var p := at + [n];
    UnderConcat(copied.actions, updated.actions, p);
    UnderConcat(copied.actions + updated.actions, removed.actions, p);
    UnderConcat(copied.actions + updated.actions + removed.actions, nested.actions, p);
    CopiesUnder(s, d, snap.leftOnly, dryRun, at, n);
    UpdatesUnder(s, copied.entries, snap.commonFiles, dryRun, at, n);
    RemovalsUnder(updated.entries, snap.rightOnly, dryRun, at, n);
    NestedUnder(src, removed.entries, snap.commonDirs, dryRun, ignore, at, n);
  }
}
