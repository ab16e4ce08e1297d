/** The order of the lines one level prints: the `left_only` copies, then
    the `common_files` updates, then the `right_only` removals, then each
    `common_dirs` subdirectory's lines in turn, every pass in dircmp's
    sorted order of names. */
module Ordering {
  import opened Tree
  import opened Names
  import opened Listing
  import opened Reconcile

  /** Which pass of the level at `at` emitted `a`: 0 for a copy, 1 for an
      update, 2 for a removal of an entry directly below `at`, and 3 for
      anything deeper, which only the `common_dirs` pass emits. */
  function Pass(a: Action, at: Path): nat
  {
    if |a.path| > |at| + 1 then 3
    else match a.kind
      case CopyDir => 0
      case CopyFile => 0
      case Update => 1
      case RemoveDir => 2
      case RemoveFile => 2
  }

  /** `a` may be printed before `b` at level `at`: an earlier pass, or the
      same pass and a name of `at` that sorts no later. */
  predicate Precedes(a: Action, b: Action, at: Path)
  {
    && |a.path| > |at| && |b.path| > |at|
    && (Pass(a, at) < Pass(b, at) ||
        (Pass(a, at) == Pass(b, at) && Below(a.path[|at|], b.path[|at|])))
  }

  /** Every action precedes each one printed after it. */
  predicate LevelOrdered(acts: seq<Action>, at: Path)
  {
    forall i, j :: 0 <= i < j < |acts| ==> Precedes(acts[i], acts[j], at)
  }

  /** Every action lies below `at` and comes from a pass between `lo` and `hi`. */
  predicate Passes(acts: seq<Action>, at: Path, lo: nat, hi: nat)
  {
    forall a :: a in acts ==> |a.path| > |at| && lo <= Pass(a, at) <= hi
  }

  /** Two ordered runs of actions, each of the first preceding each of the
      second, stay ordered one after the other. */
  lemma OrderedAppend(a: seq<Action>, b: seq<Action>, at: Path)
    requires LevelOrdered(a, at) && LevelOrdered(b, at)
    requires forall x, y :: x in a && y in b ==> Precedes(x, y, at)
    ensures LevelOrdered(a + b, at)
  {
    var c := a + b;
    forall i, j | 0 <= i < j < |c|
      ensures Precedes(c[i], c[j], at)
    {
      if j < |a| {
        assert c[i] == a[i] && c[j] == a[j];
      } else if i >= |a| {
        assert c[i] == b[i - |a|] && c[j] == b[j - |a|];
      } else {
        assert c[i] in a && c[j] in b;
      }
    }
  }

  /** Two ordered runs of actions, the first from earlier passes than the
      second, stay ordered one after the other. */
  lemma OrderedConcat(a: seq<Action>, b: seq<Action>, at: Path, lo: nat, mid: nat, hi: nat)
    requires lo <= mid < hi
    requires LevelOrdered(a, at) && LevelOrdered(b, at)
    requires Passes(a, at, lo, mid) && Passes(b, at, mid + 1, hi)
    ensures LevelOrdered(a + b, at)
    ensures Passes(a + b, at, lo, hi)
  {
    OrderedAppend(a, b, at);
  }

  /** The lines of one subdirectory `n` of `at` are ordered among themselves. */
  lemma SubtreeOrdered(acts: seq<Action>, at: Path, n: Name)
    requires forall a :: a in acts ==> |a.path| > |at| + 1 && a.path[|at|] == n
    ensures LevelOrdered(acts, at) && Passes(acts, at, 3, 3)
  {
    BelowTotal(n, n);
    forall i, j | 0 <= i < j < |acts|
      ensures Precedes(acts[i], acts[j], at)
    {
      assert acts[i] in acts && acts[j] in acts;
    }
  }

  /** The first name of an ascending listing sorts no later than the rest. */
  lemma FirstIsLeast(names: seq<Name>)
    requires names != [] && Ascending(names)
    ensures forall m :: m in names[1..] ==> Below(names[0], m)
  {
    forall m | m in names[1..]
      ensures Below(names[0], m)
    {
      var k :| 0 <= k < |names[1..]| && names[1..][k] == m;
      assert names[k + 1] == m;
    }
  }

  /** Dropping the first name keeps a listing ascending and distinct. */
  lemma AscendingTail(names: seq<Name>)
    requires names != [] && Ascending(names)
    ensures Ascending(names[1..]) && Distinct(names[1..]) && names[0] !in names[1..]
  {
    AscendingIsDistinct(names);
    forall i, j | 0 <= i < j < |names[1..]|
      ensures Below(names[1..][i], names[1..][j]) && names[1..][i] != names[1..][j]
    {
      assert names[1..][i] == names[i + 1] && names[1..][j] == names[j + 1];
    }
  }

  /** Actions directly below `at`, one per name of an ascending listing, all
      from pass `p`, are ordered. */
  lemma OneLevelOrdered(acts: seq<Action>, names: seq<Name>, at: Path, p: nat)
    requires Ascending(names) && |acts| == |names|
    requires forall i :: 0 <= i < |acts| ==> acts[i].path == at + [names[i]] && Pass(acts[i], at) == p
    ensures LevelOrdered(acts, at) && Passes(acts, at, p, p)
  {
    forall i, j | 0 <= i < j < |acts|
      ensures Precedes(acts[i], acts[j], at)
    {
      assert acts[i].path[|at|] == names[i] && acts[j].path[|at|] == names[j];
    }
    forall a | a in acts
      ensures |a.path| > |at| && Pass(a, at) == p
    {
      var i :| 0 <= i < |acts| && acts[i] == a;
    }
  }

  /** The `left_only` pass prints its copies in listing order. */
  lemma CopiesOrdered(src: map<Name, Node>, cur: map<Name, Node>, names: seq<Name>, dryRun: bool, at: Path)
    requires forall n :: n in names ==> n in src
    requires Ascending(names)
    ensures var acts := CopyNew(src, cur, names, dryRun, at).actions;
      LevelOrdered(acts, at) && Passes(acts, at, 0, 0)
  {
    var acts := CopyNew(src, cur, names, dryRun, at).actions;
    OneLevelOrdered(acts, names, at, 0);
  }

  /** The `common_files` pass prints its updates in listing order. */
  lemma UpdatesOrdered(src: map<Name, Node>, cur: map<Name, Node>, names: seq<Name>, dryRun: bool, at: Path)
    requires forall n :: n in names ==> n in src && src[n].File? && n in cur && cur[n].File?
    requires Ascending(names) && Distinct(names)
    ensures var acts := UpdateChanged(src, cur, names, dryRun, at).actions;
      LevelOrdered(acts, at) && Passes(acts, at, 1, 1)
  {
    var changed := Differing(src, cur, names);
    DifferingInOrder(src, cur, names);
    OneLevelOrdered(Updates(changed, at, dryRun), changed, at, 1);
  }

  /** The `right_only` pass prints its removals in listing order. */
  lemma RemovalsOrdered(cur: map<Name, Node>, names: seq<Name>, dryRun: bool, at: Path)
    requires forall n :: n in names ==> n in cur
    requires Ascending(names) && Distinct(names)
    ensures var acts := RemoveStale(cur, names, dryRun, at).actions;
      LevelOrdered(acts, at) && Passes(acts, at, 2, 2)
  {
    var acts := RemoveStale(cur, names, dryRun, at).actions;
    OneLevelOrdered(acts, names, at, 2);
  }

  /** The `common_dirs` pass prints each subdirectory's lines together, the
      subdirectories in listing order. */
  lemma {:induction false} NestedOrdered(src: Node, cur: map<Name, Node>, names: seq<Name>, dryRun: bool, ignore: set<Name>, at: Path)
    requires src.Dir?
    requires forall n :: n in names ==> n in src.children && src.children[n].Dir? && n in cur && cur[n].Dir?
    requires Ascending(names) && Distinct(names)
    ensures var acts := RecurseCommon(src, cur, names, dryRun, ignore, at).actions;
      && LevelOrdered(acts, at) && Passes(acts, at, 3, 3)
      && forall a :: a in acts ==> a.path[|at|] in names
    decreases |names|
  {
    if names != [] {
      var n := names[0];
      var sub := SyncDir(src.children[n], cur[n], dryRun, ignore, at + [n]);
      var next := cur[n := sub.tree];
      AscendingTail(names);
      NestedOrdered(src, next, names[1..], dryRun, ignore, at);
      var rest := RecurseCommon(src, next, names[1..], dryRun, ignore, at).actions;
      var acts := sub.actions + rest;
      assert RecurseCommon(src, cur, names, dryRun, ignore, at).actions == acts;
      NestedPaths(sub.actions, at, n, dryRun);
      SubtreeOrdered(sub.actions, at, n);
      FirstIsLeast(names);
      OrderedAppend(sub.actions, rest, at);
      forall a | a in acts
        ensures a.path[|at|] in names
      {
        if a !in sub.actions {
          assert a in rest;
        }
      }
    }
  }

  /** One level prints its copies, then its updates, then its removals, then
      each common subdirectory's lines, every pass in sorted name order.
      With `Entries.EntryActions`, which gives the lines at and below each
      name, this fixes the whole transcript of a run. */
  lemma LevelOrder(src: Node, dst: Node, dryRun: bool, ignore: set<Name>, at: Path)
    requires src.Dir? && dst.Dir?
    ensures LevelOrdered(SyncDir(src, dst, dryRun, ignore, at).actions, at)
  {
    var snap := Classify(src.children, dst.children, ignore);
    var copied := CopyNew(src.children, dst.children, snap.leftOnly, dryRun, at);
    PickKeeps(src.children, dst.children, snap.leftOnly, dryRun, copied.entries);
    var updated := UpdateChanged(src.children, copied.entries, snap.commonFiles, dryRun, at);
    PickKeeps(src.children, copied.entries, snap.commonFiles, dryRun, updated.entries);
    var removed := RemoveStale(updated.entries, snap.rightOnly, dryRun, at);
    DropKeeps(updated.entries, snap.rightOnly, dryRun, removed.entries);
    var nested := RecurseCommon(src, removed.entries, snap.commonDirs, dryRun, ignore, at);
    CopiesOrdered(src.children, dst.children, snap.leftOnly, dryRun, at);
    UpdatesOrdered(src.children, copied.entries, snap.commonFiles, dryRun, at);
    RemovalsOrdered(updated.entries, snap.rightOnly, dryRun, at);
    NestedOrdered(src, removed.entries, snap.commonDirs, dryRun, ignore, at);
    OrderedConcat(copied.actions, updated.actions, at, 0, 0, 1);
    OrderedConcat(copied.actions + updated.actions, removed.actions, at, 0, 1, 2);
    OrderedConcat(copied.actions + updated.actions + removed.actions, nested.actions, at, 0, 2, 3);
  }
}
