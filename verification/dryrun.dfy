/** A dry run changes nothing and reports, line for line, the actions a real
    run from the same trees carries out. */
module DryRun {
  import opened Tree
  import opened Listing
  import opened Reconcile

  /** The same actions, reported instead of carried out. */
  function AsDryRun(acts: seq<Action>): (reported: seq<Action>)
    ensures |reported| == |acts|
    ensures forall i :: 0 <= i < |acts| ==>
      reported[i].kind == acts[i].kind && reported[i].path == acts[i].path && reported[i].dryRun
  {
    if acts == [] then [] else [acts[0].(dryRun := true)] + AsDryRun(acts[1..])
  }

  lemma AsDryRunConcat(a: seq<Action>, b: seq<Action>)
    ensures AsDryRun(a + b) == AsDryRun(a) + AsDryRun(b)
  {
    if a != [] {
      assert (a + b)[1..] == a[1..] + b;
      AsDryRunConcat(a[1..], b);
    }
  }

  /** Two destination states that agree on every listed name. */
  predicate AgreeOn(c1: map<Name, Node>, c2: map<Name, Node>, names: seq<Name>)
  {
    forall n :: n in names ==> n in c1 && n in c2 && c1[n] == c2[n]
  }

  /** The `left_only` pass reports what it would copy. */
  lemma CopyMirrored(src: map<Name, Node>, c1: map<Name, Node>, c2: map<Name, Node>, names: seq<Name>, at: Path)
    requires forall n :: n in names ==> n in src
    ensures CopyNew(src, c1, names, true, at).actions == AsDryRun(CopyNew(src, c2, names, false, at).actions)
  {
  }

  /** The `common_files` pass reports the updates it would make. */
  lemma UpdateMirrored(src: map<Name, Node>, c1: map<Name, Node>, c2: map<Name, Node>, names: seq<Name>, at: Path)
    requires forall n :: n in names ==> n in src && src[n].File? && n in c1 && c1[n].File?
    requires AgreeOn(c1, c2, names) && Distinct(names)
    ensures UpdateChanged(src, c1, names, true, at).actions == AsDryRun(UpdateChanged(src, c2, names, false, at).actions)
  {
    DifferingFrame(src, c1, c2, names);
  }

  /** The `right_only` pass reports what it would delete. */
  lemma RemoveMirrored(c1: map<Name, Node>, c2: map<Name, Node>, names: seq<Name>, at: Path)
    requires AgreeOn(c1, c2, names) && Distinct(names)
    ensures RemoveStale(c1, names, true, at).actions == AsDryRun(RemoveStale(c2, names, false, at).actions)
  {
  }

  /** A dry run over a directory pair leaves the destination as it was and
      reports exactly the actions of the real run, in the same order. */
  lemma {:induction false} Mirrored(src: Node, dst: Node, ignore: set<Name>, at: Path)
    requires src.Dir? && dst.Dir?
    ensures SyncDir(src, dst, true, ignore, at).tree == dst
    ensures SyncDir(src, dst, true, ignore, at).actions == AsDryRun(SyncDir(src, dst, false, ignore, at).actions)
    decreases src, 2
  {
    var s := src.children;
    var d := dst.children;
    var snap := Classify(s, d, ignore);
    var copied := CopyNew(s, d, snap.leftOnly, false, at);
    PickKeeps(s, d, snap.leftOnly, false, copied.entries);
    var updated := UpdateChanged(s, copied.entries, snap.commonFiles, false, at);
    PickKeeps(s, copied.entries, snap.commonFiles, false, updated.entries);
    var removed := RemoveStale(updated.entries, snap.rightOnly, false, at);
    DropKeeps(updated.entries, snap.rightOnly, false, removed.entries);
    var nested := RecurseCommon(src, removed.entries, snap.commonDirs, false, ignore, at);

    CopyMirrored(s, d, d, snap.leftOnly, at);
    UpdateMirrored(s, d, copied.entries, snap.commonFiles, at);
    RemoveMirrored(d, updated.entries, snap.rightOnly, at);
    NestedMirrored(src, d, removed.entries, snap.commonDirs, ignore, at);
    AsDryRunConcat(copied.actions, updated.actions);
    AsDryRunConcat(copied.actions + updated.actions, removed.actions);
    AsDryRunConcat(copied.actions + updated.actions + removed.actions, nested.actions);
  }

  /** The `common_dirs` pass: a dry recursion from `c1` reports what the real
      recursion from `c2` does, when the two agree on the listed names. */
  lemma {:induction false} NestedMirrored(src: Node, c1: map<Name, Node>, c2: map<Name, Node>, names: seq<Name>, ignore: set<Name>, at: Path)
    requires src.Dir?
    requires forall n :: n in names ==> n in src.children && src.children[n].Dir? && n in c1 && c1[n].Dir?
    requires AgreeOn(c1, c2, names) && Distinct(names)
    ensures RecurseCommon(src, c1, names, true, ignore, at).actions ==
      AsDryRun(RecurseCommon(src, c2, names, false, ignore, at).actions)
    decreases src, 1, |names|
  {
    if names != [] {
      var n := names[0];
      var applied := SyncDir(src.children[n], c2[n], false, ignore, at + [n]);
      Mirrored(src.children[n], c1[n], ignore, at + [n]);
      assert c1[n := c1[n]] == c1;
      assert n !in names[1..];
      NestedMirrored(src, c1, c2[n := applied.tree], names[1..], ignore, at);
      AsDryRunConcat(applied.actions, RecurseCommon(src, c2[n := applied.tree], names[1..], false, ignore, at).actions);
    }
  }

  /** At the entry point: a dry run is refused exactly when a real run is,
      and otherwise returns the destination unchanged with the real run's
      actions marked as reported. */
  lemma DryRunIsPure(src: Option<Node>, dst: Option<Node>, ignore: set<Name>)
    ensures var dry := SyncDirectories(src, dst, true, ignore);
      var live := SyncDirectories(src, dst, false, ignore);
      && (dry.Refused? <==> live.Refused?)
      && (dry.Refused? ==> dry.error == live.error)
      && (dry.Synced? ==> dry.outcome.tree == dst.value && dry.outcome.actions == AsDryRun(live.outcome.actions))
  {
    if IsDirectory(src) && IsDirectory(dst) {
      Mirrored(src.value, dst.value, ignore, []);
    }
  }
}
