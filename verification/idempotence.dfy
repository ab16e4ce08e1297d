/** A second real run straight after a first one emits nothing. This holds
    for every pair of trees: names the reconciler skips (ignored or
    type-mismatched) are skipped again and produce no action either time. */
module Idempotence {
  import opened Tree
  import opened Names
  import opened Listing
  import opened Reconcile

  /** Nothing left to do between `src` and `dst`: both list the same visible
      names, common files hold the same bytes, and common directories are in
      the same state recursively. Type-mismatched names are not compared. */
  predicate InSync(src: Node, dst: Node, ignore: set<Name>)
    decreases src
  {
    && src.Dir? && dst.Dir?
    && (forall n :: n in src.children && n !in ignore ==> n in dst.children)
    && (forall n :: n in dst.children && n !in ignore ==> n in src.children)
    && (forall n :: n in src.children && n in dst.children && n !in ignore ==>
          && (src.children[n].File? && dst.children[n].File? ==> src.children[n] == dst.children[n])
          && (src.children[n].Dir? && dst.children[n].Dir? ==> InSync(src.children[n], dst.children[n], ignore)))
  }

  /** Every directory is in sync with itself. */
  lemma {:induction false} InSyncReflexive(t: Node, ignore: set<Name>)
    requires t.Dir?
    ensures InSync(t, t, ignore)
    decreases t
  {
    forall n | n in t.children && t.children[n].Dir?
      ensures InSync(t.children[n], t.children[n], ignore)
    {
      InSyncReflexive(t.children[n], ignore);
    }
  }

  /** A real run leaves the destination in sync with the source. */
  lemma {:induction false} SyncReachesInSync(src: Node, dst: Node, ignore: set<Name>, at: Path)
    requires src.Dir? && dst.Dir?
    ensures InSync(src, SyncDir(src, dst, false, ignore, at).tree, ignore)
    decreases src, 1
  {
    var t := SyncDir(src, dst, false, ignore, at).tree;
    forall n | n in src.children && n in t.children && n !in ignore
      ensures src.children[n].File? && t.children[n].File? ==> src.children[n] == t.children[n]
      ensures src.children[n].Dir? && t.children[n].Dir? ==> InSync(src.children[n], t.children[n], ignore)
    {
      EntryInSync(src, dst, ignore, at, n);
    }
  }

  /** One visible source entry after a real run: equal to the source entry,
      the reconciled subdirectory, or (type mismatch) the untouched old entry. */
  lemma {:induction false} EntryInSync(src: Node, dst: Node, ignore: set<Name>, at: Path, n: Name)
    requires src.Dir? && dst.Dir?
    requires n in src.children && n !in ignore
    ensures var t := SyncDir(src, dst, false, ignore, at).tree.children;
      && n in t
      && (src.children[n].File? && t[n].File? ==> src.children[n] == t[n])
      && (src.children[n].Dir? && t[n].Dir? ==> InSync(src.children[n], t[n], ignore))
    decreases src, 0
  {
    LevelEffect(src, dst, ignore, at, n);
    var s := src.children;
    if n in dst.children && s[n].Dir? && dst.children[n].Dir? {
      SyncReachesInSync(s[n], dst.children[n], ignore, at + [n]);
    } else if s[n].Dir? {
      InSyncReflexive(s[n], ignore);
    }
  }

  /** A list whose membership is empty is the empty list. */
  lemma NoneListed(names: seq<Name>)
    ensures (forall n :: n !in names) ==> names == []
  {
    if names != [] {
      assert names[0] in names;
    }
  }

  /** Writing entries the destination already holds changes nothing. */
  lemma PickUnchanged(src: map<Name, Node>, cur: map<Name, Node>, names: seq<Name>)
    requires forall n :: n in names ==> n in src && n in cur && src[n] == cur[n]
    ensures cur + Pick(src, names) == cur
  {
  }

  /** A pair in sync is left alone: the run emits nothing and returns the
      destination as it was, in either mode. */
  lemma {:induction false} Settled(src: Node, dst: Node, dryRun: bool, ignore: set<Name>, at: Path)
    requires InSync(src, dst, ignore)
    ensures SyncDir(src, dst, dryRun, ignore, at) == Outcome(dst, [])
    decreases src, 2
  {
    var s := src.children;
    var d := dst.children;
    var snap := Classify(s, d, ignore);
    NoneListed(snap.leftOnly);
    NoneListed(snap.rightOnly);
    NoneListed(Differing(s, d, snap.commonFiles));
    var copied := CopyNew(s, d, snap.leftOnly, dryRun, at);
    assert copied.entries == d;
    var updated := UpdateChanged(s, copied.entries, snap.commonFiles, dryRun, at);
    PickUnchanged(s, d, snap.commonFiles);
    var removed := RemoveStale(updated.entries, snap.rightOnly, dryRun, at);
    assert removed.entries == d;
    NestedSettled(src, d, snap.commonDirs, dryRun, ignore, at);
    SameDirectory(SyncDir(src, dst, dryRun, ignore, at).tree, dst);
  }

  /** The `common_dirs` pass over subdirectory pairs that are all in sync. */
  lemma {:induction false} NestedSettled(src: Node, cur: map<Name, Node>, names: seq<Name>, dryRun: bool, ignore: set<Name>, at: Path)
    requires src.Dir?
    requires forall n :: n in names ==>
      n in src.children && src.children[n].Dir? && n in cur && cur[n].Dir? && InSync(src.children[n], cur[n], ignore)
    requires Distinct(names)
    ensures RecurseCommon(src, cur, names, dryRun, ignore, at) == Level(cur, [])
    decreases src, 1, |names|
  {
    if names != [] {
      var n := names[0];
      Settled(src.children[n], cur[n], dryRun, ignore, at + [n]);
      assert cur[n := cur[n]] == cur;
      NestedSettled(src, cur, names[1..], dryRun, ignore, at);
    }
  }

  /** Running again straight after a real run emits no action and changes nothing. */
  lemma Idempotent(src: Node, dst: Node, dryRun: bool, ignore: set<Name>, at: Path)
    requires src.Dir? && dst.Dir?
    ensures var first := SyncDir(src, dst, false, ignore, at).tree;
      SyncDir(src, first, dryRun, ignore, at) == Outcome(first, [])
  {
    SyncReachesInSync(src, dst, ignore, at);
    Settled(src, SyncDir(src, dst, false, ignore, at).tree, dryRun, ignore, at);
  }

  /** The same at the entry point. */
  lemma SyncDirectoriesIdempotent(src: Option<Node>, dst: Option<Node>, ignore: set<Name>)
    requires SyncDirectories(src, dst, false, ignore).Synced?
    ensures var first := SyncDirectories(src, dst, false, ignore).outcome.tree;
      SyncDirectories(src, Some(first), false, ignore) == Synced(Outcome(first, []))
  {
    Idempotent(src.value, dst.value, false, ignore, []);
  }
}
