/** A real run makes the destination equal to the source, provided no name
    the run would have to skip occurs in a pair of directories it compares:
    no ignored name, and no name that is a file on one side and a directory
    on the other (dircmp files those under `common_funny`, which the
    reconciler never visits). */
module Convergence {
  import opened Tree
  import opened Reconcile

  /** Every pair of directories the reconciler compares, starting with
      `src` and `dst`, lists no ignored name and no type-mismatched name. */
  predicate Compatible(src: Node, dst: Node, ignore: set<Name>)
    decreases src
  {
    && src.Dir? && dst.Dir?
    && (forall n :: n in src.children ==> n !in ignore)
    && (forall n :: n in dst.children ==> n !in ignore)
    && (forall n :: n in src.children && n in dst.children ==>
          && src.children[n].Dir? == dst.children[n].Dir?
          && (src.children[n].Dir? ==> Compatible(src.children[n], dst.children[n], ignore)))
  }

  /** After a real run the destination tree is the source tree. */
  lemma {:induction false} Converges(src: Node, dst: Node, ignore: set<Name>, at: Path)
    requires Compatible(src, dst, ignore)
    ensures SyncDir(src, dst, false, ignore, at).tree == src
    decreases src, 1
  {
    var r := SyncDir(src, dst, false, ignore, at).tree;
    var t := r.children;
    forall n | n in src.children
      ensures n in t && t[n] == src.children[n]
    {
      EntryConverges(src, dst, ignore, at, n);
    }
    forall n | n in t
      ensures n in src.children
    {
      assert n !in ignore;
    }
    SameDirectory(r, src);
  }

  /** One source entry of a compatible pair ends up in the destination unchanged. */
  lemma {:induction false} EntryConverges(src: Node, dst: Node, ignore: set<Name>, at: Path, n: Name)
    requires Compatible(src, dst, ignore)
    requires n in src.children
    ensures var t := SyncDir(src, dst, false, ignore, at).tree.children;
      n in t && t[n] == src.children[n]
    decreases src, 0
  {
    LevelEffect(src, dst, ignore, at, n);
    if n in dst.children && src.children[n].Dir? {
      Converges(src.children[n], dst.children[n], ignore, at + [n]);
    }
  }

  /** The same at the entry point: a real run over two compatible directory
      trees returns the source tree as the new destination. */
  lemma SyncDirectoriesConverges(src: Node, dst: Node, ignore: set<Name>)
    requires Compatible(src, dst, ignore)
    ensures var r := SyncDirectories(Some(src), Some(dst), false, ignore);
      r.Synced? && r.outcome.tree == src
  {
    Converges(src, dst, ignore, []);
  }

  /** Neither half of `Compatible`'s skip condition can be dropped: a name
      that is a file on one side and a directory on the other, or an ignored
      name only the destination has, survives a real run, so the result is
      not the source. */
  lemma SkippedNameBlocksConvergence(src: Node, dst: Node, ignore: set<Name>, at: Path, n: Name)
    requires src.Dir? && dst.Dir?
    requires n in dst.children
    requires (n in ignore && n !in src.children) ||
      (n in src.children && src.children[n].Dir? != dst.children[n].Dir?)
    ensures SyncDir(src, dst, false, ignore, at).tree != src
  {
    LevelEffect(src, dst, ignore, at, n);
    var t := SyncDir(src, dst, false, ignore, at).tree.children;
    assert n in t && t[n] == dst.children[n];
  }
}
