/** The in-memory file system the reconciler works on: a directory tree whose
    leaves are files holding bytes, and paths relative to a sync root. */
module Tree {

  /** One byte of file contents. */
  type Byte = b: int | 0 <= b < 256

  /** One path component (a directory entry's name). */
  type Name = string

  /** A path below a sync root, one component per level; `[]` is the root itself. */
  type Path = seq<Name>

  /** A directory entry: a regular file with its contents, or a directory
      mapping each child's name to the child. */
  datatype Node = File(bytes: seq<Byte>) | Dir(children: map<Name, Node>)

  /** What a path resolves to: nothing, or the entry found there. */
  datatype Option<+T> = None | Some(value: T)

  /** True iff the path resolved to an existing directory (`Path.is_dir()`). */
  predicate IsDirectory(entry: Option<Node>)
  {
    entry.Some? && entry.value.Dir?
  }

  /** No name occurs twice in `names`. */
  predicate Distinct(names: seq<Name>)
  {
    forall i, j :: 0 <= i < j < |names| ==> names[i] != names[j]
  }

  /** `p` is `q` or an ancestor of `q`. */
  predicate IsPrefix(p: Path, q: Path)
  {
    |p| <= |q| && q[..|p|] == p
  }

  /** Two directories with the same names mapped to the same entries are equal. */
  lemma SameDirectory(a: Node, b: Node)
    requires a.Dir? && b.Dir?
    requires forall n :: n in b.children ==> n in a.children && a.children[n] == b.children[n]
    requires forall n :: n in a.children ==> n in b.children
    ensures a == b
  {
    assert a.children == b.children;
  }
}
