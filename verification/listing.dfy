/** The per-level snapshot `filecmp.dircmp` takes of two directories: both
    listings minus the ignored names, sorted, and split by presence and type. */
module Listing {
  import opened Tree
  import opened Names

  /** The lists dircmp computes. `commonFunny` holds the names present on both
      sides as a file on one and a directory on the other. */
  datatype Snapshot = Snapshot(
    leftOnly: seq<Name>,
    rightOnly: seq<Name>,
    commonFiles: seq<Name>,
    commonDirs: seq<Name>,
    commonFunny: seq<Name>)

  /** The visible names of `left` that `right` lacks, sorted. */
  function OnlyIn(left: map<Name, Node>, right: map<Name, Node>, ignore: set<Name>): (names: seq<Name>)
    ensures forall n :: n in names <==> n in left && n !in right && n !in ignore
    ensures Ascending(names) && Distinct(names)
  {
    var names := Sorted(left.Keys - ignore - right.Keys);
    AscendingIsDistinct(names);
    names
  }

  /** The visible names on both sides, sorted, whose two entries are
      directories (`dirs`) or files (`!dirs`). */
  function SameKind(left: map<Name, Node>, right: map<Name, Node>, ignore: set<Name>, dirs: bool): (names: seq<Name>)
    ensures forall n :: n in names <==>
      n in left && n in right && n !in ignore && left[n].Dir? == dirs && right[n].Dir? == dirs
    ensures Ascending(names) && Distinct(names)
  {
    var names := Sorted(set n | n in left.Keys - ignore && n in right && left[n].Dir? == dirs && right[n].Dir? == dirs);
    AscendingIsDistinct(names);
    names
  }

  /** The visible names on both sides whose entries differ in type, sorted. */
  function Mismatched(left: map<Name, Node>, right: map<Name, Node>, ignore: set<Name>): (names: seq<Name>)
    ensures forall n :: n in names <==>
      n in left && n in right && n !in ignore && left[n].Dir? != right[n].Dir?
    ensures Ascending(names) && Distinct(names)
  {
    var names := Sorted(set n | n in left.Keys - ignore && n in right && left[n].Dir? != right[n].Dir?);
    AscendingIsDistinct(names);
    names
  }

  /** The snapshot of a source directory's entries `left` against a
      destination directory's entries `right`. */
  function Classify(left: map<Name, Node>, right: map<Name, Node>, ignore: set<Name>): (s: Snapshot)
    ensures forall n :: n in s.leftOnly <==> n in left && n !in right && n !in ignore
    ensures forall n :: n in s.rightOnly <==> n in right && n !in left && n !in ignore
    ensures forall n :: n in s.commonFiles <==>
      n in left && n in right && n !in ignore && left[n].File? && right[n].File?
    ensures forall n :: n in s.commonDirs <==>
      n in left && n in right && n !in ignore && left[n].Dir? && right[n].Dir?
    ensures forall n :: n in s.commonFunny <==>
      n in left && n in right && n !in ignore && left[n].Dir? != right[n].Dir?
    ensures Ascending(s.leftOnly) && Ascending(s.rightOnly)
    ensures Ascending(s.commonFiles) && Ascending(s.commonDirs) && Ascending(s.commonFunny)
    ensures Distinct(s.leftOnly) && Distinct(s.rightOnly) && Distinct(s.commonFiles) && Distinct(s.commonDirs)
  {
    Snapshot(
      OnlyIn(left, right, ignore),
      OnlyIn(right, left, ignore),
      SameKind(left, right, ignore, false),
      SameKind(left, right, ignore, true),
      Mismatched(left, right, ignore))
  }
}
