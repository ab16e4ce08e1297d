/** The text the reconciler prints: one line per action, worded by kind and
    mode, with both entries shown as the resolved root joined with the
    entry's path; and the message of each refusal. */
module Report {
  import opened Tree
  import opened Reconcile
  import opened DryRun

  /** `root / n1 / n2 / ...` as a POSIX `pathlib` path prints it: components are
      joined by one "/", and none is added after a parent that already ends
      in one (the file-system root "/"). */
  function Render(root: string, p: Path): (shown: string)
    ensures |shown| >= |root|
    ensures shown[..|root|] == root
    ensures p != [] ==> EndsWith(shown, "/" + p[|p| - 1])
    decreases |p|
  {
    if p == [] then root
    else
      var parent := Render(root, p[..|p| - 1]);
      var name := p[|p| - 1];
      if |parent| > 0 && parent[|parent| - 1] == '/' then
        var shown := parent + name;
        assert shown[|shown| - |name| - 1..] == "/" + name;
        shown
      else
        var shown := parent + "/" + name;
        assert shown[|shown| - |name| - 1..] == "/" + name;
        shown
  }

  /** No two "/" in a row, as in every path POSIX `pathlib` prints. */
  predicate SingleSlashes(s: string)
  {
    forall i :: 0 <= i < |s| - 1 ==> !(s[i] == '/' && s[i + 1] == '/')
  }

  /** A directory entry's name: not empty and free of "/". */
  predicate Component(n: Name)
  {
    n != [] && '/' !in n
  }

  /** Joining real entry names onto a well-formed root, "/" included, never
      doubles a separator. */
  lemma {:induction false} RenderSingleSlashes(root: string, p: Path)
    requires SingleSlashes(root)
    requires forall i :: 0 <= i < |p| ==> Component(p[i])
    ensures SingleSlashes(Render(root, p))
    decreases |p|
  {
    if p != [] {
      var parent := Render(root, p[..|p| - 1]);
      var name := p[|p| - 1];
      RenderSingleSlashes(root, p[..|p| - 1]);
      assert name[0] in name;
      var shown := Render(root, p);
      forall i | 0 <= i < |shown| - 1
        ensures !(shown[i] == '/' && shown[i + 1] == '/')
      {
        if i + 1 < |parent| {
          assert shown[i] == parent[i] && shown[i + 1] == parent[i + 1];
        } else if shown != parent + "/" + name {
          assert shown == parent + name;
          if i + 1 > |parent| {
            assert shown[i + 1] == name[i + 1 - |parent|];
            assert shown[i + 1] in name;
          } else {
            assert shown[i + 1] == name[0];
          }
        } else if i + 1 == |parent| {
          assert shown[i] == parent[|parent| - 1];
        } else if i == |parent| {
          assert shown[i + 1] == name[0];
        } else {
          assert shown[i + 1] == name[i - |parent|];
          assert shown[i + 1] in name;
        }
      }
    }
  }

  /** `s` finishes with `suffix`. */
  predicate EndsWith(s: string, suffix: string)
  {
    |suffix| <= |s| && s[|s| - |suffix|..] == suffix
  }

  /** The fixed opening of each message, up to the first quote. */
  function Opening(kind: Kind, dryRun: bool): string
  {
    match kind
    case CopyDir => if dryRun then "Would copy directory '" else "Copied directory '"
    case CopyFile => if dryRun then "Would copy file '" else "Copied file '"
    case Update => if dryRun then "Would update '" else "Updated '"
    case RemoveDir => if dryRun then "Would remove directory '" else "Removed directory '"
    case RemoveFile => if dryRun then "Would remove file '" else "Removed file '"
  }

  /** The line printed for `a` when the roots resolved to `srcRoot` and
      `dstRoot`: copies name the source then the destination, updates the
      destination then the source, removals only the destination. */
  function Describe(a: Action, srcRoot: string, dstRoot: string): (line: string)
    ensures |Opening(a.kind, a.dryRun)| <= |line|
    ensures line[..|Opening(a.kind, a.dryRun)|] == Opening(a.kind, a.dryRun)
    ensures a.dryRun <==> |line| >= 6 && line[..6] == "Would "
  {
    var from := Render(srcRoot, a.path);
    var to := Render(dstRoot, a.path);
    var rest :=
      match a.kind
      case CopyDir => from + "' to '" + to + "'"
      case CopyFile => from + "' to '" + to + "'"
      case Update => to + "' from '" + from + "'"
      case RemoveDir => to + "'"
      case RemoveFile => to + "'";
    var line := Opening(a.kind, a.dryRun) + rest;
    assert line[0] == Opening(a.kind, a.dryRun)[0];
    line
  }

  /** Reads the kind and mode back off a printed line, if it is one. */
  function Recognize(line: string): (found: Option<(Kind, bool)>)
    ensures found.Some? ==> Starts(line, Opening(found.value.0, found.value.1))
  {
    if Starts(line, Opening(CopyDir, true)) then Some((CopyDir, true))
    else if Starts(line, Opening(CopyFile, true)) then Some((CopyFile, true))
    else if Starts(line, Opening(Update, true)) then Some((Update, true))
    else if Starts(line, Opening(RemoveDir, true)) then Some((RemoveDir, true))
    else if Starts(line, Opening(RemoveFile, true)) then Some((RemoveFile, true))
    else if Starts(line, Opening(CopyDir, false)) then Some((CopyDir, false))
    else if Starts(line, Opening(CopyFile, false)) then Some((CopyFile, false))
    else if Starts(line, Opening(Update, false)) then Some((Update, false))
    else if Starts(line, Opening(RemoveDir, false)) then Some((RemoveDir, false))
    else if Starts(line, Opening(RemoveFile, false)) then Some((RemoveFile, false))
    else None
  }

  predicate Starts(line: string, prefix: string)
  {
    |prefix| <= |line| && line[..|prefix|] == prefix
  }

  /** No two openings begin alike: whichever is checked first, only the
      one a line was written with matches it. */
  lemma OpeningsDiffer(k1: Kind, d1: bool, k2: Kind, d2: bool, line: string)
    requires Starts(line, Opening(k1, d1))
    requires Starts(line, Opening(k2, d2))
    ensures k1 == k2 && d1 == d2
  {
    SameMode(k1, d1, k2, d2, line);
    SameKindOpening(k1, k2, d1, line);
  }

  /** Only the dry-run openings begin with 'W'. */
  lemma SameMode(k1: Kind, d1: bool, k2: Kind, d2: bool, line: string)
    requires Starts(line, Opening(k1, d1))
    requires Starts(line, Opening(k2, d2))
    ensures d1 == d2
  {
    assert Opening(k1, d1)[0] == line[0] == Opening(k2, d2)[0];
  }

  /** Within one mode, a few positions tell the five openings apart. */
  lemma SameKindOpening(k1: Kind, k2: Kind, dryRun: bool, line: string)
    requires Starts(line, Opening(k1, dryRun))
    requires Starts(line, Opening(k2, dryRun))
    ensures k1 == k2
  {
    var o1 := Opening(k1, dryRun);
    var o2 := Opening(k2, dryRun);
    assert o1[6] == line[6] == o2[6];
    assert o1[7] == line[7] == o2[7];
    assert o1[8] == line[8] == o2[8];
    if dryRun {
      assert o1[11] == line[11] == o2[11];
      assert o1[13] == line[13] == o2[13];
    }
  }

  /** Every printed line tells which action it reports and in which mode. */
  lemma DescribeRecognized(a: Action, srcRoot: string, dstRoot: string)
    ensures Recognize(Describe(a, srcRoot, dstRoot)) == Some((a.kind, a.dryRun))
  {
    var line := Describe(a, srcRoot, dstRoot);
    var found := Recognize(line);
    assert Starts(line, Opening(a.kind, a.dryRun));
    assert found.Some?;
    OpeningsDiffer(found.value.0, found.value.1, a.kind, a.dryRun, line);
  }

  /** The lines of a whole run, in order. */
  function Transcript(acts: seq<Action>, srcRoot: string, dstRoot: string): (lines: seq<string>)
    ensures |lines| == |acts|
    ensures forall i :: 0 <= i < |acts| ==> lines[i] == Describe(acts[i], srcRoot, dstRoot)
  {
    if acts == [] then [] else [Describe(acts[0], srcRoot, dstRoot)] + Transcript(acts[1..], srcRoot, dstRoot)
  }

  /** A dry run prints, line for line, what the real run would do, each
      line opening with "Would " in place of the past tense. */
  lemma DryRunTranscript(src: Option<Node>, dst: Option<Node>, ignore: set<Name>, srcRoot: string, dstRoot: string)
    requires SyncDirectories(src, dst, false, ignore).Synced?
    ensures var live := SyncDirectories(src, dst, false, ignore).outcome.actions;
      var dry := SyncDirectories(src, dst, true, ignore).outcome.actions;
      var said := Transcript(dry, srcRoot, dstRoot);
      var done := Transcript(live, srcRoot, dstRoot);
      && |said| == |done|
      && forall i :: 0 <= i < |said| ==>
           && Recognize(said[i]) == Some((live[i].kind, true))
           && Recognize(done[i]) == Some((live[i].kind, false))
  {
    DryRunIsPure(src, dst, ignore);
    var live := SyncDirectories(src, dst, false, ignore).outcome.actions;
    var dry := SyncDirectories(src, dst, true, ignore).outcome.actions;
    forall i | 0 <= i < |dry|
      ensures Recognize(Describe(dry[i], srcRoot, dstRoot)) == Some((live[i].kind, true))
      ensures Recognize(Describe(live[i], srcRoot, dstRoot)) == Some((live[i].kind, false))
    {
      DescribeRecognized(dry[i], srcRoot, dstRoot);
      DescribeRecognized(live[i], srcRoot, dstRoot);
    }
  }

  /** The message of a refusal, naming the path as the caller gave it. */
  function Refusal(error: SyncError, src: string, dst: string): (message: string)
    ensures |message| >= 12
    ensures error.SourceNotADirectory? <==> message[..12] == "Source path "
    ensures EndsWith(message, " is not a directory.")
    ensures error.SourceNotADirectory? ==> |message| >= 12 + |src| && message[12..12 + |src|] == src
    ensures error.DestinationNotADirectory? ==> |message| >= 17 + |dst| && message[17..17 + |dst|] == dst
  {
    match error
    case SourceNotADirectory => "Source path " + src + " is not a directory."
    case DestinationNotADirectory =>
      var message := "Destination path " + dst + " is not a directory.";
      assert message[0] == 'D';
      message
  }

  /** Reads the rejected side and the path back off a refusal message. */
  function RefusedPath(message: string): (found: Option<(SyncError, string)>)
    ensures found.Some? ==> EndsWith(message, " is not a directory.")
  {
    if !EndsWith(message, " is not a directory.") then None
    else if Starts(message, "Source path ") && |message| >= 32 then
      Some((SourceNotADirectory, message[12..|message| - 20]))
    else if Starts(message, "Destination path ") && |message| >= 37 then
      Some((DestinationNotADirectory, message[17..|message| - 20]))
    else None
  }

  /** A refusal message tells which side was rejected and names the path
      exactly as the caller gave it. */
  lemma RefusalReadBack(error: SyncError, src: string, dst: string)
    ensures var path := if error.SourceNotADirectory? then src else dst;
      RefusedPath(Refusal(error, src, dst)) == Some((error, path))
  {
    var message := Refusal(error, src, dst);
    if error.SourceNotADirectory? {
      assert Starts(message, "Source path ");
      assert message[12..|message| - 20] == src;
    } else {
      assert !Starts(message, "Source path ") by { assert message[0] == 'D'; }
      assert Starts(message, "Destination path ");
      assert message[17..|message| - 20] == dst;
    }
  }
}
