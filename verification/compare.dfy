/** `_files_are_equal`: sizes first, then the two files read side by side in
    fixed-size chunks until a pair of chunks differs or both are exhausted. */
module Compare {
  import opened Tree

  /** Bytes requested by each `read` call. */
  const ChunkSize: nat := 8192

  /** What `read(ChunkSize)` on a regular file returns once `pos` bytes of it
      have been consumed: the next ChunkSize bytes, or all that remain. */
  function Read(contents: seq<Byte>, pos: nat): (chunk: seq<Byte>)
    requires pos <= |contents|
    ensures pos + |chunk| <= |contents| && chunk == contents[pos..pos + |chunk|]
    ensures |chunk| <= ChunkSize
    ensures |chunk| == ChunkSize || pos + |chunk| == |contents|
  {
    if |contents| - pos <= ChunkSize then contents[pos..] else contents[pos..pos + ChunkSize]
  }

  /** The chunk loop from offset `pos` on, where everything before `pos` has
      already compared equal. */
  function ChunksMatch(a: seq<Byte>, b: seq<Byte>, pos: nat): (same: bool)
    requires pos <= |a| && pos <= |b|
    requires a[..pos] == b[..pos]
    ensures same <==> a == b
    decreases |a| - pos
  {
    var c1 := Read(a, pos);
    var c2 := Read(b, pos);
    if c1 != c2 then
      false
    else if c1 == [] then
      assert a == a[..pos] && b == b[..pos];
      true
    else
      assert a[..pos + |c1|] == a[..pos] + c1 && b[..pos + |c1|] == b[..pos] + c2;
      ChunksMatch(a, b, pos + |c1|)
  }

  /** The equality decision the reconciler takes for a pair of common files. */
  function SameContents(a: seq<Byte>, b: seq<Byte>): (same: bool)
    ensures same <==> a == b
  {
    if |a| != |b| then false else ChunksMatch(a, b, 0)
  }

  /** The same decision as the imperative loop `_files_are_equal` runs. */
  method FilesAreEqual(a: seq<Byte>, b: seq<Byte>) returns (same: bool)
    ensures same <==> a == b
  {
    if |a| != |b| {
      return false;
    }
    var pos := 0;
    while true
      invariant pos <= |a| && pos <= |b|
      invariant a[..pos] == b[..pos]
      decreases |a| - pos
    {
      var c1 := Read(a, pos);
      var c2 := Read(b, pos);
      if c1 != c2 {
        return false;
      }
      if c1 == [] {
        break;
      }
      assert a[..pos + |c1|] == a[..pos] + c1 && b[..pos + |c1|] == b[..pos] + c2;
      pos := pos + |c1|;
    }
    assert a == a[..pos] && b == b[..pos];
    return true;
  }
}
