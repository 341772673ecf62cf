// read_metadata: the driver loop that reads .PKGINFO line by line into the record.

module PkgInfo {
  import opened Bytes
  import opened BlockSource
  import opened LineReader
  import opened LineReaderProps
  import opened Metadata

  /** The line buffer starts with the line just read, followed by its NUL. */
  lemma BufferHoldsLine(dst: array<byte>, l: Bytes, original: Bytes)
    requires Holds(dst, l + [NUL], original)
    ensures |l| < dst.Length && dst[..|l|] == l && dst[|l|] == NUL
  {
    assert forall k :: 0 <= k < |l| ==> dst[..|l|][k] == (l + [NUL])[k];
    assert dst[|l|] == (l + [NUL])[|l|];
  }

  /** The loop goes on exactly when the call delivered a non-empty line, and then consumes
      that line and moves on (line 155). */
  lemma FeedStep(prev: State, size: nat)
    requires WellFormed(prev)
    ensures var c := NextLine(prev, size);
      if ReturnCode(c.out) == Ok.Code() && c.out.GotLine? && |c.out.line| > 0 then
        && Feed(prev, size) == [c.out.line] + Feed(c.after, size)
        && FeedEnd(prev, size) == FeedEnd(c.after, size)
        && Weight(c.after) < Weight(prev)
      else Feed(prev, size) == [] && FeedEnd(prev, size) == c.after
  {
    AssembleShape([], prev, size);
    AssembleProgress([], prev, size);
  }

  /** ARCHIVE_OK is returned with a line only. */
  lemma OkMeansLine(prev: State, size: nat)
    requires WellFormed(prev)
    ensures ReturnCode(NextLine(prev, size).out) == Ok.Code() ==> NextLine(prev, size).out.GotLine?
  {
    AssembleShape([], prev, size);
  }

  /** Applying a line and then the ones after it. */
  lemma ApplyStep(q: PkgMeta, l: Bytes, rest: seq<Bytes>)
    ensures ApplyAll(q, [l] + rest) ==
      match ApplyLine(q, l) case None => None case Some(r) => ApplyAll(r, rest)
  {
    assert ([l] + rest)[1..] == rest;
  }

  /** read_metadata (lines 147-160): reads lines into `pkg` until a call does not return
      ARCHIVE_OK or returns an empty line. The record is the lines read applied in order
      (None where C would read a value past a line's terminator); no error reaches the caller, and the archive
      has delivered exactly the blocks the last call pulled. */
  method ReadMetadata(a: Archive, entrySize: nat, pkg: PkgMeta) returns (result: Option<PkgMeta>)
    modifies a
    ensures result == ApplyAll(pkg, Feed(Initial(old(a.pending)), entrySize))
    ensures a.pending == FeedEnd(Initial(old(a.pending)), entrySize).pending
  {
    var buf := new ReadBuffer(entrySize);
    ghost var start := buf.View(a);
    ghost var target := ApplyAll(pkg, Feed(start, entrySize));
    ghost var prev := start;
    ghost var snap := buf.line[..];
    result := Some(pkg);
    var rc := buf.Fgets(a, entrySize);
    while rc == Ok.Code() && buf.realLineSize > 0
      invariant fresh(buf) && fresh(buf.line)
      invariant buf.Valid() && buf.line.Length == entrySize
      invariant WellFormed(prev) && FeedEnd(prev, entrySize) == FeedEnd(start, entrySize)
      invariant var c := NextLine(prev, entrySize);
        && buf.View(a) == c.after && rc == ReturnCode(c.out)
        && (c.out.GotLine? ==> buf.realLineSize == |c.out.line| && Holds(buf.line, c.out.line + [NUL], snap))
      invariant match result
        case None => target == None
        case Some(q) => ApplyAll(q, Feed(prev, entrySize)) == target
      decreases Weight(prev)
    {
      ghost var c := NextLine(prev, entrySize);
      OkMeansLine(prev, entrySize);
      FeedStep(prev, entrySize);
      BufferHoldsLine(buf.line, c.out.line, snap);
      if result.Some? {
        ApplyStep(result.value, c.out.line, Feed(c.after, entrySize));
        result := ApplyLine(result.value, buf.line[..buf.realLineSize]);
      }
      prev := buf.View(a);
      snap := buf.line[..];
      rc := buf.Fgets(a, entrySize);
    }
    OkMeansLine(prev, entrySize);
    FeedStep(prev, entrySize);
  }

  /** What ReadMetadata computes for an entry written as non-empty lines that fit, each
      followed by '\n', in NUL-free non-empty OK blocks: the record with exactly those lines
      applied in order. */
  lemma ReadsWrittenLines(bs: seq<Block>, ls: seq<Bytes>, size: nat, pkg: PkgMeta)
    requires Plain(Initial(bs)) && Flatten(bs) == Join(ls)
    requires forall i :: 0 <= i < |ls| ==> ls[i] != [] && LF !in ls[i] && |ls[i]| + 1 <= size
    ensures ApplyAll(pkg, Feed(Initial(bs), size)) == ApplyAll(pkg, ls)
  {
    FeedOfWrittenLines(bs, ls, size);
  }
}
