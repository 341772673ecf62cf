// What successive calls of archive_fgets deliver: the shape of a single call, progress,
// sticky end of file, and, for NUL-free content in non-empty blocks, the reference
// reading "split the entry's bytes at '\n'", which does not depend on where blocks split.

module LineReaderProps {
  import opened Bytes
  import opened BlockSource
  import opened LineReader

  /** The line an OK return delivers after a delimiter (lines 61-80): the rest of the block
      up to its first '\n', or its first NUL when it has no '\n'; the delimiter is consumed. */
  lemma LineAtDelimiter(acc: Bytes, st: State, size: nat, n: nat)
    requires WellFormed(st) && n < |Rest(st)| && |acc| + n + 1 <= size
    requires LF in Rest(st) ==> Rest(st)[n] == LF && LF !in Rest(st)[..n]
    requires LF !in Rest(st) ==> Rest(st)[n] == NUL && NUL !in Rest(st)[..n]
    ensures Scan(acc, st, size) ==
      Call(GotLine(acc + Rest(st)[..n]), acc, st.(offset := st.offset + n + 1))
  {
  }

  /** The weight of the blocks still to come: their bytes, and one for each pull. */
  function Cost(bs: seq<Block>): (w: nat)
    ensures bs != [] ==> w > Cost(bs[1..])
  {
    if bs == [] then 0 else |bs[0].data| + 1 + Cost(bs[1..])
  }

  /** What a state has yet to consume. */
  function Weight(st: State): nat
    requires WellFormed(st)
  {
    |st.block| - st.offset + Cost(st.pending)
  }

  /** A call never adds work, and a call that delivers a line consumes something: the
      delimiter, or the empty block that ended the line. */
  lemma {:induction false} AssembleProgress(acc: Bytes, st: State, size: nat)
    requires WellFormed(st)
    ensures var c := Assemble(acc, st, size);
      WellFormed(c.after) && Weight(c.after) <= Weight(st)
      && (c.out.GotLine? ==> Weight(c.after) < Weight(st))
    decreases |st.pending|, |st.block| - st.offset, 1
  {
    if st.offset == |st.block| {
      if st.ret != Eof {
        var (b, rest) := Pull(st.pending);
        if b.status == Ok {
          assert st.pending != [] && rest == st.pending[1..];
          ScanProgress(acc, State(b.data, 0, b.status, rest), size);
        }
      }
    } else {
      ScanProgress(acc, st, size);
    }
  }

  lemma {:induction false} ScanProgress(acc: Bytes, st: State, size: nat)
    requires WellFormed(st)
    ensures var c := Scan(acc, st, size);
      WellFormed(c.after) && Weight(c.after) <= Weight(st)
      && (c.out.GotLine? && Rest(st) != [] ==> Weight(c.after) < Weight(st))
    decreases |st.pending|, |st.block| - st.offset, 0
  {
    var rest := Rest(st);
    var n := Eol(rest);
    if |acc| + n + 1 <= size && n == |rest| && n != 0 {
      AssembleProgress(acc + rest, st.(offset := |st.block|), size);
    }
  }

  /** Everything successive calls deliver: the lines, in order, and the outcome of the first
      call that did not deliver one. */
  datatype Run = Run(lines: seq<Bytes>, stop: Outcome)

  function Lines(st: State, size: nat): (r: Run)
    requires WellFormed(st)
    ensures !r.stop.GotLine?
    ensures forall i :: 0 <= i < |r.lines| ==> |r.lines[i]| + 1 <= size
    decreases Weight(st)
  {
    var c := NextLine(st, size);
    if c.out.GotLine? then
      AssembleProgress([], st, size);
      var r := Lines(c.after, size);
      Run([c.out.line] + r.lines, r.stop)
    else Run([], c.out)
  }

  /** The lines read_metadata consumes: it stops at the first empty line (line 155). */
  function Feed(st: State, size: nat): (ls: seq<Bytes>)
    requires WellFormed(st)
    ensures forall i :: 0 <= i < |ls| ==> ls[i] != [] && |ls[i]| + 1 <= size
    decreases Weight(st)
  {
    var c := NextLine(st, size);
    if c.out.GotLine? && c.out.line != [] then
      AssembleProgress([], st, size);
      [c.out.line] + Feed(c.after, size)
    else []
  }

  /** The state read_metadata leaves: after the call that ended its loop. */
  function FeedEnd(st: State, size: nat): (r: State)
    requires WellFormed(st)
    ensures WellFormed(r)
    decreases Weight(st)
  {
    var c := NextLine(st, size);
    AssembleProgress([], st, size);
    if c.out.GotLine? && c.out.line != [] then FeedEnd(c.after, size) else c.after
  }

  /** The lines up to, not including, the first empty one. */
  function TakeNonEmpty(ls: seq<Bytes>): (r: seq<Bytes>)
    ensures r <= ls
    ensures forall i :: 0 <= i < |r| ==> r[i] != []
    ensures |r| < |ls| ==> ls[|r|] == []
  {
    if ls == [] || ls[0] == [] then [] else [ls[0]] + TakeNonEmpty(ls[1..])
  }

  /** Lines that are all non-empty are kept whole. */
  lemma {:induction false} TakeAllNonEmpty(ls: seq<Bytes>)
    requires forall i :: 0 <= i < |ls| ==> ls[i] != []
    ensures TakeNonEmpty(ls) == ls
  {
    if ls != [] {
      forall i | 0 <= i < |ls[1..]| ensures ls[1..][i] != [] {
        assert ls[1..][i] == ls[i + 1];
      }
      TakeAllNonEmpty(ls[1..]);
      assert [ls[0]] + ls[1..] == ls;
    }
  }

  /** read_metadata sees the calls' lines up to the first empty one. */
  lemma {:induction false} FeedIsNonEmptyPrefix(st: State, size: nat)
    requires WellFormed(st)
    ensures Feed(st, size) == TakeNonEmpty(Lines(st, size).lines)
    decreases Weight(st)
  {
    var c := NextLine(st, size);
    if c.out.GotLine? {
      AssembleProgress([], st, size);
      FeedIsNonEmptyPrefix(c.after, size);
    }
  }

  /** Sticky end of file (lines 39-44): once a call has reported ARCHIVE_EOF, every later
      call reports it again, returns an empty line prefix and pulls nothing. */
  lemma EofSticky(st: State, size: nat)
    requires WellFormed(st) && EofIsEmpty(st.pending)
    requires NextLine(st, size).out == SourceStop(Eof)
    ensures var after := NextLine(st, size).after;
      AtEnd(after) && NextLine(after, size) == Call(SourceStop(Eof), [], after)
  {
    AssembleShape([], st, size);
  }

  /** The state `k` calls later. */
  function After(st: State, size: nat, k: nat): (r: State)
    requires WellFormed(st)
    ensures WellFormed(r)
    decreases k
  {
    if k == 0 then st else After(NextLine(st, size).after, size, k - 1)
  }

  /** At the end, every number of further calls leaves the state as it is. */
  lemma {:induction false} AtEndForever(st: State, size: nat, k: nat)
    requires WellFormed(st) && AtEnd(st)
    ensures After(st, size, k) == st
    ensures NextLine(After(st, size, k), size).out == SourceStop(Eof)
  {
    if k > 0 {
      AtEndForever(st, size, k - 1);
    }
  }

  /** A pull that does not answer ARCHIVE_OK ends the call with that status, whatever was
      carried (lines 47-55): the partial line is dropped. */
  lemma NonOkPullStops(acc: Bytes, st: State, size: nat)
    requires WellFormed(st) && st.offset == |st.block| && st.ret != Eof
    requires st.pending != [] && st.pending[0].status != Ok
    ensures Assemble(acc, st, size) ==
      Call(SourceStop(st.pending[0].status), acc, State(st.pending[0].data, 0, st.pending[0].status, st.pending[1..]))
  {
  }

  /** An OK block with no bytes ends the line with what was carried (lines 88-92). */
  lemma EmptyOkBlockEndsLine(acc: Bytes, st: State, size: nat)
    requires WellFormed(st) && st.offset == |st.block| && st.ret != Eof
    requires st.pending != [] && st.pending[0] == Block(Ok, [])
    requires |acc| + 1 <= size
    ensures Assemble(acc, st, size) == Call(GotLine(acc), acc, State([], 0, Ok, st.pending[1..]))
  {
  }

  /** Concatenation of block contents. */
  function Flatten(bs: seq<Block>): (s: Bytes)
    ensures bs != [] ==> s == bs[0].data + Flatten(bs[1..])
  {
    if bs == [] then [] else bs[0].data + Flatten(bs[1..])
  }

  /** The entry's bytes not yet consumed. */
  function Stream(st: State): Bytes
    requires WellFormed(st)
  {
    Rest(st) + Flatten(st.pending)
  }

  /** Content without NULs, delivered in non-empty OK blocks, with the last pull OK. */
  predicate Plain(st: State)
  {
    && WellFormed(st) && st.ret == Ok && NUL !in Rest(st)
    && forall i :: 0 <= i < |st.pending| ==>
         st.pending[i].status == Ok && st.pending[i].data != [] && NUL !in st.pending[i].data
  }

  /** The reference reading of a byte stream: the first line is everything up to the first
      '\n' and must fit in `size` bytes with its terminator; a stream with no '\n' gives no
      line, and reports the end of the entry unless it is already too long. */
  function FirstLine(s: Bytes, size: nat): (o: Outcome)
    ensures o.GotLine? ==> |o.line| < |s| && s[|o.line|] == LF && LF !in o.line && o.line == s[..|o.line|]
    ensures o.SourceStop? ==> o.status == Eof && LF !in s
  {
    var i := Find(s, LF);
    if i < |s| then
      if i + 1 > size then TooLong else GotLine(s[..i])
    else if s == [] || |s| + 1 <= size then SourceStop(Eof)
    else TooLong
  }

  /** The reference reading of a stream into successive lines. */
  function Split(s: Bytes, size: nat): (r: Run)
    ensures !r.stop.GotLine?
    decreases |s|
  {
    var o := FirstLine(s, size);
    if o.GotLine? then
      var r := Split(s[|o.line| + 1..], size);
      Run([o.line] + r.lines, r.stop)
    else Run([], o)
  }

  /** Call `c` read the first reference line of stream `s` and, when it got one, left plain
      content holding what follows it. */
  predicate ReadsFirstLine(s: Bytes, size: nat, c: Call)
  {
    && c.out == FirstLine(s, size)
    && (c.out.GotLine? ==> Plain(c.after) && Stream(c.after) == s[|c.out.line| + 1..])
  }

  /** One call on plain content reads the first line of what was carried followed by the
      stream, and leaves plain content holding what follows that line. */
  lemma {:induction false} AssembleReference(acc: Bytes, st: State, size: nat)
    requires Plain(st) && LF !in acc && NUL !in acc && (acc == [] || |acc| + 1 <= size)
    ensures ReadsFirstLine(acc + Stream(st), size, Assemble(acc, st, size))
    decreases |st.pending|, |st.block| - st.offset, 2
  {
    if st.offset == |st.block| {
      if st.pending == [] {
        assert Rest(st) == [];
        assert acc + Stream(st) == acc;
      } else {
        PullReference(acc, st, size);
      }
    } else {
      ScanReference(acc, st, size);
    }
  }

  /** The case of a call that starts by pulling a block. */
  lemma {:induction false} PullReference(acc: Bytes, st: State, size: nat)
    requires Plain(st) && st.offset == |st.block| && st.pending != []
    requires LF !in acc && NUL !in acc && (acc == [] || |acc| + 1 <= size)
    ensures ReadsFirstLine(acc + Stream(st), size, Assemble(acc, st, size))
    decreases |st.pending|, |st.block| - st.offset, 1
  {
    var pulled := PullPlain(st);
    assert Assemble(acc, st, size) == Scan(acc, pulled, size);
    ScanReference(acc, pulled, size);
    assert acc + Stream(pulled) == acc + Stream(st);
  }

  /** Pulling the next block of plain content gives plain content with the same stream and
      a non-empty rest. */
  lemma PullPlain(st: State) returns (pulled: State)
    requires Plain(st) && st.offset == |st.block| && st.pending != []
    ensures pulled == State(st.pending[0].data, 0, Ok, st.pending[1..])
    ensures Plain(pulled) && Rest(pulled) != [] && Stream(pulled) == Stream(st)
  {
    var b := st.pending[0];
    var rest := st.pending[1..];
    pulled := State(b.data, 0, b.status, rest);
    assert Rest(st) == [];
    assert Rest(pulled) == b.data;
    forall i | 0 <= i < |rest|
      ensures rest[i].status == Ok && rest[i].data != [] && NUL !in rest[i].data
    {
      assert rest[i] == st.pending[i + 1];
    }
  }

  lemma {:induction false} ScanReference(acc: Bytes, st: State, size: nat)
    requires Plain(st) && Rest(st) != []
    requires LF !in acc && NUL !in acc && (acc == [] || |acc| + 1 <= size)
    ensures ReadsFirstLine(acc + Stream(st), size, Scan(acc, st, size))
    decreases |st.pending|, |st.block| - st.offset, 0
  {
    var rest := Rest(st);
    if LF in rest {
      ScanReferenceLine(acc, st, size);
    } else {
      assert Eol(rest) == |rest|;
      if |acc| + |rest| + 1 <= size {
        var st' := st.(offset := |st.block|);
        assert LF !in acc + rest && NUL !in acc + rest;
        assert (acc + rest) + Stream(st') == acc + Stream(st);
        AssembleReference(acc + rest, st', size);
      } else {
        ScanReferenceTooLong(acc, st, size);
      }
    }
  }

  /** The reference case where the rest of the block holds a '\n'. */
  lemma ScanReferenceLine(acc: Bytes, st: State, size: nat)
    requires Plain(st) && LF in Rest(st) && LF !in acc
    ensures ReadsFirstLine(acc + Stream(st), size, Scan(acc, st, size))
  {
    var rest := Rest(st);
    var tail := Flatten(st.pending);
    var n := Eol(rest);
    assert n == Find(rest, LF);
    FirstLf(acc, rest, tail);
    var s := acc + (rest + tail);
    assert s == acc + Stream(st);
    if |acc| + n + 1 <= size {
      ScanReferenceGot(acc, st, size, n);
    }
  }

  /** ... and where the line it ends fits. */
  lemma ScanReferenceGot(acc: Bytes, st: State, size: nat, n: nat)
    requires Plain(st) && n < |Rest(st)| && |acc| + n + 1 <= size
    requires var s := acc + Stream(st); Find(s, LF) == |acc| + n && s[..|acc| + n] == acc + Rest(st)[..n]
    requires Eol(Rest(st)) == n
    ensures var c := Scan(acc, st, size); var s := acc + Stream(st);
      && c.out == GotLine(acc + Rest(st)[..n]) == FirstLine(s, size)
      && Plain(c.after) && Stream(c.after) == s[|c.out.line| + 1..]
  {
    var s := acc + Stream(st);
    assert Scan(acc, st, size) == Call(GotLine(acc + Rest(st)[..n]), acc, st.(offset := st.offset + n + 1));
    assert FirstLine(s, size) == GotLine(s[..|acc| + n]);
    PastDelimiter(st, n);
    DropPrefix(acc, Stream(st), n + 1);
  }

  lemma DropPrefix(a: Bytes, t: Bytes, k: nat)
    requires k <= |t|
    ensures (a + t)[|a| + k..] == t[k..]
  {
  }

  /** Where the first '\n' of the carried bytes and the stream lies, when the rest of the
      block holds one. */
  lemma FirstLf(acc: Bytes, rest: Bytes, tail: Bytes)
    requires LF in rest && LF !in acc
    ensures var s := acc + (rest + tail); var n := Find(rest, LF);
      Find(s, LF) == |acc| + n && s[..|acc| + n] == acc + rest[..n]
  {
    FindConcat(acc, rest + tail, LF);
    FindConcat(rest, tail, LF);
  }

  /** Stepping over a delimiter `n` bytes into the rest keeps the content plain. */
  lemma PastDelimiter(st: State, n: nat)
    requires Plain(st) && n < |Rest(st)|
    ensures var st' := st.(offset := st.offset + n + 1);
      Plain(st') && Stream(st') == Stream(st)[n + 1..]
  {
    var st' := st.(offset := st.offset + n + 1);
    assert Rest(st') == Rest(st)[n + 1..];
    forall k | 0 <= k < |Rest(st')| ensures Rest(st')[k] != NUL {
      assert Rest(st')[k] == Rest(st)[n + 1 + k];
    }
  }

  /** The reference case where the rest of the block has no '\n' and does not fit. */
  lemma ScanReferenceTooLong(acc: Bytes, st: State, size: nat)
    requires Plain(st) && Rest(st) != [] && LF !in Rest(st) && LF !in acc
    requires |acc| + |Rest(st)| + 1 > size
    ensures Scan(acc, st, size).out == TooLong == FirstLine(acc + Stream(st), size)
  {
    var rest := Rest(st);
    var tail := Flatten(st.pending);
    var s := acc + Stream(st);
    assert Eol(rest) == |rest|;
    assert s == acc + (rest + tail);
    FindConcat(acc, rest + tail, LF);
    FindConcat(rest, tail, LF);
    assert Find(s, LF) == |acc| + |rest| + Find(tail, LF);
  }

  /** On plain content the calls deliver exactly the reference lines of the stream. */
  lemma {:induction false} LinesReference(st: State, size: nat)
    requires Plain(st)
    ensures Lines(st, size) == Split(Stream(st), size)
    decreases Weight(st)
  {
    var c := NextLine(st, size);
    NextLineReference(st, size);
    if c.out.GotLine? {
      AssembleProgress([], st, size);
      LinesReference(c.after, size);
    }
  }

  /** One call from plain content reads the first reference line of its stream. */
  lemma NextLineReference(st: State, size: nat)
    requires Plain(st)
    ensures var c := NextLine(st, size);
      && c.out == FirstLine(Stream(st), size)
      && (c.out.GotLine? ==> Plain(c.after) && Stream(c.after) == Stream(st)[|c.out.line| + 1..])
  {
    AssembleReference([], st, size);
    assert [] + Stream(st) == Stream(st);
  }

  /** Block-split invariance: the same NUL-free content, cut into non-empty OK blocks in two
      different ways, is read as the same lines with the same final outcome. */
  lemma BlockSplitInvariance(bs1: seq<Block>, bs2: seq<Block>, size: nat)
    requires Plain(Initial(bs1)) && Plain(Initial(bs2)) && Flatten(bs1) == Flatten(bs2)
    ensures Lines(Initial(bs1), size) == Lines(Initial(bs2), size)
  {
    LinesReference(Initial(bs1), size);
    LinesReference(Initial(bs2), size);
    assert Stream(Initial(bs1)) == Stream(Initial(bs2));
  }

  /** The lines written back, each followed by '\n'. */
  function Join(ls: seq<Bytes>): Bytes
  {
    if ls == [] then [] else ls[0] + [LF] + Join(ls[1..])
  }

  /** Reading lines that fit, written back one per '\n', gives them back in order and then
      the end of the entry. */
  lemma {:induction false} SplitJoin(ls: seq<Bytes>, size: nat)
    requires forall i :: 0 <= i < |ls| ==> LF !in ls[i] && |ls[i]| + 1 <= size
    ensures Split(Join(ls), size) == Run(ls, SourceStop(Eof))
  {
    if ls != [] {
      JoinFirstLine(ls[0], ls[1..], size);
      assert Join(ls) == ls[0] + [LF] + Join(ls[1..]);
      SplitJoin(ls[1..], size);
      assert [ls[0]] + ls[1..] == ls;
    }
  }

  /** The first reference line of a written line followed by more is that line. */
  lemma JoinFirstLine(l: Bytes, more: seq<Bytes>, size: nat)
    requires LF !in l && |l| + 1 <= size
    ensures var s := l + [LF] + Join(more);
      FirstLine(s, size) == GotLine(l) && s[|l| + 1..] == Join(more)
  {
    var s := l + [LF] + Join(more);
    assert s == l + ([LF] + Join(more));
    FindConcat(l, [LF] + Join(more), LF);
    assert s[..|l|] == l;
  }

  /** What the reference reading consumes: the lines it delivers, each with its '\n', form
      a prefix of the stream; after an end-of-entry stop no '\n' is left, so an unterminated
      final fragment is dropped. */
  lemma {:induction false} SplitConsumes(s: Bytes, size: nat)
    ensures var r := Split(s, size);
      && Join(r.lines) <= s
      && (r.stop == SourceStop(Eof) ==> LF !in s[|Join(r.lines)|..])
    decreases |s|
  {
    var o := FirstLine(s, size);
    if o.GotLine? {
      var t := s[|o.line| + 1..];
      SplitConsumes(t, size);
      var r := Split(t, size);
      JoinCons(o.line, r.lines);
      PrefixAfterLine(s, o.line, Join(r.lines));
    }
  }

  lemma JoinCons(l: Bytes, ls: seq<Bytes>)
    ensures Join([l] + ls) == l + [LF] + Join(ls)
  {
    assert ([l] + ls)[1..] == ls;
  }

  /** A prefix of what follows a line and its '\n' extends to a prefix of the whole. */
  lemma PrefixAfterLine(s: Bytes, l: Bytes, j: Bytes)
    requires |l| < |s| && s[|l|] == LF && l == s[..|l|] && j <= s[|l| + 1..]
    ensures l + [LF] + j <= s
    ensures s[|l + [LF] + j|..] == s[|l| + 1..][|j|..]
  {
    assert s == l + [LF] + s[|l| + 1..];
  }

  /** A final fragment with no '\n' and no NUL is lost (lines 47-55): at the entry's own
      size, a one-block entry holding a line and such a fragment gives that line and then
      ARCHIVE_EOF. */
  lemma UnterminatedTailLost(l: Bytes, tail: Bytes)
    requires LF !in l && NUL !in l && tail != [] && LF !in tail && NUL !in tail
    ensures var data := l + [LF] + tail;
      Lines(Initial([Block(Ok, data)]), |data|) == Run([l], SourceStop(Eof))
  {
    var data := l + [LF] + tail;
    var st := Initial([Block(Ok, data)]);
    assert Plain(st);
    LinesReference(st, |data|);
    assert Stream(st) == data;
    SplitTail(l, tail, |data|);
  }

  /** The reference reading of a fitting line, its '\n' and a fitting fragment without '\n'. */
  lemma SplitTail(l: Bytes, tail: Bytes, size: nat)
    requires LF !in l && LF !in tail && tail != [] && |l| + 1 <= size && |tail| + 1 <= size
    ensures Split(l + [LF] + tail, size) == Run([l], SourceStop(Eof))
  {
    var data := l + [LF] + tail;
    FindConcat(l, [LF] + tail, LF);
    assert Find([LF] + tail, LF) == 0;
    assert l + ([LF] + tail) == data;
    assert FirstLine(data, size) == GotLine(l);
    assert data[|l| + 1..] == tail;
    assert FirstLine(tail, size) == SourceStop(Eof);
  }

  /** At the entry's own size, an entry that is one fragment with no '\n' and no NUL does
      not fit with a terminator and gives -ERANGE (lines 62-71). */
  lemma UnterminatedOnlyLineTooLong(data: Bytes)
    requires data != [] && LF !in data && NUL !in data
    ensures Lines(Initial([Block(Ok, data)]), |data|) == Run([], TooLong)
  {
    var st := Initial([Block(Ok, data)]);
    assert Plain(st);
    LinesReference(st, |data|);
    assert Stream(st) == data;
  }

  /** With NULs in the content, block boundaries matter (the NUL fallback of lines 62-64
      applies per block): "a\0b\n" in one block is the line "a\0b", split after the NUL it
      is the line "a". */
  lemma NulMakesBlocksMatter()
    ensures NextLine(Initial([Block(Ok, [97, 0, 98, 10])]), 8).out == GotLine([97, 0, 98])
    ensures NextLine(Initial([Block(Ok, [97, 0]), Block(Ok, [98, 10])]), 8).out == GotLine([97])
  {
    assert Find([97, 0, 98, 10], LF) == 3;
    assert Find([97, 0], LF) == 2;
    assert Find([97, 0], NUL) == 1;
  }

  /** End to end: an entry whose bytes are non-empty lines that fit, each followed by '\n',
      delivered in NUL-free non-empty OK blocks cut anywhere, feeds read_metadata exactly
      those lines, in order. */
  lemma FeedOfWrittenLines(bs: seq<Block>, ls: seq<Bytes>, size: nat)
    requires Plain(Initial(bs)) && Flatten(bs) == Join(ls)
    requires forall i :: 0 <= i < |ls| ==> ls[i] != [] && LF !in ls[i] && |ls[i]| + 1 <= size
    ensures Feed(Initial(bs), size) == ls
  {
    var st := Initial(bs);
    FeedIsNonEmptyPrefix(st, size);
    LinesReference(st, size);
    assert Stream(st) == Join(ls);
    SplitJoin(ls, size);
    TakeAllNonEmpty(ls);
  }
}
