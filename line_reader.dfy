// archive_fgets: the line assembler that turns the blocks of an archive entry into
// NUL-terminated lines in a buffer of `entry_size` bytes.

module LineReader {
  import opened Bytes
  import opened BlockSource

  /** errno's ERANGE; archive_fgets returns its negation for a line that does not fit. */
  const ERANGE: int := 34

  /** What the assembler knows between calls: the current block, how far it has been
      consumed, the status of the last pull, and the blocks the source has yet to deliver. */
  datatype State = State(block: Bytes, offset: nat, ret: Status, pending: seq<Block>)

  /** The state of a freshly zeroed buffer: no block, ARCHIVE_OK as the last status. */
  function Initial(pending: seq<Block>): State
  {
    State([], 0, Ok, pending)
  }

  /** block_offset lies within [block, block + block_size]. */
  predicate WellFormed(st: State)
  {
    st.offset <= |st.block|
  }

  /** The bytes of the current block not consumed yet. */
  function Rest(st: State): Bytes
    requires WellFormed(st)
  {
    st.block[st.offset..]
  }

  /** What one call delivers: a line (return value ARCHIVE_OK), the status of a failed or
      final pull, or -ERANGE. */
  datatype Outcome = GotLine(line: Bytes) | SourceStop(status: Status) | TooLong

  /** The value archive_fgets returns: ARCHIVE_OK with a line, -ERANGE for a line too long,
      and otherwise the status of the pull, which cannot be confused with either. */
  function ReturnCode(o: Outcome): (r: int)
    ensures o.GotLine? ==> r == Ok.Code()
    ensures r == -ERANGE <==> o == TooLong
    ensures o.SourceStop? && o.status != Ok ==> r != Ok.Code()
  {
    match o
    case GotLine(_) => Ok.Code()
    case SourceStop(s) => s.Code()
    case TooLong => -ERANGE
  }

  /** The result of one call: the outcome, the bytes the call had copied into the line
      buffer from earlier blocks when it returned, and the state it leaves. */
  datatype Call = Call(out: Outcome, carried: Bytes, after: State)

  /** The length of the line in `rest`: up to the first '\n', or when there is none up to
      the first NUL, or the whole of `rest` when it holds neither (lines 61-68). */
  function Eol(rest: Bytes): (n: nat)
    ensures n <= |rest|
    ensures LF in rest ==> n < |rest| && rest[n] == LF && LF !in rest[..n]
    ensures LF !in rest ==> NUL !in rest[..n] && (n < |rest| ==> rest[n] == NUL)
    ensures LF !in rest && NUL !in rest ==> n == |rest|
  {
    var eol := Find(rest, LF);
    if eol < |rest| then eol else Find(rest, NUL)
  }

  /** One call of archive_fgets from state `st` with line limit `size`: a line it delivers
      fits in the buffer with its terminator, a stop reports a status other than
      ARCHIVE_OK, which stays saved for the next call, and -ERANGE comes with a block
      whose line does not fit after the bytes carried. */
  function NextLine(st: State, size: nat): (c: Call)
    requires WellFormed(st)
    ensures WellFormed(c.after)
    ensures c.out.GotLine? ==> |c.out.line| + 1 <= size
    ensures c.out.SourceStop? ==> c.out.status != Ok && c.after.ret == c.out.status
    ensures c.out == TooLong ==> |c.carried| + Eol(Rest(c.after)) + 1 > size
  {
    AssembleShape([], st, size);
    Assemble([], st, size)
  }

  /** The top of the loop of archive_fgets (lines 38-58), with `acc` already copied into
      the line buffer in this call: pull a new block when the current one is used up. */
  function Assemble(acc: Bytes, st: State, size: nat): (c: Call)
    requires WellFormed(st)
    ensures WellFormed(c.after)
    decreases |st.pending|, |st.block| - st.offset, 1
  {
    if st.offset == |st.block| then
      if st.ret == Eof then Call(SourceStop(Eof), acc, st)
      else
        var (b, rest) := Pull(st.pending);
        var pulled := State(b.data, 0, b.status, rest);
        if b.status != Ok then Call(SourceStop(b.status), acc, pulled)
        else Scan(acc, pulled, size)
    else Scan(acc, st, size)
  }

  /** The rest of one iteration (lines 60-93): look for the end of the line in the rest of
      the block, check the limit, and either finish the line or copy the block and go on. */
  function Scan(acc: Bytes, st: State, size: nat): (c: Call)
    requires WellFormed(st)
    ensures WellFormed(c.after)
    decreases |st.pending|, |st.block| - st.offset, 0
  {
    var rest := Rest(st);
    var n := Eol(rest);
    if |acc| + n + 1 > size then Call(TooLong, acc, st)
    else if n < |rest| then Call(GotLine(acc + rest[..n]), acc, st.(offset := st.offset + n + 1))
    else if n == 0 then Call(GotLine(acc), acc, st)
    else Assemble(acc + rest, st.(offset := |st.block|), size)
  }

  /** The source reports the end of the entry with an empty block, as libarchive does. */
  predicate EofIsEmpty(bs: seq<Block>)
  {
    forall i :: 0 <= i < |bs| && bs[i].status == Eof ==> bs[i].data == []
  }

  /** A state whose last pull reported end of file and whose block is used up. */
  predicate AtEnd(st: State)
  {
    st.ret == Eof && st.offset == |st.block|
  }

  /** The shape of one call (lines 39-93): a line fits in the buffer with its terminator and
      extends what was carried from earlier blocks; a source stop reports the non-OK status
      it saved, with the block used up; -ERANGE is returned only where the bytes carried,
      those up to the end of the line in the current block and the terminator exceed the
      limit; the carried bytes only grow. */
  lemma {:induction false} AssembleShape(acc: Bytes, st: State, size: nat)
    requires WellFormed(st)
    ensures var c := Assemble(acc, st, size);
      && acc <= c.carried
      && (c.out.GotLine? ==> |c.out.line| + 1 <= size && c.carried <= c.out.line)
      && (c.out.SourceStop? ==> c.out.status != Ok && c.after.ret == c.out.status)
      && (c.out == TooLong ==> |c.carried| + Eol(Rest(c.after)) + 1 > size)
      && (c.out == SourceStop(Eof) && EofIsEmpty(st.pending) ==> AtEnd(c.after))
    decreases |st.pending|, |st.block| - st.offset, 1
  {
    if st.offset == |st.block| {
      if st.ret != Eof {
        var (b, rest) := Pull(st.pending);
        if b.status == Ok {
          ScanShape(acc, State(b.data, 0, b.status, rest), size);
        }
      }
    } else {
      ScanShape(acc, st, size);
    }
  }

  lemma {:induction false} ScanShape(acc: Bytes, st: State, size: nat)
    requires WellFormed(st)
    ensures var c := Scan(acc, st, size);
      && acc <= c.carried
      && (c.out.GotLine? ==> |c.out.line| + 1 <= size && c.carried <= c.out.line)
      && (c.out.SourceStop? ==> c.out.status != Ok && c.after.ret == c.out.status)
      && (c.out == TooLong ==> |c.carried| + Eol(Rest(c.after)) + 1 > size)
      && (c.out == SourceStop(Eof) && EofIsEmpty(st.pending) ==> AtEnd(c.after))
    decreases |st.pending|, |st.block| - st.offset, 0
  {
    var rest := Rest(st);
    var n := Eol(rest);
    if |acc| + n + 1 <= size && n == |rest| && n != 0 {
      AssembleShape(acc + rest, st.(offset := |st.block|), size);
    }
  }

  /** The line buffer holds `head` at its start and, after it, what `original` held. */
  ghost predicate Holds(dst: array<byte>, head: Bytes, original: Bytes)
    reads dst
  {
    && |head| <= dst.Length == |original|
    && (forall k :: 0 <= k < |head| ==> dst[k] == head[k])
    && (forall k :: |head| <= k < dst.Length ==> dst[k] == original[k])
  }

  /** memcpy / mempcpy of `src` into the line buffer just after `head`. */
  method CopyInto(dst: array<byte>, at: nat, src: Bytes, ghost head: Bytes, ghost original: Bytes)
    requires at == |head| && at + |src| <= dst.Length
    requires Holds(dst, head, original)
    modifies dst
    ensures Holds(dst, head + src, original)
  {
    var i := 0;
    while i < |src|
      invariant 0 <= i <= |src|
      invariant Holds(dst, head + src[..i], original)
    {
      dst[at + i] := src[i];
      assert src[..i + 1] == src[..i] + [src[i]];
      i := i + 1;
    }
    assert src[..i] == src;
  }

  /** Writes the NUL that ends the line `head` in the line buffer. */
  method Terminate(dst: array<byte>, at: nat, ghost head: Bytes, ghost original: Bytes)
    requires at == |head| && at < dst.Length
    requires Holds(dst, head, original)
    modifies dst
    ensures Holds(dst, head + [NUL], original)
  {
    dst[at] := NUL;
  }

  /** struct archive_read_buffer. `block` is the borrowed view of the block libarchive
      returned last; its length is block_size. */
  class ReadBuffer {
    const line: array<byte>
    var lineOffset: nat
    var realLineSize: nat
    var block: Bytes
    var blockOffset: nat
    var ret: Status

    ghost predicate Valid()
      reads this
    {
      blockOffset <= |block| && lineOffset <= line.Length
    }

    /** The assembler state, together with what the archive has yet to deliver. */
    ghost function View(a: Archive): State
      reads this, a
    {
      State(block, blockOffset, ret, a.pending)
    }

    /** The zero-initialised buffer of read_metadata, with a line buffer of
        `entrySize` bytes. */
    constructor (entrySize: nat)
      ensures Valid() && fresh(line) && line.Length == entrySize
      ensures lineOffset == 0 && realLineSize == 0
      ensures block == [] && blockOffset == 0 && ret == Ok
    {
      line := new byte[entrySize];
      lineOffset, realLineSize := 0, 0;
      block, blockOffset, ret := [], 0, Ok;
    }

    /** archive_fgets: reads the next line of the entry into `line`. */
    method Fgets(a: Archive, entrySize: nat) returns (rc: int)
      requires Valid() && entrySize <= line.Length
      modifies this, line, a
      ensures Valid()
      ensures var c := NextLine(old(View(a)), entrySize); View(a) == c.after
      ensures var c := NextLine(old(View(a)), entrySize); rc == ReturnCode(c.out)
      ensures var c := NextLine(old(View(a)), entrySize); lineOffset == |c.carried|
      ensures var c := NextLine(old(View(a)), entrySize);
        c.out.GotLine? ==>
          realLineSize == |c.out.line|
          && Holds(line, c.out.line + [NUL], old(line[..]))
      ensures var c := NextLine(old(View(a)), entrySize);
        !c.out.GotLine? ==>
          realLineSize == old(realLineSize)
          && Holds(line, c.carried, old(line[..]))
    {
      ghost var target := NextLine(View(a), entrySize);
      ghost var original := line[..];
      ghost var carried: Bytes := [];
      lineOffset := 0;
      while true
        invariant Valid()
        invariant lineOffset == |carried|
        invariant carried == [] || |carried| + 1 <= entrySize
        invariant Assemble(carried, View(a), entrySize) == target
        invariant realLineSize == old(realLineSize)
        invariant Holds(line, carried, original)
        decreases |a.pending|, |block| - blockOffset
      {
        if blockOffset == |block| {
          if ret == Eof {
            rc := ret.Code();
            return;
          }
          var status, data := a.ReadDataBlock();
          block, blockOffset, ret := data, 0, status;
          if ret != Ok {
            rc := ret.Code();
            return;
          }
        }
        assert Scan(carried, View(a), entrySize) == target;
        var finished;
        finished, rc, carried := ScanBlock(a, entrySize, View(a), carried, original);
        if finished {
          return;
        }
      }
    }

    /** One pass over the rest of the current block (lines 60-93), `carried` being the
        bytes of the line copied so far: either the call ends, with the outcome of `Scan` and
        its return value `rc`, or the whole block joins the line and the loop goes on. */
    method ScanBlock(a: Archive, entrySize: nat, ghost st: State, ghost carried: Bytes, ghost original: Bytes)
      returns (finished: bool, rc: int, ghost carried': Bytes)
      requires Valid() && entrySize <= line.Length && st == View(a)
      requires lineOffset == |carried| && Holds(line, carried, original)
      requires carried == [] || |carried| + 1 <= entrySize
      modifies this`lineOffset, this`blockOffset, this`realLineSize, line
      ensures Valid() && block == st.block && ret == st.ret
      ensures var c := Scan(carried, st, entrySize);
        finished ==> View(a) == c.after && rc == ReturnCode(c.out) && lineOffset == |c.carried|
      ensures var c := Scan(carried, st, entrySize);
        finished ==> if c.out.GotLine? then realLineSize == |c.out.line| && Holds(line, c.out.line + [NUL], original)
          else realLineSize == old(realLineSize) && Holds(line, c.carried, original)
      ensures !finished ==> Scan(carried, st, entrySize) == Assemble(carried', View(a), entrySize)
      ensures !finished ==> blockOffset == |block| && |block| - st.offset > 0
      ensures !finished ==> realLineSize == old(realLineSize)
      ensures !finished ==> lineOffset == |carried'| && |carried'| + 1 <= entrySize
      ensures !finished ==> Holds(line, carried', original)
    {
      carried' := carried;
      var rest := block[blockOffset..];
      var eol := Eol(rest);
      if lineOffset + eol + 1 > entrySize {
        return true, -ERANGE, carried';
      }
      if eol < |rest| {
        EndLine(eol, carried, original);
        return true, Ok.Code(), carried';
      }
      finished, rc, carried' := ScanRest(a, entrySize, st, carried, original);
    }

    /** The path of `ScanBlock` for lines 82-93: no delimiter in the rest of the block, and room for it. */
    method ScanRest(a: Archive, entrySize: nat, ghost st: State, ghost carried: Bytes, ghost original: Bytes)
      returns (finished: bool, rc: int, ghost carried': Bytes)
      requires Valid() && entrySize <= line.Length && st == View(a)
      requires lineOffset == |carried| && Holds(line, carried, original)
      requires carried == [] || |carried| + 1 <= entrySize
      requires Eol(Rest(st)) == |Rest(st)| && lineOffset + |Rest(st)| + 1 <= entrySize
      modifies this`lineOffset, this`blockOffset, this`realLineSize, line
      ensures Valid() && block == st.block && ret == st.ret
      ensures var c := Scan(carried, st, entrySize);
        finished ==> View(a) == c.after && rc == ReturnCode(c.out) && lineOffset == |c.carried|
      ensures var c := Scan(carried, st, entrySize);
        finished ==> if c.out.GotLine? then realLineSize == |c.out.line| && Holds(line, c.out.line + [NUL], original)
          else realLineSize == old(realLineSize) && Holds(line, c.carried, original)
      ensures !finished ==> Scan(carried, st, entrySize) == Assemble(carried', View(a), entrySize)
      ensures !finished ==> blockOffset == |block| && |block| - st.offset > 0
      ensures !finished ==> realLineSize == old(realLineSize)
      ensures !finished ==> lineOffset == |carried'| && |carried'| + 1 <= entrySize
      ensures !finished ==> Holds(line, carried', original)
    {
      finished, carried' := TakeRest(carried, original);
      rc := Ok.Code();
    }

    /** No delimiter in the rest of the block and room for it (lines 82-93): copy the rest
        after `carried`; an empty rest ends the line there. */
    method TakeRest(ghost carried: Bytes, ghost original: Bytes) returns (finished: bool, ghost carried': Bytes)
      requires Valid() && lineOffset == |carried| && Holds(line, carried, original)
      requires lineOffset + |block| - blockOffset < line.Length
      modifies this`lineOffset, this`blockOffset, this`realLineSize, line
      ensures Valid() && blockOffset == |block|
      ensures carried' == carried + old(block[blockOffset..]) && lineOffset == |carried'|
      ensures finished <==> old(blockOffset) == |block|
      ensures finished ==> realLineSize == lineOffset && Holds(line, carried' + [NUL], original)
      ensures !finished ==> realLineSize == old(realLineSize) && Holds(line, carried', original)
    {
      var rest := block[blockOffset..];
      var len := |block| - blockOffset;
      CopyInto(line, lineOffset, rest, carried, original);
      lineOffset := lineOffset + len;
      blockOffset := |block|;
      carried' := carried + rest;
      finished := len == 0;
      if finished {
        Terminate(line, lineOffset, carried', original);
        realLineSize := lineOffset;
      }
    }

    /** The delimiter was found `n` bytes into the rest of the block (lines 73-80): copy
        those bytes after `carried`, terminate the line and step over the delimiter. */
    method EndLine(n: nat, ghost carried: Bytes, ghost original: Bytes)
      requires Valid() && blockOffset + n < |block| && lineOffset + n + 1 <= line.Length
      requires lineOffset == |carried| && Holds(line, carried, original)
      modifies this`blockOffset, this`realLineSize, line
      ensures Valid()
      ensures blockOffset == old(blockOffset) + n + 1
      ensures realLineSize == lineOffset + n
      ensures Holds(line, carried + block[old(blockOffset)..][..n] + [NUL], original)
    {
      var rest := block[blockOffset..];
      CopyInto(line, lineOffset, rest[..n], carried, original);
      Terminate(line, lineOffset + n, carried + rest[..n], original);
      blockOffset := blockOffset + n + 1;
      realLineSize := lineOffset + n;
    }
  }
}
