// The block source: libarchive's archive_read_data_block, seen only through what it returns.

module BlockSource {
  import opened Bytes

  /** The libarchive status codes a pull can return. */
  datatype Status = Ok | Eof | Retry | Warn | Failed | Fatal
  {
    /** The numeric value libarchive gives each status (ARCHIVE_OK, ARCHIVE_EOF, ...). */
    function Code(): (r: int)
      ensures r == 0 <==> this == Ok
      ensures r == 1 <==> this == Eof
      ensures this != Ok && this != Eof ==> r < 0
    {
      match this
      case Ok => 0
      case Eof => 1
      case Retry => -10
      case Warn => -20
      case Failed => -25
      case Fatal => -30
    }
  }

  /** One answer of the source: a status and the (borrowed, read-only) block it delivered. */
  datatype Block = Block(status: Status, data: Bytes)

  /** The answer to one pull from the blocks still to come; past the end the source keeps
      answering ARCHIVE_EOF with an empty block. */
  function Pull(pending: seq<Block>): (r: (Block, seq<Block>))
    ensures pending == [] ==> r == (Block(Eof, []), [])
    ensures pending != [] ==> [r.0] + r.1 == pending
  {
    if pending == [] then (Block(Eof, []), []) else (pending[0], pending[1..])
  }

  /** The archive handle the reader pulls from: the blocks of the current entry not yet
      delivered, in order. */
  class Archive {
    var pending: seq<Block>

    constructor (blocks: seq<Block>)
      ensures pending == blocks
    {
      pending := blocks;
    }

    /** archive_read_data_block: hands out the next block and forgets it. */
    method ReadDataBlock() returns (status: Status, data: Bytes)
      modifies this
      ensures (Block(status, data), pending) == Pull(old(pending))
    {
      var next := Pull(pending);
      status, data := next.0.status, next.0.data;
      pending := next.1;
    }
  }
}
