# The .PKGINFO reader of pkgtools, in Dafny

This project models how pkgtools reads the metadata of an Arch Linux package
(`alpm/alpm-metadata.c`). Three parts are covered.

- `archive_fgets` is a line assembler layered on libarchive's block interface. It
  pulls blocks of the `.PKGINFO` entry one at a time, finds the end of each line
  (a `'\n'`, or failing that a NUL), joins lines that span several blocks, and
  copies each line into a buffer sized by the entry. A line too long for that
  buffer gives `-ERANGE`.
- `read_metadata_line` splits one `key = value` line at the first space or `=`,
  skips two bytes after that separator, and stores the value in the package
  record (`alpm_pkg_meta_t` of `alpm/alpm-metadata.h`). Strings are copied,
  numbers go through `atol`, and list keys append to their list.
- `read_metadata` calls the two in a loop. It stops at the first call that does
  not return `ARCHIVE_OK`, or that returns an empty line.

The modules:

- `Bytes` has bytes and the C string functions involved: `memchr`, `strchr`,
  `strsep` over `" ="`, and what C string functions see before a NUL.
- `BlockSource` has the libarchive statuses and the `Archive` class. Its
  `ReadDataBlock` hands out the blocks of an entry, in order.
- `LineReader` has the pure specification of one `archive_fgets` call
  (`Assemble`/`Scan`) and the imperative `ReadBuffer` class. Its fields mirror
  `struct archive_read_buffer`, with two differences. The pointers
  `line_offset` and `block_offset` are indices. `block_size` is the length of
  `block`, and `line_size` has no field, because nothing reads it after it is
  set. Its `Fgets` method has the loop of the C function. `Fgets` is proved to do to the line buffer, the buffer's fields and
  the archive exactly what the pure function `NextLine` says.
- `LineReaderProps` has properties of successive calls:
  - the shape of one call, and progress;
  - end of file stays reported once reached;
  - the effect of non-OK and empty blocks;
  - a reference reading of NUL-free content in non-empty blocks: split the
    entry's bytes at `'\n'`. It is proved to agree with the calls, so where the
    blocks split does not matter.
- `Numeric` has `atol` in the C locale.
- `Metadata` has the record, the key table and `ApplyLine`
  (`read_metadata_line`).
- `MetadataProps` has what lines do to the record: well-formed lines round-trip,
  scalar keys keep the last value, list keys accumulate, and some fields are
  never written.
- `PkgInfo` has `ReadMetadata`, proved to apply to the record exactly the lines
  of the pure function `Feed` (the calls' lines up to the first empty one), and
  to leave the archive where the last call left it.

How C's behaviour is represented:

- A `char *` field is `Option<Bytes>` and is `None` while NULL. An `alpm_list_t`
  is the sequence of its strings. `off_t` and `time_t` are unbounded integers.
- `ReadMetadata` gives the parser the line as the buffer holds it: its
  `real_line_size` bytes, which are followed by a NUL. `strchr` and `strsep` see
  the line up to its first NUL. The value is the C string that starts two bytes
  past the separator, which may lie after a NUL inside the line.
- When a recognised key's separator is one of the last two bytes of the line,
  line 107 moves the value's start past the line's terminator. In that case
  `ApplyLine` returns `None`, and `ReadMetadata` returns `None` from then on.
- The archive is an object holding the blocks still to come, each a status and
  its bytes. Past the last block it answers `ARCHIVE_EOF` with no data.

Behaviour kept as the code has it, which a reader may not expect:

- A final fragment with no `'\n'` and no NUL, after at least one line, is lost.
  A pull that reports `ARCHIVE_EOF` returns at once (lines 47-55) and drops what
  was carried. The code at lines 88-92 only runs for an `ARCHIVE_OK` block with
  no bytes. See `UnterminatedTailLost`. An entry that is only such a fragment
  does not fit in the buffer, which has the entry's size: that call returns
  `-ERANGE`. See `UnterminatedOnlyLineTooLong`.
- The key ends at the first space *or* `=`: `strsep` takes `" = "` as a set of
  delimiters. The value starts two bytes after that point, whatever those bytes
  are. See `TightLineLosesTwoBytes`. After a NUL inside the line the value can
  still be read: see `ValueAfterEmbeddedNul`.
- `read_metadata` returns nothing, so errors (`-ERANGE`, source failures) do
  not reach the caller. They only end the loop.
- Whether the NUL fallback applies depends on where a block ends: it applies to
  each block on its own. See `NulMakesBlocksMatter`.

## Model

| member | source | states |
|---|---|---|
| Bytes.Find | alpm/alpm-metadata.c:61-63 | memchr/strchr: the result is the index of the first occurrence, or the length when there is none; every earlier byte differs |
| Bytes.FindSep | alpm/alpm-metadata.c:106 | strsep over `" ="`: the index of the first space or `=`, with no space or `=` before it |
| Bytes.CStr | alpm/alpm-metadata.c:103-106 | what C string functions see: a NUL-free prefix of the buffer, followed by a NUL when shorter than the buffer |
| Bytes.FindConcat | alpm/alpm-metadata.c:61-63 | the first occurrence in a concatenation is in the first part if it occurs there, else its length plus the index in the second part |
| Bytes.FindSepConcat | alpm/alpm-metadata.c:106 | a prefix free of space and `=` is skipped whole by strsep |
| BlockSource.Status.Code | alpm/alpm-metadata.c:43-54 | the values libarchive gives the statuses: 0 exactly for ARCHIVE_OK, 1 exactly for ARCHIVE_EOF, negative for the others |
| BlockSource.Pull | alpm/alpm-metadata.c:47-48 | a pull hands out the next block and the ones after it; past the end it answers ARCHIVE_EOF with no data |
| BlockSource.Archive.ReadDataBlock | alpm/alpm-metadata.c:47-48 | archive_read_data_block returns the status and bytes of the next block and removes it from those to come |
| LineReader.ReturnCode | alpm/alpm-metadata.c:43-80 | what a call returns: ARCHIVE_OK with a line, -ERANGE exactly for a line too long, and for a non-OK stop a value other than ARCHIVE_OK |
| LineReader.Eol | alpm/alpm-metadata.c:60-68 | the line ends at the first `'\n'` of the rest of the block; failing that at the first NUL; failing both at the end of the block |
| LineReader.NextLine | alpm/alpm-metadata.c:29-97 | one archive_fgets call: a line fits in the buffer with its terminator; a stop reports a status other than ARCHIVE_OK, which stays saved; -ERANGE comes with a block whose line does not fit after the carried bytes |
| LineReader.Assemble | alpm/alpm-metadata.c:34-58 | one call from the top of its loop; the state it leaves is well formed |
| LineReader.Scan | alpm/alpm-metadata.c:60-93 | the body of the loop after the pull; the state it leaves is well formed |
| LineReader.CopyInto | alpm/alpm-metadata.c:75 | memcpy/mempcpy into the line buffer: the copied bytes follow the head, the rest of the buffer is untouched |
| LineReader.Terminate | alpm/alpm-metadata.c:76 | writing the terminating NUL after the head leaves the rest of the buffer untouched |
| LineReader.ReadBuffer.constructor | alpm/alpm-metadata.c:151-153 | the zero-initialised buffer with a line buffer of the entry's size, no block and ARCHIVE_OK saved |
| LineReader.ReadBuffer.Fgets | alpm/alpm-metadata.c:29-97 | archive_fgets: a return value, new fields and a new archive state exactly as one `NextLine` call gives them; on a line the buffer holds it followed by NUL and `real_line_size` is its length, otherwise the buffer holds what was copied |
| LineReader.ReadBuffer.ScanBlock | alpm/alpm-metadata.c:60-93 | one pass over the rest of the block: either the call ends as `Scan` says (-ERANGE, a line at a delimiter, a line at an empty block), or the whole block joins the line and the call continues as `Scan` says |
| LineReader.ReadBuffer.ScanRest | alpm/alpm-metadata.c:82-93 | no delimiter but room: the block is copied; the call ends with the line if the rest was empty, and otherwise goes on as `Scan` says |
| LineReader.ReadBuffer.TakeRest | alpm/alpm-metadata.c:82-93 | the rest of the block is appended to the line and the block is used up; an empty rest terminates the line and sets `real_line_size` |
| LineReader.ReadBuffer.EndLine | alpm/alpm-metadata.c:73-80 | the bytes before the delimiter are appended and NUL-terminated, the delimiter is stepped over and `real_line_size` is the line's length |
| LineReader.AssembleShape | alpm/alpm-metadata.c:34-93 | a line fits in the buffer with its terminator and extends what was carried; a stop reports a non-OK status that is also saved; -ERANGE only where the carried bytes, the line's bytes in the current block and the terminator exceed the limit; the carried bytes only grow; with empty EOF blocks, an EOF stop leaves the block used up |
| LineReader.ScanShape | alpm/alpm-metadata.c:60-93 | the same facts for the body of the loop |
| LineReaderProps.LineAtDelimiter | alpm/alpm-metadata.c:61-80 | spells out the definition of `Scan`: at a `'\n'`, or at a NUL in a block without `'\n'`, the line is the carried bytes plus the block up to the delimiter, which is consumed |
| LineReaderProps.AssembleProgress | alpm/alpm-metadata.c:34-93 | a call never adds to what is left to read, and a call that delivers a line consumes something |
| LineReaderProps.ScanProgress | alpm/alpm-metadata.c:60-93 | the same for the body of the loop, when the block is not used up |
| LineReaderProps.Lines | alpm/alpm-metadata.c:29-97 | successive calls: every line fits in the buffer with its terminator, and the calls end with an outcome that is not a line |
| LineReaderProps.Feed | alpm/alpm-metadata.c:155 | the lines read_metadata consumes: each is non-empty and fits in the buffer with its terminator |
| LineReaderProps.FeedEnd | alpm/alpm-metadata.c:155 | the state after the call that ends read_metadata's loop is well formed |
| LineReaderProps.TakeNonEmpty | alpm/alpm-metadata.c:155 | the lines before the first empty one: a prefix of the lines, all non-empty, followed by an empty line when shorter |
| LineReaderProps.TakeAllNonEmpty | alpm/alpm-metadata.c:155 | when no line is empty, all of them are kept |
| LineReaderProps.FeedIsNonEmptyPrefix | alpm/alpm-metadata.c:155 | read_metadata consumes exactly the calls' lines up to the first empty one |
| LineReaderProps.EofSticky | alpm/alpm-metadata.c:39-44 | after a call reports ARCHIVE_EOF, the next call reports it again, copies nothing and pulls nothing |
| LineReaderProps.AtEndForever | alpm/alpm-metadata.c:39-44 | at the end of the entry, any number of further calls leaves the state unchanged and each reports ARCHIVE_EOF |
| LineReaderProps.NonOkPullStops | alpm/alpm-metadata.c:47-55 | spells out the definition of `Assemble`: a pull that does not answer ARCHIVE_OK ends the call with that status, and the partial line is dropped |
| LineReaderProps.EmptyOkBlockEndsLine | alpm/alpm-metadata.c:88-92 | spells out the definition of `Scan`: an ARCHIVE_OK block with no bytes ends the line with what was carried |
| LineReaderProps.FirstLine | alpm/alpm-metadata.c:61-80 | reference reading: a line is a prefix of the stream free of `'\n'` and followed by one; an end stop means the stream holds no `'\n'` |
| LineReaderProps.Split | alpm/alpm-metadata.c:29-97 | the reference reading into successive lines ends with a stop, not a line |
| LineReaderProps.AssembleReference | alpm/alpm-metadata.c:34-93 | on plain content (NUL-free, non-empty OK blocks) a call reads the first reference line of the carried bytes and the stream, and leaves plain content holding what follows it |
| LineReaderProps.PullReference | alpm/alpm-metadata.c:39-58 | the same when the call starts by pulling a block |
| LineReaderProps.PullPlain | alpm/alpm-metadata.c:47-50 | pulling plain content gives plain content with the same stream and a non-empty block |
| LineReaderProps.ScanReference | alpm/alpm-metadata.c:60-93 | the same for the body of the loop |
| LineReaderProps.ScanReferenceLine | alpm/alpm-metadata.c:61-80 | the same when the rest of the block holds a `'\n'` |
| LineReaderProps.ScanReferenceGot | alpm/alpm-metadata.c:73-80 | a line ended by a `'\n'` that fits is the reference line, and what follows it stays plain |
| LineReaderProps.ScanReferenceTooLong | alpm/alpm-metadata.c:69-71 | a block without `'\n'` that does not fit gives -ERANGE, and so does the reference reading |
| LineReaderProps.PastDelimiter | alpm/alpm-metadata.c:77 | stepping over the delimiter keeps the content plain and drops the bytes up to and including it from the stream |
| LineReaderProps.LinesReference | alpm/alpm-metadata.c:29-97 | on plain content, the successive calls deliver exactly the reference lines of the entry and stop as the reference does |
| LineReaderProps.NextLineReference | alpm/alpm-metadata.c:29-97 | one call from plain content reads the first reference line of the stream |
| LineReaderProps.BlockSplitInvariance | alpm/alpm-metadata.c:29-97 | the same NUL-free content cut into non-empty OK blocks in two ways is read as the same lines with the same final outcome |
| LineReaderProps.SplitJoin | alpm/alpm-metadata.c:29-97 | lines that fit, written one per `'\n'`, are read back in order, followed by the end of the entry |
| LineReaderProps.SplitConsumes | alpm/alpm-metadata.c:29-97 | the lines read, each with its `'\n'`, form a prefix of the stream; after an end stop no `'\n'` is left |
| LineReaderProps.FeedOfWrittenLines | alpm/alpm-metadata.c:29-97 | non-empty lines that fit, written one per `'\n'` and cut into NUL-free non-empty OK blocks anywhere, are exactly the lines read_metadata consumes |
| LineReaderProps.UnterminatedTailLost | alpm/alpm-metadata.c:41-55 | at the entry's own size, a block holding a line, its `'\n'` and a final fragment without `'\n'` or NUL gives the line and then ARCHIVE_EOF: the fragment is lost |
| LineReaderProps.SplitTail | alpm/alpm-metadata.c:61-80 | the reference reading of a fitting line, its `'\n'` and a fitting fragment without `'\n'` is that line, then the end of the entry |
| LineReaderProps.UnterminatedOnlyLineTooLong | alpm/alpm-metadata.c:62-71 | at the entry's own size, an entry that is a single fragment without `'\n'` or NUL gives -ERANGE and no line |
| LineReaderProps.NulMakesBlocksMatter | alpm/alpm-metadata.c:61-64 | "a\0b\n" in one block is the line "a\0b"; split after the NUL it is the line "a" |
| Numeric.SkipSpace | alpm/alpm-metadata.c:120 | atol's leading white space: what is skipped is white space, and what is left is a suffix not starting with it |
| Numeric.DigitRun | alpm/alpm-metadata.c:120 | the digit run that atol reads: all digits, followed by a non-digit or the end |
| Numeric.Value | alpm/alpm-metadata.c:120 | the value of the digits; no digits is 0 |
| Numeric.Atol | alpm/alpm-metadata.c:120 | atol: a string of digits is read as its value, and a negative result needs a `-` after the white space |
| Numeric.ValueDecimal | alpm/alpm-metadata.c:120 | reading back the decimal digits of a number gives the number |
| Numeric.AtolDecimal | alpm/alpm-metadata.c:119-124 | atol reads back a decimal number whatever non-digit follows it |
| Numeric.AtolSigned | alpm/alpm-metadata.c:119-124 | with a leading `-` or `+`, atol gives the negated or the plain number |
| Numeric.AtolSign | alpm/alpm-metadata.c:119-124 | a sign in front negates, or keeps, the value of the digit run after it |
| Numeric.AtolSkipsSpace | alpm/alpm-metadata.c:119-124 | leading white space does not change atol's value |
| Numeric.AtolNoDigits | alpm/alpm-metadata.c:119-124 | no digit after the white space and the sign gives 0 |
| Metadata.Empty | alpm/alpm-metadata.c:192 | the calloc'd record: every string NULL, every number 0, every list empty |
| Metadata.Assign | alpm/alpm-metadata.c:109-144 | one assignment: strdup overwrites a string, atol a number, alpm_list_add appends to a list; every other field keeps its value |
| Metadata.SetText | alpm/alpm-metadata.c:109-126 | strdup into a string field: it holds the value, every other field keeps its value |
| Metadata.SetNumber | alpm/alpm-metadata.c:119-124 | atol into a number field: it holds the number, every other field keeps its value |
| Metadata.Append | alpm/alpm-metadata.c:127-144 | alpm_list_add: the value is appended at the tail of the list, every other field keeps its value |
| Metadata.AssignKeeps | alpm/alpm-metadata.c:109-144 | an assignment to another field leaves the file name, the package size and the file list alone |
| Metadata.KeyField | alpm/alpm-metadata.c:109-144 | the field a key selects; no key selects the file name, the package size or the file list |
| Metadata.FieldNamed | alpm/alpm-metadata.c:109-144 | the strcmp chain never yields the file name, the package size or the file list |
| Metadata.KeyFieldOf | alpm/alpm-metadata.c:109-144 | a key selects a field exactly when it is that field's key name |
| Metadata.FieldNamedOf | alpm/alpm-metadata.c:109-144 | the chain yields a field exactly for that field's name, in both directions |
| Metadata.NamedByField | alpm/alpm-metadata.c:109-144 | the field the chain yields has the name it was picked by |
| Metadata.NamedByKey | alpm/alpm-metadata.c:109-144 | every key name reaches its own field: no earlier comparison in the chain matches it |
| Metadata.SplitLine | alpm/alpm-metadata.c:103-107 | no `=` before the first NUL means the line is ignored; otherwise the key is what comes before the first space or `=`, and the value is the C string three bytes after the key, or is missing when that lies past the line's terminator; within the C string the value is the rest of it |
| Metadata.CStrSuffix | alpm/alpm-metadata.c:107 | starting within the C string, the C string of the rest is the rest of the C string |
| Metadata.ApplyLine | alpm/alpm-metadata.c:99-145 | read_metadata_line: a line without `=` leaves the record alone; None only when the value would start past the line's terminator; the file name, package size and file list are never touched |
| Metadata.ApplyAll | alpm/alpm-metadata.c:155-157 | the lines applied in order never change the file name, the package size or the file list |
| MetadataProps.ApplyLineEffect | alpm/alpm-metadata.c:103-144 | spells out the definition of `ApplyLine`: a line without `=` or with an unknown key leaves the record as it is; a known key assigns its value to its field |
| MetadataProps.ApplyLineUndefined | alpm/alpm-metadata.c:106-107 | C reads the value past the line's terminator exactly when a known key's separator is one of the last two bytes of the line |
| MetadataProps.ValueAfterEmbeddedNul | alpm/alpm-metadata.c:103-118 | `url=x\0abc` sets the URL to "abc": the value is read after the NUL that ends what strchr and strsep see |
| MetadataProps.EmbeddedNulSplits | alpm/alpm-metadata.c:103-107 | `url=x\0abc` splits into the key "url" and the value "abc" |
| MetadataProps.KeyNameLetters | alpm/alpm-metadata.c:109-144 | the key names are lower-case letters |
| MetadataProps.KeyBytesPlain | alpm/alpm-metadata.c:109-144 | a key name holds no space, `=` or NUL |
| MetadataProps.SplitFormatted | alpm/alpm-metadata.c:103-107 | splitting `key = value` gives back the key and the value |
| MetadataProps.ApplyFormatted | alpm/alpm-metadata.c:103-144 | a `key = value` line for a field's key assigns the value to that field |
| MetadataProps.TightLineLosesTwoBytes | alpm/alpm-metadata.c:106-107 | `url=abc` sets the URL to "c" |
| MetadataProps.TightLineSplits | alpm/alpm-metadata.c:103-107 | `url=abc` splits into the key "url" and the value "c" |
| MetadataProps.ApplyAllConcat | alpm/alpm-metadata.c:155-157 | applying two batches of lines is applying one after the other |
| MetadataProps.Untouched | alpm/alpm-metadata.c:109-144 | a field that no line selects keeps its value |
| MetadataProps.ListAccumulates | alpm/alpm-metadata.c:127-144 | repeated lines for a list key append their values in order, duplicates kept; the other fields are unchanged |
| MetadataProps.ScalarLastWins | alpm/alpm-metadata.c:109-126 | of repeated lines for a string or number key the last decides; the other fields are unchanged |
| MetadataProps.SizeSetsInstalledSize | alpm/alpm-metadata.c:123-124 | `size = n` sets the installed size to n and changes nothing else |
| PkgInfo.FeedStep | alpm/alpm-metadata.c:155 | the loop goes on exactly when a call returned ARCHIVE_OK with a non-empty line, and then consumes that line |
| PkgInfo.OkMeansLine | alpm/alpm-metadata.c:80 | ARCHIVE_OK is returned only with a line |
| PkgInfo.ReadMetadata | alpm/alpm-metadata.c:147-160 | the record is the initial one with the lines of `Feed` applied in order, or None if C would read a value past a line's terminator; the archive is left as the last call left it |
| PkgInfo.ReadsWrittenLines | alpm/alpm-metadata.c:147-160 | for an entry written as non-empty lines that fit, each followed by `'\n'`, in NUL-free non-empty OK blocks, the record is exactly those lines applied in order |

## Left out

- `alpm_pkg_load_metadata` (lines 162-227) is not part of this model. It covers
  opening and mapping the file, walking the archive headers to the `.PKGINFO`
  entry, and stamping `filename` and `size`. The model starts with an archive
  positioned at that entry.
- libarchive is represented only by the blocks it returns: decompression,
  `archive_read_data_block`'s offset argument, and the lifetime of the borrowed
  blocks are not modelled.
- Memory is not modelled: `malloc`/`free` of the line buffer, `strdup`, list
  nodes, and the leak of values a repeated scalar key overwrites. A failing
  `malloc` (a NULL line buffer) is not modelled either.
- The entry size is a `nat`. A negative `archive_entry_size` (unknown size) is
  not modelled.
- `strsep` writes a NUL over the separator. The model reads the key and the
  value directly, and does not record that write in the buffer. The value
  starts past that byte, so the parse of the line is not affected. Later, the
  byte is only one more stale byte of the buffer (see `ApplyLine` below).
- `atol` is modelled in the C locale without overflow: a number too large for
  `long` is undefined in C and is an unbounded integer here.
- The record fields `replaces` and `provides` are called `replacements` and
  `provisions`, because those names are Dafny keywords.
- `ApplyLine`: when a recognised key's separator is one of the last two bytes of
  the line, line 107 moves the value's start past the line's terminator. What
  `strdup` or `atol` then reads is not modelled. It may be stale bytes of the
  buffer, left by longer earlier lines or never written since `malloc`, or bytes
  past the end of the buffer. All of these are `None` here, and `ReadMetadata`
  stays `None` after it. An unknown key in the same situation only compares the
  key, so it is a no-op.
- `LineReader.Assemble`: its own contract states only that the state stays well
  formed. Its behaviour is stated by `AssembleShape`, `AssembleProgress` and
  `AssembleReference`, and its relation to the imperative code by `Fgets`.
- `LineReader.Scan`: likewise, stated by `ScanShape`, `ScanProgress` and
  `ScanReference`.
- `LineReaderProps.EofSticky`: it assumes the source delivers ARCHIVE_EOF with
  no bytes, as libarchive does. With data on an EOF block, C would scan that
  data on the next call.
- The command-line front end that prints the record (`pkgdump.c`) is not part of
  this model.
