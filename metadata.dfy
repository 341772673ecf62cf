// The package record of alpm/alpm-metadata.h and read_metadata_line, which applies one
// "key = value" line of .PKGINFO to it.

module Metadata {
  import opened Bytes
  import opened Numeric

  /** alpm_pkg_meta_t. A `char *` is None while NULL; an alpm_list_t is the sequence of its
      strings in list order. */
  datatype PkgMeta = PkgMeta(
    filename: Option<Bytes>,
    name: Option<Bytes>,
    base: Option<Bytes>,
    version: Option<Bytes>,
    desc: Option<Bytes>,
    url: Option<Bytes>,
    packager: Option<Bytes>,
    arch: Option<Bytes>,
    size: int,
    isize: int,
    builddate: int,
    groups: seq<Bytes>,
    license: seq<Bytes>,
    replacements: seq<Bytes>,     // the C field `replaces` (a Dafny keyword)
    depends: seq<Bytes>,
    conflicts: seq<Bytes>,
    provisions: seq<Bytes>,       // the C field `provides` (a Dafny keyword)
    optdepends: seq<Bytes>,
    makedepends: seq<Bytes>,
    checkdepends: seq<Bytes>,
    files: seq<Bytes>)

  /** The record as calloc leaves it (line 192): every string NULL, every number 0, every
      list empty. */
  function Empty(): (p: PkgMeta)
    ensures forall f :: Get(p, f) == Text(None) || Get(p, f) == Number(0) || Get(p, f) == List([])
  {
    PkgMeta(None, None, None, None, None, None, None, None, 0, 0, 0,
            [], [], [], [], [], [], [], [], [], [])
  }

  /** The fields of the record, by name. */
  datatype Field =
    | Filename | Name | Base | Version | Desc | Url | Packager | Arch
    | Size | ISize | BuildDate
    | Groups | License | Replaces | Depends | Conflicts | Provides | OptDepends
    | MakeDepends | CheckDepends | Files

  /** The value of one field: a string, a number or a list. */
  datatype FieldValue = Text(text: Option<Bytes>) | Number(number: int) | List(items: seq<Bytes>)

  /** Reads one field of the record. */
  function Get(p: PkgMeta, f: Field): FieldValue
  {
    match f
    case Filename => Text(p.filename)
    case Name => Text(p.name)
    case Base => Text(p.base)
    case Version => Text(p.version)
    case Desc => Text(p.desc)
    case Url => Text(p.url)
    case Packager => Text(p.packager)
    case Arch => Text(p.arch)
    case Size => Number(p.size)
    case ISize => Number(p.isize)
    case BuildDate => Number(p.builddate)
    case Groups => List(p.groups)
    case License => List(p.license)
    case Replaces => List(p.replacements)
    case Depends => List(p.depends)
    case Conflicts => List(p.conflicts)
    case Provides => List(p.provisions)
    case OptDepends => List(p.optdepends)
    case MakeDepends => List(p.makedepends)
    case CheckDepends => List(p.checkdepends)
    case Files => List(p.files)
  }

  /** The effect of a value on a field of each kind: strdup overwrites a string, atol
      overwrites a number, alpm_list_add appends to the tail of a list. */
  function Updated(current: FieldValue, value: Bytes): FieldValue
  {
    match current
    case Text(_) => Text(Some(value))
    case Number(_) => Number(Atol(value))
    case List(items) => List(items + [value])
  }

  /** One assignment of lines 109-144: field `f` takes `value`, the others keep theirs. */
  function Assign(p: PkgMeta, f: Field, value: Bytes): (r: PkgMeta)
    ensures Get(r, f) == Updated(Get(p, f), value)
    ensures forall g :: g != f ==> Get(r, g) == Get(p, g)
  {
    match Get(p, f)
    case Text(_) => SetText(p, f, value)
    case Number(_) => SetNumber(p, f, Atol(value))
    case List(_) => Append(p, f, value)
  }

  /** strdup into a string field. */
  function SetText(p: PkgMeta, f: Field, value: Bytes): (r: PkgMeta)
    requires Get(p, f).Text?
    ensures Get(r, f) == Text(Some(value))
    ensures forall g :: g != f ==> Get(r, g) == Get(p, g)
  {
    match f
    case Filename => p.(filename := Some(value))
    case Name => p.(name := Some(value))
    case Base => p.(base := Some(value))
    case Version => p.(version := Some(value))
    case Desc => p.(desc := Some(value))
    case Url => p.(url := Some(value))
    case Packager => p.(packager := Some(value))
    case Arch => p.(arch := Some(value))
  }

  /** atol into a number field. */
  function SetNumber(p: PkgMeta, f: Field, n: int): (r: PkgMeta)
    requires Get(p, f).Number?
    ensures Get(r, f) == Number(n)
    ensures forall g :: g != f ==> Get(r, g) == Get(p, g)
  {
    match f
    case Size => p.(size := n)
    case ISize => p.(isize := n)
    case BuildDate => p.(builddate := n)
  }

  /** alpm_list_add of a copy of the value at the tail of a list field. */
  function Append(p: PkgMeta, f: Field, value: Bytes): (r: PkgMeta)
    requires Get(p, f).List?
    ensures Get(r, f) == List(Get(p, f).items + [value])
    ensures forall g :: g != f ==> Get(r, g) == Get(p, g)
  {
    match f
    case Groups => p.(groups := p.groups + [value])
    case License => p.(license := p.license + [value])
    case Replaces => p.(replacements := p.replacements + [value])
    case Depends => p.(depends := p.depends + [value])
    case Conflicts => p.(conflicts := p.conflicts + [value])
    case Provides => p.(provisions := p.provisions + [value])
    case OptDepends => p.(optdepends := p.optdepends + [value])
    case MakeDepends => p.(makedepends := p.makedepends + [value])
    case CheckDepends => p.(checkdepends := p.checkdepends + [value])
    case Files => p.(files := p.files + [value])
  }

  /** The field a key selects, by the strcmp chain of lines 109-144; "size" selects the
      installed size, and no key selects the file name, the package size or the file list. */
  function KeyField(key: Bytes): (r: Option<Field>)
    ensures r != Some(Filename) && r != Some(Size) && r != Some(Files)
  {
    FieldNamed(AsString(key))
  }

  /** The strcmp chain itself, on the key read as text. */
  function FieldNamed(name: string): (r: Option<Field>)
    ensures r != Some(Filename) && r != Some(Size) && r != Some(Files)
  {
    if name == "pkgname" then Some(Name)
    else if name == "pkgbase" then Some(Base)
    else if name == "pkgver" then Some(Version)
    else if name == "pkgdesc" then Some(Desc)
    else if name == "url" then Some(Url)
    else if name == "builddate" then Some(BuildDate)
    else if name == "packager" then Some(Packager)
    else if name == "size" then Some(ISize)
    else if name == "arch" then Some(Arch)
    else if name == "group" then Some(Groups)
    else if name == "license" then Some(License)
    else if name == "replaces" then Some(Replaces)
    else if name == "depend" then Some(Depends)
    else if name == "conflict" then Some(Conflicts)
    else if name == "provides" then Some(Provides)
    else if name == "optdepend" then Some(OptDepends)
    else if name == "makedepend" then Some(MakeDepends)
    else if name == "checkdepend" then Some(CheckDepends)
    else None
  }

  /** The key a .PKGINFO line uses for a field, when there is one. */
  function KeyName(f: Field): Option<string>
  {
    match f
    case Name => Some("pkgname")
    case Base => Some("pkgbase")
    case Version => Some("pkgver")
    case Desc => Some("pkgdesc")
    case Url => Some("url")
    case BuildDate => Some("builddate")
    case Packager => Some("packager")
    case ISize => Some("size")
    case Arch => Some("arch")
    case Groups => Some("group")
    case License => Some("license")
    case Replaces => Some("replaces")
    case Depends => Some("depend")
    case Conflicts => Some("conflict")
    case Provides => Some("provides")
    case OptDepends => Some("optdepend")
    case MakeDepends => Some("makedepend")
    case CheckDepends => Some("checkdepend")
    case Filename => None
    case Size => None
    case Files => None
  }

  /** A key selects a field exactly when it is that field's key. */
  lemma KeyFieldOf(key: Bytes, f: Field)
    ensures KeyField(key) == Some(f) <==> KeyName(f) == Some(AsString(key))
  {
    FieldNamedOf(AsString(key), f);
  }

  lemma FieldNamedOf(name: string, f: Field)
    ensures FieldNamed(name) == Some(f) <==> KeyName(f) == Some(name)
  {
    if KeyName(f) == Some(name) {
      NamedByKey(f);
    } else {
      NamedByField(name);
    }
  }

  /** The field the chain picks has the name it was picked by. */
  lemma NamedByField(name: string)
    ensures FieldNamed(name).Some? ==> KeyName(FieldNamed(name).value) == Some(name)
  {
  }

  /** The chain reaches each field's own name: no earlier name in it coincides. */
  lemma NamedByKey(f: Field)
    requires KeyName(f).Some?
    ensures FieldNamed(KeyName(f).value) == Some(f)
  {
    match f
    case Name => NamedByKeyStrings(f);
    case Base => NamedByKeyStrings(f);
    case Version => NamedByKeyStrings(f);
    case Desc => NamedByKeyStrings(f);
    case Url => NamedByKeyStrings(f);
    case BuildDate => NamedByKeyNumbers(f);
    case Packager => NamedByKeyStrings(f);
    case ISize => NamedByKeyNumbers(f);
    case Arch => NamedByKeyStrings(f);
    case Groups => NamedByKeyLists(f);
    case License => NamedByKeyLists(f);
    case Replaces => NamedByKeyLists(f);
    case Depends => NamedByKeyLists(f);
    case Conflicts => NamedByKeyLists(f);
    case Provides => NamedByKeyDeps(f);
    case OptDepends => NamedByKeyDeps(f);
    case MakeDepends => NamedByKeyDeps(f);
    case CheckDepends => NamedByKeyDeps(f);
  }

  lemma NamedByKeyStrings(f: Field)
    requires f == Name || f == Base || f == Version || f == Desc || f == Url || f == Packager || f == Arch
    ensures FieldNamed(KeyName(f).value) == Some(f)
  {
  }

  lemma NamedByKeyNumbers(f: Field)
    requires f == BuildDate || f == ISize
    ensures FieldNamed(KeyName(f).value) == Some(f)
  {
  }

  lemma NamedByKeyLists(f: Field)
    requires f == Groups || f == License || f == Replaces || f == Depends || f == Conflicts
    ensures FieldNamed(KeyName(f).value) == Some(f)
  {
  }

  lemma NamedByKeyDeps(f: Field)
    requires f == Provides || f == OptDepends || f == MakeDepends || f == CheckDepends
    ensures FieldNamed(KeyName(f).value) == Some(f)
  {
  }

  /** How a line splits (lines 103-107). `line` is the line archive_fgets delivered, which
      the buffer holds followed by its terminating NUL; strchr and strsep see it up to its
      first NUL, and the value is read from two bytes past the separator. */
  datatype LineParts =
    | NoEquals                         // no '=' before the first NUL: the line is ignored
    | Short(key: Bytes)                // the value would start past the line's terminator
    | KeyValue(key: Bytes, value: Bytes)

  /** strchr for '=', strsep at the first ' ' or '=', then the C string that starts two bytes
      past the separator; the bytes there belong to the line, or are its terminator, when
      they lie within `|line|`. */
  function SplitLine(line: Bytes): (r: LineParts)
    ensures var cs := CStr(line);
      && (r == NoEquals <==> EQ !in cs)
      && (!r.NoEquals? ==> var k := |r.key|;
            k < |cs| && r.key == cs[..k] && (cs[k] == SP || cs[k] == EQ))
      && (r.Short? ==> |r.key| + 3 > |line|)
      && (r.KeyValue? ==> var k := |r.key|; k + 3 <= |line| && r.value == CStr(line[k + 3..]))
      && (r.KeyValue? && |r.key| + 3 <= |cs| ==> r.value == cs[|r.key| + 3..])
      && (!r.NoEquals? ==> SP !in r.key && EQ !in r.key)
  {
    var cs := CStr(line);
    if EQ !in cs then NoEquals
    else
      var k := FindSep(cs);
      if k + 3 <= |line| then
        CStrSuffix(line, k + 3);
        KeyValue(cs[..k], CStr(line[k + 3..]))
      else Short(cs[..k])
  }

  /** Past a point within the C string, the C string of the rest is the rest of the C
      string. */
  lemma CStrSuffix(s: Bytes, i: nat)
    requires i <= |s|
    ensures i <= |CStr(s)| ==> CStr(s[i..]) == CStr(s)[i..]
  {
    if i <= |CStr(s)| {
      var n := Find(s, NUL);
      assert s[i..] == s[i..n] + s[n..];
      FindConcat(s[i..n], s[n..], NUL);
    }
  }

  /** read_metadata_line. None where C would read the value past the line's terminator: a
      recognised key whose separator is one of the last two bytes of the line. A line without
      '=' leaves the record alone, and no line touches the file name, the package size or the
      file list. */
  function ApplyLine(p: PkgMeta, line: Bytes): (r: Option<PkgMeta>)
    ensures EQ !in CStr(line) ==> r == Some(p)
    ensures r.None? ==> EQ in CStr(line) && |line| < FindSep(CStr(line)) + 3
    ensures r.Some? ==> r.value.filename == p.filename && r.value.size == p.size && r.value.files == p.files
  {
    match SplitLine(line)
    case NoEquals => Some(p)
    case Short(key) => if KeyField(key).Some? then None else Some(p)
    case KeyValue(key, value) =>
      match KeyField(key)
      case None => Some(p)
      case Some(f) =>
        AssignKeeps(p, f, value);
        Some(Assign(p, f, value))
  }

  /** An assignment to a field other than the file name, the package size and the file list
      leaves those three alone. */
  lemma AssignKeeps(p: PkgMeta, f: Field, value: Bytes)
    requires f != Filename && f != Size && f != Files
    ensures var r := Assign(p, f, value); r.filename == p.filename && r.size == p.size && r.files == p.files
  {
    assert Get(Assign(p, f, value), Filename) == Get(p, Filename);
    assert Get(Assign(p, f, value), Size) == Get(p, Size);
    assert Get(Assign(p, f, value), Files) == Get(p, Files);
  }

  /** The lines applied in order, stopping at the first that C would not survive. */
  function ApplyAll(p: PkgMeta, lines: seq<Bytes>): (r: Option<PkgMeta>)
    ensures r.Some? ==> r.value.filename == p.filename && r.value.size == p.size && r.value.files == p.files
    decreases |lines|
  {
    if lines == [] then Some(p)
    else match ApplyLine(p, lines[0])
      case None => None
      case Some(q) => ApplyAll(q, lines[1..])
  }

  /** A line as it appears in a .PKGINFO file. */
  function FormatLine(key: Bytes, value: Bytes): Bytes
  {
    key + [SP, EQ, SP] + value
  }
}
