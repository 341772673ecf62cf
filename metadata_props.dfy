// What applying .PKGINFO lines does to the record: which lines leave it alone, what a
// well-formed "key = value" line does, last-wins for scalars, appending for lists, and
// the fields no line can reach.

module MetadataProps {
  import opened Bytes
  import opened Numeric
  import opened Metadata

  /** The field a line assigns, if any. */
  function Selects(line: Bytes): Option<Field>
  {
    match SplitLine(line)
    case KeyValue(key, _) => KeyField(key)
    case _ => None
  }

  /** A line without '=', or whose key is none of the known names, leaves the record as it
      is (lines 103-104 and the fall-through of lines 109-144); a line whose key is known
      assigns its value to that field and to no other. */
  lemma ApplyLineEffect(p: PkgMeta, line: Bytes)
    ensures Selects(line).None? && ApplyLine(p, line).Some? ==> ApplyLine(p, line) == Some(p)
    ensures EQ !in CStr(line) ==> ApplyLine(p, line) == Some(p)
    ensures Selects(line).Some? ==> var f := Selects(line).value;
      && ApplyLine(p, line) == Some(Assign(p, f, SplitLine(line).value))
      && Get(ApplyLine(p, line).value, f) == Updated(Get(p, f), CStr(line[|SplitLine(line).key| + 3..]))
  {
  }

  /** C reads the value past the line's terminator exactly when a known key has its
      separator among the last two bytes of the line (lines 106-107). */
  lemma ApplyLineUndefined(p: PkgMeta, line: Bytes)
    ensures ApplyLine(p, line).None? <==>
      EQ in CStr(line) && |line| < FindSep(CStr(line)) + 3
      && KeyField(CStr(line)[..FindSep(CStr(line))]).Some?
  {
  }

  /** A NUL inside the line ends what strchr and strsep see, but the value is still read
      from two bytes past the separator, so it may start after that NUL: "url=x\0abc" sets
      the URL to "abc". */
  lemma ValueAfterEmbeddedNul(p: PkgMeta)
    ensures ApplyLine(p, [117, 114, 108, EQ, 120, NUL, 97, 98, 99]) == Some(p.(url := Some([97, 98, 99])))
  {
    var key: Bytes := [117, 114, 108];
    var value: Bytes := [97, 98, 99];
    EmbeddedNulSplits();
    UrlKey();
    assert Assign(p, Url, value) == SetText(p, Url, value) == p.(url := Some(value));
  }

  /** The bytes "url" select the URL. */
  lemma UrlKey()
    ensures KeyField([117, 114, 108]) == Some(Url)
  {
    assert AsString([117, 114, 108]) == "url";
    KeyFieldOf([117, 114, 108], Url);
  }

  /** How the line "url=x\0abc" splits. */
  lemma EmbeddedNulSplits()
    ensures SplitLine([117, 114, 108, EQ, 120, NUL, 97, 98, 99]) == KeyValue([117, 114, 108], [97, 98, 99])
  {
    var line: Bytes := [117, 114, 108, EQ, 120, NUL, 97, 98, 99];
    var key: Bytes := [117, 114, 108];
    var cs: Bytes := [117, 114, 108, EQ, 120];
    assert line == cs + line[5..];
    FindConcat(cs, line[5..], NUL);
    assert CStr(line) == cs;
    assert cs == key + cs[3..];
    FindSepConcat(key, cs[3..]);
    CStrWhole(line[6..]);
  }

  /** The names of the keys are lower-case words. */
  lemma KeyNameLetters(f: Field)
    requires KeyName(f).Some?
    ensures forall i :: 0 <= i < |KeyName(f).value| ==> 'a' <= KeyName(f).value[i] <= 'z'
  {
  }

  /** So a key holds no space, '=' or NUL. */
  lemma KeyBytesPlain(key: Bytes, f: Field)
    requires KeyName(f) == Some(AsString(key))
    ensures SP !in key && EQ !in key && NUL !in key
  {
    KeyNameLetters(f);
    forall i | 0 <= i < |key| ensures 97 <= key[i] as int <= 122 {
      assert AsString(key)[i] == key[i] as int as char;
    }
  }

  /** A NUL-free string is seen whole by the C string functions. */
  lemma CStrWhole(s: Bytes)
    requires NUL !in s
    ensures CStr(s) == s
  {
  }

  /** Splitting a line written as "key = value" gives back the key and the value, when the
      key holds no space, '=' or NUL and the value no NUL. */
  lemma SplitFormatted(key: Bytes, value: Bytes)
    requires SP !in key && EQ !in key && NUL !in key && NUL !in value
    ensures SplitLine(FormatLine(key, value)) == KeyValue(key, value)
  {
    var line := FormatLine(key, value);
    assert line == key + ([SP, EQ, SP] + value);
    assert NUL !in line by {
      forall i | 0 <= i < |line| ensures line[i] != NUL {
        if i >= |key| + 3 { assert line[i] == value[i - |key| - 3]; }
      }
    }
    CStrWhole(line);
    assert line[|key| + 1] == EQ;
    FindSepConcat(key, [SP, EQ, SP] + value);
    assert FindSep([SP, EQ, SP] + value) == 0;
    assert line[..|key|] == key && line[|key| + 3..] == value;
  }

  /** A line written as "key = value" for a field's key assigns the value to that field. This
      is how .PKGINFO files are written. */
  lemma ApplyFormatted(p: PkgMeta, f: Field, key: Bytes, value: Bytes)
    requires KeyName(f) == Some(AsString(key)) && NUL !in value
    ensures ApplyLine(p, FormatLine(key, value)) == Some(Assign(p, f, value))
  {
    KeyBytesPlain(key, f);
    SplitFormatted(key, value);
    KeyFieldOf(key, f);
  }

  /** One line of "key=value" with no space around '=': the value loses its first two bytes,
      because line 107 skips two bytes after the separator whatever it was. */
  lemma TightLineLosesTwoBytes(p: PkgMeta)
    ensures ApplyLine(p, [117, 114, 108, EQ, 97, 98, 99]) == Some(p.(url := Some([99])))
  {
    TightLineSplits();
    UrlKey();
    assert Assign(p, Url, [99]) == SetText(p, Url, [99]) == p.(url := Some([99]));
  }

  /** How the line "url=abc" splits. */
  lemma TightLineSplits()
    ensures SplitLine([117, 114, 108, EQ, 97, 98, 99]) == KeyValue([117, 114, 108], [99])
  {
    var line: Bytes := [117, 114, 108, EQ, 97, 98, 99];
    var key: Bytes := [117, 114, 108];
    CStrWhole(line);
    assert line == key + line[3..];
    FindSepConcat(key, line[3..]);
  }

  /** Applying two batches of lines is applying one after the other. */
  lemma {:induction false} ApplyAllConcat(p: PkgMeta, a: seq<Bytes>, b: seq<Bytes>)
    ensures ApplyAll(p, a + b) ==
      match ApplyAll(p, a) case None => None case Some(q) => ApplyAll(q, b)
    decreases |a|
  {
    if a == [] {
      assert a + b == b;
    } else {
      assert (a + b)[0] == a[0] && (a + b)[1..] == a[1..] + b;
      match ApplyLine(p, a[0])
      case None =>
      case Some(q) => ApplyAllConcat(q, a[1..], b);
    }
  }

  /** A field that no line selects keeps its value. */
  lemma {:induction false} Untouched(p: PkgMeta, lines: seq<Bytes>, f: Field)
    requires ApplyAll(p, lines).Some?
    requires forall i :: 0 <= i < |lines| ==> Selects(lines[i]) != Some(f)
    ensures Get(ApplyAll(p, lines).value, f) == Get(p, f)
    decreases |lines|
  {
    if lines != [] {
      var q := ApplyLine(p, lines[0]).value;
      assert Get(q, f) == Get(p, f);
      forall i | 0 <= i < |lines[1..]| ensures Selects(lines[1..][i]) != Some(f) {
        assert lines[1..][i] == lines[i + 1];
      }
      Untouched(q, lines[1..], f);
    }
  }

  /** The lines "key = v" for each of `values`, in order. */
  function Formatted(key: Bytes, values: seq<Bytes>): (ls: seq<Bytes>)
    ensures |ls| == |values|
  {
    if values == [] then [] else [FormatLine(key, values[0])] + Formatted(key, values[1..])
  }

  /** The first of the formatted lines assigns the first value. */
  lemma FormattedStep(p: PkgMeta, f: Field, key: Bytes, values: seq<Bytes>)
    requires KeyName(f) == Some(AsString(key)) && values != [] && NUL !in values[0]
    ensures ApplyAll(p, Formatted(key, values)) ==
      ApplyAll(Assign(p, f, values[0]), Formatted(key, values[1..]))
  {
    ApplyFormatted(p, f, key, values[0]);
    assert Formatted(key, values)[0] == FormatLine(key, values[0]);
    assert Formatted(key, values)[1..] == Formatted(key, values[1..]);
  }

  /** Repeated "key = v" lines for a list key append the values at the tail, in order and
      with duplicates kept; the other fields are left as they were. */
  lemma {:induction false} ListAccumulates(p: PkgMeta, f: Field, key: Bytes, values: seq<Bytes>)
    requires KeyName(f) == Some(AsString(key)) && Get(p, f).List?
    requires forall i :: 0 <= i < |values| ==> NUL !in values[i]
    ensures ApplyAll(p, Formatted(key, values)).Some?
    ensures var q := ApplyAll(p, Formatted(key, values)).value;
      && Get(q, f) == List(Get(p, f).items + values)
      && forall g :: g != f ==> Get(q, g) == Get(p, g)
    decreases |values|
  {
    if values == [] {
      assert Get(p, f).items + values == Get(p, f).items;
    } else {
      var q := Assign(p, f, values[0]);
      FormattedStep(p, f, key, values);
      ListAccumulates(q, f, key, values[1..]);
      AppendHead(Get(p, f).items, values);
    }
  }

  lemma AppendHead(a: seq<Bytes>, vs: seq<Bytes>)
    requires vs != []
    ensures (a + [vs[0]]) + vs[1..] == a + vs
  {
    assert vs == [vs[0]] + vs[1..];
  }

  /** Scalar keys are overwritten: of several "key = v" lines for a string or number field
      the last one decides, and the other fields keep their values. */
  lemma {:induction false} ScalarLastWins(p: PkgMeta, f: Field, key: Bytes, values: seq<Bytes>)
    requires KeyName(f) == Some(AsString(key)) && !Get(p, f).List? && values != []
    requires forall i :: 0 <= i < |values| ==> NUL !in values[i]
    ensures ApplyAll(p, Formatted(key, values)).Some?
    ensures var q := ApplyAll(p, Formatted(key, values)).value;
      && Get(q, f) == Updated(Get(p, f), values[|values| - 1])
      && forall g :: g != f ==> Get(q, g) == Get(p, g)
    decreases |values|
  {
    var q := Assign(p, f, values[0]);
    FormattedStep(p, f, key, values);
    if |values| > 1 {
      var rest := values[1..];
      ScalarLastWins(q, f, key, rest);
      assert rest[|rest| - 1] == values[|values| - 1];
      OverwriteScalar(Get(p, f), values[0], values[|values| - 1]);
    }
  }

  /** A second value written to a string or number field replaces the first. */
  lemma OverwriteScalar(current: FieldValue, first: Bytes, second: Bytes)
    requires !current.List?
    ensures Updated(Updated(current, first), second) == Updated(current, second)
  {
  }

  /** The bytes of the key "size". */
  const SIZE_KEY: Bytes := [115, 105, 122, 101]

  /** "size" sets the installed size through atol; the package size stays as it was. */
  lemma SizeSetsInstalledSize(p: PkgMeta, n: nat)
    ensures ApplyLine(p, FormatLine(SIZE_KEY, Decimal(n))) == Some(p.(isize := n))
  {
    assert AsString(SIZE_KEY) == "size";
    DecimalNoNul(n);
    ApplyFormatted(p, ISize, SIZE_KEY, Decimal(n));
    AtolDecimal(n, []);
    assert Decimal(n) + [] == Decimal(n);
  }

  lemma DecimalNoNul(n: nat)
    ensures NUL !in Decimal(n)
  {
    forall i | 0 <= i < |Decimal(n)| ensures Decimal(n)[i] != NUL {
      assert IsDigit(Decimal(n)[i]);
    }
  }
}
