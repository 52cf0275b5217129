/** Table: the column-spec parser behind the constructor, and the dispatch that
    picks a byte encoding for a row key by its runtime type. */
module Tables {
  import opened Base
  import opened JavaSplit

  /** Table.Column: a column family and a column name. */
  datatype Column = Column(family: string, name: string)

  /** The patterns "\\s*,\\s*" and "\\s*:\\s*". */
  const COMMA: Separator := Separator(',', true)
  const COLON: Separator := Separator(':', true)

  const NO_COLUMNS: string := "you must specify some columns"

  function NoFamilyMessage(entry: string): string {
    "no valid family name in " + entry
  }

  predicate GoodEntry(entry: string) {
    |Split(entry, COLON)| == 2
  }

  /** Entry i is the first that does not split into family and name. */
  predicate FirstBad(entries: seq<string>, i: int) {
    0 <= i < |entries| && !GoodEntry(entries[i]) && forall k :: 0 <= k < i ==> GoodEntry(entries[k])
  }

  /** The loop of extractColumns over the comma-separated entries: each must
      split into exactly two colon-separated parts; the first that does not
      aborts the parse. */
  function ParseEntries(entries: seq<string>): (r: Result<seq<Column>>)
    ensures r.Ok? <==> forall i :: 0 <= i < |entries| ==> GoodEntry(entries[i])
    ensures r.Ok? ==> |r.value| == |entries|
    ensures r.Ok? ==> forall i :: 0 <= i < |entries| ==>
              r.value[i] == Column(Split(entries[i], COLON)[0], Split(entries[i], COLON)[1])
    ensures r.Err? ==> exists i :: FirstBad(entries, i) && r.message == NoFamilyMessage(entries[i])
    decreases |entries|
  {
    if entries == [] then Ok([])
    else
      var parts := Split(entries[0], COLON);
      if |parts| != 2 then Err(NoFamilyMessage(entries[0]))
      else match ParseEntries(entries[1..])
        case Err(m) => Err(m)
        case Ok(rest) => Ok([Column(parts[0], parts[1])] + rest)
  }

  /** Entries that each split into a family and a name parse to those columns. */
  lemma {:induction false} ParseGood(entries: seq<string>, cols: seq<Column>)
    requires |cols| == |entries|
    requires forall i :: 0 <= i < |entries| ==> Split(entries[i], COLON) == [cols[i].family, cols[i].name]
    ensures ParseEntries(entries) == Ok(cols)
    decreases |entries|
  {
    if entries != [] {
      assert Split(entries[0], COLON) == [cols[0].family, cols[0].name];
      ParseGood(entries[1..], cols[1..]);
      assert [cols[0]] + cols[1..] == cols;
    }
  }

  /** The first entry without a family and a name decides the error. */
  lemma {:induction false} ParseBad(entries: seq<string>, i: nat)
    requires FirstBad(entries, i)
    ensures ParseEntries(entries) == Err(NoFamilyMessage(entries[i]))
    decreases i
  {
    if i > 0 {
      assert GoodEntry(entries[0]);
      assert FirstBad(entries[1..], i - 1);
      ParseBad(entries[1..], i - 1);
    }
  }

  /** Table.extractColumns. `columns` is None when the argument is null. */
  function ExtractColumns(columns: Option<string>): (r: Result<seq<Column>>)
    ensures columns.None? || columns == Some("") ==> r == Err(NO_COLUMNS)
    ensures columns.Some? && columns != Some("") ==> r == ParseEntries(Split(columns.value, COMMA))
  {
    if columns.None? || columns.value == "" then Err(NO_COLUMNS)
    else ParseEntries(Split(columns.value, COMMA))
  }

  /** What the constructor keeps (the converter and the lazily opened HTable are not modelled). */
  datatype Table = Table(name: string, columns: seq<Column>)

  /** The Table constructor: it fails exactly when the column spec does not parse. */
  function NewTable(name: string, columns: Option<string>): (r: Result<Table>)
    ensures r.Ok? <==> ExtractColumns(columns).Ok?
    ensures r.Ok? ==> r.value == Table(name, ExtractColumns(columns).value)
    ensures r.Err? ==> r.message == ExtractColumns(columns).message
  {
    match ExtractColumns(columns)
    case Ok(cols) => Ok(Table(name, cols))
    case Err(m) => Err(m)
  }

  // ---------------------------------------------------------------------------
  // The parser inverts the documented spec format.

  function Entry(c: Column): string {
    c.family + [':'] + c.name
  }

  /** The spec string "fam1:col1,fam1:col2,..." for a list of columns. */
  function Render(cols: seq<Column>): string
    requires |cols| >= 1
  {
    Join(seq(|cols|, i requires 0 <= i < |cols| => Entry(cols[i])), ',')
  }

  /** A family or column name the spec format can carry: non-empty, without
      ',' or ':', and without whitespace at either end. */
  predicate Plain(s: string) {
    s != [] && NoChar(s, ',') && NoChar(s, ':') && Trimmed(s)
  }

  lemma EntryParses(c: Column)
    requires Plain(c.family) && Plain(c.name)
    ensures Split(Entry(c), COLON) == [c.family, c.name]
  {
    var ps := [c.family, c.name];
    assert Join(ps[1..], ':') == c.name;
    assert Join(ps, ':') == Entry(c);
    PiecesOfJoin(ps, COLON);
  }

  /** Parsing the rendered spec gives back the columns, in order. */
  lemma ExtractRender(cols: seq<Column>)
    requires |cols| >= 1
    requires forall i :: 0 <= i < |cols| ==> Plain(cols[i].family) && Plain(cols[i].name)
    ensures ExtractColumns(Some(Render(cols))) == Ok(cols)
  {
    var entries := seq(|cols|, i requires 0 <= i < |cols| => Entry(cols[i]));
    forall i | 0 <= i < |entries|
      ensures NoChar(entries[i], ',') && Trimmed(entries[i])
    {
      assert entries[i] == cols[i].family + [':'] + cols[i].name;
    }
    PiecesOfJoin(entries, COMMA);
    DropKeeps(entries);
    JoinStartsWithFirst(entries, ',');
    assert Render(cols) != "";
    assert Split(Render(cols), COMMA) == entries;
    forall i | 0 <= i < |entries|
      ensures Split(entries[i], COLON) == [cols[i].family, cols[i].name]
    {
      EntryParses(cols[i]);
    }
    ParseGood(entries, cols);
  }

  // ---------------------------------------------------------------------------
  // The spec strings the tests exercise.

  /** A spec made of one separator-free entry splits into that entry. */
  lemma SingleEntry(s: string)
    requires NoChar(s, ',') && s != ""
    ensures Split(s, COMMA) == [s]
  {
    PiecesNoMatch(s, COMMA);
  }

  lemma ExampleEmptySpec()
    ensures ExtractColumns(Some("")) == Err(NO_COLUMNS)
    ensures ExtractColumns(None) == Err(NO_COLUMNS)
  {
  }

  /** "fam:" has a single part once the trailing empty piece is dropped, so it is rejected. */
  lemma ExampleMissingName()
    ensures ExtractColumns(Some("fam:")) == Err(NoFamilyMessage("fam:"))
  {
    SingleEntry("fam:");
    SplitOnce("fam", "", "", "", COLON);
    assert "fam" + "" + [':'] + "" + "" == "fam:";
  }

  /** A bare "," splits into two empty pieces, both dropped: no columns, no error. */
  lemma ExampleLoneComma()
    ensures ExtractColumns(Some(",")) == Ok([])
  {
    SplitOnce("", "", "", "", COMMA);
    assert "" + "" + [','] + "" + "" == ",";
  }

  lemma NoFamilyEntries()
    ensures Split("fam1:col1,col2,fam1:col3", COMMA) == ["fam1:col1", "col2", "fam1:col3"]
  {
    SplitTwice("fam1:col1", "", "", "col2", "", "", "fam1:col3", COMMA);
    assert "fam1:col1" + "" + [','] + "" + "col2" + "" + [','] + "" + "fam1:col3"
        == "fam1:col1,col2,fam1:col3";
  }

  lemma NoFamilyColumns()
    ensures GoodEntry("fam1:col1")
    ensures !GoodEntry("col2")
  {
    SplitOnce("fam1", "", "", "col1", COLON);
    assert "fam1" + "" + [':'] + "" + "col1" == "fam1:col1";
    PiecesNoMatch("col2", COLON);
  }

  lemma NoFamilyParse(entries: seq<string>)
    requires entries == ["fam1:col1", "col2", "fam1:col3"]
    ensures ParseEntries(entries) == Err(NoFamilyMessage("col2"))
  {
    NoFamilyColumns();
    assert FirstBad(entries, 1);
    ParseBad(entries, 1);
  }

  /** "fam1:col1,col2,fam1:col3": the entry "col2" has no family, so the parse fails on it. */
  lemma ExampleNoFamily()
    ensures ExtractColumns(Some("fam1:col1,col2,fam1:col3")) == Err(NoFamilyMessage("col2"))
  {
    NoFamilyEntries();
    NoFamilyParse(["fam1:col1", "col2", "fam1:col3"]);
  }

  lemma SpacedEntries()
    ensures Split("fam1 :col1 , fam1: col2, fam2 : col1", COMMA)
            == ["fam1 :col1", "fam1: col2", "fam2 : col1"]
  {
    SplitTwice("fam1 :col1", " ", " ", "fam1: col2", "", " ", "fam2 : col1", COMMA);
    assert "fam1 :col1" + " " + [','] + " " + "fam1: col2" + "" + [','] + " " + "fam2 : col1"
        == "fam1 :col1 , fam1: col2, fam2 : col1";
  }

  lemma SpacedColumn1()
    ensures Split("fam1 :col1", COLON) == ["fam1", "col1"]
  {
    SplitOnce("fam1", " ", "", "col1", COLON);
    assert "fam1" + " " + [':'] + "" + "col1" == "fam1 :col1";
  }

  lemma SpacedColumn2()
    ensures Split("fam1: col2", COLON) == ["fam1", "col2"]
  {
    SplitOnce("fam1", "", " ", "col2", COLON);
    assert "fam1" + "" + [':'] + " " + "col2" == "fam1: col2";
  }

  lemma SpacedColumn3()
    ensures Split("fam2 : col1", COLON) == ["fam2", "col1"]
  {
    SplitOnce("fam2", " ", " ", "col1", COLON);
    assert "fam2" + " " + [':'] + " " + "col1" == "fam2 : col1";
  }

  lemma SpacedParse(entries: seq<string>, cols: seq<Column>)
    requires entries == ["fam1 :col1", "fam1: col2", "fam2 : col1"]
    requires cols == [Column("fam1", "col1"), Column("fam1", "col2"), Column("fam2", "col1")]
    ensures ParseEntries(entries) == Ok(cols)
  {
    SpacedColumn1();
    SpacedColumn2();
    SpacedColumn3();
    forall i | 0 <= i < |entries|
      ensures Split(entries[i], COLON) == [cols[i].family, cols[i].name]
    {
      if i == 0 {} else if i == 1 {} else {}
    }
    ParseGood(entries, cols);
  }

  /** Whitespace around ',' and ':' is dropped:
      "fam1 :col1 , fam1: col2, fam2 : col1" gives (fam1,col1), (fam1,col2), (fam2,col1). */
  lemma ExampleSpaces()
    ensures ExtractColumns(Some("fam1 :col1 , fam1: col2, fam2 : col1"))
            == Ok([Column("fam1", "col1"), Column("fam1", "col2"), Column("fam2", "col1")])
  {
    SpacedEntries();
    SpacedParse(["fam1 :col1", "fam1: col2", "fam2 : col1"],
                [Column("fam1", "col1"), Column("fam1", "col2"), Column("fam2", "col1")]);
  }

  // ---------------------------------------------------------------------------
  // Key encoding: which Bytes.toBytes overload a key is handed to.

  /** The runtime class of a key, as far as the dispatch can tell them apart. */
  datatype KeyType =
    | StringKey | IntegerKey | BooleanKey | BigDecimalKey | ByteBufferKey
    | DoubleKey | FloatKey | LongKey | ShortKey
    | OtherKey(className: string)

  /** The byte encoders the dispatch can choose. */
  datatype Encoding =
    | StringBytes | IntBytes | BooleanBytes | BigDecimalBytes | ByteBufferBytes
    | DoubleBytes | FloatBytes | LongBytes | ShortBytes

  function UnsupportedMessage(className: string): string {
    "HBase doesn't support keys of type " + className
  }

  /** The key types HBase row keys may have. */
  const SUPPORTED_KEY_TYPES: set<KeyType> :=
    {StringKey, IntegerKey, BooleanKey, BigDecimalKey, ByteBufferKey, DoubleKey, FloatKey, LongKey, ShortKey}

  /** The key type each encoder serves. */
  function Serves(e: Encoding): KeyType {
    match e
    case StringBytes => StringKey
    case IntBytes => IntegerKey
    case BooleanBytes => BooleanKey
    case BigDecimalBytes => BigDecimalKey
    case ByteBufferBytes => ByteBufferKey
    case DoubleBytes => DoubleKey
    case FloatBytes => FloatKey
    case LongBytes => LongKey
    case ShortBytes => ShortKey
  }

  /** Table.toBytes. A null key (None) fails too: building the message
      dereferences it. */
  function ToBytes(key: Option<KeyType>): (r: Result<Encoding>)
    ensures r.Ok? <==> key.Some? && key.value in SUPPORTED_KEY_TYPES
    ensures r.Ok? ==> Serves(r.value) == key.value
    ensures key.Some? && key.value.OtherKey? ==> r == Err(UnsupportedMessage(key.value.className))
  {
    match key
    case None => Err("NullPointerException")
    case Some(t) =>
      match t
      case StringKey => Ok(StringBytes)
      case IntegerKey => Ok(IntBytes)
      case BooleanKey => Ok(BooleanBytes)
      case BigDecimalKey => Ok(BigDecimalBytes)
      case ByteBufferKey => Ok(ByteBufferBytes)
      case DoubleKey => Ok(DoubleBytes)
      case FloatKey => Ok(FloatBytes)
      case LongKey => Ok(LongBytes)
      case ShortKey => Ok(ShortBytes)
      case OtherKey(cn) => Err(UnsupportedMessage(cn))
  }
}
