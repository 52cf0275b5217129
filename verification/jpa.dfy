/** JPAUtils: how an annotated entity class maps to a table name, a row-key
    field and one HBase column per other field. Reflection is replaced by a
    description of the class: its names, its @Table annotation and its
    declared fields in declaration order. */
module Jpa {
  import opened Base
  import opened JavaSplit
  import opened HColumns

  /** A declared field: its name, whether it carries @Id, and the name of its
      @Column annotation (None when absent; an annotation without a name
      attribute carries ""). */
  datatype FieldDecl = FieldDecl(name: string, isId: bool, column: Option<string>)

  /** A class: its full and simple names, the name of its @Table annotation,
      and its declared fields. */
  datatype EntityClass = EntityClass(qualifiedName: string, simpleName: string,
                                     table: Option<string>, fields: seq<FieldDecl>)

  /** The pattern ":" with no surrounding whitespace. */
  const PLAIN_COLON: Separator := Separator(':', false)

  const DEFAULT_FAMILY: string := "cf"

  predicate EndsWithS(s: string) {
    |s| > 0 && s[|s| - 1] == 's'
  }

  /** JPAUtils.getTableName: a non-empty @Table name wins; otherwise the simple
      class name made plural ("Employee" to "Employees", "MyClass" to "MyClasses"). */
  function GetTableName(c: EntityClass): (r: string)
    ensures c.table.Some? && c.table.value != "" ==> r == c.table.value
    ensures c.table.None? || c.table == Some("") ==>
              |r| > |c.simpleName| && r[..|c.simpleName|] == c.simpleName && EndsWithS(r)
    ensures c.table.None? || c.table == Some("") ==>
              r[|c.simpleName|..] == (if EndsWithS(c.simpleName) then "es" else "s")
  {
    if c.table.Some? && c.table.value != "" then c.table.value
    else if EndsWithS(c.simpleName) then c.simpleName + "es"
    else c.simpleName + "s"
  }

  /** The parts of a non-empty @Column name, as `name.split(":")` gives them. */
  function ColumnParts(f: FieldDecl): Option<seq<string>> {
    if f.column.Some? && f.column.value != "" then Some(Split(f.column.value, PLAIN_COLON)) else None
  }

  /** JPAUtils.getColumnName. With two parts the second is the name; otherwise
      the first, and a name made only of colons has no first part, so indexing
      it throws. */
  function GetColumnName(f: FieldDecl): (r: Result<string>)
    ensures ColumnParts(f).None? ==> r == Ok(f.name)
    ensures ColumnParts(f).Some? && |ColumnParts(f).value| == 2 ==> r == Ok(ColumnParts(f).value[1])
    ensures ColumnParts(f).Some? && |ColumnParts(f).value| != 2 ==>
              (r.Ok? <==> |ColumnParts(f).value| > 0) &&
              (r.Ok? ==> r.value == ColumnParts(f).value[0])
  {
    match ColumnParts(f)
    case None => Ok(f.name)
    case Some(parts) =>
      if |parts| == 2 then Ok(parts[1])
      else if |parts| == 0 then Err("ArrayIndexOutOfBoundsException")
      else Ok(parts[0])
  }

  /** JPAUtils.getColumnFamily: the first of exactly two parts, otherwise "cf". */
  function GetColumnFamily(f: FieldDecl): (r: string)
    ensures ColumnParts(f).Some? && |ColumnParts(f).value| == 2 ==> r == ColumnParts(f).value[0]
    ensures !(ColumnParts(f).Some? && |ColumnParts(f).value| == 2) ==> r == DEFAULT_FAMILY
  {
    match ColumnParts(f)
    case Some(parts) => if |parts| == 2 then parts[0] else DEFAULT_FAMILY
    case None => DEFAULT_FAMILY
  }

  /** The column a non-key field is stored in. */
  function ColumnOf(f: FieldDecl): Result<HColumn> {
    match GetColumnName(f)
    case Ok(n) => Ok(NewHColumn(GetColumnFamily(f), n))
    case Err(m) => Err(m)
  }

  /** The loop of getColumns, for any way `col` of computing a field's column:
      every field without @Id is mapped to its column, and the first field whose
      column throws aborts the whole call. */
  function CollectColumns(fields: seq<FieldDecl>, col: FieldDecl -> Result<HColumn>)
    : (r: Result<map<FieldDecl, HColumn>>)
    ensures r.Ok? <==> forall i :: 0 <= i < |fields| && !fields[i].isId ==> col(fields[i]).Ok?
    ensures r.Ok? ==> forall f :: f in r.value <==> f in fields && !f.isId
    ensures r.Ok? ==> forall f :: f in r.value ==> r.value[f] == col(f).value
    decreases |fields|
  {
    if fields == [] then Ok(map[])
    else
      var f := fields[0];
      if !f.isId && col(f).Err? then Err(col(f).message)
      else match CollectColumns(fields[1..], col)
        case Err(m) => Err(m)
        case Ok(rest) => if f.isId then Ok(rest) else Ok(rest[f := col(f).value])
  }

  /** JPAUtils.getColumns. */
  function GetColumns(fields: seq<FieldDecl>): (r: Result<map<FieldDecl, HColumn>>)
    ensures r.Ok? <==> forall i :: 0 <= i < |fields| && !fields[i].isId ==> ColumnOf(fields[i]).Ok?
    ensures r.Ok? ==> forall f :: f in r.value <==> f in fields && !f.isId
    ensures r.Ok? ==> forall f :: f in r.value ==> r.value[f] == ColumnOf(f).value
  {
    CollectColumns(fields, ColumnOf)
  }

  function NoKeyMessage(c: EntityClass): string {
    "Class " + c.qualifiedName + " doesn't have a primary key. "
      + "Please annotate a field with javax.persistence.Id."
  }

  /** Field i is the first at or after `from` that carries @Id. */
  predicate FirstIdAt(fields: seq<FieldDecl>, from: nat, i: int) {
    from <= i < |fields| && fields[i].isId && forall k :: from <= k < i ==> !fields[k].isId
  }

  /** The index of the first field at or after `from` carrying @Id, if any. */
  function FirstId(fields: seq<FieldDecl>, from: nat): (r: Option<nat>)
    requires from <= |fields|
    ensures r.None? <==> forall i :: from <= i < |fields| ==> !fields[i].isId
    ensures r.Some? ==> FirstIdAt(fields, from, r.value)
    decreases |fields| - from
  {
    if from == |fields| then None
    else if fields[from].isId then Some(from)
    else FirstId(fields, from + 1)
  }

  /** JPAUtils.getKeyField: the first field carrying @Id. */
  function GetKeyField(c: EntityClass): (r: Result<FieldDecl>)
    ensures r.Err? <==> forall i :: 0 <= i < |c.fields| ==> !c.fields[i].isId
    ensures r.Err? ==> r.message == NoKeyMessage(c)
    ensures r.Ok? ==> exists i :: FirstIdAt(c.fields, 0, i) && c.fields[i] == r.value
  {
    match FirstId(c.fields, 0)
    case None => Err(NoKeyMessage(c))
    case Some(i) => Ok(c.fields[i])
  }

  // ---------------------------------------------------------------------------
  // Column naming.

  /** getColumnName throws exactly for a @Column name made only of colons. */
  lemma ColumnNameFailsIff(f: FieldDecl)
    ensures GetColumnName(f).Err? <==>
            f.column.Some? && f.column.value != "" && forall k :: 0 <= k < |f.column.value| ==> f.column.value[k] == ':'
  {
    if f.column.Some? && f.column.value != "" {
      SplitEmptyIff(f.column.value, ':');
    }
  }

  predicate Plain(s: string) {
    s != "" && NoChar(s, ':')
  }

  /** @Column(name = "fam:col") puts the field in family fam under name col. */
  lemma QualifiedColumn(f: FieldDecl, family: string, name: string)
    requires Plain(family) && Plain(name)
    requires f.column == Some(family + ":" + name)
    ensures GetColumnFamily(f) == family
    ensures GetColumnName(f) == Ok(name)
    ensures ColumnOf(f) == Ok(NewHColumn(family, name))
  {
    SplitOnce(family, "", "", name, PLAIN_COLON);
    assert family + "" + [':'] + "" + name == family + ":" + name;
  }

  /** @Column(name = "col") without a colon keeps the default family. */
  lemma UnqualifiedColumn(f: FieldDecl, name: string)
    requires Plain(name)
    requires f.column == Some(name)
    ensures GetColumnFamily(f) == DEFAULT_FAMILY
    ensures GetColumnName(f) == Ok(name)
  {
    PiecesNoMatch(name, PLAIN_COLON);
  }

  /** A field without a named @Column is stored as cf:<field name>. */
  lemma DefaultColumn(f: FieldDecl)
    requires f.column.None? || f.column == Some("")
    ensures ColumnOf(f) == Ok(NewHColumn(DEFAULT_FAMILY, f.name))
  {
  }

  // ---------------------------------------------------------------------------
  // The Employee entity of the tests.

  const EMPLOYEE_FIELDS: seq<FieldDecl> := [
    FieldDecl("id", true, None),
    FieldDecl("name", false, Some("")),
    FieldDecl("title", false, None),
    FieldDecl("salary", false, Some("sal")),
    FieldDecl("department", false, Some("ext:dpt"))
  ]

  const EMPLOYEE: EntityClass := EntityClass("me.jaksa.hbase.lite.Employee", "Employee", None, EMPLOYEE_FIELDS)

  lemma NameColumn(f: FieldDecl)
    requires f == FieldDecl("name", false, Some(""))
    ensures ColumnOf(f) == Ok(NewHColumn("cf", "name"))
  {
    DefaultColumn(f);
  }

  lemma TitleColumn(f: FieldDecl)
    requires f == FieldDecl("title", false, None)
    ensures ColumnOf(f) == Ok(NewHColumn("cf", "title"))
  {
    DefaultColumn(f);
  }

  lemma SalaryColumn(f: FieldDecl)
    requires f == FieldDecl("salary", false, Some("sal"))
    ensures ColumnOf(f) == Ok(NewHColumn("cf", "sal"))
  {
    UnqualifiedColumn(f, "sal");
  }

  lemma DepartmentColumn(f: FieldDecl)
    requires f == FieldDecl("department", false, Some("ext:dpt"))
    ensures ColumnOf(f) == Ok(NewHColumn("ext", "dpt"))
  {
    assert "ext" + ":" + "dpt" == "ext:dpt";
    QualifiedColumn(f, "ext", "dpt");
  }

  /** The values of getColumns' map are the columns of the non-key fields. */
  lemma ColumnsValues(fields: seq<FieldDecl>)
    requires GetColumns(fields).Ok?
    ensures GetColumns(fields).value.Values == set f | f in fields && !f.isId :: ColumnOf(f).value
  {
    var m := GetColumns(fields).value;
    forall c | c in m.Values
      ensures c in set f | f in fields && !f.isId :: ColumnOf(f).value
    {
      var f :| f in m && m[f] == c;
    }
  }

  lemma ValuesOfFour<K, W>(m: map<K, W>, k1: K, k2: K, k3: K, k4: K, w1: W, w2: W, w3: W, w4: W)
    requires m.Keys == {k1, k2, k3, k4}
    requires m[k1] == w1 && m[k2] == w2 && m[k3] == w3 && m[k4] == w4
    ensures m.Values == {w1, w2, w3, w4}
  {
    forall w | w in m.Values
      ensures w in {w1, w2, w3, w4}
    {
      var k :| k in m && m[k] == w;
    }
    assert m[k1] in m.Values && m[k2] in m.Values && m[k3] in m.Values && m[k4] in m.Values;
  }

  predicate KeyThenFourShape(fs: seq<FieldDecl>, col: FieldDecl -> Result<HColumn>,
                             c1: HColumn, c2: HColumn, c3: HColumn, c4: HColumn) {
    && |fs| == 5 && fs[0].isId && !fs[1].isId && !fs[2].isId && !fs[3].isId && !fs[4].isId
    && col(fs[1]) == Ok(c1) && col(fs[2]) == Ok(c2) && col(fs[3]) == Ok(c3) && col(fs[4]) == Ok(c4)
  }

  /** A key field followed by four mapped fields gives a map holding exactly their four columns. */
  lemma KeyThenFour(fs: seq<FieldDecl>, col: FieldDecl -> Result<HColumn>,
                    c1: HColumn, c2: HColumn, c3: HColumn, c4: HColumn)
    requires KeyThenFourShape(fs, col, c1, c2, c3, c4)
    ensures CollectColumns(fs, col).Ok?
    ensures CollectColumns(fs, col).value.Values == {c1, c2, c3, c4}
  {
    assert forall i :: 0 <= i < |fs| && !fs[i].isId ==> col(fs[i]).Ok?;
    var m := CollectColumns(fs, col).value;
    forall f | f in m
      ensures f in {fs[1], fs[2], fs[3], fs[4]}
    {
      var i :| 0 <= i < |fs| && fs[i] == f;
    }
    assert fs[1] in m && fs[2] in m && fs[3] in m && fs[4] in m;
    ValuesOfFour(m, fs[1], fs[2], fs[3], fs[4], c1, c2, c3, c4);
  }

  /** Employee's non-key fields go to cf:name, cf:title, cf:sal and ext:dpt. */
  lemma EmployeeColumns(fs: seq<FieldDecl>)
    requires fs == EMPLOYEE_FIELDS
    ensures GetColumns(fs).Ok?
    ensures GetColumns(fs).value.Values
            == {NewHColumn("cf", "name"), NewHColumn("cf", "title"), NewHColumn("cf", "sal"), NewHColumn("ext", "dpt")}
  {
    NameColumn(fs[1]);
    TitleColumn(fs[2]);
    SalaryColumn(fs[3]);
    DepartmentColumn(fs[4]);
    KeyThenFour(fs, ColumnOf, NewHColumn("cf", "name"), NewHColumn("cf", "title"), NewHColumn("cf", "sal"),
                NewHColumn("ext", "dpt"));
  }

  /** Employee's key is its @Id field `id`, and its table is "Employees". */
  lemma EmployeeKeyAndTable()
    ensures GetKeyField(EMPLOYEE) == Ok(FieldDecl("id", true, None))
    ensures GetTableName(EMPLOYEE) == "Employees"
  {
    assert FirstIdAt(EMPLOYEE.fields, 0, 0);
  }

  /** Without a @Table name, the simple name can be read back off the table
      name: two classes whose simple names agree on ending in `s` get the same
      table exactly when their simple names are equal. */
  lemma DefaultTableNameInjective(c: EntityClass, d: EntityClass)
    requires c.table.None? || c.table == Some("")
    requires d.table.None? || d.table == Some("")
    requires EndsWithS(c.simpleName) == EndsWithS(d.simpleName)
    ensures GetTableName(c) == GetTableName(d) <==> c.simpleName == d.simpleName
  {
    var r := GetTableName(c);
    if r == GetTableName(d) {
      var n := |r| - (if EndsWithS(c.simpleName) then 2 else 1);
      assert |c.simpleName| == n == |d.simpleName|;
      assert c.simpleName == r[..n] == d.simpleName;
    }
  }

  /** Across the two endings the plural can collide: "Bus" and "Buse" both map
      to the table "Buses". */
  lemma DefaultTableNameCollision()
    ensures GetTableName(EntityClass("Bus", "Bus", None, [])) == "Buses"
    ensures GetTableName(EntityClass("Buse", "Buse", None, [])) == "Buses"
  {
  }

  lemma TableNameExamples()
    ensures GetTableName(EntityClass("MyClass", "MyClass", None, [])) == "MyClasses"
    ensures GetTableName(EntityClass("MyClass", "MyClass", Some("my-table"), [])) == "my-table"
    ensures GetTableName(EntityClass("Employee", "Employee", Some(""), [])) == "Employees"
  {
  }
}
