/**
 * The SQLite schema generator of the back end: struct metadata (a datatype
 * standing for Go reflection) is turned into table descriptions, CREATE
 * TABLE / CREATE INDEX text, the schema comparison that decides whether a
 * migration is needed, the columns a migration copies, and the numbering
 * of migration files.
 */
module Schema {
  import opened Wrappers
  import Text

  // ---------------------------------------------------------------- struct metadata

  /** The kinds of Go field types the type mapping distinguishes. */
  datatype GoType =
    | Bool
    | Int(signed: bool, bits: nat)   // bits 0: the platform `int` / `uint`
    | Float(bits: nat)
    | Str
    | Time                           // time.Time
    | Struct(name: string)           // any other struct
    | Slice(elem: GoType)
    | Other                          // maps, pointers, interfaces, ...

  /** A struct field: its name, type, whether it is exported, and its `db` and `index` tags ("" when absent). */
  datatype Field = Field(name: string, goType: GoType, exported: bool, dbTag: string, indexTag: string)

  datatype StructType = StructType(name: string, fields: seq<Field>)

  datatype Column = Column(
    name: string, sqlType: string, primaryKey: bool, notNull: bool, unique: bool,
    default: string, references: string)

  datatype Index = Index(name: string, columns: seq<string>, unique: bool)

  datatype Table = Table(name: string, columns: seq<Column>, indexes: seq<Index>, compositeKey: seq<string>)

  const NoColumn := Column("", "", false, false, false, "", "")

  // ---------------------------------------------------------------- type mapping

  /** mapGoTypeToSQLite: total, and always one of six SQLite type names. */
  function SqliteType(t: GoType): (r: string)
    ensures r in {"BOOLEAN", "INTEGER", "REAL", "TEXT", "TIMESTAMP", "BLOB"}
    ensures r == "INTEGER" <==> t.Int?
    ensures r == "BLOB" <==> t == Slice(Int(false, 8))
    ensures r == "TIMESTAMP" <==> t == Time
  {
    match t
    case Bool => "BOOLEAN"
    case Int(_, _) => "INTEGER"
    case Float(_) => "REAL"
    case Str => "TEXT"
    case Time => "TIMESTAMP"
    case Struct(_) => "TEXT"
    case Slice(elem) => if elem == Int(false, 8) then "BLOB" else "TEXT"
    case Other => "TEXT"
  }

  // ---------------------------------------------------------------- names

  /** camelToSnake before lowering: `_` in front of every upper-case letter except the first character. */
  function Underscored(s: string): string
  {
    if s == [] then []
    else
      var c := s[|s| - 1];
      Underscored(s[..|s| - 1]) + (if |s| > 1 && Text.IsUpper(c) then "_" else "") + [c]
  }

  /**
   * camelToSnake: the snake-case name has no upper-case letter, and a name without one is
   * already its own snake case.
   */
  function SnakeCase(s: string): (r: string)
    ensures NoUpper(r)
    ensures NoUpper(s) ==> r == s
  {
    Text.ToLowerHasNoUpper(Underscored(s));
    if NoUpper(s) then
      UnderscoredNoUpper(s);
      assert forall i :: 0 <= i < |s| ==> Text.ToLower(s)[i] == s[i];
      Text.ToLower(Underscored(s))
    else Text.ToLower(Underscored(s))
  }

  predicate NoUpper(s: string)
  {
    forall i :: 0 <= i < |s| ==> !Text.IsUpper(s[i])
  }

  /** camelToSnake: the string builder loop, then lower-casing. */
  method CamelToSnake(s: string) returns (r: string)
    ensures r == SnakeCase(s)
  {
    var out := "";
    var i := 0;
    while i < |s|
      invariant 0 <= i <= |s|
      invariant out == Underscored(s[..i])
    {
      if i > 0 && Text.IsUpper(s[i]) {
        out := out + "_";
      }
      out := out + [s[i]];
      assert s[..i + 1][..i] == s[..i];
      i := i + 1;
    }
    assert s[..|s|] == s;
    r := Text.ToLower(out);
  }

  /** Nothing is inserted into a string without upper-case letters. */
  lemma {:induction false} UnderscoredNoUpper(s: string)
    requires NoUpper(s)
    ensures Underscored(s) == s
  {
    if s != [] {
      UnderscoredNoUpper(s[..|s| - 1]);
      assert s[..|s| - 1] + [s[|s| - 1]] == s;
    }
  }

  /** The table name: the snake-case struct name with an `s` added unless it already ends in one. */
  function Pluralize(name: string): (r: string)
    ensures Text.EndsWith(r, "s")
    ensures Text.EndsWith(name, "s") ==> r == name
    ensures !Text.EndsWith(name, "s") ==> r == name + "s"
  {
    if Text.EndsWith(name, "s") then name else name + "s"
  }

  lemma PluralizeIdempotent(name: string)
    ensures Pluralize(Pluralize(name)) == Pluralize(name)
  {
  }

  // ---------------------------------------------------------------- column tags

  /** One option of a `db` tag after the column name. */
  function WithOption(col: Column, part: string): Column
  {
    if part == "pk" then col.(primaryKey := true)
    else if part == "notnull" then col.(notNull := true)
    else if part == "unique" then col.(unique := true)
    else if Text.StartsWith(part, "default=") then col.(default := part[8..])
    else if Text.StartsWith(part, "references=") then col.(references := part[11..])
    else col
  }

  /** The options of a `db` tag applied in order. */
  function WithOptions(col: Column, parts: seq<string>): Column
  {
    if parts == [] then col else WithOption(WithOptions(col, parts[..|parts| - 1]), parts[|parts| - 1])
  }

  /** The option flags are set exactly when the tag names them; the name and type are untouched. */
  lemma {:induction false} WithOptionsFlags(col: Column, parts: seq<string>)
    ensures WithOptions(col, parts).name == col.name && WithOptions(col, parts).sqlType == col.sqlType
    ensures WithOptions(col, parts).primaryKey <==> col.primaryKey || "pk" in parts
    ensures WithOptions(col, parts).notNull <==> col.notNull || "notnull" in parts
    ensures WithOptions(col, parts).unique <==> col.unique || "unique" in parts
  {
    if parts != [] {
      var init, last := parts[..|parts| - 1], parts[|parts| - 1];
      WithOptionsFlags(col, init);
      WithOptionFlags(WithOptions(col, init), last);
      assert parts == init + [last];
      assert forall x :: x in parts <==> x in init || x == last;
    }
  }

  /** One option sets the flag it names and leaves the name and type alone. */
  lemma WithOptionFlags(col: Column, part: string)
    ensures WithOption(col, part).name == col.name && WithOption(col, part).sqlType == col.sqlType
    ensures WithOption(col, part).primaryKey <==> col.primaryKey || part == "pk"
    ensures WithOption(col, part).notNull <==> col.notNull || part == "notnull"
    ensures WithOption(col, part).unique <==> col.unique || part == "unique"
  {
    assert |"pk"| != |"notnull"| && |"pk"| != |"unique"| && |"notnull"| != |"unique"|;
  }

  /** `default=` takes the last value given, and without one the default is untouched. */
  lemma {:induction false} WithOptionsDefault(col: Column, parts: seq<string>)
    ensures (forall k :: 0 <= k < |parts| ==> !Text.StartsWith(parts[k], "default=")) ==>
              WithOptions(col, parts).default == col.default
    ensures parts != [] && Text.StartsWith(parts[|parts| - 1], "default=") ==>
              WithOptions(col, parts).default == parts[|parts| - 1][8..]
  {
    if parts != [] {
      var init, last := parts[..|parts| - 1], parts[|parts| - 1];
      WithOptionsDefault(col, init);
      assert forall k :: 0 <= k < |init| ==> init[k] == parts[k];
    }
  }

  /**
   * extractColumnInfoFromField. A `db:"-"` field gives a nameless column; otherwise the tag's
   * first part names the column (a tagless field takes the snake-case field name) and the
   * type comes from the type mapping; the options set the flags (`ColumnOfFlags`).
   */
  function ColumnOf(f: Field): (c: Column)
    ensures f.dbTag == "-" ==> c.name == ""
    ensures f.dbTag == "" ==> c.name == SnakeCase(f.name) && !c.primaryKey && !c.notNull && !c.unique
    ensures f.dbTag != "-" && f.dbTag != "" ==> c.name == Text.Split(f.dbTag, ',')[0] && ',' !in c.name
    ensures f.dbTag != "-" ==> c.sqlType == SqliteType(f.goType)
  {
    if f.dbTag == "-" then NoColumn
    else if f.dbTag != "" then
      var parts := Text.Split(f.dbTag, ',');
      WithOptionsFlags(NoColumn.(name := parts[0], sqlType := SqliteType(f.goType)), parts[1..]);
      WithOptions(NoColumn.(name := parts[0], sqlType := SqliteType(f.goType)), parts[1..])
    else NoColumn.(name := SnakeCase(f.name), sqlType := SqliteType(f.goType))
  }

  /** extractColumnInfoFromField: the option loop over the tag's parts after the first. */
  method ExtractColumn(f: Field) returns (col: Column)
    ensures col == ColumnOf(f)
  {
    if f.dbTag == "-" {
      return NoColumn;
    }
    if f.dbTag != "" {
      var parts := Text.Split(f.dbTag, ',');
      var opts := parts[1..];
      col := NoColumn.(name := parts[0], sqlType := SqliteType(f.goType));
      ghost var base := col;
      var i := 0;
      while i < |opts|
        invariant 0 <= i <= |opts|
        invariant col == WithOptions(base, opts[..i])
      {
        var part := opts[i];
        if part == "pk" {
          col := col.(primaryKey := true);
        } else if part == "notnull" {
          col := col.(notNull := true);
        } else if part == "unique" {
          col := col.(unique := true);
        } else if Text.StartsWith(part, "default=") {
          col := col.(default := part[8..]);
        } else if Text.StartsWith(part, "references=") {
          col := col.(references := part[11..]);
        }
        assert opts[..i + 1][..i] == opts[..i];
        i := i + 1;
      }
      assert opts[..|opts|] == opts;
    } else {
      var name := CamelToSnake(f.name);
      col := NoColumn.(name := name, sqlType := SqliteType(f.goType));
    }
  }

  /** A tagged field's flags: PRIMARY KEY, NOT NULL and UNIQUE come from the tag's options. */
  lemma ColumnOfFlags(f: Field)
    requires f.dbTag != "-" && f.dbTag != ""
    ensures ColumnOf(f).primaryKey <==> "pk" in Text.Split(f.dbTag, ',')[1..]
    ensures ColumnOf(f).notNull <==> "notnull" in Text.Split(f.dbTag, ',')[1..]
    ensures ColumnOf(f).unique <==> "unique" in Text.Split(f.dbTag, ',')[1..]
  {
    var parts := Text.Split(f.dbTag, ',');
    WithOptionsFlags(NoColumn.(name := parts[0], sqlType := SqliteType(f.goType)), parts[1..]);
  }

  // ---------------------------------------------------------------- composite keys

  predicate IsKeyPart(part: string)
  {
    Text.StartsWith(part, "pk(") && Text.EndsWith(part, ")")
  }

  lemma KeyPartLength(part: string)
    requires IsKeyPart(part)
    ensures |part| >= 4
  {
    assert part[2] == '(' && part[|part| - 1] == ')';
  }

  /** The column list of a `pk(...)` part. */
  function KeyColumns(part: string): seq<string>
    requires IsKeyPart(part)
  {
    KeyPartLength(part);
    Text.Split(part[3..|part| - 1], ',')
  }

  /** The composite key after the tag parts `parts`, as written: the last `pk(...)` part wins. */
  function KeyFromParts(parts: seq<string>, key: seq<string>): (r: seq<string>)
    ensures (forall k :: 0 <= k < |parts| ==> !IsKeyPart(parts[k])) ==> r == key
  {
    if parts == [] then key
    else
      var last := parts[|parts| - 1];
      if IsKeyPart(last) then KeyColumns(last)
      else
        assert forall k :: 0 <= k < |parts| - 1 ==> parts[..|parts| - 1][k] == parts[k];
        KeyFromParts(parts[..|parts| - 1], key)
  }

  /** The scanned key is the old one or the columns of one of the parts that reads `pk(...)`. */
  lemma {:induction false} KeyFromPartsSource(parts: seq<string>, key: seq<string>)
    ensures var r := KeyFromParts(parts, key);
      r == key || exists k :: 0 <= k < |parts| && IsKeyPart(parts[k]) && r == KeyColumns(parts[k])
  {
    if parts != [] && !IsKeyPart(parts[|parts| - 1]) {
      var init := parts[..|parts| - 1];
      KeyFromPartsSource(init, key);
      if KeyFromParts(init, key) != key {
        var k :| 0 <= k < |init| && IsKeyPart(init[k]) && KeyFromParts(init, key) == KeyColumns(init[k]);
        assert parts[k] == init[k];
      }
    }
  }

  /**
   * The composite-key scan of one `db` tag: the tag is split on every comma first, and the
   * key changes only to the columns of a comma-free piece that reads `pk(...)`.
   */
  function KeyFromTag(tag: string, key: seq<string>): (r: seq<string>)
    ensures (forall p :: p in Text.Split(tag, ',') ==> !IsKeyPart(p)) ==> r == key
  {
    if tag == "" then key else KeyFromParts(Text.Split(tag, ','), key)
  }

  /**
   * The key read from a tag is the old one or the columns of a comma-free piece of it that
   * reads `pk(...)`.
   */
  lemma KeyFromTagSource(tag: string, key: seq<string>)
    ensures var r := KeyFromTag(tag, key);
      r == key || exists p :: p in Text.Split(tag, ',') && ',' !in p && IsKeyPart(p) && r == KeyColumns(p)
  {
    if tag != "" {
      var parts := Text.Split(tag, ',');
      KeyFromPartsSource(parts, key);
      if KeyFromTag(tag, key) != key {
        var k :| 0 <= k < |parts| && IsKeyPart(parts[k]) && KeyFromTag(tag, key) == KeyColumns(parts[k]);
        assert parts[k] in parts;
      }
    }
  }

  /** The first pass of extractTableInfoFromStruct over the first `n` fields. */
  function KeyFromFields(fields: seq<Field>, n: nat): seq<string>
    requires n <= |fields|
  {
    if n == 0 then [] else KeyFromTag(fields[n - 1].dbTag, KeyFromFields(fields, n - 1))
  }

  /** The inner loop of the first pass over one tag's parts. */
  method ScanKeyTag(tag: string, key: seq<string>) returns (r: seq<string>)
    ensures r == KeyFromTag(tag, key)
  {
    r := key;
    if tag != "" {
      var parts := Text.Split(tag, ',');
      var i := 0;
      while i < |parts|
        invariant 0 <= i <= |parts|
        invariant r == KeyFromParts(parts[..i], key)
      {
        var part := parts[i];
        if Text.StartsWith(part, "pk(") && Text.EndsWith(part, ")") {
          KeyPartLength(part);
          r := Text.Split(part[3..|part| - 1], ',');
        }
        assert parts[..i + 1][..i] == parts[..i];
        i := i + 1;
      }
      assert parts[..|parts|] == parts;
    }
  }

  /**
   * As written, a key of two or more columns is never found: `pk(a,b)` is
   * split at its own comma into `pk(a` and `b)`, neither of which is a
   * `pk(...)` part, so the key stays as it was.
   */
  lemma CompositeKeyLost(a: string, b: string, key: seq<string>)
    requires ',' !in a && ',' !in b && ')' !in a && !Text.StartsWith(b, "pk(")
    ensures KeyFromTag("pk(" + a + "," + b + ")", key) == key
  {
    var first, second := "pk(" + a, b + ")";
    assert "pk(" + a + "," + b + ")" == first + [','] + second;
    Text.SplitCons(first, ',', second);
    assert ',' !in second;
    var parts := Text.Split("pk(" + a + "," + b + ")", ',');
    assert parts == [first, second];
    assert !Text.StartsWith(second, "pk(") by {
      if |b| >= 3 {
        assert second[..3] == b[..3];
      } else if |second| >= 3 {
        assert second[2] == ')';
      }
    }
    assert !Text.EndsWith(first, ")") by {
      assert first[|first| - 1] == if a == [] then '(' else a[|a| - 1];
    }
    assert parts[..1] == [first];
    assert [first][..0] == [];
    assert KeyFromParts([first], key) == key;
  }

  /**
   * The key scan as evidently intended: from the first part that opens
   * `pk(`, the tag is read up to the closing `)` before splitting.
   */
  function KeyFromTagFixed(tag: string, key: seq<string>): (r: seq<string>)
    ensures (forall k :: 0 <= k < |Text.Split(tag, ',')| ==> !Text.StartsWith(Text.Split(tag, ',')[k], "pk(")) ==> r == key
    ensures r == key || (|r| >= 1 && forall c :: c in r ==> ',' !in c)
  {
    var from := FromFirstOpen(Text.Split(tag, ','));
    if from == [] then key
    else
      var rest := Text.Join(from, ',')[3..];
      if ')' in rest then Text.Split(rest[..Text.IndexOf(rest, ')')], ',') else key
  }

  /** The parts from the first one that opens `pk(`, or none. */
  function FromFirstOpen(parts: seq<string>): (r: seq<string>)
    ensures r != [] ==> Text.StartsWith(r[0], "pk(")
    ensures parts != [] && Text.StartsWith(parts[0], "pk(") ==> r == parts
    ensures (forall k :: 0 <= k < |parts| ==> !Text.StartsWith(parts[k], "pk(")) ==> r == []
  {
    if parts == [] then []
    else if Text.StartsWith(parts[0], "pk(") then parts
    else FromFirstOpen(parts[1..])
  }

  /** Splitting keeps a prefix without separators on the first part. */
  lemma SplitKeepsPrefix(s: string, p: string, sep: char)
    requires Text.StartsWith(s, p) && sep !in p
    ensures Text.StartsWith(Text.Split(s, sep)[0], p)
  {
    if sep in s {
      var i := Text.IndexOf(s, sep);
      assert forall j :: 0 <= j < |p| ==> s[j] == p[j] && s[j] != sep;
      assert i >= |p|;
      assert Text.Split(s, sep)[0] == s[..i];
      assert s[..i][..|p|] == p;
    }
  }

  /** The text after `pk(` is read up to the first `)`, which closes a body without one. */
  lemma CloseAfterBody(body: string)
    requires ')' !in body
    ensures ')' in body + ")"
    ensures (body + ")")[..Text.IndexOf(body + ")", ')')] == body
  {
    var rest := body + ")";
    assert rest[|body|] == ')';
    assert rest[..|body|] == body;
  }

  /** A tag that begins with `pk(` is read from its start. */
  lemma OpensAtStart(tag: string, body: string)
    requires tag == "pk(" + body + ")"
    ensures FromFirstOpen(Text.Split(tag, ',')) == Text.Split(tag, ',')
  {
    assert tag[..3] == "pk(";
    SplitKeepsPrefix(tag, "pk(", ',');
  }

  /** The corrected scan reads the body of `pk(<body>)` when the body has no `)`. */
  lemma KeyFromBody(body: string, key: seq<string>)
    requires ')' !in body
    ensures KeyFromTagFixed("pk(" + body + ")", key) == Text.Split(body, ',')
  {
    var tag := "pk(" + body + ")";
    var parts := Text.Split(tag, ',');
    OpensAtStart(tag, body);
    Text.JoinSplit(tag, ',');
    var rest := Text.Join(FromFirstOpen(parts), ',')[3..];
    assert rest == body + ")";
    CloseAfterBody(body);
  }

  /** The corrected scan reads back every column of a `pk(...)` tag. */
  lemma KeyFromTagFixedReadsKey(cols: seq<string>, key: seq<string>)
    requires |cols| >= 1
    requires forall k :: 0 <= k < |cols| ==> ',' !in cols[k] && ')' !in cols[k]
    ensures KeyFromTagFixed("pk(" + Text.Join(cols, ',') + ")", key) == cols
  {
    JoinNoClose(cols);
    KeyFromBody(Text.Join(cols, ','), key);
    Text.SplitJoin(cols, ',');
  }

  /** A join of parts without `)` has no `)`. */
  lemma {:induction false} JoinNoClose(cols: seq<string>)
    requires forall k :: 0 <= k < |cols| ==> ')' !in cols[k]
    ensures ')' !in Text.Join(cols, ',')
  {
    if |cols| > 1 {
      JoinNoClose(cols[1..]);
    }
  }

  // ---------------------------------------------------------------- indexes

  /** The options of an `index` tag applied in order: `unique`, and `name=` overriding the name. */
  function IndexOptions(parts: seq<string>, name: string, unique: bool): (string, bool)
  {
    if parts == [] then (name, unique)
    else
      var (n, u) := IndexOptions(parts[..|parts| - 1], name, unique);
      var part := parts[|parts| - 1];
      if part == "unique" then (n, true)
      else if Text.StartsWith(part, "name=") then (part[5..], u)
      else (n, u)
  }

  lemma {:induction false} IndexOptionsUnique(parts: seq<string>, name: string, unique: bool)
    ensures IndexOptions(parts, name, unique).1 <==> unique || "unique" in parts
    ensures (forall k :: 0 <= k < |parts| ==> !Text.StartsWith(parts[k], "name=")) ==>
              IndexOptions(parts, name, unique).0 == name
  {
    if parts != [] {
      IndexOptionsUnique(parts[..|parts| - 1], name, unique);
      assert parts == parts[..|parts| - 1] + [parts[|parts| - 1]];
    }
  }

  /** The index an `index` tag asks for on column `col` of table `table`. */
  function IndexFor(tag: string, table: string, col: string): Index
  {
    var (name, unique) := IndexOptions(Text.Split(tag, ','), "idx_" + table + "_" + col, false);
    Index(name, [col], unique)
  }

  /** The option loop of the index tag. */
  method ParseIndexTag(tag: string, table: string, col: string) returns (idx: Index)
    ensures idx == IndexFor(tag, table, col)
  {
    var parts := Text.Split(tag, ',');
    var name := "idx_" + table + "_" + col;
    var unique := false;
    var i := 0;
    while i < |parts|
      invariant 0 <= i <= |parts|
      invariant (name, unique) == IndexOptions(parts[..i], "idx_" + table + "_" + col, false)
    {
      if parts[i] == "unique" {
        unique := true;
      } else if Text.StartsWith(parts[i], "name=") {
        name := parts[i][5..];
      }
      assert parts[..i + 1][..i] == parts[..i];
      i := i + 1;
    }
    assert parts[..|parts|] == parts;
    idx := Index(name, [col], unique);
  }

  // ---------------------------------------------------------------- tables

  /** A field's column, with the primary-key flag cleared when the column is part of the composite key. */
  function KeyedColumn(f: Field, key: seq<string>): Column
  {
    var c := ColumnOf(f);
    if c.name in key then c.(primaryKey := false) else c
  }

  /** The column a field contributes: one for an exported field whose column has a name. */
  function FieldColumns(f: Field, key: seq<string>): seq<Column>
  {
    if f.exported && ColumnOf(f).name != "" then [KeyedColumn(f, key)] else []
  }

  /** The index a field contributes: one for an exported field with an `index` tag. */
  function FieldIndexes(f: Field, table: string): (r: seq<Index>)
    ensures |r| == (if f.exported && f.indexTag != "" then 1 else 0)
    ensures forall x :: x in r ==> |x.columns| == 1
  {
    if f.exported && f.indexTag != "" then [IndexFor(f.indexTag, table, ColumnOf(f).name)] else []
  }

  /** The columns of the first `n` fields: exported fields whose column has a name. */
  function ColumnsOf(fields: seq<Field>, n: nat, key: seq<string>): seq<Column>
    requires n <= |fields|
  {
    if n == 0 then []
    else
      var f := fields[n - 1];
      ColumnsOf(fields, n - 1, key) + FieldColumns(f, key)
  }

  /** The indexes of the first `n` fields: one per exported field with an `index` tag. */
  function IndexesOf(fields: seq<Field>, n: nat, table: string): seq<Index>
    requires n <= |fields|
  {
    if n == 0 then []
    else
      var f := fields[n - 1];
      IndexesOf(fields, n - 1, table) + FieldIndexes(f, table)
  }

  /** shouldIgnoreStruct: a `db` field tagged "-", only "-"-tagged exported fields, or an embedding-only name. */
  predicate Ignored(s: StructType)
  {
    DbFieldIgnored(s.fields)
    || ((exists k :: 0 <= k < |s.fields| && s.fields[k].exported)
        && (forall k :: 0 <= k < |s.fields| && s.fields[k].exported ==> s.fields[k].dbTag == "-"))
    || s.name in {"PostUserData", "UserData", "EmbeddedData"}
  }

  /** Whether the first field named `db` carries the tag "-" (FieldByName). */
  predicate DbFieldIgnored(fields: seq<Field>)
  {
    if fields == [] then false
    else if fields[0].name == "db" then fields[0].dbTag == "-"
    else DbFieldIgnored(fields[1..])
  }

  /** extractTableInfoFromStruct. */
  function TableOf(s: StructType): (r: Result<Table>)
    ensures r.Err? <==> Ignored(s)
    ensures r.Ok? ==> r.value.name == Pluralize(SnakeCase(s.name)) && Text.EndsWith(r.value.name, "s")
  {
    if Ignored(s) then Err("skipping non-DB struct: " + s.name)
    else
      var name := Pluralize(SnakeCase(s.name));
      var key := KeyFromFields(s.fields, |s.fields|);
      Ok(Table(name, ColumnsOf(s.fields, |s.fields|, key), IndexesOf(s.fields, |s.fields|, name), key))
  }

  /** shouldIgnoreStruct, with its scan of the exported fields that stops at the first one not tagged "-". */
  method ShouldIgnore(s: StructType) returns (ignore: bool)
    ensures ignore == Ignored(s)
  {
    var i := 0;
    while i < |s.fields| && s.fields[i].name != "db"
      invariant 0 <= i <= |s.fields|
      invariant DbFieldIgnored(s.fields) == DbFieldIgnored(s.fields[i..])
      invariant forall k :: 0 <= k < i ==> s.fields[k].name != "db"
    {
      assert s.fields[i..][1..] == s.fields[i + 1..];
      i := i + 1;
    }
    if i < |s.fields| && s.fields[i].dbTag == "-" {
      return true;
    }
    var allIgnored := true;
    var hasFields := false;
    var j := 0;
    while j < |s.fields|
      invariant 0 <= j <= |s.fields|
      invariant hasFields <==> exists k :: 0 <= k < j && s.fields[k].exported
      invariant allIgnored <==> forall k :: 0 <= k < j && s.fields[k].exported ==> s.fields[k].dbTag == "-"
      invariant !allIgnored ==> hasFields
    {
      if s.fields[j].exported {
        hasFields := true;
        if s.fields[j].dbTag != "-" {
          allIgnored := false;
          break;
        }
      }
      j := j + 1;
    }
    if hasFields && allIgnored {
      return true;
    }
    ignore := s.name == "PostUserData" || s.name == "UserData" || s.name == "EmbeddedData";
  }

  /** The first pass of extractTableInfoFromStruct: the composite key. */
  method ScanKeys(fields: seq<Field>) returns (key: seq<string>)
    ensures key == KeyFromFields(fields, |fields|)
  {
    key := [];
    var i := 0;
    while i < |fields|
      invariant 0 <= i <= |fields|
      invariant key == KeyFromFields(fields, i)
    {
      key := ScanKeyTag(fields[i].dbTag, key);
      i := i + 1;
    }
  }

  /** The second pass of extractTableInfoFromStruct: columns and indexes. */
  method CollectColumns(fields: seq<Field>, table: string, key: seq<string>)
    returns (columns: seq<Column>, indexes: seq<Index>)
    ensures columns == ColumnsOf(fields, |fields|, key)
    ensures indexes == IndexesOf(fields, |fields|, table)
  {
    columns, indexes := [], [];
    var i := 0;
    while i < |fields|
      invariant 0 <= i <= |fields|
      invariant columns == ColumnsOf(fields, i, key)
      invariant indexes == IndexesOf(fields, i, table)
    {
      var cols, idxs := CollectField(fields[i], table, key);
      ColumnsStep(fields, i, key);
      IndexesStep(fields, i, table);
      columns, indexes := columns + cols, indexes + idxs;
      i := i + 1;
    }
  }

  /** One iteration of the second pass: the field's column and index, when it has them. */
  method CollectField(f: Field, table: string, key: seq<string>) returns (cols: seq<Column>, idxs: seq<Index>)
    ensures cols == FieldColumns(f, key)
    ensures idxs == FieldIndexes(f, table)
  {
    cols, idxs := [], [];
    if f.exported {
      var col := ExtractColumn(f);
      if col.name != "" {
        if col.name in key {
          col := col.(primaryKey := false);
        }
        cols := [col];
      }
      if f.indexTag != "" {
        var idx := ParseIndexTag(f.indexTag, table, col.name);
        idxs := [idx];
      }
    }
  }

  /** extractTableInfoFromStruct. */
  method ExtractTable(s: StructType) returns (r: Result<Table>)
    ensures r == TableOf(s)
  {
    var ignore := ShouldIgnore(s);
    if ignore {
      return Err("skipping non-DB struct: " + s.name);
    }
    var snake := CamelToSnake(s.name);
    var name := if Text.EndsWith(snake, "s") then snake else snake + "s";
    var key := ScanKeys(s.fields);
    var columns, indexes := CollectColumns(s.fields, name, key);
    r := Ok(Table(name, columns, indexes, key));
  }

  /** The columns of one more field are that field's column appended to the ones before. */
  lemma ColumnsStep(fields: seq<Field>, i: nat, key: seq<string>)
    requires i < |fields|
    ensures ColumnsOf(fields, i + 1, key) == ColumnsOf(fields, i, key) + FieldColumns(fields[i], key)
  {
  }

  /** The indexes of one more field are that field's index appended to the ones before. */
  lemma IndexesStep(fields: seq<Field>, i: nat, table: string)
    requires i < |fields|
    ensures IndexesOf(fields, i + 1, table) == IndexesOf(fields, i, table) + FieldIndexes(fields[i], table)
  {
  }

  /** Every column has a name, and no column of the composite key is marked as a primary key on its own. */
  lemma {:induction false} ColumnsOfSpec(fields: seq<Field>, n: nat, key: seq<string>)
    requires n <= |fields|
    ensures forall c :: c in ColumnsOf(fields, n, key) ==> c.name != "" && (c.name in key ==> !c.primaryKey)
  {
    if n > 0 {
      ColumnsOfSpec(fields, n - 1, key);
      ColumnsStep(fields, n - 1, key);
    }
  }

  /** Every exported field whose column has a name contributes its column. */
  lemma {:induction false} ColumnsOfComplete(fields: seq<Field>, n: nat, key: seq<string>)
    requires n <= |fields|
    ensures forall k :: 0 <= k < n && fields[k].exported && ColumnOf(fields[k]).name != "" ==>
              KeyedColumn(fields[k], key) in ColumnsOf(fields, n, key)
  {
    if n > 0 {
      ColumnsOfComplete(fields, n - 1, key);
      var prev := ColumnsOf(fields, n - 1, key);
      var extra := FieldColumns(fields[n - 1], key);
      ColumnsStep(fields, n - 1, key);
      forall k | 0 <= k < n && fields[k].exported && ColumnOf(fields[k]).name != ""
        ensures KeyedColumn(fields[k], key) in prev + extra
      {
        if k < n - 1 {
          assert KeyedColumn(fields[k], key) in prev;
        }
      }
    }
  }

  /** The positions among the first `n` fields of the exported fields with an `index` tag. */
  function IndexedFields(fields: seq<Field>, n: nat): set<nat>
  {
    set k: nat | k < n && k < |fields| && fields[k].exported && fields[k].indexTag != ""
  }

  lemma IndexedFieldsStep(fields: seq<Field>, n: nat)
    requires 0 < n <= |fields|
    ensures var f := fields[n - 1];
      IndexedFields(fields, n) ==
      IndexedFields(fields, n - 1) + (if f.exported && f.indexTag != "" then {n - 1} else {})
    ensures n - 1 !in IndexedFields(fields, n - 1)
  {
  }

  /** One index per exported field with an `index` tag. */
  lemma {:induction false} IndexesOfCount(fields: seq<Field>, n: nat, table: string)
    requires n <= |fields|
    ensures |IndexesOf(fields, n, table)| == |IndexedFields(fields, n)|
  {
    if n > 0 {
      IndexesOfCount(fields, n - 1, table);
      IndexedFieldsStep(fields, n);
      IndexesStep(fields, n - 1, table);
    }
  }

  /** Every index a struct's fields ask for is on a single column. */
  lemma {:induction false} IndexesOfSingleColumn(fields: seq<Field>, n: nat, table: string)
    requires n <= |fields|
    ensures forall x :: x in IndexesOf(fields, n, table) ==> |x.columns| == 1
  {
    if n > 0 {
      IndexesOfSingleColumn(fields, n - 1, table);
      IndexesStep(fields, n - 1, table);
      var prev := IndexesOf(fields, n - 1, table);
      var extra := FieldIndexes(fields[n - 1], table);
      assert forall x :: x in prev + extra ==> x in prev || x in extra;
    }
  }

  /** What a table description derived from a struct guarantees. */
  lemma TableOfSpec(s: StructType)
    requires TableOf(s).Ok?
    ensures forall c :: c in TableOf(s).value.columns ==> c.name != ""
    ensures forall c :: c in TableOf(s).value.columns && c.name in TableOf(s).value.compositeKey ==> !c.primaryKey
    ensures forall k :: 0 <= k < |s.fields| && s.fields[k].exported && ColumnOf(s.fields[k]).name != "" ==>
              KeyedColumn(s.fields[k], TableOf(s).value.compositeKey) in TableOf(s).value.columns
    ensures |TableOf(s).value.indexes| == |IndexedFields(s.fields, |s.fields|)|
    ensures forall x :: x in TableOf(s).value.indexes ==> |x.columns| == 1
  {
    var key := KeyFromFields(s.fields, |s.fields|);
    ColumnsOfSpec(s.fields, |s.fields|, key);
    ColumnsOfComplete(s.fields, |s.fields|, key);
    IndexesOfCount(s.fields, |s.fields|, Pluralize(SnakeCase(s.name)));
    IndexesOfSingleColumn(s.fields, |s.fields|, Pluralize(SnakeCase(s.name)));
  }

  // ---------------------------------------------------------------- CREATE TABLE text

  /** Concatenation of a list of strings. */
  function Concat(parts: seq<string>): string
  {
    if parts == [] then "" else Concat(parts[..|parts| - 1]) + parts[|parts| - 1]
  }

  /** strings.Join with a string separator, built from the end. */
  function JoinWith(parts: seq<string>, sep: string): string
  {
    if |parts| == 0 then ""
    else if |parts| == 1 then parts[0]
    else JoinWith(parts[..|parts| - 1], sep) + sep + parts[|parts| - 1]
  }

  /** The constraint clauses of a column definition, in the order they are written. */
  function Constraints(col: Column): seq<string>
  {
    (if col.primaryKey then
       [if Text.ToUpper(col.sqlType) == "INTEGER" then " PRIMARY KEY AUTOINCREMENT" else " PRIMARY KEY"]
     else [])
    + (if col.notNull then [" NOT NULL"] else [])
    + (if col.unique then [" UNIQUE"] else [])
    + (if col.default != "" then [" DEFAULT " + col.default] else [])
    + (if col.references != "" then [" REFERENCES " + col.references] else [])
  }

  /** `AUTOINCREMENT` is written exactly for primary-key columns whose type is INTEGER in any case. */
  lemma AutoincrementExactly(col: Column)
    ensures " PRIMARY KEY AUTOINCREMENT" in Constraints(col) <==>
            col.primaryKey && Text.ToUpper(col.sqlType) == "INTEGER"
    ensures " PRIMARY KEY" in Constraints(col) <==>
            col.primaryKey && Text.ToUpper(col.sqlType) != "INTEGER"
  {
    var d := " DEFAULT " + col.default;
    var f := " REFERENCES " + col.references;
    assert d[1] == 'D' && f[1] == 'R';
    assert " PRIMARY KEY AUTOINCREMENT"[1] == 'P' && " PRIMARY KEY"[1] == 'P';
    assert " PRIMARY KEY" != " PRIMARY KEY AUTOINCREMENT";
  }

  function ColumnDef(col: Column): string
  {
    "    " + col.name + " " + col.sqlType + Concat(Constraints(col))
  }

  function ColumnDefs(cols: seq<Column>): (r: seq<string>)
    ensures |r| == |cols| && forall k :: 0 <= k < |cols| ==> r[k] == ColumnDef(cols[k])
  {
    seq(|cols|, k requires 0 <= k < |cols| => ColumnDef(cols[k]))
  }

  function KeyClause(key: seq<string>): string
  {
    if |key| > 0 then ",\n    PRIMARY KEY (" + JoinWith(key, ", ") + ")" else ""
  }

  function IndexLine(idx: Index, table: string): string
  {
    "CREATE " + (if idx.unique then "UNIQUE " else "") + "INDEX IF NOT EXISTS " + idx.name +
    " ON " + table + "(" + JoinWith(idx.columns, ", ") + ");\n"
  }

  function IndexLines(t: Table): (r: seq<string>)
    ensures |r| == |t.indexes|
    ensures forall k :: 0 <= k < |r| ==> Text.StartsWith(r[k], "CREATE ") && Text.EndsWith(r[k], ";\n")
  {
    seq(|t.indexes|, k requires 0 <= k < |t.indexes| => IndexLine(t.indexes[k], t.name))
  }

  /**
   * generateCreateTableSQL: the CREATE TABLE statement with the column
   * definitions separated by ",\n" and the composite key clause, then one
   * CREATE INDEX line per index.
   */
  function CreateTableSQL(t: Table): (r: string)
    ensures Text.StartsWith(r, "CREATE TABLE IF NOT EXISTS " + t.name + " (\n")
    ensures t.indexes == [] ==> Text.EndsWith(r, "\n);\n\n")
    ensures t.indexes != [] ==> Text.EndsWith(r, ";\n")
  {
    var head := "CREATE TABLE IF NOT EXISTS " + t.name + " (\n";
    var table := head + (JoinWith(ColumnDefs(t.columns), ",\n") + KeyClause(t.compositeKey) + "\n);\n\n");
    var lines := IndexLines(t);
    AppendedStarts(head, JoinWith(ColumnDefs(t.columns), ",\n") + KeyClause(t.compositeKey) + "\n);\n\n");
    AppendedStarts(table, Concat(lines));
    if lines == [] then
      AppendedEnds(head + JoinWith(ColumnDefs(t.columns), ",\n") + KeyClause(t.compositeKey), "\n);\n\n");
      table
    else
      ConcatEnds(lines, ";\n");
      AppendedEnds(table, Concat(lines));
      table + Concat(lines)
  }

  /** A string starts with whatever it is built from first. */
  lemma AppendedStarts(a: string, b: string)
    ensures Text.StartsWith(a + b, a)
  {
    assert (a + b)[..|a|] == a;
  }

  /** A string ends with whatever it is built from last. */
  lemma AppendedEnds(a: string, b: string)
    ensures Text.EndsWith(a + b, b)
  {
    assert (a + b)[|a + b| - |b|..] == b;
  }

  /** A concatenation ends as its last part does. */
  lemma ConcatEnds(parts: seq<string>, suffix: string)
    requires parts != [] && Text.EndsWith(parts[|parts| - 1], suffix)
    ensures Text.EndsWith(Concat(parts), suffix)
  {
    var last := parts[|parts| - 1];
    var init := Concat(parts[..|parts| - 1]);
    assert Concat(parts) == init + last;
    SuffixCarries(init, last, suffix);
  }

  /** A suffix of the last piece is a suffix of the whole. */
  lemma SuffixCarries(a: string, b: string, suffix: string)
    requires Text.EndsWith(b, suffix)
    ensures Text.EndsWith(a + b, suffix)
  {
    var n := |a + b| - |suffix|;
    assert n == |a| + (|b| - |suffix|);
    assert (a + b)[n..] == b[|b| - |suffix|..];
  }

  /** The column loop of generateCreateTableSQL. */
  method WriteColumns(cols: seq<Column>) returns (body: string)
    ensures body == JoinWith(ColumnDefs(cols), ",\n")
  {
    body := "";
    var i := 0;
    while i < |cols|
      invariant 0 <= i <= |cols|
      invariant body == JoinWith(ColumnDefs(cols)[..i], ",\n")
    {
      if i > 0 {
        body := body + ",\n";
      }
      var def := ColumnDef(cols[i]);
      body := body + def;
      assert ColumnDefs(cols)[..i + 1] == ColumnDefs(cols)[..i] + [def];
      i := i + 1;
    }
    assert ColumnDefs(cols)[..|cols|] == ColumnDefs(cols);
  }

  /** The composite key clause of generateCreateTableSQL. */
  method WriteKeyClause(key: seq<string>) returns (clause: string)
    ensures clause == KeyClause(key)
  {
    clause := "";
    if |key| > 0 {
      var j := 0;
      while j < |key|
        invariant 0 <= j <= |key|
        invariant clause == JoinWith(key[..j], ", ")
      {
        if j > 0 {
          clause := clause + ", ";
        }
        clause := clause + key[j];
        assert key[..j + 1] == key[..j] + [key[j]];
        j := j + 1;
      }
      assert key[..|key|] == key;
      clause := ",\n    PRIMARY KEY (" + clause + ")";
    }
  }

  /** The index loop of generateCreateTableSQL. */
  method WriteIndexes(t: Table) returns (lines: string)
    ensures lines == Concat(IndexLines(t))
  {
    lines := "";
    var k := 0;
    while k < |t.indexes|
      invariant 0 <= k <= |t.indexes|
      invariant lines == Concat(IndexLines(t)[..k])
    {
      var idx := t.indexes[k];
      var uniqueStr := if idx.unique then "UNIQUE " else "";
      lines := lines + ("CREATE " + uniqueStr + "INDEX IF NOT EXISTS " + idx.name + " ON " + t.name +
                        "(" + JoinWith(idx.columns, ", ") + ");\n");
      assert IndexLines(t)[..k + 1] == IndexLines(t)[..k] + [IndexLines(t)[k]];
      k := k + 1;
    }
    assert IndexLines(t)[..|t.indexes|] == IndexLines(t);
  }

  /** generateCreateTableSQL. */
  method GenerateCreateTable(t: Table) returns (sql: string)
    ensures sql == CreateTableSQL(t)
  {
    var body := WriteColumns(t.columns);
    var keys := WriteKeyClause(t.compositeKey);
    var lines := WriteIndexes(t);
    sql := "CREATE TABLE IF NOT EXISTS " + t.name + " (\n" + body + keys + "\n);\n\n" + lines;
  }

  // ---------------------------------------------------------------- schema comparison

  /** The name lookup schemasEqual builds: a later column with the same name replaces an earlier one. */
  function ByName(cols: seq<Column>): map<string, Column>
  {
    if cols == [] then map[]
    else ByName(cols[..|cols| - 1])[cols[|cols| - 1].name := cols[|cols| - 1]]
  }

  predicate SameColumn(current: Column, target: Column)
  {
    current.sqlType == target.sqlType && current.notNull == target.notNull && current.primaryKey == target.primaryKey
  }

  /**
   * schemasEqual: the same number of columns, every new column found by name
   * with the same type, NOT NULL and primary-key flags, and the same number
   * of indexes.  Unique, default, references and the indexes' contents are
   * not compared.
   */
  predicate SameSchema(current: Table, target: Table)
  {
    var cur := ByName(current.columns);
    |current.columns| == |target.columns|
    && (forall k :: 0 <= k < |target.columns| ==>
          target.columns[k].name in cur && SameColumn(cur[target.columns[k].name], target.columns[k]))
    && |current.indexes| == |target.indexes|
  }

  method SchemasEqual(current: Table, target: Table) returns (eq: bool)
    ensures eq <==> SameSchema(current, target)
  {
    if |current.columns| != |target.columns| {
      return false;
    }
    var cur: map<string, Column> := map[];
    var i := 0;
    while i < |current.columns|
      invariant 0 <= i <= |current.columns|
      invariant cur == ByName(current.columns[..i])
    {
      cur := cur[current.columns[i].name := current.columns[i]];
      assert current.columns[..i + 1][..i] == current.columns[..i];
      i := i + 1;
    }
    assert current.columns[..|current.columns|] == current.columns;
    var j := 0;
    while j < |target.columns|
      invariant 0 <= j <= |target.columns|
      invariant forall k :: 0 <= k < j ==> target.columns[k].name in cur && SameColumn(cur[target.columns[k].name], target.columns[k])
    {
      var nc := target.columns[j];
      if nc.name !in cur {
        return false;
      }
      var cc := cur[nc.name];
      if cc.sqlType != nc.sqlType || cc.notNull != nc.notNull || cc.primaryKey != nc.primaryKey {
        return false;
      }
      j := j + 1;
    }
    eq := |current.indexes| == |target.indexes|;
  }

  predicate DistinctNames(cols: seq<Column>)
  {
    forall i, j :: 0 <= i < j < |cols| ==> cols[i].name != cols[j].name
  }

  /** With distinct names the lookup finds each column itself. */
  lemma {:induction false} ByNameFinds(cols: seq<Column>)
    requires DistinctNames(cols)
    ensures forall k :: 0 <= k < |cols| ==> cols[k].name in ByName(cols) && ByName(cols)[cols[k].name] == cols[k]
  {
    if cols != [] {
      var init := cols[..|cols| - 1];
      ByNameFinds(init);
      assert forall k :: 0 <= k < |init| ==> init[k] == cols[k];
    }
  }

  /** A table with distinct column names compares equal to itself. */
  lemma SameSchemaReflexive(t: Table)
    requires DistinctNames(t.columns)
    ensures SameSchema(t, t)
  {
    ByNameFinds(t.columns);
  }

  /** Two columns sharing a name make a table differ from itself when their types differ. */
  lemma SameSchemaDuplicateName(a: Column, b: Column)
    requires a.name == b.name && a.sqlType != b.sqlType
    ensures !SameSchema(Table("t", [a, b], [], []), Table("t", [a, b], [], []))
  {
    assert [a, b][..1] == [a];
    assert [a][..0] == [];
    assert ByName([a]) == map[a.name := a];
    assert ByName([a, b]) == map[a.name := b];
  }

  // ---------------------------------------------------------------- migrations

  predicate HasName(cols: seq<Column>, name: string)
  {
    exists k :: 0 <= k < |cols| && cols[k].name == name
  }

  /** The columns a migration copies: the new schema's columns also named in the current one, in new-schema order. */
  function CommonColumns(target: seq<Column>, current: seq<Column>): (r: seq<string>)
    ensures |r| <= |target|
    ensures forall x :: x in r ==> HasName(target, x) && HasName(current, x)
  {
    if target == [] then []
    else
      var c := target[|target| - 1];
      HasNameSnoc(target);
      CommonColumns(target[..|target| - 1], current) + (if HasName(current, c.name) then [c.name] else [])
  }

  /** A name is in a column list exactly when it is in all but the last column or is the last one's. */
  lemma HasNameSnoc(target: seq<Column>)
    requires target != []
    ensures forall x :: HasName(target, x) <==> HasName(target[..|target| - 1], x) || target[|target| - 1].name == x
  {
    var init := target[..|target| - 1];
    forall x
      ensures HasName(target, x) <==> HasName(init, x) || target[|target| - 1].name == x
    {
      if HasName(init, x) {
        var k :| 0 <= k < |init| && init[k].name == x;
        assert target[k] == init[k];
      }
      if HasName(target, x) && target[|target| - 1].name != x {
        var k :| 0 <= k < |target| && target[k].name == x;
        assert init[k] == target[k];
      }
    }
  }

  lemma {:induction false} CommonColumnsSpec(target: seq<Column>, current: seq<Column>)
    ensures forall x :: HasName(target, x) && HasName(current, x) ==> x in CommonColumns(target, current)
  {
    if target != [] {
      CommonColumnsSpec(target[..|target| - 1], current);
      HasNameSnoc(target);
    }
  }

  /** The nested loop of createSchemaMigration that collects the common columns. */
  method FindCommonColumns(target: seq<Column>, current: seq<Column>) returns (common: seq<string>)
    ensures common == CommonColumns(target, current)
  {
    common := [];
    var i := 0;
    while i < |target|
      invariant 0 <= i <= |target|
      invariant common == CommonColumns(target[..i], current)
    {
      var j := 0;
      var found := false;
      while j < |current|
        invariant 0 <= j <= |current|
        invariant !found ==> forall k :: 0 <= k < j ==> current[k].name != target[i].name
        invariant found ==> HasName(current, target[i].name)
      {
        if target[i].name == current[j].name {
          found := true;
          break;
        }
        j := j + 1;
      }
      if found {
        common := common + [target[i].name];
      }
      assert target[..i + 1][..i] == target[..i];
      i := i + 1;
    }
    assert target[..|target|] == target;
  }

  /** A directory entry of the migrations folder. */
  datatype DirEntry = DirEntry(name: string, isDir: bool)

  /** The outcome of reading the migrations folder. */
  datatype Listing = Missing | Unreadable | Files(entries: seq<DirEntry>)

  /** The number of leading decimal digits of `s`. */
  function DigitRun(s: string): (n: nat)
    ensures n <= |s|
  {
    if s != [] && Text.IsDigit(s[0]) then 1 + DigitRun(s[1..]) else 0
  }

  /** The leading digit run holds only digits and stops at the first non-digit. */
  lemma {:induction false} DigitRunDigits(s: string)
    ensures forall i :: 0 <= i < DigitRun(s) ==> Text.IsDigit(s[i])
    ensures DigitRun(s) < |s| ==> !Text.IsDigit(s[DigitRun(s)])
  {
    if s != [] && Text.IsDigit(s[0]) {
      DigitRunDigits(s[1..]);
    }
  }

  /** The characters Go's scanner treats as white space (`unicode.IsSpace` for its table). */
  predicate IsGoSpace(c: char)
  {
    c == '\t' || c == '\n' || c == '\U{000B}' || c == '\U{000C}' || c == '\r' || c == ' ' ||
    c == '\U{0085}' || c == '\U{00A0}' || c == '\U{1680}' || ('\U{2000}' <= c <= '\U{200A}') ||
    c == '\U{2028}' || c == '\U{2029}' || c == '\U{202F}' || c == '\U{205F}' || c == '\U{3000}'
  }

  /**
   * `fmt.Sscanf(name, "%d_", &seq)` on a 64-bit `int`: leading white space other than a
   * newline is skipped (a newline in the input must be matched by one in the format), then
   * the number is read by `ScanNumber`. Any failure is an error.
   */
  function ScanSequence(name: string): (r: Option<int>)
    ensures r.Some? ==> Text.MinInt64 <= r.value <= Text.MaxInt64
    decreases |name|
  {
    if name != [] && IsGoSpace(name[0]) && name[0] != '\n' then ScanSequence(name[1..])
    else ScanNumber(name)
  }

  /**
   * The `%d_` part of the scan: an optional sign and at least one decimal digit, parsed as a
   * 64-bit integer (out of range is an error), then a `_`; whatever follows is not looked at.
   */
  function ScanNumber(s: string): (r: Option<int>)
    ensures r.Some? ==> Text.MinInt64 <= r.value <= Text.MaxInt64
  {
    var sign := if |s| > 0 && (s[0] == '+' || s[0] == '-') then 1 else 0;
    var n := DigitRun(s[sign..]);
    if n == 0 || sign + n >= |s| || s[sign + n] != '_' then None
    else
      DigitRunDigits(s[sign..]);
      assert forall i :: 0 <= i < n ==> s[sign..sign + n][i] == s[sign..][i];
      var v: int := Text.DecimalValue(s[sign..sign + n]);
      var x := if sign == 1 && s[0] == '-' then -v else v;
      if Text.MinInt64 <= x <= Text.MaxInt64 then Some(x) else None
  }

  /** Whether an entry counts towards the sequence: a file whose name is long enough and scans. */
  predicate Numbered(e: DirEntry)
  {
    !e.isDir && |e.name| >= 6 && ScanSequence(e.name).Some?
  }

  /** The largest sequence number among the entries, or 0. */
  function MaxSequence(entries: seq<DirEntry>): (m: int)
    ensures 0 <= m <= Text.MaxInt64
  {
    if entries == [] then 0
    else
      var m := MaxSequence(entries[..|entries| - 1]);
      var e := entries[|entries| - 1];
      if Numbered(e) && ScanSequence(e.name).value > m then ScanSequence(e.name).value else m
  }

  /** `x + 1` on a 64-bit `int`: the largest value wraps around to the smallest. */
  function Successor64(x: int): (y: int)
    requires Text.MinInt64 <= x <= Text.MaxInt64
    ensures Text.MinInt64 <= y <= Text.MaxInt64
    ensures x < Text.MaxInt64 ==> y == x + 1
    ensures x == Text.MaxInt64 ==> y == Text.MinInt64
  {
    if x == Text.MaxInt64 then Text.MinInt64 else x + 1
  }

  /**
   * getNextMigrationSequence: one more than the largest number found (with the 64-bit
   * wrap-around of `maxSeq + 1`), 1 for a missing folder.
   */
  method NextMigrationSequence(listing: Listing) returns (r: Result<int>)
    ensures listing.Missing? ==> r == Ok(1)
    ensures listing.Unreadable? ==> r.Err?
    ensures listing.Files? ==> r == Ok(Successor64(MaxSequence(listing.entries)))
  {
    match listing {
      case Missing => return Ok(1);
      case Unreadable => return Err("failed to read migrations directory");
      case Files(entries) =>
        var maxSeq := 0;
        var i := 0;
        while i < |entries|
          invariant 0 <= i <= |entries|
          invariant maxSeq == MaxSequence(entries[..i])
        {
          var e := entries[i];
          if !e.isDir && |e.name| >= 6 {
            var scanned := ScanSequence(e.name);
            if scanned.Some? && scanned.value > maxSeq {
              maxSeq := scanned.value;
            }
          }
          assert entries[..i + 1][..i] == entries[..i];
          i := i + 1;
        }
        assert entries[..|entries|] == entries;
        return Ok(Successor64(maxSeq));
    }
  }

  /** The next number exceeds every number already in the folder. */
  lemma {:induction false} MaxSequenceBound(entries: seq<DirEntry>)
    ensures forall k :: 0 <= k < |entries| && Numbered(entries[k]) ==>
              ScanSequence(entries[k].name).value <= MaxSequence(entries)
  {
    if entries != [] {
      var init := entries[..|entries| - 1];
      MaxSequenceBound(init);
      assert forall k :: 0 <= k < |init| ==> entries[k] == init[k];
    }
  }

  /**
   * `fmt.Sprintf("%06d_update_%s_schema.up.sql", seq, table)` and its `.down.sql` twin, for a
   * sequence that is not negative. A name written for a 64-bit sequence counts towards the
   * next sequence and scans back to it.
   */
  function MigrationFileName(sequence: nat, table: string, up: bool): (name: string)
    ensures Text.EndsWith(name, ".sql")
    ensures sequence <= Text.MaxInt64 ==> Numbered(DirEntry(name, false)) && ScanSequence(name) == Some(sequence)
  {
    var digits := Text.ZeroPad(sequence, 6);
    var rest := "update_" + table + "_schema" + (if up then ".up.sql" else ".down.sql");
    var name := digits + "_" + rest;
    assert Text.EndsWith(name, ".sql") by {
      var suffix := if up then ".up.sql" else ".down.sql";
      assert name[|name| - 4..] == suffix[|suffix| - 4..];
    }
    if sequence <= Text.MaxInt64 then
      ScanDigits(digits, rest);
      name
    else name
  }

  /** The leading digit run of digits followed by `_` is exactly those digits. */
  lemma DigitRunBeforeUnderscore(digits: string, rest: string)
    requires forall i :: 0 <= i < |digits| ==> Text.IsDigit(digits[i])
    ensures DigitRun(digits + "_" + rest) == |digits|
    decreases |digits|
  {
    if digits != [] {
      assert (digits + "_" + rest)[1..] == digits[1..] + "_" + rest;
      DigitRunBeforeUnderscore(digits[1..], rest);
    }
  }

  /** A run of digits with a 64-bit value, followed by `_`, scans to that value. */
  lemma ScanDigits(digits: string, rest: string)
    requires |digits| >= 1 && forall i :: 0 <= i < |digits| ==> Text.IsDigit(digits[i])
    requires Text.DecimalValue(digits) <= Text.MaxInt64
    ensures ScanSequence(digits + "_" + rest) == Some(Text.DecimalValue(digits))
  {
    var name := digits + "_" + rest;
    assert name[0] == digits[0];
    DigitRunBeforeUnderscore(digits, rest);
    assert name[0..] == name;
    assert name[..|digits|] == digits;
  }

  /** A newline in front of the number makes the scan fail. */
  lemma ScanRejectsNewline(name: string)
    ensures ScanSequence("\n" + name).None?
  {
    var s := "\n" + name;
    assert s[0] == '\n';
  }

  /** `" 7_update.sql"` counts as number 7. */
  lemma ScanLeadingBlankExample()
    ensures ScanSequence(" 7_update.sql") == Some(7)
  {
    var seven, rest := "7", "update.sql";
    assert " 7_update.sql" == [' '] + (seven + "_" + rest);
    assert (" 7_update.sql")[1..] == seven + "_" + rest;
    assert seven[..0] == [];
    assert Text.DecimalValue(seven) == 7;
    ScanDigits(seven, rest);
  }

  /** A run of digits past the 64-bit range, followed by `_`, is a scan error. */
  lemma ScanOutOfRange(digits: string, rest: string)
    requires |digits| >= 1 && forall i :: 0 <= i < |digits| ==> Text.IsDigit(digits[i])
    requires Text.DecimalValue(digits) > Text.MaxInt64
    ensures ScanSequence(digits + "_" + rest).None?
  {
    var name := digits + "_" + rest;
    assert name[0] == digits[0];
    DigitRunBeforeUnderscore(digits, rest);
    assert name[0..] == name;
    assert name[..|digits|] == digits;
  }

  /** `"99999999999999999999_x.sql"` is a scan error, not a huge sequence. */
  lemma ScanOutOfRangeExample()
    ensures ScanSequence("99999999999999999999_x.sql").None?
  {
    var digits, rest := Nines(20), "x.sql";
    assert "99999999999999999999_x.sql" == digits + "_" + rest;
    NinesValue(20);
    Pow10Bound(20);
    ScanOutOfRange(digits, rest);
  }

  /** Powers of ten multiply by adding exponents. */
  lemma {:induction false} Pow10Add(a: nat, b: nat)
    ensures Pow10(a + b) == Pow10(a) * Pow10(b)
  {
    if b > 0 {
      Pow10Add(a, b - 1);
      calc {
        Pow10(a + b);
        10 * Pow10(a + b - 1);
        10 * (Pow10(a) * Pow10(b - 1));
        Pow10(a) * (10 * Pow10(b - 1));
      }
    }
  }

  /** From the 19th power on, powers of ten exceed the 64-bit range by more than one. */
  lemma {:induction false} Pow10Bound(k: nat)
    requires k >= 19
    ensures Pow10(k) - 1 > Text.MaxInt64
  {
    if k == 19 {
      Pow10Add(10, 9);
      assert Pow10(10) == 10_000_000_000 && Pow10(9) == 1_000_000_000;
    } else {
      Pow10Bound(k - 1);
    }
  }

  /** `k` nines. */
  function Nines(k: nat): (s: string)
    ensures |s| == k && forall i :: 0 <= i < k ==> s[i] == '9'
  {
    if k == 0 then [] else Nines(k - 1) + "9"
  }

  function Pow10(k: nat): (p: nat)
    ensures p >= 1
  {
    if k == 0 then 1 else 10 * Pow10(k - 1)
  }

  /** `k` nines are one less than the `k`-th power of ten. */
  lemma {:induction false} NinesValue(k: nat)
    ensures Text.DecimalValue(Nines(k)) == Pow10(k) - 1
  {
    if k >= 1 {
      assert Nines(k)[..k - 1] == Nines(k - 1);
      NinesValue(k - 1);
    }
  }

  /** After the migration files numbered `next` are written, the next number is one higher. */
  lemma NextAfterWrite(entries: seq<DirEntry>, table: string)
    requires MaxSequence(entries) < Text.MaxInt64
    ensures MaxSequence(entries + [DirEntry(MigrationFileName(MaxSequence(entries) + 1, table, true), false)]) ==
            MaxSequence(entries) + 1
  {
    var n := MaxSequence(entries) + 1;
    MaxSequenceSnoc(entries, DirEntry(MigrationFileName(n, table, true), false));
  }

  /** Adding an entry raises the maximum to its number when that number is larger. */
  lemma MaxSequenceSnoc(entries: seq<DirEntry>, e: DirEntry)
    ensures Numbered(e) && ScanSequence(e.name).value > MaxSequence(entries) ==>
              MaxSequence(entries + [e]) == ScanSequence(e.name).value
    ensures !Numbered(e) ==> MaxSequence(entries + [e]) == MaxSequence(entries)
  {
    var all := entries + [e];
    assert all[..|all| - 1] == entries && all[|all| - 1] == e;
  }
}
