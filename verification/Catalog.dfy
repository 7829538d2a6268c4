/** Turning the database's catalog into a schema object: each allowed table is added after
    its parents, so every foreign-key column that is kept finds the parent table and column
    it refers to; and exactly when all of them are kept. */
module Catalog {
  import opened R = Rebuild
  import opened S = Schema
  import opened SchemaObjects

  datatype ColumnRow = ColumnRow(name: string, dbType: DbType, primaryKey: bool, unique: bool)

  datatype Link = Link(parentColumn: string, childColumn: string)

  /** What the queries answer: all tables, the parents of each, the column pairs that link a
      parent and a child, columns in ordinal order, nullable columns, and the unique
      constraints over several columns. */
  datatype Catalog = Catalog(
    tables: seq<string>, parents: map<string, seq<string>>, links: map<(string, string), seq<Link>>,
    columns: map<string, seq<ColumnRow>>, nullable: set<ColumnRef>, uniques: map<string, seq<seq<string>>>)

  predicate HasRow(rows: seq<ColumnRow>, name: string) {
    exists i :: 0 <= i < |rows| && rows[i].name == name
  }

  predicate DistinctRows(rows: seq<ColumnRow>) {
    forall i, j :: 0 <= i < j < |rows| ==> rows[i].name != rows[j].name
  }

  /** The rows that link a parent and a child. */
  function Links(c: Catalog, parent: string, child: string): seq<Link> {
    if (parent, child) in c.links then c.links[(parent, child)] else []
  }

  predicate Linked(c: Catalog, parent: string, child: string) { Links(c, parent, child) != [] }

  /** GetParentChildForeignKeyColumns: the first of the pairs, whatever else there is. */
  function FirstLink(c: Catalog, parent: string, child: string): (l: Link)
    requires Linked(c, parent, child)
    ensures l in Links(c, parent, child)
  {
    Links(c, parent, child)[0]
  }

  /** What a database guarantees of its own catalog. */
  ghost predicate WellFormed(c: Catalog) {
    && NoRepeats(c.tables)
    && (forall t :: t in c.tables ==> t in c.parents && t in c.columns && t in c.uniques)
    && (forall t :: t in c.tables ==> DistinctRows(c.columns[t]) && [] !in c.uniques[t])
    && (forall t, p :: t in c.tables && p in c.parents[t] ==> p in c.tables && Linked(c, p, t))
    && (forall t, p, l :: t in c.tables && p in c.parents[t] && l in Links(c, p, t) ==>
          HasRow(c.columns[p], l.parentColumn) && HasRow(c.columns[t], l.childColumn))
  }

  // ---- which tables ----

  function Filter(tables: seq<string>, allowed: seq<string>): (kept: seq<string>)
    ensures forall t :: t in kept <==> t in tables && t in allowed
    ensures NoRepeats(tables) ==> NoRepeats(kept)
  {
    if tables == [] then []
    else
      var rest := Filter(tables[1..], allowed);
      if tables[0] in allowed then [tables[0]] + rest else rest
  }

  function RootTables(c: Catalog, tables: seq<string>): (roots: seq<string>)
    requires forall t :: t in tables ==> t in c.parents
    ensures forall t :: t in roots <==> t in tables && c.parents[t] == []
    ensures NoRepeats(tables) ==> NoRepeats(roots)
  {
    if tables == [] then []
    else
      var rest := RootTables(c, tables[1..]);
      if c.parents[tables[0]] == [] then [tables[0]] + rest else rest
  }

  function ChildTables(c: Catalog, tables: seq<string>): (children: seq<TableInfo>)
    requires forall t :: t in tables ==> t in c.parents
    ensures forall t :: t in children <==> t.name in tables && t.parents == c.parents[t.name] != []
    ensures NoRepeats(tables) ==> DistinctInfos(children)
  {
    if tables == [] then []
    else
      var rest := ChildTables(c, tables[1..]);
      if c.parents[tables[0]] != [] then [TableInfo(tables[0], c.parents[tables[0]])] + rest else rest
  }

  // ---- one table ----

  /** The column-to-parent table over a list of parents. */
  function ForeignKeys(c: Catalog, name: string, parents: seq<string>): (keys: map<string, ColumnRef>)
    requires forall p :: p in parents ==> Linked(c, p, name)
    ensures forall column :: column in keys ==>
      && keys[column].table in parents
      && FirstLink(c, keys[column].table, name) == Link(keys[column].column, column)
    ensures forall p :: p in parents ==> FirstLink(c, p, name).childColumn in keys
  {
    if parents == [] then map[]
    else
      var last := parents[|parents| - 1];
      var keys := ForeignKeys(c, name, parents[..|parents| - 1]);
      var link := FirstLink(c, last, name);
      if link.childColumn in keys then keys else keys[link.childColumn := ColumnRef(last, link.parentColumn)]
  }

  /** When two parents are linked from the same column, the one listed first wins. */
  lemma {:induction false} FirstLinkWins(c: Catalog, name: string, parents: seq<string>, i: nat)
    requires (forall p :: p in parents ==> Linked(c, p, name)) && i < |parents|
    requires forall j :: 0 <= j < i ==> FirstLink(c, parents[j], name).childColumn != FirstLink(c, parents[i], name).childColumn
    ensures var link := FirstLink(c, parents[i], name); var keys := ForeignKeys(c, name, parents);
      link.childColumn in keys && keys[link.childColumn] == ColumnRef(parents[i], link.parentColumn)
  {
    hide Links, Linked, FirstLink, ForeignKeys;
    var n := |parents| - 1;
    NextKey(c, name, parents, n);
    assert parents[..n + 1] == parents;
    if i < n {
      assert forall p :: p in parents[..n] ==> p in parents;
      assert forall j :: 0 <= j <= i ==> parents[..n][j] == parents[j];
      FirstLinkWins(c, name, parents[..n], i);
    } else {
      NotYetLinked(c, name, parents, n);
    }
  }

  lemma NotYetLinked(c: Catalog, name: string, parents: seq<string>, n: nat)
    requires n < |parents| && forall p :: p in parents ==> Linked(c, p, name)
    requires forall j :: 0 <= j < n ==> FirstLink(c, parents[j], name).childColumn != FirstLink(c, parents[n], name).childColumn
    ensures FirstLink(c, parents[n], name).childColumn !in ForeignKeys(c, name, parents[..n])
  {
    hide Links, Linked, FirstLink;
    assert forall j :: 0 <= j < n ==> parents[..n][j] == parents[j];
  }

  function Parents(c: Catalog, name: string): seq<string>
    requires WellFormed(c) && name in c.tables
  {
    c.parents[name]
  }

  function Keys(c: Catalog, name: string): map<string, ColumnRef>
    requires WellFormed(c) && name in c.tables
  {
    ForeignKeys(c, name, c.parents[name])
  }

  function Rows(c: Catalog, name: string): seq<ColumnRow>
    requires WellFormed(c) && name in c.tables
  {
    c.columns[name]
  }

  function Uniques(c: Catalog, name: string): seq<seq<string>>
    requires WellFormed(c) && name in c.tables
  {
    c.uniques[name]
  }

  function PlainColumn(row: ColumnRow): Column {
    Column(row.name, row.dbType, row.primaryKey, row.unique && !row.primaryKey, false, "")
  }

  function ColumnOp(c: Catalog, name: string, keys: map<string, ColumnRef>, row: ColumnRow): Op {
    if row.name in keys then
      AddForeignKey(keys[row.name], ColumnRef(name, row.name), ColumnRef(name, row.name) in c.nullable)
    else
      AddColumn(name, PlainColumn(row))
  }

  // ---- the schema a catalog describes ----

  /** A column as its row lists it. One that refers to another column takes its type from
      there; any other is the primary key, unique or plain, in that order of precedence. */
  ghost predicate AsListed(row: ColumnRow, column: Column, refers: bool, nullable: bool) {
    && column.name == row.name && column.default == ""
    && (column.primaryKey <==> row.primaryKey && !refers)
    && (column.unique <==> row.unique && !row.primaryKey && !refers)
    && (column.nullable <==> nullable && refers)
    && (refers || column.dbType == row.dbType)
  }

  ghost predicate MirrorsColumn(c: Catalog, name: string, keys: map<string, ColumnRef>, row: ColumnRow, column: Column) {
    AsListed(row, column, row.name in keys, ColumnRef(name, row.name) in c.nullable)
  }

  ghost predicate MirrorsColumns(c: Catalog, name: string, keys: map<string, ColumnRef>,
                                 rows: seq<ColumnRow>, columns: seq<Column>) {
    |columns| == |rows| && forall i :: 0 <= i < |rows| ==> MirrorsColumn(c, name, keys, rows[i], columns[i])
  }

  ghost predicate MirrorsTable(c: Catalog, name: string, t: Table)
    requires WellFormed(c) && name in c.tables
  {
    t.name == name && t.uniques == Uniques(c, name) && t.checks == []
    && MirrorsColumns(c, name, Keys(c, name), Rows(c, name), t.columns)
  }

  ghost function RefsOf(c: Catalog, name: string, keys: map<string, ColumnRef>, rows: seq<ColumnRow>): seq<Ref> {
    if rows == [] then []
    else
      var row := rows[|rows| - 1];
      var child := ColumnRef(name, row.name);
      RefsOf(c, name, keys, rows[..|rows| - 1])
      + if row.name in keys then [Ref(keys[row.name], child, child in c.nullable)] else []
  }

  ghost function AllRefs(c: Catalog, order: seq<string>): seq<Ref>
    requires WellFormed(c) && forall t :: t in order ==> t in c.tables
  {
    if order == [] then []
    else
      var name := order[|order| - 1];
      AllRefs(c, order[..|order| - 1]) + RefsOf(c, name, Keys(c, name), Rows(c, name))
  }

  /** The schema holds exactly the tables of the order, each with the catalog's columns and
      unique constraints, and exactly the foreign keys that the column-to-parent tables
      keep; a foreign-key column that is not kept is a plain column. */
  ghost predicate Mirrors(s: Schema, c: Catalog, order: seq<string>)
    requires WellFormed(c) && forall t :: t in order ==> t in c.tables
  {
    && S.Inv(s)
    && |s.tables| == |order|
    && (forall k :: 0 <= k < |order| ==> MirrorsTable(c, order[k], s.tables[k]))
    && s.refs == AllRefs(c, order)
  }

  /** The same while the last table still lacks rows and unique constraints. */
  ghost predicate Partial(s: Schema, c: Catalog, order: seq<string>, name: string, rows: nat, uniques: nat)
    requires WellFormed(c) && name in c.tables && forall t :: t in order ==> t in c.tables
    requires rows <= |Rows(c, name)| && uniques <= |Uniques(c, name)|
  {
    && S.Inv(s)
    && |s.tables| == |order| + 1
    && (forall k :: 0 <= k < |order| ==> MirrorsTable(c, order[k], s.tables[k]))
    && s.tables[|order|].name == name
    && s.tables[|order|].checks == []
    && s.tables[|order|].uniques == Uniques(c, name)[..uniques]
    && MirrorsColumns(c, name, Keys(c, name), Rows(c, name)[..rows], s.tables[|order|].columns)
    && s.refs == AllRefs(c, order) + RefsOf(c, name, Keys(c, name), Rows(c, name)[..rows])
  }

  /** A table may come next when it is new and all of its parents are there. */
  ghost predicate Addable(c: Catalog, order: seq<string>, name: string)
    requires WellFormed(c)
  {
    name in c.tables && name !in order && (forall t :: t in order ==> t in c.tables)
    && forall p :: p in c.parents[name] ==> p in order
  }

  // ---- each call returns ----

  lemma TableCall(s: Schema, c: Catalog, order: seq<string>, name: string)
    requires WellFormed(c) && Addable(c, order, name) && Mirrors(s, c, order)
    ensures Apply(s, AddTable(name)).Returned?
    ensures Partial(Apply(s, AddTable(name)).schema, c, order, name, 0, 0)
  {
    hide S.Inv, MirrorsColumns, FindTable, WellFormed, Keys, Rows, Uniques;
    assert !HasTable(s, name);
    ApplyKeeps(s, AddTable(name));
    NoRows(c, name, Keys(c, name), Rows(c, name), Uniques(c, name));
  }

  lemma NoRows(c: Catalog, name: string, keys: map<string, ColumnRef>, rows: seq<ColumnRow>, uniques: seq<seq<string>>)
    ensures MirrorsColumns(c, name, keys, rows[..0], [])
    ensures RefsOf(c, name, keys, rows[..0]) == [] && uniques[..0] == []
  {
  }

  /** The table under construction is the last one, and it lacks the next column. */
  lemma NextColumnIsNew(s: Schema, c: Catalog, order: seq<string>, name: string, n: nat)
    requires WellFormed(c) && Addable(c, order, name) && n < |Rows(c, name)| && Partial(s, c, order, name, n, 0)
    ensures FindTable(s.tables, name) == |order|
    ensures FindColumn(s.tables[|order|].columns, Rows(c, name)[n].name) == n == |s.tables[|order|].columns|
  {
    hide S.Inv, Keys;
    var i := FindTable(s.tables, name);
    var columns := s.tables[|order|].columns;
    assert forall k :: 0 <= k < |order| ==> s.tables[k].name == order[k] && order[k] in order;
    forall k | 0 <= k < n ensures columns[k].name == Rows(c, name)[k].name {
      assert MirrorsColumn(c, name, Keys(c, name), Rows(c, name)[..n][k], columns[k]);
    }
  }

  lemma KeyNamesParent(c: Catalog, name: string, column: string)
    requires WellFormed(c) && name in c.tables && column in Keys(c, name)
    ensures var parent := Keys(c, name)[column];
      parent.table in c.parents[name] && parent.table in c.tables && HasRow(Rows(c, parent.table), parent.column)
  {
    hide ForeignKeys, FirstLink, DistinctRows, NoRepeats, HasRow, Links;
  }

  /** The parent end of a foreign key is there. */
  lemma ParentIsThere(s: Schema, c: Catalog, order: seq<string>, name: string, n: nat, column: string)
    requires WellFormed(c) && Addable(c, order, name) && n < |Rows(c, name)| && Partial(s, c, order, name, n, 0)
    requires column in Keys(c, name)
    ensures HasColumn(s, Keys(c, name)[column])
  {
    hide S.Inv, FindTable, FindColumn, WellFormed, Keys, Rows, MirrorsColumns, AllRefs, RefsOf;
    var parent := Keys(c, name)[column];
    KeyNamesParent(c, name, column);
    var rows := Rows(c, parent.table);
    var j :| 0 <= j < |rows| && rows[j].name == parent.column;
    var k :| 0 <= k < |order| && order[k] == parent.table;
    assert MirrorsTable(c, order[k], s.tables[k]);
    FindIsIt(s, k, parent.table);
    RowHasColumn(c, parent.table, Keys(c, parent.table), rows, s.tables[k].columns, j);
  }

  lemma RowHasColumn(c: Catalog, name: string, keys: map<string, ColumnRef>, rows: seq<ColumnRow>,
                     columns: seq<Column>, j: nat)
    requires MirrorsColumns(c, name, keys, rows, columns) && j < |rows|
    ensures FindColumn(columns, rows[j].name) < |columns|
  {
    assert MirrorsColumn(c, name, keys, rows[j], columns[j]);
  }

  lemma FindIsIt(s: Schema, k: nat, name: string)
    requires S.Inv(s) && k < |s.tables| && s.tables[k].name == name
    ensures FindTable(s.tables, name) == k
  {
  }

  /** One more row: what it adds to the mirrored columns and to the references. */
  lemma OneMoreRow(c: Catalog, name: string, keys: map<string, ColumnRef>, rows: seq<ColumnRow>,
                   n: nat, columns: seq<Column>, column: Column)
    requires n < |rows| && MirrorsColumns(c, name, keys, rows[..n], columns)
    requires MirrorsColumn(c, name, keys, rows[n], column)
    ensures MirrorsColumns(c, name, keys, rows[..n + 1], columns + [column])
    ensures var child := ColumnRef(name, rows[n].name);
      RefsOf(c, name, keys, rows[..n + 1]) == RefsOf(c, name, keys, rows[..n])
      + if rows[n].name in keys then [Ref(keys[rows[n].name], child, child in c.nullable)] else []
  {
    assert rows[..n + 1][..n] == rows[..n];
  }

  lemma PlainCall(s: Schema, c: Catalog, order: seq<string>, name: string, n: nat)
    requires WellFormed(c) && Addable(c, order, name) && n < |Rows(c, name)| && Partial(s, c, order, name, n, 0)
    requires Rows(c, name)[n].name !in Keys(c, name)
    ensures var outcome := Apply(s, AddColumn(name, PlainColumn(Rows(c, name)[n])));
      outcome.Returned? && Partial(outcome.schema, c, order, name, n + 1, 0)
  {
    hide S.Inv, Keys, FindTable, FindColumn, WellFormed, MirrorsColumns, MirrorsTable, RefsOf, AllRefs, Rows, Uniques;
    var row := Rows(c, name)[n];
    NextColumnIsNew(s, c, order, name, n);
    OneMoreRow(c, name, Keys(c, name), Rows(c, name), n, s.tables[|order|].columns, PlainColumn(row));
    ApplyKeeps(s, AddColumn(name, PlainColumn(row)));
  }

  lemma ForeignKeyCall(s: Schema, c: Catalog, order: seq<string>, name: string, n: nat)
    requires WellFormed(c) && Addable(c, order, name) && n < |Rows(c, name)| && Partial(s, c, order, name, n, 0)
    requires Rows(c, name)[n].name in Keys(c, name)
    ensures var outcome := Apply(s, ColumnOp(c, name, Keys(c, name), Rows(c, name)[n]));
      outcome.Returned? && Partial(outcome.schema, c, order, name, n + 1, 0)
  {
    hide S.Inv, Keys, FindTable, FindColumn, FindChild, WellFormed, MirrorsColumns, MirrorsTable, RefsOf, AllRefs, Rows, Uniques,
      TypeOf;
    var row := Rows(c, name)[n];
    var op := ColumnOp(c, name, Keys(c, name), row);
    NextColumnIsNew(s, c, order, name, n);
    ParentIsThere(s, c, order, name, n, row.name);
    NoReferenceYet(s, op.child);
    var column := Column(row.name, Referring(TypeOf(s, op.parent)), false, false, op.nullable, "");
    OneMoreRow(c, name, Keys(c, name), Rows(c, name), n, s.tables[|order|].columns, column);
    ApplyKeeps(s, op);
  }

  lemma NoReferenceYet(s: Schema, child: ColumnRef)
    requires S.Inv(s) && !HasColumn(s, child)
    ensures FindChild(s.refs, child) == |s.refs|
  {
    hide HasColumn, FindChild;
    assert forall i :: 0 <= i < |s.refs| ==> SoundRef(s, s.refs[i]);
  }

  lemma ColumnCall(s: Schema, c: Catalog, order: seq<string>, name: string, n: nat)
    requires WellFormed(c) && Addable(c, order, name) && n < |Rows(c, name)| && Partial(s, c, order, name, n, 0)
    ensures var outcome := Apply(s, ColumnOp(c, name, Keys(c, name), Rows(c, name)[n]));
      outcome.Returned? && Partial(outcome.schema, c, order, name, n + 1, 0)
  {
    hide Partial, WellFormed, Apply, Keys;
    if Rows(c, name)[n].name in Keys(c, name) {
      ForeignKeyCall(s, c, order, name, n);
    } else {
      PlainCall(s, c, order, name, n);
    }
  }

  lemma UniqueCall(s: Schema, c: Catalog, order: seq<string>, name: string, u: nat)
    requires WellFormed(c) && Addable(c, order, name) && u < |Uniques(c, name)|
    requires Partial(s, c, order, name, |Rows(c, name)|, u)
    ensures var outcome := Apply(s, AddUnique(name, Uniques(c, name)[u]));
      outcome.Returned? && Partial(outcome.schema, c, order, name, |Rows(c, name)|, u + 1)
  {
    assert Uniques(c, name)[u] in Uniques(c, name);
    assert Uniques(c, name)[u] != [];
    hide S.Inv, Keys, FindTable, FindColumn, WellFormed, MirrorsColumns, MirrorsTable, RefsOf, AllRefs, Rows, Uniques,
      Addable, Apply;
    UniqueAdded(s, |order|, name, Uniques(c, name)[u]);
    ApplyKeeps(s, AddUnique(name, Uniques(c, name)[u]));
    assert Uniques(c, name)[..u + 1] == Uniques(c, name)[..u] + [Uniques(c, name)[u]];
  }

  lemma UniqueAdded(s: Schema, k: nat, name: string, columns: seq<string>)
    requires S.Inv(s) && k < |s.tables| && s.tables[k].name == name && columns != []
    ensures Apply(s, AddUnique(name, columns))
         == Returned(s.(tables := s.tables[k := s.tables[k].(uniques := s.tables[k].uniques + [columns])]))
  {
    hide S.Inv, FindTable;
    FindIsIt(s, k, name);
  }

  lemma Complete(s: Schema, c: Catalog, order: seq<string>, name: string)
    requires WellFormed(c) && Addable(c, order, name)
    requires Partial(s, c, order, name, |Rows(c, name)|, |Uniques(c, name)|)
    ensures Mirrors(s, c, order + [name])
  {
    hide S.Inv, Keys, WellFormed, MirrorsColumns, RefsOf;
    assert Rows(c, name)[..|Rows(c, name)|] == Rows(c, name);
    assert Uniques(c, name)[..|Uniques(c, name)|] == Uniques(c, name);
    assert (order + [name])[..|order|] == order;
  }

  // ---- the rebuild ----

  /** MakeForeignKeyTable's loop. */
  method MakeForeignKeyTable(c: Catalog, name: string) returns (keys: map<string, ColumnRef>)
    requires WellFormed(c) && name in c.tables
    ensures keys == Keys(c, name)
  {
    var parents := c.parents[name];
    assert forall p :: p in parents ==> Linked(c, p, name);
    hide WellFormed, Links, Linked, FirstLink, ForeignKeys;
    keys := map[];
    for i := 0 to |parents|
      invariant keys == ForeignKeys(c, name, parents[..i])
    {
      NextKey(c, name, parents, i);
      var link := FirstLink(c, parents[i], name);
      if link.childColumn !in keys {
        keys := keys[link.childColumn := ColumnRef(parents[i], link.parentColumn)];
      }
    }
    assert parents[..|parents|] == parents;
  }

  lemma NextKey(c: Catalog, name: string, parents: seq<string>, i: nat)
    requires i < |parents| && forall p :: p in parents ==> Linked(c, p, name)
    ensures var keys := ForeignKeys(c, name, parents[..i]); var link := FirstLink(c, parents[i], name);
      ForeignKeys(c, name, parents[..i + 1])
      == if link.childColumn in keys then keys else keys[link.childColumn := ColumnRef(parents[i], link.parentColumn)]
  {
    hide Links, Linked, FirstLink;
    assert parents[..i + 1][..i] == parents[..i];
  }

  /** No call in here throws, and the table ends up as the catalog has it. */
  method AddTableToDatabaseInfo(c: Catalog, name: string, db: DatabaseInfoImpl, ghost order: seq<string>)
    requires WellFormed(c) && Addable(c, order, name)
    requires db.Valid() && Mirrors(db.View(), c, order)
    modifies db.Footprint()
    ensures db.Valid() && fresh(db.Footprint() - old(db.Footprint()))
    ensures Mirrors(db.View(), c, order + [name])
  {
    hide WellFormed, Mirrors, Partial, Apply, Views, ColumnOp, Keys;
    TableCall(db.View(), c, order, name);
    var threw := db.Perform(AddTable(name));
    var keys := MakeForeignKeyTable(c, name);
    var rows := Rows(c, name);
    hide Rows, Uniques;
    for n := 0 to |rows|
      invariant db.Valid() && fresh(db.Footprint() - old(db.Footprint()))
      invariant !threw && Partial(db.View(), c, order, name, n, 0)
    {
      ColumnCall(db.View(), c, order, name, n);
      threw := db.Perform(ColumnOp(c, name, keys, rows[n]));
    }
    AddUniques(c, name, db, order);
  }

  /** The last part: the unique constraints. */
  method AddUniques(c: Catalog, name: string, db: DatabaseInfoImpl, ghost order: seq<string>)
    requires WellFormed(c) && Addable(c, order, name)
    requires db.Valid() && Partial(db.View(), c, order, name, |Rows(c, name)|, 0)
    modifies db.Footprint()
    ensures db.Valid() && fresh(db.Footprint() - old(db.Footprint()))
    ensures Mirrors(db.View(), c, order + [name])
  {
    hide WellFormed, Mirrors, Partial, Apply, Views, Rows;
    var uniques := Uniques(c, name);
    hide Uniques;
    for u := 0 to |uniques|
      invariant db.Valid() && fresh(db.Footprint() - old(db.Footprint()))
      invariant Partial(db.View(), c, order, name, |Rows(c, name)|, u)
    {
      UniqueCall(db.View(), c, order, name, u);
      var threw := db.Perform(AddUnique(name, uniques[u]));
    }
    Complete(db.View(), c, order, name);
  }

  ghost predicate AllIn(names: seq<string>, c: Catalog) { forall t :: t in names ==> t in c.tables }

  function Roots(c: Catalog, tables: seq<string>): seq<string>
    requires WellFormed(c) && AllIn(tables, c)
  {
    RootTables(c, tables)
  }

  function Children(c: Catalog, tables: seq<string>): seq<TableInfo>
    requires WellFormed(c) && AllIn(tables, c)
  {
    ChildTables(c, tables)
  }

  /** The allowed tables of the catalog, split as the rebuild splits them. */
  lemma SplitIsDistinct(c: Catalog, tables: seq<string>)
    requires WellFormed(c) && NoRepeats(tables) && AllIn(tables, c)
    ensures DistinctTables(Roots(c, tables), Children(c, tables))
    ensures forall t :: t in tables <==> t in Roots(c, tables) || Named(Children(c, tables), t)
  {
    forall t | t in tables && t !in Roots(c, tables) ensures Named(Children(c, tables), t) {
      assert TableInfo(t, c.parents[t]) in Children(c, tables);
    }
  }

  /** The next ready table may be added. */
  lemma ReadyIsAddable(c: Catalog, tables: seq<string>, b: Build)
    requires WellFormed(c) && AllIn(tables, c)
    requires BuildInv(b, Roots(c, tables), Children(c, tables))
    requires FirstReady(b.remaining, b.added) < |b.remaining|
    ensures Addable(c, b.order, b.remaining[FirstReady(b.remaining, b.added)].name)
  {
    hide FirstReady, ParentsBefore, NoRepeats;
    var t := b.remaining[FirstReady(b.remaining, b.added)];
    assert t in b.remaining;
    forall x | x in b.order ensures x in c.tables {
      assert x in b.added;
    }
  }

  lemma NothingMirrorsNothing(c: Catalog)
    requires WellFormed(c)
    ensures Mirrors(Empty(), c, [])
  {
  }

  method AddRootTables(c: Catalog, roots: seq<string>) returns (db: DatabaseInfoImpl)
    requires WellFormed(c) && NoRepeats(roots) && AllIn(roots, c) && forall t :: t in roots ==> Addable(c, [], t)
    ensures db.Valid() && fresh(db.Footprint()) && Mirrors(db.View(), c, roots)
  {
    hide Mirrors, WellFormed, Views;
    NothingMirrorsNothing(c);
    db := new DatabaseInfoImpl();
    assert roots[..0] == [];
    for i := 0 to |roots|
      invariant db.Valid() && fresh(db.Footprint()) && Mirrors(db.View(), c, roots[..i])
    {
      RootIsAddable(c, roots, i);
      assert roots[..i + 1] == roots[..i] + [roots[i]];
      AddTableToDatabaseInfo(c, roots[i], db, roots[..i]);
    }
    assert roots[..|roots|] == roots;
  }

  lemma RootIsAddable(c: Catalog, roots: seq<string>, i: nat)
    requires WellFormed(c) && NoRepeats(roots) && AllIn(roots, c) && forall t :: t in roots ==> Addable(c, [], t)
    requires i < |roots|
    ensures Addable(c, roots[..i], roots[i])
  {
    assert Addable(c, [], roots[i]);
  }

  /** The loop ends on these tables (see FinishesExactly). */
  ghost predicate LoopEnds(c: Catalog, tables: seq<string>)
    requires WellFormed(c) && AllIn(tables, c)
  {
    Closed(Roots(c, tables), Children(c, tables)) && R.Acyclic(Children(c, tables))
  }

  /** Where the loop stands after n passes. */
  ghost function At(c: Catalog, tables: seq<string>, n: nat): Build
    requires WellFormed(c) && AllIn(tables, c)
  {
    Passes(Start(Roots(c, tables), Children(c, tables)), n)
  }

  lemma AtKeeps(c: Catalog, tables: seq<string>, n: nat)
    requires WellFormed(c) && NoRepeats(tables) && AllIn(tables, c)
    ensures var b := At(c, tables, n);
      && NoRepeats(b.order) && ParentsBefore(Children(c, tables), b.order) && AllIn(b.order, c)
      && (b.remaining == [] ==> forall t :: t in b.order <==> t in tables)
  {
    hide Roots, Children, WellFormed, Pass, NoRepeats, ParentsBefore;
    SplitIsDistinct(c, tables);
    PassesKeep(Roots(c, tables), Children(c, tables), n);
  }

  lemma NextPass(c: Catalog, tables: seq<string>, n: nat)
    requires WellFormed(c) && NoRepeats(tables) && AllIn(tables, c) && LoopEnds(c, tables)
    requires At(c, tables, n).remaining != [] && n <= |Children(c, tables)|
    ensures n < |Children(c, tables)| && At(c, tables, n + 1) == Pass(At(c, tables, n))
    ensures var b := At(c, tables, n); var i := FirstReady(b.remaining, b.added);
      i < |b.remaining| && Addable(c, b.order, b.remaining[i].name)
  {
    hide Roots, Children, WellFormed, NoRepeats, BuildInv, Closed, R.Acyclic, DistinctTables, FirstReady;
    var roots, children := Roots(c, tables), Children(c, tables);
    SplitIsDistinct(c, tables);
    Progress(roots, children, n);
    Progress(roots, children, n + 1);
    PassesKeep(roots, children, n);
    ReadyIsAddable(c, tables, At(c, tables, n));
  }

  /** One pass of the outer loop: add the first ready table and erase it. */
  method AddReadyTable(c: Catalog, db: DatabaseInfoImpl, b: Build) returns (after: Build)
    requires WellFormed(c) && AllIn(b.order, c) && db.Valid() && Mirrors(db.View(), c, b.order)
    requires var i := FirstReady(b.remaining, b.added);
      i < |b.remaining| ==> Addable(c, b.order, b.remaining[i].name)
    modifies db.Footprint()
    ensures after == Pass(b) && AllIn(after.order, c) && Mirrors(db.View(), c, after.order)
    ensures db.Valid() && fresh(db.Footprint() - old(db.Footprint()))
  {
    hide Mirrors, WellFormed, FirstReady, Views;
    after := b;
    var iter := FindReady(b.remaining, b.added);
    if iter < |b.remaining| {
      var name := b.remaining[iter].name;
      AddTableToDatabaseInfo(c, name, db, b.order);
      after := Build(b.remaining[..iter] + b.remaining[iter + 1..], b.added + {name}, b.order + [name]);
    }
  }

  lemma RootsAreAddable(c: Catalog, allowed: seq<string>)
    requires WellFormed(c)
    ensures var tables := Filter(c.tables, allowed);
      && NoRepeats(tables) && AllIn(tables, c) && NoRepeats(Roots(c, tables)) && AllIn(Roots(c, tables), c)
      && (forall t :: t in Roots(c, tables) ==> Addable(c, [], t))
      && Start(Roots(c, tables), Children(c, tables)) == At(c, tables, 0)
  {
    hide Filter, RootTables, ChildTables;
  }

  /** On a foreign-key graph for which the loop ends, the rebuild never throws and gives the
      schema the catalog describes: every allowed table once, after all of its parents,
      with all of its columns and unique constraints, no foreign key the catalog lacks, and
      all the catalog's foreign keys exactly when no table has two to one parent or two on
      one column. */
  method DatabaseInfoFromDatabase(c: Catalog, allowed: seq<string>)
    returns (db: DatabaseInfoImpl, order: seq<string>)
    requires WellFormed(c) && LoopEnds(c, Filter(c.tables, allowed))
    ensures forall t :: t in order <==> t in c.tables && t in allowed
    ensures NoRepeats(order) && ParentsBefore(Children(c, Filter(c.tables, allowed)), order)
    ensures db.Valid() && Mirrors(db.View(), c, order)
    ensures forall parent: ColumnRef, child: ColumnRef :: HasRef(db.View().refs, parent, child) ==>
      child.table in order && IsKey(c, parent, child)
    ensures (forall parent: ColumnRef, child: ColumnRef :: child.table in order && IsKey(c, parent, child) ==>
               HasRef(db.View().refs, parent, child))
        <==> forall t :: t in order ==> OneLinkEach(c, t)
    ensures |db.View().tables| == |order|
    ensures forall k :: 0 <= k < |order| ==> TableAsListed(c, db.View().refs, order[k], db.View().tables[k])
    ensures forall r :: r in db.View().refs ==> (r.nullable <==> r.child in c.nullable)
  {
    hide TableAsListed, Mirrors, WellFormed, ParentsBefore, IsKey, HasRef, OneLinkEach, Roots, Children, NoRepeats, FirstReady, Views, LoopEnds, Pass, Addable,
      Passes;
    var tables := Filter(c.tables, allowed);
    RootsAreAddable(c, allowed);
    db := AddRootTables(c, Roots(c, tables));
    var b := Start(Roots(c, tables), Children(c, tables));
    ghost var n := 0;
    while b.remaining != []
      invariant db.Valid() && fresh(db.Footprint()) && n <= |Children(c, tables)| && b == At(c, tables, n)
      invariant AllIn(b.order, c) && Mirrors(db.View(), c, b.order)
      decreases |Children(c, tables)| - n
    {
      NextPass(c, tables, n);
      b := AddReadyTable(c, db, b);
      n := n + 1;
    }
    AtKeeps(c, tables, n);
    order := b.order;
    KeysKeptExactly(c, order, db.View());
    TablesAsListed(c, order, db.View());
  }

  // ---- which foreign keys are kept ----

  /** The catalog has this foreign key. */
  predicate IsKey(c: Catalog, parent: ColumnRef, child: ColumnRef)
    requires WellFormed(c)
  {
    && child.table in c.tables && parent.table in Parents(c, child.table)
    && Link(parent.column, child.column) in Links(c, parent.table, child.table)
  }

  predicate HasRef(refs: seq<Ref>, parent: ColumnRef, child: ColumnRef) {
    exists i :: 0 <= i < |refs| && refs[i].parent == parent && refs[i].child == child
  }

  /** No two links to one parent, and no column linked to two parents. */
  ghost predicate OneLinkEach(c: Catalog, t: string)
    requires WellFormed(c)
  {
    t in c.tables ==>
      && (forall p, l, m :: p in Parents(c, t) && l in Links(c, p, t) && m in Links(c, p, t) ==> l == m)
      && (forall p, q, l, m |
            p in Parents(c, t) && q in Parents(c, t) && l in Links(c, p, t) && m in Links(c, q, t) && p != q ::
              l.childColumn != m.childColumn)
  }

  /** The column-to-parent table holds this foreign key. */
  ghost predicate Kept(c: Catalog, parent: ColumnRef, child: ColumnRef)
    requires WellFormed(c)
  {
    child.table in c.tables
    && var keys := Keys(c, child.table); child.column in keys && keys[child.column] == parent
  }

  lemma HasRefConcat(a: seq<Ref>, b: seq<Ref>, parent: ColumnRef, child: ColumnRef)
    ensures HasRef(a + b, parent, child) <==> HasRef(a, parent, child) || HasRef(b, parent, child)
  {
    if HasRef(a, parent, child) {
      var i :| 0 <= i < |a| && a[i].parent == parent && a[i].child == child;
      assert (a + b)[i] == a[i];
    }
    if HasRef(b, parent, child) {
      var i :| 0 <= i < |b| && b[i].parent == parent && b[i].child == child;
      assert (a + b)[|a| + i] == b[i];
    }
  }

  lemma {:induction false} RefsOfTable(c: Catalog, name: string, keys: map<string, ColumnRef>, rows: seq<ColumnRow>,
                                       parent: ColumnRef, child: ColumnRef)
    ensures HasRef(RefsOf(c, name, keys, rows), parent, child) <==>
      child.table == name && HasRow(rows, child.column) && child.column in keys && keys[child.column] == parent
  {
    if rows != [] {
      var rest, row := rows[..|rows| - 1], rows[|rows| - 1];
      RefsOfTable(c, name, keys, rest, parent, child);
      var here := ColumnRef(name, row.name);
      var last := if row.name in keys then [Ref(keys[row.name], here, here in c.nullable)] else [];
      HasRefConcat(RefsOf(c, name, keys, rest), last, parent, child);
      hide RefsOf, HasRow;
      assert HasRef(last, parent, child) <==> row.name in keys && keys[row.name] == parent && here == child by {
        if row.name in keys { assert last[0].parent == keys[row.name]; }
      }
    }
  }

  lemma KeptHasRow(c: Catalog, parent: ColumnRef, child: ColumnRef)
    requires WellFormed(c) && Kept(c, parent, child)
    ensures IsKey(c, parent, child) && HasRow(Rows(c, child.table), child.column)
  {
    KeptIsFirstLink(c, parent, child);
    hide Links, Linked, FirstLink, ForeignKeys, DistinctRows;
    var l := Link(parent.column, child.column);
    assert l in Links(c, parent.table, child.table);
  }

  /** The references of the rebuilt schema are exactly the kept foreign keys. */
  lemma {:induction false} RefsAreKept(c: Catalog, order: seq<string>, parent: ColumnRef, child: ColumnRef)
    requires WellFormed(c) && AllIn(order, c)
    ensures HasRef(AllRefs(c, order), parent, child) <==> child.table in order && Kept(c, parent, child)
  {
    hide WellFormed, Keys, Rows, HasRow, HasRef, RefsOf;
    if order == [] {
      NoRefs(parent, child);
    } else {
      var rest, name := order[..|order| - 1], order[|order| - 1];
      assert forall t :: t in rest ==> t in order;
      assert order == rest + [name];
      RefsAreKept(c, rest, parent, child);
      HasRefConcat(AllRefs(c, rest), RefsOf(c, name, Keys(c, name), Rows(c, name)), parent, child);
      RefsOfTable(c, name, Keys(c, name), Rows(c, name), parent, child);
      if Kept(c, parent, child) { KeptHasRow(c, parent, child); }
    }
  }

  lemma NoRefs(parent: ColumnRef, child: ColumnRef)
    ensures !HasRef([], parent, child)
  {
  }

  /** A table keeps all of its foreign keys exactly when it has one link to each parent and
      one parent for each linked column. */
  lemma TableKeepsExactly(c: Catalog, t: string)
    requires WellFormed(c) && t in c.tables
    ensures (forall parent: ColumnRef, child: ColumnRef :: child.table == t && IsKey(c, parent, child) ==> Kept(c, parent, child))
        <==> OneLinkEach(c, t)
  {
    if OneLinkEach(c, t) {
      forall parent: ColumnRef, child: ColumnRef | child.table == t && IsKey(c, parent, child) ensures Kept(c, parent, child) {
      }
    }
    if forall parent: ColumnRef, child: ColumnRef :: child.table == t && IsKey(c, parent, child) ==> Kept(c, parent, child) {
      hide WellFormed;
      KeptIsFirst(c, t);
    }
  }

  lemma KeptIsFirst(c: Catalog, t: string)
    requires WellFormed(c) && t in c.tables
    requires forall parent: ColumnRef, child: ColumnRef :: child.table == t && IsKey(c, parent, child) ==> Kept(c, parent, child)
    ensures OneLinkEach(c, t)
  {
    hide WellFormed, Keys, Links, Parents;
    forall p, l | p in Parents(c, t) && l in Links(c, p, t)
      ensures l.childColumn in Keys(c, t) && Keys(c, t)[l.childColumn] == ColumnRef(p, l.parentColumn)
      ensures Linked(c, p, t) && FirstLink(c, p, t) == l
    {
      var parent, child := ColumnRef(p, l.parentColumn), ColumnRef(t, l.childColumn);
      assert Link(parent.column, child.column) == l;
      assert IsKey(c, parent, child);
      KeptIsFirstLink(c, parent, child);
    }
  }

  lemma KeptIsFirstLink(c: Catalog, parent: ColumnRef, child: ColumnRef)
    requires WellFormed(c) && Kept(c, parent, child)
    ensures Linked(c, parent.table, child.table)
    ensures FirstLink(c, parent.table, child.table) == Link(parent.column, child.column)
  {
  }

  // ---- what the rebuilt tables hold ----

  predicate IsChild(refs: seq<Ref>, child: ColumnRef) {
    exists i :: 0 <= i < |refs| && refs[i].child == child
  }

  /** A table of the schema with the catalog's columns in order and its unique constraints. A
      column that is no child of a reference has the name, type and constraints of its row. */
  ghost predicate TableAsListed(c: Catalog, refs: seq<Ref>, name: string, t: Table) {
    && t.name == name && t.checks == []
    && name in c.columns && name in c.uniques && t.uniques == c.uniques[name] && |t.columns| == |c.columns[name]|
    && forall n :: 0 <= n < |t.columns| ==>
         var row, here := c.columns[name][n], ColumnRef(name, c.columns[name][n].name);
         AsListed(row, t.columns[n], IsChild(refs, here), here in c.nullable)
  }

  /** The columns that refer to a parent are those of the column-to-parent tables. */
  lemma ChildIsKept(c: Catalog, order: seq<string>, child: ColumnRef)
    requires WellFormed(c) && AllIn(order, c) && child.table in order
    ensures IsChild(AllRefs(c, order), child) <==> child.column in Keys(c, child.table)
  {
    hide WellFormed, Keys, AllRefs;
    var refs := AllRefs(c, order);
    if i :| 0 <= i < |refs| && refs[i].child == child {
      assert HasRef(refs, refs[i].parent, child);
      RefsAreKept(c, order, refs[i].parent, child);
    }
    if child.column in Keys(c, child.table) {
      RefsAreKept(c, order, Keys(c, child.table)[child.column], child);
    }
  }

  lemma TablesAsListed(c: Catalog, order: seq<string>, s: Schema)
    requires WellFormed(c) && AllIn(order, c) && Mirrors(s, c, order)
    ensures |s.tables| == |order|
    ensures forall k :: 0 <= k < |order| ==> TableAsListed(c, s.refs, order[k], s.tables[k])
    ensures forall r :: r in s.refs ==> (r.nullable <==> r.child in c.nullable)
  {
    hide S.Inv, AllRefs, Keys, IsChild, AsListed;
    forall k | 0 <= k < |order| ensures TableAsListed(c, s.refs, order[k], s.tables[k]) {
      assert MirrorsTable(c, order[k], s.tables[k]);
      var rows := c.columns[order[k]];
      forall n | 0 <= n < |rows|
        ensures var here := ColumnRef(order[k], rows[n].name);
          AsListed(rows[n], s.tables[k].columns[n], IsChild(s.refs, here), here in c.nullable)
      {
        assert MirrorsColumn(c, order[k], Keys(c, order[k]), rows[n], s.tables[k].columns[n]);
        ChildIsKept(c, order, ColumnRef(order[k], rows[n].name));
      }
    }
    NullableAsListed(c, order);
  }

  lemma {:induction false} NullableAsListed(c: Catalog, order: seq<string>)
    requires WellFormed(c) && AllIn(order, c)
    ensures forall r :: r in AllRefs(c, order) ==> (r.nullable <==> r.child in c.nullable)
  {
    hide WellFormed, Keys, Rows, RefsOf;
    if order != [] {
      var rest, name := order[..|order| - 1], order[|order| - 1];
      assert forall t :: t in rest ==> t in order;
      NullableAsListed(c, rest);
      NullableOfTable(c, name, Keys(c, name), Rows(c, name));
    }
  }

  lemma {:induction false} NullableOfTable(c: Catalog, name: string, keys: map<string, ColumnRef>, rows: seq<ColumnRow>)
    ensures forall r :: r in RefsOf(c, name, keys, rows) ==> (r.nullable <==> r.child in c.nullable)
  {
    if rows != [] {
      NullableOfTable(c, name, keys, rows[..|rows| - 1]);
    }
  }

  /** What the rebuilt schema refers to, in terms of the catalog. */
  lemma KeysKeptExactly(c: Catalog, order: seq<string>, s: Schema)
    requires WellFormed(c) && AllIn(order, c) && Mirrors(s, c, order)
    ensures forall parent: ColumnRef, child: ColumnRef :: HasRef(s.refs, parent, child) ==> child.table in order && IsKey(c, parent, child)
    ensures (forall parent: ColumnRef, child: ColumnRef :: child.table in order && IsKey(c, parent, child) ==> HasRef(s.refs, parent, child))
        <==> forall t :: t in order ==> OneLinkEach(c, t)
  {
    hide WellFormed, HasRef, IsKey, Kept, OneLinkEach;
    assert s.refs == AllRefs(c, order);
    hide Mirrors, AllRefs;
    forall parent: ColumnRef, child: ColumnRef
      ensures HasRef(s.refs, parent, child) <==> child.table in order && Kept(c, parent, child)
      ensures Kept(c, parent, child) ==> IsKey(c, parent, child)
    {
      RefsAreKept(c, order, parent, child);
      if Kept(c, parent, child) { KeptHasRow(c, parent, child); }
    }
    forall t | t in order
      ensures (forall parent: ColumnRef, child: ColumnRef :: child.table == t && IsKey(c, parent, child) ==> Kept(c, parent, child))
          <==> OneLinkEach(c, t)
    {
      TableKeepsExactly(c, t);
    }
  }

  // ---- a table of the repository that loses a foreign key ----

  /** A child i with two foreign keys, on columns a and b, to the key k of one parent p, as
      permission_implications has to permissions. */
  function TwoKeys(p: string, i: string, k: string, a: string, b: string): Catalog {
    var key := ColumnRow(k, BigSerial, true, false);
    Catalog(
      [p, i], map[p := [], i := [p, p]], map[(p, i) := [Link(k, a), Link(k, b)]],
      map[p := [key], i := [key, ColumnRow(a, BigInteger, false, false), ColumnRow(b, BigInteger, false, false)]],
      {}, map[p := [], i := [[a, b]]])
  }

  predicate FiveNames(p: string, i: string, k: string, a: string, b: string) {
    p != i && k != a && k != b && a != b
  }

  lemma TwoKeysWellFormed(p: string, i: string, k: string, a: string, b: string)
    requires FiveNames(p, i, k, a, b)
    ensures WellFormed(TwoKeys(p, i, k, a, b))
  {
    var c := TwoKeys(p, i, k, a, b);
    var rows := c.columns[i];
    assert rows[0].name == k && rows[1].name == a && rows[2].name == b && c.columns[p][0].name == k;
    assert HasRow(c.columns[p], k) && HasRow(rows, a) && HasRow(rows, b);
    assert DistinctRows(c.columns[p]) && DistinctRows(rows);
    assert Links(c, p, i) == [Link(k, a), Link(k, b)] && Linked(c, p, i);
    hide HasRow, Links, DistinctRows, Linked;
    forall t, q | t in c.tables && q in c.parents[t] ensures t == i && q == p {
      assert t == p || t == i;
    }
    assert forall l :: l in Links(c, p, i) ==> l == Link(k, a) || l == Link(k, b);
  }

  /** Its second foreign key is in the catalog, and becomes a plain column. */
  lemma SecondKeyIsLost(p: string, i: string, k: string, a: string, b: string)
    requires FiveNames(p, i, k, a, b)
    ensures var c := TwoKeys(p, i, k, a, b);
      && WellFormed(c) && IsKey(c, ColumnRef(p, k), ColumnRef(i, b))
      && Kept(c, ColumnRef(p, k), ColumnRef(i, a)) && b !in Keys(c, i) && !OneLinkEach(c, i)
  {
    TwoKeysWellFormed(p, i, k, a, b);
    hide WellFormed;
    var c := TwoKeys(p, i, k, a, b);
    var links := Links(c, p, i);
    assert links[0] == Link(k, a) && links[1] == Link(k, b) && links[0] in links && links[1] in links;
    assert c.parents[i] == [p, p] && p in c.parents[i];
    FirstLinkWins(c, i, [p, p], 0);
  }
}
