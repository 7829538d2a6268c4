/** The schema builder as functions on schema values: tables, columns, and the
    column-level foreign-key references that the builder records as columns are added. */
module Schema {
  import opened Wrappers

  datatype DbType = Serial | BigSerial | Integer | BigInteger | Other(name: string)

  datatype Column = Column(
    name: string, dbType: DbType, primaryKey: bool, unique: bool, nullable: bool, default: string)

  datatype Table = Table(
    name: string, columns: seq<Column>, uniques: seq<seq<string>>, checks: seq<(string, string)>)

  datatype ColumnRef = ColumnRef(table: string, column: string)

  datatype Ref = Ref(parent: ColumnRef, child: ColumnRef, nullable: bool)

  datatype Schema = Schema(tables: seq<Table>, refs: seq<Ref>)

  /** A builder call. AddColumn stands for the simple, primary-key, unique, nullable and
      defaulted variants, which differ in the column they add. */
  datatype Op =
    | AddTable(table: string)
    | AddColumn(table: string, column: Column)
    | AddForeignKey(parent: ColumnRef, child: ColumnRef, nullable: bool)
    | AddUnique(table: string, columns: seq<string>)
    | AddCheck(table: string, name: string, expression: string)

  /** What a call leaves behind, whether it returned or threw. */
  datatype Outcome = Returned(schema: Schema) | Threw(schema: Schema)

  // ---- lookups ----

  /** Position of a table, or the number of tables. */
  function FindTable(tables: seq<Table>, name: string): (i: nat)
    ensures i <= |tables|
    ensures i < |tables| ==> tables[i].name == name
    ensures forall j :: 0 <= j < i ==> tables[j].name != name
  {
    if tables == [] then 0
    else if tables[0].name == name then 0
    else 1 + FindTable(tables[1..], name)
  }

  function FindColumn(columns: seq<Column>, name: string): (i: nat)
    ensures i <= |columns|
    ensures i < |columns| ==> columns[i].name == name
    ensures forall j :: 0 <= j < i ==> columns[j].name != name
  {
    if columns == [] then 0
    else if columns[0].name == name then 0
    else 1 + FindColumn(columns[1..], name)
  }

  function FindChild(refs: seq<Ref>, child: ColumnRef): (i: nat)
    ensures i <= |refs|
    ensures i < |refs| ==> refs[i].child == child
    ensures forall j :: 0 <= j < i ==> refs[j].child != child
  {
    if refs == [] then 0
    else if refs[0].child == child then 0
    else 1 + FindChild(refs[1..], child)
  }

  predicate HasTable(s: Schema, name: string) { FindTable(s.tables, name) < |s.tables| }

  predicate HasColumn(s: Schema, c: ColumnRef) {
    HasTable(s, c.table)
    && var t := s.tables[FindTable(s.tables, c.table)]; FindColumn(t.columns, c.column) < |t.columns|
  }

  function TypeOf(s: Schema, c: ColumnRef): DbType
    requires HasColumn(s, c)
  {
    var t := s.tables[FindTable(s.tables, c.table)];
    t.columns[FindColumn(t.columns, c.column)].dbType
  }

  /** A column that refers to an automatically numbered one holds the plain number. */
  function Referring(t: DbType): DbType {
    match t
    case Serial => Integer
    case BigSerial => BigInteger
    case _ => t
  }

  // ---- the calls ----

  function WithColumn(s: Schema, i: nat, c: Column): Schema
    requires i < |s.tables|
  {
    s.(tables := s.tables[i := s.tables[i].(columns := s.tables[i].columns + [c])])
  }

  function DoAddColumn(s: Schema, table: string, c: Column): Outcome {
    var i := FindTable(s.tables, table);
    if i == |s.tables| then Threw(s)
    else if FindColumn(s.tables[i].columns, c.name) < |s.tables[i].columns| then Threw(s)
    else Returned(WithColumn(s, i, c))
  }

  /** AddForeignKeyReference: a child already present is left alone, and only a parent that
      differs in both table and column is refused. */
  function DoAddReference(s: Schema, r: Ref): Outcome {
    var i := FindChild(s.refs, r.child);
    if i == |s.refs| then Returned(s.(refs := s.refs + [r]))
    else if s.refs[i].parent.table != r.parent.table && s.refs[i].parent.column != r.parent.column then Threw(s)
    else Returned(s)
  }

  function DoAddForeignKey(s: Schema, parent: ColumnRef, child: ColumnRef, nullable: bool): Outcome {
    if !HasTable(s, parent.table) || !HasTable(s, child.table) || !HasColumn(s, parent) then Threw(s)
    else
      match DoAddReference(s, Ref(parent, child, nullable))
      case Threw(s1) => Threw(s1)
      case Returned(s1) =>
        DoAddColumn(s1, child.table, Column(child.column, Referring(TypeOf(s, parent)), false, false, nullable, ""))
  }

  function Apply(s: Schema, op: Op): Outcome {
    match op
    case AddTable(t) =>
      if HasTable(s, t) then Threw(s) else Returned(s.(tables := s.tables + [Table(t, [], [], [])]))
    case AddColumn(t, c) => DoAddColumn(s, t, c)
    case AddForeignKey(parent, child, nullable) => DoAddForeignKey(s, parent, child, nullable)
    case AddUnique(t, columns) =>
      var i := FindTable(s.tables, t);
      if i == |s.tables| || columns == [] then Threw(s)
      else Returned(s.(tables := s.tables[i := s.tables[i].(uniques := s.tables[i].uniques + [columns])]))
    case AddCheck(t, name, expression) =>
      var i := FindTable(s.tables, t);
      if i == |s.tables| || expression == "" then Threw(s)
      else Returned(s.(tables := s.tables[i := s.tables[i].(checks := s.tables[i].checks + [(name, expression)])]))
  }

  /** A list of calls, each of which must return. */
  function RunAll(s: Schema, ops: seq<Op>): Option<Schema>
    decreases |ops|
  {
    if ops == [] then Some(s)
    else match Apply(s, ops[0])
         case Threw(_) => None
         case Returned(next) => RunAll(next, ops[1..])
  }

  function Empty(): Schema { Schema([], []) }

  // ---- the invariant ----

  ghost predicate DistinctNames(s: Schema) {
    && (forall i, j :: 0 <= i < j < |s.tables| ==> s.tables[i].name != s.tables[j].name)
    && (forall t :: t in s.tables ==> DistinctColumns(t.columns))
  }

  ghost predicate DistinctColumns(columns: seq<Column>) {
    forall i, j :: 0 <= i < j < |columns| ==> columns[i].name != columns[j].name
  }

  /** Both ends exist and the child holds what the parent holds. */
  ghost predicate SoundRef(s: Schema, r: Ref) {
    && HasColumn(s, r.parent) && HasColumn(s, r.child)
    && TypeOf(s, r.child) == Referring(TypeOf(s, r.parent))
  }

  ghost predicate SoundRefs(s: Schema) {
    forall i :: 0 <= i < |s.refs| ==> SoundRef(s, s.refs[i])
  }

  /** Each child column has one parent. */
  ghost predicate OneParent(refs: seq<Ref>) {
    forall i, j :: 0 <= i < j < |refs| ==> refs[i].child != refs[j].child
  }

  /** A parent that is itself a child was made one by an earlier reference. */
  ghost predicate ParentsFirst(refs: seq<Ref>) {
    forall i, j :: 0 <= i < |refs| && 0 <= j < |refs| && refs[i].parent == refs[j].child ==> j < i
  }

  ghost predicate Inv(s: Schema) {
    DistinctNames(s) && SoundRefs(s) && OneParent(s.refs) && ParentsFirst(s.refs)
  }

  // ---- a call keeps it ----

  /** Growth: every table and column keeps its place, and columns keep their types. */
  ghost predicate Extends(s: Schema, s': Schema) {
    && |s.tables| <= |s'.tables|
    && forall i :: 0 <= i < |s.tables| ==>
         s'.tables[i].name == s.tables[i].name && s.tables[i].columns <= s'.tables[i].columns
  }

  lemma ColumnStays(s: Schema, s': Schema, c: ColumnRef)
    requires Extends(s, s') && HasColumn(s, c)
    ensures HasColumn(s', c) && TypeOf(s', c) == TypeOf(s, c)
  {
    hide FindTable, FindColumn;
    var i := FindTable(s.tables, c.table);
  }

  lemma RefsStay(s: Schema, s': Schema)
    requires SoundRefs(s) && Extends(s, s') && s'.refs == s.refs
    ensures SoundRefs(s')
  {
    forall i | 0 <= i < |s'.refs| ensures SoundRef(s', s'.refs[i]) {
      assert SoundRef(s, s.refs[i]);
      ColumnStays(s, s', s.refs[i].parent);
      ColumnStays(s, s', s.refs[i].child);
    }
  }

  /** Where the new column is found, and that it was not there before. */
  lemma NewColumn(s: Schema, table: string, c: Column)
    requires DoAddColumn(s, table, c).Returned? && DistinctNames(s)
    ensures var s' := DoAddColumn(s, table, c).schema; var r := ColumnRef(table, c.name);
      && Extends(s, s') && DistinctNames(s') && s'.refs == s.refs
      && !HasColumn(s, r) && HasColumn(s', r) && TypeOf(s', r) == c.dbType
  {
    hide FindTable, FindColumn;
    var s' := DoAddColumn(s, table, c).schema;
    var i := FindTable(s.tables, table);
    assert s.tables[i] in s.tables;
    var columns := s'.tables[i].columns;
    assert columns[|columns| - 1] == c;
    forall t | t in s'.tables ensures DistinctColumns(t.columns) {
      if t != s'.tables[i] { assert t in s.tables; }
    }
  }

  /** A column that does not exist yet is nobody's child. */
  lemma NotYetChild(s: Schema, c: ColumnRef)
    requires SoundRefs(s) && !HasColumn(s, c)
    ensures FindChild(s.refs, c) == |s.refs|
    ensures forall i :: 0 <= i < |s.refs| ==> s.refs[i].child != c && s.refs[i].parent != c
  {
    hide HasColumn, FindChild, TypeOf;
    forall i | 0 <= i < |s.refs| ensures s.refs[i].child != c && s.refs[i].parent != c {
      assert SoundRef(s, s.refs[i]);
    }
  }

  /** A reference to an existing column, added with its new child column, keeps all sound. */
  lemma SoundWithOneMore(s: Schema, s': Schema, r: Ref)
    requires SoundRefs(s) && Extends(s, s') && s'.refs == s.refs + [r]
    requires HasColumn(s, r.parent) && HasColumn(s', r.child) && TypeOf(s', r.child) == Referring(TypeOf(s, r.parent))
    ensures SoundRefs(s')
  {
    hide HasColumn, TypeOf, Extends, Referring;
    ColumnStays(s, s', r.parent);
    forall i | 0 <= i < |s'.refs| ensures SoundRef(s', s'.refs[i]) {
      if i < |s.refs| {
        assert SoundRef(s, s.refs[i]);
        ColumnStays(s, s', s.refs[i].parent);
        ColumnStays(s, s', s.refs[i].child);
      }
    }
  }

  lemma FirstWithOneMore(refs: seq<Ref>, r: Ref)
    requires OneParent(refs) && ParentsFirst(refs) && r.parent != r.child
    requires forall i :: 0 <= i < |refs| ==> refs[i].child != r.child && refs[i].parent != r.child
    ensures OneParent(refs + [r]) && ParentsFirst(refs + [r])
  {
    var all := refs + [r];
    assert forall i :: 0 <= i < |refs| ==> all[i] == refs[i];
  }

  lemma ForeignKeyKeeps(s: Schema, parent: ColumnRef, child: ColumnRef, nullable: bool)
    requires Inv(s) && DoAddForeignKey(s, parent, child, nullable).Returned?
    ensures Inv(DoAddForeignKey(s, parent, child, nullable).schema)
  {
    hide FindTable, FindColumn, FindChild, HasColumn, HasTable, TypeOf, DoAddColumn, SoundRefs, OneParent, ParentsFirst, Extends,
      DistinctNames, Referring;
    var r := Ref(parent, child, nullable);
    var s1 := DoAddReference(s, r).schema;
    var c := Column(child.column, Referring(TypeOf(s, parent)), false, false, nullable, "");
    SameNames(s, s1);
    NewColumn(s1, child.table, c);
    SameColumns(s, s1, child);
    NotYetChild(s, child);
    assert s1.refs == s.refs + [r];
    SoundWithOneMore(s, DoAddColumn(s1, child.table, c).schema, r);
    FirstWithOneMore(s.refs, r);
  }

  lemma SameNames(s: Schema, s1: Schema)
    requires s1.tables == s.tables
    ensures DistinctNames(s1) <==> DistinctNames(s)
    ensures forall s' :: Extends(s1, s') <==> Extends(s, s')
  {
  }

  lemma SameColumns(s: Schema, s1: Schema, c: ColumnRef)
    requires s1.tables == s.tables
    ensures HasColumn(s1, c) <==> HasColumn(s, c)
  {
  }

  lemma TableKeeps(s: Schema, t: string)
    requires Inv(s) && Apply(s, AddTable(t)).Returned?
    ensures Inv(Apply(s, AddTable(t)).schema)
  {
    hide FindTable, FindColumn, SoundRefs, OneParent, ParentsFirst;
    var s' := Apply(s, AddTable(t)).schema;
    assert s'.tables[|s.tables|].columns == [];
    RefsStay(s, s');
  }

  lemma ConstraintKeeps(s: Schema, s': Schema)
    requires Inv(s) && s'.refs == s.refs && |s'.tables| == |s.tables|
    requires forall i :: 0 <= i < |s.tables| ==>
      s'.tables[i].name == s.tables[i].name && s'.tables[i].columns == s.tables[i].columns
    ensures Inv(s')
  {
    hide SoundRefs, OneParent, ParentsFirst;
    forall t | t in s'.tables ensures DistinctColumns(t.columns) {
      var i :| 0 <= i < |s'.tables| && s'.tables[i] == t;
      assert s.tables[i] in s.tables;
    }
    RefsStay(s, s');
  }

  lemma ApplyKeeps(s: Schema, op: Op)
    requires Inv(s) && Apply(s, op).Returned?
    ensures Inv(Apply(s, op).schema)
  {
    hide SoundRefs, OneParent, ParentsFirst, FindTable, DoAddColumn, DoAddForeignKey, DistinctNames, Extends;
    var s' := Apply(s, op).schema;
    match op
    case AddForeignKey(parent, child, nullable) => ForeignKeyKeeps(s, parent, child, nullable);
    case AddColumn(t, c) =>
      NewColumn(s, t, c);
      RefsStay(s, s');
    case AddTable(t) => TableKeeps(s, t);
    case _ => ConstraintKeeps(s, s');
  }

  // ---- over every list of successful calls ----

  /** A walk from child to parent along references, by their positions. */
  ghost predicate IsWalk(refs: seq<Ref>, walk: seq<nat>) {
    && walk != []
    && (forall k :: 0 <= k < |walk| ==> walk[k] < |refs|)
    && (forall k :: 0 <= k < |walk| - 1 ==> refs[walk[k]].parent == refs[walk[k + 1]].child)
  }

  /** No walk along references comes back to the column it left. */
  ghost predicate Acyclic(refs: seq<Ref>) {
    forall walk :: IsWalk(refs, walk) ==> refs[walk[|walk| - 1]].parent != refs[walk[0]].child
  }

  lemma {:induction false} WalkDescends(refs: seq<Ref>, walk: seq<nat>)
    requires ParentsFirst(refs) && IsWalk(refs, walk)
    ensures walk[|walk| - 1] <= walk[0]
  {
    if |walk| > 1 {
      var shorter := walk[..|walk| - 1];
      assert IsWalk(refs, shorter);
      WalkDescends(refs, shorter);
      var k := |walk| - 2;
      assert refs[walk[k]].parent == refs[walk[k + 1]].child;
    }
  }

  lemma NoCycles(refs: seq<Ref>)
    requires ParentsFirst(refs)
    ensures Acyclic(refs)
  {
    forall walk | IsWalk(refs, walk) ensures refs[walk[|walk| - 1]].parent != refs[walk[0]].child {
      WalkDescends(refs, walk);
    }
  }

  lemma {:induction false} RunKeeps(s: Schema, ops: seq<Op>)
    requires Inv(s) && RunAll(s, ops).Some?
    ensures Inv(RunAll(s, ops).value)
    decreases |ops|
  {
    if ops != [] {
      ApplyKeeps(s, ops[0]);
      RunKeeps(Apply(s, ops[0]).schema, ops[1..]);
    }
  }

  /** Over every sequence of successful calls: both ends of each reference exist, each
      child column has exactly one parent and the matching type, and references are
      acyclic. */
  lemma BuiltSchemasAreSound(ops: seq<Op>)
    requires RunAll(Empty(), ops).Some?
    ensures var s := RunAll(Empty(), ops).value;
      && DistinctNames(s) && SoundRefs(s) && OneParent(s.refs) && Acyclic(s.refs)
      && forall r :: r in s.refs ==> HoldsNumbers(s, r)
  {
    RunKeeps(Empty(), ops);
    var s := RunAll(Empty(), ops).value;
    NoCycles(s.refs);
    forall r | r in s.refs ensures HoldsNumbers(s, r) {
      var i :| 0 <= i < |s.refs| && s.refs[i] == r;
      assert SoundRef(s, s.refs[i]);
    }
  }

  /** The child of an automatically numbered column holds plain numbers of the same width,
      and any other child holds what its parent holds. */
  ghost predicate HoldsNumbers(s: Schema, r: Ref) {
    && HasColumn(s, r.parent) && HasColumn(s, r.child)
    && (TypeOf(s, r.parent) == Serial ==> TypeOf(s, r.child) == Integer)
    && (TypeOf(s, r.parent) == BigSerial ==> TypeOf(s, r.child) == BigInteger)
    && (TypeOf(s, r.parent) != Serial && TypeOf(s, r.parent) != BigSerial ==> TypeOf(s, r.child) == TypeOf(s, r.parent))
  }

  // ---- what a successful call adds ----

  /** The column that a lookup finds. */
  function ColumnAt(s: Schema, c: ColumnRef): Column
    requires HasColumn(s, c)
  {
    var t := s.tables[FindTable(s.tables, c.table)];
    t.columns[FindColumn(t.columns, c.column)]
  }

  function TableAt(s: Schema, name: string): Table
    requires HasTable(s, name)
  {
    s.tables[FindTable(s.tables, name)]
  }

  /** A lookup after a successful call finds what the call asked for. */
  ghost predicate Adds(s: Schema, s': Schema, op: Op) {
    match op
    case AddTable(t) => !HasTable(s, t) && HasTable(s', t) && TableAt(s', t) == Table(t, [], [], [])
    case AddColumn(t, c) =>
      var r := ColumnRef(t, c.name); !HasColumn(s, r) && HasColumn(s', r) && ColumnAt(s', r) == c
    case AddForeignKey(parent, child, nullable) =>
      && !HasColumn(s, child) && HasColumn(s, parent) && HasColumn(s', child)
      && Ref(parent, child, nullable) in s'.refs
      && var c := ColumnAt(s', child);
      c.name == child.column && !c.primaryKey && !c.unique && (c.nullable <==> nullable) && c.default == ""
    case AddUnique(t, columns) =>
      HasTable(s, t) && HasTable(s', t) && columns != [] && TableAt(s', t).uniques == TableAt(s, t).uniques + [columns]
    case AddCheck(t, name, expression) =>
      && HasTable(s, t) && HasTable(s', t) && expression != ""
      && TableAt(s', t).checks == TableAt(s, t).checks + [(name, expression)]
  }

  lemma ColumnAdded(s: Schema, table: string, c: Column)
    requires DoAddColumn(s, table, c).Returned? && DistinctNames(s)
    ensures var s' := DoAddColumn(s, table, c).schema; var r := ColumnRef(table, c.name);
      !HasColumn(s, r) && HasColumn(s', r) && ColumnAt(s', r) == c
  {
    hide FindTable, FindColumn;
    var s' := DoAddColumn(s, table, c).schema;
    var i := FindTable(s.tables, table);
    assert s'.tables[i].columns[|s.tables[i].columns|] == c;
  }

  lemma CallAdds(s: Schema, op: Op)
    requires Inv(s) && Apply(s, op).Returned?
    ensures Adds(s, Apply(s, op).schema, op)
  {
    hide FindTable, FindColumn, DoAddColumn, HasColumn, ColumnAt, FindChild;
    match op
    case AddColumn(t, c) => ColumnAdded(s, t, c);
    case AddForeignKey(parent, child, nullable) => KeyAdds(s, parent, child, nullable);
    case _ => ConstraintAdds(s, op);
  }

  lemma ConstraintAdds(s: Schema, op: Op)
    requires Inv(s) && Apply(s, op).Returned? && !op.AddColumn? && !op.AddForeignKey?
    ensures Adds(s, Apply(s, op).schema, op)
  {
    hide FindTable, FindColumn, DoAddColumn, HasColumn, SoundRefs, OneParent, ParentsFirst;
    var s' := Apply(s, op).schema;
    var i, k := FindTable(s.tables, op.table), FindTable(s'.tables, op.table);
    assert i < |s'.tables| && s'.tables[i].name == op.table;
    assert k < |s.tables| ==> s.tables[k].name == s'.tables[k].name;
  }

  lemma KeyAdds(s: Schema, parent: ColumnRef, child: ColumnRef, nullable: bool)
    requires Inv(s) && DoAddForeignKey(s, parent, child, nullable).Returned?
    ensures Adds(s, DoAddForeignKey(s, parent, child, nullable).schema, AddForeignKey(parent, child, nullable))
  {
    hide FindTable, FindColumn, FindChild, HasColumn, HasTable, TypeOf, DoAddColumn, ColumnAt, SoundRefs, OneParent, ParentsFirst,
      Extends, DistinctNames, Referring;
    var r := Ref(parent, child, nullable);
    var s1 := DoAddReference(s, r).schema;
    var c := Column(child.column, Referring(TypeOf(s, parent)), false, false, nullable, "");
    SameNames(s, s1);
    NewColumn(s1, child.table, c);
    ColumnAdded(s1, child.table, c);
    SameColumns(s, s1, child);
    NotYetChild(s, child);
    assert s1.refs == s.refs + [r];
  }

  // ---- calls that throw ----

  /** The one call that throws after it has already recorded something: a foreign key
      whose lookups succeed onto a child column that exists and has no reference yet. */
  predicate LeavesTrace(s: Schema, op: Op) {
    && op.AddForeignKey?
    && HasTable(s, op.child.table) && HasColumn(s, op.parent) && HasColumn(s, op.child)
    && FindChild(s.refs, op.child) == |s.refs|
  }

  /** A throwing call leaves the schema as it was, except exactly in that case. */
  lemma ThrowingCallChangesNothing(s: Schema, op: Op)
    requires Apply(s, op).Threw?
    ensures Apply(s, op).schema == s <==> !LeavesTrace(s, op)
  {
    hide FindTable, FindColumn, FindChild;
    if op.AddForeignKey? {
      var r := Ref(op.parent, op.child, op.nullable);
      assert |s.refs + [r]| > |s.refs|;
    }
  }

  /** Such a call can leave a reference from a column to itself. */
  lemma FailedCallCanMakeCycle()
    ensures var id := ColumnRef("t", "id");
      var s := RunAll(Empty(), [AddTable("t"), AddColumn("t", Column("id", Serial, true, false, false, ""))]);
      && s.Some? && Inv(s.value)
      && Apply(s.value, AddForeignKey(id, id, false)).Threw?
      && !Acyclic(Apply(s.value, AddForeignKey(id, id, false)).schema.refs)
  {
    var id := ColumnRef("t", "id");
    var c := Column("id", Serial, true, false, false, "");
    var ops := [AddTable("t"), AddColumn("t", c)];
    var s1 := Schema([Table("t", [], [], [])], []);
    var s2 := Schema([Table("t", [c], [], [])], []);
    assert [] + [Table("t", [], [], [])] == s1.tables && [] + [c] == [c];
    assert Apply(Empty(), ops[0]) == Returned(s1);
    assert ops[1..][0] == AddColumn("t", c) && ops[1..][1..] == [];
    assert Apply(s1, ops[1..][0]) == Returned(s2);
    assert RunAll(s2, ops[1..][1..]) == Some(s2);
    assert RunAll(s1, ops[1..]) == Some(s2);
    var s' := Apply(s2, AddForeignKey(id, id, false)).schema;
    assert s'.refs == [Ref(id, id, false)];
    assert IsWalk(s'.refs, [0]);
  }
}
