/** The schema builder's objects. `DatabaseInfo` is a handle: it points to an implementation
    object, which holds those of its tables and of its foreign keys. Copying a handle shares
    the implementation, Clone copies every object behind it. */
module SchemaObjects {
  import opened S = Schema

  class TableInfoImpl {
    var name: string
    var columns: seq<Column>
    var uniques: seq<seq<string>>
    var checks: seq<(string, string)>

    function View(): Table
      reads this
    {
      Table(name, columns, uniques, checks)
    }

    constructor (name: string)
      ensures View() == Table(name, [], [], [])
    {
      this.name, columns, uniques, checks := name, [], [], [];
    }

    constructor Copy(from: TableInfoImpl)
      ensures View() == from.View()
    {
      name, columns, uniques, checks := from.name, from.columns, from.uniques, from.checks;
    }

    method AddColumn(c: Column) returns (threw: bool)
      modifies this`columns
      ensures threw == (FindColumn(old(columns), c.name) < |old(columns)|)
      ensures columns == if threw then old(columns) else old(columns) + [c]
    {
      for i := 0 to |columns|
        invariant columns == old(columns)
        invariant forall j :: 0 <= j < i ==> columns[j].name != c.name
      {
        if columns[i].name == c.name { return true; }
      }
      columns := columns + [c];
      return false;
    }
  }

  class ForeignKeyManagerImpl {
    var refs: seq<Ref>

    constructor (refs: seq<Ref>)
      ensures this.refs == refs
    {
      this.refs := refs;
    }

    method AddForeignKeyReference(r: Ref) returns (threw: bool)
      modifies this`refs
      ensures var before := S.Schema.Schema([], old(refs));
        DoAddReference(before, r) == if threw then Threw(before.(refs := refs)) else Returned(before.(refs := refs))
    {
      var i := 0;
      while i < |refs|
        invariant i <= |refs| && refs == old(refs)
        invariant forall j :: 0 <= j < i ==> refs[j].child != r.child
      {
        if refs[i].child == r.child {
          threw := refs[i].parent.table != r.parent.table && refs[i].parent.column != r.parent.column;
          return;
        }
        i := i + 1;
      }
      refs := refs + [r];
      threw := false;
    }
  }

  ghost function Views(tables: seq<TableInfoImpl>): seq<Table>
    reads tables
  {
    seq(|tables|, i requires 0 <= i < |tables| reads tables => tables[i].View())
  }

  class DatabaseInfoImpl {
    var tables: seq<TableInfoImpl>
    var foreignKeys: ForeignKeyManagerImpl

    ghost function Footprint(): set<object>
      reads this
    {
      {this, foreignKeys} + set t | t in tables
    }

    /** No two entries of the table list share an object. */
    ghost predicate Valid()
      reads this
    {
      forall i, j :: 0 <= i < j < |tables| ==> tables[i] != tables[j]
    }

    ghost function View(): Schema
      reads this, tables, foreignKeys
    {
      S.Schema.Schema(Views(tables), foreignKeys.refs)
    }

    constructor ()
      ensures Valid() && fresh(Footprint()) && View() == Empty()
    {
      tables := [];
      foreignKeys := new ForeignKeyManagerImpl([]);
    }

    method Find(name: string) returns (i: nat)
      ensures i == FindTable(View().tables, name)
    {
      i := 0;
      while i < |tables|
        invariant i <= |tables|
        invariant forall j :: 0 <= j < i ==> View().tables[j].name != name
      {
        assert View().tables[i] == tables[i].View();
        if tables[i].name == name { return; }
        i := i + 1;
      }
    }

    method AddTable(name: string) returns (threw: bool)
      requires Valid()
      modifies this`tables
      ensures Valid() && foreignKeys == old(foreignKeys) && fresh(Footprint() - old(Footprint()))
      ensures Apply(old(View()), Op.AddTable(name)) == if threw then Threw(View()) else Returned(View())
    {
      var i := Find(name);
      if i < |tables| { return true; }
      var t := new TableInfoImpl(name);
      tables := tables + [t];
      threw := false;
    }

    method AddColumn(table: string, c: Column) returns (threw: bool)
      requires Valid()
      modifies tables
      ensures Valid()
      ensures DoAddColumn(old(View()), table, c) == if threw then Threw(View()) else Returned(View())
    {
      var i := Find(table);
      if i == |tables| { return true; }
      threw := tables[i].AddColumn(c);
    }

    /** The three lookups of a foreign key, and the type its column gets. */
    method LookUp(parent: ColumnRef, child: ColumnRef) returns (found: bool, databaseType: DbType)
      ensures found == (HasTable(View(), parent.table) && HasTable(View(), child.table) && HasColumn(View(), parent))
      ensures found ==> databaseType == Referring(TypeOf(View(), parent))
    {
      hide FindTable, FindColumn;
      databaseType := Integer;
      var p := Find(parent.table);
      if p == |tables| { return false, databaseType; }
      var c := Find(child.table);
      if c == |tables| { return false, databaseType; }
      assert View().tables[p] == tables[p].View();
      var column := FindColumn(tables[p].columns, parent.column);
      if column == |tables[p].columns| { return false, databaseType; }
      databaseType := tables[p].columns[column].dbType;
      if databaseType == Serial {
        databaseType := Integer;
      } else if databaseType == BigSerial {
        databaseType := BigInteger;
      }
      found := true;
    }

    method AddForeignKey(parent: ColumnRef, child: ColumnRef, nullable: bool) returns (threw: bool)
      requires Valid()
      modifies tables, foreignKeys
      ensures Valid()
      ensures DoAddForeignKey(old(View()), parent, child, nullable)
           == if threw then Threw(View()) else Returned(View())
    {
      hide FindTable, FindColumn, FindChild, HasTable, HasColumn, TypeOf, Referring, DoAddColumn, Views;
      ghost var before := View();
      var found, databaseType := LookUp(parent, child);
      if !found { return true; }
      threw := foreignKeys.AddForeignKeyReference(Ref(parent, child, nullable));
      assert View().tables == before.tables;
      if threw { return; }
      threw := AddColumn(child.table, Column(child.column, databaseType, false, false, nullable, ""));
    }

    method AddUnique(table: string, columns: seq<string>) returns (threw: bool)
      requires Valid()
      modifies tables
      ensures Valid()
      ensures Apply(old(View()), Op.AddUnique(table, columns)) == if threw then Threw(View()) else Returned(View())
    {
      var i := Find(table);
      if i == |tables| || columns == [] { return true; }
      tables[i].uniques := tables[i].uniques + [columns];
      threw := false;
    }

    method AddCheck(table: string, name: string, expression: string) returns (threw: bool)
      requires Valid()
      modifies tables
      ensures Valid()
      ensures Apply(old(View()), Op.AddCheck(table, name, expression))
           == if threw then Threw(View()) else Returned(View())
    {
      var i := Find(table);
      if i == |tables| || expression == "" { return true; }
      tables[i].checks := tables[i].checks + [(name, expression)];
      threw := false;
    }

    /** The deep copy behind DatabaseInfo::Clone. */
    method Clone() returns (copy: DatabaseInfoImpl)
      requires Valid()
      ensures copy.Valid() && fresh(copy) && fresh(copy.Footprint())
      ensures copy.View() == View() && View() == old(View())
    {
      var cloned: seq<TableInfoImpl> := [];
      for i := 0 to |tables|
        invariant |cloned| == i && fresh(cloned)
        invariant forall j :: 0 <= j < i ==> cloned[j].View() == tables[j].View()
        invariant forall j, k :: 0 <= j < k < i ==> cloned[j] != cloned[k]
      {
        var t := new TableInfoImpl.Copy(tables[i]);
        cloned := cloned + [t];
      }
      assert Views(cloned) == Views(tables);
      copy := new DatabaseInfoImpl();
      var keys := new ForeignKeyManagerImpl(foreignKeys.refs);
      copy.foreignKeys := keys;
      copy.tables := cloned;
      assert Views(copy.tables) == Views(tables);
    }

    /** Any builder call. */
    method Perform(op: Op) returns (threw: bool)
      requires Valid()
      modifies Footprint()
      ensures Valid() && fresh(Footprint() - old(Footprint()))
      ensures Apply(old(View()), op) == if threw then Threw(View()) else Returned(View())
    {
      match op
      case AddTable(t) => threw := this.AddTable(t);
      case AddColumn(t, c) => threw := this.AddColumn(t, c);
      case AddForeignKey(p, c, n) => threw := this.AddForeignKey(p, c, n);
      case AddUnique(t, c) => threw := this.AddUnique(t, c);
      case AddCheck(t, n, e) => threw := this.AddCheck(t, n, e);
    }
  }

  /** The schema after a list of calls, whether or not each of them threw. */
  function After(s: Schema, ops: seq<Op>): Schema {
    if ops == [] then s else Apply(After(s, ops[..|ops| - 1]), ops[|ops| - 1]).schema
  }

  /** The calls of an interleaving that go to the original (true) or to the copy. */
  function Calls(calls: seq<(bool, Op)>, original: bool): seq<Op> {
    if calls == [] then []
    else Calls(calls[..|calls| - 1], original)
         + if calls[|calls| - 1].0 == original then [calls[|calls| - 1].1] else []
  }

  lemma AfterAppend(s: Schema, ops: seq<Op>, op: Op)
    ensures After(s, ops + [op]) == Apply(After(s, ops), op).schema
  {
    assert (ops + [op])[..|ops|] == ops;
  }

  /** The handle that callers hold: a shared pointer to the implementation. */
  class DatabaseInfo {
    const impl: DatabaseInfoImpl

    constructor ()
      ensures fresh(impl) && impl.Valid() && fresh(impl.Footprint()) && impl.View() == Empty()
    {
      impl := new DatabaseInfoImpl();
    }

    /** Copying a handle copies the pointer. */
    constructor Copy(other: DatabaseInfo)
      ensures impl == other.impl
    {
      impl := other.impl;
    }

    /** A handle on an implementation of its own. */
    constructor Of(impl: DatabaseInfoImpl)
      ensures this.impl == impl
    {
      this.impl := impl;
    }

    method Clone() returns (copy: DatabaseInfo)
      requires impl.Valid()
      ensures fresh(copy) && copy.impl.Valid() && fresh(copy.impl.Footprint())
      ensures copy.impl.View() == impl.View() && impl.View() == old(impl.View())
    {
      var deep := impl.Clone();
      copy := new DatabaseInfo.Of(deep);
    }
  }

  /** After Clone, calls on the two handles in any interleaving: each handle ends as if the
      other had never been called. */
  method EditBothAfterClone(handle: DatabaseInfo, calls: seq<(bool, Op)>) returns (other: DatabaseInfo)
    requires handle.impl.Valid()
    modifies handle.impl.Footprint()
    ensures other != handle && other.impl != handle.impl
    ensures handle.impl.View() == After(old(handle.impl.View()), Calls(calls, true))
    ensures other.impl.View() == After(old(handle.impl.View()), Calls(calls, false))
  {
    hide After, Views, Apply;
    var db := handle.impl;
    ghost var start := db.View();
    AfterNothing(start);
    other := handle.Clone();
    var copy := other.impl;
    for i := 0 to |calls|
      invariant db.Valid() && copy.Valid() && db.Footprint() !! copy.Footprint()
      invariant fresh(copy.Footprint()) && fresh(db.Footprint() - old(db.Footprint()))
      invariant db.View() == After(start, Calls(calls[..i], true))
      invariant copy.View() == After(start, Calls(calls[..i], false))
    {
      var (onOriginal, op) := calls[i];
      NextCall(start, calls, i);
      var threw := EditOne(if onOriginal then db else copy, if onOriginal then copy else db, op);
    }
    assert calls[..|calls|] == calls;
  }

  /** The next call counts for the handle it is made on and not for the other. */
  lemma NextCall(start: Schema, calls: seq<(bool, Op)>, i: nat)
    requires i < |calls|
    ensures var (on, op) := calls[i];
      && After(start, Calls(calls[..i + 1], on)) == Apply(After(start, Calls(calls[..i], on)), op).schema
      && Calls(calls[..i + 1], !on) == Calls(calls[..i], !on)
  {
    hide After, Apply;
    assert calls[..i + 1][..i] == calls[..i];
    var (on, op) := calls[i];
    AfterAppend(start, Calls(calls[..i], on), op);
    assert Calls(calls[..i], !on) + [] == Calls(calls[..i], !on);
  }

  lemma AfterNothing(s: Schema)
    ensures After(s, []) == s
  {
  }

  /** A call through one of two handles with separate objects leaves the other alone. */
  method EditOne(db: DatabaseInfoImpl, other: DatabaseInfoImpl, op: Op) returns (threw: bool)
    requires db.Valid() && other.Valid() && db.Footprint() !! other.Footprint()
    modifies db.Footprint()
    ensures db.Valid() && other.Valid() && db.Footprint() !! other.Footprint()
    ensures fresh(db.Footprint() - old(db.Footprint())) && other.Footprint() == old(other.Footprint())
    ensures db.View() == Apply(old(db.View()), op).schema && other.View() == old(other.View())
  {
    hide Apply, Views;
    threw := db.Perform(op);
  }

  /** The calls of an interleaving in order, whichever handle they go through. */
  function AllCalls(calls: seq<(bool, Op)>): (ops: seq<Op>)
    ensures |ops| == |calls| && forall i :: 0 <= i < |ops| ==> ops[i] == calls[i].1
  {
    seq(|calls|, i requires 0 <= i < |calls| => calls[i].1)
  }

  /** A plain copy of a handle stays an alias: calls through the two handles in any
      interleaving act, in order, on one schema that both show. */
  method EditThroughAlias(handle: DatabaseInfo, calls: seq<(bool, Op)>) returns (other: DatabaseInfo)
    requires handle.impl.Valid()
    modifies handle.impl.Footprint()
    ensures other != handle
    ensures handle.impl.View() == After(old(handle.impl.View()), AllCalls(calls))
    ensures other.impl.View() == After(old(handle.impl.View()), AllCalls(calls))
  {
    hide After, Views, Apply;
    other := new DatabaseInfo.Copy(handle);
    ghost var start := handle.impl.View();
    AfterNothing(start);
    assert AllCalls(calls[..0]) == [];
    for i := 0 to |calls|
      invariant handle.impl.Valid() && fresh(handle.impl.Footprint() - old(handle.impl.Footprint()))
      invariant handle.impl.View() == After(start, AllCalls(calls[..i]))
    {
      var through := if calls[i].0 then handle else other;
      assert AllCalls(calls[..i + 1]) == AllCalls(calls[..i]) + [calls[i].1];
      AfterAppend(start, AllCalls(calls[..i]), calls[i].1);
      var threw := through.impl.Perform(calls[i].1);
    }
    assert calls[..|calls|] == calls;
  }
}
