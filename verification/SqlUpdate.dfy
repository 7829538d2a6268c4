/** The UPDATE statement builder: columns, placeholders and bound parameters come from
    separate passes. A reader for the generated text and an evaluator over rows say what
    the statement does. A statement holds the names that the database makes of its text. */
module SqlUpdate {
  import opened Wrappers
  import opened Text
  import opened Templates
  import opened SqlNames

  type KeyValueTable = seq<(string, string)>

  ghost predicate DistinctKeys(table: KeyValueTable) {
    forall i, j :: 0 <= i < j < |table| ==> table[i].0 != table[j].0
  }

  // ---- placeholders and parameters ----

  function ShowParam(n: nat): string { "$" + NatToString(n) }

  class ExecParamsHelper {
    var count: nat
    var params: seq<string>

    /** The next placeholder is one more than the parameters bound so far. */
    ghost predicate Valid()
      reads this
    {
      count == |params| + 1
    }

    constructor ()
      ensures Valid() && params == []
    {
      count, params := 1, [];
    }

    /** The placeholder returned is the position of the value it stands for. */
    method AddParam(param: string) returns (placeholder: string)
      requires Valid()
      modifies this
      ensures Valid() && params == old(params) + [param]
      ensures placeholder == ShowParam(|params|)
    {
      params := params + [param];
      placeholder := "$" + NatToString(count);
      count := count + 1;
    }
  }

  // ---- the statement ----

  datatype Expr = Param(n: nat) | Keyword(text: string)

  datatype Update = Update(table: string, columns: seq<string>, values: seq<Expr>, lookup: string, key: nat)

  function Show(e: Expr): string {
    match e
    case Param(n) => ShowParam(n)
    case Keyword(t) => t
  }

  function ShowAll(values: seq<Expr>): (r: seq<string>)
    ensures |r| == |values| && forall i :: 0 <= i < |r| ==> r[i] == Show(values[i])
  {
    seq(|values|, i requires 0 <= i < |values| => Show(values[i]))
  }

  function CommaSeparated(items: seq<string>): string {
    if items == [] then ""
    else if |items| == 1 then items[0]
    else CommaSeparated(items[..|items| - 1]) + (", " + items[|items| - 1])
  }

  function EscAll(names: seq<string>): (r: seq<string>)
    ensures |r| == |names| && forall i :: 0 <= i < |r| ==> r[i] == Esc(names[i])
  {
    seq(|names|, i requires 0 <= i < |names| => Esc(names[i]))
  }

  function Print(u: Update): string {
    "UPDATE " + (Esc(u.table) + (" SET (" + (CommaSeparated(EscAll(u.columns)) + (") = ROW("
    + (CommaSeparated(ShowAll(u.values)) + (") WHERE " + (Esc(u.lookup) + (" = " + ShowParam(u.key)))))))))
  }

  /** The values of a table: allowed keywords stand for themselves, and every other value
      takes the next placeholder. */
  function Values(table: KeyValueTable, keywords: set<string>, bound: nat): seq<Expr> {
    if table == [] then []
    else
      var rest, value := table[..|table| - 1], table[|table| - 1].1;
      Values(rest, keywords, bound)
      + [if value in keywords then Keyword(value) else Param(bound + |Bound(rest, keywords)| + 1)]
  }

  /** The values that are bound, in order. */
  function Bound(table: KeyValueTable, keywords: set<string>): seq<string> {
    if table == [] then []
    else Bound(table[..|table| - 1], keywords)
         + if table[|table| - 1].1 in keywords then [] else [table[|table| - 1].1]
  }

  function Keys(table: KeyValueTable): (r: seq<string>)
    ensures |r| == |table| && forall i :: 0 <= i < |r| ==> r[i] == table[i].0
  {
    seq(|table|, i requires 0 <= i < |table| => table[i].0)
  }

  // ---- generating it ----

  method StringArrayToCommaSeparatedString(items: seq<string>) returns (ret: string)
    ensures ret == CommaSeparated(items)
  {
    ret := "";
    var first := true;
    for i := 0 to |items|
      invariant ret == CommaSeparated(items[..i]) && first == (i == 0)
    {
      assert items[..i + 1][..i] == items[..i];
      if first {
        first := false;
        ret := items[i];
      } else {
        ret := ret + (", " + items[i]);
      }
    }
    assert items[..|items|] == items;
  }

  method GenerateInsertParams(table: KeyValueTable, keywords: set<string>, helper: ExecParamsHelper)
    returns (sql: string)
    requires helper.Valid()
    modifies helper
    ensures helper.Valid() && helper.params == old(helper.params) + Bound(table, keywords)
    ensures sql == CommaSeparated(ShowAll(Values(table, keywords, |old(helper.params)|)))
  {
    hide Values, Bound, ShowAll, ShowParam;
    var params: seq<string> := [];
    ghost var before := helper.params;
    NoValues(keywords, |before|);
    for i := 0 to |table|
      invariant helper.Valid() && helper.params == before + Bound(table[..i], keywords)
      invariant params == ShowAll(Values(table[..i], keywords, |before|))
    {
      NextValue(table, keywords, |before|, i);
      if table[i].1 in keywords {
        params := params + [table[i].1];
      } else {
        var placeholder := helper.AddParam(table[i].1);
        params := params + [placeholder];
      }
    }
    assert table[..|table|] == table;
    sql := StringArrayToCommaSeparatedString(params);
  }

  lemma NoValues(keywords: set<string>, bound: nat)
    ensures Bound([], keywords) == [] && ShowAll(Values([], keywords, bound)) == []
  {
  }

  lemma NextValue(table: KeyValueTable, keywords: set<string>, bound: nat, i: nat)
    requires i < |table|
    ensures var sofar, value := Bound(table[..i], keywords), table[i].1;
      && Bound(table[..i + 1], keywords) == (if value in keywords then sofar else sofar + [value])
      && ShowAll(Values(table[..i + 1], keywords, bound)) == ShowAll(Values(table[..i], keywords, bound))
           + [if value in keywords then value else ShowParam(bound + |sofar| + 1)]
  {
    hide ShowParam;
    assert table[..i + 1][..i] == table[..i];
  }

  method GenerateInsertColumnNames(table: KeyValueTable) returns (sql: string)
    ensures sql == CommaSeparated(EscAll(Keys(table)))
  {
    var names: seq<string> := [];
    for i := 0 to |table|
      invariant names == EscAll(Keys(table[..i]))
    {
      assert Keys(table[..i + 1]) == Keys(table[..i]) + [table[i].0];
      var name := EscSqlName(table[i].0);
      names := names + [name];
    }
    assert table[..|table|] == table;
    sql := StringArrayToCommaSeparatedString(names);
  }

  method CheckKeysInTable(table: KeyValueTable, columns: set<string>) returns (threw: bool)
    ensures threw <==> exists i :: 0 <= i < |table| && table[i].0 !in columns
  {
    for i := 0 to |table|
      invariant forall j :: 0 <= j < i ==> table[j].0 in columns
    {
      if table[i].0 !in columns { return true; }
    }
    return false;
  }

  /** Throws (None) when a key or the lookup column is not a column of the table. Otherwise
      the lookup value is bound first, then the values in column order, after whatever was
      bound before. */
  method GenerateUpdateRowSql(
    columns: set<string>, tableName: string, columnName: string, columnValue: string,
    table: KeyValueTable, keywords: set<string>, helper: ExecParamsHelper)
    returns (sql: Option<string>)
    requires helper.Valid()
    modifies helper
    ensures helper.Valid()
    ensures sql.None? <==>
      columnName == "" || columnName !in columns || exists i :: 0 <= i < |table| && table[i].0 !in columns
    ensures sql.None? ==> helper.params == old(helper.params)
    ensures sql.Some? ==>
      && helper.params == old(helper.params) + [columnValue] + Bound(table, keywords)
      && sql.value == Print(Statement(tableName, columnName, table, keywords, |old(helper.params)|))
  {
    hide CommaSeparated, Bound, Values, ShowAll, EscAll, Keys, ShowParam, Esc;
    var threw := CheckKeysInTable(table, columns);
    if threw || columnName == "" || columnName !in columns { return None; }
    var param := helper.AddParam(columnValue);
    var tableText := EscSqlName(tableName);
    var columnList := GenerateInsertColumnNames(table);
    var valueList := GenerateInsertParams(table, keywords, helper);
    var columnText := EscSqlName(columnName);
    PrintedNames(tableName, columnName, table);
    sql := Some("UPDATE " + (tableText + (" SET (" + (columnList + (") = ROW("
      + (valueList + (") WHERE " + (columnText + (" = " + param)))))))));
  }

  /** The table with its keys in lower case. */
  function Lowered(table: KeyValueTable): (r: KeyValueTable)
    ensures |r| == |table| && forall i :: 0 <= i < |r| ==> r[i] == (ToLower(table[i].0), table[i].1)
  {
    seq(|table|, i requires 0 <= i < |table| => (ToLower(table[i].0), table[i].1))
  }

  /** The generated statement: its names are the lower case of the names asked for. */
  function Statement(tableName: string, columnName: string, table: KeyValueTable, keywords: set<string>, bound: nat)
    : Update
  {
    Update(ToLower(tableName), Keys(Lowered(table)), Values(table, keywords, bound + 1), ToLower(columnName), bound + 1)
  }

  lemma PrintedNames(tableName: string, columnName: string, table: KeyValueTable)
    ensures Esc(ToLower(tableName)) == Esc(tableName) && Esc(ToLower(columnName)) == Esc(columnName)
    ensures EscAll(Keys(Lowered(table))) == EscAll(Keys(table))
  {
    EscLower(tableName);
    EscLower(columnName);
    forall i | 0 <= i < |table| ensures Esc(ToLower(table[i].0)) == Esc(table[i].0) { EscLower(table[i].0); }
  }

  // ---- what a statement does ----

  /** A row; a column that is absent is NULL. */
  type Row = map<string, string>

  function Value(e: Expr, params: seq<string>, meaning: string -> string): string {
    match e
    case Param(n) => if 1 <= n <= |params| then params[n - 1] else ""
    case Keyword(t) => meaning(t)
  }

  function Assign(row: Row, u: Update, params: seq<string>, meaning: string -> string, n: nat): Row
    requires n <= |u.columns| == |u.values|
  {
    if n == 0 then row
    else Assign(row, u, params, meaning, n - 1)[u.columns[n - 1] := Value(u.values[n - 1], params, meaning)]
  }

  function ExecuteRow(u: Update, params: seq<string>, meaning: string -> string, row: Row): Row
    requires |u.columns| == |u.values|
  {
    if u.lookup in row && row[u.lookup] == Value(Param(u.key), params, meaning) then
      Assign(row, u, params, meaning, |u.columns|)
    else row
  }

  function Execute(u: Update, params: seq<string>, meaning: string -> string, rows: seq<Row>): (r: seq<Row>)
    requires |u.columns| == |u.values|
    ensures |r| == |rows| && forall i :: 0 <= i < |r| ==> r[i] == ExecuteRow(u, params, meaning, rows[i])
  {
    seq(|rows|, i requires 0 <= i < |rows| => ExecuteRow(u, params, meaning, rows[i]))
  }

  /** What the caller asked for, column by column. */
  function Meant(value: string, keywords: set<string>, meaning: string -> string): string {
    if value in keywords then meaning(value) else value
  }

  ghost predicate SetsExactly(row: Row, after: Row, table: KeyValueTable, keywords: set<string>,
                              meaning: string -> string) {
    && (forall i :: 0 <= i < |table| ==>
          table[i].0 in after && after[table[i].0] == Meant(table[i].1, keywords, meaning))
    && (forall c :: (forall i :: 0 <= i < |table| ==> table[i].0 != c) ==>
          (c in after <==> c in row) && (c in row ==> after[c] == row[c]))
  }

  lemma CutShorter(params: seq<string>, bound: nat, all: nat, some: nat)
    requires some <= all && bound + all <= |params|
    ensures params[bound..bound + some] == params[bound..bound + all][..some]
  {
  }

  /** Column i pairs with value i: keywords shift no placeholder. */
  lemma {:induction false} ValueIsMeant(table: KeyValueTable, keywords: set<string>, params: seq<string>,
                                        bound: nat, meaning: string -> string, i: nat)
    requires i < |table| && bound + |Bound(table, keywords)| <= |params|
    requires params[bound..bound + |Bound(table, keywords)|] == Bound(table, keywords)
    ensures |Values(table, keywords, bound)| == |table|
    ensures Value(Values(table, keywords, bound)[i], params, meaning) == Meant(table[i].1, keywords, meaning)
  {
    var n := |table| - 1;
    var rest, value := table[..n], table[n].1;
    var all, some := Bound(table, keywords), Bound(rest, keywords);
    assert all[..|some|] == some;
    CutShorter(params, bound, |all|, |some|);
    ValuesLength(rest, keywords, bound);
    if i < n {
      ValueIsMeant(rest, keywords, params, bound, meaning, i);
      assert table[i] == rest[i];
    } else if value !in keywords {
      assert params[bound + |some|] == params[bound..bound + |all|][|some|];
    }
  }

  lemma {:induction false} ValuesLength(table: KeyValueTable, keywords: set<string>, bound: nat)
    ensures |Values(table, keywords, bound)| == |table|
  {
    if table != [] { ValuesLength(table[..|table| - 1], keywords, bound); }
  }

  function Numbers(values: seq<Expr>): seq<nat> {
    if values == [] then []
    else Numbers(values[..|values| - 1])
         + if values[|values| - 1].Param? then [values[|values| - 1].n] else []
  }

  /** The placeholders count up from the one after the parameters already bound, one per
      bound value. */
  lemma {:induction false} PlaceholdersCountUp(table: KeyValueTable, keywords: set<string>, bound: nat)
    ensures Numbers(Values(table, keywords, bound))
         == seq(|Bound(table, keywords)|, i requires 0 <= i < |Bound(table, keywords)| => bound + 1 + i)
  {
    if table != [] {
      var rest := table[..|table| - 1];
      PlaceholdersCountUp(rest, keywords, bound);
      var values := Values(table, keywords, bound);
      assert values[..|values| - 1] == Values(rest, keywords, bound);
    }
  }

  lemma {:induction false} AssignSets(row: Row, u: Update, params: seq<string>, meaning: string -> string, n: nat,
                                      c: string)
    requires n <= |u.columns| == |u.values|
    requires forall i, j :: 0 <= i < j < |u.columns| ==> u.columns[i] != u.columns[j]
    ensures var after := Assign(row, u, params, meaning, n);
      && (forall i :: 0 <= i < n && u.columns[i] == c ==> c in after && after[c] == Value(u.values[i], params, meaning))
      && ((forall i :: 0 <= i < n ==> u.columns[i] != c) ==>
            (c in after <==> c in row) && (c in row ==> after[c] == row[c]))
  {
    if n > 0 { AssignSets(row, u, params, meaning, n - 1, c); }
  }

  lemma {:induction false} SameValues(a: KeyValueTable, b: KeyValueTable, keywords: set<string>, bound: nat)
    requires |a| == |b| && forall i :: 0 <= i < |a| ==> a[i].1 == b[i].1
    ensures Values(a, keywords, bound) == Values(b, keywords, bound) && Bound(a, keywords) == Bound(b, keywords)
  {
    if a != [] { SameValues(a[..|a| - 1], b[..|b| - 1], keywords, bound); }
  }

  /** On a row that matches the lookup, the statement sets exactly the given columns to the
      given values; on any other row it sets nothing. */
  lemma StatementMeans(u: Update, before: seq<string>, columnValue: string, table: KeyValueTable,
                       keywords: set<string>, meaning: string -> string, row: Row)
    requires DistinctKeys(table)
    requires u.columns == Keys(table) && u.values == Values(table, keywords, |before| + 1) && u.key == |before| + 1
    ensures |u.columns| == |u.values|
    ensures var after := ExecuteRow(u, before + [columnValue] + Bound(table, keywords), meaning, row);
      if u.lookup in row && row[u.lookup] == columnValue then SetsExactly(row, after, table, keywords, meaning)
      else after == row
  {
    var params := before + [columnValue] + Bound(table, keywords);
    var bound := |before| + 1;
    hide Values, Bound, Assign, Meant;
    ValuesLength(table, keywords, bound);
    assert params[bound..bound + |Bound(table, keywords)|] == Bound(table, keywords);
    assert params[bound - 1] == columnValue;
    if u.lookup in row && row[u.lookup] == columnValue {
      var after := ExecuteRow(u, params, meaning, row);
      forall i | 0 <= i < |table|
        ensures table[i].0 in after && after[table[i].0] == Meant(table[i].1, keywords, meaning)
      {
        AssignSets(row, u, params, meaning, |table|, table[i].0);
        ValueIsMeant(table, keywords, params, bound, meaning, i);
      }
      forall c | forall i :: 0 <= i < |table| ==> table[i].0 != c
        ensures (c in after <==> c in row) && (c in row ==> after[c] == row[c])
      {
        AssignSets(row, u, params, meaning, |table|, c);
      }
    }
  }

  // ---- reading the text ----

  function Strip(literal: string, s: string): Option<string> {
    if literal <= s then Some(s[|literal|..]) else None
  }

  function ReadExpr(s: string): Expr {
    if |s| > 1 && s[0] == '$' && AllDigits(s[1..]) then Param(DigitsValue(s[1..])) else Keyword(s)
  }

  function ReadAll(items: seq<string>): (r: seq<Expr>)
    ensures |r| == |items| && forall i :: 0 <= i < |r| ==> r[i] == ReadExpr(items[i])
  {
    seq(|items|, i requires 0 <= i < |items| => ReadExpr(items[i]))
  }

  /** Items between commas, without the space that follows each comma. */
  function ReadList(s: string): seq<string> {
    var parts := SplitOn(',', s);
    seq(|parts|, i requires 0 <= i < |parts| => if i > 0 && parts[i] != "" then parts[i][1..] else parts[i])
  }

  /** Names separated by a comma and a space, and what follows them. */
  function ReadNames(s: string): Option<(seq<string>, string)>
    decreases |s|
  {
    match ReadName(s)
    case None => None
    case Some((name, rest)) =>
      match Strip(", ", rest)
      case None => Some(([name], rest))
      case Some(more) =>
        match ReadNames(more)
        case None => None
        case Some((names, last)) => Some(([name] + names, last))
  }

  /** Reads UPDATE t SET (a, b) = ROW(x, y) WHERE c = $n. */
  function ReadUpdate(s: string): Option<Update> {
    match Strip("UPDATE ", s)
    case None => None
    case Some(s1) =>
      match ReadName(s1)
      case None => None
      case Some((table, s2)) =>
        match Strip(" SET (", s2)
        case None => None
        case Some(s3) =>
          match ReadNames(s3)
          case None => None
          case Some((columns, s4)) =>
            match Strip(") = ROW(", s4)
            case None => None
            case Some(s5) => ReadRest(table, columns, s5)
  }

  function ReadRest(table: string, columns: seq<string>, s5: string): Option<Update> {
    var w := FindFrom(s5, ") WHERE ", 0);
    if w > |s5| then None
    else
      match ReadName(s5[w + 8..])
      case None => None
      case Some((lookup, s6)) =>
        match Strip(" = ", s6)
        case None => None
        case Some(s7) =>
          var key := ReadExpr(s7);
          if key.Keyword? then None
          else Some(Update(table, columns, ReadAll(ReadList(s5[..w])), lookup, key.n))
  }

  lemma StripAdds(literal: string, rest: string)
    ensures Strip(literal, literal + rest) == Some(rest)
  {
  }

  lemma {:induction false} CommaFront(first: string, rest: seq<string>)
    requires rest != []
    ensures CommaSeparated([first] + rest) == first + (", " + CommaSeparated(rest))
  {
    var n := |rest| - 1;
    assert ([first] + rest)[..n + 1] == [first] + rest[..n];
    if n > 0 {
      CommaFront(first, rest[..n]);
      var a, b := CommaSeparated(rest[..n]), ", " + rest[n];
      hide CommaSeparated;
      Assoc(first, ", " + a, b);
      Assoc(", ", a, b);
    } else {
      assert [first] + rest[..0] == [first];
    }
  }

  lemma NoComma(rest: string)
    requires rest != "" && rest[0] == ')'
    ensures Strip(", ", rest) == None && EndsName(rest)
  {
    assert ", "[0] == ',';
  }

  lemma ReadLastName(name: string, rest: string)
    requires IsLower(name) && rest != "" && rest[0] == ')'
    ensures ReadNames(Esc(name) + rest) == Some(([name], rest))
  {
    hide ReadName, Esc, Strip;
    NoComma(rest);
    ReadEsc(name, rest);
  }

  lemma ReadMoreNames(name: string, text: string, names: seq<string>, rest: string)
    requires IsLower(name) && ReadNames(text) == Some((names, rest))
    ensures ReadNames(Esc(name) + (", " + text)) == Some(([name] + names, rest))
  {
    hide ReadName, Esc, Strip;
    ReadEsc(name, ", " + text);
    StripAdds(", ", text);
  }

  lemma EscFront(names: seq<string>)
    requires |names| > 1
    ensures CommaSeparated(EscAll(names)) == Esc(names[0]) + (", " + CommaSeparated(EscAll(names[1..])))
  {
    hide CommaSeparated, Esc;
    assert EscAll(names) == [Esc(names[0])] + EscAll(names[1..]);
    CommaFront(Esc(names[0]), EscAll(names[1..]));
  }

  /** A list of escaped names, up to a closing parenthesis, reads back in lower case. */
  lemma {:induction false} ReadEscList(names: seq<string>, rest: string)
    requires names != [] && rest != "" && rest[0] == ')' && forall i :: 0 <= i < |names| ==> IsLower(names[i])
    ensures ReadNames(CommaSeparated(EscAll(names)) + rest) == Some((names, rest))
  {
    hide ReadNames, Esc, IsLower;
    var name, later := names[0], names[1..];
    if later == [] {
      assert EscAll(names) == [Esc(name)] && names == [name];
      ReadLastName(name, rest);
    } else {
      hide CommaSeparated, EscAll;
      ReadEscList(later, rest);
      EscFront(names);
      var list := CommaSeparated(EscAll(later));
      Assoc(Esc(name), ", " + list, rest);
      Assoc(", ", list, rest);
      ReadMoreNames(name, list + rest, later, rest);
      assert names == [name] + later;
    }
  }

  /** The items with the space that follows each comma. */
  function Spaced(items: seq<string>): (r: seq<string>)
    ensures |r| == |items| && forall i :: 0 <= i < |r| ==> r[i] == if i == 0 then items[0] else " " + items[i]
  {
    seq(|items|, i requires 0 <= i < |items| => if i == 0 then items[0] else " " + items[i])
  }

  lemma SpacedSnoc(items: seq<string>)
    requires |items| > 1
    ensures Spaced(items) == Spaced(items[..|items| - 1]) + [" " + items[|items| - 1]]
  {
  }

  lemma JoinSnoc(parts: seq<string>, last: string)
    requires parts != []
    ensures JoinWith(',', parts + [last]) == JoinWith(',', parts) + ("," + last)
  {
    assert (parts + [last])[..|parts|] == parts;
  }

  lemma {:induction false} CommaIsJoin(items: seq<string>)
    requires items != []
    ensures CommaSeparated(items) == JoinWith(',', Spaced(items))
  {
    if |items| > 1 {
      var rest, last := items[..|items| - 1], items[|items| - 1];
      assert CommaSeparated(items) == CommaSeparated(rest) + (", " + last);
      hide Spaced, JoinWith, CommaSeparated;
      CommaIsJoin(rest);
      SpacedSnoc(items);
      JoinSnoc(Spaced(rest), " " + last);
      assert ", " + last == "," + (" " + last);
    }
  }

  lemma ReadListPrinted(items: seq<string>)
    requires items != [] && forall i :: 0 <= i < |items| ==> Lacks(items[i], ',')
    ensures ReadList(CommaSeparated(items)) == items
  {
    hide CommaSeparated, SplitOn, JoinWith;
    CommaIsJoin(items);
    var spaced := Spaced(items);
    forall p | p in spaced ensures Lacks(p, ',') {
      var i :| 0 <= i < |spaced| && spaced[i] == p;
      assert Lacks(items[i], ',');
    }
    SplitJoin(',', spaced);
    forall i | 0 <= i < |items| ensures ReadList(CommaSeparated(items))[i] == items[i] {
      assert (" " + items[i])[1..] == items[i];
    }
  }

  predicate SpacesFollowCommas(s: string) {
    forall i :: 0 <= i < |s| && s[i] == ' ' ==> i > 0 && s[i - 1] == ','
  }

  lemma {:induction false} ListSpaces(items: seq<string>)
    requires forall k :: 0 <= k < |items| ==> Lacks(items[k], ' ')
    ensures SpacesFollowCommas(CommaSeparated(items))
  {
    if items != [] {
      var last := items[|items| - 1];
      assert forall k :: 0 <= k < |last| ==> last[k] in last;
      if |items| > 1 {
        ListSpaces(items[..|items| - 1]);
      }
    }
  }

  lemma NotBefore(text: string, rest: string, i: nat)
    requires SpacesFollowCommas(text) && i < |text|
    ensures !IsAt(text + (") WHERE " + rest), ") WHERE ", i)
  {
    var s := text + (") WHERE " + rest);
    assert s[i] == text[i] && s[|text|] == ')';
    assert i + 1 < |text| ==> s[i + 1] == text[i + 1];
    assert i + 8 <= |s| ==> s[i..i + 8][0] == s[i] && s[i..i + 8][1] == s[i + 1];
  }

  lemma IsHere(text: string, pattern: string, rest: string)
    ensures IsAt(text + (pattern + rest), pattern, |text|)
  {
    var s := text + (pattern + rest);
    assert s[|text|..|text| + |pattern|] == pattern;
  }

  lemma FindWhere(text: string, rest: string)
    requires SpacesFollowCommas(text)
    ensures FindFrom(text + (") WHERE " + rest), ") WHERE ", 0) == |text|
  {
    hide FindFrom, IsAt, SpacesFollowCommas;
    forall i | 0 <= i < |text| ensures !IsAt(text + (") WHERE " + rest), ") WHERE ", i) {
      NotBefore(text, rest, i);
    }
    IsHere(text, ") WHERE ", rest);
  }

  // ---- reading gives the statement back ----

  predicate GoodExpr(e: Expr) {
    e.Keyword? ==> e.text != "" && e.text[0] != '$' && Lacks(e.text, ' ') && Lacks(e.text, ',')
  }

  lemma ReadExprShown(e: Expr)
    requires GoodExpr(e)
    ensures ReadExpr(Show(e)) == e && Lacks(Show(e), ' ') && Lacks(Show(e), ',')
  {
    if e.Param? {
      NatRoundTrip(e.n);
      var s := ShowParam(e.n);
      assert s[1..] == NatToString(e.n);
    }
  }

  predicate IsLower(name: string) { ToLower(name) == name }

  /** Names as the database folds them, at least one column, keywords that the text can carry. */
  predicate GoodUpdate(u: Update) {
    && |u.columns| == |u.values| > 0
    && IsLower(u.table) && IsLower(u.lookup) && (forall i :: 0 <= i < |u.columns| ==> IsLower(u.columns[i]))
    && (forall i :: 0 <= i < |u.values| ==> GoodExpr(u.values[i]))
  }

  lemma ReadAllShown(values: seq<Expr>)
    requires values != [] && forall i :: 0 <= i < |values| ==> GoodExpr(values[i])
    ensures ReadAll(ReadList(CommaSeparated(ShowAll(values)))) == values
    ensures forall i :: 0 <= i < |values| ==> Lacks(ShowAll(values)[i], ' ')
  {
    hide CommaSeparated, ReadList, Show, ReadExpr;
    forall i | 0 <= i < |values|
      ensures ReadExpr(Show(values[i])) == values[i] && Lacks(Show(values[i]), ' ') && Lacks(Show(values[i]), ',')
    {
      ReadExprShown(values[i]);
    }
    ReadListPrinted(ShowAll(values));
  }

  lemma ReadKey(n: nat)
    ensures ReadExpr(ShowParam(n)) == Param(n)
  {
    ReadExprShown(Param(n));
  }

  lemma AfterWhere(text: string, rest: string)
    ensures var s := text + (") WHERE " + rest); s[..|text|] == text && s[|text| + 8..] == rest
  {
  }

  lemma ReadRestPrinted(table: string, columns: seq<string>, values: string, lookup: string, key: nat)
    requires SpacesFollowCommas(values) && IsLower(lookup)
    ensures ReadRest(table, columns, values + (") WHERE " + (Esc(lookup) + (" = " + ShowParam(key)))))
         == Some(Update(table, columns, ReadAll(ReadList(values)), lookup, key))
  {
    hide ReadList, ReadExpr, ReadAll, ShowParam, FindFrom, Strip, ReadName, Esc, SpacesFollowCommas;
    var p := ShowParam(key);
    var tail := Esc(lookup) + (" = " + p);
    FindWhere(values, tail);
    AfterWhere(values, tail);
    ReadEsc(lookup, " = " + p);
    StripAdds(" = ", p);
    ReadKey(key);
  }

  /** The reader gives back the statement that was printed. */
  lemma ReadPrinted(u: Update)
    requires GoodUpdate(u)
    ensures ReadUpdate(Print(u)) == Some(u)
  {
    ReadAllShown(u.values);
    ListSpaces(ShowAll(u.values));
    hide CommaSeparated, ReadList, ReadExpr, ReadAll, ShowParam, FindFrom, Strip, ShowAll, EscAll, ReadName, ReadNames,
      Esc, ReadRest, SpacesFollowCommas;
    var columns, values := CommaSeparated(EscAll(u.columns)), CommaSeparated(ShowAll(u.values));
    var p5 := Esc(u.lookup) + (" = " + ShowParam(u.key));
    var p3 := values + (") WHERE " + p5);
    var p2 := columns + (") = ROW(" + p3);
    StripAdds("UPDATE ", Esc(u.table) + (" SET (" + p2));
    ReadEsc(u.table, " SET (" + p2);
    StripAdds(" SET (", p2);
    ReadEscList(u.columns, ") = ROW(" + p3);
    StripAdds(") = ROW(", p3);
    ReadRestPrinted(u.table, u.columns, values, u.lookup, u.key);
  }

  // ---- the text, run ----

  predicate Distinct(names: seq<string>) {
    forall i, j :: 0 <= i < j < |names| ==> names[i] != names[j]
  }

  /** Running the text: it is refused when it does not read, or assigns a column twice. */
  ghost function RunText(sql: string, params: seq<string>, meaning: string -> string, rows: seq<Row>)
    : Option<seq<Row>>
  {
    match ReadUpdate(sql)
    case None => None
    case Some(u) =>
      if |u.columns| == |u.values| && Distinct(u.columns) then Some(Execute(u, params, meaning, rows)) else None
  }

  lemma {:induction false} GoodValues(table: KeyValueTable, keywords: set<string>, bound: nat, i: nat)
    requires i < |table| && forall k :: k in keywords ==> GoodExpr(Keyword(k))
    ensures |Values(table, keywords, bound)| == |table| && GoodExpr(Values(table, keywords, bound)[i])
  {
    var rest := table[..|table| - 1];
    ValuesLength(rest, keywords, bound);
    if i < |rest| { GoodValues(rest, keywords, bound, i); }
  }

  lemma StatementReads(tableName: string, columnName: string, table: KeyValueTable, keywords: set<string>, bound: nat)
    requires table != [] && forall k :: k in keywords ==> GoodExpr(Keyword(k))
    ensures var u := Statement(tableName, columnName, table, keywords, bound);
      ReadUpdate(Print(u)) == Some(u) && |u.columns| == |u.values|
  {
    hide Print, ReadUpdate;
    var u := Statement(tableName, columnName, table, keywords, bound);
    ValuesLength(table, keywords, bound + 1);
    forall i | 0 <= i < |table| ensures GoodExpr(u.values[i]) { GoodValues(table, keywords, bound + 1, i); }
    LowerTwice(tableName);
    LowerTwice(columnName);
    forall i | 0 <= i < |table| ensures IsLower(u.columns[i]) { LowerTwice(table[i].0); }
    ReadPrinted(u);
  }

  /** Without columns the text does not read. */
  lemma NothingToSet(tableName: string, columnName: string, keywords: set<string>, bound: nat)
    ensures ReadUpdate(Print(Statement(tableName, columnName, [], keywords, bound))) == None
  {
    var u := Statement(tableName, columnName, [], keywords, bound);
    assert u.columns == [] && EscAll(u.columns) == [] && CommaSeparated(EscAll(u.columns)) == "";
    LowerTwice(tableName);
    hide ReadName, ReadNames, Esc, Strip, ReadRest, CommaSeparated, EscAll, ShowAll, ShowParam;
    var p3 := CommaSeparated(ShowAll(u.values)) + (") WHERE " + (Esc(u.lookup) + (" = " + ShowParam(u.key))));
    var p2 := "" + (") = ROW(" + p3);
    StripAdds("UPDATE ", Esc(u.table) + (" SET (" + p2));
    ReadEsc(u.table, " SET (" + p2);
    StripAdds(" SET (", p2);
    NoName(p3);
  }

  lemma NoName(rest: string)
    ensures ReadNames("" + (") = ROW(" + rest)) == None
  {
    var s := "" + (") = ROW(" + rest);
    assert s[0] == ')';
  }

  /** The generated text reads exactly when there is something to set, and then the names found
      in it are those asked for exactly when they are in lower case. */
  lemma NamesAskedExactly(tableName: string, columnName: string, table: KeyValueTable, keywords: set<string>, bound: nat)
    requires forall k :: k in keywords ==> GoodExpr(Keyword(k))
    ensures var found := ReadUpdate(Print(Statement(tableName, columnName, table, keywords, bound)));
      && (found.Some? <==> table != [])
      && (found.Some? ==>
           (found.value.table == tableName && found.value.lookup == columnName && found.value.columns == Keys(table) <==>
            && IsLower(tableName) && IsLower(columnName) && forall i :: 0 <= i < |table| ==> IsLower(table[i].0)))
  {
    hide ReadUpdate, Print;
    if table == [] {
      NothingToSet(tableName, columnName, keywords, bound);
    } else {
      StatementReads(tableName, columnName, table, keywords, bound);
      var u := Statement(tableName, columnName, table, keywords, bound);
      assert forall i :: 0 <= i < |table| ==> u.columns[i] == ToLower(table[i].0);
      assert forall i :: 0 <= i < |table| ==> Keys(table)[i] == table[i].0;
    }
  }

  /** The generated text, run with the generated parameters: it is refused exactly when there
      is nothing to set or two keys are equal without case; otherwise it sets exactly the
      given columns, by their lower-case names, on exactly the rows whose lookup column, by
      its lower-case name, holds the value. */
  lemma UpdateTextMeans(tableName: string, columnName: string, before: seq<string>, columnValue: string,
                        table: KeyValueTable, keywords: set<string>, meaning: string -> string, rows: seq<Row>)
    requires forall k :: k in keywords ==> GoodExpr(Keyword(k))
    ensures var sql := Print(Statement(tableName, columnName, table, keywords, |before|));
      var result := RunText(sql, before + [columnValue] + Bound(table, keywords), meaning, rows);
      var lookup := ToLower(columnName);
      && (result.Some? <==> table != [] && DistinctKeys(Lowered(table)))
      && (result.Some? ==> |result.value| == |rows|)
      && (result.Some? ==> forall r :: 0 <= r < |rows| ==>
            if lookup in rows[r] && rows[r][lookup] == columnValue then
              SetsExactly(rows[r], result.value[r], Lowered(table), keywords, meaning)
            else result.value[r] == rows[r])
  {
    hide Print, ReadUpdate, ExecuteRow, SetsExactly, Bound, Values;
    if table == [] {
      NothingToSet(tableName, columnName, keywords, |before|);
      return;
    }
    var u := Statement(tableName, columnName, table, keywords, |before|);
    StatementReads(tableName, columnName, table, keywords, |before|);
    SameValues(table, Lowered(table), keywords, |before| + 1);
    if DistinctKeys(Lowered(table)) {
      assert Distinct(u.columns);
      forall r | 0 <= r < |rows|
        ensures var after := ExecuteRow(u, before + [columnValue] + Bound(table, keywords), meaning, rows[r]);
          if u.lookup in rows[r] && rows[r][u.lookup] == columnValue then
            SetsExactly(rows[r], after, Lowered(table), keywords, meaning)
          else after == rows[r]
      {
        StatementMeans(u, before, columnValue, Lowered(table), keywords, meaning, rows[r]);
      }
    } else {
      var i, j :| 0 <= i < j < |table| && Lowered(table)[i].0 == Lowered(table)[j].0;
      assert u.columns[i] == u.columns[j];
    }
  }

  // ---- WHERE clauses ----

  datatype Condition = Condition(column: string, n: nat)

  function ShowCondition(c: Condition): string { Esc(c.column) + (" = " + ShowParam(c.n)) }

  function PrintWhere(conditions: seq<Condition>): string {
    if conditions == [] then ""
    else if |conditions| == 1 then ShowCondition(conditions[0])
    else PrintWhere(conditions[..|conditions| - 1]) + (" AND " + ShowCondition(conditions[|conditions| - 1]))
  }

  /** One condition per pair, on the lower case of its key. */
  function Conditions(lookup: KeyValueTable, bound: nat): (r: seq<Condition>)
    ensures |r| == |lookup|
    ensures forall i :: 0 <= i < |r| ==> r[i] == Condition(ToLower(lookup[i].0), bound + i + 1)
  {
    seq(|lookup|, i requires 0 <= i < |lookup| => Condition(ToLower(lookup[i].0), bound + i + 1))
  }

  function LookupValues(lookup: KeyValueTable): (r: seq<string>)
    ensures |r| == |lookup| && forall i :: 0 <= i < |r| ==> r[i] == lookup[i].1
  {
    seq(|lookup|, i requires 0 <= i < |lookup| => lookup[i].1)
  }

  method WhereClauseFromKeyValueTable(lookup: KeyValueTable, helper: ExecParamsHelper)
    returns (whereClause: string)
    requires helper.Valid()
    modifies helper
    ensures helper.Valid() && helper.params == old(helper.params) + LookupValues(lookup)
    ensures whereClause == PrintWhere(Conditions(lookup, |old(helper.params)|))
  {
    hide ShowCondition, PrintWhere, Conditions, LookupValues, ShowParam, Esc;
    whereClause := "";
    NoConditions();
    var first := true;
    ghost var before := helper.params;
    for i := 0 to |lookup|
      invariant helper.Valid() && helper.params == before + LookupValues(lookup[..i]) && first == (i == 0)
      invariant whereClause == PrintWhere(Conditions(lookup[..i], |before|))
    {
      NextCondition(lookup, i, |before|);
      var name := EscSqlName(lookup[i].0);
      var placeholder := helper.AddParam(lookup[i].1);
      var condition := name + (" = " + placeholder);
      ShownCondition(lookup[i].0, |before| + i + 1);
      if !first {
        whereClause := whereClause + (" AND " + condition);
      } else {
        first := false;
        whereClause := condition;
      }
    }
    assert lookup[..|lookup|] == lookup;
  }

  lemma NoConditions()
    ensures forall bound :: PrintWhere(Conditions([], bound)) == ""
    ensures LookupValues([]) == []
  {
  }

  lemma NextCondition(lookup: KeyValueTable, i: nat, bound: nat)
    requires i < |lookup|
    ensures var shown := ShowCondition(Condition(ToLower(lookup[i].0), bound + i + 1));
      PrintWhere(Conditions(lookup[..i + 1], bound))
      == if i == 0 then shown else PrintWhere(Conditions(lookup[..i], bound)) + (" AND " + shown)
    ensures LookupValues(lookup[..i + 1]) == LookupValues(lookup[..i]) + [lookup[i].1]
  {
    hide ShowCondition;
    var next := Conditions(lookup[..i + 1], bound);
    assert next[..i] == Conditions(lookup[..i], bound);
  }

  lemma ShownCondition(name: string, n: nat)
    ensures ShowCondition(Condition(ToLower(name), n)) == Esc(name) + (" = " + ShowParam(n))
  {
    EscLower(name);
  }

  // ---- reading a clause ----

  /** Conditions name = $n joined by AND. */
  function ReadWhere(s: string): Option<seq<Condition>>
    decreases |s|
  {
    match ReadName(s)
    case None => None
    case Some((column, s1)) =>
      match Strip(" = ", s1)
      case None => None
      case Some(s2) =>
        var e := Find(s2, ' ');
        var param := ReadExpr(s2[..e]);
        if param.Keyword? then None
        else if e == |s2| then Some([Condition(column, param.n)])
        else
          match Strip(" AND ", s2[e..])
          case None => None
          case Some(s3) =>
            match ReadWhere(s3)
            case None => None
            case Some(more) => Some([Condition(column, param.n)] + more)
  }

  lemma {:induction false} WhereFront(first: Condition, rest: seq<Condition>)
    requires rest != []
    ensures PrintWhere([first] + rest) == ShowCondition(first) + (" AND " + PrintWhere(rest))
  {
    hide ShowCondition;
    var n := |rest| - 1;
    assert ([first] + rest)[..n + 1] == [first] + rest[..n];
    if n > 0 {
      WhereFront(first, rest[..n]);
      var a, b := PrintWhere(rest[..n]), " AND " + ShowCondition(rest[n]);
      hide PrintWhere;
      Assoc(ShowCondition(first), " AND " + a, b);
      Assoc(" AND ", a, b);
    } else {
      assert [first] + rest[..0] == [first];
    }
  }

  /** One condition in front of the end or of another. */
  lemma ReadCondition(c: Condition, rest: string)
    requires IsLower(c.column) && (rest == "" || rest[0] == ' ')
    ensures ReadName(ShowCondition(c) + rest) == Some((c.column, " = " + (ShowParam(c.n) + rest)))
    ensures var s := ShowParam(c.n) + rest;
      Find(s, ' ') == |ShowParam(c.n)| && ReadExpr(s[..Find(s, ' ')]) == Param(c.n) && s[Find(s, ' ')..] == rest
  {
    var p := ShowParam(c.n);
    ReadExprShown(Param(c.n));
    assert Lacks(p, ' ');
    if rest == "" {
      FindNone(p, ' ');
      assert p + rest == p;
    } else {
      assert p + rest == p + [' '] + rest[1..];
      FindAt(p, ' ', rest[1..]);
    }
    assert (p + rest)[..|p|] == p && (p + rest)[|p|..] == rest;
    hide ReadName, Esc, ShowParam, Find;
    Assoc(Esc(c.column), " = " + p, rest);
    Assoc(" = ", p, rest);
    ReadEsc(c.column, " = " + (p + rest));
  }

  lemma ReadLast(c: Condition)
    requires IsLower(c.column)
    ensures ReadWhere(ShowCondition(c)) == Some([c])
  {
    hide ReadName, ReadExpr, Find, Strip, ShowCondition, ShowParam, IsLower;
    assert ShowCondition(c) + "" == ShowCondition(c) && ShowParam(c.n) + "" == ShowParam(c.n);
    ReadCondition(c, "");
    StripAdds(" = ", ShowParam(c.n));
  }

  lemma ReadMore(c: Condition, text: string, more: seq<Condition>)
    requires IsLower(c.column) && ReadWhere(text) == Some(more)
    ensures ReadWhere(ShowCondition(c) + (" AND " + text)) == Some([c] + more)
  {
    hide ReadName, ReadExpr, Find, Strip, ShowCondition, ShowParam, IsLower;
    var rest := " AND " + text;
    ReadCondition(c, rest);
    StripAdds(" = ", ShowParam(c.n) + rest);
    StripAdds(" AND ", text);
  }

  lemma {:induction false} ReadPrintedWhere(conditions: seq<Condition>)
    requires conditions != [] && forall i :: 0 <= i < |conditions| ==> IsLower(conditions[i].column)
    ensures ReadWhere(PrintWhere(conditions)) == Some(conditions)
  {
    var c, later := conditions[0], conditions[1..];
    assert conditions == [c] + later;
    hide ReadWhere, ShowCondition, IsLower;
    if later == [] {
      assert conditions == [c];
      ReadLast(c);
    } else {
      ReadPrintedWhere(later);
      WhereFront(c, later);
      ReadMore(c, PrintWhere(later), later);
    }
  }

  lemma EmptyClause()
    ensures ReadWhere(PrintWhere([])) == None
  {
  }

  ghost predicate Holds(conditions: seq<Condition>, params: seq<string>, row: Row) {
    forall i :: 0 <= i < |conditions| ==>
      conditions[i].column in row && row[conditions[i].column] == Value(Param(conditions[i].n), params, (t: string) => t)
  }

  /** The generated clause reads back as one condition per pair, unless there is none, and is
      true of a row exactly when every pair matches, by the lower case of its key. */
  lemma WhereMeans(lookup: KeyValueTable, before: seq<string>, row: Row)
    ensures var conditions := Conditions(lookup, |before|);
      && ReadWhere(PrintWhere(conditions)) == (if lookup == [] then None else Some(conditions))
      && (Holds(conditions, before + LookupValues(lookup), row)
          <==> forall i :: 0 <= i < |lookup| ==>
                 ToLower(lookup[i].0) in row && row[ToLower(lookup[i].0)] == lookup[i].1)
  {
    EmptyClause();
    hide ReadWhere, PrintWhere;
    var conditions := Conditions(lookup, |before|);
    forall i | 0 <= i < |conditions| ensures IsLower(conditions[i].column) { LowerTwice(lookup[i].0); }
    if lookup != [] { ReadPrintedWhere(conditions); }
    var params := before + LookupValues(lookup);
    forall i | 0 <= i < |lookup|
      ensures conditions[i].column == ToLower(lookup[i].0)
      ensures Value(Param(conditions[i].n), params, (t: string) => t) == lookup[i].1
    {
      assert params[|before| + i] == LookupValues(lookup)[i];
    }
  }
}
