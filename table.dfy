/**
 * Pop\Db\Gateway\Table: the table gateway. It turns a row of column values into a
 * column-to-placeholder map and a parameter array in the builder's placeholder style,
 * hands the clause to the builder, renders it, and issues the driver calls
 * prepare, bindParams, execute (and fetchResult for a select, whose rows it keeps).
 */
module Gateway {
  import opened Php
  import opened SqlClause
  import opened Adapter
  import opened Db

  const NoTableError := Exception("Error: The table has not been set")

  // ---------------------------------------------------------------------------
  // Placeholders and parameters

  /** The placeholder for `column` at counter value `i`: `:column`, `$i`, or the style itself. */
  function PlaceholderFor(style: string, column: Key, i: int): string {
    if style == ":" then ":" + KeyToString(column)
    else if style == "$" then "$" + IntToString(i)
    else style
  }

  /**
   * The `$columns` array the column loop builds, `$columns[$column] = $placeholder`,
   * with the counter at `first` for the first column.
   */
  function ColumnMap(row: PhpArray, style: string, first: int): PhpArray {
    if row == [] then []
    else
      var n := |row| - 1;
      Put(ColumnMap(row[..n], style, first), row[n].0, Str(PlaceholderFor(style, row[n].0, first + n)))
  }

  lemma ColumnMapStep(row: PhpArray, j: nat, style: string, first: int)
    requires j < |row|
    ensures ColumnMap(row[..j + 1], style, first) ==
      Put(ColumnMap(row[..j], style, first), row[j].0, Str(PlaceholderFor(style, row[j].0, first + j)))
  {
    assert row[..j + 1][..j] == row[..j];
  }

  lemma PushAllStep(a: PhpArray, vs: seq<Value>, j: nat)
    requires j < |vs|
    ensures PushAll(a, vs[..j + 1]) == Push(PushAll(a, vs[..j]), vs[j])
  {
    assert vs[..j + 1][..j] == vs[..j];
  }

  /**
   * For a PHP array (distinct keys), the column map has one entry per column, in the
   * row's order, and column j gets the placeholder for counter value `first + j`.
   */
  lemma {:induction false} ColumnMapEntries(row: PhpArray, style: string, first: int)
    requires DistinctKeys(row)
    ensures |ColumnMap(row, style, first)| == |row|
    ensures forall j :: 0 <= j < |row| ==>
      ColumnMap(row, style, first)[j] == (row[j].0, Str(PlaceholderFor(style, row[j].0, first + j)))
  {
    if row != [] {
      var n := |row| - 1;
      var front := row[..n];
      assert DistinctKeys(front);
      ColumnMapEntries(front, style, first);
      var prefix := ColumnMap(front, style, first);
      assert row[n].0 !in Keys(prefix) by {
        forall j | 0 <= j < n ensures Keys(prefix)[j] != row[n].0 {
          assert prefix[j].0 == front[j].0 == row[j].0;
        }
      }
      var entry := (row[n].0, Str(PlaceholderFor(style, row[n].0, first + n)));
      assert ColumnMap(row, style, first) == prefix + [entry];
      forall j | 0 <= j < |row|
        ensures ColumnMap(row, style, first)[j] == (row[j].0, Str(PlaceholderFor(style, row[j].0, first + j)))
      {
        if j < n {
          assert front[j] == row[j];
        }
      }
    }
  }

  /**
   * `insert` numbers its `$` placeholders `$1..$n` for every row, `update` numbers them
   * `$2..$(n+1)`; in the `:` style both use `:` and the column name.
   */
  lemma UpdatePlaceholdersShifted(row: PhpArray, j: nat)
    requires DistinctKeys(row) && j < |row|
    ensures |ColumnMap(row, "$", 1)| == |ColumnMap(row, "$", 2)| == |ColumnMap(row, ":", 1)| == |ColumnMap(row, ":", 2)| == |row|
    ensures ColumnMap(row, "$", 1)[j].1 == Str("$" + IntToString(j + 1))
    ensures ColumnMap(row, "$", 2)[j].1 == Str("$" + IntToString(j + 2))
    ensures ColumnMap(row, ":", 1)[j].1 == ColumnMap(row, ":", 2)[j].1 == Str(":" + KeyToString(row[j].0))
  {
    ColumnMapEntries(row, "$", 1);
    ColumnMapEntries(row, "$", 2);
    ColumnMapEntries(row, ":", 1);
    ColumnMapEntries(row, ":", 2);
  }

  /** Every placeholder the gateway generates passes through `quote` unchanged. */
  lemma PlaceholdersSurviveQuote(escape: string -> string, style: string, column: Key, i: int)
    requires ValidPlaceholder(style) && i >= 1
    ensures Quote(escape, Str(PlaceholderFor(style, column, i))) == Str(PlaceholderFor(style, column, i))
  {
    var p := PlaceholderFor(style, column, i);
    if style == "$" {
      var digits := IntToString(i);
      assert p[|p| - 1] == digits[|digits| - 1];
      assert p[1..] == digits;
      assert IsDollarToken(p);
    } else if style == ":" {
      assert p[0] == ':';
    }
    QuoteClassifies(escape, Str(p));
  }

  /** The row list `insert` iterates; a non-array element iterates no columns. */
  function RowOf(v: Value): PhpArray {
    if v.Arr? then v.entries else []
  }

  /**
   * `isset($set[0]) && is_array($set[0]) ? $set : [$set]`: the input is a list of rows
   * exactly when element 0 exists and is an array.
   */
  function RowSets(input: PhpArray): (r: seq<PhpArray>)
    ensures |r| >= 1
  {
    var first := Get(input, IntKey(0));
    if first.Some? && first.value.Arr? then seq(|input|, i requires 0 <= i < |input| => RowOf(input[i].1))
    else [input]
  }

  /** The params `insert` binds for one row: its values appended to an empty array. */
  function InsertParams(row: PhpArray): PhpArray {
    PushAll([], Values(row))
  }

  /** The insert parameters are a list of the row's values, numbered from 0, as long as the row. */
  lemma InsertParamsList(row: PhpArray)
    ensures |InsertParams(row)| == |row|
    ensures forall j :: 0 <= j < |row| ==> InsertParams(row)[j] == (IntKey(j), row[j].1)
  {
    PushAllBuildsList(Values(row));
  }

  function InsertStatement(row: PhpArray, style: string, profile: Profile, table: Option<string>, alias: Option<string>): Statement {
    Rendered(Insert(Given(Arr(ColumnMap(row, style, 1)))), profile, table, alias)
  }

  function InsertRowCalls(row: PhpArray, style: string, profile: Profile, table: Option<string>, alias: Option<string>): seq<Call> {
    [Call.Prepare(InsertStatement(row, style, profile, table, alias)), Call.BindParams(InsertParams(row)), Call.Execute]
  }

  /** The driver calls of `insert`: the calls of each row, rows in input order. */
  function InsertCalls(rows: seq<PhpArray>, style: string, profile: Profile, table: Option<string>, alias: Option<string>): seq<Call> {
    if rows == [] then []
    else InsertCalls(rows[..|rows| - 1], style, profile, table, alias) + InsertRowCalls(rows[|rows| - 1], style, profile, table, alias)
  }

  lemma InsertCallsStep(rows: seq<PhpArray>, k: nat, style: string, profile: Profile, table: Option<string>, alias: Option<string>)
    requires k < |rows|
    ensures InsertCalls(rows[..k + 1], style, profile, table, alias) ==
      InsertCalls(rows[..k], style, profile, table, alias) + InsertRowCalls(rows[k], style, profile, table, alias)
  {
    assert rows[..k + 1][..k] == rows[..k];
  }

  /** `insert` issues exactly one prepare, bindParams, execute per row, rows in input order. */
  lemma {:induction false} InsertCallsPerRow(rows: seq<PhpArray>, style: string, profile: Profile, table: Option<string>, alias: Option<string>)
    ensures |InsertCalls(rows, style, profile, table, alias)| == 3 * |rows|
    ensures forall k :: 0 <= k < |rows| ==>
      InsertCalls(rows, style, profile, table, alias)[3 * k..3 * k + 3] == InsertRowCalls(rows[k], style, profile, table, alias)
  {
    InsertCallsLength(rows, style, profile, table, alias);
    forall k | 0 <= k < |rows|
      ensures InsertCalls(rows, style, profile, table, alias)[3 * k..3 * k + 3] == InsertRowCalls(rows[k], style, profile, table, alias)
    {
      InsertCallsChunk(rows, k, style, profile, table, alias);
    }
  }

  lemma {:induction false} InsertCallsLength(rows: seq<PhpArray>, style: string, profile: Profile, table: Option<string>, alias: Option<string>)
    ensures |InsertCalls(rows, style, profile, table, alias)| == 3 * |rows|
  {
    if rows != [] {
      InsertCallsLength(rows[..|rows| - 1], style, profile, table, alias);
    }
  }

  /** The calls of row `k` are the `k`-th group of three. */
  lemma {:induction false} InsertCallsChunk(rows: seq<PhpArray>, k: nat, style: string, profile: Profile, table: Option<string>, alias: Option<string>)
    requires k < |rows|
    ensures |InsertCalls(rows, style, profile, table, alias)| == 3 * |rows|
    ensures InsertCalls(rows, style, profile, table, alias)[3 * k..3 * k + 3] == InsertRowCalls(rows[k], style, profile, table, alias)
  {
    var n := |rows| - 1;
    var front := InsertCalls(rows[..n], style, profile, table, alias);
    var last := InsertRowCalls(rows[n], style, profile, table, alias);
    InsertCallsLength(rows[..n], style, profile, table, alias);
    if k < n {
      InsertCallsChunk(rows[..n], k, style, profile, table, alias);
      assert rows[..n][k] == rows[k];
    }
    GroupOfAppend(front, last, n, k);
  }

  /** Group `k` of three in `front + last`, where `front` holds `n` groups and `last` one. */
  lemma GroupOfAppend<T>(front: seq<T>, last: seq<T>, n: nat, k: nat)
    requires |front| == 3 * n && |last| == 3 && k <= n
    ensures (front + last)[3 * k..3 * k + 3] == if k < n then front[3 * k..3 * k + 3] else last
  {
    if k < n {
      assert (front + last)[3 * k..3 * k + 3] == front[3 * k..3 * k + 3];
    } else {
      assert (front + last)[3 * k..] == last;
    }
  }

  /** The params `update` binds: the row's values by column, then `pars` appended. */
  function UpdateParams(input: PhpArray, pars: PhpArray): PhpArray {
    PushAll(PutAll([], input), Values(pars))
  }

  /**
   * The update parameters are the row itself (its column keys and values, in order)
   * followed by the values of `pars` in their original order.
   */
  lemma UpdateParamsOrder(input: PhpArray, pars: PhpArray)
    requires DistinctKeys(input)
    ensures |UpdateParams(input, pars)| == |input| + |pars|
    ensures UpdateParams(input, pars)[..|input|] == input
    ensures Values(UpdateParams(input, pars)) == Values(input) + Values(pars)
  {
    PutAllCopies(input);
    PushAllKeepsPrefix(input, Values(pars));
    PushAllValues(input, Values(pars));
  }

  function WhereOf(where: Value): Option<Value> {
    if where.Null? then None else Some(where)
  }

  function UpdateStatement(input: PhpArray, where: Value, style: string, profile: Profile, table: Option<string>, alias: Option<string>): Statement {
    Rendered(Update(Given(Arr(ColumnMap(input, style, 2))), WhereOf(where)), profile, table, alias)
  }

  /** The params `delete` binds: `pars` copied key by key. */
  function DeleteParams(pars: PhpArray): PhpArray {
    PutAll([], pars)
  }

  /** `delete` binds `pars` as given, keys included. */
  lemma DeleteParamsCopy(pars: PhpArray)
    requires DistinctKeys(pars)
    ensures DeleteParams(pars) == pars
  {
    PutAllCopies(pars);
  }

  function DeleteStatement(where: Value, profile: Profile, table: Option<string>, alias: Option<string>): Statement {
    Rendered(Delete(WhereOf(where)), profile, table, alias)
  }

  /** `bindParams` only when there is something to bind. */
  function BindIfAny(params: PhpArray): seq<Call> {
    if |params| > 0 then [Call.BindParams(params)] else []
  }

  /** `(int)$options[$name]` when that option is set. */
  function IntOption(options: PhpArray, name: string): Option<int> {
    if Isset(options, StrKey(name)) then Some(IntCast(Get(options, StrKey(name)).value)) else None
  }

  /** The select clause after `select`, `where`, `limit`, `offset` and `orderBy`. */
  function SelectClause(input: Value, where: Value, options: PhpArray): Clause {
    Select(Given(input), WhereOf(where), IntOption(options, "limit"), IntOption(options, "offset"),
      if Isset(options, StrKey("order")) then Some(Get(options, StrKey("order")).value) else None)
  }

  /**
   * `limit`/`offset` are applied exactly when set and non-null, as the integer `(int)`
   * makes of them: decimal text gives its number back.
   */
  lemma SelectLimitOffset(input: Value, where: Value, options: PhpArray, name: string, n: int)
    requires name == "limit" || name == "offset"
    ensures var c := SelectClause(input, where, options);
      (if name == "limit" then c.limit else c.offset).Some? <==> Isset(options, StrKey(name))
    ensures Get(options, StrKey(name)) == Some(Str(IntToString(n))) ==>
      (if name == "limit" then SelectClause(input, where, options).limit else SelectClause(input, where, options).offset) == Some(n)
  {
    IntCastOfIntString(n);
  }

  function SelectCalls(stmt: Statement, params: Option<PhpArray>): seq<Call> {
    [Call.Prepare(stmt)] + (if params.Some? then BindIfAny(params.value) else []) + [Call.Execute, Call.FetchResult]
  }

  // ---------------------------------------------------------------------------
  // The gateway

  class Table {
    /** The builder and the table name the gateway was created with. */
    const sql: Sql
    const table: Option<string>
    var rows: seq<PhpArray>

    constructor (sql: Sql, table: Option<string>)
      ensures this.sql == sql && this.table == table && rows == []
    {
      this.sql := sql;
      this.table := table;
      rows := [];
    }

    function GetNumberOfRows(): (n: nat)
      reads this
      ensures n == |rows|
    {
      |rows|
    }

    /** The builder half of `select`: a fresh clause, then its where, limit, offset and order. */
    method BuildSelect(input: Value, where: Value, options: PhpArray)
      modifies sql`table, sql`clause
      ensures sql.table == table && sql.clause == Some(SelectClause(input, where, options))
    {
      sql.From(table);
      var c := sql.Select(ClauseObj(FreshClause(SelectKind, Given(input))));
      if !where.Null? {
        c := sql.Select(Given(Null));
        c := sql.Select(ClauseObj(SqlClause.Select(c.columns, Some(where), c.limit, c.offset, c.order)));
      }
      if Isset(options, StrKey("limit")) {
        c := sql.Select(Given(Null));
        c := sql.Select(ClauseObj(c.(limit := Some(IntCast(Get(options, StrKey("limit")).value)))));
      }
      if Isset(options, StrKey("offset")) {
        c := sql.Select(Given(Null));
        c := sql.Select(ClauseObj(c.(offset := Some(IntCast(Get(options, StrKey("offset")).value)))));
      }
      if Isset(options, StrKey("order")) {
        c := sql.Select(Given(Null));
        c := sql.Select(ClauseObj(c.(order := Some(Get(options, StrKey("order")).value))));
      }
    }

    method Select(input: Value, where: Value, params: Option<PhpArray>, options: PhpArray) returns (r: Outcome)
      modifies sql`table, sql`clause, sql`sql, sql.db`trace, this`rows
      ensures table.None? ==> r == Fail(NoTableError) && unchanged(sql, sql.db) && rows == old(rows)
      ensures table.Some? ==>
        var stmt := Rendered(SelectClause(input, where, options), sql.CurrentProfile(), table, sql.alias);
        r == Pass && sql.table == table && sql.clause.None? && sql.sql == Some(stmt) &&
        sql.db.trace == old(sql.db.trace) + SelectCalls(stmt, params) &&
        rows == sql.db.resultRows
      ensures table.Some? ==> GetNumberOfRows() == |sql.db.resultRows|
    {
      if table.None? {
        return Fail(NoTableError);
      }
      BuildSelect(input, where, options);
      var stmt := sql.Render();
      sql.db.Prepare(stmt.value);
      if params.Some? && |params.value| > 0 {
        sql.db.BindParams(params.value);
      }
      sql.db.Execute();
      rows := sql.db.FetchResult();
      r := Pass;
    }

    /** `$placeholder = $this->sql->getPlaceholder()` completed for one column at counter `i`. */
    method ColumnPlaceholder(column: Key, i: int) returns (placeholder: string)
      requires sql.Valid()
      ensures placeholder == PlaceholderFor(sql.placeholder, column, i)
    {
      placeholder := sql.GetPlaceholder();
      if placeholder == ":" {
        placeholder := placeholder + KeyToString(column);
      } else if placeholder == "$" {
        placeholder := placeholder + IntToString(i);
      }
    }

    /** The column loop of `insert` for one row: `$i` counts from 1, values are appended. */
    method InsertRow(row: PhpArray) returns (columns: PhpArray, params: PhpArray)
      requires sql.Valid()
      ensures columns == ColumnMap(row, sql.placeholder, 1)
      ensures params == InsertParams(row)
    {
      columns := [];
      params := [];
      var i := 1;
      var j := 0;
      while j < |row|
        invariant j <= |row| && i == j + 1
        invariant columns == ColumnMap(row[..j], sql.placeholder, 1) && params == PushAll([], Values(row)[..j])
      {
        var (column, value) := row[j];
        var placeholder := ColumnPlaceholder(column, i);
        ColumnMapStep(row, j, sql.placeholder, 1);
        PushAllStep([], Values(row), j);
        columns := Put(columns, column, Str(placeholder));
        params := Push(params, value);
        i := i + 1;
        j := j + 1;
      }
      assert row[..j] == row && Values(row)[..j] == Values(row);
    }

    /** One pass of `insert`'s row loop: the columns, the clause, then prepare, bind, execute. */
    method InsertOne(row: PhpArray)
      requires sql.Valid()
      modifies sql`table, sql`clause, sql`sql, sql.db`trace
      ensures sql.table == table && sql.clause.None?
      ensures sql.sql == Some(InsertStatement(row, sql.placeholder, sql.CurrentProfile(), table, sql.alias))
      ensures sql.db.trace == old(sql.db.trace) + InsertRowCalls(row, sql.placeholder, sql.CurrentProfile(), table, sql.alias)
    {
      var columns, params := InsertRow(row);
      sql.Into(table);
      var clause := sql.Insert(ClauseObj(SqlClause.Insert(Given(Arr(columns)))));
      var stmt := sql.Render();
      sql.db.Prepare(stmt.value);
      sql.db.BindParams(params);
      sql.db.Execute();
    }

    /**
     * After `k` passes of `insert`'s row loop: the calls of those rows follow `before`, and
     * the last row's statement is the builder's.
     */
    ghost predicate Inserted(rowSets: seq<PhpArray>, k: nat, before: seq<Call>)
      reads sql, sql.db
      requires k <= |rowSets|
    {
      sql.db.trace == before + InsertCalls(rowSets[..k], sql.placeholder, sql.CurrentProfile(), table, sql.alias) &&
      (k > 0 ==>
        sql.table == table && sql.clause.None? &&
        sql.sql == Some(InsertStatement(rowSets[k - 1], sql.placeholder, sql.CurrentProfile(), table, sql.alias)))
    }

    /** The row loop of `insert`: one pass of `InsertOne` per row, rows in order. */
    method InsertRows(rowSets: seq<PhpArray>)
      requires sql.Valid() && table.Some? && |rowSets| > 0
      modifies sql`table, sql`clause, sql`sql, sql.db`trace
      ensures sql.table == table && sql.clause.None?
      ensures sql.sql == Some(InsertStatement(rowSets[|rowSets| - 1], sql.placeholder, sql.CurrentProfile(), table, sql.alias))
      ensures sql.db.trace == old(sql.db.trace) + InsertCalls(rowSets, sql.placeholder, sql.CurrentProfile(), table, sql.alias)
    {
      var k := 0;
      while k < |rowSets|
        invariant k <= |rowSets| && Inserted(rowSets, k, old(sql.db.trace))
      {
        InsertNext(rowSets, k, old(sql.db.trace));
        k := k + 1;
      }
      assert rowSets[..k] == rowSets;
    }

    /** Pass `k` of the row loop. */
    method InsertNext(rowSets: seq<PhpArray>, k: nat, ghost before: seq<Call>)
      requires sql.Valid() && k < |rowSets| && Inserted(rowSets, k, before)
      modifies sql`table, sql`clause, sql`sql, sql.db`trace
      ensures Inserted(rowSets, k + 1, before)
    {
      InsertOne(rowSets[k]);
      InsertCallsStep(rowSets, k, sql.placeholder, sql.CurrentProfile(), table, sql.alias);
    }

    method Insert(input: PhpArray) returns (r: Outcome)
      requires sql.Valid()
      modifies sql`table, sql`clause, sql`sql, sql.db`trace
      ensures table.None? ==> r == Fail(NoTableError) && unchanged(sql, sql.db)
      ensures table.Some? ==>
        var rowSets := RowSets(input);
        r == Pass && sql.table == table && sql.clause.None? &&
        sql.sql == Some(InsertStatement(rowSets[|rowSets| - 1], sql.placeholder, sql.CurrentProfile(), table, sql.alias)) &&
        sql.db.trace == old(sql.db.trace) + InsertCalls(rowSets, sql.placeholder, sql.CurrentProfile(), table, sql.alias)
    {
      if table.None? {
        return Fail(NoTableError);
      }
      InsertRows(RowSets(input));
      r := Pass;
    }

    /** The column loop of `update`: `$` placeholders count from 2, values are stored by column. */
    method UpdateRow(input: PhpArray) returns (columns: PhpArray, params: PhpArray)
      requires sql.Valid()
      ensures columns == ColumnMap(input, sql.placeholder, 2)
      ensures params == PutAll([], input)
    {
      columns := [];
      params := [];
      var i := 1;
      var j := 0;
      while j < |input|
        invariant j <= |input| && i == j + 1
        invariant columns == ColumnMap(input[..j], sql.placeholder, 2) && params == PutAll([], input[..j])
      {
        var (column, value) := input[j];
        var placeholder := ColumnPlaceholder(column, i + 1);
        ColumnMapStep(input, j, sql.placeholder, 2);
        assert input[..j + 1][..j] == input[..j];
        columns := Put(columns, column, Str(placeholder));
        params := Put(params, column, value);
        i := i + 1;
        j := j + 1;
      }
      assert input[..j] == input;
    }

    /** `foreach ($pars as $p) { $params[] = $p; }` when `$pars` is not empty. */
    method AppendPars(params: PhpArray, pars: PhpArray) returns (r: PhpArray)
      ensures r == PushAll(params, Values(pars))
    {
      r := params;
      if |pars| > 0 {
        var values := Values(pars);
        var k := 0;
        while k < |values|
          invariant k <= |values|
          invariant r == PushAll(params, values[..k])
        {
          PushAllStep(params, values, k);
          r := Push(r, values[k]);
          k := k + 1;
        }
        assert values[..k] == values;
      }
    }

    /** The builder half of `update`: a fresh clause on the columns, then its where. */
    method BuildUpdate(columns: PhpArray, where: Value)
      modifies sql`table, sql`clause
      ensures sql.table == table && sql.clause == Some(SqlClause.Update(Given(Arr(columns)), WhereOf(where)))
    {
      sql.SetTable(table);
      var u := sql.Update(ClauseObj(SqlClause.Update(Given(Arr(columns)), None)));
      if !where.Null? {
        u := sql.Update(Given(Null));
        u := sql.Update(ClauseObj(SqlClause.Update(u.value.values, Some(where))));
      }
    }

    method Update(input: PhpArray, where: Value, pars: PhpArray) returns (r: Outcome)
      requires sql.Valid()
      modifies sql`table, sql`clause, sql`sql, sql.db`trace
      ensures table.None? ==> r == Fail(NoTableError) && unchanged(sql, sql.db)
      ensures table.Some? ==>
        var stmt := UpdateStatement(input, where, sql.placeholder, sql.CurrentProfile(), table, sql.alias);
        r == Pass && sql.table == table && sql.clause.None? && sql.sql == Some(stmt) &&
        sql.db.trace == old(sql.db.trace) + [Call.Prepare(stmt), Call.BindParams(UpdateParams(input, pars)), Call.Execute]
    {
      if table.None? {
        return Fail(NoTableError);
      }
      var columns, params := UpdateRow(input);
      BuildUpdate(columns, where);
      params := AppendPars(params, pars);
      var stmt := sql.Render();
      sql.db.Prepare(stmt.value);
      sql.db.BindParams(params);
      sql.db.Execute();
      r := Pass;
    }

    /** `foreach ($pars as $k => $p) { $params[$k] = $p; }` when `$pars` is not empty. */
    method CopyPars(pars: PhpArray) returns (params: PhpArray)
      ensures params == DeleteParams(pars)
    {
      params := [];
      if |pars| > 0 {
        var k := 0;
        while k < |pars|
          invariant k <= |pars|
          invariant params == PutAll([], pars[..k])
        {
          assert pars[..k + 1][..k] == pars[..k];
          params := Put(params, pars[k].0, pars[k].1);
          k := k + 1;
        }
        assert pars[..k] == pars;
      }
    }

    /** The builder half of `delete`: a fresh clause, then its where. */
    method BuildDelete(where: Value)
      modifies sql`table, sql`clause
      ensures sql.table == table && sql.clause == Some(SqlClause.Delete(WhereOf(where)))
    {
      sql.From(table);
      var c := sql.Delete(ClauseObj(SqlClause.Delete(None)));
      if !where.Null? {
        c := sql.Delete(Given(Null));
        c := sql.Delete(ClauseObj(SqlClause.Delete(Some(where))));
      }
    }

    method Delete(where: Value, pars: PhpArray) returns (r: Outcome)
      modifies sql`table, sql`clause, sql`sql, sql.db`trace
      ensures table.None? ==> r == Fail(NoTableError) && unchanged(sql, sql.db)
      ensures table.Some? ==>
        var stmt := DeleteStatement(where, sql.CurrentProfile(), table, sql.alias);
        r == Pass && sql.table == table && sql.clause.None? && sql.sql == Some(stmt) &&
        sql.db.trace == old(sql.db.trace) + [Call.Prepare(stmt)] + BindIfAny(DeleteParams(pars)) + [Call.Execute]
    {
      if table.None? {
        return Fail(NoTableError);
      }
      BuildDelete(where);
      var params := CopyPars(pars);
      var stmt := sql.Render();
      sql.db.Prepare(stmt.value);
      if |params| > 0 {
        sql.db.BindParams(params);
      }
      sql.db.Execute();
      r := Pass;
    }
  }
}
