/**
 * The values the statement builder passes around: the engine profile it derives from
 * the adapter, the four clause kinds of Pop\Db\Sql (Select, Insert, Update, Delete)
 * and a rendered statement. The clause classes themselves are not part of this model:
 * a clause is recorded by the configuration it was given, and its SQL text is left
 * opaque, so a rendered statement is identified by the clause and the builder state
 * it was rendered from.
 */
module SqlClause {
  import opened Php

  /** The database-type constants of Pop\Db\Sql. */
  datatype DbType = MYSQL | ORACLE | PGSQL | SQLITE | SQLSRV

  /** The quote-id constants; `setQuoteId` accepts any string, so the field is a string. */
  const BACKTICK := "BACKTICK"
  const BRACKET := "BRACKET"
  const DOUBLE_QUOTE := "DOUBLE_QUOTE"
  const NO_QUOTE := "NO_QUOTE"

  /** The three fields `setDb` derives from the adapter. */
  datatype Profile = Profile(dbType: Option<DbType>, quoteIdType: string, placeholder: string)

  /**
   * An argument of `select`, `insert`, `update` or `delete`: either a clause object or
   * any other PHP value (`Given(Null)` is the default `null`).
   */
  datatype Arg = Given(v: Value) | ClauseObj(c: Clause)
  {
    predicate IsNull() { Given? && v.Null? }
  }

  /**
   * A clause object and the configuration it was given: the constructor argument, the
   * `where` condition (recorded as the value handed to `Where::add`), and for a Select
   * the `limit`/`offset` values and the raw `order` option.
   */
  datatype Clause =
    | Select(columns: Arg, where: Option<Value>, limit: Option<int>, offset: Option<int>, order: Option<Value>)
    | Insert(values: Arg)
    | Update(values: Arg, where: Option<Value>)
    | Delete(where: Option<Value>)

  /** The clause kinds, for the reuse-or-replace rule of the builder. */
  datatype Kind = SelectKind | InsertKind | UpdateKind | DeleteKind

  function KindOf(c: Clause): Kind {
    match c
    case Select(_, _, _, _, _) => SelectKind
    case Insert(_) => InsertKind
    case Update(_, _) => UpdateKind
    case Delete(_) => DeleteKind
  }

  /** What `new Sql\Select($sql, $columns)` and its siblings start from. */
  function FreshClause(kind: Kind, arg: Arg): (c: Clause)
    ensures KindOf(c) == kind
  {
    match kind
    case SelectKind => Select(arg, None, None, None, None)
    case InsertKind => Insert(arg)
    case UpdateKind => Update(arg, None)
    case DeleteKind => Delete(None)
  }

  /**
   * The SQL that `render` stores: the clause together with the builder state it is
   * rendered against (profile, table and alias). Its text is not modelled.
   */
  datatype Statement = Rendered(clause: Clause, profile: Profile, table: Option<string>, alias: Option<string>)
}
