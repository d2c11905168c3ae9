/**
 * The database adapter as the builder and the gateway see it. Its capability flags and
 * `escape` are fixed when it is created; the driver calls (`prepare`, `bindParams`,
 * `execute`, `fetchResult`) do no database work here and are only recorded, in order,
 * in `trace`. The rows `fetchResult` hands back are whatever `resultRows` holds.
 */
module Adapter {
  import opened Php
  import opened SqlClause

  datatype Call =
    | Prepare(statement: Statement)
    | BindParams(params: PhpArray)
    | Execute
    | FetchResult

  class Driver {
    /** The adapter's class name, as `get_class` reports it. */
    const className: string
    /** `isPdo()`. */
    const pdo: bool
    /** `getDbtype()`: the PDO driver name. */
    const pdoType: string
    /** `escape($value)`. */
    const escape: string -> string

    var trace: seq<Call>
    var resultRows: seq<PhpArray>

    constructor (className: string, pdo: bool, pdoType: string, escape: string -> string, resultRows: seq<PhpArray>)
      ensures this.className == className && this.pdo == pdo && this.pdoType == pdoType
      ensures this.escape == escape && this.resultRows == resultRows
      ensures trace == []
    {
      this.className := className;
      this.pdo := pdo;
      this.pdoType := pdoType;
      this.escape := escape;
      this.resultRows := resultRows;
      trace := [];
    }

    method Prepare(s: Statement)
      modifies this`trace
      ensures trace == old(trace) + [Call.Prepare(s)]
    {
      trace := trace + [Call.Prepare(s)];
    }

    method BindParams(params: PhpArray)
      modifies this`trace
      ensures trace == old(trace) + [Call.BindParams(params)]
    {
      trace := trace + [Call.BindParams(params)];
    }

    method Execute()
      modifies this`trace
      ensures trace == old(trace) + [Call.Execute]
    {
      trace := trace + [Call.Execute];
    }

    method FetchResult() returns (rows: seq<PhpArray>)
      modifies this`trace
      ensures rows == resultRows
      ensures trace == old(trace) + [Call.FetchResult]
    {
      rows := resultRows;
      trace := trace + [Call.FetchResult];
    }
  }
}
