/**
 * Pop\Db\Sql: the statement builder. It derives an engine profile from the adapter
 * (which database, how identifiers are quoted, which placeholder style the driver
 * takes), quotes identifiers and values, and holds one "current clause" slot that the
 * clause factories reuse or replace and that `render` consumes.
 */
module Db {
  import opened Php
  import opened SqlClause
  import opened Adapter

  // ---------------------------------------------------------------------------
  // Engine detection

  /** One row of the class-name table `setDb` tests, in the order it tests them. */
  datatype Rule = Rule(needle: string, dbType: DbType, quoteIdType: string, placeholder: string)

  const ClassRules: seq<Rule> := [
    Rule("mysql", MYSQL, BACKTICK, "?"),
    Rule("oracle", ORACLE, DOUBLE_QUOTE, "?"),
    Rule("pgsql", PGSQL, DOUBLE_QUOTE, "$"),
    Rule("sqlite", SQLITE, DOUBLE_QUOTE, ":"),
    Rule("sqlsrv", SQLSRV, BRACKET, "?")
  ]

  /** The profile the builder starts with, before `setDb`. */
  const InitialProfile := Profile(None, NO_QUOTE, "?")

  /** `strtolower` on ASCII letters. */
  function Lower(s: string): (r: string)
    ensures |r| == |s|
  {
    seq(|s|, i requires 0 <= i < |s| => if 'A' <= s[i] <= 'Z' then (s[i] as int + 32) as char else s[i])
  }

  predicate IsPrefix(p: string, s: string) {
    |p| <= |s| && s[..|p|] == p
  }

  /** `strpos($haystack, $needle) !== false`. */
  predicate Contains(haystack: string, needle: string)
    decreases |haystack|
  {
    IsPrefix(needle, haystack) || (haystack != [] && Contains(haystack[1..], needle))
  }

  /** The first rule whose needle occurs in `name`. */
  function FirstMatch(name: string, rules: seq<Rule>): Option<Rule>
  {
    if rules == [] then None
    else if Contains(name, rules[0].needle) then Some(rules[0])
    else FirstMatch(name, rules[1..])
  }

  /** The rule at index `i` is chosen when it matches and no earlier rule does. */
  lemma {:induction false} FirstMatchPicksEarliest(name: string, rules: seq<Rule>, i: nat)
    requires i < |rules|
    ensures (Contains(name, rules[i].needle) && forall j :: 0 <= j < i ==> !Contains(name, rules[j].needle))
      ==> FirstMatch(name, rules) == Some(rules[i])
  {
    if i > 0 && Contains(name, rules[i].needle) && forall j :: 0 <= j < i ==> !Contains(name, rules[j].needle) {
      assert !Contains(name, rules[0].needle);
      FirstMatchPicksEarliest(name, rules[1..], i - 1);
    }
  }

  /** No rule is chosen exactly when no needle occurs. */
  lemma {:induction false} FirstMatchNone(name: string, rules: seq<Rule>)
    ensures FirstMatch(name, rules).None? <==> forall j :: 0 <= j < |rules| ==> !Contains(name, rules[j].needle)
  {
    if rules != [] {
      FirstMatchNone(name, rules[1..]);
      assert forall j :: 1 <= j < |rules| ==> rules[j] == rules[1..][j - 1];
    }
  }

  /** The first tier of `setDb`: class-name detection; without a match the prior values stand. */
  function ClassProfile(className: string, prior: Profile): Profile {
    match FirstMatch(Lower(className), ClassRules)
    case None => prior
    case Some(r) => Profile(Some(r.dbType), r.quoteIdType, r.placeholder)
  }

  /** The class-name table written out as the chain of tests `setDb` runs. */
  lemma ClassProfileChain(className: string, prior: Profile)
    ensures var a := Lower(className);
      ClassProfile(className, prior) ==
        if Contains(a, "mysql") then Profile(Some(MYSQL), BACKTICK, "?")
        else if Contains(a, "oracle") then Profile(Some(ORACLE), DOUBLE_QUOTE, "?")
        else if Contains(a, "pgsql") then Profile(Some(PGSQL), DOUBLE_QUOTE, "$")
        else if Contains(a, "sqlite") then Profile(Some(SQLITE), DOUBLE_QUOTE, ":")
        else if Contains(a, "sqlsrv") then Profile(Some(SQLSRV), BRACKET, "?")
        else prior
  {
    var a := Lower(className);
    var r := ClassRules;
    assert FirstMatch(a, r) == if Contains(a, "mysql") then Some(r[0]) else FirstMatch(a, r[1..]);
    assert FirstMatch(a, r[1..]) == if Contains(a, "oracle") then Some(r[1]) else FirstMatch(a, r[2..]);
    assert r[1..][1..] == r[2..];
    assert FirstMatch(a, r[2..]) == if Contains(a, "pgsql") then Some(r[2]) else FirstMatch(a, r[3..]);
    assert r[2..][1..] == r[3..];
    assert FirstMatch(a, r[3..]) == if Contains(a, "sqlite") then Some(r[3]) else FirstMatch(a, r[4..]);
    assert r[3..][1..] == r[4..];
    assert FirstMatch(a, r[4..]) == if Contains(a, "sqlsrv") then Some(r[4]) else FirstMatch(a, r[5..]);
    assert r[4..][1..] == r[5..] == [];
  }

  /** The second tier of `setDb`: a PDO adapter forces `:` and may override the engine. */
  function PdoProfile(p: Profile, pdo: bool, pdoType: string): Profile {
    if !pdo then p
    else if pdoType == "sqlite" then Profile(Some(SQLITE), DOUBLE_QUOTE, ":")
    else if pdoType == "pgsql" then Profile(Some(PGSQL), DOUBLE_QUOTE, ":")
    else if pdoType == "mysql" then Profile(Some(MYSQL), BACKTICK, ":")
    else p.(placeholder := ":")
  }

  /** The profile `setDb` leaves behind, starting from `prior`. */
  function Detect(className: string, pdo: bool, pdoType: string, prior: Profile): Profile {
    PdoProfile(ClassProfile(className, prior), pdo, pdoType)
  }

  predicate ValidPlaceholder(p: string) {
    p == "?" || p == ":" || p == "$"
  }

  /**
   * For a non-PDO adapter, the profile is the row of the first needle found in the
   * lower-cased class name, tested in the order mysql, oracle, pgsql, sqlite, sqlsrv.
   */
  lemma DetectByClassName(className: string, pdoType: string, prior: Profile, i: nat)
    requires i < |ClassRules|
    requires Contains(Lower(className), ClassRules[i].needle)
    requires forall j :: 0 <= j < i ==> !Contains(Lower(className), ClassRules[j].needle)
    ensures Detect(className, false, pdoType, prior) ==
      Profile(Some(ClassRules[i].dbType), ClassRules[i].quoteIdType, ClassRules[i].placeholder)
  {
    FirstMatchPicksEarliest(Lower(className), ClassRules, i);
  }

  /** For a non-PDO adapter whose class name holds no needle, all three fields keep their values. */
  lemma DetectKeepsPriorWithoutMatch(className: string, pdoType: string, prior: Profile)
    requires forall j :: 0 <= j < |ClassRules| ==> !Contains(Lower(className), ClassRules[j].needle)
    ensures Detect(className, false, pdoType, prior) == prior
  {
    FirstMatchNone(Lower(className), ClassRules);
  }

  /**
   * A PDO adapter always gets the `:` placeholder; its engine and quote style come from
   * `getDbtype()` for sqlite, pgsql and mysql, and from the class name otherwise.
   */
  lemma DetectPdo(className: string, pdoType: string, prior: Profile)
    ensures Detect(className, true, pdoType, prior).placeholder == ":"
    ensures pdoType == "sqlite" ==> Detect(className, true, pdoType, prior) == Profile(Some(SQLITE), DOUBLE_QUOTE, ":")
    ensures pdoType == "pgsql" ==> Detect(className, true, pdoType, prior) == Profile(Some(PGSQL), DOUBLE_QUOTE, ":")
    ensures pdoType == "mysql" ==> Detect(className, true, pdoType, prior) == Profile(Some(MYSQL), BACKTICK, ":")
    ensures pdoType !in {"sqlite", "pgsql", "mysql"} ==>
      Detect(className, true, pdoType, prior).dbType == ClassProfile(className, prior).dbType &&
      Detect(className, true, pdoType, prior).quoteIdType == ClassProfile(className, prior).quoteIdType
  {
  }

  /** The placeholder is always one of `?`, `:` and `$`. */
  lemma DetectKeepsPlaceholderValid(className: string, pdo: bool, pdoType: string, prior: Profile)
    requires ValidPlaceholder(prior.placeholder)
    ensures ValidPlaceholder(Detect(className, pdo, pdoType, prior).placeholder)
  {
    var name := Lower(className);
    match FirstMatch(name, ClassRules)
    case None =>
    case Some(r) => FirstMatchInRules(name, ClassRules);
  }

  lemma {:induction false} FirstMatchInRules(name: string, rules: seq<Rule>)
    ensures FirstMatch(name, rules).Some? ==> FirstMatch(name, rules).value in rules
  {
    if rules != [] && !Contains(name, rules[0].needle) {
      FirstMatchInRules(name, rules[1..]);
    }
  }

  // ---------------------------------------------------------------------------
  // Identifier quoting

  /** The start and end quote of a quote-id type; `null` quotes concatenate as "". */
  function QuoteChars(quoteIdType: string): (string, string) {
    if quoteIdType == BACKTICK then ("`", "`")
    else if quoteIdType == BRACKET then ("[", "]")
    else if quoteIdType == DOUBLE_QUOTE then ("\"", "\"")
    else ("", "")
  }

  /** `explode('.', $s)`. */
  function Split(s: string): (r: seq<string>)
    ensures |r| >= 1
    ensures forall i :: 0 <= i < |r| ==> '.' !in r[i]
  {
    if s == [] then [""]
    else
      var rest := Split(s[1..]);
      if s[0] == '.' then [""] + rest
      else [[s[0]] + rest[0]] + rest[1..]
  }

  /** `implode('.', $segments)`. */
  function Join(segments: seq<string>): string
    requires |segments| >= 1
  {
    if |segments| == 1 then segments[0] else segments[0] + "." + Join(segments[1..])
  }

  function Wrap(segments: seq<string>, start: string, end: string): (r: seq<string>)
    ensures |r| == |segments|
  {
    seq(|segments|, i requires 0 <= i < |segments| => start + segments[i] + end)
  }

  /** `quoteId($value)` under the quote-id type `quoteIdType`. */
  function QuoteId(quoteIdType: string, value: string): string {
    var (start, end) := QuoteChars(quoteIdType);
    if '.' in value then Join(Wrap(Split(value), start, end))
    else start + value + end
  }

  lemma JoinCons(x: string, y: string, tail: seq<string>)
    ensures Join([x + y] + tail) == x + Join([y] + tail)
  {
    if tail != [] {
      assert ([x + y] + tail)[1..] == tail == ([y] + tail)[1..];
    }
  }

  /** Splitting on dots and joining again gives the input back. */
  lemma {:induction false} JoinSplit(s: string)
    ensures Join(Split(s)) == s
  {
    if s != [] {
      var rest := Split(s[1..]);
      JoinSplit(s[1..]);
      if s[0] == '.' {
        assert ([""] + rest)[1..] == rest;
      } else {
        JoinCons([s[0]], rest[0], rest[1..]);
        assert [rest[0]] + rest[1..] == rest;
      }
    }
  }

  lemma {:induction false} SplitDotFree(a: string)
    requires '.' !in a
    ensures Split(a) == [a]
  {
    if a != [] {
      SplitDotFree(a[1..]);
      assert a[0] != '.' by { assert a[0] == a[0]; }
      assert [a[0]] + a[1..] == a;
    }
  }

  lemma {:induction false} SplitAfterSegment(a: string, rest: string)
    requires '.' !in a
    ensures Split(a + "." + rest) == [a] + Split(rest)
  {
    if a == [] {
      assert a + "." + rest == "." + rest;
      assert ("." + rest)[1..] == rest;
    } else {
      SplitAfterSegment(a[1..], rest);
      var s := a + "." + rest;
      assert s[0] == a[0] && s[0] != '.';
      assert s[1..] == a[1..] + "." + rest;
      assert Split(s[1..]) == [a[1..]] + Split(rest);
      assert [a[0]] + a[1..] == a;
    }
  }

  /** Joining dot-free segments and splitting again gives the segments back. */
  lemma {:induction false} SplitJoin(segments: seq<string>)
    requires |segments| >= 1
    requires forall i :: 0 <= i < |segments| ==> '.' !in segments[i]
    ensures Split(Join(segments)) == segments
  {
    if |segments| == 1 {
      SplitDotFree(segments[0]);
    } else {
      SplitJoin(segments[1..]);
      SplitAfterSegment(segments[0], Join(segments[1..]));
    }
  }

  /** Both branches of `quoteId` quote each dot-separated segment and rejoin them. */
  lemma QuoteIdIsSegmentwise(quoteIdType: string, value: string)
    ensures QuoteId(quoteIdType, value) ==
      Join(Wrap(Split(value), QuoteChars(quoteIdType).0, QuoteChars(quoteIdType).1))
  {
    if '.' !in value {
      SplitDotFree(value);
    }
  }

  /**
   * The quoted identifier has exactly as many dot-separated segments as the input, and
   * segment i is segment i of the input between the start and end quote.
   */
  lemma QuoteIdSegments(quoteIdType: string, value: string)
    ensures Split(QuoteId(quoteIdType, value)) ==
      Wrap(Split(value), QuoteChars(quoteIdType).0, QuoteChars(quoteIdType).1)
  {
    var (start, end) := QuoteChars(quoteIdType);
    QuoteIdIsSegmentwise(quoteIdType, value);
    var wrapped := Wrap(Split(value), start, end);
    forall i | 0 <= i < |wrapped| ensures '.' !in wrapped[i] {
      assert wrapped[i] == start + Split(value)[i] + end;
    }
    SplitJoin(wrapped);
  }

  /** Strips the start and end quote from every segment of a quoted identifier. */
  function Unquote(quoteIdType: string, quoted: string): string {
    var (start, end) := QuoteChars(quoteIdType);
    var segments := Split(quoted);
    Join(seq(|segments|, i requires 0 <= i < |segments| =>
      if |segments[i]| >= |start| + |end| then segments[i][|start|..|segments[i]| - |end|] else segments[i]))
  }

  /** Removing the quotes from each segment of `quoteId($value)` gives back `$value`. */
  lemma QuoteIdRoundTrip(quoteIdType: string, value: string)
    ensures Unquote(quoteIdType, QuoteId(quoteIdType, value)) == value
  {
    var (start, end) := QuoteChars(quoteIdType);
    QuoteIdSegments(quoteIdType, value);
    var segments := Split(QuoteId(quoteIdType, value));
    var stripped := seq(|segments|, i requires 0 <= i < |segments| =>
      if |segments[i]| >= |start| + |end| then segments[i][|start|..|segments[i]| - |end|] else segments[i]);
    assert stripped == Split(value) by {
      forall i | 0 <= i < |segments| ensures stripped[i] == Split(value)[i] {
        assert segments[i] == start + Split(value)[i] + end;
      }
    }
    JoinSplit(value);
  }

  /** With NO_QUOTE or any unrecognised quote-id type the identifier is returned as is. */
  lemma QuoteIdWithoutQuotes(quoteIdType: string, value: string)
    requires quoteIdType != BACKTICK && quoteIdType != BRACKET && quoteIdType != DOUBLE_QUOTE
    ensures QuoteId(quoteIdType, value) == value
  {
    QuoteIdIsSegmentwise(quoteIdType, value);
    var segments := Split(value);
    assert Wrap(segments, "", "") == segments by {
      forall i | 0 <= i < |segments| ensures Wrap(segments, "", "")[i] == segments[i] {
        assert "" + segments[i] + "" == segments[i];
      }
    }
    JoinSplit(value);
  }

  /** "schema.table" becomes two independently quoted segments joined by a dot. */
  lemma QuoteIdDotted(quoteIdType: string, a: string, b: string)
    requires '.' !in a && '.' !in b
    ensures QuoteId(quoteIdType, a + "." + b) ==
      QuoteChars(quoteIdType).0 + a + QuoteChars(quoteIdType).1 + "." +
      QuoteChars(quoteIdType).0 + b + QuoteChars(quoteIdType).1
  {
    var (start, end) := QuoteChars(quoteIdType);
    SplitAfterSegment(a, b);
    SplitDotFree(b);
    QuoteIdIsSegmentwise(quoteIdType, a + "." + b);
    assert Wrap([a, b], start, end) == [start + a + end, start + b + end];
  }

  // ---------------------------------------------------------------------------
  // Value quoting

  /** `preg_match('/^\$\d*\d$/', $s)`: `$`, one or more digits, and (PCRE's `$`) an optional final newline. */
  predicate IsDollarToken(s: string) {
    var body := if |s| > 0 && s[|s| - 1] == '\n' then s[..|s| - 1] else s;
    |body| >= 2 && body[0] == '$' && AllDigits(body[1..])
  }

  /** `$value != '?'` with PHP's loose comparison. */
  predicate LooselyDiffersFromQuestionMark(v: Value)
    requires !v.Arr?
  {
    match v
    case Str(s) => s != "?"
    case Bool(b) => !b          // '?' converts to true
    case Null => true           // null converts to ""
    case Int(i) => i != 0       // '?' converts to 0 (PHP 7)
    case Float(x) => x != 0.0
  }

  /** `substr($value, 0, 1) != ':'`. */
  predicate FirstCharIsNotColon(v: Value)
    requires !v.Arr?
  {
    !(v.Str? && |v.s| > 0 && v.s[0] == ':')
  }

  /** The text `escape` receives for a value that is quoted. */
  function ScalarText(v: Value): string
    requires v.Str? || v.Null? || v.Bool?
  {
    match v
    case Str(s) => s
    case Null => ""
    case Bool(b) => if b then "1" else ""
  }

  /** `quote($value)`; `substr` and `preg_match` reject arrays, so arrays are outside its domain. */
  function Quote(escape: string -> string, v: Value): Value
    requires !v.Arr?
  {
    if LooselyDiffersFromQuestionMark(v) && FirstCharIsNotColon(v)
      && !(v.Str? && IsDollarToken(v.s)) && !v.Int? && !v.Float?
    then Str("'" + escape(ScalarText(v)) + "'")
    else v
  }

  /** The values `quote` leaves alone: placeholders, numbers, and (loose `==`) `true`. */
  predicate LeftUnquoted(v: Value) {
    match v
    case Str(s) => s == "?" || (|s| > 0 && s[0] == ':') || IsDollarToken(s)
    case Int(_) => true
    case Float(_) => true
    case Bool(b) => b
    case Null => false
    case Arr(_) => false
  }

  /**
   * `quote` returns placeholders `?`, `:name`, `$n`, integers and floats unchanged, and
   * every other value as its escaped text between single quotes.
   */
  lemma QuoteClassifies(escape: string -> string, v: Value)
    requires !v.Arr?
    ensures LeftUnquoted(v) ==> Quote(escape, v) == v
    ensures !LeftUnquoted(v) ==>
      (v.Str? || v.Null? || v.Bool?) && Quote(escape, v) == Str("'" + escape(ScalarText(v)) + "'")
  {
  }

  /** A quoted value is `'`, the escaped text, `'`: stripping the quotes recovers `escape`'s output. */
  lemma QuotedStringUnwraps(escape: string -> string, s: string)
    requires !LeftUnquoted(Str(s))
    ensures Quote(escape, Str(s)).Str?
    ensures var q := Quote(escape, Str(s)).s;
      |q| >= 2 && q[0] == '\'' && q[|q| - 1] == '\'' && q[1..|q| - 1] == escape(s)
  {
    QuoteClassifies(escape, Str(s));
    var q := "'" + escape(s) + "'";
    assert q[1..|q| - 1] == escape(s);
  }

  // ---------------------------------------------------------------------------
  // The current-clause slot

  const NoInsertColumnsError := Exception("Error: The columns parameter cannot be null for a new INSERT clause.")
  const NoUpdateColumnsError := Exception("Error: The columns parameter cannot be null for a new UPDATE clause.")
  const NoClauseError := Exception("Error: No SQL clause has been created yet.")

  /**
   * The reuse-or-replace rule of the clause factories, stated once for all four kinds:
   * a clause object of the requested kind is taken as it is; `delete` replaces the slot
   * for any other non-null argument; otherwise a clause of the requested kind already in
   * the slot is kept; `insert`/`update` refuse to start a clause without columns; and
   * otherwise a fresh clause of the requested kind is built from the argument.
   */
  function NextClause(kind: Kind, slot: Option<Clause>, arg: Arg): Result<Clause> {
    if arg.ClauseObj? && KindOf(arg.c) == kind then Success(arg.c)
    else if kind == DeleteKind && !arg.IsNull() then Success(FreshClause(DeleteKind, arg))
    else if slot.Some? && KindOf(slot.value) == kind then Success(slot.value)
    else if kind == InsertKind && arg.IsNull() then Failure(NoInsertColumnsError)
    else if kind == UpdateKind && arg.IsNull() then Failure(NoUpdateColumnsError)
    else Success(FreshClause(kind, arg))
  }

  /** Whatever the factory returns is of the requested kind. */
  lemma NextClauseKind(kind: Kind, slot: Option<Clause>, arg: Arg)
    ensures NextClause(kind, slot, arg).Success? ==> KindOf(NextClause(kind, slot, arg).value) == kind
  {
  }

  /**
   * Asking again for the kind already in the slot returns the same clause, whatever the
   * argument (a column list included), unless it is a clause object of that kind or a
   * non-null argument of `delete`: chained calls configure one clause.
   */
  lemma NextClauseReuses(kind: Kind, c: Clause, arg: Arg)
    requires KindOf(c) == kind
    requires kind != DeleteKind || arg.IsNull()
    requires !(arg.ClauseObj? && KindOf(arg.c) == kind)
    ensures NextClause(kind, Some(c), arg) == Success(c)
  {
  }

  /** A clause object of the requested kind becomes the current clause, whatever the slot held. */
  lemma NextClauseTakesObject(kind: Kind, slot: Option<Clause>, d: Clause)
    requires KindOf(d) == kind
    ensures NextClause(kind, slot, ClauseObj(d)) == Success(d)
  {
  }

  /** A different kind in the slot (or none) is discarded for a fresh clause built from the argument. */
  lemma NextClauseReplaces(kind: Kind, slot: Option<Clause>, arg: Arg)
    requires slot.None? || KindOf(slot.value) != kind
    requires !(arg.ClauseObj? && KindOf(arg.c) == kind)
    requires kind == SelectKind || kind == DeleteKind || !arg.IsNull()
    ensures NextClause(kind, slot, arg) == Success(FreshClause(kind, arg))
  {
  }

  /** Only `insert` and `update` fail, and only without columns and without a clause of their kind. */
  lemma NextClauseFails(kind: Kind, slot: Option<Clause>, arg: Arg)
    ensures NextClause(kind, slot, arg).Failure? <==>
      (kind == InsertKind || kind == UpdateKind) && arg.IsNull() &&
      (slot.None? || KindOf(slot.value) != kind)
  {
  }

  /** `delete` always leaves a Delete clause, even when handed a clause of another kind. */
  lemma NextClauseDelete(slot: Option<Clause>, arg: Arg)
    ensures NextClause(DeleteKind, slot, arg).Success?
    ensures NextClause(DeleteKind, slot, arg).value.Delete?
    ensures !arg.IsNull() && !(arg.ClauseObj? && arg.c.Delete?) ==>
      NextClause(DeleteKind, slot, arg).value == Delete(None)
  {
  }

  // ---------------------------------------------------------------------------
  // The builder

  class Sql {
    var db: Driver
    var dbType: Option<DbType>
    var quoteIdType: string
    var table: Option<string>
    var alias: Option<string>
    var clause: Option<Clause>
    var sql: Option<Statement>
    var placeholder: string

    /** The placeholder is always `?`, `:` or `$`. */
    ghost predicate Valid()
      reads this`placeholder
    {
      ValidPlaceholder(placeholder)
    }

    /** The engine profile the builder currently holds. */
    function CurrentProfile(): Profile
      reads this`dbType, this`quoteIdType, this`placeholder
    {
      Profile(dbType, quoteIdType, placeholder)
    }

    constructor (d: Driver, table: Option<string>, alias: Option<string>)
      ensures Valid()
      ensures db == d && CurrentProfile() == Detect(d.className, d.pdo, d.pdoType, InitialProfile)
      ensures this.table == table && this.alias == alias
      ensures clause.None? && sql.None?
    {
      db := d;
      dbType := None;
      quoteIdType := NO_QUOTE;
      placeholder := "?";
      this.table := None;
      this.alias := None;
      clause := None;
      sql := None;
      new;
      SetDb(d);
      SetTable(table);
      SetAlias(alias);
    }

    method SetDb(d: Driver)
      requires Valid()
      modifies this`db, this`dbType, this`quoteIdType, this`placeholder
      ensures Valid()
      ensures db == d
      ensures CurrentProfile() == Detect(d.className, d.pdo, d.pdoType, old(CurrentProfile()))
    {
      ghost var prior := CurrentProfile();
      db := d;
      var adapter := Lower(d.className);
      if Contains(adapter, "mysql") {
        dbType, quoteIdType, placeholder := Some(MYSQL), BACKTICK, "?";
      } else if Contains(adapter, "oracle") {
        dbType, quoteIdType, placeholder := Some(ORACLE), DOUBLE_QUOTE, "?";
      } else if Contains(adapter, "pgsql") {
        dbType, quoteIdType, placeholder := Some(PGSQL), DOUBLE_QUOTE, "$";
      } else if Contains(adapter, "sqlite") {
        dbType, quoteIdType, placeholder := Some(SQLITE), DOUBLE_QUOTE, ":";
      } else if Contains(adapter, "sqlsrv") {
        dbType, quoteIdType, placeholder := Some(SQLSRV), BRACKET, "?";
      }
      ClassProfileChain(d.className, prior);
      if d.pdo {
        placeholder := ":";
        if d.pdoType == "sqlite" {
          dbType, quoteIdType := Some(SQLITE), DOUBLE_QUOTE;
        } else if d.pdoType == "pgsql" {
          dbType, quoteIdType := Some(PGSQL), DOUBLE_QUOTE;
        } else if d.pdoType == "mysql" {
          dbType, quoteIdType := Some(MYSQL), BACKTICK;
        }
      }
    }

    method SetQuoteId(quoteType: string)
      modifies this`quoteIdType
      ensures quoteIdType == quoteType
    {
      quoteIdType := quoteType;
    }

    method SetTable(t: Option<string>)
      modifies this`table
      ensures table == t
    {
      table := t;
    }

    /** Alias of `setTable`. */
    method From(t: Option<string>)
      modifies this`table
      ensures table == t
    {
      table := t;
    }

    /** Alias of `setTable`. */
    method Into(t: Option<string>)
      modifies this`table
      ensures table == t
    {
      table := t;
    }

    method SetAlias(a: Option<string>)
      modifies this`alias
      ensures alias == a
    {
      alias := a;
    }

    /** `$this->table != null`: loosely, the empty string counts as no table. */
    function HasTable(): (r: bool)
      reads this`table
      ensures r <==> table.Some? && |table.value| > 0
    {
      table != None && table != Some("")
    }

    /** `$this->alias != null`, loosely as for the table. */
    function HasAlias(): (r: bool)
      reads this`alias
      ensures r <==> alias.Some? && |alias.value| > 0
    {
      alias != None && alias != Some("")
    }

    function GetPlaceholder(): (r: string)
      reads this`placeholder
      requires Valid()
      ensures r == "?" || r == ":" || r == "$"
    {
      placeholder
    }

    method Select(columns: Arg) returns (c: Clause)
      modifies this`clause
      ensures clause == Some(c)
      ensures NextClause(SelectKind, old(clause), columns) == Success(c)
    {
      if columns.ClauseObj? && columns.c.Select? {
        clause := Some(columns.c);
      }
      if clause.None? || !clause.value.Select? {
        clause := Some(FreshClause(SelectKind, columns));
      }
      c := clause.value;
    }

    method Insert(columns: Arg) returns (r: Result<Clause>)
      modifies this`clause
      ensures r == NextClause(InsertKind, old(clause), columns)
      ensures clause == if r.Success? then Some(r.value) else old(clause)
    {
      if columns.ClauseObj? && columns.c.Insert? {
        clause := Some(columns.c);
      }
      if clause.None? || !clause.value.Insert? {
        if columns.IsNull() {
          return Failure(NoInsertColumnsError);
        }
        clause := Some(FreshClause(InsertKind, columns));
      }
      r := Success(clause.value);
    }

    method Update(columns: Arg) returns (r: Result<Clause>)
      modifies this`clause
      ensures r == NextClause(UpdateKind, old(clause), columns)
      ensures clause == if r.Success? then Some(r.value) else old(clause)
    {
      if columns.ClauseObj? && columns.c.Update? {
        clause := Some(columns.c);
      }
      if clause.None? || !clause.value.Update? {
        if columns.IsNull() {
          return Failure(NoUpdateColumnsError);
        }
        clause := Some(FreshClause(UpdateKind, columns));
      }
      r := Success(clause.value);
    }

    method Delete(delete: Arg) returns (c: Clause)
      modifies this`clause
      ensures clause == Some(c)
      ensures NextClause(DeleteKind, old(clause), delete) == Success(c)
    {
      if !delete.IsNull() {
        // `$this->clause = $delete`: a value that is not a clause object fails the
        // instanceof test below just as an empty slot does.
        clause := if delete.ClauseObj? then Some(delete.c) else None;
      }
      if clause.None? || !clause.value.Delete? {
        clause := Some(FreshClause(DeleteKind, delete));
      }
      c := clause.value;
    }

    /** `render(true)`: renders the current clause, stores it and empties the slot. */
    method Render() returns (r: Result<Statement>)
      modifies this`clause, this`sql
      ensures old(clause).None? ==> r == Failure(NoClauseError) && clause == old(clause) && sql == old(sql)
      ensures old(clause).Some? ==>
        r == Success(Rendered(old(clause).value, CurrentProfile(), table, alias)) &&
        sql == Some(r.value) && clause.None?
    {
      if clause.None? {
        return Failure(NoClauseError);
      }
      sql := Some(Rendered(clause.value, CurrentProfile(), table, alias));
      clause := None;
      r := Success(sql.value);
    }
  }

  /** Rendering consumes the clause: a second `render` in a row fails. */
  method RenderTwice(s: Sql) returns (first: Result<Statement>, second: Result<Statement>)
    modifies s`clause, s`sql
    ensures first.Success? <==> old(s.clause).Some?
    ensures second == Failure(NoClauseError)
  {
    first := s.Render();
    second := s.Render();
  }
}
