# Pop database builder, table gateway and DOM child node

This project models three classes of the popphp libraries that the lacecart shop backend uses.

- **`Pop\Db\Sql`** is the SQL statement builder, in module `Db` (sql.dfy).
  - `setDb` derives an engine profile from the adapter: the database type, the identifier quote style and the placeholder style.
    - The first tier matches substrings of the adapter's class name.
    - The second tier is an override for PDO adapters.
  - `quoteId` quotes identifiers, one dot-separated segment at a time.
  - `quote` leaves placeholders and numbers alone and escapes and single-quotes everything else.
  - The builder keeps one "current clause" slot. `select`, `insert`, `update` and `delete` reuse or replace the slot, and `render` consumes it.
- **`Pop\Db\Gateway\Table`** is the table gateway, in module `Gateway` (table.dfy).
  - It turns a row into a column-to-placeholder map and a parameter array in the builder's placeholder style.
  - It drives the builder.
  - It issues the driver calls `prepare`, `bindParams`, `execute` and `fetchResult`, and keeps the fetched rows.
- **`Pop\Dom\Child`** is one markup element, in module `Dom` (child.dfy).
  - It holds an ordered attribute dictionary that its setters change in place.
  - It renders itself and its child nodes as indented markup, and fixes its indentation on the first render.

The supporting modules are:

- `Php` (php.dfy): PHP values and ordered arrays with PHP's assignment semantics. Assigning to an existing key keeps its position, and `$a[] =` appends under the next integer key. It also holds `(int)` casts, integer-to-string conversion and `isset`.
- `SqlClause` (clause.dfy): the engine profile, the four clause kinds and a rendered statement.
- `Adapter` (adapter.dfy): the database adapter. It is a `Driver` object with a fixed class name, PDO flag, PDO driver name and `escape` function, and it records every driver call, in order, in `trace`.

State that PHP changes in place is modelled by classes whose methods change their fields:

- the builder's `dbType`, `quoteIdType`, `placeholder`, `table`, `alias`, `clause` and `sql`;
- the gateway's `rows`;
- the child's attributes, indentation, child nodes and output.

The pure parts are functions, and lemmas state their properties:

- engine detection;
- identifier and value quoting;
- the reuse-or-replace rule of the clause slot;
- the placeholder and parameter construction;
- the driver call sequence;
- the attribute text;
- rendering a node tree.

Each loop of the source that builds state is a `while` loop proved against one of those functions. The exception is `quoteId`'s `foreach`, which only maps over the segments; it is the sequence comprehension in `Db.Wrap`.

Where the code and its documentation differ, the model follows the code:

- `quote` treats a value as a `$n` placeholder by the regular expression `^\$\d*\d$`. Under PCRE, `$` also accepts one trailing newline, so `"$1\n"` is left unquoted too. `Db.IsDollarToken` models that.
- `quote` compares with `!= '?'`. This is PHP's loose comparison, so the boolean `true` is left unquoted as well (`Db.LeftUnquoted`).
- `delete($x)` with a non-null `$x` that is not a Delete clause stores `$x` and then replaces it at once with a fresh Delete clause.

## Model

| member | source | states |
|---|---|---|
| Db.ClassProfile | vendor/popphp/pop-db/Sql.php:157-179 | The first tier of setDb: the profile of the first rule whose needle occurs in the lower-cased class name, or the prior profile. It has no contract of its own; Db.ClassProfileChain and Db.DetectByClassName state it. |
| Db.PdoProfile | vendor/popphp/pop-db/Sql.php:181-193 | The second tier of setDb: a PDO adapter forces `:` and may override engine and quote style. Db.DetectPdo states it. |
| Db.Detect | vendor/popphp/pop-db/Sql.php:157-193 | The profile setDb leaves: the PDO tier applied after the class-name tier. Db.Sql.SetDb is proved against it. |
| Db.ClassProfileChain | vendor/popphp/pop-db/Sql.php:157-179 | Class-name detection is the chain of tests on the lower-cased class name, in the order mysql, oracle, pgsql, sqlite, sqlsrv. Each test sets the dbType, quote style and placeholder of its row. Without a match the prior profile stands. |
| Db.DetectByClassName | vendor/popphp/pop-db/Sql.php:157-179 | For a non-PDO adapter, the profile is the row of the first needle found in the class name. |
| Db.DetectKeepsPriorWithoutMatch | vendor/popphp/pop-db/Sql.php:157-179 | For a non-PDO adapter whose class name contains no needle, dbType, quote style and placeholder all keep their prior values. |
| Db.DetectPdo | vendor/popphp/pop-db/Sql.php:181-193 | A PDO adapter always gets placeholder `:`. getDbtype() sqlite gives the whole profile (SQLITE, DOUBLE_QUOTE, `:`), pgsql gives (PGSQL, DOUBLE_QUOTE, `:`) and mysql gives (MYSQL, BACKTICK, `:`). Any other driver name keeps the class-name engine and quote style. |
| Db.DetectKeepsPlaceholderValid | vendor/popphp/pop-db/Sql.php:157-193 | Starting from a valid placeholder, detection always leaves one of `?`, `:`, `$`. |
| Db.FirstMatchPicksEarliest | vendor/popphp/pop-db/Sql.php:159-179 | The rule at index i is chosen when it matches and no earlier rule matches. |
| Db.FirstMatchNone | vendor/popphp/pop-db/Sql.php:159-179 | No rule is chosen exactly when no needle occurs. |
| Db.Sql.constructor | vendor/popphp/pop-db/Sql.php:141-146 | The new builder holds the adapter and the profile detected from the initial one (no dbType, NO_QUOTE, `?`). It holds the given table and alias and has no clause and no SQL. |
| Db.Sql.SetDb | vendor/popphp/pop-db/Sql.php:154-196 | After setDb the adapter is stored and the profile is Detect(class name, isPdo, getDbtype, previous profile). The placeholder stays one of `?`, `:`, `$`. |
| Db.Sql.SetQuoteId | vendor/popphp/pop-db/Sql.php:204-208 | The quote style becomes the given value, whatever it is. |
| Db.Sql.SetTable | vendor/popphp/pop-db/Sql.php:216-220 | The table becomes the given value. |
| Db.Sql.From | vendor/popphp/pop-db/Sql.php:228-232 | The table becomes the given value. |
| Db.Sql.Into | vendor/popphp/pop-db/Sql.php:240-244 | The table becomes the given value. |
| Db.Sql.SetAlias | vendor/popphp/pop-db/Sql.php:252-256 | The alias becomes the given value. |
| Db.Sql.HasTable | vendor/popphp/pop-db/Sql.php:263-266 | True exactly when a non-empty table name is set (loose `!= null`). |
| Db.Sql.HasAlias | vendor/popphp/pop-db/Sql.php:273-276 | True exactly when a non-empty alias is set (loose `!= null`). |
| Db.Sql.GetPlaceholder | vendor/popphp/pop-db/Sql.php:353-356 | The placeholder is always `?`, `:` or `$`. |
| Db.QuoteId | vendor/popphp/pop-db/Sql.php:364-396 | quoteId under a quote style: start and end quotes around the value, or around each `.`-separated segment. Db.QuoteIdIsSegmentwise, Db.QuoteIdSegments, Db.QuoteIdRoundTrip, Db.QuoteIdWithoutQuotes and Db.QuoteIdDotted state it. |
| Db.QuoteIdIsSegmentwise | vendor/popphp/pop-db/Sql.php:364-394 | Both branches of quoteId wrap each `.`-separated segment in the start and end quote and rejoin the segments with `.`. |
| Db.QuoteIdSegments | vendor/popphp/pop-db/Sql.php:385-393 | The quoted identifier splits into as many segments as the input, and segment i is input segment i between the quotes. |
| Db.QuoteIdRoundTrip | vendor/popphp/pop-db/Sql.php:385-393 | Stripping the quotes from every segment of quoteId(v) gives back v. |
| Db.QuoteIdWithoutQuotes | vendor/popphp/pop-db/Sql.php:366-392 | With NO_QUOTE or any unrecognised quote style, quoteId returns its input unchanged. |
| Db.QuoteIdDotted | vendor/popphp/pop-db/Sql.php:385-390 | `a.b` with dot-free a and b becomes quoted a, `.`, quoted b. |
| Db.JoinSplit | vendor/popphp/pop-db/Sql.php:386-390 | implode('.', explode('.', s)) == s. |
| Db.SplitJoin | vendor/popphp/pop-db/Sql.php:386-390 | explode after implode of dot-free segments gives the segments back. |
| Db.Quote | vendor/popphp/pop-db/Sql.php:404-411 | quote with PHP's loose comparisons and the `$n` regular expression. Db.QuoteClassifies and Db.QuotedStringUnwraps state it. |
| Db.QuoteClassifies | vendor/popphp/pop-db/Sql.php:404-411 | quote returns these unchanged: exactly `?` (and loosely `true`), values starting with `:`, `$` followed by digits, ints and floats. Every other value becomes `'` + escape(text) + `'`. |
| Db.QuotedStringUnwraps | vendor/popphp/pop-db/Sql.php:406-410 | A quoted string starts and ends with `'`, and what lies between is exactly escape's output. |
| Db.NextClause | vendor/popphp/pop-db/Sql.php:419-492 | The reuse-or-replace rule of the four clause factories. The Db.NextClause lemmas below state it, and Db.Sql.Select, Insert, Update and Delete are proved against it. |
| Db.NextClauseKind | vendor/popphp/pop-db/Sql.php:419-492 | Whatever a clause factory returns is of the requested kind. |
| Db.NextClauseReuses | vendor/popphp/pop-db/Sql.php:419-492 | With a clause of the requested kind current, the factory returns it unchanged for any argument that is not a clause object of that kind. A column list passed to select, insert or update is ignored then. For delete this holds for a null argument. |
| Db.NextClauseTakesObject | vendor/popphp/pop-db/Sql.php:419-492 | A clause object of the requested kind becomes the current clause, whatever the slot held. |
| Db.NextClauseReplaces | vendor/popphp/pop-db/Sql.php:419-492 | When neither the slot nor the argument holds the requested kind, a fresh clause built from the argument replaces the slot. |
| Db.NextClauseFails | vendor/popphp/pop-db/Sql.php:438-473 | A factory fails exactly for insert or update with null columns and no clause of that kind current. |
| Db.NextClauseDelete | vendor/popphp/pop-db/Sql.php:482-492 | delete never fails and always leaves a Delete clause, even when handed a non-null value of another kind. |
| Db.Sql.Select | vendor/popphp/pop-db/Sql.php:419-430 | The returned clause is the one NextClause gives for Select, and it becomes the current clause. |
| Db.Sql.Insert | vendor/popphp/pop-db/Sql.php:438-451 | The result is NextClause for Insert. On success the clause becomes current. On failure the slot is unchanged. |
| Db.Sql.Update | vendor/popphp/pop-db/Sql.php:460-473 | The result is NextClause for Update. On success the clause becomes current. On failure the slot is unchanged. |
| Db.Sql.Delete | vendor/popphp/pop-db/Sql.php:482-492 | The returned clause is NextClause for Delete, and it becomes the current clause. |
| Db.Sql.Render | vendor/popphp/pop-db/Sql.php:501-516 | Without a clause, render fails and nothing changes. Otherwise the statement of the clause, rendered against the current profile, table and alias, is stored in `sql` and returned, and the slot is emptied. |
| Db.RenderTwice | vendor/popphp/pop-db/Sql.php:501-511 | The first render succeeds exactly when a clause is current. A second render straight after always fails. |
| Gateway.PlaceholderFor | vendor/popphp/pop-db/Gateway/Table.php:131-143 | The placeholder of a column at counter i: `:`+column, `$`+i, or the style unchanged. Gateway.ColumnMapEntries and Gateway.PlaceholdersSurviveQuote state it. |
| Gateway.ColumnMap | vendor/popphp/pop-db/Gateway/Table.php:131-143 | The `$columns` array of the column loop, counter starting at a given value. Gateway.ColumnMapEntries states it, and InsertRow and UpdateRow are proved against it. |
| Gateway.RowSets | vendor/popphp/pop-db/Gateway/Table.php:125 | The rows insert iterates: the input's elements when element 0 exists and is an array, otherwise the input as one row. The result is never empty. |
| Gateway.SelectClause | vendor/popphp/pop-db/Gateway/Table.php:81-98 | The Select clause select builds: input, where, limit and offset cast to int when set, and the raw order option. Gateway.SelectLimitOffset states it. |
| Php.IntCast | vendor/popphp/pop-db/Gateway/Table.php:87-93 | PHP's `(int)` on the limit and offset options. Php.IntCastOfIntString proves that decimal text gives back its integer. |
| Php.IntCastOfIntString | vendor/popphp/pop-db/Gateway/Table.php:87-93 | `(int)` of the decimal text of an integer is that integer. |
| Gateway.ColumnMapEntries | vendor/popphp/pop-db/Gateway/Table.php:131-143 | The column map of a row has one entry per column, in the row's order. Column j gets the placeholder for counter first+j: `:column`, `$i`, or the style unchanged. |
| Gateway.UpdatePlaceholdersShifted | vendor/popphp/pop-db/Gateway/Table.php:131-184 | insert numbers its `$` placeholders `$1..$n`, and update numbers them `$2..$(n+1)`. In the `:` style both give `:column`. |
| Gateway.PlaceholdersSurviveQuote | vendor/popphp/pop-db/Gateway/Table.php:131-143 | Every placeholder the gateway builds passes through quote unchanged. |
| Gateway.InsertParamsList | vendor/popphp/pop-db/Gateway/Table.php:132-144 | A row's insert parameters are its values in column order, keyed 0..n-1, and there are as many as the row has columns. |
| Gateway.InsertCallsPerRow | vendor/popphp/pop-db/Gateway/Table.php:127-149 | insert issues 3 calls per row. Calls 3k..3k+2 are prepare(row k's statement), bindParams(row k's params), execute. |
| Gateway.UpdateParamsOrder | vendor/popphp/pop-db/Gateway/Table.php:171-196 | The update parameters are the row itself (keys and values, in order) followed by the values of pars in their original order. |
| Gateway.DeleteParamsCopy | vendor/popphp/pop-db/Gateway/Table.php:227-231 | delete binds pars as given, keys included. |
| Gateway.SelectLimitOffset | vendor/popphp/pop-db/Gateway/Table.php:87-93 | limit and offset are applied exactly when set and non-null. Decimal text is cast to its integer. |
| Gateway.Table.constructor | vendor/popphp/pop-db/Gateway/Table.php:29-33 | A new gateway holds its builder and table name and starts with no rows. |
| Gateway.Table.BuildSelect | vendor/popphp/pop-db/Gateway/Table.php:81-98 | After the builder calls of select, the builder's table is the gateway's. The current clause is a Select of the input with the where, the limit and offset cast to int, and the order option, each present only when given. |
| Gateway.Table.Select | vendor/popphp/pop-db/Gateway/Table.php:75-109 | Without a table it fails before any builder or driver call. Otherwise it renders the select statement and issues prepare, bindParams (only for non-null, non-empty params), execute and fetchResult. `rows` becomes the fetched result, so getNumberOfRows is then the number of fetched rows. |
| Gateway.Table.InsertRow | vendor/popphp/pop-db/Gateway/Table.php:128-144 | One row's loop builds the column map with counter from 1, and the values list. |
| Gateway.Table.Insert | vendor/popphp/pop-db/Gateway/Table.php:118-152 | Without a table it fails before any call. Otherwise the rows (the input itself when element 0 is an array, else the input as one row) each add prepare, bindParams, execute to the trace, in order. The last row's statement stays in the builder. |
| Gateway.Table.UpdateRow | vendor/popphp/pop-db/Gateway/Table.php:171-184 | update's column loop builds the column map with `$` counter from 2, and the parameters keyed by column. |
| Gateway.Table.AppendPars | vendor/popphp/pop-db/Gateway/Table.php:192-196 | The extra pars are appended, values only, in order. |
| Gateway.Table.Update | vendor/popphp/pop-db/Gateway/Table.php:163-203 | Without a table it fails before any call. Otherwise the update statement (columns with placeholders from `$2`, optional where) is rendered, then prepare, bindParams(the update parameters), execute. |
| Gateway.Table.CopyPars | vendor/popphp/pop-db/Gateway/Table.php:227-231 | pars are copied key by key. |
| Gateway.Table.Delete | vendor/popphp/pop-db/Gateway/Table.php:213-240 | Without a table it fails before any call. Otherwise the delete statement is rendered, then prepare, bindParams only when pars is non-empty, and execute. |
| Dom.Pad | vendor/popphp/pop-dom/Child.php:224-250 | str_repeat of four spaces depth times: 4·depth characters, all spaces. |
| Dom.AttributeText | vendor/popphp/pop-dom/Child.php:226-235 | The attribute text is empty exactly when there are no attributes. Otherwise it starts with a space. |
| Dom.AttributeTextAppend | vendor/popphp/pop-dom/Child.php:230-235 | A further attribute adds a space and its `name="value"` pair at the end. |
| Dom.AttributeTextInOrder | vendor/popphp/pop-dom/Child.php:230-235 | The attribute text is ` k1="v1" k2="v2" ...`, in insertion order and unescaped. |
| Dom.RenderNode | vendor/popphp/pop-dom/Child.php:221-283 | render(true, depth, indent) of a node tree: the text, and the tree with the node's and every descendant's indentation fixed. Dom.RenderShape, Dom.RenderOnlyFixesIndent, Dom.RenderStable and Dom.ChildrenFirstNeedsBoth state it, and Dom.Child.Render is proved against it. |
| Dom.RenderShape | vendor/popphp/pop-dom/Child.php:238-276 | Output starts with the open tag and ends with a newline. A self-closing node (no children, null value, not textarea) renders as open tag + ` />\n`. A leaf with a value or named textarea renders as open tag + `>` + value + `</name>\n`. A node with children continues with `>\n` after the open tag and ends with `</name>\n`. |
| Dom.ChildrenFirstNeedsBoth | vendor/popphp/pop-dom/Child.php:252-265 | childrenFirst changes the output only when the node has both children and a value. |
| Dom.RenderOnlyFixesIndent | vendor/popphp/pop-dom/Child.php:224-265 | render changes only indentation. The node keeps its indent or gets 4·depth spaces, and names, values, flags, attributes and tree shape stay the same. |
| Dom.RenderChildrenOnlyFixIndent | vendor/popphp/pop-dom/Child.php:255-263 | Rendering the children changes only their indentation. |
| Dom.RenderStable | vendor/popphp/pop-dom/Child.php:224 | The indentation fixed by render persists: rendering the rendered tree again gives the same text and tree. |
| Dom.RenderChildrenStable | vendor/popphp/pop-dom/Child.php:255-263 | Re-rendering rendered children gives the same text and nodes. |
| Dom.RenderListExample | vendor/popphp/pop-dom/Child.php:221-283 | A `ul` with one `li` of value `x` renders as `<ul>\n    <li>x</li>\n</ul>\n`. |
| Dom.RenderFirstAll | vendor/popphp/pop-dom/Child.php:255-263 | Rendering the first k children one after the other equals rendering the first k as a list. |
| Dom.RenderEach | vendor/popphp/pop-dom/Child.php:255-263 | The children loop appends each child's output in order and collects the rendered children. |
| Dom.Child.constructor | vendor/popphp/pop-dom/Child.php:65-76 | The new node holds the name, value, childrenFirst flag and indent, has no attributes, and has the given child node as its only child, if one is given. |
| Dom.Child.Factory | vendor/popphp/pop-dom/Child.php:85-105 | Fails with the nodeName error exactly when nodeName is not set. Otherwise nodeValue defaults to null, childrenFirst to false and indent to null, the attributes are set in order and the child nodes are added. |
| Dom.Child.SetNodeName | vendor/popphp/pop-dom/Child.php:133-137 | The node name becomes the given one. |
| Dom.Child.SetNodeValue | vendor/popphp/pop-dom/Child.php:145-149 | The node value becomes the given one. |
| Dom.Child.SetAttribute | vendor/popphp/pop-dom/Child.php:158-162 | Afterwards the name reads the new value, and every other name reads as before. |
| Dom.Child.SetAttributes | vendor/popphp/pop-dom/Child.php:170-176 | Each given name reads its last given value, and names not given read as before. |
| Dom.Child.GetAttribute | vendor/popphp/pop-dom/Child.php:184-187 | Returns a value exactly when the attribute is set and non-null, and that value is the stored one. |
| Dom.Child.RemoveAttribute | vendor/popphp/pop-dom/Child.php:205-211 | Afterwards getAttribute(a) is null and other names read as before. An entry stored as null is kept, because the removal is guarded by isset. |
| Dom.Child.FormatAttributes | vendor/popphp/pop-dom/Child.php:226-235 | The attribute loop and implode produce the attribute text. |
| Dom.Child.Render | vendor/popphp/pop-dom/Child.php:221-283 | The returned text equals `output` and the text RenderNode gives for the node's prior state. Afterwards the node's state is RenderNode's node: its own and all descendants' indentation is fixed. |

## Left out

- The `echo` branches of `Sql::render` and `Child::render`, and `__toString`, are output I/O. `Db.Sql.Render` models `render(true)`.
- The clause classes (`Select`, `Insert`, `Update`, `Delete`, `Where`) are not part of this model. Their SQL text is opaque: a rendered statement is the clause plus the profile, table and alias it was rendered against.
- Chained clause mutation (`$sql->select()->where(...)`) is modelled as fetching the current clause and passing back an updated clause object. This has the same net effect, but does not capture object identity.
- `AbstractGateway::getOrder` and the escaping of the order direction are not part of this model. The raw `order` option is recorded in the Select clause.
- The database adapter does no work here. `escape`, `isPdo` and `getDbtype` are fixed properties of the `Driver`, and `prepare`, `bindParams`, `execute` and `fetchResult` only append to a call trace. SQL execution, result sets and driver errors are not modelled.
- `getNumberOfRows` is `Gateway.Table.GetNumberOfRows`, the length of `rows`. `Gateway.Table.Select` states what it is after a select.
- The getters `getSql`, `getDb`/`db`, `getDbType`, `getQuoteId`, `getTable`, `getAlias`, `getRows`/`rows`, `getNodeName`, `getNodeValue` and `getAttributes` only read a field. They are reads of the model's fields and have no members of their own.
- `AbstractGateway` is not part of this model. The gateway is created holding its builder and table name, and its `table` is fixed afterwards.
- `AbstractNode` is not part of this model. `addChild` in the constructor and `addChildren` in the factory are taken to append to the child list.
- Child nodes are values (`Node`), not shared objects. Aliasing between a child object held elsewhere and the tree, and a second render of a shared child, are not captured.
- Attribute values and node values are strings or null. Integer and float values, and PHP's number-to-string conversion in the interpolation, are not modelled.
- PHP converts numeric-string array keys such as `"1"` to integer keys. That conversion is not modelled.
- Float values are carried but not converted to text.
- Php.IntCast: integers are unbounded. PHP's `(int)` saturates a long digit string at the platform's PHP_INT_MAX/PHP_INT_MIN, and a float out of the integer range (or NaN or INF) has no exact integer value; neither is modelled. Exponent notation in a string (`"1e3"`) reads only its leading digits, as in PHP before 7.1.
- Php.IntToString: integers are unbounded, so the platform integer width does not appear in the `$n` placeholder counters.
- Db.Quote: arrays are outside its domain, since `substr` and `preg_match` reject them.
- Dom.Child.Factory: a missing entry and an entry set to `null` in the configuration array are both `None`, as `isset` makes them the same.
- backend/forms/FormBase.php is not part of this model: it wraps `Pop\Form\Form`.
- backend/constant/Database.php is not part of this model: it holds constants only.
- vendor/popphp/pop-pdf/Build/Font/TrueType/Table/Post.php is not part of this model: it reads binary font data with helpers not available here and converts fixed-point to floating point.
