# sqlfunc result binding, in Dafny

This project models the result-binding engine of the Go package `sqlfunc`.
The engine turns the column names of a SQL result set into scan destinations
for a typed result `R`, then drives a row cursor: one required row
(`queryRow`) or a lazy sequence of rows (`queryRows`).

One module per Go file, plus a shared data model:

- `types.dfy`, module `Types`. Errors, raw values, struct types with their fields and `sql` tags, result-type shapes and destinations. Reflection is replaced by the `ResultType` datatype. A result value is seen through what scanning stored in it (`Record`).
- `case.dfy`, module `Case`. `pascalToSnake`, as a loop method (`PascalToSnake`) proved against the function `Snake`.
- `result.dfy`, module `Mapping`. The column of a field, the mapping fold with last-write-wins (`BuildMapping`), its loop (`BuildFields`), and the package-level mapping cache as a class (`MappingCache`) with `getStructMapping` and `preprocessResult`.
- `dest.dfy`, module `Dest`. `isDestType`, the strategy `makeDestFunc` picks (`Strategy`), the struct closure's loop (`StructDests`) and `MakeDestFunc` on the cache.
- `void.dfy`, module `Discard`. `Void.Scan`.
- `rows.dfy`, module `Rows`. The `*sql.Rows` cursor as far as the engine uses it: `Next`, `Columns`, `Scan` and `Close`. Scan converts left to right, and the first column the driver cannot convert ends the scan.
- `context.dfy`, module `Context`. The context as an immutable chain of key/value bindings, `NewContext` and `fromContext`.
- `query.dfy`, module `Query`. `queryRow`, `queryRows` and the sequence it returns (`RowSeq.Run`), specified by the functions `RowOutcome`, `Setup` and `Drain`.

Three things outside the package are parameters of the model:

- the executor's `QueryContext`, as `query`, which answers an error or a cursor over columns and rows;
- the driver's conversion of one raw value into one destination, as `convert`;
- the consumer of the sequence, as `consume`, which sees the values already yielded and the current one.

## Model

| member | source | states |
|---|---|---|
| Case.ToLower | case.go:15 | an uppercase ASCII letter is emitted as its own lowercase letter: same offset from `a` as from `A` |
| Case.PascalToSnake | case.go:8-21 | the loop's output is the column name `Snake(name)`, appended piece by piece |
| Case.NoUpperInSnake | case.go:11-15 | the output contains no uppercase letter |
| Case.SnakeAt | case.go:10-18 | character `i` of the input lands at `Pos(s, i)`: copied if not uppercase, lowered if uppercase, and preceded by `_` when it is uppercase and `i > 0` |
| Case.PosIncreasing | case.go:10-19 | landing positions strictly increase, so characters keep their order |
| Case.SnakeLength | case.go:10-19 | output length = input length + the number of uppercase letters at indices above 0 |
| Case.SnakeOfLowerIsIdentity | case.go:10-20 | input without uppercase letters is returned unchanged |
| Case.SnakeIdempotent | case.go:10-20 | converting twice equals converting once |
| Case.LeadingUnderscore | case.go:12-13 | the output starts with `_` exactly when the input does |
| Case.SnakeAppendPlain | case.go:16-18 | appending text without uppercase letters to the input appends it unchanged to the output |
| Case.SnakeAppendWord | case.go:11-18 | appending a capital and text without uppercase letters appends the capital's piece (`_` unless the input was empty, then the lowered capital) and the text |
| Case.SnakeOfWord | case.go:11-18 | a capitalised word becomes the same word lowered, with no underscore |
| Case.SnakeOfTwoWords | case.go:11-18 | two capitalised words become the lowered words joined by one `_` |
| Mapping.BeforeComma | result.go:56-58 | the result is the prefix of the tag up to its first comma: a prefix, comma-free, followed by a comma when shorter than the tag |
| Mapping.ColumnOf | result.go:55-65 | a tag with a comma gives the text before its first comma; a tag without a comma gives the tag verbatim; an untagged field gives the snake name of the field |
| Mapping.MappingKeys | result.go:53-66 | a column is a key of the mapping iff some field yields it |
| Mapping.MappingLastWrite | result.go:53-66 | a mapped column maps to the name of the last field, in declaration order, that yields it |
| Mapping.MappedToFieldName | result.go:53-66 | every mapping value is the name of one of the type's fields |
| Mapping.MappingSize | result.go:53-66 | the mapping has no more entries than the type has fields |
| Mapping.BuildFields | result.go:52-66 | the field loop builds exactly `BuildMapping(fields)` |
| Mapping.MappingCache.constructor | result.go:45-47 | the cache starts empty |
| Mapping.MappingCache.GetStructMapping | result.go:49-71 | returns the type's mapping, and afterwards the cache holds it; only the entry for `rt` is touched; a hit rebuilds nothing and changes nothing; a miss builds once |
| Mapping.MappingCache.PreprocessResult | result.go:74-81 | a Scannable or non-struct `R` leaves the cache unchanged; a struct `R` gets its mapping cached |
| Discard.Void.Scan | void.go:6-8 | Scan returns no error, whatever the source value |
| Rows.ScanFromFacts | query.go:35 | scanning from column `i` fails exactly at the first slot that rejects its value, and stores only into the non-Void destinations it passed |
| Rows.ScanSucceedsIffSlotsAccept | void.go:3-8 | a row scans without error iff its width matches and every non-Void slot accepts its value, so Void slots never cause a failure |
| Rows.ScanFailureAtRealSlot | void.go:6-8 | a conversion failure names the first non-Void column whose value is rejected |
| Rows.ScanWrites | dest.go:79-81 | Void keeps nothing, only listed destinations are written, and a successful scan writes every non-Void destination |
| Rows.Cursor.constructor | query.go:17 | a fresh cursor is open, before the first row, over the executor's rows |
| Rows.Cursor.Next | query.go:23 | moves onto the next row iff the cursor is open and a row remains; otherwise the cursor closes |
| Rows.Cursor.Columns | query.go:28 | a closed cursor gives an error; an open one gives its columns |
| Rows.Cursor.Scan | query.go:35 | the outcome is `ScanNow(dests)`; a successful scan on a current row writes every non-Void destination |
| Rows.Cursor.Close | query.go:21 | the cursor is closed; its position is unchanged |
| Dest.IsDestType | dest.go:37-53 | true iff `*R` implements sql.Scanner or `R` is one of the sixteen types whose pointers are listed at dest.go:14-29 |
| Dest.Strategy | dest.go:55-90 | Scannable first, delegating with the same columns; otherwise one column with a dest type gives exactly the whole-value strategy (`[result]`), and only then; then the struct mapping; otherwise the unscannable error and no function |
| Dest.MappedDestsAligned | dest.go:73-83 | one destination per column, and entry `i` is the slot for `columns[i]` |
| Dest.DestsAligned | dest.go:57-85 | for every strategy but a Scannable's own: one destination per column in column order, `[WholeResult]` whenever `R` is not Scannable and one column has a dest type, and the mapped slot for a struct; a Scannable gets its `Dest(columns)` |
| Dest.ScalarNeedsOneColumn | dest.go:63-88 | a non-Scannable, non-struct `R` is accepted iff there is exactly one column and it is a dest type |
| Dest.StructDestsNameFields | dest.go:74-82 | column `i` is bound to Void iff no field yields it; otherwise to the last field that yields it |
| Dest.DerivedColumnsAllMapped | dest.go:73-83 | when every column is yielded by some field, no column goes to Void |
| Dest.StructDests | dest.go:71-85 | the closure's loop appends exactly `MappedDests(columns, mapping)` |
| Dest.Dests | dest.go:58-85 | calling the closure gives the destinations of its strategy |
| Dest.MakeDestFunc | dest.go:55-90 | the result is `Strategy(t, columns)`; the cache gains the struct's mapping iff the struct strategy is reached, and is untouched otherwise |
| Dest.AsWrittenPanicsOnMappedColumn | dest.go:72-78 | the closure as written panics iff some column is mapped; when it does not panic, it gives the intended destinations |
| Dest.UserResultPanicsAsWritten | dest.go:72-78 | the usage example's struct and columns make the as-written closure panic |
| Dest.ExampleSnakeNames | case.go:8-21 | the example's field names `UserId`, `FirstName`, `LastName`, `Gender` become `user_id`, `first_name`, `last_name`, `gender` |
| Dest.UserResultColumns | result.go:55-65 | the usage example's fields yield `user_id`, `first_name`, `last_name` and, tagged `sql:"sex"`, `sex` |
| Dest.UserResultBinds | example_test.go:17-24 | with an `sql` tag the example's four columns bind one to one to its four fields |
| Dest.UserResultAsDeclaredDropsSex | example_test.go:23 | with the example's `db` tag, Gender maps to `gender` and the `sex` column is discarded into Void |
| Context.NewContext | context.go:17-19 | the derived context binds the executor key on top of an unchanged parent |
| Context.FromContext | context.go:21-28 | succeeds iff the innermost executor binding holds a non-nil interface value (a typed nil pointer included); an error is always `errNoExecutor`, and no executor comes with it |
| Context.AttachThenResolve | context.go:17-27 | `fromContext(NewContext(c, e))` returns `e` for a non-nil `e` |
| Context.AttachNilFails | context.go:24-25 | attaching a nil executor yields `errNoExecutor`, even over a parent that has one |
| Context.NoBindingNoExecutor | context.go:22-26 | a chain that never binds the executor key yields `errNoExecutor` |
| Context.OtherKeysTransparent | context.go:22 | bindings of other keys do not change the lookup |
| Context.InnermostWins | context.go:18-22 | with nested `NewContext` calls, the innermost executor wins |
| Query.Open | query.go:12-20 | executor lookup then QueryContext; success always carries an open cursor |
| Query.QueryRow | query.go:9-38 | result and error are `RowOutcome`; the cursor is opened iff lookup and query succeed, is advanced exactly once, and is closed on every path; the cache gains at most R's struct type |
| Query.RowNeedsExecutor | query.go:12-15 | without an executor the outcome is `errNoExecutor` with a zero result, whatever the executor would answer |
| Query.RowErrorsPropagate | query.go:17-33 | QueryContext and Columns errors pass through unchanged, no rows gives `sql.ErrNoRows`, and an unbindable R gives the unscannable error, each with a zero result |
| Query.RowReadsFirstRowOnly | query.go:23-36 | the outcome depends on the first row only |
| Query.Drain | query.go:64-73 | iteration never moves past the last row |
| Query.DrainToExhaustion | query.go:64-73 | a consumer that never stops receives exactly the rows that scan, in cursor order, and every row is read |
| Query.DrainYieldsScannedPrefix | query.go:64-73 | whatever the consumer does, it receives a prefix of the rows that scan |
| Query.DrainStopsOnRefusal | query.go:70-72 | rows are left unread only when the consumer refused the last value handed to it |
| Query.DrainAcceptsAllButLast | query.go:70-72 | over a whole run, every value handed to the consumer but the last was accepted |
| Query.DrainYieldsScannedOfRead | query.go:64-73 | the values handed over are exactly the rows that scan among those the iteration moved over, in order |
| Query.Step | query.go:64-73 | one pass of the loop body: a row that fails to scan is skipped, an accepted value is appended and iteration goes on, a refused value ends the iteration with everything handed over |
| Query.RowSeq.constructor | query.go:62 | the sequence captures the cursor and the destination function |
| Query.RowSeq.Visit | query.go:65-72 | on the current row: a row that fails to scan hands nothing over and continues; a row that scans hands its value to the consumer, and iteration continues iff the consumer accepts it |
| Query.RowSeq.Run | query.go:62-74 | hands the consumer exactly `Drain(...).yielded`, moves over `Drain(...).consumed` rows, and closes the cursor however iteration ends |
| Query.QueryRows | query.go:40-77 | the error is `Setup`'s error; a sequence is returned iff there is no error; a cursor that was opened is closed iff there is an error, and is otherwise left unread for the sequence |
| Query.RowsErrorsPropagate | query.go:47-60 | QueryContext and Columns errors reach the caller of queryRows unchanged, an unbindable `R` gives the unscannable error, and otherwise the sequence uses the strategy for the columns |
| Query.RowsNeedExecutor | query.go:43-46 | without an executor the setup fails with `errNoExecutor` |

## Left out

- `function.go`: the generated callables wrap an external template library that is not part of this model.
- `executor.go`: an interface only. Its `QueryContext` is the `query` parameter; `ExecContext` is not used by the modelled core.
- Reflection (`reflect.Type` identity, `AssignableTo`, `FieldByName`) is replaced by the `ResultType` shape. Struct identity is datatype equality.
- Struct tag syntax (`Tag.Lookup`): a field carries only the value of its `sql` key, if present.
- `unicode.IsUpper` and `unicode.ToLower` are modelled for ASCII letters only.
- Driver value conversion is the oracle `convert`, and `sql.Scanner` implementations other than Void are part of it.
- The Scannable `Dest` method is a function of the columns. Nothing guarantees that it returns one destination per column; a mismatch surfaces as `DestCountMismatch` from Scan.
- Concurrency: the unsynchronised global cache races when two goroutines first bind the same type. The cache is modelled sequentially.
- Context cancellation, deadlines and `rows.Err()` are not modelled. The source never consults `rows.Err()`.
- Errors returned by `rows.Close()` are ignored by the source, and `Close` is modelled as infallible.
- The modelled iteration skips rows that fail to scan silently, as the code does. A variant that surfaces these errors to the consumer is not modelled.
- Query.RowSeq.Run: the consumer is a deterministic predicate of the values yielded so far and the current value, not an arbitrary Go closure with effects.
- Query.QueryRow: the result value is modelled by what the scan stored into each destination, not by the Go value of `R`.
- Dest.StructDests: the destinations model the intended field pointers. The closure as written panics instead; see Findings.

## Findings

| source | as written | input that shows it | evidently intended | confidence | as-written member | corrected member |
|---|---|---|---|---|---|---|
| dest.go:72-78 | `rv := reflect.ValueOf(*result)` takes a copy of the result, whose fields are not addressable, so `fv.Addr()` panics at the first mapped column | the usage example's struct `UserResult` with columns `user_id, first_name, last_name, sex`: `user_id` is mapped, so binding panics | `reflect.ValueOf(result).Elem()`, so each mapped column points at the field of the caller's result | high, not executed | Dest.AsWrittenPanicsOnMappedColumn | Dest.StructDestsNameFields |
| example_test.go:23 | the field `Gender` is tagged `db:"sex"`, using the `db` key, but the mapping reads only the `sql` key (result.go:42), so Gender maps to `gender` | the same example's columns `user_id, first_name, last_name, sex`: `sex` goes to Void and Gender is never set | the tag `sql:"sex"`, as the comment above the field says | high, not executed | Dest.UserResultAsDeclaredDropsSex | Dest.UserResultBinds |
