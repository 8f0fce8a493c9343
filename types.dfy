/** The data model shared by the binding engine: errors, raw column values,
    record types and their fields, result-type shapes and scan destinations. */
module Types {

  datatype Option<+T> = None | Some(value: T)

  datatype Result<+T, +E> = Ok(value: T) | Err(error: E)

  /** Every error the engine returns or passes through. */
  datatype Error =
    | NoExecutor                                // errNoExecutor, context.go:13
    | UnscannableResult                         // errUnscannableResult, dest.go:34
    | NoRows                                    // sql.ErrNoRows
    | RowsClosed                                // database/sql: Scan or Columns on a closed cursor
    | ScanWithoutNext                           // database/sql: Scan before the first successful Next
    | DestCountMismatch(expected: nat, got: nat) // database/sql: |dest| differs from the row width
    | ScanFailed(column: nat)                   // the driver could not convert column `column`
    | Driver(code: nat)                         // an error reported by the executor or the driver

  /** A raw column value as delivered by the driver. */
  datatype Value = Null | Raw(text: string)

  /** A struct field: its Go name and the value of its `sql` tag key, if present. */
  datatype Field = Field(name: string, sqlTag: Option<string>)

  /** A struct type; two values are the same type exactly when they are equal. */
  datatype StructType = StructType(name: string, fields: seq<Field>)

  /** The Go type R. The kinds before Struct are exactly the sixteen types
      whose pointers are listed at dest.go:14-29; a defined type over one of them
      (`type ID int64`) is `Other`, because the source compares pointer types
      by identity. */
  datatype Kind =
    | Bool | String | ByteSlice
    | Int | Int8 | Int16 | Int32 | Int64
    | Uint | Uint8 | Uint16 | Uint32 | Uint64
    | Float32 | Float64 | RawBytes
    | Struct(st: StructType)
    | Other

  /** What reflection would learn about R: its kind, whether *R implements
      sql.Scanner, and, when *R implements Scannable, its Dest method. */
  datatype ResultType = ResultType(
    kind: Kind,
    pointerIsScanner: bool,
    selfDest: Option<seq<string> -> seq<Destination>>)

  /** A scan destination: the whole result, a pointer to one named field,
      the discarding Void{}, or a destination chosen by a Scannable's own
      Dest method. */
  datatype Destination = WholeResult | FieldPtr(field: string) | VoidDest | UserDest(id: nat)

  /** A result value, seen through what scanning stored into it: the value
      written to each destination. The zero value of R is the empty map. */
  type Record = map<Destination, Value>
}
