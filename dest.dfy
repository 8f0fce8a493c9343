/** Choosing the scan destinations for a result type and a column list
    (dest.go). Reflection is replaced by the ResultType shape. */
module Dest {
  import opened Types
  import Case
  import Mapping

  /** isDestType: *R implements sql.Scanner or is one of the sixteen pointer
      types listed at dest.go:14-29. */
  function IsDestType(t: ResultType): (r: bool)
    ensures r <==> t.pointerIsScanner || !(t.kind.Struct? || t.kind.Other?)
  {
    if t.pointerIsScanner then true
    else
      match t.kind
      case Bool | String | ByteSlice => true
      case Int | Int8 | Int16 | Int32 | Int64 => true
      case Uint | Uint8 | Uint16 | Uint32 | Uint64 => true
      case Float32 | Float64 | RawBytes => true
      case Struct(_) => false
      case Other => false
  }

  /** The closure makeDestFunc returns. None of its cases holds the result
      instance: the destinations depend on R and the columns only. */
  datatype DestFunc =
    | Delegate(columns: seq<string>, dest: seq<string> -> seq<Destination>)
    | WholeValue
    | StructFields(columns: seq<string>, mapping: map<string, string>)

  /** Whether makeDestFunc reaches the struct strategy (and so the cache). */
  predicate UsesMapping(t: ResultType, columns: seq<string>) {
    t.selfDest.None? && !(|columns| == 1 && IsDestType(t)) && t.kind.Struct?
  }

  /** The strategy makeDestFunc picks: Scannable first, then a single
      scalar column, then the struct mapping, otherwise an error. */
  function Strategy(t: ResultType, columns: seq<string>): (r: Result<DestFunc, Error>)
    ensures r.Err? <==> t.selfDest.None? && !(|columns| == 1 && IsDestType(t)) && !t.kind.Struct?
    ensures r.Err? ==> r.error == UnscannableResult
    ensures t.selfDest.Some? ==> r.Ok? && r.value.Delegate? && r.value.columns == columns
    ensures t.selfDest.None? && |columns| == 1 && IsDestType(t) ==> r == Ok(WholeValue)
    ensures r.Ok? && r.value.WholeValue? ==> |columns| == 1 && IsDestType(t)
    ensures r.Ok? && r.value.StructFields? <==> UsesMapping(t, columns)
    ensures r.Ok? && r.value.StructFields? ==>
      r.value.columns == columns && r.value.mapping == Mapping.BuildMapping(t.kind.st.fields)
  {
    if t.selfDest.Some? then Ok(Delegate(columns, t.selfDest.value))
    else if |columns| == 1 && IsDestType(t) then Ok(WholeValue)
    else if t.kind.Struct? then Ok(StructFields(columns, Mapping.BuildMapping(t.kind.st.fields)))
    else Err(UnscannableResult)
  }

  /** The destination for one column: its mapped field, or Void. */
  function SlotFor(column: string, mapping: map<string, string>): Destination {
    if column in mapping then FieldPtr(mapping[column]) else VoidDest
  }

  /** The destinations of the struct closure, appended column by column.
      The closure as written takes `reflect.ValueOf(*result)`, a copy, so
      `Addr()` on its fields would panic; this is the intended behaviour,
      with each mapped column pointing at its field (see StructDestsAsWritten). */
  function MappedDests(columns: seq<string>, mapping: map<string, string>): seq<Destination>
    decreases |columns|
  {
    if columns == [] then []
    else MappedDests(columns[..|columns| - 1], mapping) + [SlotFor(columns[|columns| - 1], mapping)]
  }

  /** What calling the closure yields. */
  function DestsOf(df: DestFunc): seq<Destination> {
    match df
    case Delegate(columns, dest) => dest(columns)
    case WholeValue => [WholeResult]
    case StructFields(columns, mapping) => MappedDests(columns, mapping)
  }

  /** The struct destinations line up with the columns one to one. */
  lemma {:induction false} MappedDestsAligned(columns: seq<string>, mapping: map<string, string>)
    ensures |MappedDests(columns, mapping)| == |columns|
    ensures forall i :: 0 <= i < |columns| ==> MappedDests(columns, mapping)[i] == SlotFor(columns[i], mapping)
    decreases |columns|
  {
    if columns != [] {
      MappedDestsAligned(columns[..|columns| - 1], mapping);
    }
  }

  /** For every strategy but a Scannable's own, there is one destination
      per column, in column order; a Scannable gets its Dest(columns). */
  lemma DestsAligned(t: ResultType, columns: seq<string>)
    requires Strategy(t, columns).Ok?
    ensures t.selfDest.Some? ==> DestsOf(Strategy(t, columns).value) == t.selfDest.value(columns)
    ensures t.selfDest.None? ==> |DestsOf(Strategy(t, columns).value)| == |columns|
    ensures t.selfDest.None? && |columns| == 1 && IsDestType(t) ==>
      DestsOf(Strategy(t, columns).value) == [WholeResult]
    ensures Strategy(t, columns).value.WholeValue? ==> DestsOf(Strategy(t, columns).value) == [WholeResult]
    ensures Strategy(t, columns).value.StructFields? ==>
      forall i :: 0 <= i < |columns| ==>
        DestsOf(Strategy(t, columns).value)[i] == SlotFor(columns[i], Mapping.BuildMapping(t.kind.st.fields))
  {
    if Strategy(t, columns).value.StructFields? {
      MappedDestsAligned(columns, Mapping.BuildMapping(t.kind.st.fields));
    }
  }

  /** A scalar R (neither Scannable nor a struct) binds exactly one column. */
  lemma ScalarNeedsOneColumn(t: ResultType, columns: seq<string>)
    requires t.selfDest.None? && !t.kind.Struct?
    ensures Strategy(t, columns).Ok? <==> |columns| == 1 && IsDestType(t)
  {
  }

  /** For a struct R, column i is bound to the field that yields it last in
      declaration order, and to Void when no field yields it. */
  lemma StructDestsNameFields(st: StructType, columns: seq<string>, i: nat)
    requires i < |columns|
    ensures |MappedDests(columns, Mapping.BuildMapping(st.fields))| == |columns|
    ensures MappedDests(columns, Mapping.BuildMapping(st.fields))[i] == VoidDest <==>
      forall k :: 0 <= k < |st.fields| ==> Mapping.ColumnOf(st.fields[k]) != columns[i]
    ensures MappedDests(columns, Mapping.BuildMapping(st.fields))[i] != VoidDest ==>
      exists k :: Mapping.LastWith(st.fields, columns[i], k) &&
        MappedDests(columns, Mapping.BuildMapping(st.fields))[i] == FieldPtr(st.fields[k].name)
  {
    MappedDestsAligned(columns, Mapping.BuildMapping(st.fields));
    Mapping.MappingKeys(st.fields, columns[i]);
    if columns[i] in Mapping.BuildMapping(st.fields) {
      Mapping.MappingLastWrite(st.fields, columns[i]);
    }
  }

  /** A query whose columns are all derived from the struct's fields never
      routes a column to Void. */
  lemma DerivedColumnsAllMapped(st: StructType, columns: seq<string>)
    requires forall i :: 0 <= i < |columns| ==>
      exists k :: 0 <= k < |st.fields| && Mapping.ColumnOf(st.fields[k]) == columns[i]
    ensures VoidDest !in MappedDests(columns, Mapping.BuildMapping(st.fields))
  {
    var m := Mapping.BuildMapping(st.fields);
    MappedDestsAligned(columns, m);
    forall i | 0 <= i < |columns| ensures MappedDests(columns, m)[i] != VoidDest {
      Mapping.MappingKeys(st.fields, columns[i]);
    }
  }

  /** The struct closure's loop: one destination appended per column. */
  method StructDests(columns: seq<string>, mapping: map<string, string>) returns (dest: seq<Destination>)
    ensures dest == MappedDests(columns, mapping)
  {
    dest := [];
    for i := 0 to |columns|
      invariant dest == MappedDests(columns[..i], mapping)
    {
      assert columns[..i + 1][..i] == columns[..i];
      var column := columns[i];
      if column in mapping {
        dest := dest + [FieldPtr(mapping[column])];
      } else {
        dest := dest + [VoidDest];
      }
    }
    assert columns[..|columns|] == columns;
  }

  /** Calls the closure `df` on a result. */
  method Dests(df: DestFunc) returns (dest: seq<Destination>)
    ensures dest == DestsOf(df)
  {
    match df {
      case Delegate(columns, f) => dest := f(columns);
      case WholeValue => dest := [WholeResult];
      case StructFields(columns, mapping) => dest := StructDests(columns, mapping);
    }
  }

  /** makeDestFunc: picks the strategy, building and caching the struct
      mapping when the struct strategy is reached. */
  method MakeDestFunc(cache: Mapping.MappingCache, t: ResultType, columns: seq<string>)
    returns (r: Result<DestFunc, Error>)
    requires cache.Valid()
    modifies cache
    ensures cache.Valid()
    ensures r == Strategy(t, columns)
    ensures UsesMapping(t, columns) ==>
      cache.entries == old(cache.entries)[t.kind.st := Mapping.BuildMapping(t.kind.st.fields)]
    ensures !UsesMapping(t, columns) ==> cache.entries == old(cache.entries) && cache.builds == old(cache.builds)
  {
    if t.selfDest.Some? {
      return Ok(Delegate(columns, t.selfDest.value));
    }
    if |columns| == 1 && IsDestType(t) {
      return Ok(WholeValue);
    }
    if t.kind.Struct? {
      var mapping := cache.GetStructMapping(t.kind.st);
      r := Ok(StructFields(columns, mapping));
    } else {
      r := Err(UnscannableResult);
    }
  }

  // The struct closure as the source writes it.

  datatype Bound = Bound(dest: seq<Destination>) | AddrPanic

  /** dest.go:71-84 as written: `reflect.ValueOf(*result)` holds a copy of
      the result, whose fields are not addressable, so `fv.Addr()` panics at
      the first mapped column; only Void can ever be appended. */
  function StructDestsAsWritten(columns: seq<string>, mapping: map<string, string>): Bound
    decreases |columns|
  {
    if columns == [] then Bound([])
    else
      match StructDestsAsWritten(columns[..|columns| - 1], mapping)
      case AddrPanic => AddrPanic
      case Bound(d) => if columns[|columns| - 1] in mapping then AddrPanic else Bound(d + [VoidDest])
  }

  /** As written, the closure panics exactly when some column is mapped,
      so it can never bind a field. */
  lemma {:induction false} AsWrittenPanicsOnMappedColumn(columns: seq<string>, mapping: map<string, string>)
    ensures StructDestsAsWritten(columns, mapping).AddrPanic? <==>
      exists i :: 0 <= i < |columns| && columns[i] in mapping
    ensures StructDestsAsWritten(columns, mapping).Bound? ==>
      StructDestsAsWritten(columns, mapping).dest == MappedDests(columns, mapping)
    decreases |columns|
  {
    if columns != [] {
      var init := columns[..|columns| - 1];
      AsWrittenPanicsOnMappedColumn(init, mapping);
      MappedDestsAligned(init, mapping);
      if exists i :: 0 <= i < |init| && init[i] in mapping {
        var i :| 0 <= i < |init| && init[i] in mapping;
        assert columns[i] == init[i];
      }
    }
  }

  /** The struct of the package's usage example as it is declared there:
      Gender carries a `db` tag, which the mapping does not read, so in the
      model it has no sql tag. */
  function UserResultAsDeclared(): StructType {
    StructType("UserResult", [
      Field("UserId", None),
      Field("FirstName", None),
      Field("LastName", None),
      Field("Gender", None)])
  }

  /** The struct of the package's usage example with the tag its comment
      intends: Gender bound to the "sex" column. */
  function UserResult(): StructType {
    StructType("UserResult", [
      Field("UserId", None),
      Field("FirstName", None),
      Field("LastName", None),
      Field("Gender", Some("sex"))])
  }

  function UserColumns(): seq<string> {
    ["user_id", "first_name", "last_name", "sex"]
  }

  /** The snake names of the example's fields, word by word. */
  lemma ExampleSnakeNames()
    ensures Case.Snake("UserId") == "user_id"
    ensures Case.Snake("FirstName") == "first_name"
    ensures Case.Snake("LastName") == "last_name"
    ensures Case.Snake("Gender") == "gender"
  {
    Case.SnakeOfTwoWords('U', "ser", 'I', "d");
    assert ['U'] + "ser" + ['I'] + "d" == "UserId";
    assert ['u'] + "ser" + ['_', 'i'] + "d" == "user_id";
    Case.SnakeOfTwoWords('F', "irst", 'N', "ame");
    assert ['F'] + "irst" + ['N'] + "ame" == "FirstName";
    assert ['f'] + "irst" + ['_', 'n'] + "ame" == "first_name";
    Case.SnakeOfTwoWords('L', "ast", 'N', "ame");
    assert ['L'] + "ast" + ['N'] + "ame" == "LastName";
    assert ['l'] + "ast" + ['_', 'n'] + "ame" == "last_name";
    Case.SnakeOfWord('G', "ender");
    assert ['G'] + "ender" == "Gender";
    assert ['g'] + "ender" == "gender";
  }

  /** The column names derived for the example's fields. */
  lemma UserResultColumns()
    ensures Mapping.ColumnOf(UserResult().fields[0]) == "user_id"
    ensures Mapping.ColumnOf(UserResult().fields[1]) == "first_name"
    ensures Mapping.ColumnOf(UserResult().fields[2]) == "last_name"
    ensures Mapping.ColumnOf(UserResult().fields[3]) == "sex"
  {
    ExampleSnakeNames();
  }

  /** The example's columns bind one to one to UserId, FirstName, LastName
      and Gender. */
  lemma UserResultBinds()
    ensures MappedDests(UserColumns(), Mapping.BuildMapping(UserResult().fields)) ==
      [FieldPtr("UserId"), FieldPtr("FirstName"), FieldPtr("LastName"), FieldPtr("Gender")]
  {
    var fs := UserResult().fields;
    UserResultColumns();
    assert fs[..3][..2][..1][..0] == [];
    assert Mapping.BuildMapping(fs[..3][..2][..1]) == map["user_id" := "UserId"];
    assert Mapping.BuildMapping(fs[..3][..2]) == map["user_id" := "UserId", "first_name" := "FirstName"];
    assert Mapping.BuildMapping(fs[..3]) ==
      map["user_id" := "UserId", "first_name" := "FirstName", "last_name" := "LastName"];
    var m := Mapping.BuildMapping(fs);
    assert m == map["user_id" := "UserId", "first_name" := "FirstName", "last_name" := "LastName", "sex" := "Gender"];
    MappedDestsAligned(UserColumns(), m);
  }

  /** With the `db` tag of the example, Gender binds to a "gender" column,
      and the query's "sex" column is discarded into Void. */
  lemma UserResultAsDeclaredDropsSex()
    ensures MappedDests(UserColumns(), Mapping.BuildMapping(UserResultAsDeclared().fields)) ==
      [FieldPtr("UserId"), FieldPtr("FirstName"), FieldPtr("LastName"), VoidDest]
  {
    var fs := UserResultAsDeclared().fields;
    ExampleSnakeNames();
    assert fs[..3][..2][..1][..0] == [];
    assert Mapping.BuildMapping(fs[..3][..2][..1]) == map["user_id" := "UserId"];
    assert Mapping.BuildMapping(fs[..3][..2]) == map["user_id" := "UserId", "first_name" := "FirstName"];
    assert Mapping.BuildMapping(fs[..3]) ==
      map["user_id" := "UserId", "first_name" := "FirstName", "last_name" := "LastName"];
    var m := Mapping.BuildMapping(fs);
    assert m == map["user_id" := "UserId", "first_name" := "FirstName", "last_name" := "LastName", "gender" := "Gender"];
    MappedDestsAligned(UserColumns(), m);
  }

  /** On the same example the closure as written panics. */
  lemma UserResultPanicsAsWritten()
    ensures StructDestsAsWritten(UserColumns(), Mapping.BuildMapping(UserResult().fields)).AddrPanic?
  {
    UserResultBinds();
    var m := Mapping.BuildMapping(UserResult().fields);
    MappedDestsAligned(UserColumns(), m);
    assert UserColumns()[0] in m;
    AsWrittenPanicsOnMappedColumn(UserColumns(), m);
  }
}
