/** The query pipeline (query.go): find the executor, run the statement,
    enumerate the columns, bind, scan; a single required row (queryRow) or
    a lazy sequence of rows (queryRows). */
module Query {
  import opened Types
  import Context
  import Mapping
  import Dest
  import Rows

  /** What the executor's QueryContext answers: an error, or a cursor over
      the given columns and rows whose values the driver converts as
      `convert` says. */
  datatype Response =
    | Failed(err: Error)
    | Opened(columns: Result<seq<string>, Error>, rows: seq<seq<Value>>, convert: (Destination, Value) -> bool)

  /** The executor side of QueryContext, for a statement and its arguments. */
  type QueryFn = (Context.Executor, string, seq<Value>) -> Response

  /** Executor lookup followed by QueryContext. */
  function Open(ctx: Context.Ctx, statement: string, args: seq<Value>, query: QueryFn): (r: Result<Response, Error>)
    ensures r.Ok? ==> r.value.Opened?
  {
    match Context.FromContext(ctx)
    case Err(e) => Err(e)
    case Ok(executor) =>
      var resp := query(executor, statement, args);
      if resp.Failed? then Err(resp.err) else Ok(resp)
  }

  /** Struct types whose mapping binding a result of type t may cache. */
  function StructKeys(t: ResultType): set<StructType> {
    if t.kind.Struct? then {t.kind.st} else {}
  }

  // ---------------------------------------------------------------------
  // queryRow

  /** The result and error queryRow returns. */
  function RowOutcome(t: ResultType, ctx: Context.Ctx, statement: string, args: seq<Value>, query: QueryFn): Rows.ScanOutcome {
    match Open(ctx, statement, args, query)
    case Err(e) => Rows.ScanOutcome(map[], Some(e))
    case Ok(resp) =>
      if resp.rows == [] then Rows.ScanOutcome(map[], Some(NoRows))
      else if resp.columns.Err? then Rows.ScanOutcome(map[], Some(resp.columns.error))
      else
        match Dest.Strategy(t, resp.columns.value)
        case Err(e) => Rows.ScanOutcome(map[], Some(e))
        case Ok(df) => Rows.ScanRow(Dest.DestsOf(df), resp.rows[0], resp.convert)
  }

  method QueryRow(cache: Mapping.MappingCache, t: ResultType, ctx: Context.Ctx,
                  statement: string, args: seq<Value>, query: QueryFn)
    returns (result: Record, err: Option<Error>, ghost cursor: Rows.Cursor?)
    requires cache.Valid()
    modifies cache
    ensures cache.Valid()
    ensures Rows.ScanOutcome(result, err) == RowOutcome(t, ctx, statement, args, query)
    ensures cursor == null <==> Open(ctx, statement, args, query).Err?
    ensures cursor != null ==> fresh(cursor) && cursor.closed && cursor.advances == 1 && cursor.pos <= 1
    ensures old(cache.entries).Keys <= cache.entries.Keys <= old(cache.entries).Keys + StructKeys(t)
  {
    result, cursor := map[], null;
    var executor := Context.FromContext(ctx);
    if executor.Err? {
      err := Some(executor.error);
      return;
    }
    var resp := query(executor.value, statement, args);
    if resp.Failed? {
      err := Some(resp.err);
      return;
    }
    var rows := new Rows.Cursor(resp.columns, resp.rows, resp.convert);
    cursor := rows;
    // From here on every path closes the cursor (the deferred rows.Close()).
    var more := rows.Next();
    if !more {
      err := Some(NoRows);
      rows.Close();
      return;
    }
    var columns := rows.Columns();
    if columns.Err? {
      err := Some(columns.error);
      rows.Close();
      return;
    }
    var df := Dest.MakeDestFunc(cache, t, columns.value);
    if df.Ok? {
      var dest := Dest.Dests(df.value);
      result, err := rows.Scan(dest);
    } else {
      err := Some(df.error);
    }
    rows.Close();
  }

  /** Without an executor, queryRow fails with errNoExecutor whatever the
      executor would have answered: no statement is run. */
  lemma RowNeedsExecutor(t: ResultType, ctx: Context.Ctx, statement: string, args: seq<Value>, query: QueryFn)
    requires Context.FromContext(ctx).Err?
    ensures RowOutcome(t, ctx, statement, args, query) == Rows.ScanOutcome(map[], Some(NoExecutor))
  {
  }

  /** Errors of QueryContext and Columns reach the caller unchanged, with a
      zero result; no rows means sql.ErrNoRows and a zero result. */
  lemma RowErrorsPropagate(t: ResultType, ctx: Context.Ctx, statement: string, args: seq<Value>, query: QueryFn)
    requires Context.FromContext(ctx).Ok?
    ensures var resp := query(Context.FromContext(ctx).value, statement, args);
      && (resp.Failed? ==> RowOutcome(t, ctx, statement, args, query) == Rows.ScanOutcome(map[], Some(resp.err)))
      && (resp.Opened? && resp.rows == [] ==>
            RowOutcome(t, ctx, statement, args, query) == Rows.ScanOutcome(map[], Some(NoRows)))
      && (resp.Opened? && resp.rows != [] && resp.columns.Err? ==>
            RowOutcome(t, ctx, statement, args, query) == Rows.ScanOutcome(map[], Some(resp.columns.error)))
      && (resp.Opened? && resp.rows != [] && resp.columns.Ok? && Dest.Strategy(t, resp.columns.value).Err? ==>
            RowOutcome(t, ctx, statement, args, query) == Rows.ScanOutcome(map[], Some(UnscannableResult)))
  {
  }

  /** queryRow reads the first row only: two cursors that agree on the
      columns, the conversions and the first row give the same outcome. */
  lemma RowReadsFirstRowOnly(t: ResultType, ctx: Context.Ctx, statement: string, args: seq<Value>, q1: QueryFn, q2: QueryFn)
    requires Open(ctx, statement, args, q1).Ok? && Open(ctx, statement, args, q2).Ok?
    requires var r1, r2 := Open(ctx, statement, args, q1).value, Open(ctx, statement, args, q2).value;
      r1.columns == r2.columns && r1.convert == r2.convert &&
      r1.rows != [] && r2.rows != [] && r1.rows[0] == r2.rows[0]
    ensures RowOutcome(t, ctx, statement, args, q1) == RowOutcome(t, ctx, statement, args, q2)
  {
  }

  // ---------------------------------------------------------------------
  // queryRows

  /** The destination function queryRows sets up, or the error it returns. */
  function Setup(t: ResultType, ctx: Context.Ctx, statement: string, args: seq<Value>, query: QueryFn): Result<Dest.DestFunc, Error> {
    match Open(ctx, statement, args, query)
    case Err(e) => Err(e)
    case Ok(resp) =>
      if resp.columns.Err? then Err(resp.columns.error) else Dest.Strategy(t, resp.columns.value)
  }

  /** What iterating the sequence hands to `consume`, and how many rows it
      moves over. */
  datatype Drained = Drained(yielded: seq<Record>, consumed: nat)

  /** Iterating over `rows`, each scanned into `dests`, when `before` was
      already handed to the consumer: a row that fails to scan is skipped,
      and iteration stops right after the consumer refuses a value. */
  function Drain(rows: seq<seq<Value>>, dests: seq<Destination>, convert: (Destination, Value) -> bool,
                 consume: (seq<Record>, Record) -> bool, before: seq<Record>): (d: Drained)
    ensures d.consumed <= |rows|
    decreases |rows|
  {
    if rows == [] then Drained([], 0)
    else
      var o := Rows.ScanRow(dests, rows[0], convert);
      if o.err.Some? then
        var d := Drain(rows[1..], dests, convert, consume, before);
        Drained(d.yielded, d.consumed + 1)
      else if !consume(before, o.written) then
        Drained([o.written], 1)
      else
        var d := Drain(rows[1..], dests, convert, consume, before + [o.written]);
        Drained([o.written] + d.yielded, d.consumed + 1)
  }

  /** The rows that scan successfully, in cursor order. */
  function Scanned(rows: seq<seq<Value>>, dests: seq<Destination>, convert: (Destination, Value) -> bool): seq<Record>
    decreases |rows|
  {
    if rows == [] then []
    else
      var o := Rows.ScanRow(dests, rows[0], convert);
      (if o.err.None? then [o.written] else []) + Scanned(rows[1..], dests, convert)
  }

  /** Prefixing the already-yielded values and the rows already moved over. */
  function Join(yielded: seq<Record>, moved: nat, rest: Drained): Drained {
    Drained(yielded + rest.yielded, moved + rest.consumed)
  }

  /** A consumer that never stops receives exactly the rows that scan,
      in order, and every row is read. */
  lemma {:induction false} DrainToExhaustion(rows: seq<seq<Value>>, dests: seq<Destination>,
                                             convert: (Destination, Value) -> bool,
                                             consume: (seq<Record>, Record) -> bool, before: seq<Record>)
    requires forall p, x :: consume(p, x)
    ensures Drain(rows, dests, convert, consume, before) == Drained(Scanned(rows, dests, convert), |rows|)
    decreases |rows|
  {
    if rows != [] {
      var o := Rows.ScanRow(dests, rows[0], convert);
      DrainToExhaustion(rows[1..], dests, convert, consume, if o.err.Some? then before else before + [o.written]);
    }
  }

  /** Whatever the consumer does, it receives a prefix of the rows that scan. */
  lemma {:induction false} DrainYieldsScannedPrefix(rows: seq<seq<Value>>, dests: seq<Destination>,
                                                    convert: (Destination, Value) -> bool,
                                                    consume: (seq<Record>, Record) -> bool, before: seq<Record>)
    ensures Drain(rows, dests, convert, consume, before).yielded <= Scanned(rows, dests, convert)
    decreases |rows|
  {
    if rows != [] {
      var o := Rows.ScanRow(dests, rows[0], convert);
      DrainYieldsScannedPrefix(rows[1..], dests, convert, consume, if o.err.Some? then before else before + [o.written]);
    }
  }

  /** Iteration leaves rows unread only when the consumer refused the last
      value it was handed. */
  lemma {:induction false} DrainStopsOnRefusal(rows: seq<seq<Value>>, dests: seq<Destination>,
                                               convert: (Destination, Value) -> bool,
                                               consume: (seq<Record>, Record) -> bool, before: seq<Record>)
    ensures var d := Drain(rows, dests, convert, consume, before);
      d.consumed == |rows| ||
      (d.yielded != [] && !consume(before + d.yielded[..|d.yielded| - 1], d.yielded[|d.yielded| - 1]))
    decreases |rows|
  {
    if rows != [] {
      var o := Rows.ScanRow(dests, rows[0], convert);
      if o.err.Some? {
        DrainStopsOnRefusal(rows[1..], dests, convert, consume, before);
      } else if consume(before, o.written) {
        var b := before + [o.written];
        DrainStopsOnRefusal(rows[1..], dests, convert, consume, b);
        var d := Drain(rows[1..], dests, convert, consume, b);
        var y := [o.written] + d.yielded;
        assert Drain(rows, dests, convert, consume, before) == Drained(y, d.consumed + 1);
        if d.yielded != [] {
          assert y[|y| - 1] == d.yielded[|d.yielded| - 1];
          assert y[..|y| - 1] == [o.written] + d.yielded[..|d.yielded| - 1];
          assert before + y[..|y| - 1] == b + d.yielded[..|d.yielded| - 1];
        }
      } else {
        assert before + [o.written][..0] == before;
      }
    }
  }

  /** Every value of `ys` but the last was accepted by `consume`, given the
      values before it. */
  predicate AcceptedAllButLast(consume: (seq<Record>, Record) -> bool, before: seq<Record>, ys: seq<Record>) {
    forall j :: 0 <= j < |ys| - 1 ==> consume(before + ys[..j], ys[j])
  }

  /** Over a whole run, every value handed to the consumer except the last
      was accepted. */
  lemma {:induction false} DrainAcceptsAllButLast(rows: seq<seq<Value>>, dests: seq<Destination>,
                                                  convert: (Destination, Value) -> bool,
                                                  consume: (seq<Record>, Record) -> bool, before: seq<Record>)
    ensures AcceptedAllButLast(consume, before, Drain(rows, dests, convert, consume, before).yielded)
    decreases |rows|
  {
    if rows != [] {
      var o := Rows.ScanRow(dests, rows[0], convert);
      if o.err.Some? {
        DrainAcceptsAllButLast(rows[1..], dests, convert, consume, before);
      } else if consume(before, o.written) {
        var b := before + [o.written];
        DrainAcceptsAllButLast(rows[1..], dests, convert, consume, b);
        var ys := Drain(rows[1..], dests, convert, consume, b).yielded;
        var y := [o.written] + ys;
        assert Drain(rows, dests, convert, consume, before).yielded == y;
        forall j | 0 <= j < |y| - 1 ensures consume(before + y[..j], y[j]) {
          if j == 0 {
            assert before + y[..0] == before && y[0] == o.written;
          } else {
            assert y[j] == ys[j - 1];
            assert before + y[..j] == b + ys[..j - 1];
          }
        }
      }
    }
  }

  /** The values handed over are exactly the rows that scan among those
      the iteration moved over. */
  lemma {:induction false} DrainYieldsScannedOfRead(rows: seq<seq<Value>>, dests: seq<Destination>,
                                                    convert: (Destination, Value) -> bool,
                                                    consume: (seq<Record>, Record) -> bool, before: seq<Record>)
    ensures var d := Drain(rows, dests, convert, consume, before);
      d.yielded == Scanned(rows[..d.consumed], dests, convert)
    decreases |rows|
  {
    if rows == [] {
      assert rows[..0] == [];
    } else {
      var o := Rows.ScanRow(dests, rows[0], convert);
      if o.err.None? && !consume(before, o.written) {
        assert rows[..1][1..] == [] && rows[..1][0] == rows[0];
      } else {
        var b := if o.err.Some? then before else before + [o.written];
        DrainYieldsScannedOfRead(rows[1..], dests, convert, consume, b);
        var c := Drain(rows[1..], dests, convert, consume, b).consumed;
        assert rows[..c + 1][1..] == rows[1..][..c] && rows[..c + 1][0] == rows[0];
      }
    }
  }

  /** One step of the iteration over the row at index `next`: from the
      values `before` handed over so far, the row's scan leaves `yielded`
      and `go` as the loop body does. A row that fails to scan is moved
      over, a value the consumer takes is appended, and a value it refuses
      ends the iteration. */
  lemma Step(whole: Drained, before: seq<Record>, yielded: seq<Record>, go: bool, p0: nat, next: nat,
             rows: seq<seq<Value>>, dests: seq<Destination>, convert: (Destination, Value) -> bool,
             consume: (seq<Record>, Record) -> bool, o: Rows.ScanOutcome)
    requires p0 <= next < |rows|
    requires whole == Join(before, next - p0, Drain(rows[next..], dests, convert, consume, before))
    requires o == Rows.ScanRow(dests, rows[next], convert)
    requires o.err.Some? ==> yielded == before && go
    requires o.err.None? ==> yielded == before + [o.written] && go == consume(before, o.written)
    ensures go ==> whole == Join(yielded, next + 1 - p0, Drain(rows[next + 1..], dests, convert, consume, yielded))
    ensures !go ==> whole == Drained(yielded, next + 1 - p0)
  {
    assert rows[next..][0] == rows[next];
    assert rows[next..][1..] == rows[next + 1..];
    if o.err.None? {
      var d := Drain(rows[next + 1..], dests, convert, consume, yielded);
      assert before + ([o.written] + d.yielded) == yielded + d.yielded;
    }
  }

  /** The iter.Seq that queryRows returns: a function over the cursor and
      the destination function, run by calling it with a consumer. */
  class RowSeq {
    const cursor: Rows.Cursor
    const df: Dest.DestFunc

    constructor (cursor: Rows.Cursor, df: Dest.DestFunc)
      ensures this.cursor == cursor && this.df == df
    {
      this.cursor := cursor;
      this.df := df;
    }

    /** The loop body on the current row: destinations for a fresh result,
        the scan, and, when the row scans, the value handed to `consume`;
        `go` is false only when the consumer refused it. */
    method Visit(consume: (seq<Record>, Record) -> bool, yielded: seq<Record>)
      returns (yielded': seq<Record>, go: bool)
      requires cursor.Valid() && !cursor.closed && cursor.pos > 0
      ensures var o := Rows.ScanRow(Dest.DestsOf(df), cursor.rows[cursor.pos - 1], cursor.convert);
        && (o.err.Some? ==> yielded' == yielded && go)
        && (o.err.None? ==> yielded' == yielded + [o.written] && go == consume(yielded, o.written))
    {
      var dest := Dest.Dests(df);
      var result, err := cursor.Scan(dest);
      yielded', go := yielded, true;
      if err.None? {
        go := consume(yielded, result);
        yielded' := yielded + [result];
      }
    }

    /** Runs the sequence with the consumer `consume`; returns the values it
        handed to `consume`. The cursor is closed on return, whether the rows
        ran out or the consumer stopped. */
    method Run(consume: (seq<Record>, Record) -> bool) returns (yielded: seq<Record>)
      requires cursor.Valid()
      modifies cursor
      ensures cursor.Valid() && cursor.closed
      ensures old(cursor.closed) ==> yielded == [] && cursor.pos == old(cursor.pos)
      ensures !old(cursor.closed) ==>
        var d := Drain(cursor.rows[old(cursor.pos)..], Dest.DestsOf(df), cursor.convert, consume, []);
        yielded == d.yielded && cursor.pos == old(cursor.pos) + d.consumed
    {
      ghost var p0 := cursor.pos;
      ghost var wasClosed := cursor.closed;
      ghost var dests := Dest.DestsOf(df);
      ghost var rows, cv := cursor.rows, cursor.convert;
      ghost var whole := Drain(rows[p0..], dests, cv, consume, []);
      yielded := [];
      ghost var next: nat := p0;
      // for rows.Next() { ... }
      while true
        invariant cursor.Valid() && cursor.pos == next && cursor.closed == wasClosed
        invariant wasClosed ==> next == p0 && yielded == []
        invariant p0 <= next
        invariant !wasClosed ==> whole == Join(yielded, next - p0, Drain(rows[next..], dests, cv, consume, yielded))
        decreases |rows| - next
      {
        var more := cursor.Next();
        if !more {
          assert !wasClosed ==> rows[next..] == [] && whole == Drained(yielded, next - p0);
          break;
        }
        ghost var before := yielded;
        ghost var o := Rows.ScanRow(dests, rows[next], cv);
        var go;
        yielded, go := Visit(consume, yielded);
        Step(whole, before, yielded, go, p0, next, rows, dests, cv, consume, o);
        next := next + 1;
        if !go {
          break;
        }
      }
      cursor.Close();
    }
  }

  method QueryRows(cache: Mapping.MappingCache, t: ResultType, ctx: Context.Ctx,
                   statement: string, args: seq<Value>, query: QueryFn)
    returns (results: RowSeq?, err: Option<Error>, ghost cursor: Rows.Cursor?)
    requires cache.Valid()
    modifies cache
    ensures cache.Valid()
    ensures err.Some? <==> Setup(t, ctx, statement, args, query).Err?
    ensures err.Some? ==> err.value == Setup(t, ctx, statement, args, query).error
    ensures results == null <==> err.Some?
    ensures cursor == null <==> Open(ctx, statement, args, query).Err?
    ensures cursor != null ==>
      && fresh(cursor) && cursor.Valid()
      && cursor.rows == Open(ctx, statement, args, query).value.rows
      && cursor.convert == Open(ctx, statement, args, query).value.convert
      && cursor.pos == 0 && cursor.advances == 0
      && (cursor.closed <==> err.Some?)
    ensures results != null ==>
      fresh(results) && results.cursor == cursor && results.df == Setup(t, ctx, statement, args, query).value
    ensures old(cache.entries).Keys <= cache.entries.Keys <= old(cache.entries).Keys + StructKeys(t)
  {
    results, cursor := null, null;
    var executor := Context.FromContext(ctx);
    if executor.Err? {
      err := Some(executor.error);
      return;
    }
    var resp := query(executor.value, statement, args);
    if resp.Failed? {
      err := Some(resp.err);
      return;
    }
    var rows := new Rows.Cursor(resp.columns, resp.rows, resp.convert);
    cursor := rows;
    // From here on, a path that returns an error closes the cursor.
    var columns := rows.Columns();
    if columns.Err? {
      err := Some(columns.error);
      rows.Close();
      return;
    }
    var df := Dest.MakeDestFunc(cache, t, columns.value);
    if df.Ok? {
      results := new RowSeq(rows, df.value);
      err := None;
    } else {
      err := Some(df.error);
      rows.Close();
    }
  }

  /** Errors of QueryContext and Columns reach the caller of queryRows
      unchanged, and an unbindable R gives the unscannable error; otherwise
      the sequence is set up with the strategy for the columns, whatever the
      rows are. */
  lemma RowsErrorsPropagate(t: ResultType, ctx: Context.Ctx, statement: string, args: seq<Value>, query: QueryFn)
    requires Context.FromContext(ctx).Ok?
    ensures var resp := query(Context.FromContext(ctx).value, statement, args);
      && (resp.Failed? ==> Setup(t, ctx, statement, args, query) == Err(resp.err))
      && (resp.Opened? && resp.columns.Err? ==>
            Setup(t, ctx, statement, args, query) == Err(resp.columns.error))
      && (resp.Opened? && resp.columns.Ok? && Dest.Strategy(t, resp.columns.value).Err? ==>
            Setup(t, ctx, statement, args, query) == Err(UnscannableResult))
      && (resp.Opened? && resp.columns.Ok? ==>
            Setup(t, ctx, statement, args, query) == Dest.Strategy(t, resp.columns.value))
  {
  }

  /** Without an executor, queryRows fails with errNoExecutor whatever the
      executor would have answered. */
  lemma RowsNeedExecutor(t: ResultType, ctx: Context.Ctx, statement: string, args: seq<Value>, query: QueryFn)
    requires Context.FromContext(ctx).Err?
    ensures Setup(t, ctx, statement, args, query) == Err(NoExecutor)
  {
  }
}
