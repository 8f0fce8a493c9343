/** The row cursor the engine drives: a model of database/sql's *Rows as
    far as queryRow and queryRows use it (Next, Columns, Scan, Close).
    Converting one raw value into one destination is the driver's business
    and is given as the oracle `convert`. */
module Rows {
  import opened Types
  import Discard

  /** Whether the destination accepts the value: Void always does (its Scan
      returns nil), any other destination as the driver decides. */
  predicate SlotAccepts(d: Destination, v: Value, convert: (Destination, Value) -> bool) {
    if d == VoidDest then Discard.Void.Void.Scan(v).None? else convert(d, v)
  }

  /** Storing through a destination; Void keeps nothing. */
  function Store(acc: Record, d: Destination, v: Value): Record {
    if d == VoidDest then acc else acc[d := v]
  }

  datatype ScanOutcome = ScanOutcome(written: Record, err: Option<Error>)

  /** Columns `i..` of one row, converted left to right; the first column
      that cannot be converted ends the scan with what was stored so far. */
  function ScanFrom(dests: seq<Destination>, values: seq<Value>, convert: (Destination, Value) -> bool,
                    i: nat, acc: Record): ScanOutcome
    requires |dests| == |values| && i <= |dests|
    decreases |dests| - i
  {
    if i == |dests| then ScanOutcome(acc, None)
    else if !SlotAccepts(dests[i], values[i], convert) then ScanOutcome(acc, Some(ScanFailed(i)))
    else ScanFrom(dests, values, convert, i + 1, Store(acc, dests[i], values[i]))
  }

  /** Scanning one row of `values` into `dests` (Rows.Scan on an open cursor
      positioned on a row), starting from the zero result. */
  function ScanRow(dests: seq<Destination>, values: seq<Value>, convert: (Destination, Value) -> bool): ScanOutcome {
    if |dests| != |values| then ScanOutcome(map[], Some(DestCountMismatch(|values|, |dests|)))
    else ScanFrom(dests, values, convert, 0, map[])
  }

  /** ScanFrom fails exactly at the first slot that rejects its value, and
      stores into nothing but the non-Void destinations it passed. */
  lemma {:induction false} ScanFromFacts(dests: seq<Destination>, values: seq<Value>,
                                         convert: (Destination, Value) -> bool, i: nat, acc: Record)
    requires |dests| == |values| && i <= |dests|
    ensures var o := ScanFrom(dests, values, convert, i, acc);
      && (o.err.None? <==> forall j :: i <= j < |dests| ==> SlotAccepts(dests[j], values[j], convert))
      && (o.err.Some? ==>
            exists j :: i <= j < |dests| && o.err == Some(ScanFailed(j))
              && !SlotAccepts(dests[j], values[j], convert)
              && forall j' :: i <= j' < j ==> SlotAccepts(dests[j'], values[j'], convert))
      && (forall d :: d in o.written ==> d in acc || (d != VoidDest && d in dests[i..]))
      && (o.err.None? ==> forall j :: i <= j < |dests| && dests[j] != VoidDest ==> dests[j] in o.written)
    decreases |dests| - i
  {
    if i < |dests| && SlotAccepts(dests[i], values[i], convert) {
      var acc' := Store(acc, dests[i], values[i]);
      ScanFromFacts(dests, values, convert, i + 1, acc');
      assert dests[i..] == [dests[i]] + dests[i + 1..];
      var o := ScanFrom(dests, values, convert, i + 1, acc');
      if o.err.None? {
        forall j | i <= j < |dests| && dests[j] != VoidDest ensures dests[j] in o.written {
          if j == i {
            // stored into acc' and nothing is ever removed
            StoredStays(dests, values, convert, i + 1, acc', dests[i]);
          }
        }
      }
    }
  }

  lemma {:induction false} StoredStays(dests: seq<Destination>, values: seq<Value>,
                                       convert: (Destination, Value) -> bool, i: nat, acc: Record, d: Destination)
    requires |dests| == |values| && i <= |dests| && d in acc
    ensures d in ScanFrom(dests, values, convert, i, acc).written
    decreases |dests| - i
  {
    if i < |dests| && SlotAccepts(dests[i], values[i], convert) {
      StoredStays(dests, values, convert, i + 1, Store(acc, dests[i], values[i]), d);
    }
  }

  /** A row scans without error exactly when its width matches and every
      non-Void slot accepts its value: Void slots never cause a failure. */
  lemma ScanSucceedsIffSlotsAccept(dests: seq<Destination>, values: seq<Value>, convert: (Destination, Value) -> bool)
    ensures ScanRow(dests, values, convert).err.None? <==>
      |dests| == |values| &&
      forall j :: 0 <= j < |dests| && dests[j] != VoidDest ==> convert(dests[j], values[j])
  {
    if |dests| == |values| {
      ScanFromFacts(dests, values, convert, 0, map[]);
    }
  }

  /** A conversion failure names the first column whose destination is not
      Void and rejects its value. */
  lemma ScanFailureAtRealSlot(dests: seq<Destination>, values: seq<Value>, convert: (Destination, Value) -> bool, j: nat)
    requires ScanRow(dests, values, convert).err == Some(ScanFailed(j))
    ensures j < |dests| == |values|
    ensures dests[j] != VoidDest && !convert(dests[j], values[j])
    ensures forall k :: 0 <= k < j && dests[k] != VoidDest ==> convert(dests[k], values[k])
  {
    ScanFromFacts(dests, values, convert, 0, map[]);
  }

  /** Scanning stores into destinations of the list only, never into Void,
      and a successful scan stores into every non-Void destination. */
  lemma ScanWrites(dests: seq<Destination>, values: seq<Value>, convert: (Destination, Value) -> bool)
    ensures var o := ScanRow(dests, values, convert);
      && VoidDest !in o.written
      && (forall d :: d in o.written ==> d in dests)
      && (o.err.None? ==> forall d :: d in dests && d != VoidDest ==> d in o.written)
  {
    if |dests| == |values| {
      ScanFromFacts(dests, values, convert, 0, map[]);
      assert dests[0..] == dests;
    }
  }

  /** The cursor returned by QueryContext. `pos` counts the rows Next has
      moved onto; the current row, once there is one, is `rows[pos - 1]`. */
  class Cursor {
    const columns: Result<seq<string>, Error>
    const rows: seq<seq<Value>>
    const convert: (Destination, Value) -> bool
    var pos: nat
    var closed: bool
    /** The number of calls to Next so far. */
    ghost var advances: nat

    ghost predicate Valid()
      reads this
    {
      pos <= |rows|
    }

    constructor (columns: Result<seq<string>, Error>, rows: seq<seq<Value>>, convert: (Destination, Value) -> bool)
      ensures Valid()
      ensures this.columns == columns && this.rows == rows && this.convert == convert
      ensures pos == 0 && !closed && advances == 0
    {
      this.columns := columns;
      this.rows := rows;
      this.convert := convert;
      pos := 0;
      closed := false;
      advances := 0;
    }

    /** Moves onto the next row; when there is none the cursor closes itself. */
    method Next() returns (more: bool)
      requires Valid()
      modifies this
      ensures Valid()
      ensures more <==> !old(closed) && old(pos) < |rows|
      ensures pos == if more then old(pos) + 1 else old(pos)
      ensures closed == (old(closed) || !more)
      ensures advances == old(advances) + 1
    {
      advances := advances + 1;
      if closed {
        more := false;
      } else if pos < |rows| {
        pos := pos + 1;
        more := true;
      } else {
        closed := true;
        more := false;
      }
    }

    method Columns() returns (r: Result<seq<string>, Error>)
      ensures closed ==> r == Err(RowsClosed)
      ensures !closed ==> r == columns
    {
      if closed {
        r := Err(RowsClosed);
      } else {
        r := columns;
      }
    }

    /** What Scan does from the current state. */
    ghost function ScanNow(dests: seq<Destination>): ScanOutcome
      reads this
      requires Valid()
    {
      if closed then ScanOutcome(map[], Some(RowsClosed))
      else if pos == 0 then ScanOutcome(map[], Some(ScanWithoutNext))
      else ScanRow(dests, rows[pos - 1], convert)
    }

    /** Scans the current row into `dests`, starting from a zero result;
        `written` is what the destinations received. */
    method Scan(dests: seq<Destination>) returns (written: Record, err: Option<Error>)
      requires Valid()
      ensures ScanOutcome(written, err) == ScanNow(dests)
      ensures !closed && pos > 0 && err.None? ==>
        forall d :: d in dests && d != VoidDest ==> d in written
    {
      var o: ScanOutcome;
      if closed {
        o := ScanOutcome(map[], Some(RowsClosed));
      } else if pos == 0 {
        o := ScanOutcome(map[], Some(ScanWithoutNext));
      } else {
        o := ScanRow(dests, rows[pos - 1], convert);
        ScanWrites(dests, rows[pos - 1], convert);
      }
      written, err := o.written, o.err;
    }

    method Close()
      requires Valid()
      modifies this
      ensures Valid()
      ensures closed && pos == old(pos) && advances == old(advances)
    {
      closed := true;
    }
  }
}
