/** Column mapping of a struct type and the process-wide mapping cache
    (result.go). */
module Mapping {
  import opened Types
  import Case

  /** The first comma-separated segment of a tag: the `props[0]` of
      `strings.Split(desc, ",")`. */
  function BeforeComma(desc: string): (r: string)
    ensures r <= desc && ',' !in r
    ensures |r| < |desc| ==> desc[|r|] == ','
    ensures ',' !in desc ==> r == desc
  {
    if desc == [] || desc[0] == ',' then [] else [desc[0]] + BeforeComma(desc[1..])
  }

  /** The column a field binds to. */
  function ColumnOf(f: Field): (column: string)
    ensures f.sqlTag.Some? && ',' in f.sqlTag.value ==>
      column + [','] <= f.sqlTag.value && ',' !in column
    ensures f.sqlTag.Some? && ',' !in f.sqlTag.value ==> column == f.sqlTag.value
    ensures f.sqlTag.None? ==> column == Case.Snake(f.name)
  {
    match f.sqlTag
    case Some(desc) => if ',' in desc then BeforeComma(desc) else desc
    case None => Case.Snake(f.name)
  }

  /** The mapping built field by field in declaration order; a later field
      overwrites an earlier one with the same column. */
  function BuildMapping(fields: seq<Field>): map<string, string>
    decreases |fields|
  {
    if fields == [] then map[]
    else
      var last := fields[|fields| - 1];
      BuildMapping(fields[..|fields| - 1])[ColumnOf(last) := last.name]
  }

  /** Field `k` is the last one in `fields` whose column is `column`. */
  ghost predicate LastWith(fields: seq<Field>, column: string, k: int) {
    && 0 <= k < |fields|
    && ColumnOf(fields[k]) == column
    && forall j :: k < j < |fields| ==> ColumnOf(fields[j]) != column
  }

  /** A column is mapped exactly when some field yields it. */
  lemma {:induction false} MappingKeys(fields: seq<Field>, column: string)
    ensures column in BuildMapping(fields) <==>
      exists k :: 0 <= k < |fields| && ColumnOf(fields[k]) == column
    decreases |fields|
  {
    if fields != [] {
      var init := fields[..|fields| - 1];
      var n := |fields| - 1;
      MappingKeys(init, column);
      if ColumnOf(fields[n]) != column && column !in BuildMapping(init) {
        forall k | 0 <= k < |fields| ensures ColumnOf(fields[k]) != column {
          if k < n { assert fields[k] == init[k]; }
        }
      } else if ColumnOf(fields[n]) != column {
        var k :| 0 <= k < |init| && ColumnOf(init[k]) == column;
        assert fields[k] == init[k];
      }
    }
  }

  /** A mapped column maps to the name of the last field that yields it. */
  lemma {:induction false} MappingLastWrite(fields: seq<Field>, column: string)
    requires column in BuildMapping(fields)
    ensures exists k :: LastWith(fields, column, k) && BuildMapping(fields)[column] == fields[k].name
    decreases |fields|
  {
    var init := fields[..|fields| - 1];
    var n := |fields| - 1;
    var c := ColumnOf(fields[n]);
    assert BuildMapping(fields) == BuildMapping(init)[c := fields[n].name];
    if c == column {
      assert LastWith(fields, column, n);
    } else {
      assert column in BuildMapping(init) && BuildMapping(fields)[column] == BuildMapping(init)[column];
      MappingLastWrite(init, column);
      var k :| LastWith(init, column, k) && BuildMapping(init)[column] == init[k].name;
      LastWithExtend(fields, column, k);
    }
  }

  /** The last field with `column` stays the last one when the final field
      yields another column. */
  lemma LastWithExtend(fields: seq<Field>, column: string, k: int)
    requires fields != [] && ColumnOf(fields[|fields| - 1]) != column
    requires LastWith(fields[..|fields| - 1], column, k)
    ensures LastWith(fields, column, k) && fields[k] == fields[..|fields| - 1][k]
  {
    var init := fields[..|fields| - 1];
    forall j | k < j < |fields| ensures ColumnOf(fields[j]) != column {
      if j < |fields| - 1 { assert fields[j] == init[j]; }
    }
  }

  /** Every mapped value is the name of a field of the type. */
  lemma MappedToFieldName(fields: seq<Field>, column: string)
    requires column in BuildMapping(fields)
    ensures exists k :: 0 <= k < |fields| && BuildMapping(fields)[column] == fields[k].name
  {
    MappingLastWrite(fields, column);
  }

  lemma {:induction false} MappingSize(fields: seq<Field>)
    ensures |BuildMapping(fields)| <= |fields|
    decreases |fields|
  {
    if fields != [] {
      var init := fields[..|fields| - 1];
      MappingSize(init);
      var m := BuildMapping(init);
      var c := ColumnOf(fields[|fields| - 1]);
      assert BuildMapping(fields).Keys == m.Keys + {c};
    }
  }

  /** The loop of getStructMapping that fills a fresh mapping field by field. */
  method BuildFields(fields: seq<Field>) returns (mapping: map<string, string>)
    ensures mapping == BuildMapping(fields)
  {
    mapping := map[];
    for i := 0 to |fields|
      invariant mapping == BuildMapping(fields[..i])
    {
      var ft := fields[i];
      assert fields[..i + 1][..i] == fields[..i];
      match ft.sqlTag {
        case Some(desc) =>
          if ',' in desc {
            var first := BeforeComma(desc);
            mapping := mapping[first := ft.name];
          } else {
            mapping := mapping[desc := ft.name];
          }
        case None =>
          var column := Case.PascalToSnake(ft.name);
          mapping := mapping[column := ft.name];
      }
    }
    assert fields[..|fields|] == fields;
  }

  /** A model of the package-level `_StructMappingCache`: one mapping per
      struct type, built on first use and never changed afterwards. */
  class MappingCache {
    var entries: map<StructType, map<string, string>>
    /** How many mappings have been built, to observe that a hit does not rebuild. */
    ghost var builds: nat

    ghost predicate Valid()
      reads this
    {
      forall rt :: rt in entries ==> entries[rt] == BuildMapping(rt.fields)
    }

    constructor ()
      ensures Valid() && entries == map[] && builds == 0
    {
      entries := map[];
      builds := 0;
    }

    method GetStructMapping(rt: StructType) returns (mapping: map<string, string>)
      requires Valid()
      modifies this
      ensures Valid()
      ensures mapping == BuildMapping(rt.fields)
      ensures entries == old(entries)[rt := mapping]
      ensures rt in old(entries) ==> entries == old(entries) && builds == old(builds)
      ensures rt !in old(entries) ==> builds == old(builds) + 1
    {
      if rt in entries {
        mapping := entries[rt];
        return;
      }
      mapping := BuildFields(rt.fields);
      entries := entries[rt := mapping];
      builds := builds + 1;
    }

    /** Primes the cache for R: nothing for a Scannable or a non-struct R,
        the struct's mapping otherwise. */
    method PreprocessResult(t: ResultType)
      requires Valid()
      modifies this
      ensures Valid()
      ensures t.selfDest.None? && t.kind.Struct? ==>
        entries == old(entries)[t.kind.st := BuildMapping(t.kind.st.fields)]
      ensures t.selfDest.Some? || !t.kind.Struct? ==> entries == old(entries) && builds == old(builds)
    {
      if t.selfDest.Some? {
        return;
      }
      if t.kind.Struct? {
        var _ := GetStructMapping(t.kind.st);
      }
    }
  }
}
