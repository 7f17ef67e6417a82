/** `cast_df_to_given_dtype`: walk a dataframe type spec in order and
    overwrite each named column with a coerced copy. A dataframe is a map
    from column name to column; what a column holds and how pandas coerces
    it are left abstract. */
module TableCast {
  import opened Base
  import opened BqSchema

  /** A dataframe: column name to column contents. */
  type Table<C> = map<string, C>

  /** Why a cast stops: the column is absent (pandas raises `KeyError`) or
      its values cannot be coerced to the target type. */
  datatype CastError = MissingColumn(column: string) | CoercionFailed(column: string, target: DfType)

  /** The two pandas conversions the cast uses, each of which may fail:
      `Series.astype(tag)` and `pd.to_datetime(series)`. */
  datatype Coercion<!C> = Coercion(astype: (DfType, C) -> Option<C>, toDatetime: C -> Option<C>)

  /** The conversion the cast applies to one column of type `t`:
      `to_datetime` for 'dt', `astype` for every other tag. */
  function Coerce<C>(co: Coercion<C>, t: DfType, column: C): Option<C>
  {
    if t == DfDatetime then co.toDatetime(column) else co.astype(t, column)
  }

  /** One iteration of the loop: replace column `field.name` by its coerced
      form. */
  function CastColumn<C>(table: Table<C>, field: DfField, co: Coercion<C>): (r: Result<Table<C>, CastError>)
    ensures r.Err? <==> field.name !in table || Coerce(co, field.dfType, table[field.name]).None?
    ensures r.Err? && field.name !in table ==> r.error == MissingColumn(field.name)
    ensures r.Ok? ==> r.value.Keys == table.Keys
    ensures r.Ok? ==> r.value[field.name] == Coerce(co, field.dfType, table[field.name]).value
    ensures r.Ok? ==> forall c :: c in table && c != field.name ==> r.value[c] == table[c]
  {
    if field.name !in table then Err(MissingColumn(field.name))
    else
      match Coerce(co, field.dfType, table[field.name])
      case None => Err(CoercionFailed(field.name, field.dfType))
      case Some(column) => Ok(table[field.name := column])
  }

  /** The whole cast: the spec's fields in order, stopping at the first
      failure. The column set never changes, a missing spec column always
      fails, and columns outside the spec pass through untouched. */
  function Cast<C>(table: Table<C>, spec: seq<DfField>, co: Coercion<C>): (r: Result<Table<C>, CastError>)
    ensures r.Ok? ==> r.value.Keys == table.Keys
    ensures (exists k :: 0 <= k < |spec| && spec[k].name !in table) ==> r.Err?
    ensures r.Err? ==> r.error.column in DfNames(spec)
    ensures r.Ok? ==> forall c :: c in table && c !in DfNames(spec) ==> r.value[c] == table[c]
    decreases |spec|
  {
    if |spec| == 0 then Ok(table)
    else
      match CastColumn(table, spec[0], co)
      case Err(e) => Err(e)
      case Ok(next) =>
        assert forall k :: 1 <= k < |spec| ==> spec[k] == spec[1..][k - 1];
        assert forall c :: c in DfNames(spec[1..]) ==> c in DfNames(spec);
        Cast(next, spec[1..], co)
  }

  /** Every column the spec names is present and converts successfully. */
  ghost predicate Castable<C>(table: Table<C>, spec: seq<DfField>, co: Coercion<C>)
  {
    forall k :: 0 <= k < |spec| ==>
      spec[k].name in table && Coerce(co, spec[k].dfType, table[spec[k].name]).Some?
  }

  /** The tail of a spec with distinct names has distinct names, none of
      which is the head's. */
  lemma DistinctTail(spec: seq<DfField>)
    requires |spec| > 0 && Distinct(DfNames(spec))
    ensures Distinct(DfNames(spec[1..]))
    ensures forall k :: 0 <= k < |spec[1..]| ==> spec[1..][k].name != spec[0].name
  {
    var rest := spec[1..];
    forall i, j | 0 <= i < j < |rest| ensures DfNames(rest)[i] != DfNames(rest)[j] {
      assert DfNames(spec)[i + 1] != DfNames(spec)[j + 1];
    }
    forall k | 0 <= k < |rest| ensures rest[k].name != spec[0].name {
      assert DfNames(spec)[0] != DfNames(spec)[k + 1];
    }
  }

  /** After the head column is cast, the remaining columns of a
      distinct-name spec still hold their original contents, so they are
      castable exactly when they were before. */
  lemma CastableStep<C>(table: Table<C>, spec: seq<DfField>, co: Coercion<C>)
    requires |spec| > 0 && Distinct(DfNames(spec))
    requires CastColumn(table, spec[0], co).Ok?
    ensures forall k :: 0 <= k < |spec[1..]| && spec[1..][k].name in table ==>
      CastColumn(table, spec[0], co).value[spec[1..][k].name] == table[spec[1..][k].name]
    ensures Castable(table, spec, co) <==> Castable(CastColumn(table, spec[0], co).value, spec[1..], co)
  {
    DistinctTail(spec);
    var next := CastColumn(table, spec[0], co).value;
    var rest := spec[1..];
    assert forall k :: 0 <= k < |rest| ==> rest[k] == spec[k + 1];
    if Castable(next, rest, co) {
      forall k | 0 <= k < |spec|
        ensures spec[k].name in table && Coerce(co, spec[k].dfType, table[spec[k].name]).Some?
      {
        if k > 0 {
          assert rest[k - 1] == spec[k];
        }
      }
    }
  }

  /** For a spec with distinct column names (as every spec derived from the
      registry has), the cast succeeds exactly when every named column is
      present and converts. */
  lemma {:induction false} CastDistinctSucceeds<C>(table: Table<C>, spec: seq<DfField>, co: Coercion<C>)
    requires Distinct(DfNames(spec))
    ensures Cast(table, spec, co).Ok? <==> Castable(table, spec, co)
    decreases |spec|
  {
    if |spec| > 0 {
      DistinctTail(spec);
      var step := CastColumn(table, spec[0], co);
      if step.Ok? {
        CastableStep(table, spec, co);
        CastDistinctSucceeds(step.value, spec[1..], co);
      }
    }
  }

  /** For a spec with distinct column names, a successful cast leaves each
      named column holding the conversion of its original contents. */
  lemma {:induction false} CastDistinctValues<C>(table: Table<C>, spec: seq<DfField>, co: Coercion<C>)
    requires Distinct(DfNames(spec))
    requires Cast(table, spec, co).Ok?
    ensures forall k :: 0 <= k < |spec| ==>
      spec[k].name in table &&
      Coerce(co, spec[k].dfType, table[spec[k].name]).Some? &&
      Cast(table, spec, co).value[spec[k].name] == Coerce(co, spec[k].dfType, table[spec[k].name]).value
    decreases |spec|
  {
    if |spec| > 0 {
      DistinctTail(spec);
      var next := CastColumn(table, spec[0], co).value;
      var rest := spec[1..];
      var r := Cast(table, spec, co).value;
      assert r == Cast(next, rest, co).value;
      CastableStep(table, spec, co);
      CastDistinctValues(next, rest, co);
      forall k | 0 <= k < |spec|
        ensures spec[k].name in table
        ensures Coerce(co, spec[k].dfType, table[spec[k].name]).Some?
        ensures r[spec[k].name] == Coerce(co, spec[k].dfType, table[spec[k].name]).value
      {
        if k == 0 {
          assert spec[0].name !in DfNames(rest);
        } else {
          assert rest[k - 1] == spec[k];
        }
      }
    }
  }

  /** An empty spec, which is what an unknown table id yields, leaves the
      table as it is. */
  lemma CastEmptySpec<C>(table: Table<C>, co: Coercion<C>)
    ensures Cast(table, [], co) == Ok(table)
  {
  }

  /** A conversion is settled when converting its output again changes
      nothing and cannot fail. */
  ghost predicate SettledCoercion<C(!new)>(co: Coercion<C>)
  {
    forall t, c :: Coerce(co, t, c).Some? ==> Coerce(co, t, Coerce(co, t, c).value) == Coerce(co, t, c)
  }

  /** Every column a spec names holds, in `after`, the conversion of its
      contents in `before`. */
  ghost predicate ConvertedFrom<C>(before: Table<C>, after: Table<C>, spec: seq<DfField>, co: Coercion<C>)
  {
    forall k :: 0 <= k < |spec| ==>
      && spec[k].name in before
      && spec[k].name in after
      && Coerce(co, spec[k].dfType, before[spec[k].name]) == Some(after[spec[k].name])
  }

  /** Converting twice with a settled conversion agrees with converting
      once, column by column. */
  lemma SettledTwice<C(!new)>(table: Table<C>, once: Table<C>, twice: Table<C>,
                              spec: seq<DfField>, co: Coercion<C>)
    requires SettledCoercion(co)
    requires ConvertedFrom(table, once, spec, co) && ConvertedFrom(once, twice, spec, co)
    requires twice.Keys == once.Keys
    requires forall c :: c in once && c !in DfNames(spec) ==> twice[c] == once[c]
    ensures twice == once
  {
    forall c | c in once ensures twice[c] == once[c] {
      if c in DfNames(spec) {
        var k :| 0 <= k < |spec| && DfNames(spec)[k] == c;
        var t := spec[k].dfType;
        assert Coerce(co, t, table[c]) == Some(once[c]);
        assert Coerce(co, t, once[c]) == Some(twice[c]);
      }
    }
  }

  /** With settled conversions and distinct names, casting an already-cast
      table with the same spec gives the same table. */
  lemma CastIdempotent<C(!new)>(table: Table<C>, spec: seq<DfField>, co: Coercion<C>)
    requires Distinct(DfNames(spec))
    requires SettledCoercion(co)
    requires Cast(table, spec, co).Ok?
    ensures Cast(Cast(table, spec, co).value, spec, co) == Cast(table, spec, co)
  {
    var once := Cast(table, spec, co).value;
    CastDistinctValues(table, spec, co);
    assert ConvertedFrom(table, once, spec, co);
    CastDistinctSucceeds(once, spec, co);
    assert Castable(once, spec, co);
    CastDistinctValues(once, spec, co);
    var twice := Cast(once, spec, co).value;
    assert ConvertedFrom(once, twice, spec, co);
    SettledTwice(table, once, twice, spec, co);
  }
}
