/** The schema registry and the type mappers of `upload_gcs_to_bq.py`:
    the two fixed warehouse schemas, the lookup by table id, the mapping
    from warehouse column types to dataframe type tags, and the list of
    schema fields handed to the load job. */
module BqSchema {
  import opened Base

  /** One `{'name': ..., 'type': ...}` entry of a warehouse schema. The type
      is kept as the string the source stores and compares. */
  datatype BqField = BqField(name: string, bqType: string)

  /** The dataframe type tags the cast understands: 'float', 'str', 'int'
      and 'dt'. */
  datatype DfType = DfFloat | DfStr | DfInt | DfDatetime

  /** One `{'name': ..., 'type': <tag>}` entry of a dataframe type spec. */
  datatype DfField = DfField(name: string, dfType: DfType)

  /** A `bigquery.SchemaField(name, field_type=...)` of the load job. */
  datatype SchemaField = SchemaField(name: string, fieldType: string)

  const Float64: string := "FLOAT64"
  const String: string := "STRING"
  const Int64: string := "INT64"
  const Datetime: string := "DATETIME"

  predicate IsKnownBqType(t: string)
  {
    t == Float64 || t == String || t == Int64 || t == Datetime
  }

  const GreenTaxiSchema: seq<BqField> := [
    BqField("VendorID", Float64),
    BqField("lpep_pickup_datetime", Datetime),
    BqField("lpep_dropoff_datetime", Datetime),
    BqField("store_and_fwd_flag", String),
    BqField("RatecodeID", Int64),
    BqField("PULocationID", Int64),
    BqField("DOLocationID", Int64),
    BqField("passenger_count", Int64),
    BqField("trip_distance", Float64),
    BqField("fare_amount", Float64),
    BqField("extra", Float64),
    BqField("mta_tax", Float64),
    BqField("tip_amount", Float64),
    BqField("tolls_amount", Float64),
    BqField("ehail_fee", Float64),
    BqField("improvement_surcharge", Float64),
    BqField("total_amount", Float64),
    BqField("payment_type", Int64),
    BqField("trip_type", Int64),
    BqField("congestion_surcharge", Float64)
  ]

  const YellowTaxiSchema: seq<BqField> := [
    BqField("VendorID", Float64),
    BqField("tpep_pickup_datetime", Datetime),
    BqField("tpep_dropoff_datetime", Datetime),
    BqField("passenger_count", Float64),
    BqField("trip_distance", Float64),
    BqField("RatecodeID", Float64),
    BqField("store_and_fwd_flag", String),
    BqField("PULocationID", Int64),
    BqField("DOLocationID", Int64),
    BqField("payment_type", Float64),
    BqField("fare_amount", Float64),
    BqField("extra", Float64),
    BqField("mta_tax", Float64),
    BqField("tip_amount", Float64),
    BqField("tolls_amount", Float64),
    BqField("improvement_surcharge", Float64),
    BqField("total_amount", Float64),
    BqField("congestion_surcharge", Float64)
  ]

  const GreenTaxiId: string := "green_taxi"
  const YellowTaxiId: string := "yellow_taxi"

  function BqNames(schema: seq<BqField>): (names: seq<string>)
    ensures |names| == |schema|
    ensures forall k :: 0 <= k < |schema| ==> names[k] == schema[k].name
  {
    seq(|schema|, k requires 0 <= k < |schema| => schema[k].name)
  }

  function DfNames(spec: seq<DfField>): (names: seq<string>)
    ensures |names| == |spec|
    ensures forall k :: 0 <= k < |spec| ==> names[k] == spec[k].name
  {
    seq(|spec|, k requires 0 <= k < |spec| => spec[k].name)
  }

  lemma GreenNamesDistinct()
    ensures Distinct(BqNames(GreenTaxiSchema))
  {
    var n := BqNames(GreenTaxiSchema);
    assert n == ["VendorID", "lpep_pickup_datetime", "lpep_dropoff_datetime",
      "store_and_fwd_flag", "RatecodeID", "PULocationID", "DOLocationID",
      "passenger_count", "trip_distance", "fare_amount", "extra", "mta_tax",
      "tip_amount", "tolls_amount", "ehail_fee", "improvement_surcharge",
      "total_amount", "payment_type", "trip_type", "congestion_surcharge"];
  }

  lemma YellowNamesDistinct()
    ensures Distinct(BqNames(YellowTaxiSchema))
  {
    var n := BqNames(YellowTaxiSchema);
    assert n == ["VendorID", "tpep_pickup_datetime", "tpep_dropoff_datetime",
      "passenger_count", "trip_distance", "RatecodeID", "store_and_fwd_flag",
      "PULocationID", "DOLocationID", "payment_type", "fare_amount", "extra",
      "mta_tax", "tip_amount", "tolls_amount", "improvement_surcharge",
      "total_amount", "congestion_surcharge"];
  }

  /** `get_bq_schema_from_config`: the fixed schema of a known table id, and
      the empty schema for every other id (the source returns `''`, which
      iterates like an empty list). */
  function Lookup(tableId: string): (schema: seq<BqField>)
    ensures schema != [] <==> tableId == GreenTaxiId || tableId == YellowTaxiId
    ensures tableId == GreenTaxiId ==> |schema| == 20 && schema[0] == BqField("VendorID", "FLOAT64")
    ensures tableId == YellowTaxiId ==> |schema| == 18 && schema[0] == BqField("VendorID", "FLOAT64")
    ensures Distinct(BqNames(schema))
    ensures forall k :: 0 <= k < |schema| ==> IsKnownBqType(schema[k].bqType)
  {
    if tableId == GreenTaxiId then GreenNamesDistinct(); GreenTaxiSchema
    else if tableId == YellowTaxiId then YellowNamesDistinct(); YellowTaxiSchema
    else []
  }

  /** The tag string the source writes for each dataframe type. */
  function DfTag(t: DfType): string
  {
    match t
    case DfFloat => "float"
    case DfStr => "str"
    case DfInt => "int"
    case DfDatetime => "dt"
  }

  /** The per-column branch of `build_df_dtypes_from_bq_dtypes`: a total
      mapping in which every unrecognised type falls back to 'str'. */
  function DfTypeOf(bqType: string): (t: DfType)
    ensures t == DfFloat <==> bqType == "FLOAT64"
    ensures t == DfInt <==> bqType == "INT64"
    ensures t == DfDatetime <==> bqType == "DATETIME"
    ensures t == DfStr <==> !(bqType in {"FLOAT64", "INT64", "DATETIME"})
  {
    if bqType == Float64 then DfFloat
    else if bqType == String then DfStr
    else if bqType == Int64 then DfInt
    else if bqType == Datetime then DfDatetime
    else DfStr
  }

  /** The warehouse type each dataframe type stands for. */
  function CanonicalBqType(t: DfType): (bqType: string)
    ensures IsKnownBqType(bqType)
  {
    match t
    case DfFloat => Float64
    case DfStr => String
    case DfInt => Int64
    case DfDatetime => Datetime
  }

  /** Every dataframe type is reached from exactly one recognised warehouse
      type, and the four tags are pairwise different. */
  lemma DfTypeOfCanonical(t: DfType, bqType: string)
    ensures DfTypeOf(CanonicalBqType(t)) == t
    ensures IsKnownBqType(bqType) ==> (DfTypeOf(bqType) == t <==> bqType == CanonicalBqType(t))
    ensures forall u: DfType :: DfTag(u) == DfTag(t) ==> u == t
  {
  }

  /** `build_df_dtypes_from_bq_dtypes`: one dataframe field per warehouse
      column, in the same order and with the same name. */
  function BuildDfDtypes(schema: seq<BqField>): (spec: seq<DfField>)
    ensures |spec| == |schema|
    ensures forall k :: 0 <= k < |schema| ==>
      spec[k].name == schema[k].name && spec[k].dfType == DfTypeOf(schema[k].bqType)
    decreases |schema|
  {
    if |schema| == 0 then []
    else [DfField(schema[0].name, DfTypeOf(schema[0].bqType))] + BuildDfDtypes(schema[1..])
  }

  /** The derived spec has exactly the schema's column names, so it
      inherits their distinctness. */
  lemma BuildDfDtypesNames(schema: seq<BqField>)
    ensures DfNames(BuildDfDtypes(schema)) == BqNames(schema)
    ensures Distinct(BqNames(schema)) ==> Distinct(DfNames(BuildDfDtypes(schema)))
  {
  }

  /** `get_bq_schema_from_bq_dtype`: one `SchemaField` per column, keeping
      length, order, names and types. */
  function BqSchemaFields(dtypes: seq<BqField>): (fields: seq<SchemaField>)
    ensures |fields| == |dtypes|
    ensures forall k :: 0 <= k < |dtypes| ==>
      fields[k].name == dtypes[k].name && fields[k].fieldType == dtypes[k].bqType
    decreases |dtypes|
  {
    if |dtypes| == 0 then []
    else [SchemaField(dtypes[0].name, dtypes[0].bqType)] + BqSchemaFields(dtypes[1..])
  }

  /** Reading the schema fields back as `{'name', 'type'}` entries. */
  function FieldDicts(fields: seq<SchemaField>): (dtypes: seq<BqField>)
    ensures |dtypes| == |fields|
    decreases |fields|
  {
    if |fields| == 0 then []
    else [BqField(fields[0].name, fields[0].fieldType)] + FieldDicts(fields[1..])
  }

  /** The schema-field list loses nothing: reading it back yields the
      original entries. */
  lemma {:induction false} BqSchemaFieldsRoundTrip(dtypes: seq<BqField>)
    ensures FieldDicts(BqSchemaFields(dtypes)) == dtypes
    decreases |dtypes|
  {
    if |dtypes| > 0 {
      BqSchemaFieldsRoundTrip(dtypes[1..]);
      assert BqSchemaFields(dtypes)[1..] == BqSchemaFields(dtypes[1..]);
      assert dtypes == [dtypes[0]] + dtypes[1..];
    }
  }
}
