# NYC taxi ingest: schema reconciliation and naming, in Dafny

This project models the pure core of two Python scripts. Together they
download NYC taxi trip archives, upload them to Google Cloud Storage as
parquet files, and load them into BigQuery.

- `scripts/upload_gcs_to_bq.py`:
  - the **schema registry**: two fixed BigQuery schemas, `GREEN_TAXI_SCHEMA`
    and `YELLOW_TAXI_SCHEMA`, looked up by table id;
  - the **type mapper**: BigQuery column types become pandas type tags
    (`float`, `str`, `int`, `dt`), and a schema becomes a list of
    `SchemaField`s;
  - the **table caster** `cast_df_to_given_dtype`: it overwrites each
    column named in the spec with a coerced copy;
  - the **ingest driver**: it splits a blob id into folder and name, builds
    the `gs://` URI and the `<folder>_taxi_test` table id, skips the `fhv`
    folder, chooses between casting and pass-through, and builds an
    appending load job.
- `scripts/upload_to_gcs.py`: the strings that `web_to_gcs` builds in each
  of its twelve iterations. These are the zero-padded month, the
  `.csv.gz` archive name, the download URL, the local paths, the
  `.parquet` name and the object name.

Modules, one per component:

| file | module | models |
|---|---|---|
| `base.dfy` | `Base` | `Option`, `Result`, and a `Distinct` predicate |
| `pystr.dfy` | `PyStr` | the Python string built-ins the scripts use: `split("/")`, `str(n)`, `s[-k:]`, `replace` |
| `bq_schema.dfy` | `BqSchema` | registry, type mapper, schema-field list |
| `table_cast.dfy` | `TableCast` | `cast_df_to_given_dtype` over an abstract dataframe |
| `bq_ingest.dfy` | `BqIngest` | `write_blob_to_bq_table` and the `__main__` loop |
| `gcs_upload.dfy` | `GcsUpload` | the naming inside `web_to_gcs` and the entry point's runs |

A dataframe is a `map<string, C>` from column name to an abstract column
`C`. The two pandas conversions, `Series.astype(tag)` and
`pd.to_datetime`, are the parameter `Coercion<C>`. Each is a total function
that returns `None` when the conversion fails. The cast returns
`Err(MissingColumn)` where pandas raises `KeyError`, and
`Err(CoercionFailed)` where a conversion raises.

Three details of the code that the model follows as written:

- `get_bq_schema_from_config` returns the empty string `''` for an unknown
  table id, not a list. Iterating over `''` behaves like iterating over an
  empty list, so the model returns the empty schema.
- The driver computes the table id as `<folder>_taxi_test`. The registry
  only knows `green_taxi` and `yellow_taxi`. So in the script's own run the
  registry is never hit: every load job carries the empty schema, and
  casting would leave every frame as read (`BqIngest.DriverTablesUnregistered`,
  `BqIngest.RunIngest`, `BqIngest.RunIgnoresClean`).
- `web_to_gcs` is annotated `year: int`, but the entry point passes the
  strings `'2019'` and `'2020'`. An f-string renders both the same way, so
  the year is a string in the model.

## Model

| member | source | states |
|---|---|---|
| `PyStr.Split` | scripts/upload_gcs_to_bq.py:346 | `split("/")` yields one more segment than the string has '/' characters, and no segment contains '/' |
| `PyStr.JoinSplit` | scripts/upload_gcs_to_bq.py:346 | joining the segments of a split with '/' gives back the original blob id |
| `PyStr.SplitJoin` | scripts/upload_gcs_to_bq.py:346 | splitting a '/'-join of '/'-free segments gives back exactly those segments |
| `PyStr.NatToDecimal` | scripts/upload_to_gcs.py:81 | `str(n)` is non-empty, all digits, ends in the digit of `n % 10`, and has no leading zero |
| `PyStr.ParseNatToDecimal` | scripts/upload_to_gcs.py:81 | reading `str(n)` back as a decimal number gives `n` |
| `PyStr.LastChars` | scripts/upload_to_gcs.py:82 | `s[-k:]` is a suffix of `s`: exactly `k` characters when `0 < k <= len(s)`, and all of `s` when `k` is 0 (`s[-0:]` is `s[0:]`) or exceeds `len(s)` |
| `PyStr.ReplaceAll` | scripts/upload_to_gcs.py:95 | `str.replace` for a non-empty pattern: a left-to-right scan replacing non-overlapping occurrences; `PyStr.ReplaceSuffixOnly` states what it does to the names the script passes |
| `PyStr.ReplaceSuffixOnly` | scripts/upload_to_gcs.py:95 | when the pattern occurs only as the suffix, `replace` swaps exactly that suffix and nothing else |
| `BqSchema.GreenNamesDistinct` | scripts/upload_gcs_to_bq.py:77-98 | the 20 green-taxi column names are pairwise distinct |
| `BqSchema.YellowNamesDistinct` | scripts/upload_gcs_to_bq.py:100-119 | the 18 yellow-taxi column names are pairwise distinct |
| `BqSchema.Lookup` | scripts/upload_gcs_to_bq.py:226-231 | non-empty exactly for `green_taxi` and `yellow_taxi`; green has 20 columns and yellow 18, both starting with (`VendorID`, `FLOAT64`); every other id gets the empty schema; names are always distinct and every type is a recognised BigQuery type |
| `BqSchema.DfTypeOf` | scripts/upload_gcs_to_bq.py:183-192 | the mapping is total: `FLOAT64`→float, `INT64`→int and `DATETIME`→dt, each if and only if; everything else, `STRING` included, →str |
| `BqSchema.DfTypeOfCanonical` | scripts/upload_gcs_to_bq.py:183-192 | each dataframe type comes from exactly one recognised BigQuery type, and the four tag strings are pairwise different |
| `BqSchema.BuildDfDtypes` | scripts/upload_gcs_to_bq.py:181-193 | one entry per input column, same order, same name, type given by the mapping |
| `BqSchema.BuildDfDtypesNames` | scripts/upload_gcs_to_bq.py:181-193 | the derived spec has exactly the schema's column names, so distinct names stay distinct |
| `BqSchema.BqSchemaFields` | scripts/upload_gcs_to_bq.py:245-249 | one `SchemaField` per entry, keeping length, order, names and types |
| `BqSchema.BqSchemaFieldsRoundTrip` | scripts/upload_gcs_to_bq.py:245-249 | reading the `SchemaField` list back as name/type entries gives the original schema |
| `TableCast.Coerce` | scripts/upload_gcs_to_bq.py:210-213 | `pd.to_datetime` for the dt tag and `astype(tag)` for every other; `TableCast.CastColumn` states its use |
| `TableCast.CastColumn` | scripts/upload_gcs_to_bq.py:210-213 | one step fails if and only if the column is missing or its conversion fails (`to_datetime` for dt, `astype` otherwise); on success only that column changes, to its converted form |
| `TableCast.Cast` | scripts/upload_gcs_to_bq.py:209-215 | the column set never changes; a spec column absent from the table always makes the cast fail; any error names a spec column; columns outside the spec pass through unchanged |
| `TableCast.CastDistinctSucceeds` | scripts/upload_gcs_to_bq.py:209-215 | with distinct spec names, the cast succeeds if and only if every named column is present and converts |
| `TableCast.CastDistinctValues` | scripts/upload_gcs_to_bq.py:209-215 | with distinct spec names, a successful cast leaves each named column holding the conversion of its original contents |
| `TableCast.CastEmptySpec` | scripts/upload_gcs_to_bq.py:209 | an empty spec, which an unknown table id yields, returns the table unchanged |
| `TableCast.CastIdempotent` | scripts/upload_gcs_to_bq.py:209-215 | with conversions that are settled on their own output, casting a cast table again changes nothing |
| `BqIngest.GcsUri` | scripts/upload_gcs_to_bq.py:276 | the f-string URI `gs://bucket/folder/name`; `BqIngest.GcsUriSplit` splits it back |
| `BqIngest.GcsUriSplit` | scripts/upload_gcs_to_bq.py:276 | the URI `gs://bucket/folder/name` splits back into its bucket, folder and name |
| `BqIngest.ParseBlobId` | scripts/upload_gcs_to_bq.py:346-348 | succeeds if and only if the blob id has at least two '/', otherwise fails as `IndexError` would; folder and name contain no '/' |
| `BqIngest.ParseBlobIdJoin` | scripts/upload_gcs_to_bq.py:346-348 | a blob id `bucket/folder/name[/...]` yields segment 1 as folder and segment 2 as name |
| `BqIngest.TableIdFor` | scripts/upload_gcs_to_bq.py:349 | the table id is the folder followed by `_taxi_test` |
| `BqIngest.TableIdForInjective` | scripts/upload_gcs_to_bq.py:349 | different folders give different table ids |
| `BqIngest.DriverTablesUnregistered` | scripts/upload_gcs_to_bq.py:226-231 | no table id the driver builds is a registry key, so the lookup always gives the empty schema |
| `BqIngest.PlanBlob` | scripts/upload_gcs_to_bq.py:345-356 | the split fails before the folder test; `fhv` is skipped if and only if it is the folder; any other folder is ingested into `folder + "_taxi_test"` |
| `BqIngest.WriteBlob` | scripts/upload_gcs_to_bq.py:270-301 | the job reads `gs://bucket/folder/name`, targets (dataset, table), appends, and carries the registry schema; without cleaning the frame passes through; with cleaning it succeeds if and only if the derived spec is castable, and then each schema column holds the conversion of its contents as read while every other column stays as read; an unregistered table loads the frame as read with an empty schema |
| `BqIngest.RunIngest` | scripts/upload_gcs_to_bq.py:345-356 | the run fails if and only if some blob id is malformed, and then reports the FIRST malformed id; the jobs are exactly those of the well-formed, non-`fhv` blobs before it, one per blob and in order, each reading `gs://bucket/folder/name` into `folder_taxi_test` in the given dataset (`IngestOutcome`); no job targets `fhv_taxi_test`; every job appends the frame as read with the empty schema |
| `BqIngest.IngestOutcomeUnique` | scripts/upload_gcs_to_bq.py:345-356 | the loop's outcome as `IngestOutcome` describes it (first malformed id, one job per earlier non-`fhv` blob in order, frame as read, empty schema) determines the run completely |
| `BqIngest.RunIgnoresClean` | scripts/upload_gcs_to_bq.py:226-231 | the loop produces the same run whether or not it asks for cleaning, because none of its table ids is registered |
| `BqIngest.MainRun` | scripts/upload_gcs_to_bq.py:340-356 | the script's own run (bucket `de-week4-data-lake` and dataset `ny_taxi` from lines 74-75, `clean_df=False`) equals the cleaning run, and every job goes to dataset `ny_taxi` and loads its frame as read, in the order and with the stopping point `IngestOutcome` fixes |
| `GcsUpload.PaddedDigits` | scripts/upload_to_gcs.py:81-82 | `('0' + str(n))[-2:]` is the tens digit followed by the units digit of `n` |
| `GcsUpload.PaddedValue` | scripts/upload_to_gcs.py:81-82 | that string has two digits and reads as `n` modulo 100 |
| `GcsUpload.MonthString` | scripts/upload_to_gcs.py:81-82 | the month for index `i` has exactly two digits and reads as `(i + 1)` modulo 100 |
| `GcsUpload.MonthStringInRange` | scripts/upload_to_gcs.py:77-82 | for the loop's indices 0..11 the month reads as `i + 1`, that is "01" to "12" |
| `GcsUpload.MonthStringInjective` | scripts/upload_to_gcs.py:81-82 | different indices below 100 give different month strings |
| `GcsUpload.ArchiveStemNoDot` | scripts/upload_to_gcs.py:85 | the archive name before `.csv.gz` contains no '.' when the service and year contain none |
| `GcsUpload.ParquetFileName` | scripts/upload_to_gcs.py:95 | `file_name.replace('.csv.gz', '.parquet')`; `GcsUpload.ParquetFileNameSuffix` and `GcsUpload.ParquetNameExact` state the result |
| `GcsUpload.ParquetFileNameSuffix` | scripts/upload_to_gcs.py:95 | a name whose only `.csv.gz` is its suffix becomes the same stem followed by `.parquet` |
| `GcsUpload.ParquetNameExact` | scripts/upload_to_gcs.py:85-95 | the parquet name is exactly `service + "_tripdata_" + year + "-" + month + ".parquet"` |
| `GcsUpload.PlanMonth` | scripts/upload_to_gcs.py:77-100 | the strings one loop iteration builds; `GcsUpload.PlanMonthStrings` states each of them |
| `GcsUpload.PlanMonthStrings` | scripts/upload_to_gcs.py:77-100 | one iteration builds a two-digit month reading `i + 1`; the archive name `service_tripdata_year-month.csv.gz`; the URL `init_url + service + "/" + file_name`; the local paths `data_dir/service/file_name` for the CSV and the parquet file; the object name `service/parquet_name` |
| `GcsUpload.ObjectNamesDistinct` | scripts/upload_to_gcs.py:100 | within one (service, year), two different month indices below 100 upload to different objects |
| `GcsUpload.WebToGcs` | scripts/upload_to_gcs.py:77-101 | exactly twelve iterations in order; the k-th handles month k + 1, so the month strings run "01" to "12" |
| `GcsUpload.WebToGcsDistinctObjects` | scripts/upload_to_gcs.py:77-100 | the twelve iterations for one (service, year) upload to twelve pairwise-distinct object names |
| `GcsUpload.DownloadRunsDistinct` | scripts/upload_to_gcs.py:116-120 | each of the entry point's five (year, service) runs uploads its twelve months to different objects |

## Left out

- Cloud clients are not modelled, because they are network SDK calls. This covers `get_gcs_client`, `get_bq_client`, `read_from_gcs` / `list_blobs`, `load_table_from_dataframe`, `load_job.result()` and `upload_to_gcs`. A load job is returned as a `LoadJob` value instead of being submitted, and the driver takes the list of blob ids as input.
- `pd.read_parquet(uri)` is the parameter `read: string -> Table<C>`, because reading a file is I/O.
- `BqIngest.MainRun` describes the module as if `scripts/upload_gcs_to_bq.py` line 234 read `bq_dtype: List[dict]`. As written, `List(dict)` is a call that is evaluated when the `def` runs (there is no `from __future__ import annotations`), and `typing.List(...)` raises `TypeError` on CPython before 3.14. So the script would stop while loading, before its `__main__` loop. The model describes the evidently intended subscript.
- `BqIngest.RunIngest` does not represent a failing `pd.read_parquet(uri)` or a failing `load_job.result()` (a load-job error). In the script either one raises and ends the loop. Here `read` is total and a load job is a value, so the only way the run stops is a malformed blob id.
- `BqIngest.WriteBlob` does not represent those two failures either. Its only error is a failed cast.
- A dataframe is a map from column name to column. pandas' column order and duplicate column labels are not represented. The cast looks columns up by name, and the loaded frame is only passed on, so neither matters to what is stated here.
- `requests.get`, the file writes, `pd.read_csv`, `df.to_parquet`, `make_service_dir`, `os.mkdir` and the data-directory check are I/O. Only the names and paths they receive are modelled.
- The meaning of `astype` and `pd.to_datetime` (numeric parsing, datetime format inference) is abstract. Floating-point and date parsing cannot be stated faithfully, so converting text such as "1.2" to a float is not modelled.
- The chunk-size overrides of `storage.blob` in `upload_to_gcs` are SDK tuning, so they are not modelled.
- Timing, the `print` calls and the row count in the final message are not modelled.
- The commented-out functions `write_blob_to_bq_table_pandas_gbq` and `write_to_bigquery` are not part of this model.
- The `GCP_GCS_BUCKET` environment variable and the unused `project_id` constant are not modelled. The upload bucket does not change any name the loop builds.
- `PyStr.ReplaceAll` handles only non-empty patterns. The script only replaces `.csv.gz`.
- `GcsUpload.ParquetNameExact` assumes the service and year contain no '.'. This is true of every value the entry point passes.
- `GcsUpload.PlanMonthStrings` assumes the same for its parquet-name clause only.
- `GcsUpload.ObjectNamesDistinct` assumes the service and year contain no '.', as every call from the entry point satisfies.
- `GcsUpload.WebToGcsDistinctObjects` assumes the service and year contain no '.', as every call from the entry point satisfies.
- `TableCast.CastIdempotent` holds only when each conversion is settled on its own output and the spec's names are distinct. pandas conversions are not modelled, so unconditional idempotence cannot be stated.
- `TableCast.CastDistinctSucceeds` and `TableCast.CastDistinctValues` assume distinct spec names. `BqSchema.Lookup` proves that every registry schema has them. With repeated names the source converts a column twice, which `TableCast.Cast` models but these lemmas do not describe.
