/** The ingest driver of `upload_gcs_to_bq.py`: splitting a blob id into
    folder and file name, the table id and `gs://` URI built from them, the
    `fhv` skip, the clean-or-pass-through decision of
    `write_blob_to_bq_table`, and the `__main__` loop over all blobs. Reading
    the parquet file is the parameter `read`; the load job is returned as a
    value instead of being submitted. */
module BqIngest {
  import opened Base
  import opened PyStr
  import opened BqSchema
  import opened TableCast

  const BucketName: string := "de-week4-data-lake"
  const DatasetId: string := "ny_taxi"
  const SkippedFolder: string := "fhv"
  const TableSuffix: string := "_taxi_test"

  /** The folder and file name taken from a blob id. */
  datatype BlobRef = BlobRef(folder: string, name: string)

  /** `dataset_ref.table(table_id)`. */
  datatype TableRef = TableRef(datasetId: string, tableId: string)

  /** `bigquery.WriteDisposition.WRITE_APPEND`, the only disposition the
      script uses. */
  datatype WriteDisposition = WriteAppend

  /** The arguments of `load_table_from_dataframe`: the frame, the target
      table and the job config's schema and write disposition, together with
      the URI the frame was read from. */
  datatype LoadJob<C> = LoadJob(
    source: string,
    table: TableRef,
    schema: seq<SchemaField>,
    frame: Table<C>,
    disposition: WriteDisposition)

  /** Why the run stops: a blob id with fewer than three '/'-separated
      segments (an `IndexError` in the source). A cast cannot fail in the
      loop, because the driver's table ids have the empty schema. */
  datatype IngestError = MalformedBlobId(blobId: string)

  /** `f'gs://{bucket_name}/{blob_folder}/{blob_name}'`. */
  function GcsUri(bucket: string, folder: string, name: string): string
  {
    "gs://" + bucket + "/" + folder + "/" + name
  }

  /** The URI splits back into its bucket, folder and name whenever these
      contain no '/'. */
  lemma GcsUriSplit(bucket: string, folder: string, name: string)
    requires Slash !in bucket && Slash !in folder && Slash !in name
    ensures Split(GcsUri(bucket, folder, name)) == ["gs:", "", bucket, folder, name]
  {
    var segs := ["gs:", "", bucket, folder, name];
    var tail := bucket + "/" + folder + "/" + name;
    assert Join(segs[2..]) == tail by {
      assert Join(segs[4..]) == name;
      assert Join(segs[3..]) == folder + "/" + name;
    }
    assert Join(segs) == "gs:" + [Slash] + ("" + [Slash] + tail);
    assert "gs:" + [Slash] + ("" + [Slash] + tail) == "gs://" + tail;
    assert GcsUri(bucket, folder, name) == "gs://" + tail;
    SplitJoin(segs);
  }

  /** `blob.id.split("/")` followed by `blob_split[1]` and `blob_split[2]`. */
  function ParseBlobId(blobId: string): (r: Result<BlobRef, IngestError>)
    ensures r.Ok? <==> SlashCount(blobId) >= 2
    ensures r.Err? ==> r.error == MalformedBlobId(blobId)
    ensures r.Ok? ==> Slash !in r.value.folder && Slash !in r.value.name
  {
    var segs := Split(blobId);
    if |segs| < 3 then Err(MalformedBlobId(blobId))
    else Ok(BlobRef(segs[1], segs[2]))
  }

  /** A blob id `bucket/folder/name[/...]` yields its second and third
      segments as folder and name. */
  lemma ParseBlobIdJoin(bucket: string, folder: string, name: string, rest: seq<string>)
    requires Slash !in bucket && Slash !in folder && Slash !in name
    requires forall k :: 0 <= k < |rest| ==> Slash !in rest[k]
    ensures ParseBlobId(Join([bucket, folder, name] + rest)) == Ok(BlobRef(folder, name))
  {
    var segs := [bucket, folder, name] + rest;
    SegmentsFreeOfSlash(bucket, folder, name, rest);
    SplitJoin(segs);
    ParseSplit(Join(segs), segs);
  }

  /** The segments of a blob id built from '/'-free parts are '/'-free. */
  lemma SegmentsFreeOfSlash(bucket: string, folder: string, name: string, rest: seq<string>)
    requires Slash !in bucket && Slash !in folder && Slash !in name
    requires forall k :: 0 <= k < |rest| ==> Slash !in rest[k]
    ensures forall k :: 0 <= k < |[bucket, folder, name] + rest| ==> Slash !in ([bucket, folder, name] + rest)[k]
  {
    var segs := [bucket, folder, name] + rest;
    forall k | 0 <= k < |segs| ensures Slash !in segs[k] {
      if k >= 3 {
        assert segs[k] == rest[k - 3];
      }
    }
  }

  /** Parsing reads the second and third segments of the split. */
  lemma ParseSplit(blobId: string, segs: seq<string>)
    requires Split(blobId) == segs && |segs| >= 3
    ensures ParseBlobId(blobId) == Ok(BlobRef(segs[1], segs[2]))
  {
  }

  /** `f"{blob_folder}_taxi_test"`. */
  function TableIdFor(folder: string): (tableId: string)
    ensures |tableId| == |folder| + |TableSuffix|
    ensures tableId[..|folder|] == folder
    ensures tableId[|folder|..] == TableSuffix
  {
    folder + TableSuffix
  }

  /** Different folders give different table ids. */
  lemma TableIdForInjective(f: string, g: string)
    ensures TableIdFor(f) == TableIdFor(g) ==> f == g
  {
  }

  /** The table ids the driver builds never name a registered schema, so in
      the driver's own run the registry always returns the empty schema. */
  lemma DriverTablesUnregistered(folder: string)
    ensures Lookup(TableIdFor(folder)) == []
  {
    var id := TableIdFor(folder);
    assert id[|id| - 1] == 't';
    assert GreenTaxiId[|GreenTaxiId| - 1] == 'i';
    assert YellowTaxiId[|YellowTaxiId| - 1] == 'i';
  }

  /** What the `__main__` loop does with one blob. */
  datatype Plan = Skip | Ingest(blob: BlobRef, tableId: string)

  /** The per-blob decision of the `__main__` loop. The split happens before
      the folder test, so a short id fails even if it would be skipped. */
  function PlanBlob(blobId: string): (r: Result<Plan, IngestError>)
    ensures r.Ok? <==> SlashCount(blobId) >= 2
    ensures r.Err? ==> r.error == MalformedBlobId(blobId)
    ensures r.Ok? ==> (r.value.Skip? <==> ParseBlobId(blobId).value.folder == SkippedFolder)
    ensures r.Ok? && r.value.Ingest? ==>
      && r.value.blob == ParseBlobId(blobId).value
      && r.value.blob.folder != SkippedFolder
      && r.value.tableId == r.value.blob.folder + TableSuffix
  {
    match ParseBlobId(blobId)
    case Err(e) => Err(e)
    case Ok(blob) =>
      if blob.folder == SkippedFolder then Ok(Skip)
      else Ok(Ingest(blob, TableIdFor(blob.folder)))
  }

  /** `write_blob_to_bq_table`: read the blob, cast it when `clean` is set,
      and prepare an appending load job whose schema comes from the
      registry. */
  function WriteBlob<C>(bucket: string, folder: string, name: string, datasetId: string,
                        tableId: string, clean: bool, read: string -> Table<C>,
                        co: Coercion<C>): (r: Result<LoadJob<C>, CastError>)
    ensures r.Ok? ==>
      && r.value.source == GcsUri(bucket, folder, name)
      && r.value.table == TableRef(datasetId, tableId)
      && r.value.disposition == WriteAppend
      && FieldDicts(r.value.schema) == Lookup(tableId)
      && r.value.frame.Keys == read(GcsUri(bucket, folder, name)).Keys
    ensures !clean ==> r.Ok? && r.value.frame == read(GcsUri(bucket, folder, name))
    ensures clean ==>
      (r.Ok? <==> Castable(read(GcsUri(bucket, folder, name)), BuildDfDtypes(Lookup(tableId)), co))
    ensures clean && r.Ok? ==> forall k :: 0 <= k < |Lookup(tableId)| ==>
      && Lookup(tableId)[k].name in read(GcsUri(bucket, folder, name))
      && Lookup(tableId)[k].name in r.value.frame
      && Coerce(co, DfTypeOf(Lookup(tableId)[k].bqType), read(GcsUri(bucket, folder, name))[Lookup(tableId)[k].name])
         == Some(r.value.frame[Lookup(tableId)[k].name])
    ensures r.Ok? ==> forall c :: c in read(GcsUri(bucket, folder, name)) && c !in BqNames(Lookup(tableId)) ==>
      c in r.value.frame && r.value.frame[c] == read(GcsUri(bucket, folder, name))[c]
    ensures Lookup(tableId) == [] ==>
      r.Ok? && r.value.frame == read(GcsUri(bucket, folder, name)) && r.value.schema == []
  {
    var schema := Lookup(tableId);
    var uri := GcsUri(bucket, folder, name);
    var df := read(uri);
    BuildDfDtypesNames(schema);
    CastDistinctSucceeds(df, BuildDfDtypes(schema), co);
    BqSchemaFieldsRoundTrip(schema);
    var spec := BuildDfDtypes(schema);
    var written := if clean then Cast(df, spec, co) else Ok(df);
    match written
    case Err(e) => Err(e)
    case Ok(frame) =>
      var job := LoadJob(uri, TableRef(datasetId, tableId), BqSchemaFields(schema), frame, WriteAppend);
      if clean then
        CastDistinctValues(df, spec, co);
        Ok(job)
      else Ok(job)
  }

  /** The outcome of the `__main__` loop: the load jobs issued, in order, and
      the error that stopped the loop, if any. Jobs issued before a failure
      stay issued; appends are not rolled back. */
  datatype Run<C> = Run(jobs: seq<LoadJob<C>>, failure: Option<IngestError>)

  /** Index of the first blob id with fewer than two '/', or the number of
      ids when every one is well formed. */
  function FirstMalformed(blobIds: seq<string>): (m: nat)
    ensures m <= |blobIds|
    ensures forall i :: 0 <= i < m ==> SlashCount(blobIds[i]) >= 2
    ensures m < |blobIds| ==> SlashCount(blobIds[m]) < 2
    decreases |blobIds|
  {
    if |blobIds| == 0 || SlashCount(blobIds[0]) < 2 then 0
    else
      var m := 1 + FirstMalformed(blobIds[1..]);
      assert forall i :: 1 <= i < m ==> blobIds[i] == blobIds[1..][i - 1];
      m
  }

  /** The blob one id contributes to the loop's loads: none when the id is
      malformed or in the skipped folder, its folder and name otherwise. */
  function Loaded(blobId: string): (blobs: seq<BlobRef>)
    ensures |blobs| == 1 <==> PlanBlob(blobId).Ok? && PlanBlob(blobId).value.Ingest?
    ensures |blobs| == 1 ==> blobs[0] == PlanBlob(blobId).value.blob
    ensures |blobs| <= 1
  {
    match PlanBlob(blobId)
    case Ok(Ingest(blob, _)) => [blob]
    case _ => []
  }

  /** The blobs the loop loads, in order: each well-formed id outside the
      skipped folder, as it splits into folder and name. */
  function IngestBlobs(blobIds: seq<string>): (blobs: seq<BlobRef>)
    ensures |blobs| <= |blobIds|
    ensures forall j :: 0 <= j < |blobs| ==> blobs[j].folder != SkippedFolder
    decreases |blobIds|
  {
    if |blobIds| == 0 then []
    else
      Loaded(blobIds[0]) + IngestBlobs(blobIds[1..])
  }

  /** `jobs` are the load jobs for `blobs`, one each and in the same order:
      each reads its blob's URI and targets the table named after its
      folder. */
  predicate JobsFor<C>(jobs: seq<LoadJob<C>>, bucket: string, datasetId: string, blobs: seq<BlobRef>)
  {
    && |jobs| == |blobs|
    && forall j :: 0 <= j < |jobs| ==>
         && jobs[j].source == GcsUri(bucket, blobs[j].folder, blobs[j].name)
         && jobs[j].table == TableRef(datasetId, TableIdFor(blobs[j].folder))
  }

  /** Prefixing the job of one more blob keeps the correspondence. */
  lemma JobsForCons<C>(job: LoadJob<C>, jobs: seq<LoadJob<C>>, bucket: string, datasetId: string,
                       blob: BlobRef, blobs: seq<BlobRef>)
    requires JobsFor(jobs, bucket, datasetId, blobs)
    requires job.source == GcsUri(bucket, blob.folder, blob.name)
    requires job.table == TableRef(datasetId, TableIdFor(blob.folder))
    ensures JobsFor([job] + jobs, bucket, datasetId, [blob] + blobs)
  {
    var js, bs := [job] + jobs, [blob] + blobs;
    forall j | 1 <= j < |js|
      ensures js[j].source == GcsUri(bucket, bs[j].folder, bs[j].name)
      ensures js[j].table == TableRef(datasetId, TableIdFor(bs[j].folder))
    {
      assert js[j] == jobs[j - 1] && bs[j] == blobs[j - 1];
    }
  }

  /** No id is malformed exactly when the first malformed index is past
      the end. */
  lemma FirstMalformedNone(blobIds: seq<string>)
    ensures FirstMalformed(blobIds) == |blobIds| <==> forall k :: 0 <= k < |blobIds| ==> SlashCount(blobIds[k]) >= 2
  {
  }

  /** A well-formed head moves the first malformed id one place on. */
  lemma FirstMalformedStep(blobIds: seq<string>)
    requires |blobIds| > 0 && SlashCount(blobIds[0]) >= 2
    ensures FirstMalformed(blobIds) == 1 + FirstMalformed(blobIds[1..])
  {
  }

  /** The blobs loaded before the first malformed id: a well-formed head
      contributes its own blob, if any, ahead of those of the tail. */
  lemma IngestPrefixStep(blobIds: seq<string>)
    requires |blobIds| > 0 && SlashCount(blobIds[0]) >= 2
    ensures IngestBlobs(blobIds[..1 + FirstMalformed(blobIds[1..])])
      == Loaded(blobIds[0]) + IngestBlobs(blobIds[1..][..FirstMalformed(blobIds[1..])])
  {
    var m := FirstMalformed(blobIds[1..]);
    var pre := blobIds[..1 + m];
    assert pre[1..] == blobIds[1..][..m];
  }

  /** What the `__main__` loop leaves behind for `blobIds`: it stops at the
      first malformed id, if any, and reports that id; before it, every
      ingestible blob got its load job, in order, appending the frame as
      read under the empty schema to a table other than `fhv_taxi_test`. */
  ghost predicate IngestOutcome<C>(r: Run<C>, bucket: string, datasetId: string, blobIds: seq<string>,
                             read: string -> Table<C>)
  {
    && (r.failure.None? <==> FirstMalformed(blobIds) == |blobIds|)
    && (r.failure.Some? ==>
          FirstMalformed(blobIds) < |blobIds| && r.failure.value == MalformedBlobId(blobIds[FirstMalformed(blobIds)]))
    && JobsFor(r.jobs, bucket, datasetId, IngestBlobs(blobIds[..FirstMalformed(blobIds)]))
    && forall j :: 0 <= j < |r.jobs| ==>
         && r.jobs[j].table.tableId != SkippedFolder + TableSuffix
         && r.jobs[j].disposition == WriteAppend
         && r.jobs[j].schema == []
         && r.jobs[j].frame == read(r.jobs[j].source)
  }

  /** A skipped head leaves the outcome of the tail unchanged. */
  lemma SkipStep<C>(r: Run<C>, bucket: string, datasetId: string, blobIds: seq<string>,
                    read: string -> Table<C>)
    requires |blobIds| > 0 && PlanBlob(blobIds[0]) == Ok(Skip)
    requires IngestOutcome(r, bucket, datasetId, blobIds[1..], read)
    ensures IngestOutcome(r, bucket, datasetId, blobIds, read)
  {
    FirstMalformedStep(blobIds);
    IngestPrefixStep(blobIds);
  }

  /** An ingested head puts its job in front of the tail's jobs. */
  lemma IngestStep<C>(job: LoadJob<C>, r: Run<C>, bucket: string, datasetId: string,
                      blobIds: seq<string>, read: string -> Table<C>)
    requires |blobIds| > 0 && PlanBlob(blobIds[0]).Ok? && PlanBlob(blobIds[0]).value.Ingest?
    requires job.source == GcsUri(bucket, PlanBlob(blobIds[0]).value.blob.folder, PlanBlob(blobIds[0]).value.blob.name)
    requires job.table == TableRef(datasetId, TableIdFor(PlanBlob(blobIds[0]).value.blob.folder))
    requires job.disposition == WriteAppend && job.schema == [] && job.frame == read(job.source)
    requires IngestOutcome(r, bucket, datasetId, blobIds[1..], read)
    ensures IngestOutcome(Run([job] + r.jobs, r.failure), bucket, datasetId, blobIds, read)
  {
    var blob := PlanBlob(blobIds[0]).value.blob;
    FirstMalformedStep(blobIds);
    IngestPrefixStep(blobIds);
    TableIdForInjective(blob.folder, SkippedFolder);
    JobsForCons(job, r.jobs, bucket, datasetId, blob, IngestBlobs(blobIds[1..][..FirstMalformed(blobIds[1..])]));
    var jobs := [job] + r.jobs;
    forall j | 1 <= j < |jobs|
      ensures jobs[j].table.tableId != SkippedFolder + TableSuffix
      ensures jobs[j].disposition == WriteAppend && jobs[j].schema == [] && jobs[j].frame == read(jobs[j].source)
    {
      assert jobs[j] == r.jobs[j - 1];
    }
  }

  /** The `__main__` loop: blobs are handled one after another; `fhv` blobs
      are skipped, every other blob gets a load job, and the first malformed
      id ends the run, after the jobs of all earlier blobs were issued.
      Because the driver's table ids are never registered, every job
      carries the empty schema and the frame exactly as read, whether or
      not `clean` is set. */
  function RunIngest<C>(bucket: string, datasetId: string, blobIds: seq<string>, clean: bool,
                        read: string -> Table<C>, co: Coercion<C>): (r: Run<C>)
    ensures r.failure.None? <==> forall k :: 0 <= k < |blobIds| ==> SlashCount(blobIds[k]) >= 2
    ensures IngestOutcome(r, bucket, datasetId, blobIds, read)
    decreases |blobIds|
  {
    FirstMalformedNone(blobIds);
    if |blobIds| == 0 then Run([], None)
    else
      match PlanBlob(blobIds[0])
      case Err(e) =>
        assert blobIds[..0] == [];
        Run([], Some(e))
      case Ok(Skip) =>
        var tail := RunIngest(bucket, datasetId, blobIds[1..], clean, read, co);
        SkipStep(tail, bucket, datasetId, blobIds, read);
        tail
      case Ok(Ingest(blob, tableId)) =>
        DriverTablesUnregistered(blob.folder);
        var job := WriteBlob(bucket, blob.folder, blob.name, datasetId, tableId, clean, read, co).value;
        var tail := RunIngest(bucket, datasetId, blobIds[1..], clean, read, co);
        IngestStep(job, tail, bucket, datasetId, blobIds, read);
        Run([job] + tail.jobs, tail.failure)
  }

  /** `IngestOutcome` pins the run completely: two runs meeting it for the
      same inputs are equal. */
  lemma IngestOutcomeUnique<C>(a: Run<C>, b: Run<C>, bucket: string, datasetId: string,
                               blobIds: seq<string>, read: string -> Table<C>)
    requires IngestOutcome(a, bucket, datasetId, blobIds, read)
    requires IngestOutcome(b, bucket, datasetId, blobIds, read)
    ensures a == b
  {
  }

  /** Whether or not the loop asks for cleaning, it produces the same run:
      no table id the driver builds has a registered schema. */
  lemma RunIgnoresClean<C>(bucket: string, datasetId: string, blobIds: seq<string>,
                           read: string -> Table<C>, co: Coercion<C>)
    ensures RunIngest(bucket, datasetId, blobIds, true, read, co)
         == RunIngest(bucket, datasetId, blobIds, false, read, co)
  {
    IngestOutcomeUnique(RunIngest(bucket, datasetId, blobIds, true, read, co),
                        RunIngest(bucket, datasetId, blobIds, false, read, co),
                        bucket, datasetId, blobIds, read);
  }

  /** The script's own run: the fixed bucket and dataset, no cleaning. */
  function MainRun<C>(blobIds: seq<string>, read: string -> Table<C>, co: Coercion<C>): (r: Run<C>)
    ensures r == RunIngest(BucketName, DatasetId, blobIds, true, read, co)
    ensures IngestOutcome(r, BucketName, DatasetId, blobIds, read)
    ensures forall j :: 0 <= j < |r.jobs| ==>
      && r.jobs[j].table.datasetId == DatasetId
      && r.jobs[j].frame == read(r.jobs[j].source)
  {
    RunIgnoresClean(BucketName, DatasetId, blobIds, read, co);
    RunIngest(BucketName, DatasetId, blobIds, false, read, co)
  }
}
