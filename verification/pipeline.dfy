/**
 * `process_all`: select the files, stop early when there are none, run one
 * extraction per file, and feed the outcomes, in the order they complete,
 * through the batching loop; every flushed batch becomes one insert.
 */
module Pipeline {
  import opened Wrappers
  import opened Seqs
  import opened ContractSchema
  import opened FileSelection
  import opened Extraction
  import opened BigQueryRows
  import opened Batching

  /** `order` lists every file index exactly once: the order in which the extractions complete. */
  predicate IsCompletionOrder(order: seq<nat>, n: nat) {
    && |order| == n
    && (forall i :: 0 <= i < n ==> order[i] < n)
    && (forall i, j :: 0 <= i < j < n ==> order[i] != order[j])
  }

  /** The extraction outcomes in completion order; `ids(k)` is the identifier generated for `files[k]`. */
  function Outcomes(
    files: seq<string>,
    order: seq<nat>,
    service: Request -> Reply,
    decode: string -> Option<ContractExtraction>,
    ids: nat -> string): (r: seq<Option<Contract>>)
    requires forall i :: 0 <= i < |order| ==> order[i] < |files|
    ensures |r| == |order|
    ensures forall i :: 0 <= i < |order| && r[i].Some? ==>
      r[i].value.filePath == files[order[i]] && r[i].value.contractId == ids(order[i])
  {
    seq(|order|, i requires 0 <= i < |order| => ExtractContract(files[order[i]], service, decode, ids(order[i])))
  }

  /** Every successful record belongs to one of the processed files and carries that file's identifier. */
  lemma SuccessesFromFiles(
    files: seq<string>,
    order: seq<nat>,
    service: Request -> Reply,
    decode: string -> Option<ContractExtraction>,
    ids: nat -> string,
    rec: Contract)
    requires forall i :: 0 <= i < |order| ==> order[i] < |files|
    requires rec in Successes(Outcomes(files, order, service, decode, ids))
    ensures exists k :: 0 <= k < |files| && rec.filePath == files[k] && rec.contractId == ids(k)
  {
    var outcomes := Outcomes(files, order, service, decode, ids);
    var i :| 0 <= i < |outcomes| && outcomes[i] == Some(rec);
    var k := order[i];
    assert 0 <= k < |files| && rec.filePath == files[k] && rec.contractId == ids(k);
  }

  /** What a run did: nothing at all, or the batches it flushed and the inserts those became. */
  datatype Report =
    | NothingToProcess
    | Completed(
        total: nat,
        successful: nat,
        loopBatches: seq<seq<Contract>>,
        finalBatch: seq<Contract>,
        inserts: seq<InsertResult>)

  function InsertWith(warehouse: seq<seq<(Field, Cell)>> -> bool): seq<Contract> -> InsertResult {
    batch => InsertBatch(batch, warehouse)
  }

  /** The batches handed to `insert_batch`, in order: the loop's flushes, then a non-empty remainder. */
  function Flushes(loopBatches: seq<seq<Contract>>, finalBatch: seq<Contract>): seq<seq<Contract>> {
    loopBatches + (if finalBatch == [] then [] else [finalBatch])
  }

  /**
   * The inserts of a run, one per flushed batch and in flush order. None is
   * skipped as empty, and none feeds back into the batching.
   */
  method InsertAll(
    loopBatches: seq<seq<Contract>>,
    finalBatch: seq<Contract>,
    warehouse: seq<seq<(Field, Cell)>> -> bool)
    returns (inserts: seq<InsertResult>)
    requires forall i :: 0 <= i < |loopBatches| ==> loopBatches[i] != []
    ensures var flushes := Flushes(loopBatches, finalBatch);
      && |inserts| == |flushes|
      && (forall i :: 0 <= i < |flushes| ==> inserts[i] == InsertBatch(flushes[i], warehouse))
      && (forall i :: 0 <= i < |flushes| ==> inserts[i].Sent?)
  {
    inserts := Map(InsertWith(warehouse), loopBatches);
    if finalBatch != [] {
      inserts := inserts + [InsertBatch(finalBatch, warehouse)];
    }
  }

  /**
   * What a run over `files` reports when the extractions complete in
   * `order`: every file counted, the successes split in completion order
   * into full batches plus a smaller remainder, and one insert per flushed
   * batch.
   */
  predicate IsRunOf(
    report: Report,
    files: seq<string>,
    order: seq<nat>,
    service: Request -> Reply,
    decode: string -> Option<ContractExtraction>,
    ids: nat -> string,
    batchSize: int,
    warehouse: seq<seq<(Field, Cell)>> -> bool)
    requires IsCompletionOrder(order, |files|)
  {
    var successes := Successes(Outcomes(files, order, service, decode, ids));
    && report.Completed?
    && report.total == |files|
    && report.successful == |successes|
    && Flatten(report.loopBatches) + report.finalBatch == successes
    && (forall i :: 0 <= i < |report.loopBatches| ==> |report.loopBatches[i]| == Threshold(batchSize))
    && |report.finalBatch| < Threshold(batchSize)
    && report.loopBatches == Chunks(successes, Threshold(batchSize))
    && var flushes := Flushes(report.loopBatches, report.finalBatch);
    && |report.inserts| == |flushes|
    && (forall i :: 0 <= i < |flushes| ==> report.inserts[i] == InsertBatch(flushes[i], warehouse))
    && (forall i :: 0 <= i < |flushes| ==> report.inserts[i].Sent?)
  }

  /** Every record a run inserts belongs to one of its files and carries that file's identifier. */
  lemma RunRecordsFromFiles(
    report: Report,
    files: seq<string>,
    order: seq<nat>,
    service: Request -> Reply,
    decode: string -> Option<ContractExtraction>,
    ids: nat -> string,
    batchSize: int,
    warehouse: seq<seq<(Field, Cell)>> -> bool)
    requires IsCompletionOrder(order, |files|)
    requires IsRunOf(report, files, order, service, decode, ids, batchSize, warehouse)
    ensures report.successful <= report.total
    ensures forall rec :: rec in Flatten(report.loopBatches) + report.finalBatch ==>
      exists k :: 0 <= k < |files| && rec.filePath == files[k] && rec.contractId == ids(k)
  {
    forall rec | rec in Flatten(report.loopBatches) + report.finalBatch
      ensures exists k :: 0 <= k < |files| && rec.filePath == files[k] && rec.contractId == ids(k)
    {
      SuccessesFromFiles(files, order, service, decode, ids, rec);
    }
  }

  /**
   * One run of the pipeline. The bucket listing, the processed-path query,
   * the model, the decoder and the warehouse are inputs; so are `ids`, the
   * identifier generated for the k-th file, and `order`, the completion
   * order of `n` extractions submitted together.
   */
  method ProcessAll(
    bucket: string,
    names: seq<string>,
    skipProcessed: bool,
    query: ProcessedQuery,
    service: Request -> Reply,
    decode: string -> Option<ContractExtraction>,
    ids: nat -> string,
    order: nat -> seq<nat>,
    batchSize: int,
    warehouse: seq<seq<(Field, Cell)>> -> bool)
    returns (report: Report)
    requires forall n :: IsCompletionOrder(order(n), n)
    ensures report.NothingToProcess? <==> GetGcsFiles(bucket, names, skipProcessed, query) == []
    ensures report.Completed? ==>
      var files := GetGcsFiles(bucket, names, skipProcessed, query);
      IsRunOf(report, files, order(|files|), service, decode, ids, batchSize, warehouse)
  {
    var files := GetGcsFiles(bucket, names, skipProcessed, query);
    if files == [] {
      return NothingToProcess;
    }
    var outcomes := Outcomes(files, order(|files|), service, decode, ids);
    var loopBatches, finalBatch, successful := CollectBatches(outcomes, batchSize);
    var inserts := InsertAll(loopBatches, finalBatch, warehouse);
    report := Completed(|files|, successful, loopBatches, finalBatch, inserts);
  }
}
