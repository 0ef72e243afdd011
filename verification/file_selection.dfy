/**
 * Choosing the files to process: the suffix filter over the bucket listing,
 * the `gs://` URI of each kept object, and the removal of files whose path
 * already appears in the destination table.
 */
module FileSelection {
  import opened Wrappers
  import opened Seqs
  import opened Text

  /** The suffixes, compared against the lower-cased object name, that mark a contract document. */
  const ContractSuffixes: seq<string> := [".htm", ".html", ".pdf", ".txt"]

  predicate IsContractFile(name: string) {
    exists i :: 0 <= i < |ContractSuffixes| && EndsWith(Lower(name), ContractSuffixes[i])
  }

  /** The URI under which an object of the bucket is handed to the model. */
  function GcsUri(bucket: string, name: string): string {
    "gs://" + bucket + "/" + name
  }

  function UriIn(bucket: string): string -> string {
    name => GcsUri(bucket, name)
  }

  /** Within one bucket, distinct object names give distinct URIs. */
  lemma GcsUriInjective(bucket: string, a: string, b: string)
    requires GcsUri(bucket, a) == GcsUri(bucket, b)
    ensures a == b
  {
    var n := |"gs://" + bucket + "/"|;
    assert a == GcsUri(bucket, a)[n..];
    assert b == GcsUri(bucket, b)[n..];
  }

  /** The URIs of the listed objects that are contract documents, in listing order. */
  function ListContractFiles(bucket: string, names: seq<string>): (r: seq<string>)
    ensures |r| <= |names|
    ensures forall u :: u in r <==> exists n :: n in names && IsContractFile(n) && u == GcsUri(bucket, n)
  {
    var kept := Filter(IsContractFile, names);
    var r := Map(UriIn(bucket), kept);
    assert forall n :: n in kept ==> GcsUri(bucket, n) in r by {
      forall n | n in kept ensures GcsUri(bucket, n) in r {
        var i :| 0 <= i < |kept| && kept[i] == n;
        assert r[i] == GcsUri(bucket, n);
      }
    }
    r
  }

  /** An object listed alone yields its URI exactly when it is a contract document. */
  lemma ListContractFilesSingle(bucket: string, name: string)
    ensures ListContractFiles(bucket, [name]) == if IsContractFile(name) then [GcsUri(bucket, name)] else []
  {
    assert [name][1..] == [];
  }

  /** Listing order is kept: the files of two consecutive listing pages are the two pages' files in turn. */
  lemma ListContractFilesConcat(bucket: string, a: seq<string>, b: seq<string>)
    ensures ListContractFiles(bucket, a + b) == ListContractFiles(bucket, a) + ListContractFiles(bucket, b)
  {
    FilterConcat(IsContractFile, a, b);
    MapConcat(UriIn(bucket), Filter(IsContractFile, a), Filter(IsContractFile, b));
  }

  /** What the query for already-processed paths gave: the paths, or an error. */
  datatype ProcessedQuery = Paths(filePaths: seq<string>) | QueryFailed

  /** The processed paths; a failed query is logged and treated as no paths at all. */
  function ProcessedFiles(query: ProcessedQuery): seq<string> {
    match query
    case Paths(ps) => ps
    case QueryFailed => []
  }

  function Unprocessed(processed: set<string>): string -> bool {
    f => f !in processed
  }

  /** The files not in `processed`, in their original order. */
  function RemoveProcessed(all: seq<string>, processed: set<string>): (r: seq<string>)
    ensures |r| <= |all|
    ensures forall f :: f in r <==> f in all && f !in processed
    ensures forall f :: multiset(r)[f] == if f in processed then 0 else multiset(all)[f]
    ensures IsSubsequence(r, all)
    ensures processed == {} ==> r == all
  {
    var r := Filter(Unprocessed(processed), all);
    FilterIsSubsequence(Unprocessed(processed), all);
    assert processed == {} ==> r == all by {
      if processed == {} {
        FilterKeepsAll(Unprocessed(processed), all);
      }
    }
    r
  }

  /**
   * The files to process: every contract document of the listing and, when
   * skipping is on, only those whose URI is not among the processed paths.
   */
  function GetGcsFiles(bucket: string, names: seq<string>, skipProcessed: bool, query: ProcessedQuery): (r: seq<string>)
    ensures var all := ListContractFiles(bucket, names);
      |r| <= |all|
    ensures !skipProcessed || ProcessedFiles(query) == [] ==> r == ListContractFiles(bucket, names)
    ensures skipProcessed && query.Paths? ==>
      forall f :: f in r <==> f in ListContractFiles(bucket, names) && f !in query.filePaths
    ensures skipProcessed && query.Paths? ==>
      forall f :: multiset(r)[f] == if f in query.filePaths then 0 else multiset(ListContractFiles(bucket, names))[f]
  {
    var all := ListContractFiles(bucket, names);
    if skipProcessed then
      var processed := set p | p in ProcessedFiles(query);
      assert ProcessedFiles(query) == [] ==> processed == {};
      RemoveProcessed(all, processed)
    else
      all
  }

  /** The files to process keep the listing order. */
  lemma GetGcsFilesKeepsOrder(bucket: string, names: seq<string>, skipProcessed: bool, query: ProcessedQuery)
    ensures IsSubsequence(GetGcsFiles(bucket, names, skipProcessed, query), ListContractFiles(bucket, names))
  {
    if !skipProcessed {
      SubsequenceReflexive(ListContractFiles(bucket, names));
    }
  }
}
