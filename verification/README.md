# Contract ingestion pipeline, modelled in Dafny

This project models the deterministic core of the contract-extraction script
`src/ingestion/extraction.py`. The script lists contract documents in a
Google Cloud Storage bucket. It asks a Gemini model to extract structured
fields from each document. It then writes the results to a BigQuery table in
batches. Every call to a cloud service is replaced by an input value. What
remains is a sequence of pure decisions and one fold, and each of them is
stated and proved here:

- **File selection.** Object names are kept when their lower-cased form ends
  in `.htm`, `.html`, `.pdf` or `.txt`. Each kept name becomes
  `gs://<bucket>/<name>`. Paths already present in the table are then
  removed, keeping the listing order. A failed lookup removes nothing.
- **MIME choice.** A file is sent to the model as `application/pdf`,
  `text/plain` or `text/html`, chosen by its case-insensitive suffix.
- **Reply clean-up.** The reply is stripped of surrounding whitespace. If it
  then starts and ends with a ``` fence, its first and last lines are dropped.
- **Extraction outcome.** A success is a `Contract` carrying the generated id
  and the file's URI. Any failure gives no record.
- **Row formatting.** Each contract becomes one warehouse row. None values
  are left out, scalars become strings, and `parties`/`clauses` keep only
  their non-empty items.
- **The batching loop of `process_all`.** Outcomes are taken in completion
  order. Successes are buffered, and the buffer is flushed whenever it
  reaches `batch_size`. The remainder is flushed at the end, and successes
  are counted.

Files, one module each: `wrappers.dfy` (Option), `seqs.dfy` (filter, map,
flatten, subsequence), `text.dfy` (lower-casing, `startswith`/`endswith`,
`strip`, `split`/`join`), `contract_schema.dfy` (the record),
`file_selection.dfy`, `extraction.dfy`, `bigquery_rows.dfy`,
`batching.dfy`, `pipeline.dfy`.

Inputs that stand for the outside world:

- The bucket listing is `names`.
- The processed-path query is a `ProcessedQuery`, either `Paths` or `QueryFailed`.
- The Gemini call is `service: Request -> Reply`.
- `json.loads` plus pydantic validation is `decode: string -> Option<ContractExtraction>`.
- The UUIDs are `ids`, where `ids(k)` is the id generated for the k-th file.
- The thread pool's completion order is `order`, where `order(n)` is a permutation of the indices of `n` submitted files.
- `insert_rows_json` is `warehouse`, which returns false for errors or an exception.

Three behaviours of the code are modelled as written:

- An insert error is only logged (`extraction.py:212-219`), and the buffer
  is reset after the insert whatever its outcome (`extraction.py:249`).
- The table columns are `state_of_incorp` and `contract_category`
  (`extraction.py:179-180`).
- A batch size of zero or less is not rejected. The test
  `len(batch) >= batch_size` (`extraction.py:247`) then flushes after every
  record, and `Batching.Threshold` models that explicitly.

## Model

| member | source | states |
|---|---|---|
| FileSelection.ListContractFiles | src/ingestion/extraction.py:101-104 | a URI is listed iff it is `gs://bucket/name` for a listed name whose lower-cased form ends in one of the four suffixes; never more URIs than names |
| FileSelection.ListContractFilesSingle | src/ingestion/extraction.py:102-104 | a single object yields exactly its URI, with the name's original case, when it is a contract document, and nothing otherwise |
| FileSelection.ListContractFilesConcat | src/ingestion/extraction.py:101-104 | listing order is kept: the files of a concatenated listing are the two parts' files in turn |
| FileSelection.GcsUriInjective | src/ingestion/extraction.py:104 | within one bucket, distinct object names give distinct URIs |
| FileSelection.RemoveProcessed | src/ingestion/extraction.py:109-110 | the result is an order-preserving subsequence holding exactly the files not in the processed set, each as many times as in the input; with an empty set it is the whole list |
| FileSelection.GetGcsFiles | src/ingestion/extraction.py:86-116 | with skipping off, or when the query fails or returns no paths, all contract files are returned; with skipping on and a successful query, exactly those whose URI is not a processed path, each as many times as it is listed; the result never exceeds the full list, so the skipped count is non-negative |
| FileSelection.GetGcsFilesKeepsOrder | src/ingestion/extraction.py:101-116 | the files to process are a subsequence of the contract files, in listing order |
| Extraction.MimeType | src/ingestion/extraction.py:121-126 | `application/pdf` iff the lower-cased path ends in `.pdf`, `text/plain` iff it ends in `.txt`, `text/html` iff neither |
| Extraction.HtmlFilesAreHtml | src/ingestion/extraction.py:122-126 | `.htm` and `.html` files are sent as `text/html` |
| Text.Strip | src/ingestion/extraction.py:145 | the stripped reply neither starts nor ends with whitespace, is empty iff the reply is all whitespace, and is the reply itself when that has no whitespace at either end |
| Text.LeadingSpaces | src/ingestion/extraction.py:145 | the count of leading characters that `str.strip` removes: all of them are whitespace, and the next character, if any, is not |
| Text.StripSlice | src/ingestion/extraction.py:145 | the stripped reply is the reply's slice that starts right after its leading whitespace, and everything after that slice is whitespace, so `strip` removes exactly the leading and trailing whitespace |
| Text.JoinSplit | src/ingestion/extraction.py:147 | splitting on a separator and joining back gives the original text |
| Text.SplitJoin | src/ingestion/extraction.py:147 | joining separator-free lines and splitting again gives the lines back |
| Extraction.DropOuterLinesBetween | src/ingestion/extraction.py:146-147 | for a fenced reply with two or more newlines, the cleaned text is exactly what lies between the first and the last newline |
| Extraction.DropOuterLinesFewNewlines | src/ingestion/extraction.py:146-147 | for a fenced reply with at most one newline, the cleaned text is empty |
| Extraction.LoneFenceIsEmpty | src/ingestion/extraction.py:146-147 | a reply that is a lone fence becomes the empty text |
| Extraction.FencedReply | src/ingestion/extraction.py:145-147 | a reply made of a fence line with any newline-free tag, a body, a newline and a closing fence gives back exactly the body, whatever newlines the body holds |
| Extraction.ExtractContract | src/ingestion/extraction.py:118-164 | a record is produced iff the model call succeeds and the cleaned reply decodes; the record carries the decoded fields, the input path as `file_path` and the given `contract_id`; any failure yields None |
| BigQueryRows.FindInDump | src/ingestion/extraction.py:154-160 | the dumped contract holds every schema key, with the extracted fields plus `contract_id` and `file_path` |
| BigQueryRows.FindFormatFields | src/ingestion/extraction.py:204-209 | looking a key up in a formatted row gives the formatted value of that key in the input row, or nothing if the input lacks it |
| BigQueryRows.FormatRow | src/ingestion/extraction.py:203-210 | columns appear in dump order, each at most once; a None field is absent; every other scalar is its string; `parties` and `clauses` are lists of their non-empty items |
| BigQueryRows.NonEmptyItems | src/ingestion/extraction.py:207 | list items are kept iff non-empty, in their original order, each non-empty item as many times as in the input |
| BigQueryRows.FormatRows | src/ingestion/extraction.py:202-210 | exactly one row per contract, in the same order |
| BigQueryRows.InsertBatch | src/ingestion/extraction.py:193-219 | an empty batch sends nothing; otherwise one request carries one formatted row per record, and its outcome is only reported |
| Batching.Successes | src/ingestion/extraction.py:241-244 | the successes are exactly the records of non-None outcomes, never more than the outcomes |
| Batching.SuccessesAppend | src/ingestion/extraction.py:241-244 | one more completed outcome appends its record, if any, at the end |
| Batching.Threshold | src/ingestion/extraction.py:247 | the flush threshold is `batch_size` when that is at least 1, and 1 otherwise, as `len(batch) >= batch_size` behaves |
| Batching.ChunksCover | src/ingestion/extraction.py:246-255 | full chunks followed by the leftover make up the sequence again; chunks are full and the leftover is not |
| Batching.ChunksUnique | src/ingestion/extraction.py:246-255 | any split into full batches and a short remainder that concatenates to the successes is the chunking |
| Batching.CollectBatches | src/ingestion/extraction.py:233-254 | the in-loop flushes followed by the remaining buffer concatenate to the successes in completion order; every in-loop flush has exactly the threshold's size; the remainder is smaller; the count equals the number of successes and is at most the number of outcomes |
| Pipeline.Outcomes | src/ingestion/extraction.py:236-241 | one outcome per completed extraction; the i-th, when a record, belongs to the file `order[i]` and carries that file's id |
| Pipeline.SuccessesFromFiles | src/ingestion/extraction.py:155-156 | every successful record's `file_path` is one of the processed files, and its id is that file's id |
| Pipeline.InsertAll | src/ingestion/extraction.py:246-255 | one insert per flushed batch, in flush order; no insert is skipped for emptiness; the warehouse's answer never feeds back into batching |
| Pipeline.ProcessAll | src/ingestion/extraction.py:221-255 | an empty file list ends the run with nothing extracted and no insert; otherwise every selected file is counted, the flushes partition the successes in completion order into full batches plus a smaller final one, the count of successes is reported, and each flush becomes one sent insert |
| Pipeline.RunRecordsFromFiles | src/ingestion/extraction.py:236-255 | in such a run, every inserted record belongs to a selected file and carries that file's id, and there are no more successes than files |

## Left out

- Google Cloud Storage, BigQuery and Gemini clients: the listing, the processed-path query, `insert_rows_json` and `generate_content` are I/O. They become inputs (`names`, `ProcessedQuery`, `warehouse`, `service`).
- `create_table` (`extraction.py:166-190`): I/O whose only effect is on the warehouse, and nothing the loop reads depends on it. It is not modelled; a `Completed` report says only that a non-empty run reached the loop.
- Pipeline.ProcessAll: does not model the runs that abort with an exception. A failing `get_table` falls into a bare `except` whose `create_table` call has no handler (`extraction.py:168-190`), and an error while iterating the bucket listing (`extraction.py:99-102`) is not caught either; both end `process_all` before any extraction. The model covers only runs where the listing is complete and the table exists or is created.
- The thread pool and `as_completed`: concurrency. The completion order is the input `order`, which gives a permutation for every number of submitted files.
- `uuid.uuid4()`: random. The ids are the input `ids`, one per file index; the model does not assume they are distinct.
- JSON parsing and pydantic validation: foreign library calls. They are the opaque `decode`, and the prompt template and format instructions are not modelled.
- Floating point: `numeric_value` is kept as the text `str(float)` renders it as, and the final percentage log line is not modelled.
- Text.Lower: lowers ASCII letters only, while Python's `str.lower()` lowers every Unicode letter. The four suffixes are ASCII, and no non-ASCII character lowers to one of their characters, so the suffix and MIME decisions are unaffected.
- BigQueryRows.FormatField: requires that a list value appear only under `parties` or `clauses`. `insert_batch` is only ever given dumped contracts, where that holds. For a list under another key, Python's `str(list)` rendering is not modelled.
- The `prefix` argument of the bucket listing: the listing passed in stands for what the prefix query returned.
- Environment variables, `sys.exit`, argparse, logging and the tqdm progress bar: plumbing.
- `agents/main.py`, `agents/sec-filings/agent.py` and `agents/sec-filings/prompts/root_agent_prompt.py`: configuration, a prompt string and a server bootstrap, with no logic of their own.
