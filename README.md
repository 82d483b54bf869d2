# PDF ingestion pipeline: a verified model

This project models the bookkeeping core of a document-ingestion tool. The tool reads uploaded PDF files, cuts their text into chunks, embeds the chunks with an embeddings service, and uploads one search record per chunk to a search index. The model covers the parts of that pipeline that run without any external service:

- **Text utilities** (`text_utils.dfy`):
  - `sanitize_key`;
  - `normalize_text`;
  - the blank-chunk filter and re-normalisation at the end of `chunk_text`;
  - decimal rendering of ids and `str.join`.
- **Page assembly** (`pdf_extract.dfy`): the loop of `process_pdf` that emits the `[Page n OCR]`, `[Page n Text]` and `[Page n Table]` segments. It applies the low-text rule for OCR, then joins, normalises and chunks.
- **Embedding fallbacks** (`embeddings.dfy`): the zero-vector fallbacks of `create_embedding` and `create_embeddings_batch`.
- **Bulk persister** (`bulk_store.dfy`):
  - `document_from_parts`;
  - `store_embeddings_bulk`, which cuts the records into batches and retries each batch at most `max_retries` times with linear backoff `1.5 * attempt`. It gives up on a batch after the last failure and keeps going with the next one. It adds up the per-record `succeeded` flags.
- **Ingestion loop** (`ingest.dfy`): the loop of `main.py`, with the user interface removed.
  - The loop walks each file's chunks in windows of `EMBED_BATCH`, drops blank chunks and skips empty windows.
  - It builds a record for each chunk and stages it in `pending_docs`.
  - It flushes the buffer whenever it holds `UPLOAD_BATCH` records, and flushes the leftovers once at the end.
  - It keeps a cumulative count of ingested chunks across files.
  - A file whose PDF cannot be read is reported and skipped.

External services are inputs to the model:
- The embeddings endpoint answers each request with the next `Response` of a script. An exhausted script fails.
- Each `upload_documents` call takes the next `UploadOutcome` of a script: it raises, or it returns one `succeeded` flag per record. An exhausted script raises.
- Each `sleep` is recorded as a delay.
- The text splitter, the MD5 digest, `time.time()`, ISO timestamp formatting and `json.dumps` are opaque functions, gathered in `Ingest.Services` and `BulkStore.Formats`.

Each loop that changes state in the source is a method with a `while` or `for` loop:
- `AssembleSegments`;
- `UploadWithRetry`;
- `StoreEmbeddingsBulk`;
- `AddWindow`;
- `EmbedWindows`;
- `IngestFiles`.

Each is proved against a specification function:
- `DocSegments`;
- `Retry`;
- `Bulk`;
- `Stage` / `Staged`;
- `FlushAll`;
- `FilesRun`.

The source's promises are proved as lemmas about those functions.

Where the code and its design notes disagree, the model follows the code:
- The code never deduplicates chunks by `text_hash`. It only stores the hash.
- The backoff is linear (`1.5 * attempt`), not exponential.

## Model

| member | source | states |
|---|---|---|
| TextUtils.SanitizeKey | embedding_utils.py:16-18 | the key keeps its length; every character is a letter, digit, `_`, `-` or `=`; allowed characters stay in place and every other one becomes `_` |
| TextUtils.SanitizeKeyIdempotent | embedding_utils.py:16-18 | sanitising a key twice gives the same key as sanitising it once |
| TextUtils.SanitizeKeyAppend | embedding_utils.py:16-18 | sanitising distributes over concatenation (it works character by character) |
| TextUtils.SanitizeKeyCollides | embedding_utils.py:16-18 | two different names can map to the same key (`"a b"` and `"a_b"`) |
| TextUtils.StripLeftFacts | embedding_utils.py:39 | `lstrip` returns the longest suffix that does not start with whitespace |
| TextUtils.StripRightFacts | embedding_utils.py:39 | `rstrip` returns the longest prefix that does not end with whitespace |
| TextUtils.StripRightKeepsFirst | embedding_utils.py:39 | right-stripping never empties a string whose first character is visible |
| TextUtils.NotBlankIff | embedding_utils.py:133 | `c and c.strip()` holds exactly when `c` has a non-whitespace character |
| TextUtils.Collapse | embedding_utils.py:38 | after `re.sub(r'\s+', ' ', s)`, the only whitespace left is `' '` and no two spaces are adjacent; the result is empty iff `s` is; it starts and ends with whitespace iff `s` does |
| TextUtils.VisibleCollapse | embedding_utils.py:38 | collapsing whitespace runs keeps every non-whitespace character, in order |
| TextUtils.VisibleStrip | embedding_utils.py:39 | stripping removes whitespace only |
| TextUtils.NormalizeKeepsVisible | embedding_utils.py:37-39 | `normalize_text` changes only whitespace: the visible characters survive in order |
| TextUtils.NormalizeIsNormal | embedding_utils.py:37-39 | the result has no whitespace at either end, no whitespace other than `' '`, and no two adjacent spaces |
| TextUtils.CollapseNormal | embedding_utils.py:38 | collapsing leaves a string that already has that shape unchanged |
| TextUtils.NormalizeFixedPoint | embedding_utils.py:37-39 | a string of that shape is a fixed point of `normalize_text` |
| TextUtils.NormalizeIdempotent | embedding_utils.py:37-39 | `normalize_text` is idempotent |
| TextUtils.NormalizeEmptyIff | embedding_utils.py:37-39 | normalising gives `""` exactly when the input is blank |
| TextUtils.FilterHolds | embedding_utils.py:133 | nothing that fails the comprehension's condition survives the filter |
| TextUtils.FilterNoop | embedding_utils.py:133 | a list whose elements all pass the condition passes through unchanged |
| TextUtils.KeptIndicesSelect | embedding_utils.py:133 | the filter's output is the input at the kept positions, in order |
| TextUtils.KeptIndicesAscend | embedding_utils.py:133 | the kept positions strictly ascend |
| TextUtils.KeptIndicesMembers | embedding_utils.py:133 | a position is kept iff its element passes the condition |
| TextUtils.DropBlankKeeps | embedding_utils.py:133 | `[c for c in pieces if c and c.strip()]` keeps exactly the non-blank pieces, unchanged and in order |
| TextUtils.DropBlankNotBlank | embedding_utils.py:133 | no blank piece survives the filter |
| TextUtils.DropBlankNoop | main.py:136 | pieces that are all non-blank pass through the filter unchanged |
| TextUtils.FilterChunks | embedding_utils.py:133 | one chunk per non-blank piece; every chunk is non-empty and normalised |
| TextUtils.ChunkText | embedding_utils.py:125-133 | whatever the splitter returns, every chunk is non-empty and normalised |
| TextUtils.FilterChunksFixedPoint | embedding_utils.py:133 | re-filtering chunks that are already non-empty and normalised changes nothing |
| TextUtils.FilterChunksIdempotent | embedding_utils.py:133 | the post-filter is idempotent |
| TextUtils.Dec | main.py:152 | `f"{n}"` for an id is digits only, with no leading zero |
| TextUtils.ParseDecOfDec | main.py:152 | reading back the digits of `f"{n}"` gives `n` |
| TextUtils.DecInjective | main.py:152 | different ids render as different digit strings |
| TextUtils.Join | embedding_utils.py:121 | joining no parts gives `""`; joining one part gives that part |
| PdfExtract.LabelIs | embedding_utils.py:106-117 | each segment is labelled `[Page n OCR]:\n`, `[Page n Text]:\n` or `[Page n Table]:\n` followed by its body |
| PdfExtract.PageSegmentsExactly | embedding_utils.py:99-117 | a page yields a segment iff: for OCR, the stripped native text is shorter than 20 and the OCR text is not blank; for Text, the native text is not blank; for Table, a table was found, with the tables joined by `"\n\n"` |
| PdfExtract.DocSegmentsExactly | embedding_utils.py:96-117 | the document's segments are exactly those its pages yield, each with the page's 1-based number |
| PdfExtract.DocSegmentsPages | embedding_utils.py:96 | every segment's page number lies between 1 and the page count |
| PdfExtract.PageSegmentsOrdered | embedding_utils.py:99-117 | within a page the segments come OCR, then Text, then Table |
| PdfExtract.OrderedConcat | embedding_utils.py:96 | appending a later page's segments keeps document order |
| PdfExtract.DocSegmentsOrdered | embedding_utils.py:96-117 | all segments are in document order: pages ascending, then OCR before Text before Table |
| PdfExtract.PartLabels | embedding_utils.py:99-117 | each of the three branches appends one label when its condition holds and nothing otherwise |
| PdfExtract.AppendPage | embedding_utils.py:97-117 | the loop body appends exactly the labels of the page's segments, in order |
| PdfExtract.LabelsStep | embedding_utils.py:96-117 | the labels of the first `n + 1` pages are those of the first `n` followed by page `n + 1`'s own |
| PdfExtract.AssembledLabels | embedding_utils.py:96-117 | the labels appended by the first `n` loop turns are the labels of the first `n` pages' segments |
| PdfExtract.AssembleSegments | embedding_utils.py:93-117 | the page loop leaves `document_text` equal to the labels of the document's segments |
| PdfExtract.PdfChunks | embedding_utils.py:121-123 | every chunk `process_pdf` returns is non-empty and normalised |
| PdfExtract.ProcessPdf | embedding_utils.py:91-123 | `process_pdf` returns the chunks of the normalised, blank-line-joined labels; each is non-empty and normalised |
| Embeddings.ZeroVector | embedding_utils.py:153 | the fallback has 1536 components, all zero |
| Embeddings.ZeroVectorUnique | embedding_utils.py:153 | the fallback is the only all-zero vector of that length |
| Embeddings.CreateEmbedding | embedding_utils.py:143-153 | on an answer with data, the first vector; on failure or empty data, a 1536-long zero vector |
| Embeddings.CreateEmbeddingsBatch | embedding_utils.py:155-163 | on an answer, the answer's vectors in order; on failure, one 1536-long zero vector per input text |
| Embeddings.SingleAgreesWithBatch | embedding_utils.py:143-163 | for one text, the single call gives the batch call's vector whenever the batch call gives one |
| Embeddings.BatchCount | embedding_utils.py:155-163 | the batch call yields one vector per text iff it failed or the answer has that many vectors |
| BulkStore.DocumentFromParts | db_utils.py:96-108 | the record's id, content and vector are the given ones; its file type is `"pdf"`; filename, chunk id, text hash and page number are copied from the metadata; the timestamp is the ISO time plus `"Z"` |
| BulkStore.DocumentFromPartsDetermines | db_utils.py:96-108 | equal records come from equal keys, texts, vectors and copied metadata fields |
| BulkStore.CountTrue | db_utils.py:120 | the count of `succeeded` flags is at most the result count; it is 0 iff none succeeded and the full count iff all did |
| BulkStore.Retry | db_utils.py:116-127 | the retry loop reports on its own batch and makes at least one attempt |
| BulkStore.RetryFacts | db_utils.py:116-127 | at most `max_retries + 1` attempts; every attempt but the last raised; an abandoned batch made exactly `max_retries + 1` attempts, the last raised, and it reports no results; otherwise the results are those of the attempt that returned; there is one delay `1.5 * k` after each failed attempt `k` except the last; exactly the attempts' outcomes are consumed |
| BulkStore.BatchesFromPartition | db_utils.py:114-115 | the slices from an offset concatenate to the rest of the list; each holds 1 to `n` records and all but the last exactly `n` |
| BulkStore.BatchesPartition | db_utils.py:114-115 | the slices of `range(0, len(documents), batch_size)` concatenate to `documents`; each holds 1 to `batch_size` records, all but the last exactly `batch_size` |
| BulkStore.BulkFromLogs | db_utils.py:114-127 | there is one log per slice, for that slice and shaped by the retry loop, so an abandoned slice does not stop the later ones |
| BulkStore.BulkLogs | db_utils.py:110-127 | the same holds for a whole `store_embeddings_bulk` call, for any non-zero batch size |
| BulkStore.LogsAppend | db_utils.py:113-127 | one more batch adds its `succeeded` count to the total, its attempts to the calls and its delays to the sleeps |
| BulkStore.TotalBound | db_utils.py:120 | with at most one result per record, the total never exceeds the records sent |
| BulkStore.SizesFlatten | db_utils.py:114-115 | the sizes of the logged batches add up to the records cut into batches |
| BulkStore.TotalAtMostDocuments | db_utils.py:113-128 | with at most one result per record, the returned total is at most `len(documents)` |
| BulkStore.PendingStep | db_utils.py:114-127 | one pass of the outer loop moves one batch's log from the remaining run to the logs done |
| BulkStore.PendingStart | db_utils.py:113-114 | before the first batch the whole run is still to come |
| BulkStore.PendingDone | db_utils.py:114 | with a negative step, or past the last offset, the logs done are the whole run |
| BulkStore.TalliedStep | db_utils.py:120-121 | adding one batch's `succeeded` count, calls and delays to the running tallies gives the tallies of one more log |
| BulkStore.RetryReturns | db_utils.py:118-121 | an attempt that returns ends the retry loop with that attempt's results and no further delay |
| BulkStore.RetryGivesUp | db_utils.py:122-125 | an attempt that raises with no retries left ends the loop with no results and no further delay |
| BulkStore.RetryAgain | db_utils.py:122-127 | an attempt that raises with retries left sleeps `1.5 * attempt` seconds and leaves the rest to the next attempt |
| BulkStore.BulkEmpty | db_utils.py:110-128 | an empty list gives a total of 0, no upload call, no sleep, and consumes no outcome |
| BulkStore.UploadWithRetry | db_utils.py:116-127 | the retry loop adds the succeeded count of the returning attempt, calls the upload once per attempt with the same batch, sleeps the backoff delays, and consumes the attempts' outcomes |
| BulkStore.StoreEmbeddingsBulk | db_utils.py:110-128 | the returned total, every upload call's argument, every delay and the outcomes left are those of the specified run |
| Ingest.ChunkKeyInjective | main.py:152 | within one file, different chunk ids give different record keys |
| Ingest.DigitsAreKeys | main.py:152 | sanitising leaves a string of digits unchanged |
| Ingest.WindowItems | main.py:143 | a window stages `min(len(chunk_batch), len(embeddings))` records, because `zip` truncates |
| Ingest.StageSkipTurn | main.py:136-138 | a window left empty by the filter stages nothing and makes no embedding request |
| Ingest.StageTurn | main.py:132-153 | any other window is embedded with the next response, and its records come before those of the later windows |
| Ingest.ItemsConcat | main.py:143-153 | joining two runs of records with disjoint, ordered id ranges keeps ids ascending and within the union range |
| Ingest.ConsecutiveConcat | main.py:143-153 | joining runs of consecutive ids that meet keeps them consecutive |
| Ingest.WindowItemsShape | main.py:143-144 | the records of a window of non-blank chunks have ascending ids counting up from the window's offset |
| Ingest.WindowsWell | main.py:132-136 | the windows start at `0, EMBED_BATCH, 2*EMBED_BATCH, ...`, are at most `EMBED_BATCH` long, end by the chunk count and hold no blank chunk |
| Ingest.StageWindowsItems | main.py:132-153 | staged records have non-blank text and strictly ascending chunk ids within `[0, len(text_chunks))` |
| Ingest.StageWindowsConsumes | main.py:137-140 | exactly one embedding response is consumed per non-empty window |
| Ingest.DropRestResponses | main.py:140 | consuming one more response is dropping one more from the script |
| Ingest.AnswersInFullRest | main.py:140 | full answers to all requests stay full answers to the later requests |
| Ingest.WindowsTile | main.py:132-136 | without blank chunks, the windows are exactly the consecutive slices `text_chunks[i:i+EMBED_BATCH]` |
| Ingest.StageWindowsExact | main.py:132-153 | without blank chunks and with full answers, the windows stage every chunk once, in order, with consecutive ids |
| Ingest.StageWindowsHead | main.py:132-153 | a fully answered first window stages its chunks with consecutive ids ahead of the later windows, which still tile the chunks and are still fully answered |
| Ingest.WindowItemsExact | main.py:143-144 | a window of consecutive chunks with a vector for each stages one record per chunk, with the chunk's own id |
| Ingest.StageExact | main.py:132-153 | without blank chunks and with full answers, every chunk of the file is staged exactly once, in order, with ids `0, 1, ...` |
| Ingest.PdfChunksNotBlank | main.py:136 | the chunks `process_pdf` returns are never blank, so the window filter drops nothing |
| Ingest.Records | main.py:153 | one record per staged item |
| Ingest.RecordsAppend | main.py:153 | the records of joined items are the joined records |
| Ingest.RecordsSnoc | main.py:153 | appending an item appends its record |
| Ingest.RecordFacts | main.py:144-153 | a chunk's record has the chunk id, page number `chunk_id + 1`, key `sanitize_key(f"{file_name}_{chunk_id}")`, the file name, the hash of its own text and file type `"pdf"` |
| Ingest.StagedRecords | main.py:132-153 | every staged record satisfies those facts with an id below the chunk count, and ids (hence keys) are pairwise distinct and ascending within one file |
| Ingest.ShapeIsBatches | main.py:155-168 | a list of flushes that are all full except a non-empty last one is exactly the `UPLOAD_BATCH`-slices of its concatenation |
| Ingest.BatchesFromShift | main.py:155-168 | slicing after a prefix is slicing the rest |
| Ingest.FlushStep | main.py:157-158 | one more flush adds the `store_embeddings_bulk` total to the count and consumes its upload outcomes |
| Ingest.Flush | main.py:157-159 | a flush appends the buffer to the flushes made and adds what `store_embeddings_bulk` returns |
| Ingest.AddRecord | main.py:144-159 | a chunk's record is appended to `pending_docs`; the buffer is flushed when it reaches `UPLOAD_BATCH`; afterwards the flushes followed by the buffer are the records staged so far, every flush is full and the buffer is not |
| Ingest.AddWindow | main.py:143-159 | the inner loop stages the window's records in order and keeps the same buffer invariant |
| Ingest.RemainingSkip | main.py:136-138 | skipping an empty window leaves what remains to be staged unchanged |
| Ingest.RemainingTurn | main.py:136-153 | staging a window moves its records from what remains to what is staged |
| Ingest.EmbedWindow | main.py:133-163 | one turn of the window loop keeps the staging and buffer invariants |
| Ingest.EmbedWindows | main.py:129-163 | after the window loop, the flushes followed by the buffer are all the file's staged records; every flush holds `UPLOAD_BATCH` records; the buffer holds fewer; the ingested count is that of the flushes |
| Ingest.IngestFile | main.py:129-168 | the flushes of one file are exactly the `UPLOAD_BATCH`-slices of its staged records, so every staged record is flushed once, in staging order; the ingested count and the services' remaining scripts are those of the specification |
| Ingest.GatherLast | main.py:172-173 | the failure report over a list extends the report over its prefix by the last file's entry |
| Ingest.FileStepReports | main.py:113-180 | each file adds one to `files_done`, and adds its name to the failures iff its PDF cannot be read |
| Ingest.FilesRunReports | main.py:110-180 | after the loop `files_done` equals the number of files, and the failures are exactly the unreadable files, in upload order |
| Ingest.TotalMonotone | main.py:105-168 | `total_chunks_ingested` never decreases: after any prefix of the files it is at most its final value |
| Ingest.IngestFiles | main.py:105-181 | the file loop returns the total, the files done, the failed files and the services' remaining scripts that the specification `FilesRun` gives |

## Left out

- The Streamlit interface, progress widgets, timing messages, temporary files and their deletion are not modelled. They affect no counter or buffer.
- PyMuPDF, page rendering, the OCR service and its polling loop, and pandas table rendering are not modelled. Each page is given as its native text, its OCR text and its table strings. An OCR error, or an OCR render error, is the OCR text `""`. A failed table extraction is a shorter table list.
- The internals of the langchain text splitter are not modelled. The splitter is an opaque function, and only the post-filter of `chunk_text` is verified.
- The MD5 digest, `time.time()`, ISO formatting and `json.dumps` are opaque functions. The timestamp of a chunk's record is modelled as a function of the file name and the chunk id.
- Embedding values are sequences of reals. Only their count, their lengths and the zero fallback are modelled. Floating-point conversion is not.
- Real sleeping is not modelled. Delays are recorded as reals.
- Client construction, the index schema and `test_embedding_connection` are not modelled. They configure foreign SDKs.
- Exceptions inside a file's processing are modelled only for an unreadable PDF (`FileInput.pdf == None`), which makes `process_pdf` raise. No other step of the modelled loop raises, because the embedding and upload calls catch their own errors.
- Ingest.EmbedWindows: requires `EMBED_BATCH > 0` and `UPLOAD_BATCH > 0`. With a zero `EMBED_BATCH`, `range` raises and the file would fail. With a non-positive `UPLOAD_BATCH`, the flush would run after every record and `store_embeddings_bulk` would raise or upload nothing. These configurations are not modelled.
- Ingest.IngestFiles: requires the same two positive batch sizes.
- BulkStore.StoreEmbeddingsBulk: requires `batch_size != 0`, because Python's `range` raises on a zero step. A negative batch size gives an empty range and is modelled.
- BulkStore.TotalAtMostDocuments: assumes at most one result per record. The service's answer is otherwise unconstrained.
- Deduplication by `text_hash` is not modelled, because the code never performs it.
