/**
 * The ingestion loop of main.py (lines 105-181) without its user interface: every file is
 * parsed, its chunks are embedded window by window, the resulting records are staged in
 * `pending_docs` and flushed to the bulk persister whenever the buffer is full, and a
 * cumulative count of ingested chunks is kept across files.
 *
 * The embeddings endpoint answers each request with the next `Response` of a script (an
 * exhausted script fails), the upload service likewise takes the next `UploadOutcome`,
 * and the splitter, the MD5 digest, the clock and the formatting of records are opaque
 * functions gathered in `Services`.
 */
module Ingest {
  import opened Wrappers
  import opened TextUtils
  import opened PdfExtract
  import opened Embeddings
  import opened BulkStore

  /** The `max_retries` default every flush runs with. */
  const MaxRetries: int := 3

  datatype Services = Services(
    split: String -> seq<String>,
    hash: String -> String,
    clock: (String, nat) -> real,
    fmt: Formats)

  /** An uploaded file: its name, and its pages, or `None` when the PDF cannot be read
      (the exception that aborts that file). */
  datatype FileInput = FileInput(name: String, pdf: Option<seq<Page>>)

  function NextResponse(script: seq<Response>): Response {
    if script == [] then Failed else script[0]
  }

  function RestResponses(script: seq<Response>): seq<Response> {
    if script == [] then [] else script[1..]
  }

  function DropResponses(script: seq<Response>, k: nat): seq<Response> {
    if k < |script| then script[k..] else []
  }

  // ---------------------------------------------------------------- one record

  /** Joins the file name and the chunk id in a record key. */
  const KeySeparator: String := "_"

  /** `sanitize_key(f"{file_name}_{global_chunk_id}")`. */
  function ChunkKey(fileName: String, chunkId: nat): String {
    SanitizeKey(fileName + KeySeparator + Dec(chunkId))
  }

  /** The metadata dictionary built for a chunk. */
  function ChunkMetadata(fileName: String, chunkId: nat, text: String, env: Services): Metadata {
    Metadata(Some(fileName), Some(chunkId), Some(env.clock(fileName, chunkId)), Some(env.hash(text)),
             Some(chunkId + 1))
  }

  function ChunkDocument(fileName: String, chunkId: nat, text: String, embedding: Vector,
                         env: Services): Document {
    DocumentFromParts(ChunkKey(fileName, chunkId), text, embedding,
                      ChunkMetadata(fileName, chunkId, text, env), env.fmt)
  }

  /** The chunk id a record carries (every staged record has one). */
  function Id(d: Document): int {
    d.chunkId.GetOr(-1)
  }

  /** What every staged record of file `fileName` satisfies: a chunk id, the page number
      one above it, the key derived from the file name and the id, the hash of its own
      content, and a content that is not blank. */
  predicate ChunkRecord(d: Document, fileName: String, env: Services) {
    && d.chunkId.Some? && 0 <= d.chunkId.value
    && d.pageNumber == Some(d.chunkId.value + 1)
    && d.id == ChunkKey(fileName, d.chunkId.value)
    && d.filename == Some(fileName)
    && d.textHash == Some(env.hash(d.content))
    && d.fileType == PdfFileType
    && NotBlank(d.content)
  }

  /** Different chunk ids give different keys within one file. */
  lemma ChunkKeyInjective(fileName: String, a: nat, b: nat)
    requires ChunkKey(fileName, a) == ChunkKey(fileName, b)
    ensures a == b
  {
    var p := fileName + KeySeparator;
    SanitizeKeyAppend(p, Dec(a));
    SanitizeKeyAppend(p, Dec(b));
    DigitsAreKeys(Dec(a));
    DigitsAreKeys(Dec(b));
    var sp := SanitizeKey(p);
    assert sp + Dec(a) == sp + Dec(b);
    assert Dec(a) == (sp + Dec(a))[|sp|..];
    assert Dec(b) == (sp + Dec(b))[|sp|..];
    DecInjective(a, b);
  }

  lemma DigitsAreKeys(s: String)
    requires forall i :: 0 <= i < |s| ==> IsDigit(s[i])
    ensures SanitizeKey(s) == s
  {
  }

  // ---------------------------------------------------------------- staging

  /** A chunk on its way to the index: the id it is given, its text and its embedding. */
  datatype Item = Item(chunkId: nat, text: String, embedding: Vector)

  /** The items of one window: `zip` stops at the shorter of the window and the
      embeddings, and item `j` gets chunk id `start + j`. */
  function WindowItems(start: nat, window: seq<String>, embs: seq<Vector>): (items: seq<Item>)
    ensures |items| == Min(|window|, |embs|)
  {
    seq(Min(|window|, |embs|), j requires 0 <= j < Min(|window|, |embs|) => Item(start + j, window[j], embs[j]))
  }

  /** `text_chunks[i:i + EMBED_BATCH]` without its blank chunks. */
  function Window(chunks: seq<String>, start: nat, eb: nat): seq<String>
    requires start <= |chunks|
  {
    DropBlank(chunks[start..Min(start + eb, |chunks|)])
  }

  /** The windows of the loop `for i in range(start, len(text_chunks), EMBED_BATCH)`, in
      order, blank chunks already dropped. */
  function Windows(chunks: seq<String>, start: nat, eb: nat): (ws: seq<seq<String>>)
    requires eb > 0
    decreases |chunks| - start
  {
    if start >= |chunks| then [] else [Window(chunks, start, eb)] + Windows(chunks, start + eb, eb)
  }

  datatype Staging = Staging(items: seq<Item>, rest: seq<Response>)

  /** Every item staged from the windows `ws`, the first of which starts at chunk offset
      `at`, in staging order, and the embedding responses left. A window that is empty is
      skipped without a request. */
  function StageWindows(ws: seq<seq<String>>, at: nat, eb: nat, script: seq<Response>): Staging
  {
    if ws == [] then Staging([], script)
    else if ws[0] == [] then StageWindows(ws[1..], at + eb, eb, script)
    else
      var embs := CreateEmbeddingsBatch(ws[0], NextResponse(script));
      var tail := StageWindows(ws[1..], at + eb, eb, RestResponses(script));
      Staging(WindowItems(at, ws[0], embs) + tail.items, tail.rest)
  }

  /** What the embed-window loop of one file stages. */
  function Stage(chunks: seq<String>, eb: nat, script: seq<Response>): Staging
    requires eb > 0
  {
    StageWindows(Windows(chunks, 0, eb), 0, eb, script)
  }

  /** The windows that reach the embeddings endpoint, in order. */
  function Requests(ws: seq<seq<String>>): seq<seq<String>>
  {
    if ws == [] then [] else if ws[0] == [] then Requests(ws[1..]) else [ws[0]] + Requests(ws[1..])
  }

  lemma WindowsStep(chunks: seq<String>, start: nat, eb: nat)
    requires eb > 0 && start < |chunks|
    ensures var ws := Windows(chunks, start, eb);
      ws != [] && ws[0] == Window(chunks, start, eb) && ws[1..] == Windows(chunks, start + eb, eb)
  {
  }

  /** A turn of the embed-window loop on a window left empty by the filter stages
      nothing and consumes no response. */
  lemma StageSkipTurn(chunks: seq<String>, i: nat, eb: nat, script: seq<Response>)
    requires eb > 0 && i < |chunks| && Window(chunks, i, eb) == []
    ensures StageWindows(Windows(chunks, i, eb), i, eb, script)
      == StageWindows(Windows(chunks, i + eb, eb), i + eb, eb, script)
  {
    WindowsStep(chunks, i, eb);
  }

  /** A turn of the embed-window loop on any other window embeds it with the next
      response and stages its items ahead of those of the later windows. */
  lemma StageTurn(chunks: seq<String>, i: nat, eb: nat, script: seq<Response>)
    requires eb > 0 && i < |chunks| && Window(chunks, i, eb) != []
    ensures var w := Window(chunks, i, eb);
      var head := WindowItems(i, w, CreateEmbeddingsBatch(w, NextResponse(script)));
      var now := StageWindows(Windows(chunks, i, eb), i, eb, script);
      var later := StageWindows(Windows(chunks, i + eb, eb), i + eb, eb, RestResponses(script));
      now.items == head + later.items && now.rest == later.rest
  {
    WindowsStep(chunks, i, eb);
    var ws := Windows(chunks, i, eb);
    var w := Window(chunks, i, eb);
    assert ws[0] == w && ws[0] != [];
    var head := WindowItems(i, w, CreateEmbeddingsBatch(w, NextResponse(script)));
    var later := StageWindows(ws[1..], i + eb, eb, RestResponses(script));
    assert StageWindows(ws, i, eb, script) == Staging(head + later.items, later.rest);
  }

  /** Item ids strictly increase. */
  predicate IdsAscending(items: seq<Item>) {
    forall a, b :: 0 <= a < b < |items| ==> items[a].chunkId < items[b].chunkId
  }

  /** Every item has a non-blank text and an id in `[lo, hi)`. */
  predicate ItemsWithin(items: seq<Item>, lo: int, hi: int) {
    forall k :: 0 <= k < |items| ==> NotBlank(items[k].text) && lo <= items[k].chunkId < hi
  }

  /** Item `k` carries chunk `start + k` under id `start + k`. */
  predicate Consecutive(items: seq<Item>, start: nat, chunks: seq<String>) {
    forall k :: 0 <= k < |items| ==>
      items[k].chunkId == start + k && start + k < |chunks| && items[k].text == chunks[start + k]
  }

  lemma ItemsConcat(x: seq<Item>, y: seq<Item>, loX: int, hiX: int, loY: int, hiY: int)
    requires IdsAscending(x) && ItemsWithin(x, loX, hiX)
    requires IdsAscending(y) && ItemsWithin(y, loY, hiY)
    requires loX <= hiX <= loY && hiX <= hiY
    ensures IdsAscending(x + y) && ItemsWithin(x + y, loX, hiY)
  {
    var xy := x + y;
    forall a, b | 0 <= a < b < |xy|
      ensures xy[a].chunkId < xy[b].chunkId
    {
      if b < |x| {
        assert xy[a] == x[a] && xy[b] == x[b];
      } else if a < |x| {
        assert xy[a] == x[a] && xy[b] == y[b - |x|];
      } else {
        assert xy[a] == y[a - |x|] && xy[b] == y[b - |x|];
      }
    }
    forall k | 0 <= k < |xy|
      ensures NotBlank(xy[k].text) && loX <= xy[k].chunkId < hiY
    {
      if k < |x| {
        assert xy[k] == x[k];
      } else {
        assert xy[k] == y[k - |x|];
      }
    }
  }

  lemma ConsecutiveConcat(x: seq<Item>, y: seq<Item>, start: nat, chunks: seq<String>)
    requires Consecutive(x, start, chunks) && Consecutive(y, start + |x|, chunks)
    ensures Consecutive(x + y, start, chunks)
  {
    var xy := x + y;
    forall k | 0 <= k < |xy|
      ensures xy[k].chunkId == start + k && start + k < |chunks| && xy[k].text == chunks[start + k]
    {
      if k < |x| {
        assert xy[k] == x[k];
      } else {
        var j := k - |x|;
        assert xy[k] == y[j];
        assert y[j].chunkId == start + |x| + j && start + |x| + j < |chunks| && y[j].text == chunks[start + |x| + j];
      }
    }
  }

  /** The items of a window of non-blank chunks have ascending ids counting up from the
      window's offset. */
  lemma WindowItemsShape(at: nat, window: seq<String>, embs: seq<Vector>)
    requires forall k :: 0 <= k < |window| ==> NotBlank(window[k])
    ensures var items := WindowItems(at, window, embs);
      IdsAscending(items) && ItemsWithin(items, at, at + |items|)
  {
  }

  /** Windows at offsets `at, at + eb, ...`, each at most `eb` long, ending by `n`, and
      holding no blank chunk. */
  predicate WellWindows(ws: seq<seq<String>>, at: nat, eb: nat, n: nat)
    decreases |ws|
  {
    ws != [] ==>
      && |ws[0]| <= eb && at + |ws[0]| <= n
      && (forall j :: 0 <= j < |ws[0]| ==> NotBlank(ws[0][j]))
      && WellWindows(ws[1..], at + eb, eb, n)
  }

  lemma {:induction false} WindowsWell(chunks: seq<String>, start: nat, eb: nat)
    requires eb > 0
    ensures WellWindows(Windows(chunks, start, eb), start, eb, |chunks|)
    decreases |chunks| - start
  {
    if start < |chunks| {
      var ws := Windows(chunks, start, eb);
      var slice := chunks[start..Min(start + eb, |chunks|)];
      WindowsStep(chunks, start, eb);
      WindowsWell(chunks, start + eb, eb);
      DropBlankNotBlank(slice);
      assert ws[0] == DropBlank(slice) && |slice| <= eb && start + |slice| <= |chunks|;
    }
  }

  /** Every staged item has a non-blank text and an id in `[at, n)`, and ids strictly
      increase in staging order: the ids of the window at offset `i` lie in
      `[i, i + EMBED_BATCH)`. */
  lemma {:induction false} StageWindowsItems(ws: seq<seq<String>>, at: nat, eb: nat, n: nat, script: seq<Response>)
    requires WellWindows(ws, at, eb, n)
    ensures var items := StageWindows(ws, at, eb, script).items;
      IdsAscending(items) && ItemsWithin(items, at, n)
    decreases |ws|
  {
    if ws != [] && ws[0] == [] {
      StageWindowsItems(ws[1..], at + eb, eb, n, script);
    } else if ws != [] {
      var embs := CreateEmbeddingsBatch(ws[0], NextResponse(script));
      var head := WindowItems(at, ws[0], embs);
      var tail := StageWindows(ws[1..], at + eb, eb, RestResponses(script)).items;
      StageWindowsItems(ws[1..], at + eb, eb, n, RestResponses(script));
      WindowItemsShape(at, ws[0], embs);
      ItemsConcat(head, tail, at, at + |head|, at + eb, n);
    }
  }

  /** One embedding request per non-empty window and no other: exactly that many
      responses are consumed. */
  lemma {:induction false} StageWindowsConsumes(ws: seq<seq<String>>, at: nat, eb: nat, script: seq<Response>)
    ensures StageWindows(ws, at, eb, script).rest == DropResponses(script, |Requests(ws)|)
    decreases |ws|
  {
    if ws == [] {
      assert script[0..] == script;
    } else if ws[0] == [] {
      StageWindowsConsumes(ws[1..], at + eb, eb, script);
    } else {
      StageWindowsConsumes(ws[1..], at + eb, eb, RestResponses(script));
      DropRestResponses(script, |Requests(ws[1..])|);
    }
  }

  lemma DropRestResponses(script: seq<Response>, n: nat)
    ensures DropResponses(RestResponses(script), n) == DropResponses(script, n + 1)
  {
    if script != [] && n < |script[1..]| {
      assert script[1..][n..] == script[n + 1..];
    }
  }

  /** An endpoint that answers every request with at least one vector per text (or fails,
      falling back to zero vectors). */
  predicate AnswersInFull(script: seq<Response>, requests: seq<seq<String>>) {
    forall k :: 0 <= k < |script| && k < |requests| && script[k].Answered? ==> |requests[k]| <= |script[k].data|
  }

  lemma AnswersInFullRest(script: seq<Response>, first: seq<String>, requests: seq<seq<String>>)
    requires AnswersInFull(script, [first] + requests)
    ensures AnswersInFull(RestResponses(script), requests)
  {
    var rest := RestResponses(script);
    forall k | 0 <= k < |rest| && k < |requests| && rest[k].Answered?
      ensures |requests[k]| <= |rest[k].data|
    {
      assert rest[k] == script[k + 1];
      assert ([first] + requests)[k + 1] == requests[k];
    }
  }

  /** The windows are the plain slices `chunks[i:i + eb]` of `chunks` from offset `at` on. */
  predicate Tiles(ws: seq<seq<String>>, at: nat, eb: nat, chunks: seq<String>)
    decreases |ws|
  {
    if ws == [] then at >= |chunks|
    else at < |chunks| && ws[0] == chunks[at..Min(at + eb, |chunks|)] && Tiles(ws[1..], at + eb, eb, chunks)
  }

  lemma {:induction false} WindowsTile(chunks: seq<String>, start: nat, eb: nat)
    requires eb > 0
    requires forall k :: 0 <= k < |chunks| ==> NotBlank(chunks[k])
    ensures Tiles(Windows(chunks, start, eb), start, eb, chunks)
    decreases |chunks| - start
  {
    if start < |chunks| {
      WindowsStep(chunks, start, eb);
      WindowsTile(chunks, start + eb, eb);
      DropBlankNoop(chunks[start..Min(start + eb, |chunks|)]);
    }
  }

  /** Without blank chunks and with full answers, every chunk is staged, in order, and the
      chunk ids are exactly `at, at + 1, ...`. */
  lemma {:induction false} StageWindowsExact(ws: seq<seq<String>>, at: nat, eb: nat, chunks: seq<String>, script: seq<Response>)
    requires eb > 0 && at <= |chunks| && Tiles(ws, at, eb, chunks)
    requires AnswersInFull(script, Requests(ws))
    ensures var items := StageWindows(ws, at, eb, script).items;
      |items| == |chunks| - at && Consecutive(items, at, chunks)
    decreases |ws|
  {
    if ws != [] {
      StageWindowsHead(ws, at, eb, chunks, script);
      var head := WindowItems(at, ws[0], CreateEmbeddingsBatch(ws[0], NextResponse(script)));
      var tail := StageWindows(ws[1..], at + eb, eb, RestResponses(script));
      var items := StageWindows(ws, at, eb, script).items;
      assert items == head + tail.items;
      if at + eb >= |chunks| {
        assert items == head;
      } else {
        assert |head| == eb;
        StageWindowsExact(ws[1..], at + eb, eb, chunks, RestResponses(script));
        assert |tail.items| == |chunks| - (at + eb) && Consecutive(tail.items, at + |head|, chunks);
        ConsecutiveConcat(head, tail.items, at, chunks);
      }
    }
  }

  /** The first of the tiling windows, fully answered, stages its chunks with consecutive
      ids, ahead of the later windows, which still tile and are still fully answered. */
  lemma StageWindowsHead(ws: seq<seq<String>>, at: nat, eb: nat, chunks: seq<String>, script: seq<Response>)
    requires eb > 0 && at <= |chunks| && Tiles(ws, at, eb, chunks) && ws != []
    requires AnswersInFull(script, Requests(ws))
    ensures var head := WindowItems(at, ws[0], CreateEmbeddingsBatch(ws[0], NextResponse(script)));
      var tail := StageWindows(ws[1..], at + eb, eb, RestResponses(script));
      && |head| == Min(at + eb, |chunks|) - at && Consecutive(head, at, chunks)
      && StageWindows(ws, at, eb, script).items == head + tail.items
      && Tiles(ws[1..], at + eb, eb, chunks)
      && AnswersInFull(RestResponses(script), Requests(ws[1..]))
      && (at + eb >= |chunks| ==> tail.items == [])
  {
    var m := Min(at + eb, |chunks|);
    assert ws[0] == chunks[at..m] && ws[0] != [];
    assert Requests(ws) == [ws[0]] + Requests(ws[1..]);
    var resp := NextResponse(script);
    var embs := CreateEmbeddingsBatch(ws[0], resp);
    assert |embs| >= |ws[0]| by {
      if resp.Answered? {
        assert script[0] == resp;
      }
    }
    AnswersInFullRest(script, ws[0], Requests(ws[1..]));
    WindowItemsExact(at, m, embs, chunks);
    if at + eb >= |chunks| {
      assert ws[1..] == [];
    }
  }

  /** A window of consecutive chunks with an embedding for each stages one item per chunk,
      with the chunk's own id. */
  lemma WindowItemsExact(at: nat, m: nat, embs: seq<Vector>, chunks: seq<String>)
    requires at <= m <= |chunks| && |embs| >= m - at
    ensures var items := WindowItems(at, chunks[at..m], embs);
      |items| == m - at && Consecutive(items, at, chunks)
  {
  }

  /** The chunks `process_pdf` returns are never blank, so the window filter of the loop
      drops nothing from them. */
  lemma PdfChunksNotBlank(pages: seq<Page>, split: String -> seq<String>)
    ensures var chunks := PdfChunks(pages, split);
      forall k :: 0 <= k < |chunks| ==> NotBlank(chunks[k])
  {
    var chunks := PdfChunks(pages, split);
    forall k | 0 <= k < |chunks|
      ensures NotBlank(chunks[k])
    {
      NotBlankIff(chunks[k]);
      assert !IsSpace(chunks[k][0]);
    }
  }

  /** When no chunk is blank and the endpoint answers every request in full, every chunk
      of the file is staged exactly once, in order, and the chunk ids are `0, 1, ...`. */
  lemma StageExact(chunks: seq<String>, eb: nat, script: seq<Response>)
    requires eb > 0
    requires forall k :: 0 <= k < |chunks| ==> NotBlank(chunks[k])
    requires AnswersInFull(script, Requests(Windows(chunks, 0, eb)))
    ensures var items := Stage(chunks, eb, script).items;
      |items| == |chunks| && forall k :: 0 <= k < |items| ==> items[k].chunkId == k && items[k].text == chunks[k]
  {
    WindowsTile(chunks, 0, eb);
    StageWindowsExact(Windows(chunks, 0, eb), 0, eb, chunks, script);
  }

  // ---------------------------------------------------------------- records

  /** The record `document_from_parts` builds for an item of file `fileName`. */
  function Record(fileName: String, env: Services, it: Item): Document {
    ChunkDocument(fileName, it.chunkId, it.text, it.embedding, env)
  }

  function Records(fileName: String, env: Services, items: seq<Item>): (docs: seq<Document>)
    ensures |docs| == |items|
  {
    seq(|items|, k requires 0 <= k < |items| => Record(fileName, env, items[k]))
  }

  lemma RecordsAppend(fileName: String, env: Services, xs: seq<Item>, ys: seq<Item>)
    ensures Records(fileName, env, xs + ys) == Records(fileName, env, xs) + Records(fileName, env, ys)
  {
    var l, r := Records(fileName, env, xs + ys), Records(fileName, env, xs) + Records(fileName, env, ys);
    forall k | 0 <= k < |l|
      ensures l[k] == r[k]
    {
      if k < |xs| {
        assert (xs + ys)[k] == xs[k];
      } else {
        assert (xs + ys)[k] == ys[k - |xs|];
      }
    }
  }

  lemma RecordsSnoc(fileName: String, env: Services, items: seq<Item>, it: Item)
    ensures Records(fileName, env, items + [it]) == Records(fileName, env, items) + [Record(fileName, env, it)]
  {
    RecordsAppend(fileName, env, items, [it]);
  }

  /** The records one file stages into `pending_docs`, in staging order. */
  function Staged(fileName: String, chunks: seq<String>, eb: nat, script: seq<Response>, env: Services): seq<Document>
    requires eb > 0
  {
    Records(fileName, env, Stage(chunks, eb, script).items)
  }

  lemma RecordFacts(fileName: String, env: Services, it: Item)
    requires NotBlank(it.text)
    ensures ChunkRecord(Record(fileName, env, it), fileName, env)
    ensures Id(Record(fileName, env, it)) == it.chunkId
  {
  }

  /** Every staged record is a chunk record (page number one above the chunk id, key from
      the file name and the id, hash of its own non-blank content), and chunk ids, hence
      keys, are pairwise distinct within one file. */
  lemma StagedRecords(fileName: String, chunks: seq<String>, eb: nat, script: seq<Response>, env: Services)
    requires eb > 0
    ensures var docs := Staged(fileName, chunks, eb, script, env);
      && (forall k :: 0 <= k < |docs| ==> ChunkRecord(docs[k], fileName, env) && 0 <= Id(docs[k]) < |chunks|)
      && (forall a, b :: 0 <= a < b < |docs| ==> Id(docs[a]) < Id(docs[b]) && docs[a].id != docs[b].id)
  {
    var items := Stage(chunks, eb, script).items;
    var docs := Staged(fileName, chunks, eb, script, env);
    WindowsWell(chunks, 0, eb);
    StageWindowsItems(Windows(chunks, 0, eb), 0, eb, |chunks|, script);
    forall k | 0 <= k < |docs|
      ensures ChunkRecord(docs[k], fileName, env) && Id(docs[k]) == items[k].chunkId < |chunks|
    {
      assert NotBlank(items[k].text) && items[k].chunkId < |chunks|;
      RecordFacts(fileName, env, items[k]);
    }
    forall a, b | 0 <= a < b < |docs|
      ensures Id(docs[a]) < Id(docs[b]) && docs[a].id != docs[b].id
    {
      assert items[a].chunkId < items[b].chunkId;
      if docs[a].id == docs[b].id {
        ChunkKeyInjective(fileName, items[a].chunkId, items[b].chunkId);
      }
    }
  }

  // ---------------------------------------------------------------- flushing

  datatype Flushed = Flushed(total: nat, rest: seq<UploadOutcome>)

  /** Every flush in turn through `store_embeddings_bulk` with `batch_size = UPLOAD_BATCH`:
      the ingested count they return together, and the upload outcomes left. */
  function FlushAll(flushes: seq<seq<Document>>, ub: nat, script: seq<UploadOutcome>): Flushed
    requires ub > 0
  {
    if flushes == [] then Flushed(0, script)
    else
      var before := FlushAll(flushes[..|flushes| - 1], ub, script);
      var run := Bulk(flushes[|flushes| - 1], ub, MaxRetries, before.rest);
      Flushed(before.total + Total(run.logs), run.rest)
  }

  /** A sequence of chunks shaped like the slices of `range(0, len(xs), n)` (each holding
      between 1 and `n` items, all but the last exactly `n`) is those slices. */
  lemma {:induction false} ShapeIsBatches<T>(fs: seq<seq<T>>, n: nat)
    requires n > 0
    requires forall k :: 0 <= k < |fs| ==> 0 < |fs[k]| <= n
    requires forall k :: 0 <= k < |fs| - 1 ==> |fs[k]| == n
    ensures Batches(Flatten(fs), n) == fs
    decreases |fs|
  {
    if fs != [] {
      var xs := Flatten(fs);
      var rest := Flatten(fs[1..]);
      assert xs == fs[0] + rest;
      ShapeIsBatches(fs[1..], n);
      assert xs[0..Min(n, |xs|)] == fs[0];
      if |fs| == 1 {
        assert rest == [];
        assert BatchesFrom(xs, n, n) == [];
      } else {
        BatchesFromShift(fs[0], rest, 0, n);
        assert BatchesFrom(xs, n, n) == BatchesFrom(rest, 0, n);
      }
    }
  }

  lemma {:induction false} BatchesFromShift<T>(a: seq<T>, b: seq<T>, start: nat, n: nat)
    requires n > 0
    ensures BatchesFrom(a + b, |a| + start, n) == BatchesFrom(b, start, n)
    decreases |b| - start
  {
    if start < |b| {
      BatchesFromShift(a, b, start + n, n);
      assert (a + b)[|a| + start..Min(|a| + start + n, |a + b|)] == b[start..Min(start + n, |b|)];
    }
  }

  // ---------------------------------------------------------------- one file

  /** The buffer `pending_docs` and the flushes made so far, once the items `staged` of
      file `fileName` have been staged: the flushes followed by the buffer are the records
      of those items, every flush is full and the buffer is not, and the flushes account
      for `ingested` chunks and leave `uploadRest` of the upload outcomes. */
  predicate Buffered(fileName: String, env: Services, uploadBatch: int, uploadScript: seq<UploadOutcome>,
                     staged: seq<Item>, flushes: seq<seq<Document>>, pendingDocs: seq<Document>,
                     ingested: nat, uploadRest: seq<UploadOutcome>)
  {
    && uploadBatch > 0
    && Flatten(flushes) + pendingDocs == Records(fileName, env, staged)
    && (forall k :: 0 <= k < |flushes| ==> |flushes[k]| == uploadBatch)
    && |pendingDocs| < uploadBatch
    && FlushAll(flushes, uploadBatch, uploadScript) == Flushed(ingested, uploadRest)
  }

  /** `store_embeddings_bulk(pending_docs)` and `total_ingested += ingested`: one more
      flush, whose outcome `FlushAll` accounts for. */
  method Flush(pendingDocs: seq<Document>, flushes: seq<seq<Document>>, ingested: nat,
               uploadRest: seq<UploadOutcome>, ghost uploadScript: seq<UploadOutcome>, uploadBatch: int)
    returns (flushes': seq<seq<Document>>, ingested': nat, uploadRest': seq<UploadOutcome>)
    requires uploadBatch > 0
    requires FlushAll(flushes, uploadBatch, uploadScript) == Flushed(ingested, uploadRest)
    ensures flushes' == flushes + [pendingDocs]
    ensures FlushAll(flushes', uploadBatch, uploadScript) == Flushed(ingested', uploadRest')
  {
    var ing, calls, sleeps;
    ing, calls, sleeps, uploadRest' := StoreEmbeddingsBulk(pendingDocs, uploadBatch, MaxRetries, uploadRest);
    FlushStep(flushes, pendingDocs, uploadBatch, uploadScript);
    ingested' := ingested + ing;
    flushes' := flushes + [pendingDocs];
  }

  lemma FlushStep(flushes: seq<seq<Document>>, f: seq<Document>, ub: nat, script: seq<UploadOutcome>)
    requires ub > 0
    ensures var before := FlushAll(flushes, ub, script);
      var run := Bulk(f, ub, MaxRetries, before.rest);
      FlushAll(flushes + [f], ub, script) == Flushed(before.total + Total(run.logs), run.rest)
  {
    assert (flushes + [f])[..|flushes|] == flushes;
  }

  /** One pass of the loop over `zip(chunk_batch, embeddings)`: the chunk with id
      `globalChunkId` becomes a record that is appended to `pending_docs`, and the buffer
      is flushed as soon as it holds `UPLOAD_BATCH` records. */
  method AddRecord(fileName: String, globalChunkId: nat, chunk: String, embedding: Vector,
                   env: Services, uploadBatch: int, ghost uploadScript: seq<UploadOutcome>,
                   pendingDocs: seq<Document>, flushes: seq<seq<Document>>, ingested: nat,
                   uploadRest: seq<UploadOutcome>, ghost staged: seq<Item>)
    returns (pendingDocs': seq<Document>, flushes': seq<seq<Document>>, ingested': nat,
             uploadRest': seq<UploadOutcome>, ghost staged': seq<Item>)
    requires Buffered(fileName, env, uploadBatch, uploadScript, staged, flushes, pendingDocs, ingested, uploadRest)
    ensures staged' == staged + [Item(globalChunkId, chunk, embedding)]
    ensures Buffered(fileName, env, uploadBatch, uploadScript, staged', flushes', pendingDocs', ingested', uploadRest')
  {
    var metadata := ChunkMetadata(fileName, globalChunkId, chunk, env);
    var docKey := ChunkKey(fileName, globalChunkId);
    var doc := DocumentFromParts(docKey, chunk, embedding, metadata, env.fmt);
    ghost var it := Item(globalChunkId, chunk, embedding);
    assert doc == Record(fileName, env, it);
    RecordsSnoc(fileName, env, staged, it);
    assert Flatten(flushes) + (pendingDocs + [doc]) == (Flatten(flushes) + pendingDocs) + [doc];
    pendingDocs', flushes', ingested', uploadRest', staged' := pendingDocs + [doc], flushes, ingested, uploadRest, staged + [it];
    if |pendingDocs'| >= uploadBatch {
      FlattenSnoc(flushes', pendingDocs');
      flushes', ingested', uploadRest' := Flush(pendingDocs', flushes', ingested', uploadRest', uploadScript, uploadBatch);
      pendingDocs' := [];
      assert Flatten(flushes') + pendingDocs' == Flatten(flushes');
    }
  }

  /** The loop over `zip(chunk_batch, embeddings)` of one window at chunk offset `i`: each
      pair becomes a record with chunk id `i + j`, is appended to `pending_docs`, and the
      buffer is flushed as soon as it holds `UPLOAD_BATCH` records. */
  method AddWindow(fileName: String, i: nat, chunkBatch: seq<String>, embeddings: seq<Vector>,
                   env: Services, uploadBatch: int, ghost uploadScript: seq<UploadOutcome>,
                   pendingDocs: seq<Document>, flushes: seq<seq<Document>>, ingested: nat,
                   uploadRest: seq<UploadOutcome>, ghost staged: seq<Item>)
    returns (pendingDocs': seq<Document>, flushes': seq<seq<Document>>, ingested': nat,
             uploadRest': seq<UploadOutcome>, ghost staged': seq<Item>)
    requires Buffered(fileName, env, uploadBatch, uploadScript, staged, flushes, pendingDocs, ingested, uploadRest)
    ensures staged' == staged + WindowItems(i, chunkBatch, embeddings)
    ensures Buffered(fileName, env, uploadBatch, uploadScript, staged', flushes', pendingDocs', ingested', uploadRest')
  {
    ghost var window := WindowItems(i, chunkBatch, embeddings);
    pendingDocs', flushes', ingested', uploadRest', staged' := pendingDocs, flushes, ingested, uploadRest, staged;
    var j := 0;
    while j < |chunkBatch| && j < |embeddings|
      invariant 0 <= j <= |window|
      invariant staged' == staged + window[..j]
      invariant Buffered(fileName, env, uploadBatch, uploadScript, staged', flushes', pendingDocs', ingested', uploadRest')
    {
      assert window[..j + 1] == window[..j] + [Item(i + j, chunkBatch[j], embeddings[j])];
      pendingDocs', flushes', ingested', uploadRest', staged' :=
        AddRecord(fileName, i + j, chunkBatch[j], embeddings[j], env, uploadBatch, uploadScript,
                  pendingDocs', flushes', ingested', uploadRest', staged');
      j := j + 1;
    }
    assert window[..j] == window;
  }

  /** The items `staged` so far, followed by what the windows from chunk offset `i` on
      still stage with the responses `embedRest`, are everything `whole` stages. */
  predicate Remaining(whole: Staging, staged: seq<Item>, chunks: seq<String>, i: nat, eb: nat,
                      embedRest: seq<Response>)
    requires eb > 0
  {
    var left := StageWindows(Windows(chunks, i, eb), i, eb, embedRest);
    whole.items == staged + left.items && whole.rest == left.rest
  }

  /** One turn of the embed-window loop, at chunk offset `i`: the window is sliced and
      filtered, skipped when nothing is left, and otherwise embedded and staged. */
  method EmbedWindow(fileName: String, chunks: seq<String>, i: nat, embedBatch: int, uploadBatch: int,
                     env: Services, ghost uploadScript: seq<UploadOutcome>,
                     pendingDocs: seq<Document>, flushes: seq<seq<Document>>, ingested: nat,
                     embedRest: seq<Response>, uploadRest: seq<UploadOutcome>, ghost staged: seq<Item>,
                     ghost whole: Staging)
    returns (pendingDocs': seq<Document>, flushes': seq<seq<Document>>, ingested': nat,
             embedRest': seq<Response>, uploadRest': seq<UploadOutcome>, ghost staged': seq<Item>)
    requires embedBatch > 0 && uploadBatch > 0 && i < |chunks|
    requires Remaining(whole, staged, chunks, i, embedBatch, embedRest)
    requires Buffered(fileName, env, uploadBatch, uploadScript, staged, flushes, pendingDocs, ingested, uploadRest)
    ensures Remaining(whole, staged', chunks, i + embedBatch, embedBatch, embedRest')
    ensures Buffered(fileName, env, uploadBatch, uploadScript, staged', flushes', pendingDocs', ingested', uploadRest')
  {
    pendingDocs', flushes', ingested', embedRest', uploadRest', staged' :=
      pendingDocs, flushes, ingested, embedRest, uploadRest, staged;
    var chunkBatch := chunks[i..Min(i + embedBatch, |chunks|)];
    chunkBatch := DropBlank(chunkBatch);
    assert chunkBatch == Window(chunks, i, embedBatch);
    if chunkBatch == [] {
      RemainingSkip(whole, staged, chunks, i, embedBatch, embedRest);
      return;
    }
    var embeddings := CreateEmbeddingsBatch(chunkBatch, NextResponse(embedRest));
    pendingDocs', flushes', ingested', uploadRest', staged' :=
      AddWindow(fileName, i, chunkBatch, embeddings, env, uploadBatch, uploadScript,
                pendingDocs, flushes, ingested, uploadRest, staged);
    embedRest' := RestResponses(embedRest);
    RemainingTurn(whole, staged, chunks, i, embedBatch, embedRest);
  }

  lemma RemainingSkip(whole: Staging, staged: seq<Item>, chunks: seq<String>, i: nat, eb: nat,
                      embedRest: seq<Response>)
    requires eb > 0 && i < |chunks| && Window(chunks, i, eb) == []
    requires Remaining(whole, staged, chunks, i, eb, embedRest)
    ensures Remaining(whole, staged, chunks, i + eb, eb, embedRest)
  {
    StageSkipTurn(chunks, i, eb, embedRest);
  }

  lemma RemainingTurn(whole: Staging, staged: seq<Item>, chunks: seq<String>, i: nat, eb: nat,
                      embedRest: seq<Response>)
    requires eb > 0 && i < |chunks| && Window(chunks, i, eb) != []
    requires Remaining(whole, staged, chunks, i, eb, embedRest)
    ensures var w := Window(chunks, i, eb);
      var head := WindowItems(i, w, CreateEmbeddingsBatch(w, NextResponse(embedRest)));
      Remaining(whole, staged + head, chunks, i + eb, eb, RestResponses(embedRest))
  {
    StageTurn(chunks, i, eb, embedRest);
    var w := Window(chunks, i, eb);
    var head := WindowItems(i, w, CreateEmbeddingsBatch(w, NextResponse(embedRest)));
    var later := StageWindows(Windows(chunks, i + eb, eb), i + eb, eb, RestResponses(embedRest));
    assert staged + (head + later.items) == (staged + head) + later.items;
  }

  /** The embed-window loop of one file: every window is embedded and its records are
      staged in `pending_docs`, which is flushed whenever it is full. Returns what is still
      pending, the flushes made so far, their ingested count, and what the two services
      have left. */
  method EmbedWindows(fileName: String, chunks: seq<String>, embedBatch: int, uploadBatch: int,
                      embedScript: seq<Response>, uploadScript: seq<UploadOutcome>, env: Services)
    returns (pendingDocs: seq<Document>, flushes: seq<seq<Document>>, ingested: nat,
             embedRest: seq<Response>, uploadRest: seq<UploadOutcome>)
    requires embedBatch > 0 && uploadBatch > 0
    ensures Flatten(flushes) + pendingDocs == Staged(fileName, chunks, embedBatch, embedScript, env)
    ensures forall k :: 0 <= k < |flushes| ==> |flushes[k]| == uploadBatch
    ensures |pendingDocs| < uploadBatch
    ensures FlushAll(flushes, uploadBatch, uploadScript) == Flushed(ingested, uploadRest)
    ensures embedRest == Stage(chunks, embedBatch, embedScript).rest
  {
    ingested, flushes, embedRest, uploadRest := 0, [], embedScript, uploadScript;
    pendingDocs := [];
    ghost var staged: seq<Item> := [];
    ghost var whole := Stage(chunks, embedBatch, embedScript);
    assert [] + whole.items == whole.items;
    var i: nat := 0;
    while i < |chunks|
      invariant Remaining(whole, staged, chunks, i, embedBatch, embedRest)
      invariant Buffered(fileName, env, uploadBatch, uploadScript, staged, flushes, pendingDocs, ingested, uploadRest)
      decreases |chunks| - i
    {
      pendingDocs, flushes, ingested, embedRest, uploadRest, staged :=
        EmbedWindow(fileName, chunks, i, embedBatch, uploadBatch, env, uploadScript,
                    pendingDocs, flushes, ingested, embedRest, uploadRest, staged, whole);
      i := i + embedBatch;
    }
    assert staged + [] == staged;
  }

  /** One file's chunks from the embed-window loop to the last flush of `pending_docs`.
      Returns the count the flushes ingested, the records of each flush in order, and the
      responses and outcomes the two services have left. The flushes are exactly the
      `UPLOAD_BATCH`-slices of the staged records. */
  method IngestFile(fileName: String, chunks: seq<String>, embedBatch: int, uploadBatch: int,
                    embedScript: seq<Response>, uploadScript: seq<UploadOutcome>, env: Services)
    returns (ingested: nat, flushes: seq<seq<Document>>, embedRest: seq<Response>,
             uploadRest: seq<UploadOutcome>)
    requires embedBatch > 0 && uploadBatch > 0
    ensures flushes == Batches(Staged(fileName, chunks, embedBatch, embedScript, env), uploadBatch)
    ensures embedRest == Stage(chunks, embedBatch, embedScript).rest
    ensures FlushAll(flushes, uploadBatch, uploadScript) == Flushed(ingested, uploadRest)
  {
    var pendingDocs;
    pendingDocs, flushes, ingested, embedRest, uploadRest :=
      EmbedWindows(fileName, chunks, embedBatch, uploadBatch, embedScript, uploadScript, env);
    if pendingDocs != [] {
      FlattenSnoc(flushes, pendingDocs);
      flushes, ingested, uploadRest := Flush(pendingDocs, flushes, ingested, uploadRest, uploadScript, uploadBatch);
    } else {
      assert Flatten(flushes) + [] == Flatten(flushes);
    }
    ShapeIsBatches(flushes, uploadBatch);
  }

  // ---------------------------------------------------------------- all files

  /** The loop's state between files: `total_chunks_ingested`, `files_done`, the names of
      the files whose processing raised, and what the two services have left. */
  datatype Progress = Progress(total: nat, filesDone: nat, failed: seq<String>,
                               embedRest: seq<Response>, uploadRest: seq<UploadOutcome>)

  /** One pass of `for uploaded_file in uploaded_files`: an unreadable PDF makes
      `process_pdf` raise, so the file is reported and nothing is staged for it; any other
      file is chunked, staged and flushed, and the flushes' count is added to the total. */
  function FileStep(p: Progress, f: FileInput, eb: nat, ub: nat, env: Services): Progress
    requires eb > 0 && ub > 0
  {
    match f.pdf
    case None => Progress(p.total, p.filesDone + 1, p.failed + [f.name], p.embedRest, p.uploadRest)
    case Some(pages) =>
      var chunks := PdfChunks(pages, env.split);
      var flushed := FlushAll(Batches(Staged(f.name, chunks, eb, p.embedRest, env), ub), ub, p.uploadRest);
      Progress(p.total + flushed.total, p.filesDone + 1, p.failed, Stage(chunks, eb, p.embedRest).rest, flushed.rest)
  }

  /** The loop's state after the files `files`, in order. */
  function FilesRun(files: seq<FileInput>, eb: nat, ub: nat, embedScript: seq<Response>,
                    uploadScript: seq<UploadOutcome>, env: Services): Progress
    requires eb > 0 && ub > 0
  {
    if files == [] then Progress(0, 0, [], embedScript, uploadScript)
    else FileStep(FilesRun(files[..|files| - 1], eb, ub, embedScript, uploadScript, env), files[|files| - 1], eb, ub, env)
  }

  /** The name a file adds to the failure report: its own when its PDF cannot be read. */
  function Reported(f: FileInput): seq<String> {
    if f.pdf.None? then [f.name] else []
  }

  /** `f(xs[0]) + f(xs[1]) + ...`. */
  function Gather<T, U>(f: T -> seq<U>, xs: seq<T>): seq<U> {
    if xs == [] then [] else f(xs[0]) + Gather(f, xs[1..])
  }

  lemma {:induction false} GatherLast<T, U>(f: T -> seq<U>, xs: seq<T>)
    requires xs != []
    ensures Gather(f, xs) == Gather(f, xs[..|xs| - 1]) + f(xs[|xs| - 1])
    decreases |xs|
  {
    var last := xs[|xs| - 1];
    if |xs| == 1 {
      assert xs[..0] == [] && xs[1..] == [];
    } else {
      var init := xs[..|xs| - 1];
      assert xs[1..][..|xs| - 2] == init[1..];
      assert xs[1..][|xs| - 2] == last;
      GatherLast(f, xs[1..]);
      assert init[0] == xs[0];
      assert Gather(f, init) == f(xs[0]) + Gather(f, init[1..]);
      assert f(xs[0]) + (Gather(f, init[1..]) + f(last)) == (f(xs[0]) + Gather(f, init[1..])) + f(last);
    }
  }

  /** The names of the files whose PDF cannot be read, in upload order. */
  function UnreadableNames(files: seq<FileInput>): seq<String> {
    Gather(Reported, files)
  }

  /** Every file is counted in `files_done`, whether or not its processing raised, and
      exactly the unreadable ones are reported as failed, in order. */
  lemma {:induction false} FilesRunReports(files: seq<FileInput>, eb: nat, ub: nat, embedScript: seq<Response>,
                                           uploadScript: seq<UploadOutcome>, env: Services)
    requires eb > 0 && ub > 0
    ensures FilesRun(files, eb, ub, embedScript, uploadScript, env).filesDone == |files|
    ensures FilesRun(files, eb, ub, embedScript, uploadScript, env).failed == UnreadableNames(files)
    decreases |files|
  {
    if files != [] {
      var init := files[..|files| - 1];
      var last := files[|files| - 1];
      var before := FilesRun(init, eb, ub, embedScript, uploadScript, env);
      assert FilesRun(files, eb, ub, embedScript, uploadScript, env) == FileStep(before, last, eb, ub, env);
      FilesRunReports(init, eb, ub, embedScript, uploadScript, env);
      FileStepReports(before, last, eb, ub, env);
      GatherLast(Reported, files);
    }
  }

  lemma FileStepReports(p: Progress, f: FileInput, eb: nat, ub: nat, env: Services)
    requires eb > 0 && ub > 0
    ensures FileStep(p, f, eb, ub, env).filesDone == p.filesDone + 1
    ensures FileStep(p, f, eb, ub, env).failed == p.failed + Reported(f)
  {
    if f.pdf.Some? {
      assert p.failed + [] == p.failed;
    }
  }

  /** `total_chunks_ingested` never decreases: after any prefix of the files it is at most
      its final value. */
  lemma {:induction false} TotalMonotone(files: seq<FileInput>, k: nat, eb: nat, ub: nat, embedScript: seq<Response>,
                                         uploadScript: seq<UploadOutcome>, env: Services)
    requires eb > 0 && ub > 0 && k <= |files|
    ensures FilesRun(files[..k], eb, ub, embedScript, uploadScript, env).total
      <= FilesRun(files, eb, ub, embedScript, uploadScript, env).total
    decreases |files|
  {
    if k < |files| {
      var init := files[..|files| - 1];
      TotalMonotone(init, k, eb, ub, embedScript, uploadScript, env);
      assert init[..k] == files[..k];
    } else {
      assert files[..k] == files;
    }
  }

  /** The loop over the uploaded files, from the first file to the last: returns
      `total_chunks_ingested`, `files_done`, the files reported as failed, and what the two
      services have left. */
  method IngestFiles(files: seq<FileInput>, embedBatch: int, uploadBatch: int,
                     embedScript: seq<Response>, uploadScript: seq<UploadOutcome>, env: Services)
    returns (total: nat, filesDone: nat, failed: seq<String>, embedRest: seq<Response>,
             uploadRest: seq<UploadOutcome>)
    requires embedBatch > 0 && uploadBatch > 0
    ensures Progress(total, filesDone, failed, embedRest, uploadRest)
      == FilesRun(files, embedBatch, uploadBatch, embedScript, uploadScript, env)
  {
    total, filesDone, failed, embedRest, uploadRest := 0, 0, [], embedScript, uploadScript;
    for k := 0 to |files|
      invariant Progress(total, filesDone, failed, embedRest, uploadRest)
        == FilesRun(files[..k], embedBatch, uploadBatch, embedScript, uploadScript, env)
    {
      assert files[..k + 1][..k] == files[..k];
      var f := files[k];
      match f.pdf {
        case None =>
          failed := failed + [f.name];
        case Some(pages) =>
          var chunks := ProcessPdf(pages, env.split);
          var ingested, flushes;
          ingested, flushes, embedRest, uploadRest :=
            IngestFile(f.name, chunks, embedBatch, uploadBatch, embedRest, uploadRest, env);
          total := total + ingested;
      }
      filesDone := filesDone + 1;
    }
    assert files[..|files|] == files;
  }
}
