/**
 * `document_from_parts` and `store_embeddings_bulk` (db_utils.py). The search service is
 * outside the model: each `upload_documents` call takes the next outcome of a scripted
 * sequence, and every `sleep` is recorded as a delay instead of waited for. The clock's
 * ISO rendering and `json.dumps` are opaque functions.
 */
module BulkStore {
  import opened Wrappers
  import opened TextUtils
  import opened Embeddings

  /** The metadata dictionary handed to `document_from_parts`; `None` is a missing key. */
  datatype Metadata = Metadata(
    filename: Option<String>,
    chunkId: Option<int>,
    timestamp: Option<real>,
    textHash: Option<String>,
    pageNumber: Option<int>)

  /** `datetime.fromtimestamp(t).isoformat()` and `json.dumps(metadata)`. */
  datatype Formats = Formats(isoFormat: real -> String, dumps: Metadata -> String)

  /** One search-index record. */
  datatype Document = Document(
    id: String,
    content: String,
    contentVector: Vector,
    filename: Option<String>,
    chunkId: Option<int>,
    textHash: Option<String>,
    timestamp: String,
    fileType: String,
    pageNumber: Option<int>,
    metadata: String)

  /** The `fileType` every record carries. */
  const PdfFileType: String := "pdf"

  /** The suffix appended to the ISO timestamp. */
  const UtcSuffix: String := "Z"

  /** `document_from_parts`. */
  function DocumentFromParts(docKey: String, text: String, embedding: Vector, metadata: Metadata,
                             fmt: Formats): (d: Document)
    ensures d.id == docKey && d.content == text && d.contentVector == embedding
    ensures d.fileType == "pdf"
    ensures d.filename == metadata.filename && d.chunkId == metadata.chunkId
    ensures d.textHash == metadata.textHash && d.pageNumber == metadata.pageNumber
    ensures d.timestamp == fmt.isoFormat(metadata.timestamp.GetOr(0.0)) + "Z"
    ensures d.metadata == fmt.dumps(metadata)
  {
    Document(
      docKey, text, embedding,
      metadata.filename, metadata.chunkId, metadata.textHash,
      fmt.isoFormat(metadata.timestamp.GetOr(0.0)) + UtcSuffix,
      PdfFileType,
      metadata.pageNumber,
      fmt.dumps(metadata))
  }

  /** Records built from parts determine the key, text, vector and copied metadata fields
      they were built from. */
  lemma DocumentFromPartsDetermines(k1: String, t1: String, e1: Vector, m1: Metadata,
                                    k2: String, t2: String, e2: Vector, m2: Metadata, fmt: Formats)
    requires DocumentFromParts(k1, t1, e1, m1, fmt) == DocumentFromParts(k2, t2, e2, m2, fmt)
    ensures k1 == k2 && t1 == t2 && e1 == e2
    ensures m1.filename == m2.filename && m1.chunkId == m2.chunkId
    ensures m1.textHash == m2.textHash && m1.pageNumber == m2.pageNumber
  {
  }

  // ---------------------------------------------------------------- the upload service

  /** What one `upload_documents` call does: raise, or return one result per record with
      its `succeeded` flag. */
  datatype UploadOutcome = Raised | Acked(succeeded: seq<bool>)

  /** The outcome of the next call; a service whose script has run out keeps raising. */
  function Next(script: seq<UploadOutcome>): UploadOutcome {
    if script == [] then Raised else script[0]
  }

  function Rest(script: seq<UploadOutcome>): seq<UploadOutcome> {
    if script == [] then [] else script[1..]
  }

  /** The outcome of call number `k` (0-based) of a script. */
  function Nth(script: seq<UploadOutcome>, k: nat): UploadOutcome {
    if k < |script| then script[k] else Raised
  }

  /** The script after `k` calls. */
  function Drop(script: seq<UploadOutcome>, k: nat): seq<UploadOutcome> {
    if k < |script| then script[k..] else []
  }

  /** `sum(1 for r in results if r.succeeded)`. */
  function {:induction false} CountTrue(flags: seq<bool>): (n: nat)
    ensures n <= |flags|
    ensures n == 0 <==> forall k :: 0 <= k < |flags| ==> !flags[k]
    ensures n == |flags| <==> forall k :: 0 <= k < |flags| ==> flags[k]
  {
    if flags == [] then 0
    else
      var m := CountTrue(flags[1..]);
      assert forall k :: 1 <= k < |flags| ==> flags[k] == flags[1..][k - 1];
      (if flags[0] then 1 else 0) + m
  }

  function Max(a: int, b: int): int {
    if a < b then b else a
  }

  function Min(a: int, b: int): int {
    if a < b then a else b
  }

  // ---------------------------------------------------------------- one batch

  /** What happened to one batch: how many upload attempts it took, the per-record flags of
      the attempt that returned (none when the batch was abandoned), and the delays slept
      between attempts. */
  datatype BatchLog = BatchLog(
    batch: seq<Document>,
    attempts: nat,
    results: seq<bool>,
    abandoned: bool,
    delays: seq<real>)

  datatype Retried = Retried(log: BatchLog, rest: seq<UploadOutcome>)

  /** Linear backoff: the delay slept after failed attempt `attempt` when another follows. */
  function Backoff(attempt: nat): real {
    1.5 * attempt as real
  }

  /** The retry loop of `store_embeddings_bulk` for one batch, entered after `failures`
      failed attempts. Each failure increments `attempt`; once it exceeds `maxRetries` the
      batch is given up, otherwise the loop sleeps `1.5 * attempt` and tries again. */
  function Retry(batch: seq<Document>, maxRetries: int, failures: nat, script: seq<UploadOutcome>): (r: Retried)
    decreases Max(maxRetries - failures, 0)
    ensures r.log.batch == batch && failures < r.log.attempts
  {
    match Next(script)
    case Acked(flags) => Retried(BatchLog(batch, failures + 1, flags, false, []), Rest(script))
    case Raised =>
      if failures + 1 > maxRetries then
        Retried(BatchLog(batch, failures + 1, [], true, []), Rest(script))
      else
        var r := Retry(batch, maxRetries, failures + 1, Rest(script));
        Retried(r.log.(delays := [Backoff(failures + 1)] + r.log.delays), r.rest)
  }

  /** What the retry loop guarantees, entered after `failures` failed attempts: at most
      `max_retries + 1` attempts in all; every attempt but the last raised; an abandoned
      batch's last attempt raised too and it reports no results, otherwise the results are
      those of the attempt that returned; one delay `1.5 * attempt` after each failed
      attempt but the last; and exactly the attempts' outcomes are consumed. */
  lemma {:induction false} RetryFacts(batch: seq<Document>, maxRetries: int, failures: nat, script: seq<UploadOutcome>)
    decreases Max(maxRetries - failures, 0)
    ensures var log := Retry(batch, maxRetries, failures, script).log;
      && log.attempts <= Max(maxRetries, failures) + 1
      && |log.delays| == log.attempts - failures - 1
      && (forall k :: 0 <= k < |log.delays| ==> log.delays[k] == Backoff(failures + k + 1))
      && (forall k :: 0 <= k < log.attempts - failures - 1 ==> Nth(script, k) == Raised)
      && (log.abandoned ==> Nth(script, log.attempts - failures - 1) == Raised)
      && (log.abandoned ==> log.attempts == Max(maxRetries, failures) + 1 && log.results == [])
      && (!log.abandoned ==> Nth(script, log.attempts - failures - 1) == Acked(log.results))
    ensures Retry(batch, maxRetries, failures, script).rest
      == Drop(script, Retry(batch, maxRetries, failures, script).log.attempts - failures)
  {
    NthRest(script);
    if Next(script) == Raised && failures + 1 <= maxRetries {
      var r := Retry(batch, maxRetries, failures + 1, Rest(script));
      RetryFacts(batch, maxRetries, failures + 1, Rest(script));
      DropRest(script, r.log.attempts - failures - 1);
    }
  }

  lemma NthRest(script: seq<UploadOutcome>)
    ensures Nth(script, 0) == Next(script)
    ensures forall k: nat :: 0 < k ==> Nth(script, k) == Nth(Rest(script), k - 1)
  {
  }

  lemma DropRest(script: seq<UploadOutcome>, k: nat)
    ensures Drop(Rest(script), k) == Drop(script, k + 1)
  {
    if script != [] && k < |Rest(script)| {
      assert script[1..][k..] == script[k + 1..];
    }
  }

  /** A log as the retry loop leaves it, starting from no failures. */
  predicate Shaped(log: BatchLog, maxRetries: int) {
    && 1 <= log.attempts <= Max(maxRetries, 0) + 1
    && |log.delays| == log.attempts - 1
    && (forall k :: 0 <= k < |log.delays| ==> log.delays[k] == Backoff(k + 1))
    && (log.abandoned ==> log.attempts == Max(maxRetries, 0) + 1 && log.results == [])
  }

  // ---------------------------------------------------------------- batches

  /** The consecutive slices `xs[i:i+n]` for `i` in `range(start, len(xs), n)`. */
  function BatchesFrom<T>(xs: seq<T>, start: nat, n: nat): seq<seq<T>>
    requires n > 0
    decreases |xs| - start
  {
    if start >= |xs| then [] else [xs[start..Min(start + n, |xs|)]] + BatchesFrom(xs, start + n, n)
  }

  /** The slices of `range(0, len(xs), n)`; a negative step gives an empty range. Python
      raises on a zero step, so `n` is never zero. */
  function Batches<T>(xs: seq<T>, n: int): seq<seq<T>>
    requires n != 0
  {
    if n < 0 then [] else BatchesFrom(xs, 0, n)
  }

  function Flatten<T>(bss: seq<seq<T>>): seq<T> {
    if bss == [] then [] else bss[0] + Flatten(bss[1..])
  }

  lemma {:induction false} BatchesFromPartition<T>(xs: seq<T>, start: nat, n: nat)
    requires n > 0 && start <= |xs|
    ensures Flatten(BatchesFrom(xs, start, n)) == xs[start..]
    ensures forall k :: 0 <= k < |BatchesFrom(xs, start, n)| ==> 0 < |BatchesFrom(xs, start, n)[k]| <= n
    ensures forall k :: 0 <= k < |BatchesFrom(xs, start, n)| - 1 ==> |BatchesFrom(xs, start, n)[k]| == n
    decreases |xs| - start
  {
    var bs := BatchesFrom(xs, start, n);
    if start < |xs| {
      var next := Min(start + n, |xs|);
      var tail := BatchesFrom(xs, next, n);
      assert BatchesFrom(xs, start + n, n) == tail by {
        if start + n > |xs| {
          assert tail == [];
        }
      }
      BatchesFromPartition(xs, next, n);
      assert bs == [xs[start..next]] + tail;
      assert bs[1..] == tail;
      assert xs[start..] == xs[start..next] + xs[next..];
      forall k | 0 <= k < |bs| - 1
        ensures |bs[k]| == n
      {
        if k == 0 {
          assert tail != [];
        } else {
          assert bs[k] == tail[k - 1];
        }
      }
    }
  }

  /** `store_embeddings_bulk` cuts `documents` into consecutive slices: together they are
      exactly `documents`, each holds between 1 and `n` records and all but the last hold
      exactly `n`. */
  lemma BatchesPartition<T>(xs: seq<T>, n: nat)
    requires n > 0
    ensures Flatten(Batches(xs, n)) == xs
    ensures forall k :: 0 <= k < |Batches(xs, n)| ==> 0 < |Batches(xs, n)[k]| <= n
    ensures forall k :: 0 <= k < |Batches(xs, n)| - 1 ==> |Batches(xs, n)[k]| == n
  {
    BatchesFromPartition(xs, 0, n);
  }

  // ---------------------------------------------------------------- all batches

  datatype BulkRun = BulkRun(logs: seq<BatchLog>, rest: seq<UploadOutcome>)

  /** The outer loop of `store_embeddings_bulk` from offset `start` on: each slice is retried
      in turn, whether or not the previous one was abandoned. */
  function BulkFrom(documents: seq<Document>, start: nat, n: nat, maxRetries: int,
                    script: seq<UploadOutcome>): BulkRun
    requires n > 0
    decreases |documents| - start
  {
    if start >= |documents| then BulkRun([], script)
    else
      var r := Retry(documents[start..Min(start + n, |documents|)], maxRetries, 0, script);
      var tail := BulkFrom(documents, start + n, n, maxRetries, r.rest);
      BulkRun([r.log] + tail.logs, tail.rest)
  }

  lemma BulkFromStep(documents: seq<Document>, start: nat, n: nat, maxRetries: int, script: seq<UploadOutcome>)
    requires n > 0 && start < |documents|
    ensures var r := Retry(documents[start..Min(start + n, |documents|)], maxRetries, 0, script);
      var tail := BulkFrom(documents, start + n, n, maxRetries, r.rest);
      BulkFrom(documents, start, n, maxRetries, script) == BulkRun([r.log] + tail.logs, tail.rest)
  {
  }

  /** Every batch upload of one `store_embeddings_bulk` call. */
  function Bulk(documents: seq<Document>, batchSize: int, maxRetries: int,
                script: seq<UploadOutcome>): BulkRun
    requires batchSize != 0
  {
    if batchSize < 0 then BulkRun([], script) else BulkFrom(documents, 0, batchSize, maxRetries, script)
  }

  /** The returned total: the `succeeded` flags over all batches. */
  function Total(logs: seq<BatchLog>): nat {
    if logs == [] then 0 else Total(logs[..|logs| - 1]) + CountTrue(logs[|logs| - 1].results)
  }

  /** `k` copies of one batch: the argument of `k` upload attempts. */
  function Repeat(batch: seq<Document>, k: nat): (r: seq<seq<Document>>)
    ensures |r| == k && forall i :: 0 <= i < k ==> r[i] == batch
  {
    if k == 0 then [] else Repeat(batch, k - 1) + [batch]
  }

  /** The `documents` argument of every upload call, in call order. */
  function Calls(logs: seq<BatchLog>): seq<seq<Document>> {
    if logs == [] then [] else Calls(logs[..|logs| - 1]) + Repeat(logs[|logs| - 1].batch, logs[|logs| - 1].attempts)
  }

  /** Every delay slept, in order. */
  function Sleeps(logs: seq<BatchLog>): seq<real> {
    if logs == [] then [] else Sleeps(logs[..|logs| - 1]) + logs[|logs| - 1].delays
  }

  lemma LogsAppend(logs: seq<BatchLog>, log: BatchLog)
    ensures Total(logs + [log]) == Total(logs) + CountTrue(log.results)
    ensures Calls(logs + [log]) == Calls(logs) + Repeat(log.batch, log.attempts)
    ensures Sleeps(logs + [log]) == Sleeps(logs) + log.delays
  {
    assert (logs + [log])[..|logs|] == logs;
  }

  /** One log per slice, for that slice, each shaped by the retry loop: a permanently
      failed slice does not stop the later ones. */
  lemma {:induction false} BulkFromLogs(documents: seq<Document>, start: nat, n: nat, maxRetries: int,
                                        script: seq<UploadOutcome>)
    requires n > 0
    ensures var logs, bs := BulkFrom(documents, start, n, maxRetries, script).logs, BatchesFrom(documents, start, n);
      |logs| == |bs| && forall k :: 0 <= k < |bs| ==> logs[k].batch == bs[k] && Shaped(logs[k], maxRetries)
    decreases |documents| - start
  {
    if start < |documents| {
      var batch := documents[start..Min(start + n, |documents|)];
      var r := Retry(batch, maxRetries, 0, script);
      RetryFacts(batch, maxRetries, 0, script);
      BulkFromLogs(documents, start + n, n, maxRetries, r.rest);
      var logs := BulkFrom(documents, start, n, maxRetries, script).logs;
      var bs := BatchesFrom(documents, start, n);
      var tailLogs := BulkFrom(documents, start + n, n, maxRetries, r.rest).logs;
      var tailBs := BatchesFrom(documents, start + n, n);
      assert logs == [r.log] + tailLogs;
      assert bs == [batch] + tailBs;
      forall k | 0 <= k < |bs|
        ensures logs[k].batch == bs[k] && Shaped(logs[k], maxRetries)
      {
        if k == 0 {
          assert Shaped(r.log, maxRetries);
        } else {
          assert logs[k] == tailLogs[k - 1] && bs[k] == tailBs[k - 1];
        }
      }
    }
  }

  lemma BulkLogs(documents: seq<Document>, batchSize: int, maxRetries: int, script: seq<UploadOutcome>)
    requires batchSize != 0
    ensures var logs, bs := Bulk(documents, batchSize, maxRetries, script).logs, Batches(documents, batchSize);
      |logs| == |bs| && forall k :: 0 <= k < |bs| ==> logs[k].batch == bs[k] && Shaped(logs[k], maxRetries)
  {
    if batchSize > 0 {
      BulkFromLogs(documents, 0, batchSize, maxRetries, script);
    }
  }

  /** The records a run reports on: each log's batch, in order. */
  function Sizes(logs: seq<BatchLog>): nat {
    if logs == [] then 0 else Sizes(logs[..|logs| - 1]) + |logs[|logs| - 1].batch|
  }

  /** With at most one result per record, the total never exceeds the records sent. */
  lemma {:induction false} TotalBound(logs: seq<BatchLog>)
    requires forall k :: 0 <= k < |logs| ==> |logs[k].results| <= |logs[k].batch|
    ensures Total(logs) <= Sizes(logs)
  {
    if logs != [] {
      TotalBound(logs[..|logs| - 1]);
    }
  }

  lemma {:induction false} SizesFlatten(logs: seq<BatchLog>, bss: seq<seq<Document>>)
    requires |logs| == |bss| && forall k :: 0 <= k < |logs| ==> logs[k].batch == bss[k]
    ensures Sizes(logs) == |Flatten(bss)|
    decreases |logs|
  {
    if logs != [] {
      var m := |logs| - 1;
      SizesFlatten(logs[..m], bss[..m]);
      FlattenSnoc(bss[..m], bss[m]);
      assert bss == bss[..m] + [bss[m]];
    }
  }

  lemma {:induction false} FlattenSnoc<T>(bss: seq<seq<T>>, bs: seq<T>)
    ensures Flatten(bss + [bs]) == Flatten(bss) + bs
    decreases |bss|
  {
    if bss == [] {
      assert Flatten([bs]) == bs + Flatten([bs][1..]);
    } else {
      assert (bss + [bs])[1..] == bss[1..] + [bs];
      FlattenSnoc(bss[1..], bs);
    }
  }

  /** The returned total lies between 0 and `len(documents)` when the service answers each
      record with at most one result. */
  lemma TotalAtMostDocuments(documents: seq<Document>, batchSize: int, maxRetries: int, script: seq<UploadOutcome>)
    requires batchSize != 0
    requires var logs := Bulk(documents, batchSize, maxRetries, script).logs;
      forall k :: 0 <= k < |logs| ==> |logs[k].results| <= |logs[k].batch|
    ensures Total(Bulk(documents, batchSize, maxRetries, script).logs) <= |documents|
  {
    var logs := Bulk(documents, batchSize, maxRetries, script).logs;
    TotalBound(logs);
    BulkLogs(documents, batchSize, maxRetries, script);
    if batchSize > 0 {
      BatchesPartition(documents, batchSize);
      SizesFlatten(logs, Batches(documents, batchSize));
    }
  }

  // ---------------------------------------------------------------- the method

  /** The retry loop's state after `attempt` failed attempts, having slept `sleeps` and
      left the outcomes `rest`: what the loop still does from there, with the delays slept so
      far put in front, is the whole retry `whole`. */
  predicate Retrying(whole: Retried, batch: seq<Document>, maxRetries: int, attempt: nat,
                     rest: seq<UploadOutcome>, sleeps: seq<real>)
  {
    var cur := Retry(batch, maxRetries, attempt, rest);
    whole.rest == cur.rest && whole.log == cur.log.(delays := sleeps + cur.log.delays)
  }

  /** An attempt that returns ends the loop with its flags as the batch's results. */
  lemma RetryReturns(whole: Retried, batch: seq<Document>, maxRetries: int, attempt: nat,
                     rest: seq<UploadOutcome>, sleeps: seq<real>)
    requires Retrying(whole, batch, maxRetries, attempt, rest, sleeps) && Next(rest).Acked?
    ensures whole.log.results == Next(rest).succeeded && whole.log.attempts == attempt + 1
    ensures whole.log.delays == sleeps && whole.rest == Rest(rest)
  {
    assert sleeps + [] == sleeps;
  }

  /** The failure of the last allowed attempt ends the loop without results. */
  lemma RetryGivesUp(whole: Retried, batch: seq<Document>, maxRetries: int, attempt: nat,
                     rest: seq<UploadOutcome>, sleeps: seq<real>)
    requires Retrying(whole, batch, maxRetries, attempt, rest, sleeps)
    requires Next(rest) == Raised && attempt + 1 > maxRetries
    ensures whole.log.results == [] && whole.log.attempts == attempt + 1
    ensures whole.log.delays == sleeps && whole.rest == Rest(rest)
  {
    assert sleeps + [] == sleeps;
  }

  /** Any other failure sleeps `1.5 * attempt` and goes round again. */
  lemma RetryAgain(whole: Retried, batch: seq<Document>, maxRetries: int, attempt: nat,
                   rest: seq<UploadOutcome>, sleeps: seq<real>)
    requires Retrying(whole, batch, maxRetries, attempt, rest, sleeps)
    requires Next(rest) == Raised && attempt + 1 <= maxRetries
    ensures Retrying(whole, batch, maxRetries, attempt + 1, Rest(rest), sleeps + [Backoff(attempt + 1)])
  {
    var next := Retry(batch, maxRetries, attempt + 1, Rest(rest));
    assert sleeps + ([Backoff(attempt + 1)] + next.log.delays) == (sleeps + [Backoff(attempt + 1)]) + next.log.delays;
  }

  /** The `while True` retry loop of `store_embeddings_bulk` for one batch: the count of
      `succeeded` flags it adds to the total, the argument of each upload call, the delays
      slept, and the outcomes the service has left. */
  method UploadWithRetry(batch: seq<Document>, maxRetries: int, script: seq<UploadOutcome>)
    returns (succeeded: nat, calls: seq<seq<Document>>, sleeps: seq<real>, rest: seq<UploadOutcome>)
    ensures var r := Retry(batch, maxRetries, 0, script);
      && succeeded == CountTrue(r.log.results)
      && calls == Repeat(batch, r.log.attempts)
      && sleeps == r.log.delays
      && rest == r.rest
  {
    ghost var whole := Retry(batch, maxRetries, 0, script);
    succeeded, calls, sleeps, rest := 0, [], [], script;
    var attempt := 0;
    assert Retrying(whole, batch, maxRetries, attempt, rest, sleeps);
    while true
      invariant 0 <= attempt <= Max(maxRetries, 0)
      invariant Retrying(whole, batch, maxRetries, attempt, rest, sleeps)
      invariant calls == Repeat(batch, attempt)
      decreases Max(maxRetries, 0) - attempt
    {
      var outcome := Next(rest);
      calls := calls + [batch];
      match outcome
      case Acked(flags) =>
        RetryReturns(whole, batch, maxRetries, attempt, rest, sleeps);
        succeeded := CountTrue(flags);
        rest := Rest(rest);
        break;
      case Raised =>
        if attempt + 1 > maxRetries {
          RetryGivesUp(whole, batch, maxRetries, attempt, rest, sleeps);
          rest := Rest(rest);
          attempt := attempt + 1;
          break;
        }
        RetryAgain(whole, batch, maxRetries, attempt, rest, sleeps);
        rest := Rest(rest);
        attempt := attempt + 1;
        sleeps := sleeps + [Backoff(attempt)];
    }
  }

  /** The logs `done` of the batches before offset `i`, followed by what the batches from
      `i` on do with the outcomes `rest`, are the whole run `run`. */
  predicate Pending(run: BulkRun, done: seq<BatchLog>, documents: seq<Document>, i: nat, n: int,
                    maxRetries: int, rest: seq<UploadOutcome>)
    requires n != 0
  {
    var remaining := if n < 0 then BulkRun([], rest) else BulkFrom(documents, i, n, maxRetries, rest);
    run == BulkRun(done + remaining.logs, remaining.rest)
  }

  /** Before the first batch, the whole run is still to come. */
  lemma PendingStart(documents: seq<Document>, n: int, maxRetries: int, script: seq<UploadOutcome>)
    requires n != 0
    ensures Pending(Bulk(documents, n, maxRetries, script), [], documents, 0, n, maxRetries, script)
  {
    var run := Bulk(documents, n, maxRetries, script);
    assert [] + run.logs == run.logs;
  }

  /** One more batch moves its log from the remaining run to the logs done. */
  lemma PendingStep(run: BulkRun, done: seq<BatchLog>, documents: seq<Document>, i: nat, n: nat,
                    maxRetries: int, rest: seq<UploadOutcome>)
    requires n > 0 && i < |documents| && Pending(run, done, documents, i, n, maxRetries, rest)
    ensures var r := Retry(documents[i..Min(i + n, |documents|)], maxRetries, 0, rest);
      Pending(run, done + [r.log], documents, i + n, n, maxRetries, r.rest)
  {
    var r := Retry(documents[i..Min(i + n, |documents|)], maxRetries, 0, rest);
    BulkFromStep(documents, i, n, maxRetries, rest);
    var tail := BulkFrom(documents, i + n, n, maxRetries, r.rest);
    assert done + ([r.log] + tail.logs) == (done + [r.log]) + tail.logs;
  }

  /** With a negative step, or past the last offset, nothing remains: the logs done are the whole run. */
  lemma PendingDone(run: BulkRun, done: seq<BatchLog>, documents: seq<Document>, i: nat, n: int,
                    maxRetries: int, rest: seq<UploadOutcome>)
    requires n != 0 && (n < 0 || i >= |documents|) && Pending(run, done, documents, i, n, maxRetries, rest)
    ensures run == BulkRun(done, rest)
  {
    assert done + [] == done;
  }

  /** The running total, calls and sleeps are those of the logs `done`. */
  predicate Tallied(done: seq<BatchLog>, total: nat, calls: seq<seq<Document>>, sleeps: seq<real>) {
    total == Total(done) && calls == Calls(done) && sleeps == Sleeps(done)
  }

  /** Adding one batch's success count, calls and delays to the tallies of `done` gives
      the tallies of `done` followed by that batch's log. */
  lemma TalliedStep(done: seq<BatchLog>, log: BatchLog, total: nat, calls: seq<seq<Document>>, sleeps: seq<real>)
    requires Tallied(done, total, calls, sleeps)
    ensures Tallied(done + [log], total + CountTrue(log.results), calls + Repeat(log.batch, log.attempts),
                    sleeps + log.delays)
  {
    LogsAppend(done, log);
  }

  /** An empty document list gives no success, no upload call and no sleep. */
  lemma BulkEmpty(batchSize: int, maxRetries: int, script: seq<UploadOutcome>)
    requires batchSize != 0
    ensures var run := Bulk([], batchSize, maxRetries, script);
      Total(run.logs) == 0 && Calls(run.logs) == [] && Sleeps(run.logs) == [] && run.rest == script
  {
  }

  /** `store_embeddings_bulk`: the returned total, the batch passed to each upload call, the
      delays slept, and the outcomes the service has left. */
  method StoreEmbeddingsBulk(documents: seq<Document>, batchSize: int, maxRetries: int,
                             script: seq<UploadOutcome>)
    returns (total: nat, calls: seq<seq<Document>>, sleeps: seq<real>, rest: seq<UploadOutcome>)
    requires batchSize != 0
    ensures var run := Bulk(documents, batchSize, maxRetries, script);
      total == Total(run.logs) && calls == Calls(run.logs) && sleeps == Sleeps(run.logs) && rest == run.rest
  {
    total, calls, sleeps, rest := 0, [], [], script;
    var i := 0;
    ghost var done: seq<BatchLog> := [];
    ghost var run := Bulk(documents, batchSize, maxRetries, script);
    PendingStart(documents, batchSize, maxRetries, script);
    while 0 < batchSize && i < |documents|
      invariant 0 <= i
      invariant Pending(run, done, documents, i, batchSize, maxRetries, rest)
      invariant Tallied(done, total, calls, sleeps)
      decreases |documents| - i
    {
      var batch := documents[i..Min(i + batchSize, |documents|)];
      ghost var log := Retry(batch, maxRetries, 0, rest).log;
      PendingStep(run, done, documents, i, batchSize, maxRetries, rest);
      var ok, batchCalls, batchSleeps;
      ok, batchCalls, batchSleeps, rest := UploadWithRetry(batch, maxRetries, rest);
      TalliedStep(done, log, total, calls, sleeps);
      total, calls, sleeps := total + ok, calls + batchCalls, sleeps + batchSleeps;
      done := done + [log];
      i := i + batchSize;
    }
    PendingDone(run, done, documents, i, batchSize, maxRetries, rest);
  }
}
