// Upload of a blob in chunks, batch by batch. The chunks of a batch finish in any order.

module ChunkedUpload {
  import opened Results
  import opened Retry
  import opened Blobs
  import opened Chunks
  import opened TransferProgress

  /** The index of a chunk is its position. */
  function Indices(total: nat): (index: seq<int>)
  {
    seq(total, i => i)
  }

  /** The result at p names a stored copy of the chunk. */
  ghost predicate IsStored(result: Option<Entry>, p: nat, chunk: Blob, blobs: seq<Blob>)
  {
    && result.Some? && result.value.index == p && result.value.size == |chunk|
    && result.value.blob < |blobs| && blobs[result.value.blob] == chunk
  }

  /** The i-th settlement is what the publisher answered to operation first + i. */
  ghost predicate Answered(s: seq<Settlement>, oracle: Oracle, first: nat, max: nat)
  {
    forall i :: 0 <= i < |s| ==> (s[i].ok <==> Serves(oracle, first + i, 0, max, true))
  }

  lemma AnsweredNext(s: seq<Settlement>, x: Settlement, oracle: Oracle, first: nat, max: nat)
    requires Answered(s, oracle, first, max) && (x.ok <==> Serves(oracle, first + |s|, 0, max, true))
    ensures Answered(s + [x], oracle, first, max)
  {
  }

  /** The error is that of the first chunk to fail: what the publisher's answers to its operation end with. */
  ghost predicate FirstError(s: seq<Settlement>, oracle: Oracle, first: nat, max: nat, error: ApiError)
  {
    exists i :: 0 <= i < |s| && IsFirstError(s, i, oracle, first, max, error)
  }

  ghost predicate IsFirstError(s: seq<Settlement>, i: nat, oracle: Oracle, first: nat, max: nat, error: ApiError)
  {
    && i < |s| && !s[i].ok && (forall j :: 0 <= j < i ==> s[j].ok)
    && Refuses(oracle, first + i, max, error)
  }

  ghost predicate Thrown(s: seq<Settlement>, oracle: Oracle, first: nat, max: nat, error: Option<ApiError>)
  {
    && (error.Some? <==> HasFailed(s))
    && (error.Some? ==> FirstError(s, oracle, first, max, error.value))
  }

  lemma ThrownNext(s: seq<Settlement>, x: Settlement, oracle: Oracle, first: nat, max: nat, error: Option<ApiError>,
                   e: Option<ApiError>)
    requires Thrown(s, oracle, first, max, error) && (x.ok <==> e.None?)
    requires e.Some? ==> Refuses(oracle, first + |s|, max, e.value)
    ensures Thrown(s + [x], oracle, first, max, if error.None? then e else error)
  {
    var t := s + [x];
    if error.Some? {
      var i :| 0 <= i < |s| && IsFirstError(s, i, oracle, first, max, error.value);
      assert IsFirstError(t, i, oracle, first, max, error.value) && !t[i].ok;
    } else if e.Some? {
      assert t[|s|] == x && IsFirstError(t, |s|, oracle, first, max, e.value);
    }
  }

  ghost predicate AllStored(s: seq<Settlement>, results: seq<Option<Entry>>, chunks: seq<Blob>, blobs: seq<Blob>)
    requires |results| == |chunks|
  {
    forall p :: 0 <= p < |chunks| && Succeeded(s, p) ==> IsStored(results[p], p, chunks[p], blobs)
  }

  lemma StoredNext(s: seq<Settlement>, x: Settlement, results: seq<Option<Entry>>, results': seq<Option<Entry>>,
                   chunks: seq<Blob>, blobs: seq<Blob>, blobs': seq<Blob>)
    requires |results| == |chunks| && AllStored(s, results, chunks, blobs) && blobs <= blobs' && x.pos < |chunks|
    requires |results'| == |chunks| && forall p :: 0 <= p < |chunks| && p != x.pos ==> results'[p] == results[p]
    requires x.ok ==> IsStored(results'[x.pos], x.pos, chunks[x.pos], blobs')
    requires !Succeeded(s, x.pos)
    ensures AllStored(s + [x], results', chunks, blobs')
  {
    forall p | 0 <= p < |chunks| && Succeeded(s + [x], p) ensures IsStored(results'[p], p, chunks[p], blobs')
    {
      var i :| 0 <= i < |s + [x]| && (s + [x])[i].pos == p && (s + [x])[i].ok;
      if i < |s| { assert s[i].pos == p && s[i].ok && Succeeded(s, p); }
    }
  }

  lemma AllStoredAtEnd(s: seq<Settlement>, results: seq<Option<Entry>>, chunks: seq<Blob>, blobs: seq<Blob>)
    requires |results| == |chunks| && AllStored(s, results, chunks, blobs)
    requires Done(s, |chunks|)
    ensures forall p :: 0 <= p < |chunks| ==> IsStored(results[p], p, chunks[p], blobs)
  {
    assert forall p :: 0 <= p < |chunks| ==> Succeeded(s, p);
  }

  function Entries(results: seq<Option<Entry>>): (entries: seq<Entry>)
    requires forall p :: 0 <= p < |results| ==> results[p].Some?
  {
    seq(|results|, p requires 0 <= p < |results| => results[p].value)
  }

  /** The entries are in the order of the chunks, and say how long they are. */
  ghost predicate InOrder(m: Manifest, chunks: seq<Blob>)
  {
    && |m.chunks| == |chunks|
    && forall p :: 0 <= p < |chunks| ==> m.chunks[p].index == p && m.chunks[p].size == |chunks[p]|
  }

  lemma ManifestDescribes(data: Blob, size: nat, results: seq<Option<Entry>>, blobs: seq<Blob>)
    requires size > 0 && |results| == |Cut(data, size)|
    requires forall p :: 0 <= p < |results| ==> IsStored(results[p], p, Cut(data, size)[p], blobs)
    ensures forall p :: 0 <= p < |results| ==> results[p].Some?
    ensures Describes(Manifest(|data|, size, Entries(results)), data, size, blobs)
    ensures InOrder(Manifest(|data|, size, Entries(results)), Cut(data, size))
  {
  }

  class ChunkedUploader {
    const client: BlobClient
    const chunkSize: nat
    const concurrency: nat
    var recorder: Recorder
    var results: seq<Option<Entry>>

    constructor (client: BlobClient, chunkSize: nat, concurrency: nat)
      requires concurrency > 0
      ensures this.client == client && this.chunkSize == chunkSize && this.concurrency == concurrency
    {
      this.client, this.chunkSize, this.concurrency := client, chunkSize, concurrency;
      recorder := new Recorder(0, [], concurrency);
      results := [];
    }

    /** Since the upload began with operation `first`, everything has gone as the recorder says. */
    ghost predicate Follows(chunks: seq<Blob>, first: nat, before: seq<Blob>)
      reads this, client, recorder
    {
      && recorder.Valid() && recorder.index == Indices(|chunks|) && recorder.concurrency == concurrency
      && before <= client.blobs && client.operations == first + |recorder.settled|
      && Answered(recorder.settled, client.oracle, first, client.retry.maxAttempts)
      && |results| == |chunks| && AllStored(recorder.settled, results, chunks, client.blobs)
    }

    /** The task of one chunk, while `underway` tasks of its batch have not settled. */
    method UploadChunk(chunks: seq<Blob>, p: nat, ghost underway: nat, ghost first: nat, ghost before: seq<Blob>,
                       ghost thrown: Option<ApiError>)
      returns (error: Option<ApiError>)
      requires Follows(chunks, first, before) && p < |chunks| && underway <= concurrency
      requires forall i :: 0 <= i < |recorder.settled| ==> recorder.settled[i].pos != p
      requires forall q :: 0 <= q < BatchStart(p, concurrency) ==> Succeeded(recorder.settled, q)
      requires Thrown(recorder.settled, client.oracle, first, client.retry.maxAttempts, thrown)
      modifies this`results, client, recorder
      ensures Follows(chunks, first, before)
      ensures recorder.settled == old(recorder.settled) + [Settlement(p, error.None?, underway)]
      ensures Thrown(recorder.settled, client.oracle, first, client.retry.maxAttempts,
                     if thrown.None? then error else thrown)
    {
      ghost var s := recorder.settled;
      var r := client.UploadSingleBlob(chunks[p]);
      if r.Ok? {
        error := None;
        results := results[p := Some(Entry(p, r.value, |chunks[p]|))];
      } else {
        error := Some(r.error);
      }
      recorder.Settle(p, p, error.None?, underway);
      ghost var x := Settlement(p, error.None?, underway);
      AnsweredNext(s, x, client.oracle, first, client.retry.maxAttempts);
      ThrownNext(s, x, client.oracle, first, client.retry.maxAttempts, thrown, error);
      StoredNext(s, x, old(results), results, chunks, old(client.blobs), client.blobs);
    }

    /** The tasks of one batch, in whatever order they finish; the error is that of the first to fail. */
    method UploadBatch(chunks: seq<Blob>, start: nat, ghost first: nat, ghost before: seq<Blob>)
      returns (error: Option<ApiError>)
      requires Follows(chunks, first, before) && StartsBatch(start, concurrency) && start < |chunks|
      requires Done(recorder.settled, start)
      modifies this`results, client, recorder
      ensures Follows(chunks, first, before)
      ensures Thrown(recorder.settled, client.oracle, first, client.retry.maxAttempts, error)
      ensures error.None? ==> Done(recorder.settled, Min(start + concurrency, |chunks|))
    {
      var upto := Min(start + concurrency, |chunks|);
      var pending := Range(start, upto);
      MidwayStart(recorder.settled, start, upto);
      error := None;
      while pending != {}
        invariant Follows(chunks, first, before) && Midway(recorder.settled, start, upto, pending)
        invariant |pending| <= concurrency
        invariant Thrown(recorder.settled, client.oracle, first, client.retry.maxAttempts, error)
      {
        var p :| p in pending;
        BatchOf(start, concurrency, p);
        ghost var s := recorder.settled;
        var e := UploadChunk(chunks, p, |pending|, first, before, error);
        MidwayNext(s, Settlement(p, e.None?, |pending|), start, upto, pending);
        if error.None? { error := e; }
        pending := pending - {p};
      }
      if error.None? { MidwayEnd(recorder.settled, start, upto); }
    }

    /** Batch after batch, as long as none fails. */
    method UploadBatches(chunks: seq<Blob>, ghost first: nat, ghost before: seq<Blob>) returns (error: Option<ApiError>)
      requires Follows(chunks, first, before) && recorder.settled == []
      modifies this`results, client, recorder
      ensures Follows(chunks, first, before)
      ensures Thrown(recorder.settled, client.oracle, first, client.retry.maxAttempts, error)
      ensures error.None? ==> Done(recorder.settled, |chunks|)
    {
      error := None;
      var i: nat := 0;
      while i < |chunks|
        invariant Follows(chunks, first, before) && error.None? && !HasFailed(recorder.settled)
        invariant StartsBatch(i, concurrency) && Done(recorder.settled, Min(i, |chunks|))
        decreases |chunks| - i
      {
        error := UploadBatch(chunks, i, first, before);
        if error.Some? { return; }
        NextBatch(i, concurrency);
        i := i + concurrency;
      }
    }

    /**
     * The manifest names all chunks, or the first error of the batch that failed. Each report is the
     * record after one more settlement, with the final one at the end of a complete upload.
     */
    method Upload(data: Blob) returns (r: Result<Manifest, ApiError>)
      requires chunkSize > 0 && concurrency > 0
      modifies this, client
      ensures r.Ok? ==> Describes(r.value, data, chunkSize, client.blobs) && r.value.chunkSize == chunkSize
      ensures old(client.blobs) <= client.blobs && client.operations == old(client.operations) + |recorder.settled|
      ensures Legal(recorder.settled, |Cut(data, chunkSize)|, concurrency) && (r.Err? <==> HasFailed(recorder.settled))
      ensures r.Ok? ==> |recorder.settled| == |Cut(data, chunkSize)|
      ensures recorder.reports == Reports(recorder.settled, Indices(|Cut(data, chunkSize)|))
        + if r.Ok? then [Final(|Cut(data, chunkSize)|)] else []
      ensures Answered(recorder.settled, client.oracle, old(client.operations), client.retry.maxAttempts)
      ensures r.Err? ==>
        FirstError(recorder.settled, client.oracle, old(client.operations), client.retry.maxAttempts, r.error)
      ensures r.Ok? ==> InOrder(r.value, Cut(data, chunkSize))
    {
      var chunks := Split(data, chunkSize);
      var total := |chunks|;
      recorder := new Recorder(total, Indices(total), concurrency);
      results := seq(total, _ => None);
      var error := UploadBatches(chunks, client.operations, client.blobs);
      if error.Some? { return Err(error.value); }
      recorder.Finish();
      AllStoredAtEnd(recorder.settled, results, chunks, client.blobs);
      ManifestDescribes(data, chunkSize, results, client.blobs);
      r := Ok(Manifest(|data|, chunkSize, Entries(results)));
    }
  }
}
