// Upload and download of data of any size: whole, in chunks, or in chunks after the publisher has
// refused the whole as too large.

module Walrus {
  import opened Results
  import opened Retry
  import opened Blobs
  import opened Chunks
  import opened TransferProgress
  import opened ChunkedUpload
  import opened ChunkedDownload

  datatype Uploaded = Whole(blob: nat) | InChunks(manifest: Manifest)

  /** What an upload returned still leads to the data. */
  ghost predicate LeadsTo(u: Uploaded, data: Blob, size: nat, blobs: seq<Blob>)
    requires size > 0
  {
    match u
    case Whole(blob) => blob < |blobs| && blobs[blob] == data
    case InChunks(m) => Describes(m, data, size, blobs)
  }

  /** The same upload, with the entries of a manifest in any order. */
  ghost predicate Shuffled(u: Uploaded, v: Uploaded)
  {
    u == v || (u.InChunks? && v.InChunks? && v.manifest.totalSize == u.manifest.totalSize
               && multiset(v.manifest.chunks) == multiset(u.manifest.chunks))
  }

  /** Downloading this asks for the blob with this id. */
  ghost predicate AsksFor(u: Uploaded, id: nat)
  {
    match u
    case Whole(blob) => blob == id
    case InChunks(m) => exists e :: e in m.chunks && e.blob == id
  }

  /** Later uploads and a shuffled manifest do not matter. */
  lemma StillLeadsTo(u: Uploaded, v: Uploaded, data: Blob, size: nat, blobs: seq<Blob>, blobs': seq<Blob>)
    requires size > 0 && LeadsTo(u, data, size, blobs) && blobs <= blobs' && Shuffled(u, v)
    ensures LeadsTo(v, data, size, blobs')
  {
    if v.InChunks? && u != v { DescribesPermuted(u.manifest, v.manifest, data, size, blobs); }
  }

  class WalrusClient {
    const client: BlobClient
    const chunkThreshold: nat
    const chunkSize: nat
    const concurrency: nat

    constructor (client: BlobClient, chunkThreshold: nat, chunkSize: nat, concurrency: nat)
      ensures this.client == client && this.chunkThreshold == chunkThreshold
      ensures this.chunkSize == chunkSize && this.concurrency == concurrency
    {
      this.client, this.chunkThreshold := client, chunkThreshold;
      this.chunkSize, this.concurrency := chunkSize, concurrency;
    }

    /** Operation i succeeds at the publisher. */
    ghost predicate Accepts(i: nat)
    {
      Serves(client.oracle, i, 0, client.retry.maxAttempts, true)
    }

    /** Operation i fails at the publisher with this error. */
    ghost predicate RefusedWith(i: nat, error: ApiError)
    {
      !Accepts(i) && Refuses(client.oracle, i, client.retry.maxAttempts, error)
    }

    /** Operation i asks for one of the blobs and fails at the aggregators with this error. */
    ghost predicate LostWith(u: Uploaded, i: nat, blob: nat, error: ApiError)
      reads client
    {
      AsksFor(u, blob)
      && EndsWith(client.oracle, i, client.fallbacks, client.retry.maxAttempts, blob < |client.blobs|, error)
    }

    /** Operation i succeeds at some aggregator, if it asks for a stored blob. */
    ghost predicate Returns(i: nat)
    {
      Delivers(client.oracle, i, 1 + client.fallbacks, client.retry.maxAttempts, true)
    }

    /**
     * Whatever path is taken, the result leads to the data. The data goes up in chunks iff it is above the
     * threshold or the publisher refuses the whole as too large.
     */
    method Upload(data: Blob) returns (r: Result<Uploaded, ApiError>)
      requires chunkSize > 0 && concurrency > 0
      modifies client
      ensures old(client.blobs) <= client.blobs && old(client.operations) <= client.operations
      ensures r.Ok? ==> LeadsTo(r.value, data, chunkSize, client.blobs)
      ensures r.Ok? ==> (r.value.InChunks? <==>
        |data| > chunkThreshold || TooLarge(client.oracle, old(client.operations), 0, client.retry.maxAttempts))
      ensures r.Err? ==> exists i :: old(client.operations) <= i < client.operations && RefusedWith(i, r.error)
    {
      ghost var first := client.operations;
      if |data| > chunkThreshold {
        r := UploadInChunks(data);
        return;
      }
      var whole := client.UploadSingleBlob(data);
      assert whole.Ok? <==> Accepts(first);
      if whole == Err(Http(413)) {
        r := UploadInChunks(data);
      } else {
        assert whole.Err? ==> RefusedWith(first, whole.error);
        r := if whole.Ok? then Ok(Whole(whole.value)) else Err(whole.error);
      }
    }

    method UploadInChunks(data: Blob) returns (r: Result<Uploaded, ApiError>)
      requires chunkSize > 0 && concurrency > 0
      modifies client
      ensures old(client.blobs) <= client.blobs && old(client.operations) <= client.operations
      ensures r.Ok? ==> r.value.InChunks? && LeadsTo(r.value, data, chunkSize, client.blobs)
      ensures r.Err? ==> exists i :: old(client.operations) <= i < client.operations && RefusedWith(i, r.error)
    {
      var uploader := new ChunkedUploader(client, chunkSize, concurrency);
      var m := uploader.Upload(data);
      if m.Ok? { return Ok(InChunks(m.value)); }
      ghost var first, s := old(client.operations), uploader.recorder.settled;
      ghost var k :| 0 <= k < |s|
                     && ChunkedUpload.IsFirstError(s, k, client.oracle, first, client.retry.maxAttempts, m.error);
      assert RefusedWith(first + k, m.error);
      r := Err(m.error);
    }

    /**
     * What leads to some data yields exactly that data, or the error of an operation that no aggregator served.
     * The error is always that of an operation which asked for one of the blobs.
     */
    method Download(u: Uploaded) returns (r: Result<Blob, DownloadError>)
      requires concurrency > 0
      modifies client`operations, client`fetches
      ensures old(client.operations) <= client.operations
      ensures forall data, size :: size > 0 && LeadsTo(u, data, size, client.blobs) ==>
        || r == Ok(data)
        || (r.Err? && r.error.Api? && exists i :: old(client.operations) <= i < client.operations && !Returns(i))
      ensures r.Err? && r.error.Api? ==>
        exists i: nat, blob: nat ::
          old(client.operations) <= i < client.operations && LostWith(u, i, blob, r.error.error)
      ensures r.Err? && u.Whole? ==> r.error.Api?
    {
      match u
      case Whole(blob) =>
        ghost var first := client.operations;
        var whole := client.DownloadSingleBlob(blob);
        assert whole.Err? && blob < |client.blobs| ==> !Returns(first);
        assert whole.Err? ==> LostWith(u, first, blob, whole.error);
        r := if whole.Ok? then Ok(whole.value) else Err(Api(whole.error));
      case InChunks(m) => r := DownloadInChunks(m);
    }

    method DownloadInChunks(m: Manifest) returns (r: Result<Blob, DownloadError>)
      requires concurrency > 0
      modifies client`operations, client`fetches
      ensures old(client.operations) <= client.operations
      ensures forall data, size :: size > 0 && Describes(m, data, size, client.blobs) ==>
        || r == Ok(data)
        || (r.Err? && r.error.Api? && exists i :: old(client.operations) <= i < client.operations && !Returns(i))
      ensures r.Err? && r.error.Api? ==> exists i: nat, blob: nat ::
          old(client.operations) <= i < client.operations && LostWith(InChunks(m), i, blob, r.error.error)
    {
      var downloader := new ChunkedDownloader(client, concurrency);
      r := downloader.Download(m);
      ghost var s := downloader.recorder.settled;
      forall data, size | size > 0 && Describes(m, data, size, client.blobs) && HasFailed(s)
        ensures exists i :: old(client.operations) <= i < client.operations && !Returns(i)
      {
        ghost var k :| 0 <= k < |s| && !s[k].ok;
        NamedIsStored(m, data, size, client.blobs, s[k].pos);
        assert !Returns(old(client.operations) + k);
      }
      if r.Err? && r.error.Api? { ErrorIsNamed(m, s, old(client.operations), r.error.error); }
    }

    lemma ErrorIsNamed(m: Manifest, s: seq<Settlement>, first: nat, error: ApiError)
      requires ChunkedDownload.FirstError(s, SortedByIndex(m.chunks), client, |client.blobs|, first, error)
      ensures exists i: nat, blob: nat :: first <= i < first + |s| && LostWith(InChunks(m), i, blob, error)
    {
      var es := SortedByIndex(m.chunks);
      var k :| 0 <= k < |s| && ChunkedDownload.IsFirstError(s, k, es, client, |client.blobs|, first, error);
      SortedIsListed(m, s[k].pos);
      assert LostWith(InChunks(m), first + k, es[s[k].pos].blob, error);
    }
  }

  lemma SortedIsListed(m: Manifest, p: nat)
    requires p < |m.chunks|
    ensures SortedByIndex(m.chunks)[p] in m.chunks
  {
    assert SortedByIndex(m.chunks)[p] in multiset(m.chunks);
  }

  lemma NamedIsStored(m: Manifest, data: Blob, size: nat, blobs: seq<Blob>, p: nat)
    requires size > 0 && Describes(m, data, size, blobs) && p < |m.chunks|
    ensures SortedByIndex(m.chunks)[p].blob < |blobs|
  {
    SortedIsListed(m, p);
  }
}
