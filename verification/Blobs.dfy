// Upload and download of one blob. The network is an oracle: it answers every attempt of every
// operation, and the publisher stores what it accepts.

module Blobs {
  import opened Bytes
  import opened Results
  import opened Retry

  type Blob = seq<Byte>

  /** Answers by operation, endpoint and attempt. */
  type Oracle = (nat, nat, nat) -> Answer

  /** The attempts of one operation at one endpoint; an aggregator does not find a blob that was never stored. */
  function Asked(oracle: Oracle, operation: nat, endpoint: nat, stored: bool): (ask: nat -> Answer)
  {
    (k: nat) =>
      if oracle(operation, endpoint, k) == Success && !stored then Refused(404) else oracle(operation, endpoint, k)
  }

  ghost predicate Serves(oracle: Oracle, operation: nat, endpoint: nat, max: nat, stored: bool)
  {
    Succeeds(Asked(oracle, operation, endpoint, stored), max)
  }

  ghost predicate Denies(oracle: Oracle, operation: nat, endpoint: nat, max: nat, stored: bool)
  {
    IsRefused(Asked(oracle, operation, endpoint, stored), max, 404)
  }

  ghost predicate TooLarge(oracle: Oracle, operation: nat, endpoint: nat, max: nat)
  {
    IsRefused(Asked(oracle, operation, endpoint, true), max, 413)
  }

  /** Some aggregator succeeds, and none before it reports that there is no such blob. */
  ghost predicate Delivers(oracle: Oracle, operation: nat, aggregators: nat, max: nat, stored: bool)
  {
    exists u :: 0 <= u < aggregators && Serves(oracle, operation, u, max, stored)
      && forall v :: 0 <= v < u ==> !Denies(oracle, operation, v, max, stored)
  }

  /** The error is that of the last attempt at the publisher. */
  ghost predicate Refuses(oracle: Oracle, operation: nat, max: nat, error: ApiError)
  {
    FailsWith(Asked(oracle, operation, 0, true), max, error)
  }

  /** Some aggregator reports that there is no such blob, and none before it succeeds. */
  ghost predicate NotFound(oracle: Oracle, operation: nat, aggregators: nat, max: nat, stored: bool)
  {
    exists u :: 0 <= u < aggregators && Denies(oracle, operation, u, max, stored)
      && forall v :: 0 <= v < u ==> !Serves(oracle, operation, v, max, stored)
  }

  /** The error is 404 when the blob is not found, and otherwise that of the last aggregator. */
  ghost predicate EndsWith(oracle: Oracle, operation: nat, fallbacks: nat, max: nat, stored: bool, error: ApiError)
  {
    && !Delivers(oracle, operation, 1 + fallbacks, max, stored)
    && (error == Http(404) <==> NotFound(oracle, operation, 1 + fallbacks, max, stored))
    && (error != Http(404) ==> FailsWith(Asked(oracle, operation, fallbacks, stored), max, error))
  }

  class BlobClient {
    const oracle: Oracle
    const fallbacks: nat
    const retry: RetryConfig
    var blobs: seq<Blob>
    var operations: nat
    var fetches: nat

    constructor (oracle: Oracle, fallbacks: nat, retry: RetryConfig)
      ensures this.oracle == oracle && this.fallbacks == fallbacks && this.retry == retry
      ensures blobs == [] && operations == 0 && fetches == 0
    {
      this.oracle, this.fallbacks, this.retry := oracle, fallbacks, retry;
      blobs, operations, fetches := [], 0, 0;
    }

    /** Asks the publisher, which gives an accepted blob a fresh id. */
    method UploadSingleBlob(data: Blob) returns (r: Result<nat, ApiError>)
      modifies this
      ensures operations == old(operations) + 1 && fetches <= old(fetches) + retry.maxAttempts
      ensures r.Ok? <==> Serves(oracle, old(operations), 0, retry.maxAttempts, true)
      ensures r == Err(Http(413)) <==> TooLarge(oracle, old(operations), 0, retry.maxAttempts)
      ensures r.Err? ==> Refuses(oracle, old(operations), retry.maxAttempts, r.error)
      ensures r.Ok? ==> blobs == old(blobs) + [data] && r.value == |old(blobs)|
      ensures r.Err? ==> blobs == old(blobs)
    {
      var ask := Asked(oracle, operations, 0, true);
      var result, attempts, sleeps := WithRetry(ask, retry);
      SucceedsIff(ask, retry.maxAttempts, attempts, 413);
      operations, fetches := operations + 1, fetches + attempts;
      if result.Err? { return Err(result.error); }
      blobs := blobs + [data];
      r := Ok(|blobs| - 1);
    }

    /** Asks the aggregators in turn. */
    method DownloadSingleBlob(id: nat) returns (r: Result<Blob, ApiError>)
      modifies this`operations, this`fetches
      ensures operations == old(operations) + 1
      ensures fetches <= old(fetches) + (1 + fallbacks) * retry.maxAttempts
      ensures r.Ok? <==> Delivers(oracle, old(operations), 1 + fallbacks, retry.maxAttempts, id < |blobs|)
      ensures r.Ok? ==> id < |blobs| && r.value == blobs[id]
      ensures r == Err(Http(404)) <==> NotFound(oracle, old(operations), 1 + fallbacks, retry.maxAttempts, id < |blobs|)
      ensures r.Err? ==>
        EndsWith(oracle, old(operations), fallbacks, retry.maxAttempts, id < |blobs|, r.error)
    {
      var lastError := Undefined;
      var operation, endpoint, stored := operations, 0, id < |blobs|;
      operations := operations + 1;
      while endpoint < 1 + fallbacks
        invariant endpoint <= 1 + fallbacks && operations == operation + 1
        invariant fetches <= old(fetches) + endpoint * retry.maxAttempts
        invariant forall u :: 0 <= u < endpoint ==> !Serves(oracle, operation, u, retry.maxAttempts, stored)
        invariant forall u :: 0 <= u < endpoint ==> !Denies(oracle, operation, u, retry.maxAttempts, stored)
        invariant endpoint > 0 ==>
          && lastError != Http(404)
          && FailsWith(Asked(oracle, operation, endpoint - 1, stored), retry.maxAttempts, lastError)
      {
        var ask := Asked(oracle, operation, endpoint, stored);
        var result, attempts, sleeps := WithRetry(ask, retry);
        SucceedsIff(ask, retry.maxAttempts, attempts, 404);
        fetches := fetches + attempts;
        Rounds(endpoint, fallbacks, retry.maxAttempts);
        if result.Ok? {
          assert Serves(oracle, operation, endpoint, retry.maxAttempts, stored);
          return Ok(blobs[id]);
        }
        lastError := result.error;
        assert Denies(oracle, operation, endpoint, retry.maxAttempts, stored) <==> lastError == Http(404);
        if lastError == Http(404) { return Err(lastError); }
        endpoint := endpoint + 1;
      }
      r := Err(lastError);
    }
  }

  lemma Rounds(k: nat, fallbacks: nat, max: nat)
    requires k <= fallbacks
    ensures k * max + max == (k + 1) * max <= (1 + fallbacks) * max
  {
  }
}
