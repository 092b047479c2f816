// Download of the chunks that a manifest lists, batch by batch, and reassembly. The manifest comes
// from outside: its entries may be in any order, and may be wrong.

module ChunkedDownload {
  import opened Bytes
  import opened Results
  import opened Retry
  import opened Blobs
  import opened Chunks
  import opened TransferProgress

  /** BadManifest is the TypeError for a missing chunk, or the RangeError for one that does not fit. */
  datatype DownloadError = Api(error: ApiError) | BadManifest

  // --- Sorting by index. ---

  function InsertSorted(e: Entry, es: seq<Entry>): (sorted: seq<Entry>)
    ensures multiset(sorted) == multiset{e} + multiset(es)
  {
    if es == [] then [e]
    else if e.index < es[0].index then [e] + es
    else
      assert es == [es[0]] + es[1..];
      [es[0]] + InsertSorted(e, es[1..])
  }

  /** A stable sort. */
  function SortedByIndex(es: seq<Entry>): (sorted: seq<Entry>)
    ensures multiset(sorted) == multiset(es) && |sorted| == |es|
  {
    if es == [] then []
    else
      assert es == es[..|es| - 1] + [es[|es| - 1]];
      var sorted := InsertSorted(es[|es| - 1], SortedByIndex(es[..|es| - 1]));
      assert |multiset(sorted)| == |multiset(es)|;
      sorted
  }

  ghost predicate Sorted(es: seq<Entry>)
  {
    forall i, j :: 0 <= i < j < |es| ==> es[i].index <= es[j].index
  }

  lemma {:induction false} InsertKeepsSorted(e: Entry, es: seq<Entry>)
    requires Sorted(es)
    ensures Sorted(InsertSorted(e, es))
  {
    if es != [] && e.index >= es[0].index {
      var rest := InsertSorted(e, es[1..]);
      InsertKeepsSorted(e, es[1..]);
      forall j | 0 <= j < |rest| ensures es[0].index <= rest[j].index
      {
        assert rest[j] in multiset(rest);
      }
    }
  }

  lemma {:induction false} SortSorts(es: seq<Entry>)
    ensures Sorted(SortedByIndex(es))
  {
    if es != [] {
      SortSorts(es[..|es| - 1]);
      InsertKeepsSorted(es[|es| - 1], SortedByIndex(es[..|es| - 1]));
    }
  }

  /** The entries with this index, in their order. */
  function WithIndex(es: seq<Entry>, k: int): (part: seq<Entry>)
  {
    if es == [] then [] else (if es[0].index == k then [es[0]] else []) + WithIndex(es[1..], k)
  }

  lemma WithIndexCons(e: Entry, es: seq<Entry>, k: int)
    ensures WithIndex([e] + es, k) == (if e.index == k then [e] else []) + WithIndex(es, k)
  {
    assert ([e] + es)[1..] == es;
  }

  lemma {:induction false} WithIndexLast(es: seq<Entry>, e: Entry, k: int)
    ensures WithIndex(es + [e], k) == WithIndex(es, k) + if e.index == k then [e] else []
  {
    if es == [] {
      WithIndexCons(e, [], k);
      assert es + [e] == [e] + [];
    } else {
      var rest := es[1..];
      WithIndexLast(rest, e, k);
      WithIndexCons(es[0], rest + [e], k);
      assert es + [e] == [es[0]] + (rest + [e]);
    }
  }

  lemma BehindFirst(e: Entry, es: seq<Entry>, rest: seq<Entry>, k: int)
    requires es != [] && WithIndex(rest, k) == WithIndex(es[1..], k) + if e.index == k then [e] else []
    ensures WithIndex([es[0]] + rest, k) == WithIndex(es, k) + if e.index == k then [e] else []
  {
    WithIndexCons(es[0], rest, k);
  }

  lemma InFront(e: Entry, es: seq<Entry>, k: int)
    requires forall i :: 0 <= i < |es| ==> es[i].index > e.index
    ensures WithIndex([e] + es, k) == WithIndex(es, k) + if e.index == k then [e] else []
  {
    WithIndexCons(e, es, k);
    if e.index == k { NoneWithIndex(es, k); }
  }

  /** A new entry goes behind all that have the same index. */
  lemma {:induction false} InsertIsLast(e: Entry, es: seq<Entry>, k: int)
    requires Sorted(es)
    ensures WithIndex(InsertSorted(e, es), k) == WithIndex(es, k) + if e.index == k then [e] else []
  {
    if es == [] || e.index < es[0].index {
      InFront(e, es, k);
      assert [e] + es == InsertSorted(e, es);
    } else {
      InsertIsLast(e, es[1..], k);
      BehindFirst(e, es, InsertSorted(e, es[1..]), k);
    }
  }

  lemma {:induction false} NoneWithIndex(es: seq<Entry>, k: int)
    requires forall i :: 0 <= i < |es| ==> es[i].index > k
    ensures WithIndex(es, k) == []
  {
    if es != [] { NoneWithIndex(es[1..], k); }
  }

  /** Entries with the same index stay in their order. */
  lemma {:induction false} SortIsStable(es: seq<Entry>, k: int)
    ensures WithIndex(SortedByIndex(es), k) == WithIndex(es, k)
  {
    if es != [] {
      var before, e := es[..|es| - 1], es[|es| - 1];
      var sorted := SortedByIndex(before);
      SortIsStable(before, k);
      SortSorts(before);
      InsertIsLast(e, sorted, k);
      WithIndexLast(before, e, k);
      LastIsInserted(es, before, e, sorted);
    }
  }

  lemma LastIsInserted(es: seq<Entry>, before: seq<Entry>, e: Entry, sorted: seq<Entry>)
    requires es != [] && before == es[..|es| - 1] && e == es[|es| - 1] && sorted == SortedByIndex(before)
    ensures es == before + [e] && SortedByIndex(es) == InsertSorted(e, sorted)
  {
  }

  /** The order of the entries in a manifest does not matter. */
  lemma DescribesPermuted(m: Manifest, n: Manifest, data: Blob, size: nat, blobs: seq<Blob>)
    requires size > 0 && Describes(m, data, size, blobs)
    requires n.totalSize == m.totalSize && multiset(n.chunks) == multiset(m.chunks)
    ensures Describes(n, data, size, blobs)
  {
    assert |multiset(n.chunks)| == |multiset(m.chunks)|;
    forall i | 0 <= i < |n.chunks| ensures Names(n.chunks[i], Cut(data, size), blobs)
    {
      assert n.chunks[i] in multiset(m.chunks);
    }
    DistinctPermuted(m.chunks, n.chunks);
  }

  lemma DistinctPermuted(es: seq<Entry>, fs: seq<Entry>)
    requires DistinctIndices(es) && multiset(es) == multiset(fs)
    ensures DistinctIndices(fs)
  {
    forall i, j | 0 <= i < j < |fs| ensures fs[i].index != fs[j].index
    {
      if fs[i].index == fs[j].index {
        assert fs[i] in multiset(es) && fs[j] in multiset(es);
        Twice(fs, i, j);
        Once(es, fs[i]);
      }
    }
  }

  lemma Twice(fs: seq<Entry>, i: nat, j: nat)
    requires i < j < |fs|
    ensures fs[i] == fs[j] ==> multiset(fs)[fs[i]] >= 2
  {
    assert fs == fs[..i] + [fs[i]] + fs[i + 1..];
    assert fs[j] in fs[i + 1..];
    assert fs[j] in multiset(fs[i + 1..]);
  }

  lemma {:induction false} Once(es: seq<Entry>, e: Entry)
    requires DistinctIndices(es)
    ensures multiset(es)[e] <= 1
  {
    if es != [] {
      var n := |es| - 1;
      assert es == es[..n] + [es[n]];
      Once(es[..n], e);
      if es[n] == e { assert e !in multiset(es[..n]); }
    }
  }

  // --- Reassembly. ---

  ghost predicate AllPresent(downloaded: map<int, Blob>, length: nat)
  {
    forall i :: 0 <= i < length ==> i in downloaded
  }

  function Gathered(downloaded: map<int, Blob>, length: nat): (chunks: seq<Blob>)
    requires AllPresent(downloaded, length)
  {
    seq(length, i requires 0 <= i < length => downloaded[i])
  }

  function Zeros(n: nat): (zeros: Blob)
  {
    seq(n, _ => 0)
  }

  lemma GatheredNext(downloaded: map<int, Blob>, n: nat)
    requires AllPresent(downloaded, n + 1)
    ensures Concat(Gathered(downloaded, n + 1)) == Concat(Gathered(downloaded, n)) + downloaded[n]
  {
    assert Gathered(downloaded, n + 1)[..n] == Gathered(downloaded, n);
  }

  lemma {:induction false} GatheredGrows(downloaded: map<int, Blob>, n: nat, length: nat)
    requires n <= length && AllPresent(downloaded, length)
    ensures |Concat(Gathered(downloaded, n))| <= |Concat(Gathered(downloaded, length))|
  {
    if n < length {
      GatheredGrows(downloaded, n, length - 1);
      GatheredNext(downloaded, length - 1);
    }
  }

  /** The chunks in order and zeros behind them, if every place is filled and everything fits; an error otherwise. */
  ghost predicate IsReassembled(r: Result<Blob, DownloadError>, downloaded: map<int, Blob>, length: nat, totalSize: nat)
  {
    && (r.Ok? <==> AllPresent(downloaded, length) && |Concat(Gathered(downloaded, length))| <= totalSize)
    && (r.Ok? ==> var data := Concat(Gathered(downloaded, length)); r.value == data + Zeros(totalSize - |data|))
    && (r.Err? ==> r.error == BadManifest)
  }

  /** Copies the chunks one behind the other into a zeroed buffer. */
  method Reassemble(downloaded: map<int, Blob>, length: nat, totalSize: nat) returns (r: Result<Blob, DownloadError>)
    ensures IsReassembled(r, downloaded, length, totalSize)
  {
    var result := new Byte[totalSize](_ => 0);
    var offset, i := 0, 0;
    while i < length
      invariant 0 <= i <= length && 0 <= offset <= totalSize && AllPresent(downloaded, i)
      invariant result[..offset] == Concat(Gathered(downloaded, i))
      invariant forall k :: offset <= k < totalSize ==> result[k] == 0
    {
      if i !in downloaded { return Err(BadManifest); }
      GatheredNext(downloaded, i);
      var chunk := downloaded[i];
      if offset + |chunk| > totalSize {
        if AllPresent(downloaded, length) { GatheredGrows(downloaded, i + 1, length); }
        return Err(BadManifest);
      }
      SetChunk(result, offset, chunk);
      offset, i := offset + |chunk|, i + 1;
    }
    assert result[offset..] == Zeros(totalSize - offset);
    assert result[..] == result[..offset] + result[offset..];
    r := Ok(result[..]);
  }

  /** TypedArray.set. */
  method SetChunk(result: array<Byte>, offset: nat, chunk: Blob)
    requires offset + |chunk| <= result.Length
    modifies result
    ensures result[..offset + |chunk|] == old(result[..offset]) + chunk
    ensures forall k :: offset + |chunk| <= k < result.Length ==> result[k] == old(result[k])
  {
    forall k | 0 <= k < |chunk| { result[offset + k] := chunk[k]; }
    assert result[..offset] == old(result[..offset]);
    assert result[offset..offset + |chunk|] == chunk;
  }

  // --- The downloader. ---

  function IndexOf(entries: seq<Entry>): (index: seq<int>)
  {
    seq(|entries|, p requires 0 <= p < |entries| => entries[p].index)
  }

  /** The i-th settlement is what the aggregators answered to operation first + i. */
  ghost predicate Answered(s: seq<Settlement>, entries: seq<Entry>, client: BlobClient, stored: nat, first: nat)
  {
    && (forall i :: 0 <= i < |s| ==> s[i].pos < |entries| && (s[i].ok ==> entries[s[i].pos].blob < stored))
    && (forall i :: 0 <= i < |s| ==>
          (s[i].ok <==> Delivers(client.oracle, first + i, 1 + client.fallbacks, client.retry.maxAttempts,
                                 entries[s[i].pos].blob < stored)))
  }

  lemma AnsweredNext(s: seq<Settlement>, x: Settlement, entries: seq<Entry>, client: BlobClient, stored: nat,
                     first: nat)
    requires Answered(s, entries, client, stored, first) && x.pos < |entries|
    requires x.ok ==> entries[x.pos].blob < stored
    requires x.ok <==> Delivers(client.oracle, first + |s|, 1 + client.fallbacks, client.retry.maxAttempts,
                                entries[x.pos].blob < stored)
    ensures Answered(s + [x], entries, client, stored, first)
  {
  }

  /** The error is that of the first chunk to fail: what the aggregators' answers to its operation end with. */
  ghost predicate FirstError(s: seq<Settlement>, entries: seq<Entry>, client: BlobClient, stored: nat, first: nat,
                             error: ApiError)
  {
    exists i :: 0 <= i < |s| && IsFirstError(s, i, entries, client, stored, first, error)
  }

  ghost predicate IsFirstError(s: seq<Settlement>, i: nat, entries: seq<Entry>, client: BlobClient, stored: nat,
                               first: nat, error: ApiError)
  {
    && i < |s| && !s[i].ok && (forall j :: 0 <= j < i ==> s[j].ok) && s[i].pos < |entries|
    && EndsWith(client.oracle, first + i, client.fallbacks, client.retry.maxAttempts, entries[s[i].pos].blob < stored,
                error)
  }

  ghost predicate Thrown(s: seq<Settlement>, entries: seq<Entry>, client: BlobClient, stored: nat, first: nat,
                         error: Option<ApiError>)
  {
    && (error.Some? <==> HasFailed(s))
    && (error.Some? ==> FirstError(s, entries, client, stored, first, error.value))
  }

  lemma ThrownNext(s: seq<Settlement>, x: Settlement, entries: seq<Entry>, client: BlobClient, stored: nat, first: nat,
                   error: Option<ApiError>, e: Option<ApiError>)
    requires Thrown(s, entries, client, stored, first, error) && (x.ok <==> e.None?) && x.pos < |entries|
    requires e.Some? ==>
      EndsWith(client.oracle, first + |s|, client.fallbacks, client.retry.maxAttempts, entries[x.pos].blob < stored,
               e.value)
    ensures Thrown(s + [x], entries, client, stored, first, if error.None? then e else error)
  {
    var t := s + [x];
    if error.Some? {
      var i :| 0 <= i < |s| && IsFirstError(s, i, entries, client, stored, first, error.value);
      assert IsFirstError(t, i, entries, client, stored, first, error.value) && !t[i].ok;
    } else if e.Some? {
      assert t[|s|] == x && IsFirstError(t, |s|, entries, client, stored, first, e.value);
    }
  }

  /** What has arrived, by index. */
  ghost predicate Arrived(s: seq<Settlement>, downloaded: map<int, Blob>, entries: seq<Entry>, blobs: seq<Blob>)
  {
    forall p :: 0 <= p < |entries| && Succeeded(s, p) ==>
      && entries[p].blob < |blobs| && entries[p].index in downloaded
      && downloaded[entries[p].index] == blobs[entries[p].blob]
  }

  lemma ArrivedNext(s: seq<Settlement>, x: Settlement, downloaded: map<int, Blob>, data: Blob, entries: seq<Entry>,
                    blobs: seq<Blob>)
    requires DistinctIndices(entries) && Arrived(s, downloaded, entries, blobs) && x.pos < |entries|
    requires x.ok ==> entries[x.pos].blob < |blobs| && data == blobs[entries[x.pos].blob]
    ensures Arrived(s + [x], if x.ok then downloaded[entries[x.pos].index := data] else downloaded, entries, blobs)
  {
    forall p | 0 <= p < |entries| && Succeeded(s + [x], p) ensures (p == x.pos && x.ok) || Succeeded(s, p)
    {
      var i :| 0 <= i < |s + [x]| && (s + [x])[i].pos == p && (s + [x])[i].ok;
      if i < |s| { assert s[i].pos == p && s[i].ok; }
    }
  }

  /** Only listed indices are filled, and the array is just long enough for them. */
  ghost predicate Filled(downloaded: map<int, Blob>, length: nat, entries: seq<Entry>)
  {
    && |entries| <= length && (|entries| < length ==> length - 1 in downloaded)
    && downloaded.Keys <= Listed(entries) && forall k :: k in downloaded ==> k < length
  }

  function Listed(entries: seq<Entry>): (indices: set<int>)
  {
    set p | 0 <= p < |entries| :: entries[p].index
  }

  lemma FilledNext(downloaded: map<int, Blob>, length: nat, entries: seq<Entry>, p: nat, data: Blob)
    requires Filled(downloaded, length, entries) && p < |entries|
    ensures var k := entries[p].index;
      Filled(downloaded[k := data], if k >= length then k + 1 else length, entries)
  {
    assert entries[p].index in Listed(entries);
  }

  /** The chunk of this entry has arrived. */
  predicate Brings(x: Settlement, entries: seq<Entry>, blobs: seq<Blob>)
  {
    x.ok && x.pos < |entries| && entries[x.pos].blob < |blobs|
  }

  /** What these settlements fill in, each at the index of its entry, the later over the earlier. */
  function Gained(s: seq<Settlement>, entries: seq<Entry>, blobs: seq<Blob>): (downloaded: map<int, Blob>)
  {
    if s == [] then map[]
    else
      var before, x := Gained(s[..|s| - 1], entries, blobs), s[|s| - 1];
      if Brings(x, entries, blobs) then before[entries[x.pos].index := blobs[entries[x.pos].blob]] else before
  }

  /** The i-th settlement is the last that brings a chunk with index k. */
  ghost predicate BringsLast(s: seq<Settlement>, i: nat, k: int, entries: seq<Entry>, blobs: seq<Blob>)
  {
    && i < |s| && Brings(s[i], entries, blobs) && entries[s[i].pos].index == k
    && forall j :: i < j < |s| && Brings(s[j], entries, blobs) ==> entries[s[j].pos].index != k
  }

  /** Each place holds the blob of the entry with this index that was the last to arrive, if there is one. */
  lemma {:induction false} GainedIff(s: seq<Settlement>, entries: seq<Entry>, blobs: seq<Blob>, k: int)
    ensures k in Gained(s, entries, blobs) <==> exists i: nat :: BringsLast(s, i, k, entries, blobs)
    ensures forall i: nat :: BringsLast(s, i, k, entries, blobs) ==>
      Gained(s, entries, blobs)[k] == blobs[entries[s[i].pos].blob]
  {
    if s != [] {
      var n := |s| - 1;
      GainedIff(s[..n], entries, blobs, k);
      if Brings(s[n], entries, blobs) && entries[s[n].pos].index == k {
        assert BringsLast(s, n, k, entries, blobs);
      } else {
        forall i: nat ensures BringsLast(s[..n], i, k, entries, blobs) <==> BringsLast(s, i, k, entries, blobs)
        {
          BringsLastBefore(s, i, k, entries, blobs);
        }
      }
    }
  }

  lemma BringsLastBefore(s: seq<Settlement>, i: nat, k: int, entries: seq<Entry>, blobs: seq<Blob>)
    requires s != [] && !(Brings(s[|s| - 1], entries, blobs) && entries[s[|s| - 1].pos].index == k)
    ensures BringsLast(s[..|s| - 1], i, k, entries, blobs) <==> BringsLast(s, i, k, entries, blobs)
  {
  }

  ghost predicate Holding(s: seq<Settlement>, downloaded: map<int, Blob>, length: nat, entries: seq<Entry>,
                          blobs: seq<Blob>)
  {
    && Filled(downloaded, length, entries) && downloaded == Gained(s, entries, blobs)
    && (DistinctIndices(entries) ==> Arrived(s, downloaded, entries, blobs))
  }

  lemma HoldingNext(s: seq<Settlement>, x: Settlement, downloaded: map<int, Blob>, length: nat, data: Blob,
                    entries: seq<Entry>, blobs: seq<Blob>, downloaded': map<int, Blob>, length': nat)
    requires Holding(s, downloaded, length, entries, blobs) && x.pos < |entries|
    requires x.ok ==> entries[x.pos].blob < |blobs| && data == blobs[entries[x.pos].blob]
    requires downloaded' == if x.ok then downloaded[entries[x.pos].index := data] else downloaded
    requires length' == if x.ok && entries[x.pos].index >= length then entries[x.pos].index + 1 else length
    ensures Holding(s + [x], downloaded', length', entries, blobs)
  {
    FilledNext(downloaded, length, entries, x.pos, data);
    assert (s + [x])[..|s|] == s;
    if DistinctIndices(entries) { ArrivedNext(s, x, downloaded, data, entries, blobs); }
  }

  /** The length of the array that these settlements have filled. */
  function LengthAfter(s: seq<Settlement>, entries: seq<Entry>): (length: nat)
    requires forall i :: 0 <= i < |s| ==> s[i].pos < |entries|
  {
    if s == [] then |entries|
    else
      var before, x := LengthAfter(s[..|s| - 1], entries), s[|s| - 1];
      if x.ok && entries[x.pos].index >= before then entries[x.pos].index + 1 else before
  }

  lemma FilledNow(s: seq<Settlement>, x: Settlement, entries: seq<Entry>, blobs: seq<Blob>)
    requires (forall i :: 0 <= i < |s| ==> s[i].pos < |entries|) && x.pos < |entries|
    requires x.ok ==> entries[x.pos].blob < |blobs|
    ensures Gained(s + [x], entries, blobs)
         == var g := Gained(s, entries, blobs);
            if x.ok then g[entries[x.pos].index := blobs[entries[x.pos].blob]] else g
    ensures LengthAfter(s + [x], entries)
         == var n := LengthAfter(s, entries);
            if x.ok && entries[x.pos].index >= n then entries[x.pos].index + 1 else n
  {
    assert (s + [x])[..|s|] == s;
  }

  lemma {:induction false} HeldAfter(s: seq<Settlement>, entries: seq<Entry>, blobs: seq<Blob>)
    requires forall i :: 0 <= i < |s| ==> s[i].pos < |entries| && (s[i].ok ==> entries[s[i].pos].blob < |blobs|)
    ensures Holding(s, Gained(s, entries, blobs), LengthAfter(s, entries), entries, blobs)
  {
    if s != [] {
      var t, x := s[..|s| - 1], s[|s| - 1];
      assert s == t + [x];
      HeldAfter(t, entries, blobs);
      FilledNow(t, x, entries, blobs);
      HoldingNext(t, x, Gained(t, entries, blobs), LengthAfter(t, entries),
                  if x.ok then blobs[entries[x.pos].blob] else [], entries, blobs,
                  Gained(s, entries, blobs), LengthAfter(s, entries));
    }
  }

  /** When all of a good manifest has arrived, the filled array holds the chunks of the data. */
  lemma ArrivedInFull(s: seq<Settlement>, downloaded: map<int, Blob>, length: nat, m: Manifest, entries: seq<Entry>,
                      data: Blob, size: nat, blobs: seq<Blob>)
    requires size > 0 && Describes(m, data, size, blobs) && multiset(entries) == multiset(m.chunks)
    requires Arrived(s, downloaded, entries, blobs) && Filled(downloaded, length, entries)
    requires Done(s, |entries|)
    ensures AllPresent(downloaded, length) && Gathered(downloaded, length) == Cut(data, size)
  {
    DescribesPermuted(m, m.(chunks := entries), data, size, blobs);
    ExactLength(downloaded, length, entries, Cut(data, size), blobs);
    assert forall p :: 0 <= p < |entries| ==> Succeeded(s, p) && Names(entries[p], Cut(data, size), blobs);
    forall i | 0 <= i < |entries| ensures i in downloaded && downloaded[i] == Cut(data, size)[i]
    {
      var p := EntryOf(entries, i);
    }
  }

  lemma ExactLength(downloaded: map<int, Blob>, length: nat, entries: seq<Entry>, chunks: seq<Blob>, blobs: seq<Blob>)
    requires Filled(downloaded, length, entries) && |chunks| == |entries|
    requires forall p :: 0 <= p < |entries| ==> Names(entries[p], chunks, blobs)
    ensures length == |entries|
  {
    forall k | k in downloaded ensures k < |entries| { assert k in Listed(entries); }
  }

  /** Every entry of a manifest has its bytes at its index. */
  ghost predicate FilledFrom(downloaded: map<int, Blob>, entries: seq<Entry>, blobs: seq<Blob>)
  {
    forall e :: e in entries ==> e.blob < |blobs| && e.index in downloaded && downloaded[e.index] == blobs[e.blob]
  }

  lemma FilledByManifest(s: seq<Settlement>, downloaded: map<int, Blob>, length: nat, m: Manifest, entries: seq<Entry>,
                         blobs: seq<Blob>)
    requires Holding(s, downloaded, length, entries, blobs) && Done(s, |entries|)
    requires multiset(entries) == multiset(m.chunks) && DistinctIndices(m.chunks)
    ensures FilledFrom(downloaded, m.chunks, blobs)
  {
    DistinctPermuted(m.chunks, entries);
    forall e | e in m.chunks
      ensures e.blob < |blobs| && e.index in downloaded && downloaded[e.index] == blobs[e.blob]
    {
      assert e in multiset(entries);
      var p :| 0 <= p < |entries| && entries[p] == e;
      assert Succeeded(s, p);
    }
  }

  /** As many distinct indices as there are places take every place. */
  lemma EntryOf(entries: seq<Entry>, i: nat) returns (p: nat)
    requires DistinctIndices(entries) && i < |entries|
    requires forall p :: 0 <= p < |entries| ==> 0 <= entries[p].index < |entries|
    ensures p < |entries| && entries[p].index == i
  {
    var s := seq(|entries|, p requires 0 <= p < |entries| => Settlement(entries[p].index, true, 0));
    DistinctCount(s, |entries|);
    SubsetOfRange(Positions(s), |entries|);
    assert i in Positions(s);
    p :| 0 <= p < |s| && s[p].pos == i;
  }

  class ChunkedDownloader {
    const client: BlobClient
    const concurrency: nat
    var recorder: Recorder
    var downloaded: map<int, Blob>
    var length: nat

    constructor (client: BlobClient, concurrency: nat)
      requires concurrency > 0
      ensures this.client == client && this.concurrency == concurrency
    {
      this.client, this.concurrency := client, concurrency;
      recorder := new Recorder(0, [], concurrency);
      downloaded, length := map[], 0;
    }

    /** Since the download began with operation `first`, everything has gone as the recorder says. */
    ghost predicate Follows(entries: seq<Entry>, first: nat)
      reads this, client, recorder
    {
      && recorder.Valid() && recorder.index == IndexOf(entries) && recorder.concurrency == concurrency
      && client.operations == first + |recorder.settled|
      && Answered(recorder.settled, entries, client, |client.blobs|, first)
      && downloaded == Gained(recorder.settled, entries, client.blobs)
      && length == LengthAfter(recorder.settled, entries)
    }

    method Begin(entries: seq<Entry>)
      requires concurrency > 0
      modifies this
      ensures Follows(entries, client.operations) && recorder.settled == [] && fresh(recorder)
    {
      recorder := new Recorder(|entries|, IndexOf(entries), concurrency);
      downloaded, length := map[], |entries|;
    }

    /** The task of one chunk, while `underway` tasks of its batch have not settled. */
    method DownloadChunk(entries: seq<Entry>, p: nat, ghost underway: nat, ghost first: nat,
                         ghost thrown: Option<ApiError>)
      returns (error: Option<ApiError>)
      requires Follows(entries, first) && p < |entries| && underway <= concurrency
      requires forall i :: 0 <= i < |recorder.settled| ==> recorder.settled[i].pos != p
      requires forall q :: 0 <= q < BatchStart(p, concurrency) ==> Succeeded(recorder.settled, q)
      requires Thrown(recorder.settled, entries, client, |client.blobs|, first, thrown)
      modifies this`downloaded, this`length, client`operations, client`fetches, recorder
      ensures Follows(entries, first)
      ensures recorder.settled == old(recorder.settled) + [Settlement(p, error.None?, underway)]
      ensures Thrown(recorder.settled, entries, client, |client.blobs|, first, if thrown.None? then error else thrown)
    {
      ghost var s := recorder.settled;
      var index := entries[p].index;
      var r := client.DownloadSingleBlob(entries[p].blob);
      ghost var x := Settlement(p, r.Ok?, underway);
      AnsweredNext(s, x, entries, client, |client.blobs|, first);
      recorder.Settle(p, index, r.Ok?, underway);
      if r.Ok? {
        error := None;
        downloaded := downloaded[index := r.value];
        if index >= length { length := index + 1; }
      } else {
        error := Some(r.error);
      }
      ThrownNext(s, x, entries, client, |client.blobs|, first, thrown, error);
      FilledNow(s, x, entries, client.blobs);
    }

    /** The tasks of one batch, in whatever order they finish; the error is that of the first to fail. */
    method DownloadBatch(entries: seq<Entry>, start: nat, ghost first: nat)
      returns (error: Option<ApiError>)
      requires Follows(entries, first) && StartsBatch(start, concurrency) && start < |entries|
      requires Done(recorder.settled, start)
      modifies this`downloaded, this`length, client`operations, client`fetches, recorder
      ensures Follows(entries, first) && Thrown(recorder.settled, entries, client, |client.blobs|, first, error)
      ensures error.None? ==> Done(recorder.settled, Min(start + concurrency, |entries|))
    {
      var upto := Min(start + concurrency, |entries|);
      var pending := Range(start, upto);
      MidwayStart(recorder.settled, start, upto);
      error := None;
      while pending != {}
        invariant Follows(entries, first) && Midway(recorder.settled, start, upto, pending)
        invariant |pending| <= concurrency
        invariant Thrown(recorder.settled, entries, client, |client.blobs|, first, error)
      {
        var p :| p in pending;
        BatchOf(start, concurrency, p);
        ghost var s := recorder.settled;
        var e := DownloadChunk(entries, p, |pending|, first, error);
        MidwayNext(s, Settlement(p, e.None?, |pending|), start, upto, pending);
        if error.None? { error := e; }
        pending := pending - {p};
      }
      if error.None? { MidwayEnd(recorder.settled, start, upto); }
    }

    /** Batch after batch, as long as none fails. */
    method DownloadBatches(entries: seq<Entry>, ghost first: nat) returns (error: Option<ApiError>)
      requires Follows(entries, first) && recorder.settled == []
      modifies this`downloaded, this`length, client`operations, client`fetches, recorder
      ensures Follows(entries, first) && Thrown(recorder.settled, entries, client, |client.blobs|, first, error)
      ensures error.None? ==> Done(recorder.settled, |entries|)
    {
      error := None;
      var i: nat := 0;
      while i < |entries|
        invariant Follows(entries, first) && error.None? && !HasFailed(recorder.settled)
        invariant StartsBatch(i, concurrency) && Done(recorder.settled, Min(i, |entries|))
        decreases |entries| - i
      {
        error := DownloadBatch(entries, i, first);
        if error.Some? { return; }
        NextBatch(i, concurrency);
        i := i + concurrency;
      }
    }

    /** When all chunks are there: the final report, and the chunks put together. */
    method Assemble(m: Manifest, entries: seq<Entry>, ghost first: nat) returns (r: Result<Blob, DownloadError>)
      requires Follows(entries, first) && Done(recorder.settled, |entries|)
      requires multiset(entries) == multiset(m.chunks)
      modifies recorder`progress, recorder`reports
      ensures recorder.reports == Reports(recorder.settled, IndexOf(entries)) + [Final(|entries|)]
      ensures |recorder.settled| == |entries| && (r.Err? ==> r.error == BadManifest)
      ensures forall data, size :: size > 0 && Describes(m, data, size, client.blobs) ==> r == Ok(data)
      ensures IsReassembled(r, downloaded, length, m.totalSize) && Filled(downloaded, length, entries)
      ensures DistinctIndices(m.chunks) ==> FilledFrom(downloaded, m.chunks, client.blobs)
    {
      recorder.Finish();
      r := Reassemble(downloaded, length, m.totalSize);
      Delivered(recorder.settled, downloaded, length, m, entries, client.blobs, r);
    }

    /**
     * If no chunk fails, a manifest that describes some data yields that data. Any other manifest yields what
     * its chunks put together are, or an error if they leave a gap or do not fit.
     */
    method Download(m: Manifest) returns (r: Result<Blob, DownloadError>)
      requires concurrency > 0
      modifies this, client`operations, client`fetches
      ensures r.Err? && r.error.Api? <==> HasFailed(recorder.settled)
      ensures r.Err? && r.error.Api? ==>
        FirstError(recorder.settled, SortedByIndex(m.chunks), client, |client.blobs|, old(client.operations),
                   r.error.error)
      ensures !HasFailed(recorder.settled) ==>
        forall data, size :: size > 0 && Describes(m, data, size, client.blobs) ==> r == Ok(data)
      ensures !HasFailed(recorder.settled) ==>
        IsReassembled(r, downloaded, length, m.totalSize) && Filled(downloaded, length, SortedByIndex(m.chunks))
      ensures downloaded == Gained(recorder.settled, SortedByIndex(m.chunks), client.blobs)
      ensures !HasFailed(recorder.settled) && DistinctIndices(m.chunks) ==>
        FilledFrom(downloaded, m.chunks, client.blobs)
      ensures Legal(recorder.settled, |m.chunks|, concurrency)
      ensures !HasFailed(recorder.settled) ==> |recorder.settled| == |m.chunks|
      ensures recorder.reports == Reports(recorder.settled, IndexOf(SortedByIndex(m.chunks)))
        + if HasFailed(recorder.settled) then [] else [Final(|m.chunks|)]
      ensures client.operations == old(client.operations) + |recorder.settled|
      ensures Answered(recorder.settled, SortedByIndex(m.chunks), client, |client.blobs|, old(client.operations))
    {
      var entries := SortedByIndex(m.chunks);
      Begin(entries);
      var error := DownloadBatches(entries, client.operations);
      if error.Some? { return Err(Api(error.value)); }
      r := Assemble(m, entries, old(client.operations));
    }
  }

  lemma Reassembled(s: seq<Settlement>, downloaded: map<int, Blob>, length: nat, m: Manifest, entries: seq<Entry>,
                    blobs: seq<Blob>, r: Result<Blob, DownloadError>)
    requires multiset(entries) == multiset(m.chunks) && Holding(s, downloaded, length, entries, blobs)
    requires Done(s, |entries|)
    requires IsReassembled(r, downloaded, length, m.totalSize)
    ensures forall data, size :: size > 0 && Describes(m, data, size, blobs) ==> r == Ok(data)
  {
    forall data, size | size > 0 && Describes(m, data, size, blobs) ensures r == Ok(data)
    {
      DistinctPermuted(m.chunks, entries);
      ArrivedInFull(s, downloaded, length, m, entries, data, size, blobs);
      ConcatCut(data, size);
      assert data + Zeros(0) == data;
    }
  }

  lemma Delivered(s: seq<Settlement>, downloaded: map<int, Blob>, length: nat, m: Manifest, entries: seq<Entry>,
                  blobs: seq<Blob>, r: Result<Blob, DownloadError>)
    requires forall i :: 0 <= i < |s| ==> s[i].pos < |entries| && (s[i].ok ==> entries[s[i].pos].blob < |blobs|)
    requires downloaded == Gained(s, entries, blobs) && length == LengthAfter(s, entries)
    requires multiset(entries) == multiset(m.chunks)
    requires Done(s, |entries|) && IsReassembled(r, downloaded, length, m.totalSize)
    ensures forall data, size :: size > 0 && Describes(m, data, size, blobs) ==> r == Ok(data)
    ensures DistinctIndices(m.chunks) ==> FilledFrom(downloaded, m.chunks, blobs)
    ensures Filled(downloaded, length, entries)
  {
    HeldAfter(s, entries, blobs);
    Reassembled(s, downloaded, length, m, entries, blobs, r);
    if DistinctIndices(m.chunks) { FilledByManifest(s, downloaded, length, m, entries, blobs); }
  }
}
