// Cutting a blob into chunks, and putting chunks together again.

module Chunks {
  import opened Blobs

  function Cut(data: Blob, size: nat): (chunks: seq<Blob>)
    requires size > 0
  {
    if data == [] then []
    else if |data| <= size then [data]
    else [data[..size]] + Cut(data[size..], size)
  }

  function Concat(chunks: seq<Blob>): (data: Blob)
  {
    if chunks == [] then [] else Concat(chunks[..|chunks| - 1]) + chunks[|chunks| - 1]
  }

  function Min(a: nat, b: nat): (m: nat)
  {
    if a < b then a else b
  }

  method Split(data: Blob, size: nat) returns (chunks: seq<Blob>)
    requires size > 0
    ensures chunks == Cut(data, size)
  {
    chunks := [];
    var offset := 0;
    while offset < |data|
      invariant chunks + Cut(data[Min(offset, |data|)..], size) == Cut(data, size)
      decreases |data| - offset
    {
      var end := Min(offset + size, |data|);
      CutFirst(data, size, offset);
      chunks := chunks + [data[offset..end]];
      offset := offset + size;
    }
  }

  lemma CutFirst(data: Blob, size: nat, offset: nat)
    requires size > 0 && offset < |data|
    ensures Cut(data[offset..], size)
         == [data[offset..Min(offset + size, |data|)]] + Cut(data[Min(offset + size, |data|)..], size)
  {
    var rest := data[offset..];
    if |rest| <= size {
      assert data[|data|..] == [] && data[offset..Min(offset + size, |data|)] == rest;
    } else {
      assert rest[..size] == data[offset..offset + size] && rest[size..] == data[offset + size..];
    }
  }

  lemma {:induction false} ConcatCons(first: Blob, chunks: seq<Blob>)
    ensures Concat([first] + chunks) == first + Concat(chunks)
    decreases |chunks|
  {
    if chunks == [] {
      assert [first] + chunks == [first] && [first][..0] == [];
    } else {
      var n := |chunks| - 1;
      assert ([first] + chunks)[..n + 1] == [first] + chunks[..n];
      ConcatCons(first, chunks[..n]);
    }
  }

  /** Cutting loses nothing. */
  lemma {:induction false} ConcatCut(data: Blob, size: nat)
    requires size > 0
    ensures Concat(Cut(data, size)) == data
  {
    if data != [] {
      if |data| <= size {
        ConcatCons(data, []);
        assert [data] + [] == [data];
      } else {
        ConcatCut(data[size..], size);
        ConcatCons(data[..size], Cut(data[size..], size));
      }
    }
  }

  /** Every chunk is full except the last, which is not empty; so their number is |data| / size, rounded up. */
  lemma {:induction false} CutSizes(data: Blob, size: nat, k: nat)
    requires size > 0 && k < |Cut(data, size)|
    ensures 0 < |Cut(data, size)[k]| <= size
    ensures k + 1 < |Cut(data, size)| ==> |Cut(data, size)[k]| == size
  {
    if |data| > size && k > 0 { CutSizes(data[size..], size, k - 1); }
  }

  lemma {:induction false} CutCount(data: Blob, size: nat)
    requires size > 0
    ensures (|Cut(data, size)| - 1) * size < |data| <= |Cut(data, size)| * size || data == []
  {
    if |data| > size {
      CutCount(data[size..], size);
      Distribute(|Cut(data[size..], size)|, size);
    }
  }

  lemma Distribute(n: int, size: nat)
    ensures (n + 1) * size == n * size + size && (n - 1) * size + size == n * size
  {
  }

  // --- Manifests. ---

  datatype Entry = Entry(index: int, blob: nat, size: nat)

  datatype Manifest = Manifest(totalSize: nat, chunkSize: nat, chunks: seq<Entry>)

  ghost predicate DistinctIndices(entries: seq<Entry>)
  {
    forall i, j :: 0 <= i < j < |entries| ==> entries[i].index != entries[j].index
  }

  /** The entry names the stored chunk of its index. */
  ghost predicate Names(e: Entry, chunks: seq<Blob>, blobs: seq<Blob>)
  {
    0 <= e.index < |chunks| && e.blob < |blobs| && blobs[e.blob] == chunks[e.index]
  }

  /** One entry for each chunk of data, in any order. */
  ghost predicate Describes(m: Manifest, data: Blob, size: nat, blobs: seq<Blob>)
    requires size > 0
  {
    && m.totalSize == |data| && |m.chunks| == |Cut(data, size)| && DistinctIndices(m.chunks)
    && forall i :: 0 <= i < |m.chunks| ==> Names(m.chunks[i], Cut(data, size), blobs)
  }
}
