// Progress of a transfer in batches. The chunks of a batch are under way together and settle in any
// order; the next batch starts when all of them have succeeded.

module TransferProgress {

  datatype Status = Running | Completed | Failed

  datatype Progress = Progress(total: nat, completed: nat, overall: int, failed: seq<int>, status: Status)

  /** One chunk settles while `underway` chunks, itself included, have not. */
  datatype Settlement = Settlement(pos: nat, ok: bool, underway: nat)

  /** completed / total * 100, rounded half up. */
  function Percent(completed: nat, total: nat): (percent: int)
    requires total > 0
  {
    (200 * completed + total) / (2 * total)
  }

  function Successes(s: seq<Settlement>): (n: nat)
  {
    if s == [] then 0 else Successes(s[..|s| - 1]) + if s[|s| - 1].ok then 1 else 0
  }

  /** The indices of the failed chunks, in the order in which they failed. */
  function Failures(s: seq<Settlement>, index: seq<int>): (failed: seq<int>)
    requires forall i :: 0 <= i < |s| ==> s[i].pos < |index|
  {
    if s == [] then []
    else Failures(s[..|s| - 1], index) + if s[|s| - 1].ok then [] else [index[s[|s| - 1].pos]]
  }

  /** The progress record once s has settled. */
  function After(s: seq<Settlement>, index: seq<int>): (p: Progress)
    requires forall i :: 0 <= i < |s| ==> s[i].pos < |index|
  {
    Progress(|index|, Successes(s), if s == [] then 0 else Percent(Successes(s), |index|), Failures(s, index),
             if Failures(s, index) == [] then Running else Failed)
  }

  /** The records reported while s settles, starting with the initial one. */
  function Reports(s: seq<Settlement>, index: seq<int>): (reports: seq<Progress>)
    requires forall i :: 0 <= i < |s| ==> s[i].pos < |index|
  {
    if s == [] then [After([], index)] else Reports(s[..|s| - 1], index) + [After(s, index)]
  }

  function Final(total: nat): (p: Progress)
  {
    Progress(total, total, 100, [], Completed)
  }

  /** The position of the first chunk of the batch: pos rounded down to a multiple of concurrency. */
  function BatchStart(pos: nat, concurrency: nat): (start: nat)
    requires concurrency > 0
    ensures start <= pos < start + concurrency
  {
    if pos < concurrency then 0 else BatchStart(pos - concurrency, concurrency) + concurrency
  }

  ghost predicate Succeeded(s: seq<Settlement>, pos: nat)
  {
    exists i :: 0 <= i < |s| && s[i].pos == pos && s[i].ok
  }

  /** Each chunk settles once; its batch starts after all earlier chunks have succeeded, and is not too large. */
  ghost predicate Legal(s: seq<Settlement>, total: nat, concurrency: nat)
    requires concurrency > 0
  {
    && (forall i :: 0 <= i < |s| ==> s[i].pos < total && s[i].underway <= concurrency)
    && (forall i, j :: 0 <= i < j < |s| ==> s[i].pos != s[j].pos)
    && (forall i, p :: 0 <= i < |s| && 0 <= p < BatchStart(s[i].pos, concurrency) ==> Succeeded(s[..i], p))
  }

  // --- Building up a legal schedule. ---

  predicate StartsBatch(start: nat, concurrency: nat)
    requires concurrency > 0
  {
    start == 0 || (start >= concurrency && StartsBatch(start - concurrency, concurrency))
  }

  lemma NextBatch(start: nat, concurrency: nat)
    requires concurrency > 0 && StartsBatch(start, concurrency)
    ensures StartsBatch(start + concurrency, concurrency)
  {
  }

  lemma {:induction false} BatchOf(start: nat, concurrency: nat, pos: nat)
    requires concurrency > 0 && StartsBatch(start, concurrency) && start <= pos < start + concurrency
    ensures BatchStart(pos, concurrency) == start
  {
    if start > 0 { BatchOf(start - concurrency, concurrency, pos - concurrency); }
  }

  lemma Multiples(a: nat, b: nat, c: nat)
    requires a <= b
    ensures a * c <= b * c && (a > 0 ==> (a - 1) * c + c == a * c)
  {
  }

  function Range(from: nat, upto: nat): (ps: set<nat>)
    requires from <= upto
    ensures |ps| == upto - from && forall p :: p in ps <==> from <= p < upto
    decreases upto - from
  {
    if from == upto then {} else Range(from, upto - 1) + {upto - 1}
  }

  ghost predicate HasFailed(s: seq<Settlement>)
  {
    exists i :: 0 <= i < |s| && !s[i].ok
  }

  /** The first `upto` chunks have succeeded, and nothing else has settled. */
  ghost predicate Done(s: seq<Settlement>, upto: nat)
  {
    && !HasFailed(s) && (forall i :: 0 <= i < |s| ==> s[i].pos < upto)
    && (forall p :: 0 <= p < upto ==> Succeeded(s, p))
  }

  /** Exactly the chunks before `start`, and those of [start, upto) that are not pending, have settled. */
  ghost predicate Midway(s: seq<Settlement>, start: nat, upto: nat, pending: set<nat>)
    requires start <= upto
  {
    && pending <= Range(start, upto)
    && (forall i :: 0 <= i < |s| ==> s[i].pos < upto && s[i].pos !in pending)
    && (forall p :: 0 <= p < start ==> Succeeded(s, p))
    && (HasFailed(s) || forall p :: start <= p < upto && p !in pending ==> Succeeded(s, p))
  }

  lemma MidwayStart(s: seq<Settlement>, start: nat, upto: nat)
    requires start <= upto && Done(s, start)
    ensures Midway(s, start, upto, Range(start, upto))
  {
  }

  lemma MidwayEnd(s: seq<Settlement>, start: nat, upto: nat)
    requires start <= upto && Midway(s, start, upto, {}) && !HasFailed(s)
    ensures Done(s, upto)
  {
  }

  lemma MidwayNext(s: seq<Settlement>, x: Settlement, start: nat, upto: nat, pending: set<nat>)
    requires start <= upto && Midway(s, start, upto, pending) && x.pos in pending
    ensures Midway(s + [x], start, upto, pending - {x.pos})
    ensures HasFailed(s + [x]) <==> HasFailed(s) || !x.ok
  {
    var t := s + [x];
    forall p | Succeeded(s, p) ensures Succeeded(t, p) { SucceededStays(s, x, p); }
    if HasFailed(s) {
      var i :| 0 <= i < |s| && !s[i].ok;
      assert !t[i].ok;
    }
    assert t[|s|] == x;
  }

  lemma LegalNext(s: seq<Settlement>, x: Settlement, total: nat, concurrency: nat)
    requires concurrency > 0 && Legal(s, total, concurrency) && x.pos < total && x.underway <= concurrency
    requires forall i :: 0 <= i < |s| ==> s[i].pos != x.pos
    requires forall p :: 0 <= p < BatchStart(x.pos, concurrency) ==> Succeeded(s, p)
    ensures Legal(s + [x], total, concurrency)
  {
    var t := s + [x];
    forall i, p | 0 <= i < |t| && 0 <= p < BatchStart(t[i].pos, concurrency) ensures Succeeded(t[..i], p)
    {
      assert t[..i] == if i < |s| then s[..i] else s;
    }
  }

  lemma SucceededStays(s: seq<Settlement>, x: Settlement, pos: nat)
    requires Succeeded(s, pos)
    ensures Succeeded(s + [x], pos)
  {
    var i :| 0 <= i < |s| && s[i].pos == pos && s[i].ok;
    assert (s + [x])[i] == s[i];
  }

  lemma ReportsNext(s: seq<Settlement>, x: Settlement, index: seq<int>)
    requires x.pos < |index| && forall i :: 0 <= i < |s| ==> s[i].pos < |index|
    ensures Successes(s + [x]) == Successes(s) + if x.ok then 1 else 0
    ensures Failures(s + [x], index) == Failures(s, index) + if x.ok then [] else [index[x.pos]]
    ensures Reports(s + [x], index) == Reports(s, index) + [After(s + [x], index)]
  {
    assert (s + [x])[..|s|] == s;
  }

  /** How the source updates the record when a chunk settles. */
  lemma {:induction false} AfterNext(s: seq<Settlement>, x: Settlement, index: seq<int>)
    requires x.pos < |index| && forall i :: 0 <= i < |s| ==> s[i].pos < |index|
    requires Successes(s) < |index|
    ensures var p := After(s, index);
      After(s + [x], index)
      == if x.ok then p.(completed := p.completed + 1, overall := Percent(p.completed + 1, p.total))
         else p.(failed := p.failed + [index[x.pos]], status := Failed)
  {
    ReportsNext(s, x, index);
    PercentBounds(0, Successes(s), |index|);
  }

  // --- The laws of every trace. ---

  function Positions(s: seq<Settlement>): (ps: set<nat>)
  {
    set i | 0 <= i < |s| :: s[i].pos
  }

  lemma {:induction false} DistinctCount(s: seq<Settlement>, total: nat)
    requires forall i :: 0 <= i < |s| ==> s[i].pos < total
    requires forall i, j :: 0 <= i < j < |s| ==> s[i].pos != s[j].pos
    ensures |Positions(s)| == |s| <= total
  {
    PositionsCount(s);
    SubsetOfRange(Positions(s), total);
  }

  lemma {:induction false} PositionsCount(s: seq<Settlement>)
    requires forall i, j :: 0 <= i < j < |s| ==> s[i].pos != s[j].pos
    ensures |Positions(s)| == |s|
  {
    if s != [] {
      var n := |s| - 1;
      PositionsCount(s[..n]);
      assert Positions(s) == Positions(s[..n]) + {s[n].pos};
    }
  }

  lemma {:induction false} SubsetOfRange(ps: set<nat>, total: nat)
    requires forall p :: p in ps ==> p < total
    ensures |ps| <= total
    ensures |ps| == total ==> forall p :: 0 <= p < total ==> p in ps
    decreases total
  {
    if total > 0 {
      var rest := ps - {total - 1};
      SubsetOfRange(rest, total - 1);
      assert if total - 1 in ps then |rest| == |ps| - 1 else rest == ps;
      if |ps| == total {
        forall p | 0 <= p < total ensures p in ps { assert p < total - 1 ==> p in rest; }
      }
    } else if p :| p in ps {
      assert false;
    }
  }

  lemma {:induction false} SettledCount(s: seq<Settlement>, index: seq<int>)
    requires forall i :: 0 <= i < |s| ==> s[i].pos < |index|
    ensures Successes(s) + |Failures(s, index)| == |s|
  {
    if s != [] { SettledCount(s[..|s| - 1], index); }
  }

  lemma PercentBounds(a: nat, b: nat, total: nat)
    requires a <= b <= total && total > 0
    ensures 0 <= Percent(a, total) <= Percent(b, total) <= 100
    ensures Percent(total, total) == 100 && Percent(0, total) == 0
  {
    DivideMonotone(200 * a + total, 200 * b + total, 2 * total);
    DivideMonotone(200 * b + total, 200 * total + total, 2 * total);
    assert 200 * total + total == 100 * (2 * total) + total;
    DivideExact(100, total, 2 * total);
    DivideExact(0, total, 2 * total);
  }

  lemma DivideMonotone(x: nat, y: nat, d: nat)
    requires x <= y && d > 0
    ensures x / d <= y / d
  {
    var p, q := x / d, y / d;
    assert x == p * d + x % d && y == q * d + y % d;
    if q < p { Multiples(q + 1, p, d); }
  }

  lemma DivideExact(q: nat, r: nat, d: nat)
    requires r < d
    ensures (q * d + r) / d == q
  {
    var p := (q * d + r) / d;
    assert q * d + r == p * d + (q * d + r) % d;
    if p < q { Multiples(p + 1, q, d); }
    if p > q { Multiples(q + 1, p, d); }
  }

  lemma RoomForMore(s: seq<Settlement>, x: Settlement, total: nat, concurrency: nat)
    requires concurrency > 0 && Legal(s, total, concurrency) && Legal(s + [x], total, concurrency)
    ensures Successes(s) < total
  {
    var index := seq(total, i => 0);
    DistinctCount(s + [x], total);
    SettledCount(s, index);
  }

  /** A record that follows another one. */
  ghost predicate Advances(p: Progress, q: Progress)
  {
    && p.total == q.total && p.completed <= q.completed <= q.total && 0 <= p.overall <= q.overall <= 100
    && p.failed <= q.failed && q.completed + |q.failed| <= q.total && (p.status == Failed ==> q.status == Failed)
  }

  /** Progress never goes back, and stays within its bounds. */
  lemma ReportsAdvance(s: seq<Settlement>, index: seq<int>, concurrency: nat, n: nat)
    requires concurrency > 0 && Legal(s, |index|, concurrency) && n < |s|
    ensures Advances(After(s[..n], index), After(s[..n + 1], index))
  {
    var before, after := s[..n], s[..n + 1];
    assert after == before + [s[n]];
    ReportsNext(before, s[n], index);
    DistinctCount(after, |index|);
    SettledCount(before, index);
    SettledCount(after, index);
    PercentBounds(Successes(before), Successes(after), |index|);
  }

  /** The n-th report is the record after n settlements. */
  lemma {:induction false} ReportAt(s: seq<Settlement>, index: seq<int>, n: nat)
    requires n <= |s| && forall i :: 0 <= i < |s| ==> s[i].pos < |index|
    ensures |Reports(s, index)| == |s| + 1 && Reports(s, index)[n] == After(s[..n], index)
  {
    if s != [] {
      var m := |s| - 1;
      if n < |s| {
        ReportAt(s[..m], index, n);
        assert s[..m][..n] == s[..n];
      } else {
        ReportAt(s[..m], index, m);
        assert s[..n] == s;
      }
    } else {
      assert s[..n] == [];
    }
  }

  // --- What a report says. ---

  /** p percent is nearest to completed / total, and above it when two are as near. */
  ghost predicate Nearest(p: int, completed: nat, total: nat)
  {
    (2 * p - 1) * total <= 200 * completed < (2 * p + 1) * total
  }

  lemma PercentIsNearest(completed: nat, total: nat)
    requires total > 0
    ensures Nearest(Percent(completed, total), completed, total)
  {
    var x, d, p := 200 * completed + total, 2 * total, Percent(completed, total);
    assert x == p * d + x % d;
    Doubled(p, total);
  }

  lemma Doubled(p: int, total: nat)
    ensures p * (2 * total) == (2 * p - 1) * total + total == (2 * p + 1) * total - total
  {
  }

  /** The settlements that are successes. */
  function Good(s: seq<Settlement>): (places: set<nat>)
  {
    set i | 0 <= i < |s| && s[i].ok
  }

  /** Completed are the successes so far; failed is what failed so far, and nothing else; the percentage is nearest. */
  ghost predicate RecordSays(p: Progress, s: seq<Settlement>, index: seq<int>)
    requires forall i :: 0 <= i < |s| ==> s[i].pos < |index|
  {
    && p.total == |index| && p.completed == |Good(s)| && p.completed + |p.failed| == |s|
    && (forall k :: k in p.failed <==> exists i :: 0 <= i < |s| && !s[i].ok && index[s[i].pos] == k)
    && (p.status == Failed <==> HasFailed(s)) && p.status != Completed
    && if s == [] then p.overall == 0 else Nearest(p.overall, p.completed, p.total)
  }

  lemma {:induction false} SuccessesAreGood(s: seq<Settlement>)
    ensures Successes(s) == |Good(s)|
  {
    if s != [] {
      var n := |s| - 1;
      SuccessesAreGood(s[..n]);
      assert Good(s) == if s[n].ok then Good(s[..n]) + {n} else Good(s[..n]);
    }
  }

  lemma {:induction false} FailuresAre(s: seq<Settlement>, index: seq<int>, k: int)
    requires forall i :: 0 <= i < |s| ==> s[i].pos < |index|
    ensures k in Failures(s, index) <==> exists i :: 0 <= i < |s| && !s[i].ok && index[s[i].pos] == k
  {
    if s != [] {
      var n := |s| - 1;
      var t := s[..n];
      FailuresAre(t, index, k);
      assert forall i :: 0 <= i < n ==> t[i] == s[i];
    }
  }

  lemma AfterSays(s: seq<Settlement>, index: seq<int>)
    requires forall i :: 0 <= i < |s| ==> s[i].pos < |index|
    ensures RecordSays(After(s, index), s, index)
  {
    SuccessesAreGood(s);
    SettledCount(s, index);
    AllOk(s, index);
    forall k ensures k in Failures(s, index) <==> exists i :: 0 <= i < |s| && !s[i].ok && index[s[i].pos] == k
    {
      FailuresAre(s, index, k);
    }
    if s != [] { PercentIsNearest(Successes(s), |index|); }
  }

  /** Report n tells what the first n settlements amount to. */
  lemma ReportSays(s: seq<Settlement>, index: seq<int>, n: nat)
    requires n <= |s| && forall i :: 0 <= i < |s| ==> s[i].pos < |index|
    ensures n < |Reports(s, index)| && RecordSays(Reports(s, index)[n], s[..n], index)
  {
    ReportAt(s, index, n);
    AfterSays(s[..n], index);
  }

  /** So each report advances on the one before it. */
  lemma TraceAdvances(s: seq<Settlement>, index: seq<int>, concurrency: nat, n: nat)
    requires concurrency > 0 && Legal(s, |index|, concurrency) && n < |s|
    ensures n + 1 < |Reports(s, index)| && Advances(Reports(s, index)[n], Reports(s, index)[n + 1])
  {
    ReportAt(s, index, n);
    ReportAt(s, index, n + 1);
    ReportsAdvance(s, index, concurrency, n);
  }

  lemma FinalAdvances(s: seq<Settlement>, index: seq<int>, concurrency: nat)
    requires concurrency > 0 && Legal(s, |index|, concurrency) && Done(s, |index|)
    ensures Advances(After(s, index), Final(|index|))
  {
    AllSettled(s, index, concurrency);
    if |index| > 0 { PercentBounds(Successes(s), Successes(s), |index|); }
  }

  lemma {:induction false} FailuresFailed(s: seq<Settlement>, index: seq<int>, k: int) returns (i: nat)
    requires (forall i :: 0 <= i < |s| ==> s[i].pos < |index|) && k in Failures(s, index)
    ensures i < |s| && !s[i].ok && index[s[i].pos] == k
  {
    var n := |s| - 1;
    if k in Failures(s[..n], index) { i := FailuresFailed(s[..n], index, k); } else { i := n; }
  }

  /** No chunk is reported failed that has been completed. */
  lemma FailedNotCompleted(s: seq<Settlement>, index: seq<int>, concurrency: nat, p: nat)
    requires concurrency > 0 && Legal(s, |index|, concurrency) && p < |index| && Succeeded(s, p)
    requires forall a, b :: 0 <= a < b < |index| ==> index[a] != index[b]
    ensures index[p] !in Failures(s, index)
  {
    if index[p] in Failures(s, index) {
      var i := FailuresFailed(s, index, index[p]);
    }
  }

  lemma FailedOnce(s: seq<Settlement>, i: nat, j: nat)
    requires forall a, b :: 0 <= a < b < |s| ==> s[a].pos != s[b].pos
    requires i < |s| && j < |s| && !s[j].ok
    ensures !Succeeded(s[..i], s[j].pos)
  {
  }

  /** After a failure, no chunk of a later batch is ever started. */
  lemma NoBatchAfterFailure(s: seq<Settlement>, total: nat, concurrency: nat, i: nat, j: nat)
    requires concurrency > 0 && Legal(s, total, concurrency) && i < |s| && j < |s| && !s[j].ok
    ensures BatchStart(s[i].pos, concurrency) <= s[j].pos
  {
    FailedOnce(s, i, j);
  }

  /** All chunks have succeeded iff each has been transferred exactly once and none has failed. */
  lemma CompletedMeansAll(s: seq<Settlement>, index: seq<int>, concurrency: nat)
    requires concurrency > 0 && Legal(s, |index|, concurrency)
    ensures Successes(s) == |index| <==> |s| == |index| && forall i :: 0 <= i < |s| ==> s[i].ok
    ensures Successes(s) == |index| ==> forall p :: 0 <= p < |index| ==> p in Positions(s)
  {
    DistinctCount(s, |index|);
    SettledCount(s, index);
    AllOk(s, index);
    SubsetOfRange(Positions(s), |index|);
  }

  /** A transfer that gets through its last batch has moved every chunk. */
  lemma AllSettled(s: seq<Settlement>, index: seq<int>, concurrency: nat)
    requires concurrency > 0 && Legal(s, |index|, concurrency) && Done(s, |index|)
    ensures |s| == |index| && After(s, index).(status := Completed, overall := 100) == Final(|index|)
  {
    AllPositions(s, |index|);
    SettledCount(s, index);
    AllOk(s, index);
  }

  lemma AllPositions(s: seq<Settlement>, total: nat)
    requires forall i :: 0 <= i < |s| ==> s[i].pos < total
    requires forall i, j :: 0 <= i < j < |s| ==> s[i].pos != s[j].pos
    requires Done(s, total)
    ensures |s| == total
  {
    DistinctCount(s, total);
    forall p | p in Range(0, total) ensures p in Positions(s)
    {
      assert Succeeded(s, p);
    }
    SubsetSize(Range(0, total), Positions(s));
  }

  lemma {:induction false} SubsetSize(a: set<nat>, b: set<nat>)
    requires a <= b
    ensures |a| <= |b|
  {
    assert b == a + (b - a);
  }

  lemma {:induction false} AllOk(s: seq<Settlement>, index: seq<int>)
    requires forall i :: 0 <= i < |s| ==> s[i].pos < |index|
    ensures Failures(s, index) == [] <==> forall i :: 0 <= i < |s| ==> s[i].ok
  {
    if s != [] {
      var t, last := s[..|s| - 1], s[|s| - 1];
      AllOk(t, index);
      assert (forall i :: 0 <= i < |s| ==> s[i].ok) <==> last.ok && forall i :: 0 <= i < |t| ==> t[i].ok;
    }
  }

  /** The progress record of one transfer, and what its callback was told. */
  class Recorder {
    ghost const index: seq<int>
    ghost const concurrency: nat
    var progress: Progress
    var reports: seq<Progress>
    ghost var settled: seq<Settlement>

    ghost predicate Valid()
      reads this
    {
      && concurrency > 0 && Legal(settled, |index|, concurrency)
      && progress == After(settled, index) && reports == Reports(settled, index)
    }

    constructor (total: nat, ghost index: seq<int>, ghost concurrency: nat)
      requires |index| == total && concurrency > 0
      ensures Valid() && this.index == index && this.concurrency == concurrency && settled == []
    {
      this.index, this.concurrency := index, concurrency;
      progress := Progress(total, 0, 0, [], Running);
      reports := [Progress(total, 0, 0, [], Running)];
      settled := [];
    }

    method Settle(ghost p: nat, i: int, ok: bool, ghost underway: nat)
      requires Valid() && p < |index| && i == index[p] && underway <= concurrency
      requires forall j :: 0 <= j < |settled| ==> settled[j].pos != p
      requires forall q :: 0 <= q < BatchStart(p, concurrency) ==> Succeeded(settled, q)
      modifies this
      ensures Valid() && settled == old(settled) + [Settlement(p, ok, underway)]
    {
      ghost var x := Settlement(p, ok, underway);
      LegalNext(settled, x, |index|, concurrency);
      ReportsNext(settled, x, index);
      RoomForMore(settled, x, |index|, concurrency);
      AfterNext(settled, x, index);
      if ok {
        progress := progress.(completed := progress.completed + 1,
                              overall := Percent(progress.completed + 1, progress.total));
      } else {
        progress := progress.(failed := progress.failed + [i], status := Failed);
      }
      reports := reports + [progress];
      settled := settled + [x];
    }

    method Finish()
      requires Valid() && Done(settled, |index|)
      modifies this`progress, this`reports
      ensures reports == Reports(settled, index) + [Final(|index|)] && |settled| == |index|
      ensures progress == Progress(|index|, |index|, 100, [], Completed) == reports[|reports| - 1]
    {
      AllSettled(settled, index, concurrency);
      progress := progress.(status := Completed, overall := 100);
      reports := reports + [progress];
    }
  }
}
