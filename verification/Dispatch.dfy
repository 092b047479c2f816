// How dispatching the events of a log one after the other makes up a run over its writes.

module Dispatch {
  import opened Tables
  import opened Events
  import opened Replay
  import opened Contents
  import opened Runs
  import opened Log
  import opened Handlers

  // --- Executing consecutive positions. ---

  lemma SplitLast<T>(part: seq<T>)
    requires part != []
    ensures part == part[..|part| - 1] + [part[|part| - 1]]
  {
  }

  lemma ExecuteOne(ws: seq<Write>, m: Run, pos: nat, s: Store, before: seq<Write>, w: Write) returns (r': Run)
    requires Reached(ws, m) && -1 <= m.prev < |ws| && CanStep(ws, m, pos) && ws[pos] == w
    requires m.store == ApplyAll(s, before)
    ensures Reached(ws, r') && r'.store == ApplyAll(s, before + [w]) && r'.prev == pos
  {
    ApplySnoc(s, before, w);
    ReachedStep(ws, m, pos);
    r' := Step(ws, m, pos);
  }

  /** From r, the run executes all of part. */
  lemma {:induction false} Execute(ws: seq<Write>, r: Run, from: nat, part: seq<Write>) returns (r': Run)
    requires Reached(ws, r) && IsAt(ws, from, part) && -1 <= r.prev < |ws| && from <= r.prev + 1
    requires part != [] ==> FirstOfHandler(part[0]) && !Throws(r.store.db, part[0])
    requires forall i :: 0 < i < |part| ==> part[i].kind != InsertDataroom
    ensures Reached(ws, r') && r'.store == ApplyAll(r.store, part)
    ensures r'.prev == if part == [] then r.prev else from + |part| - 1
    decreases |part|
  {
    if part == [] {
      r' := r;
    } else {
      var n := |part| - 1;
      var m := Execute(ws, r, from, part[..n]);
      SplitLast(part);
      r' := ExecuteOne(ws, m, from + n, r.store, part[..n], part[n]);
    }
  }

  // --- Dispatching one event. ---

  /** The tables are those of the run, which has got to event k at least. */
  ghost predicate Tracks(log: seq<Event>, r: Run, d: Db, k: nat)
    requires k <= |log|
  {
    Reached(Flatten(log), r) && -1 <= r.prev < |Flatten(log)| && r.store.db == d && Offset(log, k) <= r.prev + 1
  }

  lemma StartTracks(log: seq<Event>)
    ensures Tracks(log, START, EMPTY, 0)
  {
    WholeOffset(log);
    ReachedStart(Flatten(log));
  }

  lemma TracksEarlier(log: seq<Event>, r: Run, d: Db, j: nat, k: nat)
    requires j <= k <= |log| && Tracks(log, r, d, k)
    ensures Tracks(log, r, d, j)
  {
    OffsetsGrow(log, j, k);
  }

  lemma OnlyFirstInsertsRoom(e: Event)
    ensures forall i :: 0 < i < |Handler(e)| ==> Handler(e)[i] != InsertDataroom
    ensures |Handler(e)| > 0 ==> FirstOfHandler(Writes(e)[0])
  {
  }

  lemma PerformedFrom(s: Store, f: Db, e: Event, n: nat)
    requires Performed(s.db, f, e, n)
    ensures ApplyAll(s, Writes(e)[..n]).db == f
  {
    FlagIsLocal(Store(s.db, false), s, e, n);
  }

  /** What a handler performed, complete or not, is a continuation of the run. */
  lemma PerformedExtends(log: seq<Event>, r: Run, d: Db, f: Db, k: nat, n: nat) returns (r': Run)
    requires k < |log| && Tracks(log, r, d, k) && Performed(d, f, log[k], n)
    ensures Tracks(log, r', f, k) && (n == |Handler(log[k])| ==> Tracks(log, r', f, k + 1))
  {
    Segment(log, k);
    SliceIsAt(Flatten(log), Offset(log, k), Writes(log[k]), n);
    OnlyFirstInsertsRoom(log[k]);
    PerformedFrom(r.store, f, log[k], n);
    r' := Execute(Flatten(log), r, Offset(log, k), Writes(log[k])[..n]);
  }

  // --- Logs with their pools first. ---

  /** The event creates the pool that a dataroom event needs, or its dataroom. */
  predicate ProvidesFor(e: Payload, f: Payload)
    requires f.DataRoomCreated?
  {
    (e.PoolCreated? && e.pool == f.pool) || (e.DataRoomCreated? && e.dataroom == f.dataroom)
  }

  ghost predicate IsProvided(log: seq<Event>, k: nat)
    requires k < |log|
  {
    log[k].payload.DataRoomCreated? ==> exists i :: 0 <= i < k && ProvidesFor(log[i].payload, log[k].payload)
  }

  ghost predicate PoolsComeFirst(log: seq<Event>)
  {
    forall k :: 0 <= k < |log| ==> IsProvided(log, k)
  }

  lemma ProvidesItsFirst(e: Event, f: Payload)
    requires f.DataRoomCreated? && ProvidesFor(e.payload, f)
    ensures |Handler(e)| > 0 && Provides(Writes(e)[0], f)
  {
  }

  lemma ProvidedReady(log: seq<Event>, k: nat)
    requires k < |log| && |Handler(log[k])| > 0 && IsProvided(log, k)
    ensures Offset(log, k) < |Flatten(log)| && Ready(Flatten(log), Offset(log, k))
  {
    FirstWriteAt(log, k);
    if log[k].payload.DataRoomCreated? {
      var f := log[k].payload;
      var i :| 0 <= i < k && ProvidesFor(log[i].payload, f);
      ProvidesItsFirst(log[i], f);
      FirstWriteAt(log, i);
      OffsetsGrowStrictly(log, i, k);
      assert Provides(Flatten(log)[Offset(log, i)], f);
    }
  }

  lemma ReadyProvided(log: seq<Event>, k: nat)
    requires k < |log| && log[k].payload.DataRoomCreated?
    requires Offset(log, k) < |Flatten(log)| && Ready(Flatten(log), Offset(log, k))
    ensures IsProvided(log, k)
  {
    var f := log[k].payload;
    FirstWriteAt(log, k);
    var q :| 0 <= q < Offset(log, k) && Provides(Flatten(log)[q], f);
    var i := LeadAt(log, q);
    OffsetsOrder(log, i, k);
    assert ProvidesFor(log[i].payload, f);
  }

  /** The inserts of a log all go through iff each dataroom event comes after its pool, or after its dataroom. */
  lemma AcceptedLogIff(log: seq<Event>)
    ensures Accepted(Flatten(log), |Flatten(log)|) <==> PoolsComeFirst(log)
  {
    var ws := Flatten(log);
    AcceptedIff(ws, |ws|);
    if PoolsComeFirst(log) {
      forall q | 0 <= q < |ws| ensures Ready(ws, q) { ReadyWrite(log, q); }
    }
    if AllReady(ws, |ws|) {
      forall k | 0 <= k < |log| ensures IsProvided(log, k) { ReadyEvent(log, k); }
    }
  }

  lemma ReadyWrite(log: seq<Event>, q: nat)
    requires PoolsComeFirst(log) && q < |Flatten(log)|
    ensures Ready(Flatten(log), q)
  {
    if Flatten(log)[q].kind == InsertDataroom {
      var k := LeadAt(log, q);
      assert IsProvided(log, k);
      ProvidedReady(log, k);
    }
  }

  lemma ReadyEvent(log: seq<Event>, k: nat)
    requires AllReady(Flatten(log), |Flatten(log)|) && k < |log|
    ensures IsProvided(log, k)
  {
    if log[k].payload.DataRoomCreated? {
      FirstWriteAt(log, k);
      assert Ready(Flatten(log), Offset(log, k));
      ReadyProvided(log, k);
    }
  }

  /** In every run, the first write of an event that is provided for goes through. */
  lemma ProvidedDoesNotThrowHere(log: seq<Event>, r: Run, d: Db, k: nat)
    requires k < |log| && Tracks(log, r, d, k) && IsProvided(log, k) && |Handler(log[k])| > 0
    ensures !Throws(d, Writes(log[k])[0])
  {
    FirstWriteAt(log, k);
    ProvidedReady(log, k);
    HighIsAhead(log, r);
    ReadyDoesNotThrow(Flatten(log), r, Offset(log, k));
  }

  lemma HighIsAhead(log: seq<Event>, r: Run)
    requires Reached(Flatten(log), r)
    ensures r.prev < r.high
  {
    var trace :| ValidTrace(Flatten(log), trace) && After(Flatten(log), trace) == r;
    EveryRunInserts(Flatten(log), trace);
  }

  /** A dataroom event that nothing in front of it provides for stops the cursor for good. */
  lemma StuckBefore(log: seq<Event>, r: Run, d: Db, cursor: nat, k: nat)
    requires cursor <= |log| && Tracks(log, r, d, cursor) && k < |log| && !IsProvided(log, k)
    ensures cursor <= k
  {
    var q := Offset(log, k);
    FirstWriteAt(log, k);
    if Ready(Flatten(log), q) { ReadyProvided(log, k); }
    RoomBeforePoolStops(Flatten(log), r, q);
    if cursor > k { OffsetsGrowStrictly(log, k, cursor); }
  }

  /** So without its pools first, no run ever gets to the head of the log. */
  lemma NeverAtTheHead(log: seq<Event>, r: Run, d: Db, cursor: nat)
    requires cursor <= |log| && Tracks(log, r, d, cursor) && !PoolsComeFirst(log)
    ensures cursor < |log|
  {
    var k :| 0 <= k < |log| && !IsProvided(log, k);
    StuckBefore(log, r, d, cursor, k);
  }

  /**
   * The events of a new pool in the order in which the contract emits them: dataroom, owner, pool; the
   * member event carries the id of the pool. On any log that starts so, nothing is ever accepted.
   */
  lemma ContractOrderStops(log: seq<Event>, rest: seq<Event>, tx: string, pool: Id, room: Id, owner: string,
                           name: string, scheme: int, role: int, r: Run, d: Db, cursor: nat)
    requires log == [Event(tx, 0, DataRoomCreated(pool, room, owner)),
                     Event(tx, 1, MemberAdded(pool, owner, role, owner)),
                     Event(tx, 2, PoolCreated(pool, name, scheme, owner))] + rest
    requires cursor <= |log| && Tracks(log, r, d, cursor)
    ensures cursor == 0
  {
    StuckBefore(log, r, d, cursor, 0);
  }

  // --- The order of dispatches. ---

  datatype Outcome = Completed | NoHandler | SwallowedDuplicate | Failed

  datatype Dispatched = Dispatched(index: nat, outcome: Outcome)

  ghost predicate AcceptedIn(history: seq<Dispatched>, k: nat)
  {
    exists j :: 0 <= j < |history| && history[j].index == k && !history[j].outcome.Failed?
  }

  /** Every one of the first n events was dispatched, and did not fail. */
  ghost predicate Covered(history: seq<Dispatched>, n: nat)
  {
    forall k :: 0 <= k < n ==> AcceptedIn(history, k)
  }

  /** No event is dispatched before all earlier ones have been accepted. */
  ghost predicate InOrder(history: seq<Dispatched>)
  {
    forall i :: 0 <= i < |history| ==> Covered(history[..i], history[i].index)
  }

  lemma Record(history: seq<Dispatched>, k: nat, outcome: Outcome)
    requires InOrder(history) && Covered(history, k)
    ensures InOrder(history + [Dispatched(k, outcome)])
    ensures Covered(history + [Dispatched(k, outcome)], if outcome.Failed? then k else k + 1)
  {
    var more := history + [Dispatched(k, outcome)];
    forall i | 0 <= i < |more| ensures Covered(more[..i], more[i].index)
    {
      assert more[..i] == if i < |history| then history[..i] else history;
    }
    StillCovered(history, Dispatched(k, outcome), k);
    if !outcome.Failed? { assert more[|history|].index == k; }
  }

  lemma StillCovered(history: seq<Dispatched>, d: Dispatched, n: nat)
    requires Covered(history, n)
    ensures Covered(history + [d], n)
  {
    forall k | 0 <= k < n ensures AcceptedIn(history + [d], k)
    {
      assert AcceptedIn(history, k);
      var j :| 0 <= j < |history| && history[j].index == k && !history[j].outcome.Failed?;
      assert (history + [d])[j] == history[j];
    }
  }
}
