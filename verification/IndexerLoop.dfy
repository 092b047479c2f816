// The indexer loop: poll a page behind the cursor, dispatch its events in order, save the cursor.
// The process may be killed at any write, and started again. What the event source answers is
// scripted by rounds; which calls to the database throw is scripted by the connection's faults.

module IndexerLoop {
  import opened Results
  import opened Tables
  import opened Events
  import opened Cells
  import opened Replay
  import opened Runs
  import opened Log
  import opened Accounting
  import opened Database
  import opened Handlers
  import opened Dispatch

  /** One answer of the event source. A page holds at most `limit` events, fewer at the head of the log. */
  datatype Round = PollFails | Page(limit: nat, hasCursor: bool)

  /** The rounds that offer new events together with a cursor. */
  function Useful(rounds: seq<Round>): (n: nat)
  {
    if rounds == [] then 0 else (if IsUseful(rounds[0]) then 1 else 0) + Useful(rounds[1..])
  }

  predicate IsUseful(round: Round)
  {
    round.Page? && round.limit > 0 && round.hasCursor
  }

  function Saved(checkpoint: Option<nat>): (cursor: nat)
  {
    if checkpoint.Some? then checkpoint.value else 0
  }

  /** Where a page with this limit ends. */
  function PageEnd(cursor: nat, limit: nat, head: nat): (next: nat)
    requires cursor <= head
    ensures cursor <= next <= head && next <= cursor + limit && (next == head || next == cursor + limit)
  {
    if limit < head - cursor then cursor + limit else head
  }

  class Indexer {
    const log: seq<Event>
    const db: Connection
    ghost var run: Run
    ghost var history: seq<Dispatched>
    ghost var swallowed: bool

    constructor (log: seq<Event>, db: Connection)
      requires db.View() == EMPTY && db.checkpoint == None
      ensures Valid() && this.log == log && this.db == db && history == [] && !swallowed
    {
      this.log := log;
      this.db := db;
      run := START;
      history := [];
      swallowed := false;
      new;
      StartTracks(log);
    }

    /**
     * The events before k were dispatched and accepted, in order. Unless a duplicate-key error was
     * swallowed, the tables are those of a run that has got to event k at least.
     */
    ghost predicate HasPassed(k: nat)
      reads this, db
    {
      && k <= |log| && InOrder(history) && Covered(history, k)
      && (!swallowed ==> Tracks(log, run, db.View(), k))
    }

    /** This holds for the saved cursor, at any time. */
    ghost predicate Valid()
      reads this, db
    {
      HasPassed(Saved(db.checkpoint))
    }

    /** History only grows, and no duplicate is swallowed unless the script has one. */
    twostate predicate Went(error: Option<DbError>, excused: bool)
      reads this, db
    {
      && old(history) <= history && (old(swallowed) ==> swallowed)
      && (NoDuplicates(old(db.faults)) ==> swallowed == old(swallowed))
      && Spent(old(db.faults), db.faults, error, excused)
    }

    /** Whatever else happens, the saved cursor stays behind the head unless the pools come first. */
    lemma StaysBehind()
      requires Valid() && !swallowed && !PoolsComeFirst(log)
      ensures Saved(db.checkpoint) < |log|
    {
      NeverAtTheHead(log, run, db.View(), Saved(db.checkpoint));
    }

    lemma PassedEarlier(j: nat, k: nat)
      requires j <= k && HasPassed(k)
      ensures HasPassed(j)
    {
      if !swallowed { TracksEarlier(log, run, db.View(), j, k); }
    }

    /**
     * Dispatches the events from the saved cursor up to `upto`. The error that stops it at event `at` is not
     * a duplicate; it comes from the script, unless event `at` needs a pool that does not exist.
     */
    method ProcessBatch(upto: nat) returns (error: Option<DbError>, ghost at: nat)
      requires Valid() && Saved(db.checkpoint) <= upto <= |log|
      modifies this, db
      ensures Valid() && db.checkpoint == old(db.checkpoint) && error != Some(Duplicate)
      ensures at <= upto && HasPassed(at) && (error.None? <==> at == upto)
      ensures Went(error, at < upto && NeedsPool(at))
    {
      var cursor := Saved(db.checkpoint);
      var k := cursor;
      error := None;
      while k < upto
        invariant cursor <= k <= upto && HasPassed(k) && db.checkpoint == old(db.checkpoint)
        invariant error.None? && Went(None, false)
      {
        ghost var before := db.faults;
        error := Dispatch(k);
        SpentTwice(old(db.faults), before, db.faults, error, NeedsPool(k));
        assert Went(error, NeedsPool(k));
        if error.Some? { break; }
        k := k + 1;
      }
      PassedEarlier(cursor, k);
      at := k;
    }

    /** The insert of event k violates the foreign key. */
    ghost predicate NeedsPool(k: nat)
      reads this, db
      requires k < |log|
    {
      |Handler(log[k])| > 0 && Throws(db.View(), Writes(log[k])[0])
    }

    lemma NeedsNoPool(k: nat)
      requires k < |log| && HasPassed(k) && !swallowed && PoolsComeFirst(log)
      ensures !NeedsPool(k)
    {
      assert IsProvided(log, k);
      if |Handler(log[k])| > 0 { ProvidedDoesNotThrowHere(log, run, db.View(), k); }
    }

    /** One event: no handler, or the handler with its error swallowed or thrown on. */
    method Dispatch(k: nat) returns (error: Option<DbError>)
      requires k < |log| && HasPassed(k)
      modifies this, db
      ensures error != Some(Duplicate) && HasPassed(if error.Some? then k else k + 1)
      ensures db.checkpoint == old(db.checkpoint) && Went(error, NeedsPool(k))
      ensures |history| == old(|history|) + 1 && history[old(|history|)].index == k
      ensures history[old(|history|)].outcome.NoHandler? <==> log[k].payload.Unhandled?
      ensures history[old(|history|)].outcome.Failed? <==> error.Some?
    {
      ghost var outcome := Completed;
      error := None;
      if log[k].payload.Unhandled? {
        outcome := NoHandler;
        if !swallowed { UnhandledTracks(log, run, db.View(), k); }
      } else {
        error := CallHandler(k);
        if error == Some(Duplicate) {
          outcome := SwallowedDuplicate;
          swallowed := true;
          error := None;
        } else if error.Some? {
          outcome := Failed;
        }
      }
      Record(history, k, outcome);
      StillCovered(history, Dispatched(k, outcome), k);
      history := history + [Dispatched(k, outcome)];
    }

    method CallHandler(k: nat) returns (error: Option<DbError>)
      requires k < |log| && !log[k].payload.Unhandled?
      modifies this`run, db
      ensures db.checkpoint == old(db.checkpoint) && Spent(old(db.faults), db.faults, error, NeedsPool(k))
      ensures old(Tracks(log, run, db.View(), k)) ==> Tracks(log, run, db.View(), if error.None? then k + 1 else k)
    {
      ghost var d := db.View();
      ghost var done;
      error, done := Handle(db, log[k]);
      if Throws(d, Writes(log[k])[0]) { NothingPerformed(d, db.View(), log[k], done); }
      if Tracks(log, run, d, k) {
        ghost var r := PerformedExtends(log, run, d, db.View(), k, done);
        run := r;
      }
    }

    /** Overwrites the checkpoint row. */
    method SaveCursor(cursor: nat) returns (error: Option<DbError>)
      requires Valid() && HasPassed(cursor)
      modifies db`checkpoint, db`faults
      ensures Valid() && db.checkpoint == if error.None? then Some(cursor) else old(db.checkpoint)
      ensures Spent(old(db.faults), db.faults, error, false)
    {
      error := db.SaveCheckpoint(cursor);
      assert db.View() == old(db.View());
    }

    /** One iteration of the loop, from poll to the saved cursor. */
    method Iterate(round: Round, cursor: nat) returns (cursor': nat, error: Option<DbError>)
      requires Valid() && cursor == Saved(db.checkpoint)
      modifies this, db
      ensures Valid() && cursor <= cursor' == Saved(db.checkpoint) && Went(None, false)
      ensures cursor' == cursor || (round.Page? && round.hasCursor && cursor' == PageEnd(cursor, round.limit, |log|))
      ensures error == Some(Killed) ==> Kills(db.faults) < old(Kills(db.faults))
      ensures !swallowed && PoolsComeFirst(log) && IsUseful(round) && cursor < |log| ==>
        cursor' > cursor || |db.faults| < old(|db.faults|)
    {
      cursor', error := cursor, None;
      match round {
        case PollFails =>
        case Page(limit, hasCursor) =>
          var next := PageEnd(cursor, limit, |log|);
          if cursor < next {
            ghost var at;
            error, at := ProcessBatch(next);
            if error.Some? && !swallowed && PoolsComeFirst(log) { NeedsNoPool(at); }
            if error.None? && hasCursor {
              error := SaveCursor(next);
              if error.None? { cursor' := next; }
            }
          }
      }
    }

    /**
     * The loop, until the rounds are used up or the process is killed; `rest` are the rounds left, which there
     * are only when it was killed. The cursor in memory is always the saved one.
     */
    method Start(rounds: seq<Round>) returns (cursor: nat, rest: seq<Round>)
      requires Valid()
      modifies this, db
      ensures Valid() && Went(None, false) && (rounds != [] ==> |rest| < |rounds|)
      ensures rest != [] ==> Kills(db.faults) < old(Kills(db.faults))
      ensures old(Saved(db.checkpoint)) <= cursor == Saved(db.checkpoint)
      ensures !swallowed && PoolsComeFirst(log) && cursor < |log| ==>
        Useful(rounds) - Useful(rest) <= (cursor - old(Saved(db.checkpoint))) + (old(|db.faults|) - |db.faults|)
    {
      cursor, rest := Saved(db.checkpoint), rounds;
      while rest != []
        invariant Valid() && Went(None, false) && (rest == rounds || |rest| < |rounds|)
        invariant Kills(db.faults) <= old(Kills(db.faults))
        invariant old(Saved(db.checkpoint)) <= cursor == Saved(db.checkpoint)
        invariant !swallowed && PoolsComeFirst(log) && cursor < |log| ==>
          Useful(rounds) - Useful(rest) <= (cursor - old(Saved(db.checkpoint))) + (old(|db.faults|) - |db.faults|)
      {
        var round, error := rest[0], None;
        rest := rest[1..];
        cursor, error := Iterate(round, cursor);
        if error == Some(Killed) { return; }
      }
    }

    /**
     * The process, started again each time it is killed. With enough useful pages for the events and the
     * failures left, it gets to the head of the log iff the pools come first; and there, on a well-formed
     * log, the tables are those of one clean pass.
     */
    method Run(rounds: seq<Round>)
      requires Valid()
      modifies this, db
      ensures Valid() && Went(None, false)
      ensures !swallowed && !PoolsComeFirst(log) ==> Saved(db.checkpoint) < |log|
      ensures !swallowed && |log| + old(|db.faults|) <= Useful(rounds) ==>
        (Saved(db.checkpoint) == |log| <==> PoolsComeFirst(log))
      ensures !swallowed && WellFormedLog(log) && Saved(db.checkpoint) == |log| ==> CaughtUp(log, run, db.View())
    {
      var cursor, rest := Saved(db.checkpoint), rounds;
      while rest != []
        invariant Valid() && Went(None, false)
        invariant old(Saved(db.checkpoint)) <= cursor == Saved(db.checkpoint)
        invariant !swallowed && PoolsComeFirst(log) && cursor < |log| ==>
          Useful(rounds) - Useful(rest) <= (cursor - old(Saved(db.checkpoint))) + (old(|db.faults|) - |db.faults|)
        decreases |rest|
      {
        cursor, rest := Start(rest);
      }
      if !swallowed {
        if !PoolsComeFirst(log) { NeverAtTheHead(log, run, db.View(), cursor); }
        if WellFormedLog(log) && cursor == |log| { AtTheHead(log, run, db.View()); }
      }
    }
  }

  /**
   * The tables are those of one clean pass over the whole log. Missing are the first version rows of
   * the documents whose insertion was cut off, and versionCount is too high by the repeated increments.
   */
  ghost predicate CaughtUp(log: seq<Event>, r: Run, d: Db)
  {
    var ws := Flatten(log);
    var f := Clean(ws, |ws|).db;
    && Same(d, f) && d.versions == f.versions - Lost(ws, r.torn)
    && (d.versions == f.versions <==> forall q :: q in r.torn ==> q < |ws| && !NewDocumentAt(ws, q))
    && forall k :: k in d.documents ==> d.documents[k].versionCount == f.documents[k].versionCount + r.again[k]
  }

  lemma AtTheHead(log: seq<Event>, r: Run, d: Db)
    requires WellFormedLog(log) && Tracks(log, r, d, |log|)
    ensures CaughtUp(log, r, d)
  {
    var ws := Flatten(log);
    WholeOffset(log);
    FlattenWellFormed(log);
    ReachedInv(ws, r);
    Absorption(ws, r);
    VersionsExactly(ws, r);
  }

  lemma SameCoreAudit(d: Db, f: Db, e: Event)
    requires SameCore(d, f) && AuditedOnce(f, e)
    ensures AuditedOnce(d, e)
  {
  }

  /** There, versionCount is the number of version rows of the clean pass, plus the repeated increments. */
  lemma CountsAtTheHead(log: seq<Event>, r: Run, d: Db, doc: Id)
    requires WellFormedLog(log) && Tracks(log, r, d, |log|) && doc in d.documents
    ensures d.documents[doc].versionCount == |RowsOf(Clean(Flatten(log), |Flatten(log)|).db, doc)| + r.again[doc]
  {
    AtTheHead(log, r, d);
    VersionCountIsRowCount(log);
  }

  lemma AuditsAreAhead(log: seq<Event>, r: Run, d: Db, cursor: nat)
    requires WellFormedLog(log) && cursor <= |log| && Tracks(log, r, d, cursor)
    ensures Offset(log, cursor) <= r.high <= |Flatten(log)| && SameCore(d, Clean(Flatten(log), r.high).db)
  {
    FlattenWellFormed(log);
    ReachedInv(Flatten(log), r);
  }

  /** In every run, each event behind the cursor has its one audit row iff its handler finds the parent rows. */
  lemma AuditInEveryRun(log: seq<Event>, r: Run, d: Db, cursor: nat, k: nat)
    requires WellFormedLog(log) && DistinctIds(log) && k < cursor <= |log| && Tracks(log, r, d, cursor)
    requires !log[k].payload.Unhandled?
    ensures AuditedOnce(d, log[k])
  {
    AuditsAreAhead(log, r, d, cursor);
    OffsetsGrow(log, k + 1, cursor);
    AuditExactlyOnce(log, k, r.high);
    SameCoreAudit(d, Clean(Flatten(log), r.high).db, log[k]);
  }

  lemma OnlyEventsAreAudited(log: seq<Event>, r: Run, d: Db, cursor: nat, key: AuditKey)
    requires WellFormedLog(log) && cursor <= |log| && Tracks(log, r, d, cursor) && key in d.audits
    ensures exists k :: 0 <= k < |log| && AuditKeyOf(log[k]) == key
  {
    AuditsAreAhead(log, r, d, cursor);
    AuditRowsAreEvents(log, r.high, key);
  }

  /** A handler whose first write throws leaves the tables as they were. */
  lemma NothingPerformed(d: Db, f: Db, e: Event, n: nat)
    requires Performed(d, f, e, n) && |Handler(e)| > 0 && Throws(d, Writes(e)[0])
    ensures f == d
  {
    assert Writes(e)[..n] == [];
  }

  lemma UnhandledOffset(log: seq<Event>, k: nat)
    requires k < |log| && log[k].payload.Unhandled?
    ensures Offset(log, k + 1) == Offset(log, k)
  {
    Segment(log, k);
  }

  lemma UnhandledTracks(log: seq<Event>, r: Run, d: Db, k: nat)
    requires k < |log| && log[k].payload.Unhandled? && Tracks(log, r, d, k)
    ensures Tracks(log, r, d, k + 1)
  {
    UnhandledOffset(log, k);
  }
}
