// When a member event takes effect: in every run, exactly when a dataroom event with the id that it
// carries comes before it; in some run, exactly when there is one anywhere. The contract puts the id of
// the pool there.

module Membership {
  import opened Tables
  import opened Events
  import opened Cells
  import opened Replay
  import opened Contents
  import opened Runs
  import opened Log
  import opened Accounting
  import opened Dispatch

  // --- No dataroom with this id. ---

  ghost predicate NoSuchRoom(ws: seq<Write>, room: Id)
  {
    forall p :: 0 <= p < |ws| ==> !CreatesRoom(ws, p, room)
  }

  /** Every event with this audit key is a member event for the dataroom. */
  ghost predicate OnlyOfRoom(ws: seq<Write>, key: AuditKey, room: Id)
  {
    forall q :: 0 <= q < |ws| && AuditKeyOf(ws[q].event) == key ==> RoomObject(room) in LooksUp(ws[q].event.payload)
  }

  ghost predicate NothingOf(d: Db, room: Id)
  {
    room !in d.datarooms && forall key :: key in d.members ==> key.dataroom != room
  }

  lemma NothingNext(s: Store, w: Write, room: Id)
    requires NothingOf(s.db, room)
    requires !(w.kind == InsertDataroom && w.event.payload.DataRoomCreated? && w.event.payload.dataroom == room)
    ensures NothingOf(Apply(s, w).db, room)
  {
    RoomStep(s, w, room);
    forall key | key in Apply(s, w).db.members ensures key.dataroom != room
    {
      MemberStep(s, w, key);
    }
  }

  lemma {:induction false} EveryRunHasNothing(ws: seq<Write>, trace: Trace, room: Id)
    requires ValidTrace(ws, trace) && NoSuchRoom(ws, room)
    ensures NothingOf(After(ws, trace).store.db, room)
  {
    if trace.Then? {
      EveryRunHasNothing(ws, trace.before, room);
      assert !CreatesRoom(ws, trace.pos, room);
      NothingNext(After(ws, trace.before).store, ws[trace.pos], room);
    }
  }

  lemma NotAuditedNext(s: Store, w: Write, room: Id, key: AuditKey)
    requires NothingOf(s.db, room) && key !in s.db.audits
    requires AuditKeyOf(w.event) == key ==> RoomObject(room) in LooksUp(w.event.payload)
    ensures key !in Apply(s, w).db.audits
  {
    ApplyAudits(s, w);
  }

  lemma {:induction false} EveryRunDoesNotAudit(ws: seq<Write>, trace: Trace, room: Id, key: AuditKey)
    requires ValidTrace(ws, trace) && NoSuchRoom(ws, room) && OnlyOfRoom(ws, key, room)
    ensures key !in After(ws, trace).store.db.audits
  {
    if trace.Then? {
      EveryRunHasNothing(ws, trace.before, room);
      EveryRunDoesNotAudit(ws, trace.before, room, key);
      NotAuditedNext(After(ws, trace.before).store, ws[trace.pos], room, key);
    }
  }

  // --- The same for logs. ---

  predicate CreatesRoomHere(e: Payload, room: Id)
  {
    e.DataRoomCreated? && e.dataroom == room
  }

  predicate AddsMemberHere(e: Payload, key: MemberKey)
  {
    e.MemberAdded? && key == MemberKey(e.dataroom, e.member)
  }

  lemma NoSuchRoomInLog(log: seq<Event>, room: Id)
    requires forall i :: 0 <= i < |log| ==> !CreatesRoomHere(log[i].payload, room)
    ensures NoSuchRoom(Flatten(log), room)
  {
    forall p | 0 <= p < |Flatten(log)| ensures !CreatesRoom(Flatten(log), p, room)
    {
      var k := FlattenEvents(log, p);
    }
  }

  /** Member events for an id that no dataroom event carries leave no member row, in any run. */
  lemma DroppedMembers(log: seq<Event>, r: Run, d: Db, cursor: nat, key: MemberKey)
    requires cursor <= |log| && Tracks(log, r, d, cursor)
    requires forall i :: 0 <= i < |log| ==> !CreatesRoomHere(log[i].payload, key.dataroom)
    ensures key !in d.members
  {
    NoSuchRoomInLog(log, key.dataroom);
    var trace :| ValidTrace(Flatten(log), trace) && After(Flatten(log), trace) == r;
    EveryRunHasNothing(Flatten(log), trace, key.dataroom);
  }

  /** Nor any audit row. */
  lemma DroppedAudit(log: seq<Event>, r: Run, d: Db, cursor: nat, room: Id, k: nat)
    requires cursor <= |log| && Tracks(log, r, d, cursor) && DistinctIds(log)
    requires forall i :: 0 <= i < |log| ==> !CreatesRoomHere(log[i].payload, room)
    requires k < |log| && RoomObject(room) in LooksUp(log[k].payload)
    ensures AuditKeyOf(log[k]) !in d.audits
  {
    var ws, key := Flatten(log), AuditKeyOf(log[k]);
    NoSuchRoomInLog(log, room);
    forall q | 0 <= q < |ws| && AuditKeyOf(ws[q].event) == key ensures RoomObject(room) in LooksUp(ws[q].event.payload)
    {
      EventByKey(log, q, k);
    }
    var trace :| ValidTrace(ws, trace) && After(ws, trace) == r;
    EveryRunDoesNotAudit(ws, trace, room, key);
  }

  // --- The exact condition. ---

  /** An earlier event of the log creates the dataroom of a later one that adds the member. */
  ghost predicate AddedAfterRoom(log: seq<Event>, key: MemberKey)
  {
    exists i, j :: 0 <= i < j < |log| && CreatesRoomHere(log[i].payload, key.dataroom)
                   && AddsMemberHere(log[j].payload, key)
  }

  ghost predicate WrittenAfterRoom(ws: seq<Write>, key: MemberKey)
  {
    exists p, q :: 0 <= p < q < |ws| && CreatesRoom(ws, p, key.dataroom) && AddsMember(ws[q], key)
  }

  lemma WrittenIsAdded(log: seq<Event>, key: MemberKey)
    requires WrittenAfterRoom(Flatten(log), key)
    ensures AddedAfterRoom(log, key)
  {
    var ws := Flatten(log);
    var p, q :| 0 <= p < q < |ws| && CreatesRoom(ws, p, key.dataroom) && AddsMember(ws[q], key);
    var i := LeadAt(log, p);
    var j := LeadAt(log, q);
    OffsetsOrder(log, i, j);
    assert CreatesRoomHere(log[i].payload, key.dataroom) && AddsMemberHere(log[j].payload, key);
  }

  lemma AddedIsWritten(log: seq<Event>, key: MemberKey)
    requires AddedAfterRoom(log, key)
    ensures WrittenAfterRoom(Flatten(log), key)
  {
    var i, j :| 0 <= i < j < |log| && CreatesRoomHere(log[i].payload, key.dataroom)
                && AddsMemberHere(log[j].payload, key);
    FirstWriteAt(log, i);
    FirstWriteAt(log, j);
    OffsetsGrowStrictly(log, i, j);
    assert CreatesRoom(Flatten(log), Offset(log, i), key.dataroom);
    assert AddsMember(Flatten(log)[Offset(log, j)], key);
  }

  /** Some event of the log adds the member, and some event creates its dataroom, in whatever order. */
  ghost predicate CreatedAndAdded(log: seq<Event>, key: MemberKey)
  {
    && (exists i :: 0 <= i < |log| && CreatesRoomHere(log[i].payload, key.dataroom))
    && (exists j :: 0 <= j < |log| && AddsMemberHere(log[j].payload, key))
  }

  // --- What every run has. ---

  /** Member writes behind the creation of their dataroom, executed at least once, have left their row. */
  ghost predicate MemberWritten(ws: seq<Write>, r: Run, key: MemberKey)
  {
    && AllInserted(ws, r)
    && forall p, q :: 0 <= p < q < r.high && CreatesRoom(ws, p, key.dataroom) && AddsMember(ws[q], key) ==>
      key in r.store.db.members
  }

  lemma MemberWrittenStep(ws: seq<Write>, r: Run, pos: nat, key: MemberKey)
    requires MemberWritten(ws, r, key) && CanStep(ws, r, pos)
    ensures MemberWritten(ws, Step(ws, r, pos), key)
  {
    AllInsertedStep(ws, r, pos);
    MemberStep(r.store, ws[pos], key);
    forall p, q | 0 <= p < q < Step(ws, r, pos).high && CreatesRoom(ws, p, key.dataroom) && AddsMember(ws[q], key)
      ensures key in Apply(r.store, ws[pos]).db.members
    {
      assert Inserted(r.store.db, ws[p]);
    }
  }

  lemma {:induction false} EveryRunHasMember(ws: seq<Write>, trace: Trace, key: MemberKey)
    requires ValidTrace(ws, trace)
    ensures MemberWritten(ws, After(ws, trace), key)
  {
    if trace.Then? {
      EveryRunHasMember(ws, trace.before, key);
      MemberWrittenStep(ws, After(ws, trace.before), trace.pos, key);
    }
  }

  lemma MemberInEveryRun(log: seq<Event>, r: Run, d: Db, key: MemberKey)
    requires Tracks(log, r, d, |log|) && AddedAfterRoom(log, key)
    ensures key in d.members
  {
    WholeOffset(log);
    AddedIsWritten(log, key);
    var trace :| ValidTrace(Flatten(log), trace) && After(Flatten(log), trace) == r;
    EveryRunHasMember(Flatten(log), trace, key);
  }

  lemma {:induction false} NeverAdded(ws: seq<Write>, trace: Trace, key: MemberKey)
    requires ValidTrace(ws, trace) && forall q :: 0 <= q < |ws| ==> !AddsMember(ws[q], key)
    ensures key !in After(ws, trace).store.db.members
  {
    if trace.Then? {
      NeverAdded(ws, trace.before, key);
      MemberStep(After(ws, trace.before).store, ws[trace.pos], key);
    }
  }

  lemma MemberNeedsBoth(log: seq<Event>, r: Run, d: Db, cursor: nat, key: MemberKey)
    requires cursor <= |log| && Tracks(log, r, d, cursor) && key in d.members
    ensures CreatedAndAdded(log, key)
  {
    if forall i :: 0 <= i < |log| ==> !CreatesRoomHere(log[i].payload, key.dataroom) {
      DroppedMembers(log, r, d, cursor, key);
    }
    if forall j :: 0 <= j < |log| ==> !AddsMemberHere(log[j].payload, key) {
      var ws := Flatten(log);
      forall q | 0 <= q < |ws| ensures !AddsMember(ws[q], key) { var k := FlattenEvents(log, q); }
      var trace :| ValidTrace(ws, trace) && After(ws, trace) == r;
      NeverAdded(ws, trace, key);
    }
  }

  // --- What some runs have. ---

  ghost predicate IsStraight(ws: seq<Write>, k: nat, r: Run)
    requires k <= |ws|
  {
    Reached(ws, r) && r.prev + 1 == k && r.store == Clean(ws, k)
  }

  lemma StraightNext(ws: seq<Write>, k: nat, r: Run)
    requires k < |ws| && !Throws(Clean(ws, k).db, ws[k]) && IsStraight(ws, k, r)
    ensures r.prev < |ws| && IsStraight(ws, k + 1, Step(ws, r, k))
  {
    ReachedStep(ws, r, k);
  }

  /** The run without any crash is the clean pass. */
  lemma {:induction false} StraightRun(ws: seq<Write>, k: nat) returns (r: Run)
    requires k <= |ws| && Accepted(ws, |ws|)
    ensures IsStraight(ws, k, r)
  {
    r := START;
    if k == 0 {
      ReachedStart(ws);
    } else {
      var pos := k - 1;
      r := StraightRun(ws, pos);
      StraightNext(ws, pos, r);
      r := Step(ws, r, pos);
    }
  }

  /** The dataroom is there, and so is the member if one of the first `upto` writes adds it. */
  ghost predicate Found(ws: seq<Write>, r: Run, upto: nat, key: MemberKey)
    requires upto <= |ws|
  {
    && key.dataroom in r.store.db.datarooms
    && forall q :: 0 <= q < upto && AddsMember(ws[q], key) ==> key in r.store.db.members
  }

  lemma FoundNext(ws: seq<Write>, m: Run, pos: nat, key: MemberKey)
    requires pos < |ws| && m.prev < |ws| && Found(ws, m, pos, key)
    ensures Found(ws, Step(ws, m, pos), pos + 1, key)
  {
    RoomStep(m.store, ws[pos], key.dataroom);
    MemberStep(m.store, ws[pos], key);
  }

  lemma SecondStep(ws: seq<Write>, m: Run, pos: nat)
    requires Reached(ws, m) && m.prev < |ws| && Accepted(ws, |ws|)
    requires pos < |ws| && (pos == m.prev + 1 || (pos <= m.prev && FirstOfHandler(ws[pos])))
    ensures Reached(ws, Step(ws, m, pos))
  {
    AcceptedIff(ws, |ws|);
    var trace :| ValidTrace(ws, trace) && After(ws, trace) == m;
    EveryRunInserts(ws, trace);
    ReadyDoesNotThrow(ws, m, pos);
    ReachedStep(ws, m, pos);
  }

  /** From the end back to the start, and on to `upto`: now every member write finds the dataroom. */
  lemma {:induction false} SecondPass(ws: seq<Write>, r: Run, upto: nat, key: MemberKey) returns (r': Run)
    requires Reached(ws, r) && r.prev + 1 == |ws| && Accepted(ws, |ws|) && key.dataroom in r.store.db.datarooms
    requires 0 < upto <= |ws| && FirstOfHandler(ws[0])
    ensures Reached(ws, r') && r'.prev + 1 == upto && Found(ws, r', upto, key)
  {
    var pos := upto - 1;
    var m := r;
    if pos > 0 { m := SecondPass(ws, r, pos, key); }
    SecondStep(ws, m, pos);
    FoundNext(ws, m, pos, key);
    r' := Step(ws, m, pos);
  }

  lemma StartsWithFirst(log: seq<Event>)
    requires Flatten(log) != []
    ensures FirstOfHandler(Flatten(log)[0])
  {
    var k := Locate(log, 0);
    WriteAt(log, k, 0);
  }

  lemma RoomAtTheEnd(log: seq<Event>, room: Id, i: nat)
    requires PoolsComeFirst(log) && i < |log| && CreatesRoomHere(log[i].payload, room)
    ensures Accepted(Flatten(log), |Flatten(log)|) && room in Clean(Flatten(log), |Flatten(log)|).db.datarooms
  {
    AcceptedLogIff(log);
    FirstWriteAt(log, i);
    assert CreatesRoom(Flatten(log), Offset(log, i), room);
    RoomCreatedIff(Flatten(log), |Flatten(log)|, room);
  }

  lemma WholeRunTracks(log: seq<Event>, r: Run)
    requires Reached(Flatten(log), r) && r.prev + 1 == |Flatten(log)|
    ensures Tracks(log, r, r.store.db, |log|)
  {
    WholeOffset(log);
  }

  lemma MemberInSomeRun(log: seq<Event>, key: MemberKey) returns (r: Run)
    requires PoolsComeFirst(log) && CreatedAndAdded(log, key)
    ensures Tracks(log, r, r.store.db, |log|) && key in r.store.db.members
  {
    var ws := Flatten(log);
    var i :| 0 <= i < |log| && CreatesRoomHere(log[i].payload, key.dataroom);
    RoomAtTheEnd(log, key.dataroom, i);
    var q := MemberWrite(log, key);
    StartsWithFirst(log);
    r := StraightRun(ws, |ws|);
    r := SecondPass(ws, r, |ws|, key);
    WholeRunTracks(log, r);
  }

  lemma MemberWrite(log: seq<Event>, key: MemberKey) returns (q: nat)
    requires CreatedAndAdded(log, key)
    ensures q < |Flatten(log)| && AddsMember(Flatten(log)[q], key)
  {
    var j :| 0 <= j < |log| && AddsMemberHere(log[j].payload, key);
    FirstWriteAt(log, j);
    q := Offset(log, j);
  }

  lemma CleanPassAtTheHead(log: seq<Event>, key: MemberKey) returns (r: Run)
    requires PoolsComeFirst(log)
    ensures Tracks(log, r, r.store.db, |log|) && (key in r.store.db.members ==> AddedAfterRoom(log, key))
  {
    var ws := Flatten(log);
    AcceptedLogIff(log);
    r := StraightRun(ws, |ws|);
    WholeRunTracks(log, r);
    MemberRowIff(ws, |ws|, key);
    if key in r.store.db.members { WrittenIsAdded(log, key); }
  }

  // --- The exact conditions. ---

  ghost predicate InEveryRun(log: seq<Event>, key: MemberKey)
  {
    forall r, d :: Tracks(log, r, d, |log|) ==> key in d.members
  }

  ghost predicate InSomeRun(log: seq<Event>, key: MemberKey)
  {
    exists r, d :: Tracks(log, r, d, |log|) && key in d.members
  }

  /**
   * At the head of any log that has one, every run has the member iff an event added it after one that
   * created its dataroom; some run has it iff there are such events in either order.
   */
  lemma MemberInRunsIff(log: seq<Event>, key: MemberKey)
    requires PoolsComeFirst(log)
    ensures InEveryRun(log, key) <==> AddedAfterRoom(log, key)
    ensures InSomeRun(log, key) <==> CreatedAndAdded(log, key)
  {
    var r := CleanPassAtTheHead(log, key);
    forall r, d | Tracks(log, r, d, |log|) && AddedAfterRoom(log, key) ensures key in d.members
    {
      MemberInEveryRun(log, r, d, key);
    }
    forall r, d | Tracks(log, r, d, |log|) && key in d.members ensures CreatedAndAdded(log, key)
    {
      MemberNeedsBoth(log, r, d, |log|, key);
    }
    if CreatedAndAdded(log, key) { var again := MemberInSomeRun(log, key); }
  }

  /** On a well-formed log, where no dataroom is created behind its member events, the two are one. */
  lemma MemberRowAtTheHead(log: seq<Event>, r: Run, d: Db, key: MemberKey)
    requires WellFormedLog(log) && Tracks(log, r, d, |log|)
    ensures key in d.members <==> AddedAfterRoom(log, key)
  {
    if AddedAfterRoom(log, key) { MemberInEveryRun(log, r, d, key); }
    if key in d.members {
      MemberNeedsBoth(log, r, d, |log|, key);
      var i :| 0 <= i < |log| && CreatesRoomHere(log[i].payload, key.dataroom);
      var j :| 0 <= j < |log| && AddsMemberHere(log[j].payload, key);
      RoomIsLookedUp(log[i].payload, log[j].payload, key);
    }
  }

  lemma RoomIsLookedUp(e: Payload, f: Payload, key: MemberKey)
    requires CreatesRoomHere(e, key.dataroom) && AddsMemberHere(f, key)
    ensures RoomObject(key.dataroom) in Creates(e) * LooksUp(f) && e != f
  {
  }
}
