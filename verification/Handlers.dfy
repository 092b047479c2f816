// The eleven event handlers: reads first, then the repository writes one after the other, leaving
// at the first call that throws.

module Handlers {
  import opened Results
  import opened Tables
  import opened Events
  import opened Log
  import opened Database

  /** From d, the handler of e has performed its first n writes. */
  ghost predicate Performed(d: Db, f: Db, e: Event, n: nat)
  {
    && n <= |Handler(e)| && (n > 0 ==> !Throws(d, Writes(e)[0]))
    && f == ApplyAll(Store(d, false), Writes(e)[..n]).db
  }

  /** All writes are performed, unless an error stopped the handler. */
  ghost predicate Handled(d: Db, f: Db, e: Event, error: Option<DbError>, done: nat)
  {
    Performed(d, f, e, done) && (error.None? ==> done == |Handler(e)|)
  }

  lemma NextWrite(s: Store, e: Event, n: nat)
    requires n < |Handler(e)|
    ensures ApplyAll(s, Writes(e)[..n + 1]) == Apply(ApplyAll(s, Writes(e)[..n]), Writes(e)[n])
  {
    assert Writes(e)[..n + 1] == Writes(e)[..n] + [Writes(e)[n]];
    ApplySnoc(s, Writes(e)[..n], Writes(e)[n]);
  }

  /** When a parent row is missing, no write has any effect. */
  lemma {:induction false} Skipped(s: Store, ws: seq<Write>, e: Payload)
    requires !ParentsFound(s.db, e) && forall w :: w in ws ==> w.event.payload == e
    ensures ApplyAll(s, ws) == s
  {
    if ws != [] { Skipped(s, ws[..|ws| - 1], e); }
  }

  lemma SkippedHandler(d: Db, e: Event)
    requires !ParentsFound(d, e.payload)
    ensures Handled(d, d, e, None, |Handler(e)|)
  {
    assert Writes(e)[..|Handler(e)|] == Writes(e);
    Skipped(Store(d, false), Writes(e), e.payload);
  }

  /** An insert of the audit row that went through. */
  ghost predicate Audited(d: Db, f: Db, e: Event, pool: Option<Id>)
  {
    f == d.(audits := AddIfAbsent(d.audits, AuditKey(e.tx, e.eventSeq), AuditRowFor(e.payload, pool)))
  }

  lemma AuditWrite(s: Store, e: Event)
    requires ParentsFound(s.db, e.payload)
    ensures Audited(s.db, Apply(s, Write(InsertAudit, e)).db, e, AuditPool(s.db, e.payload))
  {
  }

  lemma FirstRow(d: Db, m: Db, e: Event)
    requires |Handler(e)| > 0 && !Throws(d, Writes(e)[0]) && m == Apply(Store(d, false), Writes(e)[0]).db
    ensures Performed(d, m, e, 1)
  {
    NextWrite(Store(d, false), e, 0);
  }

  /** Every handler ends with the audit insert. */
  lemma AuditLast(d: Db, m: Db, f: Db, e: Event, n: nat)
    requires Performed(d, m, e, n) && n + 1 == |Handler(e)| && !Throws(d, Writes(e)[0])
    requires ParentsFound(m, e.payload) && Audited(m, f, e, AuditPool(m, e.payload))
    ensures Performed(d, f, e, n + 1)
  {
    NextWrite(Store(d, false), e, n);
    AuditWrite(ApplyAll(Store(d, false), Writes(e)[..n]), e);
  }

  /** The end of every handler: the audit insert, then for most of them the cache invalidation. */
  method Conclude(db: Connection, e: Event, row: AuditRow, cached: bool, ghost d: Db, ghost n: nat)
    returns (error: Option<DbError>, ghost done: nat)
    requires Performed(d, db.View(), e, n) && n + 1 == |Handler(e)| && !Throws(d, Writes(e)[0])
    requires ParentsFound(db.View(), e.payload) && row == AuditRowFor(e.payload, AuditPool(db.View(), e.payload))
    modifies db`audits, db`faults
    ensures Handled(d, db.View(), e, error, done)
    ensures Spent(old(db.faults), db.faults, error, false)
  {
    error := db.InsertAudit(AuditKey(e.tx, e.eventSeq), row);
    if error.Some? { return error, n; }
    AuditLast(d, old(db.View()), db.View(), e, n);
    if cached { error := db.InvalidateCache(); }
    done := n + 1;
  }

  // --- Handlers that write one row and then the audit row. ---

  lemma PoolCreatedDone(d: Db, m: Db, e: Event)
    requires e.payload.PoolCreated? && ParentsFound(d, e.payload)
    requires m == d.(pools := AddIfAbsent(d.pools, e.payload.pool, NewPool(e)))
    ensures Performed(d, m, e, 1)
  {
    FirstRow(d, m, e);
  }

  method HandlePoolCreated(db: Connection, e: Event) returns (error: Option<DbError>, ghost done: nat)
    requires e.payload.PoolCreated?
    modifies db`pools, db`audits, db`faults
    ensures Handled(old(db.View()), db.View(), e, error, done)
    ensures Spent(old(db.faults), db.faults, error, false)
  {
    var p := e.payload;
    error := db.InsertPool(p.pool, PoolRow(p.name, p.scheme, p.createdBy, 0, e.tx));
    if error.Some? { return error, 0; }
    PoolCreatedDone(old(db.View()), db.View(), e);
    var audit := AuditRow(None, PoolCreatedKind, p.createdBy, Some(p.pool), PoolMetadata(p.name, p.scheme));
    error, done := Conclude(db, e, audit, true, old(db.View()), 1);
  }

  lemma PoolStateChangedDone(d: Db, m: Db, e: Event)
    requires e.payload.PoolStateChanged? && ParentsFound(d, e.payload)
    requires m == d.(pools := SetPoolState(d.pools, e.payload.pool, e.payload.toState, e.tx))
    ensures Performed(d, m, e, 1)
  {
    FirstRow(d, m, e);
  }

  method HandlePoolStateChanged(db: Connection, e: Event) returns (error: Option<DbError>, ghost done: nat)
    requires e.payload.PoolStateChanged?
    modifies db`pools, db`audits, db`faults
    ensures Handled(old(db.View()), db.View(), e, error, done)
    ensures Spent(old(db.faults), db.faults, error, false)
  {
    var p := e.payload;
    error := db.UpdatePoolState(p.pool, p.toState, e.tx);
    if error.Some? { return error, 0; }
    PoolStateChangedDone(old(db.View()), db.View(), e);
    var audit := AuditRow(None, PoolStateChangedKind, p.actor, Some(p.pool), StateMetadata(p.fromState, p.toState));
    error, done := Conclude(db, e, audit, true, old(db.View()), 1);
  }

  lemma MemberAddedDone(d: Db, m: Db, e: Event)
    requires e.payload.MemberAdded? && ParentsFound(d, e.payload)
    requires m == d.(members := UpsertMember(d.members, MemberKey(e.payload.dataroom, e.payload.member),
                                             d.datarooms[e.payload.dataroom].pool, e.payload.role, e.payload.addedBy))
    ensures Performed(d, m, e, 1)
  {
    FirstRow(d, m, e);
  }

  method HandleMemberAdded(db: Connection, e: Event) returns (error: Option<DbError>, ghost done: nat)
    requires e.payload.MemberAdded?
    modifies db`members, db`audits, db`faults
    ensures Handled(old(db.View()), db.View(), e, error, done)
    ensures Spent(old(db.faults), db.faults, error, false)
  {
    var p := e.payload;
    if p.dataroom !in db.datarooms {
      SkippedHandler(db.View(), e);
      return None, 2;
    }
    var pool := db.datarooms[p.dataroom].pool;
    error := db.UpsertMember(MemberKey(p.dataroom, p.member), pool, p.role, p.addedBy);
    if error.Some? { return error, 0; }
    MemberAddedDone(old(db.View()), db.View(), e);
    var audit := AuditRow(Some(pool), MemberAddedKind, p.addedBy, Some(p.member), MemberMetadata(p.role, p.dataroom));
    error, done := Conclude(db, e, audit, true, old(db.View()), 1);
  }

  lemma MemberRemovedDone(d: Db, m: Db, e: Event)
    requires e.payload.MemberRemoved? && ParentsFound(d, e.payload)
    requires m == d.(members := Deactivated(d.members, MemberKey(e.payload.dataroom, e.payload.member)))
    ensures Performed(d, m, e, 1)
  {
    FirstRow(d, m, e);
  }

  method HandleMemberRemoved(db: Connection, e: Event) returns (error: Option<DbError>, ghost done: nat)
    requires e.payload.MemberRemoved?
    modifies db`members, db`audits, db`faults
    ensures Handled(old(db.View()), db.View(), e, error, done)
    ensures Spent(old(db.faults), db.faults, error, false)
  {
    var p := e.payload;
    if p.dataroom !in db.datarooms {
      SkippedHandler(db.View(), e);
      return None, 2;
    }
    var pool := db.datarooms[p.dataroom].pool;
    error := db.DeactivateMember(MemberKey(p.dataroom, p.member));
    if error.Some? { return error, 0; }
    MemberRemovedDone(old(db.View()), db.View(), e);
    var audit := AuditRow(Some(pool), MemberRemovedKind, p.removedBy, Some(p.member), RemovalMetadata(p.dataroom));
    error, done := Conclude(db, e, audit, true, old(db.View()), 1);
  }

  lemma MemberRoleUpdatedDone(d: Db, m: Db, e: Event)
    requires e.payload.MemberRoleUpdated? && ParentsFound(d, e.payload)
    requires m == d.(members := SetRole(d.members, MemberKey(e.payload.dataroom, e.payload.member), e.payload.newRole))
    ensures Performed(d, m, e, 1)
  {
    FirstRow(d, m, e);
  }

  method HandleMemberRoleUpdated(db: Connection, e: Event) returns (error: Option<DbError>, ghost done: nat)
    requires e.payload.MemberRoleUpdated?
    modifies db`members, db`audits, db`faults
    ensures Handled(old(db.View()), db.View(), e, error, done)
    ensures Spent(old(db.faults), db.faults, error, false)
  {
    var p := e.payload;
    if p.dataroom !in db.datarooms {
      SkippedHandler(db.View(), e);
      return None, 2;
    }
    var pool := db.datarooms[p.dataroom].pool;
    error := db.UpdateMemberRole(MemberKey(p.dataroom, p.member), p.newRole);
    if error.Some? { return error, 0; }
    MemberRoleUpdatedDone(old(db.View()), db.View(), e);
    var audit := AuditRow(Some(pool), MemberRoleUpdatedKind, p.actor, Some(p.member),
                          RoleMetadata(p.oldRole, p.newRole));
    error, done := Conclude(db, e, audit, true, old(db.View()), 1);
  }

  lemma DocumentReviewedDone(d: Db, m: Db, e: Event)
    requires e.payload.DocumentReviewed? && ParentsFound(d, e.payload)
    requires m == d.(reviews := d.reviews[ReviewKey(e.payload.doc, e.payload.reviewer) := e.payload.status])
    ensures Performed(d, m, e, 1)
  {
    FirstRow(d, m, e);
  }

  method HandleDocumentReviewed(db: Connection, e: Event) returns (error: Option<DbError>, ghost done: nat)
    requires e.payload.DocumentReviewed?
    modifies db`reviews, db`audits, db`faults
    ensures Handled(old(db.View()), db.View(), e, error, done)
    ensures Spent(old(db.faults), db.faults, error, false)
  {
    var p := e.payload;
    if p.doc !in db.documents {
      SkippedHandler(db.View(), e);
      return None, 2;
    }
    var pool := db.documents[p.doc].pool;
    error := db.UpsertReview(ReviewKey(p.doc, p.reviewer), p.status);
    if error.Some? { return error, 0; }
    DocumentReviewedDone(old(db.View()), db.View(), e);
    var audit := AuditRow(Some(pool), DocumentReviewedKind, p.reviewer, Some(p.doc), ReviewMetadata(p.status));
    error, done := Conclude(db, e, audit, false, old(db.View()), 1);
  }

  lemma ICDecisionCreatedDone(d: Db, m: Db, e: Event)
    requires e.payload.ICDecisionCreated? && ParentsFound(d, e.payload)
    requires m == d.(decisions := AddIfAbsent(d.decisions, DecisionKey(e.payload.pool, e.payload.index),
                                               DecisionRow(e.payload.decisionType, e.payload.createdBy)))
    ensures Performed(d, m, e, 1)
  {
    FirstRow(d, m, e);
  }

  method HandleICDecisionCreated(db: Connection, e: Event) returns (error: Option<DbError>, ghost done: nat)
    requires e.payload.ICDecisionCreated?
    modifies db`decisions, db`audits, db`faults
    ensures Handled(old(db.View()), db.View(), e, error, done)
    ensures Spent(old(db.faults), db.faults, error, false)
  {
    var p := e.payload;
    if p.pool !in db.pools {
      SkippedHandler(db.View(), e);
      return None, 2;
    }
    error := db.InsertDecision(DecisionKey(p.pool, p.index), DecisionRow(p.decisionType, p.createdBy));
    if error.Some? { return error, 0; }
    ICDecisionCreatedDone(old(db.View()), db.View(), e);
    var audit := AuditRow(Some(p.pool), ICDecisionCreatedKind, p.createdBy, None,
                          DecisionMetadata(p.index, p.decisionType));
    error, done := Conclude(db, e, audit, true, old(db.View()), 1);
  }

  lemma DataRoomCreatedDone(d: Db, m: Db, e: Event)
    requires e.payload.DataRoomCreated? && !Throws(d, Write(InsertDataroom, e))
    requires m == d.(datarooms := DataroomsAfter(d.datarooms, Write(InsertDataroom, e)),
                     roomOfPool := RoomOfPoolAfter(d, Write(InsertDataroom, e)))
    ensures Performed(d, m, e, 1)
  {
    FirstRow(d, m, e);
  }

  /** Without a pool, the insert of a new dataroom throws. */
  method HandleDataRoomCreated(db: Connection, e: Event) returns (error: Option<DbError>, ghost done: nat)
    requires e.payload.DataRoomCreated?
    modifies db`datarooms, db`roomOfPool, db`audits, db`faults
    ensures Handled(old(db.View()), db.View(), e, error, done)
    ensures Spent(old(db.faults), db.faults, error, Throws(old(db.View()), Write(InsertDataroom, e)))
  {
    var p := e.payload;
    var pool := if p.pool in db.pools then Some(p.pool) else None;
    error := db.InsertDataroom(p.dataroom, DataroomRow(p.pool, p.owner));
    if error.Some? { return error, 0; }
    DataRoomCreatedDone(old(db.View()), db.View(), e);
    var audit := AuditRow(pool, DataRoomCreatedKind, p.owner, Some(p.dataroom), NoMetadata);
    error, done := Conclude(db, e, audit, false, old(db.View()), 1);
  }

  // --- Handlers that write two rows and then the audit row. ---

  lemma SecondRow(d: Db, m: Store, n: Db, e: Event)
    requires |Handler(e)| > 1 && !Throws(d, Writes(e)[0])
    requires m == Apply(Store(d, false), Writes(e)[0]) && n == Apply(m, Writes(e)[1]).db
    ensures Performed(d, m.db, e, 1) && Performed(d, n, e, 2)
  {
    NextWrite(Store(d, false), e, 0);
    NextWrite(Store(d, false), e, 1);
  }

  /** The insert of the document, and then the first version row if it was new. */
  ghost predicate NewDocumentWritten(d: Db, m: Db, e: Event)
    requires e.payload.DocumentCreated? && ParentsFound(d, e.payload)
  {
    var row := NewDocument(e.payload, d.roomOfPool[e.payload.pool], d.pools[e.payload.pool].scheme);
    m == d.(documents := AddIfAbsent(d.documents, e.payload.doc, row))
  }

  ghost predicate NewVersionWritten(m: Db, n: Db, p: Payload)
    requires p.DocumentCreated? || p.DocumentVersionAdded?
  {
    n == m.(versions := AddIfAbsent(m.versions, VersionKey(p.doc, p.version), VersionRow(p.blob, p.hash, p.uploader)))
  }

  lemma DocumentInsert(d: Db, m: Db, e: Event)
    requires e.payload.DocumentCreated? && ParentsFound(d, e.payload) && NewDocumentWritten(d, m, e)
    ensures Apply(Store(d, false), Write(InsertDocument, e)) == Store(m, e.payload.doc !in d.documents)
  {
  }

  lemma DocumentInserted(d: Db, m: Db, e: Event)
    requires e.payload.DocumentCreated? && ParentsFound(d, e.payload) && NewDocumentWritten(d, m, e)
    ensures Performed(d, m, e, 1)
  {
    DocumentInsert(d, m, e);
    FirstRow(d, m, e);
  }

  lemma FirstVersionInsert(m: Db, n: Db, isNew: bool, e: Event)
    requires e.payload.DocumentCreated? && ParentsFound(m, e.payload)
    requires if isNew then NewVersionWritten(m, n, e.payload) else n == m
    ensures Apply(Store(m, isNew), Write(InsertFirstVersion, e)).db == n
  {
  }

  lemma DocumentCreatedDone(d: Db, m: Db, n: Db, isNew: bool, e: Event)
    requires e.payload.DocumentCreated? && ParentsFound(d, e.payload) && NewDocumentWritten(d, m, e)
    requires isNew == (e.payload.doc !in d.documents)
    requires if isNew then NewVersionWritten(m, n, e.payload) else n == m
    ensures Performed(d, n, e, 2)
  {
    DocumentInsert(d, m, e);
    FirstVersionInsert(m, n, isNew, e);
    SecondRow(d, Store(m, isNew), n, e);
  }

  /** The first version row is written only if the insert of the document returned a row. */
  method HandleDocumentCreated(db: Connection, e: Event) returns (error: Option<DbError>, ghost done: nat)
    requires e.payload.DocumentCreated?
    modifies db`documents, db`versions, db`audits, db`faults
    ensures Handled(old(db.View()), db.View(), e, error, done)
    ensures Spent(old(db.faults), db.faults, error, false)
  {
    var p := e.payload;
    if p.pool !in db.pools || p.pool !in db.roomOfPool {
      SkippedHandler(db.View(), e);
      return None, 3;
    }
    var row := DocumentRow(p.pool, db.roomOfPool[p.pool], p.folder, p.docType, p.title, db.pools[p.pool].scheme,
                           p.version, 1);
    var isNew;
    error, isNew := db.InsertDocument(p.doc, row);
    if error.Some? { return error, 0; }
    ghost var m := db.View();
    DocumentInserted(old(db.View()), m, e);
    if isNew {
      error := db.InsertVersion(VersionKey(p.doc, p.version), VersionRow(p.blob, p.hash, p.uploader));
      if error.Some? { return error, 1; }
    }
    DocumentCreatedDone(old(db.View()), m, db.View(), isNew, e);
    var audit := AuditRow(Some(p.pool), DocumentCreatedKind, p.uploader, Some(p.doc),
                          DocumentMetadata(p.title, p.folder));
    error, done := Conclude(db, e, audit, true, old(db.View()), 2);
  }

  lemma VersionInserted(d: Db, m: Db, e: Event)
    requires e.payload.DocumentVersionAdded? && ParentsFound(d, e.payload) && NewVersionWritten(d, m, e.payload)
    ensures Apply(Store(d, false), Write(InsertVersion, e)) == Store(m, false)
    ensures Performed(d, m, e, 1)
  {
    FirstRow(d, m, e);
  }

  lemma VersionAddedDone(d: Db, m: Db, n: Db, e: Event)
    requires e.payload.DocumentVersionAdded? && ParentsFound(d, e.payload) && NewVersionWritten(d, m, e.payload)
    requires n == m.(documents := SetVersion(m.documents, e.payload.doc, e.payload.version))
    ensures Performed(d, n, e, 2)
    ensures ParentsFound(n, e.payload) && AuditPool(n, e.payload) == Some(d.documents[e.payload.doc].pool)
  {
    VersionInserted(d, m, e);
    SecondRow(d, Store(m, false), n, e);
  }

  method HandleDocumentVersionAdded(db: Connection, e: Event) returns (error: Option<DbError>, ghost done: nat)
    requires e.payload.DocumentVersionAdded?
    modifies db`documents, db`versions, db`audits, db`faults
    ensures Handled(old(db.View()), db.View(), e, error, done)
    ensures Spent(old(db.faults), db.faults, error, false)
  {
    var p := e.payload;
    if p.doc !in db.documents {
      SkippedHandler(db.View(), e);
      return None, 3;
    }
    var pool := db.documents[p.doc].pool;
    error := db.InsertVersion(VersionKey(p.doc, p.version), VersionRow(p.blob, p.hash, p.uploader));
    if error.Some? { return error, 0; }
    ghost var m := db.View();
    VersionInserted(old(db.View()), m, e);
    error := db.UpdateVersionInfo(p.doc, p.version);
    if error.Some? { return error, 1; }
    VersionAddedDone(old(db.View()), m, db.View(), e);
    var audit := AuditRow(Some(pool), DocumentVersionAddedKind, p.uploader, Some(p.doc), VersionMetadata(p.version));
    error, done := Conclude(db, e, audit, true, old(db.View()), 2);
  }

  method HandleAuditEvent(db: Connection, e: Event) returns (error: Option<DbError>, ghost done: nat)
    requires e.payload.AuditEvent?
    modifies db`audits, db`faults
    ensures Handled(old(db.View()), db.View(), e, error, done)
    ensures Spent(old(db.faults), db.faults, error, false)
  {
    var p := e.payload;
    var pool := if p.pool in db.pools then Some(p.pool) else None;
    var audit := AuditRow(pool, AuditEventKind(p.actionType), p.actor, p.target, HashMetadata(p.hash));
    error, done := Conclude(db, e, audit, false, old(db.View()), 0);
  }

  // --- What the handlers leave in the audit table. ---

  lemma BeforeTheAudit(s: Store, w: Write)
    requires w.kind != InsertAudit && w.kind in Handler(w.event) && ParentsFound(s.db, w.event.payload)
    ensures Apply(s, w).db.audits == s.db.audits && ParentsFound(Apply(s, w).db, w.event.payload)
    ensures AuditPool(Apply(s, w).db, w.event.payload) == AuditPool(s.db, w.event.payload)
  {
  }

  lemma {:induction false} AuditsBeforeLast(s: Store, e: Event, n: nat)
    requires n < |Handler(e)| && ParentsFound(s.db, e.payload)
    ensures var t := ApplyAll(s, Writes(e)[..n]).db;
      t.audits == s.db.audits && ParentsFound(t, e.payload) && AuditPool(t, e.payload) == AuditPool(s.db, e.payload)
  {
    if n > 0 {
      AuditsBeforeLast(s, e, n - 1);
      NextWrite(s, e, n - 1);
      BeforeTheAudit(ApplyAll(s, Writes(e)[..n - 1]), Writes(e)[n - 1]);
    }
  }

  lemma AllWritten(d: Db, f: Db, e: Event, n: nat)
    requires Performed(d, f, e, n + 1) && n + 1 == |Handler(e)|
    ensures f == Apply(ApplyAll(Store(d, false), Writes(e)[..n]), Writes(e)[n]).db
  {
    NextWrite(Store(d, false), e, n);
  }

  lemma AuditAdded(d: Db, f: Db, e: Event)
    requires Performed(d, f, e, |Handler(e)|) && !e.payload.Unhandled? && ParentsFound(d, e.payload)
    ensures f.audits
         == AddIfAbsent(d.audits, AuditKey(e.tx, e.eventSeq), AuditRowFor(e.payload, AuditPool(d, e.payload)))
  {
    AuditIsLast(e);
    var n := |Handler(e)| - 1;
    var t := ApplyAll(Store(d, false), Writes(e)[..n]);
    AllWritten(d, f, e, n);
    AuditsBeforeLast(Store(d, false), e, n);
    AuditWrite(t, e);
  }

  /** A complete handler that finds its rows has added one audit row, which says what the event says. */
  lemma {:induction false} HandledIsAudited(d: Db, f: Db, e: Event)
    requires Handled(d, f, e, None, |Handler(e)|) && !e.payload.Unhandled? && FindsItsRows(d, e.payload)
    requires AuditKey(e.tx, e.eventSeq) !in d.audits
    ensures f.audits.Keys == d.audits.Keys + {AuditKey(e.tx, e.eventSeq)}
    ensures var row := f.audits[AuditKey(e.tx, e.eventSeq)];
      AuditSays(row, e.payload) && AuditPoolSays(d, e.payload, row.pool)
  {
    FindsItsRowsIff(d, e.payload);
    AuditAdded(d, f, e);
    AuditRowSays(d, e.payload);
  }

  // --- Dispatch. ---

  /** The handler registered for the event's type. */
  method Handle(db: Connection, e: Event) returns (error: Option<DbError>, ghost done: nat)
    requires !e.payload.Unhandled?
    modifies db
    ensures Handled(old(db.View()), db.View(), e, error, done) && db.checkpoint == old(db.checkpoint)
    ensures Spent(old(db.faults), db.faults, error, Throws(old(db.View()), Writes(e)[0]))
  {
    match e.payload {
      case PoolCreated(_, _, _, _) => error, done := HandlePoolCreated(db, e);
      case PoolStateChanged(_, _, _, _) => error, done := HandlePoolStateChanged(db, e);
      case DataRoomCreated(_, _, _) => error, done := HandleDataRoomCreated(db, e);
      case MemberAdded(_, _, _, _) => error, done := HandleMemberAdded(db, e);
      case MemberRemoved(_, _, _) => error, done := HandleMemberRemoved(db, e);
      case MemberRoleUpdated(_, _, _, _, _) => error, done := HandleMemberRoleUpdated(db, e);
      case DocumentCreated(_, _, _, _, _, _, _, _, _) => error, done := HandleDocumentCreated(db, e);
      case DocumentVersionAdded(_, _, _, _, _) => error, done := HandleDocumentVersionAdded(db, e);
      case DocumentReviewed(_, _, _) => error, done := HandleDocumentReviewed(db, e);
      case ICDecisionCreated(_, _, _, _) => error, done := HandleICDecisionCreated(db, e);
      case AuditEvent(_, _, _, _, _) => error, done := HandleAuditEvent(db, e);
    }
  }

  // --- The local flag does not outlive its handler. ---

  lemma SameButFlag(s: Store, t: Store, w: Write)
    requires s.db == t.db && (s.docIsNew == t.docIsNew || w.kind != InsertFirstVersion)
    ensures Apply(s, w).db == Apply(t, w).db
  {
  }

  lemma InsertSetsFlag(s: Store, t: Store, w: Write)
    requires s.db == t.db && ParentsFound(s.db, w.event.payload)
    requires w.kind == InsertDocument && w.event.payload.DocumentCreated?
    ensures Apply(s, w) == Apply(t, w)
  {
  }

  lemma {:induction false} NoFirstVersion(s: Store, t: Store, ws: seq<Write>)
    requires s.db == t.db && forall w :: w in ws ==> w.kind != InsertFirstVersion
    ensures ApplyAll(s, ws).db == ApplyAll(t, ws).db
  {
    if ws != [] {
      var n := |ws| - 1;
      NoFirstVersion(s, t, ws[..n]);
      SameButFlag(ApplyAll(s, ws[..n]), ApplyAll(t, ws[..n]), ws[n]);
    }
  }

  lemma {:induction false} FlagIsLocal(s: Store, t: Store, e: Event, n: nat)
    requires s.db == t.db && n <= |Handler(e)|
    ensures ApplyAll(s, Writes(e)[..n]).db == ApplyAll(t, Writes(e)[..n]).db
    ensures n > 0 && e.payload.DocumentCreated? && ParentsFound(s.db, e.payload) ==>
      ApplyAll(s, Writes(e)[..n]) == ApplyAll(t, Writes(e)[..n])
  {
    if !ParentsFound(s.db, e.payload) {
      Skipped(s, Writes(e)[..n], e.payload);
      Skipped(t, Writes(e)[..n], e.payload);
    } else if !e.payload.DocumentCreated? {
      NoFirstVersion(s, t, Writes(e)[..n]);
    } else if n > 0 {
      FlagIsLocal(s, t, e, n - 1);
      NextWrite(s, e, n - 1);
      NextWrite(t, e, n - 1);
      if n == 1 { InsertSetsFlag(s, t, Writes(e)[0]); }
    }
  }
}
