// What the columns that later events overwrite hold at the head of a log: what the last event about them
// says, or what the event that created the row did.

module Latest {
  import opened Results
  import opened Tables
  import opened Events
  import opened Cells
  import opened Replay
  import opened Contents
  import opened Runs
  import opened Log
  import opened Dispatch
  import opened IndexerLoop

  /** The event is about this cell. */
  predicate Touches(e: Payload, c: Cell)
  {
    match c
    case StateCell(pool) => e.PoolStateChanged? && e.pool == pool
    case RoleCell(key) => (e.MemberAdded? || e.MemberRoleUpdated?) && key == MemberKey(e.dataroom, e.member)
    case ActiveCell(key) => (e.MemberAdded? || e.MemberRemoved?) && key == MemberKey(e.dataroom, e.member)
    case AddedByCell(key) => e.MemberAdded? && key == MemberKey(e.dataroom, e.member)
    case VersionCell(doc) => e.DocumentVersionAdded? && e.doc == doc
    case StatusCell(key) => e.DocumentReviewed? && key == ReviewKey(e.doc, e.reviewer)
  }

  ghost predicate Untouched(log: seq<Event>, from: nat, c: Cell)
  {
    forall j :: from <= j < |log| ==> !Touches(log[j].payload, c)
  }

  ghost predicate LastTouch(log: seq<Event>, k: nat, c: Cell)
  {
    k < |log| && Touches(log[k].payload, c) && Untouched(log, k + 1, c)
  }

  /** The run has got to the head of a well-formed log. */
  ghost predicate AtHead(log: seq<Event>, r: Run, d: Db)
  {
    WellFormedLog(log) && Tracks(log, r, d, |log|)
  }

  // --- The writes behind it. ---

  /** The one write of the event that overwrites the cell. */
  function Place(e: Payload): (i: nat)
  {
    if e.DocumentVersionAdded? then 1 else 0
  }

  lemma PlaceOfTouch(e: Event, c: Cell)
    requires Touches(e.payload, c)
    ensures Place(e.payload) < |Handler(e)|
    ensures Written(Write(Handler(e)[Place(e.payload)], e), c).Some?
  {
  }

  lemma WrittenIsTouch(e: Event, i: nat, c: Cell)
    requires i < |Handler(e)| && Written(Write(Handler(e)[i], e), c).Some?
    ensures Touches(e.payload, c) && i == Place(e.payload)
  {
  }

  lemma OverwrittenIsTouched(log: seq<Event>, p: nat, c: Cell) returns (k: nat, q: nat)
    requires Overwritten(Flatten(log), p, |Flatten(log)|, c)
    ensures k < |log| && p <= q && q == Offset(log, k) + Place(log[k].payload) && Touches(log[k].payload, c)
  {
    var ws := Flatten(log);
    q :| p <= q < |ws| && Written(ws[q], c).Some? && ParentsFound(Clean(ws, q).db, ws[q].event.payload);
    k := Locate(log, q);
    WriteAt(log, k, q);
    WrittenIsTouch(log[k], q - Offset(log, k), c);
  }

  lemma QuietAfter(log: seq<Event>, k: nat, c: Cell)
    requires LastTouch(log, k, c)
    ensures !Overwritten(Flatten(log), Offset(log, k) + Place(log[k].payload) + 1, |Flatten(log)|, c)
  {
    var p := Offset(log, k) + Place(log[k].payload) + 1;
    if Overwritten(Flatten(log), p, |Flatten(log)|, c) {
      var j, q := OverwrittenIsTouched(log, p, c);
      if j < k {
        PlaceOfTouch(log[j], c);
        Segment(log, j);
        OffsetsGrow(log, j + 1, k);
      }
    }
  }

  /** A row that exists, of which the event speaks, has been found by its handler. */
  lemma ParentsOfTouch(ws: seq<Write>, h: nat, e: Payload, c: Cell)
    requires h <= |ws| && At(Clean(ws, h).db, c).Some? && Touches(e, c)
    ensures ParentsFound(Clean(ws, h).db, e)
  {
    match c
    case RoleCell(key) => MemberHasPoolOfRoom(ws, h, key);
    case ActiveCell(key) => MemberHasPoolOfRoom(ws, h, key);
    case AddedByCell(key) => MemberHasPoolOfRoom(ws, h, key);
    case StatusCell(key) => DocumentOfReview(ws, h, key);
    case _ =>
  }

  lemma DocumentOfReview(ws: seq<Write>, h: nat, key: ReviewKey)
    requires HasReview(ws, h, key)
    ensures key.doc in Clean(ws, h).db.documents
  {
    ReviewExistsIff(ws, h, key);
    var q :| 0 <= q < h && AskedForReview(ws, q, key);
    CleanGrows(ws, q, h);
  }

  /** The cells of any run at the head are those of the clean pass. */
  lemma CellsAtTheHead(log: seq<Event>, r: Run, d: Db, c: Cell)
    requires AtHead(log, r, d)
    ensures At(d, c) == At(Clean(Flatten(log), |Flatten(log)|).db, c)
  {
    AtTheHead(log, r, d);
    SameHasSameCells(d, Clean(Flatten(log), |Flatten(log)|).db);
  }

  lemma LastTouchCounts(log: seq<Event>, k: nat, c: Cell) returns (w: Write)
    requires WellFormedLog(log) && LastTouch(log, k, c) && At(Clean(Flatten(log), |Flatten(log)|).db, c).Some?
    ensures w.event == log[k] && At(Clean(Flatten(log), |Flatten(log)|).db, c) == Written(w, c)
  {
    var ws := Flatten(log);
    var q := Offset(log, k) + Place(log[k].payload);
    PlaceOfTouch(log[k], c);
    Segment(log, k);
    WriteAt(log, k, q);
    w := ws[q];
    FlattenWellFormed(log);
    ParentsOfTouch(ws, |ws|, log[k].payload, c);
    ParentsAreStable(ws, q, |ws|);
    QuietAfter(log, k, c);
    LastWriteStays(ws, q, |ws|, c);
  }

  lemma LastTouchAtTheHead(log: seq<Event>, r: Run, d: Db, k: nat, c: Cell) returns (w: Write)
    requires AtHead(log, r, d) && LastTouch(log, k, c) && At(d, c).Some?
    ensures w.event == log[k] && At(d, c) == Written(w, c)
  {
    CellsAtTheHead(log, r, d, c);
    w := LastTouchCounts(log, k, c);
  }

  // --- What the last event says. ---

  ghost predicate HasRow(d: Db, c: Cell)
  {
    match c
    case StateCell(pool) => pool in d.pools
    case RoleCell(key) => key in d.members
    case ActiveCell(key) => key in d.members
    case AddedByCell(key) => key in d.members
    case VersionCell(doc) => doc in d.documents
    case StatusCell(key) => key in d.reviews
  }

  /** The columns are those of the event; a member is active iff the event is an addition. */
  ghost predicate Says(d: Db, e: Event, c: Cell)
    requires HasRow(d, c) && Touches(e.payload, c)
  {
    var p := e.payload;
    match c
    case StateCell(pool) => d.pools[pool].state == p.toState && d.pools[pool].tx == e.tx
    case RoleCell(key) => d.members[key].role == if p.MemberAdded? then p.role else p.newRole
    case ActiveCell(key) => d.members[key].active <==> p.MemberAdded?
    case AddedByCell(key) => d.members[key].addedBy == p.addedBy
    case VersionCell(doc) => d.documents[doc].currentVersion == p.version
    case StatusCell(key) => d.reviews[key] == p.status
  }

  lemma CellSays(d: Db, w: Write, c: Cell)
    requires HasRow(d, c) && Touches(w.event.payload, c) && At(d, c) == Written(w, c)
    ensures Says(d, w.event, c)
  {
  }

  /** At the head of a log, in every run, each such column holds what the last event about it says. */
  lemma LastEventSays(log: seq<Event>, r: Run, d: Db, c: Cell, k: nat)
    requires AtHead(log, r, d) && HasRow(d, c) && LastTouch(log, k, c)
    ensures Says(d, log[k], c)
  {
    var w := LastTouchAtTheHead(log, r, d, k, c);
    CellSays(d, w, c);
  }

  // --- Rows that nothing has touched since. ---

  lemma NeverOverwritten(log: seq<Event>, p: nat, c: Cell)
    requires Untouched(log, 0, c)
    ensures !Overwritten(Flatten(log), p, |Flatten(log)|, c)
  {
    if Overwritten(Flatten(log), p, |Flatten(log)|, c) {
      var k, q := OverwrittenIsTouched(log, p, c);
    }
  }

  lemma NewPoolCell(s: Store, w: Write, id: Id)
    requires id !in s.db.pools && w.kind == InsertPool && w.event.payload.PoolCreated? && w.event.payload.pool == id
    ensures At(Apply(s, w).db, StateCell(id)) == Some(StateContent(0, w.event.tx))
  {
  }

  lemma NewDocumentCell(s: Store, w: Write, doc: Id)
    requires doc !in s.db.documents && AsksForDocument(s, w, doc)
    ensures At(Apply(s, w).db, VersionCell(doc)) == Some(Number(w.event.payload.version))
  {
  }

  ghost predicate FirstCreation(log: seq<Event>, k: nat, id: Id)
  {
    && k < |log| && log[k].payload.PoolCreated? && log[k].payload.pool == id
    && forall j :: 0 <= j < k ==> !(log[j].payload.PoolCreated? && log[j].payload.pool == id)
  }

  lemma FirstPoolWrite(log: seq<Event>, k: nat, id: Id)
    requires FirstCreation(log, k, id)
    ensures FirstForPool(Flatten(log), Offset(log, k), id) && Flatten(log)[Offset(log, k)].event == log[k]
  {
    var ws := Flatten(log);
    FirstWriteAt(log, k);
    forall i | 0 <= i < Offset(log, k) ensures !AskedForPool(ws, i, id)
    {
      if AskedForPool(ws, i, id) {
        var j := LeadAt(log, i);
        OffsetsOrder(log, j, k);
      }
    }
  }

  lemma PoolCellStays(ws: seq<Write>, q: nat, h: nat, id: Id)
    requires q < h <= |ws| && FirstForPool(ws, q, id) && !Overwritten(ws, q + 1, h, StateCell(id))
    ensures At(Clean(ws, h).db, StateCell(id)) == Some(StateContent(0, ws[q].event.tx))
  {
    PoolExistsIff(ws, q, id);
    NewPoolCell(Clean(ws, q), ws[q], id);
    CellStays(ws, q + 1, h, StateCell(id));
  }

  lemma StateOf(d: Db, id: Id, tx: string)
    requires At(d, StateCell(id)) == Some(StateContent(0, tx))
    ensures id in d.pools && d.pools[id].state == 0 && d.pools[id].tx == tx
  {
  }

  /** A pool whose state never changed is in state 0, with the transaction that created it. */
  lemma PoolStartsAtZero(log: seq<Event>, r: Run, d: Db, id: Id, k: nat)
    requires AtHead(log, r, d) && Untouched(log, 0, StateCell(id)) && FirstCreation(log, k, id)
    ensures id in d.pools && d.pools[id].state == 0 && d.pools[id].tx == log[k].tx
  {
    var ws, q, c := Flatten(log), Offset(log, k), StateCell(id);
    FirstPoolWrite(log, k, id);
    NeverOverwritten(log, q + 1, c);
    PoolCellStays(ws, q, |ws|, id);
    CellsAtTheHead(log, r, d, c);
    StateOf(d, id, log[k].tx);
  }

  /** The first creation of the document that finds its pool and a dataroom. */
  ghost predicate FirstDocument(log: seq<Event>, k: nat, doc: Id, d: Db)
  {
    && k < |log| && CreatesDocument(log[k].payload, doc, d)
    && forall j :: 0 <= j < k ==> !CreatesDocument(log[j].payload, doc, d)
  }

  ghost predicate CreatesDocument(e: Payload, doc: Id, d: Db)
  {
    e.DocumentCreated? && e.doc == doc && FindsItsRows(d, e)
  }

  lemma AsksIff(log: seq<Event>, q: nat, doc: Id)
    requires WellFormedLog(log) && q < |Flatten(log)| && Flatten(log)[q].kind == InsertDocument
    ensures AskedForDocument(Flatten(log), q, doc)
      <==> CreatesDocument(Flatten(log)[q].event.payload, doc, Clean(Flatten(log), |Flatten(log)|).db)
  {
    var ws := Flatten(log);
    FlattenWellFormed(log);
    ParentsAreStable(ws, q, |ws|);
    FindsItsRowsIff(Clean(ws, |ws|).db, ws[q].event.payload);
  }

  lemma FirstDocumentWrite(log: seq<Event>, k: nat, doc: Id)
    requires WellFormedLog(log) && FirstDocument(log, k, doc, Clean(Flatten(log), |Flatten(log)|).db)
    ensures FirstForDocument(Flatten(log), Offset(log, k), doc) && Flatten(log)[Offset(log, k)].event == log[k]
  {
    var ws := Flatten(log);
    FirstWriteAt(log, k);
    AsksIff(log, Offset(log, k), doc);
    forall i | 0 <= i < Offset(log, k) ensures !AskedForDocument(ws, i, doc)
    {
      if AskedForDocument(ws, i, doc) {
        var j := Locate(log, i);
        WriteAt(log, j, i);
        OffsetsOrder(log, j, k);
        AsksIff(log, i, doc);
      }
    }
  }

  lemma SameFinds(d: Db, f: Db, log: seq<Event>, k: nat, doc: Id)
    requires Same(d, f) && FirstDocument(log, k, doc, d)
    ensures FirstDocument(log, k, doc, f)
  {
  }

  lemma DocumentCellStays(ws: seq<Write>, q: nat, h: nat, doc: Id)
    requires q < h <= |ws| && FirstForDocument(ws, q, doc) && !Overwritten(ws, q + 1, h, VersionCell(doc))
    ensures At(Clean(ws, h).db, VersionCell(doc)) == Some(Number(ws[q].event.payload.version))
  {
    DocumentExistsIff(ws, q, doc);
    NewDocumentCell(Clean(ws, q), ws[q], doc);
    CellStays(ws, q + 1, h, VersionCell(doc));
  }

  lemma VersionOf(d: Db, doc: Id, version: int)
    requires At(d, VersionCell(doc)) == Some(Number(version))
    ensures doc in d.documents && d.documents[doc].currentVersion == version
  {
  }

  lemma FirstDocumentAtTheHead(log: seq<Event>, r: Run, d: Db, doc: Id, k: nat)
    requires AtHead(log, r, d) && FirstDocument(log, k, doc, d)
    ensures FirstForDocument(Flatten(log), Offset(log, k), doc) && Flatten(log)[Offset(log, k)].event == log[k]
  {
    AtTheHead(log, r, d);
    SameFinds(d, Clean(Flatten(log), |Flatten(log)|).db, log, k, doc);
    FirstDocumentWrite(log, k, doc);
  }

  /** A document without further versions shows the version that it was created with. */
  lemma DocumentStartsWithVersion(log: seq<Event>, r: Run, d: Db, doc: Id, k: nat)
    requires AtHead(log, r, d) && Untouched(log, 0, VersionCell(doc)) && FirstDocument(log, k, doc, d)
    ensures doc in d.documents && d.documents[doc].currentVersion == log[k].payload.version
  {
    var ws, q, c := Flatten(log), Offset(log, k), VersionCell(doc);
    FirstDocumentAtTheHead(log, r, d, doc, k);
    NeverOverwritten(log, q + 1, c);
    DocumentCellStays(ws, q, |ws|, doc);
    CellsAtTheHead(log, r, d, c);
    VersionOf(d, doc, log[k].payload.version);
  }
}
