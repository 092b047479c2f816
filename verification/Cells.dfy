// How one repository write changes the tables: the columns that are set once, when a row appears,
// and the cells that a later write may overwrite.

module Cells {
  import opened Results
  import opened Tables
  import opened Events

  // --- Columns that never change once a row exists. ---

  ghost predicate SameCore(d: Db, f: Db)
  {
    && d.datarooms == f.datarooms && d.roomOfPool == f.roomOfPool && d.decisions == f.decisions && d.audits == f.audits
    && d.pools.Keys == f.pools.Keys && d.members.Keys == f.members.Keys
    && d.documents.Keys == f.documents.Keys && d.reviews.Keys == f.reviews.Keys
    && (forall k :: k in d.pools ==> d.pools[k].(state := f.pools[k].state, tx := f.pools[k].tx) == f.pools[k])
    && (forall k :: k in d.members ==> d.members[k].pool == f.members[k].pool)
    && (forall k :: k in d.documents ==>
          d.documents[k].(currentVersion := f.documents[k].currentVersion, versionCount := f.documents[k].versionCount)
          == f.documents[k])
  }

  /** The row that the write inserts is already there. */
  predicate Present(db: Db, w: Write)
  {
    if w.kind == InsertAudit then AuditKey(w.event.tx, w.event.eventSeq) in db.audits
    else match (w.kind, w.event.payload)
      case (InsertPool, PoolCreated(pool, _, _, _)) => pool in db.pools
      case (InsertDataroom, DataRoomCreated(_, dataroom, _)) => dataroom in db.datarooms
      case (UpsertMemberRow, MemberAdded(dataroom, member, _, _)) => MemberKey(dataroom, member) in db.members
      case (InsertDocument, DocumentCreated(_, doc, _, _, _, _, _, _, _)) => doc in db.documents
      case (UpsertReview, DocumentReviewed(doc, reviewer, _)) => ReviewKey(doc, reviewer) in db.reviews
      case (InsertDecision, ICDecisionCreated(pool, index, _, _)) => DecisionKey(pool, index) in db.decisions
      case _ => true
  }

  /** Repeating an insert changes no settled column. */
  lemma PresentKeepsCore(s: Store, w: Write)
    requires Present(s.db, w)
    ensures SameCore(s.db, Apply(s, w).db)
  {
  }

  lemma ApplyMakesPresent(s: Store, w: Write)
    requires ParentsFound(s.db, w.event.payload) && !Throws(s.db, w)
    ensures Present(Apply(s, w).db, w)
  {
  }

  /** Rows are never deleted; a dataroom row, and the pool of a document, never change. */
  ghost predicate Grows(d: Db, f: Db)
  {
    && d.pools.Keys <= f.pools.Keys && d.members.Keys <= f.members.Keys && d.documents.Keys <= f.documents.Keys
    && d.reviews.Keys <= f.reviews.Keys && d.decisions.Keys <= f.decisions.Keys && d.audits.Keys <= f.audits.Keys
    && d.versions.Keys <= f.versions.Keys
    && (forall r :: r in d.datarooms ==> r in f.datarooms && f.datarooms[r] == d.datarooms[r])
    && d.roomOfPool.Keys <= f.roomOfPool.Keys
    && (forall k :: k in d.documents ==> f.documents[k].pool == d.documents[k].pool)
  }

  lemma ApplyGrows(s: Store, w: Write)
    ensures Grows(s.db, Apply(s, w).db)
  {
  }

  lemma GrowsKeepsPresent(d: Db, f: Db, w: Write)
    requires Grows(d, f) && Present(d, w)
    ensures Present(f, w)
  {
  }

  // --- Cells that later writes may overwrite. ---

  datatype Cell =
    | StateCell(pool: Id)
    | RoleCell(key: MemberKey)
    | ActiveCell(key: MemberKey)
    | AddedByCell(key: MemberKey)
    | VersionCell(doc: Id)
    | StatusCell(review: ReviewKey)

  datatype Content = StateContent(state: int, tx: string) | Number(n: int) | Flag(b: bool) | Name(name: string)

  function At(db: Db, c: Cell): (v: Option<Content>)
  {
    match c
    case StateCell(p) => if p in db.pools then Some(StateContent(db.pools[p].state, db.pools[p].tx)) else None
    case RoleCell(k) => if k in db.members then Some(Number(db.members[k].role)) else None
    case ActiveCell(k) => if k in db.members then Some(Flag(db.members[k].active)) else None
    case AddedByCell(k) => if k in db.members then Some(Name(db.members[k].addedBy)) else None
    case VersionCell(d) => if d in db.documents then Some(Number(db.documents[d].currentVersion)) else None
    case StatusCell(k) => if k in db.reviews then Some(Number(db.reviews[k])) else None
  }

  /** What the write leaves in a cell that it overwrites. */
  function Written(w: Write, c: Cell): (v: Option<Content>)
  {
    match (w.kind, w.event.payload)
    case (UpdateState, PoolStateChanged(pool, _, toState, _)) =>
      if c == StateCell(pool) then Some(StateContent(toState, w.event.tx)) else None
    case (UpsertMemberRow, MemberAdded(dataroom, member, role, who)) =>
      var k := MemberKey(dataroom, member);
      if c == RoleCell(k) then Some(Number(role))
      else if c == ActiveCell(k) then Some(Flag(true))
      else if c == AddedByCell(k) then Some(Name(who))
      else None
    case (DeactivateMember, MemberRemoved(dataroom, member, _)) =>
      if c == ActiveCell(MemberKey(dataroom, member)) then Some(Flag(false)) else None
    case (UpdateRole, MemberRoleUpdated(dataroom, member, _, role, _)) =>
      if c == RoleCell(MemberKey(dataroom, member)) then Some(Number(role)) else None
    case (UpdateVersionInfo, DocumentVersionAdded(doc, version, _, _, _)) =>
      if c == VersionCell(doc) then Some(Number(version)) else None
    case (UpsertReview, DocumentReviewed(doc, reviewer, status)) =>
      if c == StatusCell(ReviewKey(doc, reviewer)) then Some(Number(status)) else None
    case _ => None
  }

  lemma ApplyWrites(s: Store, w: Write, c: Cell)
    requires ParentsFound(s.db, w.event.payload) && Written(w, c).Some?
    ensures var v := At(Apply(s, w).db, c); v == Written(w, c) || (v.None? && At(s.db, c).None?)
  {
  }

  lemma ApplyKeeps(s: Store, w: Write, c: Cell)
    requires At(s.db, c).Some?
    requires Written(w, c).None? || !ParentsFound(s.db, w.event.payload)
    ensures At(Apply(s, w).db, c) == At(s.db, c)
  {
  }

  // --- Objects that events create and look up. ---

  datatype Object = PoolObject(pool: Id) | RoomObject(room: Id) | RoomOfPool(pool: Id) | DocObject(doc: Id)

  function Creates(e: Payload): (objects: set<Object>)
  {
    match e
    case PoolCreated(pool, _, _, _) => {PoolObject(pool)}
    case DataRoomCreated(pool, room, _) => {RoomObject(room), RoomOfPool(pool)}
    case DocumentCreated(_, doc, _, _, _, _, _, _, _) => {DocObject(doc)}
    case _ => {}
  }

  function LooksUp(e: Payload): (objects: set<Object>)
  {
    match e
    case PoolStateChanged(pool, _, _, _) => {PoolObject(pool)}
    case DataRoomCreated(pool, _, _) => {PoolObject(pool)}
    case MemberAdded(room, _, _, _) => {RoomObject(room)}
    case MemberRemoved(room, _, _) => {RoomObject(room)}
    case MemberRoleUpdated(room, _, _, _, _) => {RoomObject(room)}
    case DocumentCreated(pool, _, _, _, _, _, _, _, _) => {PoolObject(pool), RoomOfPool(pool)}
    case DocumentVersionAdded(doc, _, _, _, _) => {DocObject(doc)}
    case DocumentReviewed(doc, _, _) => {DocObject(doc)}
    case ICDecisionCreated(pool, _, _, _) => {PoolObject(pool)}
    case AuditEvent(pool, _, _, _, _) => {PoolObject(pool)}
    case _ => {}
  }

  ghost predicate Exists(db: Db, o: Object)
  {
    match o
    case PoolObject(p) => p in db.pools
    case RoomObject(r) => r in db.datarooms
    case RoomOfPool(p) => p in db.roomOfPool
    case DocObject(d) => d in db.documents
  }

  lemma GrowsKeepsExists(d: Db, f: Db, o: Object)
    requires Grows(d, f) && Exists(d, o)
    ensures Exists(f, o)
  {
  }

  /** Only a creation event brings an object into existence. */
  lemma ApplyCreates(s: Store, w: Write, o: Object)
    requires !Exists(s.db, o) && Exists(Apply(s, w).db, o)
    ensures o in Creates(w.event.payload)
  {
  }

  /** A cell appears with its row: by an overwriting write, or by a creation event. */
  lemma ApplyAppears(s: Store, w: Write, c: Cell)
    requires At(s.db, c).None? && At(Apply(s, w).db, c).Some?
    ensures ParentsFound(s.db, w.event.payload)
    ensures Written(w, c).Some?
      || (c.StateCell? && PoolObject(c.pool) in Creates(w.event.payload))
      || (c.VersionCell? && DocObject(c.doc) in Creates(w.event.payload))
  {
  }

  /** The early-return test depends only on whether the looked-up objects exist. */
  lemma ParentsAreLookedUp(d: Db, f: Db, e: Payload)
    requires forall o :: o in LooksUp(e) ==> (Exists(d, o) <==> Exists(f, o))
    ensures ParentsFound(d, e) <==> ParentsFound(f, e)
  {
    match e
    case MemberAdded(room, _, _, _) => assert RoomObject(room) in LooksUp(e);
    case MemberRemoved(room, _, _) => assert RoomObject(room) in LooksUp(e);
    case MemberRoleUpdated(room, _, _, _, _) => assert RoomObject(room) in LooksUp(e);
    case DocumentCreated(pool, _, _, _, _, _, _, _, _) =>
      assert PoolObject(pool) in LooksUp(e) && RoomOfPool(pool) in LooksUp(e);
    case DocumentVersionAdded(doc, _, _, _, _) => assert DocObject(doc) in LooksUp(e);
    case DocumentReviewed(doc, _, _) => assert DocObject(doc) in LooksUp(e);
    case ICDecisionCreated(pool, _, _, _) => assert PoolObject(pool) in LooksUp(e);
    case _ =>
  }
}
