// Chain events, and each handler as the ordered list of repository writes it performs.

module Events {
  import opened Results
  import opened Tables

  datatype Payload =
    | PoolCreated(pool: Id, name: string, scheme: int, createdBy: string)
    | PoolStateChanged(pool: Id, fromState: int, toState: int, actor: string)
    | DataRoomCreated(pool: Id, dataroom: Id, owner: string)
    | MemberAdded(dataroom: Id, member: string, role: int, addedBy: string)
    | MemberRemoved(dataroom: Id, member: string, removedBy: string)
    | MemberRoleUpdated(dataroom: Id, member: string, oldRole: int, newRole: int, actor: string)
    | DocumentCreated(pool: Id, doc: Id, folder: int, docType: int, title: string, version: int,
                      blob: string, hash: string, uploader: string)
    | DocumentVersionAdded(doc: Id, version: int, blob: string, hash: string, uploader: string)
    | DocumentReviewed(doc: Id, reviewer: string, status: int)
    | ICDecisionCreated(pool: Id, index: int, decisionType: int, createdBy: string)
    | AuditEvent(pool: Id, actionType: int, actor: string, target: Option<string>, hash: string)
    | Unhandled

  datatype Event = Event(tx: string, eventSeq: nat, payload: Payload)

  /** The repository writes, by name. */
  datatype Kind =
    | InsertPool | UpdateState | InsertDataroom
    | UpsertMemberRow | DeactivateMember | UpdateRole
    | InsertDocument | InsertFirstVersion | InsertVersion | UpdateVersionInfo
    | UpsertReview | InsertDecision | InsertAudit

  datatype Write = Write(kind: Kind, event: Event)

  /** The writes of the handler registered for an event, in order. */
  function Handler(e: Event): (kinds: seq<Kind>)
  {
    match e.payload
    case PoolCreated(_, _, _, _) => [InsertPool, InsertAudit]
    case PoolStateChanged(_, _, _, _) => [UpdateState, InsertAudit]
    case DataRoomCreated(_, _, _) => [InsertDataroom, InsertAudit]
    case MemberAdded(_, _, _, _) => [UpsertMemberRow, InsertAudit]
    case MemberRemoved(_, _, _) => [DeactivateMember, InsertAudit]
    case MemberRoleUpdated(_, _, _, _, _) => [UpdateRole, InsertAudit]
    case DocumentCreated(_, _, _, _, _, _, _, _, _) => [InsertDocument, InsertFirstVersion, InsertAudit]
    case DocumentVersionAdded(_, _, _, _, _) => [InsertVersion, UpdateVersionInfo, InsertAudit]
    case DocumentReviewed(_, _, _) => [UpsertReview, InsertAudit]
    case ICDecisionCreated(_, _, _, _) => [InsertDecision, InsertAudit]
    case AuditEvent(_, _, _, _, _) => [InsertAudit]
    case Unhandled => []
  }

  lemma AuditIsLast(e: Event)
    requires !e.payload.Unhandled?
    ensures |Handler(e)| > 0 && Handler(e)[|Handler(e)| - 1] == InsertAudit
  {
  }

  // --- The reads that precede the writes. ---

  /** The handler returns early, writing nothing, when this is false. */
  predicate ParentsFound(db: Db, e: Payload)
  {
    match e
    case MemberAdded(dataroom, _, _, _) => dataroom in db.datarooms
    case MemberRemoved(dataroom, _, _) => dataroom in db.datarooms
    case MemberRoleUpdated(dataroom, _, _, _, _) => dataroom in db.datarooms
    case DocumentCreated(pool, _, _, _, _, _, _, _, _) => pool in db.pools && pool in db.roomOfPool
    case DocumentVersionAdded(doc, _, _, _, _) => doc in db.documents
    case DocumentReviewed(doc, _, _) => doc in db.documents
    case ICDecisionCreated(pool, _, _, _) => pool in db.pools
    case _ => true
  }

  /** The pool column of the audit row. */
  function AuditPool(db: Db, e: Payload): (pool: Option<Id>)
    requires ParentsFound(db, e)
  {
    match e
    case PoolCreated(_, _, _, _) => None
    case PoolStateChanged(_, _, _, _) => None
    case DataRoomCreated(pool, _, _) => if pool in db.pools then Some(pool) else None
    case MemberAdded(dataroom, _, _, _) => Some(db.datarooms[dataroom].pool)
    case MemberRemoved(dataroom, _, _) => Some(db.datarooms[dataroom].pool)
    case MemberRoleUpdated(dataroom, _, _, _, _) => Some(db.datarooms[dataroom].pool)
    case DocumentCreated(pool, _, _, _, _, _, _, _, _) => Some(pool)
    case DocumentVersionAdded(doc, _, _, _, _) => Some(db.documents[doc].pool)
    case DocumentReviewed(doc, _, _) => Some(db.documents[doc].pool)
    case ICDecisionCreated(pool, _, _, _) => Some(pool)
    case AuditEvent(pool, _, _, _, _) => if pool in db.pools then Some(pool) else None
    case Unhandled => None
  }

  function AuditRowFor(e: Payload, pool: Option<Id>): (row: AuditRow)
  {
    match e
    case PoolCreated(id, name, scheme, who) =>
      AuditRow(pool, PoolCreatedKind, who, Some(id), PoolMetadata(name, scheme))
    case PoolStateChanged(id, a, b, actor) => AuditRow(pool, PoolStateChangedKind, actor, Some(id), StateMetadata(a, b))
    case DataRoomCreated(_, room, owner) => AuditRow(pool, DataRoomCreatedKind, owner, Some(room), NoMetadata)
    case MemberAdded(room, member, role, who) =>
      AuditRow(pool, MemberAddedKind, who, Some(member), MemberMetadata(role, room))
    case MemberRemoved(room, member, who) => AuditRow(pool, MemberRemovedKind, who, Some(member), RemovalMetadata(room))
    case MemberRoleUpdated(_, member, a, b, actor) =>
      AuditRow(pool, MemberRoleUpdatedKind, actor, Some(member), RoleMetadata(a, b))
    case DocumentCreated(_, doc, folder, _, title, _, _, _, who) =>
      AuditRow(pool, DocumentCreatedKind, who, Some(doc), DocumentMetadata(title, folder))
    case DocumentVersionAdded(doc, version, _, _, who) =>
      AuditRow(pool, DocumentVersionAddedKind, who, Some(doc), VersionMetadata(version))
    case DocumentReviewed(doc, who, status) =>
      AuditRow(pool, DocumentReviewedKind, who, Some(doc), ReviewMetadata(status))
    case ICDecisionCreated(_, index, t, who) =>
      AuditRow(pool, ICDecisionCreatedKind, who, None, DecisionMetadata(index, t))
    case AuditEvent(_, action, actor, target, hash) =>
      AuditRow(pool, AuditEventKind(action), actor, target, HashMetadata(hash))
    case Unhandled => AuditRow(pool, AuditEventKind(0), "", None, NoMetadata)
  }

  // --- What an audit row says. ---

  /** What an event needs to find: its dataroom, its document, its pool, or nothing. */
  ghost predicate FindsItsRows(d: Db, e: Payload)
  {
    && (e.MemberAdded? || e.MemberRemoved? || e.MemberRoleUpdated? ==> e.dataroom in d.datarooms)
    && (e.DocumentVersionAdded? || e.DocumentReviewed? ==> e.doc in d.documents)
    && (e.ICDecisionCreated? ==> e.pool in d.pools)
    && (e.DocumentCreated? ==> e.pool in d.pools && e.pool in d.roomOfPool)
  }

  lemma FindsItsRowsIff(d: Db, e: Payload)
    ensures FindsItsRows(d, e) <==> ParentsFound(d, e)
  {
  }

  /** The row names the kind of the event, who acted, on what, and the details. */
  ghost predicate AuditSays(row: AuditRow, e: Payload)
  {
    match e
    case PoolCreated(_, _, _, _) =>
      && row.kind == PoolCreatedKind && row.actor == e.createdBy && row.target == Some(e.pool)
      && row.metadata.PoolMetadata? && row.metadata.name == e.name && row.metadata.scheme == e.scheme
    case PoolStateChanged(_, _, _, _) =>
      && row.kind == PoolStateChangedKind && row.actor == e.actor && row.target == Some(e.pool)
      && row.metadata.StateMetadata? && row.metadata.fromState == e.fromState && row.metadata.toState == e.toState
    case DataRoomCreated(_, _, _) =>
      && row.kind == DataRoomCreatedKind && row.actor == e.owner && row.target == Some(e.dataroom)
      && row.metadata.NoMetadata?
    case MemberAdded(_, _, _, _) =>
      && row.kind == MemberAddedKind && row.actor == e.addedBy && row.target == Some(e.member)
      && row.metadata.MemberMetadata? && row.metadata.role == e.role && row.metadata.dataroom == e.dataroom
    case MemberRemoved(_, _, _) =>
      && row.kind == MemberRemovedKind && row.actor == e.removedBy && row.target == Some(e.member)
      && row.metadata.RemovalMetadata? && row.metadata.dataroom == e.dataroom
    case MemberRoleUpdated(_, _, _, _, _) =>
      && row.kind == MemberRoleUpdatedKind && row.actor == e.actor && row.target == Some(e.member)
      && row.metadata.RoleMetadata? && row.metadata.oldRole == e.oldRole && row.metadata.newRole == e.newRole
    case DocumentCreated(_, _, _, _, _, _, _, _, _) =>
      && row.kind == DocumentCreatedKind && row.actor == e.uploader && row.target == Some(e.doc)
      && row.metadata.DocumentMetadata? && row.metadata.title == e.title && row.metadata.folder == e.folder
    case DocumentVersionAdded(_, _, _, _, _) =>
      && row.kind == DocumentVersionAddedKind && row.actor == e.uploader && row.target == Some(e.doc)
      && row.metadata.VersionMetadata? && row.metadata.version == e.version
    case DocumentReviewed(_, _, _) =>
      && row.kind == DocumentReviewedKind && row.actor == e.reviewer && row.target == Some(e.doc)
      && row.metadata.ReviewMetadata? && row.metadata.status == e.status
    case ICDecisionCreated(_, _, _, _) =>
      && row.kind == ICDecisionCreatedKind && row.actor == e.createdBy && row.target == None
      && row.metadata.DecisionMetadata? && row.metadata.index == e.index
      && row.metadata.decisionType == e.decisionType
    case AuditEvent(_, _, _, _, _) =>
      && row.kind == AuditEventKind(e.actionType) && row.actor == e.actor && row.target == e.target
      && row.metadata.HashMetadata? && row.metadata.hash == e.hash
    case Unhandled => false
  }

  /** The pool of the dataroom or document concerned, or the one named, if it exists; pool events leave it out. */
  ghost predicate AuditPoolSays(d: Db, e: Payload, pool: Option<Id>)
  {
    && (e.PoolCreated? || e.PoolStateChanged? ==> pool == None)
    && (e.DataRoomCreated? || e.AuditEvent? ==> pool == if e.pool in d.pools then Some(e.pool) else None)
    && (e.MemberAdded? || e.MemberRemoved? || e.MemberRoleUpdated? ==>
          e.dataroom in d.datarooms && pool == Some(d.datarooms[e.dataroom].pool))
    && (e.DocumentVersionAdded? || e.DocumentReviewed? ==>
          e.doc in d.documents && pool == Some(d.documents[e.doc].pool))
    && (e.DocumentCreated? || e.ICDecisionCreated? ==> pool == Some(e.pool))
  }

  lemma AuditRowSays(d: Db, e: Payload)
    requires ParentsFound(d, e) && !e.Unhandled?
    ensures var row := AuditRowFor(e, AuditPool(d, e)); AuditSays(row, e) && AuditPoolSays(d, e, row.pool)
  {
  }

  // --- One write. ---

  /** The tables, and the handler-local flag "the insert returned a document row". */
  datatype Store = Store(db: Db, docIsNew: bool)

  /** A new dataroom row violates the foreign key to pools: without a pool it gets the id of no pool. */
  predicate Throws(db: Db, w: Write)
  {
    && w.kind == InsertDataroom && w.event.payload.DataRoomCreated?
    && w.event.payload.pool !in db.pools && w.event.payload.dataroom !in db.datarooms
  }

  function PoolsAfter(pools: map<Id, PoolRow>, w: Write): (r: map<Id, PoolRow>)
  {
    var p := w.event.payload;
    if w.kind == InsertPool && p.PoolCreated? then
      AddIfAbsent(pools, p.pool, NewPool(w.event))
    else if w.kind == UpdateState && p.PoolStateChanged? then SetPoolState(pools, p.pool, p.toState, w.event.tx)
    else pools
  }

  function NewPool(e: Event): (row: PoolRow)
    requires e.payload.PoolCreated?
  {
    PoolRow(e.payload.name, e.payload.scheme, e.payload.createdBy, 0, e.tx)
  }

  function DataroomsAfter(datarooms: map<Id, DataroomRow>, w: Write): (r: map<Id, DataroomRow>)
  {
    var p := w.event.payload;
    if w.kind == InsertDataroom && p.DataRoomCreated? then
      AddIfAbsent(datarooms, p.dataroom, DataroomRow(p.pool, p.owner))
    else datarooms
  }

  function RoomOfPoolAfter(db: Db, w: Write): (r: map<Id, Id>)
  {
    var p := w.event.payload;
    if w.kind == InsertDataroom && p.DataRoomCreated? && p.dataroom !in db.datarooms then
      AddIfAbsent(db.roomOfPool, p.pool, p.dataroom)
    else db.roomOfPool
  }

  function MembersAfter(db: Db, w: Write): (r: map<MemberKey, MemberRow>)
  {
    var p := w.event.payload;
    if w.kind == UpsertMemberRow && p.MemberAdded? && p.dataroom in db.datarooms then
      UpsertMember(db.members, MemberKey(p.dataroom, p.member), db.datarooms[p.dataroom].pool, p.role, p.addedBy)
    else if w.kind == DeactivateMember && p.MemberRemoved? then Deactivated(db.members, MemberKey(p.dataroom, p.member))
    else if w.kind == UpdateRole && p.MemberRoleUpdated? then
      SetRole(db.members, MemberKey(p.dataroom, p.member), p.newRole)
    else db.members
  }

  function DocumentsAfter(db: Db, w: Write): (r: map<Id, DocumentRow>)
  {
    var p := w.event.payload;
    if w.kind == InsertDocument && p.DocumentCreated? && p.pool in db.pools && p.pool in db.roomOfPool then
      AddIfAbsent(db.documents, p.doc, NewDocument(p, db.roomOfPool[p.pool], db.pools[p.pool].scheme))
    else if w.kind == UpdateVersionInfo && p.DocumentVersionAdded? then SetVersion(db.documents, p.doc, p.version)
    else db.documents
  }

  function NewDocument(p: Payload, room: Id, scheme: int): (row: DocumentRow)
    requires p.DocumentCreated?
  {
    DocumentRow(p.pool, room, p.folder, p.docType, p.title, scheme, p.version, 1)
  }

  function VersionsAfter(s: Store, w: Write): (r: map<VersionKey, VersionRow>)
  {
    var p := w.event.payload;
    if (w.kind == InsertFirstVersion && p.DocumentCreated? && s.docIsNew)
       || (w.kind == InsertVersion && p.DocumentVersionAdded?) then
      AddIfAbsent(s.db.versions, VersionKey(p.doc, p.version), VersionRow(p.blob, p.hash, p.uploader))
    else s.db.versions
  }

  function ReviewsAfter(reviews: map<ReviewKey, int>, w: Write): (r: map<ReviewKey, int>)
  {
    var p := w.event.payload;
    if w.kind == UpsertReview && p.DocumentReviewed? then reviews[ReviewKey(p.doc, p.reviewer) := p.status] else reviews
  }

  function DecisionsAfter(decisions: map<DecisionKey, DecisionRow>, w: Write): (r: map<DecisionKey, DecisionRow>)
  {
    var p := w.event.payload;
    if w.kind == InsertDecision && p.ICDecisionCreated? then
      AddIfAbsent(decisions, DecisionKey(p.pool, p.index), DecisionRow(p.decisionType, p.createdBy))
    else decisions
  }

  function AuditsAfter(db: Db, w: Write): (r: map<AuditKey, AuditRow>)
    requires ParentsFound(db, w.event.payload)
  {
    if w.kind != InsertAudit then db.audits
    else AddIfAbsent(db.audits, AuditKey(w.event.tx, w.event.eventSeq),
                     AuditRowFor(w.event.payload, AuditPool(db, w.event.payload)))
  }

  function Apply(s: Store, w: Write): (r: Store)
  {
    var db := s.db;
    if Throws(db, w) || !ParentsFound(db, w.event.payload) then s
    else
      Store(Db(PoolsAfter(db.pools, w), DataroomsAfter(db.datarooms, w), RoomOfPoolAfter(db, w), MembersAfter(db, w),
               DocumentsAfter(db, w), VersionsAfter(s, w), ReviewsAfter(db.reviews, w), DecisionsAfter(db.decisions, w),
               AuditsAfter(db, w)),
            if w.kind == InsertDocument && w.event.payload.DocumentCreated? then w.event.payload.doc !in db.documents
            else s.docIsNew)
  }
}
