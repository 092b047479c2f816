// The database tables that the indexer writes, each as a map from its unique key to the columns
// that an event determines, and the effect of every repository write on them. Rows refer to each
// other by the on-chain object id; internal ids and wall-clock columns are not kept.

module Tables {
  import opened Results

  type Id = string

  datatype PoolRow = PoolRow(name: string, scheme: int, createdBy: string, state: int, tx: string)
  datatype DataroomRow = DataroomRow(pool: Id, owner: string)
  datatype MemberKey = MemberKey(dataroom: Id, member: string)
  datatype MemberRow = MemberRow(pool: Id, role: int, addedBy: string, active: bool)
  datatype DocumentRow = DocumentRow(pool: Id, dataroom: Id, folder: int, docType: int, title: string, scheme: int,
                                     currentVersion: int, versionCount: int)
  datatype VersionKey = VersionKey(doc: Id, version: int)
  datatype VersionRow = VersionRow(blob: string, hash: string, uploader: string)
  datatype ReviewKey = ReviewKey(doc: Id, reviewer: string)
  datatype DecisionKey = DecisionKey(pool: Id, index: int)
  datatype DecisionRow = DecisionRow(decisionType: int, createdBy: string)
  datatype AuditKey = AuditKey(tx: string, eventSeq: nat)
  datatype AuditRow =
    AuditRow(pool: Option<Id>, kind: AuditKind, actor: string, target: Option<string>, metadata: Metadata)

  datatype AuditKind =
    | PoolCreatedKind | PoolStateChangedKind | DataRoomCreatedKind
    | MemberAddedKind | MemberRemovedKind | MemberRoleUpdatedKind
    | DocumentCreatedKind | DocumentVersionAddedKind | DocumentReviewedKind
    | ICDecisionCreatedKind | AuditEventKind(actionType: int)

  datatype Metadata =
    | NoMetadata
    | PoolMetadata(name: string, scheme: int)
    | StateMetadata(fromState: int, toState: int)
    | MemberMetadata(role: int, dataroom: Id)
    | RemovalMetadata(dataroom: Id)
    | RoleMetadata(oldRole: int, newRole: int)
    | DocumentMetadata(title: string, folder: int)
    | VersionMetadata(version: int)
    | ReviewMetadata(status: int)
    | DecisionMetadata(index: int, decisionType: int)
    | HashMetadata(hash: string)

  /** roomOfPool gives the dataroom that a lookup by pool, LIMIT 1, returns: the first one inserted. */
  datatype Db = Db(
    pools: map<Id, PoolRow>,
    datarooms: map<Id, DataroomRow>,
    roomOfPool: map<Id, Id>,
    members: map<MemberKey, MemberRow>,
    documents: map<Id, DocumentRow>,
    versions: map<VersionKey, VersionRow>,
    reviews: map<ReviewKey, int>,
    decisions: map<DecisionKey, DecisionRow>,
    audits: map<AuditKey, AuditRow>)

  const EMPTY := Db(map[], map[], map[], map[], map[], map[], map[], map[], map[])

  // --- Inserts that do nothing on conflict. ---

  function AddIfAbsent<K, V>(table: map<K, V>, key: K, row: V): (r: map<K, V>)
  {
    if key in table then table else table[key := row]
  }

  // --- Updates, which touch nothing when the row is missing. ---

  function SetPoolState(pools: map<Id, PoolRow>, id: Id, state: int, tx: string): (r: map<Id, PoolRow>)
  {
    if id in pools then pools[id := pools[id].(state := state, tx := tx)] else pools
  }

  function Deactivated(members: map<MemberKey, MemberRow>, key: MemberKey): (r: map<MemberKey, MemberRow>)
  {
    if key in members then members[key := members[key].(active := false)] else members
  }

  function SetRole(members: map<MemberKey, MemberRow>, key: MemberKey, role: int): (r: map<MemberKey, MemberRow>)
  {
    if key in members then members[key := members[key].(role := role)] else members
  }

  /** currentVersion is set; versionCount grows on every call. */
  function SetVersion(documents: map<Id, DocumentRow>, id: Id, version: int): (r: map<Id, DocumentRow>)
  {
    if id in documents
    then documents[id := documents[id].(currentVersion := version, versionCount := documents[id].versionCount + 1)]
    else documents
  }

  // --- Upserts. ---

  /** On conflict the pool column keeps its old value. */
  function UpsertMember(members: map<MemberKey, MemberRow>, key: MemberKey, pool: Id, role: int, addedBy: string)
    : (r: map<MemberKey, MemberRow>)
  {
    if key in members then members[key := members[key].(role := role, active := true, addedBy := addedBy)]
    else members[key := MemberRow(pool, role, addedBy, true)]
  }
}
