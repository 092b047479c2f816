// Where the rows of the clean pass come from: a row exists iff some write asked for its key and found
// what it looks up, and the columns that are set once are those of the first such write.

module Contents {
  import opened Tables
  import opened Events
  import opened Replay

  // --- Pools. ---

  ghost predicate AskedForPool(ws: seq<Write>, q: nat, id: Id)
  {
    q < |ws| && ws[q].kind == InsertPool && ws[q].event.payload.PoolCreated? && ws[q].event.payload.pool == id
  }

  ghost predicate FirstForPool(ws: seq<Write>, q: nat, id: Id)
  {
    AskedForPool(ws, q, id) && forall i :: 0 <= i < q ==> !AskedForPool(ws, i, id)
  }

  ghost predicate HasPool(ws: seq<Write>, h: nat, id: Id)
  {
    h <= |ws| && id in Clean(ws, h).db.pools
  }

  /** The columns of a pool row that no event overwrites. */
  ghost predicate PoolSays(row: PoolRow, e: Payload)
    requires e.PoolCreated?
  {
    row.name == e.name && row.scheme == e.scheme && row.createdBy == e.createdBy
  }

  lemma PoolStep(s: Store, w: Write, id: Id)
    ensures id in Apply(s, w).db.pools <==>
      id in s.db.pools || (w.kind == InsertPool && w.event.payload.PoolCreated? && w.event.payload.pool == id)
    ensures id in s.db.pools ==>
      Apply(s, w).db.pools[id].(state := s.db.pools[id].state, tx := s.db.pools[id].tx) == s.db.pools[id]
    ensures id in Apply(s, w).db.pools && id !in s.db.pools ==> PoolSays(Apply(s, w).db.pools[id], w.event.payload)
  {
  }

  lemma PoolNext(ws: seq<Write>, k: nat, id: Id)
    requires k < |ws|
    ensures HasPool(ws, k + 1, id) <==> HasPool(ws, k, id) || AskedForPool(ws, k, id)
  {
    PoolStep(Clean(ws, k), ws[k], id);
  }

  /** A pool exists iff an event created it. */
  lemma {:induction false} PoolExistsIff(ws: seq<Write>, h: nat, id: Id)
    requires h <= |ws|
    ensures HasPool(ws, h, id) <==> exists q :: 0 <= q < h && AskedForPool(ws, q, id)
  {
    if h > 0 {
      PoolExistsIff(ws, h - 1, id);
      PoolNext(ws, h - 1, id);
    }
  }

  ghost predicate PoolIs(ws: seq<Write>, h: nat, id: Id, e: Payload)
  {
    HasPool(ws, h, id) && e.PoolCreated? && PoolSays(Clean(ws, h).db.pools[id], e)
  }

  /** Its row is that of the first such event. */
  lemma {:induction false} PoolRowIs(ws: seq<Write>, h: nat, id: Id, q: nat)
    requires q < h <= |ws| && FirstForPool(ws, q, id)
    ensures PoolIs(ws, h, id, ws[q].event.payload)
  {
    PoolStep(Clean(ws, h - 1), ws[h - 1], id);
    if q == h - 1 { PoolExistsIff(ws, q, id); } else { PoolRowIs(ws, h - 1, id, q); }
  }

  // --- Datarooms. ---

  /** The event names the dataroom, and its insert did not throw. */
  ghost predicate AskedForRoom(ws: seq<Write>, q: nat, room: Id)
  {
    && q < |ws| && ws[q].kind == InsertDataroom && ws[q].event.payload.DataRoomCreated?
    && ws[q].event.payload.dataroom == room && !Throws(Clean(ws, q).db, ws[q])
  }

  ghost predicate FirstForRoom(ws: seq<Write>, q: nat, room: Id)
  {
    AskedForRoom(ws, q, room) && forall i :: 0 <= i < q ==> !AskedForRoom(ws, i, room)
  }

  ghost predicate HasRoom(ws: seq<Write>, h: nat, room: Id)
  {
    h <= |ws| && room in Clean(ws, h).db.datarooms
  }

  lemma RoomStep(s: Store, w: Write, room: Id)
    ensures room in Apply(s, w).db.datarooms <==>
      || room in s.db.datarooms
      || (w.kind == InsertDataroom && w.event.payload.DataRoomCreated? && w.event.payload.dataroom == room
          && !Throws(s.db, w))
    ensures room in s.db.datarooms ==> Apply(s, w).db.datarooms[room] == s.db.datarooms[room]
    ensures room in Apply(s, w).db.datarooms && room !in s.db.datarooms ==>
      Apply(s, w).db.datarooms[room] == DataroomRow(w.event.payload.pool, w.event.payload.owner)
  {
  }

  lemma RoomNext(ws: seq<Write>, k: nat, room: Id)
    requires k < |ws|
    ensures HasRoom(ws, k + 1, room) <==> HasRoom(ws, k, room) || AskedForRoom(ws, k, room)
  {
    RoomStep(Clean(ws, k), ws[k], room);
  }

  /** A dataroom exists iff an event created it whose insert did not throw. */
  lemma {:induction false} RoomExistsIff(ws: seq<Write>, h: nat, room: Id)
    requires h <= |ws|
    ensures HasRoom(ws, h, room) <==> exists q :: 0 <= q < h && AskedForRoom(ws, q, room)
  {
    if h > 0 {
      RoomExistsIff(ws, h - 1, room);
      RoomNext(ws, h - 1, room);
    }
  }

  ghost predicate RoomIs(ws: seq<Write>, h: nat, room: Id, row: DataroomRow)
  {
    HasRoom(ws, h, room) && Clean(ws, h).db.datarooms[room] == row
  }

  /** Its row is that of the first such event. */
  lemma {:induction false} RoomRowIs(ws: seq<Write>, h: nat, room: Id, q: nat)
    requires q < h <= |ws| && FirstForRoom(ws, q, room)
    ensures RoomIs(ws, h, room, DataroomRow(ws[q].event.payload.pool, ws[q].event.payload.owner))
  {
    RoomStep(Clean(ws, h - 1), ws[h - 1], room);
    if q == h - 1 { RoomExistsIff(ws, q, room); } else { RoomRowIs(ws, h - 1, room, q); }
  }

  // --- The dataroom of a pool. ---

  /** The write at q made a new dataroom of this pool. */
  ghost predicate NewRoomOf(ws: seq<Write>, q: nat, pool: Id)
  {
    && q < |ws| && ws[q].kind == InsertDataroom && ws[q].event.payload.DataRoomCreated?
    && ws[q].event.payload.pool == pool && !Throws(Clean(ws, q).db, ws[q])
    && ws[q].event.payload.dataroom !in Clean(ws, q).db.datarooms
  }

  ghost predicate FirstRoomOf(ws: seq<Write>, q: nat, pool: Id)
  {
    NewRoomOf(ws, q, pool) && forall i :: 0 <= i < q ==> !NewRoomOf(ws, i, pool)
  }

  ghost predicate HasRoomOf(ws: seq<Write>, h: nat, pool: Id)
  {
    h <= |ws| && pool in Clean(ws, h).db.roomOfPool
  }

  lemma RoomOfPoolStep(s: Store, w: Write, pool: Id)
    ensures pool in s.db.roomOfPool ==>
      pool in Apply(s, w).db.roomOfPool && Apply(s, w).db.roomOfPool[pool] == s.db.roomOfPool[pool]
    ensures pool in Apply(s, w).db.roomOfPool && pool !in s.db.roomOfPool ==>
      Apply(s, w).db.roomOfPool[pool] == w.event.payload.dataroom
    ensures pool in Apply(s, w).db.roomOfPool <==>
      || pool in s.db.roomOfPool
      || (w.kind == InsertDataroom && w.event.payload.DataRoomCreated? && w.event.payload.pool == pool
          && !Throws(s.db, w) && w.event.payload.dataroom !in s.db.datarooms)
  {
  }

  lemma RoomOfPoolNext(ws: seq<Write>, k: nat, pool: Id)
    requires k < |ws|
    ensures HasRoomOf(ws, k + 1, pool) <==> HasRoomOf(ws, k, pool) || NewRoomOf(ws, k, pool)
  {
    RoomOfPoolStep(Clean(ws, k), ws[k], pool);
  }

  /** The lookup by pool finds a dataroom iff one was made for this pool. */
  lemma {:induction false} RoomOfPoolIff(ws: seq<Write>, h: nat, pool: Id)
    requires h <= |ws|
    ensures HasRoomOf(ws, h, pool) <==> exists q :: 0 <= q < h && NewRoomOf(ws, q, pool)
  {
    if h > 0 {
      RoomOfPoolIff(ws, h - 1, pool);
      RoomOfPoolNext(ws, h - 1, pool);
    }
  }

  /** And then it finds the first of them. */
  lemma {:induction false} RoomOfPoolIs(ws: seq<Write>, h: nat, pool: Id, q: nat)
    requires q < h <= |ws| && FirstRoomOf(ws, q, pool)
    ensures HasRoomOf(ws, h, pool) && Clean(ws, h).db.roomOfPool[pool] == ws[q].event.payload.dataroom
  {
    RoomOfPoolStep(Clean(ws, h - 1), ws[h - 1], pool);
    if q == h - 1 { RoomOfPoolIff(ws, q, pool); } else { RoomOfPoolIs(ws, h - 1, pool, q); }
  }

  // --- When an insert throws. ---

  /** A dataroom insert has its pool, or already its dataroom, in front of it. */
  ghost predicate Ready(ws: seq<Write>, q: nat)
    requires q < |ws|
  {
    ws[q].kind == InsertDataroom && ws[q].event.payload.DataRoomCreated? ==>
      exists i :: 0 <= i < q && Provides(ws[i], ws[q].event.payload)
  }

  /** The write inserts the pool that the dataroom event needs, or its dataroom. */
  predicate Provides(w: Write, e: Payload)
    requires e.DataRoomCreated?
  {
    || (w.kind == InsertPool && w.event.payload.PoolCreated? && w.event.payload.pool == e.pool)
    || (w.kind == InsertDataroom && w.event.payload.DataRoomCreated? && w.event.payload.dataroom == e.dataroom)
  }

  /** The next write throws iff nothing in front of it provides for it, as long as none has thrown. */
  lemma ThrowsIff(ws: seq<Write>, q: nat)
    requires q < |ws| && Accepted(ws, q)
    ensures Throws(Clean(ws, q).db, ws[q]) <==> !Ready(ws, q)
  {
    if ws[q].kind == InsertDataroom && ws[q].event.payload.DataRoomCreated? {
      var e := ws[q].event.payload;
      PoolExistsIff(ws, q, e.pool);
      RoomExistsIff(ws, q, e.dataroom);
      ProvidedIff(ws, q, e);
    }
  }

  lemma ProvidedIff(ws: seq<Write>, q: nat, e: Payload)
    requires q <= |ws| && Accepted(ws, q) && e.DataRoomCreated?
    ensures (exists i :: 0 <= i < q && Provides(ws[i], e))
      <==> ((exists i :: 0 <= i < q && AskedForPool(ws, i, e.pool))
            || (exists i :: 0 <= i < q && AskedForRoom(ws, i, e.dataroom)))
  {
    forall i | 0 <= i < q
      ensures Provides(ws[i], e) <==> AskedForPool(ws, i, e.pool) || AskedForRoom(ws, i, e.dataroom)
    {
      assert !Throws(Clean(ws, i).db, ws[i]);
    }
  }

  ghost predicate AllReady(ws: seq<Write>, h: nat)
    requires h <= |ws|
  {
    forall q :: 0 <= q < h ==> Ready(ws, q)
  }

  lemma AcceptedIsReady(ws: seq<Write>, h: nat)
    requires h <= |ws| && Accepted(ws, h)
    ensures AllReady(ws, h)
  {
    forall q | 0 <= q < h ensures Ready(ws, q)
    {
      AcceptedEarlier(ws, q, h);
      assert !Throws(Clean(ws, q).db, ws[q]);
      ThrowsIff(ws, q);
    }
  }

  lemma AcceptOneMore(ws: seq<Write>, q: nat)
    requires q < |ws| && Accepted(ws, q) && Ready(ws, q)
    ensures Accepted(ws, q + 1)
  {
    ThrowsIff(ws, q);
  }

  lemma {:induction false} ReadyIsAccepted(ws: seq<Write>, h: nat)
    requires h <= |ws| && AllReady(ws, h)
    ensures Accepted(ws, h)
  {
    if h > 0 {
      ReadyIsAccepted(ws, h - 1);
      AcceptOneMore(ws, h - 1);
    }
  }

  /** No insert of the clean pass throws iff every dataroom insert is ready. */
  lemma AcceptedIff(ws: seq<Write>, h: nat)
    requires h <= |ws|
    ensures Accepted(ws, h) <==> AllReady(ws, h)
  {
    if Accepted(ws, h) { AcceptedIsReady(ws, h); }
    if AllReady(ws, h) { ReadyIsAccepted(ws, h); }
  }

  lemma AcceptedEarlier(ws: seq<Write>, p: nat, q: nat)
    requires p <= q <= |ws| && Accepted(ws, q)
    ensures Accepted(ws, p)
  {
  }

  // --- Members. ---

  ghost predicate AskedForMember(ws: seq<Write>, q: nat, key: MemberKey)
  {
    && q < |ws| && AddsMember(ws[q], key) && key.dataroom in Clean(ws, q).db.datarooms
  }

  predicate AddsMember(w: Write, key: MemberKey)
  {
    w.kind == UpsertMemberRow && w.event.payload.MemberAdded?
    && key == MemberKey(w.event.payload.dataroom, w.event.payload.member)
  }

  ghost predicate HasMember(ws: seq<Write>, h: nat, key: MemberKey)
  {
    h <= |ws| && key in Clean(ws, h).db.members
  }

  lemma MemberStep(s: Store, w: Write, key: MemberKey)
    ensures key in Apply(s, w).db.members <==>
      key in s.db.members || (AddsMember(w, key) && key.dataroom in s.db.datarooms)
  {
  }

  lemma MemberNext(ws: seq<Write>, k: nat, key: MemberKey)
    requires k < |ws|
    ensures HasMember(ws, k + 1, key) <==> HasMember(ws, k, key) || AskedForMember(ws, k, key)
  {
    MemberStep(Clean(ws, k), ws[k], key);
  }

  /** A member row exists iff some event added the member and found the dataroom. */
  lemma {:induction false} MemberExistsIff(ws: seq<Write>, h: nat, key: MemberKey)
    requires h <= |ws|
    ensures HasMember(ws, h, key) <==> exists q :: 0 <= q < h && AskedForMember(ws, q, key)
  {
    if h > 0 {
      MemberExistsIff(ws, h - 1, key);
      MemberNext(ws, h - 1, key);
    }
  }

  ghost predicate CreatesRoom(ws: seq<Write>, p: nat, room: Id)
  {
    p < |ws| && ws[p].kind == InsertDataroom && ws[p].event.payload.DataRoomCreated?
    && ws[p].event.payload.dataroom == room
  }

  /** So, where no insert throws, a member event takes effect iff an earlier event created its dataroom. */
  lemma MemberRowIff(ws: seq<Write>, h: nat, key: MemberKey)
    requires h <= |ws| && Accepted(ws, h)
    ensures key in Clean(ws, h).db.members
      <==> exists p, q :: 0 <= p < q < h && CreatesRoom(ws, p, key.dataroom) && AddsMember(ws[q], key)
  {
    MemberExistsIff(ws, h, key);
    forall q | 0 <= q < h
      ensures AskedForMember(ws, q, key)
        <==> AddsMember(ws[q], key) && exists p :: 0 <= p < q && CreatesRoom(ws, p, key.dataroom)
    {
      RoomCreatedIff(ws, q, key.dataroom);
    }
  }

  lemma RoomCreatedIff(ws: seq<Write>, h: nat, room: Id)
    requires h <= |ws| && Accepted(ws, h)
    ensures room in Clean(ws, h).db.datarooms <==> exists p :: 0 <= p < h && CreatesRoom(ws, p, room)
  {
    RoomExistsIff(ws, h, room);
    forall p | 0 <= p < h ensures AskedForRoom(ws, p, room) <==> CreatesRoom(ws, p, room)
    {
      assert !Throws(Clean(ws, p).db, ws[p]);
    }
  }

  ghost predicate MemberPoolIs(d: Db, key: MemberKey)
  {
    key in d.members ==> key.dataroom in d.datarooms && d.members[key].pool == d.datarooms[key.dataroom].pool
  }

  lemma MemberPoolStep(s: Store, w: Write, key: MemberKey)
    requires MemberPoolIs(s.db, key)
    ensures MemberPoolIs(Apply(s, w).db, key)
  {
  }

  /** Its pool is that of the dataroom, although later events do not write this column. */
  lemma {:induction false} MemberHasPoolOfRoom(ws: seq<Write>, h: nat, key: MemberKey)
    requires h <= |ws|
    ensures MemberPoolIs(Clean(ws, h).db, key)
  {
    if h > 0 {
      MemberHasPoolOfRoom(ws, h - 1, key);
      MemberPoolStep(Clean(ws, h - 1), ws[h - 1], key);
    }
  }

  // --- Versions. ---

  ghost predicate VersionSays(row: VersionRow, e: Payload)
    requires e.DocumentCreated? || e.DocumentVersionAdded?
  {
    row.blob == e.blob && row.hash == e.hash && row.uploader == e.uploader
  }

  lemma VersionStep(s: Store, w: Write, key: VersionKey)
    requires key in Apply(s, w).db.versions
    ensures if key in s.db.versions then Apply(s, w).db.versions[key] == s.db.versions[key]
            else key in VersionKeys(w) && VersionSays(Apply(s, w).db.versions[key], w.event.payload)
  {
  }

  /** A version row holds what the one event that announces this version of the document says. */
  lemma {:induction false} VersionRowIs(ws: seq<Write>, h: nat, key: VersionKey, q: nat)
    requires h <= |ws| && DistinctVersions(ws) && key in Clean(ws, h).db.versions
    requires q < |ws| && key in VersionKeys(ws[q])
    ensures q < h && VersionSays(Clean(ws, h).db.versions[key], ws[q].event.payload)
  {
    VersionStep(Clean(ws, h - 1), ws[h - 1], key);
    if key in Clean(ws, h - 1).db.versions { VersionRowIs(ws, h - 1, key, q); }
  }

  /** A later version of an existing document has its row. */
  lemma AddedVersionIsThere(ws: seq<Write>, p: nat, h: nat)
    requires p < h <= |ws| && ws[p].kind == InsertVersion && ws[p].event.payload.DocumentVersionAdded?
    requires ws[p].event.payload.doc in Clean(ws, p).db.documents
    ensures VersionKey(ws[p].event.payload.doc, ws[p].event.payload.version) in Clean(ws, h).db.versions
  {
    VersionInsertedAt(Clean(ws, p), ws[p]);
    CleanGrows(ws, p + 1, h);
  }

  lemma VersionInsertedAt(s: Store, w: Write)
    requires w.kind == InsertVersion && w.event.payload.DocumentVersionAdded?
    requires w.event.payload.doc in s.db.documents
    ensures VersionKey(w.event.payload.doc, w.event.payload.version) in Apply(s, w).db.versions
  {
  }

  // --- Documents. ---

  predicate AsksForDocument(s: Store, w: Write, doc: Id)
  {
    w.kind == InsertDocument && w.event.payload.DocumentCreated? && w.event.payload.doc == doc
    && w.event.payload.pool in s.db.pools && w.event.payload.pool in s.db.roomOfPool
  }

  ghost predicate AskedForDocument(ws: seq<Write>, q: nat, doc: Id)
  {
    q < |ws| && AsksForDocument(Clean(ws, q), ws[q], doc)
  }

  ghost predicate FirstForDocument(ws: seq<Write>, q: nat, doc: Id)
  {
    AskedForDocument(ws, q, doc) && forall i :: 0 <= i < q ==> !AskedForDocument(ws, i, doc)
  }

  ghost predicate HasDocument(ws: seq<Write>, h: nat, doc: Id)
  {
    h <= |ws| && doc in Clean(ws, h).db.documents
  }

  /** The columns of a document row that no later event overwrites; room and scheme are looked up. */
  ghost predicate DocumentSays(row: DocumentRow, e: Payload, room: Id, scheme: int)
    requires e.DocumentCreated?
  {
    && row.pool == e.pool && row.dataroom == room && row.scheme == scheme
    && row.folder == e.folder && row.docType == e.docType && row.title == e.title
  }

  lemma DocumentStep(s: Store, w: Write, doc: Id)
    ensures doc in Apply(s, w).db.documents <==> doc in s.db.documents || AsksForDocument(s, w, doc)
    ensures doc in s.db.documents ==>
      Apply(s, w).db.documents[doc].(currentVersion := s.db.documents[doc].currentVersion,
                                     versionCount := s.db.documents[doc].versionCount) == s.db.documents[doc]
    ensures doc !in s.db.documents && AsksForDocument(s, w, doc) ==>
      var e := w.event.payload;
      DocumentSays(Apply(s, w).db.documents[doc], e, s.db.roomOfPool[e.pool], s.db.pools[e.pool].scheme)
  {
  }

  lemma DocumentNext(ws: seq<Write>, k: nat, doc: Id)
    requires k < |ws|
    ensures HasDocument(ws, k + 1, doc) <==> HasDocument(ws, k, doc) || AskedForDocument(ws, k, doc)
  {
    DocumentStep(Clean(ws, k), ws[k], doc);
  }

  /** A document exists iff an event created it that found its pool and a dataroom. */
  lemma {:induction false} DocumentExistsIff(ws: seq<Write>, h: nat, doc: Id)
    requires h <= |ws|
    ensures HasDocument(ws, h, doc) <==> exists q :: 0 <= q < h && AskedForDocument(ws, q, doc)
  {
    if h > 0 {
      DocumentExistsIff(ws, h - 1, doc);
      DocumentNext(ws, h - 1, doc);
    }
  }

  ghost predicate DocumentIs(ws: seq<Write>, h: nat, doc: Id, e: Payload, room: Id, scheme: int)
  {
    HasDocument(ws, h, doc) && e.DocumentCreated? && DocumentSays(Clean(ws, h).db.documents[doc], e, room, scheme)
  }

  lemma DocumentKept(ws: seq<Write>, k: nat, doc: Id, e: Payload, room: Id, scheme: int)
    requires k < |ws| && DocumentIs(ws, k, doc, e, room, scheme)
    ensures DocumentIs(ws, k + 1, doc, e, room, scheme)
  {
    DocumentStep(Clean(ws, k), ws[k], doc);
  }

  lemma DocumentMade(ws: seq<Write>, doc: Id, q: nat)
    requires FirstForDocument(ws, q, doc)
    ensures DocumentIs(ws, q + 1, doc, ws[q].event.payload, Clean(ws, q).db.roomOfPool[ws[q].event.payload.pool],
                       Clean(ws, q).db.pools[ws[q].event.payload.pool].scheme)
  {
    DocumentExistsIff(ws, q, doc);
    DocumentStep(Clean(ws, q), ws[q], doc);
  }

  /** Its row is that of the first such event, with the dataroom and the scheme found at that time. */
  lemma {:induction false} DocumentRowIs(ws: seq<Write>, h: nat, doc: Id, q: nat)
    requires q < h <= |ws| && FirstForDocument(ws, q, doc)
    ensures DocumentIs(ws, h, doc, ws[q].event.payload, Clean(ws, q).db.roomOfPool[ws[q].event.payload.pool],
                       Clean(ws, q).db.pools[ws[q].event.payload.pool].scheme)
  {
    if q == h - 1 {
      DocumentMade(ws, doc, q);
    } else {
      var e, d := ws[q].event.payload, Clean(ws, q).db;
      DocumentRowIs(ws, h - 1, doc, q);
      DocumentKept(ws, h - 1, doc, e, d.roomOfPool[e.pool], d.pools[e.pool].scheme);
    }
  }

  // --- Reviews. ---

  ghost predicate AskedForReview(ws: seq<Write>, q: nat, key: ReviewKey)
  {
    && q < |ws| && ws[q].kind == UpsertReview && ws[q].event.payload.DocumentReviewed?
    && key == ReviewKey(ws[q].event.payload.doc, ws[q].event.payload.reviewer)
    && key.doc in Clean(ws, q).db.documents
  }

  ghost predicate HasReview(ws: seq<Write>, h: nat, key: ReviewKey)
  {
    h <= |ws| && key in Clean(ws, h).db.reviews
  }

  lemma ReviewStep(s: Store, w: Write, key: ReviewKey)
    ensures key in Apply(s, w).db.reviews <==>
      || key in s.db.reviews
      || (w.kind == UpsertReview && w.event.payload.DocumentReviewed?
          && key == ReviewKey(w.event.payload.doc, w.event.payload.reviewer) && key.doc in s.db.documents)
  {
  }

  lemma ReviewNext(ws: seq<Write>, k: nat, key: ReviewKey)
    requires k < |ws|
    ensures HasReview(ws, k + 1, key) <==> HasReview(ws, k, key) || AskedForReview(ws, k, key)
  {
    ReviewStep(Clean(ws, k), ws[k], key);
  }

  /** A review exists iff some event reviewed a document that was there. */
  lemma {:induction false} ReviewExistsIff(ws: seq<Write>, h: nat, key: ReviewKey)
    requires h <= |ws|
    ensures HasReview(ws, h, key) <==> exists q :: 0 <= q < h && AskedForReview(ws, q, key)
  {
    if h > 0 {
      ReviewExistsIff(ws, h - 1, key);
      ReviewNext(ws, h - 1, key);
    }
  }

  // --- Decisions. ---

  ghost predicate AskedForDecision(ws: seq<Write>, q: nat, key: DecisionKey)
  {
    && q < |ws| && ws[q].kind == InsertDecision && ws[q].event.payload.ICDecisionCreated?
    && key == DecisionKey(ws[q].event.payload.pool, ws[q].event.payload.index) && key.pool in Clean(ws, q).db.pools
  }

  ghost predicate FirstForDecision(ws: seq<Write>, q: nat, key: DecisionKey)
  {
    AskedForDecision(ws, q, key) && forall i :: 0 <= i < q ==> !AskedForDecision(ws, i, key)
  }

  ghost predicate HasDecision(ws: seq<Write>, h: nat, key: DecisionKey)
  {
    h <= |ws| && key in Clean(ws, h).db.decisions
  }

  lemma DecisionStep(s: Store, w: Write, key: DecisionKey)
    ensures key in Apply(s, w).db.decisions <==>
      || key in s.db.decisions
      || (w.kind == InsertDecision && w.event.payload.ICDecisionCreated?
          && key == DecisionKey(w.event.payload.pool, w.event.payload.index) && key.pool in s.db.pools)
    ensures key in s.db.decisions ==> Apply(s, w).db.decisions[key] == s.db.decisions[key]
    ensures key in Apply(s, w).db.decisions && key !in s.db.decisions ==>
      Apply(s, w).db.decisions[key] == DecisionRow(w.event.payload.decisionType, w.event.payload.createdBy)
  {
  }

  lemma DecisionNext(ws: seq<Write>, k: nat, key: DecisionKey)
    requires k < |ws|
    ensures HasDecision(ws, k + 1, key) <==> HasDecision(ws, k, key) || AskedForDecision(ws, k, key)
  {
    DecisionStep(Clean(ws, k), ws[k], key);
  }

  /** A decision exists iff an event created it that found its pool. */
  lemma {:induction false} DecisionExistsIff(ws: seq<Write>, h: nat, key: DecisionKey)
    requires h <= |ws|
    ensures HasDecision(ws, h, key) <==> exists q :: 0 <= q < h && AskedForDecision(ws, q, key)
  {
    if h > 0 {
      DecisionExistsIff(ws, h - 1, key);
      DecisionNext(ws, h - 1, key);
    }
  }

  ghost predicate DecisionIs(ws: seq<Write>, h: nat, key: DecisionKey, row: DecisionRow)
  {
    HasDecision(ws, h, key) && Clean(ws, h).db.decisions[key] == row
  }

  /** Its row is that of the first such event. */
  lemma {:induction false} DecisionRowIs(ws: seq<Write>, h: nat, key: DecisionKey, q: nat)
    requires q < h <= |ws| && FirstForDecision(ws, q, key)
    ensures DecisionIs(ws, h, key, DecisionRow(ws[q].event.payload.decisionType, ws[q].event.payload.createdBy))
  {
    DecisionStep(Clean(ws, h - 1), ws[h - 1], key);
    if q == h - 1 { DecisionExistsIff(ws, q, key); } else { DecisionRowIs(ws, h - 1, key, q); }
  }
}
