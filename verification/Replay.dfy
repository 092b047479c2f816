// The clean pass over the flattened log of repository writes, and what executing one of its writes
// a second time does to a database that the clean pass has already gone over.

module Replay {
  import opened Tables
  import opened Events
  import opened Cells

  // --- One clean pass. ---

  ghost function Clean(ws: seq<Write>, k: nat): (s: Store)
    requires k <= |ws|
  {
    if k == 0 then Store(EMPTY, false) else Apply(Clean(ws, k - 1), ws[k - 1])
  }

  /** No write of the clean pass throws. */
  ghost predicate Accepted(ws: seq<Write>, high: nat)
    requires high <= |ws|
  {
    forall k :: 0 <= k < high ==> !Throws(Clean(ws, k).db, ws[k])
  }

  /** An object is created before any event that looks it up. */
  ghost predicate CreatedBeforeUse(ws: seq<Write>)
  {
    forall i, j :: 0 <= i < j < |ws| ==> Creates(ws[j].event.payload) !! LooksUp(ws[i].event.payload)
  }

  /** The version row that a write inserts. */
  function VersionKeys(w: Write): (keys: set<VersionKey>)
  {
    match (w.kind, w.event.payload)
    case (InsertFirstVersion, DocumentCreated(_, doc, _, _, _, version, _, _, _)) => {VersionKey(doc, version)}
    case (InsertVersion, DocumentVersionAdded(doc, version, _, _, _)) => {VersionKey(doc, version)}
    case _ => {}
  }

  ghost predicate DistinctVersions(ws: seq<Write>)
  {
    forall i, j :: 0 <= i < j < |ws| ==> VersionKeys(ws[i]) !! VersionKeys(ws[j])
  }

  /** The write is one that the handler of its event performs. */
  predicate Fits(w: Write)
  {
    match w.kind
    case InsertPool => w.event.payload.PoolCreated?
    case UpdateState => w.event.payload.PoolStateChanged?
    case InsertDataroom => w.event.payload.DataRoomCreated?
    case UpsertMemberRow => w.event.payload.MemberAdded?
    case DeactivateMember => w.event.payload.MemberRemoved?
    case UpdateRole => w.event.payload.MemberRoleUpdated?
    case InsertDocument => w.event.payload.DocumentCreated?
    case InsertFirstVersion => w.event.payload.DocumentCreated?
    case InsertVersion => w.event.payload.DocumentVersionAdded?
    case UpdateVersionInfo => w.event.payload.DocumentVersionAdded?
    case UpsertReview => w.event.payload.DocumentReviewed?
    case InsertDecision => w.event.payload.ICDecisionCreated?
    case InsertAudit => !w.event.payload.Unhandled?
  }

  /** Writes come from handlers, and the two inserts of a new document are neighbours. */
  ghost predicate Laid(ws: seq<Write>)
  {
    && (forall q :: 0 <= q < |ws| ==> Fits(ws[q]))
    && (forall q :: 0 <= q < |ws| && ws[q].kind == InsertDocument ==>
          q + 1 < |ws| && ws[q + 1] == Write(InsertFirstVersion, ws[q].event))
    && (forall q :: 0 <= q < |ws| && ws[q].kind == InsertFirstVersion ==>
          q > 0 && ws[q - 1] == Write(InsertDocument, ws[q].event))
  }

  ghost predicate WellFormed(ws: seq<Write>)
  {
    CreatedBeforeUse(ws) && DistinctVersions(ws) && Laid(ws)
  }

  // --- What a partly replayed database shares with the clean pass. ---

  /** Some write in [p, h) puts a value into the cell during the clean pass. */
  ghost predicate Overwritten(ws: seq<Write>, p: nat, h: nat, c: Cell)
    requires h <= |ws|
  {
    exists q :: p <= q < h && Written(ws[q], c).Some? && ParentsFound(Clean(ws, q).db, ws[q].event.payload)
  }

  /** The databases agree, save on cells that the rest of the replay will overwrite. */
  ghost predicate Agree(d: Db, f: Db, ws: seq<Write>, p: nat, h: nat)
    requires h <= |ws|
  {
    SameCore(d, f) && forall c :: At(d, c) == At(f, c) || Overwritten(ws, p, h, c)
  }

  // --- Facts about the clean pass. ---

  lemma {:induction false} CleanGrows(ws: seq<Write>, p: nat, h: nat)
    requires p <= h <= |ws|
    ensures Grows(Clean(ws, p).db, Clean(ws, h).db)
  {
    if p < h {
      CleanGrows(ws, p, h - 1);
      ApplyGrows(Clean(ws, h - 1), ws[h - 1]);
    }
  }

  /** What an event looks up exists when it is first handled, or never. */
  lemma {:induction false} LookupsAreStable(ws: seq<Write>, p: nat, h: nat, o: Object)
    requires p < h <= |ws| && CreatedBeforeUse(ws) && o in LooksUp(ws[p].event.payload)
    requires o !in Creates(ws[p].event.payload)
    ensures Exists(Clean(ws, p).db, o) <==> Exists(Clean(ws, h).db, o)
  {
    if p + 1 < h { LookupsAreStable(ws, p, h - 1, o); }
    StableNext(ws, h, o);
  }

  lemma StableNext(ws: seq<Write>, h: nat, o: Object)
    requires 0 < h <= |ws| && o !in Creates(ws[h - 1].event.payload)
    ensures Exists(Clean(ws, h - 1).db, o) <==> Exists(Clean(ws, h).db, o)
  {
    ApplyStable(Clean(ws, h - 1), ws[h - 1], o);
  }

  lemma ApplyStable(s: Store, w: Write, o: Object)
    requires o !in Creates(w.event.payload)
    ensures Exists(s.db, o) <==> Exists(Apply(s, w).db, o)
  {
    ApplyGrows(s, w);
    if Exists(s.db, o) {
      GrowsKeepsExists(s.db, Apply(s, w).db, o);
    } else if Exists(Apply(s, w).db, o) {
      ApplyCreates(s, w, o);
    }
  }

  lemma CreatesNotLookedUp(e: Payload)
    ensures Creates(e) !! LooksUp(e)
  {
  }

  lemma ParentsAreStable(ws: seq<Write>, p: nat, h: nat)
    requires p < h <= |ws| && CreatedBeforeUse(ws)
    ensures ParentsFound(Clean(ws, p).db, ws[p].event.payload) <==> ParentsFound(Clean(ws, h).db, ws[p].event.payload)
  {
    var e := ws[p].event.payload;
    CreatesNotLookedUp(e);
    forall o | o in LooksUp(e) ensures Exists(Clean(ws, p).db, o) <==> Exists(Clean(ws, h).db, o)
    {
      LookupsAreStable(ws, p, h, o);
    }
    ParentsAreLookedUp(Clean(ws, p).db, Clean(ws, h).db, e);
  }

  lemma RowComes(ws: seq<Write>, p: nat)
    requires p < |ws| && !Throws(Clean(ws, p).db, ws[p]) && ParentsFound(Clean(ws, p).db, ws[p].event.payload)
    ensures Present(Clean(ws, p + 1).db, ws[p])
  {
    ApplyMakesPresent(Clean(ws, p), ws[p]);
  }

  lemma PresentStays(ws: seq<Write>, p: nat, h: nat, w: Write)
    requires p <= h <= |ws| && Present(Clean(ws, p).db, w)
    ensures Present(Clean(ws, h).db, w)
  {
    CleanGrows(ws, p, h);
    GrowsKeepsPresent(Clean(ws, p).db, Clean(ws, h).db, w);
  }

  /** A write that went through in the clean pass leaves its row behind. */
  lemma RowStays(ws: seq<Write>, p: nat, h: nat)
    requires p < h <= |ws| && !Throws(Clean(ws, p).db, ws[p])
    requires ParentsFound(Clean(ws, p).db, ws[p].event.payload)
    ensures Present(Clean(ws, h).db, ws[p])
  {
    RowComes(ws, p);
    PresentStays(ws, p + 1, h, ws[p]);
  }

  /** An existing cell keeps its value until the next overwriting write. */
  lemma {:induction false} CellStays(ws: seq<Write>, p: nat, h: nat, c: Cell)
    requires p <= h <= |ws| && At(Clean(ws, p).db, c).Some? && !Overwritten(ws, p, h, c)
    ensures At(Clean(ws, h).db, c) == At(Clean(ws, p).db, c)
  {
    if p < h {
      assert !Overwritten(ws, p, h - 1, c);
      CellStays(ws, p, h - 1, c);
      ApplyKeeps(Clean(ws, h - 1), ws[h - 1], c);
    }
  }

  /** The row of the cell may come from a creation event in [p, h). */
  ghost predicate RowCreated(ws: seq<Write>, p: nat, h: nat, c: Cell)
    requires h <= |ws|
  {
    || (c.StateCell? && exists q :: p <= q < h && PoolObject(c.pool) in Creates(ws[q].event.payload))
    || (c.VersionCell? && exists q :: p <= q < h && DocObject(c.doc) in Creates(ws[q].event.payload))
  }

  lemma MissingStep(ws: seq<Write>, h: nat, c: Cell)
    requires 0 < h <= |ws| && At(Clean(ws, h - 1).db, c).None?
    requires !Overwritten(ws, h - 1, h, c) && !RowCreated(ws, h - 1, h, c)
    ensures At(Clean(ws, h).db, c).None?
  {
    if At(Clean(ws, h).db, c).Some? { ApplyAppears(Clean(ws, h - 1), ws[h - 1], c); }
  }

  lemma QuietParts(ws: seq<Write>, p: nat, h: nat, c: Cell)
    requires p < h <= |ws| && !Overwritten(ws, p, h, c) && !RowCreated(ws, p, h, c)
    ensures !Overwritten(ws, p, h - 1, c) && !RowCreated(ws, p, h - 1, c)
    ensures !Overwritten(ws, h - 1, h, c) && !RowCreated(ws, h - 1, h, c)
  {
  }

  /** A cell whose row is missing stays missing, unless it is overwritten or its row created. */
  lemma {:induction false} CellStaysMissing(ws: seq<Write>, p: nat, h: nat, c: Cell)
    requires p <= h <= |ws| && At(Clean(ws, p).db, c).None?
    requires !Overwritten(ws, p, h, c) && !RowCreated(ws, p, h, c)
    ensures At(Clean(ws, h).db, c).None?
  {
    if p < h {
      QuietParts(ws, p, h, c);
      CellStaysMissing(ws, p, h - 1, c);
      MissingStep(ws, h, c);
    }
  }

  lemma NotCreatedAgain(ws: seq<Write>, p: nat, h: nat, c: Cell)
    requires p < h <= |ws| && CreatedBeforeUse(ws) && Written(ws[p], c).Some?
    ensures !RowCreated(ws, p + 1, h, c)
  {
    var e := ws[p].event.payload;
    if c.StateCell? { assert PoolObject(c.pool) in LooksUp(e); }
    if c.VersionCell? { assert DocObject(c.doc) in LooksUp(e); }
  }

  lemma MissingRowStays(ws: seq<Write>, p: nat, h: nat, c: Cell)
    requires p < h <= |ws| && CreatedBeforeUse(ws) && Written(ws[p], c).Some?
    requires At(Clean(ws, p + 1).db, c).None? && !Overwritten(ws, p + 1, h, c)
    ensures At(Clean(ws, h).db, c).None?
  {
    NotCreatedAgain(ws, p, h, c);
    CellStaysMissing(ws, p + 1, h, c);
  }

  /** After p has overwritten the cell, it keeps its value, or its row stays missing, until the next such write. */
  lemma QuietCellStays(ws: seq<Write>, p: nat, h: nat, c: Cell)
    requires p < h <= |ws| && CreatedBeforeUse(ws) && Written(ws[p], c).Some? && !Overwritten(ws, p + 1, h, c)
    ensures At(Clean(ws, h).db, c) == At(Clean(ws, p + 1).db, c)
  {
    if At(Clean(ws, p + 1).db, c).Some? {
      CellStays(ws, p + 1, h, c);
    } else {
      MissingRowStays(ws, p, h, c);
    }
  }

  /** If p is the last write before h that overwrites the cell, the cell holds what p wrote. */
  lemma LastWriteStays(ws: seq<Write>, p: nat, h: nat, c: Cell)
    requires p < h <= |ws| && CreatedBeforeUse(ws) && Written(ws[p], c).Some?
    requires ParentsFound(Clean(ws, p).db, ws[p].event.payload) && !Overwritten(ws, p + 1, h, c)
    ensures At(Clean(ws, h).db, c) == Written(ws[p], c) || At(Clean(ws, h).db, c).None?
  {
    WrittenNext(ws, p, c);
    QuietCellStays(ws, p, h, c);
  }

  /** A replay that is not carried on leaves behind what p wrote, however much later writes had changed it. */
  lemma ReplayMustGoOn(ws: seq<Write>, p: nat, h: nat, c: Cell)
    requires p < h <= |ws| && CreatedBeforeUse(ws) && ParentsFound(Clean(ws, p).db, ws[p].event.payload)
    requires Written(ws[p], c).Some? && At(Clean(ws, h).db, c).Some?
    ensures At(Apply(Clean(ws, h), ws[p]).db, c) == Written(ws[p], c)
  {
    ParentsAreStable(ws, p, h);
    ApplyWrites(Clean(ws, h), ws[p], c);
    RowStaysThere(Clean(ws, h), ws[p], c);
  }

  lemma RowStaysThere(s: Store, w: Write, c: Cell)
    requires At(s.db, c).Some?
    ensures At(Apply(s, w).db, c).Some?
  {
    ApplyGrows(s, w);
  }

  lemma WrittenNext(ws: seq<Write>, p: nat, c: Cell)
    requires p < |ws| && Written(ws[p], c).Some? && ParentsFound(Clean(ws, p).db, ws[p].event.payload)
    ensures At(Clean(ws, p + 1).db, c) == Written(ws[p], c) || At(Clean(ws, p + 1).db, c).None?
  {
    ApplyWrites(Clean(ws, p), ws[p], c);
  }

  // --- Replaying one write. ---

  lemma SameCoreLookups(d: Db, f: Db, e: Payload)
    requires SameCore(d, f)
    ensures ParentsFound(d, e) <==> ParentsFound(f, e)
  {
  }

  lemma SameCorePresent(d: Db, f: Db, w: Write)
    requires SameCore(d, f)
    ensures Present(d, w) <==> Present(f, w)
  {
  }

  lemma SameCoreRows(d: Db, f: Db, c: Cell)
    requires SameCore(d, f)
    ensures At(d, c).Some? <==> At(f, c).Some?
  {
  }

  lemma SameCoreTransitive(d: Db, e: Db, f: Db)
    requires SameCore(d, e) && SameCore(d, f)
    ensures SameCore(e, f)
  {
  }

  /** Executing p again brings the database one write closer to the clean pass. */
  lemma ReplayStep(ws: seq<Write>, s: Store, p: nat, h: nat)
    requires p < h <= |ws| && CreatedBeforeUse(ws) && !Throws(Clean(ws, p).db, ws[p])
    requires Agree(s.db, Clean(ws, h).db, ws, p, h)
    ensures Agree(Apply(s, ws[p]).db, Clean(ws, h).db, ws, p + 1, h)
  {
    var w, f := ws[p], Clean(ws, h).db;
    var found := ParentsFound(Clean(ws, p).db, w.event.payload);
    ParentsAreStable(ws, p, h);
    SameCoreLookups(s.db, f, w.event.payload);
    if found {
      RowStays(ws, p, h);
      SameCorePresent(s.db, f, w);
      PresentKeepsCore(s, w);
      SameCoreTransitive(s.db, Apply(s, w).db, f);
    }
    forall c ensures At(Apply(s, w).db, c) == At(f, c) || Overwritten(ws, p + 1, h, c)
    {
      if !Overwritten(ws, p + 1, h, c) { ReplayCell(ws, s, p, h, c, found); }
    }
  }

  lemma ReplayCell(ws: seq<Write>, s: Store, p: nat, h: nat, c: Cell, found: bool)
    requires p < h <= |ws| && CreatedBeforeUse(ws) && !Overwritten(ws, p + 1, h, c)
    requires Agree(s.db, Clean(ws, h).db, ws, p, h) && SameCore(Apply(s, ws[p]).db, Clean(ws, h).db)
    requires found == ParentsFound(Clean(ws, p).db, ws[p].event.payload) == ParentsFound(s.db, ws[p].event.payload)
    ensures At(Apply(s, ws[p]).db, c) == At(Clean(ws, h).db, c)
  {
    SameCoreRows(Apply(s, ws[p]).db, Clean(ws, h).db, c);
    if found && Written(ws[p], c).Some? {
      LastWriteStays(ws, p, h, c);
      ApplyWrites(s, ws[p], c);
    } else {
      QuietFrom(ws, p, h, c);
      SameCoreRows(s.db, Clean(ws, h).db, c);
      if At(s.db, c).Some? { ApplyKeeps(s, ws[p], c); }
    }
  }

  lemma QuietFrom(ws: seq<Write>, p: nat, h: nat, c: Cell)
    requires p < h <= |ws| && !Overwritten(ws, p + 1, h, c)
    requires Written(ws[p], c).None? || !ParentsFound(Clean(ws, p).db, ws[p].event.payload)
    ensures !Overwritten(ws, p, h, c)
  {
  }

  // --- Executing a write for the first time. ---

  ghost predicate SameDocuments(d: map<Id, DocumentRow>, f: map<Id, DocumentRow>)
  {
    && d.Keys == f.Keys
    && forall k :: k in d ==> d[k].(versionCount := f[k].versionCount) == f[k]
  }

  /** Equal except for versionCount and the version rows. */
  ghost predicate Same(d: Db, f: Db)
  {
    && d.pools == f.pools && d.datarooms == f.datarooms && d.roomOfPool == f.roomOfPool
    && d.members == f.members && d.reviews == f.reviews
    && d.decisions == f.decisions && d.audits == f.audits && SameDocuments(d.documents, f.documents)
  }

  lemma SameCells(d: Db, f: Db)
    requires SameCore(d, f) && forall c :: At(d, c) == At(f, c)
    ensures d.pools == f.pools && d.members == f.members && d.reviews == f.reviews
    ensures SameDocuments(d.documents, f.documents)
  {
    forall k | k in d.pools ensures d.pools[k] == f.pools[k]
    {
      assert At(d, StateCell(k)) == At(f, StateCell(k));
    }
    forall k | k in d.members ensures d.members[k] == f.members[k]
    {
      assert At(d, RoleCell(k)) == At(f, RoleCell(k));
      assert At(d, ActiveCell(k)) == At(f, ActiveCell(k));
      assert At(d, AddedByCell(k)) == At(f, AddedByCell(k));
    }
    forall k | k in d.reviews ensures d.reviews[k] == f.reviews[k]
    {
      assert At(d, StatusCell(k)) == At(f, StatusCell(k));
    }
    forall k | k in d.documents
      ensures d.documents[k].(versionCount := f.documents[k].versionCount) == f.documents[k]
    {
      assert At(d, VersionCell(k)) == At(f, VersionCell(k));
    }
  }

  lemma AgreeIsSame(d: Db, f: Db, ws: seq<Write>, h: nat)
    requires h <= |ws|
    ensures Agree(d, f, ws, h, h) <==> Same(d, f)
  {
    if Agree(d, f, ws, h, h) { SameCells(d, f); }
    if Same(d, f) { SameHasSameCells(d, f); }
  }

  lemma SameHasSameCells(d: Db, f: Db)
    requires Same(d, f)
    ensures SameCore(d, f) && forall c :: At(d, c) == At(f, c)
  {
  }

  lemma SameLookups(d: Db, f: Db, w: Write)
    requires Same(d, f)
    ensures Throws(d, w) == Throws(f, w)
    ensures ParentsFound(d, w.event.payload) == ParentsFound(f, w.event.payload)
    ensures ParentsFound(d, w.event.payload) ==> AuditPool(d, w.event.payload) == AuditPool(f, w.event.payload)
  {
  }

  lemma SameDocumentsAfter(d: Db, f: Db, w: Write)
    requires Same(d, f)
    ensures SameDocuments(DocumentsAfter(d, w), DocumentsAfter(f, w))
  {
  }

  lemma SameTablesAfter(d: Db, f: Db, w: Write)
    requires Same(d, f)
    ensures RoomOfPoolAfter(d, w) == RoomOfPoolAfter(f, w) && MembersAfter(d, w) == MembersAfter(f, w)
    ensures ParentsFound(d, w.event.payload) && ParentsFound(f, w.event.payload) ==>
      AuditsAfter(d, w) == AuditsAfter(f, w)
  {
  }

  lemma ApplySame(s: Store, t: Store, w: Write)
    requires Same(s.db, t.db)
    ensures Same(Apply(s, w).db, Apply(t, w).db)
  {
    SameLookups(s.db, t.db, w);
    SameDocumentsAfter(s.db, t.db, w);
    SameTablesAfter(s.db, t.db, w);
  }

  // --- Where version rows come from. ---

  lemma {:induction false} VersionRowsCome(ws: seq<Write>, h: nat, key: VersionKey)
    requires h <= |ws| && key in Clean(ws, h).db.versions
    ensures exists q :: 0 <= q < h && key in VersionKeys(ws[q])
  {
    if key in Clean(ws, h - 1).db.versions {
      VersionRowsCome(ws, h - 1, key);
    } else {
      ApplyAddsVersion(Clean(ws, h - 1), ws[h - 1], key);
    }
  }

  lemma ApplyAddsVersion(s: Store, w: Write, key: VersionKey)
    requires key !in s.db.versions && key in Apply(s, w).db.versions
    ensures key in VersionKeys(w)
  {
  }
}
