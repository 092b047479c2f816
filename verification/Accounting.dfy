// What the clean pass leaves in the audit table and in versionCount, read off the log alone.

module Accounting {
  import opened Tables
  import opened Events
  import opened Cells
  import opened Replay
  import opened Log

  // --- Version counts. ---

  ghost function RowsOf(db: Db, doc: Id): (keys: set<VersionKey>)
  {
    set key | key in db.versions && key.doc == doc
  }

  ghost predicate Counted(db: Db)
  {
    && (forall key :: key in db.versions ==> key.doc in db.documents)
    && (forall d :: d in db.documents ==> db.documents[d].versionCount == |RowsOf(db, d)|)
  }

  /** One more version row, and one more on the counter of its document. */
  lemma RowCounted(d: Db, f: Db, key: VersionKey)
    requires Counted(d) && key !in d.versions && f.versions.Keys == d.versions.Keys + {key}
    requires f.documents.Keys == d.documents.Keys + {key.doc}
    requires forall k :: k in d.documents && k != key.doc ==> f.documents[k].versionCount == d.documents[k].versionCount
    requires f.documents[key.doc].versionCount
          == if key.doc in d.documents then d.documents[key.doc].versionCount + 1 else 1
    ensures Counted(f)
  {
    forall k | k in f.documents ensures f.documents[k].versionCount == |RowsOf(f, k)|
    {
      RowsAfter(d, f, key, k);
      if k !in d.documents { NoRows(d, k); }
    }
  }

  lemma RowsAfter(d: Db, f: Db, key: VersionKey, doc: Id)
    requires key !in d.versions && f.versions.Keys == d.versions.Keys + {key}
    ensures |RowsOf(f, doc)| == |RowsOf(d, doc)| + if doc == key.doc then 1 else 0
  {
    if doc == key.doc {
      assert RowsOf(f, doc) == RowsOf(d, doc) + {key};
    } else {
      assert RowsOf(f, doc) == RowsOf(d, doc);
    }
  }

  lemma NoRows(d: Db, doc: Id)
    requires Counted(d) && doc !in d.documents
    ensures |RowsOf(d, doc)| == 0
  {
    assert RowsOf(d, doc) == {};
  }

  lemma SameCounted(d: Db, f: Db)
    requires Counted(d) && d.documents == f.documents && d.versions == f.versions
    ensures Counted(f)
  {
    assert forall k :: RowsOf(f, k) == RowsOf(d, k);
  }

  lemma OtherWrite(s: Store, w: Write)
    requires Fits(w) && w.kind !in {InsertDocument, InsertFirstVersion, InsertVersion, UpdateVersionInfo}
    ensures Apply(s, w).db.documents == s.db.documents && Apply(s, w).db.versions == s.db.versions
  {
  }

  /** The two table writes of DocumentVersionAdded. */
  lemma VersionAddedEffect(s: Store, e: Event)
    requires e.payload.DocumentVersionAdded?
    ensures var doc, key := e.payload.doc, VersionKey(e.payload.doc, e.payload.version);
      var f := Apply(Apply(s, Write(InsertVersion, e)), Write(UpdateVersionInfo, e)).db;
      if doc in s.db.documents then
        && f.documents == SetVersion(s.db.documents, doc, e.payload.version)
        && f.versions.Keys == s.db.versions.Keys + {key}
      else f == s.db
  {
  }

  lemma DocumentCreatedEffect(s: Store, e: Event)
    requires e.payload.DocumentCreated?
    ensures var doc, key := e.payload.doc, VersionKey(e.payload.doc, e.payload.version);
      var f := Apply(Apply(s, Write(InsertDocument, e)), Write(InsertFirstVersion, e)).db;
      if ParentsFound(s.db, e.payload) && doc !in s.db.documents then
        && f.documents.Keys == s.db.documents.Keys + {doc} && f.documents[doc].versionCount == 1
        && (forall k :: k in s.db.documents ==> f.documents[k] == s.db.documents[k])
        && f.versions.Keys == s.db.versions.Keys + {key}
      else f.documents == s.db.documents && f.versions == s.db.versions
  {
  }

  lemma ThreeWrites(s: Store, e: Event, k0: Kind, k1: Kind, k2: Kind)
    requires Handler(e) == [k0, k1, k2]
    ensures ApplyAll(s, Writes(e)) == Apply(Apply(Apply(s, Write(k0, e)), Write(k1, e)), Write(k2, e))
  {
    var a, b, c := Write(k0, e), Write(k1, e), Write(k2, e);
    assert Writes(e) == [a, b, c];
    assert [] + [a] == [a] && [a] + [b] == [a, b] && [a, b] + [c] == [a, b, c];
    ApplySnoc(s, [], a);
    ApplySnoc(s, [a], b);
    ApplySnoc(s, [a, b], c);
  }

  lemma AuditCounted(s: Store, e: Event)
    requires Counted(s.db) && !e.payload.Unhandled?
    ensures Counted(Apply(s, Write(InsertAudit, e)).db)
  {
    OtherWrite(s, Write(InsertAudit, e));
    SameCounted(s.db, Apply(s, Write(InsertAudit, e)).db);
  }

  lemma DocumentCounted(s: Store, e: Event)
    requires Counted(s.db) && Announced(e.payload) !! s.db.versions.Keys && e.payload.DocumentCreated?
    ensures Counted(ApplyAll(s, Writes(e)).db)
  {
    var t := Apply(Apply(s, Write(InsertDocument, e)), Write(InsertFirstVersion, e));
    var key := VersionKey(e.payload.doc, e.payload.version);
    assert key in Announced(e.payload);
    DocumentCreatedEffect(s, e);
    ThreeWrites(s, e, InsertDocument, InsertFirstVersion, InsertAudit);
    if t.db.documents == s.db.documents { SameCounted(s.db, t.db); } else { RowCounted(s.db, t.db, key); }
    AuditCounted(t, e);
  }

  lemma VersionCounted(s: Store, e: Event)
    requires Counted(s.db) && Announced(e.payload) !! s.db.versions.Keys && e.payload.DocumentVersionAdded?
    ensures Counted(ApplyAll(s, Writes(e)).db)
  {
    ThreeWrites(s, e, InsertVersion, UpdateVersionInfo, InsertAudit);
    VersionRowCounted(s, e);
    AuditCounted(Apply(Apply(s, Write(InsertVersion, e)), Write(UpdateVersionInfo, e)), e);
  }

  lemma VersionRowCounted(s: Store, e: Event)
    requires Counted(s.db) && Announced(e.payload) !! s.db.versions.Keys && e.payload.DocumentVersionAdded?
    ensures Counted(Apply(Apply(s, Write(InsertVersion, e)), Write(UpdateVersionInfo, e)).db)
  {
    var key := VersionKey(e.payload.doc, e.payload.version);
    assert key in Announced(e.payload);
    VersionAddedEffect(s, e);
    if e.payload.doc in s.db.documents {
      RowCounted(s.db, Apply(Apply(s, Write(InsertVersion, e)), Write(UpdateVersionInfo, e)).db, key);
    }
  }

  /** One event keeps every counter equal to the number of version rows. */
  lemma EventCounted(s: Store, e: Event)
    requires Counted(s.db) && Announced(e.payload) !! s.db.versions.Keys
    ensures Counted(ApplyAll(s, Writes(e)).db)
  {
    if e.payload.DocumentCreated? {
      DocumentCounted(s, e);
    } else if e.payload.DocumentVersionAdded? {
      VersionCounted(s, e);
    } else {
      WritesFit(e);
      OthersCounted(s, Writes(e));
    }
  }

  lemma {:induction false} OthersCounted(s: Store, ws: seq<Write>)
    requires Counted(s.db)
    requires forall w :: w in ws ==>
      Fits(w) && w.kind !in {InsertDocument, InsertFirstVersion, InsertVersion, UpdateVersionInfo}
    ensures Counted(ApplyAll(s, ws).db)
  {
    if ws != [] {
      var n := |ws| - 1;
      OthersCounted(s, ws[..n]);
      OtherWrite(ApplyAll(s, ws[..n]), ws[n]);
      SameCounted(ApplyAll(s, ws[..n]).db, ApplyAll(s, ws).db);
    }
  }

  lemma {:induction false} RowsAnnounced(log: seq<Event>, key: VersionKey)
    requires key in Clean(Flatten(log), |Flatten(log)|).db.versions
    ensures exists k :: 0 <= k < |log| && key in Announced(log[k].payload)
  {
    var ws := Flatten(log);
    VersionRowsCome(ws, |ws|, key);
    var q :| 0 <= q < |ws| && key in VersionKeys(ws[q]);
    var k := FlattenEvents(log, q);
    WritesAnnounce(ws[q]);
  }

  /** After a failure-free pass, versionCount is the number of version rows of the document. */
  lemma {:induction false} VersionCountIsRowCount(log: seq<Event>)
    requires WellFormedLog(log)
    ensures Counted(Clean(Flatten(log), |Flatten(log)|).db)
  {
    if log != [] {
      var n := |log| - 1;
      var us, vs := Flatten(log[..n]), Writes(log[n]);
      VersionCountIsRowCount(log[..n]);
      CleanSplit(us, vs);
      var s := Clean(us, |us|);
      forall key | key in s.db.versions ensures key !in Announced(log[n].payload)
      {
        RowsAnnounced(log[..n], key);
      }
      EventCounted(s, log[n]);
    }
  }

  // --- Audit rows. ---

  function AuditKeyOf(e: Event): (key: AuditKey)
  {
    AuditKey(e.tx, e.eventSeq)
  }

  ghost predicate DistinctIds(log: seq<Event>)
  {
    forall i, j :: 0 <= i < j < |log| ==> AuditKeyOf(log[i]) != AuditKeyOf(log[j])
  }

  lemma ApplyAudits(s: Store, w: Write)
    ensures Apply(s, w).db.audits
         == if w.kind == InsertAudit && ParentsFound(s.db, w.event.payload)
            then AddIfAbsent(s.db.audits, AuditKeyOf(w.event),
                             AuditRowFor(w.event.payload, AuditPool(s.db, w.event.payload)))
            else s.db.audits
  {
  }

  /** Where an audit row comes from. */
  lemma {:induction false} AuditRowsCome(ws: seq<Write>, h: nat, key: AuditKey) returns (q: nat)
    requires h <= |ws| && key in Clean(ws, h).db.audits
    ensures q < h && ws[q].kind == InsertAudit && AuditKeyOf(ws[q].event) == key
    ensures ParentsFound(Clean(ws, q).db, ws[q].event.payload)
    ensures Clean(ws, h).db.audits[key]
         == AuditRowFor(ws[q].event.payload, AuditPool(Clean(ws, q).db, ws[q].event.payload))
  {
    ApplyAudits(Clean(ws, h - 1), ws[h - 1]);
    if key in Clean(ws, h - 1).db.audits { q := AuditRowsCome(ws, h - 1, key); } else { q := h - 1; }
  }

  lemma {:induction false} AuditStays(ws: seq<Write>, p: nat, h: nat, key: AuditKey)
    requires p <= h <= |ws| && key in Clean(ws, p).db.audits
    ensures key in Clean(ws, h).db.audits && Clean(ws, h).db.audits[key] == Clean(ws, p).db.audits[key]
  {
    if p < h {
      AuditStays(ws, p, h - 1, key);
      ApplyAudits(Clean(ws, h - 1), ws[h - 1]);
    }
  }

  lemma AuditPosition(log: seq<Event>, k: nat) returns (q: nat)
    requires k < |log| && !log[k].payload.Unhandled?
    ensures q < Offset(log, k + 1) <= |Flatten(log)| && Flatten(log)[q] == Write(InsertAudit, log[k])
  {
    AuditIsLast(log[k]);
    var last := |Handler(log[k])| - 1;
    Segment(log, k);
    q := Offset(log, k) + last;
    WriteAt(log, k, q);
  }

  lemma AuditPoolStable(ws: seq<Write>, q: nat, h: nat)
    requires q < h <= |ws| && CreatedBeforeUse(ws)
    requires ParentsFound(Clean(ws, q).db, ws[q].event.payload) && ParentsFound(Clean(ws, h).db, ws[q].event.payload)
    ensures AuditPool(Clean(ws, q).db, ws[q].event.payload) == AuditPool(Clean(ws, h).db, ws[q].event.payload)
  {
    var e := ws[q].event.payload;
    CleanGrows(ws, q, h);
    if e.DataRoomCreated? || e.AuditEvent? {
      CreatesNotLookedUp(e);
      LookupsAreStable(ws, q, h, PoolObject(e.pool));
    }
  }

  lemma EventByKey(log: seq<Event>, q: nat, k: nat)
    requires DistinctIds(log) && k < |log| && q < |Flatten(log)|
    requires AuditKeyOf(Flatten(log)[q].event) == AuditKeyOf(log[k])
    ensures Flatten(log)[q].event == log[k]
  {
    var j := FlattenEvents(log, q);
  }

  lemma AuditInserted(ws: seq<Write>, q: nat, h: nat)
    requires q < h <= |ws| && ws[q].kind == InsertAudit && ParentsFound(Clean(ws, q).db, ws[q].event.payload)
    ensures AuditKeyOf(ws[q].event) in Clean(ws, h).db.audits
  {
    ApplyAudits(Clean(ws, q), ws[q]);
    AuditStays(ws, q + 1, h, AuditKeyOf(ws[q].event));
  }

  lemma AuditRowComes(log: seq<Event>, k: nat, h: nat)
    requires WellFormedLog(log) && k < |log| && !log[k].payload.Unhandled?
    requires Offset(log, k + 1) <= h <= |Flatten(log)| && ParentsFound(Clean(Flatten(log), h).db, log[k].payload)
    ensures AuditKeyOf(log[k]) in Clean(Flatten(log), h).db.audits
  {
    var ws := Flatten(log);
    var q := AuditPosition(log, k);
    FlattenWellFormed(log);
    ParentsAreStable(ws, q, h);
    AuditInserted(ws, q, h);
  }

  lemma AuditRowIsRight(log: seq<Event>, k: nat, h: nat)
    requires WellFormedLog(log) && DistinctIds(log) && k < |log| && h <= |Flatten(log)|
    requires AuditKeyOf(log[k]) in Clean(Flatten(log), h).db.audits
    ensures ParentsFound(Clean(Flatten(log), h).db, log[k].payload)
    ensures Clean(Flatten(log), h).db.audits[AuditKeyOf(log[k])]
         == AuditRowFor(log[k].payload, AuditPool(Clean(Flatten(log), h).db, log[k].payload))
  {
    var ws := Flatten(log);
    var q := AuditRowsCome(ws, h, AuditKeyOf(log[k]));
    FlattenWellFormed(log);
    EventByKey(log, q, k);
    ParentsAreStable(ws, q, h);
    AuditPoolStable(ws, q, h);
  }

  /** The event has an audit row iff it finds the rows it needs, and the row says what the event says. */
  ghost predicate AuditedOnce(d: Db, e: Event)
  {
    && (AuditKeyOf(e) in d.audits <==> FindsItsRows(d, e.payload))
    && (AuditKeyOf(e) in d.audits ==>
          var row := d.audits[AuditKeyOf(e)];
          AuditSays(row, e.payload) && AuditPoolSays(d, e.payload, row.pool))
  }

  /** This holds once the clean pass is behind the event. */
  lemma AuditExactlyOnce(log: seq<Event>, k: nat, h: nat)
    requires WellFormedLog(log) && DistinctIds(log) && k < |log| && !log[k].payload.Unhandled?
    requires Offset(log, k + 1) <= h <= |Flatten(log)|
    ensures AuditedOnce(Clean(Flatten(log), h).db, log[k])
  {
    var f := Clean(Flatten(log), h).db;
    FindsItsRowsIff(f, log[k].payload);
    if ParentsFound(f, log[k].payload) { AuditRowComes(log, k, h); }
    if AuditKeyOf(log[k]) in f.audits {
      AuditRowIsRight(log, k, h);
      AuditRowSays(f, log[k].payload);
    }
  }

  /** No other audit rows exist. */
  lemma AuditRowsAreEvents(log: seq<Event>, h: nat, key: AuditKey)
    requires h <= |Flatten(log)| && key in Clean(Flatten(log), h).db.audits
    ensures exists k :: 0 <= k < |log| && AuditKeyOf(log[k]) == key
  {
    var q := AuditRowsCome(Flatten(log), h, key);
    var k := FlattenEvents(log, q);
  }
}
