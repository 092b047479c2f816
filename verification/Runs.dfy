// Crash and replay at the granularity of single repository writes. A run is the list of positions,
// in the flattened log of writes, that were executed: each follows its predecessor, or goes back to
// the first write of some event. Whatever the run, it ends where the clean pass ends, except that a
// document row whose insertion was cut off at once has no first version row, and that versionCount
// also counts the repetitions.

module Runs {
  import opened Tables
  import opened Events
  import opened Cells
  import opened Replay
  import opened Contents

  // --- Runs with crashes and restarts. ---

  /** `high` writes have been executed at least once; `prev` is the last one, or -1. */
  datatype Run = Run(store: Store, prev: int, high: nat, torn: set<nat>, again: multiset<Id>)

  const START := Run(Store(EMPTY, false), -1, 0, {}, multiset{})

  predicate FirstOfHandler(w: Write)
  {
    Handler(w.event) != [] && Handler(w.event)[0] == w.kind
  }

  ghost predicate CanStep(ws: seq<Write>, r: Run, pos: nat)
  {
    && pos < |ws| && pos <= r.prev + 1
    && (pos == r.prev + 1 || FirstOfHandler(ws[pos]))
    && !Throws(r.store.db, ws[pos])
  }

  /** The run was cut off right after it first inserted the document row at prev. */
  predicate Interrupted(ws: seq<Write>, prev: int, high: nat, pos: nat)
    requires prev < |ws|
  {
    prev >= 0 && pos != prev + 1 && prev + 1 == high && ws[prev].kind == InsertDocument
  }

  /** The documents whose insertion was cut off, by position. */
  function TornAfter(ws: seq<Write>, prev: int, high: nat, torn: set<nat>, pos: nat): (torn': set<nat>)
    requires prev < |ws|
  {
    if Interrupted(ws, prev, high, pos) then torn + {prev as nat} else torn
  }

  /** A repeated version increment of an existing document. */
  function Repeated(documents: map<Id, DocumentRow>, high: nat, w: Write, pos: nat): (docs: multiset<Id>)
  {
    if pos < high && w.kind == UpdateVersionInfo && w.event.payload.DocumentVersionAdded?
       && w.event.payload.doc in documents
    then multiset{w.event.payload.doc} else multiset{}
  }

  ghost function Step(ws: seq<Write>, r: Run, pos: nat): (r': Run)
    requires r.prev < |ws| && pos < |ws|
  {
    Run(Apply(r.store, ws[pos]), pos, if pos < r.high then r.high else pos + 1,
        TornAfter(ws, r.prev, r.high, r.torn, pos),
        r.again + Repeated(r.store.db.documents, r.high, ws[pos], pos))
  }

  // --- The invariant of every run. ---

  /** The insert at q made a new document row in the clean pass. */
  ghost predicate NewDocumentAt(ws: seq<Write>, q: nat)
    requires q < |ws|
  {
    && ws[q].kind == InsertDocument && ws[q].event.payload.DocumentCreated?
    && ParentsFound(Clean(ws, q).db, ws[q].event.payload)
    && ws[q].event.payload.doc !in Clean(ws, q).db.documents
  }

  /** The first version rows of the documents whose insertion was cut off. */
  ghost function Lost(ws: seq<Write>, torn: set<nat>): (keys: set<VersionKey>)
  {
    set q | q in torn && q < |ws| && NewDocumentAt(ws, q) ::
      VersionKey(ws[q].event.payload.doc, ws[q].event.payload.version)
  }

  ghost predicate Positions(ws: seq<Write>, prev: int, high: nat, torn: set<nat>)
  {
    && -1 <= prev < high + 0 <= |ws|
    && (forall q :: q in torn ==> q < high && ws[q].kind == InsertDocument)
    && (high > 0 && prev != high - 1 && ws[high - 1].kind == InsertDocument ==> high - 1 in torn)
  }

  /** After a document insert, the local flag says whether this was its first, uninterrupted execution. */
  ghost predicate FlagMatches(ws: seq<Write>, s: Store, prev: int, high: nat, torn: set<nat>)
    requires prev < |ws|
  {
    prev >= 0 && ws[prev].kind == InsertDocument && ParentsFound(s.db, ws[prev].event.payload) ==>
      s.docIsNew == (prev + 1 == high && prev as nat !in torn && NewDocumentAt(ws, prev))
  }

  ghost predicate CountsMatch(d: map<Id, DocumentRow>, f: map<Id, DocumentRow>, again: multiset<Id>)
  {
    && (forall k :: k in again ==> k in d)
    && (forall k :: k in d && k in f ==> d[k].versionCount == f[k].versionCount + again[k])
  }

  ghost predicate Inv(ws: seq<Write>, r: Run)
  {
    && Positions(ws, r.prev, r.high, r.torn) && Accepted(ws, r.high)
    && Agree(r.store.db, Clean(ws, r.high).db, ws, r.prev + 1, r.high)
    && r.store.db.versions == Clean(ws, r.high).db.versions - Lost(ws, r.torn)
    && FlagMatches(ws, r.store, r.prev, r.high, r.torn)
    && CountsMatch(r.store.db.documents, Clean(ws, r.high).db.documents, r.again)
  }

  lemma AgreeFromEarlier(d: Db, f: Db, ws: seq<Write>, p: nat, p': nat, h: nat)
    requires p' <= p && h <= |ws| && Agree(d, f, ws, p, h)
    ensures Agree(d, f, ws, p', h)
  {
    forall c | At(d, c) != At(f, c) ensures Overwritten(ws, p', h, c)
    {
      assert Overwritten(ws, p, h, c);
    }
  }

  // --- The version rows. ---

  /** A version row not yet inserted in the clean pass is not there. */
  lemma NoRowAhead(ws: seq<Write>, h: nat, p: nat, key: VersionKey)
    requires h <= p < |ws| && DistinctVersions(ws) && key in VersionKeys(ws[p])
    ensures key !in Clean(ws, h).db.versions
  {
    if key in Clean(ws, h).db.versions { VersionRowsCome(ws, h, key); }
  }

  /** A lost row belongs to the first-version insert right after a torn document insert. */
  lemma LostKeyAt(ws: seq<Write>, torn: set<nat>, p: nat, key: VersionKey)
    requires WellFormed(ws) && p < |ws| && key in VersionKeys(ws[p]) && key in Lost(ws, torn)
    ensures p > 0 && p - 1 in torn && NewDocumentAt(ws, p - 1) && ws[p].kind == InsertFirstVersion
  {
    var q :| q in torn && q < |ws| && NewDocumentAt(ws, q)
             && key == VersionKey(ws[q].event.payload.doc, ws[q].event.payload.version);
    FirstVersionKey(ws, q);
    assert key in VersionKeys(ws[q + 1]);
  }

  lemma FirstVersionKey(ws: seq<Write>, q: nat)
    requires Laid(ws) && q < |ws| && ws[q].kind == InsertDocument
    ensures ws[q].event.payload.DocumentCreated? && q + 1 < |ws| && ws[q + 1] == Write(InsertFirstVersion, ws[q].event)
    ensures VersionKeys(ws[q + 1]) == {VersionKey(ws[q].event.payload.doc, ws[q].event.payload.version)}
  {
    assert Fits(ws[q]);
  }

  // --- What one write does to the version rows, the flag and the documents. ---

  lemma ApplyVersions(s: Store, w: Write)
    ensures Apply(s, w).db.versions
         == if ParentsFound(s.db, w.event.payload) && !Throws(s.db, w) then VersionsAfter(s, w) else s.db.versions
  {
  }

  lemma ApplyFlag(s: Store, w: Write)
    requires w.kind == InsertDocument && w.event.payload.DocumentCreated?
    ensures ParentsFound(Apply(s, w).db, w.event.payload) <==> ParentsFound(s.db, w.event.payload)
    ensures ParentsFound(s.db, w.event.payload) ==> Apply(s, w).docIsNew == (w.event.payload.doc !in s.db.documents)
  {
  }

  // --- Executing a position again. ---

  lemma ReplayedParents(ws: seq<Write>, d: Db, pos: nat, high: nat)
    requires WellFormed(ws) && pos < high <= |ws| && SameCore(d, Clean(ws, high).db)
    ensures ParentsFound(d, ws[pos].event.payload) <==> ParentsFound(Clean(ws, pos).db, ws[pos].event.payload)
  {
    ParentsAreStable(ws, pos, high);
    SameCoreLookups(d, Clean(ws, high).db, ws[pos].event.payload);
  }

  lemma ReplayedPresent(ws: seq<Write>, d: Db, pos: nat, high: nat)
    requires WellFormed(ws) && pos < high <= |ws| && Accepted(ws, high) && SameCore(d, Clean(ws, high).db)
    requires ParentsFound(d, ws[pos].event.payload)
    ensures Present(d, ws[pos])
  {
    ReplayedParents(ws, d, pos, high);
    RowStays(ws, pos, high);
    SameCorePresent(d, Clean(ws, high).db, ws[pos]);
  }

  lemma ReplayPositions(ws: seq<Write>, prev: int, high: nat, torn: set<nat>, pos: nat)
    requires Positions(ws, prev, high, torn) && pos <= prev + 1 && pos < high
    ensures Positions(ws, pos, high, TornAfter(ws, prev, high, torn, pos))
    ensures pos + 1 == high && ws[pos].kind == InsertDocument ==> pos in TornAfter(ws, prev, high, torn, pos)
  {
  }

  lemma ReplayFlag(ws: seq<Write>, s: Store, prev: int, high: nat, torn: set<nat>, pos: nat)
    requires WellFormed(ws) && Positions(ws, prev, high, torn) && pos <= prev + 1 && pos < high
    requires Accepted(ws, high) && SameCore(s.db, Clean(ws, high).db)
    ensures FlagMatches(ws, Apply(s, ws[pos]), pos, high, TornAfter(ws, prev, high, torn, pos))
  {
    if ws[pos].kind == InsertDocument { RepeatedInsertFlag(ws, s, high, pos); }
    ReplayPositions(ws, prev, high, torn, pos);
  }

  lemma RepeatedInsertFlag(ws: seq<Write>, s: Store, high: nat, pos: nat)
    requires WellFormed(ws) && pos < high <= |ws| && ws[pos].kind == InsertDocument
    requires Accepted(ws, high) && SameCore(s.db, Clean(ws, high).db)
    ensures ParentsFound(Apply(s, ws[pos]).db, ws[pos].event.payload) ==> !Apply(s, ws[pos]).docIsNew
  {
    ApplyFlag(s, ws[pos]);
    if ParentsFound(s.db, ws[pos].event.payload) { ReplayedPresent(ws, s.db, pos, high); }
  }

  lemma InsertedVersion(s: Store, w: Write)
    requires w.kind == InsertVersion && ParentsFound(s.db, w.event.payload)
    ensures VersionKeys(w) <= Apply(s, w).db.versions.Keys
  {
  }

  lemma CleanHasVersion(ws: seq<Write>, pos: nat, high: nat)
    requires pos < high <= |ws| && ws[pos].kind == InsertVersion
    requires ParentsFound(Clean(ws, pos).db, ws[pos].event.payload)
    ensures VersionKeys(ws[pos]) <= Clean(ws, high).db.versions.Keys
  {
    InsertedVersion(Clean(ws, pos), ws[pos]);
    CleanGrows(ws, pos + 1, high);
  }

  lemma KeptVersion(ws: seq<Write>, d: Db, torn: set<nat>, pos: nat, high: nat)
    requires WellFormed(ws) && pos < high <= |ws| && Accepted(ws, high) && ws[pos].kind == InsertVersion
    requires d.versions == Clean(ws, high).db.versions - Lost(ws, torn)
    requires ParentsFound(Clean(ws, pos).db, ws[pos].event.payload)
    ensures VersionKeys(ws[pos]) <= d.versions.Keys
  {
    CleanHasVersion(ws, pos, high);
    forall key | key in VersionKeys(ws[pos]) ensures key in d.versions
    {
      if key in Lost(ws, torn) { LostKeyAt(ws, torn, pos, key); }
    }
  }

  /** A repeated write inserts no version row. */
  lemma ReplayInsertsNoVersion(ws: seq<Write>, r: Run, pos: nat)
    requires WellFormed(ws) && Inv(ws, r) && CanStep(ws, r, pos) && pos < r.high
    ensures Apply(r.store, ws[pos]).db.versions == r.store.db.versions
  {
    var w := ws[pos];
    ApplyVersions(r.store, w);
    ReplayedParents(ws, r.store.db, pos, r.high);
    if ParentsFound(r.store.db, w.event.payload) {
      if w.kind == InsertFirstVersion {
        assert ws[r.prev] == Write(InsertDocument, w.event);
      } else if w.kind == InsertVersion {
        KeptVersion(ws, r.store.db, r.torn, pos, r.high);
      }
    }
  }

  lemma LostGrows(ws: seq<Write>, torn: set<nat>, q: nat, key: VersionKey)
    requires q < |ws| && ws[q].event.payload.DocumentCreated?
    requires key == VersionKey(ws[q].event.payload.doc, ws[q].event.payload.version)
    ensures Lost(ws, torn) <= Lost(ws, torn + {q}) <= Lost(ws, torn) + {key}
  {
  }

  lemma TornKeepsVersions(ws: seq<Write>, prev: int, high: nat, torn: set<nat>, pos: nat)
    requires WellFormed(ws) && Positions(ws, prev, high, torn)
    ensures Clean(ws, high).db.versions - Lost(ws, torn)
         == Clean(ws, high).db.versions - Lost(ws, TornAfter(ws, prev, high, torn, pos))
  {
    if Interrupted(ws, prev, high, pos) {
      FirstVersionKey(ws, prev);
      var key := VersionKey(ws[prev].event.payload.doc, ws[prev].event.payload.version);
      NoRowAhead(ws, high, prev + 1, key);
      LostGrows(ws, torn, prev, key);
    }
  }

  lemma ReplayCounts(ws: seq<Write>, s: Store, again: multiset<Id>, pos: nat, high: nat)
    requires WellFormed(ws) && pos < high <= |ws| && Accepted(ws, high) && SameCore(s.db, Clean(ws, high).db)
    requires CountsMatch(s.db.documents, Clean(ws, high).db.documents, again)
    ensures CountsMatch(Apply(s, ws[pos]).db.documents, Clean(ws, high).db.documents,
                        again + Repeated(s.db.documents, high, ws[pos], pos))
  {
    if ParentsFound(s.db, ws[pos].event.payload) { ReplayedPresent(ws, s.db, pos, high); }
    CountStep(s, ws[pos]);
  }

  function Increment(w: Write, doc: Id): (n: nat)
  {
    if w.kind == UpdateVersionInfo && w.event.payload.DocumentVersionAdded? && w.event.payload.doc == doc then 1 else 0
  }

  /** One write leaves the version counts alone, or adds one for an existing document. */
  lemma CountStep(s: Store, w: Write)
    requires ParentsFound(s.db, w.event.payload) ==> Present(s.db, w)
    ensures var d, d' := s.db.documents, Apply(s, w).db.documents;
      && d'.Keys == d.Keys
      && forall k :: k in d ==> d'[k].versionCount == d[k].versionCount + Increment(w, k)
  {
  }

  lemma InvAfterReplay(ws: seq<Write>, r: Run, pos: nat)
    requires WellFormed(ws) && Inv(ws, r) && CanStep(ws, r, pos) && pos < r.high
    ensures Inv(ws, Step(ws, r, pos))
  {
    ReplayPositions(ws, r.prev, r.high, r.torn, pos);
    AgreeFromEarlier(r.store.db, Clean(ws, r.high).db, ws, r.prev + 1, pos, r.high);
    ReplayStep(ws, r.store, pos, r.high);
    ReplayInsertsNoVersion(ws, r, pos);
    TornKeepsVersions(ws, r.prev, r.high, r.torn, pos);
    ReplayFlag(ws, r.store, r.prev, r.high, r.torn, pos);
    ReplayCounts(ws, r.store, r.again, pos, r.high);
  }

  // --- Executing the next position for the first time. ---

  lemma NewPositions(ws: seq<Write>, prev: int, high: nat, torn: set<nat>)
    requires Positions(ws, prev, high, torn) && prev + 1 == high < |ws|
    ensures TornAfter(ws, prev, high, torn, high) == torn
    ensures Positions(ws, high, high + 1, torn)
  {
  }

  lemma NewFlag(ws: seq<Write>, s: Store, high: nat, torn: set<nat>)
    requires WellFormed(ws) && high < |ws| && Same(s.db, Clean(ws, high).db)
    requires forall q :: q in torn ==> q < high
    ensures FlagMatches(ws, Apply(s, ws[high]), high, high + 1, torn)
  {
    var w := ws[high];
    if w.kind == InsertDocument {
      FirstVersionKey(ws, high);
      ApplyFlag(s, w);
      SameLookups(s.db, Clean(ws, high).db, w);
    }
  }

  /** The flag of the clean pass, right after a document insert. */
  lemma CleanFlag(ws: seq<Write>, q: nat)
    requires WellFormed(ws) && q < |ws| && ws[q].kind == InsertDocument
    ensures ParentsFound(Clean(ws, q + 1).db, ws[q].event.payload) ==> Clean(ws, q + 1).docIsNew == NewDocumentAt(ws, q)
  {
    FirstVersionKey(ws, q);
    ApplyFlag(Clean(ws, q), ws[q]);
  }

  lemma AddRow<K, V>(d: map<K, V>, f: map<K, V>, lost: set<K>, key: K, row: V)
    requires d == f - lost && key !in f
    ensures key !in lost ==> AddIfAbsent(d, key, row) == AddIfAbsent(f, key, row) - lost
    ensures key in lost ==> d == AddIfAbsent(f, key, row) - lost
  {
  }

  /** What the flag says when the first-version insert runs for the first time. */
  lemma FlagAtFirstVersion(ws: seq<Write>, r: Run)
    requires WellFormed(ws) && Inv(ws, r) && r.prev + 1 == r.high < |ws| && Same(r.store.db, Clean(ws, r.high).db)
    requires ws[r.high].kind == InsertFirstVersion && ParentsFound(r.store.db, ws[r.high].event.payload)
    ensures r.prev >= 0 && ws[r.prev] == Write(InsertDocument, ws[r.high].event)
    ensures Clean(ws, r.high).docIsNew == NewDocumentAt(ws, r.prev)
    ensures r.store.docIsNew == (NewDocumentAt(ws, r.prev) && r.prev as nat !in r.torn)
  {
    assert ws[r.prev] == Write(InsertDocument, ws[r.high].event);
    CleanFlag(ws, r.prev);
    SameLookups(r.store.db, Clean(ws, r.high).db, ws[r.high]);
  }

  lemma LostAtFirstVersion(ws: seq<Write>, torn: set<nat>, q: nat)
    requires WellFormed(ws) && q + 1 < |ws| && ws[q].kind == InsertDocument
    ensures ws[q].event.payload.DocumentCreated?
    ensures VersionKey(ws[q].event.payload.doc, ws[q].event.payload.version) in Lost(ws, torn)
      <==> q in torn && NewDocumentAt(ws, q)
  {
    FirstVersionKey(ws, q);
    var key := VersionKey(ws[q].event.payload.doc, ws[q].event.payload.version);
    if key in Lost(ws, torn) { LostKeyAt(ws, torn, q + 1, key); }
    if q in torn && NewDocumentAt(ws, q) { LostMember(ws, torn, q); }
  }

  lemma NewFirstVersion(ws: seq<Write>, r: Run)
    requires WellFormed(ws) && Inv(ws, r) && r.prev + 1 == r.high < |ws| && Same(r.store.db, Clean(ws, r.high).db)
    requires ws[r.high].kind == InsertFirstVersion
    ensures Apply(r.store, ws[r.high]).db.versions == Clean(ws, r.high + 1).db.versions - Lost(ws, r.torn)
  {
    var w, f := ws[r.high], Clean(ws, r.high);
    ApplyVersions(r.store, w);
    ApplyVersions(f, w);
    SameLookups(r.store.db, f.db, w);
    if ParentsFound(r.store.db, w.event.payload) {
      FlagAtFirstVersion(ws, r);
      LostAtFirstVersion(ws, r.torn, r.prev);
      var p := w.event.payload;
      var key := VersionKey(p.doc, p.version);
      NoRowAhead(ws, r.high, r.high, key);
      AddRow(r.store.db.versions, f.db.versions, Lost(ws, r.torn), key, VersionRow(p.blob, p.hash, p.uploader));
    }
  }

  lemma LostMember(ws: seq<Write>, torn: set<nat>, q: nat)
    requires q in torn && q < |ws| && NewDocumentAt(ws, q)
    ensures VersionKey(ws[q].event.payload.doc, ws[q].event.payload.version) in Lost(ws, torn)
  {
  }

  lemma NewVersion(ws: seq<Write>, r: Run)
    requires WellFormed(ws) && Inv(ws, r) && r.high < |ws| && Same(r.store.db, Clean(ws, r.high).db)
    requires ws[r.high].kind != InsertFirstVersion
    ensures Apply(r.store, ws[r.high]).db.versions == Clean(ws, r.high + 1).db.versions - Lost(ws, r.torn)
  {
    var w, f := ws[r.high], Clean(ws, r.high);
    ApplyVersions(r.store, w);
    ApplyVersions(f, w);
    SameLookups(r.store.db, f.db, w);
    if w.kind == InsertVersion {
      assert Fits(w);
      var p := w.event.payload;
      var key := VersionKey(p.doc, p.version);
      NoRowAhead(ws, r.high, r.high, key);
      if key in Lost(ws, r.torn) { LostKeyAt(ws, r.torn, r.high, key); }
      AddRow(r.store.db.versions, f.db.versions, Lost(ws, r.torn), key, VersionRow(p.blob, p.hash, p.uploader));
    }
  }

  lemma ApplyDocuments(s: Store, w: Write)
    ensures Apply(s, w).db.documents
         == if ParentsFound(s.db, w.event.payload) && !Throws(s.db, w) then DocumentsAfter(s.db, w) else s.db.documents
  {
  }

  lemma DocumentCounts(d: Db, f: Db, w: Write, again: multiset<Id>)
    requires Same(d, f) && CountsMatch(d.documents, f.documents, again)
    ensures CountsMatch(DocumentsAfter(d, w), DocumentsAfter(f, w), again)
  {
  }

  lemma NewCounts(s: Store, t: Store, w: Write, again: multiset<Id>)
    requires Same(s.db, t.db) && CountsMatch(s.db.documents, t.db.documents, again)
    ensures CountsMatch(Apply(s, w).db.documents, Apply(t, w).db.documents, again)
  {
    SameLookups(s.db, t.db, w);
    DocumentCounts(s.db, t.db, w, again);
    ApplyDocuments(s, w);
    ApplyDocuments(t, w);
  }

  lemma InvAfterNew(ws: seq<Write>, r: Run)
    requires WellFormed(ws) && Inv(ws, r) && CanStep(ws, r, r.high) && r.prev + 1 == r.high
    ensures Inv(ws, Step(ws, r, r.high))
  {
    var w, f := ws[r.high], Clean(ws, r.high);
    NewPositions(ws, r.prev, r.high, r.torn);
    AgreeIsSame(r.store.db, f.db, ws, r.high);
    SameLookups(r.store.db, f.db, w);
    ApplySame(r.store, f, w);
    AgreeIsSame(Apply(r.store, w).db, Clean(ws, r.high + 1).db, ws, r.high + 1);
    NewFlag(ws, r.store, r.high, r.torn);
    NewCounts(r.store, f, w, r.again);
    if w.kind == InsertFirstVersion { NewFirstVersion(ws, r); } else { NewVersion(ws, r); }
  }

  // --- Every run. ---

  /** The positions executed, the last one outermost. */
  datatype Trace = Begin | Then(before: Trace, pos: nat)

  ghost predicate ValidTrace(ws: seq<Write>, trace: Trace)
  {
    trace.Begin? ||
    (ValidTrace(ws, trace.before) && After(ws, trace.before).prev < |ws|
     && CanStep(ws, After(ws, trace.before), trace.pos))
  }

  ghost function After(ws: seq<Write>, trace: Trace): (r: Run)
  {
    if trace.Begin? then START
    else
      var r := After(ws, trace.before);
      if r.prev < |ws| && trace.pos < |ws| then Step(ws, r, trace.pos) else r
  }

  lemma {:induction false} EveryRunKeepsInv(ws: seq<Write>, trace: Trace)
    requires WellFormed(ws) && ValidTrace(ws, trace)
    ensures Inv(ws, After(ws, trace))
  {
    if trace.Begin? {
      StartInv(ws);
    } else {
      EveryRunKeepsInv(ws, trace.before);
      InvAfter(ws, After(ws, trace.before), trace.pos);
    }
  }

  lemma InvAfter(ws: seq<Write>, r: Run, pos: nat)
    requires WellFormed(ws) && Inv(ws, r) && CanStep(ws, r, pos)
    ensures Inv(ws, Step(ws, r, pos))
  {
    if pos < r.high { InvAfterReplay(ws, r, pos); } else { InvAfterNew(ws, r); }
  }

  lemma StartInv(ws: seq<Write>)
    ensures Inv(ws, START)
  {
    assert Lost(ws, {}) == {};
  }

  /** Some sequence of crashes and restarts leads to r. */
  ghost predicate Reached(ws: seq<Write>, r: Run)
  {
    exists trace :: ValidTrace(ws, trace) && After(ws, trace) == r
  }

  lemma ReachedStart(ws: seq<Write>)
    ensures Reached(ws, START)
  {
    assert ValidTrace(ws, Begin) && After(ws, Begin) == START;
  }

  lemma ReachedStep(ws: seq<Write>, r: Run, pos: nat)
    requires Reached(ws, r) && r.prev < |ws| && CanStep(ws, r, pos)
    ensures Reached(ws, Step(ws, r, pos))
  {
    var trace :| ValidTrace(ws, trace) && After(ws, trace) == r;
    assert ValidTrace(ws, Then(trace, pos)) && After(ws, Then(trace, pos)) == Step(ws, r, pos);
  }

  lemma ReachedInv(ws: seq<Write>, r: Run)
    requires WellFormed(ws) && Reached(ws, r)
    ensures Inv(ws, r)
  {
    var trace :| ValidTrace(ws, trace) && After(ws, trace) == r;
    EveryRunKeepsInv(ws, trace);
  }

  /** Whenever a run has caught up, its database is the clean pass, apart from lost rows and counts. */
  lemma Absorption(ws: seq<Write>, r: Run)
    requires WellFormed(ws) && Reached(ws, r) && r.prev + 1 == r.high
    ensures r.high <= |ws| && Same(r.store.db, Clean(ws, r.high).db)
    ensures r.store.db.versions == Clean(ws, r.high).db.versions - Lost(ws, r.torn)
    ensures forall k :: k in r.store.db.documents ==>
      r.store.db.documents[k].versionCount == Clean(ws, r.high).db.documents[k].versionCount + r.again[k]
  {
    ReachedInv(ws, r);
    AgreeIsSame(r.store.db, Clean(ws, r.high).db, ws, r.high);
  }

  /** At the end of the log, the version rows are those of the clean pass iff no new document was cut off. */
  lemma VersionsExactly(ws: seq<Write>, r: Run)
    requires WellFormed(ws) && Reached(ws, r) && r.prev + 1 == r.high == |ws|
    ensures r.store.db.versions == Clean(ws, |ws|).db.versions
      <==> forall q :: q in r.torn ==> q < |ws| && !NewDocumentAt(ws, q)
  {
    Absorption(ws, r);
    TornAreWrites(ws, r);
    if q :| q in r.torn && NewDocumentAt(ws, q) {
      LostMember(ws, r.torn, q);
      FirstVersionStays(ws, q);
    } else {
      NothingLost(ws, r.torn);
    }
  }

  lemma NothingLost(ws: seq<Write>, torn: set<nat>)
    requires forall q :: q in torn && q < |ws| ==> !NewDocumentAt(ws, q)
    ensures Lost(ws, torn) == {}
  {
  }

  lemma TornAreWrites(ws: seq<Write>, r: Run)
    requires WellFormed(ws) && Reached(ws, r)
    ensures forall q :: q in r.torn ==> q < |ws| && ws[q].kind == InsertDocument
  {
    ReachedInv(ws, r);
  }

  lemma FirstVersionStays(ws: seq<Write>, q: nat)
    requires WellFormed(ws) && q < |ws| && NewDocumentAt(ws, q)
    ensures VersionKey(ws[q].event.payload.doc, ws[q].event.payload.version) in Clean(ws, |ws|).db.versions
  {
    FirstVersionKey(ws, q);
    ApplyFlag(Clean(ws, q), ws[q]);
    ApplyVersions(Clean(ws, q + 1), ws[q + 1]);
    CleanGrows(ws, q + 2, |ws|);
  }

  // --- Which runs there are. ---

  function Larger(a: nat, b: nat): (m: nat)
  {
    if a < b then b else a
  }

  lemma NoThrow(ws: seq<Write>, r: Run, pos: nat)
    requires WellFormed(ws) && Inv(ws, r) && pos <= r.prev + 1 && pos < |ws| && !Throws(Clean(ws, pos).db, ws[pos])
    ensures !Throws(r.store.db, ws[pos])
  {
    CleanGrows(ws, pos, r.high);
  }

  /** A run may go on with one more position. */
  lemma GoOn(ws: seq<Write>, r: Run, pos: nat) returns (r': Run)
    requires WellFormed(ws) && Reached(ws, r) && pos < |ws| && Accepted(ws, pos + 1)
    requires pos == r.prev + 1 || (pos <= r.prev && FirstOfHandler(ws[pos]))
    ensures Reached(ws, r') && r'.prev == pos && r'.high == Larger(r.high, pos + 1)
    ensures r.prev < |ws| && r'.torn == TornAfter(ws, r.prev, r.high, r.torn, pos)
    ensures r'.again == r.again + Repeated(r.store.db.documents, r.high, ws[pos], pos)
  {
    ReachedInv(ws, r);
    NoThrow(ws, r, pos);
    ReachedStep(ws, r, pos);
    r' := Step(ws, r, pos);
  }

  lemma RunIsInside(ws: seq<Write>, r: Run)
    requires WellFormed(ws) && Reached(ws, r)
    ensures -1 <= r.prev < r.high + 0 <= |ws|
  {
    ReachedInv(ws, r);
  }

  /** A run may go on with the positions that follow. */
  lemma {:induction false} GoOnTo(ws: seq<Write>, r: Run, upto: nat) returns (r': Run)
    requires WellFormed(ws) && Reached(ws, r) && 0 <= r.prev + 1 <= upto <= |ws| && Accepted(ws, upto)
    ensures Reached(ws, r') && r'.prev + 1 == upto && r'.high == Larger(r.high, upto)
    ensures r.torn <= r'.torn && r.again <= r'.again
    decreases upto - r.prev
  {
    r' := r;
    RunIsInside(ws, r);
    if r.prev + 1 < upto {
      var pos := r.prev + 1;
      AcceptedEarlier(ws, pos + 1, upto);
      r' := GoOn(ws, r, pos);
      r' := GoOnTo(ws, r', upto);
    }
  }

  /** For every log that creates a document, some run reaches the end without its first version row. */
  lemma CutOffLosesTheRow(ws: seq<Write>, q: nat) returns (r: Run)
    requires WellFormed(ws) && Accepted(ws, |ws|) && q < |ws| && NewDocumentAt(ws, q) && FirstOfHandler(ws[0])
    ensures Reached(ws, r) && r.prev + 1 == r.high == |ws| && r.store.db.versions != Clean(ws, |ws|).db.versions
  {
    ReachedStart(ws);
    AcceptedEarlier(ws, q + 1, |ws|);
    AcceptedEarlier(ws, 1, |ws|);
    r := GoOnTo(ws, START, q + 1);
    r := GoOn(ws, r, 0);
    r := GoOnTo(ws, r, |ws|);
    VersionsExactly(ws, r);
  }

  /** To q once, and a second time just before q. */
  lemma BackBefore(ws: seq<Write>, q: nat) returns (r: Run)
    requires WellFormed(ws) && Accepted(ws, |ws|) && 0 < q < |ws| && FirstOfHandler(ws[0])
    ensures Reached(ws, r) && r.prev + 1 == q && r.high == q + 1
  {
    ReachedStart(ws);
    AcceptedEarlier(ws, q + 1, |ws|);
    AcceptedEarlier(ws, q, |ws|);
    AcceptedEarlier(ws, 1, |ws|);
    r := GoOnTo(ws, START, q + 1);
    r := GoOn(ws, r, 0);
    r := GoOnTo(ws, r, q);
  }

  lemma DocumentIsThere(ws: seq<Write>, r: Run, q: nat, doc: Id)
    requires WellFormed(ws) && Reached(ws, r) && q <= r.high && q <= |ws| && doc in Clean(ws, q).db.documents
    ensures r.high <= |ws| && doc in r.store.db.documents
  {
    ReachedInv(ws, r);
    CleanGrows(ws, q, r.high);
  }

  /** For every version added to a document, some run reaches the end with too large a versionCount. */
  lemma RepetitionInflates(ws: seq<Write>, q: nat) returns (r: Run)
    requires WellFormed(ws) && Accepted(ws, |ws|) && 0 < q < |ws| && FirstOfHandler(ws[0])
    requires ws[q].kind == UpdateVersionInfo && ws[q].event.payload.DocumentVersionAdded?
    requires ws[q].event.payload.doc in Clean(ws, q).db.documents
    ensures Reached(ws, r) && r.prev + 1 == r.high == |ws|
    ensures var doc := ws[q].event.payload.doc;
      && doc in r.store.db.documents && doc in Clean(ws, |ws|).db.documents
      && r.store.db.documents[doc].versionCount > Clean(ws, |ws|).db.documents[doc].versionCount
  {
    var doc := ws[q].event.payload.doc;
    r := BackBefore(ws, q);
    DocumentIsThere(ws, r, q, doc);
    AcceptedEarlier(ws, q + 1, |ws|);
    r := GoOn(ws, r, q);
    r := GoOnTo(ws, r, |ws|);
    InflatedAtTheEnd(ws, r, doc, q);
  }

  lemma InflatedAtTheEnd(ws: seq<Write>, r: Run, doc: Id, q: nat)
    requires WellFormed(ws) && Reached(ws, r) && r.prev + 1 == r.high == |ws|
    requires q <= |ws| && doc in Clean(ws, q).db.documents && doc in r.again
    ensures doc in r.store.db.documents && doc in Clean(ws, |ws|).db.documents
    ensures r.store.db.documents[doc].versionCount > Clean(ws, |ws|).db.documents[doc].versionCount
  {
    DocumentIsThere(ws, r, q, doc);
    CleanGrows(ws, q, |ws|);
    Absorption(ws, r);
  }

  // --- Which writes throw in a run. ---

  /** What the write inserts unconditionally is there. */
  predicate Inserted(db: Db, w: Write)
  {
    && (w.kind == InsertPool && w.event.payload.PoolCreated? ==> w.event.payload.pool in db.pools)
    && (w.kind == InsertDataroom && w.event.payload.DataRoomCreated? ==> w.event.payload.dataroom in db.datarooms)
  }

  lemma InsertedNext(s: Store, w: Write, v: Write)
    requires Inserted(s.db, v) || (v == w && !Throws(s.db, w))
    ensures Inserted(Apply(s, w).db, v)
  {
    ApplyGrows(s, w);
  }

  ghost predicate AllInserted(ws: seq<Write>, r: Run)
  {
    -1 <= r.prev < r.high + 0 <= |ws| && forall q :: 0 <= q < r.high ==> Inserted(r.store.db, ws[q])
  }

  lemma AllInsertedStep(ws: seq<Write>, r: Run, pos: nat)
    requires AllInserted(ws, r) && CanStep(ws, r, pos)
    ensures AllInserted(ws, Step(ws, r, pos))
  {
    forall q | 0 <= q < Step(ws, r, pos).high ensures Inserted(Step(ws, r, pos).store.db, ws[q])
    {
      InsertedNext(r.store, ws[pos], ws[q]);
    }
  }

  /** Whatever the log, a write that was executed at least once has left its pool or dataroom behind. */
  lemma {:induction false} EveryRunInserts(ws: seq<Write>, trace: Trace)
    requires ValidTrace(ws, trace)
    ensures AllInserted(ws, After(ws, trace))
  {
    if trace.Then? {
      EveryRunInserts(ws, trace.before);
      AllInsertedStep(ws, After(ws, trace.before), trace.pos);
    }
  }

  /** A write with its pool or dataroom in front of it never throws, in any run. */
  lemma ReadyDoesNotThrow(ws: seq<Write>, r: Run, pos: nat)
    requires Reached(ws, r) && pos < |ws| && pos <= r.high && Ready(ws, pos)
    ensures !Throws(r.store.db, ws[pos])
  {
    var trace :| ValidTrace(ws, trace) && After(ws, trace) == r;
    EveryRunInserts(ws, trace);
    ProvidedDoesNotThrow(ws, r.store.db, pos, r.high);
  }

  lemma ProvidedDoesNotThrow(ws: seq<Write>, d: Db, pos: nat, high: nat)
    requires pos < |ws| && pos <= high <= |ws| && Ready(ws, pos)
    requires forall q :: 0 <= q < high ==> Inserted(d, ws[q])
    ensures !Throws(d, ws[pos])
  {
    if ws[pos].kind == InsertDataroom && ws[pos].event.payload.DataRoomCreated? {
      var i :| 0 <= i < pos && Provides(ws[i], ws[pos].event.payload);
      assert Inserted(d, ws[i]);
    }
  }

  /** The run has not got past q, and neither the pool nor the dataroom is there. */
  ghost predicate Blocked(r: Run, q: nat, pool: Id, room: Id)
  {
    -1 <= r.prev < r.high + 0 <= q && pool !in r.store.db.pools && room !in r.store.db.datarooms
  }

  lemma BlockedStep(ws: seq<Write>, r: Run, pos: nat, q: nat)
    requires q < |ws| && !Ready(ws, q) && CanStep(ws, r, pos)
    requires Blocked(r, q, ws[q].event.payload.pool, ws[q].event.payload.dataroom)
    ensures Blocked(Step(ws, r, pos), q, ws[q].event.payload.pool, ws[q].event.payload.dataroom)
  {
    var e := ws[q].event.payload;
    assert Throws(r.store.db, ws[q]);
    assert !Provides(ws[pos], e);
    PoolStep(r.store, ws[pos], e.pool);
    RoomStep(r.store, ws[pos], e.dataroom);
  }

  /** A dataroom insert with neither in front of it blocks every run: nothing behind it is ever written. */
  lemma {:induction false} RoomBeforePoolBlocks(ws: seq<Write>, trace: Trace, q: nat)
    requires ValidTrace(ws, trace) && q < |ws| && !Ready(ws, q)
    ensures Blocked(After(ws, trace), q, ws[q].event.payload.pool, ws[q].event.payload.dataroom)
  {
    if trace.Then? {
      RoomBeforePoolBlocks(ws, trace.before, q);
      BlockedStep(ws, After(ws, trace.before), trace.pos, q);
    }
  }

  lemma RoomBeforePoolStops(ws: seq<Write>, r: Run, q: nat)
    requires Reached(ws, r) && q < |ws| && !Ready(ws, q)
    ensures r.prev < q && r.high <= q
  {
    var trace :| ValidTrace(ws, trace) && After(ws, trace) == r;
    RoomBeforePoolBlocks(ws, trace, q);
  }
}
