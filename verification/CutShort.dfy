// A replay that is not carried on: from a database that has caught up, some earlier writes are executed
// again, and then the run goes on where it was before. This is what happens when a save of the cursor
// commits and throws all the same, and the process is killed during the page that it then repeats.

module CutShort {
  import opened Tables
  import opened Events
  import opened Cells
  import opened Replay

  /** The writes from `from` up to `upto` are executed once more. */
  ghost function Again(s: Store, ws: seq<Write>, from: nat, upto: nat): (t: Store)
    requires from <= upto <= |ws|
    decreases upto - from
  {
    if from == upto then s else Apply(Again(s, ws, from, upto - 1), ws[upto - 1])
  }

  /** q is the last of these writes that overwrites the cell. */
  ghost predicate LastIn(ws: seq<Write>, from: nat, upto: nat, c: Cell, q: nat)
    requires upto <= |ws|
  {
    && from <= q < upto && Written(ws[q], c).Some? && ParentsFound(Clean(ws, q).db, ws[q].event.payload)
    && !Overwritten(ws, q + 1, upto, c)
  }

  lemma {:induction false} LastExists(ws: seq<Write>, from: nat, upto: nat, c: Cell) returns (q: nat)
    requires upto <= |ws| && Overwritten(ws, from, upto, c)
    ensures LastIn(ws, from, upto, c, q)
    decreases upto
  {
    var p := upto - 1;
    if Overwritten(ws, p, upto, c) {
      q := p;
      AtP(ws, p, c);
    } else {
      NotAtP(ws, from, p, c);
      q := LastExists(ws, from, p, c);
      NotLater(ws, q + 1, p, c);
    }
  }

  lemma AtP(ws: seq<Write>, p: nat, c: Cell)
    requires p < |ws| && Overwritten(ws, p, p + 1, c)
    ensures Written(ws[p], c).Some? && ParentsFound(Clean(ws, p).db, ws[p].event.payload)
    ensures !Overwritten(ws, p + 1, p + 1, c)
  {
  }

  lemma NotAtP(ws: seq<Write>, from: nat, p: nat, c: Cell)
    requires p < |ws| && Overwritten(ws, from, p + 1, c) && !Overwritten(ws, p, p + 1, c)
    ensures Overwritten(ws, from, p, c)
  {
  }

  lemma NotLater(ws: seq<Write>, from: nat, p: nat, c: Cell)
    requires from <= p < |ws| && !Overwritten(ws, from, p, c) && !Overwritten(ws, p, p + 1, c)
    ensures !Overwritten(ws, from, p + 1, c)
  {
  }

  /** What the repeated writes leave in a cell: the last of them that overwrites it decides. */
  ghost predicate CellIs(d: Db, ws: seq<Write>, from: nat, upto: nat, h: nat, c: Cell)
    requires upto <= |ws| && h <= |ws|
  {
    && (!Overwritten(ws, from, upto, c) ==> At(d, c) == At(Clean(ws, h).db, c))
    && (forall q: nat :: LastIn(ws, from, upto, c, q) && At(Clean(ws, h).db, c).Some? ==> At(d, c) == Written(ws[q], c))
  }

  lemma SettledNext(ws: seq<Write>, s: Store, p: nat, h: nat)
    requires p < h <= |ws| && CreatedBeforeUse(ws) && Accepted(ws, h) && SameCore(s.db, Clean(ws, h).db)
    ensures SameCore(Apply(s, ws[p]).db, Clean(ws, h).db)
    ensures ParentsFound(s.db, ws[p].event.payload) <==> ParentsFound(Clean(ws, p).db, ws[p].event.payload)
  {
    var w, f := ws[p], Clean(ws, h).db;
    ParentsAreStable(ws, p, h);
    SameCoreLookups(s.db, f, w.event.payload);
    if ParentsFound(s.db, w.event.payload) {
      RowStays(ws, p, h);
      SameCorePresent(s.db, f, w);
      PresentKeepsCore(s, w);
      SameCoreTransitive(s.db, Apply(s, w).db, f);
    }
  }

  lemma SameCoreRowsTwice(d: Db, d': Db, f: Db, c: Cell)
    requires SameCore(d, f) && SameCore(d', f)
    ensures (At(d', c).Some? <==> At(f, c).Some?) && (At(d, c).Some? <==> At(d', c).Some?)
  {
    SameCoreRows(d, f, c);
    SameCoreRows(d', f, c);
  }

  lemma CellNext(ws: seq<Write>, s: Store, from: nat, p: nat, h: nat, c: Cell)
    requires from <= p < h <= |ws| && CellIs(s.db, ws, from, p, h, c)
    requires SameCore(s.db, Clean(ws, h).db) && SameCore(Apply(s, ws[p]).db, Clean(ws, h).db)
    requires ParentsFound(s.db, ws[p].event.payload) <==> ParentsFound(Clean(ws, p).db, ws[p].event.payload)
    ensures CellIs(Apply(s, ws[p]).db, ws, from, p + 1, h, c)
  {
    SameCoreRowsTwice(s.db, Apply(s, ws[p]).db, Clean(ws, h).db, c);
    if Overwritten(ws, p, p + 1, c) {
      AtP(ws, p, c);
      OverwritingNext(ws, s, from, p, h, c);
    } else {
      QuietCell(ws, s, from, p, h, c);
    }
  }

  lemma OverwritingNext(ws: seq<Write>, s: Store, from: nat, p: nat, h: nat, c: Cell)
    requires from <= p < h <= |ws| && Overwritten(ws, p, p + 1, c)
    requires ParentsFound(s.db, ws[p].event.payload)
    requires At(Apply(s, ws[p]).db, c).Some? <==> At(Clean(ws, h).db, c).Some?
    ensures CellIs(Apply(s, ws[p]).db, ws, from, p + 1, h, c)
  {
    ApplyWrites(s, ws[p], c);
    LastIsP(ws, from, p, p + 1, c);
    assert Overwritten(ws, from, p + 1, c);
  }

  lemma LastIsP(ws: seq<Write>, from: nat, p: nat, next: nat, c: Cell)
    requires from <= p < |ws| && next == p + 1 && Overwritten(ws, p, next, c)
    ensures forall q: nat :: LastIn(ws, from, next, c, q) ==> q == p
  {
    forall q: nat | LastIn(ws, from, next, c, q) ensures q == p { StillOverwritten(ws, q, p, c); }
  }

  lemma StillOverwritten(ws: seq<Write>, q: nat, p: nat, c: Cell)
    requires p < |ws| && Overwritten(ws, p, p + 1, c)
    ensures q < p ==> Overwritten(ws, q + 1, p + 1, c)
  {
  }

  lemma QuietValue(ws: seq<Write>, s: Store, p: nat, c: Cell)
    requires p < |ws| && !Overwritten(ws, p, p + 1, c)
    requires ParentsFound(s.db, ws[p].event.payload) <==> ParentsFound(Clean(ws, p).db, ws[p].event.payload)
    requires At(s.db, c).Some? <==> At(Apply(s, ws[p]).db, c).Some?
    ensures At(Apply(s, ws[p]).db, c) == At(s.db, c)
  {
    if At(s.db, c).Some? { ApplyKeeps(s, ws[p], c); }
  }

  lemma QuietCell(ws: seq<Write>, s: Store, from: nat, p: nat, h: nat, c: Cell)
    requires from <= p < h <= |ws| && !Overwritten(ws, p, p + 1, c) && CellIs(s.db, ws, from, p, h, c)
    requires ParentsFound(s.db, ws[p].event.payload) <==> ParentsFound(Clean(ws, p).db, ws[p].event.payload)
    requires At(s.db, c).Some? <==> At(Apply(s, ws[p]).db, c).Some?
    ensures CellIs(Apply(s, ws[p]).db, ws, from, p + 1, h, c)
  {
    QuietValue(ws, s, p, c);
    QuietNext(ws, s.db, Apply(s, ws[p]).db, from, p, h, c);
  }

  lemma QuietNext(ws: seq<Write>, d: Db, d': Db, from: nat, p: nat, h: nat, c: Cell)
    requires from <= p < h <= |ws| && !Overwritten(ws, p, p + 1, c)
    requires CellIs(d, ws, from, p, h, c) && At(d', c) == At(d, c)
    ensures CellIs(d', ws, from, p + 1, h, c)
  {
    OverwrittenLonger(ws, from, p, c);
    forall q: nat | LastIn(ws, from, p + 1, c, q) ensures LastIn(ws, from, p, c, q) { LastBefore(ws, from, p, c, q); }
  }

  lemma OverwrittenLonger(ws: seq<Write>, from: nat, p: nat, c: Cell)
    requires p < |ws|
    ensures Overwritten(ws, from, p, c) ==> Overwritten(ws, from, p + 1, c)
  {
  }

  lemma LastBefore(ws: seq<Write>, from: nat, p: nat, c: Cell, q: nat)
    requires p < |ws| && !Overwritten(ws, p, p + 1, c) && LastIn(ws, from, p + 1, c, q)
    ensures LastIn(ws, from, p, c, q)
  {
    OverwrittenLonger(ws, q + 1, p, c);
  }

  ghost predicate AllCells(d: Db, ws: seq<Write>, from: nat, upto: nat, h: nat)
    requires upto <= |ws| && h <= |ws|
  {
    forall c :: CellIs(d, ws, from, upto, h, c)
  }

  lemma AllCellsNext(ws: seq<Write>, s: Store, from: nat, p: nat, h: nat)
    requires from <= p < h <= |ws| && AllCells(s.db, ws, from, p, h)
    requires SameCore(s.db, Clean(ws, h).db) && SameCore(Apply(s, ws[p]).db, Clean(ws, h).db)
    requires ParentsFound(s.db, ws[p].event.payload) <==> ParentsFound(Clean(ws, p).db, ws[p].event.payload)
    ensures AllCells(Apply(s, ws[p]).db, ws, from, p + 1, h)
  {
    var d := Apply(s, ws[p]).db;
    var next := p + 1;
    forall c ensures CellIs(d, ws, from, next, h, c)
    {
      CellNext(ws, s, from, p, h, c);
    }
  }

  lemma NoCellsYet(ws: seq<Write>, d: Db, from: nat, h: nat)
    requires from <= |ws| && h <= |ws| && Same(d, Clean(ws, h).db)
    ensures SameCore(d, Clean(ws, h).db) && AllCells(d, ws, from, from, h)
  {
    SameHasSameCells(d, Clean(ws, h).db);
  }

  lemma AgainOne(ws: seq<Write>, s: Store, from: nat, p: nat, h: nat)
    requires from <= p < h <= |ws| && CreatedBeforeUse(ws) && Accepted(ws, h)
    requires SameCore(s.db, Clean(ws, h).db) && AllCells(s.db, ws, from, p, h)
    ensures SameCore(Apply(s, ws[p]).db, Clean(ws, h).db) && AllCells(Apply(s, ws[p]).db, ws, from, p + 1, h)
  {
    SettledNext(ws, s, p, h);
    AllCellsNext(ws, s, from, p, h);
  }

  lemma AgainNext(s: Store, ws: seq<Write>, from: nat, p: nat)
    requires from <= p < |ws|
    ensures Again(s, ws, from, p + 1) == Apply(Again(s, ws, from, p), ws[p])
  {
  }

  /** What is true of the tables after the repetition. */
  ghost predicate Repeated(t: Store, ws: seq<Write>, from: nat, upto: nat, h: nat)
    requires upto <= |ws| && h <= |ws|
  {
    SameCore(t.db, Clean(ws, h).db) && AllCells(t.db, ws, from, upto, h)
  }

  lemma {:induction false} AgainLeaves(s: Store, ws: seq<Write>, from: nat, upto: nat, h: nat) returns (t: Store)
    requires from <= upto <= h <= |ws| && CreatedBeforeUse(ws) && Accepted(ws, h) && Same(s.db, Clean(ws, h).db)
    ensures t == Again(s, ws, from, upto) && Repeated(t, ws, from, upto, h)
    decreases upto - from
  {
    if from == upto {
      t := s;
      NoCellsYet(ws, s.db, from, h);
    } else {
      var p := upto - 1;
      t := AgainLeaves(s, ws, from, p, h);
      AgainNext(s, ws, from, p);
      AgainOne(ws, t, from, p, h);
      t := Apply(t, ws[p]);
    }
  }

  // --- The writes that follow. ---

  ghost predicate SamePools(ps: map<Id, PoolRow>, qs: map<Id, PoolRow>)
  {
    ps.Keys == qs.Keys && forall k :: k in ps ==> ps[k].(state := qs[k].state, tx := qs[k].tx) == qs[k]
  }

  ghost predicate SameMembers(ms: map<MemberKey, MemberRow>, ns: map<MemberKey, MemberRow>)
  {
    ms.Keys == ns.Keys && forall k :: k in ms ==> ms[k].pool == ns[k].pool
  }

  ghost predicate SameRows(ds: map<Id, DocumentRow>, fs: map<Id, DocumentRow>)
  {
    && ds.Keys == fs.Keys
    && forall k :: k in ds ==>
         ds[k].(currentVersion := fs[k].currentVersion, versionCount := fs[k].versionCount) == fs[k]
  }

  lemma SameCoreParts(d: Db, f: Db)
    requires d.datarooms == f.datarooms && d.roomOfPool == f.roomOfPool && d.decisions == f.decisions
    requires d.audits == f.audits && d.reviews.Keys == f.reviews.Keys
    requires SamePools(d.pools, f.pools) && SameMembers(d.members, f.members) && SameRows(d.documents, f.documents)
    ensures SameCore(d, f)
  {
  }

  lemma SamePoolsAfter(d: Db, f: Db, w: Write)
    requires SameCore(d, f)
    ensures SamePools(PoolsAfter(d.pools, w), PoolsAfter(f.pools, w))
    ensures ReviewsAfter(d.reviews, w).Keys == ReviewsAfter(f.reviews, w).Keys
  {
  }

  lemma SameMembersAfter(d: Db, f: Db, w: Write)
    requires SameCore(d, f)
    ensures SameMembers(MembersAfter(d, w), MembersAfter(f, w)) && RoomOfPoolAfter(d, w) == RoomOfPoolAfter(f, w)
  {
  }

  lemma SameRowsAfter(d: Db, f: Db, w: Write)
    requires SameCore(d, f)
    ensures SameRows(DocumentsAfter(d, w), DocumentsAfter(f, w))
  {
  }

  lemma SameAuditsAfter(d: Db, f: Db, w: Write)
    requires SameCore(d, f) && ParentsFound(d, w.event.payload) && ParentsFound(f, w.event.payload)
    ensures AuditsAfter(d, w) == AuditsAfter(f, w)
  {
  }

  /** The tables after a write that goes through. */
  lemma ApplyTables(s: Store, w: Write, r: Db)
    requires r == Apply(s, w).db && !Throws(s.db, w) && ParentsFound(s.db, w.event.payload)
    ensures r.pools == PoolsAfter(s.db.pools, w) && r.datarooms == DataroomsAfter(s.db.datarooms, w)
    ensures r.roomOfPool == RoomOfPoolAfter(s.db, w) && r.members == MembersAfter(s.db, w)
    ensures r.documents == DocumentsAfter(s.db, w) && r.reviews == ReviewsAfter(s.db.reviews, w)
    ensures r.decisions == DecisionsAfter(s.db.decisions, w) && r.audits == AuditsAfter(s.db, w)
  {
  }

  lemma ApplySameCore(s: Store, t: Store, w: Write)
    requires SameCore(s.db, t.db)
    ensures SameCore(Apply(s, w).db, Apply(t, w).db)
  {
    SameCoreLookups(s.db, t.db, w.event.payload);
    if ParentsFound(s.db, w.event.payload) && !Throws(s.db, w) {
      SamePoolsAfter(s.db, t.db, w);
      SameMembersAfter(s.db, t.db, w);
      SameRowsAfter(s.db, t.db, w);
      SameAuditsAfter(s.db, t.db, w);
      ApplyTables(s, w, Apply(s, w).db);
      ApplyTables(t, w, Apply(t, w).db);
      SameCoreParts(Apply(s, w).db, Apply(t, w).db);
    }
  }

  /** The same row, or none, for this key. */
  ghost predicate SameAt<K, V>(rows: map<K, V>, rows': map<K, V>, k: K)
  {
    (k in rows <==> k in rows') && (k in rows ==> rows[k] == rows'[k])
  }

  lemma NewPoolRow(d: Db, f: Db, w: Write, k: Id)
    requires k !in d.pools && k !in f.pools
    ensures SameAt(PoolsAfter(d.pools, w), PoolsAfter(f.pools, w), k)
  {
  }

  lemma NewMemberRow(d: Db, f: Db, w: Write, k: MemberKey)
    requires SameCore(d, f) && k !in d.members
    ensures SameAt(MembersAfter(d, w), MembersAfter(f, w), k)
  {
  }

  lemma NewDocumentRow(d: Db, f: Db, w: Write, k: Id)
    requires SameCore(d, f) && k !in d.documents
    ensures SameAt(DocumentsAfter(d, w), DocumentsAfter(f, w), k)
  {
  }

  lemma NewRow(d: Db, f: Db, w: Write, c: Cell, r: Db, r': Db)
    requires SameCore(d, f) && At(d, c).None?
    requires r.pools == PoolsAfter(d.pools, w) && r'.pools == PoolsAfter(f.pools, w)
    requires r.members == MembersAfter(d, w) && r'.members == MembersAfter(f, w)
    requires r.documents == DocumentsAfter(d, w) && r'.documents == DocumentsAfter(f, w)
    requires r.reviews == ReviewsAfter(d.reviews, w) && r'.reviews == ReviewsAfter(f.reviews, w)
    ensures At(r, c) == At(r', c)
  {
    match c
    case StateCell(k) => NewPoolRow(d, f, w, k);
    case RoleCell(k) => NewMemberRow(d, f, w, k);
    case ActiveCell(k) => NewMemberRow(d, f, w, k);
    case AddedByCell(k) => NewMemberRow(d, f, w, k);
    case VersionCell(k) => NewDocumentRow(d, f, w, k);
    case StatusCell(k) => assert SameAt(r.reviews, r'.reviews, k);
  }

  /** A new row starts with the same cells in both. */
  lemma NewCell(s: Store, t: Store, w: Write, c: Cell)
    requires SameCore(s.db, t.db) && At(s.db, c).None?
    ensures At(Apply(s, w).db, c) == At(Apply(t, w).db, c)
  {
    SameCoreLookups(s.db, t.db, w.event.payload);
    SameCoreRows(s.db, t.db, c);
    if ParentsFound(s.db, w.event.payload) && !Throws(s.db, w) {
      ApplyTables(s, w, Apply(s, w).db);
      ApplyTables(t, w, Apply(t, w).db);
      NewRow(s.db, t.db, w, c, Apply(s, w).db, Apply(t, w).db);
    }
  }

  /** A write makes the two agree on what it overwrites, and changes nothing else about their agreement. */
  lemma CellInBoth(s: Store, t: Store, w: Write, c: Cell)
    requires SameCore(s.db, t.db)
    ensures At(Apply(s, w).db, c) == At(Apply(t, w).db, c)
      <==> At(s.db, c) == At(t.db, c) || (Written(w, c).Some? && ParentsFound(t.db, w.event.payload))
  {
    SameCoreLookups(s.db, t.db, w.event.payload);
    SameCoreRows(s.db, t.db, c);
    if At(s.db, c).None? {
      NewCell(s, t, w, c);
    } else if Written(w, c).Some? && ParentsFound(t.db, w.event.payload) {
      ApplyWrites(s, w, c);
      ApplyWrites(t, w, c);
    } else {
      ApplyKeeps(s, w, c);
      ApplyKeeps(t, w, c);
    }
  }

  /** d, which was t at h, agrees with the clean pass at k exactly where t did, or where it was overwritten since. */
  ghost predicate Mends(d: Db, t: Db, ws: seq<Write>, h: nat, k: nat)
    requires h <= k <= |ws|
  {
    SameCore(d, Clean(ws, k).db) && forall c :: CellMends(d, t, ws, h, k, c)
  }

  ghost predicate CellMends(d: Db, t: Db, ws: seq<Write>, h: nat, k: nat, c: Cell)
    requires h <= k <= |ws|
  {
    At(d, c) == At(Clean(ws, k).db, c) <==> At(t, c) == At(Clean(ws, h).db, c) || Overwritten(ws, h, k, c)
  }

  lemma OverwrittenNext(ws: seq<Write>, h: nat, k: nat, c: Cell)
    requires h <= k < |ws|
    ensures Overwritten(ws, h, k + 1, c)
      <==> Overwritten(ws, h, k, c) || (Written(ws[k], c).Some? && ParentsFound(Clean(ws, k).db, ws[k].event.payload))
  {
  }

  lemma MendsNext(s: Store, t: Db, ws: seq<Write>, h: nat, k: nat)
    requires h <= k < |ws| && Mends(s.db, t, ws, h, k)
    ensures Mends(Apply(s, ws[k]).db, t, ws, h, k + 1)
  {
    var d, next := Apply(s, ws[k]).db, k + 1;
    ApplySameCore(s, Clean(ws, k), ws[k]);
    forall c ensures CellMends(d, t, ws, h, next, c)
    {
      assert CellMends(s.db, t, ws, h, k, c);
      OverwrittenNext(ws, h, k, c);
      CellInBoth(s, Clean(ws, k), ws[k], c);
    }
  }

  lemma MendsAtFirst(t: Db, ws: seq<Write>, h: nat)
    requires h <= |ws| && SameCore(t, Clean(ws, h).db)
    ensures Mends(t, t, ws, h, h)
  {
  }

  lemma {:induction false} GoesOn(t: Store, ws: seq<Write>, h: nat, k: nat) returns (r: Store)
    requires h <= k <= |ws| && SameCore(t.db, Clean(ws, h).db)
    ensures r == Again(t, ws, h, k) && Mends(r.db, t.db, ws, h, k)
    decreases k - h
  {
    if k == h {
      r := t;
      MendsAtFirst(t.db, ws, h);
    } else {
      var p := k - 1;
      r := GoesOn(t, ws, h, p);
      AgainNext(t, ws, h, p);
      MendsNext(r, t.db, ws, h, p);
      r := Apply(r, ws[p]);
    }
  }

  // --- The exact condition. ---

  /** The last repeated write to the cell wrote something else than it held. */
  ghost predicate Stale(ws: seq<Write>, from: nat, upto: nat, h: nat, c: Cell)
    requires upto <= |ws| && h <= |ws|
  {
    At(Clean(ws, h).db, c).Some?
    && exists q: nat :: LastIn(ws, from, upto, c, q) && At(Clean(ws, h).db, c) != Written(ws[q], c)
  }

  ghost predicate StaleAreOverwritten(ws: seq<Write>, from: nat, upto: nat, h: nat, k: nat)
    requires upto <= |ws| && h <= k <= |ws|
  {
    forall c :: Stale(ws, from, upto, h, c) ==> Overwritten(ws, h, k, c)
  }

  lemma StaleIff(t: Db, ws: seq<Write>, from: nat, upto: nat, h: nat, c: Cell)
    requires from <= upto <= |ws| && h <= |ws| && SameCore(t, Clean(ws, h).db) && CellIs(t, ws, from, upto, h, c)
    ensures Stale(ws, from, upto, h, c) <==> At(t, c) != At(Clean(ws, h).db, c)
  {
    SameCoreRows(t, Clean(ws, h).db, c);
    if Overwritten(ws, from, upto, c) { var q := LastExists(ws, from, upto, c); }
  }

  /**
   * When the writes from h on have gone by up to k, the tables are those of the clean pass, save version
   * rows and counters, iff every cell that the repetition left with an old value has been overwritten again.
   */
  lemma CutShortIff(s: Store, ws: seq<Write>, from: nat, upto: nat, h: nat, k: nat)
    requires from <= upto <= h <= k <= |ws| && CreatedBeforeUse(ws) && Accepted(ws, h)
    requires Same(s.db, Clean(ws, h).db)
    ensures Same(Again(Again(s, ws, from, upto), ws, h, k).db, Clean(ws, k).db)
      <==> StaleAreOverwritten(ws, from, upto, h, k)
  {
    var t := AgainLeaves(s, ws, from, upto, h);
    var r := GoesOn(t, ws, h, k);
    MendedIff(r.db, t.db, ws, from, upto, h, k);
  }

  lemma MendedIff(d: Db, t: Db, ws: seq<Write>, from: nat, upto: nat, h: nat, k: nat)
    requires from <= upto <= h <= k <= |ws| && Mends(d, t, ws, h, k)
    requires SameCore(t, Clean(ws, h).db) && AllCells(t, ws, from, upto, h)
    ensures Same(d, Clean(ws, k).db) <==> StaleAreOverwritten(ws, from, upto, h, k)
  {
    SameIffCells(d, Clean(ws, k).db, ws, k);
    forall c
      ensures At(d, c) == At(Clean(ws, k).db, c) <==> (Stale(ws, from, upto, h, c) ==> Overwritten(ws, h, k, c))
    {
      assert CellMends(d, t, ws, h, k, c);
      StaleIff(t, ws, from, upto, h, c);
    }
  }

  lemma SameIffCells(d: Db, f: Db, ws: seq<Write>, h: nat)
    requires h <= |ws| && SameCore(d, f)
    ensures Same(d, f) <==> forall c :: At(d, c) == At(f, c)
  {
    AgreeIsSame(d, f, ws, h);
  }
}
