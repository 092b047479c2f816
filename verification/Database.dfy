// The database as the handlers use it: mutable tables, the checkpoint row, and repository methods.
// Every write may throw: `faults` scripts after how many further writes the next error is raised.

module Database {
  import opened Results
  import opened Tables
  import opened Events

  /** What String(err) tells processBatch, a uniqueness conflict or anything else; or the process is killed. */
  datatype DbError = Duplicate | OtherError | Killed

  datatype Fault = Fault(after: nat, error: DbError)

  predicate NoDuplicates(faults: seq<Fault>)
  {
    forall f :: f in faults ==> f.error != Duplicate
  }

  /** How often the script kills the process. */
  function Kills(faults: seq<Fault>): (n: nat)
  {
    if faults == [] then 0 else (if faults[0].error.Killed? then 1 else 0) + Kills(faults[1..])
  }

  /** What calls use up of the script: an error comes from there, unless it has this excuse. */
  predicate Spent(before: seq<Fault>, after: seq<Fault>, error: Option<DbError>, excused: bool)
  {
    && |after| <= |before| && (error.Some? && !excused ==> |after| < |before|)
    && (NoDuplicates(before) ==> NoDuplicates(after) && error != Some(Duplicate))
    && Kills(after) <= Kills(before) && (error == Some(Killed) ==> Kills(after) < Kills(before))
  }

  lemma SpentTwice(before: seq<Fault>, between: seq<Fault>, after: seq<Fault>, error: Option<DbError>, excused: bool)
    requires Spent(before, between, None, false) && Spent(between, after, error, excused)
    ensures Spent(before, after, error, excused)
  {
  }

  class Connection {
    var pools: map<Id, PoolRow>
    var datarooms: map<Id, DataroomRow>
    var roomOfPool: map<Id, Id>
    var members: map<MemberKey, MemberRow>
    var documents: map<Id, DocumentRow>
    var versions: map<VersionKey, VersionRow>
    var reviews: map<ReviewKey, int>
    var decisions: map<DecisionKey, DecisionRow>
    var audits: map<AuditKey, AuditRow>
    var checkpoint: Option<nat>
    var faults: seq<Fault>

    function View(): (db: Db)
      reads this
    {
      Db(pools, datarooms, roomOfPool, members, documents, versions, reviews, decisions, audits)
    }

    constructor (faults: seq<Fault>)
      ensures View() == EMPTY && checkpoint == None && this.faults == faults
    {
      pools, datarooms, roomOfPool, members, documents := map[], map[], map[], map[], map[];
      versions, reviews, decisions, audits := map[], map[], map[], map[];
      checkpoint := None;
      this.faults := faults;
    }

    /** One round trip to the server. */
    method RoundTrip() returns (error: Option<DbError>)
      modifies this`faults
      ensures Spent(old(faults), faults, error, false)
    {
      if faults == [] { return None; }
      var f := faults[0];
      if f.after == 0 {
        faults := faults[1..];
        return Some(f.error);
      }
      var rest := faults[1..];
      faults := [Fault(f.after - 1, f.error)] + rest;
      assert faults[1..] == rest;
      return None;
    }

    /** Deleting cached keys touches no table, but it may throw as well. */
    method InvalidateCache() returns (error: Option<DbError>)
      modifies this`faults
      ensures Spent(old(faults), faults, error, false)
    {
      error := RoundTrip();
    }

    method InsertPool(id: Id, row: PoolRow) returns (error: Option<DbError>)
      modifies this`pools, this`faults
      ensures Spent(old(faults), faults, error, false)
      ensures pools == if error.Some? then old(pools) else AddIfAbsent(old(pools), id, row)
    {
      error := RoundTrip();
      if error.None? && id !in pools { pools := pools[id := row]; }
    }

    method UpdatePoolState(id: Id, state: int, tx: string) returns (error: Option<DbError>)
      modifies this`pools, this`faults
      ensures Spent(old(faults), faults, error, false)
      ensures pools == if error.Some? then old(pools) else SetPoolState(old(pools), id, state, tx)
    {
      error := RoundTrip();
      if error.None? && id in pools { pools := pools[id := pools[id].(state := state, tx := tx)]; }
    }

    /** The foreign key to pools rejects a new row whose pool does not exist. */
    method InsertDataroom(id: Id, row: DataroomRow) returns (error: Option<DbError>)
      modifies this`datarooms, this`roomOfPool, this`faults
      ensures Spent(old(faults), faults, error, row.pool !in pools && id !in old(datarooms))
      ensures row.pool !in pools && id !in old(datarooms) ==> error.Some?
      ensures error.Some? ==> datarooms == old(datarooms) && roomOfPool == old(roomOfPool)
      ensures error.None? ==> datarooms == AddIfAbsent(old(datarooms), id, row)
      ensures error.None? ==>
        roomOfPool == if id in old(datarooms) then old(roomOfPool) else AddIfAbsent(old(roomOfPool), row.pool, id)
    {
      error := RoundTrip();
      if error.Some? { return; }
      if id !in datarooms {
        if row.pool !in pools { return Some(OtherError); }
        datarooms := datarooms[id := row];
        if row.pool !in roomOfPool { roomOfPool := roomOfPool[row.pool := id]; }
      }
    }

    method UpsertMember(key: MemberKey, pool: Id, role: int, addedBy: string) returns (error: Option<DbError>)
      modifies this`members, this`faults
      ensures Spent(old(faults), faults, error, false)
      ensures members
           == if error.Some? then old(members) else Tables.UpsertMember(old(members), key, pool, role, addedBy)
    {
      error := RoundTrip();
      if error.Some? { return; }
      if key in members {
        members := members[key := members[key].(role := role, active := true, addedBy := addedBy)];
      } else {
        members := members[key := MemberRow(pool, role, addedBy, true)];
      }
    }

    method DeactivateMember(key: MemberKey) returns (error: Option<DbError>)
      modifies this`members, this`faults
      ensures Spent(old(faults), faults, error, false)
      ensures members == if error.Some? then old(members) else Deactivated(old(members), key)
    {
      error := RoundTrip();
      if error.None? && key in members { members := members[key := members[key].(active := false)]; }
    }

    method UpdateMemberRole(key: MemberKey, role: int) returns (error: Option<DbError>)
      modifies this`members, this`faults
      ensures Spent(old(faults), faults, error, false)
      ensures members == if error.Some? then old(members) else SetRole(old(members), key, role)
    {
      error := RoundTrip();
      if error.None? && key in members { members := members[key := members[key].(role := role)]; }
    }

    /** Reports whether the insert returned a row. */
    method InsertDocument(id: Id, row: DocumentRow) returns (error: Option<DbError>, isNew: bool)
      modifies this`documents, this`faults
      ensures Spent(old(faults), faults, error, false)
      ensures documents == if error.Some? then old(documents) else AddIfAbsent(old(documents), id, row)
      ensures isNew == (error.None? && id !in old(documents))
    {
      isNew := false;
      error := RoundTrip();
      if error.None? && id !in documents {
        documents := documents[id := row];
        isNew := true;
      }
    }

    method UpdateVersionInfo(id: Id, version: int) returns (error: Option<DbError>)
      modifies this`documents, this`faults
      ensures Spent(old(faults), faults, error, false)
      ensures documents == if error.Some? then old(documents) else SetVersion(old(documents), id, version)
    {
      error := RoundTrip();
      if error.None? && id in documents {
        var row := documents[id];
        documents := documents[id := row.(currentVersion := version, versionCount := row.versionCount + 1)];
      }
    }

    method InsertVersion(key: VersionKey, row: VersionRow) returns (error: Option<DbError>)
      modifies this`versions, this`faults
      ensures Spent(old(faults), faults, error, false)
      ensures versions == if error.Some? then old(versions) else AddIfAbsent(old(versions), key, row)
    {
      error := RoundTrip();
      if error.None? && key !in versions { versions := versions[key := row]; }
    }

    method UpsertReview(key: ReviewKey, status: int) returns (error: Option<DbError>)
      modifies this`reviews, this`faults
      ensures Spent(old(faults), faults, error, false)
      ensures reviews == if error.Some? then old(reviews) else old(reviews)[key := status]
    {
      error := RoundTrip();
      if error.None? { reviews := reviews[key := status]; }
    }

    method InsertDecision(key: DecisionKey, row: DecisionRow) returns (error: Option<DbError>)
      modifies this`decisions, this`faults
      ensures Spent(old(faults), faults, error, false)
      ensures decisions == if error.Some? then old(decisions) else AddIfAbsent(old(decisions), key, row)
    {
      error := RoundTrip();
      if error.None? && key !in decisions { decisions := decisions[key := row]; }
    }

    method InsertAudit(key: AuditKey, row: AuditRow) returns (error: Option<DbError>)
      modifies this`audits, this`faults
      ensures Spent(old(faults), faults, error, false)
      ensures audits == if error.Some? then old(audits) else AddIfAbsent(old(audits), key, row)
    {
      error := RoundTrip();
      if error.None? && key !in audits { audits := audits[key := row]; }
    }

    method SaveCheckpoint(cursor: nat) returns (error: Option<DbError>)
      modifies this`checkpoint, this`faults
      ensures Spent(old(faults), faults, error, false)
      ensures checkpoint == if error.Some? then old(checkpoint) else Some(cursor)
    {
      error := RoundTrip();
      if error.None? { checkpoint := Some(cursor); }
    }
  }
}
