// Sessions in a store whose keys expire. Times are in milliseconds; time-to-live is set and read in
// whole seconds.

module Sessions {
  import opened Results

  type Sid = string

  const REFRESH_TOKEN_TTL_SECONDS: nat := 604800

  datatype SessionData = SessionData(
    userId: string,
    address: string,
    orgId: Option<string>,
    refreshTokenHash: string,
    createdAt: nat,
    lastActiveAt: nat,
    ip: string,
    userAgent: string)

  datatype Stored = Stored(data: SessionData, expiry: nat)

  /** A key is readable up to and including its expiry. */
  predicate Live(sessions: map<Sid, Stored>, sid: Sid, now: nat)
  {
    sid in sessions && now <= sessions[sid].expiry
  }

  ghost predicate Matches(sessions: map<Sid, Stored>, sid: Sid, hash: string, now: nat)
  {
    Live(sessions, sid, now) && sessions[sid].data.refreshTokenHash == hash
  }

  /** The remaining seconds that the store reports; carry says how it rounds: 0 down, 500 to the nearest. */
  function Ttl(expiry: nat, now: nat, carry: nat): (seconds: nat)
    requires now <= expiry
  {
    (expiry - now + carry) / 1000
  }

  /** The expiry after setting the key again with the seconds that were read. */
  function Renewed(expiry: nat, now: nat, carry: nat): (expiry': nat)
    requires now <= expiry
  {
    now + Ttl(expiry, now, carry) * 1000
  }

  /** The deadline stays, up to rounding; nothing happens when less than one second is reported to remain. */
  function Updated(sessions: map<Sid, Stored>, sid: Sid, hash: string, now: nat, carry: nat): (r: map<Sid, Stored>)
  {
    if !Live(sessions, sid, now) || Ttl(sessions[sid].expiry, now, carry) == 0 then sessions
    else sessions[sid := Stored(sessions[sid].data.(refreshTokenHash := hash, lastActiveAt := now),
                                Renewed(sessions[sid].expiry, now, carry))]
  }

  /** Who the session belongs to, and where it was opened. */
  ghost predicate SameIdentity(a: SessionData, b: SessionData)
  {
    && a.userId == b.userId && a.address == b.address && a.orgId == b.orgId && a.createdAt == b.createdAt
    && a.ip == b.ip && a.userAgent == b.userAgent
  }

  ghost predicate SameOthers(before: map<Sid, Stored>, after: map<Sid, Stored>, sid: Sid)
  {
    forall s :: s != sid ==> (s in after <==> s in before) && (s in before ==> after[s] == before[s])
  }

  /** An update concerns one session; of that it sets the hash and the last activity, in time, and nothing else. */
  ghost predicate OnlyRotated(before: map<Sid, Stored>, after: map<Sid, Stored>, sid: Sid, hash: string, now: nat,
                              carry: nat)
  {
    && SameOthers(before, after, sid) && (sid in after <==> sid in before)
    && (sid in before ==> SameIdentity(after[sid].data, before[sid].data))
    && (sid in before && now <= before[sid].expiry && before[sid].expiry - now + carry >= 1000 ==>
          && after[sid].data.refreshTokenHash == hash && after[sid].data.lastActiveAt == now
          && after[sid].expiry == now + (before[sid].expiry - now + carry) / 1000 * 1000)
    && (sid in before && !(now <= before[sid].expiry && before[sid].expiry - now + carry >= 1000) ==>
          after[sid] == before[sid])
  }

  /** This says everything about the sessions after an update. */
  lemma UpdatedIff(sessions: map<Sid, Stored>, after: map<Sid, Stored>, sid: Sid, hash: string, now: nat, carry: nat)
    ensures OnlyRotated(sessions, after, sid, hash, now, carry) <==> after == Updated(sessions, sid, hash, now, carry)
  {
  }

  /** The pages of one SCAN between them list every live key; they may be empty, or list keys twice or in vain. */
  ghost predicate Lists(pages: seq<seq<Sid>>, sessions: map<Sid, Stored>, now: nat)
  {
    forall sid :: Live(sessions, sid, now) ==> exists page :: 0 <= page < |pages| && sid in pages[page]
  }

  class SessionService {
    const carry: nat
    var sessions: map<Sid, Stored>

    constructor (carry: nat)
      requires carry < 1000
      ensures this.carry == carry && sessions == map[]
    {
      this.carry := carry;
      sessions := map[];
    }

    method CreateSession(sid: Sid, userId: string, address: string, orgId: Option<string>, hash: string, ip: string,
                         userAgent: string, now: nat)
      modifies this
      ensures sessions == old(sessions)[sid :=
        Stored(SessionData(userId, address, orgId, hash, now, now, ip, userAgent), now + 604_800_000)]
    {
      var data := SessionData(userId, address, orgId, hash, now, now, ip, userAgent);
      sessions := sessions[sid := Stored(data, now + REFRESH_TOKEN_TTL_SECONDS * 1000)];
    }

    method GetSession(sid: Sid, now: nat) returns (data: Option<SessionData>)
      ensures data == if Live(sessions, sid, now) then Some(sessions[sid].data) else None
    {
      data := if Live(sessions, sid, now) then Some(sessions[sid].data) else None;
    }

    method UpdateSession(sid: Sid, hash: string, now: nat)
      modifies this
      ensures OnlyRotated(old(sessions), sessions, sid, hash, now, carry)
    {
      UpdatedIff(sessions, Updated(sessions, sid, hash, now, carry), sid, hash, now, carry);
      if !Live(sessions, sid, now) { return; }
      var ttl := Ttl(sessions[sid].expiry, now, carry);
      if ttl <= 0 { return; }
      var data := sessions[sid].data.(refreshTokenHash := hash, lastActiveAt := now);
      sessions := sessions[sid := Stored(data, now + ttl * 1000)];
    }

    /** Page after page until the cursor is back at 0: a live session with this hash, if there is one. */
    method GetSessionByRefreshHash(hash: string, now: nat, pages: seq<seq<Sid>>) returns (found: Option<Sid>)
      requires |pages| > 0 && Lists(pages, sessions, now)
      ensures found.Some? ==> Matches(sessions, found.value, hash, now)
      ensures found.None? ==> forall sid :: !Matches(sessions, sid, hash, now)
    {
      var cursor := 0;
      var more := true;
      while more
        invariant 0 <= cursor <= |pages| && (more <==> cursor < |pages|)
        invariant forall p, sid :: 0 <= p < cursor && sid in pages[p] ==> !Matches(sessions, sid, hash, now)
        decreases |pages| - cursor
      {
        var keys := pages[cursor];
        cursor := cursor + 1;
        more := cursor < |pages|;
        if |keys| == 0 { continue; }
        for i := 0 to |keys|
          invariant forall j :: 0 <= j < i ==> !Matches(sessions, keys[j], hash, now)
        {
          if Live(sessions, keys[i], now) && sessions[keys[i]].data.refreshTokenHash == hash { return Some(keys[i]); }
        }
      }
      found := None;
    }

    method DeleteSession(sid: Sid)
      modifies this
      ensures sessions == old(sessions) - {sid}
    {
      sessions := sessions - {sid};
    }
  }

  // --- Deadlines. ---

  /** Setting the key again moves the deadline by less than a second, and later iff the reading was rounded up. */
  lemma RenewedLater(expiry: nat, now: nat, carry: nat)
    requires now <= expiry && carry < 1000
    ensures expiry < Renewed(expiry, now, carry) + 1000 && Renewed(expiry, now, carry) <= expiry + carry
    ensures Renewed(expiry, now, carry) <= expiry <==> (expiry - now) % 1000 + carry < 1000
  {
    var rest := expiry - now;
    assert rest == rest / 1000 * 1000 + rest % 1000;
    if rest % 1000 + carry < 1000 {
      assert (rest + carry) / 1000 == rest / 1000;
    } else {
      assert (rest + carry) / 1000 == rest / 1000 + 1;
    }
  }

  /** With all times in whole seconds, the deadline does not move. */
  lemma RenewedWhole(expiry: nat, now: nat, carry: nat)
    requires now <= expiry && carry < 1000 && expiry % 1000 == 0 && now % 1000 == 0
    ensures Renewed(expiry, now, carry) == expiry
  {
    assert (expiry - now) % 1000 == 0;
    RenewedLater(expiry, now, carry);
  }

  /** n times carry. */
  function Times(n: nat, carry: nat): (product: nat)
  {
    if n == 0 then 0 else Times(n - 1, carry) + carry
  }

  /** The sessions after n updates of one of them, at first + carry, first + 2 * carry, ... */
  function Refreshed(sessions: map<Sid, Stored>, sid: Sid, hashes: nat -> string, first: nat, carry: nat, n: nat)
    : (r: map<Sid, Stored>)
  {
    if n == 0 then sessions
    else
      var before := Refreshed(sessions, sid, hashes, first, carry, n - 1);
      Updated(before, sid, hashes(n), first + Times(n, carry), carry)
  }

  /** A full second is reported to remain when it is less by carry. */
  lemma RoundedUp(expiry: nat, now: nat, carry: nat)
    requires 0 < carry < 1000 && now + 1000 == expiry + carry
    ensures now <= expiry && Ttl(expiry, now, carry) == 1 && Renewed(expiry, now, carry) == expiry + carry
  {
  }

  /** The k-th of these updates finds the session live. */
  ghost predicate FindsLive(sessions: map<Sid, Stored>, sid: Sid, hashes: nat -> string, first: nat, carry: nat, k: nat)
  {
    k > 0 ==> Live(Refreshed(sessions, sid, hashes, first, carry, k - 1), sid, first + Times(k, carry))
  }

  /** Each of these updates finds the session live, rotates its hash, and postpones its deadline by carry. */
  lemma {:induction false} EachUpdatePostpones(sessions: map<Sid, Stored>, sid: Sid, hashes: nat -> string, first: nat,
                                               carry: nat, n: nat)
    requires sid in sessions && sessions[sid].expiry == first + 1000 && 0 < carry < 1000
    ensures sid in Refreshed(sessions, sid, hashes, first, carry, n)
    ensures Refreshed(sessions, sid, hashes, first, carry, n)[sid].expiry
         == sessions[sid].expiry + Times(n, carry)
    ensures n > 0 ==> Refreshed(sessions, sid, hashes, first, carry, n)[sid].data.refreshTokenHash == hashes(n)
    ensures FindsLive(sessions, sid, hashes, first, carry, n)
  {
    if n > 0 {
      EachUpdatePostpones(sessions, sid, hashes, first, carry, n - 1);
      RoundedUp(sessions[sid].expiry + Times(n - 1, carry), first + Times(n, carry), carry);
    }
  }

  lemma {:induction false} TimesGrows(n: nat, carry: nat)
    requires carry > 0
    ensures Times(n, carry) >= n
  {
    if n > 0 { TimesGrows(n - 1, carry); }
  }

  /**
   * So unless the store rounds down, every session can be made to outlive any date, by calls that find it
   * live and rotate its hash, the first of them within the last second of its time.
   */
  lemma NeverExpires(sessions: map<Sid, Stored>, sid: Sid, hashes: nat -> string, carry: nat, date: nat)
    returns (first: nat, n: nat)
    requires sid in sessions && sessions[sid].expiry >= 1000 && 0 < carry < 1000
    ensures sessions[sid].expiry == first + 1000
    ensures Live(Refreshed(sessions, sid, hashes, first, carry, n), sid, date)
    ensures forall k: nat :: FindsLive(sessions, sid, hashes, first, carry, k)
  {
    first, n := sessions[sid].expiry - 1000, date;
    TimesGrows(n, carry);
    EachUpdatePostpones(sessions, sid, hashes, first, carry, n);
    forall k: nat ensures FindsLive(sessions, sid, hashes, first, carry, k)
    {
      EachUpdatePostpones(sessions, sid, hashes, first, carry, k);
    }
  }

  // --- The exact condition. ---

  datatype Call = Call(hash: string, now: nat)

  /** The sessions after these updates of one of them, at any times. */
  function UpdatedAll(sessions: map<Sid, Stored>, sid: Sid, calls: seq<Call>, carry: nat): (r: map<Sid, Stored>)
  {
    if calls == [] then sessions
    else
      var last := calls[|calls| - 1];
      Updated(UpdatedAll(sessions, sid, calls[..|calls| - 1], carry), sid, last.hash, last.now, carry)
  }

  ghost predicate KeepsDeadline(sessions: map<Sid, Stored>, sid: Sid, calls: seq<Call>, carry: nat)
    requires sid in sessions
  {
    var after := UpdatedAll(sessions, sid, calls, carry);
    sid in after && after[sid].expiry <= sessions[sid].expiry
  }

  lemma {:induction false} RoundingDownKeeps(sessions: map<Sid, Stored>, sid: Sid, calls: seq<Call>)
    requires sid in sessions
    ensures KeepsDeadline(sessions, sid, calls, 0)
  {
    if calls != [] {
      var before, last := calls[..|calls| - 1], calls[|calls| - 1];
      RoundingDownKeeps(sessions, sid, before);
      var s := UpdatedAll(sessions, sid, before, 0);
      if Live(s, sid, last.now) { RenewedLater(s[sid].expiry, last.now, 0); }
    }
  }

  /** A session keeps its deadline under every sequence of updates iff the store rounds down. */
  lemma DeadlineKeptIff(sessions: map<Sid, Stored>, sid: Sid, carry: nat)
    requires sid in sessions && sessions[sid].expiry >= 1000 && carry < 1000
    ensures (forall calls :: KeepsDeadline(sessions, sid, calls, carry)) <==> carry == 0
  {
    if carry == 0 {
      forall calls ensures KeepsDeadline(sessions, sid, calls, carry) { RoundingDownKeeps(sessions, sid, calls); }
    } else {
      var now := sessions[sid].expiry - (1000 - carry);
      RoundedUp(sessions[sid].expiry, now, carry);
      var calls := [Call("", now)];
      assert calls[..0] == [];
      assert UpdatedAll(sessions, sid, calls, carry) == Updated(sessions, sid, "", now, carry);
      assert !KeepsDeadline(sessions, sid, calls, carry);
    }
  }
}
