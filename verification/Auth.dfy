// Login, the two refresh paths and logout: every call is one atomic step, tokens are fresh, and the
// hash is injective.

module Auth {
  import opened Results
  import opened Sessions

  type Token = string

  datatype AuthError = SessionExpired | TokenReuseDetected

  /** The hash is injective: something undoes it. */
  ghost predicate Injective(hash: Token -> string, unhash: string -> Token)
  {
    forall t :: unhash(hash(t)) == t
  }

  /** What an access token is signed for. */
  datatype Claims = Claims(sub: string, address: string, orgId: Option<string>, orgRole: int, sid: Sid)

  datatype Issued = Issued(claims: Claims, refreshToken: Token)

  /** Who logged in, from where and when; the role is that of the user at that time. */
  datatype Visitor = Visitor(userId: string, address: string, orgId: Option<string>, roleInOrg: Option<int>, ip: string,
                             userAgent: string, at: nat)

  /** The claims name the visitor. */
  ghost predicate SignedFor(c: Claims, v: Visitor, sid: Sid)
  {
    c.sub == v.userId && c.address == v.address && c.orgId == v.orgId && c.sid == sid
  }

  // --- What has been handed out. ---

  /**
   * The token that each session accepts; all tokens handed out; those replaced by a newer one; how often
   * each session was refreshed; who opened it; and whether all calls so far came at whole seconds.
   */
  datatype Book = Book(current: map<Sid, Token>, issued: set<Token>, retired: set<Token>, refreshes: map<Sid, nat>,
                       visitors: map<Sid, Visitor>, whole: bool)

  function Ticked(b: Book, now: nat): (b': Book)
  {
    b.(whole := b.whole && now % 1000 == 0)
  }

  function AfterLogin(b: Book, sid: Sid, token: Token, visitor: Visitor): (b': Book)
  {
    Ticked(b, visitor.at).(current := b.current[sid := token], issued := b.issued + {token},
                           refreshes := b.refreshes[sid := 0], visitors := b.visitors[sid := visitor])
  }

  function AfterDeletion(b: Book, sid: Sid, now: nat): (b': Book)
  {
    Ticked(b, now).(current := b.current - {sid}, refreshes := b.refreshes - {sid},
                    visitors := b.visitors - {sid})
  }

  /** The session accepts the new token only; a closing one goes on accepting the old. */
  function AfterRefresh(b: Book, sid: Sid, newToken: Token, closing: bool, now: nat): (b': Book)
    requires sid in b.current && sid in b.refreshes
  {
    var ticked := Ticked(b, now).(issued := b.issued + {newToken});
    if closing then ticked
    else ticked.(current := b.current[sid := newToken], retired := b.retired + {b.current[sid]},
                 refreshes := b.refreshes[sid := b.refreshes[sid] + 1])
  }

  /** Every accepted token was issued, none of them was replaced, and each belongs to one session. */
  ghost predicate Tidy(b: Book)
  {
    && b.retired <= b.issued && b.visitors.Keys == b.current.Keys
    && (forall s :: s in b.current ==> b.current[s] in b.issued && b.current[s] !in b.retired)
    && (forall s, t :: s in b.current && t in b.current && s != t ==> b.current[s] != b.current[t])
  }

  ghost predicate Accepted(sessions: map<Sid, Stored>, b: Book, sid: Sid, token: Token, now: nat)
  {
    Live(sessions, sid, now) && sid in b.current && b.current[sid] == token
  }

  /** Each session stores the hash of one token of its own, issued and not retired. */
  ghost predicate TokensMatch(sessions: map<Sid, Stored>, hash: Token -> string, b: Book)
  {
    && Tidy(b) && b.current.Keys == sessions.Keys
    && forall s :: s in b.current ==> sessions[s].data.refreshTokenHash == hash(b.current[s])
  }

  /** Rounding up is all that can move a deadline; with whole seconds it stays where login put it. */
  ghost predicate DeadlinesHold(sessions: map<Sid, Stored>, carry: nat, b: Book)
  {
    && b.refreshes.Keys == sessions.Keys
    && (forall s :: s in sessions ==>
          sessions[s].expiry
          <= sessions[s].data.createdAt + REFRESH_TOKEN_TTL_SECONDS * 1000 + Times(b.refreshes[s], carry))
    && (b.whole ==> forall s :: s in sessions ==>
          && sessions[s].expiry == sessions[s].data.createdAt + REFRESH_TOKEN_TTL_SECONDS * 1000
          && sessions[s].data.createdAt % 1000 == 0)
  }

  /** Every session still carries the identity that it was opened with. */
  ghost predicate IdentitiesHold(sessions: map<Sid, Stored>, b: Book)
  {
    && b.visitors.Keys == sessions.Keys
    && forall s :: s in sessions ==> Carries(sessions[s].data, b.visitors[s])
  }

  ghost predicate Carries(d: SessionData, v: Visitor)
  {
    && d.userId == v.userId && d.address == v.address && d.orgId == v.orgId
    && d.ip == v.ip && d.userAgent == v.userAgent && d.createdAt == v.at
  }

  ghost predicate Consistent(sessions: map<Sid, Stored>, hash: Token -> string, carry: nat, b: Book)
  {
    TokensMatch(sessions, hash, b) && DeadlinesHold(sessions, carry, b) && IdentitiesHold(sessions, b)
  }

  lemma LoginKeepsTokens(sessions: map<Sid, Stored>, hash: Token -> string, b: Book, sid: Sid, token: Token,
                         stored: Stored, visitor: Visitor)
    requires TokensMatch(sessions, hash, b) && sid !in sessions && token !in b.issued
    requires stored.data.refreshTokenHash == hash(token)
    ensures TokensMatch(sessions[sid := stored], hash, AfterLogin(b, sid, token, visitor))
  {
  }

  lemma LoginKeepsDeadlines(sessions: map<Sid, Stored>, carry: nat, b: Book, sid: Sid, token: Token, stored: Stored,
                            visitor: Visitor)
    requires DeadlinesHold(sessions, carry, b) && stored.data.createdAt == visitor.at
    requires stored.expiry == visitor.at + REFRESH_TOKEN_TTL_SECONDS * 1000
    ensures DeadlinesHold(sessions[sid := stored], carry, AfterLogin(b, sid, token, visitor))
  {
  }

  lemma LoginKeeps(sessions: map<Sid, Stored>, hash: Token -> string, carry: nat, b: Book, sid: Sid, token: Token,
                   stored: Stored, visitor: Visitor)
    requires Consistent(sessions, hash, carry, b) && sid !in sessions && token !in b.issued
    requires stored.data.refreshTokenHash == hash(token) && Carries(stored.data, visitor)
    requires stored.expiry == visitor.at + REFRESH_TOKEN_TTL_SECONDS * 1000
    ensures Consistent(sessions[sid := stored], hash, carry, AfterLogin(b, sid, token, visitor))
  {
    LoginKeepsTokens(sessions, hash, b, sid, token, stored, visitor);
    LoginKeepsDeadlines(sessions, carry, b, sid, token, stored, visitor);
  }

  lemma DeletionKeeps(sessions: map<Sid, Stored>, hash: Token -> string, carry: nat, b: Book, sid: Sid, now: nat)
    requires Consistent(sessions, hash, carry, b)
    ensures Consistent(sessions - {sid}, hash, carry, AfterDeletion(b, sid, now))
  {
  }

  lemma TickKeeps(sessions: map<Sid, Stored>, hash: Token -> string, carry: nat, b: Book, now: nat)
    requires Consistent(sessions, hash, carry, b)
    ensures Consistent(sessions, hash, carry, Ticked(b, now))
  {
  }

  lemma RotationKeepsTokens(sessions: map<Sid, Stored>, hash: Token -> string, b: Book, sid: Sid, newToken: Token,
                            now: nat, after: Stored)
    requires TokensMatch(sessions, hash, b) && sid in sessions && sid in b.refreshes && newToken !in b.issued
    requires after.data.refreshTokenHash == hash(newToken)
    ensures TokensMatch(sessions[sid := after], hash, AfterRefresh(b, sid, newToken, false, now))
  {
    StepKeepsTidy(b, Refreshes(sid, newToken, false, now));
  }

  lemma RotationKeepsDeadlines(sessions: map<Sid, Stored>, carry: nat, b: Book, sid: Sid, newToken: Token, now: nat,
                               after: Stored)
    requires DeadlinesHold(sessions, carry, b) && Live(sessions, sid, now) && sid in b.current && carry < 1000
    requires after.expiry == Renewed(sessions[sid].expiry, now, carry)
    requires after.data.createdAt == sessions[sid].data.createdAt
    ensures DeadlinesHold(sessions[sid := after], carry, AfterRefresh(b, sid, newToken, false, now))
  {
    RenewedLater(sessions[sid].expiry, now, carry);
    if b.whole && now % 1000 == 0 { RenewedWhole(sessions[sid].expiry, now, carry); }
  }

  lemma RotationKeepsIdentities(sessions: map<Sid, Stored>, carry: nat, b: Book, sid: Sid, newHash: string,
                                newToken: Token, closing: bool, now: nat)
    requires IdentitiesHold(sessions, b) && sid in b.current && sid in b.refreshes
    ensures IdentitiesHold(Updated(sessions, sid, newHash, now, carry), AfterRefresh(b, sid, newToken, closing, now))
  {
    UpdatedIff(sessions, Updated(sessions, sid, newHash, now, carry), sid, newHash, now, carry);
  }

  lemma RefreshKeeps(sessions: map<Sid, Stored>, hash: Token -> string, carry: nat, b: Book, sid: Sid, newToken: Token,
                     now: nat)
    requires Consistent(sessions, hash, carry, b) && Live(sessions, sid, now) && newToken !in b.issued && carry < 1000
    ensures Consistent(Updated(sessions, sid, hash(newToken), now, carry), hash, carry,
                       AfterRefresh(b, sid, newToken, sessions[sid].expiry - now + carry < 1000, now))
  {
    if Ttl(sessions[sid].expiry, now, carry) > 0 {
      var after := Updated(sessions, sid, hash(newToken), now, carry)[sid];
      RotationKeepsTokens(sessions, hash, b, sid, newToken, now, after);
      RotationKeepsDeadlines(sessions, carry, b, sid, newToken, now, after);
    }
    RotationKeepsIdentities(sessions, carry, b, sid, hash(newToken), newToken,
                            sessions[sid].expiry - now + carry < 1000, now);
  }

  // --- The service. ---

  class AuthService {
    const store: SessionService
    const hash: Token -> string
    ghost const unhash: string -> Token
    var blacklist: map<string, nat>
    ghost var book: Book

    constructor (store: SessionService, hash: Token -> string, ghost unhash: string -> Token)
      requires Injective(hash, unhash) && store.sessions == map[] && store.carry < 1000
      ensures Valid() && this.store == store && this.hash == hash && book == Book(map[], {}, {}, map[], map[], true)
    {
      this.store, this.hash, this.unhash, blacklist := store, hash, unhash, map[];
      book := Book(map[], {}, {}, map[], map[], true);
    }

    ghost predicate Valid()
      reads this, store
    {
      Injective(hash, unhash) && store.carry < 1000 && Consistent(store.sessions, hash, store.carry, book)
    }

    /** The session is live, and the token is the one that it accepts. */
    ghost predicate Accepts(sid: Sid, token: Token, now: nat)
      reads this, store
    {
      Accepted(store.sessions, book, sid, token, now)
    }

    ghost predicate SomeAccepts(token: Token, now: nat)
      reads this, store
    {
      exists sid :: Accepts(sid, token, now)
    }

    /** Less than one second is reported to remain. */
    ghost predicate Closing(sid: Sid, now: nat)
      reads store
    {
      Live(store.sessions, sid, now) && store.sessions[sid].expiry - now + store.carry < 1000
    }

    method Login(sid: Sid, token: Token, visitor: Visitor) returns (r: Issued)
      requires Valid() && sid !in store.sessions && token !in book.issued
      modifies this`book, store
      ensures Valid() && Accepts(sid, token, visitor.at) && book == AfterLogin(old(book), sid, token, visitor)
      ensures SameOthers(old(store.sessions), store.sessions, sid)
      ensures r.refreshToken == token && SignedFor(r.claims, visitor, sid)
      ensures r.claims.orgRole == if visitor.roleInOrg.Some? then visitor.roleInOrg.value else 0
    {
      ghost var before := store.sessions;
      store.CreateSession(sid, visitor.userId, visitor.address, visitor.orgId, hash(token), visitor.ip,
                          visitor.userAgent, visitor.at);
      LoginKeeps(before, hash, store.carry, book, sid, token, store.sessions[sid], visitor);
      book := AfterLogin(book, sid, token, visitor);
      var role := if visitor.roleInOrg.Some? then visitor.roleInOrg.value else 0;
      r := Issued(Claims(visitor.userId, visitor.address, visitor.orgId, role, sid), token);
    }

    /** updateSession with a fresh token, and a new access token; the role is not kept. */
    method Rotate(sid: Sid, newToken: Token, now: nat) returns (r: Issued)
      requires Valid() && Live(store.sessions, sid, now) && newToken !in book.issued
      modifies this`book, store
      ensures Valid() && OnlyRotated(old(store.sessions), store.sessions, sid, hash(newToken), now, store.carry)
      ensures book == AfterRefresh(old(book), sid, newToken, old(Closing(sid, now)), now)
      ensures Accepts(sid, newToken, now) <==> !old(Closing(sid, now))
      ensures Accepts(sid, old(book).current[sid], now) <==> old(Closing(sid, now))
      ensures r.refreshToken == newToken && r.claims.orgRole == 0 && SignedFor(r.claims, old(book).visitors[sid], sid)
    {
      var session := store.sessions[sid].data;
      ghost var closing := Closing(sid, now);
      ghost var before := store.sessions;
      store.UpdateSession(sid, hash(newToken), now);
      Rotated(before, store.sessions, hash, store.carry, book, sid, newToken, closing, now);
      book := AfterRefresh(book, sid, newToken, closing, now);
      r := Issued(Claims(session.userId, session.address, session.orgId, 0, sid), newToken);
    }

    /** Succeeds iff the session accepts the token; a live session that accepts another one is destroyed. */
    method Refresh(token: Token, sid: Sid, newToken: Token, now: nat) returns (r: Result<Issued, AuthError>)
      requires Valid() && newToken !in book.issued
      modifies this`book, store
      ensures Valid() && (r.Ok? <==> old(Accepts(sid, token, now)))
      ensures r.Ok? ==> r.value.refreshToken == newToken && r.value.claims.orgRole == 0
      ensures r.Ok? ==> sid in old(book).visitors && SignedFor(r.value.claims, old(book).visitors[sid], sid)
      ensures r.Ok? ==> OnlyRotated(old(store.sessions), store.sessions, sid, hash(newToken), now, store.carry)
      ensures r.Ok? ==> book == AfterRefresh(old(book), sid, newToken, old(Closing(sid, now)), now)
      ensures r.Ok? ==> (Accepts(sid, newToken, now) <==> !old(Closing(sid, now)))
      ensures r.Ok? ==> (Accepts(sid, token, now) <==> old(Closing(sid, now)))
      ensures r == Err(TokenReuseDetected) <==> old(Live(store.sessions, sid, now)) && !old(Accepts(sid, token, now))
      ensures r == Err(TokenReuseDetected) ==>
        store.sessions == old(store.sessions) - {sid} && book == AfterDeletion(old(book), sid, now)
      ensures r == Err(SessionExpired) ==> store.sessions == old(store.sessions) && book == Ticked(old(book), now)
    {
      var incoming := hash(token);
      var session := store.GetSession(sid, now);
      if session.None? {
        TickKeeps(store.sessions, hash, store.carry, book, now);
        book := Ticked(book, now);
        return Err(SessionExpired);
      }
      assert unhash(hash(book.current[sid])) == book.current[sid] && unhash(hash(token)) == token;
      if session.value.refreshTokenHash != incoming {
        DeletionKeeps(store.sessions, hash, store.carry, book, sid, now);
        store.DeleteSession(sid);
        book := AfterDeletion(book, sid, now);
        return Err(TokenReuseDetected);
      }
      var issued := Rotate(sid, newToken, now);
      r := Ok(issued);
    }

    /** Succeeds iff some session accepts the token, and then rotates the token of that session. */
    method RefreshByCookie(token: Token, newToken: Token, now: nat, pages: seq<seq<Sid>>)
      returns (r: Result<Issued, AuthError>, found: Option<Sid>)
      requires Valid() && newToken !in book.issued && |pages| > 0 && Lists(pages, store.sessions, now)
      modifies this`book, store
      ensures Valid() && (found.Some? <==> r.Ok?) && (r.Ok? <==> old(SomeAccepts(token, now)))
      ensures r.Ok? ==> old(Accepts(found.value, token, now))
      ensures r.Ok? ==> r.value.refreshToken == newToken && r.value.claims.orgRole == 0
      ensures r.Ok? ==> SignedFor(r.value.claims, old(book).visitors[found.value], found.value)
      ensures r.Ok? ==> OnlyRotated(old(store.sessions), store.sessions, found.value, hash(newToken), now, store.carry)
      ensures r.Ok? ==> book == AfterRefresh(old(book), found.value, newToken, old(Closing(found.value, now)), now)
      ensures r.Ok? ==> (Accepts(found.value, newToken, now) <==> !old(Closing(found.value, now)))
      ensures r.Ok? ==> (Accepts(found.value, token, now) <==> old(Closing(found.value, now)))
      ensures r.Err? ==>
        r.error == SessionExpired && store.sessions == old(store.sessions) && book == Ticked(old(book), now)
    {
      found := Lookup(token, now, pages);
      if found.None? {
        TickKeeps(store.sessions, hash, store.carry, book, now);
        book := Ticked(book, now);
        return Err(SessionExpired), None;
      }
      var issued := Rotate(found.value, newToken, now);
      r := Ok(issued);
    }

    method Lookup(token: Token, now: nat, pages: seq<seq<Sid>>) returns (found: Option<Sid>)
      requires Valid() && |pages| > 0 && Lists(pages, store.sessions, now)
      ensures found.Some? <==> SomeAccepts(token, now)
      ensures found.Some? ==> Accepts(found.value, token, now)
    {
      found := store.GetSessionByRefreshHash(hash(token), now, pages);
      if found.Some? { FoundIsAccepted(found.value, token, now); } else { NoneAccepted(token, now); }
    }

    lemma FoundIsAccepted(sid: Sid, token: Token, now: nat)
      requires Valid() && Matches(store.sessions, sid, hash(token), now)
      ensures Accepts(sid, token, now)
    {
      assert unhash(hash(book.current[sid])) == book.current[sid] && unhash(hash(token)) == token;
    }

    lemma NoneAccepted(token: Token, now: nat)
      requires Valid() && forall s :: !Matches(store.sessions, s, hash(token), now)
      ensures forall s :: !Accepts(s, token, now)
    {
      forall s ensures !Accepts(s, token, now)
      {
        assert !Matches(store.sessions, s, hash(token), now);
      }
    }

    /** Deletes the session, and blocks the access token until its own expiry, which is in whole seconds. */
    method Logout(sid: Sid, jti: string, exp: nat, now: nat)
      requires Valid()
      modifies this`book, this`blacklist, store
      ensures Valid() && store.sessions == old(store.sessions) - {sid} && book == AfterDeletion(old(book), sid, now)
      ensures now < exp * 1000 ==> jti in blacklist && exp * 1000 <= blacklist[jti] < exp * 1000 + 1000
      ensures now >= exp * 1000 ==> blacklist == old(blacklist)
      ensures forall j :: j in old(blacklist) && j != jti ==> j in blacklist && blacklist[j] == old(blacklist)[j]
    {
      DeletionKeeps(store.sessions, hash, store.carry, book, sid, now);
      store.DeleteSession(sid);
      book := AfterDeletion(book, sid, now);
      var remaining: int := exp - now / 1000;
      if remaining > 0 { blacklist := blacklist[jti := now + remaining * 1000]; }
    }

    // --- What Valid means for a caller. ---

    /** A token that was replaced is accepted by no session, at any time. */
    lemma RetiredIsDead(token: Token, sid: Sid, now: nat)
      requires Valid() && token in book.retired
      ensures !Accepts(sid, token, now)
    {
    }

    /** No two sessions accept the same token, so the scan has one possible result: what a direct index would give. */
    lemma OneSessionPerToken(token: Token, s: Sid, t: Sid, now: nat)
      requires Valid() && Accepts(s, token, now) && Accepts(t, token, now)
      ensures s == t && store.sessions[s].data.refreshTokenHash == hash(token)
    {
    }

    /** What is stored for a session, and so what every access token is signed for, is what it was opened with. */
    lemma IdentityIsThatOfLogin(sid: Sid)
      requires Valid() && sid in store.sessions
      ensures sid in book.visitors && store.sessions[sid].data.userId == book.visitors[sid].userId
      ensures store.sessions[sid].data.address == book.visitors[sid].address
      ensures store.sessions[sid].data.orgId == book.visitors[sid].orgId
    {
    }

    /** If all calls came at whole seconds, or the store rounds down, no session outlives its creation by more. */
    lemma Deadline(sid: Sid)
      requires Valid() && sid in store.sessions && (book.whole || store.carry == 0)
      ensures store.sessions[sid].expiry <= store.sessions[sid].data.createdAt + 604_800_000
    {
      TimesZero(book.refreshes[sid]);
    }
  }

  lemma {:induction false} TimesZero(n: nat)
    ensures Times(n, 0) == 0
  {
    if n > 0 { TimesZero(n - 1); }
  }

  // --- Whole histories. ---

  /** What a call does to the book. */
  datatype Step =
    | LogsIn(sid: Sid, token: Token, visitor: Visitor)
    | Refreshes(sid: Sid, token: Token, closing: bool, now: nat)
    | Deletes(sid: Sid, now: nat)
    | Fails(now: nat)

  /** A refresh needs its session, and tokens and new session ids are fresh. */
  predicate Allowed(b: Book, step: Step)
  {
    match step
    case LogsIn(sid, token, _) => sid !in b.current && token !in b.issued
    case Refreshes(sid, token, _, _) => sid in b.current && sid in b.refreshes && token !in b.issued
    case Deletes(_, _) => true
    case Fails(_) => true
  }

  function After(b: Book, step: Step): (b': Book)
    requires Allowed(b, step)
  {
    match step
    case LogsIn(sid, token, visitor) => AfterLogin(b, sid, token, visitor)
    case Refreshes(sid, token, closing, now) => AfterRefresh(b, sid, token, closing, now)
    case Deletes(sid, now) => AfterDeletion(b, sid, now)
    case Fails(now) => Ticked(b, now)
  }

  /** These steps lead from one book to the other. */
  ghost predicate LeadTo(b: Book, steps: seq<Step>, b': Book)
    decreases |steps|
  {
    if steps == [] then b' == b
    else Allowed(b, steps[0]) && LeadTo(After(b, steps[0]), steps[1..], b')
  }

  lemma StepKeepsTidy(b: Book, step: Step)
    requires Tidy(b) && Allowed(b, step)
    ensures Tidy(After(b, step)) && b.retired <= After(b, step).retired
  {
  }

  /** Once retired, a token stays retired, and is never again the one that some session accepts. */
  lemma {:induction false} RetiredStays(b: Book, steps: seq<Step>, b': Book, token: Token)
    requires Tidy(b) && LeadTo(b, steps, b') && token in b.retired
    ensures Tidy(b') && token in b'.retired && forall s :: s in b'.current ==> b'.current[s] != token
    decreases |steps|
  {
    if steps != [] {
      StepKeepsTidy(b, steps[0]);
      RetiredStays(After(b, steps[0]), steps[1..], b', token);
    }
  }

  /** As long as a session is not deleted, it belongs to the one who opened it. */
  lemma {:induction false} VisitorStays(b: Book, steps: seq<Step>, b': Book, sid: Sid)
    requires Tidy(b) && LeadTo(b, steps, b') && sid in b.visitors
    requires forall i :: 0 <= i < |steps| ==> !(steps[i].Deletes? && steps[i].sid == sid)
    ensures sid in b'.visitors && b'.visitors[sid] == b.visitors[sid]
    decreases |steps|
  {
    if steps != [] {
      StepKeepsTidy(b, steps[0]);
      VisitorStays(After(b, steps[0]), steps[1..], b', sid);
    }
  }

  /** The claims after a refresh are those of the login iff the role was 0 or unknown: it is not kept. */
  lemma ClaimsKeptIff(first: Claims, later: Claims, v: Visitor, sid: Sid)
    requires SignedFor(first, v, sid) && first.orgRole == (if v.roleInOrg.Some? then v.roleInOrg.value else 0)
    requires SignedFor(later, v, sid) && later.orgRole == 0
    ensures later == first <==> v.roleInOrg == None || v.roleInOrg == Some(0)
  {
  }

  /** The token that a refresh replaces is never accepted again, whatever comes after. */
  lemma ReplacedForGood(b: Book, sid: Sid, newToken: Token, now: nat, steps: seq<Step>, b': Book)
    requires Tidy(b) && sid in b.current && sid in b.refreshes && newToken !in b.issued
    requires LeadTo(AfterRefresh(b, sid, newToken, false, now), steps, b')
    ensures forall s :: s in b'.current ==> b'.current[s] != b.current[sid]
  {
    StepKeepsTidy(b, Refreshes(sid, newToken, false, now));
    RetiredStays(AfterRefresh(b, sid, newToken, false, now), steps, b', b.current[sid]);
  }

  /**
   * After a refresh the session accepts the token handed out iff at least one second was reported to
   * remain; otherwise it goes on accepting the old one.
   */
  lemma {:induction false} RotationTakesEffectIff(sessions: map<Sid, Stored>, hash: Token -> string, carry: nat,
                                                  b: Book, sid: Sid, newToken: Token, now: nat)
    requires Consistent(sessions, hash, carry, b) && Live(sessions, sid, now) && newToken !in b.issued
    ensures var closing := sessions[sid].expiry - now + carry < 1000;
      var after, b' := Updated(sessions, sid, hash(newToken), now, carry), AfterRefresh(b, sid, newToken, closing, now);
      && (Accepted(after, b', sid, newToken, now) <==> !closing)
      && (Accepted(after, b', sid, b.current[sid], now) <==> closing)
  {
    UpdateKeepsLive(sessions, sid, hash(newToken), now, carry);
    assert newToken != b.current[sid];
  }

  lemma UpdateKeepsLive(sessions: map<Sid, Stored>, sid: Sid, newHash: string, now: nat, carry: nat)
    requires Live(sessions, sid, now)
    ensures Live(Updated(sessions, sid, newHash, now, carry), sid, now)
  {
  }

  /** Every session has moments, up to its expiry, in which a refresh leaves the old token in force. */
  lemma EverySessionCloses(sessions: map<Sid, Stored>, hash: Token -> string, carry: nat, b: Book, sid: Sid,
                           newToken: Token, now: nat)
    requires Consistent(sessions, hash, carry, b) && sid in sessions && newToken !in b.issued && carry < 1000
    requires sessions[sid].expiry - (999 - carry) <= now <= sessions[sid].expiry
    ensures Accepted(sessions, b, sid, b.current[sid], now)
    ensures var after := Updated(sessions, sid, hash(newToken), now, carry);
      var b' := AfterRefresh(b, sid, newToken, true, now);
      !Accepted(after, b', sid, newToken, now) && Accepted(after, b', sid, b.current[sid], now)
  {
    RotationTakesEffectIff(sessions, hash, carry, b, sid, newToken, now);
  }

  /** What an update with a fresh token makes of the book. */
  lemma {:induction false} Rotated(sessions: map<Sid, Stored>, after: map<Sid, Stored>, hash: Token -> string,
                                   carry: nat, b: Book, sid: Sid, newToken: Token, closing: bool, now: nat)
    requires Consistent(sessions, hash, carry, b) && Live(sessions, sid, now) && newToken !in b.issued && carry < 1000
    requires OnlyRotated(sessions, after, sid, hash(newToken), now, carry)
    requires closing == (sessions[sid].expiry - now + carry < 1000)
    ensures var b' := AfterRefresh(b, sid, newToken, closing, now);
      && Consistent(after, hash, carry, b')
      && (Accepted(after, b', sid, newToken, now) <==> !closing)
      && (Accepted(after, b', sid, b.current[sid], now) <==> closing)
  {
    UpdatedIff(sessions, after, sid, hash(newToken), now, carry);
    RotationTakesEffectIff(sessions, hash, carry, b, sid, newToken, now);
    RefreshKeeps(sessions, hash, carry, b, sid, newToken, now);
  }
}
