/**
 Sessions: sign-in, single-use refresh tokens, revocation and pruning. A session row is keyed by the
 hash of its refresh token. Random generation is an input (`Mint`), hashing an arbitrary function.
 */
module Sessions {
  import opened Numbers
  import opened Wrappers

  type Hash = string
  type UserId = string
  type SessionId = string

  // ---------- The session table ----------

  datatype Session = Session(id: SessionId, userId: UserId, issuedAt: int, expiresAt: int, revoked: bool)

  function OpenSession(id: SessionId, user: UserId, issuedAt: int, ttlSecs: int): Session {
    Session(id, user, issuedAt, SaturatingAdd(issuedAt, ttlSecs), false)
  }

  datatype RefreshReject = Unknown | Revoked | Expired

  datatype RefreshOutcome = Rotate(userId: UserId) | Reject(reason: RefreshReject)

  function EvaluateRefresh(session: Option<Session>, now: int): RefreshOutcome {
    match session
    case None => Reject(Unknown)
    case Some(s) =>
      if s.revoked then Reject(Revoked)
      else if now >= s.expiresAt then Reject(Expired)
      else Rotate(s.userId)
  }

  type Table = map<Hash, Session>

  function Find(table: Table, hash: Hash): Option<Session> {
    if hash in table then Some(table[hash]) else None
  }

  predicate HasId(table: Table, id: SessionId) {
    exists h | h in table :: table[h].id == id
  }

  /** Both the id and the refresh hash are unique, so an insertion may be refused. */
  predicate CanCreate(table: Table, hash: Hash, id: SessionId) {
    hash !in table && !HasId(table, id)
  }

  function WithIdRevoked(table: Table, id: SessionId): Table {
    map h | h in table :: if table[h].id == id then table[h].(revoked := true) else table[h]
  }

  function WithUserRevoked(table: Table, user: UserId): Table {
    map h | h in table :: if table[h].userId == user then table[h].(revoked := true) else table[h]
  }

  function Pruned(table: Table, now: int): Table {
    map h | h in table && table[h].expiresAt > now :: table[h]
  }

  /** The rows not yet revoked, expired or not. */
  function Standing(table: Table): set<Hash> {
    set h | h in table && !table[h].revoked
  }

  ghost predicate UniqueIds(table: Table) {
    forall g, h | g in table && h in table && table[g].id == table[h].id :: g == h
  }

  // ---------- The flows ----------

  datatype ProviderKind = Discord | Google | Email

  datatype Identity = Identity(provider: ProviderKind, subject: string)

  datatype AuthError = InvalidClaims | Refresh(reason: RefreshReject) | Collision(boundTo: UserId) | Db

  datatype AccessClaims = AccessClaims(
    sub: UserId, sessionId: SessionId, workspaces: seq<string>, issuedAt: int, expiresAt: int)

  datatype TokenPair = TokenPair(
    access: AccessClaims, refreshToken: string, userId: UserId, sessionId: SessionId, accessExpiresAt: int)

  /** What one event may draw from the random generator. */
  datatype Mint = Mint(token: string, sessionId: SessionId, userId: UserId)

  datatype Keys = Keys(hash: string -> Hash, accessTtl: int, refreshTtl: int)

  datatype Auth = Auth(sessions: Table, identities: map<Identity, UserId>)

  type Reply = Result<TokenPair, AuthError>

  function PairFor(k: Keys, user: UserId, workspaces: seq<string>, mint: Mint, now: int): TokenPair {
    var claims := AccessClaims(user, mint.sessionId, workspaces, now, SaturatingAdd(now, k.accessTtl));
    TokenPair(claims, mint.token, user, mint.sessionId, claims.expiresAt)
  }

  /** Opens a session and hands out its tokens. */
  function Issue(k: Keys, a: Auth, user: UserId, workspaces: seq<string>, mint: Mint, now: int): (Auth, Reply) {
    if CanCreate(a.sessions, k.hash(mint.token), mint.sessionId) then
      (a.(sessions := a.sessions[k.hash(mint.token) := OpenSession(mint.sessionId, user, now, k.refreshTtl)]),
       Ok(PairFor(k, user, workspaces, mint, now)))
    else
      (a, Err(Db))
  }

  /** Signs in the user an identity is bound to, or provisions and binds a new one. */
  function SignIn(k: Keys, a: Auth, identity: Option<Identity>, workspaces: seq<string>, mint: Mint, now: int)
    : (Auth, Reply)
  {
    match identity
    case None => (a, Err(InvalidClaims))
    case Some(i) =>
      if i in a.identities then Issue(k, a, a.identities[i], workspaces, mint, now)
      else Issue(k, a.(identities := a.identities[i := mint.userId]), mint.userId, workspaces, mint, now)
  }

  /** Trades a refresh token for a new pair, revoking the session it came from. */
  function Rotated(k: Keys, a: Auth, token: string, workspaces: seq<string>, mint: Mint, now: int): (Auth, Reply) {
    var session := Find(a.sessions, k.hash(token));
    match EvaluateRefresh(session, now)
    case Reject(reason) => (a, Err(Refresh(reason)))
    case Rotate(user) =>
      Issue(k, a.(sessions := WithIdRevoked(a.sessions, session.value.id)), user, workspaces, mint, now)
  }

  /** Binds another identity to a signed-in user, never moving one that is bound already. */
  function Linked(a: Auth, acting: UserId, identity: Option<Identity>): (Auth, Result<(), AuthError>) {
    match identity
    case None => (a, Err(InvalidClaims))
    case Some(i) =>
      if i !in a.identities then (a.(identities := a.identities[i := acting]), Ok(()))
      else if a.identities[i] == acting then (a, Ok(()))
      else (a, Err(Collision(a.identities[i])))
  }

  // ---------- The stores and the service ----------

  class AuthRepository {
    var sessions: Table
    var identities: map<Identity, UserId>

    constructor ()
      ensures View() == Auth(map[], map[])
    {
      sessions, identities := map[], map[];
    }

    function View(): Auth
      reads this
    {
      Auth(sessions, identities)
    }

    method CreateSession(hash: Hash, session: Session) returns (ok: bool)
      modifies this`sessions
      ensures ok == CanCreate(old(sessions), hash, session.id)
      ensures !ok <==> hash in old(sessions) || exists h | h in old(sessions) :: old(sessions)[h].id == session.id
      ensures sessions == if ok then old(sessions)[hash := session] else old(sessions)
    {
      ok := CanCreate(sessions, hash, session.id);
      if ok {
        sessions := sessions[hash := session];
      }
    }

    method FindSessionByRefresh(hash: Hash) returns (session: Option<Session>)
      ensures session.Some? <==> hash in sessions
      ensures session.Some? ==> session.value == sessions[hash]
    {
      session := Find(sessions, hash);
    }

    /** Revokes one session; says whether that changed anything. */
    method RevokeSession(id: SessionId) returns (changed: bool)
      modifies this`sessions
      ensures sessions.Keys == old(sessions).Keys
      ensures forall h | h in sessions ::
                sessions[h] == old(sessions)[h].(revoked := old(sessions)[h].revoked || old(sessions)[h].id == id)
      ensures changed <==> sessions != old(sessions)
      ensures sessions == WithIdRevoked(old(sessions), id)
    {
      changed := exists h | h in sessions :: sessions[h].id == id && !sessions[h].revoked;
      sessions := WithIdRevoked(sessions, id);
      if changed {
        ghost var h :| h in old(sessions) && old(sessions)[h].id == id && !old(sessions)[h].revoked;
        assert sessions[h].revoked;
      } else {
        assert sessions == old(sessions);
      }
    }

    /** Revokes everything a user has; says how many sessions that ended. */
    method RevokeAllForUser(user: UserId) returns (count: nat)
      modifies this`sessions
      ensures sessions == WithUserRevoked(old(sessions), user)
      ensures Standing(sessions) == set h | h in Standing(old(sessions)) && old(sessions)[h].userId != user
      ensures count == |Standing(old(sessions))| - |Standing(sessions)|
    {
      var ended := set h | h in sessions && sessions[h].userId == user && !sessions[h].revoked;
      count := |ended|;
      sessions := WithUserRevoked(sessions, user);
      assert Standing(sessions) == Standing(old(sessions)) - ended;
    }

    /** Drops the sessions that expired on or before `now`; says how many. */
    method PruneExpired(now: int) returns (count: nat)
      modifies this`sessions
      ensures sessions == Pruned(old(sessions), now)
      ensures forall h | h in old(sessions) :: h in sessions <==> now < old(sessions)[h].expiresAt
      ensures count == |old(sessions)| - |sessions|
    {
      var dropped := set h | h in sessions && sessions[h].expiresAt <= now;
      count := |dropped|;
      sessions := Pruned(sessions, now);
      assert sessions.Keys == old(sessions).Keys - dropped;
    }

    /** Binds an identity unless it is bound: one identity never changes its user. */
    method LinkIdentity(identity: Identity, user: UserId) returns (ok: bool)
      modifies this`identities
      ensures ok <==> identity !in old(identities)
      ensures identities == if ok then old(identities)[identity := user] else old(identities)
    {
      ok := identity !in identities;
      if ok {
        identities := identities[identity := user];
      }
    }
  }

  class AuthService {
    const repo: AuthRepository
    const keys: Keys

    constructor (repo: AuthRepository, keys: Keys)
      ensures this.repo == repo && this.keys == keys
    {
      this.repo, this.keys := repo, keys;
    }

    method IssuePair(user: UserId, workspaces: seq<string>, mint: Mint, now: int) returns (r: Reply)
      modifies repo
      ensures (repo.View(), r) == Issue(keys, old(repo.View()), user, workspaces, mint, now)
    {
      var session := OpenSession(mint.sessionId, user, now, keys.refreshTtl);
      var ok := repo.CreateSession(keys.hash(mint.token), session);
      if !ok {
        return Err(Db);
      }
      var claims := AccessClaims(user, mint.sessionId, workspaces, now, SaturatingAdd(now, keys.accessTtl));
      return Ok(TokenPair(claims, mint.token, user, mint.sessionId, claims.expiresAt));
    }

    method Login(identity: Option<Identity>, workspaces: seq<string>, mint: Mint, now: int) returns (r: Reply)
      modifies repo
      ensures (repo.View(), r) == SignIn(keys, old(repo.View()), identity, workspaces, mint, now)
    {
      if identity.None? {
        return Err(InvalidClaims);
      }
      var user := mint.userId;
      if identity.value in repo.identities {
        user := repo.identities[identity.value];
      } else {
        var bound := repo.LinkIdentity(identity.value, user);
      }
      r := IssuePair(user, workspaces, mint, now);
    }

    method Refresh(token: string, workspaces: seq<string>, mint: Mint, now: int) returns (r: Reply)
      modifies repo
      ensures (repo.View(), r) == Rotated(keys, old(repo.View()), token, workspaces, mint, now)
    {
      var session := repo.FindSessionByRefresh(keys.hash(token));
      match EvaluateRefresh(session, now) {
        case Rotate(user) =>
          var changed := repo.RevokeSession(session.value.id);
          r := IssuePair(user, workspaces, mint, now);
        case Reject(reason) =>
          r := Err(AuthError.Refresh(reason));
      }
    }

    method Link(acting: UserId, identity: Option<Identity>) returns (r: Result<(), AuthError>)
      modifies repo
      ensures (repo.View(), r) == Linked(old(repo.View()), acting, identity)
    {
      if identity.None? {
        return Err(InvalidClaims);
      }
      var i := identity.value;
      if i !in repo.identities {
        var bound := repo.LinkIdentity(i, acting);
        return Ok(());
      }
      return if repo.identities[i] == acting then Ok(()) else Err(Collision(repo.identities[i]));
    }
  }

  // ---------- Runs ----------

  datatype AuthEvent =
    | Logins(identity: Option<Identity>, workspaces: seq<string>, mint: Mint, now: int)
    | Refreshes(token: string, workspaces: seq<string>, mint: Mint, now: int)
    | Links(acting: UserId, identity: Option<Identity>)
    | Revokes(id: SessionId)
    | RevokesAll(user: UserId)
    | Prunes(now: int)
  {
    predicate Mints(k: Keys, hash: Hash) {
      (Logins? || Refreshes?) && k.hash(mint.token) == hash
    }
  }

  function After(k: Keys, a: Auth, e: AuthEvent): Auth {
    match e
    case Logins(identity, workspaces, mint, now) => SignIn(k, a, identity, workspaces, mint, now).0
    case Refreshes(token, workspaces, mint, now) => Rotated(k, a, token, workspaces, mint, now).0
    case Links(acting, identity) => Linked(a, acting, identity).0
    case Revokes(id) => a.(sessions := WithIdRevoked(a.sessions, id))
    case RevokesAll(user) => a.(sessions := WithUserRevoked(a.sessions, user))
    case Prunes(now) => a.(sessions := Pruned(a.sessions, now))
  }

  /** The pair an event hands out, if any. */
  function HandedOut(k: Keys, a: Auth, e: AuthEvent): Option<TokenPair> {
    var reply := match e
      case Logins(identity, workspaces, mint, now) => SignIn(k, a, identity, workspaces, mint, now).1
      case Refreshes(token, workspaces, mint, now) => Rotated(k, a, token, workspaces, mint, now).1
      case _ => Err(Db);
    if reply.Ok? then Some(reply.value) else None
  }

  function AfterAll(k: Keys, a: Auth, events: seq<AuthEvent>): Auth {
    if events == [] then a
    else After(k, AfterAll(k, a, events[..|events| - 1]), events[|events| - 1])
  }

  /** Event `i` of a run presents `token` and is given a new pair for it. */
  predicate Accepts(k: Keys, a: Auth, events: seq<AuthEvent>, i: nat, token: string)
    requires i < |events|
  {
    && events[i].Refreshes? && events[i].token == token
    && HandedOut(k, AfterAll(k, a, events[..i]), events[i]).Some?
  }

  /** Tokens are drawn fresh: their hashes differ from each other and from those stored at the start. */
  ghost predicate FreshTokens(k: Keys, a: Auth, events: seq<AuthEvent>) {
    && (forall i, h | 0 <= i < |events| && h in a.sessions :: !events[i].Mints(k, h))
    && (forall i, j | 0 <= i < j < |events| && (events[i].Logins? || events[i].Refreshes?) ::
          !events[j].Mints(k, k.hash(events[i].mint.token)))
  }

  // ---------- One row, one event ----------

  /** The events that revoke a row: presenting its token in time, or revoking its id or its user. */
  predicate Kills(k: Keys, e: AuthEvent, hash: Hash, row: Session) {
    match e
    case Refreshes(token, _, _, now) => k.hash(token) == hash && now < row.expiresAt
    case Revokes(id) => id == row.id
    case RevokesAll(user) => user == row.userId
    case _ => false
  }

  predicate Drops(e: AuthEvent, row: Session) {
    e.Prunes? && row.expiresAt <= e.now
  }

  lemma FewerRowsStayUnique(table: Table, id: SessionId, user: UserId, now: int)
    requires UniqueIds(table)
    ensures UniqueIds(WithIdRevoked(table, id)) && UniqueIds(WithUserRevoked(table, user))
    ensures UniqueIds(Pruned(table, now))
  {
  }

  lemma IssuingKeepsIdsUnique(k: Keys, a: Auth, user: UserId, workspaces: seq<string>, mint: Mint, now: int)
    requires UniqueIds(a.sessions)
    ensures UniqueIds(Issue(k, a, user, workspaces, mint, now).0.sessions)
  {
  }

  lemma IdsStayUnique(k: Keys, a: Auth, e: AuthEvent)
    requires UniqueIds(a.sessions)
    ensures UniqueIds(After(k, a, e).sessions)
  {
    hide UniqueIds, Issue, WithIdRevoked, WithUserRevoked, Pruned;
    match e
    case Logins(_, workspaces, mint, now) =>
      forall b: Auth, user | b.sessions == a.sessions
        ensures UniqueIds(Issue(k, b, user, workspaces, mint, now).0.sessions)
      {
        IssuingKeepsIdsUnique(k, b, user, workspaces, mint, now);
      }
    case Refreshes(token, workspaces, mint, now) =>
      var session := Find(a.sessions, k.hash(token));
      if session.Some? {
        FewerRowsStayUnique(a.sessions, session.value.id, "", now);
        IssuingKeepsIdsUnique(k, a.(sessions := WithIdRevoked(a.sessions, session.value.id)), session.value.userId,
                              workspaces, mint, now);
      }
    case Links(_, _) =>
    case Revokes(id) => FewerRowsStayUnique(a.sessions, id, "", 0);
    case RevokesAll(user) => FewerRowsStayUnique(a.sessions, "", user, 0);
    case Prunes(now) => FewerRowsStayUnique(a.sessions, "", "", now);
  }

  /** What an event does to a row whose token it does not mint: drop it, revoke it, or nothing. */
  lemma RowUnderOneEvent(k: Keys, a: Auth, e: AuthEvent, hash: Hash)
    requires UniqueIds(a.sessions) && !e.Mints(k, hash)
    ensures hash in After(k, a, e).sessions <==> hash in a.sessions && !Drops(e, a.sessions[hash])
    ensures hash in After(k, a, e).sessions ==>
              var row := a.sessions[hash];
              After(k, a, e).sessions[hash] == row.(revoked := row.revoked || Kills(k, e, hash, row))
  {
  }

  /** A refresh is accepted only from an unrevoked, unexpired row, whose user it keeps. */
  lemma AcceptedRow(k: Keys, a: Auth, e: AuthEvent)
    requires e.Refreshes? && HandedOut(k, a, e).Some?
    ensures var hash := k.hash(e.token);
            && hash in a.sessions && !a.sessions[hash].revoked && e.now < a.sessions[hash].expiresAt
            && !e.Mints(k, hash)
            && HandedOut(k, a, e).value.userId == a.sessions[hash].userId
            && Kills(k, e, hash, a.sessions[hash])
  {
  }

  lemma RevokingKeepsIds(table: Table, id: SessionId, other: SessionId)
    ensures HasId(WithIdRevoked(table, id), other) <==> HasId(table, other)
  {
    var revoked := WithIdRevoked(table, id);
    assert forall h | h in table :: h in revoked && revoked[h].id == table[h].id;
  }

  /** The row behind a pair just handed out. */
  lemma HandedOutRow(k: Keys, a: Auth, e: AuthEvent)
    requires HandedOut(k, a, e).Some?
    ensures var pair := HandedOut(k, a, e).value;
            && pair.refreshToken == e.mint.token && k.hash(pair.refreshToken) !in a.sessions
            && pair.access.sub == pair.userId && pair.access.sessionId == pair.sessionId
            && pair.access.workspaces == e.workspaces && pair.access.issuedAt == e.now
            && pair.accessExpiresAt == pair.access.expiresAt == SaturatingAdd(e.now, k.accessTtl)
            && !HasId(a.sessions, pair.sessionId)
            && After(k, a, e).sessions.Keys == a.sessions.Keys + {k.hash(pair.refreshToken)}
            && After(k, a, e).sessions[k.hash(pair.refreshToken)]
                 == OpenSession(pair.sessionId, pair.userId, e.now, k.refreshTtl)
                 == Session(pair.sessionId, pair.userId, e.now, SaturatingAdd(e.now, k.refreshTtl), false)
  {
    if e.Refreshes? {
      RevokingKeepsIds(a.sessions, a.sessions[k.hash(e.token)].id, e.mint.sessionId);
    }
  }

  // ---------- One row over a run ----------

  lemma {:induction false} IdsAreUnique(k: Keys, a: Auth, events: seq<AuthEvent>)
    requires UniqueIds(a.sessions)
    ensures UniqueIds(AfterAll(k, a, events).sessions)
  {
    if events != [] {
      IdsAreUnique(k, a, events[..|events| - 1]);
      IdsStayUnique(k, AfterAll(k, a, events[..|events| - 1]), events[|events| - 1]);
    }
  }

  /** The verdict on a token, told from the history of its row alone. */
  ghost function VerdictOf(k: Keys, hash: Hash, row: Session, since: seq<AuthEvent>, now: int): RefreshOutcome {
    if exists e <- since :: Drops(e, row) then Reject(Unknown)
    else if exists e <- since :: Kills(k, e, hash, row) then Reject(Revoked)
    else if now >= row.expiresAt then Reject(Expired)
    else Rotate(row.userId)
  }

  lemma {:induction false} RowOverRun(k: Keys, a: Auth, events: seq<AuthEvent>, hash: Hash)
    requires UniqueIds(a.sessions) && hash in a.sessions
    requires forall e <- events :: !e.Mints(k, hash)
    ensures var row, table := a.sessions[hash], AfterAll(k, a, events).sessions;
            && (hash in table <==> forall e <- events :: !Drops(e, row))
            && (hash in table ==>
                  table[hash] == row.(revoked := row.revoked || exists e <- events :: Kills(k, e, hash, row)))
  {
    if events != [] {
      var prefix, e := events[..|events| - 1], events[|events| - 1];
      RowOverRun(k, a, prefix, hash);
      IdsAreUnique(k, a, prefix);
      RowUnderOneEvent(k, AfterAll(k, a, prefix), e, hash);
      assert AfterAll(k, a, events) == After(k, AfterAll(k, a, prefix), e);
      hide After, AfterAll, UniqueIds;
      SplitLast(prefix, e, events);
      var row, m := a.sessions[hash], AfterAll(k, a, prefix).sessions;
      assert hash in m ==> (Drops(e, m[hash]) <==> Drops(e, row));
      assert hash in m ==> (Kills(k, e, hash, m[hash]) <==> Kills(k, e, hash, row));
      hide Drops, Kills;
    }
  }

  lemma SplitLast(prefix: seq<AuthEvent>, e: AuthEvent, events: seq<AuthEvent>)
    requires events != [] && prefix == events[..|events| - 1] && e == events[|events| - 1]
    ensures forall x :: x in events <==> x in prefix || x == e
  {
  }

  /**
   The exact verdict, over every run: a token just stored is Unknown once a prune reached its expiry;
   until then Revoked if it was presented in time or its session or user was revoked; otherwise
   Expired or accepted by the clock.
   */
  lemma VerdictIsTheHistory(k: Keys, a: Auth, events: seq<AuthEvent>, hash: Hash, now: int)
    requires UniqueIds(a.sessions) && hash in a.sessions && !a.sessions[hash].revoked
    requires forall e <- events :: !e.Mints(k, hash)
    ensures EvaluateRefresh(Find(AfterAll(k, a, events).sessions, hash), now)
         == VerdictOf(k, hash, a.sessions[hash], events, now)
  {
    RowOverRun(k, a, events, hash);
  }

  // ---------- Single use ----------

  lemma {:induction false} AfterSplits(k: Keys, a: Auth, events: seq<AuthEvent>, i: nat)
    requires i <= |events|
    ensures AfterAll(k, a, events) == AfterAll(k, AfterAll(k, a, events[..i]), events[i..])
  {
    if i == |events| {
      assert events[..i] == events;
    } else {
      var n := |events| - 1;
      AfterSplits(k, a, events[..n], i);
      assert events[..n][..i] == events[..i] && events[..n][i..] == events[i..n];
      assert events[i..][..n - i] == events[i..n];
    }
  }

  /** Every stored row was there from the start or was minted on the way. */
  lemma {:induction false} StoredWasMinted(k: Keys, a: Auth, events: seq<AuthEvent>, hash: Hash)
    requires hash in AfterAll(k, a, events).sessions
    ensures hash in a.sessions || exists e <- events :: e.Mints(k, hash)
  {
    if events != [] {
      var prefix, e := events[..|events| - 1], events[|events| - 1];
      if !e.Mints(k, hash) {
        assert hash in AfterAll(k, a, prefix).sessions;
        StoredWasMinted(k, a, prefix, hash);
      }
      assert e in events;
    }
  }

  /** After acceptance the token's row is revoked or gone, and stays so unless its token is drawn again. */
  lemma NeverAgain(k: Keys, a: Auth, e: AuthEvent, since: seq<AuthEvent>, now: int)
    requires UniqueIds(a.sessions) && e.Refreshes? && HandedOut(k, a, e).Some?
    requires forall x <- since :: !x.Mints(k, k.hash(e.token))
    ensures var hash := k.hash(e.token);
            EvaluateRefresh(Find(AfterAll(k, After(k, a, e), since).sessions, hash), now)
              == Reject(if exists x <- since :: Drops(x, a.sessions[hash]) then Unknown else Revoked)
  {
    AcceptedRow(k, a, e);
    RowUnderOneEvent(k, a, e, k.hash(e.token));
    IdsStayUnique(k, a, e);
    RowOverRun(k, After(k, a, e), since, k.hash(e.token));
  }

  /** Between an event that handed a token out and a later one, a fresh run does not draw it again. */
  lemma NotDrawnAgain(k: Keys, a: Auth, events: seq<AuthEvent>, i: nat, j: nat, hash: Hash)
    requires FreshTokens(k, a, events) && i < j <= |events|
    requires hash in a.sessions || exists m | 0 <= m <= i :: events[m].Mints(k, hash)
    ensures forall e <- events[i + 1..j] :: !e.Mints(k, hash)
  {
    forall e | e in events[i + 1..j]
      ensures !e.Mints(k, hash)
    {
      var n :| i < n < j && events[n] == e;
    }
  }

  lemma StepThenRest(k: Keys, a: Auth, events: seq<AuthEvent>, i: nat, j: nat)
    requires i < j <= |events|
    ensures AfterAll(k, a, events[..j])
         == AfterAll(k, After(k, AfterAll(k, a, events[..i]), events[i]), events[i + 1..j])
  {
    var upTo := events[..j];
    AfterSplits(k, a, upTo, i + 1);
    assert upTo[..i + 1] == events[..i + 1] && upTo[i + 1..] == events[i + 1..j];
    assert events[..i + 1][..i] == events[..i];
  }

  /** Over any run with fresh tokens, a refresh token is accepted at most once. */
  lemma TokensAreSingleUse(k: Keys, a: Auth, events: seq<AuthEvent>, i: nat, j: nat, token: string)
    requires UniqueIds(a.sessions) && FreshTokens(k, a, events)
    requires i < j < |events| && Accepts(k, a, events, i, token)
    ensures !Accepts(k, a, events, j, token)
  {
    var before, hash := AfterAll(k, a, events[..i]), k.hash(token);
    AcceptedRow(k, before, events[i]);
    StoredWasMinted(k, a, events[..i], hash);
    NotDrawnAgain(k, a, events, i, j, hash);
    IdsAreUnique(k, a, events[..i]);
    StepThenRest(k, a, events, i, j);
    if events[j].Refreshes? {
      NeverAgain(k, before, events[i], events[i + 1..j], events[j].now);
      hide After, AfterAll, UniqueIds, FreshTokens;
    }
  }

  /**
   Over any run with fresh tokens, presenting a token that was handed out gets exactly the verdict
   its history since then earns.
   */
  lemma PresentedTokenVerdict(k: Keys, a: Auth, events: seq<AuthEvent>, i: nat, j: nat)
    requires UniqueIds(a.sessions) && FreshTokens(k, a, events) && i < j < |events|
    requires HandedOut(k, AfterAll(k, a, events[..i]), events[i]).Some? && events[j].Refreshes?
    requires events[j].token == events[i].mint.token
    ensures var pair := HandedOut(k, AfterAll(k, a, events[..i]), events[i]).value;
            && pair.refreshToken == events[j].token
            && EvaluateRefresh(Find(AfterAll(k, a, events[..j]).sessions, k.hash(events[j].token)), events[j].now)
                 == VerdictOf(k, k.hash(events[j].token),
                              OpenSession(pair.sessionId, pair.userId, events[i].now, k.refreshTtl),
                              events[i + 1..j], events[j].now)
  {
    var before, hash := AfterAll(k, a, events[..i]), k.hash(events[j].token);
    HandedOutRow(k, before, events[i]);
    assert events[i].Mints(k, hash);
    NotDrawnAgain(k, a, events, i, j, hash);
    IdsAreUnique(k, a, events[..i]);
    IdsStayUnique(k, before, events[i]);
    StepThenRest(k, a, events, i, j);
    hide AfterAll, After, UniqueIds, FreshTokens, HandedOut;
    VerdictIsTheHistory(k, After(k, before, events[i]), events[i + 1..j], hash, events[j].now);
  }

  /** A chain of refreshes keeps the user it started from. */
  lemma ChainKeepsUser(k: Keys, a: Auth, events: seq<AuthEvent>, i: nat, j: nat)
    requires UniqueIds(a.sessions) && FreshTokens(k, a, events) && i < j < |events|
    requires HandedOut(k, AfterAll(k, a, events[..i]), events[i]).Some?
    requires Accepts(k, a, events, j, events[i].mint.token)
    ensures HandedOut(k, AfterAll(k, a, events[..j]), events[j]).value.userId
         == HandedOut(k, AfterAll(k, a, events[..i]), events[i]).value.userId
  {
    PresentedTokenVerdict(k, a, events, i, j);
    AcceptedRow(k, AfterAll(k, a, events[..j]), events[j]);
    hide AfterAll, After, UniqueIds, FreshTokens, HandedOut;
  }

  // ---------- How many sessions stand ----------

  /** The sign-ins of a run that handed out a pair. */
  function SignInsOf(k: Keys, a: Auth, events: seq<AuthEvent>): nat {
    if events == [] then 0
    else
      var prefix, e := events[..|events| - 1], events[|events| - 1];
      SignInsOf(k, a, prefix) + if e.Logins? && HandedOut(k, AfterAll(k, a, prefix), e).Some? then 1 else 0
  }

  /** Rotation is one for one: an accepted refresh ends the session it came from and opens one. */
  lemma RotationIsOneForOne(k: Keys, a: Auth, e: AuthEvent)
    requires UniqueIds(a.sessions) && e.Refreshes? && HandedOut(k, a, e).Some?
    ensures Standing(After(k, a, e).sessions)
         == Standing(a.sessions) - {k.hash(e.token)} + {k.hash(e.mint.token)}
    ensures |Standing(After(k, a, e).sessions)| == |Standing(a.sessions)|
  {
    AcceptedRow(k, a, e);
    HandedOutRow(k, a, e);
    forall h | h in a.sessions
      ensures h in Standing(After(k, a, e).sessions) <==> h in Standing(a.sessions) && h != k.hash(e.token)
    {
      RowUnderOneEvent(k, a, e, h);
    }
    hide After, HandedOut;
  }

  /** Only a sign-in adds a session: no other event leaves more of them standing. */
  lemma OnlySignInsAdd(k: Keys, a: Auth, e: AuthEvent)
    requires UniqueIds(a.sessions)
    ensures |Standing(After(k, a, e).sessions)|
         <= |Standing(a.sessions)| + if e.Logins? && HandedOut(k, a, e).Some? then 1 else 0
  {
    var was, now := Standing(a.sessions), Standing(After(k, a, e).sessions);
    OnlyPairsStandUp(k, a, e);
    if HandedOut(k, a, e).None? {
      SubsetIsSmaller(now, was);
    } else if e.Refreshes? {
      RotationIsOneForOne(k, a, e);
    } else {
      SubsetIsSmaller(now, was + {k.hash(e.mint.token)});
    }
    hide After, HandedOut, Standing, UniqueIds;
  }

  lemma OnlyPairsStandUp(k: Keys, a: Auth, e: AuthEvent)
    ensures HandedOut(k, a, e).None? ==> Standing(After(k, a, e).sessions) <= Standing(a.sessions)
    ensures HandedOut(k, a, e).Some? ==>
              Standing(After(k, a, e).sessions) <= Standing(a.sessions) + {k.hash(e.mint.token)}
  {
  }

  lemma SubsetIsSmaller<T>(s: set<T>, t: set<T>)
    requires s <= t
    ensures |s| <= |t|
  {
    assert t == s + (t - s);
  }

  /** Over any run, the sessions standing at the end never outnumber those at the start and the sign-ins. */
  lemma {:induction false} SessionsComeFromSignIns(k: Keys, a: Auth, events: seq<AuthEvent>)
    requires UniqueIds(a.sessions)
    ensures |Standing(AfterAll(k, a, events).sessions)| <= |Standing(a.sessions)| + SignInsOf(k, a, events)
  {
    if events != [] {
      var prefix, e := events[..|events| - 1], events[|events| - 1];
      SessionsComeFromSignIns(k, a, prefix);
      IdsAreUnique(k, a, prefix);
      OnlySignInsAdd(k, AfterAll(k, a, prefix), e);
      hide After, HandedOut, Standing, UniqueIds;
    }
  }

  // ---------- Identities ----------

  /** A bound identity keeps its user for good. */
  lemma {:induction false} BindingsAreForGood(k: Keys, a: Auth, events: seq<AuthEvent>, i: Identity)
    requires i in a.identities
    ensures i in AfterAll(k, a, events).identities && AfterAll(k, a, events).identities[i] == a.identities[i]
  {
    if events != [] {
      BindingsAreForGood(k, a, events[..|events| - 1], i);
    }
  }

  /** Signing in twice with one identity is signing in as one user, whatever happens in between. */
  lemma SameIdentitySameUser(k: Keys, a: Auth, events: seq<AuthEvent>, i: nat, j: nat)
    requires i < j < |events| && events[i].Logins? && events[j].Logins?
    requires events[i].identity == events[j].identity
    requires HandedOut(k, AfterAll(k, a, events[..i]), events[i]).Some?
    requires HandedOut(k, AfterAll(k, a, events[..j]), events[j]).Some?
    ensures HandedOut(k, AfterAll(k, a, events[..i]), events[i]).value.userId
         == HandedOut(k, AfterAll(k, a, events[..j]), events[j]).value.userId
  {
    StepThenRest(k, a, events, i, j);
    var before := AfterAll(k, a, events[..i]);
    BindingsAreForGood(k, After(k, before, events[i]), events[i + 1..j], events[i].identity.value);
  }

  /** Whom the first event of a run that signs in with an identity, or links it, binds it to. */
  function FirstBinder(events: seq<AuthEvent>, i: Identity): Option<UserId> {
    if events == [] then None
    else
      var e, earlier := events[|events| - 1], FirstBinder(events[..|events| - 1], i);
      if earlier.Some? then earlier
      else if e.Logins? && e.identity == Some(i) then Some(e.mint.userId)
      else if e.Links? && e.identity == Some(i) then Some(e.acting)
      else None
  }

  /** Bindings are told from the history alone: an identity belongs to whom it was bound first. */
  lemma {:induction false} BindingIsTheFirst(k: Keys, a: Auth, events: seq<AuthEvent>, i: Identity)
    ensures var bound, first := AfterAll(k, a, events).identities, FirstBinder(events, i);
            && (i in bound <==> i in a.identities || first.Some?)
            && (i in bound ==> bound[i] == if i in a.identities then a.identities[i] else first.value)
  {
    if events != [] {
      BindingIsTheFirst(k, a, events[..|events| - 1], i);
    }
  }

  /** Every sign-in is as the user the identity was bound to first, at the latest by itself. */
  lemma SignInIsAsTheFirst(k: Keys, a: Auth, events: seq<AuthEvent>, j: nat, i: Identity)
    requires j < |events| && events[j].Logins? && events[j].identity == Some(i) && i !in a.identities
    requires HandedOut(k, AfterAll(k, a, events[..j]), events[j]).Some?
    ensures FirstBinder(events, i)
         == Some(HandedOut(k, AfterAll(k, a, events[..j]), events[j]).value.userId)
  {
    var upTo := events[..j + 1];
    assert upTo[..j] == events[..j];
    BindingIsTheFirst(k, a, events[..j], i);
    FirstStaysFirst(events, j + 1, i);
  }

  lemma {:induction false} FirstStaysFirst(events: seq<AuthEvent>, n: nat, i: Identity)
    requires n <= |events| && FirstBinder(events[..n], i).Some?
    ensures FirstBinder(events, i) == FirstBinder(events[..n], i)
  {
    if n == |events| {
      assert events[..n] == events;
    } else {
      var prefix := events[..|events| - 1];
      assert prefix[..n] == events[..n];
      FirstStaysFirst(prefix, n, i);
    }
  }

  /** The event that binds an identity first. */
  lemma {:induction false} BinderIsAnEvent(events: seq<AuthEvent>, i: Identity) returns (n: nat)
    requires FirstBinder(events, i).Some?
    ensures n < |events| && (events[n].Logins? || events[n].Links?) && events[n].identity == Some(i)
    ensures FirstBinder(events, i)
         == Some(if events[n].Logins? then events[n].mint.userId else events[n].acting)
  {
    var prefix := events[..|events| - 1];
    if FirstBinder(prefix, i).Some? {
      n := BinderIsAnEvent(prefix, i);
    } else {
      n := |events| - 1;
    }
  }

  /** The user ids drawn for sign-ins differ from each other. */
  ghost predicate FreshUsers(events: seq<AuthEvent>) {
    forall m, n :: 0 <= m < n < |events| && events[m].Logins? && events[n].Logins? ==>
      events[m].mint.userId != events[n].mint.userId
  }

  /** Two identities that no one links sign in as two users, if user ids are drawn fresh. */
  lemma StrangersStayApart(k: Keys, a: Auth, events: seq<AuthEvent>, m: nat, n: nat, i: Identity, j: Identity)
    requires FreshUsers(events) && i != j && i !in a.identities && j !in a.identities
    requires forall e <- events :: e.Links? ==> e.identity != Some(i) && e.identity != Some(j)
    requires m < |events| && events[m].Logins? && events[m].identity == Some(i)
    requires n < |events| && events[n].Logins? && events[n].identity == Some(j)
    requires HandedOut(k, AfterAll(k, a, events[..m]), events[m]).Some?
    requires HandedOut(k, AfterAll(k, a, events[..n]), events[n]).Some?
    ensures HandedOut(k, AfterAll(k, a, events[..m]), events[m]).value.userId
         != HandedOut(k, AfterAll(k, a, events[..n]), events[n]).value.userId
  {
    hide HandedOut, AfterAll;
    SignInIsAsTheFirst(k, a, events, m, i);
    SignInIsAsTheFirst(k, a, events, n, j);
    var x := BinderIsAnEvent(events, i);
    var y := BinderIsAnEvent(events, j);
    assert events[x] in events && events[y] in events;
  }

  /** An identity linked to a user signs in as that user ever after. */
  lemma LinkedIdentitySignsIn(k: Keys, a: Auth, events: seq<AuthEvent>, m: nat, n: nat)
    requires m < n < |events| && events[m].Links? && events[n].Logins? && events[n].identity == events[m].identity
    requires Linked(AfterAll(k, a, events[..m]), events[m].acting, events[m].identity).1.Ok?
    requires HandedOut(k, AfterAll(k, a, events[..n]), events[n]).Some?
    ensures HandedOut(k, AfterAll(k, a, events[..n]), events[n]).value.userId == events[m].acting
  {
    StepThenRest(k, a, events, m, n);
    var before := AfterAll(k, a, events[..m]);
    BindingsAreForGood(k, After(k, before, events[m]), events[m + 1..n], events[m].identity.value);
  }
}
