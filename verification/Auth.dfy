/** The token lifecycle of pkg/api/auth.go.  A signature check is membership in the table of
  * tokens the manager has signed; times and durations are nanoseconds. */
module Auth {
  import opened Wrappers

  const SECOND: int := 1_000_000_000
  const MAX_REVOKED_TOKENS: nat := 10000

  type Token = string

  datatype Kind = Access | Refresh

  datatype Claims = Claims(username: string, permissions: seq<string>, kind: Kind, issuedAt: int, expiresAt: int)

  datatype TokenPair = TokenPair(accessToken: Token, refreshToken: Token, expiresAt: int)

  datatype AuthError = Revoked | BadSignature | Expired | NotARefreshToken

  datatype Config = Config(accessDuration: int, refreshDuration: int)

  /** What the manager holds: the revocation list and, standing for its signing key, the claims
    * of every token it has signed. */
  datatype State = State(revoked: map<Token, int>, issued: map<Token, Claims>)

  /** A JWT numeric date has a precision of one second. */
  function NumericDate(t: int): int {
    t - t % SECOND
  }

  function AccessClaims(cfg: Config, username: string, permissions: seq<string>, now: int): Claims {
    Claims(username, permissions, Access, NumericDate(now), NumericDate(now + cfg.accessDuration))
  }

  /** The refresh claims carry no permissions. */
  function RefreshClaims(cfg: Config, username: string, now: int): Claims {
    Claims(username, [], Refresh, NumericDate(now), NumericDate(now + cfg.refreshDuration))
  }

  function Validate(s: State, token: Token, now: int): Result<Claims, AuthError> {
    if token in s.revoked then Failure(Revoked)
    else if token !in s.issued then Failure(BadSignature)
    else if s.issued[token].expiresAt <= now then Failure(Expired)
    else Success(s.issued[token])
  }

  function Generate(cfg: Config, s: State, username: string, permissions: seq<string>, access: Token, refresh: Token, now: int): State {
    s.(issued := s.issued[access := AccessClaims(cfg, username, permissions, now)]
                         [refresh := RefreshClaims(cfg, username, now)])
  }

  function Revoke(s: State, token: Token, now: int): State {
    s.(revoked := s.revoked[token := now])
  }

  predicate Refreshable(s: State, token: Token, now: int) {
    var r := Validate(s, token, now);
    r.Success? && r.value.kind == Refresh
  }

  function DoRefresh(cfg: Config, s: State, token: Token, access: Token, refresh: Token, now: int): State
    requires Refreshable(s, token, now)
  {
    var claims := s.issued[token];
    Generate(cfg, Revoke(s, token, now), claims.username, claims.permissions, access, refresh, now)
  }

  /** What the expiry pass of the cleanup keeps. */
  function Kept(revoked: map<Token, int>, cutoff: int): map<Token, int> {
    map token | token in revoked && cutoff <= revoked[token] :: revoked[token]
  }

  class AuthManager {
    const cfg: Config
    var revokedTokens: map<Token, int>
    var issued: map<Token, Claims>

    constructor (cfg: Config)
      ensures this.cfg == cfg && Contents() == State(map[], map[])
    {
      this.cfg := cfg;
      revokedTokens := map[];
      issued := map[];
    }

    function Contents(): State
      reads this
    {
      State(revokedTokens, issued)
    }

    /** `access` and `refresh` are the strings the signer returns for the new claims. */
    method GenerateTokenPair(username: string, permissions: seq<string>, access: Token, refresh: Token, now: int)
      returns (pair: TokenPair)
      requires access != refresh && access !in issued && refresh !in issued
      modifies this
      ensures Contents() == Generate(cfg, old(Contents()), username, permissions, access, refresh, now)
      ensures pair == TokenPair(access, refresh, now + cfg.accessDuration)
    {
      var accessExpiry := now + cfg.accessDuration;
      var refreshExpiry := now + cfg.refreshDuration;
      issued := issued[access := Claims(username, permissions, Access, NumericDate(now), NumericDate(accessExpiry))];
      issued := issued[refresh := Claims(username, [], Refresh, NumericDate(now), NumericDate(refreshExpiry))];
      return TokenPair(access, refresh, accessExpiry);
    }

    method ValidateToken(token: Token, now: int) returns (r: Result<Claims, AuthError>)
      ensures r == Validate(Contents(), token, now)
    {
      if token in revokedTokens {
        return Failure(Revoked);
      }
      if token !in issued {
        return Failure(BadSignature);
      }
      var claims := issued[token];
      if now >= claims.expiresAt {
        return Failure(Expired);
      }
      return Success(claims);
    }

    method RefreshTokens(token: Token, access: Token, refresh: Token, now: int) returns (r: Result<TokenPair, AuthError>)
      requires access != refresh && access !in issued && refresh !in issued
      modifies this
      ensures r.Success? <==> Refreshable(old(Contents()), token, now)
      ensures r.Success? ==> Contents() == DoRefresh(cfg, old(Contents()), token, access, refresh, now)
      ensures r.Success? ==> r.value == TokenPair(access, refresh, now + cfg.accessDuration)
      ensures r.Failure? ==> Contents() == old(Contents())
      ensures r.Failure? ==> var v := Validate(old(Contents()), token, now);
                             r.error == if v.Failure? then v.error else NotARefreshToken
    {
      var claims :- ValidateToken(token, now);
      if claims.kind != Refresh {
        return Failure(NotARefreshToken);
      }
      RevokeToken(token, now);
      var pair := GenerateTokenPair(claims.username, claims.permissions, access, refresh, now);
      return Success(pair);
    }

    method RevokeToken(token: Token, now: int)
      modifies this`revokedTokens
      ensures Contents() == Revoke(old(Contents()), token, now)
    {
      revokedTokens := revokedTokens[token := now];
    }

    /** Both loops visit the list in an unspecified order, as Go does. */
    method CleanupRevokedTokens(now: int)
      modifies this`revokedTokens
      ensures var kept := Kept(old(revokedTokens), now - cfg.refreshDuration);
              if |kept| <= 10000 then revokedTokens == kept
              else && |revokedTokens| == |kept| - 5000
                   && forall t :: t in revokedTokens ==> t in kept && revokedTokens[t] == kept[t]
    {
      var cutoff := now - cfg.refreshDuration;
      var before := revokedTokens;
      var todo := revokedTokens.Keys;
      while todo != {}
        invariant todo <= before.Keys
        invariant forall t :: t in revokedTokens <==> t in before && (t in todo || cutoff <= before[t])
        invariant forall t :: t in revokedTokens ==> revokedTokens[t] == before[t]
        decreases |todo|
      {
        var token :| token in todo;
        if revokedTokens[token] < cutoff {
          revokedTokens := revokedTokens - {token};
        }
        todo := todo - {token};
      }
      var kept := revokedTokens;
      assert kept == Kept(before, cutoff);
      if |revokedTokens| > MAX_REVOKED_TOKENS {
        var count := 0;
        var halfMax := MAX_REVOKED_TOKENS / 2;
        while count < halfMax
          invariant 0 <= count <= halfMax
          invariant |revokedTokens| == |kept| - count
          invariant forall t :: t in revokedTokens ==> t in kept && revokedTokens[t] == kept[t]
        {
          assert |revokedTokens.Keys| == |revokedTokens|;
          assert revokedTokens.Keys != {};
          var token :| token in revokedTokens;
          var rest := revokedTokens - {token};
          assert rest.Keys == revokedTokens.Keys - {token};
          assert |rest.Keys| == |rest|;
          revokedTokens := rest;
          count := count + 1;
        }
      }
    }
  }

  // ---------------------------------------------------------------------------------------
  // Runs: one call of the manager is one step

  datatype Event =
    | Login(username: string, permissions: seq<string>, access: Token, refresh: Token, now: int)
    | Renew(token: Token, access: Token, refresh: Token, now: int)
    | Logout(token: Token, now: int)
    | Cleanup(now: int)

  /** Signed strings are new, and the revocation list never reaches its emergency size. */
  predicate Enabled(cfg: Config, s: State, e: Event) {
    match e
    case Login(_, _, access, refresh, _) => access != refresh && access !in s.issued && refresh !in s.issued
    case Renew(_, access, refresh, _) => access != refresh && access !in s.issued && refresh !in s.issued
    case Logout(_, _) => true
    case Cleanup(now) => |Kept(s.revoked, now - cfg.refreshDuration)| <= MAX_REVOKED_TOKENS
  }

  function Next(cfg: Config, s: State, e: Event): State {
    match e
    case Login(username, permissions, access, refresh, now) =>
      Generate(cfg, s, username, permissions, access, refresh, now)
    case Renew(token, access, refresh, now) =>
      if Refreshable(s, token, now) then DoRefresh(cfg, s, token, access, refresh, now) else s
    case Logout(token, now) => Revoke(s, token, now)
    case Cleanup(now) => s.(revoked := Kept(s.revoked, now - cfg.refreshDuration))
  }

  const FRESH := State(map[], map[])

  function StateAfter(cfg: Config, events: seq<Event>): State {
    if events == [] then FRESH
    else Next(cfg, StateAfter(cfg, events[..|events| - 1]), events[|events| - 1])
  }

  predicate Legal(cfg: Config, events: seq<Event>) {
    events == [] ||
    var front, e := events[..|events| - 1], events[|events| - 1];
    && Legal(cfg, front)
    && (front != [] ==> front[|front| - 1].now <= e.now)
    && Enabled(cfg, StateAfter(cfg, front), e)
  }

  /** A token that nobody will ever see accepted again: it has expired, or its revocation will
    * not be forgotten before it has. */
  predicate Doomed(cfg: Config, s: State, token: Token, now: int) {
    token in s.issued &&
    var expiry := s.issued[token].expiresAt;
    expiry <= now || (token in s.revoked && expiry <= s.revoked[token] + cfg.refreshDuration + 1)
  }

  /** The token does not outlive the time for which a revocation made now is remembered. */
  predicate ExpiryBounded(cfg: Config, s: State, token: Token, now: int) {
    token in s.issued ==>
      s.issued[token].expiresAt <= now || s.issued[token].expiresAt <= now + cfg.refreshDuration + 1
  }

  ghost predicate ExpiriesBounded(cfg: Config, s: State, now: int) {
    forall t :: t in s.issued && (s.issued[t].kind == Refresh || ShortEnough(cfg)) ==> ExpiryBounded(cfg, s, t, now)
  }

  predicate ShortEnough(cfg: Config) {
    cfg.accessDuration <= 0 || cfg.accessDuration <= cfg.refreshDuration + 1
  }

  /** No call revives a doomed token: cleanup forgets only revocations of expired tokens. */
  lemma StepKeepsDoomed(cfg: Config, s: State, e: Event, now: int, token: Token)
    requires now <= e.now && ExpiryBounded(cfg, s, token, now)
    requires Enabled(cfg, s, e) && Doomed(cfg, s, token, now)
    ensures Doomed(cfg, Next(cfg, s, e), token, e.now)
  {
  }

  lemma DoomedIsRejected(cfg: Config, s: State, now: int, token: Token, later: int)
    requires Doomed(cfg, s, token, now) && now <= later
    ensures Validate(s, token, later).Failure?
  {
  }

  /** The call revokes a signed token: a logout that names it, or a successful renewal with it. */
  predicate Revokes(s: State, e: Event, token: Token) {
    token in s.issued &&
    (e == Logout(token, e.now) || (e.Renew? && e.token == token && Refreshable(s, token, e.now)))
  }

  lemma {:induction false} BoundsOverRun(cfg: Config, events: seq<Event>)
    requires Legal(cfg, events) && events != []
    ensures ExpiriesBounded(cfg, StateAfter(cfg, events), events[|events| - 1].now)
  {
    var front := events[..|events| - 1];
    if front != [] {
      BoundsOverRun(cfg, front);
    }
  }

  lemma {:induction false} RevokedIsDoomed(cfg: Config, events: seq<Event>, i: nat, token: Token)
    requires ShortEnough(cfg) && Legal(cfg, events)
    requires i < |events| && Revokes(StateAfter(cfg, events[..i]), events[i], token)
    ensures Doomed(cfg, StateAfter(cfg, events), token, events[|events| - 1].now)
    decreases |events|
  {
    var front, e := events[..|events| - 1], events[|events| - 1];
    var s := StateAfter(cfg, front);
    if i == |front| {
      if front == [] {
        assert false;
      } else {
        BoundsOverRun(cfg, front);
      }
    } else {
      assert front[..i] == events[..i];
      RevokedIsDoomed(cfg, front, i, token);
      BoundsOverRun(cfg, front);
      StepKeepsDoomed(cfg, s, e, front[|front| - 1].now, token);
    }
  }

  /** In the run `events`, call `i` revokes `token`, and it is accepted at `now` all the same. */
  ghost predicate Revived(cfg: Config, events: seq<Event>, i: nat, token: Token, now: int) {
    && Legal(cfg, events) && i < |events|
    && Revokes(StateAfter(cfg, events[..i]), events[i], token)
    && events[|events| - 1].now <= now
    && Validate(StateAfter(cfg, events), token, now).Success?
  }

  /** Revocation is permanent in every run exactly when access tokens are not made to live
    * longer than revocations are remembered. */
  lemma RevocationPermanentIff(cfg: Config)
    ensures (forall events, i, token, now :: !Revived(cfg, events, i, token, now))
            <==> (cfg.accessDuration <= 0 || cfg.accessDuration <= cfg.refreshDuration + 1)
  {
    if ShortEnough(cfg) {
      forall events: seq<Event>, i: nat, token: Token, now: int ensures !Revived(cfg, events, i, token, now) {
        if Revived(cfg, events, i, token, now) {
          RevokedIsDoomed(cfg, events, i, token);
          DoomedIsRejected(cfg, StateAfter(cfg, events), events[|events| - 1].now, token, now);
          assert false;
        }
      }
    } else {
      LongAccessTokenRevives(cfg);
    }
  }

  /** Log in at a moment that makes the access token expire on a whole second, log out at once,
    * and clean up as soon as the revocation is older than the refresh duration. */
  lemma LongAccessTokenRevives(cfg: Config)
    requires !ShortEnough(cfg)
    ensures exists events, i, token, now :: Revived(cfg, events, i, token, now)
  {
    var k := cfg.accessDuration / SECOND + 1;
    var start := k * SECOND - cfg.accessDuration;
    var end := if cfg.refreshDuration < 0 then start else start + cfg.refreshDuration + 1;
    ThreeCallsRevive(cfg, start, end);
  }

  /** Logging in and out again at once, from a new manager. */
  lemma LoginLogout(cfg: Config, login: Event, logout: Event)
    requires login.Login? && logout == Logout(login.access, login.now) && login.access != login.refresh
    ensures Legal(cfg, [login]) && StateAfter(cfg, [login]) == Next(cfg, FRESH, login)
    ensures Legal(cfg, [login, logout]) && StateAfter(cfg, [login, logout]) == Next(cfg, Next(cfg, FRESH, login), logout)
  {
    OneMoreCall(cfg, [], login);
    assert [] + [login] == [login];
    OneMoreCall(cfg, [login], logout);
    assert [login] + [logout] == [login, logout];
  }

  lemma ThreeCallsRevive(cfg: Config, start: int, end: int)
    requires start <= end && start < end - cfg.refreshDuration
    requires end < NumericDate(start + cfg.accessDuration)
    ensures exists events, i, token, now :: Revived(cfg, events, i, token, now)
  {
    var login, logout, cleanup := Login("u", [], "a", "r", start), Logout("a", start), Cleanup(end);
    var events := [login, logout] + [cleanup];
    LoginLogout(cfg, login, logout);
    var s := StateAfter(cfg, [login, logout]);
    assert s.revoked == map["a" := start];
    assert Kept(s.revoked, end - cfg.refreshDuration) == map[];
    OneMoreCall(cfg, [login, logout], cleanup);
    assert events[..1] == [login] && events[1] == logout;
    assert Revived(cfg, events, 1, "a", end);
  }

  lemma OneMoreCall(cfg: Config, front: seq<Event>, e: Event)
    requires Legal(cfg, front) && Enabled(cfg, StateAfter(cfg, front), e)
    requires front != [] ==> front[|front| - 1].now <= e.now
    ensures Legal(cfg, front + [e]) && StateAfter(cfg, front + [e]) == Next(cfg, StateAfter(cfg, front), e)
  {
    assert (front + [e])[..|front|] == front;
  }

  // ---------------------------------------------------------------------------------------
  // Lineages: the refresh tokens that descend from one login

  function Logins(events: seq<Event>): nat {
    if events == [] then 0
    else Logins(events[..|events| - 1]) + (if events[|events| - 1].Login? then 1 else 0)
  }

  /** For every refresh token, the login it descends from, numbered in order. */
  function Origins(cfg: Config, events: seq<Event>): map<Token, nat> {
    if events == [] then map[]
    else
      var front, e := events[..|events| - 1], events[|events| - 1];
      var before := Origins(cfg, front);
      match e
      case Login(_, _, _, refresh, _) => before[refresh := Logins(front)]
      case Renew(token, _, refresh, now) =>
        if Refreshable(StateAfter(cfg, front), token, now) && token in before
        then before[refresh := before[token]] else before
      case _ => before
  }

  function Live(s: State, now: int): set<Token> {
    set t | t in s.issued && s.issued[t].kind == Refresh && Validate(s, t, now).Success?
  }

  ghost predicate OneHeirPerLogin(cfg: Config, s: State, origin: map<Token, nat>, logins: nat, now: int) {
    && (forall t :: t in s.issued && s.issued[t].kind == Refresh <==> t in origin)
    && (forall t :: t in origin ==> origin[t] < logins)
    && (forall t, u :: t in origin && u in origin && t != u && origin[t] == origin[u] ==>
          Doomed(cfg, s, t, now) || Doomed(cfg, s, u, now))
  }

  lemma {:induction false} LineageOverRun(cfg: Config, events: seq<Event>)
    requires Legal(cfg, events) && events != []
    ensures OneHeirPerLogin(cfg, StateAfter(cfg, events), Origins(cfg, events), Logins(events), events[|events| - 1].now)
  {
    var front, e := events[..|events| - 1], events[|events| - 1];
    if front == [] {
      assert OneHeirPerLogin(cfg, FRESH, map[], 0, e.now);
      LineageStep(cfg, front, e, e.now);
    } else {
      LineageOverRun(cfg, front);
      BoundsOverRun(cfg, front);
      LineageStep(cfg, front, e, front[|front| - 1].now);
    }
    assert events == front + [e];
  }

  lemma LineageStep(cfg: Config, front: seq<Event>, e: Event, now: int)
    requires now <= e.now && Enabled(cfg, StateAfter(cfg, front), e)
    requires ExpiriesBounded(cfg, StateAfter(cfg, front), now)
    requires OneHeirPerLogin(cfg, StateAfter(cfg, front), Origins(cfg, front), Logins(front), now)
    ensures OneHeirPerLogin(cfg, StateAfter(cfg, front + [e]), Origins(cfg, front + [e]), Logins(front + [e]), e.now)
  {
    var s, origin := StateAfter(cfg, front), Origins(cfg, front);
    assert (front + [e])[..|front|] == front;
    var s', origin' := StateAfter(cfg, front + [e]), Origins(cfg, front + [e]);
    forall t | t in origin && Doomed(cfg, s, t, now) ensures Doomed(cfg, s', t, e.now) {
      StepKeepsDoomed(cfg, s, e, now, t);
    }
    if e.Renew? && Refreshable(s, e.token, e.now) {
      assert Doomed(cfg, s', e.token, e.now);
      assert !Doomed(cfg, s, e.token, now);
      forall u | u in origin && u != e.token && origin[u] == origin[e.token] ensures Doomed(cfg, s', u, e.now) {
        assert Doomed(cfg, s, u, now);
      }
    }
  }

  /** In every reachable state, and at every later time, each login has at most one live refresh
    * token among its descendants, so live refresh tokens never outnumber logins. */
  lemma RefreshLineageConserved(cfg: Config, events: seq<Event>, now: int)
    requires Legal(cfg, events)
    requires events != [] ==> events[|events| - 1].now <= now
    ensures var live := Live(StateAfter(cfg, events), now);
            var origin := Origins(cfg, events);
            && (forall t :: t in live ==> t in origin && origin[t] < Logins(events))
            && (forall t, u :: t in live && u in live && origin[t] == origin[u] ==> t == u)
            && |live| <= Logins(events)
  {
    var s, origin := StateAfter(cfg, events), Origins(cfg, events);
    if events != [] {
      LineageOverRun(cfg, events);
      forall t | t in Live(s, now) ensures !Doomed(cfg, s, t, events[|events| - 1].now) {
      }
    }
    InjectionBounds(Live(s, now), origin, Logins(events));
  }

  lemma {:induction false} InjectionBounds(tokens: set<Token>, f: map<Token, nat>, n: nat)
    requires forall t :: t in tokens ==> t in f && f[t] < n
    requires forall t, u :: t in tokens && u in tokens && f[t] == f[u] ==> t == u
    ensures |tokens| <= n
    decreases n
  {
    if n == 0 {
      assert tokens == {} by {
        if t :| t in tokens { assert false; }
      }
    } else if t :| t in tokens && f[t] == n - 1 {
      InjectionBounds(tokens - {t}, f, n - 1);
    } else {
      InjectionBounds(tokens, f, n - 1);
    }
  }

  // ---------------------------------------------------------------------------------------
  // What tokens say

  /** A time cut to whole seconds. */
  function WholeSeconds(t: int): int {
    t / 1_000_000_000 * 1_000_000_000
  }

  /** The claims of tokens issued at `now`. */
  predicate Says(claims: Claims, username: string, permissions: seq<string>, kind: Kind, now: int, duration: int) {
    && claims.username == username && claims.permissions == permissions && claims.kind == kind
    && claims.issuedAt == WholeSeconds(now) && claims.expiresAt == WholeSeconds(now + duration)
  }

  /** What a token says does not change. */
  lemma {:induction false} ClaimsStay(cfg: Config, events: seq<Event>, i: nat, token: Token)
    requires Legal(cfg, events) && i <= |events| && token in StateAfter(cfg, events[..i]).issued
    ensures token in StateAfter(cfg, events).issued
    ensures StateAfter(cfg, events).issued[token] == StateAfter(cfg, events[..i]).issued[token]
    decreases |events|
  {
    if i < |events| {
      var front := events[..|events| - 1];
      assert front[..i] == events[..i];
      ClaimsStay(cfg, front, i, token);
    } else {
      assert events[..i] == events;
    }
  }

  lemma {:induction false} LegalPrefix(cfg: Config, events: seq<Event>, i: nat)
    requires Legal(cfg, events) && i <= |events|
    ensures Legal(cfg, events[..i])
    decreases |events|
  {
    if i < |events| {
      var front := events[..|events| - 1];
      assert front[..i] == events[..i];
      LegalPrefix(cfg, front, i);
    } else {
      assert events[..i] == events;
    }
  }

  lemma LoginSays(cfg: Config, s: State, e: Event)
    requires e.Login? && e.access != e.refresh
    ensures var after := Next(cfg, s, e).issued;
            && e.access in after && Says(after[e.access], e.username, e.permissions, Access, e.now, cfg.accessDuration)
            && e.refresh in after && Says(after[e.refresh], e.username, [], Refresh, e.now, cfg.refreshDuration)
  {
  }

  /** At any time after a login, its access token says who logged in and with what permissions, and
    * its refresh token says who; both expire after their durations, cut to whole seconds. */
  lemma LoginTokensSay(cfg: Config, events: seq<Event>, i: nat)
    requires Legal(cfg, events) && i < |events| && events[i].Login?
    ensures var e, issued := events[i], StateAfter(cfg, events).issued;
            && e.access in issued && Says(issued[e.access], e.username, e.permissions, Access, e.now, cfg.accessDuration)
            && e.refresh in issued && Says(issued[e.refresh], e.username, [], Refresh, e.now, cfg.refreshDuration)
  {
    var upTo := events[..i + 1];
    LegalPrefix(cfg, events, i + 1);
    assert upTo[..|upTo| - 1] == events[..i] && upTo[|upTo| - 1] == events[i];
    LoginSays(cfg, StateAfter(cfg, events[..i]), events[i]);
    ClaimsStay(cfg, events, i + 1, events[i].access);
    ClaimsStay(cfg, events, i + 1, events[i].refresh);
  }

  /** The call asks for the token to be revoked. */
  predicate Names(e: Event, token: Token) {
    (e.Logout? || e.Renew?) && e.token == token
  }

  lemma {:induction false} RevokedWereNamed(cfg: Config, events: seq<Event>, token: Token)
    requires token in StateAfter(cfg, events).revoked
    ensures exists j :: 0 <= j < |events| && Names(events[j], token)
  {
    var front, e := events[..|events| - 1], events[|events| - 1];
    if token in StateAfter(cfg, front).revoked {
      RevokedWereNamed(cfg, front, token);
      var j :| 0 <= j < |front| && Names(front[j], token);
      assert Names(events[j], token);
    } else {
      assert Names(e, token);
    }
  }

  /** A token on the revocation list is refused as revoked whatever else is wrong with it, one not
    * signed here as badly signed, and one past its expiry as expired. */
  lemma RefusalReasons(s: State, token: Token, now: int)
    ensures Validate(s, token, now) == Failure(Revoked) <==> token in s.revoked
    ensures Validate(s, token, now) == Failure(BadSignature) <==> token !in s.revoked && token !in s.issued
    ensures Validate(s, token, now) == Failure(Expired) <==> token !in s.revoked && token in s.issued && now >= s.issued[token].expiresAt
  {
  }

  /** Until it expires, and unless some call asked for it to be revoked, the access token of a login
    * is accepted with the username and permissions of that login. */
  lemma AccessTokenAccepted(cfg: Config, events: seq<Event>, i: nat, now: int)
    requires Legal(cfg, events) && i < |events| && events[i].Login?
    requires forall j :: 0 <= j < |events| ==> !Names(events[j], events[i].access)
    ensures var e, r := events[i], Validate(StateAfter(cfg, events), events[i].access, now);
            if WholeSeconds(e.now + cfg.accessDuration) <= now then r == Failure(Expired)
            else r.Success? && Says(r.value, e.username, e.permissions, Access, e.now, cfg.accessDuration)
  {
    LoginTokensSay(cfg, events, i);
    if events[i].access in StateAfter(cfg, events).revoked {
      RevokedWereNamed(cfg, events, events[i].access);
      assert false;
    }
  }

  /** And its refresh token can be exchanged exactly until it expires; an access token never can. */
  lemma RefreshTokenAccepted(cfg: Config, events: seq<Event>, i: nat, now: int)
    requires Legal(cfg, events) && i < |events| && events[i].Login?
    requires forall j :: 0 <= j < |events| ==> !Names(events[j], events[i].refresh)
    ensures Refreshable(StateAfter(cfg, events), events[i].refresh, now) <==> now < WholeSeconds(events[i].now + cfg.refreshDuration)
    ensures !Refreshable(StateAfter(cfg, events), events[i].access, now)
  {
    LoginTokensSay(cfg, events, i);
    if events[i].refresh in StateAfter(cfg, events).revoked {
      RevokedWereNamed(cfg, events, events[i].refresh);
      assert false;
    }
  }

  /** Who logged in, in the order of logins. */
  function UsersAtLogin(events: seq<Event>): (users: seq<string>)
    ensures |users| == Logins(events)
  {
    if events == [] then []
    else
      var front, e := UsersAtLogin(events[..|events| - 1]), events[|events| - 1];
      if e.Login? then front + [e.username] else front
  }

  lemma {:induction false} RefreshTokensSayWho(cfg: Config, events: seq<Event>, token: Token)
    requires Legal(cfg, events) && token in Origins(cfg, events)
    ensures token in StateAfter(cfg, events).issued && Origins(cfg, events)[token] < Logins(events)
    ensures StateAfter(cfg, events).issued[token].username == UsersAtLogin(events)[Origins(cfg, events)[token]]
    decreases |events|
  {
    var front, e := events[..|events| - 1], events[|events| - 1];
    if token in Origins(cfg, front) {
      RefreshTokensSayWho(cfg, front, token);
    } else if e.Renew? {
      RefreshTokensSayWho(cfg, front, e.token);
    }
  }

  // ---------------------------------------------------------------------------------------
  // Permissions

  /** No refresh token carries permissions. */
  lemma {:induction false} RefreshTokensCarryNoPermissions(cfg: Config, events: seq<Event>, token: Token)
    requires Legal(cfg, events)
    requires token in StateAfter(cfg, events).issued && StateAfter(cfg, events).issued[token].kind == Refresh
    ensures StateAfter(cfg, events).issued[token].permissions == []
  {
    if events != [] {
      var front := events[..|events| - 1];
      if token in StateAfter(cfg, front).issued {
        RefreshTokensCarryNoPermissions(cfg, front, token);
      }
    }
  }

  /** What each login granted, in the order of logins. */
  function GrantedAtLogin(events: seq<Event>): (granted: seq<seq<string>>)
    ensures |granted| == Logins(events)
  {
    if events == [] then []
    else
      var front, e := GrantedAtLogin(events[..|events| - 1]), events[|events| - 1];
      if e.Login? then front + [e.permissions] else front
  }

  /** The last call of the run is a renewal that succeeds. */
  predicate Renews(cfg: Config, events: seq<Event>) {
    events != [] &&
    var front, e := events[..|events| - 1], events[|events| - 1];
    e.Renew? && Refreshable(StateAfter(cfg, front), e.token, e.now)
  }

  /** The access token that renewal gives out has the permissions of the login it goes back to. */
  ghost predicate KeepsPermissions(cfg: Config, events: seq<Event>)
    requires Legal(cfg, events) && Renews(cfg, events)
  {
    var e, s := events[|events| - 1], StateAfter(cfg, events);
    && e.access in s.issued && e.refresh in Origins(cfg, events) && Origins(cfg, events)[e.refresh] < Logins(events)
    && s.issued[e.access].permissions == GrantedAtLogin(events)[Origins(cfg, events)[e.refresh]]
  }

  /** The token used has the same origin as the one it is exchanged for, and there is such a login. */
  lemma RenewalHasOrigin(cfg: Config, events: seq<Event>)
    requires Legal(cfg, events) && Renews(cfg, events)
    ensures var e, origin := events[|events| - 1], Origins(cfg, events);
            && e.refresh in origin && e.token in origin && origin[e.refresh] == origin[e.token] < Logins(events)
  {
    var front, e := events[..|events| - 1], events[|events| - 1];
    assert front != [];
    LineageOverRun(cfg, front);
    LineageOverRun(cfg, events);
  }

  /** A renewed access token has the permissions of its login exactly when that granted none. */
  lemma RenewalKeepsPermissionsIff(cfg: Config, events: seq<Event>)
    requires Legal(cfg, events) && Renews(cfg, events)
    ensures var e, origin := events[|events| - 1], Origins(cfg, events);
            && e.refresh in origin && origin[e.refresh] < Logins(events)
            && (KeepsPermissions(cfg, events) <==> GrantedAtLogin(events)[origin[e.refresh]] == [])
  {
    var front, e := events[..|events| - 1], events[|events| - 1];
    RenewalHasOrigin(cfg, events);
    RefreshTokensCarryNoPermissions(cfg, front, e.token);
    assert StateAfter(cfg, events).issued[e.access].permissions == [];
  }

  /** Both tokens of a renewal say who the login it goes back to was by, and expire after their
    * durations; the access token grants nothing. */
  lemma RenewedTokensSay(cfg: Config, events: seq<Event>)
    requires Legal(cfg, events) && Renews(cfg, events)
    ensures var e, origin, issued := events[|events| - 1], Origins(cfg, events), StateAfter(cfg, events).issued;
            && e.refresh in origin && origin[e.refresh] < Logins(events)
            && e.access in issued && Says(issued[e.access], UsersAtLogin(events)[origin[e.refresh]], [], Access, e.now, cfg.accessDuration)
            && e.refresh in issued && Says(issued[e.refresh], UsersAtLogin(events)[origin[e.refresh]], [], Refresh, e.now, cfg.refreshDuration)
  {
    var front, e := events[..|events| - 1], events[|events| - 1];
    RenewalHasOrigin(cfg, events);
    RefreshTokensSayWho(cfg, events, e.refresh);
    RefreshTokensCarryNoPermissions(cfg, front, e.token);
  }

  /** Without a positive refresh duration no refresh token is ever valid. */
  lemma {:induction false} RefreshTokensExpired(cfg: Config, events: seq<Event>, token: Token)
    requires cfg.refreshDuration <= 0 && Legal(cfg, events) && events != []
    requires token in StateAfter(cfg, events).issued && StateAfter(cfg, events).issued[token].kind == Refresh
    ensures StateAfter(cfg, events).issued[token].expiresAt <= events[|events| - 1].now
  {
    var front := events[..|events| - 1];
    if token in StateAfter(cfg, front).issued {
      assert front != [];
      RefreshTokensExpired(cfg, front, token);
    }
  }

  /** Log in with a permission at a moment that makes the refresh token expire on a whole second,
    * and renew at once. */
  lemma RenewalLosesPermission(cfg: Config)
    requires cfg.refreshDuration > 0
    ensures exists events :: Legal(cfg, events) && Renews(cfg, events) && !KeepsPermissions(cfg, events)
  {
    var k := cfg.refreshDuration / SECOND + 1;
    var now := k * SECOND - cfg.refreshDuration;
    var login, renew := Login("u", ["read"], "a", "r", now), Renew("r", "b", "s", now);
    LoginRenew(cfg, login, renew);
    RenewalKeepsPermissionsIff(cfg, [login, renew]);
  }

  lemma LoginRenew(cfg: Config, login: Event, renew: Event)
    requires login.Login? && renew.Renew? && renew.token == login.refresh && renew.now == login.now
    requires login.access != login.refresh && renew.access != renew.refresh
    requires renew.access !in {login.access, login.refresh} && renew.refresh !in {login.access, login.refresh}
    requires login.now < NumericDate(login.now + cfg.refreshDuration)
    ensures Legal(cfg, [login, renew]) && Renews(cfg, [login, renew])
  {
    OneMoreCall(cfg, [], login);
    assert [] + [login] == [login];
    OneMoreCall(cfg, [login], renew);
    assert [login] + [renew] == [login, renew] && [login, renew][..1] == [login];
  }

  lemma NeverRenews(cfg: Config, events: seq<Event>)
    requires cfg.refreshDuration <= 0 && Legal(cfg, events)
    ensures !Renews(cfg, events)
  {
    if events != [] && events[|events| - 1].Renew? {
      var front, e := events[..|events| - 1], events[|events| - 1];
      if e.token in StateAfter(cfg, front).issued && StateAfter(cfg, front).issued[e.token].kind == Refresh {
        assert front != [];
        RefreshTokensExpired(cfg, front, e.token);
      }
    }
  }

  /** Renewals keep the permissions of their logins in every run exactly when refresh tokens are
    * made never to be valid. */
  lemma PermissionsSurviveIff(cfg: Config)
    ensures (forall events :: Legal(cfg, events) && Renews(cfg, events) ==> KeepsPermissions(cfg, events))
            <==> cfg.refreshDuration <= 0
  {
    if cfg.refreshDuration > 0 {
      RenewalLosesPermission(cfg);
    } else {
      forall events: seq<Event> | Legal(cfg, events) ensures !Renews(cfg, events) {
        NeverRenews(cfg, events);
      }
    }
  }
}
