/** The authentication orchestrator: log-in and refresh as pure decision
    functions. The store lookup, the password-hash comparison, the clock, the
    access-token signer and the random refresh string are all inputs; the
    output is the result handed to the caller together with the user that was
    persisted, if any. */
module AuthService {
  import opened Primitives
  import opened Notifications
  import opened Tokens
  import opened Usuarios

  /** The policy and token settings (`AuthConfig` and `JwtConfig`). */
  datatype Config = Config(
    maximumAttempts: Int16,   // failures that trigger a lockout
    secondsBlocked: int,      // lockout length
    seconds: int)             // access-token lifetime

  /** A log-in request: its credentials and its own notification list. */
  datatype AuthRequest = AuthRequest(email: string, senha: string, state: Notifiable)

  /** A refresh request: the refresh string and its own notification list. */
  datatype RefreshTokenRequest = RefreshTokenRequest(token: string, state: Notifiable)

  datatype TokenResponse = TokenResponse(
    authenticated: bool,
    accessToken: string,
    created: int,
    expiration: int,
    refreshToken: string,
    expiresIn: int)

  /** `Result<TokenResponse>`: success with a message, failure with the
      request's notifications, or failure with one message. */
  datatype AuthResult =
    | Succeeded(response: TokenResponse, message: string)
    | Failed(notifications: seq<Notification>)
    | FailedWith(message: string)

  /** What a call returns, and the user it persisted (`None`: nothing saved). */
  datatype Outcome = Outcome(result: AuthResult, saved: Option<Usuario>)

  /** The access-token signer: a token for (user id, user name, issued at,
      expires at). */
  type AccessTokenIssuer = (string, string, int, int) -> string

  const AccountNotFound := "A conta informada não existe."
  const AccountLocked := "A sua conta está bloqueada, entre em contato com o nosso suporte."
  const WrongCredentials := "O e-mail ou senha está incorreta."
  const Authenticated := "Autenticado efetuada com sucesso."
  const NoTokenFound := "Nenhum token encontrado."
  const InvalidOrExpiredToken := "O token inválido ou expirado."
  const Refreshed := "Atualização efetuada com sucesso."

  /** `request.Validate()`: the validator's result is added to the request's list. */
  function Validate(state: Notifiable, validator: ValidationResult): (validated: Notifiable)
    ensures ResultIsValid(validator) ==> validated == state
    ensures !ResultIsValid(validator) ==> validated.notifications == state.notifications + FailureNotes(validator.errors)
    ensures IsValid(validated) <==> IsValid(state) && ResultIsValid(validator)
  {
    AddValidationResult(state, Some(validator))
  }

  /** The access token the signer issues for this user over this interval. */
  function AccessToken(jwt: AccessTokenIssuer, u: Usuario, createdAt: int, expiresAt: int): string {
    jwt(u.id, u.nome, createdAt, expiresAt)
  }

  /** The user after a successful log-in at `now`. */
  function LoggedIn(u: Usuario, now: int, config: Config, jwt: AccessTokenIssuer, newRefresh: string): Usuario {
    var expiresAt := now + config.seconds;
    AdicionarToken(DefinirUltimoAcesso(u, now), NovoToken(AccessToken(jwt, u, now, expiresAt), newRefresh, now, expiresAt))
  }

  /** `AuthenticateAsync`: validate, look up, check the lock, compare the
      password, then either record the failure or record the access and
      append a new token. */
  function Authenticate(
    request: AuthRequest, validator: ValidationResult, found: Option<Usuario>, now: int,
    config: Config, passwordMatches: bool, jwt: AccessTokenIssuer, newRefresh: string): (o: Outcome)
    // an invalid request fails with its notifications and touches no user
    ensures !IsValid(Validate(request.state, validator)) ==>
      o == Outcome(Failed(Validate(request.state, validator).notifications), None)
    // from here on the request is valid
    ensures IsValid(Validate(request.state, validator)) && found.None? ==>
      o == Outcome(FailedWith(AccountNotFound), None)
    ensures IsValid(Validate(request.state, validator)) && found.Some? && EstaBloqueado(found.value, now) ==>
      o == Outcome(FailedWith(AccountLocked), None)
    ensures IsValid(Validate(request.state, validator)) && found.Some? && !EstaBloqueado(found.value, now) && !passwordMatches ==>
      o == Outcome(FailedWith(WrongCredentials), Some(IncrementarFalhas(found.value, now, config.maximumAttempts, config.secondsBlocked)))
    ensures IsValid(Validate(request.state, validator)) && found.Some? && !EstaBloqueado(found.value, now) && passwordMatches ==>
      var u := found.value;
      && o.result.Succeeded?
      && o.result.message == Authenticated
      && o.result.response.authenticated
      && o.result.response.created == now
      && o.result.response.expiration == now + config.seconds
      && o.result.response.refreshToken == newRefresh
      && o.result.response.expiresIn == config.seconds
      && o.result.response.accessToken == AccessToken(jwt, u, now, now + config.seconds)
      && o.saved.Some?
      && o.saved.value.ultimoAcessoEm == Some(now)
      && o.saved.value.(ultimoAcessoEm := u.ultimoAcessoEm, tokens := u.tokens) == u
      && |o.saved.value.tokens| == |u.tokens| + 1
      && o.saved.value.tokens[..|u.tokens|] == u.tokens
      && o.saved.value.tokens[|u.tokens|] == NovoToken(o.result.response.accessToken, newRefresh, now, now + config.seconds)
    // only a valid request for an existing, unlocked account is persisted
    ensures o.saved.Some? <==> IsValid(Validate(request.state, validator)) && found.Some? && !EstaBloqueado(found.value, now)
    ensures o.result.Succeeded? <==> o.saved.Some? && passwordMatches
  {
    var validated := Validate(request.state, validator);
    if !IsValid(validated) then Outcome(Failed(validated.notifications), None)
    else if found.None? then Outcome(FailedWith(AccountNotFound), None)
    else
      var u := found.value;
      if EstaBloqueado(u, now) then Outcome(FailedWith(AccountLocked), None)
      else if passwordMatches then
        var createdAt := now;
        var expiresAt := createdAt + config.seconds;
        var response := TokenResponse(true, AccessToken(jwt, u, createdAt, expiresAt), createdAt, expiresAt, newRefresh, config.seconds);
        Outcome(Succeeded(response, Authenticated), Some(LoggedIn(u, now, config, jwt, newRefresh)))
      else
        Outcome(FailedWith(WrongCredentials), Some(IncrementarFalhas(u, now, config.maximumAttempts, config.secondsBlocked)))
  }

  /** The user after a successful refresh of ledger entry `i` at `now`. */
  function Rotated(u: Usuario, i: nat, now: int, config: Config, jwt: AccessTokenIssuer, newRefresh: string): Usuario
    requires i < |u.tokens|
  {
    var expiresAt := now + config.seconds;
    AdicionarToken(RevogarEntrada(u, i, now), NovoToken(AccessToken(jwt, u, now, expiresAt), newRefresh, now, expiresAt))
  }

  /** The store returns the user owning the requested refresh string. */
  predicate OwnsRequestedToken(request: RefreshTokenRequest, found: Option<Usuario>) {
    found.Some? ==> HasRefreshString(found.value.tokens, request.token)
  }

  /** `RefreshTokenAsync`: validate, look up the owner, reject an expired
      entry, otherwise revoke it and append a new entry carrying `newRefresh`. */
  function Refresh(
    request: RefreshTokenRequest, validator: ValidationResult, found: Option<Usuario>, now: int,
    config: Config, jwt: AccessTokenIssuer, newRefresh: string): (o: Outcome)
    requires OwnsRequestedToken(request, found)
    ensures !IsValid(Validate(request.state, validator)) ==>
      o == Outcome(Failed(Validate(request.state, validator).notifications), None)
    ensures IsValid(Validate(request.state, validator)) && found.None? ==>
      o == Outcome(FailedWith(NoTokenFound), None)
    ensures IsValid(Validate(request.state, validator)) && found.Some? ==>
      var u := found.value;
      var i := FirstMatch(u.tokens, request.token).value;
      && i < |u.tokens|
      && u.tokens[i].atualizacao == request.token
      && (IsExpired(u.tokens[i], now) ==> o == Outcome(FailedWith(InvalidOrExpiredToken), None))
      && (!IsExpired(u.tokens[i], now) ==>
        && o.result.Succeeded?
        && o.result.message == Refreshed
        && o.result.response.authenticated
        && o.result.response.accessToken == AccessToken(jwt, u, now, now + config.seconds)
        && o.result.response.created == now
        && o.result.response.expiration == now + config.seconds
        && o.result.response.refreshToken == newRefresh
        && o.result.response.expiresIn == config.seconds
        && o.saved.Some?
        && o.saved.value.(tokens := u.tokens) == u
        && |o.saved.value.tokens| == |u.tokens| + 1
        && o.saved.value.tokens[i] == RevogarToken(u.tokens[i], now)
        && (forall j :: 0 <= j < |u.tokens| && j != i ==> o.saved.value.tokens[j] == u.tokens[j])
        && o.saved.value.tokens[|u.tokens|] == NovoToken(o.result.response.accessToken, newRefresh, now, now + config.seconds))
    ensures o.result.Succeeded? <==> o.saved.Some?
  {
    var validated := Validate(request.state, validator);
    if !IsValid(validated) then Outcome(Failed(validated.notifications), None)
    else if found.None? then Outcome(FailedWith(NoTokenFound), None)
    else
      var u := found.value;
      var i := FirstMatch(u.tokens, request.token).value;
      if IsExpired(u.tokens[i], now) then Outcome(FailedWith(InvalidOrExpiredToken), None)
      else
        var createdAt := now;
        var expiresAt := createdAt + config.seconds;
        var response := TokenResponse(true, AccessToken(jwt, u, createdAt, expiresAt), createdAt, expiresAt, newRefresh, config.seconds);
        Outcome(Succeeded(response, Refreshed), Some(Rotated(u, i, now, config, jwt, newRefresh)))
  }

  /** An invalid log-in request is answered before any lookup or password
      check: neither the store's answer nor the comparison changes anything. */
  lemma AuthenticateInvalidIgnoresStore(
    request: AuthRequest, validator: ValidationResult, found1: Option<Usuario>, found2: Option<Usuario>, now: int,
    config: Config, matches1: bool, matches2: bool, jwt: AccessTokenIssuer, newRefresh: string)
    requires !IsValid(Validate(request.state, validator))
    ensures Authenticate(request, validator, found1, now, config, matches1, jwt, newRefresh)
         == Authenticate(request, validator, found2, now, config, matches2, jwt, newRefresh)
    ensures Authenticate(request, validator, found1, now, config, matches1, jwt, newRefresh).saved.None?
  {
  }

  /** A locked account is refused whatever the password: the comparison's
      answer is never used and the failure counter does not move. */
  lemma AuthenticateLockedIgnoresPassword(
    request: AuthRequest, validator: ValidationResult, u: Usuario, now: int,
    config: Config, matches1: bool, matches2: bool, jwt: AccessTokenIssuer, newRefresh: string)
    requires IsValid(Validate(request.state, validator))
    requires EstaBloqueado(u, now)
    ensures Authenticate(request, validator, Some(u), now, config, matches1, jwt, newRefresh)
         == Authenticate(request, validator, Some(u), now, config, matches2, jwt, newRefresh)
    ensures Authenticate(request, validator, Some(u), now, config, matches1, jwt, newRefresh)
         == Outcome(FailedWith(AccountLocked), None)
  {
  }

  /** Log-in keeps the failure counter within `[0, MaximumAttempts)`. */
  lemma AuthenticateKeepsCounterBound(
    request: AuthRequest, validator: ValidationResult, u: Usuario, now: int,
    config: Config, passwordMatches: bool, jwt: AccessTokenIssuer, newRefresh: string)
    requires 1 <= config.maximumAttempts
    requires 0 <= u.numeroFalhasAoAcessar < config.maximumAttempts
    ensures var o := Authenticate(request, validator, Some(u), now, config, passwordMatches, jwt, newRefresh);
      o.saved.Some? ==> 0 <= o.saved.value.numeroFalhasAoAcessar < config.maximumAttempts
  {
    if IsValid(Validate(request.state, validator)) && !EstaBloqueado(u, now) && !passwordMatches {
      IncrementarFalhasKeepsCounterBound(u, now, config.maximumAttempts, config.secondsBlocked);
    }
  }

  /** Both use cases leave the ledger append-only: nothing is removed or
      reissued, and an existing revocation date is never overwritten. */
  lemma LedgerIsAppendOnly(
    authRequest: AuthRequest, refreshRequest: RefreshTokenRequest, validator: ValidationResult, u: Usuario, now: int,
    config: Config, passwordMatches: bool, jwt: AccessTokenIssuer, newRefresh: string)
    requires OwnsRequestedToken(refreshRequest, Some(u))
    ensures var o := Authenticate(authRequest, validator, Some(u), now, config, passwordMatches, jwt, newRefresh);
      o.saved.Some? ==> LedgerExtends(u.tokens, o.saved.value.tokens)
    ensures var o := Refresh(refreshRequest, validator, Some(u), now, config, jwt, newRefresh);
      o.saved.Some? ==> LedgerExtends(u.tokens, o.saved.value.tokens)
  {
  }

  /** With a refresh string not yet in the ledger, both use cases keep the
      ledger's refresh strings pairwise distinct. */
  lemma RefreshStringsStayDistinct(
    authRequest: AuthRequest, refreshRequest: RefreshTokenRequest, validator: ValidationResult, u: Usuario, now: int,
    config: Config, passwordMatches: bool, jwt: AccessTokenIssuer, newRefresh: string)
    requires OwnsRequestedToken(refreshRequest, Some(u))
    requires DistinctRefreshStrings(u.tokens)
    requires !HasRefreshString(u.tokens, newRefresh)
    ensures var o := Authenticate(authRequest, validator, Some(u), now, config, passwordMatches, jwt, newRefresh);
      o.saved.Some? ==> DistinctRefreshStrings(o.saved.value.tokens)
    ensures var o := Refresh(refreshRequest, validator, Some(u), now, config, jwt, newRefresh);
      o.saved.Some? ==> DistinctRefreshStrings(o.saved.value.tokens)
  {
  }

  /** The lockout scenario with five attempts and a fifteen-minute lockout:
      four wrong passwords leave the counter at four, the fifth locks the
      account and resets the counter, and any attempt within the next fifteen
      minutes, even with the right password, is refused as locked. */
  lemma LockoutScenario(
    request: AuthRequest, validator: ValidationResult, u: Usuario, now: int, later: int,
    seconds: int, jwt: AccessTokenIssuer, newRefresh: string)
    requires IsValid(Validate(request.state, validator))
    requires u.numeroFalhasAoAcessar == 0
    requires !EstaBloqueado(u, now)
    requires now <= later < now + 900
    ensures
      var config := Config(5, 900, seconds);
      var o1 := Authenticate(request, validator, Some(u), now, config, false, jwt, newRefresh);
      var o2 := Authenticate(request, validator, o1.saved, now, config, false, jwt, newRefresh);
      var o3 := Authenticate(request, validator, o2.saved, now, config, false, jwt, newRefresh);
      var o4 := Authenticate(request, validator, o3.saved, now, config, false, jwt, newRefresh);
      var o5 := Authenticate(request, validator, o4.saved, now, config, false, jwt, newRefresh);
      var o6 := Authenticate(request, validator, o5.saved, later, config, true, jwt, newRefresh);
      && o4.result == FailedWith(WrongCredentials)
      && o4.saved.Some? && o4.saved.value.numeroFalhasAoAcessar == 4 && !EstaBloqueado(o4.saved.value, now)
      && o5.result == FailedWith(WrongCredentials)
      && o5.saved.Some? && o5.saved.value.numeroFalhasAoAcessar == 0
      && o5.saved.value.bloqueioExpiraEm == Some(now + 900)
      && o6 == Outcome(FailedWith(AccountLocked), None)
  {
    FiveAttemptScenario(u, now, 900);
  }

  /** A successful refresh leaves the exchanged entry revoked, hence
      unusable at every time. */
  lemma RefreshRevokesExchangedEntry(
    request: RefreshTokenRequest, validator: ValidationResult, u: Usuario, now: int,
    config: Config, jwt: AccessTokenIssuer, newRefresh: string)
    requires OwnsRequestedToken(request, Some(u))
    ensures var o := Refresh(request, validator, Some(u), now, config, jwt, newRefresh);
      var i := FirstMatch(u.tokens, request.token).value;
      o.saved.Some? ==> EstaRevogado(o.saved.value.tokens[i]) && forall t :: EstaValido(o.saved.value.tokens[i], t)
  {
  }

  /** A refresh string whose entry expired one second ago is refused, and
      nothing is persisted (a seven-day token presented at seven days plus
      one second). */
  lemma ExpiredRefreshScenario(
    request: RefreshTokenRequest, validator: ValidationResult, u: Usuario, k: nat, t0: int,
    config: Config, jwt: AccessTokenIssuer, newRefresh: string)
    requires IsValid(Validate(request.state, validator))
    requires DistinctRefreshStrings(u.tokens)
    requires k < |u.tokens| && u.tokens[k].atualizacao == request.token
    requires u.tokens[k].criadoEm == t0 && u.tokens[k].expiraEm == t0 + 7 * 24 * 3600
    ensures OwnsRequestedToken(request, Some(u))
    ensures Refresh(request, validator, Some(u), t0 + 7 * 24 * 3600 + 1, config, jwt, newRefresh)
         == Outcome(FailedWith(InvalidOrExpiredToken), None)
  {
    FirstMatchOfDistinct(u.tokens, k);
  }

  /** Under the expiry-only reading of the refresh check, an exchanged
      (revoked) entry that has not yet expired is accepted a second time, and
      its first revocation date is kept. */
  lemma RevokedEntryIsExchangedAgain(
    request: RefreshTokenRequest, validator: ValidationResult, u: Usuario, now: int, later: int,
    config: Config, jwt: AccessTokenIssuer, first: string, second: string)
    requires IsValid(Validate(request.state, validator))
    requires OwnsRequestedToken(request, Some(u))
    requires now <= later
    requires !IsExpired(u.tokens[FirstMatch(u.tokens, request.token).value], later)
    ensures var o1 := Refresh(request, validator, Some(u), now, config, jwt, first);
      && o1.result.Succeeded?
      && OwnsRequestedToken(request, o1.saved)
      && var o2 := Refresh(request, validator, o1.saved, later, config, jwt, second);
         var i := FirstMatch(u.tokens, request.token).value;
         && o2.result.Succeeded?
         && o2.saved.value.tokens[i].revogadoEm == o1.saved.value.tokens[i].revogadoEm
         && (!EstaRevogado(u.tokens[i]) ==> o2.saved.value.tokens[i].revogadoEm == Some(now))
  {
    var i := FirstMatch(u.tokens, request.token).value;
    var o1 := Refresh(request, validator, Some(u), now, config, jwt, first);
    var u1 := o1.saved.value;
    assert forall j :: 0 <= j < |u.tokens| ==> u1.tokens[j].atualizacao == u.tokens[j].atualizacao;
    FirstMatchStable(u.tokens, u1.tokens, request.token);
  }
}
