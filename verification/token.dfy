/** One entry of a user's token ledger: the access and refresh strings
    issued together, their creation and expiry times, and an optional
    revocation time that, once set, never changes. Times are whole seconds. */
module Tokens {
  import opened Primitives

  datatype Token = Token(
    acesso: string,          // access token
    atualizacao: string,     // refresh token
    criadoEm: int,
    expiraEm: int,
    revogadoEm: Option<int>)

  /** The constructor: the given strings and times, not revoked. */
  function NovoToken(acesso: string, atualizacao: string, criadoEm: int, expiraEm: int): (t: Token)
    ensures t.acesso == acesso && t.atualizacao == atualizacao
    ensures t.criadoEm == criadoEm && t.expiraEm == expiraEm
    ensures !EstaRevogado(t)
    ensures forall now :: now < expiraEm ==> !EstaValido(t, now)
  {
    Token(acesso, atualizacao, criadoEm, expiraEm, None)
  }

  /** `EstaRevogado`: revoked exactly when a revocation date is recorded. */
  function EstaRevogado(t: Token): (revoked: bool)
    ensures revoked <==> t.revogadoEm != None
  {
    t.revogadoEm.Some?
  }

  /** Despite its name, true when the token can NOT be used: it is expired
      (expiry is inclusive: `now >= ExpiraEm`) or revoked. */
  function EstaValido(t: Token, now: int): (unusable: bool)
    ensures !unusable <==> now < t.expiraEm && t.revogadoEm == None
  {
    now >= t.expiraEm || EstaRevogado(t)
  }

  /** The expiry test the refresh path applies to a ledger entry. Its body is
      not part of this model; it is read here as expiry only, the
      first disjunct of `EstaValido`, so a revoked but unexpired entry passes. */
  function IsExpired(t: Token, now: int): (expired: bool)
    ensures expired <==> t.expiraEm <= now
  {
    now >= t.expiraEm
  }

  /** The two entries were issued together: they agree on everything except
      possibly the revocation time. */
  predicate SameIssue(a: Token, b: Token) {
    a.acesso == b.acesso && a.atualizacao == b.atualizacao && a.criadoEm == b.criadoEm && a.expiraEm == b.expiraEm
  }

  /** Revocation: the first revocation date is kept by later calls. */
  function RevogarToken(t: Token, dataRevogacao: int): (r: Token)
    ensures SameIssue(t, r)
    ensures EstaRevogado(r)
    ensures !EstaRevogado(t) ==> r.revogadoEm == Some(dataRevogacao)
    ensures EstaRevogado(t) ==> r == t
    ensures forall now :: EstaValido(r, now)
  {
    if !EstaRevogado(t) then t.(revogadoEm := Some(dataRevogacao)) else t
  }

  /** Revoking twice is revoking once: the second date is ignored. */
  lemma RevogarTokenIdempotent(t: Token, first: int, second: int)
    ensures RevogarToken(RevogarToken(t, first), second) == RevogarToken(t, first)
  {
  }

  /** `EstaValido` is the disjunction of expiry and revocation, both ways. */
  lemma EstaValidoIsExpiredOrRevoked(t: Token, now: int)
    ensures EstaValido(t, now) <==> IsExpired(t, now) || EstaRevogado(t)
  {
  }

  /** Expiry is monotonic in time: once expired, expired forever after. */
  lemma ExpiryIsMonotonic(t: Token, now: int, later: int)
    requires IsExpired(t, now)
    requires now <= later
    ensures IsExpired(t, later)
    ensures EstaValido(t, later)
  {
  }
}
