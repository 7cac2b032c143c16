/** The user aggregate and the account-lockout state machine it embeds:
    failed-attempt counter, lockout expiry, last access and the append-only
    token ledger. Times are whole seconds; a `TimeSpan` is a number of seconds. */
module Usuarios {
  import opened Primitives
  import opened Tokens

  datatype Usuario = Usuario(
    id: string,
    nome: string,
    email: string,
    hashSenha: string,
    ultimoAcessoEm: Option<int>,
    bloqueioExpiraEm: Option<int>,
    numeroFalhasAoAcessar: Int32,
    tokens: seq<Token>)

  /** The public constructor: the identity (generated by the base entity)
      is a parameter; nothing is locked, counted or issued yet. */
  function NovoUsuario(id: string, nome: string, email: string, hashSenha: string): (u: Usuario)
    ensures u.id == id && u.nome == nome && u.email == email && u.hashSenha == hashSenha
    ensures u.ultimoAcessoEm.None? && u.numeroFalhasAoAcessar == 0 && |u.tokens| == 0
    ensures forall now :: !EstaBloqueado(u, now)
  {
    Usuario(id, nome, email, hashSenha, None, None, 0, [])
  }

  /** Locked exactly while the lockout expiry is set and strictly after now
      (a lifted comparison with a null operand is false). */
  function EstaBloqueado(u: Usuario, now: int): (locked: bool)
    ensures u.bloqueioExpiraEm.None? ==> !locked
    ensures u.bloqueioExpiraEm.Some? ==> (locked <==> now < u.bloqueioExpiraEm.value)
  {
    u.bloqueioExpiraEm.Some? && u.bloqueioExpiraEm.value > now
  }

  /** A lock is a window ending at its expiry: locked at some time means
      locked at every earlier time, and the expiry instant itself is free. */
  lemma LockIsAWindow(u: Usuario, earlier: int, now: int)
    requires earlier <= now
    ensures EstaBloqueado(u, now) ==> EstaBloqueado(u, earlier)
    ensures u.bloqueioExpiraEm.Some? ==> !EstaBloqueado(u, u.bloqueioExpiraEm.value)
    ensures u.bloqueioExpiraEm.None? ==> !EstaBloqueado(u, now)
  {
  }

  function AtualizarNome(u: Usuario, nome: string): (r: Usuario)
    ensures r.nome == nome
    ensures r.(nome := u.nome) == u
  {
    u.(nome := nome)
  }

  function AtualizarEmail(u: Usuario, email: string): (r: Usuario)
    ensures r.email == email
    ensures r.(email := u.email) == u
  {
    u.(email := email)
  }

  function DefinirHashSenha(u: Usuario, hashSenha: string): (r: Usuario)
    ensures r.hashSenha == hashSenha
    ensures r.(hashSenha := u.hashSenha) == u
  {
    u.(hashSenha := hashSenha)
  }

  /** Records a successful access; the failure counter is NOT reset. */
  function DefinirUltimoAcesso(u: Usuario, now: int): (r: Usuario)
    ensures r.ultimoAcessoEm == Some(now)
    ensures r.(ultimoAcessoEm := u.ultimoAcessoEm) == u
    ensures forall t :: EstaBloqueado(r, t) <==> EstaBloqueado(u, t)
  {
    u.(ultimoAcessoEm := Some(now))
  }

  /** Appends one entry at the end of the ledger. */
  function AdicionarToken(u: Usuario, token: Token): (r: Usuario)
    ensures |r.tokens| == |u.tokens| + 1
    ensures r.tokens[..|u.tokens|] == u.tokens
    ensures r.tokens[|u.tokens|] == token
    ensures r.(tokens := u.tokens) == u
  {
    u.(tokens := u.tokens + [token])
  }

  /** Revokes the ledger entry at index `i` in place (the tracked entity is
      mutated through the user's collection). */
  function RevogarEntrada(u: Usuario, i: nat, now: int): (r: Usuario)
    requires i < |u.tokens|
    ensures |r.tokens| == |u.tokens|
    ensures r.tokens[i] == RevogarToken(u.tokens[i], now)
    ensures forall j :: 0 <= j < |u.tokens| && j != i ==> r.tokens[j] == u.tokens[j]
    ensures r.(tokens := u.tokens) == u
  {
    u.(tokens := u.tokens[i := RevogarToken(u.tokens[i], now)])
  }

  /** Records a failed access. A locked account is left as it is; otherwise
      the counter is incremented (as a C# `int`), and when it reaches the
      limit it is reset to zero and the account is locked for `lockedTimeSpan`. */
  function IncrementarFalhas(u: Usuario, now: int, numeroTentativas: Int16, lockedTimeSpan: int): (r: Usuario)
    ensures r.(numeroFalhasAoAcessar := u.numeroFalhasAoAcessar, bloqueioExpiraEm := u.bloqueioExpiraEm) == u
    ensures EstaBloqueado(u, now) ==> r == u
    ensures !EstaBloqueado(u, now) && Int32Increment(u.numeroFalhasAoAcessar) != numeroTentativas ==>
      r.numeroFalhasAoAcessar == Int32Increment(u.numeroFalhasAoAcessar) && r.bloqueioExpiraEm == u.bloqueioExpiraEm
    ensures !EstaBloqueado(u, now) && Int32Increment(u.numeroFalhasAoAcessar) == numeroTentativas ==>
      r.numeroFalhasAoAcessar == 0 && r.bloqueioExpiraEm == Some(now + lockedTimeSpan)
    ensures !EstaBloqueado(u, now) && Int32Increment(u.numeroFalhasAoAcessar) == numeroTentativas && lockedTimeSpan > 0 ==>
      EstaBloqueado(r, now)
  {
    if EstaBloqueado(u, now) then u
    else
      var falhas := Int32Increment(u.numeroFalhasAoAcessar);
      if falhas == numeroTentativas then u.(numeroFalhasAoAcessar := 0, bloqueioExpiraEm := Some(now + lockedTimeSpan))
      else u.(numeroFalhasAoAcessar := falhas)
  }

  /** Below the limit a failure adds exactly one and leaves the lockout alone. */
  lemma IncrementarFalhasBelowLimit(u: Usuario, now: int, numeroTentativas: Int16, lockedTimeSpan: int)
    requires !EstaBloqueado(u, now)
    requires u.numeroFalhasAoAcessar + 1 < numeroTentativas
    ensures IncrementarFalhas(u, now, numeroTentativas, lockedTimeSpan).numeroFalhasAoAcessar == u.numeroFalhasAoAcessar + 1
    ensures IncrementarFalhas(u, now, numeroTentativas, lockedTimeSpan).bloqueioExpiraEm == u.bloqueioExpiraEm
  {
  }

  /** The counter invariant: with a positive limit, a counter in `[0, limit)`
      stays in `[0, limit)`. */
  lemma IncrementarFalhasKeepsCounterBound(u: Usuario, now: int, numeroTentativas: Int16, lockedTimeSpan: int)
    requires 1 <= numeroTentativas
    requires 0 <= u.numeroFalhasAoAcessar < numeroTentativas
    ensures 0 <= IncrementarFalhas(u, now, numeroTentativas, lockedTimeSpan).numeroFalhasAoAcessar < numeroTentativas
  {
  }

  /** `IncrementarFalhas` applied at each of the given times, in order. */
  function FalharEmSequencia(u: Usuario, times: seq<int>, numeroTentativas: Int16, lockedTimeSpan: int): Usuario
    decreases |times|
  {
    if |times| == 0 then u
    else FalharEmSequencia(IncrementarFalhas(u, times[0], numeroTentativas, lockedTimeSpan), times[1..], numeroTentativas, lockedTimeSpan)
  }

  lemma {:induction false} FalharEmSequenciaSnoc(u: Usuario, times: seq<int>, t: int, numeroTentativas: Int16, lockedTimeSpan: int)
    ensures FalharEmSequencia(u, times + [t], numeroTentativas, lockedTimeSpan)
         == IncrementarFalhas(FalharEmSequencia(u, times, numeroTentativas, lockedTimeSpan), t, numeroTentativas, lockedTimeSpan)
    decreases |times|
  {
    if |times| == 0 {
      assert times + [t] == [t];
      assert ([t])[1..] == [];
    } else {
      var u1 := IncrementarFalhas(u, times[0], numeroTentativas, lockedTimeSpan);
      assert (times + [t])[1..] == times[1..] + [t];
      FalharEmSequenciaSnoc(u1, times[1..], t, numeroTentativas, lockedTimeSpan);
    }
  }

  /** Failures that stay below the limit, on an account unlocked at each of
      their times, add up one by one and never touch the lockout. */
  lemma {:induction false} FailuresBelowLimit(u: Usuario, times: seq<int>, numeroTentativas: Int16, lockedTimeSpan: int)
    requires 0 <= u.numeroFalhasAoAcessar
    requires u.numeroFalhasAoAcessar + |times| < numeroTentativas
    requires forall k :: 0 <= k < |times| ==> !EstaBloqueado(u, times[k])
    ensures FalharEmSequencia(u, times, numeroTentativas, lockedTimeSpan).numeroFalhasAoAcessar == u.numeroFalhasAoAcessar + |times|
    ensures FalharEmSequencia(u, times, numeroTentativas, lockedTimeSpan).bloqueioExpiraEm == u.bloqueioExpiraEm
    decreases |times|
  {
    if |times| > 0 {
      var u1 := IncrementarFalhas(u, times[0], numeroTentativas, lockedTimeSpan);
      assert u1.numeroFalhasAoAcessar == u.numeroFalhasAoAcessar + 1;
      assert forall k :: 0 <= k < |times[1..]| ==> times[1..][k] == times[k + 1];
      FailuresBelowLimit(u1, times[1..], numeroTentativas, lockedTimeSpan);
    }
  }

  /** The failure that reaches the limit resets the counter and locks the
      account until its own time plus the lockout span. */
  lemma FailuresReachLimit(u: Usuario, times: seq<int>, numeroTentativas: Int16, lockedTimeSpan: int)
    requires |times| >= 1
    requires 0 <= u.numeroFalhasAoAcessar
    requires u.numeroFalhasAoAcessar + |times| == numeroTentativas
    requires forall k :: 0 <= k < |times| ==> !EstaBloqueado(u, times[k])
    ensures FalharEmSequencia(u, times, numeroTentativas, lockedTimeSpan).numeroFalhasAoAcessar == 0
    ensures FalharEmSequencia(u, times, numeroTentativas, lockedTimeSpan).bloqueioExpiraEm == Some(times[|times| - 1] + lockedTimeSpan)
  {
    var prefix := times[..|times| - 1];
    var last := times[|times| - 1];
    assert times == prefix + [last];
    FailuresBelowLimit(u, prefix, numeroTentativas, lockedTimeSpan);
    FalharEmSequenciaSnoc(u, prefix, last, numeroTentativas, lockedTimeSpan);
  }

  /** The documented scenario, with a limit of five: four failures leave the
      counter at four and the account open; the fifth resets the counter and
      locks the account. */
  lemma FiveAttemptScenario(u: Usuario, now: int, lockedTimeSpan: int)
    requires u.numeroFalhasAoAcessar == 0
    requires !EstaBloqueado(u, now)
    requires lockedTimeSpan > 0
    ensures var four := FalharEmSequencia(u, [now, now, now, now], 5, lockedTimeSpan);
      four.numeroFalhasAoAcessar == 4 && !EstaBloqueado(four, now)
    ensures var five := FalharEmSequencia(u, [now, now, now, now, now], 5, lockedTimeSpan);
      five.numeroFalhasAoAcessar == 0 && five.bloqueioExpiraEm == Some(now + lockedTimeSpan) && EstaBloqueado(five, now)
  {
    FailuresBelowLimit(u, [now, now, now, now], 5, lockedTimeSpan);
    FailuresReachLimit(u, [now, now, now, now, now], 5, lockedTimeSpan);
  }

  /** The ledger only grows, and revocations already recorded stay as they were. */
  predicate LedgerExtends(before: seq<Token>, after: seq<Token>) {
    && |before| <= |after|
    && forall i :: 0 <= i < |before| ==>
         SameIssue(before[i], after[i]) && (EstaRevogado(before[i]) ==> after[i].revogadoEm == before[i].revogadoEm)
  }

  lemma LedgerExtendsTransitive(a: seq<Token>, b: seq<Token>, c: seq<Token>)
    requires LedgerExtends(a, b) && LedgerExtends(b, c)
    ensures LedgerExtends(a, c)
  {
  }

  /** Appending and revoking are the only ledger changes, and both extend it. */
  lemma LedgerChangesExtend(u: Usuario, token: Token, i: nat, now: int)
    requires i < |u.tokens|
    ensures LedgerExtends(u.tokens, AdicionarToken(u, token).tokens)
    ensures LedgerExtends(u.tokens, RevogarEntrada(u, i, now).tokens)
  {
  }

  /** No two ledger entries share a refresh string. */
  predicate DistinctRefreshStrings(tokens: seq<Token>) {
    forall i, j :: 0 <= i < j < |tokens| ==> tokens[i].atualizacao != tokens[j].atualizacao
  }

  predicate HasRefreshString(tokens: seq<Token>, s: string) {
    exists i :: 0 <= i < |tokens| && tokens[i].atualizacao == s
  }

  /** `FirstOrDefault(t => t.Token == s)` on the ledger: the index of the
      first entry carrying `s`, or nothing when no entry does. */
  function FirstMatch(tokens: seq<Token>, s: string): (r: Option<nat>)
    ensures r.Some? ==> r.value < |tokens| && tokens[r.value].atualizacao == s
    ensures r.Some? ==> forall j :: 0 <= j < r.value ==> tokens[j].atualizacao != s
    ensures r.None? <==> !HasRefreshString(tokens, s)
  {
    if |tokens| == 0 then None
    else if tokens[0].atualizacao == s then Some(0)
    else
      match FirstMatch(tokens[1..], s)
      case None => None
      case Some(k) => Some(k + 1)
  }

  /** With distinct refresh strings, the first match is the only match. */
  lemma FirstMatchOfDistinct(tokens: seq<Token>, k: nat)
    requires DistinctRefreshStrings(tokens)
    requires k < |tokens|
    ensures FirstMatch(tokens, tokens[k].atualizacao) == Some(k)
  {
  }

  /** The lookup reads refresh strings only: a ledger that extends another
      with the same strings finds an existing string at the same index. */
  lemma FirstMatchStable(before: seq<Token>, after: seq<Token>, s: string)
    requires |before| <= |after|
    requires forall j :: 0 <= j < |before| ==> after[j].atualizacao == before[j].atualizacao
    requires HasRefreshString(before, s)
    ensures FirstMatch(after, s) == FirstMatch(before, s)
  {
  }
}
