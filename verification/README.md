# SGP authentication and account lockout, modelled in Dafny

This project models the authentication core of the SGP API: the `Usuario`
aggregate with its failed-attempt counter, lockout expiry and token ledger;
the `Token` ledger entry with its revocation; the `Notifiable` validation
accumulator that `AuthRequest` inherits; and the two use cases of
`AuthService`, log-in (`AuthenticateAsync`) and refresh-token rotation
(`RefreshTokenAsync`), as pure decision functions.

Modules, one per source file:

- `Primitives` (`primitives.dfy`): `Option` for C# `null`, and the .NET `short`/`int` widths with `int` wrap-around.
- `Notifications` (`notifiable.dfy`): `src/SGP.Shared/Notifications/Notifiable.cs`.
- `Tokens` (`token.dfy`): `src/SGP.Domain/Entities/Token.cs`.
- `Usuarios` (`usuario.dfy`): `src/SGP.Domain/Entities/Usuario.cs`, plus the ledger lookup `FirstOrDefault` used by the refresh path.
- `AuthService` (`auth_service.dfy`): `src/SGP.Application/Services/AuthService.cs`.

Conventions:

- Timestamps are whole seconds (`int`). `DateTime.AddSeconds` and `DateTime.Add(TimeSpan)` are integer addition.
- Entity methods that mutate become functions that return the new entity.
- `Authenticate` and `Refresh` return an `Outcome`: the result handed to the caller, and the user that was persisted. `None` means nothing was saved.
- The clock, the store lookup, the validator's result, the password-hash comparison, the access-token signer and the random refresh string are all parameters.

`AuthService.cs` was written against another revision of the entities. Its calls are modelled with the entity methods shown:

| call in `AuthService.cs` | modelled with |
|---|---|
| `ContaEstaBloqueada` | `Usuarios.EstaBloqueado` |
| `IncrementarAcessoComFalha` | `Usuarios.IncrementarFalhas` |
| `IncrementarAcessoComSucceso` | `Usuarios.DefinirUltimoAcesso` |
| `AdicionarRefreshToken(new RefreshToken(...))` | `Usuarios.AdicionarToken` with a `Tokens.NovoToken` |
| `refreshToken.Revoke(new, now)` | `Tokens.RevogarToken(now)`; the replacement string is not stored in the entity |
| `usuario.Senha`, `RefreshTokens` | `hashSenha`, `tokens` |

`Usuario.cs` itself declares its ledger as a list of `TokenAcesso` (`Usuario.cs:11`, `:31`, `:33`), a type that is not part of this model:

| name in `Usuario.cs` | modelled with |
|---|---|
| `TokenAcesso` (`Usuario.cs:11`, `:31`, `:33`) | `Tokens.Token` |

The `RefreshToken` constructor in `AuthService.cs` takes no access token. The entity `Token` has one. This model chooses to store there the access token issued by the same call. The access-token signer is modelled as an abstract function of (user id, user name, issued at, expires at). Those are the user fields `GenerateJwtToken` reads, and neither use case changes them, so the signer sees the same values before and after the mutation. The random token id the real signer also embeds is not modelled (see "Left out").

The body of `IsExpired` (`AuthService.cs:139`) is not part of this model. It is read as expiry only: `now >= ExpiraEm`, the first disjunct of `Token.EstaValido`. A rotated refresh token is meant to be single-use. Under the expiry-only reading, the code does not enforce that: a revoked but unexpired refresh string is accepted again (`AuthService.RevokedEntryIsExchangedAgain`).

## Model

| member | source | states |
|---|---|---|
| `Notifications.IsValid` | src/SGP.Shared/Notifications/Notifiable.cs:15 | an object is valid exactly when its notification list is empty |
| `Notifications.NewNotifiable` | src/SGP.Shared/Notifications/Notifiable.cs:10-15 | a new notifiable has no notification, so it is valid |
| `Notifications.AddNotification` | src/SGP.Shared/Notifications/Notifiable.cs:18-21 | exactly one `(key, message)` is appended at the end; earlier notifications are unchanged and the object is no longer valid |
| `Notifications.AddNotificationItem` | src/SGP.Shared/Notifications/Notifiable.cs:23-26 | the given notification is appended at the end; earlier ones are unchanged; the object is no longer valid |
| `Notifications.AddNotifications` | src/SGP.Shared/Notifications/Notifiable.cs:28-41 | the collection is appended in order after the existing notifications; the result is valid iff both were empty |
| `Notifications.AddNotificationsOfAsWritten` | src/SGP.Shared/Notifications/Notifiable.cs:43-46 | as written, a null notifiable throws `ArgumentNullException` (via `AddRange(null)`) and adds nothing; a non-null one has its notifications appended |
| `Notifications.AddNotificationsOf` | src/SGP.Shared/Notifications/Notifiable.cs:43-46 | intended behaviour: another object's notifications are appended, a null one adds nothing; the result is valid iff both are |
| `Notifications.NullNotifiableThrows` | src/SGP.Shared/Notifications/Notifiable.cs:43-46 | on a null argument the written overload fails where the intended one leaves the list unchanged |
| `Notifications.NonNullNotifiableAgrees` | src/SGP.Shared/Notifications/Notifiable.cs:43-46 | on a non-null argument the written and intended overloads agree |
| `Notifications.AddNotificationsOfAll` | src/SGP.Shared/Notifications/Notifiable.cs:48-54 | intended behaviour of the `params` overload: each argument's notifications are appended in argument order, a null argument adds nothing; an empty argument list changes nothing |
| `Notifications.AddNotificationsOfAllAsWritten` | src/SGP.Shared/Notifications/Notifiable.cs:48-54 | as written, the `params` overload returns iff no argument is null, and then has appended every argument's notifications in order |
| `Notifications.ThrowsAtFirstNullArgument` | src/SGP.Shared/Notifications/Notifiable.cs:48-54 | as written, the `params` overload throws at the first null argument, after appending the notifications of the arguments before it |
| `Notifications.AllNonNullArgumentsAgree` | src/SGP.Shared/Notifications/Notifiable.cs:48-54 | without a null argument, the written `params` overload returns exactly what the intended one computes |
| `Notifications.AddFailures` | src/SGP.Shared/Notifications/Notifiable.cs:59-64 | one `(PropertyName, ErrorMessage)` is appended per validation failure, in the failures' order |
| `Notifications.AddValidationResult` | src/SGP.Shared/Notifications/Notifiable.cs:56-65 | a null or valid result changes nothing; an invalid one appends its failures in order; the result is valid iff the object was valid and the result null or valid |
| `Notifications.Clear` | src/SGP.Shared/Notifications/Notifiable.cs:67-70 | afterwards the notification list is empty, so the object is valid |
| `Tokens.EstaRevogado` | src/SGP.Domain/Entities/Token.cs:57 | a token is revoked exactly when a revocation date is recorded |
| `Tokens.EstaValido` | src/SGP.Domain/Entities/Token.cs:64-68 | despite the name, a token is usable (`EstaValido` false) exactly when now is before its expiry and it is not revoked |
| `Tokens.IsExpired` | src/SGP.Application/Services/AuthService.cs:139 | read as expiry only: expired exactly when the expiry is at or before now |
| `Tokens.NovoToken` | src/SGP.Domain/Entities/Token.cs:10-16 | a new token stores the given strings and times, is not revoked, and is usable before its expiry |
| `Tokens.RevogarToken` | src/SGP.Domain/Entities/Token.cs:74-78 | revocation changes only the revocation date; an unrevoked token gets the given date; a revoked token keeps its first date; afterwards `EstaValido` (unusable) holds at every time |
| `Tokens.RevogarTokenIdempotent` | src/SGP.Domain/Entities/Token.cs:76-77 | revoking twice equals revoking once with the first date |
| `Tokens.EstaValidoIsExpiredOrRevoked` | src/SGP.Domain/Entities/Token.cs:57-68 | `EstaValido(now)` holds iff the token is expired (`now >= ExpiraEm`) or revoked |
| `Tokens.ExpiryIsMonotonic` | src/SGP.Domain/Entities/Token.cs:64-68 | once a token is expired, it stays expired and `EstaValido` holds at every later time |
| `Usuarios.NovoUsuario` | src/SGP.Domain/Entities/Usuario.cs:13-18 | a new user has the given name, e-mail and hash, no last access, a zero counter, an empty ledger, and is never locked |
| `Usuarios.EstaBloqueado` | src/SGP.Domain/Entities/Usuario.cs:40 | never locked without a lockout expiry; with one, locked exactly when now is strictly before it |
| `Usuarios.LockIsAWindow` | src/SGP.Domain/Entities/Usuario.cs:40 | a lock is a window that ends strictly at its expiry: locked at a time implies locked earlier; not locked at the expiry instant; never locked without an expiry |
| `Usuarios.AtualizarNome` | src/SGP.Domain/Entities/Usuario.cs:42 | the name is set and nothing else changes |
| `Usuarios.AtualizarEmail` | src/SGP.Domain/Entities/Usuario.cs:44 | the e-mail is set and nothing else changes |
| `Usuarios.DefinirHashSenha` | src/SGP.Domain/Entities/Usuario.cs:46 | the password hash is set and nothing else changes |
| `Usuarios.DefinirUltimoAcesso` | src/SGP.Domain/Entities/Usuario.cs:48 | the last access becomes now; the counter, lockout state and ledger are unchanged |
| `Usuarios.AdicionarToken` | src/SGP.Domain/Entities/Usuario.cs:33 | exactly one entry is appended at the end of the ledger; earlier entries and all other fields are unchanged |
| `Usuarios.IncrementarFalhas` | src/SGP.Domain/Entities/Usuario.cs:57-71 | only the counter and lockout change; a locked account is unchanged; otherwise the counter is incremented; on reaching the limit it becomes 0 and the lockout is set to now + span, which locks the account when span > 0 |
| `Usuarios.IncrementarFalhasBelowLimit` | src/SGP.Domain/Entities/Usuario.cs:64-70 | on an unlocked account, a count still below the limit rises by exactly one and the lockout is untouched |
| `Usuarios.IncrementarFalhasKeepsCounterBound` | src/SGP.Domain/Entities/Usuario.cs:57-71 | with limit >= 1, a counter in `[0, limit)` stays in `[0, limit)` |
| `Usuarios.FailuresBelowLimit` | src/SGP.Domain/Entities/Usuario.cs:50-71 | a run of failures that stays below the limit, on an account unlocked at each failure's time, adds one per failure and leaves the lockout alone |
| `Usuarios.FailuresReachLimit` | src/SGP.Domain/Entities/Usuario.cs:50-71 | the failure that reaches the limit resets the counter to 0 and sets the lockout to its own time plus the span |
| `Usuarios.FiveAttemptScenario` | src/SGP.Domain/Entities/Usuario.cs:50-71 | with limit 5: four failures leave the counter at 4 and the account unlocked; the fifth resets it to 0 and locks the account |
| `Usuarios.LedgerExtendsTransitive` | src/SGP.Domain/Entities/Usuario.cs:31-33 | "the ledger only grows and keeps its revocations" composes across calls |
| `Usuarios.LedgerChangesExtend` | src/SGP.Domain/Entities/Usuario.cs:31-33 | appending an entry and revoking an entry both keep the earlier ledger as a prefix, with revocations kept |
| `Usuarios.RevogarEntrada` | src/SGP.Application/Services/AuthService.cs:150 | revoking a ledger entry in place revokes that entry at now and leaves every other entry and field unchanged |
| `Usuarios.FirstMatch` | src/SGP.Application/Services/AuthService.cs:138 | `FirstOrDefault` finds the first entry carrying the string; it finds nothing iff no entry carries it |
| `Usuarios.FirstMatchOfDistinct` | src/SGP.Application/Services/AuthService.cs:138 | with distinct refresh strings, the lookup finds the one entry that carries the string |
| `Usuarios.FirstMatchStable` | src/SGP.Application/Services/AuthService.cs:138 | a ledger that extends another with the same strings finds an existing string at the same index |
| `Primitives.Int32Increment` | src/SGP.Domain/Entities/Usuario.cs:64 | `++` on a C# `int` adds one, except at `int.MaxValue`, where it wraps to `int.MinValue` |
| `AuthService.Validate` | src/SGP.Application/Requests/AuthRequests/AuthRequest.cs:20-23 | validating a request appends the validator's failures to its list; a valid validator result leaves it unchanged; the request is valid afterwards iff it was valid and the validator found nothing |
| `AuthService.Authenticate` | src/SGP.Application/Services/AuthService.cs:56-117 | invalid request: fails with its notifications and saves nothing. Unknown e-mail: fails, nothing saved. Locked: fails, nothing saved. Right password: succeeds with expiry = created + `Seconds`, last access = now, every other user field except the ledger unchanged, exactly one `(access, fresh, created, expiry)` entry appended, and the response carries that fresh string and `Seconds`. Wrong password: fails and saves `IncrementarFalhas(now, MaximumAttempts, SecondsBlocked)` of the user. |
| `AuthService.Refresh` | src/SGP.Application/Services/AuthService.cs:119-167 | invalid request: fails with its notifications. No owning user: fails, nothing saved. Expired matching entry: fails, nothing saved. Otherwise the response is authenticated and carries the signer's access token and the fresh string; the matched entry is revoked at now, exactly one `(access, fresh, now, now + Seconds)` entry is appended, and all other entries and fields are unchanged |
| `AuthService.AuthenticateInvalidIgnoresStore` | src/SGP.Application/Services/AuthService.cs:60-66 | for an invalid request, neither the store's answer nor the password comparison affects the outcome, and nothing is saved |
| `AuthService.AuthenticateLockedIgnoresPassword` | src/SGP.Application/Services/AuthService.cs:75-79 | for a locked account, the outcome does not depend on the password comparison, it is the lock failure, and the user is not saved (the counter does not move) |
| `AuthService.AuthenticateKeepsCounterBound` | src/SGP.Application/Services/AuthService.cs:105-116 | log-in keeps the counter in `[0, MaximumAttempts)` when it was there before |
| `AuthService.LedgerIsAppendOnly` | src/SGP.Application/Services/AuthService.cs:87-156 | both use cases keep the ledger append-only: no entry is removed or reissued, and a revocation date is never overwritten |
| `AuthService.RefreshStringsStayDistinct` | src/SGP.Application/Services/AuthService.cs:87-153 | with a refresh string not yet in the ledger, both use cases keep the ledger's refresh strings distinct |
| `AuthService.LockoutScenario` | src/SGP.Application/Services/AuthService.cs:75-116 | with 5 attempts and a 900-second lockout: four wrong passwords leave the counter at 4; the fifth resets it and locks until now + 900; any attempt before then, even with the right password, fails as locked and saves nothing |
| `AuthService.RefreshRevokesExchangedEntry` | src/SGP.Application/Services/AuthService.cs:149-153 | after a successful refresh, the exchanged entry is revoked and unusable at every time |
| `AuthService.ExpiredRefreshScenario` | src/SGP.Application/Services/AuthService.cs:138-142 | a seven-day refresh string presented one second after expiry is refused, and nothing is saved |
| `AuthService.RevokedEntryIsExchangedAgain` | src/SGP.Application/Services/AuthService.cs:138-153 | under the expiry-only reading of `IsExpired`, an exchanged but unexpired string is accepted a second time, and the first revocation date is kept |

## Left out

- Access-token construction (`GenerateJwtToken`, `AuthService.cs:169-195`): claims, signing and serialisation belong to the JWT/HMAC library. It is the uninterpreted parameter `jwt`. The random `jti` claim (`Guid.NewGuid()`, `AuthService.cs:173`) is not modelled. The real signer gives different tokens for equal arguments; the model's signer does not.
- Storing the access token in the ledger entry is a modelling choice. The source's `RefreshToken` constructor (`AuthService.cs:90`, `:153`) records no access token.
- Clock reads: the source reads the clock several times in one call. Log-in reads it at `AuthService.cs:76`, `:85` and `:107-108`. Refresh reads it at `:139`, `:145` and `:150`. The model uses one `now` for all of them. So the lock check, the failure time, the revocation date and the new entry's `criadoEm` all share one instant. With a real clock they can differ by the time between those reads.
- Notifications.AddNotificationsOfAll / Notifications.AddNotificationsOfAllAsWritten: each argument is read as a value snapshot taken before the call. Passing the receiver among its own arguments is not modelled. In C#, `x.AddNotifications(x, x)` appends `x`'s own list to itself twice, so one notification becomes four; the model gives three. Likewise `x.AddNotifications(y, x)` gives `L Y L Y` in C# and `L Y L` in the model.
- AuthService.Authenticate / AuthService.Refresh: `createdAt.AddSeconds(secondsToExpire)` (`AuthService.cs:86`, `:146`) throws `ArgumentOutOfRangeException` past `DateTime.MaxValue`. The model adds unbounded integers, so the contracts' `expiration == now + Seconds` holds for every input, where the source would throw.
- Null clock: `Guard.Against.Null` in `EstaValido` (`Token.cs:66`) throws `ArgumentNullException` on a null clock, and `dateTime.Now` at `Usuario.cs:40`, `:48` and `:69` would throw `NullReferenceException`. Time is a plain integer here, never null, so neither exception is modelled.
- Refresh-string generation (`GenerateRefreshToken`, `AuthService.cs:197-205`): it uses a random-number generator and an URL-cleaning helper that is not part of this model. The string is a parameter. Its uniqueness is assumed only where a lemma needs it (`RefreshStringsStayDistinct`).
- Password hashing (`IHashService.Compare`): foreign code. Its answer is the boolean parameter `passwordMatches`.
- Request validators (`AuthRequestValidator` and the refresh validator): not part of this model. Their result is the `ValidationResult` parameter, added to the request's own notification list as `Validate` does. The refresh request used by `AuthService.cs` is not part of this model either. It is assumed to validate the same way as `AuthRequest`.
- Repository and unit of work (`GetByEmailAsync`, `GetByTokenAsync`, `Update`, `SaveChangesAsync`): asynchronous database I/O. A lookup is an `Option` input, and a save is the `saved` user of the outcome. A failing commit is not modelled.
- AuthService.Refresh: requires that the user returned by the store owns an entry with the requested string. The `FirstOrDefault` at `AuthService.cs:138` assumes this; without it, the code would dereference null.
- Usuarios.IncrementarFalhas: `DateTime.Add` throwing on overflow past `DateTime.MaxValue` is not modelled; times are unbounded integers.
- Token's `UsuarioId` and the `Usuario` navigation property, and the entity's private ORM constructors: persistence mapping only.
- `Email` value-object validation: the e-mail is a plain string.
- Null collections passed to the collection overloads of `AddNotifications`, and a null `params` array: sequences here are never null.
- Concurrency: concurrent log-in attempts for the same account are not modelled. Each call is one sequential step.
- Hosting, dependency injection, Swagger, seeding, the state/city cache and repository, and the integration tests: plumbing outside the authentication core.

## Findings

| source | as written | input that shows it | evidently intended | confidence | as-written member | corrected member |
|---|---|---|---|---|---|---|
| src/SGP.Shared/Notifications/Notifiable.cs:43-46 | `AddNotifications(notifiable?.Notifications)` passes null on to `List.AddRange`, which throws `ArgumentNullException` | `AddNotifications((Notifiable)null)` | the null-conditional `?.` shows that a null notifiable was meant to add nothing | medium; not executed | `Notifications.AddNotificationsOfAsWritten` | `Notifications.AddNotificationsOf` |
| src/SGP.Shared/Notifications/Notifiable.cs:48-54 | the `params` overload hands each argument to the overload above, so a null argument throws `ArgumentNullException` after the earlier arguments have been appended | `AddNotifications(a, null)` with a non-null `a` | a null argument adds nothing and the remaining arguments are still appended | medium; not executed | `Notifications.AddNotificationsOfAllAsWritten` | `Notifications.AddNotificationsOfAll` |
