# echofinder core, modelled in Dafny

A model of the deterministic rules inside the echofinder backend:

- **Token hashing** (`TokenHashing`, `Hex`): a `TokenHasher` holds a prefix and a suffix
  salt, both required to be non-null and non-blank at construction. `Hash` rejects a null or
  blank value and otherwise renders the SHA-256 digest of `prefixSalt + value + suffixSalt` as
  64 lowercase hex digits; `Verify` answers false for a null argument and otherwise compares
  the hash of the raw token with the stored string. SHA-256 over UTF-8 is the parameter
  `digest` (type `Digest`: any function whose results are 32 bytes); the salting, the blank
  test (`Lang.IsBlank`, after `Character.isWhitespace`), the hex rendering and the
  verification logic are concrete. `Hex.ParseHex` is the inverse of the rendering and serves
  to state that hashing loses nothing beyond the digest.
- **Invitations** (`Invites.Invite`): a class with the entity's fields, its persist hook, its
  setters and the validity predicate `IsValid(now)`, the clock reading being a parameter.
- **Users** (`Users.User`): a class with the entity's fields, the persist and update hooks
  that stamp `createdAt`/`updatedAt`, and the setters.
- **Error shaping** (`Envelopes`, `ApiExceptionHandler`, `Exceptions`, `HashRejection`): the error envelope
  and its factories, and the exception handlers as one total mapping from a closed set of
  exception kinds to an HTTP status and an envelope; the validation handler's loop that
  folds field errors into a details map, last write winning.

Java `null` is `None` of `Wrappers.Option`; a thrown exception is `Failure` of
`Wrappers.Result` carrying an `Exceptions.Exception`. Instants are integers (nanoseconds on
the time line), so `isAfter` is `>`. Each entity class has a `State()` snapshot of all its
fields; every setter and hook states its new snapshot as the old one with exactly its own
fields replaced.

One might expect every setter to refresh `updatedAt`, and `usedAt`/`revokedAt` to be
terminal once set; the code does neither, and the model follows the code: only the update
hook refreshes `updatedAt`, and the `usedAt`/`revokedAt` setters accept null and so clear
the mark.

`Hash` and `Verify` require `Valid()` (both salts non-blank), which every hasher built by
`New` satisfies: the unsalted hasher the salt checks exist to rule out cannot be used.

## Model

| member | source | states |
|---|---|---|
| `TokenHashing.New` | backend/src/main/java/com/echofinder/api/security/TokenHasher.java:24-35 | construction succeeds exactly when both salts are non-null and non-blank, and then stores them unchanged; a bad prefix salt fails with its own message before the suffix salt is looked at |
| `TokenHashing.TokenHasher.Hash` | backend/src/main/java/com/echofinder/api/security/TokenHasher.java:44-59 | on a hasher with configured salts: fails with IllegalArgument exactly on a null or blank value; otherwise yields 64 lowercase hex digits that parse back to the digest of exactly `prefixSalt + value + suffixSalt` |
| `TokenHashing.TokenHasher.Verify` | backend/src/main/java/com/echofinder/api/security/TokenHasher.java:68-73 | false without throwing when either argument is null; throws exactly when both are present and the raw token is blank; true exactly when the stored string equals the raw token's hash |
| `TokenHashing.HashDependsOnlyOnSaltedInput` | backend/src/main/java/com/echofinder/api/security/TokenHasher.java:44-59 | determinism: two hashers and values whose salted inputs are equal hash alike (in particular the same hasher and value) |
| `TokenHashing.RejectedValueIgnoresDigest` | backend/src/main/java/com/echofinder/api/security/TokenHasher.java:45-47 | a rejected value never reaches the digest: the failure is the same whatever the digest function |
| `TokenHashing.HashCollisionIsDigestCollision` | backend/src/main/java/com/echofinder/api/security/TokenHasher.java:49-54 | two non-blank values hash alike if and only if the digest maps their salted inputs alike |
| `TokenHashing.VerifyOwnHash` | backend/src/main/java/com/echofinder/api/security/TokenHasher.java:68-73 | every non-blank raw token verifies against its own hash |
| `TokenHashing.MalformedHashNeverVerifies` | backend/src/main/java/com/echofinder/api/security/TokenHasher.java:72 | a stored string that is not 64 lowercase hex digits never verifies |
| `TokenHashing.VerifiedHashDecodes` | backend/src/main/java/com/echofinder/api/security/TokenHasher.java:72 | a successful verification means the stored string is exactly the hex rendering of the digest of the salted raw token |
| `HashRejection.RejectedValueIsBadRequest` | backend/src/main/java/com/echofinder/api/infra/ApiExceptionHandler.java:50-56 | a rejected token value, if thrown while a request is handled, reaches the client as a 400 VALIDATION_ERROR carrying the thrown message |
| `Hex.FormatByte` | backend/src/main/java/com/echofinder/api/security/TokenHasher.java:54 | a byte renders as two lowercase hex digits, high nibble first, whose values recompose the byte |
| `Hex.FormatHex` | backend/src/main/java/com/echofinder/api/security/TokenHasher.java:54 | the rendering has two characters per byte, all in `[0-9a-f]` |
| `Hex.ParseFormat` | backend/src/main/java/com/echofinder/api/security/TokenHasher.java:54 | round trip: parsing a rendering gives the bytes back |
| `Hex.FormatParse` | backend/src/main/java/com/echofinder/api/security/TokenHasher.java:54 | round trip the other way: every parsable string is the rendering of what it parses to |
| `Hex.FormatHexInjective` | backend/src/main/java/com/echofinder/api/security/TokenHasher.java:54 | distinct byte strings render differently |
| `Users.User.constructor` | backend/src/main/java/com/echofinder/api/user/User.java:42-47 | sets id, email, role and status; display name, createdAt and updatedAt stay null |
| `Users.User.OnCreate` | backend/src/main/java/com/echofinder/api/user/User.java:49-54 | sets createdAt and updatedAt to the same instant and nothing else |
| `Users.User.OnUpdate` | backend/src/main/java/com/echofinder/api/user/User.java:56-59 | refreshes updatedAt only; createdAt is unchanged |
| `Users.User.SetId` | backend/src/main/java/com/echofinder/api/user/User.java:65-67 | changes the id and no other field |
| `Users.User.SetEmail` | backend/src/main/java/com/echofinder/api/user/User.java:73-75 | changes the email and no other field, neither timestamp included |
| `Users.User.SetDisplayName` | backend/src/main/java/com/echofinder/api/user/User.java:81-83 | changes the display name (null allowed) and no other field |
| `Users.User.SetRole` | backend/src/main/java/com/echofinder/api/user/User.java:89-91 | accepts any role from any role; changes the role and no other field |
| `Users.User.SetStatus` | backend/src/main/java/com/echofinder/api/user/User.java:97-99 | accepts any status from any status, with no transition guard; changes the status and no other field |
| `Users.PersistThenUpdate` | backend/src/main/java/com/echofinder/api/user/User.java:49-99 | after persist at t1, setters, and update at t2, createdAt is t1, updatedAt is t2 and the status is the one set last |
| `Invites.Invite.constructor` | backend/src/main/java/com/echofinder/api/invite/Invite.java:52-65 | sets id, email, tokenHash, invitedRole, inviter and expiresAt; usedAt, revokedAt and createdAt stay null |
| `Invites.Invite.OnCreate` | backend/src/main/java/com/echofinder/api/invite/Invite.java:67-70 | sets createdAt to the given instant and nothing else |
| `Invites.Invite.IsValid` | backend/src/main/java/com/echofinder/api/invite/Invite.java:72-75 | a valid invitation is unused, unrevoked and expires strictly after `now` |
| `Invites.Invite.SetId` | backend/src/main/java/com/echofinder/api/invite/Invite.java:81-83 | changes the id and no other field |
| `Invites.Invite.SetEmail` | backend/src/main/java/com/echofinder/api/invite/Invite.java:89-91 | changes the email and no other field |
| `Invites.Invite.SetTokenHash` | backend/src/main/java/com/echofinder/api/invite/Invite.java:97-99 | changes the token hash and no other field |
| `Invites.Invite.SetInvitedRole` | backend/src/main/java/com/echofinder/api/invite/Invite.java:105-107 | changes the invited role and no other field |
| `Invites.Invite.SetInviter` | backend/src/main/java/com/echofinder/api/invite/Invite.java:113-115 | changes the inviter reference and no other field |
| `Invites.Invite.SetExpiresAt` | backend/src/main/java/com/echofinder/api/invite/Invite.java:121-123 | changes the expiry and no other field |
| `Invites.Invite.SetUsedAt` | backend/src/main/java/com/echofinder/api/invite/Invite.java:129-131 | changes usedAt (null allowed) and no other field; once set, the invitation is invalid at every instant |
| `Invites.Invite.SetRevokedAt` | backend/src/main/java/com/echofinder/api/invite/Invite.java:137-139 | changes revokedAt (null allowed) and no other field; once set, the invitation is invalid at every instant |
| `Invites.PendingValidUntilExpiry` | backend/src/main/java/com/echofinder/api/invite/Invite.java:72-75 | an unused, unrevoked invitation is valid if and only if `now` is before its expiry |
| `Invites.ExpiryIsStrict` | backend/src/main/java/com/echofinder/api/invite/Invite.java:74 | at its expiry instant an invitation is already invalid |
| `Invites.InvalidStaysInvalid` | backend/src/main/java/com/echofinder/api/invite/Invite.java:74 | with the fields fixed, invalidity at t implies invalidity at every later instant |
| `Invites.RedeemScenario` | backend/src/test/java/com/echofinder/api/invite/InviteRepositoryIT.java:105-146 | an invitation issued a week ahead is valid, and invalid once marked used |
| `Invites.RevokeOrExpireScenario` | backend/src/test/java/com/echofinder/api/invite/InviteRepositoryIT.java:119-161 | a revoked invitation and one that expired a day ago are both invalid |
| `Envelopes.Detail` | backend/src/main/java/com/echofinder/api/infra/ErrorEnvelope.java:7-10 | the two-argument detail keeps code and message and has empty details |
| `Envelopes.Of` | backend/src/main/java/com/echofinder/api/infra/ErrorEnvelope.java:13-15 | the envelope's one detail has the given code and message and empty details |
| `Envelopes.OfDetails` | backend/src/main/java/com/echofinder/api/infra/ErrorEnvelope.java:17-19 | the envelope's one detail has the given code, message and details, unchanged |
| `Envelopes.OfIsOfDetailsEmpty` | backend/src/main/java/com/echofinder/api/infra/ErrorEnvelope.java:8-19 | `of(c, m)` equals `of(c, m, {})` |
| `Envelopes.OfDetailsInjective` | backend/src/main/java/com/echofinder/api/infra/ErrorEnvelope.java:17-19 | equal envelopes come from equal code, message and details |
| `Envelopes.EnvelopeIsOfDetails` | backend/src/main/java/com/echofinder/api/infra/ErrorEnvelope.java:5 | every envelope is exactly one detail under `error`, rebuilt by the long factory from its components |
| `ApiExceptionHandler.FieldErrorDetails` | backend/src/main/java/com/echofinder/api/infra/ApiExceptionHandler.java:39-42 | the details map's keys are exactly the names of the rejected fields |
| `ApiExceptionHandler.Handle` | backend/src/main/java/com/echofinder/api/infra/ApiExceptionHandler.java:21-64 | total mapping: only VALIDATION_ERROR, NOT_FOUND and INTERNAL are emitted, with 400, 404 and 500 in step; validation errors exactly for the two validation kinds, not-found exactly for the two not-found kinds; details empty except for field validation, where they are keyed by the fields; a field validation failure carries "Validation failed" and an IllegalArgument its own message |
| `ApiExceptionHandler.HandleValidation` | backend/src/main/java/com/echofinder/api/infra/ApiExceptionHandler.java:37-48 | putting the field errors into the map one by one gives exactly the validation response of `Handle` (400, VALIDATION_ERROR, "Validation failed", details folded from the field errors) |
| `ApiExceptionHandler.LastWriteWins` | backend/src/main/java/com/echofinder/api/infra/ApiExceptionHandler.java:39-42 | a field's entry is the message of its last field error |
| `ApiExceptionHandler.EntryIsLastError` | backend/src/main/java/com/echofinder/api/infra/ApiExceptionHandler.java:39-42 | every entry is the message of the last error for its field |
| `ApiExceptionHandler.OneEntryPerField` | backend/src/main/java/com/echofinder/api/infra/ApiExceptionHandler.java:37-48 | the details hold one entry per distinct field |
| `ApiExceptionHandler.NotFoundResponse` | backend/src/main/java/com/echofinder/api/infra/ApiExceptionHandler.java:21-35 | both not-found kinds give 404, NOT_FOUND, "The requested resource was not found", no details |
| `ApiExceptionHandler.GenericResponse` | backend/src/main/java/com/echofinder/api/infra/ApiExceptionHandler.java:58-64 | any other exception gives 500 with the fixed message "An unexpected error occurred", whatever its own message |
| `ApiExceptionHandler.ReservedCodesUnused` | backend/src/main/java/com/echofinder/api/infra/ApiExceptionHandler.java:21-64 | UNAUTHORIZED, FORBIDDEN, CONFLICT and RATE_LIMITED are never emitted |

## Left out

- SHA-256 and the UTF-8 encoding are library calls: they are the `digest` parameter, known only to yield 32 bytes. Java strings holding unpaired surrogates (which `getBytes` replaces) are not modelled; Dafny characters are Unicode scalar values.
- The properties that different values or salts give different hashes rest on the collision resistance of SHA-256 and are not stated; `HashCollisionIsDigestCollision` reduces them to the digest.
- The `NoSuchAlgorithmException` branch of `hash` cannot be reached on a Java platform and is not modelled.
- "`hash` never calls the digest on a rejected value" is stated as `RejectedValueIgnoresDigest` (the result does not depend on the digest), since a pure function's calls are not observable.
- Clock reads (`OffsetDateTime.now()`) are the `now` parameter of the hooks and of `IsValid`.
- A null id, email, token hash, role, status, inviter or expiry is not modelled (those columns are non-null); with a null expiry, `isValid` on an unused, unrevoked invitation would throw a NullPointerException (Invite.java:74 evaluates `expiresAt.isAfter` only after both null checks).
- The protected no-argument constructors exist for the persistence framework and are not modelled; the getters are plain field reads of the classes.
- The details map holds `Object` values in Java; here they are nullable strings, the only values the handlers put.
- The handlers' logging, Spring's dispatch to the most specific handler and the HTTP response wrapping are not modelled; the exception kind is a closed datatype and the response a status with an envelope.
- UserRole.java and UserStatus.java are not part of this model; their constants are USER, ADMIN and PENDING, ACTIVE, DISABLED, as used across the repository.
- The repositories (lookups by token hash, case-insensitive email lookup), the uniqueness constraints, and races between concurrent redemptions or registrations live in the database and are not modelled.
- A bad salt fails the hasher's construction when the application starts, outside any request, so no request handler sees it; the model relates only a rejected token value to the handlers.
- The health endpoint and the frontend router carry no logic of the core and are not modelled.
