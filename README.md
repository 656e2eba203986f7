# Authentication, session and edge-policy core of a Next.js API

This project models in Dafny the core of a small Next.js backend:

- **Edge policy.**
  - The CORS allow-list chosen by `NODE_ENV`.
  - The origin check and the CORS response headers.
  - The production-only security headers.
  - The edge middleware that stamps both on every response and answers an `OPTIONS` preflight with 204.
- **Identity resolution.**
  - Taking the credential from an `Authorization: Bearer` header or the `auth-token` cookie.
  - Verifying it and looking the user up.
  - `requireAuth` and `requirePremium`, and the `authMiddleware` and `premiumMiddleware` guards built on the same resolution.
  - The wildcard `corsMiddleware`.
- **Handlers.**
  - Login, register and logout, which create and delete session rows and set or clear the auth cookie.
  - The forgot-password handler, which upserts the user's single reset row with a 32-byte hex token and a one-hour expiry.
- **Upload and text checks.**
  - The upload validator: size, then extension, then MIME type.
  - The request-body schemas.
  - `escapeText`.

## How the pieces are modelled

- **Pure logic becomes functions and lemmas.** This covers the CORS policy, schemas, token extraction, the guards' decisions, the file validator and `escapeText`.
- **State changed in place becomes classes.**
  - The response object (`Http.Response`) has a header map and a list of cookie operations. Its methods change those fields in place, as `NextResponse` does.
  - The database (`Db.Store`) has user and session sequences and a reset map keyed by user id. The handlers are methods that modify it.
  - The header copy in the edge middleware is a loop with its invariant (`Edge.CopyHeaders`).
- **Environment.** `process.env` is a `Config` value.
- **Things outside the core become parameters:**
  - JWT verification: a map from token to user id.
  - `generateToken`: the `token` parameter.
  - `Date.now()`: `now`, in milliseconds.
  - `crypto.randomBytes(32)`: the `random` bytes.
  - The store's id generator: `newId`.
  - zod's `email()` and `url()` checks: a `FormatCheck` predicate.
  - Whether the mailer succeeds: `mailDelivered`.
- **Store failure.** A store that throws is a store with `online == false`.
- **File names.** Two files are named after a different route than the one they hold:
  - `src/app/api/auth/forgot-password/route.ts` holds the auth library (`generateToken`, `verifyToken`, `getCurrentUser`, `requireAuth`, `requirePremium`).
  - `src/app/api/auth/reset-password/route.ts` holds the forgot-password (reset-request) handler.

### What the code does and does not check

- **No session check.** `getCurrentUser` never reads the session table: it only verifies the token and looks the user up by the id the token carries, so neither a missing session row nor an expired one stops it. `Auth.ResolvesWithoutSession` states the consequence: a token whose sessions were all deleted by logout still resolves to its user.
- **No password check.** Login never compares the password. Register never stores it.
- **No reset consumption.** There is no handler that consumes a reset token.
- **Two CORS setters.** The wildcard `corsMiddleware` sets headers that disagree with the allow-list policy (`Guards.WildcardDisagreesWithPolicy`).

## Model

| member | source | states |
|---|---|---|
| Text.TrimStart | src/api/lib/cors.ts:4 | drops exactly the leading whitespace: the result is a suffix of the input, starting at a non-space, preceded only by whitespace |
| Text.TrimEnd | src/api/lib/cors.ts:4 | drops exactly the trailing whitespace: a prefix of the input, ending in a non-space, followed only by whitespace |
| Text.LeadingWhitespace | src/api/lib/cors.ts:4 | counts the whitespace at the front: every counted character is whitespace and the next one is not |
| Text.TrailingWhitespace | src/api/lib/cors.ts:4 | counts the whitespace at the back: every counted character is whitespace and the one before them is not |
| Text.Trim | src/api/lib/cors.ts:4 | `trim()` yields a trimmed string no longer than its input and leaves an already trimmed string as it is |
| Text.TrimMeaning | src/api/lib/cors.ts:4 | the trimmed string is the slice of the input between a run of leading whitespace and a run of trailing whitespace |
| Text.Split | src/api/lib/cors.ts:4 | `split(",")` yields at least one piece, even for the empty string |
| Text.SplitPiecesLackSeparator | src/api/lib/cors.ts:4 | no piece of a split contains the separator |
| Text.SplitJoin | src/api/lib/cors.ts:4 | joining the pieces with the separator gives back the original string |
| Text.SplitWithoutSeparator | src/api/lib/cors.ts:4 | a string without the separator splits into itself alone |
| Text.LastPieceIsSuffix | src/api/lib/file-validator.ts:20 | the last piece of a split is a suffix of the string, preceded by the separator unless it is the whole string, which happens exactly when there is one piece |
| Text.IndexFrom | src/app/api/auth/forgot-password/route.ts:34 | finds the first occurrence of the pattern at or after the start index, and `None` only when there is none |
| Text.IndexOf | src/app/api/auth/forgot-password/route.ts:34 | the first occurrence of a pattern, or `None` exactly when it never occurs |
| Text.ReplaceFirst | src/app/api/auth/forgot-password/route.ts:34 | `replace` with a string pattern: unchanged when the pattern is absent, otherwise the text before the first occurrence, the replacement, then the text after that occurrence |
| Text.LowerAscii | src/api/lib/file-validator.ts:20 | lower-casing keeps the length |
| Text.LowerAsciiAt | src/api/lib/file-validator.ts:20 | each character of the lower-cased text is the lower-cased character at the same place |
| Text.LowerAsciiIdempotent | src/api/lib/file-validator.ts:20 | lower-casing twice is lower-casing once |
| Text.LowerAsciiSplitFirst | src/api/lib/file-validator.ts:20 | lower-casing before a split on a non-letter keeps the number of pieces and lower-cases the first piece |
| Text.LowerAsciiSplitLast | src/api/lib/file-validator.ts:20 | lower-casing before a split on a non-letter keeps the number of pieces and lower-cases the last piece |
| Text.LastPiecesAgreeStep | src/api/lib/file-validator.ts:20 | when the last piece lies past the first character, the lower-cased last pieces agree on the string as they do on its tail |
| Http.Lookup | src/api/middleware.ts:12 | the value of the last entry with a name is an entry of the list, and a missing name occurs in no entry |
| Http.LookupDistinct | src/api/lib/cors.ts:19-33 | in a header object with distinct names each entry is what its name looks up |
| Http.ApplyHeadersLookup | src/api/middleware.ts:12 | after `headers.set` for each entry, every listed name holds its listed value and every other name keeps its old value or stays absent |
| Http.ApplyHeadersKeys | src/api/middleware.ts:12 | the header names afterwards are the old names plus the entries' names |
| Http.Response.SetHeader | src/api/middleware.ts:12 | `headers.set` overwrites one header and changes nothing else |
| Http.Response.SetCookie | src/api/auth/login/route.ts:56-61 | `cookies.set` appends the cookie with its options |
| Http.Response.DeleteCookie | src/api/auth/logout/route.ts:17 | `cookies.delete` appends the deletion of the named cookie |
| Validators.FieldOk | src/api/lib/validators.ts:4-20 | no contract: a required string must be present and within its rule; an optional one must be `undefined` or within its rule; an optional list must be `undefined` or an array of at most its bound of valid strings |
| Validators.Accepts | src/api/lib/validators.ts:4-20 | no contract: `parse` succeeds when the body is an object and every listed field passes; `IdeaSchemaMeaning`, `UserProfileSchemaMeaning` and the route schemas' lemmas state the outcome |
| Validators.OptionalMeansUndefined | src/api/lib/validators.ts:18-19 | an optional field accepts `undefined` but refuses `null` and a number |
| Validators.AcceptsIgnoresUnlisted | src/api/lib/validators.ts:4-20 | members the schema does not list never change whether a body is accepted |
| Validators.IdeaSchemaMeaning | src/api/lib/validators.ts:4-13 | a body passes `ideaSchema` iff it is an object with a title of 1 to 100 characters, non-empty content, and tags absent or at most five strings of 1 to 30 characters |
| Validators.UserProfileSchemaMeaning | src/api/lib/validators.ts:16-20 | a body passes `userProfileSchema` iff its display name has 1 to 50 characters, its bio is absent or at most 300 characters, and its website is absent or a URL |
| Validators.SixTagsRejected | src/api/lib/validators.ts:7-12 | six well-formed tags are refused |
| Cors.AllowedOrigins | src/api/lib/cors.ts:1-11 | one trimmed, comma-free entry per comma-separated piece of the environment's setting |
| Cors.AllowListSetting | src/api/lib/cors.ts:2-10 | no contract: the production, staging or development list, an unset production or staging list read as empty and an unset development list as `http://localhost:3000`; `DevelopmentDefault` and `UnsetProductionListAllowsNothing` state the consequences |
| Cors.IsOriginAllowed | src/api/lib/cors.ts:13-17 | an allowed origin is present, non-empty, comma-free and trimmed |
| Cors.BuildCorsHeaders | src/api/lib/cors.ts:19-33 | no contract: the refusal entries or the allowed entries, chosen by `IsOriginAllowed`; `BuildCorsHeadersMeaning` states the result |
| Cors.BuildCorsHeadersMeaning | src/api/lib/cors.ts:19-33 | a refused origin gets exactly `Allow-Origin: null` and `Vary: Origin`; an allowed one is echoed with credentials, the six methods, the two headers and `Vary`; names are distinct CORS names |
| Cors.RefusedEntries | src/api/lib/cors.ts:20-25 | the refusal headers are two distinct CORS names: `Allow-Origin: null` and `Vary: Origin`, with no credentials |
| Cors.AllowedEntries | src/api/lib/cors.ts:26-32 | the headers for an allowed origin are five distinct CORS names: the echoed origin, credentials `true`, the six methods, the two headers and `Vary: Origin` |
| Cors.AllowedIffListed | src/api/lib/cors.ts:1-17 | a non-empty origin is allowed iff some comma-separated entry of the setting, trimmed, equals it |
| Cors.EmptyOriginNeverAllowed | src/api/lib/cors.ts:14 | a missing or empty origin is never allowed and gets `Allow-Origin: null` |
| Cors.UnsetProductionListAllowsNothing | src/api/lib/cors.ts:3-5 | in production with the list unset or empty, the list is `[""]` and no origin passes |
| Cors.SingleEntrySetting | src/api/lib/cors.ts:1-11 | a trimmed setting without commas is a one-entry list of itself |
| Cors.DefaultDevOriginsIsOneEntry | src/api/lib/cors.ts:10 | the development default `http://localhost:3000` is non-empty, trimmed and holds no comma |
| Cors.DevelopmentDefault | src/api/lib/cors.ts:9-10 | outside production and staging, with no development list, only `http://localhost:3000` is allowed |
| Cors.CredentialsWithNullOnlyIfListed | src/api/lib/cors.ts:19-33 | credentials accompany `Allow-Origin: null` only when the literal `null` is on the list |
| Security.AddSecurityHeaders | src/api/middleware/security.ts:3-18 | the response's headers become the six production headers written over the old map, or stay as they were outside production |
| Security.WithSecurityHeaders | src/api/middleware/security.ts:3-18 | the header names afterwards are the old names plus, in production, the six security names |
| Security.NonProductionUnchanged | src/api/middleware/security.ts:4 | outside production no header changes |
| Security.ProductionValues | src/api/middleware/security.ts:4-17 | in production exactly the six names are added, each with its fixed value |
| Security.OtherHeadersPreserved | src/api/middleware/security.ts:3-18 | every other header name, compared case-sensitively, keeps its value |
| Security.Idempotent | src/api/middleware/security.ts:3-18 | applying the security headers twice equals applying them once |
| Edge.RequestOrigin | src/api/middleware.ts:6 | an empty `Origin` header counts as absent; otherwise its value is the origin |
| Edge.CopyHeaders | src/api/middleware.ts:12 | the `forEach` over the entries leaves the header map the entries set one by one on the old map |
| Edge.EdgeHeaders | src/api/middleware.ts:7-13 | no contract: the CORS entries set on an empty map, then the security headers; `EdgeHeadersMeaning` states the result |
| Edge.Middleware | src/api/middleware.ts:5-22 | `OPTIONS` is answered 204 with no body, anything else passes through; both carry the CORS headers then the security headers, and no cookies |
| Edge.EdgeHeadersMeaning | src/api/middleware.ts:5-22 | the outgoing headers hold `Vary: Origin`, the echoed origin or `null`, credentials iff allowed, and exactly in production the six security headers, which never displace a CORS header |
| Edge.NamesDisjoint | src/api/middleware.ts:12-13 | the CORS header names and the security header names are disjoint |
| Edge.CorsPart | src/api/middleware.ts:7-12 | the CORS entries set on an empty map give each decided name its decided value and no other name |
| Db.FindFirst | src/api/auth/register/route.ts:21-25 | the found user is stored and matches, and `None` means no stored user matches |
| Db.IdsAppend | src/api/auth/register/route.ts:36-53 | appending a user adds its id to the stored ids and no other |
| Db.FindById | src/app/api/auth/forgot-password/route.ts:38-49 | with unique ids, a lookup by id finds that very user |
| Db.FindByEmail | src/api/auth/login/route.ts:17-28 | with unique e-mails, a lookup by e-mail finds that very user |
| Db.WithoutToken | src/api/auth/logout/route.ts:11-13 | `deleteMany({ where: { token } })` keeps exactly the sessions holding another token, each as many times as the table held it, and drops every copy of those holding the token |
| Db.WithoutAbsentToken | src/api/auth/logout/route.ts:11-13 | when no session holds the token, the session table is left exactly as it was |
| Db.WithoutTokenIdempotent | src/api/auth/logout/route.ts:11-13 | deleting by the same token twice removes nothing more |
| Db.Store.CreateUser | src/api/auth/register/route.ts:36-53 | the new user is appended to the user table; the store stays valid when the keys stay unique |
| Db.Store.CreateSession | src/api/auth/login/route.ts:47-53 | the new session is appended to the session table; the store stays valid when the session's user is stored |
| Db.Store.DeleteSessions | src/api/auth/logout/route.ts:11-13 | the session table loses exactly the rows with the token, and the store stays valid |
| Db.Store.UpsertReset | src/app/api/auth/reset-password/route.ts:16-20 | the user's reset row is overwritten or created, and no other row changes; the store stays valid when the user is stored |
| Auth.ExtractToken | src/app/api/auth/forgot-password/route.ts:33-35 | a found token is never empty; none is found only when the cookie is missing or empty too; without an `Authorization` header the token is the cookie's |
| Auth.CookieToken | src/app/api/auth/forgot-password/route.ts:34 | the `auth-token` cookie's value when it is present and non-empty, else nothing |
| Auth.ExtractTokenFromHeader | src/app/api/auth/forgot-password/route.ts:33-35 | with an `Authorization` header, the token is the header with its first `Bearer ` removed when that is non-empty, else the cookie's |
| Auth.VerifyToken | src/app/api/auth/forgot-password/route.ts:24-30 | no contract: a signature check is a lookup in the map of tokens that verify, and any failure is `None` |
| Auth.BearerHeaderYieldsToken | src/app/api/auth/forgot-password/route.ts:33-34 | `Authorization: Bearer t` yields `t` whatever the cookie holds |
| Auth.HeaderWithoutBearerIsVerbatim | src/app/api/auth/forgot-password/route.ts:34 | a header that never contains `Bearer ` is taken as the token verbatim |
| Auth.BarePrefixFallsBackToCookie | src/app/api/auth/forgot-password/route.ts:34-35 | the code as written: a header value that is exactly the prefix becomes empty and the cookie is used (after value normalisation this value never arrives; see Left out) |
| Auth.GetCurrentUser | src/app/api/auth/forgot-password/route.ts:31-54 | a resolved user is stored and is the user the verified token names; with the store up, a verified token resolves to nothing only when its id is not stored |
| Auth.ResolvesWithoutSession | src/app/api/auth/forgot-password/route.ts:31-54 | a token verifying to a stored user's id resolves to that user, whatever the session table holds |
| Auth.RequireAuth | src/app/api/auth/forgot-password/route.ts:55-61 | succeeds exactly with the resolved user, else fails with "Authentication required" |
| Auth.RequirePremium | src/app/api/auth/forgot-password/route.ts:62-68 | succeeds exactly with a resolved premium user; fails with "Authentication required" when nobody resolves and with "Premium subscription required" otherwise |
| Guards.AuthDecision | src/api/lib/middleware.ts:4-12 | continues iff a user resolved, else 401 "Authentication required" |
| Guards.PremiumDecision | src/api/lib/middleware.ts:14-26 | continues iff a premium user resolved; 401 when nobody resolved, 403 for a non-premium user |
| Guards.AuthMiddleware | src/api/lib/middleware.ts:4-12 | a request goes on iff it resolves to a user, else 401 "Authentication required" |
| Guards.PremiumMiddleware | src/api/lib/middleware.ts:14-26 | a request goes on iff it resolves to a premium user; 401 when nobody resolves, 403 "Premium subscription required" for a non-premium user |
| Guards.TierMonotone | src/api/lib/middleware.ts:4-26 | whatever passes the premium guard passes the authentication guard |
| Guards.GuardsAgreeWithRequire | src/api/lib/middleware.ts:4-26 | each guard continues iff its throwing helper returns a user, and denies with the message the helper throws |
| Guards.CorsMiddleware | src/api/lib/middleware.ts:28-36 | a pass-through response with exactly the three wildcard headers, whatever the request |
| Guards.WildcardDisagreesWithPolicy | src/api/lib/middleware.ts:28-36 | the allow-list policy never sends the wildcard method list, and sends `*` only for the origin `*` when it is listed |
| Sessions.NewSessionValid | src/api/auth/login/route.ts:47-61 | a session for a stored user keeps every session owned by a user, and it expires when the cookie's max-age runs out |
| Sessions.AuthCookieOptions | src/api/auth/login/route.ts:56-61 | the cookie is HTTP-only on path `/`, secure exactly in production, and lives as long as a session |
| Sessions.NewSession | src/api/auth/login/route.ts:47-53 | the session holds the user and the token and expires seven days after `now` |
| Login.LoginSchemaMeaning | src/api/auth/login/route.ts:6-9 | a body passes `loginSchema` iff it is an object with an e-mail string and a non-empty password string |
| Login.UserJson | src/api/auth/login/route.ts:19-27 | the returned user holds exactly the seven selected columns, each carrying the user's own value: id, e-mail, first and last name, username, premium flag and wallet address |
| Login.Admitted | src/api/auth/login/route.ts:13-14 | no contract: the body is JSON and passes `loginSchema`; `LoginSchemaMeaning` states when that holds |
| Login.AnyPasswordWillDo | src/api/auth/login/route.ts:14-44 | an accepted body stays accepted with any other non-empty password |
| Login.Post | src/api/auth/login/route.ts:11-75 | bad JSON gives 500, a schema failure 400, a store failure 500, an unknown e-mail 401; a known e-mail appends a seven-day session and answers 200 with the user, the token and the auth cookie |
| Logout.Post | src/api/auth/logout/route.ts:4-24 | every session holding the extracted token is deleted and 200 clears the cookie, with or without a token; a store failure with a token gives 500 and changes nothing |
| Logout.LogoutTwice | src/api/auth/logout/route.ts:9-13 | logging out twice leaves the sessions as one logout does, and both calls answer 200 |
| Register.RegisterSchemaMeaning | src/api/auth/register/route.ts:6-12 | a body passes `registerSchema` iff it has an e-mail, non-empty names, a password of at least 8 characters, and no username or one of at least 3 |
| Register.AddingUnconflictedUser | src/api/auth/register/route.ts:21-53 | a user without a conflicting e-mail or username keeps the keys unique, and afterwards conflicts with the stored copy |
| Register.Conflicts | src/api/auth/register/route.ts:21-25 | no contract: a stored user conflicts when its e-mail matches, or its username does when one was given |
| Register.NewUser | src/api/auth/register/route.ts:36-53 | the created user has the new id and the body's e-mail, first name, last name and username, is not premium and has no wallet address |
| Register.RegisteredUserJson | src/api/auth/register/route.ts:45-52 | the returned user holds exactly the six selected columns, without the wallet address, each carrying the user's own value: id, e-mail, first and last name, username and premium flag |
| Register.Admitted | src/api/auth/register/route.ts:16-18 | no contract: the body is JSON and passes `registerSchema`; `RegisterSchemaMeaning` states when that holds |
| Register.Post | src/api/auth/register/route.ts:14-87 | 500 / 400 / 500 for bad JSON, schema failure and store failure; 400 when the e-mail or username is taken; otherwise the user and a seven-day session are appended and 200 sets the cookie |
| Register.SignUp | src/api/auth/register/route.ts:36-75 | on the success path the user and a seven-day session are appended and 200 carries the user, the token and the auth cookie |
| Register.RegisterTwice | src/api/auth/register/route.ts:21-32 | after a successful registration the same body is refused, and each table has grown by one |
| PasswordReset.DigitValue | src/app/api/auth/reset-password/route.ts:13 | a hex digit is worth less than 16 |
| PasswordReset.HexDigit | src/app/api/auth/reset-password/route.ts:13 | the digit of a nibble reads back as that nibble |
| PasswordReset.Hex | src/app/api/auth/reset-password/route.ts:13 | `toString('hex')` gives two lower-case hex digits per byte |
| PasswordReset.FromHex | src/app/api/auth/reset-password/route.ts:13 | decoding hex gives half as many bytes as characters |
| PasswordReset.HexRoundTrip | src/app/api/auth/reset-password/route.ts:13 | decoding the hex of any bytes gives those bytes |
| PasswordReset.FromHexRoundTrip | src/app/api/auth/reset-password/route.ts:13 | encoding decoded hex gives the original text |
| PasswordReset.HexInjective | src/app/api/auth/reset-password/route.ts:13 | different random bytes give different tokens |
| PasswordReset.Post | src/app/api/auth/reset-password/route.ts:5-28 | no e-mail string or a store failure gives 500; an unknown e-mail gives the generic 200 and touches nothing; a known one upserts the user's row with a 64-digit hex token expiring in one hour and mails it, answering 200, or 500 when the mail fails |
| PasswordReset.RequestedEmail | src/app/api/auth/reset-password/route.ts:7-8 | no contract: the `email` member of the JSON body when it is a string; anything else makes the lookup fail |
| PasswordReset.RequestTwice | src/app/api/auth/reset-password/route.ts:16-20 | a second request leaves only the second token in the user's row; the first no longer matches |
| FileValidator.LastPiece | src/api/lib/file-validator.ts:20 | the text after the last dot contains no dot and is no longer than the name |
| FileValidator.Extension | src/api/lib/file-validator.ts:20 | the extension contains no dot |
| FileValidator.ExtensionIsLoweredSuffix | src/api/lib/file-validator.ts:20 | the extension is the lower-cased suffix of the name after its last dot, or the whole lower-cased name |
| FileValidator.ValidateUploadedFile | src/api/lib/file-validator.ts:6-49 | accepted iff at most 5 MB, allowed extension and matching MIME type; oversize wins over every other error; an unknown extension gives the type error; a known one with the wrong MIME type gives the image, PDF or text message of its family; every refusal is one of the five messages |
| FileValidator.SizeOnlyMattersAboveLimit | src/api/lib/file-validator.ts:15-17 | within the limit the verdict does not depend on the size |
| FileValidator.ExtensionOfLowered | src/api/lib/file-validator.ts:20 | lower-casing the name does not change its extension |
| FileValidator.LastPieceOfLowered | src/api/lib/file-validator.ts:20 | the piece after the last dot of the lower-cased name is the lower-cased piece of the name |
| FileValidator.ExtensionIgnoresCase | src/api/lib/file-validator.ts:20-23 | the verdict does not depend on the case of the file name |
| FileValidator.MimeIsCaseSensitive | src/api/lib/file-validator.ts:36-39 | a PDF declared as `Application/PDF` is refused |
| FileValidator.BareNameIsItsOwnExtension | src/api/lib/file-validator.ts:20 | a name without a dot is its own (lower-cased) extension |
| FileValidator.TrailingDotRefused | src/api/lib/file-validator.ts:20-23 | a name ending in a dot has an empty extension and is refused for its type |
| Sanitizer.ReplaceAll | src/api/lib/sanitizer.ts:45 | a global replace with a non-empty replacement never shortens the text |
| Sanitizer.EscapeText | src/api/lib/sanitizer.ts:43-50 | no contract: the five global replaces in the source's order; its meaning is given by `EscapeTextIsEscape`, `UnescapeEscape` and `NoMarkupSurvives` |
| Sanitizer.ReplaceAllAbsent | src/api/lib/sanitizer.ts:45 | replacing a character that does not occur changes nothing |
| Sanitizer.ReplaceAllAppend | src/api/lib/sanitizer.ts:45-49 | a global replace distributes over concatenation |
| Sanitizer.EscapeTextAppend | src/api/lib/sanitizer.ts:43-50 | `escapeText` distributes over concatenation |
| Sanitizer.ReplaceAllOne | src/api/lib/sanitizer.ts:45 | on a single character a global replace substitutes it or keeps it |
| Sanitizer.EscapeTextOneChar | src/api/lib/sanitizer.ts:45-49 | one character escapes to its entity, or to itself when it is not special |
| Sanitizer.EscapeAmpersand | src/api/lib/sanitizer.ts:45 | `&` escapes to `&amp;` |
| Sanitizer.EntityLetters | src/api/lib/sanitizer.ts:45-49 | no entity holds a character that a later replacement in the chain looks for, so no entity is escaped again |
| Sanitizer.EscapeLessThan | src/api/lib/sanitizer.ts:46 | `<` escapes to `&lt;` |
| Sanitizer.EscapeGreaterThan | src/api/lib/sanitizer.ts:47 | `>` escapes to `&gt;` |
| Sanitizer.EscapeDoubleQuote | src/api/lib/sanitizer.ts:48 | `"` escapes to `&quot;` |
| Sanitizer.EscapeSingleQuote | src/api/lib/sanitizer.ts:49 | `'` escapes to `&#039;` |
| Sanitizer.EscapeTextIsEscape | src/api/lib/sanitizer.ts:43-50 | the chain of five global replaces equals escaping each character on its own |
| Sanitizer.NoMarkupSurvives | src/api/lib/sanitizer.ts:43-50 | the escaped text contains no `<`, `>`, `"` or `'` |
| Sanitizer.NoMarkupInEscape | src/api/lib/sanitizer.ts:43-50 | per-character escaping leaves no `<`, `>`, `"` or `'` |
| Sanitizer.EscapeNeverShortens | src/api/lib/sanitizer.ts:43-50 | escaping never shortens the text |
| Sanitizer.PlainTextUnchanged | src/api/lib/sanitizer.ts:43-50 | text without the five special characters is returned unchanged |
| Sanitizer.UnescapeFront | src/api/lib/sanitizer.ts:43-50 | decoding an escaped character followed by more text gives that character first |
| Sanitizer.UnescapeEntity | src/api/lib/sanitizer.ts:45-49 | each of the five entities decodes to its character |
| Sanitizer.MismatchAt | src/api/lib/sanitizer.ts:45-49 | a text that differs from a pattern at one of its positions does not start with it |
| Sanitizer.UnescapePlain | src/api/lib/sanitizer.ts:43-50 | text that does not begin with `&` keeps its first character when decoded |
| Sanitizer.UnescapeEscape | src/api/lib/sanitizer.ts:43-50 | decoding the entities gives back the original text, so escaping loses nothing |
| Sanitizer.UnescapeEscapeEach | src/api/lib/sanitizer.ts:43-50 | decoding undoes per-character escaping |
| Sanitizer.NotIdempotent | src/api/lib/sanitizer.ts:45 | escaping `&` twice gives `&amp;amp;`, so escaping is not idempotent |
| Sanitizer.PlainTail | src/api/lib/sanitizer.ts:45-49 | `amp;` contains no special character and escapes to itself |

## Left out

- `sanitizeHTML` (`src/api/lib/sanitizer.ts`) hands the text to an HTML-sanitising library whose rules are not part of this model; only `escapeText` is modelled.
- JWT signing and verification are a map from token to user id. Signatures, the `7d` expiry of the token itself and the secret are not modelled.
- bcrypt hashing is not modelled. Register hashes the password and discards the hash, and login never compares passwords, so nothing observable depends on it.
- zod's e-mail and URL grammars are the `FormatCheck` parameter. A refusal is `ValidationIssues`; the list of zod issues it would carry is not modelled.
- Responses are modelled through their status, body, headers set by the core, and cookie operations. Headers Next.js adds itself, such as `Content-Type`, are not modelled.
- The ideas and users routes, `next.config.mjs` and the Prisma and mail modules are not part of this model.
- Auth.ExtractToken: strings are sequences of characters, so `replace` and length checks count characters where JavaScript counts UTF-16 code units. The same holds for the schemas' length bounds.
- Http.Request: header names are stored lower-cased and looked up by that name. `Headers.get` ignores case, but the model does not model case folding.
- Http.Response.SetHeader: response header names are case-sensitive map keys. `Headers.set` folds the name's case, so in the code a header already present under another spelling (`x-frame-options`) is overwritten; the model keeps both spellings.
- Security.OtherHeadersPreserved: holds for names compared case-sensitively only. A header that differs from one of the six only in case is overwritten by `addSecurityHeaders`, not preserved as the lemma states.
- Auth.BarePrefixFallsBackToCookie: states the code as written on the raw value. Fetch `Headers` strips surrounding whitespace from values, so `Authorization: Bearer ` arrives as `Bearer`, which contains no `Bearer ` and is used verbatim as the token (`Auth.HeaderWithoutBearerIsVerbatim`). Value normalisation is not modelled.
- Text.LowerAscii: only `A`–`Z` are lowered. `toLowerCase` also lowers letters of other scripts; this changes an extension only when its last piece holds non-ASCII letters.
- FileValidator.ValidateUploadedFile: `size` is an integer. A JavaScript number can also be fractional or `NaN`, and `NaN > MAX_FILE_SIZE` is false, so a `NaN` size would pass the size check.
- The store either works for a whole request or throws on its first call (`online`). A store call that fails partway through a request is not modelled: for example, a session write that fails after the user row was created. (A mail failure after the reset row is written is a different matter and is modelled: `PasswordReset.Post` takes `mailDelivered`, keeps the upsert and answers 500.)
- Session rows carry user id, token and expiry. The generated row id and `createdAt` are not modelled. Time is an integer count of milliseconds.
- Register.Post: a fresh user id is a precondition (`newId` not already used). A unique-constraint error from two concurrent registrations is not modelled.
- Register.NewUser: a new user is not premium and has no wallet address, taken to be the Prisma schema's defaults, which are not part of this model.
- PasswordReset.Post: an `email` that is missing or not a string gives 500, because Prisma's `findUnique` throws on it.
- PasswordReset.Post: the e-mail is mailed as given. Sending it is the returned `mail` value plus the `mailDelivered` flag.
- Requests are handled one at a time. Concurrency between requests (such as racing reset upserts or logins) is not modelled, and neither is `async` scheduling.
- `console.error` logging is left out.
