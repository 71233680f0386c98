# Account-access core, modelled in Dafny

This project models the account-access module of a restaurant-management application: registration, login, password-recovery request and role-based permission checks. It covers three pieces of the TypeScript code:

- the `Usuario` entity, with its reset-token fields and its `validarRol` permission rule, plus the `Rol` and `AutenticacionDTO` records;
- `AuthRepositorio`, modelled as in-memory tables:
  - `users`, a map from the serial id to a row;
  - `user_roles`, a set of (user id, role id) pairs;
  - `roles`, a read-only map from role id to a row;
- `AuthControlador`, whose four flows run over that repository and return a tagged outcome (`AuthError`) instead of throwing an error message.

Files, one module each:

| file | module | models |
|---|---|---|
| `wrappers.dfy` | `Wrappers` | `Option` (nullable values), `Result` (thrown errors) |
| `js_string.dfy` | `JsString` | `toLowerCase` (ASCII), `trim`, `split(',')` and its inverse `Join` |
| `crypto.dfy` | `Crypto` | `randomBytes(32).toString('hex')` and the bcrypt `hash`/`compare` pair |
| `jwt.dfy` | `Jwt` | the session-token payload |
| `entidades.dfy` | `Entidades` | `Rol`, `AutenticacionDTO`, `Usuario`, `validarRol` |
| `repositorio.dfy` | `Repositorio` | `AuthRepositorio` over the three tables |
| `controlador.dfy` | `Controlador` | `AuthControlador` and its flows |

Some collaborators are outside the code being modelled, so they are given to the model from outside:

- bcrypt (`hash`, `compare`) and `generarToken` (JWT signing) are function-valued constants of the controller. The only thing assumed about them is `Bcrypt.Sound()`: every password verifies against any hash of itself.
- The salt from `genSalt`, the 32 bytes from `randomBytes` and the current time are method parameters. Time is an integer number of seconds.

Three behaviours of the code are worth stating outright:

- Email lookups are exact string equality (`WHERE email = $1`, models/daos/AuthRepositorio.ts and controllers/AuthControlador.ts): no case folding or trimming of the email.
- The password is handed to bcrypt as it is: an empty password is hashed like any other (controllers/AuthControlador.ts:44-45).
- No modelled flow checks a stored recovery token or completes a reset; `solicitarRecuperacion` only issues one. The token is read back by `buscarPorEmail` and written back as it is by `guardar`.

## Model

| member | source | states |
|---|---|---|
| `JsString.Lower` | models/entities/Usuario.ts:43 | `toLowerCase` on ASCII: same length, each character lower-cased |
| `JsString.LowerAbsorbsCase` | models/entities/Usuario.ts:43 | lower-casing forgets any earlier upper- or lower-casing |
| `JsString.Trim` | models/entities/Usuario.ts:49 | `trim`: no longer than the input; the result neither starts nor ends with ECMAScript whitespace |
| `JsString.TrimStartDropsWhitespace` | models/entities/Usuario.ts:49 | trimming the start keeps a suffix and drops only whitespace |
| `JsString.TrimEndDropsWhitespace` | models/entities/Usuario.ts:49 | trimming the end keeps a prefix and drops only whitespace |
| `JsString.TrimDropsWhitespace` | models/entities/Usuario.ts:49 | `trim` returns the slice of its input between a whitespace-only prefix and a whitespace-only suffix |
| `JsString.TrimLower` | models/entities/Usuario.ts:49 | `trim` and `toLowerCase` commute |
| `JsString.Split` | models/entities/Usuario.ts:49 | `split(sep)`: at least one piece, no piece contains the separator, and joining the pieces gives back the input |
| `JsString.SplitJoin` | models/entities/Usuario.ts:49 | splitting the join of separator-free pieces returns exactly those pieces |
| `JsString.SplitLower` | models/entities/Usuario.ts:49 | splitting on a comma commutes with lower-casing |
| `Crypto.HexEncode` | models/entities/Usuario.ts:62 | `toString('hex')`: two lower-case hex digits per byte |
| `Crypto.HexDecodeEncode` | models/entities/Usuario.ts:62 | decoding the hex rendering returns the original bytes |
| `Crypto.HexEncodeDecode` | models/entities/Usuario.ts:62 | every string that decodes is the rendering of its decoding |
| `Crypto.HexEncodeInjective` | models/entities/Usuario.ts:62 | different byte strings give different tokens |
| `Entidades.ValidarRol` | models/entities/Usuario.ts:39-54 | no role grants nothing; a case-insensitive name match grants; with an empty list, only the name grants |
| `Entidades.ValidarRolGrants` | models/entities/Usuario.ts:39-54 | both directions: granted exactly when the name matches, or when `permisos` is non-empty and one of its comma-separated fields, trimmed and lower-cased, equals the lower-cased request |
| `Entidades.ValidarRolIgnoresCase` | models/entities/Usuario.ts:43-50 | roles and requests that agree up to ASCII case get the same answer |
| `Entidades.ValidarRolUpperCase` | models/entities/Usuario.ts:43-50 | `validarRol(p)` equals `validarRol(p.toUpperCase())` |
| `Entidades.ValidarRolUntrimmedPermiso` | models/entities/Usuario.ts:49-50 | the request is not trimmed: one with leading or trailing whitespace is granted only by a name match |
| `Entidades.Usuario.constructor` | models/entities/Usuario.ts:23-31 | stores id, email, hash and name as given; reset token, expiry and role are null |
| `Entidades.Usuario.GenerarTokenTemporal` | models/entities/Usuario.ts:61-63 | the token has 64 lower-case hex characters and decodes back to the 32 random bytes |
| `Entidades.Usuario.SetResetToken` | models/entities/Usuario.ts:70-73 | sets the token and the expiry together; every other field is unchanged |
| `Repositorio.RolFromRow` | models/daos/AuthRepositorio.ts:95-99 | a joined role keeps its id and name; a NULL list column becomes the empty list, any other value is kept as it is |
| `Repositorio.ResetTokenFromRow` | models/daos/AuthRepositorio.ts:88 | a NULL or empty `reset_token` becomes null; any other value is kept |
| `Repositorio.AuthRepositorio.Guardar` | models/daos/AuthRepositorio.ts:30-50 | upsert keyed on the id. An existing row gets all five mutable fields. Otherwise one row is added under a fresh storage id, with email, hash and name and null reset fields. No other row changes. Tables whose rows pair the reset fields stay paired when `u`'s own reset fields are paired, which always holds on insert; an update writes `u`'s fields as they are, so a user loaded from a row with an empty token and an expiry unpairs that row |
| `Repositorio.AuthRepositorio.BuscarPorEmail` | models/daos/AuthRepositorio.ts:61-103 | null iff no row has exactly this email. Otherwise a fresh user built from such a row: a falsy token becomes null, and the role is one joined role with a non-zero id, or null |
| `Repositorio.AuthRepositorio.AsignarRol` | models/daos/AuthRepositorio.ts:109-114 | the pair is present afterwards and is the only addition; a second call changes nothing |
| `Repositorio.AuthRepositorio.ObtenerIdPorEmail` | models/daos/AuthRepositorio.ts:120-126 | null iff no row has this email; otherwise the id of such a row |
| `Controlador.ClaimRol` | controllers/AuthControlador.ts:92 | the role claim is the role's name, or `sin_rol` when there is no role or the name is empty; never empty |
| `Controlador.AuthControlador.constructor` | controllers/AuthControlador.ts:20-22 | the controller works on the given repository and collaborators |
| `Controlador.AuthControlador.Registrar` | controllers/AuthControlador.ts:36-58 | a taken email fails as a duplicate and changes no table. Otherwise one row is added under a fresh id, with the email, the name (`datos.nombre \|\| ''`, modelled as `GetOr("")`) and the hash of the password, which verifies against the password; the pair (new id, role 2) is added to `user_roles`; reset pairing is kept |
| `Controlador.AuthControlador.Login` | controllers/AuthControlador.ts:74-102 | an unknown email is the not-found outcome, and only then. A hash that does not verify is the wrong-password outcome. Success only when the password verifies, with the token signed over (row id, email, role claim). If every matching row verifies, login succeeds. It cannot write: it has no `modifies` clause |
| `Controlador.AuthControlador.SolicitarRecuperacion` | controllers/AuthControlador.ts:119-145 | an unknown email fails and nothing is written. Otherwise it returns the 64-character hex token of the random bytes; exactly one matching row gets that token and an expiry of now plus 3600 s; nothing else changes |
| `Controlador.AuthControlador.VerificarPermisos` | controllers/AuthControlador.ts:157-166 | false for an unknown email; otherwise `ValidarRol` of the looked-up user's joined role; it cannot write |
| `Controlador.RegistroYLogin` | controllers/AuthControlador.ts:36-102 | after registering a new email, login with that password yields a token signed over the id registration handed out, that email and the claim of a role joined to that id, and a password that does not verify is refused as wrong |

## Left out

- Unicode case mapping: `toLowerCase` is modelled on ASCII letters only. `trim` uses the full ECMAScript whitespace set.
- bcrypt internals: salt generation, the work factor and the hash format are not modelled. The only assumption is that a password verifies against its own hash.
- `Controlador.AuthControlador.Registrar`: does not prove that the stored hash differs from the plaintext. The hash function is abstract, so the model can state only that the stored value is bcrypt's output.
- JWT signing, the secret, the 24-hour expiry and `verificarToken` (config/jwt.ts): signing is an opaque function of the payload. The `userId` claim is the numeric id rather than its string form.
- Randomness: the 32 bytes behind a recovery token are a parameter. The model does not claim they are unpredictable or distinct between calls.
- SQL, the connection pool and the driver:
  - no database errors, constraint violations or concurrent requests;
  - when several rows match an email, or a user has several role pairs, the model may pick any of them.
- `Repositorio.AuthRepositorio.Guardar`: promises only that the id sequence moves forward on insert, not by how much, because database sequences may skip values.
- Ids as strings: `Usuario.id` is a string in the source (`fila.id.toString()`, `'0'` for a new user). The model uses the integer it prints. Stored ids are at least 1, so a new user's id 0 never matches a row.
- NULL `full_name` or role `name` columns: every row in the model holds strings. The source would produce a null name or fail inside `toLowerCase`.
- Wall-clock time: the expiry is now plus 3600 seconds. Local-time `setHours` and daylight-saving effects are not modelled.
- The console message that stands in for sending the recovery email (I/O).
- HTTP route handlers and React pages: request parsing, status codes chosen by reading error text, local storage and client-side token decoding.
- `AutenticacionDTO.tokenTemporal`: carried by the record but read by no modelled operation.
- Asynchrony: each flow's awaits run in sequence and are modelled as sequential statements.
