# Mock authentication: a Dafny model

This project models the credential logic of a small React application that
keeps its users in the browser's `localStorage`. It covers three parts:

- **The `useAuth` hook** (`src/auth.ts`). User records `{name, email, password}` are stored
  under `auth_users`, with the password bcrypt-hashed and the email lower-cased. The
  signed-in email is stored under `auth_current_user`. The hook keeps an in-memory
  `currentUser` and an `isLoading` flag, and offers four operations:
  `isUsernameAvailable`, `createUser`, `authenticate` and `logout`.
- **The sign-up page** (`src/SignUp.tsx`). `validateInputs` checks the email, password and
  name. `handleRegistration` calls `createUser` only when validation passes, and turns a
  thrown error into the page's registration error.
- **The sign-in page** (`src/SignIn.tsx`). `validateInputs` checks the email and password.
  `handleLogin` calls `authenticate` only when validation passes, and turns a thrown error
  into the page's login error.

## Layout

| file | module | contents |
|---|---|---|
| wrappers.dfy | `Wrappers` | `Option` (`T \| null`, absent key) and `Result` (resolved value or thrown message) |
| strings.dfy | `Strings` | ASCII `toLowerCase`, case-insensitive equality, canonical (lower-case) form |
| hashing.dfy | `Hashing` | the abstract hasher `Hasher(hash, compare)` and its one assumption `Sound()` |
| users.dfy | `Users` | the `User` record, `some` and `find` over the list, and the repository invariant `Canonical` |
| auth.dfy | `Auth` | the snapshot `AuthState`, one pure step function per operation, and the lemmas about them. It also holds the classes `AuthStorage` (the two localStorage entries) and `AuthHook` (one `useAuth()` instance) |
| validation.dfy | `Validation` | the meaning of `/\S+@\S+\.\S+/.test`, a decidable form of it, and the three field rules |
| effects.dfy | `Effects` | toasts and routes, recorded by the pages as logs |
| signup.dfy | `SignUp` | `SignUpPage` with its eight error fields, `ValidateInputs`, `HandleRegistration` |
| signin.dfy | `SignIn` | `SignInPage` with its six error fields, `ValidateInputs`, `HandleLogin` |
| scenarios.dfy | `Scenarios` | whole flows: the Alice session, an unknown email, and sign-up followed by sign-in on a second page |

How the model is built:

- **The hook's operations.** Each method performs the source's steps on the objects. It is
  proved to take exactly the step that a pure function of the old state gives, for example
  `Step(State(), r) == CreateUserStep(old(State()), ...)`. The properties are lemmas about
  those step functions.
- **Shared storage.** `AuthStorage` is a separate object, so each page's `AuthHook` has its
  own `currentUser` and `isLoading` while both share one storage, as `localStorage` is
  shared in the browser.
- **bcrypt.** The hasher is a parameter. `hash(password, salt)` takes the random salt as an
  argument. The single round-trip assumption, `compare(p, hash(p, salt))` for every `p` and
  `salt`, is the precondition `Hasher.Sound()` of the lemmas that need it.
- **The email rule.** `PatternTest` says what the unanchored expression `\S+@\S+\.\S+`
  accepts: some substring splits as non-space+ `@` non-space+ `.` non-space+.
  `HasEmailShape` is the executable check the pages use, and it looks for a shortest such
  match. `EmailShapeIffPatternTest` proves that the two agree.
- **Thrown errors.** A thrown error is `Err(message)`. `Ok(v)` is the value the promise
  resolves to. `None` stands for `null`, an absent key, or a handler that resolves to
  `undefined`.

Behaviours of the code worth noting:

- **Stale sessions.** A session email with no matching user is not treated as "no
  session". The hook seeds `currentUser` with whatever `auth_current_user` holds
  (`AuthHook.constructor`).
- **`authenticate`'s result.** It resolves to `true`, not to the user record.
- **Truthiness.** `saveCurrentUserToStorage` removes the key for `""` as well as for
  `null`. So a successful `authenticate("", p)` sets `currentUser` to `""` but removes
  `auth_current_user`. This needs a stored user whose email is `""`. `createUser` itself
  does not validate, but the forms' validation makes that input unreachable from the pages
  (`AuthenticateRecordsTypedEmail`).

## Model

| member | source | states |
|---|---|---|
| `Users.AnyEmailMatches` | src/auth.ts:60 | the `some` scan is true iff some stored email equals the given one ignoring case |
| `Users.FindByEmail` | src/auth.ts:89 | `find` returns nothing iff no email matches; otherwise it returns the first record whose email matches ignoring case |
| `Users.CanonicalAppend` | src/auth.ts:77 | appending a lower-case email that no stored email matches keeps the emails lower-case and pairwise distinct ignoring case |
| `Users.CanonicalMatchesAtMostOnce` | src/auth.ts:72-74 | under that invariant, at most one record matches any email |
| `Users.FindAppended` | src/auth.ts:89 | when no earlier record matches, `find` on the list with a record appended returns that record for every case variant of its email |
| `Strings.LowerIsLowerCase` | src/auth.ts:77 | a lower-cased email is in canonical form and equals the original ignoring case |
| `Auth.SessionSlotAfterSave` | src/auth.ts:38-43 | the session key is set exactly for a truthy email (not `null`, not `""`), holds that email, and is removed otherwise |
| `Auth.AvailableIffNoMatch` | src/auth.ts:55-64 | `isUsernameAvailable(e)` is true iff no stored email equals `e` ignoring case; with `auth_users` absent every email is available |
| `Auth.CreateUserOutcome` | src/auth.ts:66-82 | `createUser` throws "Email is already in use" iff some case variant is stored, and then changes nothing; otherwise it appends exactly one record `{name, lower-cased email, hash(password)}` after the earlier records and leaves the session alone |
| `Auth.CreateUserKeepsCanonical` | src/auth.ts:70-78 | if stored emails are lower-case and distinct ignoring case, they still are after `createUser`, whether it succeeds or throws |
| `Auth.RegisteredUserCanAuthenticate` | src/auth.ts:76-102 | after a successful `createUser(n, e, p)`, `authenticate(e', p)` resolves to true for every `e'` equal to `e` ignoring case, given the hasher round trip |
| `Auth.SecondRegistrationRejected` | src/auth.ts:70-78 | after a successful registration every case variant of the email is unavailable, registering it again throws "Email is already in use" and changes nothing, and on any store exactly one record (the appended one) matches that email |
| `Auth.AuthenticateOutcome` | src/auth.ts:84-98 | `authenticate` succeeds iff some email matches and the password compares true against the first matching record's digest; an unknown email and a wrong password both throw "Invalid email or password" and change nothing |
| `Auth.AuthenticateRecordsTypedEmail` | src/auth.ts:100-102 | a successful `authenticate` resolves to true and stores the email as typed, not lower-cased, as `currentUser` and (unless it is `""`) under `auth_current_user`; the users are untouched |
| `Auth.LogoutIdempotent` | src/auth.ts:108-116 | `logout` sets `currentUser` to null, removes `auth_current_user`, keeps the users, and a second `logout` changes nothing |
| `Auth.AuthStorage.SaveUsersToStorage` | src/auth.ts:25-32 | after saving a list, reading `auth_users` back yields exactly that list; nothing else changes |
| `Auth.AuthStorage.SaveCurrentUserToStorage` | src/auth.ts:34-43 | after saving, reading `auth_current_user` back yields the email if it is truthy and null otherwise |
| `Auth.AuthHook.constructor` | src/auth.ts:52-53 | a new hook starts with `currentUser` equal to the stored session and `isLoading` false |
| `Auth.AuthHook.IsUsernameAvailable` | src/auth.ts:55-64 | answers the availability of the email in the current storage, changes no slot and ends not loading |
| `Auth.AuthHook.CreateUser` | src/auth.ts:66-82 | re-checks availability, hashes, appends and writes the list back, taking exactly `CreateUserStep`; ends not loading on both paths |
| `Auth.AuthHook.Authenticate` | src/auth.ts:84-106 | finds, compares and records the session, taking exactly `AuthenticateStep`; ends not loading on every path |
| `Auth.AuthHook.Logout` | src/auth.ts:108-116 | clears the in-memory and the stored session, taking exactly `LogoutStep` |
| `Validation.EmailShapeIffPatternTest` | src/SignUp.tsx:73 | the executable shortest-match check agrees with the unanchored `\S+@\S+\.\S+` test in both directions |
| `Validation.EmailAccepted` | src/SignUp.tsx:73-80 | an email passes iff it is non-empty and some substring matches `\S+@\S+\.\S+`; the empty email always fails |
| `Validation.PasswordAccepted` | src/SignUp.tsx:82-89 | a password passes iff it has at least 6 characters |
| `Validation.NameAccepted` | src/SignUp.tsx:91-98 | a name passes iff it is non-empty |
| `SignUp.SignUpPage.constructor` | src/SignUp.tsx:29-36 | all eight error fields start clear and nothing has been navigated or toasted |
| `SignUp.SignUpPage.ValidateInputs` | src/SignUp.tsx:70-101 | all three checks run; each flag ends true iff its check failed, each message is empty iff it passed (otherwise the source's text), and the result is true iff all three pass |
| `SignUp.SignUpPage.HandleRegistration` | src/SignUp.tsx:50-68 | the registration error is first cleared; on invalid input it resolves to false and the store is untouched; otherwise it takes `createUser`'s step, and a throw sets the flag with the thrown message, while success alone navigates to "/" and shows the success toast |
| `SignIn.SignInPage.constructor` | src/SignIn.tsx:30-35 | all six error fields start clear and nothing has been navigated or toasted |
| `SignIn.SignInPage.ValidateInputs` | src/SignIn.tsx:77-97 | both fields are reset first; each flag ends true iff its check failed and a passing field ends clear; the result is true iff both pass, with no name check |
| `SignIn.SignInPage.HandleLogin` | src/SignIn.tsx:57-76 | the login error is first cleared; on invalid input `authenticate` is not called; a throw sets the flag with the thrown message; only a result of true navigates to "/dashboard" |
| `Scenarios.AliceSession` | src/auth.ts:66-116 | registering "Alice@Example.com" makes "alice@example.com" unavailable, "ALICE@example.com" then signs in and becomes the session as typed, and logout clears it |
| `Scenarios.UnknownEmailRejected` | src/auth.ts:89-92 | signing in with an email no user has throws "Invalid email or password" and changes no state |
| `Validation.CaseVariantAccepted` | src/SignIn.tsx:84-88 | every case variant of an email the rule accepts is accepted too: lower-casing keeps `@`, `.` and the non-space characters |
| `Scenarios.SignUpThenSignIn` | src/SignIn.tsx:57-76 | on fresh storage, valid sign-up navigates to "/", and a second page's hook over the same storage then signs in with any case variant of the email, navigates to "/dashboard", and stores that variant as the session |

## Left out

- `delay` (src/auth.ts:46-49): it draws a random wait and sets a timer, so the model treats it as a no-op.
- Asynchrony and React scheduling. Every operation runs atomically and in sequence. The
  model does not capture interleavings, such as a second `createUser` between the read at
  src/auth.ts:70 and the availability check at src/auth.ts:72. A `useState` setter takes
  effect at once. Of `isLoading`, only its value between operations (false) is stated.
- bcrypt internals: salting, the cost factor 10 and the digest format. The hasher is
  abstract and the salt is an argument. The model does not rule out a digest that equals
  the plaintext; it only states that the stored digest is `hash(password, salt)`.
- JSON serialisation of `auth_users`. The slot holds the typed list. A malformed stored
  value, which would make `JSON.parse` throw, is not modelled.
- Unicode case. `toLowerCase` is modelled on ASCII letters only. The `\s` class is the
  ECMAScript white-space set.
- Password length. JavaScript's `length` counts UTF-16 code units; the model counts
  characters.
- Failures of bcrypt or of `localStorage.setItem`, and the `e.message` of errors other than
  the two the hook throws itself.
- Rendering, `console.log`, the toast context (src/context/ToastContext.tsx), routing
  (src/App.tsx) and src/Dashboard.tsx. Navigations and toasts are recorded as logs on the
  pages. `getUsersFromStorage` and `getCurrentUserFromStorage` are plain reads
  (`AuthStorage.GetUsersFromStorage`, `AuthStorage.GetCurrentUserFromStorage`). Their
  properties are stated through the save methods' contracts and `AvailableIffNoMatch`.
- `FormData.get` returning `null` for a missing field: every field is modelled as a string.
