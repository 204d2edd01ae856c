# MoonTV homepage password gate, local admin config and password-change route — a Dafny model

MoonTV can hide the whole site behind one shared homepage password. Three pieces of logic decide
how that works, and this project models each as Dafny functions, classes and lemmas:

- **The password gate** (`src/components/GlobalPasswordGate.tsx`). The gate first picks the
  password in force. A non-blank `homepagePasswordOverride` in the browser's local admin document
  wins, trimmed. Otherwise `RUNTIME_CONFIG.HOMEPAGE_PASSWORD` applies, or `''` when that is unset.
  The gate then reads the `auth` cookie. It splits the cookie string on `;`, trims each piece,
  cuts the piece at its first `=`, URI-decodes the value and parses it as JSON. The visitor is let
  in when no password is set, or when the credential's `password` is strictly equal to the
  password in force. The confirm button refuses an empty input ("密码不得为空") and a wrong one
  ("密码错误"). On a match it writes the credential `{password, role: 'user'}` and opens the gate.
  The credential holds the password itself, so changing the password locks out every old
  credential.
- **The static admin panel** (`src/app/admin/page.tsx`). It keeps a six-field local config
  record in React state. It loads the record from localStorage, with defaults built from the
  runtime config, and saves it back. It exports the record under flat snake_case keys and imports
  such a file as a per-field `??` merge over the current record.
- **`POST /api/admin/password`** (`src/app/api/admin/password/route.ts`). The checks run in a
  fixed order and the first failure answers: storage mode (400), body (500 if it cannot be read),
  new password (400), session (401), config loading (500), storage lookup (500), owner-or-admin
  permission (401). On success only `SiteConfig.HomepagePassword` changes, and the config is
  written through the storage backend.

JavaScript values are modelled as `JsValues.JsValue`: undefined, null, booleans, numbers, strings,
arrays and objects. The model also defines truthiness, `??`, `||`, `Boolean()`, property access,
optional chaining and `===`. This matters because the source's `as` casts check nothing at run
time. A field declared as a string can hold any JSON value, and the source's own guards
(`typeof … === 'string'`, `Boolean(…)`) exist for exactly that reason.

Ambient state is passed in explicitly:

- localStorage is a map from key to `LocalStorage.Item`, which records what `JSON.parse` makes of
  the stored text.
- `window.RUNTIME_CONFIG` is a `JsValue` parameter.
- `document.cookie` is a string parameter.
- `decodeURIComponent` and `JSON.parse` on the cookie are function parameters that return `None`
  where the real call would throw.
- `process.env`, the request body, the session's auth info, `getConfig`, `getStorage` and
  `setAdminConfig` are inputs of the route model (`Env`, `Request`, `Attempt`, `Storage`, and the
  `ConfigObject`/`Backend` objects).

Points where the code may surprise a reader:

- The gate reads only the local override and the runtime config. It never reads the
  server-persisted admin document.
- The route answers 401 both for a missing session and for insufficient permission.
- A storage backend without `setAdminConfig` makes the route answer 200 without writing anything.
- A `null` JSON body is a 500, because destructuring `newPassword` out of it throws.

## Model

| member | source | states |
|---|---|---|
| `JsStrings.TrimStart` | src/components/GlobalPasswordGate.tsx:47-48 | the result is the suffix of the input after its leading whitespace, and starts with a non-space |
| `JsStrings.TrimEnd` | src/components/GlobalPasswordGate.tsx:47-48 | the result is the prefix of the input before its trailing whitespace, and ends with a non-space |
| `JsStrings.Trim` | src/components/GlobalPasswordGate.tsx:20 | `trim()` leaves no whitespace at either end |
| `JsStrings.TrimEmptyIff` | src/components/GlobalPasswordGate.tsx:47 | the trimmed string is empty exactly when the input is whitespace only (both directions) |
| `JsStrings.TrimOfTrimmed` | src/components/GlobalPasswordGate.tsx:20 | a string with no whitespace at its ends is its own trim |
| `JsStrings.TrimIdempotent` | src/components/GlobalPasswordGate.tsx:48 | trimming twice equals trimming once |
| `JsStrings.IndexOf` | src/components/GlobalPasswordGate.tsx:21 | `indexOf` gives -1 exactly when the character is absent, else the position of its first occurrence |
| `JsStrings.IndexOfAfter` | src/components/GlobalPasswordGate.tsx:21 | in `a + [c] + b` with no `c` in `a`, the first `c` is at `|a|` |
| `JsStrings.Split` | src/components/GlobalPasswordGate.tsx:19 | `split(';')` yields at least one piece and no piece contains the separator |
| `JsStrings.JoinSplit` | src/components/GlobalPasswordGate.tsx:19 | joining the pieces of a split gives back the original string |
| `JsStrings.SplitJoin` | src/components/GlobalPasswordGate.tsx:19 | splitting a join of separator-free pieces gives back those pieces |
| `JsStrings.SplitFirst` | src/components/GlobalPasswordGate.tsx:19 | a split cuts at the first separator |
| `AuthCookie.SplitAtFirstEquals` | src/components/GlobalPasswordGate.tsx:21-22 | a piece yields a pair exactly when it has an `=` that is not its first character; the key is non-empty and `=`-free, and key + `=` + value is the piece, so the value keeps any later `=` |
| `AuthCookie.CookiePair` | src/components/GlobalPasswordGate.tsx:20-22 | one piece, trimmed and cut at its first `=` when that `=` has a character before it (its properties are those of `SplitAtFirstEquals` and `PairOfTrimmed`) |
| `AuthCookie.Assign` | src/components/GlobalPasswordGate.tsx:22-23 | `if (i > 0) acc[key] = value`: a piece without a pair leaves the dictionary, a pair assigns its key |
| `AuthCookie.Jar` | src/components/GlobalPasswordGate.tsx:19-24 | the `reduce` over the pieces as a left fold of `Assign` from `{}` (characterised by `JarKeys`, `JarLastWins` and `JarSnoc`) |
| `AuthCookie.Cookies` | src/components/GlobalPasswordGate.tsx:19 | the dictionary of the whole cookie string: `Jar` of its `;`-pieces |
| `AuthCookie.ParseCookies` | src/components/GlobalPasswordGate.tsx:19-24 | the `reduce` loop over the pieces builds exactly the left-to-right fold `Cookies(cookie)` |
| `AuthCookie.JarSnoc` | src/components/GlobalPasswordGate.tsx:22-23 | one more piece either leaves the dictionary alone or assigns its key to its value |
| `AuthCookie.JarKeys` | src/components/GlobalPasswordGate.tsx:19-24 | a name is in the dictionary exactly when some piece, trimmed, has it before its first `=` (index > 0) |
| `AuthCookie.JarLastWins` | src/components/GlobalPasswordGate.tsx:22 | a later duplicate overwrites: the value kept for a name is that of the last piece defining it |
| `AuthCookie.SinglePair` | src/components/GlobalPasswordGate.tsx:19-24 | a cookie string holding one well-formed `name=value` parses to exactly that one entry |
| `AuthCookie.PairOfTrimmed` | src/components/GlobalPasswordGate.tsx:20-22 | an untrimmable `key=value` piece with an `=`-free key parses to that key and value |
| `AuthCookie.JarOfOne` | src/components/GlobalPasswordGate.tsx:19-24 | a single well-formed piece gives a one-entry dictionary |
| `AuthCookie.ReadEntry` | src/components/GlobalPasswordGate.tsx:27-32 | reading a raw entry gives `null` or a value that `JSON.parse` produced |
| `AuthCookie.ReadEntryDecodes` | src/components/GlobalPasswordGate.tsx:27-29 | an entry that decodes to `once`, and then to `text` (decoded again exactly when `once` holds `%`), reads as `JSON.parse(text)`'s value, or `null` when parsing throws |
| `AuthCookie.ReadEntryUndecodable` | src/components/GlobalPasswordGate.tsx:27-32 | an entry whose first decoding throws, or whose second decoding (when `%` remains) throws, reads as `null` |
| `AuthCookie.AuthFromCookie` | src/components/GlobalPasswordGate.tsx:17-33 | a missing or empty `auth` entry gives `null`; otherwise the result is `null` or a value that `JSON.parse` produced, since failures of either decoder are swallowed |
| `AuthCookie.AuthFromCookieReads` | src/components/GlobalPasswordGate.tsx:25-29 | with a non-empty `auth` entry, the credential is that entry read by `ReadEntry` |
| `AuthCookie.GetAuthFromCookie` | src/components/GlobalPasswordGate.tsx:17-33 | the imperative reader returns exactly `AuthFromCookie`, including the second decode when `%` remains |
| `PasswordGate.RuntimePassword` | src/components/GlobalPasswordGate.tsx:52 | the runtime password is a truthy value or exactly `''`; a truthy `HOMEPAGE_PASSWORD` is taken as is, and a falsy or missing one gives exactly `''`, which leaves the gate off |
| `PasswordGate.StoredOverride` | src/components/GlobalPasswordGate.tsx:44-47 | the override read from a stored document that parses, is truthy and holds a string `homepagePasswordOverride` (used by `EffectivePassword`) |
| `PasswordGate.EffectivePassword` | src/components/GlobalPasswordGate.tsx:41-53 | a string override with non-blank content wins, trimmed; a missing, non-string or blank override falls through to the runtime password; the result is truthy or exactly `''` |
| `PasswordGate.EffectivePasswordIsString` | src/components/GlobalPasswordGate.tsx:44-52 | when the runtime password is a string or unset, the password in force is a string |
| `PasswordGate.Authorised` | src/components/GlobalPasswordGate.tsx:63 | the gate decision `auth?.password === homepagePassword` (characterised by `AuthorisedIff`) |
| `PasswordGate.AuthorisedIff` | src/components/GlobalPasswordGate.tsx:61-67 | under a string password P the credential opens the gate exactly when its `password` is P, in both directions |
| `PasswordGate.MissingCredentialLocked` | src/components/GlobalPasswordGate.tsx:26-31 | with a password set, an absent or undecodable credential (`null`) never opens the gate |
| `PasswordGate.RotationRevokes` | src/components/GlobalPasswordGate.tsx:62-67 | a credential accepted under password P is refused under any other password Q |
| `PasswordGate.Credential` | src/components/GlobalPasswordGate.tsx:102 | the credential `{password, role: 'user'}` written on a match |
| `PasswordGate.Submit` | src/components/GlobalPasswordGate.tsx:93-104 | empty input is refused with "密码不得为空"; a mismatch is refused with "密码错误"; acceptance happens exactly for the non-empty exact password and mints `{password, role: 'user'}`, which itself opens the gate |
| `PasswordGate.OverrideScenario` | src/components/GlobalPasswordGate.tsx:44-48 | a stored override "secret1" is the password in force whatever the runtime config |
| `PasswordGate.SubmitScenario` | src/components/GlobalPasswordGate.tsx:93-104 | under "secret1": "secret1" is accepted, "" and "wrong" are refused with their messages |
| `PasswordGate.PlainText` | src/components/GlobalPasswordGate.tsx:47-48 | a string with non-space ends trims to itself and is not blank |
| `PasswordGate.Gate.constructor` | src/components/GlobalPasswordGate.tsx:41-68 | on mount the gate's password is `EffectivePassword`; `authed` holds exactly when a password is set and the cookie's credential matches it |
| `PasswordGate.Gate.Shown` | src/components/GlobalPasswordGate.tsx:71-73 | the overlay is shown exactly when a password is set and the visitor is not authorised |
| `PasswordGate.Gate.Type` | src/components/GlobalPasswordGate.tsx:84-87 | typing replaces the input and always clears the error, leaving `authed` and the cookie alone |
| `PasswordGate.Gate.Confirm` | src/components/GlobalPasswordGate.tsx:93-104 | pressing confirm sets the refusal message of `Submit` and changes nothing else, or writes the minted credential and sets `authed` |
| `LocalStorage.ReadJson` | src/app/admin/page.tsx:21-22 | a document is read exactly when the item exists and parses |
| `LocalStorage.Store.SetJson` | src/app/admin/page.tsx:46 | `setItem` replaces the one item under the key and leaves every other key as it was |
| `AdminPanel.Defaults` | src/app/admin/page.tsx:24-32 | with nothing stored: the site name is runtime `SITE_NAME` when truthy, else "MoonTV"; announcement and override are `''`; under a truthy runtime config the proxies are `IMAGE_PROXY || ''` and `DOUBAN_PROXY || ''` and the flag is `Boolean(DISABLE_YELLOW_FILTER)`, and without one the whole default record is fixed; string runtime settings give a well-typed record; no field is nullish |
| `AdminPanel.LoadLocal` | src/app/admin/page.tsx:19-33 | with no parseable stored document, loading yields the defaults |
| `AdminPanel.FromDocument` | src/app/admin/page.tsx:22 | the record read off a stored document, field by field (see Left out) |
| `AdminPanel.ToDocument` | src/app/admin/page.tsx:46 | the document `save` stores: the record under its camelCase names (partner: `SaveLoadRoundTrip`) |
| `AdminPanel.SaveLoadRoundTrip` | src/app/admin/page.tsx:19-46 | loading after saving returns the saved record, whatever else storage holds |
| `AdminPanel.Export` | src/app/admin/page.tsx:53-60 | the exported document has exactly the keys siteName, announcement, image_proxy, douban_proxy, disable_yellow and homepage_password, holding the record's siteName, announcement, imageProxy, doubanProxy, disableYellow and homepagePasswordOverride values as they are |
| `AdminPanel.Import` | src/app/admin/page.tsx:75-86 | each field is taken from its key when that value is not nullish and kept otherwise; `disableYellow` is `Boolean(disable_yellow ?? prev)` and always a boolean; a `null` document gives no record |
| `AdminPanel.ImportExportRoundTrip` | src/app/admin/page.tsx:53-85 | importing the export of a record with no nullish field and a boolean flag restores it, over any previous record |
| `AdminPanel.ImportExportNullishField` | src/app/admin/page.tsx:53-85 | a nullish field does not survive the round trip: the previous value comes back |
| `AdminPanel.ImportWithoutKeys` | src/app/admin/page.tsx:77-85 | a document with none of the six keys leaves a record with a boolean flag unchanged |
| `AdminPanel.ImportIdempotent` | src/app/admin/page.tsx:77-85 | importing the same document twice equals importing it once |
| `AdminPanel.ImportKeepsWellTyped` | src/app/admin/page.tsx:77-85 | a document whose present text fields are strings keeps a well-typed record well-typed |
| `AdminPanel.SavedOverrideDrivesGate` | src/components/GlobalPasswordGate.tsx:44-48 | after the panel saves a non-blank override, the gate's password is that override, trimmed |
| `AdminPanel.SavedBlankOverrideDefers` | src/components/GlobalPasswordGate.tsx:44-52 | after the panel saves a blank or non-string override, the gate uses the runtime password |
| `AdminPanel.AdminPage.constructor` | src/app/admin/page.tsx:36 | the page starts with no record loaded |
| `AdminPanel.AdminPage.Mount` | src/app/admin/page.tsx:39-42 | mounting loads the record with `loadLocal` |
| `AdminPanel.AdminPage.Save` | src/app/admin/page.tsx:44-49 | saving without a record changes nothing; otherwise only the panel's key is replaced, and loading it gives the record back |
| `AdminPanel.AdminPage.ExportJson` | src/app/admin/page.tsx:51-69 | no document before a record is loaded; otherwise the export of the current record |
| `AdminPanel.AdminPage.ImportJson` | src/app/admin/page.tsx:71-88 | a file that cannot be read or parsed leaves the record untouched; otherwise the record becomes the merge over the current record, or over `loadLocal()` when none is loaded |
| `PasswordRoute.StorageType` | src/app/api/admin/password/route.ts:12 | the mode is `localstorage` exactly when the variable is unset, empty or `localstorage` |
| `PasswordRoute.NewPassword` | src/app/api/admin/password/route.ts:23-28 | a new password is accepted exactly when `newPassword` is a non-empty string |
| `PasswordRoute.Username` | src/app/api/admin/password/route.ts:30-33 | a caller is identified exactly when the auth info has a non-empty username |
| `PasswordRoute.IsOwner` | src/app/api/admin/password/route.ts:39 | owner exactly when the username equals `USERNAME`, and never when that is unset |
| `PasswordRoute.IsAdmin` | src/app/api/admin/password/route.ts:40-42 | admin exactly when a single user entry matches both the username and the role `admin` |
| `PasswordRoute.WithHomepagePassword` | src/app/api/admin/password/route.ts:48-51 | the update sets `HomepagePassword`; every other `SiteConfig` field, `UserConfig` and every other section stay as they were |
| `PasswordRoute.Post` | src/app/api/admin/password/route.ts:11-65 | a caller who passes the mode, body, password and session checks, whose config loads and storage lookup does not throw, and who is the owner or an admin always reaches the update; the config changes only for a non-local mode, a valid password, a known caller, a loaded config and an owner or admin, and then exactly by `WithHomepagePassword`; 200 `{ok: true}` exactly when it changed and the write did not throw; it is persisted exactly when `setAdminConfig` exists and succeeds; a thrown body read, a `null` body, a thrown `getConfig` after the session check, a thrown `getStorage` and a thrown `setAdminConfig` each give 500 `{error: '修改站点密码失败', details}` with that error |
| `PasswordRoute.LocalModeRejectsFirst` | src/app/api/admin/password/route.ts:12-20 | in local mode every request gets the same 400, whatever its body, session or config |
| `PasswordRoute.BadPasswordRejectedBeforeAuth` | src/app/api/admin/password/route.ts:26-28 | a missing, empty or non-string new password is a 400 whatever the session and config |
| `PasswordRoute.UnauthenticatedRejected` | src/app/api/admin/password/route.ts:30-33 | missing auth info or an empty username is a 401 "Unauthorized" whatever the config |
| `PasswordRoute.NonAdminForbidden` | src/app/api/admin/password/route.ts:39-45 | a non-owner with no `admin` entry under their name gets 401 "权限不足" and nothing changes |
| `PasswordRoute.PrivilegedCallerSucceeds` | src/app/api/admin/password/route.ts:39-57 | the owner or a listed admin with a valid password gets 200 and the updated config is persisted |
| `PasswordRoute.RotationRevokesCredentials` | src/app/api/admin/password/route.ts:48-51 | after a successful change to a different password, a credential that matched the old `HomepagePassword` no longer matches it; this concerns the stored value only, since the gate of this code base never reads `HomepagePassword` |
| `PasswordRoute.HandlePost` | src/app/api/admin/password/route.ts:11-65 | the handler returns `Post`'s response; it changes the config object in place exactly when `Post` changes it, even when the write then throws; the backend stores it only on a successful write |

## Left out

- Rendering, and the `useState`/`useEffect`/`useMemo` scheduling, are not modelled. This includes the `mounted` flag, which keeps the password at `''` until the first effect has run. The model starts from the mounted state.
- The panel's `saved` indicator and its `setTimeout` are not modelled. Neither are the form inputs' `onChange` bindings (`setCfg({...cfg, field})`). They are UI state with no logic of their own.
- `setAuthCookie` in full is not modelled. Its `JSON.stringify`/`encodeURIComponent` encoding, the cookie attributes and the 7-day expiry are left out. The gate keeps the credential it wrote as a value (`Gate.issued`). Dafny strings cannot hold lone surrogates, so the encoding failure that its `catch` swallows cannot happen in the model.
- `decodeURIComponent` and `JSON.parse` of the cookie are opaque function parameters.
- JSON text is taken to round-trip exactly. Numbers are reals, so NaN and `-0` are not represented. JSON cannot produce NaN anyway.
- `JsValues.Get`: the built-in properties of primitives, arrays and `Object.prototype` are not modelled. None of them shares a name with a property this code reads.
- `AuthCookie.Jar`: an entry named `__proto__` is kept. In the source, `acc['__proto__'] = value` on a plain `{}` runs the inherited prototype setter, which ignores a string, so no entry is stored. `JarKeys` and `JarLastWins` therefore do not describe the source for that one name. The `auth` entry, the only one read, is unaffected.
- `JsValues.StrictEquals`: arrays and objects are never equal. Every compared object is a distinct instance.
- `AdminPanel.FromDocument`: a stored document that parses to something other than an object is read field by field here. The source would keep that value itself as `cfg`, and a `null` would leave the panel empty. Keys beyond the six fields are dropped. The source keeps them in `cfg` and saves them back.
- `AdminPanel.Import`: a file that parses to `null` makes the source's state updater throw. That happens outside the `try`, during React's update. The model reports no record, and `ImportJson` keeps `cfg`.
- Blob and object-URL download and `file.text()`: only the document mapping is modelled.
- `getAuthInfoFromCookie`, `getConfig`, `getStorage` and `setAdminConfig` are not part of this model. The results of `getConfig`, `getStorage` and `setAdminConfig`, or the errors they throw, are inputs. `getAuthInfoFromCookie` is assumed not to throw: its result is an input, and the 500 a throw from it would give is not modelled. In `HandlePost`'s model, `getConfig` returns the passed `ConfigObject`, which may be a shared instance.
- A thrown value is represented by its message. A thrown non-`Error` value, whose `.message` would be `undefined`, is not distinguished. The TypeError text of a `null` body is engine-specific and is left abstract (`NullBodyTypeError`).
- `console.error` logging is not modelled.
- Concurrent password changes (last write wins at the storage backend) are not modelled.
- `src/lib/version.ts` is not modelled. It is a network fetch with a timeout, `checkForUpdates` returns the constant `NO_UPDATE`, and `compareVersions` is never called.
