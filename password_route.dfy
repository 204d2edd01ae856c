/**
 * `POST /api/admin/password`: the ordered checks that decide whether a caller may change the
 * site password, and the change itself. The request body, the session, the stored admin config
 * and the storage backend are inputs; their loading code is not part of this model.
 */
module PasswordRoute {
  import opened Wrappers
  import opened JsValues
  import PasswordGate

  const LocalStorageMode: string := "localstorage"
  const AdminRole: string := "admin"
  const UnsupportedModeError: string := "当前模式不支持修改站点密码"
  const EmptyPasswordError: string := "新密码不得为空"
  const UnauthorizedError: string := "Unauthorized"
  const ForbiddenError: string := "权限不足"
  const FailureError: string := "修改站点密码失败"

  datatype User = User(username: string, role: string)
  datatype SiteConfig = SiteConfig(homepagePassword: JsValue, otherFields: map<string, JsValue>)
  datatype UserConfig = UserConfig(users: seq<User>, otherFields: map<string, JsValue>)
  /** The admin config document: `SiteConfig`, `UserConfig` and every other section. */
  datatype AdminConfig = AdminConfig(siteConfig: SiteConfig, userConfig: UserConfig, otherSections: map<string, JsValue>)

  /** `process.env.NEXT_PUBLIC_STORAGE_TYPE` and `process.env.USERNAME`. */
  datatype Env = Env(storageType: Option<string>, ownerName: Option<string>)
  /** What `getAuthInfoFromCookie` found in the request's cookie. */
  datatype AuthInfo = AuthInfo(username: Option<string>)
  /** `request.json()` (or the error it threw) and the caller's auth info, if any. */
  datatype Request = Request(body: Attempt<JsValue>, auth: Option<AuthInfo>)
  /**
   * `getStorage()`: the call throws, or gives no storage, one without `setAdminConfig`, or one
   * whose `setAdminConfig` succeeds or throws.
   */
  datatype Storage = StorageThrew(message: string) | NoStorage | WithoutSetter | WithSetter(failure: Option<string>)

  /** The `details` of a 500: a thrown error's message, or the TypeError of destructuring a null body. */
  datatype Detail = Message(text: string) | NullBodyTypeError
  datatype Body = ErrorBody(error: string) | ErrorDetails(error: string, details: Detail) | OkBody
  datatype Response = Response(status: int, body: Body)

  /** What happened to the config object `getConfig` returned: untouched, or updated and possibly written. */
  datatype Effect = Untouched | Mutated(config: AdminConfig, persisted: bool)
  datatype Outcome = Outcome(response: Response, effect: Effect)

  /** `process.env.NEXT_PUBLIC_STORAGE_TYPE || 'localstorage'` */
  function StorageType(env: Env): (t: string)
    ensures t == LocalStorageMode <==> env.storageType.None? || env.storageType.value in {"", LocalStorageMode}
  {
    if env.storageType.Some? && env.storageType.value != "" then env.storageType.value else LocalStorageMode
  }

  /** `newPassword` when it is a non-empty string (`!newPassword || typeof newPassword !== 'string'` rejects the rest). */
  function NewPassword(body: JsValue): (r: Option<string>)
    requires !Nullish(body)
    ensures r.Some? <==> Get(body, "newPassword").Str? && Get(body, "newPassword").s != ""
    ensures r.Some? ==> Get(body, "newPassword") == Str(r.value)
  {
    var v := Get(body, "newPassword");
    if v.Str? && v.s != "" then Some(v.s) else None
  }

  /** The caller's username when there is auth info with a non-empty one. */
  function Username(auth: Option<AuthInfo>): (r: Option<string>)
    ensures r.Some? <==> auth.Some? && auth.value.username.Some? && auth.value.username.value != ""
    ensures r.Some? ==> auth.value.username == Some(r.value)
  {
    if auth.Some? && auth.value.username.Some? && auth.value.username.value != "" then auth.value.username else None
  }

  /** `isOwner`: the username equals `process.env.USERNAME` (never, when that is unset). */
  predicate IsOwner(env: Env, name: string) {
    env.ownerName == Some(name)
  }

  /** `Users.some(u => u.username === name && u.role === 'admin')`: one entry must match on both. */
  function IsAdmin(users: seq<User>, name: string): (b: bool)
    ensures b <==> exists i :: 0 <= i < |users| && users[i].username == name && users[i].role == AdminRole
  {
    if users == [] then false
    else
      var rest := IsAdmin(users[1..], name);
      assert forall i :: 1 <= i < |users| ==> users[i] == users[1..][i - 1];
      (users[0].username == name && users[0].role == AdminRole) || rest
  }

  /** The functional update: only `SiteConfig.HomepagePassword` changes. */
  function WithHomepagePassword(c: AdminConfig, password: string): (r: AdminConfig)
    ensures r.siteConfig.homepagePassword == Str(password)
    ensures r.siteConfig.otherFields == c.siteConfig.otherFields
    ensures r.userConfig == c.userConfig && r.otherSections == c.otherSections
    ensures c.siteConfig.homepagePassword == Str(password) ==> r == c
  {
    c.(siteConfig := c.siteConfig.(homepagePassword := Str(password)))
  }

  function Reply(status: int, body: Body): Outcome {
    Outcome(Response(status, body), Untouched)
  }

  /** The 500 the `catch` block answers with, carrying the thrown error's message. */
  function Failure(details: Detail): Response {
    Response(500, ErrorDetails(FailureError, details))
  }

  /** The request gets past the mode, body, password and session checks, to `getConfig`. */
  predicate PassesRequestChecks(env: Env, req: Request) {
    StorageType(env) != LocalStorageMode && req.body.Done? && !Nullish(req.body.value) &&
    NewPassword(req.body.value).Some? && Username(req.auth).Some?
  }

  /**
   * The handler as a function of its inputs. Checks run in order: storage mode (400), body
   * (500 when reading it throws or it is null), new password (400), session (401), loading
   * the config (500), looking up the storage (500), permission (401); then the update and the
   * write (500 when it throws).
   */
  function Post(env: Env, req: Request, load: Attempt<AdminConfig>, storage: Storage): (out: Outcome)
    ensures out.effect.Mutated? ==>
      StorageType(env) != LocalStorageMode && req.body.Done? && !Nullish(req.body.value) &&
      NewPassword(req.body.value).Some? && Username(req.auth).Some? && load.Done? &&
      (IsOwner(env, Username(req.auth).value) || IsAdmin(load.value.userConfig.users, Username(req.auth).value)) &&
      out.effect.config == WithHomepagePassword(load.value, NewPassword(req.body.value).value)
    ensures out.effect.Mutated? ==> !storage.StorageThrew?
    ensures (PassesRequestChecks(env, req) && load.Done? && !storage.StorageThrew? &&
             (IsOwner(env, Username(req.auth).value) || IsAdmin(load.value.userConfig.users, Username(req.auth).value))) ==>
      out.effect.Mutated?
    ensures out.response.status == 200 <==> out.effect.Mutated? && !(storage.WithSetter? && storage.failure.Some?)
    ensures out.response.status == 200 ==> out.response.body == OkBody
    ensures out.effect.Mutated? ==> (out.effect.persisted <==> storage == WithSetter(None))
    ensures out.response.status in {200, 400, 401, 500}
    ensures StorageType(env) != LocalStorageMode && req.body.Threw? ==>
      out == Outcome(Failure(Message(req.body.message)), Untouched)
    ensures StorageType(env) != LocalStorageMode && req.body.Done? && Nullish(req.body.value) ==>
      out == Outcome(Failure(NullBodyTypeError), Untouched)
    ensures PassesRequestChecks(env, req) && load.Threw? ==>
      out == Outcome(Failure(Message(load.message)), Untouched)
    ensures PassesRequestChecks(env, req) && load.Done? && storage.StorageThrew? ==>
      out == Outcome(Failure(Message(storage.message)), Untouched)
    ensures out.effect.Mutated? && storage.WithSetter? && storage.failure.Some? ==>
      out.response == Failure(Message(storage.failure.value))
  {
    if StorageType(env) == LocalStorageMode then Reply(400, ErrorBody(UnsupportedModeError))
    else match req.body
      case Threw(m) => Reply(500, ErrorDetails(FailureError, Message(m)))
      case Done(body) =>
        if Nullish(body) then Reply(500, ErrorDetails(FailureError, NullBodyTypeError))
        else match NewPassword(body)
          case None => Reply(400, ErrorBody(EmptyPasswordError))
          case Some(password) =>
            match Username(req.auth)
            case None => Reply(401, ErrorBody(UnauthorizedError))
            case Some(name) =>
              match load
              case Threw(m) => Reply(500, ErrorDetails(FailureError, Message(m)))
              case Done(config) =>
                if storage.StorageThrew? then Reply(500, ErrorDetails(FailureError, Message(storage.message)))
                else if !IsOwner(env, name) && !IsAdmin(config.userConfig.users, name) then Reply(401, ErrorBody(ForbiddenError))
                else
                  var updated := WithHomepagePassword(config, password);
                  match storage
                  case WithSetter(Some(m)) =>
                    Outcome(Response(500, ErrorDetails(FailureError, Message(m))), Mutated(updated, false))
                  case WithSetter(None) => Outcome(Response(200, OkBody), Mutated(updated, true))
                  case _ => Outcome(Response(200, OkBody), Mutated(updated, false))
  }

  /** In the local mode every request gets the same 400, before its body or session is looked at. */
  lemma LocalModeRejectsFirst(env: Env, req: Request, load: Attempt<AdminConfig>, storage: Storage)
    requires StorageType(env) == LocalStorageMode
    ensures Post(env, req, load, storage) == Reply(400, ErrorBody(UnsupportedModeError))
  {
  }

  /** A missing, empty or non-string new password is a 400 whatever the session and the config. */
  lemma BadPasswordRejectedBeforeAuth(env: Env, body: JsValue, auth: Option<AuthInfo>, load: Attempt<AdminConfig>, storage: Storage)
    requires StorageType(env) != LocalStorageMode && !Nullish(body)
    requires !Get(body, "newPassword").Str? || Get(body, "newPassword").s == ""
    ensures Post(env, Request(Done(body), auth), load, storage) == Reply(400, ErrorBody(EmptyPasswordError))
  {
  }

  /** No session username is a 401 "Unauthorized" whatever the config, which is not even loaded. */
  lemma UnauthenticatedRejected(env: Env, body: JsValue, auth: Option<AuthInfo>, load: Attempt<AdminConfig>, storage: Storage)
    requires StorageType(env) != LocalStorageMode && !Nullish(body) && NewPassword(body).Some?
    requires auth.None? || auth.value.username.None? || auth.value.username == Some("")
    ensures Post(env, Request(Done(body), auth), load, storage) == Reply(401, ErrorBody(UnauthorizedError))
  {
  }

  /**
   * A caller who is not the owner and has no entry with that username and role `admin`
   * (entries with the username and another role do not help) gets 401 and nothing is written.
   */
  lemma NonAdminForbidden(env: Env, body: JsValue, name: string, config: AdminConfig, storage: Storage)
    requires StorageType(env) != LocalStorageMode && !Nullish(body) && NewPassword(body).Some? && name != ""
    requires !IsOwner(env, name) && !storage.StorageThrew?
    requires forall u :: u in config.userConfig.users && u.username == name ==> u.role != AdminRole
    ensures Post(env, Request(Done(body), Some(AuthInfo(Some(name)))), Done(config), storage) == Reply(401, ErrorBody(ForbiddenError))
  {
  }

  /** The owner, or a listed admin, with a valid new password gets 200 and the updated config is written. */
  lemma PrivilegedCallerSucceeds(env: Env, body: JsValue, name: string, config: AdminConfig)
    requires StorageType(env) != LocalStorageMode && !Nullish(body) && NewPassword(body).Some? && name != ""
    requires IsOwner(env, name) || User(name, AdminRole) in config.userConfig.users
    ensures Post(env, Request(Done(body), Some(AuthInfo(Some(name)))), Done(config), WithSetter(None)) ==
      Outcome(Response(200, OkBody), Mutated(WithHomepagePassword(config, NewPassword(body).value), true))
  {
    if !IsOwner(env, name) {
      var i :| 0 <= i < |config.userConfig.users| && config.userConfig.users[i] == User(name, AdminRole);
      assert IsAdmin(config.userConfig.users, name);
    }
  }

  /**
   * A credential that matched the previous `HomepagePassword` does not match the new one, when
   * the two differ. The gate component of this code base never reads `HomepagePassword` (it
   * compares with the local override or the runtime config), so this describes the stored
   * value only: the route itself revokes no browser session.
   */
  lemma RotationRevokesCredentials(env: Env, req: Request, config: AdminConfig, storage: Storage,
                                   oldPassword: string, auth: JsValue)
    requires Post(env, req, Done(config), storage).effect.Mutated?
    requires config.siteConfig.homepagePassword == Str(oldPassword)
    requires PasswordGate.Authorised(Str(oldPassword), auth)
    requires NewPassword(req.body.value) != Some(oldPassword)
    ensures !PasswordGate.Authorised(Post(env, req, Done(config), storage).effect.config.siteConfig.homepagePassword, auth)
  {
    PasswordGate.RotationRevokes(oldPassword, NewPassword(req.body.value).value, auth);
  }

  /** The config object `getConfig` hands out; the handler reassigns its `SiteConfig` in place. */
  class ConfigObject {
    var siteConfig: SiteConfig
    var userConfig: UserConfig
    var otherSections: map<string, JsValue>

    constructor (c: AdminConfig)
      ensures Value() == c
    {
      siteConfig, userConfig, otherSections := c.siteConfig, c.userConfig, c.otherSections;
    }

    function Value(): AdminConfig
      reads this
    {
      AdminConfig(siteConfig, userConfig, otherSections)
    }
  }

  /** A storage backend: whether it has `setAdminConfig`, how that call ends, and what it last stored. */
  class Backend {
    const hasSetter: bool
    const failure: Option<string>
    var stored: Option<AdminConfig>

    constructor (hasSetter: bool, failure: Option<string>, stored: Option<AdminConfig>)
      ensures this.hasSetter == hasSetter && this.failure == failure && this.stored == stored
    {
      this.hasSetter, this.failure, this.stored := hasSetter, failure, stored;
    }
  }

  function StorageOf(failure: Option<string>, backend: Backend?): Storage {
    if failure.Some? then StorageThrew(failure.value)
    else if backend == null then NoStorage
    else if !backend.hasSetter then WithoutSetter
    else WithSetter(backend.failure)
  }

  /**
   * The handler over the objects it touches. `loadFailure` and `storageFailure` are the errors
   * `getConfig` and `getStorage` threw, if any. The response is the one `Post` gives; the config object is updated exactly when `Post`
   * updates it (also when the write then fails), and the backend stores it only on a successful write.
   */
  method HandlePost(env: Env, req: Request, loadFailure: Option<string>, config: ConfigObject,
                    storageFailure: Option<string>, backend: Backend?)
    returns (response: Response)
    modifies config, backend
    ensures var load := if loadFailure.Some? then Threw(loadFailure.value) else Done(old(config.Value()));
      var out := Post(env, req, load, StorageOf(storageFailure, backend));
      && response == out.response
      && config.Value() == (if out.effect.Mutated? then out.effect.config else old(config.Value()))
      && (backend != null ==> backend.stored == if out.effect.Mutated? && out.effect.persisted then Some(config.Value()) else old(backend.stored))
  {
    if StorageType(env) == LocalStorageMode {
      return Response(400, ErrorBody(UnsupportedModeError));
    }
    if req.body.Threw? {
      return Response(500, ErrorDetails(FailureError, Message(req.body.message)));
    }
    var body := req.body.value;
    if Nullish(body) {
      return Response(500, ErrorDetails(FailureError, NullBodyTypeError));
    }
    var newPassword := Get(body, "newPassword");
    if !(newPassword.Str? && newPassword.s != "") {
      return Response(400, ErrorBody(EmptyPasswordError));
    }
    var name := Username(req.auth);
    if name.None? {
      return Response(401, ErrorBody(UnauthorizedError));
    }
    if loadFailure.Some? {
      return Response(500, ErrorDetails(FailureError, Message(loadFailure.value)));
    }
    if storageFailure.Some? {
      return Response(500, ErrorDetails(FailureError, Message(storageFailure.value)));
    }
    var isOwner := IsOwner(env, name.value);
    var isAdmin := IsAdmin(config.userConfig.users, name.value);
    if !isOwner && !isAdmin {
      return Response(401, ErrorBody(ForbiddenError));
    }
    config.siteConfig := config.siteConfig.(homepagePassword := Str(newPassword.s));
    if backend != null && backend.hasSetter {
      if backend.failure.Some? {
        return Response(500, ErrorDetails(FailureError, Message(backend.failure.value)));
      }
      backend.stored := Some(config.Value());
    }
    response := Response(200, OkBody);
  }
}
