/**
 * The site-wide password gate: which password is in force, whether the visitor's credential
 * opens the gate, and what pressing the confirm button does.
 */
module PasswordGate {
  import opened Wrappers
  import opened JsValues
  import opened JsStrings
  import opened LocalStorage
  import opened AuthCookie

  const OverrideProperty: string := "homepagePasswordOverride"
  const RuntimePasswordProperty: string := "HOMEPAGE_PASSWORD"
  const EmptyInputError: string := "密码不得为空"
  const WrongPasswordError: string := "密码错误"

  /** The override the local admin document holds, as long as the document is truthy and the override a string. */
  function StoredOverride(items: Items): Option<string> {
    match ReadJson(items, ConfigKey)
    case None => None
    case Some(doc) =>
      if Truthy(doc) && Get(doc, OverrideProperty).Str? then Some(Get(doc, OverrideProperty).s) else None
  }

  /** `window.RUNTIME_CONFIG?.HOMEPAGE_PASSWORD || ''` */
  function RuntimePassword(runtime: JsValue): (p: JsValue)
    ensures Truthy(p) || p == Str("")
    ensures Truthy(OptGet(runtime, RuntimePasswordProperty)) ==> p == OptGet(runtime, RuntimePasswordProperty)
    ensures !Truthy(OptGet(runtime, RuntimePasswordProperty)) ==> p == Str("")
  {
    Or(OptGet(runtime, RuntimePasswordProperty), Str(""))
  }

  /**
   * The password in force: the trimmed local override when it has non-blank content, otherwise
   * the runtime password, otherwise the empty string. The gate is off exactly when this is "".
   */
  function EffectivePassword(items: Items, runtime: JsValue): (p: JsValue)
    ensures Truthy(p) || p == Str("")
    ensures StoredOverride(items).Some? && !AllWhitespace(StoredOverride(items).value) ==>
      p == Str(Trim(StoredOverride(items).value)) && Truthy(p)
    ensures (StoredOverride(items).None? || AllWhitespace(StoredOverride(items).value)) ==>
      p == RuntimePassword(runtime)
  {
    var o := StoredOverride(items);
    TrimEmptyIff(if o.Some? then o.value else "");
    if o.Some? && Trim(o.value) != "" then Str(Trim(o.value)) else RuntimePassword(runtime)
  }

  /** A runtime password that is a string, or is not set, makes the effective password a string. */
  lemma EffectivePasswordIsString(items: Items, runtime: JsValue)
    requires OptGet(runtime, RuntimePasswordProperty).Str? || Nullish(OptGet(runtime, RuntimePasswordProperty))
    ensures EffectivePassword(items, runtime).Str?
  {
  }

  /** `auth?.password === homepagePassword` */
  predicate Authorised(password: JsValue, auth: JsValue) {
    StrictEquals(OptGet(auth, "password"), password)
  }

  /** With a string password, the credential opens the gate exactly when its `password` is that string. */
  lemma AuthorisedIff(p: string, auth: JsValue)
    ensures Authorised(Str(p), auth) <==> OptGet(auth, "password") == Str(p)
  {
    StrictEqualsString(OptGet(auth, "password"), p);
  }

  /** No credential (a missing, empty or undecodable cookie reads as `null`) never opens a live gate. */
  lemma MissingCredentialLocked(password: JsValue)
    requires Truthy(password)
    ensures !Authorised(password, Null)
  {
  }

  /**
   * Revocation by rotation: a credential that opened the gate under one password stops opening
   * it once the password is any other string.
   */
  lemma RotationRevokes(oldPassword: string, newPassword: string, auth: JsValue)
    requires Authorised(Str(oldPassword), auth) && oldPassword != newPassword
    ensures !Authorised(Str(newPassword), auth)
  {
    StrictEqualsString(OptGet(auth, "password"), oldPassword);
    StrictEqualsString(OptGet(auth, "password"), newPassword);
  }

  /** The JSON object `{password, role: 'user'}` the confirm handler writes to the `auth` cookie. */
  function Credential(password: string): JsValue {
    Obj(map["password" := Str(password), "role" := Str("user")])
  }

  datatype Submission = Accepted(credential: JsValue) | Refused(error: string)

  /**
   * The confirm button's decision: an empty input and a mismatch are refused with their own
   * messages; the exact password is accepted and mints a credential that opens the gate.
   */
  function Submit(password: JsValue, input: string): (r: Submission)
    ensures r.Accepted? <==> input != "" && password == Str(input)
    ensures input == "" ==> r == Refused(EmptyInputError)
    ensures input != "" && password != Str(input) ==> r == Refused(WrongPasswordError)
    ensures r.Accepted? ==> r.credential == Credential(input) && Authorised(password, r.credential)
  {
    if input == "" then Refused(EmptyInputError)
    else if !StrictEquals(Str(input), password) then Refused(WrongPasswordError)
    else Accepted(Credential(input))
  }

  /** A local override "secret1" is the password in force, whatever the runtime config says. */
  lemma OverrideScenario(items: Items, runtime: JsValue)
    requires StoredOverride(items) == Some("secret1")
    ensures EffectivePassword(items, runtime) == Str("secret1")
  {
    assert Trim("secret1") == "secret1" && !AllWhitespace("secret1") by { PlainText("secret1"); }
  }

  /** Under "secret1": submitting it is accepted, an empty input and "wrong" are refused with their messages. */
  lemma SubmitScenario()
    ensures Submit(Str("secret1"), "secret1") == Accepted(Credential("secret1"))
    ensures Submit(Str("secret1"), "") == Refused(EmptyInputError)
    ensures Submit(Str("secret1"), "wrong") == Refused(WrongPasswordError)
  {
  }

  /** A string that starts and ends with a non-space trims to itself and is not blank. */
  lemma PlainText(s: string)
    requires s != [] && !IsWhitespace(s[0]) && !IsWhitespace(s[|s| - 1])
    ensures Trim(s) == s && !AllWhitespace(s)
  {
    TrimOfTrimmed(s);
  }

  /** The gate component after mounting: its memoised password and its React state. */
  class Gate {
    const password: JsValue
    var input: string
    var error: string
    var authed: bool
    /** The credential this gate last wrote to the `auth` cookie, if any. */
    var issued: Option<JsValue>

    /**
     * Mounting: the password is resolved from the local document and the runtime config, and
     * the effect reads the cookie and sets `authed` when a password is set and the cookie's
     * credential matches it.
     */
    constructor (items: Items, runtime: JsValue, cookie: string,
                 uriDecode: string -> Option<string>, jsonParse: string -> Option<JsValue>)
      ensures password == EffectivePassword(items, runtime)
      ensures input == "" && error == "" && issued == None
      ensures authed <==> Truthy(password) && Authorised(password, AuthFromCookie(cookie, uriDecode, jsonParse))
    {
      var p := EffectivePassword(items, runtime);
      var ok := false;
      if Truthy(p) {
        var auth := GetAuthFromCookie(cookie, uriDecode, jsonParse);
        ok := StrictEquals(OptGet(auth, "password"), p);
      }
      password, authed := p, ok;
      input, error, issued := "", "", None;
    }

    /** The overlay is rendered only when a password is set and the visitor is not authorised. */
    predicate Shown()
      reads this
    {
      Truthy(password) && !authed
    }

    /** The input's `onChange`: the text is replaced and any error is cleared. */
    method Type(value: string)
      modifies this
      ensures input == value && error == ""
      ensures authed == old(authed) && issued == old(issued)
    {
      input := value;
      error := "";
    }

    /** The confirm button's `onClick`. */
    method Confirm()
      modifies this
      ensures input == old(input)
      ensures match Submit(password, old(input))
        case Refused(e) => error == e && authed == old(authed) && issued == old(issued)
        case Accepted(c) => authed && issued == Some(c) && error == old(error)
    {
      if input == "" {
        error := EmptyInputError;
        return;
      }
      if !StrictEquals(Str(input), password) {
        error := WrongPasswordError;
        return;
      }
      issued := Some(Credential(input));
      authed := true;
    }
  }
}
