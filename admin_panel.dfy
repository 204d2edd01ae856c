/**
 * The static admin panel: a six-field local configuration record kept in React state, loaded
 * from and saved to localStorage, and exported to / imported from a flat JSON document.
 */
module AdminPanel {
  import opened Wrappers
  import opened JsValues
  import opened JsStrings
  import opened LocalStorage
  import PasswordGate

  /**
   * `LocalAdminConfig`. Its fields are declared strings and a boolean, but a loaded or imported
   * document is cast without any check, so each field holds whatever value the JSON had.
   */
  datatype LocalConfig = LocalConfig(
    siteName: JsValue,
    announcement: JsValue,
    imageProxy: JsValue,
    doubanProxy: JsValue,
    disableYellow: JsValue,
    homepagePasswordOverride: JsValue)

  /** The record as its type declares it. */
  predicate WellTyped(c: LocalConfig) {
    c.siteName.Str? && c.announcement.Str? && c.imageProxy.Str? && c.doubanProxy.Str? &&
    c.disableYellow.Bool? && c.homepagePasswordOverride.Str?
  }

  /** A runtime setting that is either unset (falsy) or a string. */
  predicate TextOrUnset(v: JsValue) {
    !Truthy(v) || v.Str?
  }

  /** The runtime config's three text settings are strings or unset. */
  predicate RuntimeTexts(runtime: JsValue) {
    Truthy(runtime) ==>
      TextOrUnset(Get(runtime, "SITE_NAME")) && TextOrUnset(Get(runtime, "IMAGE_PROXY")) &&
      TextOrUnset(Get(runtime, "DOUBAN_PROXY"))
  }

  /**
   * `loadLocal`'s fallback, built from `window.RUNTIME_CONFIG || {}`: the site name defaults to
   * "MoonTV", the proxies to "", the yellow filter flag to false, and announcement and password
   * override are always "".
   */
  function Defaults(runtime: JsValue): (c: LocalConfig)
    ensures c.announcement == Str("") && c.homepagePasswordOverride == Str("")
    ensures c.disableYellow.Bool?
    ensures Truthy(c.siteName)
    ensures Truthy(runtime) && Truthy(Get(runtime, "SITE_NAME")) ==> c.siteName == Get(runtime, "SITE_NAME")
    ensures !(Truthy(runtime) && Truthy(Get(runtime, "SITE_NAME"))) ==> c.siteName == Str("MoonTV")
    ensures Truthy(runtime) ==>
      c.imageProxy == Or(Get(runtime, "IMAGE_PROXY"), Str("")) &&
      c.doubanProxy == Or(Get(runtime, "DOUBAN_PROXY"), Str("")) &&
      c.disableYellow == Bool(Truthy(Get(runtime, "DISABLE_YELLOW_FILTER")))
    ensures !Truthy(runtime) ==> c == LocalConfig(Str("MoonTV"), Str(""), Str(""), Str(""), Bool(false), Str(""))
    ensures RuntimeTexts(runtime) ==> WellTyped(c)
    ensures Complete(c)
  {
    var r := Or(runtime, Obj(map[]));
    LocalConfig(
      Or(Get(r, "SITE_NAME"), Str("MoonTV")),
      Str(""),
      Or(Get(r, "IMAGE_PROXY"), Str("")),
      Or(Get(r, "DOUBAN_PROXY"), Str("")),
      ToBoolean(Or(Get(r, "DISABLE_YELLOW_FILTER"), Bool(false))),
      Str(""))
  }

  /** `JSON.parse(raw) as LocalAdminConfig`: the record's fields read off the stored document. */
  function FromDocument(doc: JsValue): LocalConfig {
    LocalConfig(
      OptGet(doc, "siteName"), OptGet(doc, "announcement"), OptGet(doc, "imageProxy"),
      OptGet(doc, "doubanProxy"), OptGet(doc, "disableYellow"), OptGet(doc, "homepagePasswordOverride"))
  }

  /** The document `save` stores: the record under its own (camelCase) property names. */
  function ToDocument(c: LocalConfig): JsValue {
    Obj(map[
      "siteName" := c.siteName, "announcement" := c.announcement, "imageProxy" := c.imageProxy,
      "doubanProxy" := c.doubanProxy, "disableYellow" := c.disableYellow,
      "homepagePasswordOverride" := c.homepagePasswordOverride])
  }

  /** `loadLocal()`: the stored document when there is a parseable one, the defaults otherwise. */
  function LoadLocal(items: Items, runtime: JsValue): (c: LocalConfig)
    ensures ReadJson(items, ConfigKey).None? ==> c == Defaults(runtime)
  {
    match ReadJson(items, ConfigKey)
    case Some(doc) => FromDocument(doc)
    case None => Defaults(runtime)
  }

  /** Saving and then loading gives back the saved record, whatever else the storage holds. */
  lemma SaveLoadRoundTrip(items: Items, runtime: JsValue, c: LocalConfig)
    ensures LoadLocal(items[ConfigKey := Parsed(ToDocument(c))], runtime) == c
  {
  }

  /** The flat keys of the exported document. */
  const ExportKeys: set<string> :=
    {"siteName", "announcement", "image_proxy", "douban_proxy", "disable_yellow", "homepage_password"}

  /** `exportJson`'s document: two fields keep their names, the other four are renamed to snake_case. */
  function Export(c: LocalConfig): (doc: map<string, JsValue>)
    ensures doc.Keys == ExportKeys
    ensures doc["siteName"] == c.siteName && doc["announcement"] == c.announcement
    ensures doc["image_proxy"] == c.imageProxy && doc["douban_proxy"] == c.doubanProxy
    ensures doc["disable_yellow"] == c.disableYellow && doc["homepage_password"] == c.homepagePasswordOverride
  {
    map[
      "siteName" := c.siteName, "announcement" := c.announcement, "image_proxy" := c.imageProxy,
      "douban_proxy" := c.doubanProxy, "disable_yellow" := c.disableYellow,
      "homepage_password" := c.homepagePasswordOverride]
  }

  /** A field of an imported record: the document's value when it is not nullish, else the previous one. */
  predicate TakenOrKept(now: JsValue, given: JsValue, previous: JsValue) {
    if Nullish(given) then now == previous else now == given
  }

  /**
   * The `setCfg` updater of `importJson`: a per-field `??` merge of the parsed document over the
   * previous record, with `disable_yellow` coerced by `Boolean`. Reading a property of a `null`
   * document throws, which the model reports as None.
   */
  function Import(prev: LocalConfig, data: JsValue): (r: Option<LocalConfig>)
    ensures r.None? <==> Nullish(data)
    ensures r.Some? ==>
      TakenOrKept(r.value.siteName, Get(data, "siteName"), prev.siteName) &&
      TakenOrKept(r.value.announcement, Get(data, "announcement"), prev.announcement) &&
      TakenOrKept(r.value.imageProxy, Get(data, "image_proxy"), prev.imageProxy) &&
      TakenOrKept(r.value.doubanProxy, Get(data, "douban_proxy"), prev.doubanProxy) &&
      TakenOrKept(r.value.homepagePasswordOverride, Get(data, "homepage_password"), prev.homepagePasswordOverride)
    ensures r.Some? ==> r.value.disableYellow.Bool?
    ensures r.Some? ==> (r.value.disableYellow.b <==>
      Truthy(if Nullish(Get(data, "disable_yellow")) then prev.disableYellow else Get(data, "disable_yellow")))
  {
    if Nullish(data) then None
    else
      Some(LocalConfig(
        Coalesce(Get(data, "siteName"), prev.siteName),
        Coalesce(Get(data, "announcement"), prev.announcement),
        Coalesce(Get(data, "image_proxy"), prev.imageProxy),
        Coalesce(Get(data, "douban_proxy"), prev.doubanProxy),
        ToBoolean(Coalesce(Get(data, "disable_yellow"), prev.disableYellow)),
        Coalesce(Get(data, "homepage_password"), prev.homepagePasswordOverride)))
  }

  /** No field is nullish and the flag is a boolean: the records that survive an export and import. */
  predicate Complete(c: LocalConfig) {
    !Nullish(c.siteName) && !Nullish(c.announcement) && !Nullish(c.imageProxy) &&
    !Nullish(c.doubanProxy) && c.disableYellow.Bool? && !Nullish(c.homepagePasswordOverride)
  }

  /** Importing an exported record restores it, whatever the previous record was. */
  lemma ImportExportRoundTrip(prev: LocalConfig, c: LocalConfig)
    requires Complete(c)
    ensures Import(prev, Obj(Export(c))) == Some(c)
  {
  }

  /**
   * A nullish field is dropped by the export/import pair: its previous value comes back. This is
   * why the round trip needs every field set.
   */
  lemma ImportExportNullishField(prev: LocalConfig, c: LocalConfig)
    requires Nullish(c.siteName)
    ensures Import(prev, Obj(Export(c))).value.siteName == prev.siteName
  {
  }

  /** A document with none of the six keys leaves a record with a boolean flag unchanged. */
  lemma ImportWithoutKeys(prev: LocalConfig, data: JsValue)
    requires !Nullish(data) && prev.disableYellow.Bool?
    requires forall k :: k in ExportKeys ==> Nullish(Get(data, k))
    ensures Import(prev, data) == Some(prev)
  {
  }

  /** Importing the same document twice is importing it once. */
  lemma ImportIdempotent(prev: LocalConfig, data: JsValue)
    requires !Nullish(data)
    ensures Import(Import(prev, data).value, data) == Import(prev, data)
  {
  }

  /** A document whose present fields have the declared types keeps a well-typed record well-typed. */
  lemma ImportKeepsWellTyped(prev: LocalConfig, data: JsValue)
    requires WellTyped(prev) && !Nullish(data)
    requires forall k :: k in ExportKeys - {"disable_yellow"} ==> Nullish(Get(data, k)) || Get(data, k).Str?
    ensures WellTyped(Import(prev, data).value)
  {
  }

  /** A saved non-blank override is the password the gate then enforces, trimmed. */
  lemma SavedOverrideDrivesGate(items: Items, runtime: JsValue, c: LocalConfig, s: string)
    requires c.homepagePasswordOverride == Str(s) && !AllWhitespace(s)
    ensures PasswordGate.EffectivePassword(items[ConfigKey := Parsed(ToDocument(c))], runtime) == Str(Trim(s))
  {
  }

  /** A saved blank or non-string override leaves the gate on the runtime password. */
  lemma SavedBlankOverrideDefers(items: Items, runtime: JsValue, c: LocalConfig)
    requires !c.homepagePasswordOverride.Str? || AllWhitespace(c.homepagePasswordOverride.s)
    ensures PasswordGate.EffectivePassword(items[ConfigKey := Parsed(ToDocument(c))], runtime) ==
      PasswordGate.RuntimePassword(runtime)
  {
  }

  /** The panel page: its React state `cfg` (null until mounted) over the browser's storage. */
  class AdminPage {
    const runtime: JsValue
    const storage: Store
    var cfg: Option<LocalConfig>

    constructor (runtime: JsValue, storage: Store)
      ensures this.runtime == runtime && this.storage == storage && cfg == None
    {
      this.runtime := runtime;
      this.storage := storage;
      cfg := None;
    }

    /** The mount effect: `setCfg(loadLocal())`. */
    method Mount()
      modifies this
      ensures cfg == Some(LoadLocal(storage.items, runtime))
    {
      cfg := Some(LoadLocal(storage.items, runtime));
    }

    /** `save`: nothing before the record is loaded, else the record is stored under the panel's key. */
    method Save()
      modifies storage
      ensures cfg.None? ==> storage.items == old(storage.items)
      ensures cfg.Some? ==> storage.items == old(storage.items)[ConfigKey := Parsed(ToDocument(cfg.value))]
      ensures cfg.Some? ==> LoadLocal(storage.items, runtime) == cfg.value
    {
      if cfg.None? {
        return;
      }
      storage.SetJson(ConfigKey, ToDocument(cfg.value));
      SaveLoadRoundTrip(old(storage.items), runtime, cfg.value);
    }

    /** `exportJson`: the document offered for download, none before the record is loaded. */
    method ExportJson() returns (doc: Option<map<string, JsValue>>)
      ensures doc.None? <==> cfg.None?
      ensures doc.Some? ==> doc.value == Export(cfg.value)
    {
      if cfg.None? {
        return None;
      }
      doc := Some(Export(cfg.value));
    }

    /**
     * `importJson` given what `JSON.parse` made of the file (None when reading or parsing threw,
     * which the `catch` swallows): the record is replaced by the merge over the previous record,
     * or over `loadLocal()` when none is loaded yet.
     */
    method ImportJson(parsed: Option<JsValue>)
      modifies this
      ensures parsed.None? ==> cfg == old(cfg)
      ensures parsed.Some? ==>
        var base := if old(cfg).Some? then old(cfg).value else LoadLocal(storage.items, runtime);
        cfg == match Import(base, parsed.value) case Some(c) => Some(c) case None => old(cfg)
    {
      if parsed.None? {
        return;
      }
      var base := if cfg.Some? then cfg.value else LoadLocal(storage.items, runtime);
      var merged := Import(base, parsed.value);
      if merged.Some? {
        cfg := merged;
      }
    }
  }
}
