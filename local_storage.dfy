/**
 * The browser's localStorage as the two client components see it. An item is the text stored
 * under a key; the model keeps only what that text means to `JSON.parse`, taking the JSON text
 * codec to be ideal (parsing what `JSON.stringify` wrote gives the same value back).
 */
module LocalStorage {
  import opened Wrappers
  import opened JsValues

  /** The key under which the admin panel keeps its document and from which the gate reads it. */
  const ConfigKey: string := "moontv_admin_local_config"

  datatype Item =
    | EmptyText          // the empty string: falsy, so it is treated like a missing item
    | Unparseable        // text on which `JSON.parse` throws
    | Parsed(doc: JsValue)

  type Items = map<string, Item>

  /**
   * `const raw = localStorage.getItem(key); if (raw) ... JSON.parse(raw)` inside a `try`:
   * the parsed document, or None when the item is missing, empty or not JSON.
   */
  function ReadJson(items: Items, key: string): (r: Option<JsValue>)
    ensures r.Some? <==> key in items && items[key].Parsed?
    ensures r.Some? ==> r.value == items[key].doc
  {
    if key in items && items[key].Parsed? then Some(items[key].doc) else None
  }

  /** The browser's storage object: one mutable map of items. */
  class Store {
    var items: Items

    constructor (initial: Items)
      ensures items == initial
    {
      items := initial;
    }

    /** `localStorage.setItem(key, JSON.stringify(doc))` */
    method SetJson(key: string, doc: JsValue)
      modifies this
      ensures items == old(items)[key := Parsed(doc)]
    {
      items := items[key := Parsed(doc)];
    }
  }
}
