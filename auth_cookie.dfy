/**
 * Reading the gate's credential back out of `document.cookie` (`getAuthFromCookie` in the gate
 * component): the cookie string is cut into `name=value` pairs, folded into a dictionary, and
 * the `auth` entry is URI-decoded and parsed as JSON.
 */
module AuthCookie {
  import opened Wrappers
  import opened JsValues
  import opened JsStrings

  datatype Pair = Pair(key: string, value: string)

  /** Cuts a trimmed piece at its first `=`, provided at least one character comes before it. */
  function SplitAtFirstEquals(t: string): (r: Option<Pair>)
    ensures r.Some? <==> '=' in t && t[0] != '='
    ensures r.Some? ==> r.value.key != "" && '=' !in r.value.key
    ensures r.Some? ==> t == r.value.key + "=" + r.value.value
  {
    var i := IndexOf(t, '=');
    assert i >= 0 ==> t == t[..i] + "=" + t[i + 1..];
    if i > 0 then Some(Pair(t[..i], t[i + 1..])) else None
  }

  /**
   * One `;`-separated piece of the cookie string, trimmed and cut at its first `=`. Only a piece
   * whose first `=` has at least one character before it yields a pair; the value keeps any
   * further `=` characters.
   */
  function CookiePair(part: string): Option<Pair> {
    SplitAtFirstEquals(Trim(part))
  }

  /** `if (i > 0) acc[key] = value`: one piece's contribution to the dictionary. */
  function Assign(acc: map<string, string>, piece: Option<Pair>): map<string, string> {
    match piece
    case None => acc
    case Some(p) => acc[p.key := p.value]
  }

  /** The dictionary the `reduce` builds from the pieces, left to right; a later key overwrites. */
  function Jar(parts: seq<string>): map<string, string>
  {
    if parts == [] then map[] else Assign(Jar(parts[..|parts| - 1]), CookiePair(parts[|parts| - 1]))
  }

  /** The dictionary of a whole cookie string. */
  function Cookies(cookie: string): map<string, string> {
    Jar(Split(cookie, ';'))
  }

  /** A name is in the dictionary exactly when some piece defines it. */
  lemma {:induction false} JarKeys(parts: seq<string>, k: string)
    ensures k in Jar(parts) <==>
      exists i :: 0 <= i < |parts| && CookiePair(parts[i]).Some? && CookiePair(parts[i]).value.key == k
  {
    if parts != [] {
      var init := parts[..|parts| - 1];
      JarKeys(init, k);
      if k in Jar(parts) && k !in Jar(init) {
        var last := |parts| - 1;
        assert CookiePair(parts[last]).Some? && CookiePair(parts[last]).value.key == k;
      }
      if exists i :: 0 <= i < |parts| && CookiePair(parts[i]).Some? && CookiePair(parts[i]).value.key == k {
        var i :| 0 <= i < |parts| && CookiePair(parts[i]).Some? && CookiePair(parts[i]).value.key == k;
        if i < |parts| - 1 {
          assert init[i] == parts[i];
        }
      }
    }
  }

  /** The piece defines the name `k`. */
  predicate Defines(part: string, k: string) {
    CookiePair(part).Some? && CookiePair(part).value.key == k
  }

  /** The value kept for a name is the one of the LAST piece that defines it. */
  lemma JarLastWins(parts: seq<string>, i: nat, k: string, v: string)
    requires i < |parts| && CookiePair(parts[i]) == Some(Pair(k, v))
    requires forall j :: i < j < |parts| ==> !Defines(parts[j], k)
    ensures k in Jar(parts) && Jar(parts)[k] == v
  {
    JarSnoc(parts, i);
    JarKeepsFrom(parts, i + 1, k, v);
  }

  /** An entry made by the first `n` pieces survives the later pieces that do not define its name. */
  lemma {:induction false} JarKeepsFrom(parts: seq<string>, n: nat, k: string, v: string)
    requires n <= |parts|
    requires k in Jar(parts[..n]) && Jar(parts[..n])[k] == v
    requires forall j :: n <= j < |parts| ==> !Defines(parts[j], k)
    ensures k in Jar(parts) && Jar(parts)[k] == v
    decreases |parts| - n
  {
    if n == |parts| {
      assert parts[..n] == parts;
    } else {
      assert !Defines(parts[n], k);
      JarSnoc(parts, n);
      AssignKeeps(Jar(parts[..n]), CookiePair(parts[n]), k);
      JarKeepsFrom(parts, n + 1, k, v);
    }
  }

  /** A piece that does not define `k` leaves the entry for `k` alone. */
  lemma AssignKeeps(acc: map<string, string>, piece: Option<Pair>, k: string)
    requires piece.None? || piece.value.key != k
    ensures k in acc ==> k in Assign(acc, piece) && Assign(acc, piece)[k] == acc[k]
  {
  }

  /** A cookie string holding a single well-formed pair parses to exactly that pair. */
  lemma SinglePair(k: string, v: string)
    requires k != "" && '=' !in k && ';' !in k && ';' !in v
    requires !IsWhitespace(k[0]) && (v != "" ==> !IsWhitespace(v[|v| - 1]))
    ensures Cookies(k + "=" + v) == map[k := v]
  {
    var text := k + "=" + v;
    assert ';' !in text;
    assert Split(text, ';') == [text];
    PairOfTrimmed(k, v);
    JarOfOne(text, Pair(k, v));
  }

  lemma PairOfTrimmed(k: string, v: string)
    requires k != "" && '=' !in k
    requires !IsWhitespace(k[0]) && (v != "" ==> !IsWhitespace(v[|v| - 1]))
    ensures CookiePair(k + "=" + v) == Some(Pair(k, v))
  {
    var text := k + "=" + v;
    TrimOfTrimmed(text);
    IndexOfAfter(k, '=', v);
    assert text[..|k|] == k && text[|k| + 1..] == v;
  }

  lemma JarOfOne(part: string, p: Pair)
    requires CookiePair(part) == Some(p)
    ensures Jar([part]) == map[p.key := p.value]
  {
    var none: seq<string> := [];
    assert [part][..0] == none;
  }

  /** Adding one more piece to the fold. */
  lemma JarSnoc(parts: seq<string>, n: nat)
    requires n < |parts|
    ensures Jar(parts[..n + 1]) == Assign(Jar(parts[..n]), CookiePair(parts[n]))
  {
    assert parts[..n + 1][..n] == parts[..n] && parts[..n + 1][n] == parts[n];
  }

  /**
   * The `reduce` of `getAuthFromCookie`: the pieces are walked in order and each well-formed one
   * is assigned into the accumulating dictionary.
   */
  method ParseCookies(cookie: string) returns (jar: map<string, string>)
    ensures jar == Cookies(cookie)
  {
    var parts := Split(cookie, ';');
    jar := map[];
    for n := 0 to |parts|
      invariant jar == Jar(parts[..n])
    {
      var trimmed := Trim(parts[n]);
      var i := IndexOf(trimmed, '=');
      JarSnoc(parts, n);
      if i > 0 {
        jar := jar[trimmed[..i] := trimmed[i + 1..]];
      }
    }
    assert parts[..|parts|] == parts;
  }

  /**
   * The `try` body after `if (!raw) return null`, with `decodeURIComponent` and `JSON.parse` as
   * parameters (None where they throw): the entry is decoded, decoded a second time when the
   * first decoding still holds `%`, and parsed; anything that throws gives `null`.
   */
  function ReadEntry(raw: string, uriDecode: string -> Option<string>,
                     jsonParse: string -> Option<JsValue>): (auth: JsValue)
    ensures auth == Null || exists text :: jsonParse(text) == Some(auth)
  {
    match uriDecode(raw)
    case None => Null
    case Some(once) =>
      var decoded := if '%' in once then uriDecode(once) else Some(once);
      match decoded
      case None => Null
      case Some(text) =>
        match jsonParse(text)
        case None => Null
        case Some(v) => v
  }

  /** What `getAuthFromCookie` returns: `null` without a non-empty `auth` entry, else that entry read. */
  function AuthFromCookie(cookie: string, uriDecode: string -> Option<string>,
                          jsonParse: string -> Option<JsValue>): (auth: JsValue)
    ensures ("auth" !in Cookies(cookie) || Cookies(cookie)["auth"] == "") ==> auth == Null
    ensures auth == Null || exists text :: jsonParse(text) == Some(auth)
  {
    var jar := Cookies(cookie);
    if "auth" !in jar || jar["auth"] == "" then Null else ReadEntry(jar["auth"], uriDecode, jsonParse)
  }

  /**
   * The success path of reading an entry: when `raw` decodes to `once`, and then to `text` (a
   * second decoding when `once` still holds `%`, none otherwise), the result is what
   * `JSON.parse` makes of `text`, or `null` when that throws.
   */
  lemma ReadEntryDecodes(raw: string, uriDecode: string -> Option<string>,
                         jsonParse: string -> Option<JsValue>, once: string, text: string)
    requires uriDecode(raw) == Some(once)
    requires if '%' in once then uriDecode(once) == Some(text) else text == once
    ensures jsonParse(text).Some? ==> ReadEntry(raw, uriDecode, jsonParse) == jsonParse(text).value
    ensures jsonParse(text).None? ==> ReadEntry(raw, uriDecode, jsonParse) == Null
  {
  }

  /** An entry whose first or second decoding throws reads as `null`. */
  lemma ReadEntryUndecodable(raw: string, uriDecode: string -> Option<string>,
                             jsonParse: string -> Option<JsValue>)
    ensures uriDecode(raw).None? ==> ReadEntry(raw, uriDecode, jsonParse) == Null
    ensures (uriDecode(raw).Some? && '%' in uriDecode(raw).value && uriDecode(uriDecode(raw).value).None?) ==>
      ReadEntry(raw, uriDecode, jsonParse) == Null
  {
  }

  /** With a non-empty `auth` entry, the cookie's credential is that entry read. */
  lemma AuthFromCookieReads(cookie: string, uriDecode: string -> Option<string>,
                            jsonParse: string -> Option<JsValue>)
    requires "auth" in Cookies(cookie) && Cookies(cookie)["auth"] != ""
    ensures AuthFromCookie(cookie, uriDecode, jsonParse) == ReadEntry(Cookies(cookie)["auth"], uriDecode, jsonParse)
  {
  }

  /** `getAuthFromCookie()` over an explicit cookie string and explicit decoders. */
  method GetAuthFromCookie(cookie: string, uriDecode: string -> Option<string>,
                           jsonParse: string -> Option<JsValue>) returns (auth: JsValue)
    ensures auth == AuthFromCookie(cookie, uriDecode, jsonParse)
  {
    var cookies := ParseCookies(cookie);
    if "auth" !in cookies || cookies["auth"] == "" {
      return Null;
    }
    var decoded := uriDecode(cookies["auth"]);
    if decoded.None? {
      return Null;
    }
    if '%' in decoded.value {
      decoded := uriDecode(decoded.value);
      if decoded.None? {
        return Null;
      }
    }
    var parsed := jsonParse(decoded.value);
    auth := if parsed.Some? then parsed.value else Null;
  }
}
