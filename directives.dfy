/**
 * The directive catalog of the policy engine and the options record it is
 * driven by (lib/index.js:10-79).
 */
module Directives {

  /** Directives whose value is a list of sources, in serialization order. */
  const ArrayValues: seq<string> := [
    "baseUri", "childSrc", "connectSrc", "defaultSrc", "fontSrc", "formAction",
    "frameAncestors", "frameSrc", "imgSrc", "manifestSrc", "mediaSrc", "objectSrc",
    "pluginTypes", "requireSriFor", "sandbox", "scriptSrc", "styleSrc", "xhrSrc"
  ]

  /** Directives whose value is a single string. */
  const StringValues: seq<string> := ["reportUri", "reflectedXss"]

  /** Every directive, list-valued ones first: the order clauses are emitted in. */
  const DirectiveNames: seq<string> := ArrayValues + StringValues

  /** Camel-case option key to wire token; `sandbox` has no entry. */
  const DirectiveMap: map<string, string> := map[
    "baseUri" := "base-uri",
    "childSrc" := "child-src",
    "connectSrc" := "connect-src",
    "defaultSrc" := "default-src",
    "fontSrc" := "font-src",
    "formAction" := "form-action",
    "frameAncestors" := "frame-ancestors",
    "frameSrc" := "frame-src",
    "imgSrc" := "img-src",
    "manifestSrc" := "manifest-src",
    "mediaSrc" := "media-src",
    "objectSrc" := "object-src",
    "pluginTypes" := "plugin-types",
    "reflectedXss" := "reflected-xss",
    "reportUri" := "report-uri",
    "requireSriFor" := "require-sri-for",
    "scriptSrc" := "script-src",
    "styleSrc" := "style-src",
    "xhrSrc" := "xhr-src"
  ]

  /** The three header names the engine can choose between. */
  const AllHeaders: seq<string> := ["Content-Security-Policy", "X-Content-Security-Policy", "X-WebKit-CSP"]

  /** Bare keywords that must be written in single quotes on the wire. */
  const NeedQuotes: seq<string> := [
    "self", "none", "unsafe-inline", "unsafe-eval", "inline-script", "eval-script", "strict-dynamic"
  ]

  /** The nonce-bearing directives and the `generateNonces` selector naming each. */
  const KeyToConfigMap: map<string, string> := map["scriptSrc" := "script", "styleSrc" := "style"]

  /** The wire token of a directive: its catalog entry, or the key itself (`directiveMap[key] || key`). */
  function WireName(key: string): (w: string)
    ensures key in DirectiveMap ==> w == DirectiveMap[key]
    ensures key !in DirectiveMap ==> w == key
  {
    if key in DirectiveMap then DirectiveMap[key] else key
  }

  /** The value of one directive in an options record. */
  datatype Value =
    | List(items: seq<string>)  // a list of sources
    | Str(text: string)         // reportUri, reflectedXss
    | Flag(on: bool)            // sandbox: true

  /** The `generateNonces` setting as JavaScript sees it: absent, a boolean or a string. */
  datatype NonceSetting = Unset | Bool(on: bool) | Text(name: string)

  /** An options record: the directive values plus the three scalar settings. */
  datatype Options = Options(
    directives: map<string, Value>,
    reportOnly: bool,
    oldSafari: bool,
    generateNonces: NonceSetting)

  /** JavaScript truthiness of a present value: every array is truthy, the empty string and false are not. */
  predicate Truthy(v: Value)
  {
    match v
    case List(_) => true
    case Str(s) => s != ""
    case Flag(b) => b
  }

  /** The directive `key` is present with a truthy value (`options[key]` passes `if (!options[key])`). */
  predicate IsSet(d: map<string, Value>, key: string)
  {
    key in d && Truthy(d[key])
  }

  /** The shape a value may have under `key` once the schema accepted it. */
  predicate Shaped(key: string, v: Value)
  {
    (key in ArrayValues ==> v.List? || (key == "sandbox" && v == Flag(true)))
    && (key in StringValues ==> v.Str?)
  }

  /**
   * What the engine relies on the schema for: list directives hold arrays
   * (or `sandbox: true`) and string directives hold strings. The code calls
   * `.map`, `.filter` and `.join` on list values without further checks.
   */
  predicate WellShaped(d: map<string, Value>)
  {
    forall k :: k in d ==> Shaped(k, d[k])
  }

  /** Facts about the catalog the rest of the model relies on. */
  lemma CatalogFacts()
    ensures |ArrayValues| == 18 && |StringValues| == 2 && |DirectiveNames| == 20
    ensures forall i, j :: 0 <= i < j < |DirectiveNames| ==> DirectiveNames[i] != DirectiveNames[j]
    ensures forall k :: k in DirectiveNames && k != "sandbox" ==> k in DirectiveMap
    ensures "sandbox" !in DirectiveMap && WireName("sandbox") == "sandbox"
    ensures forall k :: k in ArrayValues ==> k !in StringValues
    ensures KeyToConfigMap.Keys == {"scriptSrc", "styleSrc"}
  {
    CatalogDistinct();
    CatalogMapped();
    CatalogDisjoint();
  }

  /** No directive is listed twice. */
  lemma CatalogDistinct()
    ensures forall i, j :: 0 <= i < j < |DirectiveNames| ==> DirectiveNames[i] != DirectiveNames[j]
  {
  }

  /** Every directive but sandbox has a catalog entry. */
  lemma CatalogMapped()
    ensures forall k :: k in DirectiveNames && k != "sandbox" ==> k in DirectiveMap
  {
  }

  /** No directive is both list-valued and string-valued. */
  lemma CatalogDisjoint()
    ensures forall k :: k in ArrayValues ==> k !in StringValues
  {
  }

  /** A wire token is non-empty and contains neither a space nor a `;`. */
  predicate PlainToken(w: string)
  {
    |w| > 0 && ' ' !in w && ';' !in w
  }

  lemma WireNamesPlainFrom0(i: int)
    requires 0 <= i < 5
    ensures PlainToken(WireName(DirectiveNames[i]))
  {
    if i == 0 { assert WireName(DirectiveNames[i]) == "base-uri"; }
    else if i == 1 { assert WireName(DirectiveNames[i]) == "child-src"; }
    else if i == 2 { assert WireName(DirectiveNames[i]) == "connect-src"; }
    else if i == 3 { assert WireName(DirectiveNames[i]) == "default-src"; }
    else { assert WireName(DirectiveNames[i]) == "font-src"; }
  }

  lemma WireNamesPlainFrom5(i: int)
    requires 5 <= i < 10
    ensures PlainToken(WireName(DirectiveNames[i]))
  {
    if i == 5 { assert WireName(DirectiveNames[i]) == "form-action"; }
    else if i == 6 { assert WireName(DirectiveNames[i]) == "frame-ancestors"; }
    else if i == 7 { assert WireName(DirectiveNames[i]) == "frame-src"; }
    else if i == 8 { assert WireName(DirectiveNames[i]) == "img-src"; }
    else { assert WireName(DirectiveNames[i]) == "manifest-src"; }
  }

  lemma WireNamesPlainFrom10(i: int)
    requires 10 <= i < 15
    ensures PlainToken(WireName(DirectiveNames[i]))
  {
    if i == 10 { assert WireName(DirectiveNames[i]) == "media-src"; }
    else if i == 11 { assert WireName(DirectiveNames[i]) == "object-src"; }
    else if i == 12 { assert WireName(DirectiveNames[i]) == "plugin-types"; }
    else if i == 13 { assert WireName(DirectiveNames[i]) == "require-sri-for"; }
    else { assert WireName(DirectiveNames[i]) == "sandbox"; }
  }

  lemma WireNamesPlainFrom15(i: int)
    requires 15 <= i < 20
    ensures PlainToken(WireName(DirectiveNames[i]))
  {
    if i == 15 { assert WireName(DirectiveNames[i]) == "script-src"; }
    else if i == 16 { assert WireName(DirectiveNames[i]) == "style-src"; }
    else if i == 17 { assert WireName(DirectiveNames[i]) == "xhr-src"; }
    else if i == 18 { assert WireName(DirectiveNames[i]) == "report-uri"; }
    else { assert WireName(DirectiveNames[i]) == "reflected-xss"; }
  }

  /** Wire tokens are non-empty and contain neither a space nor a `;`. */
  lemma WireNamesPlain(key: string)
    requires key in DirectiveNames
    ensures PlainToken(WireName(key))
  {
    var i :| 0 <= i < |DirectiveNames| && DirectiveNames[i] == key;
    if i < 5 { WireNamesPlainFrom0(i); }
    else if i < 10 { WireNamesPlainFrom5(i); }
    else if i < 15 { WireNamesPlainFrom10(i); }
    else { WireNamesPlainFrom15(i); }
  }
}
