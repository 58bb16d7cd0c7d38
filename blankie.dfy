/**
 * The plugin's two request hooks (lib/index.js:209-339) and its
 * registration (lib/index.js:387-404): where the options of a request come
 * from, when a request is left alone, the nonces stored on the request
 * before the handler runs, and the header set on the response.
 */
module Blankie {
  import opened Wrappers
  import opened Directives
  import opened Strings
  import opened Normalizer
  import opened Nonces
  import opened Serializer
  import opened Browsers
  import opened Layout
  import opened Compat

  /** What `register` is given: an options object (as the schema judged it) or a callback. */
  datatype PluginConfig = StaticConfig(schemaOut: Result<Options, string>) | CallbackConfig

  /** The registered plugin: global options, or a callback asked for options on every request. */
  datatype Plugin = StaticPlugin(global: Options) | CallbackPlugin

  /** `register`: a callback is kept; options are validated and registration fails on invalid ones. */
  function Register(cfg: PluginConfig): (r: Result<Plugin, string>)
    ensures r.Err? <==> cfg.StaticConfig? && cfg.schemaOut.Err?
    ensures r.Ok? ==> (r.value.CallbackPlugin? <==> cfg.CallbackConfig?)
  {
    match cfg
    case CallbackConfig => Ok(CallbackPlugin)
    case StaticConfig(s) =>
      match Validated(s)
      case Err(e) => Err(e)
      case Ok(o) => Ok(StaticPlugin(o))
  }

  /** Global options are of the shape the serializer needs. */
  predicate PluginShaped(p: Plugin)
  {
    p.StaticPlugin? ==> WellShaped(p.global.directives)
  }

  /**
   * Registration throws exactly on options the schema rejects; accepted
   * options are kept quoted, keep their shape and hold no bare keyword.
   */
  lemma RegisterCases(cfg: PluginConfig)
    requires cfg.StaticConfig? ==> SchemaShaped(cfg.schemaOut)
    ensures Register(cfg).Err? <==> cfg.StaticConfig? && cfg.schemaOut.Err?
    ensures cfg.CallbackConfig? ==> Register(cfg) == Ok(CallbackPlugin)
    ensures cfg.StaticConfig? && cfg.schemaOut.Ok? ==>
      var o := cfg.schemaOut.value;
      Register(cfg) == Ok(StaticPlugin(o.(directives := Normalized(o.directives))))
      && PluginShaped(Register(cfg).value)
    ensures Register(cfg).Ok? && Register(cfg).value.StaticPlugin? ==>
      var d := Register(cfg).value.global.directives;
      forall k, i :: k in d && k in ArrayValues && d[k].List? && 0 <= i < |d[k].items| ==> d[k].items[i] !in NeedQuotes
  {
    if cfg.StaticConfig? && cfg.schemaOut.Ok? {
      var o := cfg.schemaOut.value;
      NormalizedWellShaped(o.directives);
      NoBareKeywords(o.directives);
    }
  }

  /** `route.settings.plugins.blankie`: `false`, absent, or an options object (as the schema judged it). */
  datatype RouteSetting = RouteDisabled | RouteInherit | RouteOverride(schemaOut: Result<Options, string>)

  predicate RouteShaped(r: RouteSetting)
  {
    r.RouteOverride? ==> SchemaShaped(r.schemaOut)
  }

  /** Why a hook left the request alone. */
  datatype SkipReason =
    | Preflight              // an OPTIONS request
    | RouteOff               // the route sets the plugin to false
    | NotHtml                // a content type other than text/html is set
    | InvalidRouteConfig     // the route's options fail validation (logged)
    | InvalidCallbackConfig  // the callback's options fail validation (logged)

  /** The test both hooks start with. */
  function Bypass(verb: string, route: RouteSetting): Option<SkipReason>
  {
    if verb == "options" then Some(Preflight)
    else if route == RouteDisabled then Some(RouteOff)
    else None
  }

  /**
   * Where a request's options come from: the route's own, else the
   * callback's (`callbackOut` is what the schema made of the callback's answer
   * for this call), else a copy of the global ones.
   */
  function ResolveOptions(plugin: Plugin, route: RouteSetting, callbackOut: Result<Options, string>): Result<Options, SkipReason>
  {
    if route.RouteOverride? then
      match Validated(route.schemaOut)
      case Err(_) => Err(InvalidRouteConfig)
      case Ok(o) => Ok(o)
    else if plugin.CallbackPlugin? then
      match Validated(callbackOut)
      case Err(_) => Err(InvalidCallbackConfig)
      case Ok(o) => Ok(o)
    else Ok(plugin.global)
  }

  /**
   * Precedence: a route's options override the callback and the global
   * options; the callback overrides the global options; a rejected
   * configuration makes the hook skip the request. Resolved options always
   * have the serializer's shape.
   */
  lemma ResolvePrecedence(plugin: Plugin, route: RouteSetting, callbackOut: Result<Options, string>)
    requires PluginShaped(plugin) && RouteShaped(route) && SchemaShaped(callbackOut)
    ensures var r := ResolveOptions(plugin, route, callbackOut);
      (route.RouteOverride? ==>
         (r.Err? <==> route.schemaOut.Err?) && (r.Err? ==> r.error == InvalidRouteConfig)
         && (r.Ok? ==> r.value == Validated(route.schemaOut).value))
      && (!route.RouteOverride? && plugin.CallbackPlugin? ==>
         (r.Err? <==> callbackOut.Err?) && (r.Err? ==> r.error == InvalidCallbackConfig)
         && (r.Ok? ==> r.value == Validated(callbackOut).value))
      && (!route.RouteOverride? && plugin.StaticPlugin? ==> r == Ok(plugin.global))
      && (r.Ok? ==> WellShaped(r.value.directives))
  {
    if route.RouteOverride? && route.schemaOut.Ok? {
      NormalizedWellShaped(route.schemaOut.value.directives);
    }
    if plugin.CallbackPlugin? && callbackOut.Ok? {
      NormalizedWellShaped(callbackOut.value.directives);
    }
  }

  /** One `forEach` step of `attachNonces`: a fresh nonce under the directive's role if it is selected. */
  function AttachStep(o: Options, key: string, entropy: Entropy, nonces: Option<map<string, string>>): Option<map<string, string>>
    requires NonceBearing(key)
  {
    if NonceShouldBeGenerated(o, key) then
      var role := KeyToConfigMap[key];
      var prior := if nonces.Some? then nonces.value else map[];
      Some(prior[role := GenerateNonce(entropy(role))])
    else nonces
  }

  /** Both steps of `attachNonces`, script-src first. */
  function Attached(o: Options, entropy: Entropy, nonces: Option<map<string, string>>): Option<map<string, string>>
  {
    AttachStep(o, "styleSrc", entropy, AttachStep(o, "scriptSrc", entropy, nonces))
  }

  /** The nonces on the request after the `onPreHandler` hook. */
  function AttachPhase(plugin: Plugin, verb: string, route: RouteSetting, callbackOut: Result<Options, string>,
                       entropy: Entropy, nonces: Option<map<string, string>>): Option<map<string, string>>
  {
    if Bypass(verb, route).Some? then nonces
    else match ResolveOptions(plugin, route, callbackOut)
      case Err(_) => nonces
      case Ok(o) => Attached(o, entropy, nonces)
  }

  /**
   * What `attachNonces` stores: a selected directive's role gets a fresh
   * 32-digit hex nonce, whether or not the directive itself is set; any
   * other entry is kept; nothing is created when nothing is selected.
   */
  lemma AttachedNonces(o: Options, entropy: Entropy, nonces: Option<map<string, string>>)
    ensures var r := Attached(o, entropy, nonces);
      var selected := NonceShouldBeGenerated(o, "scriptSrc") || NonceShouldBeGenerated(o, "styleSrc");
      (!selected ==> r == nonces)
      && (selected ==>
            r.Some?
            && (forall role :: role in r.value && role != "script" && role != "style" ==>
                  nonces.Some? && role in nonces.value && r.value[role] == nonces.value[role])
            && (forall role :: nonces.Some? && role in nonces.value && role != "script" && role != "style" ==>
                  role in r.value))
    ensures var r := Attached(o, entropy, nonces);
      NonceShouldBeGenerated(o, "scriptSrc") ==> r.Some? && "script" in r.value && r.value["script"] == GenerateNonce(entropy("script"))
    ensures var r := Attached(o, entropy, nonces);
      NonceShouldBeGenerated(o, "styleSrc") ==> r.Some? && "style" in r.value && r.value["style"] == GenerateNonce(entropy("style"))
    ensures var r := Attached(o, entropy, nonces);
      r.Some? ==> forall role :: role in r.value && (role == "script" || role == "style") && (nonces.None? || role !in nonces.value) ==>
        |r.value[role]| == 2 * NonceBytes
  {
    CatalogFacts();
  }

  /** The hooks do nothing for OPTIONS requests and on routes that turn the plugin off. */
  lemma AttachBypass(plugin: Plugin, verb: string, route: RouteSetting, callbackOut: Result<Options, string>,
                     entropy: Entropy, nonces: Option<map<string, string>>)
    requires Bypass(verb, route).Some? || ResolveOptions(plugin, route, callbackOut).Err?
    ensures AttachPhase(plugin, verb, route, callbackOut, entropy, nonces) == nonces
  {
  }

  /** How the `onPreResponse` hook ends for one request. */
  datatype Outcome =
    | Skipped(reason: SkipReason)
    | Emitted(header: string, policy: string)
    | Crashed  // Firefox 4 to 23 without script-src: `options.scriptSrc.map` throws

  /** The outcome and the view context afterwards. */
  datatype Rendered = Rendered(outcome: Outcome, context: map<string, string>)

  /** `contentType && contentType !== 'text/html'`. */
  predicate NotHtmlType(contentType: Option<string>)
  {
    contentType.Some? && contentType.value != "" && contentType.value != "text/html"
  }

  /** The response's `content-type` header, when it has one. */
  function ContentType(headers: map<string, string>): Option<string>
  {
    if "content-type" in headers then Some(headers["content-type"]) else None
  }

  /** Header and policy for resolved options, by the user agent's compatibility row. */
  function Render(o: Options, ua: UserAgent, store: Option<map<string, string>>, entropy: Entropy,
                  isView: bool, ctx: map<string, string>): Rendered
    requires WellShaped(o.directives)
  {
    var c := Select(ua, o.oldSafari);
    var name := HeaderName(c, o.reportOnly);
    match c.transform
    case Standard =>
      Rendered(Emitted(name, Policy(o, store, entropy)), ContextAfter(o, DirectiveNames, store, entropy, isView, ctx))
    case FirefoxLegacy =>
      if "scriptSrc" !in o.directives then Rendered(Crashed, ctx)
      else
        FirefoxWellShaped(o);
        Rendered(Emitted(name, FirefoxPolicy(o, store, entropy)),
                 ContextAfter(FirefoxOptions(o), DirectiveNames, store, entropy, isView, ctx))
    case Firefox4 =>
      if "scriptSrc" !in o.directives then Rendered(Crashed, ctx)
      else
        FirefoxWellShaped(o);
        Rendered(Emitted(name, Firefox4Policy(o, store, entropy)),
                 ContextAfter(FirefoxOptions(o), DirectiveNames, store, entropy, isView, ctx))
    case IEOnly =>
      Rendered(Emitted(name, IEPolicy(o, store, entropy)), ctx)
  }

  /** The `onPreResponse` hook on one request. */
  function HeadersPhase(plugin: Plugin, verb: string, route: RouteSetting, contentType: Option<string>,
                        ua: UserAgent, callbackOut: Result<Options, string>, store: Option<map<string, string>>,
                        entropy: Entropy, isView: bool, ctx: map<string, string>): Rendered
    requires PluginShaped(plugin) && RouteShaped(route) && SchemaShaped(callbackOut)
  {
    if Bypass(verb, route).Some? then Rendered(Skipped(Bypass(verb, route).value), ctx)
    else if NotHtmlType(contentType) then Rendered(Skipped(NotHtml), ctx)
    else
      ResolvePrecedence(plugin, route, callbackOut);
      match ResolveOptions(plugin, route, callbackOut)
      case Err(reason) => Rendered(Skipped(reason), ctx)
      case Ok(o) => Render(o, ua, store, entropy, isView, ctx)
  }

  /**
   * When the header hook skips: exactly for OPTIONS requests, routes that
   * turn the plugin off, responses with a non-HTML content type and
   * rejected configurations; a skipped or crashed request keeps its context.
   */
  lemma HeadersSkip(plugin: Plugin, verb: string, route: RouteSetting, contentType: Option<string>,
                    ua: UserAgent, callbackOut: Result<Options, string>, store: Option<map<string, string>>,
                    entropy: Entropy, isView: bool, ctx: map<string, string>)
    requires PluginShaped(plugin) && RouteShaped(route) && SchemaShaped(callbackOut)
    ensures var r := HeadersPhase(plugin, verb, route, contentType, ua, callbackOut, store, entropy, isView, ctx);
      (r.outcome.Skipped? <==>
        verb == "options" || route == RouteDisabled || NotHtmlType(contentType)
        || ResolveOptions(plugin, route, callbackOut).Err?)
      && (verb == "options" ==> r.outcome == Skipped(Preflight))
      && (verb != "options" && route == RouteDisabled ==> r.outcome == Skipped(RouteOff))
      && (Bypass(verb, route).None? && NotHtmlType(contentType) ==> r.outcome == Skipped(NotHtml))
      && (!r.outcome.Emitted? ==> r.context == ctx)
  {
    if Bypass(verb, route).None? && !NotHtmlType(contentType) {
      ResolvePrecedence(plugin, route, callbackOut);
      if ResolveOptions(plugin, route, callbackOut).Ok? {
        RenderNeverSkips(ResolveOptions(plugin, route, callbackOut).value, ua, store, entropy, isView, ctx);
      }
    }
  }

  /** Resolved options always give a header or a crash, and a crash leaves the context alone. */
  lemma RenderNeverSkips(o: Options, ua: UserAgent, store: Option<map<string, string>>, entropy: Entropy,
                         isView: bool, ctx: map<string, string>)
    requires WellShaped(o.directives)
    ensures !Render(o, ua, store, entropy, isView, ctx).outcome.Skipped?
    ensures Render(o, ua, store, entropy, isView, ctx).outcome.Crashed? ==> Render(o, ua, store, entropy, isView, ctx).context == ctx
  {
  }

  /**
   * An emitted header is named by the compatibility table with the
   * report-only suffix of the resolved options, and carries the policy of the
   * generator the table picks; the hook crashes exactly on Firefox 4 to 23
   * when script-src is absent.
   */
  lemma HeadersEmit(plugin: Plugin, verb: string, route: RouteSetting, contentType: Option<string>,
                    ua: UserAgent, callbackOut: Result<Options, string>, store: Option<map<string, string>>,
                    entropy: Entropy, isView: bool, ctx: map<string, string>)
    requires PluginShaped(plugin) && RouteShaped(route) && SchemaShaped(callbackOut)
    requires Bypass(verb, route).None? && !NotHtmlType(contentType)
    requires ResolveOptions(plugin, route, callbackOut).Ok?
    ensures var o := ResolveOptions(plugin, route, callbackOut).value;
      var r := HeadersPhase(plugin, verb, route, contentType, ua, callbackOut, store, entropy, isView, ctx);
      var c := Select(ua, o.oldSafari);
      WellShaped(o.directives)
      && (r.outcome == Crashed <==> (c.transform == FirefoxLegacy || c.transform == Firefox4) && "scriptSrc" !in o.directives)
      && (r.outcome.Emitted? ==> r.outcome.header == HeaderName(c, o.reportOnly))
      && (c.transform == Standard ==> r.outcome == Emitted(HeaderName(c, o.reportOnly), Policy(o, store, entropy)))
      && (c.transform == IEOnly ==> r.outcome == Emitted(HeaderName(c, o.reportOnly), IEPolicy(o, store, entropy)) && r.context == ctx)
      && (c.transform == FirefoxLegacy && "scriptSrc" in o.directives ==>
            r.outcome == Emitted(HeaderName(c, o.reportOnly), FirefoxPolicy(o, store, entropy)))
      && (c.transform == Firefox4 && "scriptSrc" in o.directives ==>
            r.outcome == Emitted(HeaderName(c, o.reportOnly), Firefox4Policy(o, store, entropy)))
  {
    ResolvePrecedence(plugin, route, callbackOut);
  }

  /**
   * The nonce in the header is the one stored before the handler ran: when
   * both hooks resolve the same options and script-src is set with a nonce
   * selected, the standard policy's script-src clause ends with the nonce
   * `attachNonces` drew, and a view gets that nonce as `script-nonce`.
   */
  lemma NonceAgreement(o: Options, e1: Entropy, e2: Entropy, isView: bool, ctx: map<string, string>)
    requires WellShaped(o.directives) && IsSet(o.directives, "scriptSrc") && NonceShouldBeGenerated(o, "scriptSrc")
    ensures var store := Attached(o, e1, None);
      var n := GenerateNonce(e1("script"));
      var clause := "script-src " + Join(o.directives["scriptSrc"].items + [NonceToken(n)], " ");
      o.directives["scriptSrc"].List?
      && clause in Clauses(o, DirectiveNames, store, e2)
      && (isView ==> var after := ContextAfter(o, DirectiveNames, store, e2, isView, ctx);
            "script-nonce" in after && after["script-nonce"] == n)
  {
    var store := Attached(o, e1, None);
    AttachedNonces(o, e1, None);
    assert NonceFor(store, e2, "scriptSrc") == GenerateNonce(e1("script"));
    ScriptClause(o, store, e2);
    ClausesComplete(o, DirectiveNames, "scriptSrc", store, e2);
    if isView {
      ViewScriptNonce(o, store, e2, ctx);
    }
  }

  /** The `switch` of `addHeaders` and the report-only suffix, run on resolved options. */
  method RenderPolicy(o: Options, ua: UserAgent, store: Option<map<string, string>>, entropy: Entropy,
                      isView: bool, ctx: map<string, string>) returns (r: Rendered)
    requires WellShaped(o.directives)
    ensures r == Render(o, ua, store, entropy, isView, ctx)
  {
    var c := Select(ua, o.oldSafari);
    var policy: string;
    var ctx' := ctx;
    if c.transform == Standard {
      policy, ctx' := GeneratePolicy(o, store, entropy, isView, ctx);
    } else if c.transform == FirefoxLegacy {
      if "scriptSrc" !in o.directives {
        return Rendered(Crashed, ctx);
      }
      policy, ctx' := GenerateFirefoxPolicy(o, store, entropy, isView, ctx);
    } else if c.transform == Firefox4 {
      if "scriptSrc" !in o.directives {
        return Rendered(Crashed, ctx);
      }
      policy, ctx' := GenerateFirefox4Policy(o, store, entropy, isView, ctx);
    } else {
      policy, ctx' := GenerateIEPolicy(o, store, entropy, isView, ctx);
    }
    var name := HeaderName(c, o.reportOnly);
    r := Rendered(Emitted(name, policy), ctx');
  }

  /**
   * One request/response exchange as the hooks see it: the request's fixed
   * facts, the nonces stored on the request, the response headers and the
   * view context.
   */
  class Exchange {
    const verb: string
    const route: RouteSetting
    const userAgent: UserAgent
    const isView: bool
    var nonces: Option<map<string, string>>
    var headers: map<string, string>
    var context: map<string, string>

    constructor (verb: string, route: RouteSetting, userAgent: UserAgent, isView: bool,
                 headers: map<string, string>, context: map<string, string>)
      ensures this.verb == verb && this.route == route && this.userAgent == userAgent && this.isView == isView
      ensures this.nonces == None && this.headers == headers && this.context == context
    {
      this.verb := verb;
      this.route := route;
      this.userAgent := userAgent;
      this.isView := isView;
      this.nonces := None;
      this.headers := headers;
      this.context := context;
    }

    /** Options for this request, as both hooks compute them. */
    method Resolve(plugin: Plugin, callbackOut: Result<Options, string>) returns (r: Result<Options, SkipReason>)
      requires PluginShaped(plugin) && RouteShaped(route) && SchemaShaped(callbackOut)
      ensures r == ResolveOptions(plugin, route, callbackOut)
      ensures r.Ok? ==> WellShaped(r.value.directives)
    {
      ResolvePrecedence(plugin, route, callbackOut);
      if route.RouteOverride? {
        var v := ValidateOptions(route.schemaOut);
        if v.Err? {
          return Err(InvalidRouteConfig);
        }
        return Ok(v.value);
      } else if plugin.CallbackPlugin? {
        var v := ValidateOptions(callbackOut);
        if v.Err? {
          return Err(InvalidCallbackConfig);
        }
        return Ok(v.value);
      }
      return Ok(plugin.global);
    }

    /** The `onPreHandler` hook: draws the selected nonces and stores them on the request. */
    method AttachNonces(plugin: Plugin, callbackOut: Result<Options, string>, entropy: Entropy)
      requires PluginShaped(plugin) && RouteShaped(route) && SchemaShaped(callbackOut)
      modifies this
      ensures nonces == AttachPhase(plugin, verb, route, callbackOut, entropy, old(nonces))
      ensures headers == old(headers) && context == old(context)
    {
      if verb == "options" || route == RouteDisabled {
        return;
      }
      var resolved := Resolve(plugin, callbackOut);
      if resolved.Err? {
        return;
      }
      var o := resolved.value;
      var keys := ["scriptSrc", "styleSrc"];
      for i := 0 to 2
        invariant headers == old(headers) && context == old(context)
        invariant nonces == if i == 0 then old(nonces)
                            else if i == 1 then AttachStep(o, "scriptSrc", entropy, old(nonces))
                            else Attached(o, entropy, old(nonces))
      {
        var key := keys[i];
        if NonceShouldBeGenerated(o, key) {
          var role := KeyToConfigMap[key];
          var n := GenerateNonce(entropy(role));
          var stored := if nonces.Some? then nonces.value else map[];
          nonces := Some(stored[role := n]);
        }
      }
    }

    /** The `onPreResponse` hook: sets the policy header. */
    method AddHeaders(plugin: Plugin, callbackOut: Result<Options, string>, entropy: Entropy) returns (outcome: Outcome)
      requires PluginShaped(plugin) && RouteShaped(route) && SchemaShaped(callbackOut)
      modifies this
      ensures var r := HeadersPhase(plugin, verb, route, ContentType(old(headers)), userAgent, callbackOut,
                                    old(nonces), entropy, isView, old(context));
        outcome == r.outcome && context == r.context
      ensures headers == if outcome.Emitted? then old(headers)[outcome.header := outcome.policy] else old(headers)
      ensures nonces == old(nonces)
    {
      if verb == "options" {
        return Skipped(Preflight);
      }
      if route == RouteDisabled {
        return Skipped(RouteOff);
      }
      var contentType := ContentType(headers);
      if NotHtmlType(contentType) {
        return Skipped(NotHtml);
      }
      var resolved := Resolve(plugin, callbackOut);
      if resolved.Err? {
        return Skipped(resolved.error);
      }
      var r := RenderPolicy(resolved.value, userAgent, nonces, entropy, isView, context);
      outcome := r.outcome;
      context := r.context;
      if outcome.Emitted? {
        headers := headers[outcome.header := outcome.policy];
      }
    }
  }
}
