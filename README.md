# blankie: a Dafny model of the Content-Security-Policy engine

blankie is a hapi plugin that adds a Content-Security-Policy header to every
HTML response. This project models its policy engine, `lib/index.js`, in Dafny
and proves properties of that model. The model covers:

- the directive catalog;
- the quoting pass that runs after schema validation;
- nonce generation and selection;
- the serializer that turns an options record into policy text and, for
  views, puts the nonces into the template context;
- the browser-specific rewrites: legacy Firefox, Firefox 4 and Internet
  Explorer;
- the compatibility table that picks the header name;
- the two request hooks and plugin registration.

Modules, one per file:

| module | file | models |
|---|---|---|
| `Wrappers` | wrappers.dfy | `Option` and `Result` |
| `Strings` | strings.dfy | `Array.join`, its partner `split`, and `String.replace` with a string pattern |
| `Directives` | directives.dfy | the catalog constants and the options record |
| `Normalizer` | normalizer.dfy | the quoting pass of `validateOptions` |
| `Nonces` | nonces.dfy | `generateNonce` (bytes to hex) and `nonceShouldBeGenerated` |
| `Serializer` | serializer.dfy | `generatePolicy` |
| `Layout` | layout.dfy | where the sandbox, script-src and default-src clauses sit in a policy |
| `Browsers` | browsers.dfy | `generateFirefoxPolicy`, `generateFirefox4Policy` and `generateIEPolicy` |
| `Compat` | compat.dfy | the user-agent `switch` and the report-only suffix |
| `Blankie` | blankie.dfy | `register`, `attachNonces` and `addHeaders` |

How the model is shaped:

- **Loops become methods.** The source's imperative parts become methods
  with loops, each proved equal to a specification function. This covers
  the `forEach` in `validateOptions`, `generatePolicy` and
  `generateFirefoxPolicy`, and the nonce loop of `attachNonces`. The
  properties are then proved about the specification functions.
- **State updated in place becomes a class.** The request and response
  state the hooks update is the `Blankie.Exchange` class: the stored nonces,
  the response headers and the view context.
- **Options are a record.** An options object is an `Options` record: a map
  from camel-case directive key to a `Value` (list, string or `true`), plus
  `reportOnly`, `oldSafari` and `generateNonces`.
- **`generateNonces` has three states.** It is absent, a boolean or a
  string, because the source compares it with `===` against a lookup that
  may be `undefined`.
- **Removed keys stand for `undefined`.** A directive the source sets to
  `undefined` is removed from the map; both are falsy to the serializer.
- **Randomness is an input.** The random bytes are an `Entropy` parameter
  that gives the 16 bytes for each nonce role.
- **Schema and user agent are inputs.** The schema's verdict is an input
  `Result`, and so is the user agent's family and parsed major version.

## Model

| member | source | states |
|---|---|---|
| Directives.CatalogFacts | lib/index.js:10-79 | 18 list directives and 2 string directives, in that order; 20 distinct names; every name but `sandbox` has a wire token; the nonce selectors exist for script-src and style-src only |
| Directives.WireNamesPlain | lib/index.js:38-58 | every directive's wire token is non-empty and contains no space and no `;` |
| Strings.Join | lib/index.js:193 | a join of at least one part begins with the first part |
| Strings.ReplaceFirst | lib/index.js:158 | `replace` with a string pattern either leaves the length alone (no match) or swaps exactly one pattern's worth of text for the replacement |
| Strings.SplitJoin | lib/index.js:193 | splitting a joined list at a separator that no part contains gives the parts back |
| Strings.JoinNonEmpty | lib/index.js:205 | a join whose first part is non-empty is non-empty |
| Strings.ReplaceAbsent | lib/index.js:158 | `replace` leaves text without the pattern unchanged |
| Strings.ReplaceAtFirst | lib/index.js:158 | `replace` rewrites the first occurrence and keeps everything before and after it |
| Strings.ReplaceInJoin | lib/index.js:158 | in a joined list, when the pattern first occurs at the start of one part, only that part's prefix is rewritten |
| Normalizer.QuoteList | lib/index.js:370-377 | the quoted list has the same length; no source in it is a bare keyword any more, and every source that was not one is kept as it was |
| Normalizer.Validated | lib/index.js:352-385 | a schema error passes through unchanged; accepted options keep their directive keys and their three settings |
| Normalizer.ValidateOptions | lib/index.js:352-385 | the in-place loop's result is the schema error, or the accepted options with every list directive quoted |
| Normalizer.ValidatedQuotes | lib/index.js:356-381 | an error stays an error; an accepted record keeps its keys and settings; `sandbox: true` and string directives are unchanged; lists keep length and order and quote exactly the bare keywords |
| Normalizer.QuotedIsNotKeyword | lib/index.js:66-74 | a quoted source is never a bare keyword |
| Normalizer.NoBareKeywords | lib/index.js:363-379 | after validation no list directive holds a bare keyword |
| Normalizer.QuoteListIdempotent | lib/index.js:370-377 | quoting a list twice is quoting it once |
| Normalizer.NormalizedIdempotent | lib/index.js:363-379 | validating validated options changes nothing |
| Normalizer.NormalizedWellShaped | lib/index.js:363-379 | the quoting pass keeps the shape the serializer needs: lists stay lists, strings stay strings |
| Nonces.Hex | lib/index.js:97 | the hex text has two characters per byte, each a lowercase hex digit |
| Nonces.UnhexHex | lib/index.js:97 | decoding the hex text gives the bytes back |
| Nonces.GenerateNonce | lib/index.js:87-98 | a nonce is 32 lowercase hex digits |
| Nonces.NonceInjective | lib/index.js:87-98 | different random bytes give different nonces |
| Nonces.NonceSelection | lib/index.js:81-84 | script-src gets a nonce iff `generateNonces` is `true` or `'script'`; style-src iff `true` or `'style'`; `'script'` excludes style-src and `'style'` excludes script-src; `false` selects neither |
| Nonces.NonceShouldBeGenerated | lib/index.js:81-84 | `generateNonces: true` selects every directive and `false` selects none |
| Nonces.NonceSelectionOtherKeys | lib/index.js:81-84 | any other key is selected iff `generateNonces` is `true` or absent, because its selector is `undefined` |
| Serializer.NonceFor | lib/index.js:190 | without nonces stored on the request, the nonce is a fresh 32-digit lowercase hex string |
| Serializer.ClauseFor | lib/index.js:172-203 | a directive contributes a clause exactly when it is present and truthy |
| Serializer.Clauses | lib/index.js:170-203 | a walk over some directives yields at most one clause per directive |
| Serializer.Policy | lib/index.js:164-206 | the policy text is empty exactly when no directive contributes a clause |
| Serializer.WithNonce | lib/index.js:195-196 | the view context gains `nonce` (kept if already there) and the role's `<role>-nonce`, and every other entry is kept |
| Serializer.PushClause | lib/index.js:170-203 | one `forEach` callback appends this directive's clause, if any, and applies its context step |
| Serializer.GeneratePolicy | lib/index.js:164-206 | the loop's policy is the catalog's clauses joined by `;`, and its view context is the walk's context |
| Serializer.ClausesAppend | lib/index.js:170 | clauses come out in catalog order |
| Serializer.ClausesComplete | lib/index.js:170-203 | every set directive contributes exactly its clause to the policy |
| Serializer.ClausesSound | lib/index.js:170-203 | every clause in the policy is the clause of some set directive |
| Serializer.UnsetContributesNothing | lib/index.js:172-174 | an absent or falsy directive contributes no clause |
| Serializer.ClausesOfUnset | lib/index.js:172-174 | directives none of which is set give no clauses |
| Serializer.ClauseForFrame | lib/index.js:176-202 | a clause depends only on that directive's value and the nonce selector |
| Serializer.PolicyFrame | lib/index.js:164-206 | two records that agree on which directives are set, their values and the nonce selector give the same clauses |
| Serializer.ClauseTokens | lib/index.js:176-202 | split at spaces, a list clause is the wire token, then the sources in order, then the nonce token when one applies |
| Serializer.NonceOnlyOnBearing | lib/index.js:188 | a directive other than script-src and style-src does not depend on the nonce setting, the stored nonces or the randomness |
| Serializer.StoredNoncesUsed | lib/index.js:190 | with nonces stored on the request, the policy does not depend on fresh randomness |
| Serializer.PolicyRoundTrip | lib/index.js:205 | the policy is empty exactly when there is no clause; otherwise splitting it at `;` gives the clauses back |
| Serializer.ClausesNonEmpty | lib/index.js:176-202 | no clause is empty |
| Serializer.ClausesAround | lib/index.js:170 | the clauses split around one directive's position |
| Serializer.ContextAppend | lib/index.js:194-197 | walking two runs of directives is walking the first run, then the second from the context the first left |
| Serializer.ContextPreserves | lib/index.js:195-196 | a context entry survives the walk unless a nonce-bearing directive writes that name; an existing `nonce` always survives |
| Serializer.ContextUntouched | lib/index.js:194 | directives that carry no nonce leave the view context alone |
| Serializer.ViewScriptNonce | lib/index.js:194-197 | a view whose script-src carries a nonce ends with it as `script-nonce`, and as `nonce` unless the context already had one |
| Serializer.ClausesOfSingle | lib/index.js:170-203 | a record that holds only one directive yields that directive's clause and nothing else |
| Layout.SandboxClause | lib/index.js:172-186 | sandbox yields no clause when unset, the bare `sandbox` keyword for `true`, and `sandbox` followed by its sources for a list |
| Layout.ScriptClause | lib/index.js:188-193 | a set script-src with nonces on yields `script-src`, its sources, then the `'nonce-…'` token |
| Layout.DefaultClause | lib/index.js:176-203 | a set default-src yields `default-src` followed by its sources, with no nonce |
| Layout.ClausesAroundDefault | lib/index.js:170-203 | with default-src set, the clause list is the clauses before it, the default-src clause, then the clauses after it |
| Blankie.RenderNeverSkips | lib/index.js:289-349 | once options are resolved the hook emits a header or crashes, and a crash leaves the context alone |
| Browsers.RenameScriptSources | lib/index.js:120-130 | the renamed script-src has the same length, contains no unsafe keyword, and keeps every other source as it was |
| Browsers.StripUnsafe | lib/index.js:139-142 | the filter keeps exactly the sources that are not unsafe keywords and changes a list without them not at all |
| Browsers.StripAppend | lib/index.js:139-142 | the filter works source by source, so the sources it keeps stay in their original order |
| Browsers.StripIdempotent | lib/index.js:139-142 | filtering twice is filtering once |
| Browsers.FirefoxTransform | lib/index.js:109-148 | the in-place rewrite of the options equals the specification `FirefoxOptions` |
| Browsers.StripLists | lib/index.js:133-148 | the filtering loop strips every list directive and unsets the ones left empty |
| Browsers.FirefoxWellShaped | lib/index.js:109-148 | the rewritten options can be serialized |
| Browsers.FirefoxKey | lib/index.js:109-148 | per key: xhr-src takes connect-src's filtered list; connect-src and sandbox are gone; script-src is renamed; other lists are filtered; an emptied list is unset; string directives are kept |
| Browsers.FirefoxRewrite | lib/index.js:109-148 | the scalar settings are unchanged, and every directive is as `FirefoxKey` says |
| Browsers.FirefoxListsClean | lib/index.js:133-148 | after the rewrite every remaining list is non-empty and has no unsafe keyword |
| Browsers.GenerateFirefoxPolicy | lib/index.js:109-150 | the legacy Firefox policy is the serialization of the rewritten options |
| Browsers.GenerateFirefox4Policy | lib/index.js:153-161 | the Firefox 4 policy is the legacy one with the first `default-src` replaced by `allow` |
| Browsers.Firefox4Renames | lib/index.js:153-161 | with default-src set, the default-src clause becomes an `allow` clause with the same sources and every other clause is unchanged, unless an earlier clause already contains `default-src` |
| Layout.RenameDefaultClause | lib/index.js:158 | the same textual rename, stated for any serialized record |
| Browsers.Firefox4WithoutDefault | lib/index.js:158 | a legacy policy without `default-src` reaches Firefox 4 unchanged |
| Browsers.SandboxOnly | lib/index.js:101-106 | the IE record holds sandbox (with its value) exactly when the options do, nothing else, and default settings |
| Browsers.GenerateIEPolicy | lib/index.js:101-106 | the IE policy serializes a fresh record holding only sandbox, and the view context is untouched |
| Browsers.IEClauses | lib/index.js:101-106 | the IE record yields at most the sandbox clause |
| Browsers.IEPolicyCases | lib/index.js:101-106 | IE gets `""` when sandbox is unset, `sandbox` for `sandbox: true`, and `sandbox` plus its sources for a list |
| Compat.Lookup | lib/index.js:294-335 | with no matching row, the result is the standard header and generator |
| Compat.Select | lib/index.js:294-335 | every selected header name is one of the three known names, and every rewritten policy goes out under `X-Content-Security-Policy` |
| Compat.HeaderName | lib/index.js:337-339 | the header is the selected name, followed by `-Report-Only` exactly in report-only mode |
| Compat.SelectIsTable | lib/index.js:294-335 | the `switch` agrees with the six-row compatibility table on every user agent |
| Compat.SelectHeaderKnown | lib/index.js:60-64 | every selected header name is one of the three known names |
| Compat.SelectTransform | lib/index.js:294-335 | only IE gets the IE generator; only Firefox 4 gets the Firefox 4 generator; only Firefox 5 to 23 gets the legacy one; each of these uses `X-Content-Security-Policy` |
| Compat.OldSafariOnlyForSafari5 | lib/index.js:322-326 | `oldSafari` changes the outcome for Safari 5 and nothing else |
| Compat.UnparsableVersion | lib/index.js:292-335 | a `NaN` major version makes every browser but IE get the standard header and policy |
| Compat.HeaderNameShape | lib/index.js:337-339 | the header ends in `-Report-Only` exactly in report-only mode, with a known name before it |
| Blankie.Register | lib/index.js:388-400 | registration fails exactly when static options are rejected by the schema, and keeps a callback as a callback |
| Blankie.RegisterCases | lib/index.js:388-400 | registration fails exactly on options the schema rejects; a callback is kept; accepted options are stored quoted, well-shaped and free of bare keywords |
| Blankie.ResolvePrecedence | lib/index.js:266-287 | route options beat the callback, and the callback beats the global options; a rejected configuration skips the request; resolved options are well-shaped |
| Blankie.AttachedNonces | lib/index.js:240-249 | each selected role gets a fresh 32-digit nonce, whether or not its directive is set; other stored entries are kept; nothing is created when nothing is selected |
| Blankie.AttachBypass | lib/index.js:211-235 | OPTIONS requests, disabled routes and rejected configurations store no nonces |
| Blankie.HeadersSkip | lib/index.js:257-283 | the header hook skips exactly on OPTIONS requests, disabled routes, a non-HTML content type and rejected configurations, and a skipped request keeps its context |
| Blankie.HeadersEmit | lib/index.js:289-349 | the header is named by the compatibility table plus the report-only suffix and carries the chosen generator's policy; the hook crashes exactly on Firefox 4 to 23 without script-src |
| Blankie.NonceAgreement | lib/index.js:190-197 | the script-src clause of the header ends with the nonce `attachNonces` drew, and a view gets that nonce as `script-nonce` |
| Blankie.RenderPolicy | lib/index.js:289-339 | the `switch`, run imperatively, computes `Render` |
| Blankie.Exchange.Resolve | lib/index.js:264-287 | the options lookup of both hooks computes `ResolveOptions` and yields well-shaped options |
| Blankie.Exchange.AttachNonces | lib/index.js:209-252 | the stored nonces become `AttachPhase` of the old ones; headers and context are unchanged |
| Blankie.Exchange.AddHeaders | lib/index.js:255-349 | the outcome and context are `HeadersPhase`'s; exactly the emitted header is added; the stored nonces are unchanged |

## Left out

- Plugin plumbing is not modelled: hapi's extension points, `h.continue`, `server.log`, the `scooter` dependency and the package metadata.
- A logged configuration error is modelled as a skip reason; the log line is left out.
- The Joi schema is not part of this model. Its verdict arrives as a `Result`. The model assumes (`SchemaShaped`, `WellShaped`) that list directives hold arrays or `sandbox: true` and that string directives hold strings. For a list directive that is what keeps the source from crashing in `.map`, `.filter` or `.join`. For the two string directives it is only an assumption: a non-string `reportUri` or `reflectedXss` would not crash, the template literal would print JavaScript's string conversion of it (an array as its comma-joined items, `true` as `true`), and the model does not cover that output.
- User-agent parsing is left out: the `scooter` plugin and `parseInt`. The model receives the family and the parsed major version, with `None` for `NaN`.
- The random bytes of `crypto.randomBytes`, and its `pseudoRandomBytes` fallback, are an input. Each nonce role draws its own 16 bytes.
- `Blankie.Exchange.AddHeaders`: does not model the boom case, because the model has one header map. The source reads and writes `response.output.headers` for error responses and `response.headers` otherwise.
- The view context: `Hoek.applyToDefaults` is a deep merge of objects. The view context is modelled as a flat map from names to strings, so only the `nonce` defaulting and the `<role>-nonce` entry are captured.
- Aliasing is not modelled. `generateFirefoxPolicy` mutates its argument in place, and every caller passes a fresh copy, so the rewrite is modelled on values.
- `Blankie.AttachedNonces`: makes no claim that running `attachNonces` twice is harmless. A second run draws new nonces and overwrites the first.
- The callback is modelled by its validated answer for each call (`callbackOut`). Both hooks call it, so the two phases may see different options. `NonceAgreement` is stated for the case where both phases resolve the same options.
- A nonce stored on the request for one role only leaves the other role's lookup `undefined`. Its text then reads `undefined`, as the source's template literal produces.
- Clause order follows the code: connect-src comes before default-src, because the catalog is walked in its own order.
- A content type such as `text/html; charset=utf-8` counts as non-HTML and skips the header, because the source compares the whole string.
