/**
 * `generatePolicy` (lib/index.js:164-206): walks the catalog in order and
 * emits one clause per directive that is set, appending a nonce to
 * script-src and style-src when nonces are on for them.
 */
module Serializer {
  import opened Wrappers
  import opened Directives
  import opened Strings
  import opened Nonces

  /** The random bytes `generateNonce` would draw for a role ("script" or "style"). */
  type Entropy = string -> Seed

  /** The nonce-bearing directives. */
  predicate NonceBearing(key: string)
  {
    key == "scriptSrc" || key == "styleSrc"
  }

  /**
   * The nonce used for a nonce-bearing directive: the one stored on the
   * request by the pre-handler phase (`request.plugins.blankie.nonces`),
   * or a fresh one when nothing was stored. A store without an entry for
   * the role yields the text JavaScript prints for `undefined`.
   */
  function NonceFor(store: Option<map<string, string>>, entropy: Entropy, key: string): (n: string)
    requires NonceBearing(key)
    ensures store.None? ==> |n| == 32 && forall i :: 0 <= i < |n| ==> n[i] in HexDigits
  {
    var role := KeyToConfigMap[key];
    match store
    case Some(m) => if role in m then m[role] else "undefined"
    case None => GenerateNonce(entropy(role))
  }

  /** The source token that carries a nonce. */
  function NonceToken(n: string): string
  {
    "'nonce-" + n + "'"
  }

  /** The nonce token adds no space to a nonce without one. */
  lemma NonceTokenNoSpace(n: string)
    requires ' ' !in n
    ensures ' ' !in NonceToken(n)
  {
    assert ' ' !in "'nonce-" && ' ' !in "'";
  }

  /** The clause one directive contributes, if it is set. */
  function ClauseFor(o: Options, key: string, store: Option<map<string, string>>, entropy: Entropy): (r: Option<string>)
    requires WellShaped(o.directives) && key in DirectiveNames
    ensures r.Some? <==> IsSet(o.directives, key)
  {
    var d := o.directives;
    if !IsSet(d, key) then None
    else if key in StringValues then Some(WireName(key) + " " + d[key].text)
    else if key == "sandbox" && d[key] == Flag(true) then Some("sandbox")
    else if NonceBearing(key) && NonceShouldBeGenerated(o, key) then
      Some(WireName(key) + " " + Join(d[key].items + [NonceToken(NonceFor(store, entropy, key))], " "))
    else Some(WireName(key) + " " + Join(d[key].items, " "))
  }

  function OptionToSeq(c: Option<string>): seq<string>
  {
    match c
    case None => []
    case Some(s) => [s]
  }

  /** The clauses of the given directives, in the given order. */
  function Clauses(o: Options, keys: seq<string>, store: Option<map<string, string>>, entropy: Entropy): (cs: seq<string>)
    requires WellShaped(o.directives)
    requires forall k :: k in keys ==> k in DirectiveNames
    ensures |cs| <= |keys|
    decreases |keys|
  {
    if |keys| == 0 then []
    else Clauses(o, keys[..|keys| - 1], store, entropy) + OptionToSeq(ClauseFor(o, keys[|keys| - 1], store, entropy))
  }

  /** The policy string: the clauses of the whole catalog joined by `;`. */
  function Policy(o: Options, store: Option<map<string, string>>, entropy: Entropy): (p: string)
    requires WellShaped(o.directives)
    ensures p == "" <==> Clauses(o, DirectiveNames, store, entropy) == []
  {
    ClausesNonEmpty(o, DirectiveNames, store, entropy);
    JoinEmpty(Clauses(o, DirectiveNames, store, entropy), ";");
    Join(Clauses(o, DirectiveNames, store, entropy), ";")
  }

  /** The context entry a nonce-bearing directive writes: `scriptSrc` gives `script-nonce` (`key.slice(0, -3)`). */
  function NonceEntry(key: string): string
    requires |key| >= 3
  {
    key[..|key| - 3] + "-nonce"
  }

  /**
   * The view context after one nonce was emitted: `Hoek.applyToDefaults({ nonce }, context)`
   * keeps a `nonce` the context already has, then `<role>-nonce` is set.
   */
  function WithNonce(ctx: map<string, string>, key: string, n: string): (r: map<string, string>)
    requires |key| >= 3
    ensures r.Keys == ctx.Keys + {"nonce", NonceEntry(key)}
    ensures r[NonceEntry(key)] == n
    ensures r["nonce"] == if "nonce" in ctx then ctx["nonce"] else n
    ensures forall name :: name in ctx && name != NonceEntry(key) ==> r[name] == ctx[name]
  {
    var merged := if "nonce" in ctx then ctx else ctx["nonce" := n];
    merged[NonceEntry(key) := n]
  }

  /** The result of one directive step on the view context. */
  function ContextStepFor(o: Options, key: string, store: Option<map<string, string>>, entropy: Entropy,
                          isView: bool, ctx: map<string, string>): map<string, string>
    requires key in DirectiveNames
  {
    if isView && IsSet(o.directives, key) && NonceBearing(key) && NonceShouldBeGenerated(o, key)
    then WithNonce(ctx, key, NonceFor(store, entropy, key))
    else ctx
  }

  /** What emitting the given directives does to a view's context. */
  function ContextAfter(o: Options, keys: seq<string>, store: Option<map<string, string>>, entropy: Entropy,
                        isView: bool, ctx: map<string, string>): map<string, string>
    requires WellShaped(o.directives)
    requires forall k :: k in keys ==> k in DirectiveNames
    decreases |keys|
  {
    if |keys| == 0 then ctx
    else
      var before := ContextAfter(o, keys[..|keys| - 1], store, entropy, isView, ctx);
      ContextStepFor(o, keys[|keys| - 1], store, entropy, isView, before)
  }

  /** Extending the walk by one directive. */
  lemma ContextStep(o: Options, i: nat, store: Option<map<string, string>>, entropy: Entropy,
                    isView: bool, ctx: map<string, string>)
    requires WellShaped(o.directives) && i < |DirectiveNames|
    ensures var before := ContextAfter(o, DirectiveNames[..i], store, entropy, isView, ctx);
      var key := DirectiveNames[i];
      ContextAfter(o, DirectiveNames[..i + 1], store, entropy, isView, ctx)
      == ContextStepFor(o, key, store, entropy, isView, before)
  {
    assert DirectiveNames[..i + 1][..i] == DirectiveNames[..i];
  }

  /** Extending the walk by one directive adds that directive's clause, if any. */
  lemma ClausesStep(o: Options, i: nat, store: Option<map<string, string>>, entropy: Entropy)
    requires WellShaped(o.directives) && i < |DirectiveNames|
    ensures Clauses(o, DirectiveNames[..i + 1], store, entropy)
      == Clauses(o, DirectiveNames[..i], store, entropy) + OptionToSeq(ClauseFor(o, DirectiveNames[i], store, entropy))
  {
    assert DirectiveNames[..i + 1][..i] == DirectiveNames[..i];
  }

  /** The `forEach` callback of `generatePolicy`: pushes this directive's clause, if any. */
  method PushClause(o: Options, key: string, store: Option<map<string, string>>, entropy: Entropy,
                    isView: bool, policy: seq<string>, ctx: map<string, string>)
    returns (policy': seq<string>, ctx': map<string, string>)
    requires WellShaped(o.directives) && key in DirectiveNames
    ensures policy' == policy + OptionToSeq(ClauseFor(o, key, store, entropy))
    ensures ctx' == ContextStepFor(o, key, store, entropy, isView, ctx)
  {
    policy', ctx' := policy, ctx;
    var directive := WireName(key);
    KindsApart(key);
    if !IsSet(o.directives, key) {
      // an unset directive contributes nothing
    } else if key in StringValues {
      policy' := policy + [directive + " " + o.directives[key].text];
    } else if key == "sandbox" && o.directives[key] == Flag(true) {
      policy' := policy + ["sandbox"];
    } else if NonceBearing(key) && NonceShouldBeGenerated(o, key) {
      policy', ctx' := PushNonced(o, key, store, entropy, isView, policy, ctx);
    } else {
      assert key in ArrayValues && o.directives[key].List? by {
        assert Shaped(key, o.directives[key]);
      }
      ListClause(o, key, store, entropy);
      policy' := policy + [directive + " " + Join(o.directives[key].items, " ")];
    }
  }

  /** The nonce branch of the callback: the sources plus the nonce token, and the nonce in a view's context. */
  method PushNonced(o: Options, key: string, store: Option<map<string, string>>, entropy: Entropy,
                    isView: bool, policy: seq<string>, ctx: map<string, string>)
    returns (policy': seq<string>, ctx': map<string, string>)
    requires WellShaped(o.directives) && NonceBearing(key) && NonceShouldBeGenerated(o, key)
    requires key in o.directives && o.directives[key].List?
    ensures key in DirectiveNames
    ensures policy' == policy + OptionToSeq(ClauseFor(o, key, store, entropy))
    ensures ctx' == ContextStepFor(o, key, store, entropy, isView, ctx)
  {
    NonceBearingListed(key);
    assert IsSet(o.directives, key);
    ListClause(o, key, store, entropy);
    var nonce := NonceFor(store, entropy, key);
    var sources := o.directives[key].items + [NonceToken(nonce)];
    policy' := policy + [WireName(key) + " " + Join(sources, " ")];
    ctx' := ctx;
    if isView {
      ctx' := WithNonce(ctx, key, nonce);
    }
  }

  /** String directives and sandbox never carry a nonce. */
  lemma KindsApart(key: string)
    ensures key in StringValues ==> !NonceBearing(key)
    ensures key == "sandbox" ==> !NonceBearing(key)
  {
    if NonceBearing(key) {
      NonceBearingListed(key);
    }
  }

  /** The nonce-bearing directives are list directives of the catalog. */
  lemma NonceBearingListed(key: string)
    requires NonceBearing(key)
    ensures key in DirectiveNames && key in ArrayValues && key !in StringValues && |key| >= 3
  {
    assert DirectiveNames[15] == "scriptSrc" && DirectiveNames[16] == "styleSrc";
  }

  /** `generatePolicy`: the policy string and, for a view response, the updated view context. */
  method GeneratePolicy(o: Options, store: Option<map<string, string>>, entropy: Entropy,
                        isView: bool, ctx: map<string, string>)
    returns (policy: string, ctx': map<string, string>)
    requires WellShaped(o.directives)
    ensures policy == Policy(o, store, entropy)
    ensures ctx' == ContextAfter(o, DirectiveNames, store, entropy, isView, ctx)
  {
    var clauses: seq<string> := [];
    ctx' := ctx;
    var i := 0;
    while i < |DirectiveNames|
      invariant 0 <= i <= |DirectiveNames|
      invariant clauses == Clauses(o, DirectiveNames[..i], store, entropy)
      invariant ctx' == ContextAfter(o, DirectiveNames[..i], store, entropy, isView, ctx)
    {
      ClausesStep(o, i, store, entropy);
      ContextStep(o, i, store, entropy, isView, ctx);
      clauses, ctx' := PushClause(o, DirectiveNames[i], store, entropy, isView, clauses, ctx');
      i := i + 1;
    }
    assert DirectiveNames[..i] == DirectiveNames;
    policy := Join(clauses, ";");
  }

  /** The clauses of a concatenation are the concatenated clauses: order is kept. */
  lemma {:induction false} ClausesAppend(o: Options, a: seq<string>, b: seq<string>, store: Option<map<string, string>>, entropy: Entropy)
    requires WellShaped(o.directives)
    requires forall k :: k in a ==> k in DirectiveNames
    requires forall k :: k in b ==> k in DirectiveNames
    ensures Clauses(o, a + b, store, entropy) == Clauses(o, a, store, entropy) + Clauses(o, b, store, entropy)
    decreases |b|
  {
    if |b| == 0 {
      assert a + b == a;
    } else {
      var b' := b[..|b| - 1];
      assert (a + b)[..|a + b| - 1] == a + b';
      assert (a + b)[|a + b| - 1] == b[|b| - 1];
      ClausesAppend(o, a, b', store, entropy);
    }
  }

  /** Every set directive among `keys` has its clause among the clauses of `keys`. */
  lemma {:induction false} ClausesComplete(o: Options, keys: seq<string>, key: string, store: Option<map<string, string>>, entropy: Entropy)
    requires WellShaped(o.directives)
    requires forall k :: k in keys ==> k in DirectiveNames
    requires key in keys && IsSet(o.directives, key)
    ensures ClauseFor(o, key, store, entropy).Some?
    ensures ClauseFor(o, key, store, entropy).value in Clauses(o, keys, store, entropy)
    decreases |keys|
  {
    var init, last := keys[..|keys| - 1], keys[|keys| - 1];
    assert keys == init + [last];
    if key != last {
      assert key in init;
      assert forall k :: k in init ==> k in keys;
      ClausesComplete(o, init, key, store, entropy);
    }
  }

  /** Every clause of `keys` is the clause of some set directive among `keys`. */
  lemma {:induction false} ClausesSound(o: Options, keys: seq<string>, c: string, store: Option<map<string, string>>, entropy: Entropy)
    returns (key: string)
    requires WellShaped(o.directives)
    requires forall k :: k in keys ==> k in DirectiveNames
    requires c in Clauses(o, keys, store, entropy)
    ensures key in keys && IsSet(o.directives, key) && ClauseFor(o, key, store, entropy) == Some(c)
    decreases |keys|
  {
    var init, last := keys[..|keys| - 1], keys[|keys| - 1];
    assert keys == init + [last];
    assert forall k :: k in init ==> k in keys;
    if c in Clauses(o, init, store, entropy) {
      key := ClausesSound(o, init, c, store, entropy);
    } else {
      key := last;
    }
  }

  /** A directive that is absent or falsy contributes no clause. */
  lemma UnsetContributesNothing(o: Options, key: string, store: Option<map<string, string>>, entropy: Entropy)
    requires WellShaped(o.directives) && key in DirectiveNames
    requires !IsSet(o.directives, key)
    ensures Clauses(o, [key], store, entropy) == []
  {
    assert [key][..0] == [];
  }

  /** Two records that agree on the directive and the nonce selector give it the same clause. */
  lemma ClauseForFrame(o1: Options, o2: Options, key: string, store: Option<map<string, string>>, entropy: Entropy)
    requires WellShaped(o1.directives) && WellShaped(o2.directives) && key in DirectiveNames
    requires o1.generateNonces == o2.generateNonces
    requires IsSet(o1.directives, key) <==> IsSet(o2.directives, key)
    requires IsSet(o1.directives, key) ==> o1.directives[key] == o2.directives[key]
    ensures ClauseFor(o1, key, store, entropy) == ClauseFor(o2, key, store, entropy)
  {
  }

  /**
   * The policy depends only on the set directives of the catalog and on the
   * nonce selector: unset directives, keys outside the catalog and the other
   * settings do not change it.
   */
  lemma {:induction false} PolicyFrame(o1: Options, o2: Options, keys: seq<string>, store: Option<map<string, string>>, entropy: Entropy)
    requires WellShaped(o1.directives) && WellShaped(o2.directives)
    requires forall k :: k in keys ==> k in DirectiveNames
    requires o1.generateNonces == o2.generateNonces
    requires forall k :: k in keys ==> (IsSet(o1.directives, k) <==> IsSet(o2.directives, k))
    requires forall k :: k in keys && IsSet(o1.directives, k) && IsSet(o2.directives, k) ==> o1.directives[k] == o2.directives[k]
    ensures Clauses(o1, keys, store, entropy) == Clauses(o2, keys, store, entropy)
    decreases |keys|
  {
    if |keys| > 0 {
      var init, last := keys[..|keys| - 1], keys[|keys| - 1];
      assert forall k :: k in init ==> k in keys;
      PolicyFrame(o1, o2, init, store, entropy);
      ClauseForFrame(o1, o2, last, store, entropy);
    }
  }

  /**
   * Nonce injection: the sources a list directive emits are its own list,
   * followed by exactly one nonce token when and only when it is script-src
   * or style-src with nonces on for it. Splitting the clause at spaces gives
   * the wire token and then those sources.
   */
  lemma ClauseTokens(o: Options, key: string, store: Option<map<string, string>>, entropy: Entropy)
    requires WellShaped(o.directives) && key in ArrayValues && IsSet(o.directives, key)
    requires o.directives[key].List?
    requires forall i :: 0 <= i < |o.directives[key].items| ==> ' ' !in o.directives[key].items[i]
    requires NonceBearing(key) ==> ' ' !in NonceFor(store, entropy, key)
    requires |o.directives[key].items| > 0 || (NonceBearing(key) && NonceShouldBeGenerated(o, key))
    ensures var xs := o.directives[key].items;
      var c := ClauseFor(o, key, store, entropy);
      c.Some? && Split(c.value, ' ') == [WireName(key)] + (xs +
        (if NonceBearing(key) && NonceShouldBeGenerated(o, key) then [NonceToken(NonceFor(store, entropy, key))] else []))
  {
    var xs := o.directives[key].items;
    var extra := if NonceBearing(key) && NonceShouldBeGenerated(o, key) then [NonceToken(NonceFor(store, entropy, key))] else [];
    WireNamesPlain(key);
    if extra != [] {
      NonceTokenNoSpace(NonceFor(store, entropy, key));
    }
    ListClause(o, key, store, entropy);
    FreeOfConcat(xs, extra, ' ');
    SplitHeadJoin(WireName(key), xs + extra, ' ');
  }

  /** A set list directive's clause: its wire token, a space, and its sources (with the nonce token when one applies). */
  lemma ListClause(o: Options, key: string, store: Option<map<string, string>>, entropy: Entropy)
    requires WellShaped(o.directives) && key in ArrayValues && IsSet(o.directives, key)
    requires o.directives[key].List?
    ensures var nonced := NonceBearing(key) && NonceShouldBeGenerated(o, key);
      var sources := o.directives[key].items + if nonced then [NonceToken(NonceFor(store, entropy, key))] else [];
      ClauseFor(o, key, store, entropy) == Some(WireName(key) + [' '] + Join(sources, [' ']))
  {
    CatalogFacts();
    assert key !in StringValues;
    if !(NonceBearing(key) && NonceShouldBeGenerated(o, key)) {
      assert o.directives[key].items + [] == o.directives[key].items;
    }
  }

  /** Directives other than script-src and style-src never depend on the nonce settings. */
  lemma NonceOnlyOnBearing(o: Options, key: string, store: Option<map<string, string>>, entropy: Entropy,
                           g: NonceSetting, store': Option<map<string, string>>, entropy': Entropy)
    requires WellShaped(o.directives) && key in DirectiveNames && !NonceBearing(key)
    ensures ClauseFor(o, key, store, entropy) == ClauseFor(o.(generateNonces := g), key, store', entropy')
  {
  }

  /** With nonces stored on the request, nothing is drawn at serialization time. */
  lemma {:induction false} StoredNoncesUsed(o: Options, keys: seq<string>, m: map<string, string>, e1: Entropy, e2: Entropy)
    requires WellShaped(o.directives)
    requires forall k :: k in keys ==> k in DirectiveNames
    ensures Clauses(o, keys, Some(m), e1) == Clauses(o, keys, Some(m), e2)
    decreases |keys|
  {
    if |keys| > 0 {
      var init := keys[..|keys| - 1];
      assert forall k :: k in init ==> k in keys;
      StoredNoncesUsed(o, init, m, e1, e2);
      StoredNonceClause(o, keys[|keys| - 1], m, e1, e2);
    }
  }

  lemma StoredNonceClause(o: Options, key: string, m: map<string, string>, e1: Entropy, e2: Entropy)
    requires WellShaped(o.directives) && key in DirectiveNames
    ensures ClauseFor(o, key, Some(m), e1) == ClauseFor(o, key, Some(m), e2)
  {
    if NonceBearing(key) {
      assert NonceFor(Some(m), e1, key) == NonceFor(Some(m), e2, key);
    }
  }

  /**
   * The policy is the clauses joined by `;` with no separator at either end:
   * when no clause contains `;`, splitting the policy at `;` gives the clauses
   * back, and the policy is empty exactly when no directive is set.
   */
  lemma PolicyRoundTrip(o: Options, store: Option<map<string, string>>, entropy: Entropy)
    requires WellShaped(o.directives)
    requires forall c :: c in Clauses(o, DirectiveNames, store, entropy) ==> ';' !in c
    ensures var cs := Clauses(o, DirectiveNames, store, entropy);
      (cs == [] <==> Policy(o, store, entropy) == "")
      && (cs != [] ==> Split(Policy(o, store, entropy), ';') == cs)
  {
    var cs := Clauses(o, DirectiveNames, store, entropy);
    ClausesNonEmpty(o, DirectiveNames, store, entropy);
    if cs != [] {
      assert forall i :: 0 <= i < |cs| ==> cs[i] in cs;
      SplitJoin(cs, ';');
      JoinNonEmpty(cs, ";");
    }
  }

  /** Every clause starts with its wire token, so none is empty. */
  lemma {:induction false} ClausesNonEmpty(o: Options, keys: seq<string>, store: Option<map<string, string>>, entropy: Entropy)
    requires WellShaped(o.directives)
    requires forall k :: k in keys ==> k in DirectiveNames
    ensures forall i :: 0 <= i < |Clauses(o, keys, store, entropy)| ==> Clauses(o, keys, store, entropy)[i] != ""
    decreases |keys|
  {
    if |keys| > 0 {
      var init := keys[..|keys| - 1];
      assert forall k :: k in init ==> k in keys;
      ClausesNonEmpty(o, init, store, entropy);
      ClauseNonEmpty(o, keys[|keys| - 1], store, entropy);
    }
  }

  /** A directive's clause, when it has one, is never empty. */
  lemma ClauseNonEmpty(o: Options, key: string, store: Option<map<string, string>>, entropy: Entropy)
    requires WellShaped(o.directives) && key in DirectiveNames
    ensures ClauseFor(o, key, store, entropy) != Some("")
  {
    WireNamesPlain(key);
  }

  /** Directives none of which is set give no clauses. */
  lemma {:induction false} ClausesOfUnset(o: Options, keys: seq<string>, store: Option<map<string, string>>, entropy: Entropy)
    requires WellShaped(o.directives)
    requires forall k :: k in keys ==> k in DirectiveNames && !IsSet(o.directives, k)
    ensures Clauses(o, keys, store, entropy) == []
    decreases |keys|
  {
    if |keys| > 0 {
      var init := keys[..|keys| - 1];
      assert forall k :: k in init ==> k in keys;
      ClausesOfUnset(o, init, store, entropy);
    }
  }

  /** A record holding at most one directive has at most that directive's clause. */
  lemma ClausesOfSingle(o: Options, i: nat, store: Option<map<string, string>>, entropy: Entropy)
    requires WellShaped(o.directives) && i < |DirectiveNames|
    requires forall k :: k in o.directives ==> k == DirectiveNames[i]
    ensures Clauses(o, DirectiveNames, store, entropy) == OptionToSeq(ClauseFor(o, DirectiveNames[i], store, entropy))
  {
    CatalogFacts();
    forall k | k in DirectiveNames[..i] ensures k in DirectiveNames && !IsSet(o.directives, k) {
      var j :| 0 <= j < i && DirectiveNames[..i][j] == k;
      assert DirectiveNames[j] == k;
    }
    forall k | k in DirectiveNames[i + 1..] ensures k in DirectiveNames && !IsSet(o.directives, k) {
      var j :| 0 <= j < |DirectiveNames| - i - 1 && DirectiveNames[i + 1..][j] == k;
      assert DirectiveNames[i + 1 + j] == k;
    }
    ClausesOfUnset(o, DirectiveNames[..i], store, entropy);
    ClausesOfUnset(o, DirectiveNames[i + 1..], store, entropy);
    ClausesAround(o, i, store, entropy);
  }

  /** The walk split around one directive: the clauses before it, its own, and those after it. */
  lemma ClausesAround(o: Options, i: nat, store: Option<map<string, string>>, entropy: Entropy)
    requires WellShaped(o.directives) && i < |DirectiveNames|
    ensures Clauses(o, DirectiveNames, store, entropy)
      == Clauses(o, DirectiveNames[..i], store, entropy)
         + OptionToSeq(ClauseFor(o, DirectiveNames[i], store, entropy))
         + Clauses(o, DirectiveNames[i + 1..], store, entropy)
  {
    assert DirectiveNames == DirectiveNames[..i + 1] + DirectiveNames[i + 1..];
    ClausesAppend(o, DirectiveNames[..i + 1], DirectiveNames[i + 1..], store, entropy);
    ClausesStep(o, i, store, entropy);
  }

  /** A directive that yields clause `c` splits the clause list around `c`. */
  lemma ClausesAroundSome(o: Options, i: nat, c: string, store: Option<map<string, string>>, entropy: Entropy)
    requires WellShaped(o.directives) && i < |DirectiveNames|
    requires ClauseFor(o, DirectiveNames[i], store, entropy) == Some(c)
    ensures Clauses(o, DirectiveNames, store, entropy)
      == Clauses(o, DirectiveNames[..i], store, entropy) + [c] + Clauses(o, DirectiveNames[i + 1..], store, entropy)
  {
    ClausesAround(o, i, store, entropy);
  }

  /** Walking `a + b` is walking `a`, then walking `b` from the context `a` left. */
  lemma {:induction false} ContextAppend(o: Options, a: seq<string>, b: seq<string>, store: Option<map<string, string>>,
                                         entropy: Entropy, isView: bool, ctx: map<string, string>)
    requires WellShaped(o.directives)
    requires forall k :: k in a ==> k in DirectiveNames
    requires forall k :: k in b ==> k in DirectiveNames
    ensures ContextAfter(o, a + b, store, entropy, isView, ctx)
      == ContextAfter(o, b, store, entropy, isView, ContextAfter(o, a, store, entropy, isView, ctx))
    decreases |b|
  {
    if |b| == 0 {
      assert a + b == a;
    } else {
      var b' := b[..|b| - 1];
      assert (a + b)[..|a + b| - 1] == a + b';
      assert (a + b)[|a + b| - 1] == b[|b| - 1];
      assert forall k :: k in b' ==> k in b;
      ContextAppend(o, a, b', store, entropy, isView, ctx);
    }
  }

  /**
   * A context entry survives the walk unless a nonce-bearing directive of
   * the walk is named after it: the `nonce` default never overrides an
   * existing value.
   */
  lemma {:induction false} ContextPreserves(o: Options, keys: seq<string>, store: Option<map<string, string>>,
                                            entropy: Entropy, isView: bool, ctx: map<string, string>, name: string)
    requires WellShaped(o.directives)
    requires forall k :: k in keys ==> k in DirectiveNames
    requires name in ctx
    requires forall k :: k in keys && NonceBearing(k) ==> name != NonceEntry(k)
    ensures var after := ContextAfter(o, keys, store, entropy, isView, ctx);
      name in after && after[name] == ctx[name]
    decreases |keys|
  {
    if |keys| > 0 {
      var init, last := keys[..|keys| - 1], keys[|keys| - 1];
      assert forall k :: k in init ==> k in keys;
      ContextPreserves(o, init, store, entropy, isView, ctx, name);
      var before := ContextAfter(o, init, store, entropy, isView, ctx);
      assert last in keys;
      StepKeeps(o, last, store, entropy, isView, before, name);
    }
  }

  /** One directive step keeps every entry but the one named after it, and an existing `nonce` entry too. */
  lemma StepKeeps(o: Options, key: string, store: Option<map<string, string>>, entropy: Entropy,
                  isView: bool, ctx: map<string, string>, name: string)
    requires key in DirectiveNames && name in ctx
    requires NonceBearing(key) ==> name != NonceEntry(key)
    ensures var after := ContextStepFor(o, key, store, entropy, isView, ctx);
      name in after && after[name] == ctx[name]
  {
  }

  /** A walk over directives that carry no nonce leaves the context alone. */
  lemma {:induction false} ContextUntouched(o: Options, keys: seq<string>, store: Option<map<string, string>>,
                                            entropy: Entropy, isView: bool, ctx: map<string, string>)
    requires WellShaped(o.directives)
    requires forall k :: k in keys ==> k in DirectiveNames && !NonceBearing(k)
    ensures ContextAfter(o, keys, store, entropy, isView, ctx) == ctx
    decreases |keys|
  {
    if |keys| > 0 {
      var init := keys[..|keys| - 1];
      assert forall k :: k in init ==> k in keys;
      ContextUntouched(o, init, store, entropy, isView, ctx);
    }
  }

  /** Script-src sits at position 15 of the catalog; no nonce-bearing directive precedes it, only style-src follows. */
  lemma ScriptSrcPosition()
    ensures |DirectiveNames| == 20 && DirectiveNames[15] == "scriptSrc"
    ensures forall k :: k in DirectiveNames[..15] ==> k in DirectiveNames && !NonceBearing(k)
    ensures forall k :: k in DirectiveNames[16..] ==> k in DirectiveNames && (NonceBearing(k) ==> k == "styleSrc")
  {
    CatalogFacts();
    forall k | k in DirectiveNames[..15] ensures k in DirectiveNames && !NonceBearing(k) {
      var j :| 0 <= j < 15 && DirectiveNames[..15][j] == k;
      assert DirectiveNames[j] == k;
    }
    forall k | k in DirectiveNames[16..] ensures k in DirectiveNames && (NonceBearing(k) ==> k == "styleSrc") {
      var j :| 0 <= j < 4 && DirectiveNames[16..][j] == k;
      assert DirectiveNames[16 + j] == k;
    }
  }

  /**
   * A view whose script-src carries a nonce ends up with that nonce under
   * `script-nonce`, and under `nonce` unless the context already had one.
   */
  lemma ViewScriptNonce(o: Options, store: Option<map<string, string>>, entropy: Entropy, ctx: map<string, string>)
    requires WellShaped(o.directives) && IsSet(o.directives, "scriptSrc") && NonceShouldBeGenerated(o, "scriptSrc")
    ensures var after, n := ContextAfter(o, DirectiveNames, store, entropy, true, ctx), NonceFor(store, entropy, "scriptSrc");
      "script-nonce" in after && after["script-nonce"] == n
      && "nonce" in after && after["nonce"] == (if "nonce" in ctx then ctx["nonce"] else n)
  {
    ContextAtScript(o, store, entropy, ctx);
    var mid := ContextAfter(o, DirectiveNames[..16], store, entropy, true, ctx);
    AfterScriptKeeps(o, store, entropy, mid, "script-nonce");
    AfterScriptKeeps(o, store, entropy, mid, "nonce");
    ContextSplitAtScript(o, store, entropy, true, ctx);
  }

  /** The walk over the whole catalog is the walk up to script-src, then the walk over the rest. */
  lemma ContextSplitAtScript(o: Options, store: Option<map<string, string>>, entropy: Entropy, isView: bool,
                             ctx: map<string, string>)
    requires WellShaped(o.directives)
    ensures ContextAfter(o, DirectiveNames, store, entropy, isView, ctx)
      == ContextAfter(o, DirectiveNames[16..], store, entropy, isView, ContextAfter(o, DirectiveNames[..16], store, entropy, isView, ctx))
  {
    ScriptSrcPosition();
    assert DirectiveNames[15] in DirectiveNames;
    assert forall k :: k in DirectiveNames[..16] ==> k in DirectiveNames[..15] || k == DirectiveNames[15];
    assert DirectiveNames == DirectiveNames[..16] + DirectiveNames[16..];
    ContextAppend(o, DirectiveNames[..16], DirectiveNames[16..], store, entropy, isView, ctx);
  }

  /** After script-src the walk keeps the `script-nonce` and `nonce` entries. */
  lemma AfterScriptKeeps(o: Options, store: Option<map<string, string>>, entropy: Entropy, mid: map<string, string>, name: string)
    requires WellShaped(o.directives) && name in mid && (name == "script-nonce" || name == "nonce")
    ensures var after := ContextAfter(o, DirectiveNames[16..], store, entropy, true, mid);
      name in after && after[name] == mid[name]
  {
    AfterScriptNames();
    assert "script-nonce" != "style-nonce" && "nonce" != "style-nonce";
    ContextPreserves(o, DirectiveNames[16..], store, entropy, true, mid, name);
  }

  /** Up to and including script-src, the walk only applies script-src's nonce. */
  lemma ContextAtScript(o: Options, store: Option<map<string, string>>, entropy: Entropy, ctx: map<string, string>)
    requires WellShaped(o.directives) && IsSet(o.directives, "scriptSrc") && NonceShouldBeGenerated(o, "scriptSrc")
    ensures var mid, n := ContextAfter(o, DirectiveNames[..16], store, entropy, true, ctx), NonceFor(store, entropy, "scriptSrc");
      "script-nonce" in mid && mid["script-nonce"] == n
      && "nonce" in mid && mid["nonce"] == (if "nonce" in ctx then ctx["nonce"] else n)
  {
    ScriptSrcPosition();
    ContextUntouched(o, DirectiveNames[..15], store, entropy, true, ctx);
    ContextStep(o, 15, store, entropy, true, ctx);
    ScriptNonceStep(o, store, entropy, ctx);
  }

  /** The script-src step of a view walk writes `script-nonce`, and `nonce` unless one is there. */
  lemma ScriptNonceStep(o: Options, store: Option<map<string, string>>, entropy: Entropy, ctx: map<string, string>)
    requires IsSet(o.directives, "scriptSrc") && NonceShouldBeGenerated(o, "scriptSrc")
    ensures "scriptSrc" in DirectiveNames
    ensures var r, n := ContextStepFor(o, "scriptSrc", store, entropy, true, ctx), NonceFor(store, entropy, "scriptSrc");
      "script-nonce" in r && r["script-nonce"] == n
      && "nonce" in r && r["nonce"] == (if "nonce" in ctx then ctx["nonce"] else n)
  {
    NonceBearingListed("scriptSrc");
    assert NonceEntry("scriptSrc") == "script-nonce";
  }

  /** The only nonce-bearing directive after script-src writes `style-nonce`. */
  lemma AfterScriptNames()
    ensures forall k :: k in DirectiveNames[16..] ==> k in DirectiveNames
    ensures forall k :: k in DirectiveNames[16..] && NonceBearing(k) ==> NonceEntry(k) == "style-nonce"
  {
    ScriptSrcPosition();
    assert NonceEntry("styleSrc") == "style-nonce";
  }
}
