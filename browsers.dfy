/**
 * The per-browser rewrites applied before serialization: the legacy
 * Firefox transform, its Firefox 4 variant and the sandbox-only policy for
 * Internet Explorer (lib/index.js:101-161).
 */
module Browsers {
  import opened Wrappers
  import opened Directives
  import opened Strings
  import opened Serializer
  import opened Layout

  /** The two keywords old Firefox does not understand outside script-src. */
  predicate Unsafe(v: string)
  {
    v == "'unsafe-inline'" || v == "'unsafe-eval'"
  }

  /** The historical Firefox spelling of a script-src source. */
  function RenameScriptSource(v: string): string
  {
    if v == "'unsafe-inline'" then "'inline-script'"
    else if v == "'unsafe-eval'" then "'eval-script'"
    else v
  }

  /** `options.scriptSrc.map(...)` with the renaming callback. */
  function RenameScriptSources(xs: seq<string>): (r: seq<string>)
    ensures |r| == |xs|
    ensures forall i :: 0 <= i < |xs| ==> r[i] == RenameScriptSource(xs[i])
    ensures forall i :: 0 <= i < |r| ==> !Unsafe(r[i])
    ensures forall i :: 0 <= i < |xs| && !Unsafe(xs[i]) ==> r[i] == xs[i]
  {
    seq(|xs|, i requires 0 <= i < |xs| => RenameScriptSource(xs[i]))
  }

  /** `filter` dropping `'unsafe-inline'` and `'unsafe-eval'`, keeping the order of the rest (`StripAppend`). */
  function StripUnsafe(xs: seq<string>): (r: seq<string>)
    ensures |r| <= |xs|
    ensures forall v :: v in r <==> v in xs && !Unsafe(v)
    ensures (forall i :: 0 <= i < |xs| ==> !Unsafe(xs[i])) ==> r == xs
    decreases |xs|
  {
    if |xs| == 0 then []
    else (if Unsafe(xs[0]) then [] else [xs[0]]) + StripUnsafe(xs[1..])
  }

  /** The filter works piece by piece, so the kept sources stay in their order. */
  lemma {:induction false} StripAppend(a: seq<string>, b: seq<string>)
    ensures StripUnsafe(a + b) == StripUnsafe(a) + StripUnsafe(b)
    decreases |a|
  {
    if |a| > 0 {
      var head := if Unsafe(a[0]) then [] else [a[0]];
      var rest, tail := StripUnsafe(a[1..]), StripUnsafe(b);
      assert StripUnsafe(a + b) == head + StripUnsafe(a[1..] + b) by {
        TailOfAppend(a, b);
      }
      assert StripUnsafe(a[1..] + b) == rest + tail by {
        StripAppend(a[1..], b);
      }
      assert StripUnsafe(a) == head + rest;
      assert head + (rest + tail) == (head + rest) + tail;
    } else {
      assert a + b == b;
    }
  }

  /** Connect-src moves to xhr-src (an absent connect-src leaves xhr-src unset); sandbox is dropped. */
  function MoveConnect(d: map<string, Value>): map<string, Value>
  {
    var moved := if "connectSrc" in d then d["xhrSrc" := d["connectSrc"]] else d - {"xhrSrc"};
    moved - {"connectSrc"} - {"sandbox"}
  }

  /** What the filtering loop leaves of one directive: a stripped list, nothing if it came out empty. */
  function StripDirective(key: string, v: Value): Option<Value>
  {
    if key in ArrayValues && Truthy(v) && v.List? then
      var kept := StripUnsafe(v.items);
      if |kept| == 0 then None else Some(List(kept))
    else Some(v)
  }

  /** The filtering loop over all list directives. */
  function StripAll(d: map<string, Value>): map<string, Value>
  {
    map k | k in d && StripDirective(k, d[k]).Some? :: StripDirective(k, d[k]).value
  }

  /** The record `generateFirefoxPolicy` serializes; script-src must be present (it is read unguarded). */
  function FirefoxOptions(o: Options): Options
    requires WellShaped(o.directives) && "scriptSrc" in o.directives
  {
    var moved := MoveConnect(o.directives);
    assert Shaped("scriptSrc", o.directives["scriptSrc"]);
    var renamed := moved["scriptSrc" := List(RenameScriptSources(o.directives["scriptSrc"].items))];
    o.(directives := StripAll(renamed))
  }

  /** The record `generateIEPolicy` serializes: a fresh one holding only sandbox. */
  function SandboxOnly(o: Options): (r: Options)
    ensures r.directives.Keys <= {"sandbox"}
    ensures "sandbox" in r.directives <==> "sandbox" in o.directives
    ensures "sandbox" in o.directives ==> r.directives["sandbox"] == o.directives["sandbox"]
    ensures !r.reportOnly && !r.oldSafari && r.generateNonces == Unset
  {
    var d := if "sandbox" in o.directives then map["sandbox" := o.directives["sandbox"]] else map[];
    Options(d, false, false, Unset)
  }

  /** What `generateFirefoxPolicy` returns. */
  function FirefoxPolicy(o: Options, store: Option<map<string, string>>, entropy: Entropy): string
    requires WellShaped(o.directives) && "scriptSrc" in o.directives
  {
    FirefoxWellShaped(o);
    Policy(FirefoxOptions(o), store, entropy)
  }

  /** What `generateFirefox4Policy` returns: the first `default-src` in the text becomes `allow`. */
  function Firefox4Policy(o: Options, store: Option<map<string, string>>, entropy: Entropy): string
    requires WellShaped(o.directives) && "scriptSrc" in o.directives
  {
    ReplaceFirst(FirefoxPolicy(o, store, entropy), "default-src", "allow")
  }

  /** What `generateIEPolicy` returns. */
  function IEPolicy(o: Options, store: Option<map<string, string>>, entropy: Entropy): string
    requires WellShaped(o.directives)
  {
    SandboxOnlyWellShaped(o);
    Policy(SandboxOnly(o), store, entropy)
  }

  lemma SandboxOnlyWellShaped(o: Options)
    requires WellShaped(o.directives)
    ensures WellShaped(SandboxOnly(o).directives)
  {
    if "sandbox" in o.directives {
      assert Shaped("sandbox", o.directives["sandbox"]);
    }
  }

  /** The Firefox rewrite keeps the shape the serializer needs. */
  lemma FirefoxWellShaped(o: Options)
    requires WellShaped(o.directives) && "scriptSrc" in o.directives
    ensures WellShaped(FirefoxOptions(o).directives)
  {
    CatalogFacts();
    var d := o.directives;
    var moved := MoveConnect(d);
    assert forall k :: k in moved ==> k != "sandbox" && Shaped(k, moved[k]) by {
      forall k | k in moved ensures k != "sandbox" && Shaped(k, moved[k]) {
        if k == "xhrSrc" {
          assert Shaped("connectSrc", d["connectSrc"]);
        } else {
          assert Shaped(k, d[k]);
        }
      }
    }
  }

  /** Filtering twice is filtering once. */
  lemma {:induction false} StripIdempotent(xs: seq<string>)
    ensures StripUnsafe(StripUnsafe(xs)) == StripUnsafe(xs)
  {
    var r := StripUnsafe(xs);
    assert forall i :: 0 <= i < |r| ==> !Unsafe(r[i]) by {
      forall i | 0 <= i < |r| ensures !Unsafe(r[i]) {
        assert r[i] in r;
      }
    }
  }

  /**
   * `generateFirefoxPolicy`'s rewrite of the options, done in place as the
   * source does it: move connect-src, delete sandbox, rename the script-src
   * keywords, then filter every list directive and unset the ones left empty.
   */
  method FirefoxTransform(o: Options) returns (r: Options)
    requires WellShaped(o.directives) && "scriptSrc" in o.directives
    ensures r == FirefoxOptions(o)
  {
    var d := o.directives;
    if "connectSrc" in d {
      d := d["xhrSrc" := d["connectSrc"]];
    } else {
      d := d - {"xhrSrc"};
    }
    d := d - {"connectSrc"};
    d := d - {"sandbox"};
    assert Shaped("scriptSrc", o.directives["scriptSrc"]);
    d := d["scriptSrc" := List(RenameScriptSources(d["scriptSrc"].items))];
    FirefoxRenamedShape(o);
    d := StripLists(d);
    r := o.(directives := d);
  }

  /**
   * The `arrayValues.forEach` loop of `generateFirefoxPolicy`: every set list
   * directive loses its unsafe keywords and is unset when nothing is left.
   */
  method StripLists(d0: map<string, Value>) returns (d: map<string, Value>)
    requires forall k :: k in d0 && k in ArrayValues ==> d0[k].List?
    ensures d == StripAll(d0)
  {
    d := d0;
    ghost var done: set<string> := {};
    var i := 0;
    while i < |ArrayValues|
      invariant 0 <= i <= |ArrayValues|
      invariant forall k :: k in done ==> k in ArrayValues
      invariant forall j :: 0 <= j < i ==> ArrayValues[j] in done
      invariant StrippedUpTo(d0, d, done)
    {
      var key := ArrayValues[i];
      StripStep(d0, d, done, key);
      d := StripEntry(d, key);
      done := done + {key};
      i := i + 1;
    }
    StrippedAll(d0, d, done);
  }

  /** The map after filtering the list under `key`: its stripped value, or no entry when nothing is left. */
  function StripAt(d: map<string, Value>, key: string): (r: map<string, Value>)
    ensures forall k :: k != key ==> (k in r <==> k in d) && (k in r ==> r[k] == d[k])
  {
    if key in d && StripDirective(key, d[key]).Some? then d[key := StripDirective(key, d[key]).value] else d - {key}
  }

  /** One pass of the loop body: filter the list under `key`, unset it if it came out empty. */
  method StripEntry(d: map<string, Value>, key: string) returns (d': map<string, Value>)
    requires key in ArrayValues && (key in d ==> d[key].List?)
    ensures d' == StripAt(d, key)
  {
    d' := d;
    if key in d && Truthy(d[key]) {
      var kept := StripUnsafe(d[key].items);
      if |kept| == 0 {
        d' := d - {key};
      } else {
        d' := d[key := List(kept)];
      }
    }
  }

  /** The loop invariant: the keys in `done` are filtered, every other key is as it was. */
  ghost predicate StrippedUpTo(d0: map<string, Value>, d: map<string, Value>, done: set<string>)
  {
    d.Keys <= d0.Keys
    && (forall k :: k in d0 && k !in done ==> k in d && d[k] == d0[k])
    && (forall k :: k in d0 && k in done ==>
          (k in d <==> StripDirective(k, d0[k]).Some?) && (k in d ==> d[k] == StripDirective(k, d0[k]).value))
  }

  /** Filtering one more list directive keeps the invariant, even for a key already filtered. */
  lemma StripStep(d0: map<string, Value>, d: map<string, Value>, done: set<string>, key: string)
    requires StrippedUpTo(d0, d, done) && key in ArrayValues
    requires key in d0 ==> d0[key].List?
    ensures key in d ==> d[key].List?
    ensures StrippedUpTo(d0, StripAt(d, key), done + {key})
  {
    if key in d0 {
      StripIdempotent(d0[key].items);
    }
  }

  /** Once every list directive is filtered, the map is `StripAll` of the original. */
  lemma StrippedAll(d0: map<string, Value>, d: map<string, Value>, done: set<string>)
    requires StrippedUpTo(d0, d, done)
    requires forall k :: k in done ==> k in ArrayValues
    requires forall j :: 0 <= j < |ArrayValues| ==> ArrayValues[j] in done
    ensures d == StripAll(d0)
  {
    forall k | k in d0 && k !in done ensures StripDirective(k, d0[k]) == Some(d0[k]) {
      assert k !in ArrayValues;
    }
    forall k ensures k in d <==> k in StripAll(d0) {
      StripAllAt(d0, k);
    }
  }

  /** Before the filtering loop every list directive holds a list and sandbox is gone. */
  lemma FirefoxRenamedShape(o: Options)
    requires WellShaped(o.directives) && "scriptSrc" in o.directives
    ensures var moved := MoveConnect(o.directives);
      var renamed := moved["scriptSrc" := List(RenameScriptSources(o.directives["scriptSrc"].items))];
      forall k :: k in renamed && k in ArrayValues ==> renamed[k].List?
  {
    var d := o.directives;
    var moved := MoveConnect(d);
    forall k | k in moved && k in ArrayValues ensures moved[k].List? {
      if k == "xhrSrc" {
        assert Shaped("connectSrc", d["connectSrc"]);
      } else {
        assert Shaped(k, d[k]);
      }
    }
  }

  /** `generateFirefoxPolicy`: rewrite, then serialize. */
  method GenerateFirefoxPolicy(o: Options, store: Option<map<string, string>>, entropy: Entropy,
                               isView: bool, ctx: map<string, string>)
    returns (policy: string, ctx': map<string, string>)
    requires WellShaped(o.directives) && "scriptSrc" in o.directives
    ensures policy == FirefoxPolicy(o, store, entropy)
    ensures FirefoxWellShapedFact(o) && ctx' == ContextAfter(FirefoxOptions(o), DirectiveNames, store, entropy, isView, ctx)
  {
    var rewritten := FirefoxTransform(o);
    FirefoxWellShaped(o);
    policy, ctx' := GeneratePolicy(rewritten, store, entropy, isView, ctx);
  }

  /** One key of the filtered record: kept exactly when its directive survives, with the stripped value. */
  lemma StripAllAt(d: map<string, Value>, k: string)
    ensures k in StripAll(d) <==> k in d && StripDirective(k, d[k]).Some?
    ensures k in StripAll(d) ==> StripAll(d)[k] == StripDirective(k, d[k]).value
  {
  }

  /** The Firefox rewrite of `o` may be serialized. */
  predicate FirefoxWellShapedFact(o: Options)
    requires WellShaped(o.directives) && "scriptSrc" in o.directives
  {
    WellShaped(FirefoxOptions(o).directives)
  }

  /** `generateFirefox4Policy`: the legacy Firefox policy with `allow` for the first `default-src`. */
  method GenerateFirefox4Policy(o: Options, store: Option<map<string, string>>, entropy: Entropy,
                                isView: bool, ctx: map<string, string>)
    returns (policy: string, ctx': map<string, string>)
    requires WellShaped(o.directives) && "scriptSrc" in o.directives
    ensures policy == Firefox4Policy(o, store, entropy)
    ensures FirefoxWellShapedFact(o) && ctx' == ContextAfter(FirefoxOptions(o), DirectiveNames, store, entropy, isView, ctx)
  {
    policy, ctx' := GenerateFirefoxPolicy(o, store, entropy, isView, ctx);
    policy := ReplaceFirst(policy, "default-src", "allow");
  }

  /** `generateIEPolicy`: serialize a record that holds only the sandbox directive. */
  method GenerateIEPolicy(o: Options, store: Option<map<string, string>>, entropy: Entropy,
                          isView: bool, ctx: map<string, string>)
    returns (policy: string, ctx': map<string, string>)
    requires WellShaped(o.directives)
    ensures policy == IEPolicy(o, store, entropy)
    ensures ctx' == ctx
  {
    var d: map<string, Value> := map[];
    if "sandbox" in o.directives {
      d := map["sandbox" := o.directives["sandbox"]];
    }
    SandboxOnlyWellShaped(o);
    policy, ctx' := GeneratePolicy(Options(d, false, false, Unset), store, entropy, isView, ctx);
    SandboxOnlyNoNonce(o, store, entropy, isView, ctx, DirectiveNames);
  }

  /** The sandbox-only record has no nonce-bearing directive, so a view context is left alone. */
  lemma {:induction false} SandboxOnlyNoNonce(o: Options, store: Option<map<string, string>>, entropy: Entropy,
                                              isView: bool, ctx: map<string, string>, keys: seq<string>)
    requires WellShaped(o.directives)
    requires forall k :: k in keys ==> k in DirectiveNames
    ensures SandboxOnlyWellShapedFact(o) && ContextAfter(SandboxOnly(o), keys, store, entropy, isView, ctx) == ctx
    decreases |keys|
  {
    SandboxOnlyWellShaped(o);
    if |keys| > 0 {
      var init := keys[..|keys| - 1];
      assert forall k :: k in init ==> k in keys;
      SandboxOnlyNoNonce(o, store, entropy, isView, ctx, init);
    }
  }

  predicate SandboxOnlyWellShapedFact(o: Options)
  {
    WellShaped(SandboxOnly(o).directives)
  }

  /** The legacy Firefox script-src spelling has no unsafe keyword left. */
  lemma RenamedIsSafe(xs: seq<string>)
    ensures StripUnsafe(RenameScriptSources(xs)) == RenameScriptSources(xs)
  {
  }

  /**
   * What the legacy Firefox rewrite leaves of directive `k`, key by key:
   * xhr-src takes connect-src's filtered list and connect-src and sandbox are
   * gone; script-src has its unsafe keywords renamed; every other list loses
   * them; a list left empty is unset; string directives are unchanged.
   */
  function FirefoxExpected(d: map<string, Value>, k: string): Option<Value>
    requires WellShaped(d) && "scriptSrc" in d
  {
    if k == "connectSrc" || k == "sandbox" then None
    else if k == "xhrSrc" then
      if "connectSrc" in d && d["connectSrc"].List? && StripUnsafe(d["connectSrc"].items) != []
      then Some(List(StripUnsafe(d["connectSrc"].items))) else None
    else if k == "scriptSrc" then
      if d["scriptSrc"].List? && d["scriptSrc"].items != [] then Some(List(RenameScriptSources(d["scriptSrc"].items)))
      else None
    else if k !in d then None
    else if k in ArrayValues && d[k].List? then
      if StripUnsafe(d[k].items) != [] then Some(List(StripUnsafe(d[k].items))) else None
    else Some(d[k])
  }

  lemma FirefoxKey(o: Options, k: string)
    requires WellShaped(o.directives) && "scriptSrc" in o.directives
    ensures var r := FirefoxOptions(o).directives;
      (k in r <==> FirefoxExpected(o.directives, k).Some?)
      && (k in r ==> r[k] == FirefoxExpected(o.directives, k).value)
  {
    var d := o.directives;
    assert Shaped("scriptSrc", d["scriptSrc"]);
    var renamed := MoveConnect(d)["scriptSrc" := List(RenameScriptSources(d["scriptSrc"].items))];
    assert FirefoxOptions(o).directives == StripAll(renamed);
    StripAllAt(renamed, k);
    if k == "scriptSrc" {
      FirefoxScriptKey(d, renamed);
    } else if k == "xhrSrc" {
      FirefoxXhrKey(d, renamed);
    } else if k == "connectSrc" || k == "sandbox" {
      assert k !in renamed;
    } else {
      FirefoxOtherKey(d, renamed, k);
    }
  }

  /** Script-src after the rename and filter: the renamed list, or unset when it was empty. */
  lemma FirefoxScriptKey(d: map<string, Value>, renamed: map<string, Value>)
    requires WellShaped(d) && "scriptSrc" in d && d["scriptSrc"].List?
    requires renamed == MoveConnect(d)["scriptSrc" := List(RenameScriptSources(d["scriptSrc"].items))]
    ensures "scriptSrc" in renamed
    ensures StripDirective("scriptSrc", renamed["scriptSrc"]) == FirefoxExpected(d, "scriptSrc")
  {
    RenamedIsSafe(d["scriptSrc"].items);
    CatalogFacts();
  }

  /** Xhr-src after the move and filter: connect-src's filtered list, or unset. */
  lemma FirefoxXhrKey(d: map<string, Value>, renamed: map<string, Value>)
    requires WellShaped(d) && "scriptSrc" in d && d["scriptSrc"].List?
    requires renamed == MoveConnect(d)["scriptSrc" := List(RenameScriptSources(d["scriptSrc"].items))]
    ensures "xhrSrc" in renamed <==> "connectSrc" in d
    ensures "xhrSrc" in renamed ==> StripDirective("xhrSrc", renamed["xhrSrc"]) == FirefoxExpected(d, "xhrSrc")
  {
    if "connectSrc" in d {
      assert Shaped("connectSrc", d["connectSrc"]);
      assert renamed["xhrSrc"] == d["connectSrc"];
      CatalogFacts();
    }
  }

  /** Every other directive is only filtered. */
  lemma FirefoxOtherKey(d: map<string, Value>, renamed: map<string, Value>, k: string)
    requires WellShaped(d) && "scriptSrc" in d && d["scriptSrc"].List?
    requires renamed == MoveConnect(d)["scriptSrc" := List(RenameScriptSources(d["scriptSrc"].items))]
    requires k != "scriptSrc" && k != "xhrSrc" && k != "connectSrc" && k != "sandbox"
    ensures k in renamed <==> k in d
    ensures k in renamed ==> renamed[k] == d[k] && StripDirective(k, d[k]) == FirefoxExpected(d, k)
  {
    if k in d {
      assert renamed[k] == d[k];
      assert Shaped(k, d[k]);
    }
  }

  /** The legacy Firefox rewrite changes directives as `FirefoxExpected` says and keeps the settings. */
  lemma FirefoxRewrite(o: Options)
    requires WellShaped(o.directives) && "scriptSrc" in o.directives
    ensures var f := FirefoxOptions(o);
      f.reportOnly == o.reportOnly && f.oldSafari == o.oldSafari && f.generateNonces == o.generateNonces
    ensures var r := FirefoxOptions(o).directives;
      forall k :: (k in r <==> FirefoxExpected(o.directives, k).Some?)
        && (k in r ==> r[k] == FirefoxExpected(o.directives, k).value)
  {
    forall k ensures var r := FirefoxOptions(o).directives;
      (k in r <==> FirefoxExpected(o.directives, k).Some?)
        && (k in r ==> r[k] == FirefoxExpected(o.directives, k).value)
    {
      FirefoxKey(o, k);
    }
  }

  /** After the legacy Firefox rewrite every list directive is non-empty and free of unsafe keywords. */
  lemma FirefoxListsClean(o: Options)
    requires WellShaped(o.directives) && "scriptSrc" in o.directives
    ensures var r := FirefoxOptions(o).directives;
      forall k :: k in r && k in ArrayValues ==>
        r[k].List? && |r[k].items| > 0 && forall i :: 0 <= i < |r[k].items| ==> !Unsafe(r[k].items[i])
  {
    var d := o.directives;
    var r := FirefoxOptions(o).directives;
    forall k | k in r && k in ArrayValues
      ensures r[k].List? && |r[k].items| > 0 && forall i :: 0 <= i < |r[k].items| ==> !Unsafe(r[k].items[i])
    {
      FirefoxKey(o, k);
      CatalogFacts();
      if k == "scriptSrc" {
        RenamedIsSafe(d["scriptSrc"].items);
      } else if k == "xhrSrc" {
        StripIdempotent(d["connectSrc"].items);
      } else {
        assert Shaped(k, d[k]);
        StripIdempotent(d[k].items);
      }
      assert r[k].items == StripUnsafe(r[k].items);
      forall i | 0 <= i < |r[k].items| ensures !Unsafe(r[k].items[i]) {
        assert r[k].items[i] in StripUnsafe(r[k].items);
      }
    }
  }

  /** The sandbox-only record yields at most the sandbox clause. */
  lemma IEClauses(o: Options, store: Option<map<string, string>>, entropy: Entropy)
    requires WellShaped(o.directives)
    ensures SandboxOnlyWellShapedFact(o)
    ensures Clauses(SandboxOnly(o), DirectiveNames, store, entropy)
      == OptionToSeq(ClauseFor(SandboxOnly(o), "sandbox", store, entropy))
  {
    SandboxOnlyWellShaped(o);
    SandboxPosition();
    ClausesOfSingle(SandboxOnly(o), 14, store, entropy);
  }

  /**
   * Internet Explorer gets the sandbox directive and nothing else: nothing
   * when sandbox is not set, `sandbox` for `sandbox: true`, and
   * `sandbox <sources>` for a list.
   */
  lemma IEPolicyCases(o: Options, store: Option<map<string, string>>, entropy: Entropy)
    requires WellShaped(o.directives)
    ensures !IsSet(o.directives, "sandbox") ==> IEPolicy(o, store, entropy) == ""
    ensures "sandbox" in o.directives && o.directives["sandbox"] == Flag(true) ==> IEPolicy(o, store, entropy) == "sandbox"
    ensures "sandbox" in o.directives && o.directives["sandbox"].List? ==>
      IEPolicy(o, store, entropy) == "sandbox " + Join(o.directives["sandbox"].items, " ")
  {
    IEClauses(o, store, entropy);
    SandboxClause(SandboxOnly(o), store, entropy);
  }

  /**
   * Firefox 4: the default-src clause is sent as an `allow` clause and
   * the rest of the legacy policy is unchanged, provided the base-uri and
   * child-src clauses that precede it do not themselves contain the text
   * `default-src` (the rename is textual and hits the first occurrence).
   */
  lemma Firefox4Renames(o: Options, store: Option<map<string, string>>, entropy: Entropy)
    requires WellShaped(o.directives) && "scriptSrc" in o.directives
    requires FirefoxWellShapedFact(o) && IsSet(FirefoxOptions(o).directives, "defaultSrc")
    requires forall j :: !OccursAt(Join(Clauses(FirefoxOptions(o), DirectiveNames[..3], store, entropy), ";"), "default-src", j)
    ensures var f := FirefoxOptions(o);
      var before, after := Clauses(f, DirectiveNames[..3], store, entropy), Clauses(f, DirectiveNames[4..], store, entropy);
      var sources := Join(f.directives["defaultSrc"].items, " ");
      FirefoxPolicy(o, store, entropy) == Join(before + ["default-src " + sources] + after, ";")
      && Firefox4Policy(o, store, entropy) == Join(before + ["allow " + sources] + after, ";")
  {
    RenameDefaultClause(FirefoxOptions(o), store, entropy);
  }

  /** When the legacy policy does not mention default-src, Firefox 4 gets it unchanged. */
  lemma Firefox4WithoutDefault(o: Options, store: Option<map<string, string>>, entropy: Entropy)
    requires WellShaped(o.directives) && "scriptSrc" in o.directives
    requires forall j :: !OccursAt(FirefoxPolicy(o, store, entropy), "default-src", j)
    ensures Firefox4Policy(o, store, entropy) == FirefoxPolicy(o, store, entropy)
  {
    ReplaceAbsent(FirefoxPolicy(o, store, entropy), "default-src", "allow");
  }
}
