/**
 * The quoting pass `validateOptions` runs once the schema has accepted a
 * configuration (lib/index.js:352-385). The schema itself is outside the
 * model: its verdict arrives as a `Result`.
 */
module Normalizer {
  import opened Wrappers
  import opened Directives

  /** One source after quoting: a bare keyword gets single quotes, anything else is kept. */
  function Quote(v: string): string
  {
    if v in NeedQuotes then "'" + v + "'" else v
  }

  /** `value[key].map(...)` with the quoting callback. */
  function QuoteList(items: seq<string>): (r: seq<string>)
    ensures |r| == |items|
    ensures forall i :: 0 <= i < |items| ==> r[i] == Quote(items[i])
    ensures forall i :: 0 <= i < |r| ==> r[i] !in NeedQuotes
    ensures forall i :: 0 <= i < |items| && items[i] !in NeedQuotes ==> r[i] == items[i]
  {
    QuoteNeverKeyword();
    seq(|items|, i requires 0 <= i < |items| => Quote(items[i]))
  }

  /** The quoting pass applied to one directive value. */
  function QuoteValue(key: string, v: Value): Value
  {
    if key in ArrayValues && v.List? then List(QuoteList(v.items)) else v
  }

  /** Every directive of the record after the quoting pass. */
  function Normalized(d: map<string, Value>): map<string, Value>
  {
    map k | k in d :: QuoteValue(k, d[k])
  }

  /** The schema's outcome after the quoting pass: errors pass through, accepted options get quoted. */
  function Validated(schemaOut: Result<Options, string>): (r: Result<Options, string>)
    ensures r.Err? ==> r == schemaOut
    ensures r.Ok? <==> schemaOut.Ok?
    ensures r.Ok? ==>
      r.value.directives.Keys == schemaOut.value.directives.Keys
      && r.value.reportOnly == schemaOut.value.reportOnly
      && r.value.oldSafari == schemaOut.value.oldSafari
      && r.value.generateNonces == schemaOut.value.generateNonces
  {
    match schemaOut
    case Err(e) => Err(e)
    case Ok(o) => Ok(o.(directives := Normalized(o.directives)))
  }

  /** The schema accepted `schemaOut` only in a shape the engine can work with. */
  predicate SchemaShaped(schemaOut: Result<Options, string>)
  {
    schemaOut.Ok? ==> WellShaped(schemaOut.value.directives)
  }

  /**
   * `validateOptions`: walks the list directives in catalog order and
   * rewrites each present one in place, leaving `sandbox: true` alone.
   */
  method ValidateOptions(schemaOut: Result<Options, string>) returns (r: Result<Options, string>)
    requires SchemaShaped(schemaOut)
    ensures r == Validated(schemaOut)
  {
    if schemaOut.Err? {
      return Err(schemaOut.error);
    }
    var value := schemaOut.value;
    var d := value.directives;
    ghost var done: set<string> := {};
    var i := 0;
    while i < |ArrayValues|
      invariant 0 <= i <= |ArrayValues|
      invariant forall k :: k in done ==> k in ArrayValues
      invariant forall j :: 0 <= j < i ==> ArrayValues[j] in done
      invariant QuotedUpTo(value.directives, d, done)
    {
      var key := ArrayValues[i];
      QuoteStep(value.directives, d, done, key);
      d := QuoteEntry(d, key);
      done := done + {key};
      i := i + 1;
    }
    QuotedAll(value.directives, d, done);
    r := Ok(value.(directives := d));
  }

  /** The record after quoting the directive under `key`, if it is there. */
  function QuoteAt(d: map<string, Value>, key: string): (r: map<string, Value>)
    ensures r.Keys == d.Keys
    ensures forall k :: k in d && k != key ==> r[k] == d[k]
  {
    if key in d then d[key := QuoteValue(key, d[key])] else d
  }

  /** One pass of the loop body: quote the list under `key`; `sandbox: true` keeps its value. */
  method QuoteEntry(d: map<string, Value>, key: string) returns (d': map<string, Value>)
    requires key in ArrayValues && (key in d ==> Shaped(key, d[key]))
    ensures d' == QuoteAt(d, key)
  {
    d' := d;
    if key in d {
      if key == "sandbox" && d[key] == Flag(true) {
        // `sandbox: true` keeps its value
      } else {
        d' := d[key := List(QuoteList(d[key].items))];
      }
    }
  }

  /** The loop invariant: the keys in `done` are quoted, every other key is as the schema left it. */
  ghost predicate QuotedUpTo(d0: map<string, Value>, d: map<string, Value>, done: set<string>)
  {
    d.Keys == d0.Keys
    && forall k :: k in d ==> d[k] == if k in done then QuoteValue(k, d0[k]) else d0[k]
  }

  /** Quoting one more list directive keeps the invariant, even for a key already quoted. */
  lemma QuoteStep(d0: map<string, Value>, d: map<string, Value>, done: set<string>, key: string)
    requires WellShaped(d0) && QuotedUpTo(d0, d, done) && key in ArrayValues
    ensures key in d ==> Shaped(key, d[key])
    ensures QuotedUpTo(d0, QuoteAt(d, key), done + {key})
  {
    if key in d {
      assert Shaped(key, d0[key]);
      if d0[key].List? {
        QuoteListIdempotent(d0[key].items);
      }
    }
  }

  /** Once every list directive is quoted, the record is `Normalized` of the original. */
  lemma QuotedAll(d0: map<string, Value>, d: map<string, Value>, done: set<string>)
    requires QuotedUpTo(d0, d, done)
    requires forall k :: k in done ==> k in ArrayValues
    requires forall j :: 0 <= j < |ArrayValues| ==> ArrayValues[j] in done
    ensures d == Normalized(d0)
  {
    forall k | k in d && k !in done ensures d[k] == QuoteValue(k, d0[k]) {
      assert k !in ArrayValues;
    }
  }

  /**
   * The quoting property: a failed validation stays failed; an accepted one
   * keeps every key and setting, keeps length and order of every list, wraps
   * exactly the bare keywords in single quotes and leaves `sandbox: true`
   * and the string directives untouched.
   */
  lemma ValidatedQuotes(schemaOut: Result<Options, string>)
    requires SchemaShaped(schemaOut)
    ensures schemaOut.Err? <==> Validated(schemaOut).Err?
    ensures schemaOut.Err? ==> Validated(schemaOut).error == schemaOut.error
    ensures schemaOut.Ok? ==>
      var o, o' := schemaOut.value, Validated(schemaOut).value;
      o'.directives.Keys == o.directives.Keys
      && o'.reportOnly == o.reportOnly && o'.oldSafari == o.oldSafari && o'.generateNonces == o.generateNonces
      && (forall k :: k in o.directives && k !in ArrayValues ==> o'.directives[k] == o.directives[k])
      && ("sandbox" in o.directives && o.directives["sandbox"] == Flag(true) ==> o'.directives["sandbox"] == Flag(true))
      && (forall k :: k in o.directives && k in ArrayValues && o.directives[k].List? ==>
            o'.directives[k].List?
            && |o'.directives[k].items| == |o.directives[k].items|
            && forall i :: 0 <= i < |o.directives[k].items| ==>
                 var v := o.directives[k].items[i];
                 o'.directives[k].items[i] == if v in NeedQuotes then "'" + v + "'" else v)
  {
  }

  /** No quoted source is a bare keyword, for every source at once. */
  lemma QuoteNeverKeyword()
    ensures forall v :: Quote(v) !in NeedQuotes
  {
    forall v ensures Quote(v) !in NeedQuotes {
      QuotedIsNotKeyword(v);
    }
  }

  /** A quoted keyword is never itself a bare keyword. */
  lemma QuotedIsNotKeyword(v: string)
    ensures Quote(v) !in NeedQuotes
  {
    if v in NeedQuotes {
      var q := "'" + v + "'";
      assert q[0] == '\'';
      forall w | w in NeedQuotes ensures q != w {
        assert w[0] != '\'';
      }
    }
  }

  /** After validation no list directive holds a bare keyword any more. */
  lemma {:induction false} NoBareKeywords(d: map<string, Value>)
    ensures forall k, i :: k in Normalized(d) && k in ArrayValues && Normalized(d)[k].List? && 0 <= i < |Normalized(d)[k].items| ==>
      Normalized(d)[k].items[i] !in NeedQuotes
  {
    forall k, i | k in Normalized(d) && k in ArrayValues && Normalized(d)[k].List? && 0 <= i < |Normalized(d)[k].items|
      ensures Normalized(d)[k].items[i] !in NeedQuotes
    {
      QuotedIsNotKeyword(d[k].items[i]);
    }
  }

  /** Quoting a list twice is quoting it once. */
  lemma QuoteListIdempotent(xs: seq<string>)
    ensures QuoteList(QuoteList(xs)) == QuoteList(xs)
  {
    forall i | 0 <= i < |xs| ensures Quote(Quote(xs[i])) == Quote(xs[i]) {
      QuotedIsNotKeyword(xs[i]);
    }
  }

  /** Quoting twice is quoting once. */
  lemma {:induction false} NormalizedIdempotent(d: map<string, Value>)
    ensures Normalized(Normalized(d)) == Normalized(d)
  {
    forall k | k in d && k in ArrayValues && d[k].List?
      ensures QuoteList(QuoteList(d[k].items)) == QuoteList(d[k].items)
    {
      QuoteListIdempotent(d[k].items);
    }
  }

  /** The quoting pass keeps the schema's shape guarantee. */
  lemma {:induction false} NormalizedWellShaped(d: map<string, Value>)
    requires WellShaped(d)
    ensures WellShaped(Normalized(d))
  {
    forall k | k in Normalized(d) ensures Shaped(k, Normalized(d)[k]) {
      assert Shaped(k, d[k]);
    }
  }
}
