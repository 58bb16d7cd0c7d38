/**
 * Browser compatibility: which header name and which policy rewrite a
 * request gets from the family and major version of its user agent, and the
 * report-only suffix (lib/index.js:292-339).
 */
module Compat {
  import opened Wrappers
  import opened Directives

  /**
   * The parsed user agent as the engine reads it: the family string, and the
   * major version after `parseInt(major, 10)`, where `None` stands for `NaN`
   * (no major version, or one that does not start with digits). A request
   * without user-agent data has a family that matches no case.
   */
  datatype UserAgent = UserAgent(family: string, major: Option<int>)

  /** Which generator produces the policy text. */
  datatype Transform =
    | Standard       // generatePolicy on the options as they are
    | FirefoxLegacy  // generateFirefoxPolicy
    | Firefox4       // generateFirefox4Policy
    | IEOnly         // generateIEPolicy

  /** The header name before the report-only suffix, and the generator. */
  datatype Choice = Choice(header: string, transform: Transform)

  /** `version >= lo && version <= hi`, false for `NaN` as in JavaScript. */
  predicate InRange(v: Option<int>, lo: int, hi: int)
  {
    v.Some? && lo <= v.value <= hi
  }

  /** The `switch (userAgent.family)` of `addHeaders`, case by case. */
  function Select(ua: UserAgent, oldSafari: bool): (c: Choice)
    ensures c.header in AllHeaders
    ensures c.transform != Standard ==> c.header == "X-Content-Security-Policy"
  {
    var v := ua.major;
    if ua.family == "Chrome" then
      Choice(if InRange(v, 14, 25) then "X-WebKit-CSP" else "Content-Security-Policy", Standard)
    else if ua.family == "Firefox" then
      if v == Some(4) then Choice("X-Content-Security-Policy", Firefox4)
      else if InRange(v, 5, 23) then Choice("X-Content-Security-Policy", FirefoxLegacy)
      else Choice("Content-Security-Policy", Standard)
    else if ua.family == "IE" then Choice("X-Content-Security-Policy", IEOnly)
    else if ua.family == "Safari" then
      Choice(if v == Some(6) || (v == Some(5) && oldSafari) then "X-WebKit-CSP" else "Content-Security-Policy", Standard)
    else Choice("Content-Security-Policy", Standard)
  }

  /**
   * One row of the compatibility table: a family, an inclusive version range
   * (`None` for every version, unparsable ones included), whether the row
   * also needs the `oldSafari` setting, and what it selects.
   */
  datatype Rule = Rule(family: string, versions: Option<(int, int)>, needsOldSafari: bool, choice: Choice)

  /** Whether a rule applies to a user agent. */
  predicate Matches(r: Rule, ua: UserAgent, oldSafari: bool)
  {
    r.family == ua.family
    && (r.versions.None? || InRange(ua.major, r.versions.value.0, r.versions.value.1))
    && (r.needsOldSafari ==> oldSafari)
  }

  /** The legacy-browser table the switch implements, one row per special case. */
  const Table: seq<Rule> := [
    Rule("Chrome", Some((14, 25)), false, Choice("X-WebKit-CSP", Standard)),
    Rule("Firefox", Some((4, 4)), false, Choice("X-Content-Security-Policy", Firefox4)),
    Rule("Firefox", Some((5, 23)), false, Choice("X-Content-Security-Policy", FirefoxLegacy)),
    Rule("IE", None, false, Choice("X-Content-Security-Policy", IEOnly)),
    Rule("Safari", Some((6, 6)), false, Choice("X-WebKit-CSP", Standard)),
    Rule("Safari", Some((5, 5)), true, Choice("X-WebKit-CSP", Standard))
  ]

  /** The first matching row's choice; the standard header and generator when no row matches. */
  function Lookup(rules: seq<Rule>, ua: UserAgent, oldSafari: bool): (c: Choice)
    ensures (forall i :: 0 <= i < |rules| ==> !Matches(rules[i], ua, oldSafari))
      ==> c == Choice("Content-Security-Policy", Standard)
    decreases |rules|
  {
    if |rules| == 0 then Choice("Content-Security-Policy", Standard)
    else if Matches(rules[0], ua, oldSafari) then rules[0].choice
    else Lookup(rules[1..], ua, oldSafari)
  }

  /** The switch and the table agree on every user agent and setting. */
  lemma SelectIsTable(ua: UserAgent, oldSafari: bool)
    ensures Select(ua, oldSafari) == Lookup(Table, ua, oldSafari)
  {
    if ua.family == "Chrome" {
      TableForChrome(ua, oldSafari);
    } else if ua.family == "Firefox" {
      TableForFirefox(ua, oldSafari);
    } else if ua.family == "IE" {
      TableForIE(ua, oldSafari);
    } else if ua.family == "Safari" {
      TableForSafari(ua, oldSafari);
    } else {
      assert forall i :: 0 <= i < |Table| ==> Table[i].family != ua.family;
    }
  }

  /** No row of `rules` is for the family. */
  predicate FamilyAbsent(rules: seq<Rule>, family: string)
  {
    forall i :: 0 <= i < |rules| ==> rules[i].family != family
  }

  /** The switch and the table agree on Chrome. */
  lemma TableForChrome(ua: UserAgent, oldSafari: bool)
    requires ua.family == "Chrome"
    ensures Select(ua, oldSafari) == Lookup(Table, ua, oldSafari)
  {
    assert FamilyAbsent(Table[1..], "Chrome");
  }

  /** The switch and the table agree on Firefox. */
  lemma TableForFirefox(ua: UserAgent, oldSafari: bool)
    requires ua.family == "Firefox"
    ensures Select(ua, oldSafari) == Lookup(Table, ua, oldSafari)
  {
    var t := Table;
    assert t[1..][1..] == t[2..] && t[2..][1..] == t[3..];
    assert FamilyAbsent(t[3..], "Firefox");
  }

  /** The switch and the table agree on Internet Explorer. */
  lemma TableForIE(ua: UserAgent, oldSafari: bool)
    requires ua.family == "IE"
    ensures Select(ua, oldSafari) == Lookup(Table, ua, oldSafari)
  {
    var t := Table;
    assert t[1..][1..][1..] == t[3..];
  }

  /** The switch and the table agree on Safari. */
  lemma TableForSafari(ua: UserAgent, oldSafari: bool)
    requires ua.family == "Safari"
    ensures Select(ua, oldSafari) == Lookup(Table, ua, oldSafari)
  {
    var t := Table;
    assert t[1..][1..][1..][1..] == t[4..];
    assert t[4..][1..][1..] == [];
  }

  /** Every selected header name is one of the three the engine knows. */
  lemma SelectHeaderKnown(ua: UserAgent, oldSafari: bool)
    ensures Select(ua, oldSafari).header in AllHeaders
  {
  }

  /** Only Firefox 4 to 23 and Internet Explorer get a rewritten policy; everyone else gets the standard one. */
  lemma SelectTransform(ua: UserAgent, oldSafari: bool)
    ensures Select(ua, oldSafari).transform == IEOnly <==> ua.family == "IE"
    ensures Select(ua, oldSafari).transform == Firefox4 <==> ua.family == "Firefox" && ua.major == Some(4)
    ensures Select(ua, oldSafari).transform == FirefoxLegacy <==> ua.family == "Firefox" && InRange(ua.major, 5, 23)
    ensures Select(ua, oldSafari).transform != Standard ==> Select(ua, oldSafari).header == "X-Content-Security-Policy"
  {
  }

  /** `oldSafari` matters for Safari 5 alone. */
  lemma OldSafariOnlyForSafari5(ua: UserAgent)
    ensures Select(ua, true) != Select(ua, false) <==> ua.family == "Safari" && ua.major == Some(5)
  {
  }

  /** Without a parsable major version only Internet Explorer is treated as a legacy browser. */
  lemma UnparsableVersion(ua: UserAgent, oldSafari: bool)
    requires ua.major.None? && ua.family != "IE"
    ensures Select(ua, oldSafari) == Choice("Content-Security-Policy", Standard)
  {
  }

  /** The header `addHeaders` sets: the chosen name, with `-Report-Only` appended in report-only mode. */
  function HeaderName(c: Choice, reportOnly: bool): (h: string)
    ensures |c.header| <= |h| && h[..|c.header|] == c.header
    ensures reportOnly <==> h[|c.header|..] == "-Report-Only"
  {
    if reportOnly then c.header + "-Report-Only" else c.header
  }

  /** The report-only suffix is there exactly in report-only mode, and the base name is a known header. */
  lemma HeaderNameShape(ua: UserAgent, oldSafari: bool, reportOnly: bool)
    ensures var h, base := HeaderName(Select(ua, oldSafari), reportOnly), Select(ua, oldSafari).header;
      base in AllHeaders
      && (reportOnly ==> h == base + "-Report-Only")
      && (!reportOnly ==> h == base)
      && (reportOnly <==> |h| >= 12 && h[|h| - 12..] == "-Report-Only")
  {
    var h, base := HeaderName(Select(ua, oldSafari), reportOnly), Select(ua, oldSafari).header;
    if reportOnly {
      assert h[|h| - 12..] == "-Report-Only";
    } else {
      assert base in AllHeaders;
    }
  }
}
