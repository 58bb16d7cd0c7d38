/**
 * Where single clauses sit in a serialized policy: the position of sandbox
 * and default-src in the catalog, the policy split around the default-src
 * clause, and the textual `default-src` to `allow` rename on it
 * (lib/index.js:10-36, 87-99, 154-161, 164-206).
 */
module Layout {
  import opened Wrappers
  import opened Directives
  import opened Strings
  import opened Nonces
  import opened Serializer

  /** Sandbox sits at position 14 of the catalog and nowhere else. */
  lemma SandboxPosition()
    ensures |DirectiveNames| == 20 && DirectiveNames[14] == "sandbox"
    ensures forall k :: k in DirectiveNames[..14] ==> k in DirectiveNames && k != "sandbox"
    ensures forall k :: k in DirectiveNames[15..] ==> k in DirectiveNames && k != "sandbox"
  {
    CatalogFacts();
    forall k | k in DirectiveNames[..14] ensures k in DirectiveNames && k != "sandbox" {
      var j :| 0 <= j < 14 && DirectiveNames[..14][j] == k;
      assert DirectiveNames[j] == k;
    }
    forall k | k in DirectiveNames[15..] ensures k in DirectiveNames && k != "sandbox" {
      var j :| 0 <= j < 5 && DirectiveNames[15..][j] == k;
      assert DirectiveNames[15 + j] == k;
    }
  }

  /** The clause sandbox yields in any record: none when unset, the bare keyword for `true`, else its sources. */
  lemma SandboxClause(o: Options, store: Option<map<string, string>>, entropy: Entropy)
    requires WellShaped(o.directives)
    ensures "sandbox" in DirectiveNames
    ensures !IsSet(o.directives, "sandbox") ==> ClauseFor(o, "sandbox", store, entropy) == None
    ensures "sandbox" in o.directives && o.directives["sandbox"] == Flag(true) ==>
      ClauseFor(o, "sandbox", store, entropy) == Some("sandbox")
    ensures "sandbox" in o.directives && o.directives["sandbox"].List? ==>
      ClauseFor(o, "sandbox", store, entropy) == Some("sandbox " + Join(o.directives["sandbox"].items, " "))
  {
    SandboxPosition();
    if IsSet(o.directives, "sandbox") && o.directives["sandbox"].List? {
      CatalogFacts();
      assert "sandbox" !in StringValues && !NonceBearing("sandbox");
      assert WireName("sandbox") + " " == "sandbox ";
    }
  }

  /** A set script-src with nonces on is serialized with the nonce token after its sources. */
  lemma ScriptClause(o: Options, store: Option<map<string, string>>, entropy: Entropy)
    requires WellShaped(o.directives) && IsSet(o.directives, "scriptSrc") && NonceShouldBeGenerated(o, "scriptSrc")
    ensures "scriptSrc" in DirectiveNames && o.directives["scriptSrc"].List?
    ensures ClauseFor(o, "scriptSrc", store, entropy)
      == Some("script-src " + Join(o.directives["scriptSrc"].items + [NonceToken(NonceFor(store, entropy, "scriptSrc"))], " "))
  {
    NonceBearingListed("scriptSrc");
    assert Shaped("scriptSrc", o.directives["scriptSrc"]);
    ListClause(o, "scriptSrc", store, entropy);
    assert WireName("scriptSrc") + [' '] == "script-src ";
  }

  /** Default-src sits at position 3 of the catalog, after base-uri, child-src and connect-src. */
  lemma DefaultSrcPosition()
    ensures |DirectiveNames| == 20 && DirectiveNames[3] == "defaultSrc" && WireName("defaultSrc") == "default-src"
    ensures "defaultSrc" in ArrayValues && !NonceBearing("defaultSrc")
  {
    CatalogFacts();
  }

  /** A set default-src is serialized as `default-src` and its sources; it never carries a nonce. */
  lemma DefaultClause(f: Options, store: Option<map<string, string>>, entropy: Entropy)
    requires WellShaped(f.directives)
    ensures DirectiveNames[3] == "defaultSrc"
    ensures IsSet(f.directives, "defaultSrc") ==>
      f.directives["defaultSrc"].List?
      && ClauseFor(f, "defaultSrc", store, entropy) == Some("default-src " + Join(f.directives["defaultSrc"].items, " "))
  {
    DefaultSrcPosition();
    if IsSet(f.directives, "defaultSrc") {
      CatalogFacts();
      assert "defaultSrc" !in StringValues;
      assert Shaped("defaultSrc", f.directives["defaultSrc"]);
      assert WireName("defaultSrc") + " " == "default-src ";
    }
  }

  /** The textual rename on a serialized policy whose default-src is set. */
  lemma RenameDefaultClause(f: Options, store: Option<map<string, string>>, entropy: Entropy)
    requires WellShaped(f.directives) && IsSet(f.directives, "defaultSrc")
    requires forall j :: !OccursAt(Join(Clauses(f, DirectiveNames[..3], store, entropy), ";"), "default-src", j)
    ensures var before, after := Clauses(f, DirectiveNames[..3], store, entropy), Clauses(f, DirectiveNames[4..], store, entropy);
      var sources := Join(f.directives["defaultSrc"].items, " ");
      Policy(f, store, entropy) == Join(before + ["default-src " + sources] + after, ";")
      && ReplaceFirst(Policy(f, store, entropy), "default-src", "allow") == Join(before + ["allow " + sources] + after, ";")
  {
    PolicyAroundDefault(f, store, entropy);
    RenameInPolicy(Clauses(f, DirectiveNames[..3], store, entropy), Join(f.directives["defaultSrc"].items, " "),
                   Clauses(f, DirectiveNames[4..], store, entropy));
  }

  /** A policy with default-src set, seen around the default-src clause. */
  lemma PolicyAroundDefault(f: Options, store: Option<map<string, string>>, entropy: Entropy)
    requires WellShaped(f.directives)
    ensures IsSet(f.directives, "defaultSrc") ==>
      f.directives["defaultSrc"].List?
      && Policy(f, store, entropy)
         == Join(Clauses(f, DirectiveNames[..3], store, entropy)
                 + ["default-src " + Join(f.directives["defaultSrc"].items, " ")]
                 + Clauses(f, DirectiveNames[4..], store, entropy), ";")
  {
    ClausesAroundDefault(f, store, entropy);
  }

  /** The clause list with default-src set, split around the default-src clause. */
  lemma ClausesAroundDefault(f: Options, store: Option<map<string, string>>, entropy: Entropy)
    requires WellShaped(f.directives)
    ensures IsSet(f.directives, "defaultSrc") ==>
      f.directives["defaultSrc"].List?
      && Clauses(f, DirectiveNames, store, entropy)
         == Clauses(f, DirectiveNames[..3], store, entropy)
            + ["default-src " + Join(f.directives["defaultSrc"].items, " ")]
            + Clauses(f, DirectiveNames[4..], store, entropy)
  {
    DefaultClause(f, store, entropy);
    if IsSet(f.directives, "defaultSrc") {
      ClausesAroundSome(f, 3, "default-src " + Join(f.directives["defaultSrc"].items, " "), store, entropy);
    }
  }

  /** In clauses joined by `;`, a default-src clause that nothing before it mentions becomes an `allow` clause. */
  lemma RenameInPolicy(before: seq<string>, sources: string, after: seq<string>)
    requires forall j :: !OccursAt(Join(before, ";"), "default-src", j)
    ensures ReplaceFirst(Join(before + ["default-src " + sources] + after, ";"), "default-src", "allow")
      == Join(before + ["allow " + sources] + after, ";")
  {
    var c := "default-src " + sources;
    assert c[..11] == "default-src";
    assert "allow" + c[11..] == "allow " + sources;
    ReplaceInJoin(before, c, after, ';', "default-src", "allow");
  }
}
