/**
 * The unit tests of translate.py and the worked examples of the redirect
 * rules, stated as lemmas about the model.
 */
module TranslateExamples {
  import opened Wrappers
  import opened Text
  import opened Translate

  /** A map with none of the keys the interpreter reads. */
  const NoKeys := YamlMap(None, None, None, None, None, None, None)

  lemma BaseUrlExamples()
    ensures BaseUrl("OBI") == "/obo/obi" && BaseUrl("GO") == "/obo/go" && BaseUrl("OBO") == "/obo"
    ensures BaseUrl("OBI") + "/" == "/obo/obi/" && BaseUrl("GO") + "/" == "/obo/go/"
  {
    assert Lower("OBI") == "obi";
    assert Lower("GO") == "go";
  }

  lemma MissingTypeExample()
    ensures ProcessRule(Project, "OBI", NoKeys.(replacement := Some("foo"))) == Failure(NoType)
  {
  }

  lemma MultipleTypesExample()
    ensures ProcessRule(Project, "OBI", NoKeys.(path := Some("foo"), prefix := Some("foo")))
            == Failure(MultipleTypes([PathRule, PrefixRule]))
  {
    assert Types(NoKeys.(path := Some("foo"), prefix := Some("foo"))) == [PathRule, PrefixRule];
  }

  lemma TermBrowserReplacementExample()
    ensures ProcessRule(Top, "OBI", NoKeys.(termBrowser := Some("ontobee"), replacement := Some("foo")))
            == Failure(ReplacementForbidden)
  {
  }

  lemma RegexWithoutLevelExample()
    ensures ProcessRule(Top, "OBI", NoKeys.(regex := Some("foo"), replacement := Some("foo")))
            == Failure(RegexWithoutLevel)
  {
    StripUnchanged("foo");
  }

  lemma InvalidTermBrowserExample()
    ensures ProcessRule(Top, "OBI", NoKeys.(termBrowser := Some("foo"))) == Failure(UnknownBrowser("foo"))
  {
    LowerUnchanged("foo");
  }

  // Generic facts about one-key rules, so that the examples below only
  // need facts about their own strings.

  /** A path rule with a replacement and nothing else. */
  lemma PathRuleFacts(idspace: string, rule: Rule, p: string, repl: string)
    requires rule == NoKeys.(path := Some(p), replacement := Some(repl))
    ensures IsOfType(rule, PathRule) && KnownStatus(rule)
    ensures NonBlank(rule.replacement) <==> Strip(repl) != ""
    ensures WellFormed(idspace, rule) <==> Strip(repl) != "" && StartsWith(Lower(p), BaseUrl(idspace))
    ensures EffectiveLevel(idspace, rule) == if StartsWith(Lower(p), BaseUrl(idspace) + "/") then ProjectLevel else TopLevel
    ensures AllowedAtTop(idspace, rule) <==>
            p == BaseUrl(idspace) || p == BaseUrl(idspace) + ".owl" || p == BaseUrl(idspace) + ".obo"
  {
    assert Types(rule) == [PathRule];
  }

  /** What `process_rule` makes of a path rule with a non-blank replacement and nothing else. */
  lemma PathRuleOutcome(mode: Mode, idspace: string, rule: Rule, p: string, repl: string)
    requires rule == NoKeys.(path := Some(p), replacement := Some(repl))
    requires Strip(repl) != ""
    ensures !StartsWith(Lower(p), BaseUrl(idspace)) ==> ProcessRule(mode, idspace, rule) == Failure(PathOutsideIdspace(p))
    ensures StartsWith(Lower(p), BaseUrl(idspace)) && StartsWith(Lower(p), BaseUrl(idspace) + "/") ==>
              ProcessRule(mode, idspace, rule) == if mode == Top then Success(None)
                else Success(Some(Render(Redirect(Temporary, "(?i)^" + CleanSource(p) + "$", repl))))
    ensures StartsWith(Lower(p), BaseUrl(idspace)) && !StartsWith(Lower(p), BaseUrl(idspace) + "/") ==>
              ProcessRule(mode, idspace, rule) ==
                if mode == Project then Success(None)
                else if AllowedAtTop(idspace, rule) then Success(Some(Render(Redirect(Temporary, "(?i)^" + CleanSource(p) + "$", repl))))
                else Failure(TopLevelPollution)
  {
    PathRuleFacts(idspace, rule, p, repl);
  }

  /** A prefix rule with a replacement and nothing else. */
  lemma PrefixRuleFacts(idspace: string, rule: Rule, p: string, repl: string)
    requires rule == NoKeys.(prefix := Some(p), replacement := Some(repl))
    ensures IsOfType(rule, PrefixRule) && KnownStatus(rule)
    ensures WellFormed(idspace, rule) <==> Strip(repl) != "" && StartsWith(Lower(p), BaseUrl(idspace))
    ensures EffectiveLevel(idspace, rule) == if StartsWith(Lower(p), BaseUrl(idspace) + "/") then ProjectLevel else TopLevel
  {
    assert Types(rule) == [PrefixRule];
  }

  /** A term_browser rule with nothing else. */
  lemma TermBrowserRuleFacts(idspace: string, rule: Rule, b: string)
    requires rule == NoKeys.(termBrowser := Some(b))
    ensures IsOfType(rule, TermBrowserRule) && KnownStatus(rule) && AllowedAtTop(idspace, rule)
    ensures WellFormed(idspace, rule) <==> Lower(b) == "ontobee"
    ensures EffectiveLevel(idspace, rule) == TopLevel
  {
    assert Types(rule) == [TermBrowserRule];
  }

  // Each worked example below is split in two: a lemma with the facts
  // about its strings, and the example itself, which combines them with
  // the generic lemmas above. The strings are parameters pinned by a
  // `requires` rather than literals in the body, so that the solver does
  // not unfold the string functions on every literal in sight, which
  // keeps each proof small.

  lemma FooStrings(r: string)
    requires r == "foo"
    ensures Strip(r) == r != ""
  {
    StripUnchanged(r);
  }

  lemma ChebiStrings(p: string)
    requires p == "/obo/chebi/"
    ensures Lower(p) == p && !StartsWith(p, "/obo/obi")
  {
    LowerUnchanged(p);
    DiffersAt(p, "/obo/obi", 7);
  }

  lemma IdspaceCrosstalkExample(rule: Rule, p: string)
    requires p == "/obo/chebi/"
    requires rule == NoKeys.(path := Some(p), replacement := Some("foo"))
    ensures ProcessRule(Project, "OBI", rule) == Failure(PathOutsideIdspace("/obo/chebi/"))
  {
    FooStrings("foo");
    BaseUrlExamples();
    ChebiStrings(p);
    PathRuleOutcome(Project, "OBI", rule, p, "foo");
  }

  lemma ObiStrings(p: string)
    requires p == "/obo/obi"
    ensures Lower(p) == p && StartsWith(p, "/obo/obi") && !StartsWith(p, "/obo/obi/")
  {
    LowerUnchanged(p);
  }

  /** The first half of the level crosstalk test: the base URL itself is a top-level path. */
  lemma LevelCrosstalkProjectExample(rule: Rule, p: string)
    requires p == "/obo/obi"
    requires rule == NoKeys.(path := Some(p), replacement := Some("foo"))
    ensures ProcessRule(Project, "OBI", rule) == Success(None)
  {
    FooStrings("foo");
    BaseUrlExamples();
    ObiStrings(p);
    PathRuleOutcome(Project, "OBI", rule, p, "foo");
  }

  lemma ObiSlashStrings(q: string)
    requires q == "/obo/obi/"
    ensures Lower(q) == q && StartsWith(q, "/obo/obi") && StartsWith(q, "/obo/obi/")
  {
    LowerUnchanged(q);
    assert q[..8] == "/obo/obi" && q[..9] == "/obo/obi/";
  }

  /** The second half of the level crosstalk test: a path below `base_url + '/'` is project-level. */
  lemma LevelCrosstalkTopExample(rule: Rule, q: string)
    requires q == "/obo/obi/"
    requires rule == NoKeys.(path := Some(q), replacement := Some("foo"))
    ensures ProcessRule(Top, "OBI", rule) == Success(None)
  {
    FooStrings("foo");
    BaseUrlExamples();
    ObiSlashStrings(q);
    PathRuleOutcome(Top, "OBI", rule, q, "foo");
  }

  lemma ObiCoreStrings(p: string)
    requires p == "/obo/obi_core.owl"
    ensures Lower(p) == p && StartsWith(p, "/obo/obi") && !StartsWith(p, "/obo/obi/")
    ensures p != "/obo/obi" && p != "/obo/obi.owl" && p != "/obo/obi.obo"
  {
    LowerUnchanged(p);
    ObiCorePrefix(p);
    DiffersAt(p, "/obo/obi/", 8);
    ObiCoreLength(p);
  }

  lemma ObiCorePrefix(p: string)
    requires p == "/obo/obi_core.owl"
    ensures StartsWith(p, "/obo/obi")
  {
    assert p[..8] == "/obo/obi";
  }

  lemma ObiCoreLength(p: string)
    requires p == "/obo/obi_core.owl"
    ensures p != "/obo/obi" && p != "/obo/obi.owl" && p != "/obo/obi.obo"
  {
    assert |p| != |"/obo/obi"| && |p| != |"/obo/obi.owl"| && |p| != |"/obo/obi.obo"|;
  }

  lemma TopLevelPollutionExample(rule: Rule, p: string)
    requires p == "/obo/obi_core.owl"
    requires rule == NoKeys.(path := Some(p), replacement := Some("foo"))
    ensures ProcessRule(Top, "OBI", rule) == Failure(TopLevelPollution)
  {
    FooStrings("foo");
    BaseUrlExamples();
    ObiCoreStrings(p);
    PathRuleFacts("OBI", rule, p, "foo");
    PathRuleOutcome(Top, "OBI", rule, p, "foo");
  }

  /**
   * The invalid-level test: its path `foo` lies outside the idspace, and
   * that check comes first, so the error raised is the idspace one.
   */
  lemma InvalidLevelExample(rule: Rule)
    requires rule == NoKeys.(level := Some("bar"), path := Some("foo"), replacement := Some("foo"))
    ensures ProcessRule(Project, "OBI", rule) == Failure(PathOutsideIdspace("foo"))
  {
    FooStrings("foo");
    BaseUrlExamples();
    LowerUnchanged("foo");
    assert Types(rule) == [PathRule];
    assert !StartsWith(Lower("foo"), BaseUrl("OBI"));
    InterpretRejects(Project, "OBI", rule);
    assert Interpret(Project, "OBI", rule) == Failed(PathOutsideIdspace("foo"));
  }

  lemma ObiFooStrings(p: string)
    requires p == "/obo/obi/foo"
    ensures Lower(p) == p && StartsWith(p, "/obo/obi")
  {
    LowerUnchanged(p);
    assert p[..8] == "/obo/obi";
  }

  /** The same rule with a path inside the idspace does reach the level check. */
  lemma InvalidLevelInIdspaceExample(rule: Rule, p: string)
    requires p == "/obo/obi/foo"
    requires rule == NoKeys.(level := Some("bar"), path := Some(p), replacement := Some("foo"))
    ensures ProcessRule(Project, "OBI", rule) == Failure(InvalidLevel("bar"))
  {
    FooStrings("foo");
    BaseUrlExamples();
    ObiFooStrings(p);
    LowerUnchanged("bar");
    assert Types(rule) == [PathRule];
    assert Admissible("OBI", rule) && !LevelValid(rule);
  }

  /** The worked example of escaping: the dot is escaped, the slashes are not. */
  lemma PathEscapeExample(p: string)
    requires p == "/obo/go.owl"
    ensures CleanSource(p) == "/obo/go\\.owl"
  {
    var a, b, c := "/obo/go", ".", "owl";
    GoOwlParts(p, a, b, c);
    QuoteConcat(a, b + c);
    QuoteConcat(b, c);
    PlainQuote(a);
    PlainQuote(c);
    DotQuote(b);
    GoOwlQuoted(a + ("\\." + c));
  }

  lemma GoOwlParts(p: string, a: string, b: string, c: string)
    requires p == "/obo/go.owl" && a == "/obo/go" && b == "." && c == "owl"
    ensures Strip(p) == p == a + (b + c)
  {
    StripUnchanged(p);
  }

  lemma GoOwlQuoted(q: string)
    requires q == "/obo/go" + ("\\." + "owl")
    ensures q == "/obo/go\\.owl"
  {
  }

  lemma PlainQuote(s: string)
    requires s == "/obo/go" || s == "owl"
    ensures Quote(s) == s
  {
    QuoteUnchanged(s);
  }

  lemma DotQuote(s: string)
    requires s == "."
    ensures Quote(s) == "\\."
  {
    assert s[1..] == [];
  }

  lemma BranchesStrings(p: string, repl: string)
    requires p == "/obo/go/branches/" && repl == "http://example.org/go_"
    ensures Strip(repl) == repl != "" && Lower(p) == p && CleanSource(p) == p
    ensures StartsWith(p, "/obo/go") && StartsWith(p, "/obo/go/")
  {
    BranchesPlain(p);
    StripUnchanged(repl);
    assert p[..7] == "/obo/go" && p[..8] == "/obo/go/";
  }

  lemma BranchesPlain(p: string)
    requires p == "/obo/go/branches/"
    ensures Lower(p) == p && CleanSource(p) == p
  {
    StripUnchanged(p);
    LowerUnchanged(p);
    QuoteUnchanged(p);
  }

  /** A project-level prefix rule: `(.*)$` is added to the pattern and `$1` to the replacement. */
  lemma PrefixExample(rule: Rule, p: string, repl: string)
    requires p == "/obo/go/branches/" && repl == "http://example.org/go_"
    requires rule == NoKeys.(prefix := Some(p), replacement := Some(repl))
    ensures Interpret(Project, "GO", rule) == Emit(Redirect(Temporary, "(?i)^" + p + "(.*)$", repl + "$1"))
  {
    BaseUrlExamples();
    BranchesStrings(p, repl);
    PrefixRuleFacts("GO", rule, p, repl);
  }

  /** The Ontobee rule of the GO idspace: a see-other redirect to the term browser. */
  lemma OntobeeExample(rule: Rule, b: string)
    requires b == "ontobee"
    requires rule == NoKeys.(termBrowser := Some(b))
    ensures Interpret(Top, "GO", rule) == Emit(Redirect(SeeOther, "(?i)^/obo/" + "GO" + "_(\\d+)$", OntobeeUrl("GO")))
  {
    LowerUnchanged(b);
    TermBrowserRuleFacts("GO", rule, b);
  }
}
