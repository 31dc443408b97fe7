/**
 * The PURL rule interpreter of tools/translate.py: one rule of a project's
 * `purl_rules` list, a processing mode and the project's idspace become
 * one Apache mod_alias `RedirectMatch` directive, nothing (the rule belongs
 * to the other mode), or an error (the rule is malformed).
 */
module Translate {
  import opened Wrappers
  import opened Text

  // ---------------------------------------------------------------------
  // Data

  /** The two processing modes: a project's own .htaccess, or the shared top-level one. */
  datatype Mode = Project | Top

  /**
   * One element of `purl_rules` as the YAML loader hands it over: either a
   * map, of which only the keys the interpreter looks at are kept (each
   * `None` when the key is absent), or some other YAML value.
   */
  datatype Rule =
    | NotAMap
    | YamlMap(path: Option<string>, prefix: Option<string>, regex: Option<string>,
              termBrowser: Option<string>, replacement: Option<string>,
              level: Option<string>, status: Option<string>)

  /** The four keys that give a rule its type. */
  datatype RuleType = PathRule | PrefixRule | RegexRule | TermBrowserRule

  /** The level a rule is published at. */
  datatype Level = ProjectLevel | TopLevel

  /** The redirect statuses a rule may ask for. */
  datatype Status = Permanent | Temporary | SeeOther

  /** Why `process_rule` raises: one constructor per `raise ValueError` of the source. */
  datatype Error =
    | RuleNotAMap
    | NoType
    | MultipleTypes(types: seq<RuleType>)
    | ReplacementForbidden
    | ReplacementMissing
    | RegexWithoutLevel
    | UnknownBrowser(browser: string)
    | PathOutsideIdspace(path: string)
    | PrefixOutsideIdspace(prefix: string)
    | InvalidLevel(level: string)
    | TopLevelPollution
    | InvalidStatus(status: string)

  /** The parts of a `RedirectMatch` directive. */
  datatype Redirect = Redirect(status: Status, source: string, replacement: string)

  /** What interpreting one rule gives: an error, nothing for this mode, or a directive. */
  datatype Outcome = Failed(error: Error) | Suppressed | Emit(redirect: Redirect)

  // ---------------------------------------------------------------------
  // Vocabulary

  /** The URL path every path or prefix of the idspace must begin with. */
  function BaseUrl(idspace: string): string {
    if idspace == "OBO" then "/obo" else "/obo/" + Lower(idspace)
  }

  /**
   * The base URL is `/obo` for the idspace spelled `OBO` and only for it;
   * any other idspace gives `/obo/` and its lower-case form. The base URL
   * is its own lower-case form, which is what lets the source compare it
   * with lower-cased paths and prefixes.
   */
  lemma BaseUrlShape(idspace: string)
    ensures StartsWith(BaseUrl(idspace), "/obo") && Lower(BaseUrl(idspace)) == BaseUrl(idspace)
    ensures BaseUrl(idspace) == "/obo" <==> idspace == "OBO"
    ensures idspace != "OBO" ==> StartsWith(BaseUrl(idspace), "/obo/") && BaseUrl(idspace)[5..] == Lower(idspace)
  {
    LowerIdempotent(idspace);
    if idspace != "OBO" {
      assert BaseUrl(idspace)[5..] == Lower(idspace);
    }
  }

  /** The type keys present in a rule, in the order the source collects them. */
  function Types(rule: Rule): (ts: seq<RuleType>)
    requires rule.YamlMap?
    ensures |ts| == (if rule.path.Some? then 1 else 0) + (if rule.prefix.Some? then 1 else 0)
                    + (if rule.regex.Some? then 1 else 0) + (if rule.termBrowser.Some? then 1 else 0)
    ensures |ts| == 1 ==> (rule.path.Some? <==> ts[0] == PathRule) && (rule.prefix.Some? <==> ts[0] == PrefixRule)
                          && (rule.regex.Some? <==> ts[0] == RegexRule) && (rule.termBrowser.Some? <==> ts[0] == TermBrowserRule)
  {
    (if rule.path.Some? then [PathRule] else [])
    + (if rule.prefix.Some? then [PrefixRule] else [])
    + (if rule.regex.Some? then [RegexRule] else [])
    + (if rule.termBrowser.Some? then [TermBrowserRule] else [])
  }

  /** The rule is a map carrying exactly one type key, and that key is `t`. */
  predicate IsOfType(rule: Rule, t: RuleType) {
    rule.YamlMap? && |Types(rule)| == 1 && Types(rule)[0] == t
  }

  /** A `replacement` that is present and not blank. */
  predicate NonBlank(o: Option<string>) {
    o.Some? && Strip(o.value) != ""
  }

  function StatusName(s: Status): string {
    match s
    case Permanent => "permanent"
    case Temporary => "temporary"
    case SeeOther => "see other"
  }

  /** The keyword Apache's `RedirectMatch` uses for a status: one word, from which the status can be read back. */
  function Keyword(s: Status): (k: string)
    ensures k != [] && ' ' !in k && '"' !in k
    ensures StatusOfKeyword(k) == Some(s)
  {
    match s
    case Permanent => "permanent"
    case Temporary => "temp"
    case SeeOther => "seeother"
  }

  /** The status a `RedirectMatch` keyword names. */
  function StatusOfKeyword(k: string): Option<Status> {
    if k == "permanent" then Some(Permanent)
    else if k == "temp" then Some(Temporary)
    else if k == "seeother" then Some(SeeOther)
    else None
  }

  function LevelOfMode(mode: Mode): Level {
    if mode == Project then ProjectLevel else TopLevel
  }

  /** The replacement synthesised for an Ontobee `term_browser` rule. */
  function OntobeeUrl(idspace: string): string {
    "http://www.ontobee.org/browser/rdf.php?o=" + idspace
    + "&iri=http://purl.obolibrary.org/obo/" + idspace + "_$1"
  }

  // ---------------------------------------------------------------------
  // What a rule must satisfy, stated field by field

  /**
   * The rule passes every check the source makes on its shape: it is a map
   * with exactly one type key; a `term_browser` rule has no `replacement`
   * and every other rule a non-blank one; a `regex` rule has a `level`; a
   * `term_browser` names Ontobee; a path or prefix lies in the idspace.
   */
  predicate Admissible(idspace: string, rule: Rule) {
    && rule.YamlMap?
    && |Types(rule)| == 1
    && (if rule.termBrowser.Some? then rule.replacement.None? else NonBlank(rule.replacement))
    && (rule.regex.Some? ==> rule.level.Some?)
    && (rule.termBrowser.Some? ==> Lower(rule.termBrowser.value) == "ontobee")
    && (rule.path.Some? ==> StartsWith(Lower(rule.path.value), BaseUrl(idspace)))
    && (rule.prefix.Some? ==> StartsWith(Lower(rule.prefix.value), BaseUrl(idspace)))
  }

  /** An explicit level is `project` or `top`, in any case. */
  predicate LevelValid(rule: Rule)
    requires rule.YamlMap?
  {
    rule.level.Some? ==> Lower(rule.level.value) in {"project", "top"}
  }

  /** The rule passes every check the source makes before it looks at the mode. */
  predicate WellFormed(idspace: string, rule: Rule) {
    Admissible(idspace, rule) && LevelValid(rule)
  }

  /**
   * The level a well-formed rule ends up at, by the order of precedence
   * explicit > inferred > default: an explicit level wins; otherwise a path
   * or prefix below `base_url + '/'` is project-level; everything else is
   * top-level.
   */
  function EffectiveLevel(idspace: string, rule: Rule): Level
    requires rule.YamlMap?
  {
    if rule.level.Some? then
      (if Lower(rule.level.value) == "project" then ProjectLevel else TopLevel)
    else if rule.path.Some? && StartsWith(Lower(rule.path.value), BaseUrl(idspace) + "/") then ProjectLevel
    else if rule.prefix.Some? && StartsWith(Lower(rule.prefix.value), BaseUrl(idspace) + "/") then ProjectLevel
    else TopLevel
  }

  /**
   * The shapes a rule may have in the top-level file: any regex or
   * term_browser rule, the paths `base_url`, `base_url.owl` and
   * `base_url.obo`, and the prefix `/obo/<idspace>_` with the idspace as
   * given (not lower-cased).
   */
  predicate AllowedAtTop(idspace: string, rule: Rule)
    requires rule.YamlMap?
  {
    var base := BaseUrl(idspace);
    || rule.regex.Some?
    || rule.termBrowser.Some?
    || rule.path == Some(base)
    || rule.path == Some(base + ".owl")
    || rule.path == Some(base + ".obo")
    || rule.prefix == Some("/obo/" + idspace + "_")
  }

  /** An explicit `status`, if any, is spelled exactly as one of the three known ones. */
  predicate KnownStatus(rule: Rule)
    requires rule.YamlMap?
  {
    rule.status.Some? ==> rule.status.value in {"permanent", "temporary", "see other"}
  }

  // ---------------------------------------------------------------------
  // The steps of process_rule

  /** Source pattern, replacement and the defaults for level and status that one rule type sets up. */
  datatype Draft = Draft(source: string, replacement: string, level: Level, status: Status)

  /** The per-type handling of a rule whose type and replacement are already checked. */
  function Handle(idspace: string, rule: Rule, ruleType: RuleType): (r: Result<Draft, Error>)
    requires IsOfType(rule, ruleType)
    requires ruleType != TermBrowserRule ==> rule.replacement.Some?
    ensures r.Failure? <==> (ruleType == RegexRule && rule.level.None?)
                            || (ruleType == TermBrowserRule && Lower(rule.termBrowser.value) != "ontobee")
    ensures r.Failure? && ruleType == RegexRule ==> r.error == RegexWithoutLevel
    ensures r.Failure? && ruleType == TermBrowserRule ==> r.error == UnknownBrowser(rule.termBrowser.value)
    ensures r.Success? ==> r.value.level == TopLevel
    ensures r.Success? ==> r.value.status == if ruleType == TermBrowserRule then SeeOther else Temporary
  {
    match ruleType
    case PathRule =>
      Success(Draft("(?i)^" + CleanSource(rule.path.value) + "$", rule.replacement.value, TopLevel, Temporary))
    case PrefixRule =>
      Success(Draft("(?i)^" + CleanSource(rule.prefix.value) + "(.*)$", rule.replacement.value + "$1", TopLevel, Temporary))
    case RegexRule =>
      if rule.level.None? then Failure(RegexWithoutLevel)
      else Success(Draft(rule.regex.value, rule.replacement.value, TopLevel, Temporary))
    case TermBrowserRule =>
      if Lower(rule.termBrowser.value) == "ontobee" then
        Success(Draft("(?i)^/obo/" + idspace + "_(\\d+)$", OntobeeUrl(idspace), TopLevel, SeeOther))
      else Failure(UnknownBrowser(rule.termBrowser.value))
  }

  /**
   * The level of the rule: an explicit `level` lower-cased, if it is
   * `project` or `top` (an error otherwise); else project when the path or
   * prefix (the empty string for other types) starts with `base_url + '/'`;
   * else the level the type handling left.
   */
  function ResolveLevel(rule: Rule, path: string, prefix: string, baseUrl: string, ruleType: RuleType, current: Level): (r: Result<Level, Error>)
    requires rule.YamlMap?
    ensures r.Failure? <==> rule.level.Some? && Lower(rule.level.value) !in {"project", "top"}
    ensures r.Failure? ==> r.error == InvalidLevel(rule.level.value)
  {
    if rule.level.Some? then
      if Lower(rule.level.value) == "project" then Success(ProjectLevel)
      else if Lower(rule.level.value) == "top" then Success(TopLevel)
      else Failure(InvalidLevel(rule.level.value))
    else if StartsWith(Lower(path), baseUrl + "/") then Success(ProjectLevel)
    else if StartsWith(Lower(prefix), baseUrl + "/") then Success(ProjectLevel)
    else if ruleType == TermBrowserRule then Success(TopLevel)
    else Success(current)
  }

  /** Level resolution on the locals of `process_rule` agrees with `EffectiveLevel`. */
  lemma ResolveLevelAgrees(idspace: string, rule: Rule, t: RuleType, path: string, prefix: string)
    requires IsOfType(rule, t)
    requires path == if t == PathRule then rule.path.value else ""
    requires prefix == if t == PrefixRule then rule.prefix.value else ""
    ensures ResolveLevel(rule, path, prefix, BaseUrl(idspace), t, TopLevel).Success? ==>
            ResolveLevel(rule, path, prefix, BaseUrl(idspace), t, TopLevel).value == EffectiveLevel(idspace, rule)
  {
    assert Lower("") == "";
  }

  /** The allow-list test on the locals of `process_rule` agrees with `AllowedAtTop`. */
  lemma AllowListAgrees(idspace: string, rule: Rule, t: RuleType, path: string, prefix: string)
    requires IsOfType(rule, t)
    requires path == if t == PathRule then rule.path.value else ""
    requires prefix == if t == PrefixRule then rule.prefix.value else ""
    ensures AllowedAtTop(idspace, rule) <==>
            (t == RegexRule || t == TermBrowserRule || path == BaseUrl(idspace) || path == BaseUrl(idspace) + ".owl"
             || path == BaseUrl(idspace) + ".obo" || prefix == "/obo/" + idspace + "_")
  {
    assert BaseUrl(idspace) != "";
  }

  /** An explicit `status` must be one of the three known names, compared exactly; without one the default stays. */
  function ResolveStatus(rule: Rule, default: Status): (r: Result<Status, Error>)
    requires rule.YamlMap?
    ensures r.Failure? <==> !KnownStatus(rule)
    ensures r.Failure? ==> r.error == InvalidStatus(rule.status.value)
    ensures r.Success? ==> StatusName(r.value) == if rule.status.Some? then rule.status.value else StatusName(default)
  {
    if rule.status.None? then Success(default)
    else if rule.status.value == "permanent" then Success(Permanent)
    else if rule.status.value == "temporary" then Success(Temporary)
    else if rule.status.value == "see other" then Success(SeeOther)
    else Failure(InvalidStatus(rule.status.value))
  }

  // ---------------------------------------------------------------------
  // process_rule

  /** The first stage of `process_rule`: the rule must be a map with exactly one type key. */
  function Classify(rule: Rule): (r: Result<RuleType, Error>)
    ensures r == Failure(RuleNotAMap) <==> rule.NotAMap?
    ensures r == Failure(NoType) <==> rule.YamlMap? && |Types(rule)| == 0
    ensures r.Failure? && r.error.MultipleTypes? <==> rule.YamlMap? && |Types(rule)| > 1
    ensures r.Success? ==> IsOfType(rule, r.value)
  {
    if rule.NotAMap? then Failure(RuleNotAMap)
    else
      var types := Types(rule);
      if |types| < 1 then Failure(NoType)
      else if |types| > 1 then Failure(MultipleTypes(types))
      else Success(types[0])
  }

  /**
   * The second stage: the replacement discipline, the per-type handling and
   * the idspace check of a path or prefix, giving the draft directive.
   */
  function Admit(idspace: string, rule: Rule, t: RuleType): (r: Result<Draft, Error>)
    requires IsOfType(rule, t)
    ensures r.Success? <==> Admissible(idspace, rule)
    ensures t == TermBrowserRule && rule.replacement.Some? ==> r == Failure(ReplacementForbidden)
    ensures t != TermBrowserRule && !NonBlank(rule.replacement) ==> r == Failure(ReplacementMissing)
    ensures t == RegexRule && NonBlank(rule.replacement) && rule.level.None? ==> r == Failure(RegexWithoutLevel)
    ensures t == TermBrowserRule && rule.replacement.None? && Lower(rule.termBrowser.value) != "ontobee"
            ==> r == Failure(UnknownBrowser(rule.termBrowser.value))
    ensures t == PathRule && NonBlank(rule.replacement) && !StartsWith(Lower(rule.path.value), BaseUrl(idspace))
            ==> r == Failure(PathOutsideIdspace(rule.path.value))
    ensures t == PrefixRule && NonBlank(rule.replacement) && !StartsWith(Lower(rule.prefix.value), BaseUrl(idspace))
            ==> r == Failure(PrefixOutsideIdspace(rule.prefix.value))
    ensures r.Failure? ==> !r.error.InvalidLevel? && !r.error.TopLevelPollution? && !r.error.InvalidStatus?
    ensures r.Success? ==> r.value.level == TopLevel
    ensures r.Success? ==> r.value.status == if t == TermBrowserRule then SeeOther else Temporary
    ensures r.Success? && t == PathRule ==>
            r.value.source == "(?i)^" + CleanSource(rule.path.value) + "$" && r.value.replacement == rule.replacement.value
    ensures r.Success? && t == PrefixRule ==>
            r.value.source == "(?i)^" + CleanSource(rule.prefix.value) + "(.*)$"
            && r.value.replacement == rule.replacement.value + "$1"
    ensures r.Success? && t == RegexRule ==>
            r.value.source == rule.regex.value && r.value.replacement == rule.replacement.value
    ensures r.Success? && t == TermBrowserRule ==>
            r.value.source == "(?i)^/obo/" + idspace + "_(\\d+)$" && r.value.replacement == OntobeeUrl(idspace)
  {
    if t == TermBrowserRule && rule.replacement.Some? then Failure(ReplacementForbidden)
    else if t != TermBrowserRule && !NonBlank(rule.replacement) then Failure(ReplacementMissing)
    else match Handle(idspace, rule, t)
      case Failure(e) => Failure(e)
      case Success(draft) =>
        if t == PathRule && !StartsWith(Lower(rule.path.value), BaseUrl(idspace)) then
          Failure(PathOutsideIdspace(rule.path.value))
        else if t == PrefixRule && !StartsWith(Lower(rule.prefix.value), BaseUrl(idspace)) then
          Failure(PrefixOutsideIdspace(rule.prefix.value))
        else Success(draft)
  }

  /**
   * The last stage: the level is resolved, a rule of the other mode is
   * dropped, a top-level rule must be on the allow-list, and the status is
   * resolved.
   */
  function Place(mode: Mode, idspace: string, rule: Rule, t: RuleType, draft: Draft): (r: Outcome)
    requires IsOfType(rule, t) && draft.level == TopLevel
    ensures r.Failed? <==>
            !LevelValid(rule)
            || (EffectiveLevel(idspace, rule) == LevelOfMode(mode)
                && ((mode == Top && !AllowedAtTop(idspace, rule)) || !KnownStatus(rule)))
    ensures r.Failed? ==> r.error == if !LevelValid(rule) then InvalidLevel(rule.level.value)
                                      else if mode == Top && !AllowedAtTop(idspace, rule) then TopLevelPollution
                                      else InvalidStatus(rule.status.value)
    ensures r == Suppressed <==> LevelValid(rule) && EffectiveLevel(idspace, rule) != LevelOfMode(mode)
    ensures r.Emit? ==> r.redirect.source == draft.source && r.redirect.replacement == draft.replacement
    ensures r.Emit? ==> StatusName(r.redirect.status) ==
                        if rule.status.Some? then rule.status.value else StatusName(draft.status)
  {
    var baseUrl := BaseUrl(idspace);
    var path := if t == PathRule then rule.path.value else "";
    var prefix := if t == PrefixRule then rule.prefix.value else "";
    ResolveLevelAgrees(idspace, rule, t, path, prefix);
    AllowListAgrees(idspace, rule, t, path, prefix);
    match ResolveLevel(rule, path, prefix, baseUrl, t, draft.level)
    case Failure(e) => Failed(e)
    case Success(level) =>
      if mode == Project && level == TopLevel then Suppressed
      else if mode == Top && level == ProjectLevel then Suppressed
      else if mode == Top && !(t == RegexRule || t == TermBrowserRule
                               || path == baseUrl || path == baseUrl + ".owl" || path == baseUrl + ".obo"
                               || prefix == "/obo/" + idspace + "_") then
        Failed(TopLevelPollution)
      else match ResolveStatus(rule, draft.status)
        case Failure(e) => Failed(e)
        case Success(status) => Emit(Redirect(status, draft.source, draft.replacement))
  }

  /**
   * `process_rule(mode, idspace, rule)` up to the formatting of the
   * directive: the checks, in the order the source makes them, and the
   * directive's parts.
   */
  function Interpret(mode: Mode, idspace: string, rule: Rule): (r: Outcome)
    // The type of a rule.
    ensures r == Failed(RuleNotAMap) <==> rule.NotAMap?
    ensures r == Failed(NoType) <==> rule.YamlMap? && |Types(rule)| == 0
    ensures r.Failed? && r.error.MultipleTypes? <==> rule.YamlMap? && |Types(rule)| > 1
    // An explicit level must be project or top.
    ensures Admissible(idspace, rule) && !LevelValid(rule) ==> r == Failed(InvalidLevel(rule.level.value))
    // Every failure so far is an ill-formed rule, and conversely.
    ensures !WellFormed(idspace, rule) <==> r.Failed? && !r.error.TopLevelPollution? && !r.error.InvalidStatus?
  {
    match Classify(rule)
    case Failure(e) => Failed(e)
    case Success(t) =>
      match Admit(idspace, rule, t)
      case Failure(e) => Failed(e)
      case Success(draft) => Place(mode, idspace, rule, t, draft)
  }

  /** Each shape check of `process_rule` raises its own error. */
  lemma InterpretRejects(mode: Mode, idspace: string, rule: Rule)
    // The replacement discipline.
    ensures IsOfType(rule, TermBrowserRule) && rule.replacement.Some? ==> Interpret(mode, idspace, rule) == Failed(ReplacementForbidden)
    ensures ((IsOfType(rule, PathRule) || IsOfType(rule, PrefixRule) || IsOfType(rule, RegexRule))
             && !NonBlank(rule.replacement)) ==> Interpret(mode, idspace, rule) == Failed(ReplacementMissing)
    // A regex rule needs a level; a term_browser must be Ontobee.
    ensures IsOfType(rule, RegexRule) && NonBlank(rule.replacement) && rule.level.None?
            ==> Interpret(mode, idspace, rule) == Failed(RegexWithoutLevel)
    ensures IsOfType(rule, TermBrowserRule) && rule.replacement.None? && Lower(rule.termBrowser.value) != "ontobee"
            ==> Interpret(mode, idspace, rule) == Failed(UnknownBrowser(rule.termBrowser.value))
    // Paths and prefixes must lie in the idspace, whatever the mode.
    ensures IsOfType(rule, PathRule) && NonBlank(rule.replacement)
            && !StartsWith(Lower(rule.path.value), BaseUrl(idspace))
            ==> Interpret(mode, idspace, rule) == Failed(PathOutsideIdspace(rule.path.value))
    ensures IsOfType(rule, PrefixRule) && NonBlank(rule.replacement)
            && !StartsWith(Lower(rule.prefix.value), BaseUrl(idspace))
            ==> Interpret(mode, idspace, rule) == Failed(PrefixOutsideIdspace(rule.prefix.value))
  {
    match Classify(rule)
    case Failure(_) =>
    case Success(t) =>
  }

  /**
   * A well-formed rule is filtered by mode first, then held against the
   * top-level allow-list, then its status is checked; nothing else can
   * stop it.
   */
  lemma InterpretByMode(mode: Mode, idspace: string, rule: Rule)
    ensures Interpret(mode, idspace, rule) == Suppressed <==>
            WellFormed(idspace, rule) && EffectiveLevel(idspace, rule) != LevelOfMode(mode)
    ensures Interpret(mode, idspace, rule) == Failed(TopLevelPollution) <==>
            WellFormed(idspace, rule) && mode == Top && EffectiveLevel(idspace, rule) == TopLevel
            && !AllowedAtTop(idspace, rule)
    ensures Interpret(mode, idspace, rule).Emit? <==>
            WellFormed(idspace, rule) && EffectiveLevel(idspace, rule) == LevelOfMode(mode)
            && (mode == Top ==> AllowedAtTop(idspace, rule)) && KnownStatus(rule)
  {
    match Classify(rule)
    case Failure(_) =>
    case Success(t) =>
      match Admit(idspace, rule, t)
      case Failure(_) =>
      case Success(draft) =>
        assert Interpret(mode, idspace, rule) == Place(mode, idspace, rule, t, draft);
  }

  /** The status, source pattern and replacement of an emitted directive, per rule type. */
  lemma InterpretDirective(mode: Mode, idspace: string, rule: Rule)
    requires Interpret(mode, idspace, rule).Emit?
    ensures var d := Interpret(mode, idspace, rule).redirect;
            // The status: the one asked for, or the type's default.
            && (rule.status.Some? ==> StatusName(d.status) == rule.status.value)
            && (rule.status.None? ==> d.status == (if rule.termBrowser.Some? then SeeOther else Temporary))
            // A path or prefix becomes an anchored, case-insensitive pattern whose
            // escaped part reads back as the stripped path or prefix.
            && (rule.path.Some? ==>
                  && d.source == "(?i)^" + CleanSource(rule.path.value) + "$"
                  && ReadLiteral(CleanSource(rule.path.value)) == Some(Strip(rule.path.value))
                  && d.replacement == rule.replacement.value)
            && (rule.prefix.Some? ==>
                  && d.source == "(?i)^" + CleanSource(rule.prefix.value) + "(.*)$"
                  && ReadLiteral(CleanSource(rule.prefix.value)) == Some(Strip(rule.prefix.value))
                  && d.replacement == rule.replacement.value + "$1")
            // A regex is used as given; Ontobee gets the term-browser pattern and URL.
            && (rule.regex.Some? ==> d.source == rule.regex.value && d.replacement == rule.replacement.value)
            && (rule.termBrowser.Some? ==>
                  d.source == "(?i)^/obo/" + idspace + "_(\\d+)$" && d.replacement == OntobeeUrl(idspace))
  {
    match Classify(rule)
    case Failure(_) =>
    case Success(t) =>
      match Admit(idspace, rule, t)
      case Failure(_) =>
      case Success(draft) =>
        assert Interpret(mode, idspace, rule) == Place(mode, idspace, rule, t, draft);
  }

  /** The directive line: `RedirectMatch <keyword> "<source>" "<replacement>"`. */
  function Render(d: Redirect): (r: string)
    ensures '"' !in d.source && '"' !in d.replacement ==> ParseDirective(r) == Some(d)
  {
    ParseLine(d.status, d.source, d.replacement);
    "RedirectMatch " + Keyword(d.status) + " \"" + d.source + "\" \"" + d.replacement + "\""
  }

  /** Splits `s` before the first `c`: the part without `c`, and the rest, which is empty or starts with `c`. */
  function SplitAt(s: string, c: char): (r: (string, string))
    ensures r.0 + r.1 == s && c !in r.0 && (r.1 == [] || r.1[0] == c)
  {
    if s == [] || s[0] == c then ([], s)
    else
      var r := SplitAt(s[1..], c);
      assert ([s[0]] + r.0) + r.1 == [s[0]] + (r.0 + r.1) == s;
      ([s[0]] + r.0, r.1)
  }

  /** The split is determined by its ensures: it stops at the first `c`. */
  lemma {:induction false} SplitAtFirst(x: string, c: char, y: string)
    requires c !in x && (y == [] || y[0] == c)
    ensures SplitAt(x + y, c) == (x, y)
  {
    if x == [] {
      assert x + y == y;
    } else {
      assert (x + y)[0] == x[0] && (x + y)[1..] == x[1..] + y;
      SplitAtFirst(x[1..], c, y);
      assert x == [x[0]] + x[1..];
    }
  }

  /**
   * Reads a directive line back by splitting it at spaces and double
   * quotes: the word `RedirectMatch`, a status keyword and two arguments
   * in double quotes, separated by single spaces. Backslashes are taken
   * as they stand.
   */
  function ParseDirective(line: string): Option<Redirect> {
    if !StartsWith(line, "RedirectMatch ") then None
    else
      var split := SplitAt(line[14..], ' ');
      var status, arguments := StatusOfKeyword(split.0), ReadArguments(split.1);
      if status.Some? && arguments.Some? then Some(Redirect(status.value, arguments.value.0, arguments.value.1))
      else None
  }

  /** Reads ` "source" "replacement"`, the end of a directive line. */
  function ReadArguments(s: string): Option<(string, string)> {
    if !StartsWith(s, " \"") then None
    else
      var source := SplitAt(s[2..], '"');
      var replacement := ReadLastArgument(source.1);
      if replacement.Some? then Some((source.0, replacement.value)) else None
  }

  /** Reads `" "replacement"`, what follows the source. */
  function ReadLastArgument(s: string): Option<string> {
    if !StartsWith(s, "\" \"") then None
    else
      var replacement := SplitAt(s[3..], '"');
      if replacement.1 == "\"" then Some(replacement.0) else None
  }

  lemma ReadLastArgumentOf(replacement: string)
    requires '"' !in replacement
    ensures ReadLastArgument("\" \"" + replacement + "\"") == Some(replacement)
  {
    var s := "\" \"" + replacement + "\"";
    assert s[..3] == "\" \"" && s[3..] == replacement + "\"";
    SplitAtFirst(replacement, '"', "\"");
  }

  lemma ReadArgumentsOf(source: string, replacement: string)
    requires '"' !in source && '"' !in replacement
    ensures ReadArguments(" \"" + source + "\" \"" + replacement + "\"") == Some((source, replacement))
  {
    var t := "\" \"" + replacement + "\"";
    var s := " \"" + source + "\" \"" + replacement + "\"";
    assert s == " \"" + (source + t);
    assert s[..2] == " \"" && s[2..] == source + t;
    SplitAtFirst(source, '"', t);
    ReadLastArgumentOf(replacement);
  }

  /** The line `Render` builds from a status, a source and a replacement reads back as those three. */
  lemma ParseLine(status: Status, source: string, replacement: string)
    ensures '"' !in source && '"' !in replacement ==>
              ParseDirective("RedirectMatch " + Keyword(status) + " \"" + source + "\" \"" + replacement + "\"")
                == Some(Redirect(status, source, replacement))
  {
    if '"' !in source && '"' !in replacement {
      var k := Keyword(status);
      var t := " \"" + source + "\" \"" + replacement + "\"";
      var line := "RedirectMatch " + k + " \"" + source + "\" \"" + replacement + "\"";
      assert line == "RedirectMatch " + (k + t);
      assert line[..14] == "RedirectMatch " && line[14..] == k + t;
      SplitAtFirst(k, ' ', t);
      ReadArgumentsOf(source, replacement);
    }
  }

  /**
   * `process_rule` itself: a raised error, `None` for a rule that belongs
   * to the other mode, or the directive line.
   */
  function ProcessRule(mode: Mode, idspace: string, rule: Rule): (r: Result<Option<string>, Error>)
    ensures r.Failure? <==>
              (|| !WellFormed(idspace, rule)
               || (EffectiveLevel(idspace, rule) == LevelOfMode(mode)
                   && ((mode == Top && !AllowedAtTop(idspace, rule)) || !KnownStatus(rule))))
    ensures r == Success(None) <==> WellFormed(idspace, rule) && EffectiveLevel(idspace, rule) != LevelOfMode(mode)
    ensures r.Success? && r.value.Some? ==> r.value.value == Render(Interpret(mode, idspace, rule).redirect)
  {
    InterpretByMode(mode, idspace, rule);
    match Interpret(mode, idspace, rule)
    case Failed(e) => Failure(e)
    case Suppressed => Success(None)
    case Emit(d) => Success(Some(Render(d)))
  }
}
