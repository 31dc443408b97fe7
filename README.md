# OBO PURL tools, modelled in Dafny

This project models the two Python tools of the OBO Foundry PURL
configuration repository that turn text into redirect rules.

- `tools/translate.py` turns one project's YAML `purl_rules` into Apache
  `RedirectMatch` directives. The model covers `clean_source`, which
  escapes a path for use as a regular expression, and `process_rule`.
  `process_rule` checks one rule, in the order the source checks it. Then
  it either returns the directive, returns nothing (the rule belongs to
  the other processing mode), or raises an error.
- `tools/migrate.py` turns a PURL.org XML export into YAML entries. The
  model covers the SAX content handler `OCLCHandler`, which collects one
  entry per `<purl>` element, checks it and files it as an `exact` or a
  `prefix` entry. It also covers the tail of `main`: the exact entries come
  first, then the prefix entries, longest id first, and an empty result
  is an error.

Files:

- `wrappers.dfy`: `Option` and `Result`.
- `text.dfy` (module `Text`): the Python string operations the tools use.
  - `str.strip()` uses Python's full `isspace` set.
  - `str.lower()` lower-cases ASCII letters only.
  - `re.escape` escapes everything except `[A-Za-z0-9_]`, and writes NUL as `\000`.
  - the slash un-escaping step of `clean_source`.
  - `ReadLiteral` reads which literal string a pattern made only of plain
    characters and escapes matches. It is the partner of `clean_source`:
    the pattern `clean_source(p)` matches exactly the stripped `p`.
- `translate.dfy` (module `Translate`): `process_rule` in three stages.
  - `Classify`: the rule's type.
  - `Admit`: the replacement checks, the per-type handling and the idspace
    check.
  - `Place`: the level, the mode filter, the top-level allow-list and the
    status.
  - `Interpret` composes the stages into a structured outcome, and
    `ProcessRule` renders it as the directive line.
  - Each check is also stated on its own as a predicate: `WellFormed`,
    `EffectiveLevel`, `AllowedAtTop` and `KnownStatus`. The contracts tie
    the code path to these predicates in both directions.
- `translate_examples.dfy` (module `TranslateExamples`): the unit tests at
  the end of `tools/translate.py`, and a few worked examples, as lemmas.
- `migrate.dfy` (module `Migrate`):
  - the handler's state as a value `Handler`. Each SAX callback is a
    function on it (`Started`, `Appended`, `FieldEnded`, `PurlEnded`,
    `ElementEnded`), `Step` passes one parser event to its callback, and
    `Run` passes a sequence of events, stopping at the first error;
  - the class `OclcHandler`, with one method per SAX callback, each proved
    to change the object's fields as its function changes the `Handler`;
  - the output order `Order`, proved stable and descending;
  - `Migration`, which states what `main` makes of a run, and the driver
    `Migrate`, which feeds the parser's events to a fresh handler and is
    proved to compute `Migration`.

Python's `exact.append(self.entry)` files the entry dictionary object
itself. The entry that `self.entry` names is therefore also in a list
until the next `<purl>` starts. An `<id>`, `<url>` or `<type>` element, or a
second `</purl>`, in between changes the filed entry as well. The model
keeps this: `exactAliases` and `prefixAliases` record which positions
hold that object, and `Stored` (the method `Put`) rewrites them with every
change.

The `test_invalid_level` test is satisfied for a reason other than its name.
Its path `foo` is outside the `OBI` idspace, and that check comes before
the level check, so the error is the idspace error
(`TranslateExamples.InvalidLevelExample`). The same rule with a path
inside the idspace fails the level check
(`TranslateExamples.InvalidLevelInIdspaceExample`).

An Ontobee term_browser rule is given level top and status see other
(`tools/translate.py:184-185`). An explicit `level` or `status` on the rule
still overrides both, because the level and status checks
(`tools/translate.py:196-200` and `234-238`) run afterwards. The model
follows the code.

The comment above `endElement` (`tools/migrate.py:125`) speaks of the
first value found for `type`, `id` and `url`. The code overwrites on
every occurrence, so the last value wins, and the model follows the code.

## Model

| member | source | states |
|---|---|---|
| Text.Strip | tools/translate.py:116 | the result is `s` with its leading and trailing Python whitespace removed: a contiguous slice, everything outside it is whitespace, and its ends are not |
| Text.StripBlank | tools/translate.py:163 | `s.strip() == ''` holds exactly when every character of `s` is whitespace |
| Text.Lower | tools/translate.py:126 | lower-casing works character by character and keeps the length |
| Text.Escape | tools/translate.py:117 | `re.escape(s)`, read back as a literal pattern, matches exactly `s` |
| Text.UnescapeSlashesChanges | tools/translate.py:118 | replacing `\/` by `/` never lengthens a string; it leaves a string unchanged exactly when no backslash-slash pair occurs in it, and otherwise shortens it |
| Text.UnescapeSlashesOfEscape | tools/translate.py:117-118 | escaping and then un-escaping slashes is the reference quoting `Quote`: every character of `[A-Za-z0-9_/]` as itself, NUL as `\000`, any other character behind one backslash |
| Text.ReadQuote | tools/translate.py:112-119 | a quoted string, read back as a literal pattern, matches exactly the string that was quoted |
| Text.CleanSource | tools/translate.py:112-119 | `clean_source(s)` is the quoting of `s.strip()`, and as a pattern it matches exactly `s.strip()` |
| Translate.BaseUrlShape | tools/translate.py:126-128 | the base URL is `/obo` exactly for the idspace spelled `OBO`; any other idspace gives `/obo/` followed by its lower-case form; the base URL is its own lower-case form |
| Translate.Types | tools/translate.py:141-149 | one type is found per type key present; with exactly one, the key found is the one present |
| Translate.Keyword | tools/translate.py:240-244 | Apache's keyword for each status is one word, without spaces or quotes, that reads back as that status |
| Translate.Render | tools/translate.py:246-247 | the directive line, split at spaces and double quotes with backslashes taken as they stand, reads back as its status, source and replacement whenever neither of these holds a double quote |
| Translate.Handle | tools/translate.py:166-187 | the per-type handling fails exactly for a regex rule without `level` and for a term_browser other than Ontobee, with those errors; otherwise it sets the default level top, and the status see other for term_browser and temporary for the rest |
| Translate.ResolveLevel | tools/translate.py:195-206 | level resolution fails exactly when an explicit level, lower-cased, is not `project` or `top`, and then raises the invalid-level error |
| Translate.ResolveLevelAgrees | tools/translate.py:195-206 | on `process_rule`'s locals, level resolution gives the rule's `EffectiveLevel`: explicit level, else project below `base_url + '/'`, else top |
| Translate.AllowListAgrees | tools/translate.py:222-231 | the top-level allow-list on `process_rule`'s locals is `AllowedAtTop`: any regex or term_browser rule, the path `base_url`, `base_url.owl` or `base_url.obo`, or the prefix `/obo/<idspace>_` |
| Translate.ResolveStatus | tools/translate.py:234-238 | a status is accepted exactly when absent or spelled exactly as one of the three names; an accepted one is the one asked for, else the default |
| Translate.Classify | tools/translate.py:137-156 | a non-map, a map without a type key and a map with several are each rejected with their own error; otherwise the one type is returned |
| Translate.Admit | tools/translate.py:158-193 | the shape checks pass exactly when the rule is `Admissible`; each failed check raises its own error, in the source's order; a passing rule gets its type's pattern, replacement and defaults |
| Translate.Place | tools/translate.py:195-238 | the last stage fails exactly on an invalid level, a top-level rule off the allow-list in top mode, or an unknown status, with those errors; it drops exactly the rules whose level is not the mode's |
| Translate.Interpret | tools/translate.py:122-247 | the type errors happen exactly for non-maps and for maps with no or several type keys; a rule is rejected before the mode is consulted exactly when it is not `WellFormed`; an invalid explicit level raises its error |
| Translate.InterpretRejects | tools/translate.py:158-193 | a term_browser with a replacement, a missing or blank replacement, a regex without level, a browser other than Ontobee, and a path or prefix outside the idspace each raise their own error |
| Translate.InterpretByMode | tools/translate.py:208-231 | a well-formed rule is dropped exactly when its effective level is not the mode's; it is a pollution error exactly in top mode for a top-level rule off the allow-list; it is emitted exactly when well-formed, at the mode's level, allowed and with a known status |
| Translate.InterpretDirective | tools/translate.py:166-238 | an emitted directive has the asked-for status or the type's default; a path or prefix becomes an anchored case-insensitive pattern whose escaped part reads back, through `ReadLiteral`, as exactly the stripped path or prefix, and a prefix's pattern gets `(.*)$` and its replacement `$1`; a regex is used as given; Ontobee gets the term pattern and the Ontobee URL |
| Translate.ProcessRule | tools/translate.py:122-247 | `process_rule` raises exactly for an ill-formed rule, or for a rule of the mode's level that is off the allow-list in top mode or has an unknown status; it returns `None` exactly for a well-formed rule of the other level |
| TranslateExamples.MissingTypeExample | tools/translate.py:251-253 | a rule with only `replacement` raises the no-type error |
| TranslateExamples.MultipleTypesExample | tools/translate.py:255-257 | a rule with both `path` and `prefix` raises the multiple-types error |
| TranslateExamples.TermBrowserReplacementExample | tools/translate.py:259-261 | an Ontobee term_browser rule with a replacement is rejected |
| TranslateExamples.RegexWithoutLevelExample | tools/translate.py:263-265 | a regex rule without level is rejected |
| TranslateExamples.InvalidTermBrowserExample | tools/translate.py:267-269 | a term_browser other than Ontobee is rejected |
| TranslateExamples.IdspaceCrosstalkExample | tools/translate.py:271-273 | a `/obo/chebi/` path is outside the `OBI` idspace |
| TranslateExamples.LevelCrosstalkProjectExample | tools/translate.py:275-277 | the path `/obo/obi` is top-level, so project mode drops it |
| TranslateExamples.LevelCrosstalkTopExample | tools/translate.py:275-277 | the path `/obo/obi/` is project-level, so top mode drops it |
| TranslateExamples.TopLevelPollutionExample | tools/translate.py:279-281 | `/obo/obi_core.owl` is top-level but not on the allow-list |
| TranslateExamples.InvalidLevelExample | tools/translate.py:283-285 | the test's rule is rejected, and the error is the idspace error for `foo` |
| TranslateExamples.InvalidLevelInIdspaceExample | tools/translate.py:195-200 | the same rule with an in-idspace path raises the invalid-level error for `bar` |
| TranslateExamples.PathEscapeExample | tools/translate.py:112-119 | `clean_source("/obo/go.owl")` escapes the dot and leaves the slashes bare |
| TranslateExamples.PrefixExample | tools/translate.py:171-174 | a project-level prefix rule becomes a temporary redirect from the prefix plus `(.*)$` to the replacement plus `$1` |
| TranslateExamples.OntobeeExample | tools/translate.py:180-185 | the Ontobee rule becomes a see-other redirect from `/obo/GO_<digits>` to the Ontobee URL |
| Migrate.RuleOf | tools/migrate.py:156-161 | a `302` entry is filed under rule `exact` and any other known type under `prefix`, so every filed rule is one of the two |
| Migrate.HasBaseIgnoresCase | tools/migrate.py:140-141 | the id test is `startswith` on the lower-cased id and base URL, so the case of neither matters |
| Migrate.AbsoluteUrlCases | tools/migrate.py:149 | an absolute URL has at least seven characters and starts with `h` or `f`; `http://a`, `https://a` and `ftp://a` pass; `http://`, `https://`, `http://` plus a newline, `HTTP://a`, `mailto:a` and `ftps://a` fail |
| Migrate.Init | tools/migrate.py:107-111 | a new handler satisfies the invariant, has count 0 and nothing filed, and its base URL is `/obo/` plus the lower-cased project id, which is its own lower-case form |
| Migrate.StoredKeepsInv | tools/migrate.py:133 | setting a key of the entry, which also changes its filed copies, keeps every filed entry complete and the aliases pointing at the entry |
| Migrate.FiledKeepsInv | tools/migrate.py:156-161 | filing an entry that has its type, id and url keeps every filed entry complete |
| Migrate.StepKeepsInv | tools/migrate.py:115-164 | every callback keeps the invariant |
| Migrate.RunKeepsInv | tools/migrate.py:89 | a whole parse keeps the invariant |
| Migrate.FieldEndedChecks | tools/migrate.py:130-133 | a field end fails exactly on blank text, and then changes nothing; otherwise it stores the stripped text under the element's name, in the entry and its filed copies, and changes nothing else |
| Migrate.PurlEndedChecks | tools/migrate.py:135-164 | each error of `</purl>` is raised exactly when its check is the first to fail, in the source's order: id present, id below the base URL, url present, url absolute, type present, type known; `</purl>` succeeds exactly when all pass |
| Migrate.PurlEndedFiles | tools/migrate.py:135-161 | a check failing before the id is cut changes nothing; a later failure leaves the cut id in the entry and its filed copies; success gives the entry its rule and appends it to the list of its type, where it stays aliased; count and buffer are unchanged |
| Migrate.StepCounts | tools/migrate.py:115-164 | only an element end can fail, and never with the no-entries error; an event that succeeds adds one to the count exactly for `<purl>` and one filed entry exactly for `</purl>` |
| Migrate.RunAppend | tools/migrate.py:89 | a parse of two stretches of events is the parse of the first, then, unless it raised, the parse of the second from where the first left off; so the first error ends the parse |
| Migrate.RunCounts | tools/migrate.py:89 | a parse never raises the no-entries error; a parse without error counts one `<purl>` per start and files one entry per `</purl>` |
| Migrate.OclcHandler.constructor | tools/migrate.py:107-111 | the new handler's fields are `Init` of the project id |
| Migrate.OclcHandler.StartElement | tools/migrate.py:115-119 | the fields change as `Started` says: the buffer is cleared; `<purl>` increments the count and starts a new, unfiled entry |
| Migrate.OclcHandler.Characters | tools/migrate.py:122-123 | the fields change as `Appended` says: the text is appended to the buffer |
| Migrate.OclcHandler.Put | tools/migrate.py:133 | the fields change as `Stored` says: one key of the entry is set, in the filed copies too, and the invariant is kept |
| Migrate.OclcHandler.EndField | tools/migrate.py:130-133 | the error and the new fields are `FieldEnded` of the old fields |
| Migrate.OclcHandler.File | tools/migrate.py:156-161 | the fields change as `Filed` says: the entry gets its rule and is appended, aliased, to its type's list |
| Migrate.OclcHandler.EndPurl | tools/migrate.py:135-164 | the error and the new fields are `PurlEnded` of the old fields |
| Migrate.OclcHandler.EndElement | tools/migrate.py:129-164 | the error and the new fields are `ElementEnded` of the old fields: a field end as `FieldEnded`, `</purl>` as `PurlEnded`, any other end changes nothing |
| Migrate.OclcHandler.Dispatch | tools/migrate.py:115-164 | the error and the new fields are `Step` of the old fields: an element start is `startElement`, text is `characters`, an element end is `endElement` |
| Migrate.DescendingPairwise | tools/migrate.py:91 | in the sorted order every entry's id is at least as long as any later entry's |
| Migrate.InsertDescending | tools/migrate.py:91 | inserting an entry into a descending sequence keeps it descending |
| Migrate.InsertPermutes | tools/migrate.py:91 | inserting adds the entry and loses nothing |
| Migrate.SortByIdLength | tools/migrate.py:91 | the sort by descending id length is descending and a permutation of its input |
| Migrate.SortStable | tools/migrate.py:91 | the sort is stable: for every id length, the entries of that length keep their order |
| Migrate.Order | tools/migrate.py:91 | the output is the exact entries in filing order, followed by a stable, descending permutation of the prefix entries |
| Migrate.OrderComplete | tools/migrate.py:91 | ordering keeps every entry complete (keys `type`, `id`, `url`, `rule`, rule `exact` or `prefix`) |
| Migrate.Feed | tools/migrate.py:89 | the error and the final fields are `Run` of the fields at the start: the events go to their callbacks in order, and the first error stops the feed |
| Migrate.Migration | tools/migrate.py:87-93 | the first error a callback raised is the result; without one, a parse that filed nothing is the no-entries error and any other gives every filed entry in `Order`; a successful result is complete, not empty, and has one entry per `</purl>`; the no-entries error means no `</purl>` was seen |
| Migrate.Migrate | tools/migrate.py:87-93 | the driver's result is `Migration` of the project id and the events, and its handler ends in the state of the parse |

## Left out

- Command-line parsing, YAML loading and writing, file I/O, the header and entry templates of `tools/migrate.py`, and `main` of `tools/translate.py` are not part of this model.
- The XML parser is not modelled: its callbacks arrive as a sequence of `Event`s, and element attributes are ignored.
- `Migrate.HasBase`: the source matches the id against the regular expression `'^' + base_url`, case-insensitively. The model treats `base_url` as a literal prefix compared under ASCII lower-casing. A project id containing regular-expression metacharacters therefore behaves differently.
- `Migrate.AbsoluteUrl`: the URL check is modelled as a literal scheme test, not through a regular-expression engine.
- `Text.Lower`: lower-cases ASCII letters only, because Python's Unicode case mapping and `re.IGNORECASE` case folding are not modelled.
- `Text.Escape`: follows `re.escape` as in Python 3.6 and earlier, which puts a backslash before every character other than an ASCII letter, digit or `_`. From Python 3.7 on, `re.escape` leaves `/` and other punctuation alone. For a string without a backslash followed by a slash, that changes only the pattern text, not which string it matches. For one with such a pair it changes the result: `\/` escapes to `\\/`, the slash un-escaping of `tools/translate.py:118` turns that into `\/`, and that pattern matches a bare `/`, not the input `\/`. Under Python 3.7 and later, `clean_source` therefore loses the escaping of a backslash placed before a slash. This is read from the source, not observed.
- Rule values that are not strings (YAML numbers, lists, null) are not modelled. In the source, a non-string `path`, `prefix`, `replacement`, `term_browser` or `level` fails with a Python `AttributeError` once a string method is called on it. A non-string `status` is not one of the three names and raises the invalid-status error. A non-string `regex` is formatted into the directive with `str()` and raises nothing.
- `Translate.Mode`: `process_rule` accepts any processing-level string (`tools/translate.py:122`, `209-222`). For anything other than `project` or `top` it neither drops rules nor applies the top-level allow-list. The model admits only the two modes, because `main` rejects any other mode before `process_rule` runs (`tools/translate.py:93-98`).
- Error messages are not modelled. Each `ValueError` becomes an error constructor carrying the values the message names, other than the rule, the idspace and the base URL, which are the caller's own inputs.
- The global `exact` and `prefix` lists live in a single handler. The source keeps them across handlers, but `main` creates only one.
- `Translate.Render`: the read-back is promised only for a reader that splits at double quotes and takes backslashes as they stand, and only when neither the source nor the replacement holds a double quote. How Apache httpd reads its configuration is not part of this model. Its reader un-escapes `\\` and `\"` inside a quoted argument. A source or replacement that holds a double quote, a backslash pair, or ends in a backslash is therefore read differently from what the source meant. For example, the path `/obo/a\b` gives the pattern `/obo/a\\b`, which such a reader turns into `/obo/a\b`, a word boundary, so the directive would not match that path.
