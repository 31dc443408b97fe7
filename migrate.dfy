/**
 * The PURL.org migration of tools/migrate.py: a content handler that is
 * fed the parser's events for one PURL.org XML export, checks each
 * `<purl>` element and files it as an exact or a prefix entry, and the
 * ordering of the entries for the YAML output.
 */
module Migrate {
  import opened Wrappers
  import opened Text

  // ---------------------------------------------------------------------
  // Data

  /** One entry dictionary: keys `type`, `id`, `url` and, once filed, `rule`. */
  type Entry = map<string, string>

  /** The keys an entry can have. */
  const EntryKeys: set<string> := {"type", "id", "url", "rule"}

  /** The child elements whose text is stored in the entry. */
  const Fields: set<string> := {"type", "id", "url"}

  /** The events the XML parser reports; element attributes are not used. */
  datatype Event = Open(name: string) | Chars(text: string) | Close(name: string)

  /** Why the migration stops: one constructor per `raise ValueError`, with the number of the `<purl>` in question. */
  datatype MigrationError =
    | EmptyElement(element: string, purl: nat)
    | NoId(purl: nat)
    | IdOutsideBase(id: string, purl: nat)
    | NoUrl(purl: nat)
    | NotAbsoluteUrl(url: string, purl: nat)
    | NoType(purl: nat)
    | UnknownType(purlType: string, purl: nat)
    | NoEntries

  // ---------------------------------------------------------------------
  // Checks on one entry

  /** `id` begins with `base` when both are compared ignoring ASCII case. */
  predicate HasBase(id: string, base: string) {
    |base| <= |id| && Lower(id[..|base|]) == Lower(base)
  }

  /** `u` starts with `scheme` and one more character, other than a newline. */
  predicate AfterScheme(u: string, scheme: string) {
    StartsWith(u, scheme) && |u| > |scheme| && u[|scheme|] != '\n'
  }

  /** An absolute HTTP, HTTPS or FTP URL: the scheme, `://` and at least one character. */
  predicate AbsoluteUrl(u: string) {
    AfterScheme(u, "http://") || AfterScheme(u, "https://") || AfterScheme(u, "ftp://")
  }

  /** The rule an entry of a known type is filed under: `exact` for a `302`, `prefix` otherwise. */
  function RuleOf(purlType: string): (r: string)
    ensures r in {"exact", "prefix"}
    ensures r == "exact" <==> purlType == "302"
  {
    if purlType == "302" then "exact" else "prefix"
  }

  /** The base test ignores case on both sides: it is `startswith` on the lower-cased strings. */
  lemma HasBaseIgnoresCase(id: string, base: string)
    ensures HasBase(id, base) <==> StartsWith(Lower(id), Lower(base))
  {
    if |base| <= |id| {
      assert Lower(id)[..|base|] == Lower(id[..|base|]);
    }
  }

  /**
   * The URL test is anchored at the start and case-sensitive: the scheme
   * must be written `http`, `https` or `ftp` in lower case, followed by
   * `://` and at least one character that is not a newline.
   */
  lemma AbsoluteUrlCases(u: string)
    ensures AbsoluteUrl(u) ==> |u| >= 7 && u[0] in {'h', 'f'}
    ensures AbsoluteUrl("http://a") && AbsoluteUrl("https://a") && AbsoluteUrl("ftp://a")
    ensures !AbsoluteUrl("http://") && !AbsoluteUrl("https://") && !AbsoluteUrl("http://\n")
    ensures !AbsoluteUrl("HTTP://a") && !AbsoluteUrl("mailto:a") && !AbsoluteUrl("ftps://a")
  {
    assert "http://a"[..7] == "http://";
    assert "https://a"[..8] == "https://";
    assert "ftp://a"[..6] == "ftp://";
    assert "https://"[..7] != "http://" by { assert "https://"[4] != "http://"[4]; }
    assert "HTTP://a"[0] != 'h';
    assert "mailto:a"[0] !in {'h', 'f'};
    assert "ftps://a"[..6] != "ftp://" by { assert "ftps://a"[3] != "ftp://"[3]; }
  }

  /** An entry as it is filed: all four keys, and a rule of `exact` or `prefix`. */
  predicate Complete(e: Entry) {
    e.Keys == EntryKeys && e["rule"] in {"exact", "prefix"}
  }

  /** `list` with the positions in `slots` replaced by `e`. */
  function Overwrite(list: seq<Entry>, slots: set<nat>, e: Entry): seq<Entry> {
    seq(|list|, i requires 0 <= i < |list| => if i in slots then e else list[i])
  }

  // ---------------------------------------------------------------------
  // The handler's state and its callbacks, as values

  /**
   * Everything the content handler holds. `exact` and `prefix` are the two
   * lists entries are filed into. The source files the entry dictionary
   * itself, so the filed entry and `entry` stay one object until the next
   * `<purl>` starts: `exactAliases` and `prefixAliases` are the positions
   * of the lists that hold that object, and every change to `entry` shows
   * there.
   */
  datatype Handler = Handler(
    baseUrl: string, count: nat, content: string, entry: Entry,
    exact: seq<Entry>, prefix: seq<Entry>, exactAliases: set<nat>, prefixAliases: set<nat>)

  /** What a callback leaves behind: the error it raised, if any, and the handler's state. */
  datatype After = After(err: Option<MigrationError>, state: Handler)

  /** The handler's invariant: the aliased positions hold `entry`, and everything filed is complete. */
  predicate Inv(s: Handler) {
    && s.entry.Keys <= EntryKeys
    && (forall i :: i in s.exactAliases ==> i < |s.exact| && s.exact[i] == s.entry)
    && (forall i :: i in s.prefixAliases ==> i < |s.prefix| && s.prefix[i] == s.entry)
    && (forall i :: 0 <= i < |s.exact| ==> Complete(s.exact[i]))
    && (forall i :: 0 <= i < |s.prefix| ==> Complete(s.prefix[i]))
  }

  /** A new handler for the project `projectId`. */
  function Init(projectId: string): (s: Handler)
    ensures Inv(s) && s.count == 0 && s.exact == [] && s.prefix == []
    ensures s.baseUrl == "/obo/" + Lower(projectId) && Lower(s.baseUrl) == s.baseUrl
  {
    LowerIdempotent(projectId);
    Handler("/obo/" + Lower(projectId), 0, "", map[], [], [], {}, {})
  }

  /** `startElement`: the text buffer is cleared; a `<purl>` is counted and gets a new, empty entry. */
  function Started(s: Handler, name: string): Handler {
    if name == "purl" then
      s.(content := "", count := s.count + 1, entry := map[], exactAliases := {}, prefixAliases := {})
    else s.(content := "")
  }

  /** `characters`: the text is appended to the buffer. */
  function Appended(s: Handler, text: string): Handler {
    s.(content := s.content + text)
  }

  /** Sets one key of `entry`; the filed copies of the same object change with it. */
  function Stored(s: Handler, key: string, value: string): Handler {
    var e := s.entry[key := value];
    s.(entry := e, exact := Overwrite(s.exact, s.exactAliases, e), prefix := Overwrite(s.prefix, s.prefixAliases, e))
  }

  /** `</type>`, `</id>` or `</url>`: blank text is an error; otherwise the stripped text is stored under the element's name. */
  function FieldEnded(s: Handler, name: string): After {
    var text := Strip(s.content);
    if text == "" then After(Some(EmptyElement(name, s.count)), s)
    else After(None, Stored(s, name, text))
  }

  /** Gives the checked entry the rule of its type and appends it to that type's list. */
  function Filed(s: Handler, purlType: string): Handler {
    var t := Stored(s, "rule", RuleOf(purlType));
    if purlType == "302" then t.(exact := t.exact + [t.entry], exactAliases := t.exactAliases + {|t.exact|})
    else t.(prefix := t.prefix + [t.entry], prefixAliases := t.prefixAliases + {|t.prefix|})
  }

  /**
   * `</purl>`: the entry is checked in the source's order (id present and
   * below the base URL, the base URL cut off the id, url present and
   * absolute, type present and known), then filed. A failed check is an
   * error; the cut of the id, once made, stays.
   */
  function PurlEnded(s: Handler): After {
    if "id" !in s.entry then After(Some(NoId(s.count)), s)
    else if !HasBase(s.entry["id"], s.baseUrl) then After(Some(IdOutsideBase(s.entry["id"], s.count)), s)
    else
      var t := Stored(s, "id", s.entry["id"][|s.baseUrl|..]);
      if "url" !in t.entry then After(Some(NoUrl(s.count)), t)
      else if !AbsoluteUrl(t.entry["url"]) then After(Some(NotAbsoluteUrl(t.entry["url"], s.count)), t)
      else if "type" !in t.entry then After(Some(NoType(s.count)), t)
      else if t.entry["type"] in {"302", "partial"} then After(None, Filed(t, t.entry["type"]))
      else After(Some(UnknownType(t.entry["type"], s.count)), t)
  }

  /** `endElement`: field ends store their text, `</purl>` files the entry, any other end changes nothing. */
  function ElementEnded(s: Handler, name: string): After {
    if name in Fields then FieldEnded(s, name)
    else if name == "purl" then PurlEnded(s)
    else After(None, s)
  }

  /** One parser event, passed to its callback. */
  function Step(s: Handler, ev: Event): After {
    match ev
    case Open(name) => After(None, Started(s, name))
    case Chars(text) => After(None, Appended(s, text))
    case Close(name) => ElementEnded(s, name)
  }

  /** The parser's events in order; the first error a callback raises ends the parse. */
  function Run(s: Handler, events: seq<Event>): After
    decreases |events|
  {
    if events == [] then After(None, s)
    else
      var a := Step(s, events[0]);
      if a.err.Some? then a else Run(a.state, events[1..])
  }

  // ---------------------------------------------------------------------
  // What the callbacks keep and promise

  /** Storing a key of an entry keeps the invariant, also in the filed copies. */
  lemma StoredKeepsInv(s: Handler, key: string, value: string)
    requires Inv(s) && key in EntryKeys && (key == "rule" ==> value in {"exact", "prefix"})
    ensures Inv(Stored(s, key, value))
  {
    if i :| i in s.exactAliases {
      assert Complete(s.exact[i]);
    } else if i :| i in s.prefixAliases {
      assert Complete(s.prefix[i]);
    }
  }

  /** Filing an entry that has its three fields keeps the invariant. */
  lemma FiledKeepsInv(s: Handler, purlType: string)
    requires Inv(s) && purlType in {"302", "partial"} && Fields <= s.entry.Keys
    ensures Inv(Filed(s, purlType))
  {
    StoredKeepsInv(s, "rule", RuleOf(purlType));
    assert Complete(Stored(s, "rule", RuleOf(purlType)).entry);
  }

  /** Every callback keeps the invariant. */
  lemma StepKeepsInv(s: Handler, ev: Event)
    requires Inv(s)
    ensures Inv(Step(s, ev).state)
  {
    match ev {
      case Open(_) =>
      case Chars(_) =>
      case Close(name) =>
        if name in Fields {
          if Strip(s.content) != "" {
            StoredKeepsInv(s, name, Strip(s.content));
          }
        } else if name == "purl" && "id" in s.entry && HasBase(s.entry["id"], s.baseUrl) {
          var t := Stored(s, "id", s.entry["id"][|s.baseUrl|..]);
          StoredKeepsInv(s, "id", s.entry["id"][|s.baseUrl|..]);
          if "url" in t.entry && "type" in t.entry && t.entry["type"] in {"302", "partial"} {
            FiledKeepsInv(t, t.entry["type"]);
          }
        }
    }
  }

  /** A run keeps the invariant. */
  lemma {:induction false} RunKeepsInv(s: Handler, events: seq<Event>)
    requires Inv(s)
    ensures Inv(Run(s, events).state)
    decreases |events|
  {
    if events != [] {
      StepKeepsInv(s, events[0]);
      if Step(s, events[0]).err.None? {
        RunKeepsInv(Step(s, events[0]).state, events[1..]);
      }
    }
  }

  /** A field end fails exactly on blank text, and then changes nothing; otherwise it stores the stripped text and nothing else. */
  lemma FieldEndedChecks(s: Handler, name: string)
    ensures var a := FieldEnded(s, name);
      && (a.err.Some? <==> Strip(s.content) == "")
      && (a.err.Some? ==> a.err.value == EmptyElement(name, s.count) && a.state == s)
      && (a.err.None? ==>
            && a.state.entry == s.entry[name := Strip(s.content)]
            && a.state.exact == Overwrite(s.exact, s.exactAliases, a.state.entry)
            && a.state.prefix == Overwrite(s.prefix, s.prefixAliases, a.state.entry)
            && a.state.(entry := s.entry, exact := s.exact, prefix := s.prefix) == s)
  {
  }

  /**
   * The checks of `</purl>`, in the source's order: each error is raised
   * exactly when its check is the first to fail, and `</purl>` succeeds
   * exactly when all pass.
   */
  lemma PurlEndedChecks(s: Handler)
    ensures var a, e := PurlEnded(s), s.entry;
      && (a.err == Some(NoId(s.count)) <==> "id" !in e)
      && ("id" in e ==> (a.err == Some(IdOutsideBase(e["id"], s.count)) <==> !HasBase(e["id"], s.baseUrl)))
      && ("id" in e && HasBase(e["id"], s.baseUrl) ==>
            && (a.err == Some(NoUrl(s.count)) <==> "url" !in e)
            && ("url" in e ==> (a.err == Some(NotAbsoluteUrl(e["url"], s.count)) <==> !AbsoluteUrl(e["url"])))
            && ("url" in e && AbsoluteUrl(e["url"]) ==>
                  && (a.err == Some(NoType(s.count)) <==> "type" !in e)
                  && ("type" in e ==> (a.err == Some(UnknownType(e["type"], s.count)) <==> e["type"] !in {"302", "partial"}))))
      && (a.err.None? <==>
            && "id" in e && HasBase(e["id"], s.baseUrl)
            && "url" in e && AbsoluteUrl(e["url"])
            && "type" in e && e["type"] in {"302", "partial"})
  {
  }

  /**
   * What `</purl>` leaves: a check failing before the id is cut changes
   * nothing; a later one leaves the cut id in the entry and its filed
   * copies; success gives the entry its rule and appends it to the list of
   * its type, where it stays aliased.
   */
  lemma PurlEndedFiles(s: Handler)
    ensures var a, e := PurlEnded(s), s.entry;
      && a.state.count == s.count && a.state.content == s.content && a.state.baseUrl == s.baseUrl
      && (("id" !in e || !HasBase(e["id"], s.baseUrl)) ==> a.state == s)
      && ("id" in e && HasBase(e["id"], s.baseUrl) && a.err.Some? ==>
            && a.state.entry == e["id" := e["id"][|s.baseUrl|..]]
            && a.state.exact == Overwrite(s.exact, s.exactAliases, a.state.entry)
            && a.state.prefix == Overwrite(s.prefix, s.prefixAliases, a.state.entry)
            && a.state.exactAliases == s.exactAliases && a.state.prefixAliases == s.prefixAliases)
      && (a.err.None? ==>
            && a.state.entry == e["id" := e["id"][|s.baseUrl|..]]["rule" := RuleOf(e["type"])]
            && (e["type"] == "302" ==>
                  && a.state.exact == Overwrite(s.exact, s.exactAliases, a.state.entry) + [a.state.entry]
                  && a.state.prefix == Overwrite(s.prefix, s.prefixAliases, a.state.entry)
                  && a.state.exactAliases == s.exactAliases + {|s.exact|}
                  && a.state.prefixAliases == s.prefixAliases)
            && (e["type"] == "partial" ==>
                  && a.state.exact == Overwrite(s.exact, s.exactAliases, a.state.entry)
                  && a.state.prefix == Overwrite(s.prefix, s.prefixAliases, a.state.entry) + [a.state.entry]
                  && a.state.exactAliases == s.exactAliases
                  && a.state.prefixAliases == s.prefixAliases + {|s.prefix|}))
  {
  }

  /**
   * Only an element end can fail, never with the no-entries error; an
   * event that succeeds adds one to the count exactly when it is `<purl>`
   * and one filed entry exactly when it is `</purl>`.
   */
  lemma StepCounts(s: Handler, ev: Event)
    ensures var a := Step(s, ev);
      && (!ev.Close? ==> a.err.None?)
      && a.err != Some(NoEntries)
      && (a.err.None? ==>
            && a.state.count == s.count + (if ev == Open("purl") then 1 else 0)
            && |a.state.exact| + |a.state.prefix| == |s.exact| + |s.prefix| + (if ev == Close("purl") then 1 else 0))
  {
  }

  /** Running two stretches of events is running the first, then, unless it failed, the second from where it left off. */
  lemma {:induction false} RunAppend(s: Handler, first: seq<Event>, second: seq<Event>)
    ensures Run(s, first + second) ==
              if Run(s, first).err.Some? then Run(s, first) else Run(Run(s, first).state, second)
    decreases |first|
  {
    if first == [] {
      assert first + second == second;
    } else {
      var all := first + second;
      assert all[0] == first[0] && all[1..] == first[1..] + second;
      if Step(s, first[0]).err.None? {
        RunAppend(Step(s, first[0]).state, first[1..], second);
      }
    }
  }

  /**
   * A run never fails with the no-entries error; a run without an error
   * counted one `<purl>` per start and filed one entry per end.
   */
  lemma {:induction false} RunCounts(s: Handler, events: seq<Event>)
    ensures Run(s, events).err != Some(NoEntries)
    ensures Run(s, events).err.None? ==>
              && Run(s, events).state.count == s.count + multiset(events)[Open("purl")]
              && |Run(s, events).state.exact| + |Run(s, events).state.prefix|
                   == |s.exact| + |s.prefix| + multiset(events)[Close("purl")]
    decreases |events|
  {
    if events != [] {
      var a := Step(s, events[0]);
      StepCounts(s, events[0]);
      if a.err.None? {
        RunCounts(a.state, events[1..]);
        assert events == [events[0]] + events[1..];
      }
    }
  }

  // ---------------------------------------------------------------------
  // The handler object

  /** The content handler: its fields are a `Handler`, and each callback is the function of that name above. */
  class OclcHandler {
    const baseUrl: string
    var count: nat
    var content: string
    var entry: Entry
    var exact: seq<Entry>
    var prefix: seq<Entry>
    var exactAliases: set<nat>
    var prefixAliases: set<nat>

    /** The handler's fields as a value. */
    function State(): Handler
      reads this
    {
      Handler(baseUrl, count, content, entry, exact, prefix, exactAliases, prefixAliases)
    }

    predicate Valid()
      reads this
    {
      Inv(State())
    }

    constructor(projectId: string)
      ensures Valid() && State() == Init(projectId)
    {
      baseUrl := "/obo/" + Lower(projectId);
      count := 0;
      content := "";
      entry := map[];
      exact := [];
      prefix := [];
      exactAliases := {};
      prefixAliases := {};
    }

    method StartElement(name: string)
      requires Valid()
      modifies this
      ensures Valid() && State() == Started(old(State()), name)
    {
      content := "";
      if name == "purl" {
        count := count + 1;
        entry := map[];
        exactAliases := {};
        prefixAliases := {};
      }
    }

    method Characters(text: string)
      requires Valid()
      modifies this
      ensures Valid() && State() == Appended(old(State()), text)
    {
      content := content + text;
    }

    method Put(key: string, value: string)
      requires Valid()
      requires key in EntryKeys
      requires key == "rule" ==> value in {"exact", "prefix"}
      modifies this
      ensures Valid() && State() == Stored(old(State()), key, value)
    {
      StoredKeepsInv(State(), key, value);
      entry := entry[key := value];
      exact := Overwrite(exact, exactAliases, entry);
      prefix := Overwrite(prefix, prefixAliases, entry);
    }

    method EndField(name: string) returns (err: Option<MigrationError>)
      requires Valid()
      requires name in Fields
      modifies this
      ensures Valid() && After(err, State()) == FieldEnded(old(State()), name)
    {
      var text := Strip(content);
      if text == "" {
        err := Some(EmptyElement(name, count));
      } else {
        err := None;
        Put(name, text);
      }
    }

    method File(purlType: string)
      requires Valid()
      requires purlType in {"302", "partial"}
      requires Fields <= entry.Keys
      modifies this
      ensures Valid() && State() == Filed(old(State()), purlType)
    {
      FiledKeepsInv(State(), purlType);
      Put("rule", RuleOf(purlType));
      if purlType == "302" {
        exactAliases := exactAliases + {|exact|};
        exact := exact + [entry];
      } else {
        prefixAliases := prefixAliases + {|prefix|};
        prefix := prefix + [entry];
      }
    }

    method EndPurl() returns (err: Option<MigrationError>)
      requires Valid()
      modifies this
      ensures Valid() && After(err, State()) == PurlEnded(old(State()))
    {
      err := None;
      if "id" !in entry {
        err := Some(NoId(count));
      } else if !HasBase(entry["id"], baseUrl) {
        err := Some(IdOutsideBase(entry["id"], count));
      } else {
        Put("id", entry["id"][|baseUrl|..]);
        if "url" !in entry {
          err := Some(NoUrl(count));
        } else if !AbsoluteUrl(entry["url"]) {
          err := Some(NotAbsoluteUrl(entry["url"], count));
        } else if "type" !in entry {
          err := Some(NoType(count));
        } else if entry["type"] in {"302", "partial"} {
          File(entry["type"]);
        } else {
          err := Some(UnknownType(entry["type"], count));
        }
      }
    }

    method EndElement(name: string) returns (err: Option<MigrationError>)
      requires Valid()
      modifies this
      ensures Valid() && After(err, State()) == ElementEnded(old(State()), name)
    {
      if name in Fields {
        err := EndField(name);
      } else if name == "purl" {
        err := EndPurl();
      } else {
        err := None;
      }
    }

    /** Passes one parser event to its callback. */
    method Dispatch(ev: Event) returns (err: Option<MigrationError>)
      requires Valid()
      modifies this
      ensures Valid() && After(err, State()) == Step(old(State()), ev)
    {
      err := None;
      match ev {
        case Open(name) => StartElement(name);
        case Chars(text) => Characters(text);
        case Close(name) => err := EndElement(name);
      }
    }
  }

  // ---------------------------------------------------------------------
  // The order of the output

  /** The sort key: the length of an entry's id. */
  function IdLength(e: Entry): nat {
    if "id" in e then |e["id"]| else 0
  }

  /** Longer ids come first: each entry's id is at least as long as the next one's. */
  predicate Descending(s: seq<Entry>) {
    |s| <= 1 || (IdLength(s[0]) >= IdLength(s[1]) && Descending(s[1..]))
  }

  /** In a descending sequence every entry's id is at least as long as any later one's. */
  lemma {:induction false} DescendingPairwise(s: seq<Entry>)
    requires Descending(s)
    ensures forall i, j :: 0 <= i < j < |s| ==> IdLength(s[i]) >= IdLength(s[j])
  {
    if |s| > 1 {
      DescendingPairwise(s[1..]);
      forall i, j | 0 <= i < j < |s| ensures IdLength(s[i]) >= IdLength(s[j]) {
        if i > 0 {
          assert s[i] == s[1..][i - 1] && s[j] == s[1..][j - 1];
        } else if j > 1 {
          assert s[j] == s[1..][j - 1] && s[1] == s[1..][0];
        }
      }
    }
  }

  /** An entry whose id is at least as long as the first of a descending sequence can go in front. */
  lemma DescendingCons(x: Entry, s: seq<Entry>)
    requires Descending(s) && (s == [] || IdLength(x) >= IdLength(s[0]))
    ensures Descending([x] + s)
  {
    assert ([x] + s)[1..] == s;
  }

  /** Inserts `e` in front of the first element of `t` whose id is not longer than its own. */
  function Insert(e: Entry, t: seq<Entry>): (r: seq<Entry>)
    ensures r != [] && (r[0] == e || (t != [] && r[0] == t[0]))
  {
    if t == [] || IdLength(t[0]) <= IdLength(e) then [e] + t
    else [t[0]] + Insert(e, t[1..])
  }

  /** Inserting into a descending sequence keeps it descending. */
  lemma {:induction false} InsertDescending(e: Entry, t: seq<Entry>)
    requires Descending(t)
    ensures Descending(Insert(e, t))
  {
    if t == [] || IdLength(t[0]) <= IdLength(e) {
      DescendingCons(e, t);
    } else {
      InsertDescending(e, t[1..]);
      DescendingCons(t[0], Insert(e, t[1..]));
    }
  }

  /** Inserting adds `e` and loses nothing. */
  lemma {:induction false} InsertPermutes(e: Entry, t: seq<Entry>)
    ensures multiset(Insert(e, t)) == multiset(t) + multiset{e}
  {
    if t != [] && IdLength(t[0]) > IdLength(e) {
      InsertPermutes(e, t[1..]);
      assert t == [t[0]] + t[1..];
    }
  }

  /** `sorted(s, key=id length, reverse=True)`: longest ids first, equal lengths in their order in `s`. */
  function SortByIdLength(s: seq<Entry>): (r: seq<Entry>)
    ensures Descending(r)
    ensures multiset(r) == multiset(s)
  {
    if s == [] then []
    else
      var sorted := SortByIdLength(s[1..]);
      InsertDescending(s[0], sorted);
      InsertPermutes(s[0], sorted);
      assert s == [s[0]] + s[1..];
      Insert(s[0], sorted)
  }

  /** The entries of `s` whose id has length `n`, in their order in `s`. */
  function WithIdLength(s: seq<Entry>, n: nat): seq<Entry> {
    if s == [] then [] else (if IdLength(s[0]) == n then [s[0]] else []) + WithIdLength(s[1..], n)
  }

  lemma {:induction false} WithIdLengthConcat(a: seq<Entry>, b: seq<Entry>, n: nat)
    ensures WithIdLength(a + b, n) == WithIdLength(a, n) + WithIdLength(b, n)
  {
    if a == [] {
      assert a + b == b;
    } else {
      var head := if IdLength(a[0]) == n then [a[0]] else [];
      var left, right := WithIdLength(a[1..], n), WithIdLength(b, n);
      calc {
        WithIdLength(a + b, n);
        { assert a + b != [] && (a + b)[0] == a[0] && (a + b)[1..] == a[1..] + b; }
        head + WithIdLength(a[1..] + b, n);
        { WithIdLengthConcat(a[1..], b, n); }
        head + (left + right);
        { assert head + (left + right) == (head + left) + right; }
        WithIdLength(a, n) + right;
      }
    }
  }

  lemma WithIdLengthSingle(x: Entry, n: nat)
    ensures WithIdLength([x], n) == if IdLength(x) == n then [x] else []
  {
    assert [x][1..] == [];
  }

  /** Inserting keeps the order among entries of equal id length: `e` goes in front of its equals. */
  lemma {:induction false} InsertStable(e: Entry, t: seq<Entry>, n: nat)
    requires Descending(t)
    ensures WithIdLength(Insert(e, t), n) == WithIdLength([e], n) + WithIdLength(t, n)
  {
    if t == [] || IdLength(t[0]) <= IdLength(e) {
      assert Insert(e, t) == [e] + t;
      WithIdLengthConcat([e], t, n);
    } else {
      InsertStable(e, t[1..], n);
      InsertPastLonger(e, t, n);
    }
  }

  /** The step of `InsertStable` where `e` goes past a longer first element. */
  lemma InsertPastLonger(e: Entry, t: seq<Entry>, n: nat)
    requires Descending(t) && t != [] && IdLength(t[0]) > IdLength(e)
    requires WithIdLength(Insert(e, t[1..]), n) == WithIdLength([e], n) + WithIdLength(t[1..], n)
    ensures WithIdLength(Insert(e, t), n) == WithIdLength([e], n) + WithIdLength(t, n)
  {
    InsertAfter(e, t);
    assert t == [t[0]] + t[1..];
    PassLonger(t[0], e, Insert(e, t[1..]), t[1..], n);
  }

  /** `e` goes past a first element with a longer id. */
  lemma InsertAfter(e: Entry, t: seq<Entry>)
    requires Descending(t) && t != [] && IdLength(t[0]) > IdLength(e)
    ensures Insert(e, t) == [t[0]] + Insert(e, t[1..])
  {
  }

  /** Filtering a sequence with a given first element. */
  lemma WithIdLengthCons(x: Entry, s: seq<Entry>, n: nat)
    ensures WithIdLength([x] + s, n) == if IdLength(x) == n then [x] + WithIdLength(s, n) else WithIdLength(s, n)
  {
    assert ([x] + s)[0] == x && ([x] + s)[1..] == s;
  }

  /** An entry with a longer id can change places with a shorter one without changing any group of equal lengths. */
  lemma PassLonger(x: Entry, e: Entry, ins: seq<Entry>, rest: seq<Entry>, n: nat)
    requires IdLength(x) > IdLength(e)
    requires WithIdLength(ins, n) == WithIdLength([e], n) + WithIdLength(rest, n)
    ensures WithIdLength([x] + ins, n) == WithIdLength([e], n) + WithIdLength([x] + rest, n)
  {
    WithIdLengthCons(x, ins, n);
    WithIdLengthCons(x, rest, n);
    WithIdLengthSingle(e, n);
    if IdLength(x) == n {
      // Then `e` is not of length `n`.
      assert WithIdLength([e], n) == [];
      assert WithIdLength(ins, n) == WithIdLength(rest, n);
      assert [] + WithIdLength([x] + rest, n) == WithIdLength([x] + rest, n);
    }
  }

  /** The sort is stable: for every id length, the entries of that length keep their order. */
  lemma {:induction false} SortStable(s: seq<Entry>, n: nat)
    ensures WithIdLength(SortByIdLength(s), n) == WithIdLength(s, n)
  {
    if s != [] {
      var sorted := SortByIdLength(s[1..]);
      assert SortByIdLength(s) == Insert(s[0], sorted);
      SortStable(s[1..], n);
      InsertStable(s[0], sorted, n);
      WithIdLengthConcat([s[0]], s[1..], n);
      assert s == [s[0]] + s[1..];
    }
  }

  /**
   * The output order: the exact entries in the order they were filed,
   * then the prefix entries, longest id first and stable among equal
   * lengths, so that a longer prefix is tried before a shorter one.
   */
  function Order(exact: seq<Entry>, prefix: seq<Entry>): (r: seq<Entry>)
    ensures |r| == |exact| + |prefix|
    ensures r[..|exact|] == exact
    ensures Descending(r[|exact|..]) && multiset(r[|exact|..]) == multiset(prefix)
    ensures forall n: nat :: WithIdLength(r[|exact|..], n) == WithIdLength(prefix, n)
  {
    var sorted := SortByIdLength(prefix);
    assert |sorted| == |multiset(sorted)| == |prefix|;
    forall n: nat ensures WithIdLength(sorted, n) == WithIdLength(prefix, n) {
      SortStable(prefix, n);
    }
    assert (exact + sorted)[|exact|..] == sorted;
    exact + sorted
  }

  /** Ordering neither adds nor loses entries, so complete entries stay complete. */
  lemma OrderComplete(exact: seq<Entry>, prefix: seq<Entry>)
    requires forall i :: 0 <= i < |exact| ==> Complete(exact[i])
    requires forall i :: 0 <= i < |prefix| ==> Complete(prefix[i])
    ensures forall i :: 0 <= i < |Order(exact, prefix)| ==> Complete(Order(exact, prefix)[i])
  {
    var r := Order(exact, prefix);
    forall k | 0 <= k < |r| ensures Complete(r[k]) {
      if k < |exact| {
        assert r[k] == r[..|exact|][k];
      } else {
        assert r[k] == r[|exact|..][k - |exact|];
        assert r[k] in multiset(r[|exact|..]);
      }
    }
  }

  // ---------------------------------------------------------------------
  // The run

  /** Passes the events to `h` in order, stopping at the first error. */
  method Feed(h: OclcHandler, events: seq<Event>) returns (err: Option<MigrationError>)
    requires h.Valid()
    modifies h
    ensures h.Valid() && After(err, h.State()) == Run(old(h.State()), events)
  {
    ghost var s0 := h.State();
    var i := 0;
    while i < |events|
      invariant 0 <= i <= |events|
      invariant h.Valid()
      invariant Run(s0, events[..i]) == After(None, h.State())
    {
      ghost var before := h.State();
      err := h.Dispatch(events[i]);
      RunAppend(s0, events[..i], [events[i]]);
      assert [events[i]][1..] == [];
      assert events[..i + 1] == events[..i] + [events[i]];
      if err.Some? {
        RunAppend(s0, events[..i + 1], events[i + 1..]);
        assert events[..i + 1] + events[i + 1..] == events;
        return;
      }
      i := i + 1;
    }
    assert events[..i] == events;
    err := None;
  }

  /**
   * What `main` makes of the parse, before the YAML is written: the first
   * error a callback raised, the no-entries error when nothing was filed,
   * or else every filed entry in output order.
   */
  function Migration(projectId: string, events: seq<Event>): (r: Result<seq<Entry>, MigrationError>)
    ensures var a := Run(Init(projectId), events);
      && (a.err.Some? ==> r == Failure(a.err.value))
      && (r == Failure(NoEntries) <==> a.err.None? && a.state.exact == [] && a.state.prefix == [])
      && (r.Success? <==> a.err.None? && (a.state.exact != [] || a.state.prefix != []))
      && (r.Success? ==> r.value == Order(a.state.exact, a.state.prefix))
    ensures r.Success? ==>
              && |r.value| == multiset(events)[Close("purl")] > 0
              && (forall i :: 0 <= i < |r.value| ==> Complete(r.value[i]))
    ensures r == Failure(NoEntries) ==> multiset(events)[Close("purl")] == 0
  {
    var a := Run(Init(projectId), events);
    RunCounts(Init(projectId), events);
    RunKeepsInv(Init(projectId), events);
    OrderComplete(a.state.exact, a.state.prefix);
    if a.err.Some? then Failure(a.err.value)
    else
      var entries := Order(a.state.exact, a.state.prefix);
      if |entries| == 0 then Failure(NoEntries) else Success(entries)
  }

  /** `main` after argument parsing: a new handler is fed the parser's events, and what it filed is put in output order. */
  method Migrate(projectId: string, events: seq<Event>) returns (r: Result<seq<Entry>, MigrationError>, h: OclcHandler)
    ensures fresh(h) && h.Valid() && h.State() == Run(Init(projectId), events).state
    ensures r == Migration(projectId, events)
  {
    h := new OclcHandler(projectId);
    var err := Feed(h, events);
    if err.Some? {
      return Failure(err.value), h;
    }
    var entries := Order(h.exact, h.prefix);
    if |entries| == 0 {
      return Failure(NoEntries), h;
    }
    r := Success(entries);
  }
}
