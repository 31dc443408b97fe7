/**
 * The string operations the two tools borrow from Python: `str.strip()`,
 * `str.lower()` (on ASCII letters), `str.startswith`, `re.escape`, and the
 * `str.replace('\\/', '/')` step of `clean_source`, together with a reader
 * that says which literal string a regular expression made only of literal
 * characters and escapes matches.
 */
module Text {
  import opened Wrappers

  // ---------------------------------------------------------------------
  // Whitespace and strip()

  /** The characters for which Python's `str.isspace()` holds; `str.strip()` with no argument removes them. */
  predicate IsSpace(c: char) {
    || 9 <= c as int <= 13
    || 28 <= c as int <= 32
    || c as int == 0x85 || c as int == 0xA0 || c as int == 0x1680
    || 0x2000 <= c as int <= 0x200A
    || c as int == 0x2028 || c as int == 0x2029 || c as int == 0x202F
    || c as int == 0x205F || c as int == 0x3000
  }

  /** The number of whitespace characters at the start of `s`. */
  function LeadingSpaces(s: string): (n: nat)
    ensures n <= |s|
    ensures forall i :: 0 <= i < n ==> IsSpace(s[i])
    ensures n < |s| ==> !IsSpace(s[n])
  {
    if s != [] && IsSpace(s[0]) then 1 + LeadingSpaces(s[1..]) else 0
  }

  /** The length of `s` once its trailing whitespace is cut off. */
  function TrailingCut(s: string): (n: nat)
    ensures n <= |s|
    ensures forall i :: n <= i < |s| ==> IsSpace(s[i])
    ensures 0 < n ==> !IsSpace(s[n - 1])
  {
    if s != [] && IsSpace(s[|s| - 1]) then TrailingCut(s[..|s| - 1]) else |s|
  }

  /** Python's `s.strip()`: `s` without its leading and trailing whitespace. */
  function Strip(s: string): (r: string)
    ensures r == [] || (!IsSpace(r[0]) && !IsSpace(r[|r| - 1]))
    ensures LeadingSpaces(s) + |r| <= |s| && r == s[LeadingSpaces(s)..LeadingSpaces(s) + |r|]
    ensures forall i :: 0 <= i < |s| && !(LeadingSpaces(s) <= i < LeadingSpaces(s) + |r|) ==> IsSpace(s[i])
  {
    var t := s[LeadingSpaces(s)..];
    t[..TrailingCut(t)]
  }

  /** A string is blank, in the sense of `s.strip() == ''`, exactly when every character of it is whitespace. */
  lemma StripBlank(s: string)
    ensures Strip(s) == [] <==> forall i :: 0 <= i < |s| ==> IsSpace(s[i])
  {
    if Strip(s) != [] {
      var k := LeadingSpaces(s);
      assert s[k] == Strip(s)[0];
    }
  }

  /** A string that neither starts nor ends with whitespace is its own strip. */
  lemma StripUnchanged(s: string)
    requires s != [] && !IsSpace(s[0]) && !IsSpace(s[|s| - 1])
    ensures Strip(s) == s
  {
    assert LeadingSpaces(s) == 0;
    assert s[0..] == s;
  }

  // ---------------------------------------------------------------------
  // lower() and startswith()

  /** Lower-cases one ASCII letter; every other character is left alone. */
  function LowerChar(c: char): char {
    if 'A' <= c <= 'Z' then (c as int + 32) as char else c
  }

  /** `s.lower()` on ASCII letters. */
  function Lower(s: string): (r: string)
    ensures |r| == |s| && forall i :: 0 <= i < |s| ==> r[i] == LowerChar(s[i])
  {
    if s == [] then [] else [LowerChar(s[0])] + Lower(s[1..])
  }

  /** A string without upper-case ASCII letters is its own lower-case form. */
  lemma LowerUnchanged(s: string)
    requires forall i :: 0 <= i < |s| ==> !('A' <= s[i] <= 'Z')
    ensures Lower(s) == s
  {
  }

  /** Lower-casing twice is lower-casing once. */
  lemma LowerIdempotent(s: string)
    ensures Lower(Lower(s)) == Lower(s)
  {
  }

  /** Python's `s.startswith(p)`. */
  predicate StartsWith(s: string, p: string) {
    |p| <= |s| && s[..|p|] == p
  }

  /** One differing character within the prefix's length refutes `startswith`. */
  lemma DiffersAt(s: string, p: string, i: nat)
    requires i < |p| <= |s| && s[i] != p[i]
    ensures !StartsWith(s, p)
  {
    assert s[..|p|][i] == s[i];
  }

  // ---------------------------------------------------------------------
  // re.escape() and clean_source's un-escaping of slashes

  /** The characters `re.escape` leaves alone: ASCII letters, digits and `_`. */
  predicate IsWordChar(c: char) {
    ('a' <= c <= 'z') || ('A' <= c <= 'Z') || ('0' <= c <= '9') || c == '_'
  }

  /** How `re.escape` writes one character: a word character as itself, NUL as `\000`, anything else behind a backslash. */
  function EscapeChar(c: char): string {
    if IsWordChar(c) then [c] else if c == '\0' then "\\000" else ['\\', c]
  }

  /** `re.escape(s)`: a pattern that matches exactly `s`. */
  function Escape(s: string): (r: string)
    ensures ReadLiteral(r) == Some(s)
  {
    if s == [] then []
    else
      ReadEscapeChar(s[0], Escape(s[1..]));
      assert s == [s[0]] + s[1..];
      EscapeChar(s[0]) + Escape(s[1..])
  }

  /** A backslash-slash pair starts at position `i` of `s`. */
  predicate SlashPairAt(s: string, i: int) {
    0 <= i < |s| - 1 && s[i] == '\\' && s[i + 1] == '/'
  }

  /** `s.replace('\\/', '/')`: every backslash-slash pair, scanning left to right without overlap, becomes a slash. */
  function UnescapeSlashes(s: string): string {
    if |s| >= 2 && s[0] == '\\' && s[1] == '/' then "/" + UnescapeSlashes(s[2..])
    else if s == [] then []
    else [s[0]] + UnescapeSlashes(s[1..])
  }

  /** The replacement never lengthens a string; it changes one exactly when a backslash-slash pair occurs, and then shortens it. */
  lemma {:induction false} UnescapeSlashesChanges(s: string)
    ensures |UnescapeSlashes(s)| <= |s|
    ensures (forall i :: !SlashPairAt(s, i)) ==> UnescapeSlashes(s) == s
    ensures (exists i :: SlashPairAt(s, i)) ==> |UnescapeSlashes(s)| < |s|
  {
    if |s| >= 2 && s[0] == '\\' && s[1] == '/' {
      UnescapeSlashesChanges(s[2..]);
      assert SlashPairAt(s, 0);
    } else if s != [] {
      UnescapeSlashesChanges(s[1..]);
      assert forall i :: SlashPairAt(s[1..], i) ==> SlashPairAt(s, i + 1);
      assert forall i :: SlashPairAt(s, i) ==> SlashPairAt(s[1..], i - 1);
      assert s == [s[0]] + s[1..];
    }
  }

  /** One character as it should stand in a slash-friendly literal pattern: like `EscapeChar`, but `/` is written bare. */
  function QuoteChar(c: char): string {
    if IsWordChar(c) || c == '/' then [c] else if c == '\0' then "\\000" else ['\\', c]
  }

  /** A reference definition of the pattern `clean_source` should produce from an already stripped string. */
  function Quote(s: string): string {
    if s == [] then [] else QuoteChar(s[0]) + Quote(s[1..])
  }

  /** Quoting works character by character, so it distributes over concatenation. */
  lemma {:induction false} QuoteConcat(a: string, b: string)
    ensures Quote(a + b) == Quote(a) + Quote(b)
  {
    if a != [] {
      assert (a + b)[0] == a[0] && (a + b)[1..] == a[1..] + b;
      QuoteConcat(a[1..], b);
    } else {
      assert a + b == b;
    }
  }

  /** A string made only of word characters and slashes quotes to itself. */
  lemma {:induction false} QuoteUnchanged(s: string)
    requires forall i :: 0 <= i < |s| ==> IsWordChar(s[i]) || s[i] == '/'
    ensures Quote(s) == s
  {
    if s != [] {
      QuoteUnchanged(s[1..]);
    }
  }

  // ---------------------------------------------------------------------
  // Reading a literal pattern back

  /** The characters a Python regular expression gives a special meaning to outside a character class. */
  predicate IsMeta(c: char) {
    c in {'.', '^', '$', '*', '+', '?', '{', '}', '[', ']', '\\', '|', '(', ')'}
  }

  predicate IsAsciiAlnum(c: char) {
    ('a' <= c <= 'z') || ('A' <= c <= 'Z') || ('0' <= c <= '9')
  }

  /**
   * The one string the pattern `p` matches when `p` consists only of literal
   * characters and escapes: an unescaped character that is not a
   * metacharacter stands for itself, `\000` for NUL, and a backslash before
   * anything but an ASCII letter or digit for that character. `None` when
   * `p` holds a metacharacter, a class escape such as `\d` or a back
   * reference, or ends in a lone backslash.
   */
  function ReadLiteral(p: string): Option<string> {
    if p == [] then Some([])
    else if p[0] == '\\' then
      if |p| >= 4 && p[1..4] == "000" then Prepend('\0', ReadLiteral(p[4..]))
      else if |p| >= 2 && !IsAsciiAlnum(p[1]) then Prepend(p[1], ReadLiteral(p[2..]))
      else None
    else if IsMeta(p[0]) then None
    else Prepend(p[0], ReadLiteral(p[1..]))
  }

  function Prepend(c: char, o: Option<string>): Option<string> {
    if o.Some? then Some([c] + o.value) else None
  }

  // ---------------------------------------------------------------------
  // Facts about escaping

  /** The output of `re.escape` never starts with a slash. */
  lemma EscapeHead(s: string)
    ensures Escape(s) == [] || Escape(s)[0] != '/'
  {
  }

  /** A character other than a backslash or a slash is passed over by `UnescapeSlashes`. */
  lemma UnescapePlain(c: char, rest: string)
    requires c != '\\'
    ensures UnescapeSlashes([c] + rest) == [c] + UnescapeSlashes(rest)
  {
    assert ([c] + rest)[1..] == rest;
  }

  /** A backslash that is not followed by a slash is passed over by `UnescapeSlashes`. */
  lemma UnescapeLoneBackslash(rest: string)
    requires rest == [] || rest[0] != '/'
    ensures UnescapeSlashes(['\\'] + rest) == ['\\'] + UnescapeSlashes(rest)
  {
    assert (['\\'] + rest)[1..] == rest;
  }

  /** A piece without slashes that does not end in a backslash passes through `UnescapeSlashes` unchanged. */
  lemma {:induction false} UnescapeVerbatim(p: string, rest: string)
    requires '/' !in p
    requires p == [] || p[|p| - 1] != '\\'
    ensures UnescapeSlashes(p + rest) == p + UnescapeSlashes(rest)
  {
    if p != [] {
      var c, q := p[0], p[1..];
      assert p == [c] + q;
      assert q != [] ==> q[0] == p[1] && q[|q| - 1] == p[|p| - 1];
      UnescapeVerbatim(q, rest);
      calc {
        UnescapeSlashes(p + rest);
        { assert p + rest == [c] + (q + rest); }
        UnescapeSlashes([c] + (q + rest));
        { if c == '\\' { UnescapeLoneBackslash(q + rest); } else { UnescapePlain(c, q + rest); } }
        [c] + UnescapeSlashes(q + rest);
        [c] + (q + UnescapeSlashes(rest));
        { assert [c] + (q + UnescapeSlashes(rest)) == ([c] + q) + UnescapeSlashes(rest); }
        p + UnescapeSlashes(rest);
      }
    } else {
      assert p + rest == rest;
    }
  }

  /** `UnescapeSlashes` leaves the escaped NUL `\000` alone. */
  lemma UnescapeNul(rest: string)
    ensures UnescapeSlashes("\\000" + rest) == "\\000" + UnescapeSlashes(rest)
  {
    UnescapeVerbatim("\\000", rest);
  }

  /** `UnescapeSlashes` turns an escaped slash into a bare one. */
  lemma UnescapeSlash(rest: string)
    ensures UnescapeSlashes("\\/" + rest) == "/" + UnescapeSlashes(rest)
  {
    assert ("\\/" + rest)[2..] == rest;
  }

  /** Un-escaping slashes after escaping one character treats that character on its own. */
  lemma UnescapeAfterEscapeChar(c: char, rest: string)
    requires rest == [] || rest[0] != '/'
    ensures UnescapeSlashes(EscapeChar(c) + rest) == QuoteChar(c) + UnescapeSlashes(rest)
  {
    if IsWordChar(c) {
      UnescapePlain(c, rest);
    } else if c == '\0' {
      UnescapeNul(rest);
    } else if c == '/' {
      UnescapeSlash(rest);
    } else {
      assert EscapeChar(c) == ['\\', c];
      UnescapeOther(c, rest);
    }
  }

  /** Any other escaped character keeps its backslash. */
  lemma UnescapeOther(c: char, rest: string)
    requires c != '/'
    requires rest == [] || rest[0] != '/'
    ensures UnescapeSlashes(['\\', c] + rest) == ['\\', c] + UnescapeSlashes(rest)
  {
    if c != '\\' {
      UnescapeVerbatim(['\\', c], rest);
    } else {
      UnescapeLoneBackslash(rest);
      UnescapeLoneBackslash(['\\'] + rest);
      assert ['\\', c] + rest == ['\\'] + (['\\'] + rest);
      assert ['\\'] + (['\\'] + UnescapeSlashes(rest)) == ['\\', c] + UnescapeSlashes(rest);
    }
  }

  /** `re.escape` followed by `replace('\\/', '/')` is the reference quoting `Quote`. */
  lemma {:induction false} UnescapeSlashesOfEscape(s: string)
    ensures UnescapeSlashes(Escape(s)) == Quote(s)
  {
    if s != [] {
      EscapeHead(s[1..]);
      UnescapeAfterEscapeChar(s[0], Escape(s[1..]));
      UnescapeSlashesOfEscape(s[1..]);
    }
  }

  /** An escaped character, read back, is that character. */
  lemma ReadEscapeChar(c: char, q: string)
    ensures ReadLiteral(EscapeChar(c) + q) == Prepend(c, ReadLiteral(q))
  {
    var p := EscapeChar(c) + q;
    if IsWordChar(c) {
      assert p[0] == c && !IsMeta(c) && p[1..] == q;
    } else if c == '\0' {
      assert p[0] == '\\' && p[1..4] == "000" && p[4..] == q;
    } else {
      assert p[0] == '\\' && p[1] == c && !IsAsciiAlnum(c) && p[2..] == q;
      assert !(|p| >= 4 && p[1..4] == "000") by {
        if |p| >= 4 { assert p[1..4][0] == c; }
      }
    }
  }

  /** A quoted string is a literal pattern that matches exactly the string it quotes. */
  lemma {:induction false} ReadQuote(s: string)
    ensures ReadLiteral(Quote(s)) == Some(s)
  {
    if s != [] {
      var c, q := s[0], Quote(s[1..]);
      ReadQuote(s[1..]);
      var p := QuoteChar(c) + q;
      assert Quote(s) == p;
      if IsWordChar(c) || c == '/' {
        assert p[0] == c && !IsMeta(c) && p[1..] == q;
        assert s == [c] + s[1..];
      } else if c == '\0' {
        assert p[0] == '\\' && p[1..4] == "000" && p[4..] == q;
        assert s == [c] + s[1..];
      } else {
        assert p[0] == '\\' && p[1] == c && !IsAsciiAlnum(c) && p[2..] == q;
        assert s == [c] + s[1..];
        assert !(|p| >= 4 && p[1..4] == "000") by {
          if |p| >= 4 { assert p[1..4][0] == c; }
        }
      }
    }
  }

  // ---------------------------------------------------------------------
  // clean_source

  /**
   * `clean_source(s)`: strip the URL string, escape it for a regular
   * expression, then take the backslashes off the slashes again.
   */
  function CleanSource(s: string): (r: string)
    ensures r == Quote(Strip(s))
    ensures ReadLiteral(r) == Some(Strip(s))
  {
    UnescapeSlashesOfEscape(Strip(s));
    ReadQuote(Strip(s));
    UnescapeSlashes(Escape(Strip(s)))
  }
}
