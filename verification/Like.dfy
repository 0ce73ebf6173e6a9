/**
 The search box of the inventory and of the audit log: a literal search term
 becomes a LIKE pattern (ca/certs.py and audit.py).
 */
module Like {

  // ----- how a database matches ---------------------------------------------------------

  /** SQL LIKE with a backslash as its escape: `%` matches any text, `_` any single
      character, an escaped character itself. A pattern ending in a lone escape
      matches nothing. */
  predicate Matches(pattern: string, text: string)
    decreases |pattern| + |text|
  {
    if pattern == "" then text == ""
    else if pattern[0] == '\\' then |pattern| > 1 && text != "" && text[0] == pattern[1] && Matches(pattern[2..], text[1..])
    else if pattern[0] == '%' then Matches(pattern[1..], text) || (text != "" && Matches(pattern, text[1..]))
    else text != "" && (pattern[0] == '_' || pattern[0] == text[0]) && Matches(pattern[1..], text[1..])
  }

  // ----- how the pattern is built -----------------------------------------------------------

  /** `str.replace` of one character by a text. */
  function Replace(s: string, c: char, into: string): string
  {
    if s == "" then "" else (if s[0] == c then into else [s[0]]) + Replace(s[1..], c, into)
  }

  /** The escape character first, so that the escapes added later stay single. */
  function Escape(term: string): string
  {
    Replace(Replace(Replace(term, '\\', "\\\\"), '%', "\\%"), '_', "\\_")
  }

  function PatternFor(term: string): string
  {
    "%" + Escape(term) + "%"
  }

  // ----- what it should mean -------------------------------------------------------------------

  ghost predicate Occurs(term: string, text: string)
  {
    exists i :: 0 <= i <= |text| && OccursAt(term, text, i)
  }

  predicate OccursAt(term: string, text: string, i: nat)
  {
    i + |term| <= |text| && text[i..i + |term|] == term
  }

  /** One character at a time, which is what the three replacements amount to. */
  function EscapeEach(term: string): string
  {
    if term == "" then ""
    else (if term[0] in "\\%_" then ['\\', term[0]] else [term[0]]) + EscapeEach(term[1..])
  }

  lemma {:induction false} ReplaceConcat(a: string, b: string, c: char, into: string)
    ensures Replace(a + b, c, into) == Replace(a, c, into) + Replace(b, c, into)
  {
    if a == "" {
      assert a + b == b;
    } else {
      assert (a + b)[1..] == a[1..] + b;
      ReplaceConcat(a[1..], b, c, into);
    }
  }

  lemma ReplaceOne(x: char, c: char, into: string)
    ensures Replace([x], c, into) == if x == c then into else [x]
  {
    assert [x][1..] == "";
  }

  lemma ReplaceTwo(x: char, y: char, c: char, into: string)
    requires x != c
    ensures Replace([x, y], c, into) == if y == c then [x] + into else [x, y]
  {
    ReplaceOne(x, c, into);
    ReplaceOne(y, c, into);
    assert [x] + [y] == [x, y];
    ReplaceConcat([x], [y], c, into);
  }

  lemma EscapeOne(x: char)
    ensures Escape([x]) == if x in "\\%_" then ['\\', x] else [x]
  {
    ReplaceOne(x, '\\', "\\\\");
    if x == '\\' {
      ReplaceTwo('\\', '\\', '%', "\\%");
      ReplaceTwo('\\', '\\', '_', "\\_");
    } else {
      ReplaceOne(x, '%', "\\%");
      if x == '%' {
        ReplaceTwo('\\', '%', '_', "\\_");
      } else {
        ReplaceOne(x, '_', "\\_");
      }
    }
  }

  lemma EscapeConcat(a: string, b: string)
    ensures Escape(a + b) == Escape(a) + Escape(b)
  {
    ReplaceConcat(a, b, '\\', "\\\\");
    var a1, b1 := Replace(a, '\\', "\\\\"), Replace(b, '\\', "\\\\");
    ReplaceConcat(a1, b1, '%', "\\%");
    ReplaceConcat(Replace(a1, '%', "\\%"), Replace(b1, '%', "\\%"), '_', "\\_");
  }

  /** The three replacements, each over the result of the one before, escape every
      special character of the term once. */
  lemma {:induction false} ReplacementsEscapeEach(term: string)
    ensures Escape(term) == EscapeEach(term)
  {
    if term != "" {
      assert term == [term[0]] + term[1..];
      EscapeConcat([term[0]], term[1..]);
      EscapeOne(term[0]);
      ReplacementsEscapeEach(term[1..]);
    }
  }

  // ----- the theorem ------------------------------------------------------------------------------

  /** A single `%` matches everything. */
  lemma {:induction false} PercentMatchesAll(text: string)
    ensures Matches("%", text)
  {
    assert "%"[1..] == "";
    if text != "" {
      PercentMatchesAll(text[1..]);
    }
  }

  /** An escaped term and `%` match the texts that start with the term. */
  lemma {:induction false} EscapedIsPrefix(term: string, text: string)
    ensures Matches(EscapeEach(term) + "%", text) <==> OccursAt(term, text, 0)
  {
    if term == "" {
      assert EscapeEach(term) + "%" == "%";
      PercentMatchesAll(text);
    } else {
      var rest := EscapeEach(term[1..]) + "%";
      var pattern := EscapeEach(term) + "%";
      if term[0] in "\\%_" {
        assert pattern == ['\\', term[0]] + rest;
      } else {
        assert pattern == [term[0]] + rest;
      }
      if text != "" {
        EscapedIsPrefix(term[1..], text[1..]);
        PrefixByParts(term, text);
      }
    }
  }

  lemma PrefixByParts(term: string, text: string)
    requires term != "" && text != ""
    ensures OccursAt(term, text, 0) <==> term[0] == text[0] && OccursAt(term[1..], text[1..], 0)
  {
    if term[0] == text[0] && OccursAt(term[1..], text[1..], 0) {
      assert text[0..|term|] == [text[0]] + text[1..][0..|term| - 1];
    }
    if OccursAt(term, text, 0) {
      assert text[0..|term|][1..] == text[1..][0..|term| - 1];
    }
  }

  lemma OccursLater(term: string, text: string)
    requires text != ""
    ensures Occurs(term, text) <==> OccursAt(term, text, 0) || Occurs(term, text[1..])
  {
    if Occurs(term, text) {
      var i :| 0 <= i <= |text| && OccursAt(term, text, i);
      if i > 0 {
        assert text[1..][i - 1..i - 1 + |term|] == text[i..i + |term|];
        assert OccursAt(term, text[1..], i - 1);
      }
    }
    if Occurs(term, text[1..]) {
      var i :| 0 <= i <= |text[1..]| && OccursAt(term, text[1..], i);
      assert text[1..][i..i + |term|] == text[i + 1..i + 1 + |term|];
      assert OccursAt(term, text, i + 1);
    }
  }

  lemma {:induction false} LeadingPercentSearches(term: string, text: string)
    ensures Matches("%" + (EscapeEach(term) + "%"), text) <==> Occurs(term, text)
  {
    var tail := EscapeEach(term) + "%";
    assert ("%" + tail)[1..] == tail;
    EscapedIsPrefix(term, text);
    if text == "" {
      assert Occurs(term, text) ==> OccursAt(term, text, 0);
      assert OccursAt(term, text, 0) ==> Occurs(term, text);
    } else {
      LeadingPercentSearches(term, text[1..]);
      OccursLater(term, text);
    }
  }

  /** For every term and every text: the pattern matches exactly the texts in which
      the term occurs literally, whatever wildcards or escapes the term contains. */
  lemma SearchIsLiteral(term: string, text: string)
    ensures Matches(PatternFor(term), text) <==> Occurs(term, text)
  {
    ReplacementsEscapeEach(term);
    assert PatternFor(term) == "%" + (EscapeEach(term) + "%");
    LeadingPercentSearches(term, text);
  }
}
