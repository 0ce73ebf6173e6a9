/** The string operations the policies rest on, and what they mean. */
module Text {

  // ----- prefixes, suffixes, substrings ---------------------------------------------

  predicate StartsWith(s: string, prefix: string)
  {
    |prefix| <= |s| && s[..|prefix|] == prefix
  }

  predicate EndsWith(s: string, suffix: string)
  {
    |suffix| <= |s| && s[|s| - |suffix|..] == suffix
  }

  // ----- case ------------------------------------------------------------------------

  function LowerChar(c: char): char
  {
    if 'A' <= c <= 'Z' then (c as int + 32) as char else c
  }

  function UpperChar(c: char): char
  {
    if 'a' <= c <= 'z' then (c as int - 32) as char else c
  }

  function Lower(s: string): (r: string)
    ensures |r| == |s|
  {
    seq(|s|, i requires 0 <= i < |s| => LowerChar(s[i]))
  }

  function Upper(s: string): (r: string)
    ensures |r| == |s|
  {
    seq(|s|, i requires 0 <= i < |s| => UpperChar(s[i]))
  }

  predicate IsLower(s: string)
  {
    Lower(s) == s
  }

  lemma LowerTwice(s: string)
    ensures IsLower(Lower(s))
  {
  }

  // ----- white space -------------------------------------------------------------------

  predicate IsSpace(c: char)
  {
    var n := c as int;
    || 9 <= n <= 13 || 28 <= n <= 32 || n == 0x85 || n == 0xa0 || n == 0x1680
    || 0x2000 <= n <= 0x200a || n == 0x2028 || n == 0x2029 || n == 0x202f || n == 0x205f || n == 0x3000
  }

  function StripLeft(s: string): (r: string)
    ensures r != "" ==> !IsSpace(r[0])
    ensures s == "" || !IsSpace(s[0]) ==> r == s
  {
    if s != "" && IsSpace(s[0]) then StripLeft(s[1..]) else s
  }

  function StripRight(s: string): (r: string)
    ensures r != "" ==> !IsSpace(r[|r| - 1])
    ensures |r| <= |s| && s[..|r|] == r
    ensures s == "" || !IsSpace(s[|s| - 1]) ==> r == s
  {
    if s != "" && IsSpace(s[|s| - 1]) then StripRight(s[..|s| - 1]) else s
  }

  function Strip(s: string): string
  {
    StripRight(StripLeft(s))
  }

  predicate Stripped(s: string)
  {
    s == "" || (!IsSpace(s[0]) && !IsSpace(s[|s| - 1]))
  }

  /** Stripping leaves a stripped text, and leaves a stripped text alone. */
  lemma StripIsStripped(s: string)
    ensures Stripped(Strip(s))
    ensures Stripped(s) ==> Strip(s) == s
  {
    var left := StripLeft(s);
    var both := StripRight(left);
    if both != "" {
      assert both[0] == left[..|both|][0] == left[0];
    }
  }

  // ----- labels -----------------------------------------------------------------------

  /** The parts between dots: always at least one, possibly empty. */
  function Split(s: string): (labels: seq<string>)
    ensures |labels| > 0
  {
    if s == "" then [""]
    else if s[0] == '.' then [""] + Split(s[1..])
    else
      var rest := Split(s[1..]);
      [[s[0]] + rest[0]] + rest[1..]
  }

  function Join(labels: seq<string>): string
    requires |labels| > 0
  {
    if |labels| == 1 then labels[0] else labels[0] + "." + Join(labels[1..])
  }

  lemma {:induction false} JoinOfSplit(s: string)
    ensures Join(Split(s)) == s
  {
    if s != "" {
      JoinOfSplit(s[1..]);
      var rest := Split(s[1..]);
      if s[0] == '.' {
        assert Split(s)[1..] == rest;
        assert Join(Split(s)) == "" + "." + s[1..];
      } else {
        assert Split(s)[1..] == rest[1..];
        assert Join(Split(s)) == [s[0]] + Join(rest);
      }
    }
  }

  lemma {:induction false} SplitAtDot(a: string, b: string)
    ensures Split(a + "." + b) == Split(a) + Split(b)
  {
    var whole := a + "." + b;
    if a == "" {
      assert whole == "." + b;
    } else {
      assert whole[1..] == a[1..] + "." + b;
      SplitAtDot(a[1..], b);
      if a[0] == '.' {
        assert Split(whole) == [""] + (Split(a[1..]) + Split(b));
      } else {
        var rest := Split(a[1..]);
        assert Split(whole) == [[a[0]] + rest[0]] + (rest + Split(b))[1..];
      }
    }
  }

  lemma {:induction false} JoinInTwo(a: seq<string>, b: seq<string>)
    requires |a| > 0 && |b| > 0
    ensures Join(a + b) == Join(a) + "." + Join(b)
  {
    if |a| == 1 {
      assert (a + b)[1..] == b;
    } else {
      assert (a + b)[1..] == a[1..] + b;
      JoinInTwo(a[1..], b);
      assert (a + b)[0] == a[0];
      assert Join(a + b) == a[0] + "." + (Join(a[1..]) + "." + Join(b));
    }
  }

  /** `b` is `a` with zero or more labels added on the left. */
  predicate IsTail(a: seq<string>, b: seq<string>)
  {
    |a| <= |b| && b[|b| - |a|..] == a
  }

  lemma SuffixGivesTail(name: string, constraint: string)
    requires EndsWith(name, "." + constraint)
    ensures IsTail(Split(constraint), Split(name))
  {
    hide Split;
    var head := name[..|name| - |constraint| - 1];
    assert name == head + ("." + constraint) == head + "." + constraint;
    SplitAtDot(head, constraint);
  }

  lemma TailGivesSuffix(name: string, constraint: string)
    requires IsTail(Split(constraint), Split(name))
    ensures name == constraint || EndsWith(name, "." + constraint)
  {
    hide Split, Join;
    var labels, tail := Split(name), Split(constraint);
    JoinOfSplit(name);
    JoinOfSplit(constraint);
    var front := labels[..|labels| - |tail|];
    assert labels == front + tail;
    if front == [] {
      assert labels == tail;
    } else {
      JoinInTwo(front, tail);
      assert name == Join(front) + ("." + constraint);
    }
  }

  /** A suffix test that insists on a dot in front is a comparison of whole labels. */
  lemma SuffixIsLabelTail(name: string, constraint: string)
    ensures name == constraint || EndsWith(name, "." + constraint)
       <==> IsTail(Split(constraint), Split(name))
  {
    hide Split, EndsWith;
    if EndsWith(name, "." + constraint) {
      SuffixGivesTail(name, constraint);
    }
    if IsTail(Split(constraint), Split(name)) {
      TailGivesSuffix(name, constraint);
    }
  }

  // ----- host names -----------------------------------------------------------------------

  predicate IsAlnum(c: char)
  {
    'a' <= c <= 'z' || 'A' <= c <= 'Z' || '0' <= c <= '9'
  }

  predicate IsLabel(s: string)
  {
    && 1 <= |s| <= 63
    && IsAlnum(s[0]) && IsAlnum(s[|s| - 1])
    && forall i :: 0 <= i < |s| ==> IsAlnum(s[i]) || s[i] == '-'
  }

  predicate AreLabels(labels: seq<string>)
  {
    forall i :: 0 <= i < |labels| ==> IsLabel(labels[i])
  }

  /** Labels joined by dots, with an optional star for the leftmost one. */
  predicate IsDottedName(s: string)
  {
    var labels := Split(s);
    AreLabels(labels) || (labels[0] == "*" && |labels| > 1 && AreLabels(labels[1..]))
  }

  /** The pattern's `$` also matches just before a final line feed. */
  predicate IsHostname(s: string)
  {
    |s| <= 253 && (IsDottedName(s) || (EndsWith(s, "\n") && IsDottedName(s[..|s| - 1])))
  }
}
