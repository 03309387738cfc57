/** Models of the JavaScript string operations the feed pages use:
    `trim`, `replace(/\s/g, "+")`, `replace(/\n/g, "<br />")`,
    `toLowerCase` (ASCII letters only) and `includes`. */
module Text {

  /** The characters matched by the regular-expression class `\s` and stripped
      by `String.prototype.trim`: the WhiteSpace and LineTerminator code points
      of ECMA-262 (sections 12.2 and 12.3): TAB, LF, VT, FF, CR, SPACE, NBSP,
      OGHAM SPACE MARK, U+2000 to U+200A, LINE SEPARATOR, PARAGRAPH SEPARATOR,
      U+202F, U+205F, IDEOGRAPHIC SPACE and ZWNBSP (BOM). */
  predicate IsSpace(c: char) {
    var n := c as int;
    (9 <= n <= 13) || n == 0x20 || n == 0xA0 || n == 0x1680 ||
    (0x2000 <= n <= 0x200A) || n == 0x2028 || n == 0x2029 ||
    n == 0x202F || n == 0x205F || n == 0x3000 || n == 0xFEFF
  }

  ghost predicate AllSpace(s: string) {
    forall i :: 0 <= i < |s| ==> IsSpace(s[i])
  }

  /** Leading white space removed: the result is a suffix of `s`, everything
      cut off is white space, and the result does not start with white space. */
  function TrimStart(s: string): (r: string)
    ensures |r| <= |s| && r == s[|s| - |r|..]
    ensures AllSpace(s[..|s| - |r|])
    ensures r != [] ==> !IsSpace(r[0])
  {
    if s != [] && IsSpace(s[0]) then
      var r := TrimStart(s[1..]);
      assert s[..|s| - |r|] == [s[0]] + s[1..][..|s| - 1 - |r|];
      r
    else s
  }

  /** Trailing white space removed: the result is a prefix of `s`, everything
      cut off is white space, and the result does not end with white space. */
  function TrimEnd(s: string): (r: string)
    ensures |r| <= |s| && r == s[..|r|]
    ensures AllSpace(s[|r|..])
    ensures r != [] ==> !IsSpace(r[|r| - 1])
  {
    if s != [] && IsSpace(s[|s| - 1]) then
      var r := TrimEnd(s[..|s| - 1]);
      assert s[|r|..] == s[..|s| - 1][|r|..] + [s[|s| - 1]];
      r
    else s
  }

  /** `r` is the slice of `s` at `i`, with only white space on either side. */
  ghost predicate SliceBetweenSpace(s: string, r: string, i: int) {
    0 <= i <= |s| - |r| && r == s[i..i + |r|] && AllSpace(s[..i]) && AllSpace(s[i + |r|..])
  }

  /** `s.trim()`: leading and trailing white space removed; neither end of
      the result is white space. */
  function Trim(s: string): (r: string)
    ensures |r| <= |s|
    ensures r != [] ==> !IsSpace(r[0]) && !IsSpace(r[|r| - 1])
  {
    var t := TrimStart(s);
    var r := TrimEnd(t);
    assert r != [] ==> r[0] == t[0];
    r
  }

  /** `trim` cuts only white space, and only at the ends: its result is a
      slice of the input with nothing but white space on either side. */
  lemma TrimIsSlice(s: string)
    ensures exists i :: SliceBetweenSpace(s, Trim(s), i)
  {
    var t := TrimStart(s);
    var r := TrimEnd(t);
    var i := |s| - |t|;
    assert r == Trim(s);
    assert t == s[i..];
    assert 0 <= i <= |s| - |r|;
    assert AllSpace(s[..i]);
    assert r == s[i..i + |r|] by {
      calc {
        r;
        t[..|r|];
        s[i..][..|r|];
        s[i..i + |r|];
      }
    }
    assert AllSpace(s[i + |r|..]) by {
      assert s[i + |r|..] == t[|r|..];
    }
    assert SliceBetweenSpace(s, r, i);
  }

  /** Text made only of white space trims to the empty string. */
  lemma TrimAllSpace(s: string)
    requires AllSpace(s)
    ensures Trim(s) == []
  {
  }

  /** `s.replace(/\s/g, "+")`: each white-space character, one by one, becomes
      `+`; every other character is kept in place. */
  function ReplaceSpaces(s: string): (r: string)
    ensures |r| == |s|
    ensures forall i :: 0 <= i < |s| ==> r[i] == if IsSpace(s[i]) then '+' else s[i]
  {
    if s == [] then [] else [if IsSpace(s[0]) then '+' else s[0]] + ReplaceSpaces(s[1..])
  }

  /** The number of times `c` occurs in `s`. */
  function Count(s: string, c: char): nat
  {
    if s == [] then 0 else (if s[0] == c then 1 else 0) + Count(s[1..], c)
  }

  const LineBreakTag: string := "<br />"

  /** `s.replace(/\n/g, "<br />")`: no line feed is left, and each one added
      the five extra characters of the tag. */
  function ReplaceNewlines(s: string): (r: string)
    ensures '\n' !in r
    ensures |r| == |s| + 5 * Count(s, '\n')
  {
    if s == [] then []
    else (if s[0] == '\n' then LineBreakTag else [s[0]]) + ReplaceNewlines(s[1..])
  }

  /** The replacement works character by character, so it distributes over
      concatenation. */
  lemma {:induction false} ReplaceNewlinesAppend(a: string, b: string)
    ensures ReplaceNewlines(a + b) == ReplaceNewlines(a) + ReplaceNewlines(b)
  {
    if a == [] {
      assert a + b == b;
    } else {
      assert (a + b)[1..] == a[1..] + b;
      ReplaceNewlinesAppend(a[1..], b);
    }
  }

  /** Text without a line feed is stored exactly as typed. */
  lemma {:induction false} ReplaceNewlinesNoNewline(s: string)
    requires '\n' !in s
    ensures ReplaceNewlines(s) == s
  {
    if s != [] {
      ReplaceNewlinesNoNewline(s[1..]);
      assert s == [s[0]] + s[1..];
    }
  }

  /** Reading the stored text back: each `<br />` tag turns into a line feed.
      It is a reference reading for the round trip, not part of the program. */
  ghost function RestoreNewlines(s: string): string
  {
    if s == [] then []
    else if |s| >= 6 && s[..6] == LineBreakTag then "\n" + RestoreNewlines(s[6..])
    else [s[0]] + RestoreNewlines(s[1..])
  }

  /** Nothing but the line feeds is changed: as long as the typed text holds
      no `<`, the original is recovered from the stored text. */
  lemma {:induction false} RestoreReplaceNewlines(s: string)
    requires '<' !in s
    ensures RestoreNewlines(ReplaceNewlines(s)) == s
  {
    if s != [] {
      var rest := ReplaceNewlines(s[1..]);
      RestoreReplaceNewlines(s[1..]);
      if s[0] == '\n' {
        var r := LineBreakTag + rest;
        assert r[..6] == LineBreakTag && r[6..] == rest;
      } else {
        var r := [s[0]] + rest;
        assert r[1..] == rest;
      }
      assert s == [s[0]] + s[1..];
    }
  }

  predicate IsUpper(c: char) {
    'A' <= c <= 'Z'
  }

  /** Two characters are the same letter up to ASCII case, or equal. This is
      the relation case-insensitive matching is meant to decide; it is stated
      without reference to any folding function. */
  predicate SameIgnoringCase(c: char, d: char) {
    c == d || (IsUpper(c) && d as int == c as int + 32) || (IsUpper(d) && c as int == d as int + 32)
  }

  /** ASCII case folding; other characters are left alone. */
  function LowerChar(c: char): char
  {
    if IsUpper(c) then (c as int + 32) as char else c
  }

  /** Folding identifies exactly the characters that are the same ignoring case. */
  lemma LowerCharAgrees(c: char, d: char)
    ensures LowerChar(c) == LowerChar(d) <==> SameIgnoringCase(c, d)
  {
  }

  /** `s.toLowerCase()` restricted to ASCII letters: same length, no capital
      left, and each character the same as the input's ignoring case. */
  function ToLower(s: string): (r: string)
    ensures |r| == |s|
    ensures forall i :: 0 <= i < |r| ==> !IsUpper(r[i])
    ensures forall i :: 0 <= i < |s| ==> SameIgnoringCase(s[i], r[i])
  {
    seq(|s|, i requires 0 <= i < |s| => LowerChar(s[i]))
  }

  lemma ToLowerIdempotent(s: string)
    ensures ToLower(ToLower(s)) == ToLower(s)
  {
  }

  /** Two strings lower-case alike exactly when they have the same length and
      agree character by character ignoring case. */
  lemma ToLowerEqual(a: string, b: string)
    ensures ToLower(a) == ToLower(b) <==> |a| == |b| && forall i :: 0 <= i < |a| ==> SameIgnoringCase(a[i], b[i])
  {
    if |a| == |b| && forall i :: 0 <= i < |a| ==> SameIgnoringCase(a[i], b[i]) {
      forall i | 0 <= i < |a| ensures ToLower(a)[i] == ToLower(b)[i] {
        LowerCharAgrees(a[i], b[i]);
      }
    }
    if ToLower(a) == ToLower(b) {
      forall i | 0 <= i < |a| ensures SameIgnoringCase(a[i], b[i]) {
        assert ToLower(a)[i] == LowerChar(a[i]) && ToLower(b)[i] == LowerChar(b[i]);
        LowerCharAgrees(a[i], b[i]);
      }
    }
  }

  predicate StartsWith(s: string, p: string) {
    |p| <= |s| && s[..|p|] == p
  }

  /** `s.includes(p)`: `p` occurs at some position of `s` (the empty string
      occurs everywhere). */
  predicate Includes(s: string, p: string)
    decreases |s|
  {
    StartsWith(s, p) || (s != [] && Includes(s[1..], p))
  }

  /** `p` occurs in `s` starting at index `i`. */
  predicate OccursAt(s: string, p: string, i: int) {
    0 <= i <= |s| - |p| && s[i..i + |p|] == p
  }

  /** `Includes` agrees with the positional reading of "`p` occurs in `s`". */
  lemma {:induction false} IncludesAt(s: string, p: string)
    ensures Includes(s, p) <==> exists i :: OccursAt(s, p, i)
    decreases |s|
  {
    if StartsWith(s, p) {
      assert OccursAt(s, p, 0);
    }
    if s != [] {
      IncludesAt(s[1..], p);
      forall i | OccursAt(s, p, i) && i >= 1
        ensures OccursAt(s[1..], p, i - 1)
      {
        assert s[1..][i - 1..i - 1 + |p|] == s[i..i + |p|];
      }
      forall i | OccursAt(s[1..], p, i)
        ensures OccursAt(s, p, i + 1)
      {
        assert s[1..][i..i + |p|] == s[i + 1..i + 1 + |p|];
      }
      if exists i :: OccursAt(s, p, i) {
        var i :| OccursAt(s, p, i);
        if i == 0 { assert StartsWith(s, p); }
      }
    } else {
      if exists i :: OccursAt(s, p, i) {
        var i :| OccursAt(s, p, i);
        assert i == 0 && |p| == 0;
        assert StartsWith(s, p);
      }
    }
  }

  /** Case-insensitive containment: both sides lower-cased, then `includes`. */
  predicate FoldIncludes(field: string, query: string) {
    Includes(ToLower(field), ToLower(query))
  }

  /** `q` occurs in `f` at index `i` when letter case is ignored. */
  predicate OccursIgnoringCaseAt(f: string, q: string, i: int) {
    0 <= i <= |f| - |q| && forall k :: 0 <= k < |q| ==> SameIgnoringCase(f[i + k], q[k])
  }

  /** The folded containment test means what it is for: the query occurs in
      the field at some position, each character matching ignoring case. */
  lemma FoldIncludesMeaning(field: string, query: string)
    ensures FoldIncludes(field, query) <==> exists i :: OccursIgnoringCaseAt(field, query, i)
  {
    var lf, lq := ToLower(field), ToLower(query);
    IncludesAt(lf, lq);
    forall i | 0 <= i <= |field| - |query|
      ensures OccursAt(lf, lq, i) <==> OccursIgnoringCaseAt(field, query, i)
    {
      ToLowerEqual(field[i..i + |query|], query);
      assert lf[i..i + |query|] == ToLower(field[i..i + |query|]);
    }
    if exists i :: OccursAt(lf, lq, i) {
      var i :| OccursAt(lf, lq, i);
      assert OccursIgnoringCaseAt(field, query, i);
    }
    if exists i :: OccursIgnoringCaseAt(field, query, i) {
      var i :| OccursIgnoringCaseAt(field, query, i);
      assert OccursAt(lf, lq, i);
    }
  }

  /** The match ignores the case of the query's letters and of the field's. */
  lemma FoldIncludesCaseInsensitive(field: string, query: string)
    ensures FoldIncludes(field, ToLower(query)) == FoldIncludes(field, query)
    ensures FoldIncludes(ToLower(field), query) == FoldIncludes(field, query)
  {
    ToLowerIdempotent(query);
    ToLowerIdempotent(field);
  }
}
