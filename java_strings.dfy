/**
 * The few java.lang.String / StringUtils operations the table-meta cache relies on:
 * String.split with a single-character separator (limit 0, so trailing empty
 * segments are dropped), toUpperCase restricted to ASCII letters, and the
 * blank / empty tests of StringUtils.
 */
module JavaStrings {

  /** Every segment between separators, empty ones included (no stripping). */
  function RawSplit(s: string, sep: char): (parts: seq<string>)
    ensures |parts| >= 1
    ensures forall i :: 0 <= i < |parts| ==> sep !in parts[i]
  {
    if s == [] then [[]]
    else
      var rest := RawSplit(s[1..], sep);
      if s[0] == sep then [[]] + rest
      else [[s[0]] + rest[0]] + rest[1..]
  }

  /** Concatenation of the parts with the separator between neighbours. */
  function Join(parts: seq<string>, sep: char): (joined: string)
    requires |parts| >= 1
  {
    if |parts| == 1 then parts[0] else parts[0] + [sep] + Join(parts[1..], sep)
  }

  /** Drops the empty segments at the end, as split(regex) with limit 0 does. */
  function StripTrailingEmpty(parts: seq<string>): (r: seq<string>)
    ensures |r| <= |parts| && r == parts[..|r|]
    ensures r != [] ==> r[|r| - 1] != []
    ensures forall i :: |r| <= i < |parts| ==> parts[i] == []
  {
    if parts == [] then []
    else if parts[|parts| - 1] == [] then StripTrailingEmpty(parts[..|parts| - 1])
    else parts
  }

  /**
   * s.split(Pattern.quote(sep)): when the separator does not occur the whole
   * input is the only segment (so "" gives [""]); otherwise the raw segments
   * without the trailing empty ones (so "a.b." gives ["a", "b"] and "." gives []).
   */
  function JavaSplit(s: string, sep: char): (parts: seq<string>)
    ensures forall i :: 0 <= i < |parts| ==> sep !in parts[i]
    ensures sep !in s ==> parts == [s]
    ensures sep in s ==> parts == [] || parts[|parts| - 1] != []
    ensures sep in s ==>
      var raw := RawSplit(s, sep);
      && |parts| <= |raw| && parts == raw[..|parts|]
      && forall i :: |parts| <= i < |raw| ==> raw[i] == []
  {
    if sep in s then StripTrailingEmpty(RawSplit(s, sep)) else [s]
  }

  /** Character.isWhitespace for the ASCII range. */
  predicate IsWhitespace(c: char)
  {
    c == ' ' || c == '\t' || c == '\n' || c == '\r' || c == '\U{B}' || c == '\U{C}'
    || ('\U{1C}' <= c <= '\U{1F}')
  }

  /**
   * StringUtils.isBlank for a non-null string: the characters are checked in
   * turn and the first non-whitespace one makes the string not blank.
   */
  predicate IsBlank(s: string): (blank: bool)
    ensures blank <==> forall i :: 0 <= i < |s| ==> IsWhitespace(s[i])
  {
    s == [] || (IsWhitespace(s[0]) && IsBlank(s[1..]))
  }

  function UpperChar(c: char): (u: char)
  {
    if 'a' <= c <= 'z' then (c as int - 32) as char else c
  }

  /** String.toUpperCase on ASCII letters; every other character is kept. */
  function ToUpper(s: string): (u: string)
    ensures |u| == |s|
    ensures forall i :: 0 <= i < |s| ==> u[i] == UpperChar(s[i])
  {
    seq(|s|, i requires 0 <= i < |s| => UpperChar(s[i]))
  }

  // ---------------------------------------------------------------------
  // Split / join round trips

  lemma {:induction false} SplitThenJoin(s: string, sep: char)
    ensures Join(RawSplit(s, sep), sep) == s
  {
    if s != [] {
      var rest := RawSplit(s[1..], sep);
      SplitThenJoin(s[1..], sep);
      if s[0] == sep {
        assert RawSplit(s, sep) == [[]] + rest;
        assert ([[]] + rest)[1..] == rest;
      } else if |rest| == 1 {
        assert RawSplit(s, sep) == [[s[0]] + rest[0]];
        assert s == [s[0]] + s[1..];
      } else {
        var parts := RawSplit(s, sep);
        assert parts == [[s[0]] + rest[0]] + rest[1..];
        assert parts[1..] == rest[1..];
        assert Join(rest, sep) == rest[0] + [sep] + Join(rest[1..], sep);
        assert s == [s[0]] + s[1..];
      }
    }
  }

  lemma {:induction false} SplitWithoutSeparator(s: string, sep: char)
    requires sep !in s
    ensures RawSplit(s, sep) == [s]
  {
    if s != [] {
      SplitWithoutSeparator(s[1..], sep);
      assert s == [s[0]] + s[1..];
    }
  }

  /** Splitting around one separator splits both sides independently. */
  lemma {:induction false} SplitAround(a: string, b: string, sep: char)
    ensures RawSplit(a + [sep] + b, sep) == RawSplit(a, sep) + RawSplit(b, sep)
  {
    var s := a + [sep] + b;
    if a == [] {
      assert s[0] == sep && s[1..] == b;
    } else {
      assert s[0] == a[0];
      assert s[1..] == a[1..] + [sep] + b;
      SplitAround(a[1..], b, sep);
    }
  }

  lemma {:induction false} JoinThenSplit(parts: seq<string>, sep: char)
    requires |parts| >= 1
    requires forall i :: 0 <= i < |parts| ==> sep !in parts[i]
    ensures RawSplit(Join(parts, sep), sep) == parts
  {
    SplitWithoutSeparator(parts[0], sep);
    if |parts| > 1 {
      JoinThenSplit(parts[1..], sep);
      SplitAround(parts[0], Join(parts[1..], sep), sep);
      assert parts == [parts[0]] + parts[1..];
    }
  }

  /**
   * The last segment of a qualified name "q.t" is t whenever t is a non-empty
   * name without separator; the earlier segments are those of q.
   */
  lemma QualifiedSplit(q: string, t: string, sep: char)
    requires t != [] && sep !in t
    ensures JavaSplit(q + [sep] + t, sep) == RawSplit(q, sep) + [t]
  {
    var s := q + [sep] + t;
    assert s[|q|] == sep;
    SplitAround(q, t, sep);
    SplitWithoutSeparator(t, sep);
  }

  lemma UnqualifiedSplit(t: string, sep: char)
    requires sep !in t
    ensures JavaSplit(t, sep) == [t]
  {
  }

  /** Only a non-empty string of separators alone splits into no segment at all. */
  lemma {:induction false} JavaSplitEmpty(s: string, sep: char)
    ensures JavaSplit(s, sep) == [] <==> (s != [] && forall i :: 0 <= i < |s| ==> s[i] == sep)
  {
    if s != [] && forall i :: 0 <= i < |s| ==> s[i] == sep {
      assert sep in s by { assert s[0] == sep; }
      AllSeparators(s, sep);
    } else if sep in s {
      var parts := RawSplit(s, sep);
      if forall i :: 0 <= i < |parts| ==> parts[i] == [] {
        SplitThenJoin(s, sep);
        JoinOfEmpties(parts, sep);
        assert false;
      }
      var k :| 0 <= k < |parts| && parts[k] != [];
      assert StripTrailingEmpty(parts) != [];
    }
  }

  lemma {:induction false} AllSeparators(s: string, sep: char)
    requires forall i :: 0 <= i < |s| ==> s[i] == sep
    ensures forall i :: 0 <= i < |RawSplit(s, sep)| ==> RawSplit(s, sep)[i] == []
  {
    if s != [] {
      AllSeparators(s[1..], sep);
    }
  }

  lemma {:induction false} JoinOfEmpties(parts: seq<string>, sep: char)
    requires |parts| >= 1
    requires forall i :: 0 <= i < |parts| ==> parts[i] == []
    ensures forall i :: 0 <= i < |Join(parts, sep)| ==> Join(parts, sep)[i] == sep
  {
    if |parts| > 1 {
      JoinOfEmpties(parts[1..], sep);
    }
  }

  // ---------------------------------------------------------------------
  // Upper-casing

  lemma UpperIdempotent(s: string)
    ensures ToUpper(ToUpper(s)) == ToUpper(s)
  {
  }

  /** Two names that differ only in the case of ASCII letters fold to the same name. */
  lemma UpperIgnoresCase(a: string, b: string)
    requires |a| == |b|
    requires forall i :: 0 <= i < |a| ==> UpperChar(a[i]) == UpperChar(b[i])
    ensures ToUpper(a) == ToUpper(b)
  {
  }
}
