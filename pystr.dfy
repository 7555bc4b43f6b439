/**
 * The Python `str` methods the configuration code applies: `lower()`, `upper()`,
 * `strip()` and `split(sep)`.  Case mapping covers ASCII letters; whitespace is the
 * set of characters for which Python's `str.isspace()` holds.
 */
module PyStr {

  /** Python's `str.isspace()` for one character. */
  predicate IsSpace(c: char) {
    c == ' ' || ('\t' <= c <= '\r') || ('\U{1C}' <= c <= '\U{1F}')
    || c == '\U{85}' || c == '\U{A0}' || c == '\U{1680}'
    || ('\U{2000}' <= c <= '\U{200A}') || c == '\U{2028}' || c == '\U{2029}'
    || c == '\U{202F}' || c == '\U{205F}' || c == '\U{3000}'
  }

  predicate AllSpace(s: string) {
    forall k :: 0 <= k < |s| ==> IsSpace(s[k])
  }

  predicate IsUpperLetter(c: char) { 'A' <= c <= 'Z' }

  predicate IsLowerLetter(c: char) { 'a' <= c <= 'z' }

  function LowerChar(c: char): (r: char)
    ensures !IsUpperLetter(r)
    ensures IsUpperLetter(c) ==> r as int == c as int + 32
    ensures !IsUpperLetter(c) ==> r == c
  {
    if IsUpperLetter(c) then (c as int + 32) as char else c
  }

  function UpperChar(c: char): (r: char)
    ensures !IsLowerLetter(r)
    ensures IsLowerLetter(c) ==> r as int == c as int - 32
    ensures !IsLowerLetter(c) ==> r == c
  {
    if IsLowerLetter(c) then (c as int - 32) as char else c
  }

  /** `s.lower()`: every letter mapped on its own, nothing else touched. */
  function Lower(s: string): (r: string)
    ensures |r| == |s|
    ensures forall i :: 0 <= i < |s| ==> r[i] == LowerChar(s[i])
  {
    seq(|s|, i requires 0 <= i < |s| => LowerChar(s[i]))
  }

  /** `s.upper()`. */
  function Upper(s: string): (r: string)
    ensures |r| == |s|
    ensures forall i :: 0 <= i < |s| ==> r[i] == UpperChar(s[i])
  {
    seq(|s|, i requires 0 <= i < |s| => UpperChar(s[i]))
  }

  lemma LowerIdempotent(s: string)
    ensures Lower(Lower(s)) == Lower(s)
  {
  }

  lemma UpperConcat(a: string, b: string)
    ensures Upper(a + b) == Upper(a) + Upper(b)
  {
  }

  /** Whitespace has no case, so upper-casing leaves it alone. */
  lemma UpperSpace(s: string)
    requires AllSpace(s)
    ensures Upper(s) == s
  {
  }

  /**
   * Two characters are the same letter in either case, or the same character: they are
   * equal, or they are the upper- and lower-case forms of one ASCII letter.
   */
  predicate SameLetter(a: char, b: char) {
    a == b
    || ('a' <= a <= 'z' && b as int == a as int - 32)
    || ('a' <= b <= 'z' && a as int == b as int - 32)
  }

  /** Two strings are equal up to ASCII case: position by position the same letter. */
  predicate EqualIgnoringCase(a: string, b: string) {
    |a| == |b| && forall i :: 0 <= i < |a| ==> SameLetter(a[i], b[i])
  }

  /** The upper-case form is "ALL" exactly for the spellings of "all" in any case. */
  lemma UpperIsAll(s: string)
    ensures Upper(s) == "ALL" <==> EqualIgnoringCase(s, "all")
  {
    if Upper(s) == "ALL" {
      forall i | 0 <= i < 3
        ensures SameLetter(s[i], "all"[i])
      {
        assert UpperChar(s[i]) == "ALL"[i];
      }
    }
    if EqualIgnoringCase(s, "all") {
      forall i | 0 <= i < 3
        ensures Upper(s)[i] == "ALL"[i]
      {
        assert SameLetter(s[i], "all"[i]);
      }
    }
  }

  /** The number of leading whitespace characters. */
  function LeadingSpace(s: string): (n: nat)
    ensures n <= |s|
    ensures forall k :: 0 <= k < n ==> IsSpace(s[k])
    ensures n < |s| ==> !IsSpace(s[n])
  {
    if s == [] || !IsSpace(s[0]) then 0 else 1 + LeadingSpace(s[1..])
  }

  /** The number of trailing whitespace characters. */
  function TrailingSpace(s: string): (n: nat)
    ensures n <= |s|
    ensures forall k :: |s| - n <= k < |s| ==> IsSpace(s[k])
    ensures n < |s| ==> !IsSpace(s[|s| - 1 - n])
  {
    if s == [] || !IsSpace(s[|s| - 1]) then 0 else 1 + TrailingSpace(s[..|s| - 1])
  }

  /** `r` sits at offset `i` of `s` with nothing but whitespace around it. */
  predicate SurroundedBySpace(s: string, r: string, i: int) {
    0 <= i <= |s| - |r| && s[i..i + |r|] == r
    && (forall k :: 0 <= k < i ==> IsSpace(s[k]))
    && (forall k :: i + |r| <= k < |s| ==> IsSpace(s[k]))
  }

  /**
   * `s.strip()`: the result is a contiguous piece of `s`, everything around it is
   * whitespace, and it neither starts nor ends with whitespace.
   */
  function Strip(s: string): (r: string)
    ensures |r| <= |s|
    ensures exists i :: SurroundedBySpace(s, r, i)
    ensures r != [] ==> !IsSpace(r[0]) && !IsSpace(r[|r| - 1])
  {
    var i := LeadingSpace(s);
    var t := s[i..];
    var n := TrailingSpace(t);
    var r := t[..|t| - n];
    assert s[i..i + |r|] == r;
    assert forall k :: i + |r| <= k < |s| ==> s[k] == t[k - i];
    assert SurroundedBySpace(s, r, i);
    r
  }

  /** Stripping removes exactly the whitespace padding around a core that does not start or end with whitespace. */
  lemma StripPadded(pre: string, core: string, post: string)
    requires AllSpace(pre) && AllSpace(post)
    requires core != [] && !IsSpace(core[0]) && !IsSpace(core[|core| - 1])
    ensures Strip(pre + core + post) == core
  {
    var s := pre + core + post;
    var r := Strip(s);
    var i :| SurroundedBySpace(s, r, i);
    var a, e := |pre|, |pre| + |core|;
    assert s[a] == core[0] && s[e - 1] == core[|core| - 1];
    assert !IsSpace(s[a]) && !IsSpace(s[e - 1]);
    assert r != [];
    assert s[i] == r[0] && s[i + |r| - 1] == r[|r| - 1];
    assert i == a;
    assert i + |r| == e;
    assert r == s[a..e] == core;
  }

  /** The number of occurrences of `c` in `s`. */
  function Count(s: string, c: char): nat {
    if s == [] then 0 else (if s[0] == c then 1 else 0) + Count(s[1..], c)
  }

  /**
   * `s.split(sep)` for a one-character separator: the pieces between separators,
   * empty pieces included, one more piece than there are separators.
   */
  function Split(s: string, sep: char): (r: seq<string>)
    ensures |r| == Count(s, sep) + 1
    ensures forall k :: 0 <= k < |r| ==> sep !in r[k]
  {
    if s == [] then [[]]
    else
      var rest := Split(s[1..], sep);
      if s[0] == sep then [[]] + rest
      else [[s[0]] + rest[0]] + rest[1..]
  }

  /** `sep.join(parts)`. */
  function Join(parts: seq<string>, sep: char): string
    requires |parts| >= 1
  {
    if |parts| == 1 then parts[0] else parts[0] + [sep] + Join(parts[1..], sep)
  }

  /** Joining the pieces of a split gives back the original string. */
  lemma {:induction false} JoinSplit(s: string, sep: char)
    ensures Join(Split(s, sep), sep) == s
  {
    if s != [] {
      var rest := Split(s[1..], sep);
      JoinSplit(s[1..], sep);
      if s[0] == sep {
        assert Split(s, sep) == [[]] + rest;
        assert ([[]] + rest)[1..] == rest;
      } else {
        var parts := [[s[0]] + rest[0]] + rest[1..];
        assert Split(s, sep) == parts;
        if |rest| == 1 {
          assert Join(rest, sep) == rest[0];
        } else {
          assert parts[1..] == rest[1..];
          assert Join(rest, sep) == rest[0] + [sep] + Join(rest[1..], sep);
        }
      }
    }
  }

  /** A string without the separator splits into itself alone. */
  lemma {:induction false} SplitNoSep(p: string, sep: char)
    requires sep !in p
    ensures Split(p, sep) == [p]
  {
    if p != [] {
      SplitNoSep(p[1..], sep);
      assert [p[0]] + p[1..] == p;
    }
  }

  /** Splitting `p + sep + t` with `p` free of separators peels off `p`. */
  lemma {:induction false} SplitCons(p: string, t: string, sep: char)
    requires sep !in p
    ensures Split(p + [sep] + t, sep) == [p] + Split(t, sep)
  {
    if p == [] {
      assert p + [sep] + t == [sep] + t;
      assert ([sep] + t)[1..] == t;
    } else {
      var s := p + [sep] + t;
      assert s[1..] == p[1..] + [sep] + t;
      SplitCons(p[1..], t, sep);
      assert [p[0]] + p[1..] == p;
    }
  }

  /** Splitting a join of separator-free pieces gives back the pieces. */
  lemma {:induction false} SplitJoin(parts: seq<string>, sep: char)
    requires |parts| >= 1
    requires forall k :: 0 <= k < |parts| ==> sep !in parts[k]
    ensures Split(Join(parts, sep), sep) == parts
  {
    if |parts| == 1 {
      SplitNoSep(parts[0], sep);
    } else {
      SplitJoin(parts[1..], sep);
      SplitCons(parts[0], Join(parts[1..], sep), sep);
      assert [parts[0]] + parts[1..] == parts;
    }
  }

  /** `repr(s)` for a string without quotes, backslashes or unprintable characters. */
  function Quote(s: string): string {
    "'" + s + "'"
  }

  /** The items of `str(xs)` for a list of strings, separated by ", ". */
  function QuotedItems(xs: seq<string>): string {
    if xs == [] then "" else if |xs| == 1 then Quote(xs[0]) else Quote(xs[0]) + ", " + QuotedItems(xs[1..])
  }

  /** `str(xs)` for a list of strings, as an f-string renders it. */
  function ListRepr(xs: seq<string>): string {
    "[" + QuotedItems(xs) + "]"
  }

  /** `s` occurs in `t` starting at position `k`. */
  predicate OccursAt(s: string, t: string, k: int) {
    0 <= k && k + |s| <= |t| && t[k..k + |s|] == s
  }

  /** Every string of the list appears, quoted, in the rendering of its items. */
  lemma {:induction false} QuotedItemsListsAll(xs: seq<string>, i: nat)
    requires i < |xs|
    ensures exists k :: OccursAt(Quote(xs[i]), QuotedItems(xs), k)
  {
    if i == 0 {
      assert OccursAt(Quote(xs[0]), QuotedItems(xs), 0);
    } else {
      QuotedItemsListsAll(xs[1..], i - 1);
      var k :| OccursAt(Quote(xs[1..][i - 1]), QuotedItems(xs[1..]), k);
      var head := Quote(xs[0]) + ", ";
      assert QuotedItems(xs) == head + QuotedItems(xs[1..]);
      assert OccursAt(Quote(xs[i]), QuotedItems(xs), |head| + k);
    }
  }

  /** Every string of the list appears, quoted, in `str(xs)`. */
  lemma ListReprListsAll(xs: seq<string>, i: nat)
    requires i < |xs|
    ensures exists k :: OccursAt(Quote(xs[i]), ListRepr(xs), k)
  {
    QuotedItemsListsAll(xs, i);
    var k :| OccursAt(Quote(xs[i]), QuotedItems(xs), k);
    assert OccursAt(Quote(xs[i]), ListRepr(xs), k + 1);
  }
}
