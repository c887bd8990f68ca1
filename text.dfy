/**
 * The string operations the query code relies on, restricted to ASCII:
 * `str.lower()`, `str.strip()`, `str.split(",")` and the substring test `p in s`.
 */
module Text {

  /** White space as `str.strip()` treats it within ASCII: space, \t \n \v \f \r, and the separators 0x1C-0x1F. */
  predicate IsSpace(c: char) {
    c == ' ' || 9 <= c as int <= 13 || 28 <= c as int <= 31
  }

  predicate AllSpace(s: string) {
    forall k :: 0 <= k < |s| ==> IsSpace(s[k])
  }

  predicate IsUpper(c: char) {
    'A' <= c <= 'Z'
  }

  /** ASCII lower-casing of one character; every other character is left alone. */
  function LowerChar(c: char): char {
    if IsUpper(c) then (c as int + 32) as char else c
  }

  /**
   * `s.lower()`: lower-cases every character in place. No capital is left,
   * and only capitals change.
   */
  function ToLower(s: string): (r: string)
    ensures |r| == |s|
    ensures forall k :: 0 <= k < |s| ==> r[k] == LowerChar(s[k])
    ensures forall k :: 0 <= k < |s| ==> !IsUpper(r[k])
    ensures forall k :: 0 <= k < |s| ==> IsUpper(s[k]) || r[k] == s[k]
  {
    seq(|s|, k requires 0 <= k < |s| => LowerChar(s[k]))
  }

  lemma LowerCharFacts(c: char)
    ensures !IsUpper(LowerChar(c))
    ensures LowerChar(LowerChar(c)) == LowerChar(c)
    ensures IsSpace(LowerChar(c)) <==> IsSpace(c)
    ensures IsUpper(c) || LowerChar(c) == c
  {
  }

  /** Lower-casing twice is lower-casing once, and nothing upper-case is left. */
  lemma LowerIdempotent(s: string)
    ensures ToLower(ToLower(s)) == ToLower(s)
    ensures forall k :: 0 <= k < |s| ==> !IsUpper(ToLower(s)[k])
  {
    forall k | 0 <= k < |s| ensures ToLower(ToLower(s))[k] == ToLower(s)[k] && !IsUpper(ToLower(s)[k]) {
      LowerCharFacts(s[k]);
    }
  }

  /** A string without upper-case letters is its own lower-case form. */
  lemma LowerOfLower(s: string)
    requires forall k :: 0 <= k < |s| ==> !IsUpper(s[k])
    ensures ToLower(s) == s
  {
  }

  /** Lower-casing spelt out character by character. */
  lemma LowerWord(s: string, t: string)
    requires |s| == |t| && forall k :: 0 <= k < |s| ==> LowerChar(s[k]) == t[k]
    ensures ToLower(s) == t
  {
  }

  lemma LowerAppend(a: string, b: string)
    ensures ToLower(a + b) == ToLower(a) + ToLower(b)
  {
  }

  /** The number of white-space characters `s` starts with. */
  function LeadingSpaces(s: string): (n: nat)
    ensures n <= |s|
    ensures forall k :: 0 <= k < n ==> IsSpace(s[k])
    ensures n < |s| ==> !IsSpace(s[n])
  {
    if s != [] && IsSpace(s[0]) then
      var m := LeadingSpaces(s[1..]);
      assert forall k :: 1 <= k < m + 1 ==> s[k] == s[1..][k - 1];
      1 + m
    else 0
  }

  /** The number of white-space characters `s` ends with. */
  function TrailingSpaces(s: string): (n: nat)
    ensures n <= |s|
    ensures forall k :: |s| - n <= k < |s| ==> IsSpace(s[k])
    ensures n < |s| ==> !IsSpace(s[|s| - 1 - n])
  {
    if s != [] && IsSpace(s[|s| - 1]) then
      var m := TrailingSpaces(s[..|s| - 1]);
      assert forall k :: |s| - 1 - m <= k < |s| - 1 ==> s[k] == s[..|s| - 1][k];
      1 + m
    else 0
  }

  /** `s.lstrip()`: drops the leading white space. */
  function TrimStart(s: string): string {
    s[LeadingSpaces(s)..]
  }

  /** `s.rstrip()`: drops the trailing white space. */
  function TrimEnd(s: string): string {
    s[..|s| - TrailingSpaces(s)]
  }

  /** `s.strip()`: white space removed from both ends; the lemmas below say exactly what is kept. */
  function Strip(s: string): (r: string)
    ensures |r| <= |s|
  {
    TrimEnd(TrimStart(s))
  }

  /**
   * Strip keeps the middle part `s[i..j]` of its input, where `i` counts the
   * leading and `|s| - j` the trailing white space.
   */
  lemma StripSpec(s: string, i: nat, j: nat)
    requires i == LeadingSpaces(s) && j == |s| - TrailingSpaces(s[i..])
    ensures i <= j <= |s| && Strip(s) == s[i..j]
  {
    var t := s[i..];
    assert TrimStart(s) == t;
    SliceOfSlice(s, i, j);
  }

  /**
   * Cutting the tail off a suffix of `s` gives a middle part of `s`; kept
   * apart so that the slice equality is proved without Strip in scope.
   */
  lemma SliceOfSlice(s: string, i: nat, j: nat)
    requires i <= j <= |s|
    ensures s[i..][..j - i] == s[i..j]
  {
  }

  /** What Strip keeps neither starts nor ends with white space. */
  lemma StripEnds(s: string)
    ensures var r := Strip(s); r != [] ==> !IsSpace(r[0]) && !IsSpace(r[|r| - 1])
  {
    var i := LeadingSpaces(s);
    var n := TrailingSpaces(s[i..]);
    StripSpec(s, i, |s| - n);
    var r := Strip(s);
    if r != [] {
      assert r[0] == s[i];
      LastKept(s, i, n);
      assert r[|r| - 1] == s[|s| - 1 - n];
    }
  }

  /** The character before the trailing white space of a suffix of `s`. */
  lemma LastKept(s: string, i: nat, n: nat)
    requires i <= |s| && n == TrailingSpaces(s[i..]) && n < |s| - i
    ensures !IsSpace(s[|s| - 1 - n])
  {
    var t := s[i..];
    assert t[|t| - 1 - n] == s[|s| - 1 - n];
  }

  /** Stripping an already stripped string changes nothing. */
  lemma StripIdempotent(s: string)
    ensures Strip(Strip(s)) == Strip(s)
  {
    StripEnds(s);
    StripUntrimmed(Strip(s));
  }

  /** A string with no white space at either end is left alone by Strip. */
  lemma StripUntrimmed(s: string)
    requires s == [] || (!IsSpace(s[0]) && !IsSpace(s[|s| - 1]))
    ensures Strip(s) == s
  {
    assert LeadingSpaces(s) == 0;
    assert TrimStart(s) == s;
  }

  /** A string of white space only strips to "". */
  lemma StripAllSpace(s: string)
    requires AllSpace(s)
    ensures Strip(s) == ""
  {
    assert LeadingSpaces(s) == |s|;
  }

  /**
   * `s.split(sep)` with an explicit separator: the pieces between separators,
   * with an empty piece wherever two separators meet or the string starts or
   * ends with one; "".split(sep) is [""].
   */
  function Split(s: string, sep: char): (r: seq<string>)
    ensures |r| >= 1
  {
    if s == [] then [[]]
    else
      var rest := Split(s[1..], sep);
      if s[0] == sep then [[]] + rest
      else [[s[0]] + rest[0]] + rest[1..]
  }

  /** `sep.join(parts)`. */
  function Join(parts: seq<string>, sep: char): string
    requires |parts| >= 1
  {
    if |parts| == 1 then parts[0] else parts[0] + [sep] + Join(parts[1..], sep)
  }

  function Count(s: string, c: char): nat {
    if s == [] then 0 else (if s[0] == c then 1 else 0) + Count(s[1..], c)
  }

  /** Joining the pieces back with the separator gives the original string. */
  lemma {:induction false} JoinSplit(s: string, sep: char)
    ensures Join(Split(s, sep), sep) == s
  {
    if s != [] {
      var rest := Split(s[1..], sep);
      JoinSplit(s[1..], sep);
      if s[0] != sep && |rest| > 1 {
        assert ([s[0]] + rest[0]) + [sep] + Join(rest[1..], sep) == [s[0]] + (rest[0] + [sep] + Join(rest[1..], sep));
      }
    }
  }

  /** There is one more piece than there are separators, and no piece holds a separator. */
  lemma {:induction false} SplitPieces(s: string, sep: char)
    ensures |Split(s, sep)| == Count(s, sep) + 1
    ensures forall j :: 0 <= j < |Split(s, sep)| ==> sep !in Split(s, sep)[j]
  {
    if s != [] {
      SplitPieces(s[1..], sep);
      var rest := Split(s[1..], sep);
      if s[0] != sep {
        assert sep !in [s[0]] + rest[0];
      }
    }
  }

  /** Splitting a join of separator-free pieces gives the pieces back. */
  lemma {:induction false} SplitJoin(parts: seq<string>, sep: char)
    requires |parts| >= 1
    requires forall j :: 0 <= j < |parts| ==> sep !in parts[j]
    ensures Split(Join(parts, sep), sep) == parts
  {
    if |parts| == 1 {
      SplitNoSep(parts[0], sep);
    } else {
      SplitJoin(parts[1..], sep);
      SplitPrefix(parts[0], Join(parts[1..], sep), sep);
    }
  }

  lemma {:induction false} SplitNoSep(p: string, sep: char)
    requires sep !in p
    ensures Split(p, sep) == [p]
  {
    if p != [] {
      assert p[0] != sep && sep !in p[1..];
      SplitNoSep(p[1..], sep);
      assert [p[0]] + p[1..] == p;
    }
  }

  lemma {:induction false} SplitPrefix(p: string, t: string, sep: char)
    requires sep !in p
    ensures Split(p + [sep] + t, sep) == [p] + Split(t, sep)
  {
    if p == [] {
      assert p + [sep] + t == [sep] + t;
      assert ([sep] + t)[1..] == t;
    } else {
      assert (p + [sep] + t)[1..] == p[1..] + [sep] + t;
      SplitPrefix(p[1..], t, sep);
      assert [p[0]] + p[1..] == p;
    }
  }

  /** `p` occurs in `s` starting at position `i`. */
  predicate OccursAt(s: string, p: string, i: int) {
    0 <= i && i + |p| <= |s| && s[i..i + |p|] == p
  }

  /** The substring test: `p` occurs somewhere in `s`. */
  predicate Contains(s: string, p: string): (b: bool)
    ensures p == [] ==> b
    ensures b ==> |p| <= |s|
  {
    assert p == [] ==> OccursAt(s, p, 0);
    exists i :: 0 <= i <= |s| && OccursAt(s, p, i)
  }

  /** A string that does not contain the first character of `p` does not contain `p`. */
  lemma MissingFirstChar(s: string, p: string)
    requires p != [] && p[0] !in s
    ensures !Contains(s, p)
  {
    forall i | 0 <= i < |s| ensures !OccursAt(s, p, i) {
      assert s[i] != p[0];
    }
  }

  /** A letter that appears in neither case in `s` does not appear in `s.lower()`. */
  lemma LowerMissing(s: string, c: char)
    requires 'a' <= c <= 'z' && c !in s && (c as int - 32) as char !in s
    ensures c !in ToLower(s)
  {
    forall k | 0 <= k < |s| ensures ToLower(s)[k] != c {
      assert s[k] in s;
    }
  }

  /** Every string of `xs`, stripped. */
  function StripAll(xs: seq<string>): (r: seq<string>)
    ensures |r| == |xs| && forall k :: 0 <= k < |xs| ==> r[k] == Strip(xs[k])
  {
    seq(|xs|, k requires 0 <= k < |xs| => Strip(xs[k]))
  }

  /** Every string of `xs`, lower-cased. */
  function LowerAll(xs: seq<string>): (r: seq<string>)
    ensures |r| == |xs| && forall k :: 0 <= k < |xs| ==> r[k] == ToLower(xs[k])
  {
    seq(|xs|, k requires 0 <= k < |xs| => ToLower(xs[k]))
  }
}
