/** The few java.lang.String operations the help desk relies on: startsWith,
    contains, trim, and toLowerCase restricted to ASCII letters. */
module Text {

  /** `s.startsWith(p)` */
  predicate StartsWith(s: string, p: string) {
    p <= s
  }

  /** `s.contains(k)`: k occurs in s at some position. */
  predicate Contains(s: string, k: string) {
    exists i | 0 <= i <= |s| :: k <= s[i..]
  }

  /** Characters that `String.trim` strips: everything at or below U+0020. */
  predicate IsBlank(c: char) {
    c <= ' '
  }

  /** Index of the first character `trim` keeps (|s| when there is none). */
  function FirstKept(s: string): (i: nat)
    ensures i <= |s|
    ensures forall k | 0 <= k < i :: IsBlank(s[k])
    ensures i < |s| ==> !IsBlank(s[i])
  {
    if s == [] || !IsBlank(s[0]) then 0 else 1 + FirstKept(s[1..])
  }

  /** One past the index of the last character `trim` keeps (0 when there is none). */
  function EndKept(s: string): (j: nat)
    ensures j <= |s|
    ensures forall k | j <= k < |s| :: IsBlank(s[k])
    ensures 0 < j ==> !IsBlank(s[j - 1])
  {
    if s == [] || !IsBlank(s[|s| - 1]) then |s| else EndKept(s[..|s| - 1])
  }

  /** `s.trim()`: the part of s between its first and last non-blank character. */
  function Trim(s: string): (r: string)
    ensures |r| <= |s|
    ensures r == [] <==> forall k | 0 <= k < |s| :: IsBlank(s[k])
    ensures r != [] ==> !IsBlank(r[0]) && !IsBlank(r[|r| - 1])
    ensures r != [] ==> FirstKept(s) < EndKept(s) && r == s[FirstKept(s)..EndKept(s)]
  {
    var i := FirstKept(s);
    if i == |s| then [] else s[i..EndKept(s)]
  }

  /** Trimming never loses an occurrence of a word whose two ends are not blank. */
  lemma TrimKeepsContained(s: string, k: string)
    requires k != [] && !IsBlank(k[0]) && !IsBlank(k[|k| - 1])
    requires Contains(s, k)
    ensures Contains(Trim(s), k)
  {
    var i :| 0 <= i <= |s| && k <= s[i..];
    var a, b := FirstKept(s), EndKept(s);
    assert a <= i by { assert s[i] == k[0]; }
    assert i + |k| <= b by { assert s[i + |k| - 1] == k[|k| - 1]; }
    SliceKeepsContained(s, a, b, i, k);
  }

  /** Trimming never loses an occurrence of a word that ends in a non-blank and stands after
      some non-blank character of s, whatever the word begins with. */
  lemma TrimKeepsContainedAfter(s: string, k: string, j: nat)
    requires k != [] && !IsBlank(k[|k| - 1])
    requires j < |s| && !IsBlank(s[j]) && Contains(s[j..], k)
    ensures Contains(Trim(s), k)
  {
    var t := s[j..];
    var i' :| 0 <= i' <= |t| && k <= t[i'..];
    var i := j + i';
    assert t[i'..] == s[i..];
    var a, b := FirstKept(s), EndKept(s);
    assert a <= j;
    assert i + |k| <= b by { assert s[i + |k| - 1] == k[|k| - 1]; }
    SliceKeepsContained(s, a, b, i, k);
  }

  /** A slice of s that covers an occurrence of k still contains k. */
  lemma SliceKeepsContained(s: string, a: nat, b: nat, i: nat, k: string)
    requires a <= i && i + |k| <= b <= |s|
    requires k <= s[i..]
    ensures Contains(s[a..b], k)
  {
    var t := s[a..b];
    assert t[i - a..][..|k|] == s[i..][..|k|];
    assert k <= t[i - a..];
  }

  /** Trimming a text that begins with a word whose two ends are not blank keeps that word in front. */
  lemma TrimKeepsLeadingWord(s: string, q: string)
    requires q != [] && !IsBlank(q[0]) && !IsBlank(q[|q| - 1])
    requires StartsWith(s, q)
    ensures StartsWith(Trim(s), q)
  {
  }

  /** `Character.toLowerCase` on the ASCII range; other characters are left alone. */
  function LowerChar(c: char): char {
    if 'A' <= c <= 'Z' then (c as int + 32) as char else c
  }

  /** `s.toLowerCase()`, ASCII letters only. */
  function Lower(s: string): (r: string)
    ensures |r| == |s|
    ensures forall k | 0 <= k < |s| :: r[k] == LowerChar(s[k])
  {
    seq(|s|, k requires 0 <= k < |s| => LowerChar(s[k]))
  }

  /** Lower-casing keeps every occurrence: if s contains k, the lower-cased s contains the lower-cased k. */
  lemma LowerKeepsContained(s: string, k: string)
    requires Contains(s, k)
    ensures Contains(Lower(s), Lower(k))
  {
    var i :| 0 <= i <= |s| && k <= s[i..];
    var ls, lk := Lower(s), Lower(k);
    assert lk == ls[i..i + |k|];
    assert lk <= ls[i..];
  }

  /** Two texts with blanks at the same places are trimmed at the same places. */
  lemma SameBlanks(s: string, t: string)
    requires |s| == |t|
    requires forall k | 0 <= k < |s| :: IsBlank(s[k]) == IsBlank(t[k])
    ensures FirstKept(s) == FirstKept(t) && EndKept(s) == EndKept(t)
  {
  }

  /** Lower-casing and trimming commute, because lower-casing never turns a blank into a non-blank or back. */
  lemma LowerTrim(s: string)
    ensures Lower(Trim(s)) == Trim(Lower(s))
  {
    var ls := Lower(s);
    SameBlanks(s, ls);
    var a, b := FirstKept(s), EndKept(s);
    if a < |s| {
      LowerSlice(s, a, b);
    }
  }

  /** Lower-casing a slice is slicing the lower-cased text. */
  lemma LowerSlice(s: string, a: nat, b: nat)
    requires a <= b <= |s|
    ensures Lower(s[a..b]) == Lower(s)[a..b]
  {
  }

  /** A word found in the lower-cased t, where t occurs in s from position p on, is found in
      the lower-cased s from position p on. */
  lemma LowerContainsFrom(s: string, p: nat, t: string, k: string)
    requires p <= |s| && Contains(s[p..], t) && Contains(Lower(t), k)
    ensures Contains(Lower(s)[p..], k)
  {
    LowerKeepsContained(s[p..], t);
    ContainsTrans(Lower(s[p..]), Lower(t), k);
    LowerSlice(s, p, |s|);
    assert s[p..] == s[p..|s|];
    assert Lower(s)[p..] == Lower(s)[p..|s|];
  }

  /** Occurrence is transitive: a word inside a part of s is inside s. */
  lemma ContainsTrans(s: string, t: string, k: string)
    requires Contains(s, t) && Contains(t, k)
    ensures Contains(s, k)
  {
    var i :| 0 <= i <= |s| && t <= s[i..];
    var j :| 0 <= j <= |t| && k <= t[j..];
    assert s[i + j..][..|k|] == t[j..][..|k|];
    assert k <= s[i + j..];
  }

  /** The last part of a concatenation occurs in it. */
  lemma ContainsRight(a: string, t: string)
    ensures Contains(a + t, t)
  {
    assert t <= (a + t)[|a|..];
  }

  /** The middle part of a concatenation occurs in it. */
  lemma ContainsMiddle(a: string, t: string, b: string)
    ensures Contains(a + t + b, t)
  {
    assert t <= (a + t + b)[|a|..];
  }
}
