/**
 * The character classes the ten patterns are built from, restricted to
 * ASCII, and the maximal runs of a class inside a text.
 *
 * Python compiles str patterns in Unicode mode; \d, \s and \w below stand
 * for their ASCII part only (see README, "Left out").
 */
module Chars {

  /** \d */
  predicate IsDigit(c: char) { '0' <= c <= '9' }

  /** [A-Za-z] */
  predicate IsLetter(c: char) { 'A' <= c <= 'Z' || 'a' <= c <= 'z' }

  /** \w, which is also the explicit class [A-Za-z0-9_] */
  predicate IsWord(c: char) { IsLetter(c) || IsDigit(c) || c == '_' }

  /** \s: the characters below 128 that Python's str.isspace accepts */
  predicate IsSpace(c: char) {
    c == ' ' || '\t' <= c <= '\r' || '\U{1c}' <= c <= '\U{1f}'
  }

  /** The bracketed classes of the patterns, by the part of a pattern they serve. */
  datatype Class =
    | Digit       // \d
    | Letter      // [A-Za-z]
    | Word        // \w and [A-Za-z0-9_]
    | Space       // \s
    | LocalPart   // [A-Za-z0-9._%+-]    local part of an email address
    | DomainPart  // [A-Za-z0-9.-]       domain of an email address
    | LabelPart   // [A-Za-z0-9-]        host label of a URL, tail of an HTML tag name
    | PathPart    // [\w\-\.%~:?#\[\]@!$&'()*+,;=]   path of a URL
    | NotAngle    // [^<>]               attribute text of an HTML tag

  predicate In(c: Class, ch: char) {
    match c
    case Digit => IsDigit(ch)
    case Letter => IsLetter(ch)
    case Word => IsWord(ch)
    case Space => IsSpace(ch)
    case LocalPart => IsLetter(ch) || IsDigit(ch) || ch in {'.', '_', '%', '+', '-'}
    case DomainPart => IsLetter(ch) || IsDigit(ch) || ch == '.' || ch == '-'
    case LabelPart => IsLetter(ch) || IsDigit(ch) || ch == '-'
    case PathPart =>
      IsWord(ch) || ch in {'-', '.', '%', '~', ':', '?', '#', '[', ']', '@', '!', '$', '&', '\'', '(', ')', '*', '+', ',', ';', '='}
    case NotAngle => ch != '<' && ch != '>'
  }

  /** t[i..j] is a slice of t made only of characters of class c. */
  predicate All(t: string, i: int, j: int, c: Class) {
    0 <= i <= j <= |t| && forall k :: i <= k < j ==> In(c, t[k])
  }

  /** The end of the longest run of class c that starts at i: what a greedy
      `c*` consumes from position i. */
  function RunEnd(t: string, i: nat, c: Class): (r: nat)
    requires i <= |t|
    ensures i <= r <= |t| && All(t, i, r, c)
    ensures r == |t| || !In(c, t[r])
    ensures forall j :: All(t, i, j, c) ==> j <= r
    decreases |t| - i
  {
    if i == |t| || !In(c, t[i]) then i else RunEnd(t, i + 1, c)
  }

  /** The start of the longest run of class c that ends at j. */
  function RunStart(t: string, j: nat, c: Class): (r: nat)
    requires j <= |t|
    ensures r <= j && All(t, r, j, c)
    ensures r == 0 || !In(c, t[r - 1])
    ensures forall i :: All(t, i, j, c) ==> r <= i
  {
    if j == 0 || !In(c, t[j - 1]) then j else RunStart(t, j - 1, c)
  }

  /** t[k] exists and is a word character; outside the text counts as non-word. */
  predicate WordAt(t: string, k: int) { 0 <= k < |t| && IsWord(t[k]) }

  /** \b at position k of t: a word character on exactly one side. */
  predicate Boundary(t: string, k: int) { WordAt(t, k - 1) != WordAt(t, k) }

  /** A run of a class inside the slice t[i..e] is the same run of t,
      shifted by i. */
  lemma AllSlice(t: string, i: int, e: int, a: int, b: int, c: Class)
    requires 0 <= i <= a <= b <= e <= |t|
    ensures All(t, a, b, c) <==> All(t[i..e], a - i, b - i, c)
  {
    var w := t[i..e];
    assert forall k :: a - i <= k < b - i ==> w[k] == t[k + i];
  }

  /** Read on its own, a non-empty slice has \b at its start exactly when it
      starts with a word character, and at its end exactly when it ends
      with one. */
  lemma SliceBoundaries(t: string, i: int, e: int)
    requires 0 <= i < e <= |t|
    ensures Boundary(t[i..e], 0) <==> IsWord(t[i])
    ensures Boundary(t[i..e], e - i) <==> IsWord(t[e - 1])
  {
  }
}
