/** The parts of JavaScript's String API that the application relies on: `trim`,
    `toLowerCase`, `includes`, and the ordering `<` that `Array.prototype.sort`
    uses when it is given no comparator. */
module JsString {

  /** The ECMAScript WhiteSpace and LineTerminator code points: what `trim` strips. */
  predicate IsWhitespace(c: char)
  {
    || c == '\t' || c == '\U{B}' || c == '\U{C}' || c == ' ' || c == '\U{A0}'
    || c == '\U{1680}' || ('\U{2000}' <= c <= '\U{200A}') || c == '\U{202F}'
    || c == '\U{205F}' || c == '\U{3000}' || c == '\U{FEFF}'
    || c == '\n' || c == '\r' || c == '\U{2028}' || c == '\U{2029}'
  }

  predicate AllWhitespace(s: string)
  {
    forall i :: 0 <= i < |s| ==> IsWhitespace(s[i])
  }

  /** Length of the longest all-whitespace prefix of `s`. */
  function LeadingWhitespace(s: string): (k: nat)
    ensures k <= |s| && AllWhitespace(s[..k])
    ensures k < |s| ==> !IsWhitespace(s[k])
  {
    if s == [] || !IsWhitespace(s[0]) then 0
    else
      var k := 1 + LeadingWhitespace(s[1..]);
      assert forall i :: 1 <= i < k ==> s[i] == s[1..][i - 1];
      k
  }

  /** Start of the longest all-whitespace suffix of `s`. */
  function TrailingWhitespaceStart(s: string): (k: nat)
    ensures k <= |s| && AllWhitespace(s[k..])
    ensures 0 < k ==> !IsWhitespace(s[k - 1])
  {
    if s == [] || !IsWhitespace(s[|s| - 1]) then |s|
    else
      var k := TrailingWhitespaceStart(s[..|s| - 1]);
      assert forall i :: k <= i < |s| - 1 ==> s[i] == s[..|s| - 1][i];
      k
  }

  /** `s.trim()`: `s` without its leading and trailing whitespace. The result is the
      slice `s[i..j]` with whitespace on both sides of it, and it neither starts nor
      ends with whitespace; it is empty exactly when `s` is blank. */
  function Trim(s: string): (r: string)
    ensures exists i, j :: 0 <= i <= j <= |s| && r == s[i..j]
                        && AllWhitespace(s[..i]) && AllWhitespace(s[j..])
    ensures r != "" ==> !IsWhitespace(r[0]) && !IsWhitespace(r[|r| - 1])
    ensures r == "" <==> AllWhitespace(s)
  {
    var i := LeadingWhitespace(s);
    var j := TrailingWhitespaceStart(s[i..]);
    TrimSlices(s, i, j);
    s[i..][..j]
  }

  /** The slice that `Trim` keeps, seen from `s`. */
  lemma TrimSlices(s: string, i: nat, j: nat)
    requires i == LeadingWhitespace(s) && j == TrailingWhitespaceStart(s[i..])
    ensures i + j <= |s| && s[i..][..j] == s[i..i + j] && AllWhitespace(s[i + j..])
    ensures s[i..][..j] == "" <==> AllWhitespace(s)
  {
    var rest := s[i..];
    assert rest[j..] == s[i + j..];
    if j == 0 {
      // `s[i]`, when it exists, is not whitespace, so a blank `rest` means `i == |s|`
      assert i == |s|;
      forall n | 0 <= n < |s|
        ensures IsWhitespace(s[n])
      {
        assert s[n] == s[..i][n];
      }
    } else {
      assert s[i..][..j][0] == s[i];
      assert !IsWhitespace(s[i]);
    }
  }

  /** The single-character mapping of `toLowerCase` on the ASCII letters. */
  function LowerChar(c: char): char
  {
    if 'A' <= c <= 'Z' then (c as int - 'A' as int + 'a' as int) as char else c
  }

  /** `s.toLowerCase()`, character by character. */
  function ToLower(s: string): (r: string)
    ensures |r| == |s|
    ensures forall i :: 0 <= i < |s| ==> r[i] == LowerChar(s[i])
  {
    seq(|s|, i requires 0 <= i < |s| => LowerChar(s[i]))
  }

  /** Lower-casing twice is lower-casing once, and a lower-cased string has no upper-case letter. */
  lemma ToLowerIsIdempotent(s: string)
    ensures ToLower(ToLower(s)) == ToLower(s)
    ensures forall i :: 0 <= i < |s| ==> !('A' <= ToLower(s)[i] <= 'Z')
  {
    assert forall i :: 0 <= i < |s| ==> LowerChar(LowerChar(s[i])) == LowerChar(s[i]);
  }

  /** The UTF-16 code units of one character: two beyond the Basic Multilingual Plane. */
  function CodeUnits(c: char): nat
  {
    if c as int > 0xFFFF then 2 else 1
  }

  /** `s.length`: the number of UTF-16 code units of `s`. It lies between the number of
      characters and twice that, and equals the number of characters exactly when every
      character is in the Basic Multilingual Plane. */
  function Utf16Length(s: string): (n: nat)
    ensures |s| <= n <= 2 * |s|
    ensures n == |s| <==> forall i :: 0 <= i < |s| ==> s[i] as int <= 0xFFFF
  {
    if s == [] then 0
    else
      assert forall i :: 1 <= i < |s| ==> s[i] == s[1..][i - 1];
      CodeUnits(s[0]) + Utf16Length(s[1..])
  }

  /** `sub` occurs in `s` starting at position `i`. */
  predicate OccursAt(s: string, sub: string, i: int)
  {
    0 <= i <= |s| - |sub| && s[i..i + |sub|] == sub
  }

  /** `s.includes(sub)`: `sub` occurs in `s` at some position. */
  predicate Includes(s: string, sub: string)
  {
    exists i | 0 <= i <= |s| - |sub| :: OccursAt(s, sub, i)
  }

  /** Every string includes the empty string and itself, and a string includes only
      strings that are no longer than itself. */
  lemma IncludesBasics(s: string, sub: string)
    ensures Includes(s, "") && Includes(s, s)
    ensures Includes(s, sub) ==> |sub| <= |s|
  {
    assert OccursAt(s, "", 0);
    assert OccursAt(s, s, 0);
  }

  /** JavaScript's `a < b` on strings: lexicographic order by character. */
  predicate LexLess(a: string, b: string)
  {
    if a == [] then b != []
    else b != [] && (a[0] < b[0] || (a[0] == b[0] && LexLess(a[1..], b[1..])))
  }

  /** Exactly one of `a < b`, `a == b`, `b < a` holds. */
  lemma {:induction false} LexLessTrichotomy(a: string, b: string)
    ensures a == b || LexLess(a, b) || LexLess(b, a)
    ensures !(LexLess(a, b) && LexLess(b, a))
    ensures !LexLess(a, a)
  {
    if a != [] && b != [] && a[0] == b[0] {
      LexLessTrichotomy(a[1..], b[1..]);
      assert a == [a[0]] + a[1..] && b == [b[0]] + b[1..];
    }
    if a != [] {
      LexLessTrichotomy(a[1..], a[1..]);
    }
  }

  /** `LexLess` is transitive, so together with `LexLessTrichotomy` it is a strict total
      order. */
  lemma {:induction false} LexLessTransitive(a: string, b: string, c: string)
    requires LexLess(a, b) && LexLess(b, c)
    ensures LexLess(a, c)
  {
    if a != [] && a[0] == b[0] && b[0] == c[0] {
      LexLessTransitive(a[1..], b[1..], c[1..]);
    }
  }

  /** `[a, b].sort()`: the two strings in ascending order. */
  function SortPair(a: string, b: string): (r: (string, string))
    ensures (r.0 == a && r.1 == b) || (r.0 == b && r.1 == a)
    ensures !LexLess(r.1, r.0)
  {
    LexLessTrichotomy(a, b);
    if LexLess(b, a) then (b, a) else (a, b)
  }

  /** The sorted pair does not depend on the order of the arguments. */
  lemma SortPairSymmetric(a: string, b: string)
    ensures SortPair(a, b) == SortPair(b, a)
  {
    LexLessTrichotomy(a, b);
  }
}
