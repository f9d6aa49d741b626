/** The JavaScript string primitives the bookmark manager relies on:
    `trim`, `toLowerCase`, `includes`, `indexOf` and `replace` with a string pattern. */
module Text {

  /** ECMAScript WhiteSpace and LineTerminator code points: what `String.prototype.trim` strips. */
  predicate IsSpace(c: char) {
    || c == '\t' || c == '\n' || c == '\U{0B}' || c == '\U{0C}' || c == '\r' || c == ' '
    || c == '\U{A0}' || c == '\U{1680}' || ('\U{2000}' <= c <= '\U{200A}')
    || c == '\U{2028}' || c == '\U{2029}' || c == '\U{202F}' || c == '\U{205F}'
    || c == '\U{3000}' || c == '\U{FEFF}'
  }

  predicate AllSpace(s: string) {
    forall i :: 0 <= i < |s| ==> IsSpace(s[i])
  }

  /** Number of whitespace characters at the front of `s`. */
  function LeadingSpace(s: string): (n: nat)
    ensures n <= |s|
    ensures AllSpace(s[..n])
    ensures n < |s| ==> !IsSpace(s[n])
  {
    if |s| > 0 && IsSpace(s[0]) then
      var n := 1 + LeadingSpace(s[1..]);
      assert s[..n] == [s[0]] + s[1..][..n - 1];
      n
    else 0
  }

  /** Number of whitespace characters at the back of `s`. */
  function TrailingSpace(s: string): (n: nat)
    ensures n <= |s|
    ensures AllSpace(s[|s| - n..])
    ensures n < |s| ==> !IsSpace(s[|s| - n - 1])
  {
    if |s| > 0 && IsSpace(s[|s| - 1]) then
      var n := 1 + TrailingSpace(s[..|s| - 1]);
      assert s[|s| - n..] == s[..|s| - 1][|s| - n..] + [s[|s| - 1]];
      n
    else 0
  }

  /** `s.trim()`: `s` without its leading and trailing whitespace. The result is
      the unique slice of `s` that is surrounded by whitespace only and neither
      starts nor ends with whitespace. */
  function Trim(s: string): (r: string)
    ensures |r| <= |s|
    ensures r == [] <==> AllSpace(s)
    ensures r == [] || (!IsSpace(r[0]) && !IsSpace(r[|r| - 1]))
    ensures exists i :: 0 <= i <= |s| - |r| && s[i..i + |r|] == r && AllSpace(s[..i]) && AllSpace(s[i + |r|..])
  {
    var a := LeadingSpace(s);
    var b := TrailingSpace(s[a..]);
    SuffixOfDrop(s, a, b);
    TrimBounds(s, a, b);
    s[a..|s| - b]
  }

  /** The last `b` characters of `s[a..]` are the last `b` characters of `s`. */
  lemma SuffixOfDrop(s: string, a: nat, b: nat)
    requires a + b <= |s|
    ensures s[a..][|s| - a - b..] == s[|s| - b..]
  {
  }

  /** Cutting `a` spaces off the front and `b` off the back, where neither cut can
      be extended, leaves exactly what `Trim` promises. */
  lemma TrimBounds(s: string, a: nat, b: nat)
    requires a + b <= |s|
    requires AllSpace(s[..a]) && (a < |s| ==> !IsSpace(s[a]))
    requires AllSpace(s[|s| - b..]) && (a + b < |s| ==> !IsSpace(s[|s| - b - 1]))
    ensures var r := s[a..|s| - b];
            && (r == [] <==> AllSpace(s))
            && (r == [] || (!IsSpace(r[0]) && !IsSpace(r[|r| - 1])))
            && exists i :: 0 <= i <= |s| - |r| && s[i..i + |r|] == r && AllSpace(s[..i]) && AllSpace(s[i + |r|..])
  {
    var r := s[a..|s| - b];
    assert s[a..a + |r|] == r;
    assert b > 0 ==> IsSpace(s[|s| - b]) by {
      if b > 0 {
        assert s[|s| - b] == s[|s| - b..][0];
      }
    }
    if r == [] {
      assert s[..a] == s;
    }
    assert a < |s| ==> !AllSpace(s);
  }

  /** A string that neither starts nor ends with whitespace is its own trim. */
  lemma TrimKeepsUnpadded(s: string)
    requires s != [] && !IsSpace(s[0]) && !IsSpace(s[|s| - 1])
    ensures Trim(s) == s
  {
    assert LeadingSpace(s) == 0;
    assert TrailingSpace(s) == 0;
  }

  predicate IsUpper(c: char) {
    'A' <= c <= 'Z'
  }

  /** `toLowerCase` on one character (ASCII letters only). */
  function LowerChar(c: char): (d: char)
    ensures !IsUpper(d)
    ensures IsUpper(c) ==> d as int == c as int + 32
    ensures !IsUpper(c) ==> d == c
  {
    if IsUpper(c) then (c as int + 32) as char else c
  }

  /** `s.toLowerCase()`, character by character. */
  function Lower(s: string): (r: string)
    ensures |r| == |s|
    ensures forall i :: 0 <= i < |s| ==> r[i] == LowerChar(s[i])
    ensures forall i :: 0 <= i < |r| ==> !IsUpper(r[i])
  {
    seq(|s|, i requires 0 <= i < |s| => LowerChar(s[i]))
  }

  /** A string without uppercase letters is its own lowercase. */
  lemma LowerFixed(s: string)
    requires forall i :: 0 <= i < |s| ==> !IsUpper(s[i])
    ensures Lower(s) == s
  {
  }

  /** Lowercasing twice is lowercasing once. */
  lemma LowerIdempotent(s: string)
    ensures Lower(Lower(s)) == Lower(s)
  {
  }

  /** Lowercasing commutes with slicing. */
  lemma LowerSlice(s: string, i: int, j: int)
    requires 0 <= i <= j <= |s|
    ensures Lower(s)[i..j] == Lower(s[i..j])
  {
  }

  /** `k` occurs in `s` starting at index `i`. */
  predicate OccursAt(s: string, k: string, i: int) {
    0 <= i && i + |k| <= |s| && s[i..i + |k|] == k
  }

  predicate StartsWith(s: string, k: string) {
    |k| <= |s| && s[..|k|] == k
  }

  /** An occurrence in `s[1..]` is an occurrence in `s` one position later. */
  lemma OccursShift(s: string, k: string)
    requires |s| > 0
    ensures forall j :: 1 <= j ==> (OccursAt(s[1..], k, j - 1) <==> OccursAt(s, k, j))
  {
    forall j | 1 <= j
      ensures OccursAt(s[1..], k, j - 1) <==> OccursAt(s, k, j)
    {
      if j + |k| <= |s| {
        assert s[1..][j - 1..j - 1 + |k|] == s[j..j + |k|];
      }
    }
  }

  /** `s.indexOf(k)`: the first position where `k` occurs in `s`, or -1. */
  function IndexOf(s: string, k: string): (r: int)
    ensures r >= -1
    ensures r >= 0 ==> OccursAt(s, k, r)
    ensures forall j :: 0 <= j && (r < 0 || j < r) ==> !OccursAt(s, k, j)
    decreases |s|
  {
    if StartsWith(s, k) then
      assert s[0..|k|] == s[..|k|];
      0
    else if |s| == 0 then -1
    else
      OccursShift(s, k);
      assert !OccursAt(s, k, 0);
      var r := IndexOf(s[1..], k);
      if r < 0 then -1 else r + 1
  }

  /** `s.includes(k)`. */
  predicate Contains(s: string, k: string) {
    IndexOf(s, k) >= 0
  }

  /** `includes` holds exactly when some occurrence exists. */
  lemma ContainsIff(s: string, k: string)
    ensures Contains(s, k) <==> exists i :: OccursAt(s, k, i)
  {
    if Contains(s, k) {
      assert OccursAt(s, k, IndexOf(s, k));
    }
  }

  /** Every string contains the empty string. */
  lemma ContainsEmpty()
    ensures forall s :: Contains(s, [])
  {
    forall s
      ensures Contains(s, [])
    {
      assert StartsWith(s, []);
    }
  }

  /** An occurrence survives lowercasing both sides: `includes` under `toLowerCase` is
      case-insensitive matching. */
  lemma ContainsLower(s: string, k: string)
    requires Contains(s, k)
    ensures Contains(Lower(s), Lower(k))
  {
    var i := IndexOf(s, k);
    LowerSlice(s, i, i + |k|);
    assert OccursAt(Lower(s), Lower(k), i);
    ContainsIff(Lower(s), Lower(k));
  }

  /** `s.replace(pat, '')` with a string pattern: only the first occurrence is
      removed. (A non-empty replacement would also need `$`-pattern expansion,
      which the application never uses.) */
  function RemoveFirst(s: string, pat: string): (r: string)
    ensures (forall j :: !OccursAt(s, pat, j)) ==> r == s
    ensures forall i :: OccursAt(s, pat, i) && (forall j :: 0 <= j < i ==> !OccursAt(s, pat, j))
                        ==> r == s[..i] + s[i + |pat|..]
  {
    var i := IndexOf(s, pat);
    if i < 0 then s else s[..i] + s[i + |pat|..]
  }
}
