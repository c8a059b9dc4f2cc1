/** String helpers with the semantics of the JavaScript built-ins the pages call:
    ASCII case mapping, `includes`, the ECMAScript white-space set used by `trim`
    and `\S`, and `slice(-n)`. */
module Text {

  predicate IsUpper(c: char) { 'A' <= c <= 'Z' }

  predicate IsLower(c: char) { 'a' <= c <= 'z' }

  predicate IsDigit(c: char) { '0' <= c <= '9' }

  function LowerChar(c: char): (d: char)
    ensures IsUpper(c) ==> IsLower(d)
    ensures !IsUpper(c) ==> d == c
  {
    if IsUpper(c) then (c as int + 32) as char else c
  }

  function UpperChar(c: char): (d: char)
    ensures IsLower(c) ==> IsUpper(d)
    ensures !IsLower(c) ==> d == c
  {
    if IsLower(c) then (c as int - 32) as char else c
  }

  /** `s.toLowerCase()` restricted to the ASCII letters. */
  function ToLower(s: string): (r: string)
    ensures |r| == |s|
    ensures forall i :: 0 <= i < |s| ==> r[i] == LowerChar(s[i])
  {
    seq(|s|, i requires 0 <= i < |s| => LowerChar(s[i]))
  }

  /** `sub` occurs in `s` starting at position `i`. */
  predicate OccursAt(s: string, sub: string, i: nat)
    requires i <= |s|
  {
    sub <= s[i..]
  }

  /** `s.includes(sub)`. */
  predicate Contains(s: string, sub: string) {
    exists i: nat | i <= |s| :: OccursAt(s, sub, i)
  }

  /** Every string includes the empty string. */
  lemma ContainsEmpty(s: string)
    ensures Contains(s, "")
  {
    assert OccursAt(s, "", 0);
  }

  /** The ECMAScript WhiteSpace and LineTerminator code points: what `trim`
      removes and what the regular-expression class `\s` matches. */
  predicate IsSpace(c: char) {
    || c == '\t' || c == '\n' || c == '\U{000B}' || c == '\U{000C}' || c == '\r' || c == ' '
    || c == '\U{00A0}' || c == '\U{1680}' || ('\U{2000}' <= c <= '\U{200A}')
    || c == '\U{2028}' || c == '\U{2029}' || c == '\U{202F}' || c == '\U{205F}'
    || c == '\U{3000}' || c == '\U{FEFF}'
  }

  predicate AllSpace(s: string) {
    forall i :: 0 <= i < |s| ==> IsSpace(s[i])
  }

  /** The number of leading white-space characters of `s`. */
  function LeadingSpace(s: string): (n: nat)
    ensures n <= |s|
    ensures AllSpace(s[..n])
    ensures n < |s| ==> !IsSpace(s[n])
    decreases |s|
  {
    if |s| > 0 && IsSpace(s[0]) then
      var m := LeadingSpace(s[1..]);
      assert s[..1 + m] == [s[0]] + s[1..][..m];
      1 + m
    else 0
  }

  /** The number of trailing white-space characters of `s`. */
  function TrailingSpace(s: string): (n: nat)
    ensures n <= |s|
    ensures forall i :: |s| - n <= i < |s| ==> IsSpace(s[i])
    ensures n < |s| ==> !IsSpace(s[|s| - n - 1])
    decreases |s|
  {
    if |s| > 0 && IsSpace(s[|s| - 1]) then
      var front := s[..|s| - 1];
      var m := TrailingSpace(front);
      assert forall i :: |s| - 1 - m <= i < |s| - 1 ==> s[i] == front[i];
      1 + m
    else 0
  }

  /** `s.trim()`: `s` without its leading and trailing white space. */
  function Trim(s: string): (r: string)
  {
    var a := LeadingSpace(s);
    s[a..][..|s| - a - TrailingSpace(s[a..])]
  }

  /** The trimmed string is a contiguous piece of `s` with white space, and only
      white space, cut from both ends; it is empty exactly when `s` is all white space. */
  lemma TrimSpec(s: string)
    ensures exists a, b :: (0 <= a <= b <= |s| && Trim(s) == s[a..b]
      && AllSpace(s[..a]) && AllSpace(s[b..]))
    ensures |Trim(s)| > 0 ==> !IsSpace(Trim(s)[0]) && !IsSpace(Trim(s)[|Trim(s)| - 1])
    ensures Trim(s) == "" <==> AllSpace(s)
  {
    var a := LeadingSpace(s);
    var t := s[a..];
    var n := TrailingSpace(t);
    var b := a + |t| - n;
    assert Trim(s) == s[a..b];
    assert forall i :: 0 <= i < |s| - b ==> s[b..][i] == t[|t| - n + i];
    if a < |s| {
      assert t[0] == s[a];
      assert n < |t|;
      assert Trim(s)[0] == s[a];
      assert Trim(s)[|Trim(s)| - 1] == t[|t| - n - 1];
    } else {
      assert s[..a] == s;
    }
  }

  /** `s.slice(-n)` for `n > 0`: the last `n` characters, or all of `s` when it is shorter. */
  function TakeLast(s: string, n: nat): (r: string)
    requires n > 0
    ensures |r| == if |s| < n then |s| else n
    ensures r == s[|s| - |r|..]
  {
    if |s| <= n then s else s[|s| - n..]
  }
}
