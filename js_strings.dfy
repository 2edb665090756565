/**
 * The JavaScript string behaviour the chat relies on: truthiness of an
 * optional string field, the `\s` class of regular expressions (which is also
 * the set `String.prototype.trim` removes), `trim`, `includes`, `length` in
 * UTF-16 code units, `toLowerCase` on ASCII letters, and the registration
 * e-mail pattern `^[^\s@]+@[^\s@]+\.[^\s@]+$`.
 */
module JsStrings {
  import opened Wrappers

  /** `!x` is false: the field is present and is not the empty string. */
  predicate Truthy(x: Option<string>) {
    x.Some? && x.value != ""
  }

  /** The characters matched by `\s` and removed by `trim` (WhiteSpace and LineTerminator). */
  predicate IsJsWhitespace(c: char) {
    var n := c as int;
    (9 <= n <= 13) || n == 0x20 || n == 0xA0 || n == 0x1680 || (0x2000 <= n <= 0x200A)
    || n == 0x2028 || n == 0x2029 || n == 0x202F || n == 0x205F || n == 0x3000 || n == 0xFEFF
  }

  /** Every character of `s` is whitespace (vacuously so for the empty string). */
  predicate AllWhitespace(s: string) {
    forall i :: 0 <= i < |s| ==> IsJsWhitespace(s[i])
  }

  /** Removes leading whitespace: the result is the suffix that starts at the first non-whitespace character. */
  function TrimStart(s: string): (r: string)
    ensures |r| <= |s| && r == s[|s| - |r|..]
    ensures AllWhitespace(s[..|s| - |r|])
    ensures r != [] ==> !IsJsWhitespace(r[0])
  {
    if s != [] && IsJsWhitespace(s[0]) then
      var t := s[1..];
      var r := TrimStart(t);
      var k := |s| - |r|;
      assert s[k..] == t[k - 1..];
      assert AllWhitespace(s[..k]) by {
        forall i | 0 <= i < k ensures IsJsWhitespace(s[..k][i]) {
          if i > 0 { assert s[..k][i] == t[..k - 1][i - 1]; }
        }
      }
      r
    else s
  }

  /** Removes trailing whitespace: the result is the prefix that ends at the last non-whitespace character. */
  function TrimEnd(s: string): (r: string)
    ensures |r| <= |s| && r == s[..|r|]
    ensures AllWhitespace(s[|r|..])
    ensures r != [] ==> !IsJsWhitespace(r[|r| - 1])
  {
    if s != [] && IsJsWhitespace(s[|s| - 1]) then
      var t := s[..|s| - 1];
      var r := TrimEnd(t);
      assert r == s[..|r|];
      assert AllWhitespace(s[|r|..]) by {
        forall j | 0 <= j < |s| - |r| ensures IsJsWhitespace(s[|r|..][j]) {
          if j < |s| - 1 - |r| { assert s[|r|..][j] == t[|r|..][j]; }
        }
      }
      r
    else s
  }

  /** `s.trim()`: what is left between a whitespace prefix and a whitespace suffix, starting and ending with neither. */
  function Trim(s: string): (r: string)
    ensures |r| <= |s|
    ensures exists k :: 0 <= k <= |s| - |r| && r == s[k..k + |r|] && AllWhitespace(s[..k]) && AllWhitespace(s[k + |r|..])
    ensures r != [] ==> !IsJsWhitespace(r[0]) && !IsJsWhitespace(r[|r| - 1])
  {
    var t := TrimStart(s);
    var r := TrimEnd(t);
    var k := |s| - |t|;
    assert t == s[k..] && r == t[..|r|];
    assert r == s[k..k + |r|] && s[k + |r|..] == t[|r|..];
    assert AllWhitespace(s[..k]) && AllWhitespace(s[k + |r|..]);
    r
  }

  /** `s.trim()` is the empty (falsy) string exactly when `s` holds only whitespace. */
  lemma TrimEmptyIffBlank(s: string)
    ensures Trim(s) == [] <==> AllWhitespace(s)
  {
    var t := TrimStart(s);
    if t == [] {
      assert s[..|s|] == s;
    } else {
      TrimEndKeepsNonBlank(t);
    }
  }

  /** Trimming the end of a string that starts with a non-whitespace character leaves it non-empty. */
  lemma {:induction false} TrimEndKeepsNonBlank(t: string)
    requires t != [] && !IsJsWhitespace(t[0])
    ensures TrimEnd(t) != []
  {
    if IsJsWhitespace(t[|t| - 1]) {
      TrimEndKeepsNonBlank(t[..|t| - 1]);
    }
  }

  /** `s.includes(t)`: `t` occurs in `s` as a contiguous block. */
  predicate Includes(s: string, t: string)
    decreases |s|
  {
    |t| <= |s| && (s[..|t|] == t || Includes(s[1..], t))
  }

  /** A string that starts with `t` includes `t`. */
  lemma PrefixIncluded(t: string, rest: string)
    ensures Includes(t + rest, t)
  {
    assert (t + rest)[..|t|] == t;
  }

  /** The positions of the characters outside the Basic Multilingual Plane, which UTF-16 stores as surrogate pairs. */
  function AstralPositions(s: string): set<int> {
    set i | 0 <= i < |s| && s[i] as int > 0xFFFF
  }

  /** `s.length`: the number of UTF-16 code units, one per character and one more per character outside the BMP. */
  function Utf16Length(s: string): (n: nat)
    ensures n == |s| + |AstralPositions(s)|
    ensures |s| <= n <= 2 * |s|
    ensures n == |s| <== forall i :: 0 <= i < |s| ==> s[i] as int <= 0xFFFF
  {
    if s == [] then 0
    else
      var t, c := s[..|s| - 1], s[|s| - 1];
      var n := Utf16Length(t) + if c as int > 0xFFFF then 2 else 1;
      assert AstralPositions(s) == AstralPositions(t) + if c as int > 0xFFFF then {|t|} else {};
      n
  }

  predicate IsDigit(c: char) {
    '0' <= c <= '9'
  }

  /** The number a string of decimal digits spells, most significant digit first. */
  function DigitsValue(s: string): int {
    if s == [] then 0 else DigitsValue(s[..|s| - 1]) * 10 + (s[|s| - 1] as int - '0' as int)
  }

  /** `${n}` for a non-negative integer: its decimal digits, without leading zeros, spelling `n`. */
  function DecimalString(n: nat): (r: string)
    ensures r != [] && forall i :: 0 <= i < |r| ==> IsDigit(r[i])
    ensures DigitsValue(r) == n
    ensures r[0] == '0' ==> r == "0"
  {
    var last := ['0' + (n % 10) as char];
    if n < 10 then last
    else
      var r := DecimalString(n / 10) + last;
      assert r[..|r| - 1] == DecimalString(n / 10);
      r
  }

  predicate IsAsciiUpper(c: char) {
    'A' <= c <= 'Z'
  }

  function AsciiLowerChar(c: char): char {
    if IsAsciiUpper(c) then (c as int + 32) as char else c
  }

  /** `s.toLowerCase()` on the ASCII letters: the same length, no upper-case ASCII letter left, other characters kept. */
  function AsciiLower(s: string): (r: string)
    ensures |r| == |s|
    ensures forall i :: 0 <= i < |r| ==> !IsAsciiUpper(r[i])
    ensures forall i :: 0 <= i < |r| && !IsAsciiUpper(s[i]) ==> r[i] == s[i]
    ensures forall i :: 0 <= i < |r| && IsAsciiUpper(s[i]) ==> r[i] as int == s[i] as int + 32
  {
    seq(|s|, i requires 0 <= i < |s| => AsciiLowerChar(s[i]))
  }

  /** Lower-casing a lower-cased string changes nothing. */
  lemma AsciiLowerIdempotent(s: string)
    ensures AsciiLower(AsciiLower(s)) == AsciiLower(s)
  {
  }

  /** A character `[^\s@]` accepts. */
  predicate IsAddressChar(c: char) {
    !IsJsWhitespace(c) && c != '@'
  }

  /**
   * The language of `^[^\s@]+@[^\s@]+\.[^\s@]+$`: one '@' at index `i` with a
   * non-empty part before it, a '.' at index `j` with non-empty parts between
   * and after, and every other character accepted by `[^\s@]`.
   */
  ghost predicate MatchesEmailPattern(s: string) {
    exists i, j :: 0 < i && i + 1 < j && j + 1 < |s| && s[i] == '@' && s[j] == '.'
      && (forall k :: 0 <= k < |s| && k != i ==> IsAddressChar(s[k]))
  }

  /** The index of the first occurrence of `c` in `s`. */
  function IndexOf(s: string, c: char): (r: Option<nat>)
    ensures r.Some? ==> r.value < |s| && s[r.value] == c
    ensures forall k :: 0 <= k < |s| && (r.None? || k < r.value) ==> s[k] != c
  {
    if s == [] then None
    else if s[0] == c then Some(0)
    else match IndexOf(s[1..], c)
      case None => None
      case Some(k) => Some(k + 1)
  }

  /** The e-mail check as it would run: split at the first '@', check the local part and the domain. */
  predicate IsEmailShaped(s: string) {
    match IndexOf(s, '@')
    case None => false
    case Some(at) =>
      var local, domain := s[..at], s[at + 1..];
      && local != []
      && (forall k :: 0 <= k < |local| ==> IsAddressChar(local[k]))
      && (forall k :: 0 <= k < |domain| ==> IsAddressChar(domain[k]))
      && 3 <= |domain| && '.' in domain[1..|domain| - 1]
  }

  /** The split check accepts exactly the strings the registration regular expression accepts. */
  lemma EmailCheckMatchesPattern(s: string)
    ensures IsEmailShaped(s) <==> MatchesEmailPattern(s)
  {
    var at := IndexOf(s, '@');
    if IsEmailShaped(s) {
      var i := at.value;
      var domain := s[i + 1..];
      var d :| d in domain[1..|domain| - 1] && d == '.';
      var m :| 0 <= m < |domain| - 2 && domain[1..|domain| - 1][m] == '.';
      var j := i + 2 + m;
      assert s[j] == '.';
      forall k | 0 <= k < |s| && k != i ensures IsAddressChar(s[k]) {
        if k < i { assert s[k] == s[..i][k]; } else { assert s[k] == domain[k - i - 1]; }
      }
    }
    if MatchesEmailPattern(s) {
      var i, j :| 0 < i && i + 1 < j && j + 1 < |s| && s[i] == '@' && s[j] == '.'
        && (forall k :: 0 <= k < |s| && k != i ==> IsAddressChar(s[k]));
      assert at == Some(i);
      var domain := s[i + 1..];
      assert domain[1..|domain| - 1][j - i - 2] == '.';
    }
  }
}
