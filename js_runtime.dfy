/** The small part of JavaScript's runtime semantics that the two form
    validators depend on: thrown errors as a Result, reading a property of a
    string primitive, relational comparison against `undefined`, the
    character set that `String.prototype.trim` strips, and digit tests. */
module JsRuntime {

  /** The only exception the form code can raise: reading a property of
      `undefined` (a missing field, or missing rules in ContactData). */
  datatype JsError = TypeError

  datatype Result<T> = Success(value: T) | Failure(error: JsError)

  datatype Outcome = Pass | Fail(error: JsError)

  datatype Option<T> = None | Some(value: T)

  /** The values a property read on a string primitive can produce here:
      `length` is a number; `minLength`, `maxLength` and `valid` are not
      properties of a string and read as `undefined`. */
  datatype JsValue = Undefined | Number(n: int)

  /** The number of UTF-16 code units that encode `c`: two for a code point
      outside the Basic Multilingual Plane (a surrogate pair), one otherwise. */
  function CodeUnits(c: char): nat {
    if c >= '\U{10000}' then 2 else 1
  }

  /** `s.length`: JavaScript strings count UTF-16 code units, not code points. */
  function Utf16Length(s: string): nat
    decreases |s|
  {
    if |s| == 0 then 0 else CodeUnits(s[0]) + Utf16Length(s[1..])
  }

  /** Each code point takes one or two code units. */
  lemma {:induction false} Utf16LengthBounds(s: string)
    ensures |s| <= Utf16Length(s) <= 2 * |s|
    decreases |s|
  {
    if |s| > 0 {
      Utf16LengthBounds(s[1..]);
    }
  }

  /** A string inside the Basic Multilingual Plane has one code unit per character. */
  lemma {:induction false} Utf16LengthOfBmp(s: string)
    requires forall i :: 0 <= i < |s| ==> s[i] < '\U{10000}'
    ensures Utf16Length(s) == |s|
    decreases |s|
  {
    if |s| > 0 {
      Utf16LengthOfBmp(s[1..]);
    }
  }

  /** Each emoji takes two code units: two letters and one emoji are four
      code units long, two letters and two emoji six. */
  lemma Utf16LengthCountsSurrogatePairs()
    ensures Utf16Length("ab\U{1F600}") == 4
    ensures Utf16Length("ab\U{1F600}\U{1F600}") == 6
  {
    var s := "ab\U{1F600}\U{1F600}";
    assert s[1..][1..][1..][1..] == [];
    var t := "ab\U{1F600}";
    assert t[1..][1..][1..] == [];
  }

  /** Reading a named property of a string primitive. */
  function StringProperty(s: string, name: string): JsValue {
    if name == "length" then Number(Utf16Length(s)) else Undefined
  }

  /** `a >= n`: `undefined` converts to NaN and every comparison with NaN is false. */
  predicate AtLeast(a: JsValue, n: int) {
    match a
    case Undefined => false
    case Number(m) => m >= n
  }

  /** `a <= n`, with the same NaN rule. */
  predicate AtMost(a: JsValue, n: int) {
    match a
    case Undefined => false
    case Number(m) => m <= n
  }

  /** A rule flag is truthy when it is present and `true`. */
  predicate TruthyFlag(b: Option<bool>) {
    b.Some? && b.value
  }

  /** A numeric threshold is truthy when it is present and not 0. */
  predicate TruthyNumber(n: Option<int>) {
    n.Some? && n.value != 0
  }

  /** ECMAScript WhiteSpace and LineTerminator code points, the set that
      `trim` removes from both ends. */
  predicate IsWhitespace(c: char) {
    || c == '\t' || c == '\n' || c == '\U{000B}' || c == '\U{000C}' || c == '\r'
    || c == ' ' || c == '\U{00A0}' || c == '\U{1680}'
    || ('\U{2000}' <= c <= '\U{200A}')
    || c == '\U{2028}' || c == '\U{2029}' || c == '\U{202F}' || c == '\U{205F}'
    || c == '\U{3000}' || c == '\U{FEFF}'
  }

  predicate AllWhitespace(s: string) {
    forall i :: 0 <= i < |s| ==> IsWhitespace(s[i])
  }

  /** The end of the run of whitespace that starts at `start`. */
  function WhitespaceRunEnd(s: string, start: nat): (k: nat)
    requires start <= |s|
    ensures start <= k <= |s|
    ensures forall i :: start <= i < k ==> IsWhitespace(s[i])
    ensures k < |s| ==> !IsWhitespace(s[k])
    decreases |s| - start
  {
    if start < |s| && IsWhitespace(s[start]) then WhitespaceRunEnd(s, start + 1) else start
  }

  /** The start of the run of whitespace that ends at `stop`. */
  function WhitespaceRunStart(s: string, stop: nat): (k: nat)
    requires stop <= |s|
    ensures k <= stop
    ensures forall i :: k <= i < stop ==> IsWhitespace(s[i])
    ensures 0 < k ==> !IsWhitespace(s[k - 1])
    decreases stop
  {
    if 0 < stop && IsWhitespace(s[stop - 1]) then WhitespaceRunStart(s, stop - 1) else stop
  }

  /** Drops leading whitespace: the result is a suffix of `s`, everything
      dropped is whitespace, and the result does not start with whitespace. */
  function TrimStart(s: string): (r: string)
    ensures |r| <= |s| && r == s[|s| - |r|..]
    ensures AllWhitespace(s[..|s| - |r|])
    ensures r == [] || !IsWhitespace(r[0])
  {
    var k := WhitespaceRunEnd(s, 0);
    assert forall i :: 0 <= i < k ==> s[..k][i] == s[i];
    s[k..]
  }

  /** Drops trailing whitespace: the result is a prefix of `s`, everything
      dropped is whitespace, and the result does not end with whitespace. */
  function TrimEnd(s: string): (r: string)
    ensures |r| <= |s| && r == s[..|r|]
    ensures AllWhitespace(s[|r|..])
    ensures r == [] || !IsWhitespace(r[|r| - 1])
  {
    var k := WhitespaceRunStart(s, |s|);
    assert forall i :: k <= i < |s| ==> s[k..][i - k] == s[i];
    s[..k]
  }

  /** `String.prototype.trim`. */
  function Trim(s: string): string {
    TrimEnd(TrimStart(s))
  }

  /** `value.trim() !== ''`. */
  predicate NotBlank(s: string) {
    Trim(s) != ""
  }

  /** `trim()` yields the empty string exactly when every character is whitespace. */
  lemma TrimEmptyIffAllWhitespace(s: string)
    ensures Trim(s) == "" <==> AllWhitespace(s)
  {
    var t := TrimStart(s);
    if Trim(s) == "" {
      // A non-empty TrimStart would begin with a non-whitespace character
      // that TrimEnd keeps.
      assert t == [];
      assert s[..|s|] == s;
    } else if AllWhitespace(s) {
      assert false;
    }
  }

  /** A prefix `r` of a suffix `t` of `s`, with only whitespace cut off on
      either side, is an infix of `s` with only whitespace around it. */
  lemma WhitespaceFramedInfix(s: string, t: string, r: string)
    requires |t| <= |s| && t == s[|s| - |t|..] && AllWhitespace(s[..|s| - |t|])
    requires |r| <= |t| && r == t[..|r|] && AllWhitespace(t[|r|..])
    ensures exists i, j :: 0 <= i <= j <= |s| && r == s[i..j]
                           && AllWhitespace(s[..i]) && AllWhitespace(s[j..])
  {
    var i := |s| - |t|;
    var j := i + |r|;
    assert r == s[i..j];
    assert s[j..] == t[|r|..];
  }

  /** The result of `trim` is `s` with only whitespace removed around it. */
  lemma TrimIsInfix(s: string)
    ensures exists i, j :: 0 <= i <= j <= |s| && Trim(s) == s[i..j]
                           && AllWhitespace(s[..i]) && AllWhitespace(s[j..])
  {
    var t := TrimStart(s);
    WhitespaceFramedInfix(s, t, TrimEnd(t));
  }

  predicate IsDigit(c: char) {
    '0' <= c <= '9'
  }

  /** `/^\d+$/.test(s)`: anchored at both ends, one or more ASCII digits. */
  predicate IsDigits(s: string) {
    |s| > 0 && forall i :: 0 <= i < |s| ==> IsDigit(s[i])
  }
}
