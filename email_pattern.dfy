/** The `isEmail` rule of the Auth validator: the unanchored test of
      [a-z0-9!#$%&'*+/=?^_`{|}~-]+(?:\.[a-z0-9!#$%&'*+/=?^_`{|}~-]+)*@(?:[a-z0-9](?:[a-z0-9-]*[a-z0-9])?\.)+[a-z0-9](?:[a-z0-9-]*[a-z0-9])?
    against a string. The language of that pattern is stated as ghost
    predicates that follow its structure; `EmailTest` is a direct recognizer
    for "some substring is in the language", proved equal to it. The pattern
    has no `i` flag, so only lower-case letters match. */
module EmailPattern {
  import opened JsRuntime

  predicate IsLowerAlnum(c: char) {
    ('a' <= c <= 'z') || IsDigit(c)
  }

  /** The character class of the local part (it contains `-` but not `.`). */
  predicate IsLocalChar(c: char) {
    || IsLowerAlnum(c)
    || c == '!' || c == '#' || c == '$' || c == '%' || c == '&' || c == '\'' || c == '*'
    || c == '+' || c == '/' || c == '=' || c == '?' || c == '^' || c == '_' || c == '`'
    || c == '{' || c == '|' || c == '}' || c == '~' || c == '-'
  }

  /** The characters a domain label may contain. */
  predicate IsLabelChar(c: char) {
    IsLowerAlnum(c) || c == '-'
  }

  /** `s[a..b]` matches `[a-z0-9](?:[a-z0-9-]*[a-z0-9])?`: label characters,
      starting and ending with a letter or digit. */
  ghost predicate LabelAt(s: string, a: nat, b: nat) {
    && a < b <= |s|
    && (forall i :: a <= i < b ==> IsLabelChar(s[i]))
    && IsLowerAlnum(s[a]) && IsLowerAlnum(s[b - 1])
  }

  /** `s[a..b]` matches `L+(?:\.L+)*` with L the local class: dot-separated
      non-empty runs of local characters. */
  ghost predicate LocalPartAt(s: string, a: nat, b: nat) {
    && a < b <= |s|
    && (forall i :: a <= i < b ==> IsLocalChar(s[i]) || s[i] == '.')
    && s[a] != '.' && s[b - 1] != '.'
    && (forall i :: a <= i < b - 1 ==> s[i] != '.' || s[i + 1] != '.')
  }

  /** `s[a..b]` matches `(?:label\.)+label`. */
  ghost predicate DomainAt(s: string, a: nat, b: nat)
    decreases b - a
  {
    exists k :: a < k < b <= |s| && s[k] == '.' && LabelAt(s, a, k)
                && (LabelAt(s, k + 1, b) || DomainAt(s, k + 1, b))
  }

  /** `s[a..b]` matches the whole pattern: local part, `@`, domain. */
  ghost predicate EmailShapeAt(s: string, a: nat, b: nat) {
    exists k :: a <= k < b <= |s| && s[k] == '@' && LocalPartAt(s, a, k) && DomainAt(s, k + 1, b)
  }

  /** `pattern.test(s)` for the unanchored pattern: some substring matches. */
  ghost predicate PatternMatches(s: string) {
    exists i, j :: 0 <= i <= j <= |s| && EmailShapeAt(s, i, j)
  }

  /** End of the run of label characters that starts at `q`. */
  function LabelRunEnd(s: string, q: nat): (e: nat)
    requires q <= |s|
    ensures q <= e <= |s|
    ensures forall i :: q <= i < e ==> IsLabelChar(s[i])
    ensures e < |s| ==> !IsLabelChar(s[e])
    decreases |s| - q
  {
    if q < |s| && IsLabelChar(s[q]) then LabelRunEnd(s, q + 1) else q
  }

  /** Some prefix of `s[q..]` matches `label\.[a-z0-9]`, the shortest text a
      domain can start with. */
  predicate DomainStartsAt(s: string, q: nat)
    requires q <= |s|
  {
    var e := LabelRunEnd(s, q);
    && q < e && e + 1 < |s|
    && IsLowerAlnum(s[q]) && IsLowerAlnum(s[e - 1])
    && s[e] == '.' && IsLowerAlnum(s[e + 1])
  }

  /** Whether the test succeeds: an `@` with a local character right before
      it and the start of a domain right after it. */
  predicate EmailTest(s: string) {
    exists p :: 1 <= p < |s| && IsLocalChar(s[p - 1]) && s[p] == '@' && DomainStartsAt(s, p + 1)
  }

  /** A domain starts with a label followed by a dot and a letter or digit. */
  lemma DomainHasFirstLabel(s: string, a: nat, b: nat) returns (k: nat)
    requires DomainAt(s, a, b)
    ensures a < k && k + 1 < b <= |s| && s[k] == '.' && LabelAt(s, a, k) && IsLowerAlnum(s[k + 1])
  {
    k :| a < k < b <= |s| && s[k] == '.' && LabelAt(s, a, k)
         && (LabelAt(s, k + 1, b) || DomainAt(s, k + 1, b));
    if !LabelAt(s, k + 1, b) {
      var k' :| k + 1 < k' < b && s[k'] == '.' && LabelAt(s, k + 1, k')
                && (LabelAt(s, k' + 1, b) || DomainAt(s, k' + 1, b));
    }
  }

  /** The run of label characters starting at `q` stops at the first character
      outside the class. */
  lemma LabelRunEndAt(s: string, q: nat, e: nat)
    requires q <= e < |s|
    requires forall i :: q <= i < e ==> IsLabelChar(s[i])
    requires !IsLabelChar(s[e])
    ensures LabelRunEnd(s, q) == e
  {
  }

  /** `label\.label` is a domain. */
  lemma TwoLabelsAreDomain(s: string, a: nat, k: nat, b: nat)
    requires LabelAt(s, a, k) && k < |s| && s[k] == '.' && LabelAt(s, k + 1, b)
    ensures DomainAt(s, a, b)
  {
    assert a < k < b <= |s| && s[k] == '.' && LabelAt(s, a, k) && LabelAt(s, k + 1, b);
  }

  /** A single local character is a local part. */
  lemma LocalCharIsLocalPart(s: string, i: nat)
    requires i < |s| && IsLocalChar(s[i])
    ensures LocalPartAt(s, i, i + 1)
  {
    assert s[i] != '.';
  }

  /** The text the recognizer finds is the start of a domain: its first label,
      the dot and the next letter or digit. */
  lemma DomainStartIsDomain(s: string, q: nat)
    requires q <= |s| && DomainStartsAt(s, q)
    ensures DomainAt(s, q, LabelRunEnd(s, q) + 2)
  {
    var e := LabelRunEnd(s, q);
    assert LabelAt(s, q, e);
    assert LabelAt(s, e + 1, e + 2);
    TwoLabelsAreDomain(s, q, e, e + 2);
  }

  /** Every string the recognizer accepts has a matching substring: the local
      character before the `@`, the first label, its dot and one more character. */
  lemma EmailTestSound(s: string)
    requires EmailTest(s)
    ensures PatternMatches(s)
  {
    var p :| 1 <= p < |s| && IsLocalChar(s[p - 1]) && s[p] == '@' && DomainStartsAt(s, p + 1);
    var j := LabelRunEnd(s, p + 1) + 2;
    DomainStartIsDomain(s, p + 1);
    LocalCharIsLocalPart(s, p - 1);
    assert EmailShapeAt(s, p - 1, j) by {
      assert p - 1 <= p < j <= |s| && s[p] == '@' && LocalPartAt(s, p - 1, p) && DomainAt(s, p + 1, j);
    }
  }

  /** The last character of a local part is a local character. */
  lemma LocalPartEndsInLocalChar(s: string, a: nat, b: nat)
    requires LocalPartAt(s, a, b)
    ensures IsLocalChar(s[b - 1])
  {
  }

  /** A label followed by a dot and a letter or digit starts a domain. */
  lemma DomainStartsAtFirstLabel(s: string, q: nat, m: nat)
    requires LabelAt(s, q, m) && m + 1 < |s| && s[m] == '.' && IsLowerAlnum(s[m + 1])
    ensures DomainStartsAt(s, q)
  {
    LabelRunEndAt(s, q, m);
  }

  /** A match with its `@` at `p` makes the recognizer accept, with `p` as witness. */
  lemma EmailTestAcceptsMatchAt(s: string, i: nat, p: nat, j: nat)
    requires i <= p < j <= |s| && s[p] == '@' && LocalPartAt(s, i, p) && DomainAt(s, p + 1, j)
    ensures EmailTest(s)
  {
    LocalPartEndsInLocalChar(s, i, p);
    var m := DomainHasFirstLabel(s, p + 1, j);
    DomainStartsAtFirstLabel(s, p + 1, m);
  }

  /** Every string with a matching substring is accepted by the recognizer. */
  lemma EmailTestComplete(s: string)
    requires PatternMatches(s)
    ensures EmailTest(s)
  {
    var i, j :| 0 <= i <= j <= |s| && EmailShapeAt(s, i, j);
    var p :| i <= p < j <= |s| && s[p] == '@' && LocalPartAt(s, i, p) && DomainAt(s, p + 1, j);
    EmailTestAcceptsMatchAt(s, i, p, j);
  }

  /** The recognizer accepts exactly the strings the pattern matches somewhere. */
  lemma EmailTestIsPatternMatch(s: string)
    ensures EmailTest(s) <==> PatternMatches(s)
  {
    if EmailTest(s) {
      EmailTestSound(s);
    }
    if PatternMatches(s) {
      EmailTestComplete(s);
    }
  }

  /** The start of a domain is found again wherever the string is embedded. */
  lemma DomainStartsShift(s: string, t: string, n: nat, q: nat)
    requires q <= |s| && DomainStartsAt(s, q)
    requires n + |s| <= |t| && t[n..n + |s|] == s
    ensures DomainStartsAt(t, q + n)
  {
    var e := LabelRunEnd(s, q);
    forall i | q + n <= i <= e + 1 + n ensures t[i] == s[i - n] {
      assert t[i] == t[n..n + |s|][i - n];
    }
    LabelRunEndAt(t, q + n, e + n);
  }

  /** A string that contains an accepted string is accepted. */
  lemma EmailTestInfix(s: string, t: string, n: nat)
    requires EmailTest(s)
    requires n + |s| <= |t| && t[n..n + |s|] == s
    ensures EmailTest(t)
  {
    var p :| 1 <= p < |s| && IsLocalChar(s[p - 1]) && s[p] == '@' && DomainStartsAt(s, p + 1);
    DomainStartsShift(s, t, n, p + 1);
    assert t[p - 1 + n] == t[n..n + |s|][p - 1];
    assert t[p + n] == t[n..n + |s|][p];
    assert IsLocalChar(t[p + n - 1]) && t[p + n] == '@' && DomainStartsAt(t, p + n + 1);
  }

  /** The test is unanchored: text around a matching string does not make it fail. */
  lemma EmailTestUnanchored(x: string, s: string, y: string)
    requires EmailTest(s)
    ensures EmailTest(x + s + y)
  {
    var t := x + s + y;
    assert t[|x|..|x| + |s|] == s;
    EmailTestInfix(s, t, |x|);
  }

  /** The pattern needs an `@` followed by a dot-separated domain. */
  lemma EmailTestNeedsAtAndDot(s: string)
    requires EmailTest(s)
    ensures exists p, d :: 0 <= p < d < |s| && s[p] == '@' && s[d] == '.'
  {
    var p :| 1 <= p < |s| && IsLocalChar(s[p - 1]) && s[p] == '@' && DomainStartsAt(s, p + 1);
    var e := LabelRunEnd(s, p + 1);
    assert s[e] == '.';
  }

  lemma EmailTestAcceptsPlain()
    ensures EmailTest("a@b.co")
  {
    var s := "a@b.co";
    assert IsLabelChar(s[2]) && !IsLabelChar(s[3]);
    LabelRunEndAt(s, 2, 3);
    assert IsLocalChar(s[0]) && s[1] == '@' && DomainStartsAt(s, 2);
  }

  /** Without an `@` nothing matches. */
  lemma EmailTestRejectsNoAt()
    ensures !EmailTest("not-an-email")
  {
    var s := "not-an-email";
    forall p | 0 <= p < |s| ensures s[p] != '@' {
    }
  }

  /** Without a dot after the `@` nothing matches. */
  lemma EmailTestRejectsNoDot()
    ensures !EmailTest("a@localhost")
  {
    var s := "a@localhost";
    forall d | 0 <= d < |s| ensures s[d] != '.' {
    }
    if EmailTest(s) {
      EmailTestNeedsAtAndDot(s);
    }
  }
}
