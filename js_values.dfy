/**
 * The JavaScript values and string operations that the request handlers, the
 * client-side validators and the Mongoose schemas rely on: request fields that
 * may be absent, `null` or a string; truthiness; `trim`; `toLowerCase`.
 */
module JsValues {

  datatype Option<+T> = None | Some(value: T)

  /**
   * A value read from a request body, a query string or a header:
   * absent (`undefined`), JSON `null`, or a string.
   */
  datatype Field = Missing | Null | Text(s: string)

  /** JavaScript truthiness of a field: only a non-empty string is truthy. */
  predicate Truthy(f: Field) {
    f.Text? && f.s != ""
  }

  /** The JavaScript expression `a || b` on two fields. */
  function Or(a: Field, b: Field): (r: Field)
    ensures Truthy(a) ==> r == a
    ensures !Truthy(a) ==> r == b
  {
    if Truthy(a) then a else b
  }

  /**
   * The ECMAScript WhiteSpace and LineTerminator characters: exactly what
   * `String.prototype.trim` removes and what the regular expression class `\s`
   * matches.
   */
  predicate IsWhitespace(c: char) {
    || c == '\t' || c == '\n' || c == '\U{B}' || c == '\U{C}' || c == '\r'
    || c == ' ' || c == '\U{A0}' || c == '\U{1680}'
    || ('\U{2000}' <= c <= '\U{200A}')
    || c == '\U{2028}' || c == '\U{2029}' || c == '\U{202F}' || c == '\U{205F}'
    || c == '\U{3000}' || c == '\U{FEFF}'
  }

  predicate AllWhitespace(s: string) {
    forall i :: 0 <= i < |s| ==> IsWhitespace(s[i])
  }

  /** `s` has no whitespace at either end. */
  predicate Trimmed(s: string) {
    s == [] || (!IsWhitespace(s[0]) && !IsWhitespace(s[|s| - 1]))
  }

  /** Drops the leading whitespace. */
  function TrimStart(s: string): (r: string)
    ensures |r| <= |s|
    ensures r == [] || !IsWhitespace(r[0])
  {
    if s != [] && IsWhitespace(s[0]) then TrimStart(s[1..]) else s
  }

  /** Drops the trailing whitespace. */
  function TrimEnd(s: string): (r: string)
    ensures |r| <= |s|
    ensures r == [] || !IsWhitespace(r[|r| - 1])
  {
    if s != [] && IsWhitespace(s[|s| - 1]) then TrimEnd(s[..|s| - 1]) else s
  }

  /**
   * `String.prototype.trim`: what is left of `s` once the whitespace at both
   * ends is cut off (TrimCut and TrimAt say which part that is).
   */
  function Trim(s: string): (r: string)
    ensures Trimmed(r) && |r| <= |s|
  {
    var t := TrimStart(s);
    var r := TrimEnd(t);
    assert Trimmed(r) by {
      if r != [] {
        TrimEndCut(t);
        assert r[0] == t[0];
      }
    }
    r
  }

  /** `toLowerCase` on one character; only the ASCII letters are mapped. */
  function LowerChar(c: char): (r: char)
    ensures IsWhitespace(r) <==> IsWhitespace(c)
    ensures 'A' <= c <= 'Z' ==> r != c
    ensures !('A' <= c <= 'Z') ==> r == c
  {
    if 'A' <= c <= 'Z' then (c as int - 'A' as int + 'a' as int) as char else c
  }

  /** `String.prototype.toLowerCase`, restricted to the ASCII letters. */
  function Lower(s: string): (r: string)
    ensures |r| == |s|
    ensures forall i :: 0 <= i < |s| ==> r[i] == LowerChar(s[i])
  {
    seq(|s|, i requires 0 <= i < |s| => LowerChar(s[i]))
  }

  /** The JavaScript expression `f?.trim() || undefined`: a trimmed string, or nothing when it trims to "". */
  function TrimOrAbsent(f: Field): (r: Option<string>)
    ensures r.Some? <==> f.Text? && !AllWhitespace(f.s)
    ensures r.Some? ==> r.value == Trim(f.s) && r.value != "" && Trimmed(r.value)
  {
    match f
    case Text(s) =>
      TrimEmptyIffWhitespace(s);
      if Trim(s) != "" then Some(Trim(s)) else None
    case _ => None
  }

  // ---- properties of trim and toLowerCase ----

  lemma {:induction false} TrimStartCut(s: string)
    ensures TrimStart(s) == s[|s| - |TrimStart(s)|..]
    ensures AllWhitespace(s[..|s| - |TrimStart(s)|])
  {
    if s != [] && IsWhitespace(s[0]) {
      TrimStartCut(s[1..]);
      var k := |s| - |TrimStart(s)|;
      assert s[1..][k - 1..] == s[k..];
      forall m | 0 <= m < k ensures IsWhitespace(s[..k][m]) {
        if m > 0 { assert s[..k][m] == s[1..][..k - 1][m - 1]; }
      }
    }
  }

  lemma {:induction false} TrimEndCut(s: string)
    ensures TrimEnd(s) == s[..|TrimEnd(s)|]
    ensures AllWhitespace(s[|TrimEnd(s)|..])
  {
    if s != [] && IsWhitespace(s[|s| - 1]) {
      var t := s[..|s| - 1];
      TrimEndCut(t);
      var k := |TrimEnd(s)|;
      assert t[..k] == s[..k];
      forall m | 0 <= m < |s| - k ensures IsWhitespace(s[k..][m]) {
        if k + m < |s| - 1 { assert s[k..][m] == t[k..][m]; }
      }
    }
  }

  /** The cut points of `trim`: whitespace before `i` and from `j` on. */
  lemma TrimCut(s: string) returns (i: nat, j: nat)
    ensures i <= j <= |s| && Trim(s) == s[i..j]
    ensures AllWhitespace(s[..i]) && AllWhitespace(s[j..])
  {
    var t := TrimStart(s);
    TrimStartCut(s);
    var r := TrimEnd(t);
    TrimEndCut(t);
    i := |s| - |t|;
    j := i + |r|;
    assert r == s[i..j];
    assert s[j..] == t[|r|..];
  }

  lemma {:induction false} TrimStartAt(s: string, i: nat)
    requires i <= |s| && AllWhitespace(s[..i]) && (i < |s| ==> !IsWhitespace(s[i]))
    ensures TrimStart(s) == s[i..]
  {
    if i > 0 {
      assert s[..i][0] == s[0];
      assert s[1..][..i - 1] == s[1..i];
      assert forall k :: 0 <= k < i - 1 ==> s[1..i][k] == s[..i][k + 1];
      TrimStartAt(s[1..], i - 1);
      assert s[1..][i - 1..] == s[i..];
    }
  }

  lemma {:induction false} TrimEndAt(s: string, j: nat)
    requires j <= |s| && AllWhitespace(s[j..]) && (0 < j ==> !IsWhitespace(s[j - 1]))
    ensures TrimEnd(s) == s[..j]
  {
    if j < |s| {
      assert s[j..][|s| - 1 - j] == s[|s| - 1];
      var t := s[..|s| - 1];
      assert t[j..] == s[j..|s| - 1];
      assert forall k :: 0 <= k < |t| - j ==> t[j..][k] == s[j..][k];
      TrimEndAt(t, j);
      assert t[..j] == s[..j];
    }
  }

  /**
   * Trim is determined by its cut points: whitespace before `i` and from `j`
   * on, no whitespace at the ends of what is left.
   */
  lemma TrimAt(s: string, i: nat, j: nat)
    requires i <= j <= |s| && AllWhitespace(s[..i]) && AllWhitespace(s[j..])
    requires i < j ==> !IsWhitespace(s[i]) && !IsWhitespace(s[j - 1])
    ensures Trim(s) == s[i..j]
  {
    if i == j {
      WhitespaceSplit(s, i);
      assert s[..|s|] == s;
      TrimStartAt(s, |s|);
    } else {
      TrimStartAt(s, i);
      var t := s[i..];
      assert t[j - i..] == s[j..];
      TrimEndAt(t, j - i);
    }
  }

  lemma WhitespaceSplit(s: string, i: nat)
    requires i <= |s| && AllWhitespace(s[..i]) && AllWhitespace(s[i..])
    ensures AllWhitespace(s)
  {
    forall k | 0 <= k < |s| ensures IsWhitespace(s[k]) {
      if k < i { assert s[..i][k] == s[k]; } else { assert s[i..][k - i] == s[k]; }
    }
  }

  /** A string trims to "" exactly when it is all whitespace. */
  lemma TrimEmptyIffWhitespace(s: string)
    ensures Trim(s) == [] <==> AllWhitespace(s)
  {
    var r := Trim(s);
    var i, j := TrimCut(s);
    if AllWhitespace(s) {
      assert s[..|s|] == s;
      TrimAt(s, |s|, |s|);
    } else if r == [] {
      WhitespaceSplit(s, i);
    }
  }

  /** Trimming a string that already has no whitespace at its ends changes nothing. */
  lemma TrimOfTrimmed(s: string)
    requires Trimmed(s)
    ensures Trim(s) == s
  {
    assert s[..0] == [] && s[|s|..] == [] && s[0..|s|] == s;
    TrimAt(s, 0, |s|);
  }

  /** `trim` is idempotent. */
  lemma TrimIdempotent(s: string)
    ensures Trim(Trim(s)) == Trim(s)
  {
    TrimOfTrimmed(Trim(s));
  }

  /** Whitespace added on either side is removed again by `trim`. */
  lemma TrimPadded(p: string, s: string, q: string)
    requires AllWhitespace(p) && AllWhitespace(q)
    ensures Trim(p + s + q) == Trim(s)
  {
    var w := p + s + q;
    var r := Trim(s);
    var i, j := TrimCut(s);
    var i', j' := |p| + i, |p| + j;
    assert w[..i'] == p + s[..i];
    assert w[j'..] == s[j..] + q;
    assert w[i'..j'] == r;
    if i == j {
      assert w[..i'] + w[i'..] == w;
      TrimAt(w, i', j');
    } else {
      assert r[0] == w[i'] && r[|r| - 1] == w[j' - 1];
      TrimAt(w, i', j');
    }
  }

  /** `toLowerCase` is idempotent. */
  lemma LowerIdempotent(s: string)
    ensures Lower(Lower(s)) == Lower(s)
  {
  }

  /** Lowercasing does not change which characters are whitespace, so it commutes with `trim`. */
  lemma LowerTrimCommute(s: string)
    ensures Lower(Trim(s)) == Trim(Lower(s))
  {
    var r := Trim(s);
    var i, j := TrimCut(s);
    var l := Lower(s);
    assert Lower(r) == l[i..j];
    assert AllWhitespace(l[..i]) by {
      forall k | 0 <= k < i ensures IsWhitespace(l[..i][k]) { assert s[..i][k] == s[k]; }
    }
    assert AllWhitespace(l[j..]) by {
      forall k | 0 <= k < |l| - j ensures IsWhitespace(l[j..][k]) { assert s[j..][k] == s[j + k]; }
    }
    if i < j {
      assert r[0] == s[i] && r[|r| - 1] == s[j - 1];
    }
    TrimAt(l, i, j);
  }
}
