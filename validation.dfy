/**
 * The client-side field validators: `validateEmail` and `validateMobile`,
 * each a fixed sequence of early-exit checks built from `trim`, a regular
 * expression and, for the mobile number, stripping formatting characters and
 * a digit-count bound.
 */
module Validation {
  import opened JsValues

  /** The `{ valid, message }` object a validator returns. */
  datatype Verdict = Valid | Invalid(message: string)

  const EmailRequired := "Email is required"
  const EmailMalformed := "Please enter a valid email address"
  const MobileDigitsOnly := "Mobile number should contain only digits and common formatting characters"
  const MobileLength := "Mobile number should be between 7 and 15 digits"
  const MobileMalformed := "Please enter a valid mobile number (e.g., +1 234 567 8900)"

  // ---- the email pattern /^[^\s@]+@[^\s@]+\.[^\s@]+$/ ----

  /** The character class `[^\s@]`. */
  predicate EmailChar(c: char) {
    !IsWhitespace(c) && c != '@'
  }

  /** `s[i..j]` matches `[^\s@]+`. */
  predicate EmailChars(s: string, i: nat, j: nat) {
    i < j <= |s| && forall k :: i <= k < j ==> EmailChar(s[k])
  }

  /** One way to match the email pattern: the `@` at `i`, the chosen `.` at `j`. */
  predicate EmailSplit(s: string, i: nat, j: nat) {
    i < j < |s| && s[i] == '@' && s[j] == '.'
    && EmailChars(s, 0, i) && EmailChars(s, i + 1, j) && EmailChars(s, j + 1, |s|)
  }

  /** `emailRegex.test(s)`. */
  predicate EmailRegex(s: string) {
    exists i: nat, j: nat | i < j < |s| :: EmailSplit(s, i, j)
  }

  /**
   * What the email pattern is meant to accept, stated without the pattern: no
   * whitespace, exactly one `@` with something before it, and a `.` after it
   * with text on both sides.
   */
  predicate WellFormedEmail(s: string) {
    (forall k :: 0 <= k < |s| ==> !IsWhitespace(s[k]))
    && exists i: nat :: 0 < i < |s| && s[i] == '@' && OnlyAt(s, i) && DotAfter(s, i)
  }

  predicate OnlyAt(s: string, i: nat) {
    forall k :: 0 <= k < |s| && k != i ==> s[k] != '@'
  }

  predicate DotAfter(s: string, i: nat) {
    exists j: nat :: i + 1 < j < |s| - 1 && s[j] == '.'
  }

  lemma EmailRegexIffWellFormed(s: string)
    ensures EmailRegex(s) <==> WellFormedEmail(s)
  {
    if EmailRegex(s) {
      var i: nat, j: nat :| i < j < |s| && EmailSplit(s, i, j);
      forall k | 0 <= k < |s| ensures !IsWhitespace(s[k]) && (k != i ==> s[k] != '@') {
        if k < i { assert EmailChar(s[k]); }
        else if i < k < j { assert EmailChar(s[k]); }
        else if j < k { assert EmailChar(s[k]); }
      }
      assert DotAfter(s, i);
    }
    if WellFormedEmail(s) {
      var i: nat :| 0 < i < |s| && s[i] == '@' && OnlyAt(s, i) && DotAfter(s, i);
      var j: nat :| i + 1 < j < |s| - 1 && s[j] == '.';
      assert EmailSplit(s, i, j);
    }
  }

  /** `window.validateEmail`. */
  function ValidateEmail(email: string): (v: Verdict)
    ensures v.Invalid? ==> v.message == EmailRequired || v.message == EmailMalformed
  {
    if Trim(email) == "" then Invalid(EmailRequired)
    else if !EmailRegex(Trim(email)) then Invalid(EmailMalformed)
    else Valid
  }

  /** Empty or whitespace-only input, and nothing else, is "required". */
  lemma EmailRequiredIffBlank(email: string)
    ensures ValidateEmail(email) == Invalid(EmailRequired) <==> AllWhitespace(email)
  {
    TrimEmptyIffWhitespace(email);
  }

  /** An email is accepted exactly when its trimmed form is well formed. */
  lemma EmailValidIffWellFormed(email: string)
    ensures ValidateEmail(email) == Valid <==> WellFormedEmail(Trim(email))
  {
    EmailRegexIffWellFormed(Trim(email));
  }

  /** The verdict depends only on the trimmed input. */
  lemma EmailVerdictOfTrimmed(email: string)
    ensures ValidateEmail(Trim(email)) == ValidateEmail(email)
  {
    TrimIdempotent(email);
  }

  /** Surrounding whitespace never changes the verdict. */
  lemma EmailPaddingInvariant(p: string, email: string, q: string)
    requires AllWhitespace(p) && AllWhitespace(q)
    ensures ValidateEmail(p + email + q) == ValidateEmail(email)
  {
    TrimPadded(p, email, q);
  }

  // ---- stripping formatting characters: mobile.replace(/[\s\-\(\)\+]/g, '') ----

  predicate IsDigit(c: char) {
    '0' <= c <= '9'
  }

  predicate AllDigits(s: string) {
    forall k :: 0 <= k < |s| ==> IsDigit(s[k])
  }

  /** The character class `[\s\-\(\)\+]`. */
  predicate IsFormatting(c: char) {
    IsWhitespace(c) || c == '-' || c == '(' || c == ')' || c == '+'
  }

  predicate AllFormatting(s: string) {
    forall k :: 0 <= k < |s| ==> IsFormatting(s[k])
  }

  /** `s` with every formatting character removed. */
  function StripFormatting(s: string): (r: string)
    ensures |r| <= |s|
    ensures forall k :: 0 <= k < |r| ==> !IsFormatting(r[k])
  {
    if s == [] then []
    else (if IsFormatting(s[0]) then [] else [s[0]]) + StripFormatting(s[1..])
  }

  lemma {:induction false} StripConcat(a: string, b: string)
    ensures StripFormatting(a + b) == StripFormatting(a) + StripFormatting(b)
  {
    if a != [] {
      assert (a + b)[0] == a[0] && (a + b)[1..] == a[1..] + b;
      StripConcat(a[1..], b);
    } else {
      assert a + b == b;
    }
  }

  /** A piece of digits is kept whole. */
  lemma {:induction false} StripDigits(s: string)
    requires AllDigits(s)
    ensures StripFormatting(s) == s
  {
    if s != [] {
      assert forall k :: 0 <= k < |s| - 1 ==> s[1..][k] == s[k + 1];
      StripDigits(s[1..]);
    }
  }

  /** A piece of formatting characters disappears. */
  lemma {:induction false} StripFormattingOnly(s: string)
    requires AllFormatting(s)
    ensures StripFormatting(s) == []
  {
    if s != [] {
      assert forall k :: 0 <= k < |s| - 1 ==> s[1..][k] == s[k + 1];
      StripFormattingOnly(s[1..]);
    }
  }

  lemma DigitsConcat(a: string, b: string)
    requires AllDigits(a) && AllDigits(b)
    ensures AllDigits(a + b)
  {
    assert forall k :: |a| <= k < |a + b| ==> (a + b)[k] == b[k - |a|];
  }

  /** Formatting followed by digits leaves the digits. */
  lemma StripPair(f: string, d: string, rest: string)
    requires AllFormatting(f) && AllDigits(d)
    ensures StripFormatting(f + d + rest) == d + StripFormatting(rest)
  {
    StripConcat(f + d, rest);
    StripConcat(f, d);
    StripFormattingOnly(f);
    StripDigits(d);
    assert StripFormatting(f + d) == d;
  }

  /** A number written as up to four runs of digits, each after some formatting, strips to those digits. */
  lemma StripGroups(f0: string, d1: string, f1: string, d2: string, f2: string, d3: string, f3: string, d4: string)
    requires AllFormatting(f0) && AllFormatting(f1) && AllFormatting(f2) && AllFormatting(f3)
    requires AllDigits(d1) && AllDigits(d2) && AllDigits(d3) && AllDigits(d4)
    ensures var c := StripFormatting(f0 + d1 + f1 + d2 + f2 + d3 + f3 + d4);
      AllDigits(c) && |c| == |d1| + |d2| + |d3| + |d4|
  {
    var s := f0 + d1 + (f1 + d2 + (f2 + d3 + (f3 + d4 + [])));
    assert f0 + d1 + f1 + d2 + f2 + d3 + f3 + d4 == s;
    StripPair(f3, d4, []);
    StripPair(f2, d3, f3 + d4 + []);
    StripPair(f1, d2, f2 + d3 + (f3 + d4 + []));
    StripPair(f0, d1, f1 + d2 + (f2 + d3 + (f3 + d4 + [])));
    DigitsConcat(d3, d4);
    DigitsConcat(d2, d3 + d4);
    DigitsConcat(d1, d2 + (d3 + d4));
  }

  /** What survives stripping is all digits exactly when every character is a digit or formatting. */
  lemma {:induction false} StripAllDigitsIff(s: string)
    ensures AllDigits(StripFormatting(s)) <==> forall k :: 0 <= k < |s| ==> IsFormatting(s[k]) || IsDigit(s[k])
  {
    if s != [] {
      StripAllDigitsIff(s[1..]);
      var h := if IsFormatting(s[0]) then [] else [s[0]];
      var r := StripFormatting(s[1..]);
      assert StripFormatting(s) == h + r;
      assert AllDigits(h + r) <==> AllDigits(h) && AllDigits(r) by {
        assert forall k :: 0 <= k < |h| ==> (h + r)[k] == h[k];
        assert forall k :: 0 <= k < |r| ==> (h + r)[|h| + k] == r[k];
        if AllDigits(h) && AllDigits(r) {
          forall k | 0 <= k < |h + r| ensures IsDigit((h + r)[k]) {
            if k >= |h| { assert (h + r)[k] == r[k - |h|]; }
          }
        }
      }
      assert forall k :: 0 <= k < |s| - 1 ==> s[1..][k] == s[k + 1];
      if forall k :: 0 <= k < |s| - 1 ==> IsFormatting(s[1..][k]) || IsDigit(s[1..][k]) {
        assert forall k :: 1 <= k < |s| ==> s[k] == s[1..][k - 1];
      }
    }
  }

  /** Nothing survives stripping exactly when every character is formatting. */
  lemma {:induction false} StripEmptyIff(s: string)
    ensures StripFormatting(s) == [] <==> AllFormatting(s)
  {
    if s != [] {
      StripEmptyIff(s[1..]);
      assert forall k :: 0 <= k < |s| - 1 ==> s[1..][k] == s[k + 1];
      if forall k :: 0 <= k < |s| - 1 ==> IsFormatting(s[1..][k]) {
        assert forall k :: 1 <= k < |s| ==> s[k] == s[1..][k - 1];
      }
    }
  }

  // ---- the mobile pattern ----
  // /^[\+]?[(]?[0-9]{1,4}[)]?[-\s\.]?[(]?[0-9]{1,4}[)]?[-\s\.]?[0-9]{1,9}$/

  /** The character class `[-\s\.]`. */
  predicate IsSeparator(c: char) {
    c == '-' || IsWhitespace(c) || c == '.'
  }

  /** `s[i..j]` matches `c?`: it is empty or the single character `c`. */
  predicate OptionalChar(s: string, i: nat, j: nat, c: char) {
    i <= j <= |s| && (i == j || (j == i + 1 && s[i] == c))
  }

  /** `s[i..j]` matches `[-\s\.]?`. */
  predicate OptionalSeparator(s: string, i: nat, j: nat) {
    i <= j <= |s| && (i == j || (j == i + 1 && IsSeparator(s[i])))
  }

  /** `s[i..j]` matches `[0-9]{1,max}`. */
  predicate DigitRun(s: string, i: nat, j: nat, max: nat) {
    i <= j <= |s| && 1 <= j - i <= max && forall k :: i <= k < j ==> IsDigit(s[k])
  }

  /** One way for `s[i..j]` to match `[(]?[0-9]{1,4}[)]?`: the digits are `s[a..b]`. */
  predicate GroupSplit(s: string, i: nat, a: nat, b: nat, j: nat) {
    OptionalChar(s, i, a, '(') && DigitRun(s, a, b, 4) && OptionalChar(s, b, j, ')')
  }

  /** `s[i..j]` matches `[(]?[0-9]{1,4}[)]?`. */
  predicate Group(s: string, i: nat, j: nat) {
    exists a: nat, b: nat | i <= a <= b <= j :: GroupSplit(s, i, a, b, j)
  }

  /**
   * One way to match the mobile pattern: an optional `+` is `s[..a]`, the two
   * groups are `s[a..b]` and `s[c..d]`, the optional separators `s[b..c]` and
   * `s[d..e]`, and the last run of digits `s[e..]`.
   */
  predicate MobileSplit(s: string, a: nat, b: nat, c: nat, d: nat, e: nat) {
    OptionalChar(s, 0, a, '+') && a <= b && Group(s, a, b) && OptionalSeparator(s, b, c)
    && c <= d && Group(s, c, d) && OptionalSeparator(s, d, e) && DigitRun(s, e, |s|, 9)
  }

  /** `mobileRegex.test(s)`. */
  predicate MobileRegex(s: string) {
    exists a: nat, b: nat, c: nat, d: nat, e: nat | a <= b <= c <= d <= e <= |s| :: MobileSplit(s, a, b, c, d, e)
  }

  /** `window.validateMobile`. */
  function ValidateMobile(mobile: string): (v: Verdict)
    ensures v.Invalid? ==> v.message in {MobileDigitsOnly, MobileLength, MobileMalformed}
  {
    if Trim(mobile) == "" then Valid
    else
      var cleaned := StripFormatting(mobile);
      if cleaned == [] || !AllDigits(cleaned) then Invalid(MobileDigitsOnly)
      else if |cleaned| < 7 || |cleaned| > 15 then Invalid(MobileLength)
      else if !MobileRegex(Trim(mobile)) then Invalid(MobileMalformed)
      else Valid
  }

  /** The only characters a mobile number may hold besides formatting: digits, at least one. */
  predicate DigitsAndFormatting(m: string) {
    (forall k :: 0 <= k < |m| ==> IsFormatting(m[k]) || IsDigit(m[k]))
    && exists k :: 0 <= k < |m| && IsDigit(m[k])
  }

  /** The mobile number is optional: blank input is valid. */
  lemma MobileBlankValid(mobile: string)
    requires AllWhitespace(mobile)
    ensures ValidateMobile(mobile) == Valid
  {
    TrimEmptyIffWhitespace(mobile);
  }

  /** The "only digits" message is given exactly for non-blank input with some other character, or with no digit. */
  lemma MobileDigitsOnlyIff(mobile: string)
    ensures ValidateMobile(mobile) == Invalid(MobileDigitsOnly)
        <==> !AllWhitespace(mobile) && !DigitsAndFormatting(mobile)
  {
    TrimEmptyIffWhitespace(mobile);
    StripAllDigitsIff(mobile);
    StripEmptyIff(mobile);
    var c := StripFormatting(mobile);
    if DigitsAndFormatting(mobile) {
      var k :| 0 <= k < |mobile| && IsDigit(mobile[k]);
      assert !IsFormatting(mobile[k]);
    }
    if c != [] && AllDigits(c) {
      StripDigitWitness(mobile);
    }
  }

  /** A non-empty stripped string comes from some character that is not formatting. */
  lemma {:induction false} StripDigitWitness(s: string)
    requires StripFormatting(s) != [] && AllDigits(StripFormatting(s))
    ensures exists k :: 0 <= k < |s| && IsDigit(s[k])
  {
    if IsFormatting(s[0]) {
      assert StripFormatting(s) == StripFormatting(s[1..]);
      StripDigitWitness(s[1..]);
      var k :| 0 <= k < |s| - 1 && IsDigit(s[1..][k]);
      assert s[k + 1] == s[1..][k];
    } else {
      assert StripFormatting(s)[0] == s[0];
    }
  }

  /** A `.` always gives the "only digits" message, although the pattern allows `.` as a separator. */
  lemma MobileDotRejected(mobile: string, k: nat)
    requires k < |mobile| && mobile[k] == '.'
    ensures ValidateMobile(mobile) == Invalid(MobileDigitsOnly)
  {
    MobileDigitsOnlyIff(mobile);
    assert !IsWhitespace(mobile[k]);
  }

  /** The length message: digits and formatting only, but fewer than 7 or more than 15 digits. */
  lemma MobileLengthIff(mobile: string)
    ensures ValidateMobile(mobile) == Invalid(MobileLength)
        <==> !AllWhitespace(mobile) && DigitsAndFormatting(mobile)
             && (|StripFormatting(mobile)| < 7 || |StripFormatting(mobile)| > 15)
  {
    MobileDigitsOnlyIff(mobile);
    TrimEmptyIffWhitespace(mobile);
  }

  /** A non-blank number is accepted exactly when it has 7 to 15 digits, no other characters, and its trimmed form matches the pattern. */
  lemma MobileValidIff(mobile: string)
    ensures ValidateMobile(mobile) == Valid
        <==> AllWhitespace(mobile)
             || (DigitsAndFormatting(mobile) && 7 <= |StripFormatting(mobile)| <= 15 && MobileRegex(Trim(mobile)))
  {
    MobileDigitsOnlyIff(mobile);
    TrimEmptyIffWhitespace(mobile);
  }

  // ---- the structure of the mobile pattern ----

  /** A group holds only parentheses and digits. */
  lemma GroupChars(s: string, i: nat, j: nat, k: nat)
    requires Group(s, i, j) && i <= k < j
    ensures s[k] == '(' || s[k] == ')' || IsDigit(s[k])
  {
  }

  /** A group made of digits alone is 1 to 4 digits long. */
  lemma GroupOfDigits(s: string, i: nat, j: nat)
    requires i <= j <= |s| && forall k :: i <= k < j ==> IsDigit(s[k])
    ensures Group(s, i, j) <==> 1 <= j - i <= 4
  {
    if 1 <= j - i <= 4 {
      assert GroupSplit(s, i, i, j, j);
    }
  }

  /** In a match, a separator character can only be one of the two optional separators. */
  lemma SeparatorAt(s: string, a: nat, b: nat, c: nat, d: nat, e: nat, k: nat)
    requires MobileSplit(s, a, b, c, d, e) && k < |s| && IsSeparator(s[k])
    ensures (k == b && c == b + 1) || (k == d && e == d + 1)
  {
    if a <= k < b {
      GroupChars(s, a, b, k);
    } else if c <= k < d {
      GroupChars(s, c, d, k);
    }
  }

  /** A match of the mobile pattern, chosen. */
  lemma PickMobileSplit(s: string) returns (a: nat, b: nat, c: nat, d: nat, e: nat)
    requires MobileRegex(s)
    ensures MobileSplit(s, a, b, c, d, e)
  {
    a, b, c, d, e :| MobileSplit(s, a, b, c, d, e);
  }

  /** No string with three separator characters matches the pattern. */
  lemma ThreeSeparatorsRejected(s: string, k1: nat, k2: nat, k3: nat)
    requires k1 < k2 < k3 < |s| && IsSeparator(s[k1]) && IsSeparator(s[k2]) && IsSeparator(s[k3])
    ensures !MobileRegex(s)
  {
    if MobileRegex(s) {
      var a, b, c, d, e := PickMobileSplit(s);
      SeparatorAt(s, a, b, c, d, e, k1);
      SeparatorAt(s, a, b, c, d, e, k2);
      SeparatorAt(s, a, b, c, d, e, k3);
      assert false;
    }
  }

  /** In a match, what lies between two separator characters is a group. */
  lemma SeparatorsFrameGroup(s: string, p: nat, q: nat)
    requires MobileRegex(s) && p < q < |s| && IsSeparator(s[p]) && IsSeparator(s[q])
    ensures Group(s, p + 1, q)
  {
    var a, b, c, d, e := PickMobileSplit(s);
    SeparatorAt(s, a, b, c, d, e, p);
    SeparatorAt(s, a, b, c, d, e, q);
  }

  /** No string in which two separator characters enclose more than four digits matches the pattern. */
  lemma LongFramedRunRejected(s: string, p: nat, q: nat)
    requires p < q < |s| && IsSeparator(s[p]) && IsSeparator(s[q]) && q - p > 5
    requires forall k :: p < k < q ==> IsDigit(s[k])
    ensures !MobileRegex(s)
  {
    if MobileRegex(s) {
      SeparatorsFrameGroup(s, p, q);
      GroupOfDigits(s, p + 1, q);
      assert false;
    }
  }

  // ---- the examples of the source's comment ----

  /** A trimmed number whose digits pass both digit checks is accepted exactly when it matches the pattern. */
  lemma VerdictOfTrimmedNumber(m: string)
    requires m != [] && !IsWhitespace(m[0]) && !IsWhitespace(m[|m| - 1])
    requires AllDigits(StripFormatting(m)) && 7 <= |StripFormatting(m)| <= 15
    ensures ValidateMobile(m) == (if MobileRegex(m) then Valid else Invalid(MobileMalformed))
  {
    TrimOfTrimmed(m);
  }

  lemma StrippedParenthesised(m: string)
    requires m == "(123) 456-7890"
    ensures AllDigits(StripFormatting(m)) && |StripFormatting(m)| == 10
  {
    assert m == "(" + "123" + ") " + "456" + "-" + "7890" + "" + "";
    StripGroups("(", "123", ") ", "456", "-", "7890", "", "");
  }

  lemma AcceptsParenthesised(m: string)
    requires m == "(123) 456-7890"
    ensures ValidateMobile(m) == Valid
  {
    StrippedParenthesised(m);
    assert GroupSplit(m, 0, 1, 4, 5);
    assert GroupSplit(m, 6, 6, 9, 9);
    assert MobileSplit(m, 0, 5, 6, 9, 10);
    VerdictOfTrimmedNumber(m);
  }

  lemma StrippedDashed(m: string)
    requires m == "123-456-7890"
    ensures AllDigits(StripFormatting(m)) && |StripFormatting(m)| == 10
  {
    assert m == "" + "123" + "-" + "456" + "-" + "7890" + "" + "";
    StripGroups("", "123", "-", "456", "-", "7890", "", "");
  }

  lemma AcceptsDashed(m: string)
    requires m == "123-456-7890"
    ensures ValidateMobile(m) == Valid
  {
    StrippedDashed(m);
    assert GroupSplit(m, 0, 0, 3, 3);
    assert GroupSplit(m, 4, 4, 7, 7);
    assert MobileSplit(m, 0, 3, 4, 7, 8);
    VerdictOfTrimmedNumber(m);
  }

  lemma AcceptsPlain(m: string)
    requires m == "1234567890"
    ensures ValidateMobile(m) == Valid
  {
    StripDigits(m);
    assert GroupSplit(m, 0, 0, 4, 4);
    assert GroupSplit(m, 4, 4, 8, 8);
    assert MobileSplit(m, 0, 4, 4, 8, 8);
    VerdictOfTrimmedNumber(m);
  }

  lemma StrippedSpacedInternational(m: string)
    requires m == "+1 234 567 8900"
    ensures AllDigits(StripFormatting(m)) && |StripFormatting(m)| == 11
  {
    assert m == "+" + "1" + " " + "234" + " " + "567" + " " + "8900";
    StripGroups("+", "1", " ", "234", " ", "567", " ", "8900");
  }

  /** The comment's first example passes the digit checks but not the pattern: it has three separators. */
  lemma RejectsSpacedInternational(m: string)
    requires m == "+1 234 567 8900"
    ensures ValidateMobile(m) == Invalid(MobileMalformed)
  {
    StrippedSpacedInternational(m);
    assert IsSeparator(m[2]) && IsSeparator(m[6]) && IsSeparator(m[10]);
    ThreeSeparatorsRejected(m, 2, 6, 10);
    VerdictOfTrimmedNumber(m);
  }

  lemma StrippedFiveDigitGroup(m: string)
    requires m == "+91 98765 43210"
    ensures AllDigits(StripFormatting(m)) && |StripFormatting(m)| == 12
  {
    assert m == "+" + "91" + " " + "98765" + " " + "43210" + "" + "";
    StripGroups("+", "91", " ", "98765", " ", "43210", "", "");
  }

  /** The comment's second example passes the digit checks but not the pattern: its middle group has five digits. */
  lemma RejectsFiveDigitGroup(m: string)
    requires m == "+91 98765 43210"
    ensures ValidateMobile(m) == Invalid(MobileMalformed)
  {
    StrippedFiveDigitGroup(m);
    assert IsSeparator(m[3]) && IsSeparator(m[9]);
    assert forall k :: 3 < k < 9 ==> IsDigit(m[k]);
    LongFramedRunRejected(m, 3, 9);
    VerdictOfTrimmedNumber(m);
  }
}
