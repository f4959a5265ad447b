/**
 * Document identities. Each stored record has an ObjectId; request paths and
 * bodies carry them as strings, which the document store casts back, failing
 * on strings that are not 24 hexadecimal digits.
 */
module ObjectIds {
  import opened JsValues

  /** A 12-byte ObjectId, as the number its 24 hexadecimal digits spell. */
  datatype ObjectId = ObjectId(n: nat)

  const IdDigits: nat := 24

  function Pow16(k: nat): (r: nat)
    ensures r >= 1
  {
    if k == 0 then 1 else 16 * Pow16(k - 1)
  }

  /** The ObjectIds that have a 24-digit string form. */
  predicate Representable(id: ObjectId) {
    id.n < Pow16(IdDigits)
  }

  predicate IsHexDigit(c: char) {
    '0' <= c <= '9' || 'a' <= c <= 'f' || 'A' <= c <= 'F'
  }

  function HexDigitValue(c: char): (v: nat)
    requires IsHexDigit(c)
    ensures v < 16
  {
    if '0' <= c <= '9' then c as int - '0' as int
    else if 'a' <= c <= 'f' then c as int - 'a' as int + 10
    else c as int - 'A' as int + 10
  }

  /** The lowercase hexadecimal digit for `v`. */
  function HexDigit(v: nat): (c: char)
    requires v < 16
    ensures IsHexDigit(c) && HexDigitValue(c) == v && LowerChar(c) == c
  {
    if v < 10 then ('0' as int + v) as char else ('a' as int + v - 10) as char
  }

  predicate AllHex(s: string) {
    forall i :: 0 <= i < |s| ==> IsHexDigit(s[i])
  }

  /**
   * `mongoose.Types.ObjectId.isValid` on a string, and the strings that the
   * store casts to an ObjectId: 24 hexadecimal digits, in either case.
   */
  predicate IsObjectIdString(s: string) {
    |s| == IdDigits && AllHex(s)
  }

  /** The number that a string of hexadecimal digits spells, most significant first. */
  function HexValue(s: string): (v: nat)
    requires AllHex(s)
    ensures v < Pow16(|s|)
  {
    if s == [] then 0 else 16 * HexValue(s[..|s| - 1]) + HexDigitValue(s[|s| - 1])
  }

  /** `n` written with `width` lowercase hexadecimal digits (its lowest digits when it does not fit). */
  function HexString(n: nat, width: nat): (s: string)
    ensures |s| == width && AllHex(s) && Lower(s) == s
  {
    if width == 0 then [] else
      var s := HexString(n / 16, width - 1) + [HexDigit(n % 16)];
      assert forall i :: 0 <= i < |s| - 1 ==> s[i] == HexString(n / 16, width - 1)[i];
      s
  }

  /** Casting a request string to an ObjectId, as `findById`, queries and references do. */
  function ParseObjectId(s: string): (r: Option<ObjectId>)
    ensures r.Some? <==> IsObjectIdString(s)
    ensures r.Some? ==> Representable(r.value)
  {
    if IsObjectIdString(s) then Some(ObjectId(HexValue(s))) else None
  }

  /** `ObjectId.prototype.toString`: 24 lowercase hexadecimal digits. */
  function ObjectIdString(id: ObjectId): (s: string)
    requires Representable(id)
    ensures IsObjectIdString(s) && Lower(s) == s
  {
    HexString(id.n, IdDigits)
  }

  lemma {:induction false} HexValueOfHexString(n: nat, width: nat)
    requires n < Pow16(width)
    ensures HexValue(HexString(n, width)) == n
  {
    if width > 0 {
      var s := HexString(n, width);
      assert s[..|s| - 1] == HexString(n / 16, width - 1);
      HexValueOfHexString(n / 16, width - 1);
    }
  }

  lemma HexDigitOfValue(c: char)
    requires IsHexDigit(c)
    ensures HexDigit(HexDigitValue(c)) == LowerChar(c)
  {
  }

  lemma {:induction false} HexStringOfHexValue(s: string)
    requires AllHex(s)
    ensures HexString(HexValue(s), |s|) == Lower(s)
  {
    if s != [] {
      var p := s[..|s| - 1];
      HexStringOfHexValue(p);
      var v := HexValue(s);
      assert v / 16 == HexValue(p) && v % 16 == HexDigitValue(s[|s| - 1]);
      HexDigitOfValue(s[|s| - 1]);
      assert Lower(s) == Lower(p) + [LowerChar(s[|s| - 1])];
    }
  }

  /** Printing an id and casting the string back gives the same id. */
  lemma ParsePrinted(id: ObjectId)
    requires Representable(id)
    ensures ParseObjectId(ObjectIdString(id)) == Some(id)
  {
    HexValueOfHexString(id.n, IdDigits);
  }

  /** Casting a valid id string and printing it gives the string back, in lowercase. */
  lemma PrintParsed(s: string)
    requires IsObjectIdString(s)
    ensures ObjectIdString(ParseObjectId(s).value) == Lower(s)
  {
    HexStringOfHexValue(s);
  }

  /** Two id strings name the same document exactly when they agree up to the case of their letters. */
  lemma SameIdIffSameLowercase(s: string, t: string)
    requires IsObjectIdString(s) && IsObjectIdString(t)
    ensures ParseObjectId(s) == ParseObjectId(t) <==> Lower(s) == Lower(t)
  {
    PrintParsed(s);
    PrintParsed(t);
    ParsePrinted(ParseObjectId(s).value);
    ParsePrinted(ParseObjectId(t).value);
  }
}
