/**
 * MongoDB ObjectIds as the booking action and the booking hook use them: the 12-byte identifier behind
 * every `_id` and behind `Booking.eventId`, read from a string by
 * `new Types.ObjectId(s)` and printed (in template literals) as 24 lower-case
 * hexadecimal digits.
 */
module ObjectIds {
  import opened Wrappers
  import opened Text

  function Pow16(k: nat): (p: nat)
    ensures p >= 1
  {
    if k == 0 then 1 else 16 * Pow16(k - 1)
  }

  /** Number of hexadecimal digits of an ObjectId (12 bytes). */
  const HexWidth: nat := 24

  /** An ObjectId is a 96-bit number. */
  type ObjectId = n: nat | n < Pow16(HexWidth)

  /** The message of the error `new ObjectId(s)` throws for a string it cannot read. */
  const MalformedIdMessage := "input must be a 24 character hex string, 12 byte Uint8Array, or an integer"

  predicate IsHexDigit(c: char) {
    '0' <= c <= '9' || 'a' <= c <= 'f' || 'A' <= c <= 'F'
  }

  predicate AllHex(s: string) {
    forall i :: 0 <= i < |s| ==> IsHexDigit(s[i])
  }

  function HexDigitValue(c: char): (d: nat)
    requires IsHexDigit(c)
    ensures d < 16
  {
    if '0' <= c <= '9' then c as int - '0' as int
    else if 'a' <= c <= 'f' then c as int - 'a' as int + 10
    else c as int - 'A' as int + 10
  }

  /** The lower-case digit for `d`. */
  function HexDigitChar(d: nat): (c: char)
    requires d < 16
    ensures IsHexDigit(c) && HexDigitValue(c) == d && !IsUpper(c)
  {
    if d < 10 then ('0' as int + d) as char else ('a' as int + d - 10) as char
  }

  /** The number a string of hexadecimal digits denotes (most significant first). */
  function HexNumber(s: string): (n: nat)
    requires AllHex(s)
    ensures n < Pow16(|s|)
    decreases |s|
  {
    if s == [] then 0
    else
      var p := s[..|s| - 1];
      HexNumber(p) * 16 + HexDigitValue(s[|s| - 1])
  }

  /** The `w` lowest hexadecimal digits of `n`, lower case, zero-padded. */
  function HexDigits(n: nat, w: nat): (r: string)
    ensures |r| == w && AllHex(r)
    ensures forall i :: 0 <= i < |r| ==> !IsUpper(r[i])
  {
    if w == 0 then [] else HexDigits(n / 16, w - 1) + [HexDigitChar(n % 16)]
  }

  /** `id.toHexString()`, which is also `id.toString()`. */
  function IdText(id: ObjectId): (s: string)
    ensures |s| == HexWidth && AllHex(s)
  {
    HexDigits(id, HexWidth)
  }

  /**
   * `new Types.ObjectId(s)` for a string `s`: exactly 24 hexadecimal digits
   * of either case are accepted; anything else throws.
   */
  function ParseObjectId(s: string): (r: Result<ObjectId, string>)
    ensures r.Err? <==> !(|s| == HexWidth && AllHex(s))
    ensures r.Err? ==> r.error == MalformedIdMessage
  {
    if |s| == HexWidth && AllHex(s) then Ok(HexNumber(s)) else Err(MalformedIdMessage)
  }

  // ---- round trips ----

  /** Printing `n` on `w` digits and reading it back gives `n`. */
  lemma {:induction false} HexDigitsReadBack(n: nat, w: nat)
    requires n < Pow16(w)
    ensures HexNumber(HexDigits(n, w)) == n
  {
    if w > 0 {
      var r := HexDigits(n, w);
      assert n / 16 < Pow16(w - 1);
      HexDigitsReadBack(n / 16, w - 1);
      assert r[..|r| - 1] == HexDigits(n / 16, w - 1);
    }
  }

  lemma HexDigitCharOfValue(c: char)
    requires IsHexDigit(c)
    ensures HexDigitChar(HexDigitValue(c)) == LowerChar(c)
  {
  }

  /** Reading digits and printing the number back on as many digits gives the digits in lower case. */
  lemma {:induction false} HexNumberPrintsBack(s: string)
    requires AllHex(s)
    ensures HexDigits(HexNumber(s), |s|) == Lower(s)
    decreases |s|
  {
    if s != [] {
      var p := s[..|s| - 1];
      var c := s[|s| - 1];
      var n := HexNumber(s);
      assert n / 16 == HexNumber(p) && n % 16 == HexDigitValue(c);
      HexNumberPrintsBack(p);
      HexDigitCharOfValue(c);
      var r := HexDigits(n, |s|);
      assert r == Lower(p) + [LowerChar(c)];
      forall i | 0 <= i < |s| ensures r[i] == Lower(s)[i] {
        if i < |p| {
          assert r[i] == Lower(p)[i] == LowerChar(p[i]);
        }
      }
    }
  }

  /** Every ObjectId survives printing and parsing. */
  lemma ParsePrintedId(id: ObjectId)
    ensures ParseObjectId(IdText(id)) == Ok(id)
  {
    HexDigitsReadBack(id, HexWidth);
  }

  /** A parsed id prints back as the input string in lower case. */
  lemma PrintParsedId(s: string)
    requires ParseObjectId(s).Ok?
    ensures IdText(ParseObjectId(s).value) == Lower(s)
  {
    HexNumberPrintsBack(s);
  }

  /** Two strings name the same ObjectId exactly when they agree up to letter case. */
  lemma ParseIgnoresCase(s: string, t: string)
    requires ParseObjectId(s).Ok? && ParseObjectId(t).Ok?
    ensures ParseObjectId(s) == ParseObjectId(t) <==> Lower(s) == Lower(t)
  {
    PrintParsedId(s);
    PrintParsedId(t);
    var a, b := ParseObjectId(s).value, ParseObjectId(t).value;
    HexDigitsReadBack(a, HexWidth);
    HexDigitsReadBack(b, HexWidth);
  }
}
