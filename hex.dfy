/** Rendering of a SHA-1 digest as text: `hexdigest()` followed by `upper()`. */
module Hex {
  import opened Outcomes

  type Byte = b: int | 0 <= b < 256

  const LowerDigits := "0123456789abcdef"
  const UpperDigits := "0123456789ABCDEF"

  predicate IsUpperHexChar(c: char) { '0' <= c <= '9' || 'A' <= c <= 'F' }

  /** `hexdigest()`: two lowercase hex digits per byte, high nibble first. */
  function HexDigest(bytes: seq<Byte>): (h: string)
    ensures |h| == 2 * |bytes|
  {
    if bytes == [] then ""
    else [LowerDigits[bytes[0] / 16], LowerDigits[bytes[0] % 16]] + HexDigest(bytes[1..])
  }

  /** `str.upper()` on one character; only ASCII letters occur in a hex digest. */
  function UpperChar(c: char): char
  {
    if 'a' <= c <= 'z' then (c as int - 32) as char else c
  }

  function ToUpper(s: string): (u: string)
    ensures |u| == |s|
    ensures forall i :: 0 <= i < |s| && 'a' <= s[i] <= 'z' ==> 'A' <= u[i] <= 'Z'
    ensures forall i :: 0 <= i < |s| && !('a' <= s[i] <= 'z') ==> u[i] == s[i]
  {
    seq(|s|, i requires 0 <= i < |s| => UpperChar(s[i]))
  }

  /** The value of one uppercase hex digit. */
  function DigitValue(c: char): (v: int)
    requires IsUpperHexChar(c)
    ensures 0 <= v < 16 && UpperDigits[v] == c
  {
    if c <= '9' then c as int - '0' as int else c as int - 'A' as int + 10
  }

  /** Reads uppercase hex text back into bytes; odd length or a non-digit is refused. */
  function ParseHex(h: string): (r: Option<seq<Byte>>)
    ensures r.Some? ==> 2 * |r.value| == |h|
  {
    if h == [] then Some([])
    else if |h| < 2 || !IsUpperHexChar(h[0]) || !IsUpperHexChar(h[1]) then None
    else match ParseHex(h[2..])
      case None => None
      case Some(rest) => Some([DigitValue(h[0]) * 16 + DigitValue(h[1])] + rest)
  }

  /** The rendered digest is uppercase hex, two characters per byte. */
  lemma {:induction false} UpperHexShape(bytes: seq<Byte>)
    ensures |ToUpper(HexDigest(bytes))| == 2 * |bytes|
    ensures forall i :: 0 <= i < 2 * |bytes| ==> IsUpperHexChar(ToUpper(HexDigest(bytes))[i])
  {
    if bytes != [] {
      var hi, lo := bytes[0] / 16, bytes[0] % 16;
      var t := HexDigest(bytes[1..]);
      UpperHexShape(bytes[1..]);
      assert HexDigest(bytes) == [LowerDigits[hi], LowerDigits[lo]] + t;
      ToUpperPair(LowerDigits[hi], LowerDigits[lo], t);
      UpperDigit(hi);
      UpperDigit(lo);
      var u := ToUpper(HexDigest(bytes));
      assert u == [UpperDigits[hi], UpperDigits[lo]] + ToUpper(t);
      forall i | 0 <= i < 2 * |bytes|
        ensures IsUpperHexChar(u[i])
      {
        if i >= 2 {
          assert u[i] == ToUpper(t)[i - 2];
        }
      }
    }
  }

  /** Upper-casing one rendered digit gives the uppercase digit, which reads back as its value. */
  lemma UpperDigit(k: int)
    requires 0 <= k < 16
    ensures UpperChar(LowerDigits[k]) == UpperDigits[k]
    ensures IsUpperHexChar(UpperDigits[k]) && DigitValue(UpperDigits[k]) == k
  {
  }

  /** Upper-casing works character by character. */
  lemma ToUpperPair(c: char, d: char, s: string)
    ensures ToUpper([c, d] + s) == [UpperChar(c), UpperChar(d)] + ToUpper(s)
  {
  }

  /** Rendering loses nothing: the bytes can be read back from the text. */
  lemma {:induction false} HexRoundTrip(bytes: seq<Byte>)
    ensures ParseHex(ToUpper(HexDigest(bytes))) == Some(bytes)
  {
    if bytes != [] {
      var b := bytes[0];
      var hi, lo := b / 16, b % 16;
      var u := ToUpper(HexDigest(bytes));
      var t := ToUpper(HexDigest(bytes[1..]));
      assert HexDigest(bytes) == [LowerDigits[hi], LowerDigits[lo]] + HexDigest(bytes[1..]);
      ToUpperPair(LowerDigits[hi], LowerDigits[lo], HexDigest(bytes[1..]));
      UpperDigit(hi);
      UpperDigit(lo);
      assert u == [UpperDigits[hi], UpperDigits[lo]] + t;
      assert u[0] == UpperDigits[hi] && u[1] == UpperDigits[lo] && u[2..] == t;
      HexRoundTrip(bytes[1..]);
      assert ParseHex(u) == Some([hi * 16 + lo] + bytes[1..]);
      assert [b] + bytes[1..] == bytes;
    }
  }
}
