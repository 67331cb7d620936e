/**
 * Hexadecimal text <-> bytes, as the transaction code uses `unhexlify` and
 * `hexlify` from bpl_lib/helpers/Util. That module is not part of this model;
 * these definitions are the assumed behaviour: pairs of hex digits of either
 * case decode to one byte each, anything else (an odd length, a non-hex
 * character) fails, and encoding writes lower-case digits.
 */
module Hex {
  import opened Wrappers
  import opened ByteBuffer

  /** The value of one hexadecimal digit, or None for any other character. */
  function DigitValue(c: char): (r: Option<nat>)
    ensures r.Some? <==> ('0' <= c <= '9' || 'a' <= c <= 'f' || 'A' <= c <= 'F')
    ensures r.Some? ==> r.value < 16
  {
    if '0' <= c <= '9' then Some(c as int - '0' as int)
    else if 'a' <= c <= 'f' then Some(c as int - 'a' as int + 10)
    else if 'A' <= c <= 'F' then Some(c as int - 'A' as int + 10)
    else None
  }

  /** The lower-case digit for a value below 16. */
  function Digit(n: nat): (c: char)
    requires n < 16
    ensures DigitValue(c) == Some(n)
    ensures !('A' <= c <= 'F')
  {
    if n < 10 then ('0' as int + n) as char else ('a' as int + n - 10) as char
  }

  predicate IsHexText(s: string) {
    |s| % 2 == 0 && forall i :: 0 <= i < |s| ==> DigitValue(s[i]).Some?
  }

  /** Decodes hex text to bytes; fails on odd length or a non-hex character. */
  function Unhexlify(s: string): (r: Option<seq<byte>>)
    ensures r.Some? <==> IsHexText(s)
    ensures r.Some? ==> 2 * |r.value| == |s|
    decreases |s|
  {
    if |s| == 0 then Some([])
    else if |s| == 1 then None
    else
      HexTextStep(s);
      match (DigitValue(s[0]), DigitValue(s[1]), Unhexlify(s[2..]))
      case (Some(hi), Some(lo), Some(rest)) => Some([(16 * hi + lo) as byte] + rest)
      case _ => None
  }

  /** Hex text is two hex digits followed by hex text. */
  lemma HexTextStep(s: string)
    requires |s| >= 2
    ensures IsHexText(s) <==> DigitValue(s[0]).Some? && DigitValue(s[1]).Some? && IsHexText(s[2..])
  {
    if DigitValue(s[0]).Some? && DigitValue(s[1]).Some? && IsHexText(s[2..]) {
      forall i | 0 <= i < |s| ensures DigitValue(s[i]).Some? {
        if i >= 2 { assert s[i] == s[2..][i - 2]; }
      }
    }
  }

  /** Encodes bytes as lower-case hex text, two digits per byte. */
  function Hexlify(b: seq<byte>): (s: string)
    ensures |s| == 2 * |b|
  {
    if b == [] then ""
    else [Digit(b[0] as nat / 16), Digit(b[0] as nat % 16)] + Hexlify(b[1..])
  }

  /** Decoding what `Hexlify` wrote gives the bytes back. */
  lemma {:induction false} UnhexlifyHexlify(b: seq<byte>)
    ensures Unhexlify(Hexlify(b)) == Some(b)
  {
    if b != [] {
      UnhexlifyHexlify(b[1..]);
      var s := Hexlify(b);
      assert s[2..] == Hexlify(b[1..]);
      assert (16 * (b[0] as nat / 16) + b[0] as nat % 16) as byte == b[0];
      assert b == [b[0]] + b[1..];
    }
  }

  /** `c` with an upper-case hex letter turned to lower case. */
  function LowerDigit(c: char): char {
    if 'A' <= c <= 'F' then (c as int - 'A' as int + 'a' as int) as char else c
  }

  lemma DigitOfValue(c: char)
    requires DigitValue(c).Some?
    ensures Digit(DigitValue(c).value) == LowerDigit(c)
  {
  }

  /** `s` with upper-case hex letters turned to lower case. */
  function LowerHex(s: string): (t: string)
    ensures |t| == |s|
  {
    if s == [] then "" else [LowerDigit(s[0])] + LowerHex(s[1..])
  }

  /** Re-encoding decoded hex text gives the text back, in lower case. */
  lemma {:induction false} HexlifyUnhexlify(s: string)
    requires Unhexlify(s).Some?
    ensures Hexlify(Unhexlify(s).value) == LowerHex(s)
  {
    if s != [] {
      HexTextStep(s);
      HexlifyUnhexlify(s[2..]);
      var b := Unhexlify(s).value;
      var hi, lo := DigitValue(s[0]).value, DigitValue(s[1]).value;
      assert b[0] as nat == 16 * hi + lo;
      assert b[0] as nat / 16 == hi && b[0] as nat % 16 == lo;
      DigitOfValue(s[0]);
      DigitOfValue(s[1]);
      assert b[1..] == Unhexlify(s[2..]).value;
      assert s[1..][1..] == s[2..];
      assert LowerHex(s) == [LowerDigit(s[0]), LowerDigit(s[1])] + LowerHex(s[2..]);
    }
  }
}
