/** The encoding/hex functions the decoder uses. */
module Hex {
  import opened Wrappers

  type byte = b: int | 0 <= b < 256

  predicate IsHexDigit(c: char) {
    '0' <= c <= '9' || 'a' <= c <= 'f' || 'A' <= c <= 'F'
  }

  function DigitValue(c: char): (v: nat)
    requires IsHexDigit(c)
    ensures v < 16
  {
    if c <= '9' then (c - '0') as int
    else if c <= 'F' then (c - 'A') as int + 10
    else (c - 'a') as int + 10
  }

  function HexDigit(v: nat): (c: char)
    requires v < 16
    ensures IsHexDigit(c) && DigitValue(c) == v && !('A' <= c <= 'Z')
  {
    if v < 10 then '0' + v as char else 'a' + (v - 10) as char
  }

  /** hex.EncodeToString. */
  function Encode(bytes: seq<byte>): (s: string)
    ensures |s| == 2 * |bytes|
  {
    if bytes == [] then []
    else [HexDigit(bytes[0] / 16), HexDigit(bytes[0] % 16)] + Encode(bytes[1..])
  }

  lemma {:induction false} EncodedDigits(bytes: seq<byte>)
    ensures forall c | c in Encode(bytes) :: IsHexDigit(c) && !('A' <= c <= 'Z')
  {
    if bytes != [] {
      EncodedDigits(bytes[1..]);
    }
  }

  /** hex.DecodeString: either case, and an even number of digits. */
  function Decode(s: string): Option<seq<byte>> {
    if s == [] then Some([])
    else if |s| == 1 || !IsHexDigit(s[0]) || !IsHexDigit(s[1]) then None
    else
      match Decode(s[2..])
      case None => None
      case Some(rest) => Some([16 * DigitValue(s[0]) + DigitValue(s[1])] + rest)
  }

  lemma {:induction false} DecodeEncode(bytes: seq<byte>)
    ensures Decode(Encode(bytes)) == Some(bytes)
  {
    if bytes != [] {
      DecodeEncode(bytes[1..]);
      assert Encode(bytes)[2..] == Encode(bytes[1..]);
      assert bytes == [bytes[0]] + bytes[1..];
    }
  }

  lemma {:induction false} DecodedDigits(s: string)
    requires Decode(s).Some?
    ensures forall c | c in s :: IsHexDigit(c)
  {
    if s != [] {
      DecodedDigits(s[2..]);
      assert s == [s[0], s[1]] + s[2..];
    }
  }

  /** Case does not change what is decoded. */
  lemma {:induction false} DecodeIgnoresCase(s: string, t: string)
    requires |s| == |t|
    requires forall i | 0 <= i < |s| :: IsHexDigit(s[i]) && IsHexDigit(t[i]) && DigitValue(s[i]) == DigitValue(t[i])
    ensures Decode(s) == Decode(t)
  {
    if |s| > 1 {
      DecodeIgnoresCase(s[2..], t[2..]);
    }
  }

  lemma {:induction false} EncodeConcat(a: seq<byte>, b: seq<byte>)
    ensures Encode(a + b) == Encode(a) + Encode(b)
  {
    if a == [] {
      assert a + b == b;
    } else {
      assert (a + b)[1..] == a[1..] + b;
      EncodeConcat(a[1..], b);
    }
  }

  // ----- What the texts are -----

  const DIGITS := "0123456789abcdef"

  /** Two digits a byte, the more significant one first. */
  lemma {:induction false} EncodedDigit(bytes: seq<byte>, i: nat)
    requires i < |bytes|
    ensures Encode(bytes)[2 * i] == DIGITS[bytes[i] / 16]
    ensures Encode(bytes)[2 * i + 1] == DIGITS[bytes[i] % 16]
  {
    if i == 0 {
      DigitIs(bytes[0] / 16);
      DigitIs(bytes[0] % 16);
    } else {
      EncodedDigit(bytes[1..], i - 1);
      var head := [HexDigit(bytes[0] / 16), HexDigit(bytes[0] % 16)];
      assert Encode(bytes) == head + Encode(bytes[1..]);
    }
  }

  lemma DigitIs(v: nat)
    requires v < 16
    ensures HexDigit(v) == DIGITS[v]
  {
  }

  /** A digit in either case stands for its place among the sixteen. */
  predicate Means(c: char, v: nat) {
    v < 16 && (c == DIGITS[v] || c == "0123456789ABCDEF"[v])
  }

  lemma DigitMeans(c: char, v: nat)
    ensures Means(c, v) <==> IsHexDigit(c) && DigitValue(c) == v
  {
  }

  /** Exactly the texts of two digits a byte decode to the bytes. */
  lemma {:induction false} DecodesTo(s: string, bytes: seq<byte>)
    ensures Decode(s) == Some(bytes) <==>
            |s| == 2 * |bytes| && AllMean(s, bytes)
  {
    if s != [] && |s| > 1 && bytes != [] {
      DecodesTo(s[2..], bytes[1..]);
      DigitMeans(s[0], bytes[0] / 16);
      DigitMeans(s[1], bytes[0] % 16);
      if |s| == 2 * |bytes| {
        DecodesTail(s, bytes);
      }
      if Decode(s) == Some(bytes) {
        assert bytes == [16 * DigitValue(s[0]) + DigitValue(s[1])] + bytes[1..];
      }
      assert bytes == [bytes[0]] + bytes[1..];
    }
  }

  ghost predicate AllMean(s: string, bytes: seq<byte>)
    requires |s| == 2 * |bytes|
  {
    forall i | 0 <= i < |bytes| :: Means(s[2 * i], bytes[i] / 16) && Means(s[2 * i + 1], bytes[i] % 16)
  }

  lemma DecodesTail(s: string, bytes: seq<byte>)
    requires bytes != [] && |s| == 2 * |bytes|
    ensures AllMean(s, bytes) <==>
            Means(s[0], bytes[0] / 16) && Means(s[1], bytes[0] % 16) && AllMean(s[2..], bytes[1..])
  {
    if Means(s[0], bytes[0] / 16) && Means(s[1], bytes[0] % 16) && AllMean(s[2..], bytes[1..]) {
      forall i | 0 <= i < |bytes| ensures Means(s[2 * i], bytes[i] / 16) && Means(s[2 * i + 1], bytes[i] % 16) {
        if i > 0 {
          assert s[2..][2 * (i - 1)] == s[2 * i] && s[2..][2 * (i - 1) + 1] == s[2 * i + 1];
        }
      }
    }
    if AllMean(s, bytes) {
      forall i | 0 <= i < |bytes| - 1
        ensures Means(s[2..][2 * i], bytes[1..][i] / 16) && Means(s[2..][2 * i + 1], bytes[1..][i] % 16)
      {
        assert s[2..][2 * i] == s[2 * (i + 1)] && s[2..][2 * i + 1] == s[2 * (i + 1) + 1];
      }
    }
  }
}
