/** Hexadecimal text for byte strings: the lower-case encoding used for the
    token digest in blacklist keys and for UUID text, and the decoding that
    accepts either case, as UUID parsing does. */
module Hex {
  import opened Common

  /** The hexadecimal digit for 0 <= n < 16, lower case. */
  function Digit(n: nat): (c: char)
    requires n < 16
    ensures IsLowerHex(c)
  {
    if n < 10 then ('0' as int + n) as char else ('a' as int + n - 10) as char
  }

  predicate IsLowerHex(c: char) {
    ('0' <= c <= '9') || ('a' <= c <= 'f')
  }

  /** The value of a hexadecimal digit of either case. */
  function DigitValue(c: char): (v: Option<nat>)
    ensures v.Some? ==> v.value < 16
    ensures IsLowerHex(c) ==> v.Some?
  {
    if '0' <= c <= '9' then Some(c as int - '0' as int)
    else if 'a' <= c <= 'f' then Some(c as int - 'a' as int + 10)
    else if 'A' <= c <= 'F' then Some(c as int - 'A' as int + 10)
    else None
  }

  lemma DigitValueOfDigit(n: nat)
    requires n < 16
    ensures DigitValue(Digit(n)) == Some(n)
  {
  }

  /** Two lower-case digits per byte, high nibble first. */
  function Encode(bs: seq<bv8>): (s: string)
    ensures |s| == 2 * |bs|
    ensures forall i :: 0 <= i < |s| ==> IsLowerHex(s[i])
  {
    if bs == [] then [] else [Digit(bs[0] as int / 16), Digit(bs[0] as int % 16)] + Encode(bs[1..])
  }

  /** Inverse of Encode; None on odd length or a non-hex character. */
  function Decode(s: string): (r: Option<seq<bv8>>)
    ensures r.Some? ==> |s| == 2 * |r.value|
  {
    if s == [] then Some([])
    else if |s| < 2 then None
    else match (DigitValue(s[0]), DigitValue(s[1]), Decode(s[2..]))
      case (Some(hi), Some(lo), Some(rest)) => Some([(hi * 16 + lo) as bv8] + rest)
      case _ => None
  }

  lemma {:induction false} EncodeAppend(a: seq<bv8>, b: seq<bv8>)
    ensures Encode(a + b) == Encode(a) + Encode(b)
  {
    if a != [] {
      assert (a + b)[1..] == a[1..] + b;
      EncodeAppend(a[1..], b);
    } else {
      assert a + b == b;
    }
  }

  /** Decoding the encoding gives the bytes back. */
  lemma {:induction false} DecodeEncode(bs: seq<bv8>)
    ensures Decode(Encode(bs)) == Some(bs)
  {
    if bs != [] {
      var s := Encode(bs);
      var hi, lo := bs[0] as int / 16, bs[0] as int % 16;
      DigitValueOfDigit(hi);
      DigitValueOfDigit(lo);
      assert s[0] == Digit(hi) && s[1] == Digit(lo);
      assert s[2..] == Encode(bs[1..]);
      DecodeEncode(bs[1..]);
      ByteOfNibbles(bs[0]);
      assert [bs[0]] + bs[1..] == bs;
    }
  }

  /** A byte is rebuilt from its two nibbles. */
  lemma ByteOfNibbles(b: bv8)
    ensures ((b as int / 16) * 16 + b as int % 16) as bv8 == b
  {
    var n := b as int;
    assert (n / 16) * 16 + n % 16 == n;
  }

  /** Distinct byte strings have distinct encodings. */
  lemma EncodeInjective(a: seq<bv8>, b: seq<bv8>)
    ensures Encode(a) == Encode(b) <==> a == b
  {
    if Encode(a) == Encode(b) {
      DecodeEncode(a);
      DecodeEncode(b);
    }
  }
}
