/** UUIDs as the new snapshot uses them (github.com/google/uuid): sixteen
    bytes, the all-zero Nil value, the canonical 8-4-4-4-12 text written by
    String(), and Parse, which accepts the canonical text, the same wrapped in
    one character on each side (braces), with an "urn:uuid:" prefix, or as 32
    bare hexadecimal digits. */
module Uuid {
  import opened Common
  import Hex
  import Text

  type Uuid = s: seq<bv8> | |s| == 16 witness [0, 0, 0, 0, 0, 0, 0, 0, 0, 0, 0, 0, 0, 0, 0, 0]

  const Nil: Uuid := [0, 0, 0, 0, 0, 0, 0, 0, 0, 0, 0, 0, 0, 0, 0, 0]

  /** uuid.UUID.String(): lower-case hex in groups of 8, 4, 4, 4 and 12 digits. */
  function ToString(u: Uuid): (s: string)
    ensures |s| == 36
  {
    Hex.Encode(u[0..4]) + "-" + Hex.Encode(u[4..6]) + "-" + Hex.Encode(u[6..8]) + "-"
      + Hex.Encode(u[8..10]) + "-" + Hex.Encode(u[10..16])
  }

  /** The canonical layout starting at s[0]: dashes at 8, 13, 18 and 23 and
      hexadecimal digit pairs everywhere else up to position 36. */
  function ParseCanonical(s: string): Option<Uuid>
    requires |s| >= 36
  {
    if s[8] != '-' || s[13] != '-' || s[18] != '-' || s[23] != '-' then None
    else match Hex.Decode(s[0..8] + s[9..13] + s[14..18] + s[19..23] + s[24..36])
      case Some(b) => Some(b)
      case None => None
  }

  /** uuid.Parse. */
  function Parse(s: string): (r: Option<Uuid>)
    ensures |s| != 32 && |s| != 36 && |s| != 38 && |s| != 45 ==> r.None?
  {
    if |s| == 36 then ParseCanonical(s)
    else if |s| == 45 then
      if Text.FoldString(s[..9]) == "urn:uuid:" then ParseCanonical(s[9..]) else None
    else if |s| == 38 then ParseCanonical(s[1..])
    else if |s| == 32 then
      match Hex.Decode(s)
      case Some(b) => Some(b)
      case None => None
    else None
  }

  /** Parse reads back every UUID that String writes. */
  lemma ParseToString(u: Uuid)
    ensures Parse(ToString(u)) == Some(u)
  {
    var s := ToString(u);
    var hex := s[0..8] + s[9..13] + s[14..18] + s[19..23] + s[24..36];
    assert s[0..8] == Hex.Encode(u[0..4]);
    assert s[9..13] == Hex.Encode(u[4..6]);
    assert s[14..18] == Hex.Encode(u[6..8]);
    assert s[19..23] == Hex.Encode(u[8..10]);
    assert s[24..36] == Hex.Encode(u[10..16]);
    Hex.EncodeAppend(u[0..4], u[4..6]);
    assert u[0..4] + u[4..6] == u[0..6];
    Hex.EncodeAppend(u[0..6], u[6..8]);
    assert u[0..6] + u[6..8] == u[0..8];
    Hex.EncodeAppend(u[0..8], u[8..10]);
    assert u[0..8] + u[8..10] == u[0..10];
    Hex.EncodeAppend(u[0..10], u[10..16]);
    assert u[0..10] + u[10..16] == u;
    assert hex == Hex.Encode(u);
    Hex.DecodeEncode(u);
  }
}
