/** The token blacklist kept in the key-value store: the key derived from a
    token, and what the store holds (a value with an expiry instant; a key is
    present only until it expires). */
module Blacklist {
  import opened Common
  import Hex
  import Text

  const KeyPrefix: string := "blacklist:"

  /** A stored value and the instant at which the store drops it. */
  datatype Entry = Entry(value: string, expiresAt: Time)

  /** "blacklist:" followed by the lower-case hex of the token's digest;
      digest is SHA-256 over the token's bytes, which is not modelled. */
  function KeyForToken(digest: string -> seq<bv8>, token: string): (key: string)
    ensures Text.HasPrefix(key, KeyPrefix)
    ensures |key| == |KeyPrefix| + 2 * |digest(token)|
  {
    KeyPrefix + Hex.Encode(digest(token))
  }

  /** Two tokens share a key exactly when they share a digest: the key adds
      no collisions of its own. */
  lemma KeyForTokenInjective(digest: string -> seq<bv8>, t1: string, t2: string)
    ensures KeyForToken(digest, t1) == KeyForToken(digest, t2) <==> digest(t1) == digest(t2)
  {
    var k1, k2 := KeyForToken(digest, t1), KeyForToken(digest, t2);
    if k1 == k2 {
      assert k1[|KeyPrefix|..] == Hex.Encode(digest(t1));
      assert k2[|KeyPrefix|..] == Hex.Encode(digest(t2));
      Hex.EncodeInjective(digest(t1), digest(t2));
    }
  }

  /** EXISTS key at time now. */
  predicate Present(store: map<string, Entry>, key: string, now: Time) {
    key in store && now < store[key].expiresAt
  }
}
