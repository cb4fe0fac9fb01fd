/** The old snapshot's user JSON, whose id is a signed int converted from the
    record's uint. */
module OldApiTypes {
  import opened OldDs
  import Text

  datatype UserJSON = UserJSON(id: int, login: string, password: string, isModerator: bool)

  /** Go's int(x) for a uint: the same 64 bits read as two's complement. */
  function Int64OfUint64(x: Uint64): (i: int)
    ensures Text.MinInt64 <= i <= Text.MaxInt64
    ensures x <= Text.MaxInt64 ==> i == x
    ensures x > Text.MaxInt64 ==> i == x - 0x1_0000_0000_0000_0000 && i < 0
  {
    if x <= Text.MaxInt64 then x else x - 0x1_0000_0000_0000_0000
  }

  function UserToJSON(u: User): UserJSON {
    UserJSON(Int64OfUint64(u.id), u.login, u.password, u.isModerator)
  }

  function UserFromJSON(j: UserJSON): User {
    User(0, j.login, j.password, j.isModerator)
  }

  /** Login, password and moderator flag survive a trip through JSON; the id
      comes back 0. */
  lemma UserRoundTrip(u: User)
    ensures UserFromJSON(UserToJSON(u)) == u.(id := 0)
  {
  }

  /** The conversion of the id is lossless: distinct uints give distinct ints. */
  lemma Int64OfUint64Injective(a: Uint64, b: Uint64)
    ensures Int64OfUint64(a) == Int64OfUint64(b) ==> a == b
  {
  }
}
