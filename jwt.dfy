/** The claims of a session token, as the JWT library hands them over: a map
    from claim names to dynamically typed values. Signing and verification
    are not modelled; a verifier is a function from token text to the
    claims of a valid token (None for a malformed, badly signed or expired
    one). */
module Jwt {
  import opened Common

  /** The dynamic types a claim value can have. Number is json.Number. */
  datatype Value =
    | Str(s: string)
    | Bool(b: bool)
    | Float(f: real)
    | Int(i: int)
    | Number(text: string)
    | Null
    | Other(repr: string)

  type Claims = map<string, Value>

  type Verifier = string -> Option<Claims>
}
