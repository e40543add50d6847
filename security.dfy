/**
 * The security collaborators the services call into. Their algorithms are
 * not part of this model: each is a function the caller supplies, and the
 * model relies on nothing about it beyond being a function.
 */
module Security {

  /** Spring Security's `PasswordEncoder`. */
  datatype PasswordEncoder = PasswordEncoder(
    encode: string -> string,
    matches: (string, string) -> bool)

  /** `JwtUtils.generateToken`: the token issued for an email. */
  type TokenIssuer = string -> string
}
