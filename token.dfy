/**
 * The invitation token: a signed claim `{email, organization}` with the
 * registered claims `iat` and `exp` (section 4.1.4 of RFC 7519: the token
 * must not be accepted on or after `exp`). Signing itself is abstract: a
 * token is either a claim signed with some key, or text that is no token.
 */
module InviteToken {
  import opened Wrappers

  /** The lifetime given at signing, "7d", in seconds. */
  const SevenDays: int := 604800

  datatype Claim = Claim(email: string, organization: string, iat: int, exp: int)

  datatype Token = Jwt(claim: Claim, key: string) | Opaque(text: string)

  /** A `token` query parameter counts as given unless absent or empty. */
  predicate Present(token: Option<Token>) {
    token.Some? && token.value != Opaque("")
  }

  /** Signing at `now` (whole seconds) with the server's secret. */
  function Sign(email: string, organization: string, key: string, now: int): (t: Token)
    ensures Verify(t, key, now) == Some(Claim(email, organization, now, now + SevenDays))
  {
    Jwt(Claim(email, organization, now, now + SevenDays), key)
  }

  /** Verification at `now`: fails for text that is no token, for a signature
      made with another key, and once `now` reaches `exp`. */
  function Verify(t: Token, key: string, now: int): Option<Claim> {
    match t
    case Opaque(_) => None
    case Jwt(claim, k) => if k == key && now < claim.exp then Some(claim) else None
  }

  /** A token signed at `issued` verifies exactly during the seven days that
      follow, and yields its email and organization unchanged, issued at
      `issued` and expiring seven days later. */
  lemma SignVerifyRoundTrip(email: string, organization: string, key: string, issued: int, now: int)
    ensures var r := Verify(Sign(email, organization, key, issued), key, now);
            (r.Some? <==> now < issued + SevenDays) &&
            (r.Some? ==> r.value == Claim(email, organization, issued, issued + SevenDays))
  {
  }

  /** A token signed with another key never verifies. */
  lemma ForeignKeyRejected(email: string, organization: string, key: string, other: string, issued: int, now: int)
    requires other != key
    ensures Verify(Sign(email, organization, other, issued), key, now).None?
  {
  }
}
