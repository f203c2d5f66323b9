/**
 * /api/org/invite (src/app/api/org/invite/route.ts): accepting an invitation
 * (GET), issuing one (POST) and removing members (DELETE). Identity-provider
 * answers, database failures, the signing secret and the clock are inputs.
 */
module InviteRoute {
  import opened Wrappers
  import opened Rows
  import opened Http
  import opened InviteToken
  import opened Utils
  import opened Db

  /** The invitation link: the text `prefix` followed by the serialized token. */
  datatype InviteLink = InviteLink(prefix: string, token: Token)

  /** GET: accept the invitation carried by `token`. The checks run in this
      order: a token is given, it verifies, its organization exists, the
      caller is signed in, the caller's first email is the invited one, the
      caller is not yet a member. Only then is one membership added, and it
      stays even when the redirect that follows is rejected (`redirectRejects`:
      the headers make a URL that `Response.redirect` cannot parse). */
  method Get(db: Store, token: Option<Token>, key: string, now: int,
             orgLookupFails: bool, caller: Option<string>,
             userLookupFails: bool, emails: seq<string>,
             membershipLookupFails: bool, insertFails: bool,
             proto: Option<string>, host: Option<string>, redirectRejects: bool)
    returns (status: int, location: string)
    requires db.Valid()
    modifies db
    ensures db.Valid()
    ensures db.orgs == old(db.orgs) && db.ideas == old(db.ideas)
    ensures !Present(token) ==> status == BadRequest && db.memberships == old(db.memberships)
    ensures Present(token) ==>
      var claim := Verify(token.value, key, now);
      var kept := db.memberships == old(db.memberships);
      if claim.None? then status == BadRequest && kept
      else
        var org := claim.value.organization;
        if orgLookupFails || org !in old(db.orgs) then status == NotFound && kept
        else if caller.None? then status == Unauthorized && kept
        else if userLookupFails || emails == [] then status == BadRequest && kept
        else if emails[0] != claim.value.email then status == Unauthorized && kept
        else if membershipLookupFails then status == InternalError && kept
        else if IsMember(old(db.memberships), org, caller.value) then status == BadRequest && kept
        else if insertFails then status == InternalError && kept
        else
          && db.memberships == old(db.memberships) + [Membership(org, caller.value)]
          && if redirectRejects then status == BadRequest
             else status == Found && location == BaseUrl(proto, host) + "/dashboard/" + org
  {
    location := "";
    if !Present(token) {
      return BadRequest, location;
    }
    // Everything below runs inside one try block whose catch answers 400.
    var claim := Verify(token.value, key, now);
    if claim.None? {
      return BadRequest, location;
    }
    var organization := claim.value.organization;
    if orgLookupFails || organization !in db.orgs {
      return NotFound, location;
    }
    if caller.None? {
      return Unauthorized, location;
    }
    // Fetching the user may throw, and so does reading the first of no email addresses.
    if userLookupFails || |emails| == 0 {
      return BadRequest, location;
    }
    if claim.value.email != emails[0] {
      return Unauthorized, location;
    }
    if membershipLookupFails {
      return InternalError, location;
    }
    if CountPair(db.memberships, organization, caller.value) > 0 {
      return BadRequest, location;
    }
    if insertFails {
      return InternalError, location;
    }
    AppendUnique(db.memberships, Membership(organization, caller.value));
    db.memberships := db.memberships + [Membership(organization, caller.value)];
    // Response.redirect throws on a URL it cannot parse, and the catch answers 400.
    if redirectRejects {
      return BadRequest, location;
    }
    status, location := Found, BaseUrl(proto, host) + "/dashboard/" + organization;
  }

  /** POST: issue an invitation link. The checks run in this order: both body
      fields are given, the caller is signed in, the organization exists, the
      caller owns it. Nothing is written. */
  method Post(db: Store, organization: Option<string>, email: Option<string>,
              caller: Option<string>, orgLookupFails: bool,
              key: string, now: int, proto: Option<string>, host: Option<string>)
    returns (status: int, link: Option<InviteLink>)
    ensures link.Some? <==> status == Ok
    ensures
      if !Given(organization) || !Given(email) then status == BadRequest
      else if caller.None? then status == Unauthorized
      else if orgLookupFails || organization.value !in db.orgs then status == NotFound
      else if db.orgs[organization.value].owner_id != caller.value then status == Unauthorized
      else
        && status == Ok
        && link.value.prefix == BaseUrl(proto, host) + "/api/org/invite?token="
        && link.value.token == Sign(email.value, organization.value, key, now)
  {
    link := None;
    if !Given(organization) || !Given(email) {
      return BadRequest, link;
    }
    if caller.None? {
      return Unauthorized, link;
    }
    if orgLookupFails || organization.value !in db.orgs {
      return NotFound, link;
    }
    if db.orgs[organization.value].owner_id != caller.value {
      return Unauthorized, link;
    }
    var token := Sign(email.value, organization.value, key, now);
    status, link := Ok, Some(InviteLink(BaseUrl(proto, host) + "/api/org/invite?token=", token));
  }

  /** DELETE: remove the listed members of an organization together with the
      ideas they wrote there. Only the owner may; the owner is not protected
      from removing their own membership. Both deletes are attempted, and a
      failure of either answers 500. */
  method Delete(db: Store, organization: Option<string>, members: seq<string>,
                caller: Option<string>, orgLookupFails: bool,
                ideasDeleteFails: bool, membershipsDeleteFails: bool)
    returns (status: int)
    requires db.Valid()
    modifies db
    ensures db.Valid()
    ensures db.orgs == old(db.orgs)
    ensures
      if !Given(organization) || members == [] then status == BadRequest && unchanged(db)
      else if caller.None? then status == Unauthorized && unchanged(db)
      else if orgLookupFails || organization.value !in old(db.orgs) then status == NotFound && unchanged(db)
      else if old(db.orgs)[organization.value].owner_id != caller.value then status == Unauthorized && unchanged(db)
      else
        var org := organization.value;
        && db.ideas == (if ideasDeleteFails then old(db.ideas) else WithoutAuthors(old(db.ideas), org, members))
        && db.memberships == (if membershipsDeleteFails then old(db.memberships)
                              else WithoutMembers(old(db.memberships), org, members))
        && status == (if ideasDeleteFails || membershipsDeleteFails then InternalError else Ok)
  {
    if !Given(organization) || |members| == 0 {
      return BadRequest;
    }
    if caller.None? {
      return Unauthorized;
    }
    var org := organization.value;
    if orgLookupFails || org !in db.orgs {
      return NotFound;
    }
    if db.orgs[org].owner_id != caller.value {
      return Unauthorized;
    }
    if !ideasDeleteFails {
      db.ideas := WithoutAuthors(db.ideas, org, members);
    }
    if !membershipsDeleteFails {
      WhereUnique(db.memberships, (m: Membership) => m.org_id != org || m.member_id !in members);
      db.memberships := WithoutMembers(db.memberships, org, members);
    }
    status := if ideasDeleteFails || membershipsDeleteFails then InternalError else Ok;
  }
}
