/**
 * /api/org (src/app/api/org/route.ts): creating (POST), renaming (PUT) and
 * deleting (DELETE) an organization. Identity-provider answers, database
 * failures and the id and timestamp the database assigns are inputs.
 */
module OrgRoute {
  import opened Wrappers
  import opened Rows
  import opened Http
  import opened Db

  /** POST: create an organization owned by the caller, then the caller's
      membership. When the membership insert fails the organization is
      deleted again, and a failure of that delete is ignored. */
  method Post(db: Store, name: string, description: Option<string>, caller: Option<string>,
              newId: string, createdAt: string,
              insertFails: bool, membershipInsertFails: bool, rollbackFails: bool)
    returns (status: int, created: Option<Org>)
    requires db.Valid()
    modifies db
    ensures db.Valid()
    ensures db.ideas == old(db.ideas)
    ensures created.Some? <==> status == Created
    ensures status != Created && status != InternalError ==> unchanged(db)
    ensures
      if caller.None? then status == Unauthorized
      else if insertFails || newId in old(db.orgs) then status == InternalError && unchanged(db)
      else
        var org := Org(newId, name, description, createdAt, caller.value);
        if membershipInsertFails then
          && status == InternalError
          && db.memberships == old(db.memberships)
          && db.orgs == (if rollbackFails then old(db.orgs)[newId := org] else old(db.orgs))
        else
          && status == Created && created == Some(org)
          && db.orgs == old(db.orgs)[newId := org]
          && db.memberships == old(db.memberships) + [Membership(newId, caller.value)]
    ensures status == Created ==> CountPair(db.memberships, newId, caller.value) == 1
  {
    created := None;
    if caller.None? {
      return Unauthorized, created;
    }
    // An id the table already holds is a primary-key violation: the insert fails.
    if insertFails || newId in db.orgs {
      return InternalError, created;
    }
    var org := Org(newId, name, description, createdAt, caller.value);
    ghost var before := db.orgs;
    db.orgs := db.orgs[newId := org];
    if membershipInsertFails {
      if !rollbackFails {
        db.orgs := db.orgs - {newId};
        assert db.orgs == before;
      }
      return InternalError, created;
    }
    var m := Membership(newId, caller.value);
    AppendUnique(db.memberships, m);
    CountPairAppend(db.memberships, m, newId, caller.value);
    db.memberships := db.memberships + [m];
    status, created := Created, Some(org);
  }

  /** PUT: set the name and description of an organization the caller owns.
      The owner test comes first and also fails for a missing organization,
      so a signed-in caller is never answered 404. */
  method Put(db: Store, name: string, description: Option<string>, organization: string,
             caller: Option<string>, orgLookupFails: bool, updateFails: bool)
    returns (status: int)
    requires db.Valid()
    modifies db
    ensures db.Valid()
    ensures db.memberships == old(db.memberships) && db.ideas == old(db.ideas)
    ensures status != Ok ==> unchanged(db)
    ensures status != NotFound
    ensures
      if caller.None? then status == Unauthorized
      else if orgLookupFails || organization !in old(db.orgs)
              || old(db.orgs)[organization].owner_id != caller.value then status == Unauthorized
      else if updateFails then status == InternalError
      else
        var org := old(db.orgs)[organization];
        status == Ok && db.orgs == old(db.orgs)[organization := org.(name := name, description := description)]
  {
    if caller.None? {
      return Unauthorized;
    }
    // A failed lookup yields no row, whose owner is undefined.
    var found := !orgLookupFails && organization in db.orgs;
    if !found || db.orgs[organization].owner_id != caller.value {
      return Unauthorized;
    }
    // The 404 test that follows in the source can no longer fail.
    assert found;
    if updateFails {
      return InternalError;
    }
    var org := db.orgs[organization];
    db.orgs := db.orgs[organization := org.(name := name, description := description)];
    status := Ok;
  }

  /** DELETE: remove an organization the caller owns, in three steps:
      its memberships, its ideas, the organization itself. The first step
      that fails answers 500 and the steps after it do not run. */
  method Delete(db: Store, id: Option<string>, caller: Option<string>, orgLookupFails: bool,
                membershipsDeleteFails: bool, ideasDeleteFails: bool, orgDeleteFails: bool)
    returns (status: int)
    requires db.Valid()
    modifies db
    ensures db.Valid()
    ensures status != NotFound
    ensures status == BadRequest || status == Unauthorized ==> unchanged(db)
    ensures
      if !Given(id) then status == BadRequest
      else if caller.None? then status == Unauthorized
      else if orgLookupFails || id.value !in old(db.orgs)
              || old(db.orgs)[id.value].owner_id != caller.value then status == Unauthorized
      else if membershipsDeleteFails then status == InternalError && unchanged(db)
      else
        var org := id.value;
        && db.memberships == WithoutOrgMemberships(old(db.memberships), org)
        && if ideasDeleteFails then
             status == InternalError && db.ideas == old(db.ideas) && db.orgs == old(db.orgs)
           else
             && db.ideas == WithoutOrgIdeas(old(db.ideas), org)
             && if orgDeleteFails then status == InternalError && db.orgs == old(db.orgs)
                else status == Ok && db.orgs == old(db.orgs) - {org}
  {
    if !Given(id) {
      return BadRequest;
    }
    if caller.None? {
      return Unauthorized;
    }
    var org := id.value;
    var found := !orgLookupFails && org in db.orgs;
    if !found || db.orgs[org].owner_id != caller.value {
      return Unauthorized;
    }
    // The 404 test that follows in the source can no longer fail.
    assert found;
    if membershipsDeleteFails {
      return InternalError;
    }
    WhereUnique(db.memberships, (m: Membership) => m.org_id != org);
    db.memberships := WithoutOrgMemberships(db.memberships, org);
    if ideasDeleteFails {
      return InternalError;
    }
    db.ideas := WithoutOrgIdeas(db.ideas, org);
    if orgDeleteFails {
      return InternalError;
    }
    db.orgs := db.orgs - {org};
    status := Ok;
  }
}
