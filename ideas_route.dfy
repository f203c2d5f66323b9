/**
 * /api/ideas (src/app/api/ideas/route.ts): listing (GET), inserting (POST),
 * voting on (PUT) and deleting (DELETE) ideas. Identity-provider answers and
 * database failures are inputs.
 */
module IdeasRoute {
  import opened Wrappers
  import opened Rows
  import opened Http
  import opened Db

  /** GET: the ideas of organization `id`, for anyone, signed in or not.
      A failed query answers `null`. */
  method Get(db: Store, id: string, queryFails: bool)
    returns (status: int, rows: Option<map<string, Idea>>)
    ensures status == Ok
    ensures rows.None? <==> queryFails
    ensures rows.Some? ==>
      && (forall k :: k in rows.value <==> k in db.ideas && db.ideas[k].org_id == id)
      && (forall k :: k in rows.value ==> rows.value[k] == db.ideas[k])
  {
    if queryFails {
      return Ok, None;
    }
    status, rows := Ok, Some(IdeasOfOrg(db.ideas, id));
  }

  /** POST: insert the client's rows as they are, once the caller is signed in
      and a member of `organization`. Neither `author_id` nor `org_id` of the
      rows is compared with the caller or with `organization`. A failed insert
      still answers 200, with `null`. */
  method Post(db: Store, rows: seq<Idea>, organization: string, caller: Option<string>,
              membershipLookupFails: bool, insertFails: bool)
    returns (status: int, inserted: Option<seq<Idea>>)
    requires db.Valid()
    modifies db
    ensures db.Valid()
    ensures db.orgs == old(db.orgs) && db.memberships == old(db.memberships)
    ensures status != Ok ==> unchanged(db)
    ensures
      if caller.None? then status == Unauthorized
      else if membershipLookupFails || !IsMember(old(db.memberships), organization, caller.value) then
        status == Unauthorized
      else if insertFails || !FreshRows(old(db.ideas), rows) then
        status == Ok && inserted.None? && unchanged(db)
      else
        status == Ok && inserted == Some(rows) && db.ideas == WithRows(old(db.ideas), rows)
  {
    inserted := None;
    if caller.None? {
      return Unauthorized, inserted;
    }
    SingleRowIffMember(db.memberships, organization, caller.value);
    if membershipLookupFails || CountPair(db.memberships, organization, caller.value) != 1 {
      return Unauthorized, inserted;
    }
    // A repeated id violates the primary key, and the whole insert fails.
    if insertFails || !FreshRows(db.ideas, rows) {
      return Ok, inserted;
    }
    db.ideas := WithRows(db.ideas, rows);
    status, inserted := Ok, Some(rows);
  }

  /** PUT: overwrite the votes of idea `idea.id` with the client's `idea.votes`.
      Membership is checked in the organization the client names in
      `idea.org_id`, not in the stored idea's, and the votes are not checked
      at all. An unknown id updates nothing and answers an empty list. */
  method Put(db: Store, idea: Idea, caller: Option<string>,
             membershipLookupFails: bool, updateFails: bool)
    returns (status: int, updated: Option<seq<Idea>>)
    requires db.Valid()
    modifies db
    ensures db.Valid()
    ensures db.orgs == old(db.orgs) && db.memberships == old(db.memberships)
    ensures status != Ok ==> unchanged(db)
    ensures
      if caller.None? then status == Unauthorized
      else if membershipLookupFails || !IsMember(old(db.memberships), idea.org_id, caller.value) then
        status == Unauthorized
      else if updateFails then status == Ok && updated.None? && unchanged(db)
      else if idea.id !in old(db.ideas) then status == Ok && updated == Some([]) && unchanged(db)
      else
        var row := old(db.ideas)[idea.id].(votes := idea.votes);
        status == Ok && updated == Some([row]) && db.ideas == old(db.ideas)[idea.id := row]
  {
    updated := None;
    if caller.None? {
      return Unauthorized, updated;
    }
    SingleRowIffMember(db.memberships, idea.org_id, caller.value);
    if membershipLookupFails || CountPair(db.memberships, idea.org_id, caller.value) != 1 {
      return Unauthorized, updated;
    }
    if updateFails {
      return Ok, updated;
    }
    if idea.id !in db.ideas {
      return Ok, Some([]);
    }
    var row := db.ideas[idea.id].(votes := idea.votes);
    db.ideas := db.ideas[idea.id := row];
    status, updated := Ok, Some([row]);
  }

  /** DELETE: delete idea `id`. The checks run in this order: both query
      fields are given, the caller is signed in, `organization` exists, the
      caller is a member of it, the idea exists, the caller owns
      `organization` or wrote the idea. The idea's own `org_id` is never
      compared with `organization`. A failed delete still answers 200. */
  method Delete(db: Store, id: Option<string>, organization: Option<string>, caller: Option<string>,
                orgLookupFails: bool, membershipLookupFails: bool, ideaLookupFails: bool,
                deleteFails: bool)
    returns (status: int, deleted: Option<seq<Idea>>)
    requires db.Valid()
    modifies db
    ensures db.Valid()
    ensures db.orgs == old(db.orgs) && db.memberships == old(db.memberships)
    ensures status != Ok ==> unchanged(db)
    ensures
      if !Given(id) || !Given(organization) then status == BadRequest
      else if caller.None? then status == Unauthorized
      else if orgLookupFails || organization.value !in old(db.orgs) then status == NotFound
      else if membershipLookupFails || !IsMember(old(db.memberships), organization.value, caller.value) then
        status == Unauthorized
      else if ideaLookupFails || id.value !in old(db.ideas) then status == NotFound
      else if old(db.orgs)[organization.value].owner_id != caller.value
              && old(db.ideas)[id.value].author_id != caller.value then status == Unauthorized
      else if deleteFails then status == Ok && deleted.None? && unchanged(db)
      else status == Ok && deleted == Some([old(db.ideas)[id.value]]) && db.ideas == old(db.ideas) - {id.value}
  {
    deleted := None;
    if !Given(id) || !Given(organization) {
      return BadRequest, deleted;
    }
    if caller.None? {
      return Unauthorized, deleted;
    }
    var org := organization.value;
    if orgLookupFails || org !in db.orgs {
      return NotFound, deleted;
    }
    SingleRowIffMember(db.memberships, org, caller.value);
    if membershipLookupFails || CountPair(db.memberships, org, caller.value) != 1 {
      return Unauthorized, deleted;
    }
    if ideaLookupFails || id.value !in db.ideas {
      return NotFound, deleted;
    }
    var idea := db.ideas[id.value];
    if db.orgs[org].owner_id != caller.value && idea.author_id != caller.value {
      return Unauthorized, deleted;
    }
    if deleteFails {
      return Ok, deleted;
    }
    db.ideas := db.ideas - {id.value};
    status, deleted := Ok, Some([idea]);
  }
}
