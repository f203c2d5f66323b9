/**
 * Request sequences on a fresh store, whose outcomes follow from the
 * handlers' contracts alone: creating an organization, inviting and accepting, removing
 * members, and the idea requests the handlers let through unchecked.
 */
module Scenarios {
  import opened Wrappers
  import opened Rows
  import opened Http
  import opened InviteToken
  import opened Db
  import InviteRoute
  import OrgRoute
  import IdeasRoute
  import Utils

  /** An owner creates an organization and invites bob@x.com: the link
      carries a token for bob@x.com and the organization. */
  method CreateAndInvite() {
    var db := new Store();
    var s, org := OrgRoute.Post(db, "Acme", None, Some("owner"), "g", "t0", false, false, false);
    assert s == Created && org == Some(Org("g", "Acme", None, "t0", "owner"));
    assert db.memberships == [Membership("g", "owner")];

    var link;
    s, link := InviteRoute.Post(db, Some("g"), Some("bob@x.com"), Some("owner"), false, "k", 1000, Some("https"), Some("z.io"));
    assert s == Ok;
    SignVerifyRoundTrip("bob@x.com", "g", "k", 1000, 2000);
    assert Verify(link.value.token, "k", 2000) == Some(Claim("bob@x.com", "g", 1000, 1000 + SevenDays));
  }

  /** The user whose first address is bob@x.com accepts and is redirected
      to the organization's dashboard on the origin the headers name. */
  method AcceptRedirect() {
    var db := new Store();
    var s, org := OrgRoute.Post(db, "Acme", None, Some("owner"), "g", "t0", false, false, false);
    var token := Sign("bob@x.com", "g", "k", 1000);
    var loc;
    s, loc := InviteRoute.Get(db, Some(token), "k", 2000, false, Some("bob"), false, ["bob@x.com"], false, false, Some("https"), Some("z.io"), false);
    DashboardUrl();
    assert s == Found && loc == "https://z.io/dashboard/g";
  }

  lemma DashboardUrl()
    ensures Utils.BaseUrl(Some("https"), Some("z.io")) + "/dashboard/" + "g" == "https://z.io/dashboard/g"
  {
  }

  /** The user whose first address is bob@x.com accepts once and becomes a
      member; a second acceptance is refused as "already a member". */
  method InviteAndAccept() {
    var db := new Store();
    var s, org := OrgRoute.Post(db, "Acme", None, Some("owner"), "g", "t0", false, false, false);
    var token := Sign("bob@x.com", "g", "k", 1000);
    var loc;
    s, loc := InviteRoute.Get(db, Some(token), "k", 2000, false, Some("bob"), false, ["bob@x.com"], false, false, None, None, false);
    assert s == Found;
    assert db.memberships == [Membership("g", "owner"), Membership("g", "bob")];
    s, loc := InviteRoute.Get(db, Some(token), "k", 3000, false, Some("bob"), false, ["bob@x.com"], false, false, None, None, false);
    assert s == BadRequest;
  }

  /** A forwarded protocol that makes the redirect URL unparsable: the user
      is added, yet told that the token is invalid. */
  method RejectedRedirectStillAdmits() {
    var db := new Store();
    var s, org := OrgRoute.Post(db, "Acme", None, Some("owner"), "g", "t0", false, false, false);
    var token := Sign("bob@x.com", "g", "k", 1000);
    var loc;
    s, loc := InviteRoute.Get(db, Some(token), "k", 2000, false, Some("bob"), false, ["bob@x.com"], false, false, Some("https,http"), Some("z.io"), true);
    assert s == BadRequest && IsMember(db.memberships, "g", "bob");
  }

  /** An invitation token is not used up: within its seven days it admits
      every user whose first address is the invited one, and after them
      nobody. */
  method TokenReuse() {
    var db := new Store();
    var s, org := OrgRoute.Post(db, "Acme", None, Some("owner"), "g", "t0", false, false, false);
    var token := Sign("bob@x.com", "g", "k", 1000);
    var loc;
    s, loc := InviteRoute.Get(db, Some(token), "k", 2000, false, Some("bob"), false, ["bob@x.com"], false, false, None, None, false);
    assert s == Found;
    s, loc := InviteRoute.Get(db, Some(token), "k", 4000, false, Some("eve"), false, ["bob@x.com", "eve@x.com"], false, false, None, None, false);
    assert s == Found && IsMember(db.memberships, "g", "eve");
    s, loc := InviteRoute.Get(db, Some(token), "k", 1000 + SevenDays, false, Some("amy"), false, ["bob@x.com"], false, false, None, None, false);
    assert s == BadRequest && !IsMember(db.memberships, "g", "amy");
    s, loc := InviteRoute.Get(db, Some(token), "k", 5000, false, Some("ann"), false, ["ann@x.com", "bob@x.com"], false, false, None, None, false);
    assert s == Unauthorized;
  }

  /** Invitation checks the organization before the caller: a signed-out
      holder of a token for an organization that is gone is answered 404. */
  method DeletedOrgBeforeSignIn() {
    var db := new Store();
    var token := Sign("bob@x.com", "gone", "k", 0);
    var s, loc := InviteRoute.Get(db, Some(token), "k", 10, false, None, false, [], false, false, None, None, false);
    assert s == NotFound;
  }

  /** Removing members does not spare the owner: the owner can remove their
      own membership, and their ideas in the organization go with it. */
  method OwnerRemovesSelf() {
    var db := new Store();
    var s, org := OrgRoute.Post(db, "Acme", None, Some("owner"), "g", "t0", false, false, false);
    var i := Idea("g", "i1", "Zoid", "owner", "t1", Votes([], []));
    var j := Idea("g", "i2", "Zed", "bob", "t1", Votes([], []));
    var inserted;
    s, inserted := IdeasRoute.Post(db, [i, j], "g", Some("owner"), false, false);
    WithRowsContents(map[], [i, j]);
    assert s == Ok && db.ideas["i1"] == i && db.ideas["i2"] == j;

    s := InviteRoute.Delete(db, Some("g"), ["owner"], Some("owner"), false, false, false);
    assert s == Ok;
    assert db.memberships == [];
    assert "g" in db.orgs && db.orgs["g"].owner_id == "owner";
    assert "i1" !in db.ideas && "i2" in db.ideas;
  }

  /** A member may insert an idea that names another author and another
      organization, store votes with the same voter up and down, and delete
      an idea of another organization by naming their own. */
  method UncheckedIdeaRequests() {
    var db := new Store();
    var s, org := OrgRoute.Post(db, "Acme", None, Some("ann"), "g", "t0", false, false, false);
    s, org := OrgRoute.Post(db, "Other", None, Some("bob"), "h", "t0", false, false, false);

    var forged := Idea("h", "i1", "Zoid", "bob", "t1", Votes([], []));
    var inserted;
    s, inserted := IdeasRoute.Post(db, [forged], "g", Some("ann"), false, false);
    assert s == Ok && "i1" in db.ideas && db.ideas["i1"] == forged by {
      WithRowsContents(map[], [forged]);
    }

    var updated;
    s, updated := IdeasRoute.Put(db, Idea("g", "i1", "", "", "", Votes(["ann"], ["ann"])), Some("ann"), false, false);
    assert s == Ok && db.ideas["i1"].votes == Votes(["ann"], ["ann"]) && db.ideas["i1"].org_id == "h";

    var deleted;
    s, deleted := IdeasRoute.Delete(db, Some("i1"), Some("g"), Some("ann"), false, false, false, false);
    assert s == Ok && "i1" !in db.ideas;
  }

  /** Deleting an organization whose ideas cannot be deleted stops half-way:
      the memberships are gone while the organization stays. */
  method PartialOrgDelete() {
    var db := new Store();
    var s, org := OrgRoute.Post(db, "Acme", None, Some("ann"), "g", "t0", false, false, false);
    s := OrgRoute.Delete(db, Some("g"), Some("ann"), false, false, true, false);
    assert s == InternalError && "g" in db.orgs && db.memberships == [];

    // A non-owner is refused, and so is anyone once the organization is gone.
    s := OrgRoute.Delete(db, Some("g"), Some("bob"), false, false, false, false);
    assert s == Unauthorized && "g" in db.orgs;
    s := OrgRoute.Delete(db, Some("g"), Some("ann"), false, false, false, false);
    assert s == Ok && "g" !in db.orgs;
    s := OrgRoute.Put(db, "New", None, "g", Some("ann"), false, false);
    assert s == Unauthorized;
  }
}
