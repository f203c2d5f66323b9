/** The three tables the route handlers read and write. */
module Db {
  import opened Rows

  class Store {
    var orgs: map<string, Org>
    var memberships: seq<Membership>
    var ideas: map<string, Idea>

    /** Rows are stored under their own ids, every membership belongs to an
        existing organization, and no membership is stored twice. */
    ghost predicate Valid()
      reads this
    {
      && (forall k :: k in orgs ==> orgs[k].id == k)
      && KeyedById(ideas)
      && (forall m :: m in memberships ==> m.org_id in orgs)
      && Unique(memberships)
    }

    constructor ()
      ensures Valid()
      ensures orgs == map[] && memberships == [] && ideas == map[]
    {
      orgs := map[];
      memberships := [];
      ideas := map[];
    }
  }
}
