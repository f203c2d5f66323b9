/**
 * The row shapes of the three tables (src/types/org.ts) and the filtered
 * selects, deletes and inserts that the route handlers send to the database,
 * stated as functions on table contents.
 */
module Rows {
  import opened Wrappers

  datatype Org = Org(id: string, name: string, description: Option<string>, created_at: string, owner_id: string)

  datatype Membership = Membership(org_id: string, member_id: string)

  /** Voter ids; the code never deduplicates them, so they are sequences, not sets. */
  datatype Votes = Votes(up: seq<string>, down: seq<string>)

  datatype Idea = Idea(org_id: string, id: string, name: string, author_id: string, created_at: string, votes: Votes)

  // ---------------------------------------------------------------- memberships

  /** The rows of `ms` that `keep` accepts, in their original order: a filtered
      select, or (with the test negated) what a filtered delete leaves behind. */
  function Where(ms: seq<Membership>, keep: Membership -> bool): (r: seq<Membership>)
    ensures forall m :: m in r <==> m in ms && keep(m)
    ensures forall m :: multiset(r)[m] == if keep(m) then multiset(ms)[m] else 0
    ensures |r| <= |ms|
  {
    if ms == [] then []
    else
      var rest := Where(ms[1..], keep);
      assert ms == [ms[0]] + ms[1..];
      if keep(ms[0]) then [ms[0]] + rest else rest
  }

  predicate IsMember(ms: seq<Membership>, org: string, user: string) {
    Membership(org, user) in ms
  }

  /** Number of rows with `org_id == org` and `member_id == user`: what a
      select on both columns returns. */
  function CountPair(ms: seq<Membership>, org: string, user: string): (n: nat)
    ensures n == 0 <==> !IsMember(ms, org, user)
    ensures n <= |ms|
  {
    if ms == [] then 0
    else (if ms[0] == Membership(org, user) then 1 else 0) + CountPair(ms[1..], org, user)
  }

  /** No `(org_id, member_id)` pair occurs twice. */
  predicate Unique(ms: seq<Membership>) {
    ms == [] || (ms[0] !in ms[1..] && Unique(ms[1..]))
  }

  lemma {:induction false} WhereUnique(ms: seq<Membership>, keep: Membership -> bool)
    requires Unique(ms)
    ensures Unique(Where(ms, keep))
  {
    if ms != [] {
      WhereUnique(ms[1..], keep);
      var rest := Where(ms[1..], keep);
      if keep(ms[0]) {
        assert ([ms[0]] + rest)[1..] == rest;
      }
    }
  }

  lemma {:induction false} AppendUnique(ms: seq<Membership>, m: Membership)
    requires Unique(ms) && m !in ms
    ensures Unique(ms + [m])
  {
    if ms == [] {
      assert [m][1..] == [];
    } else {
      AppendUnique(ms[1..], m);
      assert (ms + [m])[1..] == ms[1..] + [m];
    }
  }

  lemma {:induction false} CountAtMostOne(ms: seq<Membership>, org: string, user: string)
    requires Unique(ms)
    ensures CountPair(ms, org, user) <= 1
  {
    if ms != [] {
      CountAtMostOne(ms[1..], org, user);
    }
  }

  /** A lookup that demands exactly one matching row (`.single()`) succeeds
      on a duplicate-free table exactly when the caller is a member. */
  lemma SingleRowIffMember(ms: seq<Membership>, org: string, user: string)
    requires Unique(ms)
    ensures CountPair(ms, org, user) == 1 <==> IsMember(ms, org, user)
  {
    CountAtMostOne(ms, org, user);
  }

  lemma {:induction false} CountPairAppend(ms: seq<Membership>, m: Membership, org: string, user: string)
    ensures CountPair(ms + [m], org, user) == CountPair(ms, org, user) + (if m == Membership(org, user) then 1 else 0)
  {
    if ms != [] {
      assert (ms + [m])[1..] == ms[1..] + [m];
      CountPairAppend(ms[1..], m, org, user);
    } else {
      assert [m][1..] == [];
    }
  }

  /** What deleting the rows of `org` whose member is listed leaves behind. */
  function WithoutMembers(ms: seq<Membership>, org: string, members: seq<string>): (r: seq<Membership>)
    ensures forall m :: m in r <==> m in ms && (m.org_id != org || m.member_id !in members)
  {
    Where(ms, (m: Membership) => m.org_id != org || m.member_id !in members)
  }

  /** What deleting every row of `org` leaves behind. */
  function WithoutOrgMemberships(ms: seq<Membership>, org: string): (r: seq<Membership>)
    ensures forall m :: m in r <==> m in ms && m.org_id != org
  {
    Where(ms, (m: Membership) => m.org_id != org)
  }

  // ---------------------------------------------------------------- ideas

  /** The ideas that `keep` accepts, under their own keys. */
  function IdeasWhere(ideas: map<string, Idea>, keep: Idea -> bool): map<string, Idea> {
    map k | k in ideas && keep(ideas[k]) :: ideas[k]
  }

  /** The ideas of `org`. */
  function IdeasOfOrg(ideas: map<string, Idea>, org: string): map<string, Idea> {
    IdeasWhere(ideas, (i: Idea) => i.org_id == org)
  }

  /** What deleting the ideas of `org` whose author is listed leaves behind. */
  function WithoutAuthors(ideas: map<string, Idea>, org: string, authors: seq<string>): map<string, Idea> {
    IdeasWhere(ideas, (i: Idea) => i.org_id != org || i.author_id !in authors)
  }

  /** What deleting every idea of `org` leaves behind. */
  function WithoutOrgIdeas(ideas: map<string, Idea>, org: string): map<string, Idea> {
    IdeasWhere(ideas, (i: Idea) => i.org_id != org)
  }

  /** Each idea is either one of `org`'s or survives deleting them, never both. */
  lemma OrgIdeasPartition(ideas: map<string, Idea>, org: string)
    ensures IdeasOfOrg(ideas, org).Keys !! WithoutOrgIdeas(ideas, org).Keys
    ensures IdeasOfOrg(ideas, org).Keys + WithoutOrgIdeas(ideas, org).Keys == ideas.Keys
  {
  }

  /** Every row is stored under its own id. */
  predicate KeyedById(ideas: map<string, Idea>) {
    forall k :: k in ideas ==> ideas[k].id == k
  }

  /** The ids of a batch of rows. */
  function Ids(rows: seq<Idea>): (r: set<string>)
    ensures forall x :: x in rows ==> x.id in r
    ensures forall k :: k in r ==> exists x :: x in rows && x.id == k
  {
    if rows == [] then {} else {rows[0].id} + Ids(rows[1..])
  }

  /** The primary-key condition under which inserting `rows` succeeds: every
      id is new to the table and to the rest of the batch. */
  predicate FreshRows(ideas: map<string, Idea>, rows: seq<Idea>) {
    rows == [] || (rows[0].id !in ideas && rows[0].id !in Ids(rows[1..]) && FreshRows(ideas, rows[1..]))
  }

  /** The table after inserting `rows`, one after the other. */
  function WithRows(ideas: map<string, Idea>, rows: seq<Idea>): (r: map<string, Idea>)
    ensures r.Keys == ideas.Keys + Ids(rows)
    ensures KeyedById(ideas) ==> KeyedById(r)
    decreases |rows|
  {
    if rows == [] then ideas else WithRows(ideas[rows[0].id := rows[0]], rows[1..])
  }

  /** A successful insert keeps every old row and stores each new row under its id. */
  lemma {:induction false} WithRowsContents(ideas: map<string, Idea>, rows: seq<Idea>)
    requires FreshRows(ideas, rows)
    ensures forall k :: k in ideas ==> WithRows(ideas, rows)[k] == ideas[k]
    ensures forall x :: x in rows ==> WithRows(ideas, rows)[x.id] == x
    decreases |rows|
  {
    if rows != [] {
      var head, tail := rows[0], rows[1..];
      var next := ideas[head.id := head];
      FreshRowsGrow(ideas, head, tail);
      WithRowsContents(next, tail);
      var r := WithRows(next, tail);
      assert r == WithRows(ideas, rows);
      forall k | k in ideas
        ensures r[k] == ideas[k]
      {
        assert k != head.id && next[k] == ideas[k];
      }
      forall x | x in rows
        ensures r[x.id] == x
      {
        if x != head {
          assert x in tail;
        }
      }
    }
  }

  lemma {:induction false} FreshRowsGrow(ideas: map<string, Idea>, x: Idea, rows: seq<Idea>)
    requires FreshRows(ideas, rows) && x.id !in Ids(rows)
    ensures FreshRows(ideas[x.id := x], rows)
  {
    if rows != [] {
      FreshRowsGrow(ideas, x, rows[1..]);
    }
  }
}
