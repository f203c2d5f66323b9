# Zoid: authorization and state transitions of the API routes

Zoid lets teams brainstorm brand names. Organizations own members and ideas,
and members vote on ideas. An owner invites people with a signed, expiring
link. This project models the server side of that in Dafny:

- the three route files `/api/org`, `/api/org/invite` and `/api/ideas`, one
  module each (`OrgRoute`, `InviteRoute`, `IdeasRoute`). Every handler is a
  module-level method that takes the store `db: Db.Store` and may modify it.
  It runs the source's guard checks in the source's
  order, returns the HTTP status code, and changes the store's three tables
  only where the source writes to the database;
- the row shapes of `src/types/org.ts` and the filtered selects, deletes and
  inserts the handlers send, as functions on table contents (`Rows`);
- the invitation token's claim and its seven-day `exp` window
  (`InviteToken`);
- the pure helpers `timeAgo`, `daySuffix` and `baseUrl` of `src/lib/utils.ts`
  (`Utils`).

Outside collaborators are inputs to the handlers:

- The identity provider gives the caller as `Option<string>` (`None` means
  signed out) and the caller's email addresses as a sequence.
- Each database call that can fail has its own boolean parameter, for example
  `orgLookupFails` or `insertFails`.
- The id and `created_at` that the database assigns to a new organization are
  parameters.
- The signing secret and the current time (whole seconds) are parameters.

`Db.Store.Valid()` is the store invariant every handler keeps:

- every row is stored under its own id;
- every membership belongs to an existing organization;
- no `(org_id, member_id)` pair is stored twice.

The `Scenarios` module proves the outcome of request sequences on a fresh
store, from the handlers' contracts alone. The sequences cover:

- creating an organization;
- issuing an invitation, accepting it, and a second acceptance refused as
  "already a member";
- an acceptance whose redirect is rejected, which still adds the user;
- the same token admitting a second user with the invited address, so tokens
  are not single-use;
- a user whose invited address is only their second address being refused,
  because only the first address is compared;
- an owner removing their own membership;
- a member inserting an idea under another author and organization;
- votes with one voter in both lists;
- deleting an idea of another organization;
- an organization delete that stops half-way.

In these places the code does something other than its names or messages
suggest; the model follows the code:

- Renaming or deleting an organization tests ownership before existence. A
  missing organization gives 401, and a signed-in caller never gets 404.
- Accepting an invitation verifies the token and looks up the organization
  before it checks sign-in.
- Creating ideas inserts the client's rows as given. `author_id`, `org_id`
  and `votes` are not set or checked by the server. So "every idea's author
  is a member of its organization" is not maintained.
- Removing members does not exclude the owner.
- Vote updates may store the same voter in both `up` and `down`. Voter lists
  are sequences, because nothing deduplicates them.
- Deleting an idea checks membership in the `organization` query parameter.
  It never compares that parameter with the idea's own `org_id`.
- A failed insert, update or delete of ideas still answers 200, with `null`
  as the body.
- Accepting an invitation inserts the membership before it builds the
  redirect. When `Response.redirect` rejects the URL (for example with the
  forwarded protocol "https,http"), the user has already been added, yet the
  answer is 400 "The token you sent is invalid".

## Model

| member | source | states |
|---|---|---|
| `InviteRoute.Get` | src/app/api/org/invite/route.ts:9-111 | Checks in this order, each with its status: token given (400); token verifies (400); organization exists (404, before sign-in); signed in (401); user fetch fails or there are no emails (400); first email is the invited one (401); membership lookup fails (500); already a member (400); insert fails (500). Each of these rejections leaves the store unchanged. Past them exactly one membership `(organization, caller)` is appended. The answer is then 302 to `baseUrl + "/dashboard/" + organization`, or 400 when `Response.redirect` rejects that URL, with the membership kept. Organizations and ideas never change. |
| `InviteRoute.Post` | src/app/api/org/invite/route.ts:118-172 | Checks in this order: both body fields given (400); signed in (401); organization exists (404); caller is its owner (401). Only the owner receives a link: `baseUrl + "/api/org/invite?token="` and a token signed for `{email, organization}` that expires seven days after `now`. The store is only read. |
| `InviteRoute.Delete` | src/app/api/org/invite/route.ts:179-246 | Checks in this order: organization given and member list non-empty (400); signed in (401); organization exists (404); caller is its owner (401). Rejections change nothing. Otherwise both deletes are attempted: ideas of the organization by listed authors, and memberships of the organization for listed members. A delete that fails leaves its table as it was, and either failure answers 500. Organizations never change. |
| `OrgRoute.Post` | src/app/api/org/route.ts:12-56 | A signed-out caller gets 401 and nothing changes. A failed or colliding organization insert gives 500 and nothing changes. If the membership insert fails, the organization is deleted again and 500 is returned; if that delete also fails, the organization stays. Otherwise the answer is 201 with `Org(id, name, description, created_at, caller)`, and exactly one membership `(id, caller)` is added. Ideas never change. |
| `OrgRoute.Put` | src/app/api/org/route.ts:62-115 | A signed-out caller gets 401. A failed lookup, a missing organization or a non-owner also gets 401, so the answer is never 404. A failed update gives 500. On success only `name` and `description` of that organization change: its id, owner and creation time, and all other rows, stay. Any answer other than 200 changes nothing. |
| `OrgRoute.Delete` | src/app/api/org/route.ts:117-198 | A missing id gives 400, before sign-in is checked. A signed-out caller gets 401, and so does a missing organization or a non-owner; the answer is never 404. Then three deletes run in order: the organization's memberships, its ideas, the organization itself. The first delete that fails answers 500, the later deletes do not run, and the earlier ones stay done. Full success answers 200. Rows of other organizations stay. |
| `IdeasRoute.Get` | src/app/api/ideas/route.ts:6-16 | No sign-in is needed. The answer holds exactly the ideas whose `org_id` equals `id`, each unchanged, or `null` when the query fails. The store is only read. |
| `IdeasRoute.Post` | src/app/api/ideas/route.ts:23-52 | A signed-out caller gets 401, and so does a caller who is not a member of `organization`; nothing changes. A member's rows are inserted as given, with no check of their `author_id` or `org_id`, and the table grows by exactly those rows. A failed insert, including a repeated id, answers 200 with `null` and changes nothing. |
| `IdeasRoute.Put` | src/app/api/ideas/route.ts:59-95 | Membership is checked in the organization the client names in `idea.org_id`. Non-members get 401 and nothing changes. For a member, only the `votes` of idea `idea.id` are replaced, and they are not validated. Its other fields and all other rows stay. An unknown id gives an empty result and changes nothing. |
| `IdeasRoute.Delete` | src/app/api/ideas/route.ts:97-170 | Checks in this order: id and organization given (400); signed in (401); organization exists (404); caller is a member (401); idea exists (404); caller owns the organization or wrote the idea (401). On success exactly that idea is removed, whatever its own `org_id`. Every rejection leaves the store unchanged. |
| `Db.Store.Valid` | src/types/org.ts:3-28 | The store invariant that every handler requires and keeps: each organization and idea is stored under its own id, each membership names an existing organization, and no `(org_id, member_id)` pair occurs twice. |
| `Http.Given` | src/app/api/org/invite/route.ts:121-126 | A string field passes the handlers' `!field` test only when it is present and not empty. |
| `InviteToken.Sign` | src/app/api/org/invite/route.ts:161-163 | A token signed at `now` verifies at once with the same key, and yields the claim `{email, organization}` with `iat = now` and `exp = now + 604800`. |
| `InviteToken.SignVerifyRoundTrip` | src/app/api/org/invite/route.ts:161-163 | A token issued at `T` verifies at `T'` exactly when `T' < T + 7 days` (604800 seconds, the `expiresIn` of "7d"). It then yields the claim `{email, organization}` unchanged, with `iat = T` and `exp = T + 7 days`. |
| `InviteToken.ForeignKeyRejected` | src/app/api/org/invite/route.ts:21-24 | A token signed with any other key never verifies. |
| `Rows.Where` | src/app/api/org/invite/route.ts:229-233 | A filtered delete keeps each row the filter spares as often as it occurred, drops every other row, and never adds a row. |
| `Rows.CountPair` | src/app/api/org/invite/route.ts:60-66 | The number of `(organization, user)` rows is zero exactly when the user is not a member of that organization. |
| `Rows.SingleRowIffMember` | src/app/api/ideas/route.ts:35-48 | On a duplicate-free table, the lookup that demands exactly one row succeeds exactly when the caller is a member. |
| `Rows.CountAtMostOne` | src/app/api/org/invite/route.ts:75-80 | On a duplicate-free table a pair occurs at most once. |
| `Rows.AppendUnique` | src/app/api/org/invite/route.ts:75-89 | Inserting a membership only after finding none keeps the table duplicate-free. |
| `Rows.WhereUnique` | src/app/api/org/route.ts:161-164 | Deleting memberships keeps the table duplicate-free. |
| `Rows.CountPairAppend` | src/app/api/org/route.ts:37-41 | Appending a row raises the count of its own pair by one and leaves the counts of all other pairs alone. So a new organization's owner has exactly one membership in it. |
| `Rows.WithoutMembers` | src/app/api/org/invite/route.ts:229-233 | After member removal, a membership stays exactly when it belongs to another organization or names an unlisted member. |
| `Rows.WithoutOrgMemberships` | src/app/api/org/route.ts:161-164 | After an organization delete, exactly the memberships of other organizations stay. |
| `Rows.OrgIdeasPartition` | src/app/api/org/route.ts:173-176 | Every idea is either one of the organization's, as the ideas select returns them, or one that survives the organization delete, and never both. |
| `Rows.WithRows` | src/app/api/ideas/route.ts:50 | After the insert the table's ids are the old ids plus the rows' ids, and each row stays stored under its own id. |
| `Rows.WithRowsContents` | src/app/api/ideas/route.ts:50 | When the insert succeeds, every old row is kept and every new row is stored as given. |
| `Utils.ElapsedSeconds` | src/lib/utils.ts:18-20 | The whole seconds elapsed are the milliseconds divided by 1000, rounded down: `1000 * s <= now - created < 1000 * s + 1000`, for negative differences too. |
| `Utils.TimeAgo` | src/lib/utils.ts:15-41 | The phrase always ends in " ago", and it starts with '-' exactly when the creation time lies after now. |
| `Utils.BucketUnit` | src/lib/utils.ts:28-40 | The first test that holds picks the unit, at exact thresholds in seconds: below 60 seconds; below 3600 minutes; below 86400 hours; below 2592000 (30 days) days; below 31104000 (360 days) months; otherwise years. Exactly one unit applies. |
| `Utils.BucketCount` | src/lib/utils.ts:18-26 | Each count is the seconds divided by the unit's length, rounded down: 1, 60, 3600, 86400, 30 days or 365 days. Months and years are derived from whole days. |
| `Utils.PluralRule` | src/lib/utils.ts:29-39 | The plural "s" appears exactly when the count is not 1. |
| `Utils.ZeroYears` | src/lib/utils.ts:25-39 | From 360 to 364 whole days the phrase is "0 years ago". |
| `Utils.FutureSeconds` | src/lib/utils.ts:18-29 | A negative elapsed time takes the seconds branch and prints a count that starts with '-'. |
| `Utils.NatTextRoundTrip` | src/lib/utils.ts:29 | The printed digits of a count read back as the same number. |
| `Utils.JsRem` | src/lib/utils.ts:54-56 | `%` takes the sign of the dividend: it is Dafny's remainder for non-negative days and lies in (-b, 0] for negative ones. |
| `Utils.JsRemNegate` | src/lib/utils.ts:54-56 | `%` on a negated day is the negated remainder, as JavaScript truncates toward zero. |
| `Utils.DaySuffix` | src/lib/utils.ts:53-58 | The suffix is always one of "st", "nd", "rd" and "th". |
| `Utils.DaySuffixOfDate` | src/lib/utils.ts:53-58 | For days 1 to 31: "st" for 1, 21 and 31; "nd" for 2 and 22; "rd" for 3 and 23; "th" for all others, including 11, 12 and 13. |
| `Utils.DaySuffixPeriodic` | src/lib/utils.ts:53-58 | For a non-negative day, only its last two digits decide the suffix. |
| `Utils.NegativeDayTh` | src/lib/utils.ts:53-58 | A negative day always gets "th". |
| `Utils.BaseUrl` | src/lib/utils.ts:64-69 | The URL is the protocol, then "://", then the host; an absent header prints as "null". If the protocol has no ':', it is read back as the URL's scheme. |

## Left out

- Database and identity-provider calls are not modelled as I/O. Each becomes input parameters: the caller, the email list, and one failure flag per call. Query semantics go no further than filtering rows by field equality or by membership in a list.
- Token signing and HMAC verification are abstract. A token is either a claim signed with a key, or text that is no token. `InviteToken.Verify` accepts exactly a token signed with the server's key while `now < exp`, and then yields its claim; text that is no token never verifies. The claim contents and the `exp` window are kept.
- A missing signing secret in the environment is not modelled. The key is always a string.
- A request body that is not JSON is not modelled. It throws outside any `try`, and the framework answers for it.
- `InviteRoute.Get`: which URLs `Response.redirect` rejects is not modelled. URL parsing is outside the model, so the flag `redirectRejects` says whether it throws; the membership is already inserted by then.
- Date parsing, `toLocaleString`, `toTimeString` and the rest of `prettyTimeStamp` are not modelled. `timeAgo` takes two millisecond timestamps, and `daySuffix` takes the day number.
- `cn` and `highlight` are not modelled. They only wrap CSS class-merging libraries.
- The React pages and components, and the fixed URL templates in the data files, are not modelled. They render only.
- The client-side vote rule (up, down or neutral, and the score) is not modelled. It lives in the client component `src/app/dashboard/[org_id]/_components/Ideas.tsx` (lines 545-613) and is not part of the routes. The server accepts whatever votes the client sends, as `IdeasRoute.Put` states.
- Concurrent requests are not modelled, for example lost updates of `votes`. Each handler is one sequential step.
- `IdeasRoute.Get`: the rows come back keyed by id. The order of the JSON array is not modelled, and neither is a request with no `id` parameter.
- `IdeasRoute.Post`, `IdeasRoute.Put`, `IdeasRoute.Delete`: the returned rows are given only where the route answers them. A missing or malformed body field (for example `ideas` absent) is not modelled.
- `OrgRoute.Post`: the organization id and `created_at` are taken as inputs. Validation of `name` by the database is not modelled.
- `OrgRoute.Post`, `OrgRoute.Put`: `description: None` stands for a JSON `null`. A body without a `description` key (or without `name`) is not modelled: JSON drops an undefined field, so an update then keeps the old value instead of clearing it.
