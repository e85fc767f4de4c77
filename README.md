# Two-store sync engine and profile-page rules, modelled in Dafny

This project models two parts of a social-network application.

**`DataSyncService` (server).** This engine copies users from the primary
record store (MongoDB, reached through `User.find`) into the graph store
(Neo4j, reached through `Neo4jService`). It also audits the two stores
against each other.

- The three sync operations are `syncAllUsers`, `syncAllFriendships` and
  `syncAllData`.
  - The first two catch each item's failure and carry on.
  - `syncAllData` clears the graph store and rebuilds it. Its first failure
    stops everything.
- The four audits are `validateDataConsistency`, `validateOnlineStatus`,
  `validateFriendGroups` and `validateInteractions`.

**`Profile` (client).** These are the decision rules of the profile page:

- who owns the page;
- what the privacy settings let a viewer see;
- which action buttons appear;
- how the local friendship status, following flag and followers list change
  after an action;
- the privacy gate on loading posts.

How the model is built:

- The graph store is the class `GraphStore.GraphAdapter`.
  - The store itself is a `Graph` value: nodes and edges as maps.
  - A log records every write attempted.
  - A write fails exactly when it is in the `rejected` set, which stands for
    the environment.
  - The read side is a set of abstract answers (`friendLists`, `onlineFlags`,
    `groups`, `histories`). A missing key means the read throws.
- The sync methods of `DataSync.DataSyncService` are loops over the users.
  They are proved against the write sequences in `SyncSpec`:
  - users and friendships run continue-on-failure (`RunIsolated`);
  - the rebuild runs fail-fast (`RunFailFast`).
  What those sequences do to the store is proved as lemmas.
- The audits are read-only loops with early exits. They are proved equal to
  the predicates in `AuditSpec`.
- The page is the class `ProfileView.ProfilePage`, one field per `useState`.
  Its handlers use the pure rules in `ProfileRules`.

Files:

- `wrappers.dfy`: `Option`, `Result` and `Outcome`.
- `primary_store.dfy`: the records and their defaults.
- `projection.dfy`: the node and edge projection.
- `graph_store.dfy`: the graph store and its runs.
- `sync_spec.dfy` and `audit_spec.dfy`: the specifications.
- `data_sync_service.dfy`: the engine.
- `profile_rules.dfy` and `profile_page.dfy`: the client.

## Model

| member | source | states |
|---|---|---|
| Projection.ProjectUser | Source/social-network/server/services/DataSyncService.js:18-25 | the projected node keeps the user's `_id` and `username` |
| Projection.ProjectUserDefaults | Source/social-network/server/services/DataSyncService.js:21-24 | `interests` is the record's list when present, else `[]`; `interactionFrequency` is the record's frequency when metrics and the frequency are both present, else 0 |
| Projection.ProjectUserIgnoresRelations | Source/social-network/server/services/DataSyncService.js:18-25 | the node depends only on id, username, interests and metrics, not on friendships, friends, groups or online status |
| Projection.ProjectUserRoundTrip | Source/social-network/server/services/DataSyncService.js:18-25 | projecting the record made from a node gives back that node |
| Projection.EdgeStatus | Source/social-network/server/services/DataSyncService.js:58 | the edge status is never the empty string |
| Projection.EdgeStatusDefault | Source/social-network/server/services/DataSyncService.js:58 | the status is `'regular'` exactly when the record's status is absent, empty or already `'regular'` |
| Projection.ProjectEdge | Source/social-network/server/services/DataSyncService.js:57-61 | the count defaults to 0 and the timestamp to "now" when absent; the status is non-empty |
| Projection.ProjectEdgeRoundTrip | Source/social-network/server/services/DataSyncService.js:57-61 | edge properties with a non-empty status survive the trip through a friendship record and back |
| GraphStore.RunIsolatedSnoc | Source/social-network/server/services/DataSyncService.js:16-30 | a continue-on-failure run over one more write is the earlier run followed by that write's attempt |
| GraphStore.RunFailFastSnoc | Source/social-network/server/services/DataSyncService.js:124-143 | before any failure, a fail-fast run over one more write issues it; the run has failed exactly when that write is rejected |
| GraphStore.RunFailFastStopped | Source/social-network/server/services/DataSyncService.js:146-148 | once a prefix of the writes has failed, the whole fail-fast run equals that prefix's run |
| GraphStore.RunIsolatedAttempts | Source/social-network/server/services/DataSyncService.js:16-30 | every write is attempted in order, and the i-th succeeds exactly when it is not rejected |
| GraphStore.RunFailFastAttempts | Source/social-network/server/services/DataSyncService.js:117-149 | a fail-fast run attempts the writes up to and including the first rejected one; every attempt but the last succeeded |
| GraphStore.RunFailFastAbsorbs | Source/social-network/server/services/DataSyncService.js:146-148 | after a failure, later writes change neither the store nor the attempts |
| GraphStore.RunFailFastUnhindered | Source/social-network/server/services/DataSyncService.js:117-149 | with no rejected write, the fail-fast run is the plain run and does not fail |
| GraphStore.RunIsolatedOverlay | Source/social-network/server/services/DataSyncService.js:16-30 | a run of upserts writes over the store exactly what the same run writes into an empty store |
| GraphStore.RunIsolatedIdempotent | Source/social-network/server/services/DataSyncService.js:16-30 | repeating a run of upserts leaves the store as one run left it |
| GraphStore.RunIsolatedEdges | Source/social-network/server/services/DataSyncService.js:54-62 | from an empty store, edge (o, f) exists exactly when some accepted write upserted it, and it holds the properties of the last accepted write of (o, f) |
| GraphStore.RunIsolatedNode | Source/social-network/server/services/DataSyncService.js:18-25 | from an empty store, node `id` exists exactly when some accepted write upserted it, and it holds the payload of the last accepted write of `id` |
| GraphStore.GraphAdapter.UpsertUser | Source/social-network/server/services/DataSyncService.js:18 | the call succeeds exactly when it is not rejected; store and log advance by that one attempt |
| GraphStore.GraphAdapter.UpsertFriendship | Source/social-network/server/services/DataSyncService.js:54-62 | the same contract, for an edge upsert |
| GraphStore.GraphAdapter.ClearAll | Source/social-network/server/services/DataSyncService.js:120 | the same contract, for clearing the store |
| GraphStore.GraphAdapter.GetFriendships | Source/social-network/server/services/DataSyncService.js:85 | the read succeeds exactly when the store has an answer for the user |
| GraphStore.GraphAdapter.GetUserOnlineStatus | Source/social-network/server/services/DataSyncService.js:157 | the read succeeds exactly when the store has a flag for the user |
| GraphStore.GraphAdapter.GetFriendGroups | Source/social-network/server/services/DataSyncService.js:180 | the read succeeds exactly when the store has groups for the user |
| GraphStore.GraphAdapter.GetFriendInteractionHistory | Source/social-network/server/services/DataSyncService.js:217-220 | the read succeeds exactly when the store has a history for the pair |
| SyncSpec.SyncUsersAttemptsEveryUser | Source/social-network/server/services/DataSyncService.js:16-30 | one upsert per user, in order; whether user i's upsert succeeds depends only on that upsert, so a failure never stops later users |
| SyncSpec.UserWritesAt | Source/social-network/server/services/DataSyncService.js:16-20 | the `syncAllUsers` writes (`UserWrites`) are one upsert per user, in user order, the i-th being the i-th user's projected node |
| SyncSpec.SyncUsersIdempotent | Source/social-network/server/services/DataSyncService.js:16-30 | running `syncAllUsers` twice leaves the store as running it once |
| SyncSpec.SyncUsersWritesEveryNode | Source/social-network/server/services/DataSyncService.js:16-30 | with no failed upsert, the id of every user holds the projected node of the last user with that id, whether or not the node existed before; every other node is left as it was |
| SyncSpec.UserEdgeWritesSkip | Source/social-network/server/services/DataSyncService.js:46 | a user issues no edge write exactly when `friendships` is absent or empty |
| SyncSpec.FriendshipWritesCount | Source/social-network/server/services/DataSyncService.js:45-67 | the number of edge writes equals the number of embedded friendship entries over all users |
| SyncSpec.UserEdgeWritesAt | Source/social-network/server/services/DataSyncService.js:45-62 | the writes for one user (the part of `FriendshipWrites` it contributes) are one projected edge per embedded entry, in list order, and none when `friendships` is absent |
| SyncSpec.FriendshipWriteIssued | Source/social-network/server/services/DataSyncService.js:47-62 | every (owner, friendship) entry's projected edge is written |
| SyncSpec.FriendshipWriteSource | Source/social-network/server/services/DataSyncService.js:54-62 | every edge written is the projection of some (owner, friendship) entry |
| SyncSpec.FriendshipWriteIn | Source/social-network/server/services/DataSyncService.js:45-67 | a write is issued exactly when it is the projection of some (owner, entry) pair |
| SyncSpec.NeighbourWriteIn | Source/social-network/server/services/DataSyncService.js:129-143 | a rebuild edge write is issued exactly for each (user, neighbour id) pair, with status `'regular'`, count 0 and "now" |
| SyncSpec.NeighbourWritesAreEdges | Source/social-network/server/services/DataSyncService.js:129-143 | every write of the edge phase is an edge upsert |
| SyncSpec.RebuildWritesOrder | Source/social-network/server/services/DataSyncService.js:123-143 | the repopulation contains no clear, and no node write follows an edge write |
| SyncSpec.RebuildOpsShape | Source/social-network/server/services/DataSyncService.js:117-149 | the writes of `syncAllData` (`RebuildOps`) start with the one clear and hold no other clear; after a failed enumeration the clear is the only write |
| SyncSpec.RebuildStopsAtFailedClear | Source/social-network/server/services/DataSyncService.js:120 | a failed clear is the rebuild's only attempt and leaves the store untouched |
| SyncSpec.RunIsolatedConcat | Source/social-network/server/services/DataSyncService.js:124-143 | running two sequences of writes one after the other is running their concatenation |
| SyncSpec.RebuildFromEmpty | Source/social-network/server/services/DataSyncService.js:117-149 | an unhindered rebuild does not fail, and leaves exactly what its repopulation writes into an empty store |
| SyncSpec.RebuildEdgeAt | Source/social-network/server/services/DataSyncService.js:129-143 | after the repopulation, edge (o, f) exists exactly when f is among o's friends, and it holds `'regular'`, 0, "now" |
| SyncSpec.RebuildNodeAt | Source/social-network/server/services/DataSyncService.js:123-126 | after the repopulation, node `id` exists exactly when a user has that id, and it holds that user's whole record |
| SyncSpec.RebuildResult | Source/social-network/server/services/DataSyncService.js:117-149 | an unhindered rebuild leaves nodes exactly for the users and edges exactly for the neighbour pairs, whatever the store held before |
| SyncSpec.RebuildPrefixInDocuments | Source/social-network/server/services/DataSyncService.js:124-126 | the clear plus the first node writes start the rebuild's write sequence |
| SyncSpec.RebuildPrefixInNeighbours | Source/social-network/server/services/DataSyncService.js:129-143 | all node writes, earlier users' edges and a prefix of this user's edges start the rebuild's write sequence |
| DataSync.DataSyncService.SyncAllUsers | Source/social-network/server/services/DataSyncService.js:11-37 | a failed enumeration is rethrown with nothing written; otherwise the store and log are the continue-on-failure run of one projected upsert per user |
| DataSync.DataSyncService.SyncAllFriendships | Source/social-network/server/services/DataSyncService.js:40-75 | a failed enumeration is rethrown; otherwise the store and log are the continue-on-failure run of the friendship edge writes |
| DataSync.DataSyncService.SyncAllData | Source/social-network/server/services/DataSyncService.js:117-150 | the store and log are the fail-fast run of clear, node writes and neighbour edges; a failed write or a failed enumeration is what the call reports |
| AuditSpec.PrimaryRefs | Source/social-network/server/services/DataSyncService.js:88-91 | one (friendId, status) pair per embedded friendship; none when the list is absent |
| AuditSpec.MissingInNeo4jExact | Source/social-network/server/services/DataSyncService.js:97 | `missingInNeo4j` holds each primary entry whose friendId is not a graph id, as often as it occurs, and nothing else |
| AuditSpec.MissingInMongoExact | Source/social-network/server/services/DataSyncService.js:98 | `missingInMongo` holds each graph entry whose friendId is not a primary id, as often as it occurs, and nothing else |
| AuditSpec.MissingInNeo4jConcat | Source/social-network/server/services/DataSyncService.js:97 | the filter keeps the entries in their original order |
| AuditSpec.MissingInMongoConcat | Source/social-network/server/services/DataSyncService.js:98 | the filter keeps the entries in their original order |
| AuditSpec.MissingInNeo4jEmpty | Source/social-network/server/services/DataSyncService.js:94-97 | nothing is missing in the graph store exactly when the primary ids are a subset of the graph ids |
| AuditSpec.MissingInMongoEmpty | Source/social-network/server/services/DataSyncService.js:94-98 | nothing is missing in the primary store exactly when the graph ids are a subset of the primary ids |
| AuditSpec.EntryIff | Source/social-network/server/services/DataSyncService.js:100-107 | a user gets an entry exactly when the two friend-id sets differ |
| AuditSpec.EntryIgnoresStatus | Source/social-network/server/services/DataSyncService.js:94-100 | the entry depends only on the id sets, so status differences are ignored |
| AuditSpec.ReportSucceeds | Source/social-network/server/services/DataSyncService.js:83-85 | the diff succeeds exactly when every user's graph read succeeds |
| AuditSpec.ReportFailurePersists | Source/social-network/server/services/DataSyncService.js:111-114 | a failed read is the answer of the whole diff |
| AuditSpec.ReportEntries | Source/social-network/server/services/DataSyncService.js:83-110 | every entry is the entry of some user, each user whose id sets differ has its entry in the report, and users whose sets agree have none |
| AuditSpec.EntryFor | Source/social-network/server/services/DataSyncService.js:93-108 | an entry names its user by `_id` and `username`, and at least one of its two lists is non-empty |
| AuditSpec.ReportOne | Source/social-network/server/services/DataSyncService.js:83-110 | the audit of one user is its read failure, or its entry when it has one and nothing otherwise |
| AuditSpec.ReportSnoc | Source/social-network/server/services/DataSyncService.js:83-110 | one more user, read successfully, appends exactly that user's entry (if any) to the report |
| AuditSpec.ReportConcat | Source/social-network/server/services/DataSyncService.js:83-110 | a successful report over two runs of users is the first run's report followed by the second's, so the report holds each user's entry once, in user order |
| AuditSpec.ReportEmptyIff | Source/social-network/server/services/DataSyncService.js:100-110 | the report is empty exactly when every user's two id sets agree |
| AuditSpec.StrayGraphEdgeReported | Source/social-network/server/services/DataSyncService.js:98-106 | a graph edge with no primary friendship is reported under `missingInMongo` |
| AuditSpec.OnlineAgrees | Source/social-network/server/services/DataSyncService.js:157-160 | a user agrees only when the graph store has a flag for it; a user without `onlineStatus` agrees exactly when that flag is false |
| AuditSpec.FindByName | Source/social-network/server/services/DataSyncService.js:194 | finds a group exactly when one has the name, and returns the first such group |
| AuditSpec.GroupMatches | Source/social-network/server/services/DataSyncService.js:193-199 | a matched primary group has a graph group with the same name and the same number of members |
| AuditSpec.GroupsAgree | Source/social-network/server/services/DataSyncService.js:184-200 | agreeing group lists have equal length; a user with no primary groups agrees exactly when the graph store lists none |
| AuditSpec.GroupsAgreeReflexive | Source/social-network/server/services/DataSyncService.js:184-200 | a group list with unique names agrees with itself |
| AuditSpec.GroupsAgreeNeedsUniqueNames | Source/social-network/server/services/DataSyncService.js:194-196 | with a duplicated name, a list can fail to agree with itself, because `find` returns the first same-named group |
| AuditSpec.GroupsAgreeIgnoresMembers | Source/social-network/server/services/DataSyncService.js:195-196 | only the names and member counts of groups matter, not who the members are |
| AuditSpec.PairAgrees | Source/social-network/server/services/DataSyncService.js:217-230 | a friendship agrees only when the graph store has a history for the pair; one without `interactions` agrees exactly when that history is empty |
| AuditSpec.UserInteractionsAgree | Source/social-network/server/services/DataSyncService.js:213-231 | a user without friendships is skipped; an agreeing user has a graph history for every friendship |
| DataSync.DataSyncService.ValidateDataConsistency | Source/social-network/server/services/DataSyncService.js:78-115 | the result is the diff report of the users against the graph reads, or the first failed read; the method writes nothing |
| DataSync.DataSyncService.ValidateOnlineStatus | Source/social-network/server/services/DataSyncService.js:153-173 | true exactly when the enumeration succeeds and every user's graph flag is read and equals the primary flag (absent means false) |
| DataSync.DataSyncService.ValidateFriendGroups | Source/social-network/server/services/DataSyncService.js:176-207 | true exactly when, for every user, the group counts agree and every primary group has a same-named graph group of equal size |
| DataSync.DataSyncService.ValidateInteractions | Source/social-network/server/services/DataSyncService.js:210-238 | true exactly when, for every user with `friendships` and every entry, the graph history is read and has as many interactions as the entry |
| ProfileRules.OwnProfileIff | Source/social-network/client/src/components/Profile/Profile.js:232-234 | with no route id the page is one's own; with one, exactly when the signed-in id is the loaded profile's `_id` |
| ProfileRules.IsOwnProfile | Source/social-network/client/src/components/Profile/Profile.js:232-234 | with no route id the page is one's own; with one, only when someone is signed in and a profile is loaded |
| ProfileRules.OwnProfileMatchesRoute | Source/social-network/client/src/components/Profile/Profile.js:232-234 | once the loaded profile is the route's, ownership is exactly the route check `userId === currentUserId` of the posts gate, and the button row is never empty |
| ProfileRules.CanView | Source/social-network/client/src/components/Profile/Profile.js:237-257 | visible exactly when the page is one's own, or the profile is public or the viewer a friend and the list's show setting is not `false` |
| ProfileRules.ListShown | Source/social-network/client/src/components/Profile/Profile.js:240-255 | an absent privacy object or setting shows the list; only an explicit `false` hides it |
| ProfileRules.IsPrivateProfile | Source/social-network/client/src/components/Profile/Profile.js:468-470 | one's own page is never private; a private profile is a loaded one with privacy settings |
| ProfileRules.OwnerSeesEverything | Source/social-network/client/src/components/Profile/Profile.js:237-257 | the owner sees both lists, never sees a private profile, and gets only the edit button |
| ProfileRules.StrangerSeesNoListsOfNonPublic | Source/social-network/client/src/components/Profile/Profile.js:245 | on a non-public profile a non-friend non-owner sees neither list |
| ProfileRules.HiddenListStaysHidden | Source/social-network/client/src/components/Profile/Profile.js:240-243 | a show setting of `false` hides that list from every non-owner |
| ProfileRules.FriendsSeeShownLists | Source/social-network/client/src/components/Profile/Profile.js:242-243 | a friend sees every list whose setting does not hide it |
| ProfileRules.FriendButton | Source/social-network/client/src/components/Profile/Profile.js:522-538 | the add button is shown exactly for statuses other than `friends`, `pending` and `received` |
| ProfileRules.ActionButtons | Source/social-network/client/src/components/Profile/Profile.js:495-547 | edit appears exactly on one's own page; follow exactly when the page is neither one's own nor the route id one's own; the friendship button exactly when, in addition, the profile is not private |
| ProfileRules.PrivateProfileFollowOnly | Source/social-network/client/src/components/Profile/Profile.js:509-518 | a private profile shown to someone else has only the follow button |
| ProfileRules.OtherProfileButtons | Source/social-network/client/src/components/Profile/Profile.js:520-546 | any other page shows the status's friendship button, then the follow button |
| ProfileRules.NextFriendStatus | Source/social-network/client/src/components/Profile/Profile.js:411-436 | `'none'` becomes `'pending'` and `'friends'` becomes `'none'`; any other status stays unchanged; the result is never `'friends'` |
| ProfileRules.FriendActionButtons | Source/social-network/client/src/components/Profile/Profile.js:411-436 | after adding, the button is the disabled "request sent"; after deleting, it offers adding again |
| ProfileRules.AddButtonWithoutRequest | Source/social-network/client/src/components/Profile/Profile.js:534-537 | a status outside the four known ones shows the add button, but the action sends nothing and changes nothing |
| ProfileRules.RemoveAll | Source/social-network/client/src/components/Profile/Profile.js:586 | the filtered list is the original with every occurrence of the user removed and every other id kept as often as before |
| ProfileRules.RemoveAllConcat | Source/social-network/client/src/components/Profile/Profile.js:586 | the filter keeps the other entries in their order |
| ProfileRules.RemoveAllAbsent | Source/social-network/client/src/components/Profile/Profile.js:586 | removing an id that is not in the list changes nothing |
| ProfileRules.UnfollowRemoves | Source/social-network/client/src/components/Profile/Profile.js:582-587 | after an unfollow the user is absent, and every other id keeps its count |
| ProfileRules.FollowAppends | Source/social-network/client/src/components/Profile/Profile.js:585 | after a follow the user is appended at the end and the rest is unchanged |
| ProfileRules.FollowThenUnfollow | Source/social-network/client/src/components/Profile/Profile.js:582-587 | follow then unfollow gives the list without the user; when the user was not in it, that is the original list |
| ProfileRules.UnfollowIdempotent | Source/social-network/client/src/components/Profile/Profile.js:586 | unfollowing twice is unfollowing once |
| ProfileRules.FollowersAfter | Source/social-network/client/src/components/Profile/Profile.js:582-587 | after a follow the user is in the followers with one more occurrence; after an unfollow every occurrence is gone and all other ids are kept |
| ProfileRules.FollowClickOutcome | Source/social-network/client/src/components/Profile/Profile.js:560-596 | a click ends on the server's answer; a failed request restores the value from before the click |
| ProfileRules.FollowClickAsWrittenKeepsOptimistic | Source/social-network/client/src/components/Profile/Profile.js:591-593 | as written, a failed request leaves the optimistic `!prev` in place, unlike the intended rollback |
| ProfileRules.FollowClickVersionsAgreeOnAnswer | Source/social-network/client/src/components/Profile/Profile.js:575-578 | when the server answers, both versions end on the answer |
| ProfileRules.PostsGate | Source/social-network/client/src/components/Profile/Profile.js:348 | posts of a profile that is not `isPrivate` are always fetched; a private profile's only when the route id is the signed-in user's |
| ProfileRules.PostsFetched | Source/social-network/client/src/components/Profile/Profile.js:348 | posts of a profile that is not private are fetched; a private profile's only when the route id is present and is the signed-in id |
| ProfileRules.OwnPrivatePostsNotFetchedWithoutRouteId | Source/social-network/client/src/components/Profile/Profile.js:348-366 | on `/profile` with no route id, a private account's own page counts as its own, yet its posts are not fetched |
| ProfileView.ProfilePage.constructor | Source/social-network/client/src/components/Profile/Profile.js:217-225 | the initial state of the hooks |
| ProfileView.ProfilePage.FetchProfileData | Source/social-network/client/src/components/Profile/Profile.js:279-398 | a call during a pass does nothing; otherwise loading and fetching always end cleared; no session or a failed profile request changes no other state; a loaded profile sets the statuses (with fallbacks) only for someone else's page, and sets posts and follow lists only past the privacy gate; a private profile's posts stay empty for other viewers |
| ProfileView.ProfilePage.HandleFriendAction | Source/social-network/client/src/components/Profile/Profile.js:401-442 | with a session, the status moves by `NextFriendStatus` unless the request it needed failed; a reload follows exactly in those cases |
| ProfileView.ProfilePage.HandleFollowClick | Source/social-network/client/src/components/Profile/Profile.js:550-597 | corrected rollback: `isFollowing` ends on the server's answer, or on its value before the click when the request failed; the followers gain or lose the user per the answer |
| ProfileView.ProfilePage.HandleFollowClickAsWritten | Source/social-network/client/src/components/Profile/Profile.js:550-597 | as written: a failed request leaves `isFollowing` flipped; the followers are updated as in the corrected version |

## Left out

- Logging, `async`/`await` suspension and `Promise.all` parallelism are not modelled. Every handler runs to completion in program order, and React's batched state updates are treated as sequential assignments.
- `User.find`, `populate` and the internals of `Neo4jService` are foreign calls.
  - The enumeration is a parameter of each operation (`Enumeration`).
  - The graph store's writes are upserts into maps.
  - Its reads are abstract answers held in the adapter.
- Neo4jService's node merging and property mapping are not part of this model.
  - The rebuild's whole-document node write is kept as a distinct payload (`Document`).
  - An edge upsert does not create missing nodes.
- A friendship whose `friend` does not populate (a dangling reference) makes `validateDataConsistency` throw on `f.friend._id`. This is not modelled: every embedded friendship carries an id.
- `new Date()` is called once per edge in the source. The model uses one `now` per pass.
- `Number(...)` conversions and JavaScript truthiness over non-boolean values are not modelled.
  - Fields are typed: an absent field is `None`.
  - `|| default` is written out for absent fields and, for the status, for the empty string.
- `fetchFollowData` (Profile.js:260-277) is not part of this model: no handler calls it.
- The mount effects (Profile.js:450-465) are not modelled as operations. The signed-in id is a constructor argument.
- JSX rendering, styled components, the antd `message` and `Modal` calls, axios headers, `sessionStorage` and `jwtDecode` are left out.
  - The session check is the `hasSession` flag.
  - Each server answer is a parameter.
- JavaScript `null` and `undefined` are both `None`. This matters only if a token decodes to no `userId` while no profile is loaded, and that state never renders.
- The graph store's read side is independent of its write side. The getters answer from `friendLists`, `onlineFlags`, `groups` and `histories`, and no write changes them. So in the model an audit never sees what a sync wrote, and after `SyncAllData` clears the store the getters still give their old answers.
- A write's failure depends only on the write itself (`rejected` is a set of writes). Two identical writes always both succeed or both fail; a failure that depends on time or on earlier writes is not modelled.
- HandleFollowClick: requires a signed-in user. The follow button renders only after a load, and Profile.js:461-465 loads only once `currentUserId` is set.
- HandleFollowClickAsWritten: requires a signed-in user, as HandleFollowClick does.
- ActionButtons: describes the page after loading finished. The spinner and "not found" early returns (Profile.js:473-492) are rendering, and are left out.

## Findings

| source | as written | input that shows it | evidently intended | confidence | as-written member | corrected member |
|---|---|---|---|---|---|---|
| Source/social-network/client/src/components/Profile/Profile.js:591-593 | the catch block "rolls back" with `setIsFollowing(!isFollowing)`. `isFollowing` is the value captured when the click was rendered, so `!isFollowing` is the optimistic value set at line 562, and nothing is rolled back | `isFollowing = false`, follow request fails: the page shows "following" | restore the value from before the click (`isFollowing` unchanged) | not executed; follows from React closure semantics | ProfileView.ProfilePage.HandleFollowClickAsWritten, ProfileRules.FollowClickAsWrittenKeepsOptimistic | ProfileView.ProfilePage.HandleFollowClick, ProfileRules.FollowClickOutcome |
