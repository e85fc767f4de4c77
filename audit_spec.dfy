/** What the four audits of DataSyncService.js compute, as functions of the
    primary-store users and the graph store's answers. */
module AuditSpec {
  import opened Wrappers
  import opened PrimaryStore
  import opened GraphStore

  // ----- validateDataConsistency (DataSyncService.js:83-110) -----

  /** The primary side reduced to `{friendId, status}` (lines 88-91). */
  datatype PrimaryFriendRef = PrimaryFriendRef(friendId: Id, status: Option<string>)

  /** One entry of the divergence report. */
  datatype Inconsistency = Inconsistency(
    userId: Id,
    username: string,
    missingInNeo4j: seq<PrimaryFriendRef>,
    missingInMongo: seq<GraphFriendship>)

  function PrimaryRefs(u: UserRecord): (refs: seq<PrimaryFriendRef>)
    ensures |refs| == |PrimaryFriendships(u)|
  {
    var fs := PrimaryFriendships(u);
    seq(|fs|, i requires 0 <= i < |fs| => PrimaryFriendRef(fs[i].friend, fs[i].status))
  }

  function RefIds(refs: seq<PrimaryFriendRef>): set<Id>
  {
    set r | r in refs :: r.friendId
  }

  function GraphIds(entries: seq<GraphFriendship>): set<Id>
  {
    set e | e in entries :: e.friendId
  }

  /** `mongoFriendships.filter(f => !neo4jFriendIds.has(f.friendId))` */
  function MissingInNeo4j(refs: seq<PrimaryFriendRef>, graphIds: set<Id>): seq<PrimaryFriendRef>
  {
    if refs == [] then []
    else if refs[0].friendId in graphIds then MissingInNeo4j(refs[1..], graphIds)
    else [refs[0]] + MissingInNeo4j(refs[1..], graphIds)
  }

  /** `neo4jFriendships.filter(f => !mongoFriendIds.has(f.friendId))` */
  function MissingInMongo(entries: seq<GraphFriendship>, primaryIds: set<Id>): seq<GraphFriendship>
  {
    if entries == [] then []
    else if entries[0].friendId in primaryIds then MissingInMongo(entries[1..], primaryIds)
    else [entries[0]] + MissingInMongo(entries[1..], primaryIds)
  }

  /** The report entry for one user, given what the graph store lists for it. */
  function EntryFor(u: UserRecord, graphList: seq<GraphFriendship>): (r: Option<Inconsistency>)
    ensures r.Some? ==> r.value.userId == u.id && r.value.username == u.username
    ensures r.Some? ==> |r.value.missingInNeo4j| + |r.value.missingInMongo| > 0
  {
    var refs := PrimaryRefs(u);
    var missingInNeo4j := MissingInNeo4j(refs, GraphIds(graphList));
    var missingInMongo := MissingInMongo(graphList, RefIds(refs));
    if |missingInNeo4j| > 0 || |missingInMongo| > 0
    then Some(Inconsistency(u.id, u.username, missingInNeo4j, missingInMongo))
    else None
  }

  /** The whole audit: entries in user order; the first failed graph read
      aborts it with that read's error. */
  function Report(users: seq<UserRecord>, lists: map<Id, seq<GraphFriendship>>): Result<seq<Inconsistency>, Error>
    decreases |users|
  {
    if users == [] then Success([])
    else
      match Report(AllButLast(users), lists)
      case Failure(e) => Failure(e)
      case Success(acc) =>
        var u := Last(users);
        if u.id !in lists then Failure(GraphReadFailed(u.id))
        else match EntryFor(u, lists[u.id])
             case Some(e) => Success(acc + [e])
             case None => Success(acc)
  }

  /** Both sides list the same friend ids for this user. */
  predicate SameFriendIds(u: UserRecord, graphList: seq<GraphFriendship>)
  {
    RefIds(PrimaryRefs(u)) == GraphIds(graphList)
  }

  /** `missingInNeo4j` is exactly the primary entries whose friend id the
      graph does not list, each kept as often as it occurs. */
  lemma {:induction false} MissingInNeo4jExact(refs: seq<PrimaryFriendRef>, graphIds: set<Id>)
    ensures forall r :: multiset(MissingInNeo4j(refs, graphIds))[r] ==
                          if r.friendId in graphIds then 0 else multiset(refs)[r]
  {
    if refs != [] {
      MissingInNeo4jExact(refs[1..], graphIds);
      assert refs == [refs[0]] + refs[1..];
    }
  }

  /** `missingInMongo` is exactly the graph entries whose friend id the
      primary side does not list, each kept as often as it occurs. */
  lemma {:induction false} MissingInMongoExact(entries: seq<GraphFriendship>, primaryIds: set<Id>)
    ensures forall e :: multiset(MissingInMongo(entries, primaryIds))[e] ==
                          if e.friendId in primaryIds then 0 else multiset(entries)[e]
  {
    if entries != [] {
      MissingInMongoExact(entries[1..], primaryIds);
      assert entries == [entries[0]] + entries[1..];
    }
  }

  /** Both filters keep the surviving entries in their original order. */
  lemma {:induction false} MissingInNeo4jConcat(a: seq<PrimaryFriendRef>, b: seq<PrimaryFriendRef>, graphIds: set<Id>)
    ensures MissingInNeo4j(a + b, graphIds) == MissingInNeo4j(a, graphIds) + MissingInNeo4j(b, graphIds)
  {
    if a != [] {
      assert (a + b)[1..] == a[1..] + b;
      MissingInNeo4jConcat(a[1..], b, graphIds);
    } else {
      assert a + b == b;
    }
  }

  lemma {:induction false} MissingInMongoConcat(a: seq<GraphFriendship>, b: seq<GraphFriendship>, primaryIds: set<Id>)
    ensures MissingInMongo(a + b, primaryIds) == MissingInMongo(a, primaryIds) + MissingInMongo(b, primaryIds)
  {
    if a != [] {
      assert (a + b)[1..] == a[1..] + b;
      MissingInMongoConcat(a[1..], b, primaryIds);
    } else {
      assert a + b == b;
    }
  }

  lemma {:induction false} MissingInNeo4jEmpty(refs: seq<PrimaryFriendRef>, graphIds: set<Id>)
    ensures MissingInNeo4j(refs, graphIds) == [] <==> RefIds(refs) <= graphIds
  {
    if refs != [] {
      MissingInNeo4jEmpty(refs[1..], graphIds);
      assert refs == [refs[0]] + refs[1..];
      assert RefIds(refs) == {refs[0].friendId} + RefIds(refs[1..]);
    }
  }

  lemma {:induction false} MissingInMongoEmpty(entries: seq<GraphFriendship>, primaryIds: set<Id>)
    ensures MissingInMongo(entries, primaryIds) == [] <==> GraphIds(entries) <= primaryIds
  {
    if entries != [] {
      MissingInMongoEmpty(entries[1..], primaryIds);
      assert entries == [entries[0]] + entries[1..];
      assert GraphIds(entries) == {entries[0].friendId} + GraphIds(entries[1..]);
    }
  }

  /** A user gets an entry exactly when the two sides' friend-id sets differ. */
  lemma EntryIff(u: UserRecord, graphList: seq<GraphFriendship>)
    ensures EntryFor(u, graphList).Some? <==> !SameFriendIds(u, graphList)
  {
    MissingInNeo4jEmpty(PrimaryRefs(u), GraphIds(graphList));
    MissingInMongoEmpty(graphList, RefIds(PrimaryRefs(u)));
  }

  /** The comparison is by id only: statuses on either side never make or
      unmake an entry. */
  lemma EntryIgnoresStatus(u: UserRecord, v: UserRecord, g: seq<GraphFriendship>, h: seq<GraphFriendship>)
    requires RefIds(PrimaryRefs(u)) == RefIds(PrimaryRefs(v)) && GraphIds(g) == GraphIds(h)
    ensures EntryFor(u, g).Some? <==> EntryFor(v, h).Some?
  {
    EntryIff(u, g);
    EntryIff(v, h);
  }

  /** The audit fails exactly when some user has no graph answer. */
  lemma {:induction false} ReportSucceeds(users: seq<UserRecord>, lists: map<Id, seq<GraphFriendship>>)
    ensures Report(users, lists).Success? <==> forall i :: 0 <= i < |users| ==> users[i].id in lists
    decreases |users|
  {
    if users != [] {
      ReportSucceeds(AllButLast(users), lists);
      assert forall i :: 0 <= i < |users| - 1 ==> AllButLast(users)[i] == users[i];
    }
  }

  /** A failed read aborts the audit: once a prefix of the users fails, the
      whole audit fails with the same error. */
  lemma {:induction false} ReportFailurePersists(users: seq<UserRecord>, lists: map<Id, seq<GraphFriendship>>, k: nat)
    requires k <= |users| && Report(users[..k], lists).Failure?
    ensures Report(users, lists) == Report(users[..k], lists)
    decreases |users| - k
  {
    if k < |users| {
      assert AllButLast(users[..k + 1]) == users[..k];
      ReportFailurePersists(users, lists, k + 1);
    } else {
      assert users[..k] == users;
    }
  }

  /** A successful audit holds an entry for each user whose friend-id sets
      differ and no other entry (order and multiplicity: `ReportConcat`). */
  lemma ReportEntries(users: seq<UserRecord>, lists: map<Id, seq<GraphFriendship>>)
    requires Report(users, lists).Success?
    ensures var r := Report(users, lists).value;
      && |r| <= |users|
      && (forall e :: e in r ==>
            exists i :: 0 <= i < |users| && users[i].id in lists && EntryFor(users[i], lists[users[i].id]) == Some(e))
      && (forall i :: 0 <= i < |users| && users[i].id in lists ==>
            (!SameFriendIds(users[i], lists[users[i].id]) <==> EntryFor(users[i], lists[users[i].id]).Some?))
      && (forall i :: 0 <= i < |users| && users[i].id in lists && EntryFor(users[i], lists[users[i].id]).Some? ==>
            EntryFor(users[i], lists[users[i].id]).value in r)
  {
    ReportMembers(users, lists);
    forall i | 0 <= i < |users| && users[i].id in lists {
      EntryIff(users[i], lists[users[i].id]);
    }
  }

  /** The membership half of `ReportEntries`, by induction on the users. */
  lemma {:induction false} ReportMembers(users: seq<UserRecord>, lists: map<Id, seq<GraphFriendship>>)
    requires Report(users, lists).Success?
    ensures var r := Report(users, lists).value;
      && |r| <= |users|
      && (forall e :: e in r ==>
            exists i :: 0 <= i < |users| && users[i].id in lists && EntryFor(users[i], lists[users[i].id]) == Some(e))
      && (forall i :: 0 <= i < |users| && users[i].id in lists && EntryFor(users[i], lists[users[i].id]).Some? ==>
            EntryFor(users[i], lists[users[i].id]).value in r)
    decreases |users|
  {
    if users != [] {
      var p, u := AllButLast(users), Last(users);
      assert users == p + [u];
      ReportSnoc(p, u, lists);
      ReportMembers(p, lists);
      assert forall i :: 0 <= i < |p| ==> p[i] == users[i];
    }
  }

  /** The entries one user contributes: its entry, if it has one. */
  function EntryList(entry: Option<Inconsistency>): seq<Inconsistency>
  {
    match entry
    case Some(e) => [e]
    case None => []
  }

  /** The audit of one user: its graph read fails, or the report holds that
      user's entry when it has one and nothing otherwise. */
  lemma ReportOne(u: UserRecord, lists: map<Id, seq<GraphFriendship>>)
    ensures Report([u], lists) ==
              if u.id !in lists then Failure(GraphReadFailed(u.id)) else Success(EntryList(EntryFor(u, lists[u.id])))
  {
    assert AllButLast([u]) == [] && Last([u]) == u;
    if u.id in lists && EntryFor(u, lists[u.id]).Some? {
      assert [] + [EntryFor(u, lists[u.id]).value] == [EntryFor(u, lists[u.id]).value];
    }
  }

  /** The audit of a list of users is the audit of its two halves, one after
      the other: a successful report is the users' entries in user order,
      each user contributing its own entry at most once. */
  lemma {:induction false} ReportConcat(a: seq<UserRecord>, b: seq<UserRecord>, lists: map<Id, seq<GraphFriendship>>)
    requires Report(a + b, lists).Success?
    ensures Report(a, lists).Success? && Report(b, lists).Success?
    ensures Report(a + b, lists).value == Report(a, lists).value + Report(b, lists).value
    decreases |b|
  {
    if b == [] {
      assert a + b == a;
    } else {
      var p, x := AllButLast(b), Last(b);
      assert b == p + [x];
      assert a + b == (a + p) + [x];
      ReportSnoc(a + p, x, lists);
      ReportConcat(a, p, lists);
      ReportSnoc(p, x, lists);
      var ea, ep, ex := Report(a, lists).value, Report(p, lists).value, EntryList(EntryFor(x, lists[x.id]));
      assert ea + ep + ex == ea + (ep + ex);
    }
  }

  /** One more user extends a successful audit by that user's entry, if any. */
  lemma ReportSnoc(users: seq<UserRecord>, u: UserRecord, lists: map<Id, seq<GraphFriendship>>)
    requires Report(users + [u], lists).Success?
    ensures Report(users, lists).Success? && u.id in lists
    ensures Report(users + [u], lists).value == Report(users, lists).value + EntryList(EntryFor(u, lists[u.id]))
  {
    assert AllButLast(users + [u]) == users && Last(users + [u]) == u;
  }

  /** Audit soundness: the report is empty exactly when every user's two
      friend-id sets agree. */
  lemma {:induction false} ReportEmptyIff(users: seq<UserRecord>, lists: map<Id, seq<GraphFriendship>>)
    requires Report(users, lists).Success?
    ensures Report(users, lists).value == [] <==>
              forall i :: 0 <= i < |users| ==> users[i].id in lists && SameFriendIds(users[i], lists[users[i].id])
    decreases |users|
  {
    ReportSucceeds(users, lists);
    if users != [] {
      var p := AllButLast(users);
      var u := Last(users);
      ReportEmptyIff(p, lists);
      assert forall i :: 0 <= i < |p| ==> p[i] == users[i];
      assert u == users[|users| - 1];
      EntryIff(u, lists[u.id]);
    }
  }

  /** The stray-edge scenario: A lists B in the primary store; the graph store
      answers B and C for A and nothing for B. The report has exactly one
      entry, for A, with C in `missingInMongo` and nothing in `missingInNeo4j`. */
  lemma StrayGraphEdgeReported()
    ensures var a := UserRecord("A", "alice", None, None,
                                Some([Friendship("B", Some("regular"), Some(3), None, None)]), None, None, None);
            var b := UserRecord("B", "bob", None, None, None, None, None, None);
            var lists := map["A" := [GraphFriendship("B", "regular"), GraphFriendship("C", "regular")], "B" := []];
            Report([a, b], lists) == Success([Inconsistency("A", "alice", [], [GraphFriendship("C", "regular")])])
  {
    var a := UserRecord("A", "alice", None, None,
                        Some([Friendship("B", Some("regular"), Some(3), None, None)]), None, None, None);
    var b := UserRecord("B", "bob", None, None, None, None, None, None);
    var lists := map["A" := [GraphFriendship("B", "regular"), GraphFriendship("C", "regular")], "B" := []];
    assert PrimaryRefs(a) == [PrimaryFriendRef("B", Some("regular"))];
    assert RefIds(PrimaryRefs(a)) == {"B"};
    assert GraphIds(lists["A"]) == {"B", "C"};
    assert "C" != "B";
    assert MissingInNeo4j(PrimaryRefs(a), GraphIds(lists["A"])) == [];
    assert MissingInMongo(lists["A"][1..], RefIds(PrimaryRefs(a))) == [GraphFriendship("C", "regular")];
    assert MissingInMongo(lists["A"], RefIds(PrimaryRefs(a))) == [GraphFriendship("C", "regular")];
    assert EntryFor(a, lists["A"]) == Some(Inconsistency("A", "alice", [], [GraphFriendship("C", "regular")]));
    assert PrimaryRefs(b) == [];
    assert EntryFor(b, lists["B"]) == None;
    assert AllButLast([a, b]) == [a];
    assert AllButLast([a]) == [] && Last([a]) == a && Last([a, b]) == b;
    assert Report([], lists) == Success([]);
    assert "A" in lists;
    var e := Inconsistency("A", "alice", [], [GraphFriendship("C", "regular")]);
    assert Report(AllButLast([a]), lists) == Success([]);
    assert Last([a]).id in lists && EntryFor(Last([a]), lists[Last([a]).id]) == Some(e);
    assert [] + [e] == [e];
    assert Report([a], lists) == Success([Inconsistency("A", "alice", [], [GraphFriendship("C", "regular")])]);
  }

  // ----- validateOnlineStatus (DataSyncService.js:156-168) -----

  /** The graph store answers for the user, with the primary flag
      (absent reads as `false`). */
  predicate OnlineAgrees(u: UserRecord, flags: map<Id, bool>)
    ensures OnlineAgrees(u, flags) ==> u.id in flags
    ensures u.onlineStatus.None? ==> (OnlineAgrees(u, flags) <==> u.id in flags && !flags[u.id])
  {
    u.id in flags && flags[u.id] == PrimaryOnline(u)
  }

  // ----- validateFriendGroups (DataSyncService.js:179-202) -----

  /** `neo4jGroups.find(g => g.name === name)`: the first group so named. */
  function FindByName(groups: seq<FriendGroup>, name: string): (r: Option<FriendGroup>)
    ensures r.Some? <==> exists k :: 0 <= k < |groups| && groups[k].name == name
    ensures r.Some? ==> exists k :: 0 <= k < |groups| && groups[k] == r.value && r.value.name == name &&
                                    forall l :: 0 <= l < k ==> groups[l].name != name
  {
    if groups == [] then None
    else if groups[0].name == name then Some(groups[0])
    else
      var r := FindByName(groups[1..], name);
      assert forall k :: 1 <= k < |groups| ==> groups[k] == groups[1..][k - 1];
      r
  }

  /** A primary group has a same-named graph group of the same size. */
  predicate GroupMatches(group: FriendGroup, graphGroups: seq<FriendGroup>)
    ensures GroupMatches(group, graphGroups) ==>
              exists k :: 0 <= k < |graphGroups| && graphGroups[k].name == group.name &&
                |graphGroups[k].members| == |group.members|
  {
    var found := FindByName(graphGroups, group.name);
    found.Some? && |found.value.members| == |group.members|
  }

  /** The group audit of one user: equal counts, then every primary group
      matched by name and member count. */
  predicate GroupsAgree(primary: seq<FriendGroup>, graphGroups: seq<FriendGroup>)
    ensures GroupsAgree(primary, graphGroups) ==> |graphGroups| == |primary|
    ensures primary == [] ==> (GroupsAgree(primary, graphGroups) <==> graphGroups == [])
  {
    |graphGroups| == |primary| && forall k :: 0 <= k < |primary| ==> GroupMatches(primary[k], graphGroups)
  }

  predicate UserGroupsAgree(u: UserRecord, groups: map<Id, seq<FriendGroup>>)
  {
    u.id in groups && GroupsAgree(PrimaryGroups(u), groups[u.id])
  }

  /** Group names are unique per owner. */
  predicate UniqueNames(groups: seq<FriendGroup>)
  {
    forall k, l :: 0 <= k < l < |groups| ==> groups[k].name != groups[l].name
  }

  /** With unique names (the data model's invariant), a store holding the
      same groups as the primary side passes the group audit. */
  lemma GroupsAgreeReflexive(groups: seq<FriendGroup>)
    requires UniqueNames(groups)
    ensures GroupsAgree(groups, groups)
  {
    forall k | 0 <= k < |groups|
      ensures GroupMatches(groups[k], groups)
    {
      var found := FindByName(groups, groups[k].name);
      var m :| 0 <= m < |groups| && groups[m] == found.value && found.value.name == groups[k].name &&
               forall l :: 0 <= l < m ==> groups[l].name != groups[k].name;
      assert m == k;
    }
  }

  /** Without unique names the audit can reject identical data: `find`
      matches only the first of two same-named groups. */
  lemma GroupsAgreeNeedsUniqueNames()
    ensures var groups := [FriendGroup("close", ["x"]), FriendGroup("close", [])];
            !GroupsAgree(groups, groups)
  {
    var groups := [FriendGroup("close", ["x"]), FriendGroup("close", [])];
    assert FindByName(groups, "close") == Some(FriendGroup("close", ["x"]));
    assert !GroupMatches(groups[1], groups);
  }

  /** The group audit compares sizes, not members: renaming members within
      groups of the same sizes never changes its answer. */
  lemma GroupsAgreeIgnoresMembers(primary: seq<FriendGroup>, other: seq<FriendGroup>, graphGroups: seq<FriendGroup>)
    requires |primary| == |other|
    requires forall k :: 0 <= k < |primary| ==>
               primary[k].name == other[k].name && |primary[k].members| == |other[k].members|
    ensures GroupsAgree(primary, graphGroups) <==> GroupsAgree(other, graphGroups)
  {
    assert forall k :: 0 <= k < |primary| ==> (GroupMatches(primary[k], graphGroups) <==> GroupMatches(other[k], graphGroups));
  }

  // ----- validateInteractions (DataSyncService.js:213-231) -----

  /** Both sides hold the same number of interactions for this friendship. */
  predicate PairAgrees(owner: Id, f: Friendship, histories: map<(Id, Id), seq<Interaction>>)
    ensures PairAgrees(owner, f, histories) ==> (owner, f.friend) in histories
    ensures f.interactions.None? ==>
              (PairAgrees(owner, f, histories) <==> (owner, f.friend) in histories && histories[(owner, f.friend)] == [])
  {
    (owner, f.friend) in histories && |histories[(owner, f.friend)]| == |PrimaryInteractions(f)|
  }

  /** A user without `friendships` is skipped; otherwise every friendship
      must agree. */
  predicate UserInteractionsAgree(u: UserRecord, histories: map<(Id, Id), seq<Interaction>>)
    ensures PrimaryFriendships(u) == [] ==> UserInteractionsAgree(u, histories)
    ensures UserInteractionsAgree(u, histories) ==>
              forall j :: 0 <= j < |PrimaryFriendships(u)| ==> (u.id, PrimaryFriendships(u)[j].friend) in histories
  {
    forall j :: 0 <= j < |PrimaryFriendships(u)| ==> PairAgrees(u.id, PrimaryFriendships(u)[j], histories)
  }
}
