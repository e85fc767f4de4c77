/** The synchronisation and audit engine (`DataSyncService`): three sync
    operations that write the graph store from the primary store's users and
    four audits that compare the two stores. The enumeration of the users
    (`User.find`) is a parameter; the graph store is the adapter object the
    engine holds. */
module DataSync {
  import opened Wrappers
  import opened PrimaryStore
  import opened Projection
  import opened GraphStore
  import opened SyncSpec
  import opened AuditSpec

  class DataSyncService {
    const graph: GraphAdapter

    constructor (graph: GraphAdapter)
      ensures this.graph == graph
    {
      this.graph := graph;
    }

    /** The store and the log are those of a continue-on-failure run of
        `ops` that started from `g0` and `log0`. */
    ghost predicate IsolatedAt(g0: Graph, log0: seq<Attempt>, ops: seq<WriteOp>)
      reads graph
    {
      IsolatedFrom(Trace(graph.state, graph.log), g0, log0, graph.rejected, ops)
    }

    /** `syncAllUsers`: project and upsert every user; a failed upsert is
        caught and the next user is still attempted. A failed enumeration is
        rethrown before anything is written. */
    method SyncAllUsers(users: Enumeration) returns (r: Outcome<Error>)
      modifies graph`state, graph`log
      ensures users.Failure? ==> r == Fail(users.error) && graph.state == old(graph.state) && graph.log == old(graph.log)
      ensures users.Success? ==>
                var t := RunIsolated(old(graph.state), graph.rejected, UserWrites(users.value));
                r == Pass && graph.state == t.graph && graph.log == old(graph.log) + t.attempts
    {
      if users.Failure? {
        return Fail(users.error);
      }
      var us := users.value;
      ghost var g0, log0 := graph.state, graph.log;
      ghost var cur := [];
      var i := 0;
      while i < |us|
        invariant 0 <= i <= |us|
        invariant cur == UserWrites(us[..i])
        invariant IsolatedAt(g0, log0, cur)
      {
        var u := us[i];
        ghost var before := Trace(graph.state, graph.log);
        var _ := graph.UpsertUser(u.id, Projected(ProjectUser(u)));
        IsolatedStep(before, g0, log0, graph.rejected, cur, UserWrite(u));
        UserWritesSnoc(us, i);
        cur := cur + [UserWrite(u)];
        i := i + 1;
      }
      assert us[..|us|] == us;
      r := Pass;
    }

    /** `syncAllFriendships`: for every user with a non-empty `friendships`
        list, upsert one edge per entry with the defaulted properties; a
        failed upsert is caught and the next edge is still attempted. */
    method SyncAllFriendships(users: Enumeration, now: Timestamp) returns (r: Outcome<Error>)
      modifies graph`state, graph`log
      ensures users.Failure? ==> r == Fail(users.error) && graph.state == old(graph.state) && graph.log == old(graph.log)
      ensures users.Success? ==>
                var t := RunIsolated(old(graph.state), graph.rejected, FriendshipWrites(users.value, now));
                r == Pass && graph.state == t.graph && graph.log == old(graph.log) + t.attempts
    {
      if users.Failure? {
        return Fail(users.error);
      }
      var us := users.value;
      ghost var g0, log0 := graph.state, graph.log;
      var i := 0;
      while i < |us|
        invariant 0 <= i <= |us|
        invariant IsolatedAt(g0, log0, FriendshipWrites(us[..i], now))
      {
        SyncUserFriendships(us[i], now, g0, log0, FriendshipWrites(us[..i], now));
        FriendshipWritesSnoc(us, i, now);
        i := i + 1;
      }
      assert us[..|us|] == us;
      r := Pass;
    }

    /** The inner loop of `syncAllFriendships` for one user. */
    method SyncUserFriendships(u: UserRecord, now: Timestamp, ghost g0: Graph, ghost log0: seq<Attempt>, ghost done: seq<WriteOp>)
      requires IsolatedAt(g0, log0, done)
      modifies graph`state, graph`log
      ensures IsolatedAt(g0, log0, done + UserEdgeWrites(u, now))
    {
      if u.friendships.Some? && |u.friendships.value| > 0 {
        var fs := u.friendships.value;
        ghost var cur := done;
        var j := 0;
        assert done + EdgeWritesOf(u.id, fs[..0], now) == done;
        while j < |fs|
          invariant 0 <= j <= |fs|
          invariant cur == done + EdgeWritesOf(u.id, fs[..j], now)
          invariant IsolatedAt(g0, log0, cur)
        {
          var f := fs[j];
          ghost var before := Trace(graph.state, graph.log);
          var _ := graph.UpsertFriendship(u.id, f.friend, ProjectEdge(f, now));
          IsolatedStep(before, g0, log0, graph.rejected, cur, EdgeWrite(u.id, f, now));
          EdgeWritesOfSnoc(u.id, fs, j, now);
          assert cur + [EdgeWrite(u.id, f, now)] == done + EdgeWritesOf(u.id, fs[..j + 1], now);
          cur := cur + [EdgeWrite(u.id, f, now)];
          j := j + 1;
        }
        assert fs[..|fs|] == fs;
      } else {
        assert done + UserEdgeWrites(u, now) == done;
      }
    }

    /** The store and the log are those of a fail-fast run of `ops` that
        started from `g0` and `log0`. */
    ghost predicate FailFastAt(g0: Graph, log0: seq<Attempt>, ops: seq<WriteOp>)
      reads graph
    {
      FailFastFrom(Trace(graph.state, graph.log), g0, log0, graph.rejected, ops)
    }

    /** `syncAllData`: clear the graph store, then write every user document,
        then one 'regular' edge with count 0 per neighbour. There is no
        per-item catch: the first failed write (the clear included) stops the
        rebuild and is rethrown. The enumeration happens after the clear. */
    method SyncAllData(users: Enumeration, now: Timestamp) returns (r: Outcome<Error>)
      modifies graph`state, graph`log
      ensures var t := RunFailFast(old(graph.state), graph.rejected, RebuildOps(users, now));
        && graph.state == t.graph && graph.log == old(graph.log) + t.attempts
        && (Failed(t) ==> r == Fail(GraphWriteFailed))
        && (!Failed(t) ==> r == if users.Success? then Pass else Fail(users.error))
    {
      ghost var g0, log0 := graph.state, graph.log;
      ghost var full := RebuildOps(users, now);
      assert AllButLast([ClearAll]) == [];
      var cleared := graph.ClearAll();
      if !cleared {
        RunFailFastStopped(g0, graph.rejected, [ClearAll], full);
        return Fail(GraphWriteFailed);
      }
      if users.Failure? {
        assert full == [ClearAll];
        return Fail(users.error);
      }
      var ok := WriteDocuments(users.value, now, g0, log0);
      if !ok {
        return Fail(GraphWriteFailed);
      }
      ok := WriteNeighbourEdges(users.value, now, g0, log0);
      if !ok {
        return Fail(GraphWriteFailed);
      }
      r := Pass;
    }

    /** The node phase of the rebuild: stops at the first failed write. */
    method WriteDocuments(us: seq<UserRecord>, now: Timestamp, ghost g0: Graph, ghost log0: seq<Attempt>) returns (ok: bool)
      requires FailFastAt(g0, log0, [ClearAll]) && !Failed(RunFailFast(g0, graph.rejected, [ClearAll]))
      modifies graph`state, graph`log
      ensures ok ==> FailFastAt(g0, log0, [ClearAll] + DocumentWrites(us)) &&
                     !Failed(RunFailFast(g0, graph.rejected, [ClearAll] + DocumentWrites(us)))
      ensures !ok ==> FailFastAt(g0, log0, RebuildOps(Success(us), now)) &&
                      Failed(RunFailFast(g0, graph.rejected, RebuildOps(Success(us), now)))
    {
      ghost var cur := [ClearAll];
      var i := 0;
      assert [ClearAll] + DocumentWrites(us[..0]) == [ClearAll];
      while i < |us|
        invariant 0 <= i <= |us|
        invariant cur == [ClearAll] + DocumentWrites(us[..i])
        invariant FailFastAt(g0, log0, cur) && !Failed(RunFailFast(g0, graph.rejected, cur))
      {
        var u := us[i];
        ghost var before := Trace(graph.state, graph.log);
        var written := graph.UpsertUser(u.id, Document(u));
        FailFastStep(before, g0, log0, graph.rejected, cur, DocumentWrite(u));
        DocumentWritesSnoc(us, i);
        assert cur + [DocumentWrite(u)] == [ClearAll] + DocumentWrites(us[..i + 1]);
        if !written {
          RebuildPrefixInDocuments(us, now, i + 1);
          RunFailFastStopped(g0, graph.rejected, cur + [DocumentWrite(u)], RebuildOps(Success(us), now));
          return false;
        }
        cur := cur + [DocumentWrite(u)];
        i := i + 1;
      }
      assert us[..|us|] == us;
      ok := true;
    }

    /** The edge phase of the rebuild: stops at the first failed write. */
    method WriteNeighbourEdges(us: seq<UserRecord>, now: Timestamp, ghost g0: Graph, ghost log0: seq<Attempt>) returns (ok: bool)
      requires FailFastAt(g0, log0, [ClearAll] + DocumentWrites(us))
      requires !Failed(RunFailFast(g0, graph.rejected, [ClearAll] + DocumentWrites(us)))
      modifies graph`state, graph`log
      ensures FailFastAt(g0, log0, RebuildOps(Success(us), now))
      ensures ok <==> !Failed(RunFailFast(g0, graph.rejected, RebuildOps(Success(us), now)))
    {
      ghost var nodesDone := [ClearAll] + DocumentWrites(us);
      ghost var full := RebuildOps(Success(us), now);
      assert full == nodesDone + NeighbourWrites(us, now);
      ghost var done := nodesDone;
      var i := 0;
      assert nodesDone + NeighbourWrites(us[..0], now) == nodesDone;
      while i < |us|
        invariant 0 <= i <= |us|
        invariant done == nodesDone + NeighbourWrites(us[..i], now)
        invariant FailFastAt(g0, log0, done) && !Failed(RunFailFast(g0, graph.rejected, done))
      {
        RebuildNeighbourSnoc(us, now, i);
        RebuildNeighbourPrefix(us, now, i);
        var written := WriteUserNeighbours(us[i], now, g0, log0, done, full);
        if !written {
          return false;
        }
        done := done + UserNeighbourWrites(us[i], now);
        i := i + 1;
      }
      assert us[..|us|] == us;
      ok := true;
    }

    /** The edges of one user's neighbours, within the rebuild (none when
        `friends` is absent or empty): `done` is what the rebuild issued
        before them and `full` everything it would issue. */
    method WriteUserNeighbours(u: UserRecord, now: Timestamp, ghost g0: Graph, ghost log0: seq<Attempt>,
                               ghost done: seq<WriteOp>, ghost full: seq<WriteOp>) returns (ok: bool)
      requires FailFastAt(g0, log0, done) && !Failed(RunFailFast(g0, graph.rejected, done))
      requires done + UserNeighbourWrites(u, now) <= full
      modifies graph`state, graph`log
      ensures ok ==> FailFastAt(g0, log0, done + UserNeighbourWrites(u, now)) &&
                     !Failed(RunFailFast(g0, graph.rejected, done + UserNeighbourWrites(u, now)))
      ensures !ok ==> FailFastAt(g0, log0, full) && Failed(RunFailFast(g0, graph.rejected, full))
    {
      if u.friends.None? || |u.friends.value| == 0 {
        assert done + UserNeighbourWrites(u, now) == done;
        return true;
      }
      var fr := u.friends.value;
      ghost var all := NeighbourWritesOf(u.id, fr, now);
      assert all == UserNeighbourWrites(u, now);
      ghost var cur := done;
      var j := 0;
      assert done + NeighbourWritesOf(u.id, fr[..0], now) == done;
      while j < |fr|
        invariant 0 <= j <= |fr|
        invariant cur == done + NeighbourWritesOf(u.id, fr[..j], now)
        invariant FailFastAt(g0, log0, cur) && !Failed(RunFailFast(g0, graph.rejected, cur))
      {
        ghost var op := NeighbourWrite(u.id, fr[j], now);
        ghost var before := Trace(graph.state, graph.log);
        var written := graph.UpsertFriendship(u.id, fr[j], RebuildEdge(now));
        FailFastStep(before, g0, log0, graph.rejected, cur, op);
        NeighbourWritesOfSnoc(u.id, fr, j, now);
        assert cur + [op] == done + NeighbourWritesOf(u.id, fr[..j + 1], now);
        if !written {
          NeighbourWritesOfPrefix(u.id, fr, now, j + 1);
          PrefixWithin(done, NeighbourWritesOf(u.id, fr[..j + 1], now), all, full);
          RunFailFastStopped(g0, graph.rejected, cur + [op], full);
          return false;
        }
        cur := cur + [op];
        j := j + 1;
      }
      assert fr[..|fr|] == fr;
      ok := true;
    }

    /** `validateDataConsistency`: the divergence report, one entry per user
        whose friend ids differ between the stores; a failed read (of either
        store) is rethrown. Reads only. */
    method ValidateDataConsistency(users: Enumeration) returns (r: Result<seq<Inconsistency>, Error>)
      ensures users.Failure? ==> r == Failure(users.error)
      ensures users.Success? ==> r == Report(users.value, graph.friendLists)
    {
      if users.Failure? {
        return Failure(users.error);
      }
      var us := users.value;
      var inconsistencies := [];
      var i := 0;
      while i < |us|
        invariant 0 <= i <= |us|
        invariant Report(us[..i], graph.friendLists) == Success(inconsistencies)
      {
        var u := us[i];
        assert AllButLast(us[..i + 1]) == us[..i] && Last(us[..i + 1]) == u;
        var read := graph.GetFriendships(u.id);
        if read.Failure? {
          ReportFailurePersists(us, graph.friendLists, i + 1);
          return Failure(read.error);
        }
        var neo4jFriendships := read.value;
        var refs := PrimaryRefs(u);
        var missingInNeo4j := MissingInNeo4j(refs, GraphIds(neo4jFriendships));
        var missingInMongo := MissingInMongo(neo4jFriendships, RefIds(refs));
        if |missingInNeo4j| > 0 || |missingInMongo| > 0 {
          inconsistencies := inconsistencies + [Inconsistency(u.id, u.username, missingInNeo4j, missingInMongo)];
        }
        i := i + 1;
      }
      assert us[..|us|] == us;
      r := Success(inconsistencies);
    }

    /** `validateOnlineStatus`: true exactly when every user's graph flag is
        its primary flag (absent reads as false); the first mismatch or
        failed read answers false. Reads only. */
    method ValidateOnlineStatus(users: Enumeration) returns (ok: bool)
      ensures ok <==> users.Success? && forall i :: 0 <= i < |users.value| ==> OnlineAgrees(users.value[i], graph.onlineFlags)
    {
      if users.Failure? {
        return false;
      }
      var us := users.value;
      var i := 0;
      while i < |us|
        invariant 0 <= i <= |us|
        invariant forall k :: 0 <= k < i ==> OnlineAgrees(us[k], graph.onlineFlags)
      {
        var read := graph.GetUserOnlineStatus(us[i].id);
        if read.Failure? {
          return false;
        }
        if read.value != PrimaryOnline(us[i]) {
          return false;
        }
        i := i + 1;
      }
      return true;
    }

    /** `validateFriendGroups`: true exactly when, for every user, both
        stores hold the same number of groups and every primary group has a
        same-named graph group with as many members; a failed read answers
        false. Reads only. */
    method ValidateFriendGroups(users: Enumeration) returns (ok: bool)
      ensures ok <==> users.Success? && forall i :: 0 <= i < |users.value| ==> UserGroupsAgree(users.value[i], graph.groups)
    {
      if users.Failure? {
        return false;
      }
      var us := users.value;
      var i := 0;
      while i < |us|
        invariant 0 <= i <= |us|
        invariant forall k :: 0 <= k < i ==> UserGroupsAgree(us[k], graph.groups)
      {
        var u := us[i];
        var read := graph.GetFriendGroups(u.id);
        if read.Failure? {
          return false;
        }
        var neo4jGroups := read.value;
        var mongoGroups := PrimaryGroups(u);
        if |neo4jGroups| != |mongoGroups| {
          return false;
        }
        var k := 0;
        while k < |mongoGroups|
          invariant 0 <= k <= |mongoGroups|
          invariant forall l :: 0 <= l < k ==> GroupMatches(mongoGroups[l], neo4jGroups)
        {
          var neo4jGroup := FindByName(neo4jGroups, mongoGroups[k].name);
          if neo4jGroup.None? || |neo4jGroup.value.members| != |mongoGroups[k].members| {
            assert !GroupMatches(mongoGroups[k], neo4jGroups);
            return false;
          }
          k := k + 1;
        }
        i := i + 1;
      }
      return true;
    }

    /** `validateInteractions`: true exactly when, for every user that has a
        `friendships` list and every entry of it, both stores hold the same
        number of interactions for the pair; the first mismatch or failed
        read answers false. Reads only. */
    method ValidateInteractions(users: Enumeration) returns (ok: bool)
      ensures ok <==> users.Success? && forall i :: 0 <= i < |users.value| ==> UserInteractionsAgree(users.value[i], graph.histories)
    {
      if users.Failure? {
        return false;
      }
      var us := users.value;
      var i := 0;
      while i < |us|
        invariant 0 <= i <= |us|
        invariant forall k :: 0 <= k < i ==> UserInteractionsAgree(us[k], graph.histories)
      {
        var u := us[i];
        if u.friendships.None? {
          i := i + 1;
          continue;
        }
        var fs := u.friendships.value;
        var j := 0;
        while j < |fs|
          invariant 0 <= j <= |fs|
          invariant forall l :: 0 <= l < j ==> PairAgrees(u.id, fs[l], graph.histories)
        {
          var read := graph.GetFriendInteractionHistory(u.id, fs[j].friend);
          if read.Failure? {
            assert !PairAgrees(u.id, PrimaryFriendships(u)[j], graph.histories);
            return false;
          }
          if |read.value| != |PrimaryInteractions(fs[j])| {
            assert !PairAgrees(u.id, PrimaryFriendships(u)[j], graph.histories);
            return false;
          }
          j := j + 1;
        }
        i := i + 1;
      }
      return true;
    }
  }
}
