/** The graph-store adapter as the sync engine sees it (the `Neo4jService`
    calls of DataSyncService.js). The store's contents are a value `Graph`;
    a write either succeeds and applies, or fails and changes nothing; which
    writes fail is the environment's choice, given by the set `rejected`.
    The read side is what the adapter's getters answer. */
module GraphStore {
  import opened Wrappers
  import opened PrimaryStore
  import opened Projection

  /** What `syncUserToNeo4j` is handed: the projected node (incremental sync)
      or the whole user document (rebuild). */
  datatype NodePayload = Projected(node: UserNode) | Document(record: UserRecord)

  datatype WriteOp =
    | UpsertUser(id: Id, payload: NodePayload)
    | UpsertFriendship(owner: Id, friend: Id, props: EdgeProps)
    | ClearAll

  /** One write call and whether it succeeded. */
  datatype Attempt = Attempt(op: WriteOp, ok: bool)

  /** The write side of the graph store: nodes by id, edges by (owner, friend). */
  datatype Graph = Graph(nodes: map<Id, NodePayload>, edges: map<(Id, Id), EdgeProps>)

  /** One entry of `getFriendships(userId)`. */
  datatype GraphFriendship = GraphFriendship(friendId: Id, status: string)

  const Empty: Graph := Graph(map[], map[])

  /** The effect of one successful write. Upserts create or replace by key. */
  function Step(g: Graph, op: WriteOp): Graph
  {
    match op
    case UpsertUser(id, p) => g.(nodes := g.nodes[id := p])
    case UpsertFriendship(o, f, p) => g.(edges := g.edges[(o, f) := p])
    case ClearAll => Empty
  }

  /** The store after a run of writes, and the calls made, in order. */
  datatype Trace = Trace(graph: Graph, attempts: seq<Attempt>)

  function Last<T>(s: seq<T>): T
    requires s != []
  {
    s[|s| - 1]
  }

  function AllButLast<T>(s: seq<T>): seq<T>
    requires s != []
  {
    s[..|s| - 1]
  }

  /** Issue `op`: it fails exactly when the environment rejects it. */
  function Issue(t: Trace, rejected: set<WriteOp>, op: WriteOp): Trace
  {
    var ok := op !in rejected;
    Trace(if ok then Step(t.graph, op) else t.graph, t.attempts + [Attempt(op, ok)])
  }

  /** Writes issued one after another, each failure caught and skipped
      (the per-item try/catch of the incremental syncs). */
  function RunIsolated(g: Graph, rejected: set<WriteOp>, ops: seq<WriteOp>): Trace
    decreases |ops|
  {
    if ops == [] then Trace(g, [])
    else Issue(RunIsolated(g, rejected, AllButLast(ops)), rejected, Last(ops))
  }

  /** The last call of the trace failed. */
  predicate Failed(t: Trace)
  {
    t.attempts != [] && !Last(t.attempts).ok
  }

  /** Writes issued one after another until the first failure, after which
      nothing more is issued (the rebuild, which has no per-item catch). */
  function RunFailFast(g: Graph, rejected: set<WriteOp>, ops: seq<WriteOp>): Trace
    decreases |ops|
  {
    if ops == [] then Trace(g, [])
    else
      var t := RunFailFast(g, rejected, AllButLast(ops));
      if Failed(t) then t else Issue(t, rejected, Last(ops))
  }

  /** A shorter tail after the same head still starts `full`. */
  lemma PrefixWithin<T>(head: seq<T>, a: seq<T>, b: seq<T>, full: seq<T>)
    requires a <= b && head + b <= full
    ensures head + a <= full
  {
    assert head + a == (head + b)[..|head + a|];
  }

  /** One more write at the end of an isolated run. */
  lemma RunIsolatedSnoc(g: Graph, rejected: set<WriteOp>, ops: seq<WriteOp>, op: WriteOp)
    ensures RunIsolated(g, rejected, ops + [op]) == Issue(RunIsolated(g, rejected, ops), rejected, op)
  {
    assert AllButLast(ops + [op]) == ops;
  }

  /** One more write at the end of a fail-fast run that has not failed. */
  lemma RunFailFastSnoc(g: Graph, rejected: set<WriteOp>, ops: seq<WriteOp>, op: WriteOp)
    requires !Failed(RunFailFast(g, rejected, ops))
    ensures RunFailFast(g, rejected, ops + [op]) == Issue(RunFailFast(g, rejected, ops), rejected, op)
    ensures Failed(RunFailFast(g, rejected, ops + [op])) <==> op in rejected
  {
    assert AllButLast(ops + [op]) == ops;
  }

  /** `t` holds the store a continue-on-failure run of `ops` leaves from
      `g0`, and the log `log0` followed by that run's attempts. */
  predicate IsolatedFrom(t: Trace, g0: Graph, log0: seq<Attempt>, rejected: set<WriteOp>, ops: seq<WriteOp>)
  {
    var r := RunIsolated(g0, rejected, ops);
    t.graph == r.graph && t.attempts == log0 + r.attempts
  }

  /** The same, for a fail-fast run. */
  predicate FailFastFrom(t: Trace, g0: Graph, log0: seq<Attempt>, rejected: set<WriteOp>, ops: seq<WriteOp>)
  {
    var r := RunFailFast(g0, rejected, ops);
    t.graph == r.graph && t.attempts == log0 + r.attempts
  }

  /** Issuing one more write keeps `t` in step with the isolated run. */
  lemma IsolatedStep(t: Trace, g0: Graph, log0: seq<Attempt>, rejected: set<WriteOp>, ops: seq<WriteOp>, op: WriteOp)
    requires IsolatedFrom(t, g0, log0, rejected, ops)
    ensures IsolatedFrom(Issue(t, rejected, op), g0, log0, rejected, ops + [op])
  {
    RunIsolatedSnoc(g0, rejected, ops, op);
    var r := RunIsolated(g0, rejected, ops);
    var a := Attempt(op, op !in rejected);
    assert (log0 + r.attempts) + [a] == log0 + (r.attempts + [a]);
  }

  /** Issuing one more write before any failure keeps `t` in step with the
      fail-fast run, which has failed exactly when that write is rejected. */
  lemma FailFastStep(t: Trace, g0: Graph, log0: seq<Attempt>, rejected: set<WriteOp>, ops: seq<WriteOp>, op: WriteOp)
    requires FailFastFrom(t, g0, log0, rejected, ops) && !Failed(RunFailFast(g0, rejected, ops))
    ensures FailFastFrom(Issue(t, rejected, op), g0, log0, rejected, ops + [op])
    ensures Failed(RunFailFast(g0, rejected, ops + [op])) <==> op in rejected
  {
    RunFailFastSnoc(g0, rejected, ops, op);
    var r := RunFailFast(g0, rejected, ops);
    var a := Attempt(op, op !in rejected);
    assert (log0 + r.attempts) + [a] == log0 + (r.attempts + [a]);
  }

  /** A fail-fast run that failed within a prefix of the writes is the run of
      that prefix. */
  lemma RunFailFastStopped(g: Graph, rejected: set<WriteOp>, done: seq<WriteOp>, ops: seq<WriteOp>)
    requires done <= ops && Failed(RunFailFast(g, rejected, done))
    ensures RunFailFast(g, rejected, ops) == RunFailFast(g, rejected, done)
  {
    RunFailFastAbsorbs(g, rejected, done, ops[|done|..]);
    assert done + ops[|done|..] == ops;
  }

  /** Isolation: every write is attempted, and whether the i-th succeeds
      depends on that write alone, not on the failures before it. */
  lemma {:induction false} RunIsolatedAttempts(g: Graph, rejected: set<WriteOp>, ops: seq<WriteOp>)
    ensures |RunIsolated(g, rejected, ops).attempts| == |ops|
    ensures forall i :: 0 <= i < |ops| ==>
              RunIsolated(g, rejected, ops).attempts[i] == Attempt(ops[i], ops[i] !in rejected)
  {
    if ops != [] {
      RunIsolatedAttempts(g, rejected, AllButLast(ops));
    }
  }

  /** Fail fast: the calls made are the writes up to and including the first
      rejected one; all but the last of them succeed; the run reports a
      failure exactly when some write is rejected. */
  lemma {:induction false} RunFailFastAttempts(g: Graph, rejected: set<WriteOp>, ops: seq<WriteOp>)
    ensures var t := RunFailFast(g, rejected, ops);
      && |t.attempts| <= |ops|
      && (forall i :: 0 <= i < |t.attempts| ==> t.attempts[i] == Attempt(ops[i], ops[i] !in rejected))
      && (forall i :: 0 <= i < |t.attempts| - 1 ==> ops[i] !in rejected)
      && (Failed(t) <==> exists i :: 0 <= i < |ops| && ops[i] in rejected)
      && (!Failed(t) ==> |t.attempts| == |ops|)
  {
    if ops != [] {
      var p := AllButLast(ops);
      RunFailFastAttempts(g, rejected, p);
      var t := RunFailFast(g, rejected, p);
      if Failed(t) {
        var i :| 0 <= i < |p| && p[i] in rejected;
        assert ops[i] in rejected;
      } else {
        assert forall i :: 0 <= i < |p| ==> p[i] == ops[i];
        if Last(ops) in rejected {
          assert ops[|ops| - 1] in rejected;
        }
      }
    }
  }

  /** Once a fail-fast run has failed, later writes change nothing. */
  lemma {:induction false} RunFailFastAbsorbs(g: Graph, rejected: set<WriteOp>, ops: seq<WriteOp>, more: seq<WriteOp>)
    requires Failed(RunFailFast(g, rejected, ops))
    ensures RunFailFast(g, rejected, ops + more) == RunFailFast(g, rejected, ops)
    decreases |more|
  {
    if more != [] {
      assert AllButLast(ops + more) == ops + AllButLast(more);
      RunFailFastAbsorbs(g, rejected, ops, AllButLast(more));
    } else {
      assert ops + more == ops;
    }
  }

  /** Without a rejected write, a fail-fast run is the plain run. */
  lemma {:induction false} RunFailFastUnhindered(g: Graph, rejected: set<WriteOp>, ops: seq<WriteOp>)
    requires forall i :: 0 <= i < |ops| ==> ops[i] !in rejected
    ensures RunFailFast(g, rejected, ops) == RunIsolated(g, rejected, ops)
    ensures !Failed(RunFailFast(g, rejected, ops))
    decreases |ops|
  {
    if ops != [] {
      var p := AllButLast(ops);
      assert forall i :: 0 <= i < |p| ==> p[i] == ops[i];
      RunFailFastUnhindered(g, rejected, p);
      assert Last(ops) == ops[|ops| - 1];
    }
  }

  /** A run of upserts only. */
  predicate ClearFree(ops: seq<WriteOp>)
  {
    forall i :: 0 <= i < |ops| ==> !ops[i].ClearAll?
  }

  /** `g` with the nodes and edges of `w` written over it. */
  function Overlay(g: Graph, w: Graph): Graph
  {
    Graph(g.nodes + w.nodes, g.edges + w.edges)
  }

  /** Running upserts over a store writes over it exactly what the same run
      writes into an empty store. */
  lemma {:induction false} RunIsolatedOverlay(g: Graph, rejected: set<WriteOp>, ops: seq<WriteOp>)
    requires ClearFree(ops)
    ensures RunIsolated(g, rejected, ops).graph == Overlay(g, RunIsolated(Empty, rejected, ops).graph)
    decreases |ops|
  {
    if ops == [] {
      assert g.nodes + map[] == g.nodes;
      assert g.edges + map[] == g.edges;
    } else {
      var p := AllButLast(ops);
      assert forall i :: 0 <= i < |p| ==> p[i] == ops[i];
      RunIsolatedOverlay(g, rejected, p);
      var w := RunIsolated(Empty, rejected, p).graph;
      var op := Last(ops);
      assert !op.ClearAll? by { assert op == ops[|ops| - 1]; }
      if op !in rejected {
        match op
        case UpsertUser(id, pl) =>
          assert (g.nodes + w.nodes)[id := pl] == g.nodes + w.nodes[id := pl];
        case UpsertFriendship(o, f, pr) =>
          assert (g.edges + w.edges)[(o, f) := pr] == g.edges + w.edges[(o, f) := pr];
      }
    }
  }

  /** Idempotence: repeating the same run of upserts (with the same writes
      failing) leaves the store as the first run left it. */
  lemma RunIsolatedIdempotent(g: Graph, rejected: set<WriteOp>, ops: seq<WriteOp>)
    requires ClearFree(ops)
    ensures var once := RunIsolated(g, rejected, ops).graph;
            RunIsolated(once, rejected, ops).graph == once
  {
    var w := RunIsolated(Empty, rejected, ops).graph;
    RunIsolatedOverlay(g, rejected, ops);
    RunIsolatedOverlay(Overlay(g, w), rejected, ops);
    assert (g.nodes + w.nodes) + w.nodes == g.nodes + w.nodes;
    assert (g.edges + w.edges) + w.edges == g.edges + w.edges;
  }

  /** The write `op` is an upsert of the edge owner -> friend. */
  predicate WritesEdge(op: WriteOp, owner: Id, friend: Id)
  {
    op.UpsertFriendship? && op.owner == owner && op.friend == friend
  }

  /** The write `op` is an upsert of the node `id`. */
  predicate WritesNode(op: WriteOp, id: Id)
  {
    op.UpsertUser? && op.id == id
  }

  /** The edges a run of upserts leaves in an empty store: exactly the keys
      it wrote successfully, each holding the properties of the last
      accepted write of that key (an upsert replaces by key). */
  lemma {:induction false} RunIsolatedEdges(rejected: set<WriteOp>, ops: seq<WriteOp>)
    requires ClearFree(ops)
    ensures var edges := RunIsolated(Empty, rejected, ops).graph.edges;
      && (forall o, f :: (o, f) in edges <==>
            exists i :: 0 <= i < |ops| && ops[i] !in rejected && WritesEdge(ops[i], o, f))
      && (forall o, f :: (o, f) in edges ==>
            exists i :: 0 <= i < |ops| && ops[i] !in rejected && ops[i] == UpsertFriendship(o, f, edges[(o, f)]) &&
              forall j :: i < j < |ops| ==> !(ops[j] !in rejected && WritesEdge(ops[j], o, f)))
    decreases |ops|
  {
    if ops != [] {
      var p := AllButLast(ops);
      assert forall i :: 0 <= i < |p| ==> p[i] == ops[i];
      RunIsolatedEdges(rejected, p);
      var op := ops[|ops| - 1];
      assert Last(ops) == op;
      var before := RunIsolated(Empty, rejected, p).graph.edges;
      var edges := RunIsolated(Empty, rejected, ops).graph.edges;
      forall o, f
        ensures (o, f) in edges <==>
                  exists i :: 0 <= i < |ops| && ops[i] !in rejected && WritesEdge(ops[i], o, f)
        ensures (o, f) in edges ==>
                  exists i :: 0 <= i < |ops| && ops[i] !in rejected && ops[i] == UpsertFriendship(o, f, edges[(o, f)]) &&
                    forall j :: i < j < |ops| ==> !(ops[j] !in rejected && WritesEdge(ops[j], o, f))
      {
        if op !in rejected && WritesEdge(op, o, f) {
          assert edges[(o, f)] == op.props;
          assert ops[|ops| - 1] == UpsertFriendship(o, f, edges[(o, f)]);
        } else {
          assert edges == before || (op !in rejected && op.UpsertFriendship? && edges == before[(op.owner, op.friend) := op.props]);
          if (o, f) in edges {
            assert (o, f) in before && edges[(o, f)] == before[(o, f)];
            var i :| 0 <= i < |p| && p[i] !in rejected && p[i] == UpsertFriendship(o, f, before[(o, f)]) &&
                     forall j :: i < j < |p| ==> !(p[j] !in rejected && WritesEdge(p[j], o, f));
            assert ops[i] == p[i];
          }
        }
      }
    }
  }

  /** The nodes a run of upserts leaves in an empty store: node `id` is there
      exactly when some write of it succeeded, and holds the payload of the
      last accepted write of it. */
  lemma {:induction false} RunIsolatedNode(rejected: set<WriteOp>, ops: seq<WriteOp>, id: Id)
    requires ClearFree(ops)
    ensures var nodes := RunIsolated(Empty, rejected, ops).graph.nodes;
      && (id in nodes <==> exists i :: 0 <= i < |ops| && ops[i] !in rejected && WritesNode(ops[i], id))
      && (id in nodes ==>
            exists i :: 0 <= i < |ops| && ops[i] !in rejected && ops[i] == UpsertUser(id, nodes[id]) &&
              forall j :: i < j < |ops| ==> !(ops[j] !in rejected && WritesNode(ops[j], id)))
    decreases |ops|
  {
    if ops != [] {
      var p := AllButLast(ops);
      assert forall i :: 0 <= i < |p| ==> p[i] == ops[i];
      RunIsolatedNode(rejected, p, id);
      var op := ops[|ops| - 1];
      assert Last(ops) == op;
      var before := RunIsolated(Empty, rejected, p).graph.nodes;
      var nodes := RunIsolated(Empty, rejected, ops).graph.nodes;
      if op !in rejected && WritesNode(op, id) {
        assert nodes[id] == op.payload;
        assert ops[|ops| - 1] == UpsertUser(id, nodes[id]);
      } else {
        assert nodes == before || (op !in rejected && op.UpsertUser? && nodes == before[op.id := op.payload]);
        if id in nodes {
          assert id in before && nodes[id] == before[id];
          var i :| 0 <= i < |p| && p[i] !in rejected && p[i] == UpsertUser(id, before[id]) &&
                   forall j :: i < j < |p| ==> !(p[j] !in rejected && WritesNode(p[j], id));
          assert ops[i] == p[i];
        }
      }
    }
  }

  /** The graph-store adapter. Writes change `state` and append to `log`;
      the getters read the store's answers, and a getter asked about a key
      the store has no answer for throws. */
  class GraphAdapter {
    var state: Graph
    var log: seq<Attempt>
    /** The writes that fail: the environment's choice. */
    var rejected: set<WriteOp>
    var friendLists: map<Id, seq<GraphFriendship>>
    var onlineFlags: map<Id, bool>
    var groups: map<Id, seq<FriendGroup>>
    var histories: map<(Id, Id), seq<Interaction>>

    constructor (rejected: set<WriteOp>,
                 friendLists: map<Id, seq<GraphFriendship>>,
                 onlineFlags: map<Id, bool>,
                 groups: map<Id, seq<FriendGroup>>,
                 histories: map<(Id, Id), seq<Interaction>>)
      ensures state == Empty && log == []
      ensures this.rejected == rejected && this.friendLists == friendLists
      ensures this.onlineFlags == onlineFlags && this.groups == groups && this.histories == histories
    {
      state := Empty;
      log := [];
      this.rejected := rejected;
      this.friendLists := friendLists;
      this.onlineFlags := onlineFlags;
      this.groups := groups;
      this.histories := histories;
    }

    /** `syncUserToNeo4j`: create or replace the node with this id. */
    method UpsertUser(id: Id, payload: NodePayload) returns (ok: bool)
      modifies this`state, this`log
      ensures ok == (WriteOp.UpsertUser(id, payload) !in rejected)
      ensures Trace(state, log) == Issue(old(Trace(state, log)), rejected, WriteOp.UpsertUser(id, payload))
    {
      ok := Perform(WriteOp.UpsertUser(id, payload));
    }

    /** `syncFriendshipToNeo4j`: create or replace the owner -> friend edge. */
    method UpsertFriendship(owner: Id, friend: Id, props: EdgeProps) returns (ok: bool)
      modifies this`state, this`log
      ensures ok == (WriteOp.UpsertFriendship(owner, friend, props) !in rejected)
      ensures Trace(state, log) == Issue(old(Trace(state, log)), rejected, WriteOp.UpsertFriendship(owner, friend, props))
    {
      ok := Perform(WriteOp.UpsertFriendship(owner, friend, props));
    }

    /** `clearAllData`: wipe every node and edge, or fail and wipe nothing. */
    method ClearAll() returns (ok: bool)
      modifies this`state, this`log
      ensures ok == (WriteOp.ClearAll !in rejected)
      ensures Trace(state, log) == Issue(old(Trace(state, log)), rejected, WriteOp.ClearAll)
    {
      ok := Perform(WriteOp.ClearAll);
    }

    method Perform(op: WriteOp) returns (ok: bool)
      modifies this`state, this`log
      ensures ok == (op !in rejected)
      ensures Trace(state, log) == Issue(old(Trace(state, log)), rejected, op)
    {
      ok := op !in rejected;
      if ok {
        state := Step(state, op);
      }
      log := log + [Attempt(op, ok)];
    }

    /** `getFriendships(userId)` */
    function GetFriendships(id: Id): (r: Result<seq<GraphFriendship>, Error>)
      reads this
      ensures r.Success? <==> id in friendLists
    {
      if id in friendLists then Success(friendLists[id]) else Failure(GraphReadFailed(id))
    }

    /** `getUserOnlineStatus(userId)` */
    function GetUserOnlineStatus(id: Id): (r: Result<bool, Error>)
      reads this
      ensures r.Success? <==> id in onlineFlags
    {
      if id in onlineFlags then Success(onlineFlags[id]) else Failure(GraphReadFailed(id))
    }

    /** `getFriendGroups(userId)` */
    function GetFriendGroups(id: Id): (r: Result<seq<FriendGroup>, Error>)
      reads this
      ensures r.Success? <==> id in groups
    {
      if id in groups then Success(groups[id]) else Failure(GraphReadFailed(id))
    }

    /** `getFriendInteractionHistory(ownerId, friendId)` */
    function GetFriendInteractionHistory(owner: Id, friend: Id): (r: Result<seq<Interaction>, Error>)
      reads this
      ensures r.Success? <==> (owner, friend) in histories
    {
      if (owner, friend) in histories then Success(histories[(owner, friend)]) else Failure(GraphReadFailed(owner))
    }
  }
}
