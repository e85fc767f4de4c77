/** The entity projector: how a primary-store record becomes the node and
    edge shapes handed to the graph store (DataSyncService.js:18-25, 54-62,
    132-140). */
module Projection {
  import opened Wrappers
  import opened PrimaryStore

  /** The node shape `syncAllUsers` hands to the graph store. */
  datatype UserNode = UserNode(
    id: Id,
    username: string,
    interests: seq<string>,
    interactionFrequency: int)

  /** The properties of one owner -> friend edge. */
  datatype EdgeProps = EdgeProps(status: string, interactionCount: int, lastInteraction: Timestamp)

  const DefaultStatus: string := "regular"

  /** `user.activityMetrics?.interactionFrequency || 0` */
  function Frequency(u: UserRecord): int
  {
    match u.activityMetrics
    case None => 0
    case Some(m) => m.interactionFrequency.GetOr(0)
  }

  /** The inline projection of `syncAllUsers`. */
  function ProjectUser(u: UserRecord): (n: UserNode)
    ensures n.id == u.id && n.username == u.username
  {
    UserNode(u.id, u.username, u.interests.GetOr([]), Frequency(u))
  }

  /** `friendship.status || 'regular'`: an absent or empty status defaults. */
  function EdgeStatus(f: Friendship): (s: string)
    ensures s != ""
  {
    match f.status
    case Some(s) => if s == "" then DefaultStatus else s
    case None => DefaultStatus
  }

  /** The edge properties `syncAllFriendships` derives from one embedded
      friendship record. */
  function ProjectEdge(f: Friendship, now: Timestamp): (p: EdgeProps)
    ensures p.status != ""
    ensures f.interactionCount.None? ==> p.interactionCount == 0
    ensures f.lastInteraction.None? ==> p.lastInteraction == now
  {
    EdgeProps(EdgeStatus(f), f.interactionCount.GetOr(0), f.lastInteraction.GetOr(now))
  }

  /** The fixed properties the rebuild gives every neighbour edge. */
  function RebuildEdge(now: Timestamp): EdgeProps
  {
    EdgeProps(DefaultStatus, 0, now)
  }

  /** A node written back as the record it would be read from. */
  function NodeAsRecord(n: UserNode): UserRecord
  {
    UserRecord(n.id, n.username, Some(n.interests), Some(Metrics(Some(n.interactionFrequency))),
               None, None, None, None)
  }

  /** Edge properties written back as the friendship record they come from. */
  function PropsAsFriendship(friend: Id, p: EdgeProps): Friendship
  {
    Friendship(friend, Some(p.status), Some(p.interactionCount), Some(p.lastInteraction), None)
  }

  /** Projection loses nothing of a node: a node read back as a record
      projects to itself. */
  lemma ProjectUserRoundTrip(n: UserNode)
    ensures ProjectUser(NodeAsRecord(n)) == n
  {
  }

  /** Projection depends only on the identity, the username, the interests
      and the metrics: everything else of the record is ignored. */
  lemma ProjectUserIgnoresRelations(u: UserRecord, v: UserRecord)
    requires u.id == v.id && u.username == v.username
    requires u.interests == v.interests && u.activityMetrics == v.activityMetrics
    ensures ProjectUser(u) == ProjectUser(v)
  {
  }

  /** The defaults of the user projection: missing (or non-array) interests
      become the empty list, missing metrics become frequency 0, present
      values are kept. */
  lemma ProjectUserDefaults(u: UserRecord)
    ensures ProjectUser(u).interests == (if u.interests.Some? then u.interests.value else [])
    ensures ProjectUser(u).interactionFrequency ==
              (if u.activityMetrics.Some? && u.activityMetrics.value.interactionFrequency.Some?
               then u.activityMetrics.value.interactionFrequency.value else 0)
  {
  }

  /** Edge projection round trip: properties with a non-empty status survive
      being stored as a friendship record and projected again, whatever
      "now" is at that time. */
  lemma ProjectEdgeRoundTrip(friend: Id, p: EdgeProps, now: Timestamp)
    requires p.status != ""
    ensures ProjectEdge(PropsAsFriendship(friend, p), now) == p
  {
  }

  /** Status defaulting: an absent or empty status becomes 'regular', any
      other status is carried over unchanged. */
  lemma EdgeStatusDefault(f: Friendship)
    ensures EdgeStatus(f) == DefaultStatus <==> (f.status.None? || f.status.value in {"", DefaultStatus})
  {
  }
}
