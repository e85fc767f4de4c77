/** Records of the primary (document) store as the sync engine reads them.
    Every field the engine treats as possibly absent is an `Option`; the
    functions at the end spell out the engine's defaults for absent fields. */
module PrimaryStore {
  import opened Wrappers

  type Id = string

  /** A point in time; `new Date()` is modelled by a `now` parameter. */
  datatype Timestamp = Timestamp(millis: int)

  /** One recorded interaction event; only their number is ever compared. */
  datatype Interaction = Interaction(kind: string, at: Timestamp)

  datatype Metrics = Metrics(interactionFrequency: Option<int>)

  /** An embedded friendship record (`user.friendships[i]`). */
  datatype Friendship = Friendship(
    friend: Id,
    status: Option<string>,
    interactionCount: Option<int>,
    lastInteraction: Option<Timestamp>,
    interactions: Option<seq<Interaction>>)

  datatype FriendGroup = FriendGroup(name: string, members: seq<Id>)

  datatype OnlineStatus = OnlineStatus(isOnline: Option<bool>)

  /** A user document. `interests` is `None` when the stored field is absent
      or is not an array; `friends` is the flat neighbour list used by the
      rebuild. */
  datatype UserRecord = UserRecord(
    id: Id,
    username: string,
    interests: Option<seq<string>>,
    activityMetrics: Option<Metrics>,
    friendships: Option<seq<Friendship>>,
    friends: Option<seq<Id>>,
    friendGroups: Option<seq<FriendGroup>>,
    onlineStatus: Option<OnlineStatus>)

  /** Why an engine operation failed. */
  datatype Error =
    | PrimaryUnavailable          // the user enumeration (`User.find`) failed
    | GraphReadFailed(key: Id)    // a graph-store getter threw
    | GraphWriteFailed            // a graph-store write threw

  /** The result of enumerating all users of the primary store. */
  type Enumeration = Result<seq<UserRecord>, Error>

  /** `user.onlineStatus?.isOnline || false` */
  function PrimaryOnline(u: UserRecord): bool
  {
    match u.onlineStatus
    case None => false
    case Some(s) => s.isOnline.GetOr(false)
  }

  /** `user.friendGroups || []` */
  function PrimaryGroups(u: UserRecord): seq<FriendGroup>
  {
    u.friendGroups.GetOr([])
  }

  /** `friendship.interactions || []` */
  function PrimaryInteractions(f: Friendship): seq<Interaction>
  {
    f.interactions.GetOr([])
  }

  /** `user.friendships`, with an absent list read as empty. */
  function PrimaryFriendships(u: UserRecord): seq<Friendship>
  {
    u.friendships.GetOr([])
  }
}
