/** The state of the profile page (the `useState` fields of Profile.js) and
    the three handlers that update it step by step: loading the profile,
    the friend action and the follow toggle. Session storage is the
    `hasSession` flag, and each server answer is a parameter, `None` when
    the request failed. */
module ProfileView {
  import opened Wrappers
  import opened ProfileRules

  type PostId = string

  /** What the server answered to the requests of one `fetchProfileData`
      pass: the profile, the follow status, the friendship status, the
      posts and the pair of follow lists. */
  datatype Responses = Responses(profile: Option<ProfileData>, followStatus: Option<bool>, friendStatus: Option<string>,
                                 posts: Option<seq<PostId>>, followLists: Option<(seq<UserId>, seq<UserId>)>)

  class ProfilePage {
    /** The `:userId` route parameter. */
    const userId: Option<UserId>
    /** The signed-in user, decoded from the session token on mount. */
    var currentUserId: Option<UserId>
    var profileData: Option<ProfileData>
    var isFollowing: bool
    var friendshipStatus: string
    var followers: seq<UserId>
    var following: seq<UserId>
    var posts: seq<PostId>
    var loading: bool
    var isDataFetching: bool

    /** The initial state of the hooks. */
    constructor (userId: Option<UserId>, currentUserId: Option<UserId>)
      ensures this.userId == userId && this.currentUserId == currentUserId
      ensures profileData == None && !isFollowing && friendshipStatus == "none"
      ensures followers == [] && following == [] && posts == []
      ensures loading && !isDataFetching
    {
      this.userId := userId;
      this.currentUserId := currentUserId;
      profileData := None;
      isFollowing := false;
      friendshipStatus := "none";
      followers := [];
      following := [];
      posts := [];
      loading := true;
      isDataFetching := false;
    }

    /** Whether the page loads the follow and friendship status: it shows
        someone else's route id. */
    predicate ViewsOther()
      reads this
    {
      !Falsy(userId) && !SameId(userId, currentUserId)
    }

    /** `fetchProfileData`. A pass that is already running makes a second
        call a no-op. Otherwise the pass always ends with `loading` and
        `isDataFetching` cleared (the `finally` block); it stops early
        without a session or when the profile request fails; the status
        requests fall back to "not following" and `'none'`; posts and
        follow lists are requested only past the privacy gate. */
    method FetchProfileData(hasSession: bool, resp: Responses)
      modifies this`profileData, this`isFollowing, this`friendshipStatus, this`followers, this`following,
               this`posts, this`loading, this`isDataFetching
      ensures old(isDataFetching) ==>
                profileData == old(profileData) && isFollowing == old(isFollowing) &&
                friendshipStatus == old(friendshipStatus) && followers == old(followers) &&
                following == old(following) && posts == old(posts) && loading == old(loading) && isDataFetching
      ensures !old(isDataFetching) ==> !loading && !isDataFetching
      ensures !old(isDataFetching) && (!hasSession || resp.profile.None?) ==>
                profileData == old(profileData) && isFollowing == old(isFollowing) &&
                friendshipStatus == old(friendshipStatus) && followers == old(followers) &&
                following == old(following) && posts == old(posts)
      ensures !old(isDataFetching) && hasSession && resp.profile.Some? ==>
                var u := resp.profile.value;
                var fetched := PostsFetched(u.isPrivate, userId, currentUserId);
                profileData == resp.profile &&
                isFollowing == (if ViewsOther() then resp.followStatus.GetOr(false) else old(isFollowing)) &&
                friendshipStatus == (if ViewsOther() then resp.friendStatus.GetOr("none") else old(friendshipStatus)) &&
                posts == (if fetched then resp.posts.GetOr([]) else []) &&
                followers == (if !fetched then old(followers) else if resp.followLists.Some? then resp.followLists.value.0 else []) &&
                following == (if !fetched then old(following) else if resp.followLists.Some? then resp.followLists.value.1 else [])
      ensures (!old(isDataFetching) && hasSession && resp.profile.Some? &&
               resp.profile.value.isPrivate && !SameId(userId, currentUserId)) ==> posts == []
    {
      if isDataFetching {
        return;
      }
      isDataFetching := true;
      loading := true;
      if !hasSession {
        loading := false;
        isDataFetching := false;
        return;
      }
      if resp.profile.None? {
        loading := false;
        isDataFetching := false;
        return;
      }
      var userData := resp.profile.value;
      profileData := Some(userData);
      if !Falsy(userId) && !SameId(userId, currentUserId) {
        isFollowing := resp.followStatus.GetOr(false);
        friendshipStatus := resp.friendStatus.GetOr("none");
      }
      if !userData.isPrivate || SameId(userId, currentUserId) {
        posts := resp.posts.GetOr([]);
      } else {
        posts := [];
      }
      if !userData.isPrivate || SameId(userId, currentUserId) {
        if resp.followLists.Some? {
          followers := resp.followLists.value.0;
          following := resp.followLists.value.1;
        } else {
          followers := [];
          following := [];
        }
      }
      loading := false;
      isDataFetching := false;
    }

    /** `handleFriendAction`: without a session nothing happens; for
        `'none'` and `'friends'` the request is sent and, when it succeeds,
        the local status moves on; any other status sends nothing. A reload
        of the profile (`refetch`) follows unless the request failed. */
    method HandleFriendAction(hasSession: bool, requestOk: bool) returns (refetch: bool)
      modifies this`friendshipStatus
      ensures friendshipStatus ==
                if hasSession && (requestOk || !SendsFriendRequest(old(friendshipStatus)))
                then NextFriendStatus(old(friendshipStatus)) else old(friendshipStatus)
      ensures refetch <==> hasSession && (requestOk || !SendsFriendRequest(old(friendshipStatus)))
    {
      if !hasSession {
        return false;
      }
      if friendshipStatus == "none" {
        if !requestOk {
          return false;
        }
        friendshipStatus := "pending";
      } else if friendshipStatus == "friends" {
        if !requestOk {
          return false;
        }
        friendshipStatus := "none";
      }
      refetch := true;
    }

    /** `handleFollowClick`, with the rollback restoring the value from
        before the click: `isFollowing` is set optimistically, then to the
        server's answer; the loaded profile's followers gain or lose the
        signed-in user according to that answer. The follow button is shown
        only after a load, which runs only once a user is signed in. */
    method HandleFollowClick(hasSession: bool, response: Option<bool>)
      requires currentUserId.Some?
      modifies this`isFollowing, this`profileData
      ensures !hasSession ==> isFollowing == old(isFollowing) && profileData == old(profileData)
      ensures hasSession ==> isFollowing == FollowingAfterClick(old(isFollowing), response)
      ensures hasSession && response.Some? && old(profileData).Some? ==>
                var p := old(profileData).value;
                profileData == Some(p.(followers := Some(FollowersAfter(p.followers.GetOr([]), currentUserId.value, response.value))))
      ensures hasSession && (response.None? || old(profileData).None?) ==> profileData == old(profileData)
    {
      if !hasSession {
        return;
      }
      var prev := isFollowing;
      var newIsFollowing := !prev;
      isFollowing := newIsFollowing;
      if response.None? {
        isFollowing := prev;
        return;
      }
      if response.value != newIsFollowing {
        isFollowing := response.value;
      }
      if profileData.Some? {
        var p := profileData.value;
        profileData := Some(p.(followers := Some(FollowersAfter(p.followers.GetOr([]), currentUserId.value, response.value))));
      }
    }

    /** `handleFollowClick` as Profile.js writes it: the failure branch sets
        `!isFollowing` from the click's own render, which is the optimistic
        value, so a failed request is not rolled back. */
    method HandleFollowClickAsWritten(hasSession: bool, response: Option<bool>)
      requires currentUserId.Some?
      modifies this`isFollowing, this`profileData
      ensures !hasSession ==> isFollowing == old(isFollowing) && profileData == old(profileData)
      ensures hasSession ==> isFollowing == FollowingAfterClickAsWritten(old(isFollowing), response)
      ensures hasSession && response.None? ==> isFollowing != old(isFollowing)
      ensures hasSession && response.Some? && old(profileData).Some? ==>
                var p := old(profileData).value;
                profileData == Some(p.(followers := Some(FollowersAfter(p.followers.GetOr([]), currentUserId.value, response.value))))
      ensures hasSession && (response.None? || old(profileData).None?) ==> profileData == old(profileData)
    {
      if !hasSession {
        return;
      }
      var rendered := isFollowing;
      var newIsFollowing := !rendered;
      isFollowing := newIsFollowing;
      if response.None? {
        isFollowing := !rendered;
        return;
      }
      if response.value != newIsFollowing {
        isFollowing := response.value;
      }
      if profileData.Some? {
        var p := profileData.value;
        profileData := Some(p.(followers := Some(FollowersAfter(p.followers.GetOr([]), currentUserId.value, response.value))));
      }
    }
  }
}
