/** The decision rules of the profile page (Profile.js): who owns the page,
    what the privacy settings let a viewer see, which action buttons appear,
    how the local friendship status and the followers list change after an
    action. JavaScript's `null`/`undefined` values are `None`; a missing
    string route parameter and the empty string are both falsy. */
module ProfileRules {
  import opened Wrappers

  type UserId = string

  /** `privacy` of a profile; every field may be absent. */
  datatype Privacy = Privacy(profileVisibility: Option<string>, showFollowers: Option<bool>, showFollowing: Option<bool>)

  /** The profile document the page loads (only the fields the rules read). */
  datatype ProfileData = ProfileData(id: UserId, privacy: Option<Privacy>, isPrivate: bool, followers: Option<seq<UserId>>)

  datatype ListKind = Followers | Following

  /** The buttons `renderActionButtons` can produce. */
  datatype Button = EditProfile | DeleteFriend | RequestSent | AcceptRequest | AddFriend | Follow(following: bool)

  /** `!userId` for a route parameter. */
  predicate Falsy(s: Option<string>)
  {
    s.None? || s.value == ""
  }

  /** `a === b` for an id that may be `null`/`undefined`: only two present,
      equal ids are identical. */
  predicate SameId(a: Option<UserId>, b: Option<UserId>)
  {
    a.Some? && b.Some? && a.value == b.value
  }

  /** `isOwnProfile`: no route parameter, or the signed-in user is the
      loaded profile's `_id`. */
  predicate IsOwnProfile(userId: Option<UserId>, currentUserId: Option<UserId>, profile: Option<ProfileData>)
    ensures Falsy(userId) ==> IsOwnProfile(userId, currentUserId, profile)
    ensures !Falsy(userId) && IsOwnProfile(userId, currentUserId, profile) ==> currentUserId.Some? && profile.Some?
  {
    Falsy(userId) || (currentUserId.Some? && profile.Some? && currentUserId.value == profile.value.id)
  }

  /** `profileData?.privacy?.profileVisibility`. */
  function Visibility(profile: Option<ProfileData>): Option<string>
  {
    if profile.Some? && profile.value.privacy.Some? then profile.value.privacy.value.profileVisibility else None
  }

  /** `profileData?.privacy?.showFollowers !== false` (resp. `showFollowing`):
      an absent setting does not hide the list. */
  predicate ListShown(kind: ListKind, profile: Option<ProfileData>)
    ensures profile.None? || profile.value.privacy.None? ==> ListShown(kind, profile)
    ensures profile.Some? && profile.value.privacy.Some? && kind == Followers ==>
              (ListShown(kind, profile) <==> profile.value.privacy.value.showFollowers != Some(false))
    ensures profile.Some? && profile.value.privacy.Some? && kind == Following ==>
              (ListShown(kind, profile) <==> profile.value.privacy.value.showFollowing != Some(false))
  {
    if profile.None? || profile.value.privacy.None? then true
    else
      var flag := if kind == Followers then profile.value.privacy.value.showFollowers
                  else profile.value.privacy.value.showFollowing;
      flag != Some(false)
  }

  /** `canViewFollowers` / `canViewFollowing`, written as the source's chain
      of early returns. */
  function CanView(kind: ListKind, own: bool, profile: Option<ProfileData>, friendshipStatus: string): (r: bool)
    ensures r <==> own || ((Visibility(profile) == Some("public") || friendshipStatus == "friends") && ListShown(kind, profile))
  {
    if own then true
    else if Visibility(profile) == Some("public") then ListShown(kind, profile)
    else if friendshipStatus == "friends" then ListShown(kind, profile)
    else false
  }

  /** `isPrivateProfile`. */
  predicate IsPrivateProfile(profile: Option<ProfileData>, own: bool)
    ensures own ==> !IsPrivateProfile(profile, own)
    ensures IsPrivateProfile(profile, own) ==> profile.Some? && profile.value.privacy.Some?
  {
    Visibility(profile) == Some("private") && !own
  }

  /** The friendship button for a status. */
  function FriendButton(status: string): (b: Button)
    ensures b != EditProfile && !b.Follow?
    ensures b == AddFriend <==> status !in {"friends", "pending", "received"}
  {
    if status == "friends" then DeleteFriend
    else if status == "pending" then RequestSent
    else if status == "received" then AcceptRequest
    else AddFriend
  }

  /** `renderActionButtons`, for a page that has finished loading: the edit
      button on one's own page, nothing when the route id is the signed-in
      user's, the follow button alone on a private profile, otherwise the
      friendship button followed by the follow button. */
  function ActionButtons(userId: Option<UserId>, currentUserId: Option<UserId>, profile: Option<ProfileData>,
                         friendshipStatus: string, isFollowing: bool): (r: seq<Button>)
    ensures var own := IsOwnProfile(userId, currentUserId, profile);
            (EditProfile in r <==> own) &&
            (Follow(isFollowing) in r <==> !own && !SameId(userId, currentUserId)) &&
            (FriendButton(friendshipStatus) in r <==>
               !own && !SameId(userId, currentUserId) && !IsPrivateProfile(profile, own))
    ensures forall b :: b in r ==> b == EditProfile || b == Follow(isFollowing) || b == FriendButton(friendshipStatus)
  {
    var own := IsOwnProfile(userId, currentUserId, profile);
    if own then [EditProfile]
    else if SameId(userId, currentUserId) then []
    else if IsPrivateProfile(profile, own) then [Follow(isFollowing)]
    else [FriendButton(friendshipStatus), Follow(isFollowing)]
  }

  /** Whether `handleFriendAction` calls the server for a status. */
  predicate SendsFriendRequest(status: string)
  {
    status == "none" || status == "friends"
  }

  /** The local status after a successful `handleFriendAction`. */
  function NextFriendStatus(status: string): (r: string)
    ensures r != "friends"
    ensures r == status <==> !SendsFriendRequest(status)
    ensures status == "none" ==> r == "pending"
    ensures status == "friends" ==> r == "none"
  {
    if status == "none" then "pending"
    else if status == "friends" then "none"
    else status
  }

  /** `list.filter(id => id !== me)`. */
  function RemoveAll(list: seq<UserId>, me: UserId): (r: seq<UserId>)
    ensures multiset(r) == multiset(list)[me := 0]
    ensures |r| <= |list|
    decreases |list|
  {
    if list == [] then []
    else
      assert list == [list[0]] + list[1..];
      if list[0] == me then RemoveAll(list[1..], me)
      else [list[0]] + RemoveAll(list[1..], me)
  }

  /** The `followers` of the loaded profile after a follow toggle the server
      answered with `following`. */
  function FollowersAfter(prev: seq<UserId>, me: UserId, following: bool): (r: seq<UserId>)
    ensures following ==> me in r && multiset(r) == multiset(prev) + multiset{me}
    ensures !following ==> me !in r && multiset(r) == multiset(prev)[me := 0]
  {
    if following then prev + [me]
    else
      var r := RemoveAll(prev, me);
      assert multiset(r)[me] == 0;
      r
  }

  /** `isFollowing` after a follow click made from `prev`: the server's
      answer, or the value from before the click when the request failed. */
  function FollowingAfterClick(prev: bool, response: Option<bool>): bool
  {
    if response.Some? then response.value else prev
  }

  /** `isFollowing` after a follow click as Profile.js writes it: the
      failure branch sets `!isFollowing` from the click's own render, which
      is the optimistic value it had just set. */
  function FollowingAfterClickAsWritten(prev: bool, response: Option<bool>): bool
  {
    if response.Some? then response.value else !prev
  }

  /** The posts (and follow lists) of a loaded profile are requested only
      when it is not `isPrivate` or the route id is the signed-in user's. */
  predicate PostsFetched(isPrivate: bool, userId: Option<UserId>, currentUserId: Option<UserId>)
    ensures !isPrivate ==> PostsFetched(isPrivate, userId, currentUserId)
    ensures isPrivate && PostsFetched(isPrivate, userId, currentUserId) ==> userId.Some? && userId == currentUserId
  {
    !isPrivate || SameId(userId, currentUserId)
  }

  // ----- ownership and visibility -----

  /** The owner sees both lists, is never shown a private profile, and gets
      the edit button alone. */
  lemma OwnerSeesEverything(userId: Option<UserId>, currentUserId: Option<UserId>, profile: Option<ProfileData>,
                            status: string, isFollowing: bool)
    requires IsOwnProfile(userId, currentUserId, profile)
    ensures CanView(Followers, true, profile, status) && CanView(Following, true, profile, status)
    ensures !IsPrivateProfile(profile, true)
    ensures ActionButtons(userId, currentUserId, profile, status, isFollowing) == [EditProfile]
  {
  }

  /** Ownership: with no route parameter the page is one's own; with a route
      parameter it is one's own exactly when the signed-in id is the loaded
      profile's. */
  lemma OwnProfileIff(userId: Option<UserId>, currentUserId: Option<UserId>, profile: Option<ProfileData>)
    ensures Falsy(userId) ==> IsOwnProfile(userId, currentUserId, profile)
    ensures !Falsy(userId) ==>
              (IsOwnProfile(userId, currentUserId, profile) <==> profile.Some? && SameId(currentUserId, Some(profile.value.id)))
  {
  }

  /** Once the loaded profile is the one the route names, ownership is the
      route check `userId === currentUserId` used by the posts gate, so the
      page never shows the empty button row of a same-id, non-owned page. */
  lemma OwnProfileMatchesRoute(userId: Option<UserId>, currentUserId: Option<UserId>, profile: Option<ProfileData>,
                               status: string, isFollowing: bool)
    requires !Falsy(userId) && profile.Some? && userId == Some(profile.value.id)
    ensures IsOwnProfile(userId, currentUserId, profile) <==> SameId(userId, currentUserId)
    ensures ActionButtons(userId, currentUserId, profile, status, isFollowing) != []
  {
  }

  /** A non-owner who is not a friend sees neither list of a profile that is
      not public, whatever its show settings. */
  lemma StrangerSeesNoListsOfNonPublic(kind: ListKind, profile: Option<ProfileData>, status: string)
    requires Visibility(profile) != Some("public") && status != "friends"
    ensures !CanView(kind, false, profile, status)
  {
  }

  /** A setting `show… = false` hides the list from every non-owner. */
  lemma HiddenListStaysHidden(kind: ListKind, profile: Option<ProfileData>, status: string)
    requires profile.Some? && profile.value.privacy.Some?
    requires (if kind == Followers then profile.value.privacy.value.showFollowers
              else profile.value.privacy.value.showFollowing) == Some(false)
    ensures !CanView(kind, false, profile, status)
  {
  }

  /** Absent privacy settings hide nothing on a public profile, and being
      friends opens the lists of any profile whose settings do not hide them. */
  lemma FriendsSeeShownLists(kind: ListKind, profile: Option<ProfileData>)
    requires ListShown(kind, profile)
    ensures CanView(kind, false, profile, "friends")
  {
  }

  // ----- buttons -----

  /** On a private profile seen by someone else only the follow button shows. */
  lemma PrivateProfileFollowOnly(userId: Option<UserId>, currentUserId: Option<UserId>, profile: Option<ProfileData>,
                                 status: string, isFollowing: bool)
    requires IsPrivateProfile(profile, IsOwnProfile(userId, currentUserId, profile))
    requires !SameId(userId, currentUserId)
    ensures ActionButtons(userId, currentUserId, profile, status, isFollowing) == [Follow(isFollowing)]
  {
  }

  /** On a profile that is neither one's own nor private the friendship
      button for the status comes first, then the follow button. */
  lemma OtherProfileButtons(userId: Option<UserId>, currentUserId: Option<UserId>, profile: Option<ProfileData>,
                            status: string, isFollowing: bool)
    requires !IsOwnProfile(userId, currentUserId, profile) && !SameId(userId, currentUserId)
    requires Visibility(profile) != Some("private")
    ensures ActionButtons(userId, currentUserId, profile, status, isFollowing) == [FriendButton(status), Follow(isFollowing)]
  {
  }

  /** After a successful friend action the button offers no second request:
      adding leaves a disabled button, deleting offers adding again. */
  lemma FriendActionButtons(status: string)
    requires SendsFriendRequest(status)
    ensures status == "none" ==> FriendButton(NextFriendStatus(status)) == RequestSent
    ensures status == "friends" ==> FriendButton(NextFriendStatus(status)) == AddFriend
  {
  }

  /** The add button is shown for statuses the action does not act on:
      clicking it for such a status sends nothing and changes nothing. */
  lemma AddButtonWithoutRequest(s: string)
    requires s !in {"none", "friends", "pending", "received"}
    ensures FriendButton(s) == AddFriend && !SendsFriendRequest(s)
    ensures NextFriendStatus(s) == s
  {
  }

  // ----- followers list update -----

  /** Removal keeps every other entry, in order: it distributes over
      concatenation. */
  lemma {:induction false} RemoveAllConcat(a: seq<UserId>, b: seq<UserId>, me: UserId)
    ensures RemoveAll(a + b, me) == RemoveAll(a, me) + RemoveAll(b, me)
    decreases |a|
  {
    if a == [] {
      assert a + b == b;
    } else {
      assert (a + b)[0] == a[0];
      assert (a + b)[1..] == a[1..] + b;
      RemoveAllConcat(a[1..], b, me);
    }
  }

  /** Removing a user that is not in the list changes nothing. */
  lemma {:induction false} RemoveAllAbsent(list: seq<UserId>, me: UserId)
    requires me !in list
    ensures RemoveAll(list, me) == list
    decreases |list|
  {
    if list != [] {
      assert list[1..] + [] == list[1..];
      RemoveAllAbsent(list[1..], me);
      assert [list[0]] + list[1..] == list;
    }
  }

  /** After an unfollow the user is gone and every other id keeps its count. */
  lemma UnfollowRemoves(prev: seq<UserId>, me: UserId)
    ensures me !in FollowersAfter(prev, me, false)
    ensures forall x :: x != me ==> multiset(FollowersAfter(prev, me, false))[x] == multiset(prev)[x]
  {
    var r := FollowersAfter(prev, me, false);
    assert multiset(r)[me] == 0;
  }

  /** After a follow the user is the last entry and the rest is unchanged. */
  lemma FollowAppends(prev: seq<UserId>, me: UserId)
    ensures var r := FollowersAfter(prev, me, true);
            |r| == |prev| + 1 && r[..|prev|] == prev && r[|prev|] == me
  {
  }

  /** Follow then unfollow leaves the list without the user; when the user
      was not a follower before, that is the original list. */
  lemma FollowThenUnfollow(prev: seq<UserId>, me: UserId)
    ensures FollowersAfter(FollowersAfter(prev, me, true), me, false) == RemoveAll(prev, me)
    ensures me !in prev ==> FollowersAfter(FollowersAfter(prev, me, true), me, false) == prev
  {
    RemoveAllConcat(prev, [me], me);
    assert RemoveAll([me], me) == [];
    assert RemoveAll(prev, me) + [] == RemoveAll(prev, me);
    if me !in prev {
      RemoveAllAbsent(prev, me);
    }
  }

  /** Unfollowing twice is unfollowing once. */
  lemma UnfollowIdempotent(prev: seq<UserId>, me: UserId)
    ensures FollowersAfter(FollowersAfter(prev, me, false), me, false) == FollowersAfter(prev, me, false)
  {
    UnfollowRemoves(prev, me);
    RemoveAllAbsent(RemoveAll(prev, me), me);
  }

  // ----- follow toggle -----

  /** A follow click ends with the server's answer, and a failed request
      leaves `isFollowing` as it was before the click. */
  lemma FollowClickOutcome(prev: bool, response: Option<bool>)
    ensures response.Some? ==> FollowingAfterClick(prev, response) == response.value
    ensures response.None? ==> FollowingAfterClick(prev, response) == prev
  {
  }

  /** As written, a failed request leaves the optimistic value `!prev` in
      place: nothing is rolled back. */
  lemma FollowClickAsWrittenKeepsOptimistic(prev: bool)
    ensures FollowingAfterClickAsWritten(prev, None) == !prev
    ensures FollowingAfterClickAsWritten(prev, None) != FollowingAfterClick(prev, None)
  {
  }

  /** Both agree whenever the server answers. */
  lemma FollowClickVersionsAgreeOnAnswer(prev: bool, answer: bool)
    ensures FollowingAfterClickAsWritten(prev, Some(answer)) == FollowingAfterClick(prev, Some(answer))
  {
  }

  // ----- posts gate -----

  /** A profile that is not `isPrivate` always has its posts fetched; a
      private one only when the route id is the signed-in user's. */
  lemma PostsGate(isPrivate: bool, userId: Option<UserId>, currentUserId: Option<UserId>)
    ensures !isPrivate ==> PostsFetched(isPrivate, userId, currentUserId)
    ensures isPrivate ==> (PostsFetched(isPrivate, userId, currentUserId) <==> SameId(userId, currentUserId))
  {
  }

  /** On the `/profile` route (no route id) a private account's own posts
      are not fetched, although the page counts as its own. */
  lemma OwnPrivatePostsNotFetchedWithoutRouteId(me: UserId, profile: ProfileData)
    requires profile.isPrivate
    ensures IsOwnProfile(None, Some(me), Some(profile))
    ensures !PostsFetched(profile.isPrivate, None, Some(me))
  {
  }
}
