/**
 * The follow graph views: `profile_follow`, `profile_unfollow`, the `following`
 * flag of the profile page, and the subscription count the tests observe.
 */
module Follows {
  import opened Wrappers
  import opened Seqs
  import opened Blog

  /**
   * `profile_follow`: an anonymous viewer is sent to log in; an unknown username is
   * a 404; otherwise a row (viewer, author) is inserted unless it already exists or
   * the viewer is the author, and the viewer is sent to the author's profile.
   */
  function Follow(s: State, viewer: Viewer, username: UserName): (t: Step)
    ensures viewer.None? ==> t == Step(s, LoginRedirect(FollowRoute(username)))
    ensures viewer.Some? && username !in s.users ==> t == Step(s, NotFound)
    ensures viewer.Some? && username in s.users ==> t.response == Redirect(ProfileRoute(username))
    ensures t.next == s.(follows := t.next.follows)
    ensures viewer.Some? && Edge(viewer.value, username) in s.follows ==> t.next == s
    ensures viewer.Some? && viewer.value == username ==> t.next == s
    ensures s.follows <= t.next.follows && |t.next.follows| <= |s.follows| + 1
    ensures forall e :: e in t.next.follows <==>
      e in s.follows
      || (viewer.Some? && username in s.users && viewer.value != username
          && e == Edge(viewer.value, username))
  {
    match viewer
    case None => Step(s, LoginRedirect(FollowRoute(username)))
    case Some(user) =>
      if username !in s.users then Step(s, NotFound)
      else if Edge(user, username) in s.follows then Step(s, Redirect(ProfileRoute(username)))
      else if user != username then
        Step(s.(follows := s.follows + [Edge(user, username)]), Redirect(ProfileRoute(username)))
      else Step(s, Redirect(ProfileRoute(username)))
  }

  /**
   * `profile_unfollow`: an anonymous viewer is sent to log in; an unknown username is
   * a 404; otherwise every (viewer, author) row is deleted, the other rows are kept
   * in order, and the viewer is sent to the author's profile.
   */
  function Unfollow(s: State, viewer: Viewer, username: UserName): (t: Step)
    ensures viewer.None? ==> t == Step(s, LoginRedirect(UnfollowRoute(username)))
    ensures viewer.Some? && username !in s.users ==> t == Step(s, NotFound)
    ensures viewer.Some? && username in s.users ==> t.response == Redirect(ProfileRoute(username))
    ensures t.next == s.(follows := t.next.follows)
    ensures IsSubsequence(t.next.follows, s.follows)
    ensures forall e :: e in t.next.follows <==>
      e in s.follows
      && !(viewer.Some? && username in s.users && e == Edge(viewer.value, username))
    ensures forall e ::
      (multiset(t.next.follows)[e] ==
       if viewer.Some? && username in s.users && e == Edge(viewer.value, username) then 0
       else multiset(s.follows)[e])
  {
    match viewer
    case None =>
      SubsequenceRefl(s.follows);
      Step(s, LoginRedirect(UnfollowRoute(username)))
    case Some(user) =>
      if username !in s.users then
        SubsequenceRefl(s.follows);
        Step(s, NotFound)
      else
        RemoveMultiset(s.follows, Edge(user, username));
        Step(s.(follows := Remove(s.follows, Edge(user, username))), Redirect(ProfileRoute(username)))
  }

  /**
   * The `following` entry of the profile context: unset for an anonymous viewer,
   * otherwise whether the viewer has a follow row for `author`.
   */
  function IsFollowing(s: State, viewer: Viewer, author: UserName): (r: Option<bool>)
    ensures r.None? <==> viewer.None?
    ensures r == Some(true) <==>
      viewer.Some? && exists i :: 0 <= i < |s.follows| && s.follows[i] == Edge(viewer.value, author)
  {
    match viewer
    case None => None
    case Some(user) => Some(Edge(user, author) in s.follows)
  }

  /** Rows whose subscriber is `user`. */
  function SubscriberIs(user: UserName): Edge -> bool
  {
    (e: Edge) => e.user == user
  }

  /** The subscriptions of `user` (`user.follower` in the source), in insertion order. */
  function Subscriptions(s: State, user: UserName): (r: seq<Edge>)
    ensures forall e :: e in r <==> e in s.follows && e.user == user
    ensures IsSubsequence(r, s.follows)
  {
    FilterIsSubsequence(s.follows, SubscriberIs(user));
    Filter(s.follows, SubscriberIs(user))
  }

  /**
   * The subscriptions keep every row of the viewer as often as it is stored and
   * no other row, so their number is the number of the viewer's rows.
   */
  lemma SubscriptionsExact(s: State, user: UserName)
    ensures forall e ::
      multiset(Subscriptions(s, user))[e] == (if e.user == user then multiset(s.follows)[e] else 0)
  {
    FilterCount(s.follows, SubscriberIs(user));
  }

  /** Following twice is following once: the second request changes nothing. */
  lemma FollowIdempotent(s: State, viewer: Viewer, username: UserName)
    ensures Follow(Follow(s, viewer, username).next, viewer, username) == Follow(s, viewer, username)
  {
  }

  /** Unfollowing twice is unfollowing once. */
  lemma UnfollowIdempotent(s: State, viewer: Viewer, username: UserName)
    ensures Unfollow(Unfollow(s, viewer, username).next, viewer, username) == Unfollow(s, viewer, username)
  {
    if viewer.Some? && username in s.users {
      var e := Edge(viewer.value, username);
      RemoveIdempotent(s.follows, e);
    }
  }

  /** A user asking to follow themself changes nothing. */
  lemma NoSelfFollow(s: State, user: UserName)
    ensures Follow(s, Some(user), user).next == s
  {
  }

  /** Following keeps the data valid: no self-loop and no duplicate row appears. */
  lemma FollowPreservesValid(s: State, viewer: Viewer, username: UserName)
    requires Valid(s) && KnownViewer(s, viewer)
    ensures Valid(Follow(s, viewer, username).next)
  {
    var t := Follow(s, viewer, username).next;
    if t.follows != s.follows {
      var e := Edge(viewer.value, username);
      assert t.follows == s.follows + [e];
      assert e !in s.follows;
      forall i, j | 0 <= i < j < |t.follows| ensures t.follows[i] != t.follows[j] {
        if j == |s.follows| {
          assert t.follows[i] in s.follows;
        }
      }
    }
  }

  /** Unfollowing keeps the data valid. */
  lemma UnfollowPreservesValid(s: State, viewer: Viewer, username: UserName)
    requires Valid(s)
    ensures Valid(Unfollow(s, viewer, username).next)
  {
    if viewer.Some? && username in s.users {
      var e := Edge(viewer.value, username);
      RemoveDistinct(s.follows, e);
      var f := Unfollow(s, viewer, username).next.follows;
      forall i | 0 <= i < |f| ensures EdgeOk(s, f[i]) {
        assert f[i] in s.follows;
      }
    }
  }

  /**
   * Unfollowing an author one follows removes exactly one row, so the viewer's
   * subscription count drops by one.
   */
  lemma UnfollowRemovesOne(s: State, user: UserName, author: UserName)
    requires Valid(s)
    requires author in s.users && Edge(user, author) in s.follows
    ensures |Unfollow(s, Some(user), author).next.follows| == |s.follows| - 1
    ensures IsFollowing(Unfollow(s, Some(user), author).next, Some(user), author) == Some(false)
  {
    RemoveCount(s.follows, Edge(user, author));
  }

  /**
   * Subscribing to a new author adds one subscription of the viewer, after the
   * existing ones, and sets the profile flag.
   */
  lemma FollowAddsSubscription(s: State, user: UserName, author: UserName)
    requires author in s.users && user != author
    requires Edge(user, author) !in s.follows
    ensures Subscriptions(Follow(s, Some(user), author).next, user)
         == Subscriptions(s, user) + [Edge(user, author)]
    ensures IsFollowing(Follow(s, Some(user), author).next, Some(user), author) == Some(true)
  {
    var e := Edge(user, author);
    var s1 := Follow(s, Some(user), author).next;
    assert s1.follows == s.follows + [e];
    FilterAppend(s.follows, [e], SubscriberIs(user));
    assert Filter([e], SubscriberIs(user)) == [e];
  }

  /**
   * Subscribing to a new author and unsubscribing again leaves the follow table
   * exactly as before, and the profile flag ends false.
   */
  lemma FollowThenUnfollow(s: State, user: UserName, author: UserName)
    requires author in s.users && user != author
    requires Edge(user, author) !in s.follows
    ensures Unfollow(Follow(s, Some(user), author).next, Some(user), author).next == s
    ensures IsFollowing(Unfollow(Follow(s, Some(user), author).next, Some(user), author).next,
                        Some(user), author) == Some(false)
  {
    var e := Edge(user, author);
    var s1 := Follow(s, Some(user), author).next;
    assert s1.follows == s.follows + [e];
    RemoveAppend(s.follows, [e], e);
    RemoveAbsent(s.follows, e);
    assert Remove([e], e) == [];
  }
}
