/**
 * The read-only views: `index`, `group_posts`, `profile`, `post_detail` and
 * `follow_index`. Each selects posts (or comments) with an order-preserving
 * filter and shows one page of the selection.
 */
module Listings {
  import opened Wrappers
  import opened Seqs
  import opened Pagination
  import opened Blog
  import Follows
  import Posts

  function InGroup(slug: Slug): Post -> bool
  {
    (p: Post) => p.group == Some(slug)
  }

  function WrittenBy(user: UserName): Post -> bool
  {
    (p: Post) => p.author == user
  }

  function FollowedBy(follows: seq<Edge>, user: UserName): Post -> bool
  {
    (p: Post) => Edge(user, p.author) in follows
  }

  function OnPost(id: PostId): Comment -> bool
  {
    (c: Comment) => c.post == id
  }

  /** The posts of a group (`group.posts.all()`): exactly those in the group, in order. */
  function ByGroup(posts: seq<Post>, slug: Slug): (r: seq<Post>)
    ensures forall p :: p in r <==> p in posts && p.group == Some(slug)
    ensures IsSubsequence(r, posts)
  {
    FilterIsSubsequence(posts, InGroup(slug));
    Filter(posts, InGroup(slug))
  }

  /** The posts of an author (`author.posts.all()`): exactly theirs, in order. */
  function ByAuthor(posts: seq<Post>, user: UserName): (r: seq<Post>)
    ensures forall p :: p in r <==> p in posts && p.author == user
    ensures IsSubsequence(r, posts)
  {
    FilterIsSubsequence(posts, WrittenBy(user));
    Filter(posts, WrittenBy(user))
  }

  /**
   * The follow feed of `user`: exactly the posts whose author `user` has a follow
   * row for, in order.
   */
  function Feed(s: State, user: UserName): (r: seq<Post>)
    ensures forall p :: p in r <==> p in s.posts && Edge(user, p.author) in s.follows
    ensures IsSubsequence(r, s.posts)
  {
    FilterIsSubsequence(s.posts, FollowedBy(s.follows, user));
    Filter(s.posts, FollowedBy(s.follows, user))
  }

  /** The comments on post `id` (`post.comments.all()`): exactly those, in order. */
  function CommentsOn(comments: seq<Comment>, id: PostId): (r: seq<Comment>)
    ensures forall c :: c in r <==> c in comments && c.post == id
    ensures forall c :: multiset(r)[c] == if c.post == id then multiset(comments)[c] else 0
    ensures IsSubsequence(r, comments)
  {
    FilterIsSubsequence(comments, OnPost(id));
    FilterCount(comments, OnPost(id));
    Filter(comments, OnPost(id))
  }

  /** `index`: page `page` of all posts. */
  function Index(s: State, page: nat): (r: Response)
    requires InRange(|s.posts|, page)
    ensures r.ListPage? && IsPageOf(r.page, s.posts, page)
  {
    PageIsPageOf(s.posts, page);
    ListPage(Page(s.posts, page))
  }

  /** `group_posts`: a 404 for an unknown slug, otherwise page `page` of the group's posts. */
  function GroupPosts(s: State, slug: Slug, page: nat): (r: Response)
    requires slug in s.groups ==> InRange(|ByGroup(s.posts, slug)|, page)
    ensures slug !in s.groups <==> r == NotFound
    ensures slug in s.groups ==> r.ListPage? && IsPageOf(r.page, ByGroup(s.posts, slug), page)
  {
    if slug !in s.groups then NotFound
    else
      PageIsPageOf(ByGroup(s.posts, slug), page);
      ListPage(Page(ByGroup(s.posts, slug), page))
  }

  /**
   * `profile`: a 404 for an unknown username, otherwise page `page` of the author's
   * posts, how many posts they have, and whether the viewer follows them (unset for
   * an anonymous viewer).
   */
  function Profile(s: State, viewer: Viewer, username: UserName, page: nat): (r: Response)
    requires username in s.users ==> InRange(|ByAuthor(s.posts, username)|, page)
    ensures username !in s.users <==> r == NotFound
    ensures username in s.users ==>
      && r.ProfilePage?
      && r.author == username
      && IsPageOf(r.page, ByAuthor(s.posts, username), page)
      && r.postsCount == |ByAuthor(s.posts, username)|
      && (r.following.None? <==> viewer.None?)
      && (r.following == Some(true) <==> viewer.Some? && Edge(viewer.value, username) in s.follows)
  {
    if username !in s.users then NotFound
    else
      var posts := ByAuthor(s.posts, username);
      PageIsPageOf(posts, page);
      ProfilePage(username, Page(posts, page), |posts|, Follows.IsFollowing(s, viewer, username))
  }

  /**
   * `post_detail`: a 404 for an unknown id, otherwise the post, how many posts its
   * author has, and the comments on it in order.
   */
  function PostDetail(s: State, id: PostId): (r: Response)
    ensures !HasPost(s.posts, id) <==> r == NotFound
    ensures HasPost(s.posts, id) ==> r.DetailPage?
    ensures r.DetailPage? ==>
      && r.post in s.posts && r.post.id == id
      && r.postsCount == |ByAuthor(s.posts, r.post.author)|
      && IsSubsequence(r.comments, s.comments)
      && (forall c :: multiset(r.comments)[c] == if c.post == id then multiset(s.comments)[c] else 0)
  {
    match FindPost(s.posts, id)
    case None => NotFound
    case Some(i) =>
      var post := s.posts[i];
      DetailPage(post, |ByAuthor(s.posts, post.author)|, CommentsOn(s.comments, id))
  }

  /** `follow_index` (login required): page `page` of the viewer's feed. */
  function FollowIndex(s: State, viewer: Viewer, page: nat): (r: Response)
    requires viewer.Some? ==> InRange(|Feed(s, viewer.value)|, page)
    ensures viewer.None? <==> r == LoginRedirect(FollowIndexRoute)
    ensures viewer.Some? ==> r.ListPage? && IsPageOf(r.page, Feed(s, viewer.value), page)
  {
    match viewer
    case None => LoginRedirect(FollowIndexRoute)
    case Some(user) =>
      PageIsPageOf(Feed(s, user), page);
      ListPage(Page(Feed(s, user), page))
  }

  /** An unknown slug or username is a 404 whatever page number the request carries. */
  lemma UnknownIsNotFound(s: State, viewer: Viewer, slug: Slug, username: UserName, page: nat)
    requires slug !in s.groups && username !in s.users
    ensures GroupPosts(s, slug, page) == NotFound
    ensures Profile(s, viewer, username, page) == NotFound
  {
  }

  /** Every post shows up on some page of the index. */
  lemma IndexPostListed(s: State, k: nat)
    requires k < |s.posts|
    ensures exists page :: (InRange(|s.posts|, page) && s.posts[k] in Index(s, page).page)
  {
    PageOfItem(s.posts, k);
    PageUnique(Index(s, k / PerPage + 1).page, s.posts, k / PerPage + 1);
  }

  /**
   * Every post of an author shows up on some page of their profile, and the
   * profile's pages hold nothing else.
   */
  lemma ProfilePostListed(s: State, viewer: Viewer, k: nat)
    requires k < |s.posts| && s.posts[k].author in s.users
    ensures exists page :: (InRange(|ByAuthor(s.posts, s.posts[k].author)|, page)
      && s.posts[k] in Profile(s, viewer, s.posts[k].author, page).page)
    ensures forall page, p ::
      (InRange(|ByAuthor(s.posts, s.posts[k].author)|, page)
       && p in Profile(s, viewer, s.posts[k].author, page).page)
      ==> p in s.posts && p.author == s.posts[k].author
  {
    var user := s.posts[k].author;
    var items := ByAuthor(s.posts, user);
    assert s.posts[k] in items;
    var i :| 0 <= i < |items| && items[i] == s.posts[k];
    PageOfItem(items, i);
    PageUnique(Profile(s, viewer, user, i / PerPage + 1).page, items, i / PerPage + 1);
    forall page, p | InRange(|items|, page) && p in Profile(s, viewer, user, page).page
      ensures p in s.posts && p.author == user
    {
      PageUnique(Profile(s, viewer, user, page).page, items, page);
      PageMembers(items, page, p);
    }
  }

  /**
   * A post whose author the viewer follows shows up on some page of the viewer's
   * feed, and the feed's pages hold only such posts.
   */
  lemma FeedPostListed(s: State, user: UserName, k: nat)
    requires k < |s.posts| && Edge(user, s.posts[k].author) in s.follows
    ensures exists page :: (InRange(|Feed(s, user)|, page)
      && s.posts[k] in FollowIndex(s, Some(user), page).page)
    ensures forall page, p ::
      (InRange(|Feed(s, user)|, page) && p in FollowIndex(s, Some(user), page).page)
      ==> p in s.posts && Edge(user, p.author) in s.follows
  {
    var items := Feed(s, user);
    assert s.posts[k] in items;
    var i :| 0 <= i < |items| && items[i] == s.posts[k];
    PageOfItem(items, i);
    PageUnique(FollowIndex(s, Some(user), i / PerPage + 1).page, items, i / PerPage + 1);
    forall page, p | InRange(|items|, page) && p in FollowIndex(s, Some(user), page).page
      ensures p in s.posts && Edge(user, p.author) in s.follows
    {
      PageUnique(FollowIndex(s, Some(user), page).page, items, page);
      PageMembers(items, page, p);
    }
  }

  /**
   * Thirteen posts by one author in one group: the index, the group page and the
   * profile each show ten posts on page 1 and three on page 2.
   */
  lemma ThirteenPostsPaged(s: State, slug: Slug, user: UserName, viewer: Viewer)
    requires |s.posts| == 13 && slug in s.groups && user in s.users
    requires forall i :: 0 <= i < |s.posts| ==> s.posts[i].group == Some(slug) && s.posts[i].author == user
    ensures ByGroup(s.posts, slug) == s.posts && ByAuthor(s.posts, user) == s.posts
    ensures |Index(s, 1).page| == 10 && |Index(s, 2).page| == 3
    ensures |GroupPosts(s, slug, 1).page| == 10 && |GroupPosts(s, slug, 2).page| == 3
    ensures |Profile(s, viewer, user, 1).page| == 10 && |Profile(s, viewer, user, 2).page| == 3
  {
    FilterAll(s.posts, InGroup(slug));
    FilterAll(s.posts, WrittenBy(user));
    ThirteenItems(s.posts);
    PageUnique(Index(s, 1).page, s.posts, 1);
    PageUnique(Index(s, 2).page, s.posts, 2);
  }

  /** A user follows nobody and so has an empty feed. */
  lemma EmptyFeedWithoutFollows(s: State, user: UserName)
    requires forall i :: 0 <= i < |s.follows| ==> s.follows[i].user != user
    ensures Feed(s, user) == []
  {
  }

  /**
   * A subscriber sees a followed author's new post: after `follower` follows
   * `author` and `author` publishes, the feed of `follower` is the old feed plus
   * the new post at the end, while the feed of a user without a row for `author`
   * does not contain it.
   */
  lemma NewPostSeenBySubscriber(s: State, follower: UserName, author: UserName, other: UserName,
                                form: Posts.PostForm)
    requires author in s.users && follower != author && form.valid
    requires Edge(other, author) !in s.follows && other != follower
    ensures var s1 := Follows.Follow(s, Some(follower), author).next;
      var s2 := Posts.PostCreate(s1, Some(author), form).next;
      var post := Post(s.nextId, author, form.group, form.text);
      && Feed(s2, follower) == Feed(s1, follower) + [post]
      && post !in Feed(s2, other)
  {
    var s1 := Follows.Follow(s, Some(follower), author).next;
    var s2 := Posts.PostCreate(s1, Some(author), form).next;
    var post := Post(s.nextId, author, form.group, form.text);
    assert Edge(follower, author) in s1.follows;
    assert s2.posts == s1.posts + [post];
    FilterAppend(s1.posts, [post], FollowedBy(s1.follows, follower));
    assert Filter([post], FollowedBy(s1.follows, follower)) == [post];
    assert s2.follows == s1.follows;
  }

  /**
   * Every post of a group is shown on some page of that group's listing, and on
   * no page of another group's listing.
   */
  lemma GroupPostListed(s: State, k: nat, slug: Slug)
    requires k < |s.posts| && s.posts[k].group == Some(slug) && slug in s.groups
    ensures exists page ::
      (InRange(|ByGroup(s.posts, slug)|, page)
       && GroupPosts(s, slug, page).ListPage? && s.posts[k] in GroupPosts(s, slug, page).page)
    ensures forall other :: other != slug ==> s.posts[k] !in ByGroup(s.posts, other)
  {
    var items := ByGroup(s.posts, slug);
    assert s.posts[k] in items;
    var i :| 0 <= i < |items| && items[i] == s.posts[k];
    PageOfItem(items, i);
    var page := i / PerPage + 1;
    PageUnique(GroupPosts(s, slug, page).page, items, page);
    assert s.posts[k] in GroupPosts(s, slug, page).page;
  }

  /**
   * After unfollowing `author`, the viewer's feed holds none of their posts and
   * keeps every other post it held.
   */
  lemma FeedAfterUnfollow(s: State, user: UserName, author: UserName)
    requires author in s.users
    ensures var s1 := Follows.Unfollow(s, Some(user), author).next;
      && (forall p :: p in Feed(s1, user) ==> p.author != author)
      && (forall p :: p in Feed(s, user) && p.author != author ==> p in Feed(s1, user))
  {
  }

  /**
   * A comment added with a valid form shows up last under its post, after the
   * comments that were already there.
   */
  lemma CommentShownOnDetail(s: State, user: UserName, id: PostId, form: Posts.CommentForm)
    requires HasPost(s.posts, id) && form.valid
    ensures var s1 := Posts.AddComment(s, Some(user), id, form).next;
      && PostDetail(s1, id).DetailPage?
      && PostDetail(s1, id).comments == PostDetail(s, id).comments + [Comment(id, user, form.text)]
  {
    var s1 := Posts.AddComment(s, Some(user), id, form).next;
    var c := Comment(id, user, form.text);
    FilterAppend(s.comments, [c], OnPost(id));
    assert Filter([c], OnPost(id)) == [c];
  }
}
