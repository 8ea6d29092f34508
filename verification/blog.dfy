/**
 * The application's data as the posts views see it: registered users, groups (by
 * slug), posts, comments and follow rows, plus the responses a view can return.
 * Users are identified by username and groups by slug, both unique in the source.
 */
module Blog {
  import opened Wrappers
  import opened Seqs

  type UserName = string
  type Slug = string
  type PostId = nat

  /** A post; image and publication date are not modelled. */
  datatype Post = Post(id: PostId, author: UserName, group: Option<Slug>, text: string)

  /** A comment attached to the post with id `post`. */
  datatype Comment = Comment(post: PostId, author: UserName, text: string)

  /** A follow row: `user` subscribes to `author`. */
  datatype Edge = Edge(user: UserName, author: UserName)

  /**
   * The stored data. Posts, comments and follow rows are kept in insertion order;
   * `nextId` is the next primary key the database hands out for a post.
   */
  datatype State = State(
    users: set<UserName>,
    groups: set<Slug>,
    posts: seq<Post>,
    comments: seq<Comment>,
    follows: seq<Edge>,
    nextId: PostId)

  /** `request.user`: `None` for an anonymous visitor. */
  type Viewer = Option<UserName>

  /** Pages a view redirects to (by URL name) or asks to come back to after login. */
  datatype Route =
    | ProfileRoute(username: UserName)
    | DetailRoute(postId: PostId)
    | CreateRoute
    | CommentRoute(commentOn: PostId)
    | FollowIndexRoute
    | FollowRoute(followee: UserName)
    | UnfollowRoute(unfollowee: UserName)

  /** What a view answers, with the template context that matters. */
  datatype Response =
    | ListPage(page: seq<Post>)
    | ProfilePage(author: UserName, page: seq<Post>, postsCount: nat, following: Option<bool>)
    | DetailPage(post: Post, postsCount: nat, comments: seq<Comment>)
    | FormPage(isEdit: bool)
    | Redirect(to: Route)
    | LoginRedirect(next: Route)
    | NotFound

  /** The state after a view ran, and what it answered. */
  datatype Step = Step(next: State, response: Response)

  /** Some post in `posts` has primary key `id`. */
  predicate HasPost(posts: seq<Post>, id: PostId)
  {
    exists i :: 0 <= i < |posts| && posts[i].id == id
  }

  /** Index of the post with primary key `id` (`get_object_or_404(Post, id=...)`). */
  function FindPost(posts: seq<Post>, id: PostId): (r: Option<nat>)
    ensures r.Some? ==> r.value < |posts| && posts[r.value].id == id
    ensures r.Some? ==> forall j :: 0 <= j < r.value ==> posts[j].id != id
    ensures r.None? <==> !HasPost(posts, id)
  {
    if |posts| == 0 then None
    else if posts[0].id == id then Some(0)
    else match FindPost(posts[1..], id)
      case None => None
      case Some(j) => Some(j + 1)
  }

  /** Posts are keyed by their id: no two posts share one. */
  predicate UniqueIds(posts: seq<Post>)
  {
    forall i, j :: 0 <= i < j < |posts| ==> posts[i].id != posts[j].id
  }

  /** A follow row links two registered users and is not a self-subscription. */
  predicate EdgeOk(s: State, e: Edge)
  {
    e.user in s.users && e.author in s.users && e.user != e.author
  }

  /** A post has a registered author, an existing group (if any) and an id already issued. */
  predicate PostOk(s: State, p: Post)
  {
    p.author in s.users && (p.group.Some? ==> p.group.value in s.groups) && p.id < s.nextId
  }

  /** A comment belongs to an existing post and has a registered author. */
  predicate CommentOk(s: State, c: Comment)
  {
    HasPost(s.posts, c.post) && c.author in s.users
  }

  /**
   * The integrity constraints of the data: foreign keys resolve, post ids are
   * unique, follow rows are neither duplicated nor self-loops.
   */
  predicate Valid(s: State)
  {
    && UniqueIds(s.posts)
    && (forall i :: 0 <= i < |s.posts| ==> PostOk(s, s.posts[i]))
    && (forall i :: 0 <= i < |s.comments| ==> CommentOk(s, s.comments[i]))
    && (forall i :: 0 <= i < |s.follows| ==> EdgeOk(s, s.follows[i]))
    && Distinct(s.follows)
  }

  /** A viewer the views can meet: anonymous, or a registered user. */
  predicate KnownViewer(s: State, viewer: Viewer)
  {
    viewer.Some? ==> viewer.value in s.users
  }

  /** In a valid state the post found for an id is the only one with that id. */
  lemma FindPostUnique(s: State, id: PostId, k: nat)
    requires Valid(s)
    requires k < |s.posts| && s.posts[k].id == id
    ensures FindPost(s.posts, id) == Some(k)
  {
  }
}
