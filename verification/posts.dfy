/**
 * The views that write posts and comments: `post_create`, `post_edit` and
 * `add_comment`. Form validation happens elsewhere, so a submitted form arrives
 * here already judged: `valid` is false for an unbound (GET) or rejected form.
 */
module Posts {
  import opened Wrappers
  import opened Blog

  /** A submitted post form: the text and the chosen group, if any. */
  datatype PostForm = PostForm(valid: bool, text: string, group: Option<Slug>)

  /** A submitted comment form. */
  datatype CommentForm = CommentForm(valid: bool, text: string)

  /** A valid post form only offers existing groups (the group field is a choice of groups). */
  predicate FormFits(s: State, form: PostForm)
  {
    form.valid && form.group.Some? ==> form.group.value in s.groups
  }

  /**
   * `post_create` (login required): a valid form becomes a new post authored by the
   * viewer, with the next free id, and the viewer is sent to their profile; an
   * invalid form is shown again and nothing is stored.
   */
  function PostCreate(s: State, viewer: Viewer, form: PostForm): (t: Step)
    ensures viewer.None? ==> t == Step(s, LoginRedirect(CreateRoute))
    ensures viewer.Some? && !form.valid ==> t == Step(s, FormPage(false))
    ensures viewer.Some? && form.valid ==>
      && t.response == Redirect(ProfileRoute(viewer.value))
      && |t.next.posts| == |s.posts| + 1
      && t.next.posts[..|s.posts|] == s.posts
      && t.next.posts[|s.posts|] == Post(s.nextId, viewer.value, form.group, form.text)
      && t.next == s.(posts := t.next.posts, nextId := s.nextId + 1)
  {
    match viewer
    case None => Step(s, LoginRedirect(CreateRoute))
    case Some(user) =>
      if !form.valid then Step(s, FormPage(false))
      else
        var post := Post(s.nextId, user, form.group, form.text);
        Step(s.(posts := s.posts + [post], nextId := s.nextId + 1), Redirect(ProfileRoute(user)))
  }

  /**
   * `post_edit` (no login gate): an unknown id is a 404; anyone but the post's
   * author, anonymous visitors included, is sent to the post's page; the author
   * with a valid form replaces the text and group and is sent to the post's page;
   * the author with an invalid form sees the form again.
   */
  function PostEdit(s: State, viewer: Viewer, id: PostId, form: PostForm): (t: Step)
    ensures !HasPost(s.posts, id) <==> t.response == NotFound
    ensures !HasPost(s.posts, id) ==> t.next == s
    ensures HasPost(s.posts, id) ==> t.response in {Redirect(DetailRoute(id)), FormPage(true)}
    ensures t.response == FormPage(true) ==> t.next == s && !form.valid && viewer.Some?
    ensures t.next == s.(posts := t.next.posts)
    ensures |t.next.posts| == |s.posts|
    ensures forall j :: 0 <= j < |s.posts| ==>
      t.next.posts[j].id == s.posts[j].id && t.next.posts[j].author == s.posts[j].author
    ensures forall j :: 0 <= j < |s.posts| && t.next.posts[j] != s.posts[j] ==>
      && s.posts[j].id == id
      && viewer == Some(s.posts[j].author)
      && form.valid
      && t.next.posts[j].text == form.text
      && t.next.posts[j].group == form.group
  {
    match FindPost(s.posts, id)
    case None => Step(s, NotFound)
    case Some(i) =>
      var post := s.posts[i];
      if viewer != Some(post.author) then Step(s, Redirect(DetailRoute(id)))
      else if !form.valid then Step(s, FormPage(true))
      else
        var edited := post.(text := form.text, group := form.group);
        Step(s.(posts := s.posts[i := edited]), Redirect(DetailRoute(id)))
  }

  /**
   * `add_comment` (login required): an unknown id is a 404; a valid form adds one
   * comment by the viewer on that post; in every other case nothing is stored, and
   * the viewer is sent to the post's page.
   */
  function AddComment(s: State, viewer: Viewer, id: PostId, form: CommentForm): (t: Step)
    ensures viewer.None? ==> t == Step(s, LoginRedirect(CommentRoute(id)))
    ensures viewer.Some? && !HasPost(s.posts, id) ==> t == Step(s, NotFound)
    ensures viewer.Some? && HasPost(s.posts, id) ==> t.response == Redirect(DetailRoute(id))
    ensures t.next == s.(comments := t.next.comments)
    ensures viewer.Some? && HasPost(s.posts, id) && form.valid ==>
      t.next.comments == s.comments + [Comment(id, viewer.value, form.text)]
    ensures !(viewer.Some? && HasPost(s.posts, id) && form.valid) ==> t.next == s
  {
    match viewer
    case None => Step(s, LoginRedirect(CommentRoute(id)))
    case Some(user) =>
      if FindPost(s.posts, id).None? then Step(s, NotFound)
      else if !form.valid then Step(s, Redirect(DetailRoute(id)))
      else Step(s.(comments := s.comments + [Comment(id, user, form.text)]), Redirect(DetailRoute(id)))
  }

  /** In a valid state a new post's id is fresh. */
  lemma CreateFreshId(s: State, user: UserName, form: PostForm)
    requires Valid(s) && form.valid
    ensures !HasPost(s.posts, s.nextId)
    ensures HasPost(PostCreate(s, Some(user), form).next.posts, s.nextId)
  {
    var t := PostCreate(s, Some(user), form).next;
    assert t.posts[|s.posts|].id == s.nextId;
  }

  /** Creating a post keeps the data valid. */
  lemma CreatePreservesValid(s: State, viewer: Viewer, form: PostForm)
    requires Valid(s) && KnownViewer(s, viewer) && FormFits(s, form)
    ensures Valid(PostCreate(s, viewer, form).next)
  {
    var t := PostCreate(s, viewer, form).next;
    if viewer.Some? && form.valid {
      forall i | 0 <= i < |t.comments| ensures CommentOk(t, t.comments[i]) {
        assert t.comments[i] == s.comments[i];
        assert CommentOk(s, s.comments[i]);
        var k :| 0 <= k < |s.posts| && s.posts[k].id == t.comments[i].post;
        assert t.posts[k] == s.posts[k];
      }
    }
  }

  /**
   * An edit attempt by anyone but the author (anonymous or another user) changes
   * nothing and redirects to the post's page, whatever the form holds.
   */
  lemma EditByNonAuthor(s: State, viewer: Viewer, k: nat, form: PostForm)
    requires Valid(s) && k < |s.posts|
    requires viewer != Some(s.posts[k].author)
    ensures PostEdit(s, viewer, s.posts[k].id, form) == Step(s, Redirect(DetailRoute(s.posts[k].id)))
  {
    FindPostUnique(s, s.posts[k].id, k);
  }

  /**
   * A valid edit by the author replaces that post's text and group; its id and
   * author, the number of posts and every other post stay as they were.
   */
  lemma EditByAuthor(s: State, k: nat, form: PostForm)
    requires Valid(s) && k < |s.posts| && form.valid
    ensures var t := PostEdit(s, Some(s.posts[k].author), s.posts[k].id, form);
      && t.response == Redirect(DetailRoute(s.posts[k].id))
      && |t.next.posts| == |s.posts|
      && t.next.posts[k].id == s.posts[k].id
      && t.next.posts[k].author == s.posts[k].author
      && t.next.posts[k].text == form.text
      && t.next.posts[k].group == form.group
      && (forall j :: 0 <= j < |s.posts| && j != k ==> t.next.posts[j] == s.posts[j])
  {
    FindPostUnique(s, s.posts[k].id, k);
  }

  /**
   * The author with an unbound or invalid form gets the edit form back and nothing
   * is stored.
   */
  lemma EditFormShown(s: State, k: nat, form: PostForm)
    requires Valid(s) && k < |s.posts| && !form.valid
    ensures PostEdit(s, Some(s.posts[k].author), s.posts[k].id, form) == Step(s, FormPage(true))
  {
    FindPostUnique(s, s.posts[k].id, k);
  }

  /** Editing keeps the data valid. */
  lemma EditPreservesValid(s: State, viewer: Viewer, id: PostId, form: PostForm)
    requires Valid(s) && FormFits(s, form)
    ensures Valid(PostEdit(s, viewer, id, form).next)
  {
    var t := PostEdit(s, viewer, id, form).next;
    forall i | 0 <= i < |t.comments| ensures CommentOk(t, t.comments[i]) {
      assert t.comments[i] == s.comments[i];
      assert CommentOk(s, s.comments[i]);
      var k :| 0 <= k < |s.posts| && s.posts[k].id == t.comments[i].post;
      assert t.posts[k].id == s.posts[k].id;
    }
    forall i | 0 <= i < |t.posts| ensures PostOk(t, t.posts[i]) {
      if t.posts[i] != s.posts[i] {
        assert PostOk(s, s.posts[i]);
      }
    }
  }

  /** Commenting keeps the data valid. */
  lemma CommentPreservesValid(s: State, viewer: Viewer, id: PostId, form: CommentForm)
    requires Valid(s) && KnownViewer(s, viewer)
    ensures Valid(AddComment(s, viewer, id, form).next)
  {
  }
}
