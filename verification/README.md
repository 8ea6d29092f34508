# Yatube posts views — a Dafny model

Yatube is a small blog: registered users publish posts, optionally in a group,
comment on posts, and follow other authors to get a personal feed. The logic the
application owns lives in the posts views (`yatube/posts/views.py`); everything
around it (database, templates, login, page cache) is framework behaviour.

This project models those views as pure transitions and queries over an abstract
state:

- `Blog.State`: the registered usernames, the group slugs, the posts
  (id, author, group, text), the comments (post id, author, text), the follow
  rows (subscriber, author) and the next post id. Posts, comments and follow rows
  are sequences in insertion order, so the follow table can in principle hold
  duplicates. Each view is modelled as one atomic step. Under that reading, the
  duplicate check in `profile_follow` is what keeps the table free of duplicates.
- A viewer is `Option<UserName>`; `None` is the anonymous visitor.
- A writing view (`Follows`, `Posts`) returns a `Blog.Step`: the new state and a
  `Blog.Response`. A read-only view (`Listings`) returns a bare `Blog.Response`.
  The response is a listing page, a profile page, a detail page, a form page, a redirect to a
  named route, a redirect to login (with the page to come back to), or a 404.
- `Blog.Valid` is the integrity invariant: foreign keys resolve, post ids are
  unique, and follow rows are neither duplicated nor self-loops. Every writing view
  preserves it.

Modules: `Wrappers` (Option), `Seqs` (order-preserving filter and removal, with
their lemmas), `Pagination` (the ten-per-page paginator), `Blog` (data, responses,
invariant, post lookup), `Follows` (follow, unfollow, following flag), `Posts`
(create, edit, comment), `Listings` (index, group, profile, detail, feed).

Two facts about the code that shape the model:

- `post_edit` has no `@login_required` (views.py:93-97). An anonymous visitor is
  therefore redirected to the post's page, like any other non-author, and is not
  sent to the login page.
- The ordering of posts and of comments is defined in `models.py`, which is not
  part of this model. The views add no `order_by` of their own; views.py:60 reads
  `post.comments.all()` as it is. Here posts and comments both stay in creation
  order, and every listing keeps the creation order of the sequence it filters.
  The tests read a just-created post with `Post.objects.first()`
  (test_forms.py:68), which points to newest-first listings. The visible effect:
  page 1 of a modelled listing holds the oldest posts, while the real site shows
  the newest first. Likewise, "the new post comes last" in
  `Listings.NewPostSeenBySubscriber` is a fact about creation order, not about
  where the post appears on the page. In the same way, "the new comment comes
  last" in `Listings.CommentShownOnDetail` is a fact about creation order. If
  the comment model orders newest first, the real page shows the new comment
  first.

## Model

| member | source | states |
|---|---|---|
| Pagination.PageCount | yatube/posts/views.py:12-16 | the number of pages is the least count of ten-item pages that holds every item, and is at least one (an empty listing has one empty page) |
| Pagination.Page | yatube/posts/views.py:12-16 | an in-range page holds at most ten items, exactly ten unless it is the last, the last page ends exactly at the end of the listing, it is non-empty when the listing is, and its i-th item is item (k-1)*10+i of the listing |
| Pagination.PageIsPageOf | yatube/posts/views.py:12-16 | the computed page satisfies the independent description of page k: at most ten consecutive items from (k-1)*10, short only at the end |
| Pagination.PageUnique | yatube/posts/views.py:12-16 | any sequence that is page k of a listing in that sense equals the computed page |
| Pagination.PagesConcat | yatube/posts/views.py:12-16 | reading all pages in order gives back the whole listing, with nothing lost or repeated |
| Pagination.PageOfItem | yatube/posts/views.py:12-16 | every item of a listing appears on the in-range page i/10+1 |
| Pagination.ThirteenItems | yatube/posts/tests/test_views.py:237-262 | thirteen items make two pages, of ten and of three items |
| Blog.FindPost | yatube/posts/views.py:95 | the lookup by id yields the index of the first post with that id, and yields nothing exactly when no post has that id |
| Follows.Follow | yatube/posts/views.py:140-147 | anonymous viewers are sent to login and unknown authors get a 404, with no change; if the (viewer, author) row already exists, or the viewer is the author, nothing changes; otherwise the viewer goes to the profile, the row exists afterwards, no other row appears, existing rows keep their order, and nothing but the follow table changes |
| Follows.FollowIdempotent | yatube/posts/views.py:143-147 | a second identical follow request changes nothing and answers the same |
| Follows.NoSelfFollow | yatube/posts/views.py:145-146 | a user asking to follow themself leaves the state unchanged |
| Follows.FollowPreservesValid | yatube/posts/views.py:140-147 | following never creates a duplicate row or a self-loop, and keeps every row between registered users |
| Follows.Unfollow | yatube/posts/views.py:150-154 | anonymous viewers are sent to login and unknown authors get a 404, with no change; otherwise every copy of the (viewer, author) row is deleted, every other row keeps its number of copies and its order, and nothing else changes |
| Follows.UnfollowIdempotent | yatube/posts/views.py:153 | a second identical unfollow request changes nothing and answers the same |
| Follows.UnfollowPreservesValid | yatube/posts/views.py:150-154 | unfollowing keeps the data valid |
| Follows.UnfollowRemovesOne | yatube/posts/views.py:153 | in valid data, unfollowing a followed author removes exactly one row, and the profile flag becomes false |
| Follows.IsFollowing | yatube/posts/views.py:43-45 | the profile flag is unset exactly for anonymous viewers, and is true exactly when the viewer has a follow row for the author |
| Follows.Subscriptions | yatube/posts/tests/test_views.py:376 | the viewer's subscriptions are the follow rows whose subscriber is the viewer, in table order |
| Follows.SubscriptionsExact | yatube/posts/tests/test_views.py:376 | each of the viewer's rows is kept as often as it is stored and no other row is kept, so the count the test reads is fixed |
| Follows.FollowAddsSubscription | yatube/posts/tests/test_views.py:376-380 | following a new author appends exactly that one row to the viewer's subscriptions, so the count rises by one, and sets the profile flag |
| Follows.FollowThenUnfollow | yatube/posts/tests/test_views.py:373-384 | following a new author and unfollowing again restores the follow table exactly, so the subscription count is back where it was, and clears the flag |
| Posts.PostCreate | yatube/posts/views.py:73-90 | anonymous viewers are sent to login; an invalid form is shown again with no change; a valid form appends one post by the viewer, with the form's text and group and the next id, leaves the existing posts, comments and follows untouched, and redirects to the viewer's profile |
| Posts.CreateFreshId | yatube/posts/views.py:82-84 | in valid data the new post's id was not used before and is present afterwards |
| Posts.CreatePreservesValid | yatube/posts/views.py:81-85 | creating a post keeps the data valid |
| Posts.PostEdit | yatube/posts/views.py:93-112 | an unknown id is a 404 with no change; otherwise the answer is the post's page or the edit form, and the edit form comes with no change and only for an invalid form; no post's id or author ever changes, the post count is kept, and a post can only change if it carries that id, the viewer is its author and the form is valid, in which case it takes the form's text and group |
| Posts.EditByNonAuthor | yatube/posts/views.py:96-97 | a non-author, anonymous or logged in, changes nothing and is redirected to the post's page |
| Posts.EditByAuthor | yatube/posts/views.py:98-106 | a valid edit by the author sets that post's text and group, keeps its id and author and the post count, leaves every other post as it was, and redirects to the post's page |
| Posts.EditFormShown | yatube/posts/views.py:107-112 | the author with an unbound or invalid form gets the edit form back and nothing is stored |
| Posts.EditPreservesValid | yatube/posts/views.py:103-105 | editing keeps the data valid |
| Posts.AddComment | yatube/posts/views.py:115-124 | anonymous viewers are sent to login and unknown posts get a 404, with no change; a valid form appends exactly one comment with that post id, the viewer as author and the form's text; an invalid form stores nothing; the viewer goes to the post's page |
| Posts.CommentPreservesValid | yatube/posts/views.py:119-123 | commenting keeps the data valid |
| Listings.ByGroup | yatube/posts/views.py:32 | a post is listed exactly when its group is the slug's group, and the listing keeps the posts' order |
| Listings.ByAuthor | yatube/posts/views.py:46-49 | a post is listed exactly when the author wrote it, in order |
| Listings.Feed | yatube/posts/views.py:131-133 | a post is in the feed exactly when the viewer has a follow row for its author, in order |
| Listings.CommentsOn | yatube/posts/views.py:60 | the comments shown under a post are exactly those on it, each as often as it was stored, in creation order (the comment model's own ordering is not modelled) |
| Listings.Index | yatube/posts/views.py:20-26 | the index shows exactly page k of all posts |
| Listings.GroupPosts | yatube/posts/views.py:29-37 | an unknown slug is a 404 for any page number; otherwise exactly page k of the group's posts |
| Listings.Profile | yatube/posts/views.py:40-53 | an unknown username is a 404 for any page number; otherwise exactly page k of the author's posts, their total post count, and the following flag (unset for anonymous, true exactly when a row exists) |
| Listings.PostDetail | yatube/posts/views.py:56-70 | an unknown id is a 404 and an existing one a detail page with the post of that id, its author's post count, and exactly the comments on it, each as often as stored, in stored order |
| Listings.FollowIndex | yatube/posts/views.py:127-137 | anonymous viewers are sent to login; otherwise exactly page k of the viewer's feed |
| Listings.UnknownIsNotFound | yatube/posts/views.py:29-42 | an unknown slug on the group page and an unknown username on the profile page give a 404 whatever the page number |
| Listings.IndexPostListed | yatube/posts/views.py:20-26 | every post appears on some in-range page of the index |
| Listings.ProfilePostListed | yatube/posts/views.py:40-53 | every post of an author appears on some page of their profile, and the profile's pages hold only that author's posts |
| Listings.FeedPostListed | yatube/posts/views.py:127-137 | every post by a followed author appears on some page of the feed, and the feed's pages hold only such posts |
| Listings.ThirteenPostsPaged | yatube/posts/tests/test_views.py:237-262 | with thirteen posts by one author in one group, the index, group and profile pages each show ten posts on page 1 and three on page 2 |
| Listings.GroupPostListed | yatube/posts/tests/test_views.py:318-351 | a group's post appears on some page of that group's listing and in no other group's listing |
| Listings.EmptyFeedWithoutFollows | yatube/posts/tests/test_views.py:395-404 | a user with no follow rows has an empty feed |
| Listings.NewPostSeenBySubscriber | yatube/posts/tests/test_views.py:386-404 | after following an author who then publishes, the subscriber's feed gains exactly the new post, and a user without a row for that author does not see it |
| Listings.FeedAfterUnfollow | yatube/posts/views.py:150-154 | after unfollowing an author, the feed holds none of their posts and keeps all others |
| Listings.CommentShownOnDetail | yatube/posts/tests/test_views.py:353-371 | a comment added with a valid form is added after the earlier comments under its post, in creation order |

## Left out

- Concurrency: each view is modelled as one atomic step. Concurrent requests are not modelled. `profile_follow` checks for the row and then creates it, with no transaction or lock, so two identical requests at once could both pass the check. The result would then be two rows, or a failed request if `models.py` declares a uniqueness constraint. Neither outcome is modelled.
- The 20-second page cache on the index (`cache_page`): time-based framework state.
- Listings.Index: requires an in-range page number. The framework paginator's fallback for missing, non-numeric or out-of-range page numbers is library behaviour and is not modelled.
- Listings.GroupPosts: for a known slug, requires an in-range page number, for the same reason.
- Listings.Profile: for a known username, requires an in-range page number, for the same reason.
- Listings.FollowIndex: requires an in-range page number for a logged-in viewer, for the same reason.
- Form validation: `PostForm` and `CommentForm` are defined outside the views, so a form arrives with a `valid` flag. For the invariant, a valid post form is assumed to offer only existing groups (`Posts.FormFits`).
- Images and upload storage, the publication and creation dates, and the ordering of the post and comment models.
- Template rendering, HTTP status codes and URL strings. Redirects are named routes. The login redirect carries the route to return to, not the `next=` URL text.
- User accounts: users are a fixed set of usernames, because sign-up and login are framework views.
- URL routing and admin configuration. The static-page and 404 tests are out of scope too.
