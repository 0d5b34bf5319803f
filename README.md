# Yatube feed and relationship engine in Dafny

Yatube is a blog. Users write posts, may put a post in a topical group,
comment on posts and follow other authors. This project models the part that
decides:

- which posts each of the four feeds shows: global, group, author profile,
  and the authors the viewer follows;
- in what order each feed shows them (newest first);
- how each feed is cut into pages of ten;
- how follow edges are created and removed;
- what the create, edit and comment forms may change.

The database tables become sequences of records, kept in creation order
(ascending primary key):

- `Models` holds the records, the schema's integrity constraints
  (`Models.Valid`), `__str__`, the group ordering and the `on_delete` rules,
  as pure functions on a `Db` value.
- `Follows` holds the follow-edge logic shared by `profile_follow` and
  `profile_unfollow`.
- `Paging` holds `get_page`.
- `Feeds` holds the read-only views as functions.
- `Views.Store` is a class whose fields are the tables. Its methods are the
  views that change them.
- `Cache.IndexCache` is the one-slot memo in front of `index`.
- `Seqs` holds generic sequence helpers.

The ORM's `ORDER BY -pk` is modelled by reading a table back to front. Rows
are stored in ascending key order, so the result is strictly descending by
key, and every feed states that as `Descending(.., PostKey)`. The form layer,
the clock and the session are inputs:

- a `FormInput` (`Cleaned(fields)` or `Rejected`);
- a `now: Timestamp`;
- a `Viewer` (`Anonymous` or `Authenticated(user)`).

## Model

| member | source | states |
|---|---|---|
| `Models.PostStr` | yatube/posts/models.py:53-55 | `str(post)` is a prefix of the text whose length is the smaller of 15 and the length of the text |
| `Models.GroupStr` | yatube/posts/models.py:18-19 | `str(group)` is its title |
| `Models.OrderGroups` | yatube/posts/models.py:13-14 | group listing: each title is lexicographically at least the next one's, and the listing is a permutation of the groups |
| `Models.InsertByTitle` | yatube/posts/models.py:13-14 | inserting a group into a title-descending list keeps it descending and adds exactly that group |
| `Models.TitleLeqTotal` | yatube/posts/models.py:13-14 | any two titles are comparable, so the descending title order is defined for every pair of groups |
| `Models.DeleteGroup` | yatube/posts/models.py:34-41 | deleting a group keeps every post in place and clears `group` exactly on the posts that were in it (SET_NULL) |
| `Models.Valid` | yatube/posts/models.py:28-105 | the schema's constraints: unique user ids and usernames, unique group ids and slugs, keys increasing in creation order, every foreign key pointing at a stored row, and at most one follow row per (user, author) pair; the `KeepsValid` lemmas state that each write keeps it |
| `Models.DeleteGroupKeepsValid` | yatube/posts/models.py:34-41 | the SET_NULL rule leaves the database satisfying every integrity constraint |
| `Models.DeletePost` | yatube/posts/models.py:59-64 | deleting a post removes exactly that post and exactly its comments (CASCADE) |
| `Models.DeletePostKeepsValid` | yatube/posts/models.py:59-64 | after the cascade no comment points at a missing post, and every constraint holds |
| `Models.DeleteUser` | yatube/posts/models.py:28-95 | deleting a user removes the user, their posts, their comments, comments on their posts, and every follow edge with them at either end; nothing else (a comment on a post that was never stored stays) |
| `Models.DeleteUserKeepsValid` | yatube/posts/models.py:28-95 | after the cascade every remaining foreign key points at an existing row and every constraint holds; in a valid database a comment survives exactly when its author and its post do |
| `Models.DeleteAllPosts` | yatube/posts/tests/test_views.py:371 | deleting every post leaves no post; by CASCADE a comment goes exactly when its post was a stored post; users, groups and follows stay |
| `Models.DeleteAllPostsLeavesNoComment` | yatube/posts/models.py:59-64 | in a valid database the cascade leaves no comment at all, and the emptied database is valid |
| `Models.AppendPostKeepsValid` | yatube/posts/views.py:80-82 | saving a new post with a larger id, an existing author and an existing (optional) group keeps every constraint |
| `Models.ReplacePostKeepsValid` | yatube/posts/views.py:100-103 | saving an edited post with the same id and author keeps every constraint |
| `Models.AppendCommentKeepsValid` | yatube/posts/views.py:118-121 | saving a new comment on an existing post by an existing user keeps every constraint |
| `Follows.IsFollowing` | yatube/posts/views.py:141-142 | the existence check on the follow table; `FollowingIsEdge` states that it holds exactly when the pair is an edge |
| `Follows.AddFollow` | yatube/posts/views.py:141-144 | the follow table `profile_follow` leaves; `FollowEdges`, `FollowSelfIsNoOp`, `FollowIdempotent` and `FollowKeepsInvariant` state what it does to the edges and the invariants |
| `Follows.RemoveFollow` | yatube/posts/views.py:152-155 | the follow table `profile_unfollow` leaves; `UnfollowEdges`, `UnfollowKeepsOthers` and `UnfollowKeepsInvariant` state what it does to the edges and the invariants |
| `Follows.FollowingIsEdge` | yatube/posts/views.py:141-142 | the existence check holds exactly when the pair is in the edge set, and exactly when the author is among those the user follows |
| `Follows.FollowedAuthorsMeaning` | yatube/posts/views.py:129 | the authors a user follows are exactly those for which the existence check holds |
| `Follows.FollowSelfIsNoOp` | yatube/posts/views.py:143-144 | following oneself leaves the follow table unchanged |
| `Follows.FollowEdges` | yatube/posts/views.py:141-144 | after a follow, the edge set is the old one plus `(user, author)`, unless the two are the same user |
| `Follows.FollowIdempotent` | yatube/posts/views.py:141-144 | following twice leaves the same table as following once |
| `Follows.FollowKeepsInvariant` | yatube/posts/models.py:101-105 | a follow never creates a duplicate pair or a self-follow, and keeps ids increasing |
| `Follows.UnfollowEdges` | yatube/posts/views.py:152-155 | after an unfollow, the edge set is the old one minus exactly `(user, author)`; the view's self-follow guard changes nothing because no self-follow exists |
| `Follows.UnfollowKeepsOthers` | yatube/posts/views.py:154-155 | an unfollow only removes rows, keeps every row for another pair, and leaves no row for the pair |
| `Follows.UnfollowKeepsInvariant` | yatube/posts/views.py:152-155 | an unfollow keeps the table free of duplicates and self-follows, with increasing ids |
| `Paging.NumPages` | yatube/posts/views.py:16-21 | the page count is `ceil(n / 10)` and at least one |
| `Paging.PageNumber` | yatube/posts/views.py:19-20 | the page served always exists: between 1 and the page count |
| `Paging.GetPage` | yatube/posts/views.py:16-21 | page `k` holds items `[(k-1)*10, min(k*10, n))`, at most ten, and a non-empty feed never serves an empty page |
| `Paging.FirstPageFull` | yatube/posts/tests/test_views.py:408-410 | with at least ten items, the first page is exactly the first ten |
| `Paging.LastPageSize` | yatube/posts/tests/test_views.py:412-417 | the last page holds `n mod 10` items, or ten when the remainder is zero |
| `Paging.OutOfRangeIsLastPage` | yatube/posts/views.py:19-20 | a page number below 1 or past the end serves the last page |
| `Paging.TestsLastPageNumber` | yatube/posts/tests/test_views.py:400-403 | the page number `n // 10 + 1` used by the paging tests gets the `n mod 10` (or ten) items they expect, also when it lies past the end |
| `Paging.ItemOnPage` | yatube/posts/views.py:16-21 | item `i` of a feed is item `i mod 10` of page `i div 10 + 1` |
| `Paging.PagesCoverFeed` | yatube/posts/views.py:16-21 | reading pages 1, 2, … in order gives back the whole feed |
| `Paging.PagesFromSuffix` | yatube/posts/views.py:16-21 | the pages from page `k` on are exactly the feed from item `(k-1)*10` on |
| `Feeds.FindUser` | yatube/posts/views.py:48 | the lookup by username yields a stored user with that name, or none when no user has it |
| `Feeds.FindGroup` | yatube/posts/views.py:37 | the lookup by slug yields a stored group with that slug, or none when no group has it |
| `Feeds.PostIndex` | yatube/posts/views.py:92 | the lookup by id yields the position of a post with that id, or none when no post has it |
| `Feeds.FindPost` | yatube/posts/views.py:65 | the lookup by id yields a stored post with that id, or none when no post has it |
| `Feeds.NewestFirst` | yatube/posts/models.py:48-49 | ordering by `-pk` keeps exactly the same posts and, for a table in creation order, makes ids strictly decrease |
| `Feeds.AllPosts` | yatube/posts/views.py:27 | the global feed holds exactly all posts, newest first |
| `Feeds.GroupPostList` | yatube/posts/views.py:38 | the group feed holds exactly the posts of that group, newest first |
| `Feeds.AuthorPostList` | yatube/posts/views.py:52 | the profile feed holds exactly the author's posts, newest first |
| `Feeds.FollowPostList` | yatube/posts/views.py:129 | the following feed holds exactly the posts whose author the viewer follows, newest first, with no post twice |
| `Feeds.PostComments` | yatube/posts/views.py:67 | a post page lists exactly that post's comments, newest first |
| `Feeds.PageItems` | yatube/posts/views.py:16-21 | a page only holds items of its feed and keeps the feed's order |
| `Feeds.Index` | yatube/posts/views.py:25-32 | the global page is the requested page of the global feed; so it shows only stored posts, newest first, and is non-empty when any post exists |
| `Feeds.GroupPosts` | yatube/posts/views.py:35-44 | not found exactly when no group has the slug; otherwise that group and a page of its feed |
| `Feeds.Profile` | yatube/posts/views.py:47-61 | not found exactly when no user has the name; otherwise that author, a page of their feed, and `following` true exactly when a signed-in viewer has an edge to the author |
| `Feeds.FollowIndex` | yatube/posts/views.py:125-134 | anonymous viewers are turned away; a signed-in viewer gets a page of the following feed, holding only posts by followed authors |
| `Feeds.PostDetail` | yatube/posts/views.py:64-73 | not found exactly when no post has the id; otherwise that post and its comments |
| `Feeds.ProfileFollowingAsWritten` | yatube/posts/views.py:52-54 | the flag as written, computed over the author's posts; `ProfileFollowingAsWrittenMeaning` states what it means |
| `Feeds.ProfileFollowingAsWrittenMeaning` | yatube/posts/views.py:49-54 | as written, the flag holds exactly when the author has a post and the viewer follows the author |
| `Feeds.ProfileFollowingAsWrittenMissesSilentAuthors` | yatube/posts/views.py:52-54 | a viewer who follows an author with no posts gets `following` false |
| `Feeds.FollowingFlag` | yatube/posts/views.py:49-54 | corrected flag: true exactly when the viewer is signed in and has an edge to the author |
| `Feeds.FollowingFlagMatchesWhenAuthorPosted` | yatube/posts/views.py:52-54 | when the author has a post, the corrected flag and the flag as written agree |
| `Feeds.FollowFeedEmptyWithoutFollows` | yatube/posts/tests/test_views.py:159-164 | a viewer who follows nobody gets an empty following feed |
| `Feeds.NewPostHeadsFeeds` | yatube/posts/models.py:48-49 | a newly created post is put in front of the global feed, its author's feed, its group's feed and every follower's feed; every other author's feed, every other group's feed and every non-follower's following feed stays as it was, so an author the viewer does not follow never shows up in the following feed |
| `Feeds.FollowShowsAuthorsPosts` | yatube/posts/tests/test_views.py:166-183 | after following an author, every post of theirs is in the follower's feed |
| `Feeds.FollowThenUnfollowEmptiesFeed` | yatube/posts/tests/test_views.py:211-222 | starting from no follows, follow then unfollow leaves the following feed empty |
| `Feeds.NewCommentFirst` | yatube/posts/models.py:77-78 | a new comment comes first among its post's comments, in front of the old ones; other posts' comments stay as they were |
| `Views.Edited` | yatube/posts/views.py:100-103 | saving the edit form replaces text, group and image and keeps id, publication date and author |
| `Views.AddCommentResponseAsWritten` | yatube/posts/views.py:113-122 | the answer of `add_comment` as written; `AddCommentAsWrittenAnswersNothing` exhibits the missing return, and `AddCommentResponse` agrees with it whenever the form is valid |
| `Views.AddCommentAsWrittenAnswersNothing` | yatube/posts/views.py:113-122 | as written, a signed-in user sending a form that fails validation to an existing post gets no response |
| `Views.AddCommentResponse` | yatube/posts/views.py:113-122 | corrected answer: login redirect for anonymous viewers, not found for an unknown post, the post's page otherwise; every case gets a response |
| `Views.Store.ProfileFollow` | yatube/posts/views.py:137-145 | login redirect and no change for anonymous viewers; not found and no change for an unknown username; otherwise the follow table becomes `AddFollow` of the old one; posts and comments are untouched, the follow id counter advances by one exactly when a row is added, and the invariants hold |
| `Views.Store.ProfileUnfollow` | yatube/posts/views.py:148-156 | the same gates; otherwise the follow table becomes `RemoveFollow` of the old one; posts, comments and every id counter are untouched and the invariants hold |
| `Views.Store.PostCreate` | yatube/posts/views.py:76-87 | a valid form appends exactly one post, authored by the requester whatever the form says, stamped with the new id and the current time, then redirects to the requester's profile; otherwise no table changes; the post id counter advances by one exactly when a post is added, and the other counters stay |
| `Views.Store.PostEdit` | yatube/posts/views.py:90-110 | a non-author is redirected to the post page and nothing changes; the author's valid form rewrites that one post in place with `Edited`; an invalid form re-renders and nothing changes; no id counter moves |
| `Views.Store.AddComment` | yatube/posts/views.py:113-122 | a signed-in user's valid form appends exactly one comment, with the requester as author and the target post as post; in every other case the comments are unchanged; the comment id counter advances by one exactly when a comment is added |
| `Cache.IndexCache.Render` | yatube/posts/views.py:24 | a full slot is served as it is, whatever the posts are now; an empty slot is filled with a fresh global page |
| `Cache.IndexCache.Clear` | yatube/posts/tests/test_views.py:375 | clearing empties the slot |
| `Cache.CacheHidesDeletionUntilCleared` | yatube/posts/tests/test_views.py:367-378 | render, delete all posts, render: the same page is served; after clearing, the next render shows no posts |

## Left out

- Template rendering, URL routing, HTTP status codes and the not-found page: a view's answer is a `Response` or an `Outcome` value.
- Login redirects: `login_required` is the `RedirectToLogin` answer of the `Views.Store` methods and the `Fail(Unauthenticated)` outcome of `Feeds.FollowIndex`. The `?next=` return path is not built.
- `IndexCache.Render` has no 20-second expiry, because the window depends on a clock. It keeps a single slot, while Django keys the cache by request URL. The model therefore serves the stored page for any page number until the slot is cleared.
- Image upload and storage: an image is an opaque optional value.
- Form validation: `PostForm` and `CommentForm` are not part of this model. Their verdict is the `FormInput` parameter.
- `GroupChoiceOk` assumes the form's group choice only accepts an existing group.
- The edit form is bound to the post, so the cleaned image it returns already reflects Django's "keep the existing file" handling.
- Paginator behaviour comes from Django, not from this repository. The model assumes Django's `get_page` contract: orphans 0 and an empty first page allowed; a missing or non-integer page gives page 1; a number below 1 or past the end gives the last page.
- `Feeds.ProfileFollowingAsWritten` covers signed-in viewers only. For an anonymous viewer the view filters on `user=None` across a join, and its result then depends on how the ORM builds that join. The model uses the corrected flag (see Findings), which is false for anonymous viewers.
- Group ordering compares titles code point by code point. The database's collation is not modelled.
- Concurrency: views run one at a time. If two follow requests raced, the `UniqueConstraint` would reject the second insert.
- Users and groups are created by the authentication layer and the admin. The `Store` constructor takes them as given.
- The `on_delete` rules are functions on `Db`, because no view in the core deletes a user, group, post or comment, so no view triggers them. The one deletion a view makes, of `Follow` rows in `profile_unfollow`, is `RemoveFollow` inside `Views.Store.ProfileUnfollow`. `CacheHidesDeletionUntilCleared` uses `DeleteAllPosts` on a `Db` value.
- Follow's own `-pk` ordering is not modelled, because no view lists follow rows.
- Group description, user display names and email are stored but never read by the core, so they are not modelled beyond the fields shown.
- Database auto-increment is modelled as counters starting at 1.
- The empty comment form shown on a post page is not modelled.
- `yatube/users/forms.py` and `yatube/users/views.py` are not part of this model (thin sign-up wrappers). Neither is `yatube/core/context_processors/year.py` (a clock read), nor the static about pages.

## Findings

| source | as written | input that shows it | evidently intended | confidence | as-written member | corrected member |
|---|---|---|---|---|---|---|
| yatube/posts/views.py:52-54 | `following` is computed over the author's posts, so it is true only if the author has at least one post and the viewer follows them | user 1 follows user 2, who has no posts; user 1 opens user 2's profile: `following` is false | `following` is true exactly when the viewer follows the author, and false for anonymous viewers | medium, not executed | `Feeds.ProfileFollowingAsWrittenMissesSilentAuthors` | `Feeds.FollowingFlag` |
| yatube/posts/views.py:117-122 | the only `return` sits inside `if form.is_valid()`, so a form that fails validation, or a GET, makes the view return `None`, which Django rejects with a server error | a signed-in user posts an empty comment to an existing post | redirect to the post's page, as the valid case does | high, not executed | `Views.AddCommentAsWrittenAnswersNothing` | `Views.AddCommentResponse` |

`Feeds.Profile` uses the corrected flag. `Views.Store.AddComment` uses the corrected answer. Neither finding changes what is stored.
