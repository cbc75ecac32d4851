# Yatube posts core in Dafny

Yatube is a small blog. Signed-in users write posts, optionally in a
topic group, comment on posts and follow other authors. Anyone can read
the post lists of the whole site, of a group and of an author, and
signed-in users also get a feed of the authors they follow. This project
models the `posts` application of the blog:

- the records (`Post`, `Group`, `Comment`, `Follow`), their display
  strings, text limits, listing order and delete cascades;
- the `validate_not_empty` validator and the text cleaning the post and
  comment forms apply before it;
- the read-only views (`index`, `group_posts`, `profile`, `post_detail`,
  `follow_index`) as pure functions of the database, including the
  paginator they all use;
- the state-changing views (`post_create`, `post_edit`, `add_comment`,
  `profile_follow`, `profile_unfollow`). Each is a pure transition
  function in `Handlers` and a method of the mutable `Blog.Store` class,
  which updates its table sequences in place and is proved to perform
  exactly that transition. The one exception is `add_comment`:
  `Blog.Store.AddComment` performs the corrected transition
  `Handlers.AddCommentIntended`, which redirects to the post where the
  view as written returns nothing (see "## Findings").

The database is a value `Models.Db` with one sequence per table and a
next-key counter per auto-incremented table. Its invariant,
`Models.Wellformed`, says:

- primary keys, usernames and group slugs are unique;
- every foreign key resolves;
- stored texts are non-empty and within their `max_length`;
- the follow table holds no (user, author) pair twice and no
  self-follow.

The storage does not enforce the follow part of the invariant. The
`UniqueConstraint` in `Follow.Meta` is built but never attached to
`constraints`, so only the follow views keep it. `ViewProperties` proves
that every view and every cascade keeps the invariant.
`Feeds.DuplicateFollowRepeatsPost` shows what breaking it would cost:
the follow feed, a join over the follow table, would list a post twice.

Layout, one module per file:

| file | module | content |
|---|---|---|
| wrappers.dfy | `Wrappers` | `Option`, `Result` |
| seqs.dfy | `Seqs` | tables as sequences: filter, get by key, count, uniqueness |
| ordering.dfy | `Ordering` | newest-first listing by (date, pk) |
| pagination.dfy | `Pagination` | `Paginator(rows, per_page).get_page(page)` |
| validators.dfy | `Validators` | `validate_not_empty` |
| models.dfy | `Models` | records, `__str__`, the database and its invariant |
| forms.dfy | `Forms` | cleaning of the post and comment forms |
| feeds.dfy | `Feeds` | the read-only views |
| handlers.dfy | `Handlers` | the state-changing views and the delete cascades |
| view_properties.dfy | `ViewProperties` | invariant preservation, follow and unfollow laws |
| store.dfy | `Blog` | class `Store`, the mutable database |

The following values are parameters, because their settings are not part
of this model:

- the page size (`COUNT_PER_PAGE`), written `perPage`;
- the `__str__` prefix length (`SYMBOLS_FOR_TEXT_POST_STR`), written
  `symbols`;
- the clock, written `now`.

Timestamps are natural numbers. The signed-in user is an `Option<User>`,
where `None` means anonymous; `login_required` is the
`RedirectToLogin` response.

Two places where the code differs from what one might expect follow
the code:

- `validate_not_empty` compares with the empty string and does not trim.
  A whitespace-only text is still refused, but by the form: the Django
  form field strips the text before the validator runs
  (`Forms.BlankTextPassesValidatorButNotForm`).
- Self-follow is prevented by the `profile_follow` view, not by the
  table, so "no self-follow" is part of the invariant the views keep.

## Model

| member | source | states |
|---|---|---|
| Validators.ValidateNotEmpty | yatube/posts/validators.py:4-9 | raises exactly when the value is the empty string (no trimming: whitespace passes); the error carries the fixed message and the value under `params["value"]`; otherwise the verdict is a plain pass |
| Forms.Strip | yatube/posts/forms.py:12 | the form field's whitespace strip: empty exactly when the text is all whitespace, else the text without its leading and trailing whitespace, neither end being whitespace |
| Forms.CleanText | yatube/posts/models.py:17-23 | a text field is accepted exactly when its stripped value is non-empty, within the limit and free of NUL; the cleaned value is the stripped text and fits the column; `Required` exactly for an all-blank text |
| Forms.CleanPostForm | yatube/posts/forms.py:6-12 | valid exactly when the text is and the chosen group, if any, exists; the cleaned fields are the stripped text (fitting 10000 characters) and the chosen group |
| Forms.CleanCommentForm | yatube/posts/forms.py:15-22 | valid exactly when the text is, within 20000 characters; the cleaned text is the stripped text |
| Forms.BlankTextPassesValidatorButNotForm | yatube/posts/validators.py:5 | a non-empty whitespace-only text passes the validator but the form rejects it as required |
| Models.PostStr | yatube/posts/models.py:59-60 | `text[:symbols]`: a prefix of the text of length min(len(text), symbols) |
| Models.CommentStr | yatube/posts/models.py:111-112 | `text[:symbols]`: a prefix of the text of length min(len(text), symbols) |
| Models.GroupStr | yatube/posts/models.py:73-74 | the group's title, unchanged |
| Models.FollowStr | yatube/posts/models.py:140-141 | the username of the user row that the follow's author key names |
| Ordering.Newest | yatube/posts/models.py:55 | the listing is a permutation of the table (same multiset of rows) |
| Ordering.NewestSorted | yatube/posts/models.py:55 | the listing is in descending (date, pk) order |
| Ordering.NewestFirstUnique | yatube/posts/models.py:55 | with distinct keys, two descending orderings of the same rows are the same sequence: the order is fully determined |
| Pagination.NumPages | yatube/posts/views.py:19 | at least one page, even for an empty listing |
| Pagination.NumPagesIsCeiling | yatube/posts/views.py:19 | the page count is ceil(max(1, count) / per_page) |
| Pagination.BottomIsProduct | yatube/posts/views.py:21 | page k starts at row (k - 1) * per_page |
| Pagination.PageNumber | yatube/posts/views.py:20-21 | `get_page`: page 1 for a missing or non-integer parameter, the number asked for when it names a page, else the last page |
| Pagination.GetPage | yatube/posts/views.py:19-21 | the page is the window of consecutive rows starting at its bottom; at most per_page rows; all pages but the last are full; the last holds the rest |
| Pagination.RowOnItsPage | yatube/posts/views.py:19-21 | every row of the listing appears on the page PageOf(i), at its offset |
| Pagination.RowOnOnePage | yatube/posts/views.py:19-21 | no row lies in the window of two pages |
| Pagination.EmptyListingOnePage | yatube/posts/views.py:19-21 | an empty listing gives one empty page, not an error |
| Pagination.ThirteenRowsTenPerPage | yatube/posts/tests/test_paginator.py:48-78 | 13 rows at 10 per page: page 1 has 10 rows, page 2 the last 3, page 3 falls back to page 2, no parameter means page 1 |
| Feeds.GroupFeed | yatube/posts/views.py:30-31 | exactly the posts of the group, newest first, each once: its length is the group's post count |
| Feeds.AuthorFeed | yatube/posts/views.py:46 | exactly the posts of the author, newest first; its length is the author's post count |
| Feeds.FollowJoin | yatube/posts/views.py:148 | the join holds exactly the posts whose author the viewer follows |
| Feeds.FollowFeed | yatube/posts/views.py:148 | the follow feed holds exactly the followed authors' posts, newest first |
| Feeds.FollowJoinIsFilter | yatube/posts/views.py:148 | with unique follow pairs the join equals the plain filter of followed authors' posts |
| Feeds.DuplicateFollowRepeatsPost | yatube/posts/models.py:138 | two follow rows with distinct primary keys but the same (user, author) pair, which the storage allows, list the author's post twice in the follow feed |
| Feeds.PageOfListing | yatube/posts/views.py:19-21 | a page cut from a newest-first listing is newest first and holds only listed rows |
| Feeds.ListingKeepsDistinct | yatube/posts/models.py:55 | ordering a table keeps its keys distinct |
| Feeds.Index | yatube/posts/views.py:16-25 | the `get_page(page)` page of the newest-first listing of all posts: at most per_page posts, newest first, with the page count of the whole table |
| Feeds.GroupPosts | yatube/posts/views.py:28-39 | not found exactly for an unknown slug; otherwise the group with that slug and the `get_page(page)` page of the newest-first listing of its posts |
| Feeds.Profile | yatube/posts/views.py:42-61 | not found exactly for an unknown username; `post_quantity` is the author's post count; `following` holds exactly when the viewer is signed in and a follow row for (viewer, author) exists; the page is the `get_page(page)` page of the author's posts, newest first |
| Feeds.PostDetail | yatube/posts/views.py:64-76 | not found exactly for an unknown id; the title is the first 30 characters of the text; the comments are exactly the post's, newest first, each once (as many as the post has) |
| Feeds.FollowIndex | yatube/posts/views.py:140-159 | sign-in required; `follow` holds exactly when the viewer follows someone; `post_list` is exactly the followed authors' posts, newest first; `post_quantity` is its length; the page is its `get_page(page)` page |
| Feeds.FollowIndexCountsDistinctPosts | yatube/posts/tests/test_views.py:449-453 | on a well-formed database the follow list repeats no post and `post_quantity` is the number of distinct followed posts |
| Feeds.FollowFeedDistinct | yatube/posts/views.py:148-152 | with distinct post keys and unique follow pairs the follow feed lists no post twice and its length is the number of distinct followed posts |
| Feeds.ProfileCountsDistinctPosts | yatube/posts/views.py:51 | on a well-formed database `post_quantity` is the number of distinct posts by the author |
| Handlers.PostCreate | yatube/posts/views.py:79-93 | sign-in required; a post is stored exactly on a valid submission: one new post with the next key, the cleaned text and group, the actor as author, dated now; redirect to the actor's profile; otherwise the form again and nothing changes; only the post table changes |
| Handlers.PostEdit | yatube/posts/views.py:96-122 | sign-in required; not found exactly for an unknown id; a signed-in non-author is redirected to the post with nothing changed; the author's GET or invalid submission gets the form again, with nothing changed; a valid submission by the author redirects to the post and replaces that post's text and group by the cleaned ones (key, author and date kept); every other post, and every post on any other path, is unchanged |
| Handlers.AddComment | yatube/posts/views.py:125-137 | sign-in required; not found exactly for an unknown post; a valid submission appends one comment bound to that post and to the actor, dated now; any other request changes nothing and ends in a server error |
| Handlers.AddCommentIntended | yatube/posts/views.py:125-137 | the same database transition as `add_comment`, with every request by a signed-in user on an existing post answered by a redirect to that post |
| Handlers.ProfileFollow | yatube/posts/views.py:162-171 | sign-in required; not found exactly for an unknown username; the follow table changes only by one new (actor, author) row, and only when the author is someone else and no such row existed; redirect to the author's profile |
| Handlers.ProfileUnfollow | yatube/posts/views.py:174-187 | sign-in required; not found exactly for an unknown username; the follow table changes only when exactly one (actor, author) row exists, which is then removed |
| Handlers.DeleteGroup | yatube/posts/models.py:35-43 | the group row goes; every post keeps its place, and a post of the group gets group None (`SET_NULL`) with all other fields kept; other posts are untouched |
| Handlers.DeletePost | yatube/posts/models.py:82-89 | the post and exactly the comments under it go; nothing else changes |
| Handlers.DeleteUser | yatube/posts/models.py:29-131 | the user, their posts, their comments, the comments under their posts and the follow rows naming them on either side go; nothing else changes |
| ViewProperties.PostCreateKeepsWellformed | yatube/posts/views.py:85-89 | creating a post keeps the database invariant |
| ViewProperties.PostEditKeepsWellformed | yatube/posts/views.py:118-120 | editing a post keeps the database invariant |
| ViewProperties.AddCommentKeepsWellformed | yatube/posts/views.py:130-136 | adding a comment keeps the database invariant |
| ViewProperties.CommentWithoutFormIsServerError | yatube/posts/views.py:131-137 | a signed-in GET or a blank comment on an existing post changes nothing and ends in a server error |
| ViewProperties.ProfileFollowKeepsWellformed | yatube/posts/views.py:169-170 | following keeps the database invariant, in particular the uniqueness of (user, author) pairs |
| ViewProperties.ProfileUnfollowKeepsWellformed | yatube/posts/views.py:181-186 | unfollowing keeps the database invariant |
| ViewProperties.DeleteGroupKeepsWellformed | yatube/posts/models.py:35-43 | deleting a group leaves no dangling group reference |
| ViewProperties.DeletePostKeepsWellformed | yatube/posts/models.py:82-89 | deleting a post leaves no comment without its post |
| ViewProperties.DeleteUserKeepsWellformed | yatube/posts/models.py:29-131 | deleting a user leaves no row referring to them |
| ViewProperties.NoSelfFollowRow | yatube/posts/views.py:169 | a well-formed follow table has no self-follow row |
| ViewProperties.FollowLeavesOneRow | yatube/posts/views.py:169-170 | after following an existing author there is exactly one row for the pair, or none when the author is the actor |
| ViewProperties.FollowIdempotent | yatube/posts/tests/test_views.py:341-362 | following again, at any later time, changes nothing and answers the same |
| ViewProperties.UnfollowRemovesOnlyPair | yatube/posts/views.py:181-186 | after unfollowing no row for the pair remains and every other pair keeps its row count |
| ViewProperties.FollowThenUnfollow | yatube/posts/views.py:162-187 | following a new author and unfollowing them again restores the database except for the spent follow key |
| ViewProperties.NewPostLeadsIndex | yatube/posts/views.py:85-89 | a post created no earlier than every stored post is the first row of the first index page |
| Blog.Store.PostCreate | yatube/posts/views.py:79-93 | updates the tables in place exactly as `Handlers.PostCreate` and keeps the invariant |
| Blog.Store.PostEdit | yatube/posts/views.py:96-122 | updates the tables in place exactly as `Handlers.PostEdit` and keeps the invariant |
| Blog.Store.AddComment | yatube/posts/views.py:125-137 | updates the tables in place exactly as `Handlers.AddCommentIntended` and keeps the invariant |
| Blog.Store.ProfileFollow | yatube/posts/views.py:162-171 | updates the tables in place exactly as `Handlers.ProfileFollow`; no server error can occur on a valid store |
| Blog.Store.ProfileUnfollow | yatube/posts/views.py:174-187 | updates the tables in place exactly as `Handlers.ProfileUnfollow`; no server error can occur on a valid store |
| Blog.Store.DeleteGroup | yatube/posts/models.py:35-43 | deletes in place as `Handlers.DeleteGroup` and keeps the invariant |
| Blog.Store.DeletePost | yatube/posts/models.py:82-89 | deletes in place as `Handlers.DeletePost` and keeps the invariant |
| Blog.Store.DeleteUser | yatube/posts/models.py:29-131 | deletes in place as `Handlers.DeleteUser` and keeps the invariant |

## Left out

- HTTP, URL routing and templates: a view's result is a `Response` tag
  (redirect target, form, not found, server error) or the context
  datatype handed to the template.
- Authentication, the users app and the template filters: the signed-in
  user is a parameter.
- The page cache (it lives in templates and settings).
- Image upload and storage: `Post.image` is not a field of the model.
  A submitted image can therefore never make a post form invalid here.
- The database clock: creation dates are the caller's `now`.
- `Group.title` and `Group.slug` length limits: groups are created
  through the admin, which is not modelled, and no view writes them.
- Concurrency: two simultaneous follows of the same pair could both
  insert a row, because the table has no unique constraint. The model
  runs one request at a time.
- Django internals beyond their observable contracts: ORM queries are
  functions on sequences, and `Paginator` keeps its defaults (no
  orphans, empty first page allowed). The form field's whitespace set is
  Python's `str.isspace` on single characters.
- `get_or_create` and `get` on a follow table holding two rows for
  one pair raise `MultipleObjectsReturned`. `Handlers` keeps that
  branch as a server error; the store methods need none, because the
  invariant rules it out.

## Findings

| source | as written | input that shows it | evidently intended | confidence | as-written member | corrected member |
|---|---|---|---|---|---|---|
| yatube/posts/views.py:125-137 | `add_comment` has no return after the `if form.is_valid()` block. An unbound or invalid form makes the view return `None`, which Django turns into a server error (`Handlers.AddComment`). | a signed-in GET of the comment URL of an existing post, or a POST whose text is `" "` | redirect to the post's detail page, with the comment stored only when valid | high; not executed | ViewProperties.CommentWithoutFormIsServerError | Handlers.AddCommentIntended |
