/**
  What the state-changing views and the cascading deletions promise
  across calls: each keeps the database well formed, following is
  idempotent and leaves exactly one row, and unfollowing removes that
  row and nothing else.
*/
module ViewProperties {
  import opened Wrappers
  import opened Seqs
  import opened Models
  import opened Forms
  import opened Handlers
  import opened Ordering
  import opened Pagination
  import Feeds

  /** Every primary key in use is below the table's next one. */
  lemma NextPostIsFree(db: Db)
    requires PostsOk(db)
    ensures !HasKey(db.posts, PostPk, db.nextPost)
  {
    forall q | q in db.posts ensures q.pk != db.nextPost {
      assert PostRowOk(db, q);
    }
  }

  lemma NextCommentIsFree(db: Db)
    requires CommentsOk(db)
    ensures !HasKey(db.comments, CommentPk, db.nextComment)
  {
    forall c | c in db.comments ensures c.pk != db.nextComment {
      assert CommentRowOk(db, c);
    }
  }

  lemma NextFollowIsFree(db: Db)
    requires FollowsOk(db)
    ensures !HasKey(db.follows, FollowPk, db.nextFollow)
  {
    forall f | f in db.follows ensures f.pk != db.nextFollow {
      assert FollowRowOk(db, f);
    }
  }

  lemma PostCreateKeepsWellformed(db: Db, actor: Option<User>, req: Request<PostFormData>, now: nat)
    requires Wellformed(db) && ActorExists(db, actor)
    ensures Wellformed(PostCreate(db, actor, req, now).db)
  {
    var r := PostCreate(db, actor, req, now);
    if r.response.RedirectToProfile? {
      var d := r.db;
      var p := Post(db.nextPost, Strip(req.data.text), now, actor.value.pk, req.data.group);
      NextPostIsFree(db);
      AppendDistinct(db.posts, p, PostPk);
      assert actor.value in db.users;
      forall q | q in d.posts ensures PostRowOk(d, q) {
        if q in db.posts {
          assert PostRowOk(db, q);
        }
      }
      forall c | c in d.comments ensures CommentRowOk(d, c) {
        assert CommentRowOk(db, c);
        var q :| q in db.posts && q.pk == c.post;
        assert q in d.posts;
      }
      forall f | f in d.follows ensures FollowRowOk(d, f) {
        assert FollowRowOk(db, f);
      }
    }
  }

  lemma PostEditKeepsWellformed(db: Db, actor: Option<User>, postId: PostId, req: Request<PostFormData>)
    requires Wellformed(db)
    ensures Wellformed(PostEdit(db, actor, postId, req).db)
  {
    var d := PostEdit(db, actor, postId, req).db;
    assert forall i :: 0 <= i < |db.posts| ==> d.posts[i].pk == db.posts[i].pk;
    forall i, j | 0 <= i < j < |d.posts| ensures d.posts[i].pk != d.posts[j].pk {
    }
    forall q | q in d.posts ensures PostRowOk(d, q) {
      var i :| 0 <= i < |d.posts| && d.posts[i] == q;
      assert PostRowOk(db, db.posts[i]);
      if q != db.posts[i] {
        var post := Find(db.posts, PostPk, postId).value;
        assert PostRowOk(db, post);
      }
    }
    forall c | c in d.comments ensures CommentRowOk(d, c) {
      assert CommentRowOk(db, c);
      var i :| 0 <= i < |db.posts| && db.posts[i].pk == c.post;
      assert d.posts[i] in d.posts;
    }
  }

  lemma AddCommentKeepsWellformed(db: Db, actor: Option<User>, postId: PostId, req: Request<CommentFormData>, now: nat)
    requires Wellformed(db) && ActorExists(db, actor)
    ensures Wellformed(AddComment(db, actor, postId, req, now).db)
  {
    var r := AddComment(db, actor, postId, req, now);
    if r.response.RedirectToPostDetail? {
      var d := r.db;
      var c := Comment(db.nextComment, postId, actor.value.pk, Strip(req.data.text), now);
      NextCommentIsFree(db);
      AppendDistinct(db.comments, c, CommentPk);
      assert actor.value in db.users;
      forall x | x in d.comments ensures CommentRowOk(d, x) {
        if x in db.comments {
          assert CommentRowOk(db, x);
        }
      }
    }
  }

  /**
    As written, a signed-in GET of the comment URL of an existing post
    (or any rejected comment) makes the view return nothing, which the
    framework answers with a server error.
  */
  lemma CommentWithoutFormIsServerError(db: Db, user: User, post: Post, now: nat)
    requires post in db.posts
    ensures AddComment(db, Some(user), post.pk, Get, now) == Outcome(db, ServerError(ViewReturnedNone))
    ensures AddComment(db, Some(user), post.pk, Submit(CommentFormData(" ")), now) == Outcome(db, ServerError(ViewReturnedNone))
  {
    assert IsSpace(' ');
  }

  lemma AddCommentIntendedKeepsWellformed(db: Db, actor: Option<User>, postId: PostId, req: Request<CommentFormData>, now: nat)
    requires Wellformed(db) && ActorExists(db, actor)
    ensures Wellformed(AddCommentIntended(db, actor, postId, req, now).db)
  {
    AddCommentKeepsWellformed(db, actor, postId, req, now);
  }

  lemma ProfileFollowKeepsWellformed(db: Db, actor: Option<User>, username: string, now: nat)
    requires Wellformed(db) && ActorExists(db, actor)
    ensures Wellformed(ProfileFollow(db, actor, username, now).db)
  {
    var r := ProfileFollow(db, actor, username, now);
    if r.db != db {
      var d := r.db;
      var author := Find(db.users, UserName, username).value;
      var f := Follow(db.nextFollow, actor.value.pk, author.pk, now);
      NextFollowIsFree(db);
      AppendDistinct(db.follows, f, FollowPk);
      AppendDistinct(db.follows, f, FollowPair);
      assert actor.value in db.users;
      assert author in db.users;
      forall x | x in d.follows ensures FollowRowOk(d, x) {
        if x in db.follows {
          assert FollowRowOk(db, x);
        }
      }
    }
  }

  lemma ProfileUnfollowKeepsWellformed(db: Db, actor: Option<User>, username: string)
    requires Wellformed(db)
    ensures Wellformed(ProfileUnfollow(db, actor, username).db)
  {
    var r := ProfileUnfollow(db, actor, username);
    if r.db != db {
      var author := Find(db.users, UserName, username).value;
      var keep := OtherPair((actor.value.pk, author.pk));
      FilterDistinct(db.follows, keep, FollowPk);
      FilterDistinct(db.follows, keep, FollowPair);
    }
  }

  lemma DeleteGroupKeepsWellformed(db: Db, g: GroupId)
    requires Wellformed(db)
    ensures Wellformed(DeleteGroup(db, g))
  {
    var d := DeleteGroup(db, g);
    FilterDistinct(db.groups, OtherGroup(g), GroupPk);
    FilterDistinct(db.groups, OtherGroup(g), GroupSlug);
    forall i, j | 0 <= i < j < |d.posts| ensures d.posts[i].pk != d.posts[j].pk {
    }
    forall q | q in d.posts ensures PostRowOk(d, q) {
      var i :| 0 <= i < |d.posts| && d.posts[i] == q;
      assert PostRowOk(db, db.posts[i]);
      if q.group.Some? {
        var x :| x in db.groups && x.pk == q.group.value;
        assert x in d.groups;
      }
    }
    forall c | c in d.comments ensures CommentRowOk(d, c) {
      assert CommentRowOk(db, c);
      var i :| 0 <= i < |db.posts| && db.posts[i].pk == c.post;
      assert d.posts[i] in d.posts;
    }
  }

  lemma DeletePostKeepsWellformed(db: Db, id: PostId)
    requires Wellformed(db)
    ensures Wellformed(DeletePost(db, id))
  {
    var d := DeletePost(db, id);
    FilterDistinct(db.posts, OtherPost(id), PostPk);
    FilterDistinct(db.comments, NotUnder(id), CommentPk);
    forall q | q in d.posts ensures PostRowOk(d, q) {
      assert PostRowOk(db, q);
    }
    forall c | c in d.comments ensures CommentRowOk(d, c) {
      assert CommentRowOk(db, c);
      var q :| q in db.posts && q.pk == c.post;
      assert q in d.posts;
    }
  }

  lemma DeleteUserKeepsWellformed(db: Db, u: UserId)
    requires Wellformed(db)
    ensures Wellformed(DeleteUser(db, u))
  {
    var d := DeleteUser(db, u);
    FilterDistinct(db.users, OtherUser(u), UserPk);
    FilterDistinct(db.users, OtherUser(u), UserName);
    FilterDistinct(db.posts, NotBy(u), PostPk);
    FilterDistinct(db.comments, CommentSurvives(db.posts, u), CommentPk);
    FilterDistinct(db.follows, NotInvolving(u), FollowPk);
    FilterDistinct(db.follows, NotInvolving(u), FollowPair);
    forall q | q in d.posts ensures PostRowOk(d, q) {
      assert PostRowOk(db, q);
      var x :| x in db.users && x.pk == q.author;
      assert x in d.users;
    }
    forall c | c in d.comments ensures CommentRowOk(d, c) {
      assert CommentRowOk(db, c);
      var q :| q in db.posts && q.pk == c.post;
      assert q.author != u;
      assert q in d.posts;
      var x :| x in db.users && x.pk == c.author;
      assert x in d.users;
    }
    forall f | f in d.follows ensures FollowRowOk(d, f) {
      assert FollowRowOk(db, f);
      var x :| x in db.users && x.pk == f.user;
      var y :| y in db.users && y.pk == f.author;
      assert x in d.users && y in d.users;
    }
  }

  /** No follow row pairs a user with themself. */
  lemma NoSelfFollowRow(db: Db, u: UserId)
    requires FollowsOk(db)
    ensures !HasKey(db.follows, FollowPair, (u, u))
  {
    forall f | f in db.follows ensures FollowPair(f) != (u, u) {
      assert FollowRowOk(db, f);
    }
  }

  /**
    After a signed-in user follows an existing author there is exactly one
    row for the pair, or none when the author is the user themself; the
    view redirects to the author's profile.
  */
  lemma FollowLeavesOneRow(db: Db, user: User, username: string, now: nat)
    requires Wellformed(db) && user in db.users && HasKey(db.users, UserName, username)
    ensures var r := ProfileFollow(db, Some(user), username, now);
      var author := Find(db.users, UserName, username).value;
      && r.response == RedirectToProfile(username)
      && CountKey(r.db.follows, FollowPair, (user.pk, author.pk)) == if author.pk == user.pk then 0 else 1
  {
    var author := Find(db.users, UserName, username).value;
    var k := (user.pk, author.pk);
    DistinctCountAtMostOne(db.follows, FollowPair, k);
    if author.pk == user.pk {
      NoSelfFollowRow(db, user.pk);
    } else if CountKey(db.follows, FollowPair, k) == 0 {
      CountKeyAppend(db.follows, Follow(db.nextFollow, user.pk, author.pk, now), FollowPair, k);
    }
  }

  /**
    Following twice is following once: the second call, at whatever time,
    finds the row the first left and changes nothing.
  */
  lemma FollowIdempotent(db: Db, actor: Option<User>, username: string, now: nat, later: nat)
    ensures var r := ProfileFollow(db, actor, username, now);
      ProfileFollow(r.db, actor, username, later) == r
  {
    var r := ProfileFollow(db, actor, username, now);
    if r.db != db {
      var author := Find(db.users, UserName, username).value;
      var k := (actor.value.pk, author.pk);
      CountKeyAppend(db.follows, Follow(db.nextFollow, actor.value.pk, author.pk, now), FollowPair, k);
    }
  }

  /**
    Unfollowing an existing author leaves no row for the pair and the
    same number of rows for every other pair.
  */
  lemma UnfollowRemovesOnlyPair(db: Db, user: User, username: string)
    requires Wellformed(db) && HasKey(db.users, UserName, username)
    ensures var r := ProfileUnfollow(db, Some(user), username);
      var author := Find(db.users, UserName, username).value;
      && r.response == RedirectToProfile(username)
      && !HasKey(r.db.follows, FollowPair, (user.pk, author.pk))
      && forall k :: k != (user.pk, author.pk) ==>
           CountKey(r.db.follows, FollowPair, k) == CountKey(db.follows, FollowPair, k)
  {
    var author := Find(db.users, UserName, username).value;
    var pair := (user.pk, author.pk);
    DistinctCountAtMostOne(db.follows, FollowPair, pair);
    if CountKey(db.follows, FollowPair, pair) == 1 {
      forall k ensures CountKey(Filter(db.follows, OtherPair(pair)), FollowPair, k) ==
        if k == pair then 0 else CountKey(db.follows, FollowPair, k)
      {
        FilterDropKey(db.follows, OtherPair(pair), FollowPair, pair, k);
      }
    }
  }

  /**
    Following an author one did not follow and unfollowing them again
    restores the follow table; only the spent primary key remains.
  */
  lemma FollowThenUnfollow(db: Db, user: User, username: string, now: nat)
    requires Wellformed(db) && user in db.users && HasKey(db.users, UserName, username)
    requires !HasKey(db.follows, FollowPair, (user.pk, Find(db.users, UserName, username).value.pk))
    ensures var r1 := ProfileFollow(db, Some(user), username, now);
      ProfileUnfollow(r1.db, Some(user), username) == Outcome(db.(nextFollow := r1.db.nextFollow), RedirectToProfile(username))
  {
    var author := Find(db.users, UserName, username).value;
    var pair := (user.pk, author.pk);
    var r1 := ProfileFollow(db, Some(user), username, now);
    if author.pk == user.pk {
      assert r1.db == db;
    } else {
      var f := Follow(db.nextFollow, user.pk, author.pk, now);
      var d := db.(follows := db.follows + [f], nextFollow := db.nextFollow + 1);
      assert r1.db == d;
      CountKeyAppend(db.follows, f, FollowPair, pair);
      assert CountKey(d.follows, FollowPair, pair) == 1;
      FilterAppend(db.follows, f, OtherPair(pair));
      FilterAll(db.follows, OtherPair(pair));
      assert Filter(d.follows, OtherPair(pair)) == db.follows;
      assert Find(d.users, UserName, username) == Some(author);
    }
  }

  /**
    A post created at a time no earlier than every stored post heads the
    index: its date ties or beats every other row's and its key is the
    largest yet.
  */
  lemma NewPostLeadsIndex(db: Db, user: User, req: Request<PostFormData>, now: nat, perPage: nat)
    requires Wellformed(db) && user in db.users && perPage > 0
    requires forall q :: q in db.posts ==> q.pubDate <= now
    requires PostCreate(db, Some(user), req, now).response.RedirectToProfile?
    ensures var page := Feeds.Index(PostCreate(db, Some(user), req, now).db, perPage, Absent);
      page.number == 1 && |page.items| > 0
      && page.items[0] == Post(db.nextPost, Strip(req.data.text), now, user.pk, req.data.group)
  {
    var d := PostCreate(db, Some(user), req, now).db;
    var p := Post(db.nextPost, Strip(req.data.text), now, user.pk, req.data.group);
    PostCreateKeepsWellformed(db, Some(user), req, now);
    var feed := Feeds.Listed(d.posts, PostStamp);
    assert p in d.posts;
    assert feed[0] in d.posts;
    var i :| 0 <= i < |feed| && feed[i] == p;
    forall q | q in d.posts ensures NotOlder(PostStamp(p), PostStamp(q)) {
      if q in db.posts {
        assert PostRowOk(db, q);
      }
    }
    assert NotOlder(PostStamp(feed[0]), PostStamp(p)) by {
      if i > 0 {
        assert NotOlder(PostStamp(feed[0]), PostStamp(feed[i]));
      }
    }
    DistinctSameKey(d.posts, PostPk, feed[0], p);
    var page := GetPage(feed, perPage, Absent);
    assert page.items[0] == feed[Bottom(1, perPage)];
  }
}
