/**
  The views that change the database (creating and editing posts,
  commenting, following and unfollowing) and the deletions the foreign
  keys cascade, each as a transition from one database state to the
  next together with the HTTP response the view returns.
*/
module Handlers {
  import opened Wrappers
  import opened Seqs
  import opened Models
  import opened Forms

  /** Why a view ends in a server error instead of a response. */
  datatype Fault =
    | ViewReturnedNone          // the view function fell off its end
    | MultipleObjectsReturned   // `get` / `get_or_create` matched two rows

  datatype Response =
    | RedirectToLogin
    | RedirectToProfile(username: string)
    | RedirectToPostDetail(postId: PostId)
    | RenderForm
    | NotFound
    | ServerError(fault: Fault)

  /** A GET, or a POST carrying form data. */
  datatype Request<F> = Get | Submit(data: F)

  /** The database after a view, and what the view answered. */
  datatype Outcome = Outcome(db: Db, response: Response)

  /** Rows not of the (user, author) pair `k`. */
  function OtherPair(k: (UserId, UserId)): Follow -> bool {
    (f: Follow) => FollowPair(f) != k
  }

  /**
    `post_create`: sign-in required; a GET or an invalid submission shows
    the form; a valid one stores a new post by the signed-in user, dated
    `now`, and redirects to that user's profile.
  */
  function PostCreate(db: Db, actor: Option<User>, req: Request<PostFormData>, now: nat): (r: Outcome)
    ensures actor.None? ==> r == Outcome(db, RedirectToLogin)
    ensures r.db == db.(posts := r.db.posts, nextPost := r.db.nextPost)
    ensures r.response.RedirectToProfile? <==>
      actor.Some? && req.Submit? && CleanPostForm(req.data, db.groups).Success?
    ensures r.response.RedirectToProfile? ==>
      && r.response.username == actor.value.username
      && r.db.nextPost == db.nextPost + 1
      && r.db.posts == db.posts + [Post(db.nextPost, Strip(req.data.text), now, actor.value.pk, req.data.group)]
    ensures actor.Some? && !r.response.RedirectToProfile? ==> r == Outcome(db, RenderForm)
  {
    match actor
    case None => Outcome(db, RedirectToLogin)
    case Some(user) =>
      match req
      case Get => Outcome(db, RenderForm)
      case Submit(data) =>
        match CleanPostForm(data, db.groups)
        case Failure(_) => Outcome(db, RenderForm)
        case Success(fields) =>
          var post := Post(db.nextPost, fields.text, now, user.pk, fields.group);
          Outcome(db.(posts := db.posts + [post], nextPost := db.nextPost + 1), RedirectToProfile(user.username))
  }

  /** A valid `post_edit` submission by the author of an existing post. */
  ghost predicate AuthorSubmitsEdit(db: Db, actor: Option<User>, postId: PostId, req: Request<PostFormData>) {
    && actor.Some? && HasKey(db.posts, PostPk, postId)
    && Find(db.posts, PostPk, postId).value.author == actor.value.pk
    && req.Submit? && CleanPostForm(req.data, db.groups).Success?
  }

  /**
    `post_edit`: sign-in required; an unknown post is not found; anyone
    but the author is sent back to the post unchanged; the author gets
    the form, and a valid submission replaces the post's text and group.
  */
  function PostEdit(db: Db, actor: Option<User>, postId: PostId, req: Request<PostFormData>): (r: Outcome)
    ensures actor.None? ==> r == Outcome(db, RedirectToLogin)
    ensures r.response.NotFound? <==> actor.Some? && !HasKey(db.posts, PostPk, postId)
    ensures actor.Some? && HasKey(db.posts, PostPk, postId) ==>
      r.response.RenderForm? || r.response == RedirectToPostDetail(postId)
    ensures (actor.Some? && HasKey(db.posts, PostPk, postId)
             && Find(db.posts, PostPk, postId).value.author != actor.value.pk) ==>
      r == Outcome(db, RedirectToPostDetail(postId))
    ensures (&& actor.Some? && HasKey(db.posts, PostPk, postId)
             && Find(db.posts, PostPk, postId).value.author == actor.value.pk
             && !AuthorSubmitsEdit(db, actor, postId, req)) ==>
      r == Outcome(db, RenderForm)
    ensures !AuthorSubmitsEdit(db, actor, postId, req) ==> r.db == db
    ensures AuthorSubmitsEdit(db, actor, postId, req) ==>
      && r.response == RedirectToPostDetail(postId)
      && r.db == db.(posts := r.db.posts)
      && |r.db.posts| == |db.posts|
      && forall i :: 0 <= i < |db.posts| ==>
           r.db.posts[i] == if db.posts[i].pk != postId then db.posts[i]
             else Find(db.posts, PostPk, postId).value.(text := Strip(req.data.text), group := req.data.group)
  {
    match actor
    case None => Outcome(db, RedirectToLogin)
    case Some(user) =>
      match Find(db.posts, PostPk, postId)
      case None => Outcome(db, NotFound)
      case Some(post) =>
        if post.author != user.pk then Outcome(db, RedirectToPostDetail(postId))
        else match req
          case Get => Outcome(db, RenderForm)
          case Submit(data) =>
            match CleanPostForm(data, db.groups)
            case Failure(_) => Outcome(db, RenderForm)
            case Success(fields) =>
              var edited := post.(text := fields.text, group := fields.group);
              Outcome(db.(posts := UpdateWhere(db.posts, PostPk, postId, edited)), RedirectToPostDetail(postId))
  }

  /**
    `add_comment`: sign-in required; an unknown post is not found; a valid
    submission stores a comment by the signed-in user under that post,
    dated `now`. Anything else makes the view return nothing.
  */
  function AddComment(db: Db, actor: Option<User>, postId: PostId, req: Request<CommentFormData>, now: nat): (r: Outcome)
    ensures actor.None? ==> r == Outcome(db, RedirectToLogin)
    ensures r.db == db.(comments := r.db.comments, nextComment := r.db.nextComment)
    ensures r.response.NotFound? <==> actor.Some? && !HasKey(db.posts, PostPk, postId)
    ensures r.response.RedirectToPostDetail? <==>
      actor.Some? && HasKey(db.posts, PostPk, postId) && req.Submit? && CleanCommentForm(req.data).Success?
    ensures r.response.RedirectToPostDetail? ==>
      && r.response.postId == postId
      && r.db.nextComment == db.nextComment + 1
      && r.db.comments == db.comments + [Comment(db.nextComment, postId, actor.value.pk, Strip(req.data.text), now)]
    ensures !r.response.RedirectToPostDetail? ==> r.db == db
    ensures actor.Some? && HasKey(db.posts, PostPk, postId) && !r.response.RedirectToPostDetail? ==>
      r.response == ServerError(ViewReturnedNone)
  {
    match actor
    case None => Outcome(db, RedirectToLogin)
    case Some(user) =>
      match Find(db.posts, PostPk, postId)
      case None => Outcome(db, NotFound)
      case Some(post) =>
        match req
        case Get => Outcome(db, ServerError(ViewReturnedNone))
        case Submit(data) =>
          match CleanCommentForm(data)
          case Failure(_) => Outcome(db, ServerError(ViewReturnedNone))
          case Success(text) =>
            var comment := Comment(db.nextComment, post.pk, user.pk, text, now);
            Outcome(db.(comments := db.comments + [comment], nextComment := db.nextComment + 1),
                    RedirectToPostDetail(postId))
  }

  /**
    `add_comment` as evidently intended: the same transition, but every
    request by a signed-in user on an existing post ends on that post's
    page, whether or not the comment was accepted.
  */
  function AddCommentIntended(db: Db, actor: Option<User>, postId: PostId, req: Request<CommentFormData>, now: nat): (r: Outcome)
    ensures actor.None? ==> r == Outcome(db, RedirectToLogin)
    ensures r.response.NotFound? <==> actor.Some? && !HasKey(db.posts, PostPk, postId)
    ensures actor.Some? && HasKey(db.posts, PostPk, postId) ==> r.response == RedirectToPostDetail(postId)
    ensures r.db != db ==> actor.Some? && req.Submit? && CleanCommentForm(req.data).Success?
    ensures r.db == AddComment(db, actor, postId, req, now).db
  {
    var written := AddComment(db, actor, postId, req, now);
    if written.response == ServerError(ViewReturnedNone) then Outcome(db, RedirectToPostDetail(postId))
    else written
  }

  /**
    `profile_follow`: sign-in required; an unknown username is not found;
    following someone else stores the (user, author) row unless it is
    there already (`get_or_create`); following oneself does nothing.
  */
  function ProfileFollow(db: Db, actor: Option<User>, username: string, now: nat): (r: Outcome)
    ensures actor.None? ==> r == Outcome(db, RedirectToLogin)
    ensures r.db == db.(follows := r.db.follows, nextFollow := r.db.nextFollow)
    ensures r.response.NotFound? <==> actor.Some? && !HasKey(db.users, UserName, username)
    ensures r.response.RedirectToProfile? ==> r.response.username == username
    ensures r.db != db ==>
      && actor.Some? && HasKey(db.users, UserName, username)
      && var author := Find(db.users, UserName, username).value;
      && author.pk != actor.value.pk
      && !HasKey(db.follows, FollowPair, (actor.value.pk, author.pk))
      && r.response == RedirectToProfile(username)
      && r.db.nextFollow == db.nextFollow + 1
      && r.db.follows == db.follows + [Follow(db.nextFollow, actor.value.pk, author.pk, now)]
  {
    match actor
    case None => Outcome(db, RedirectToLogin)
    case Some(user) =>
      match Find(db.users, UserName, username)
      case None => Outcome(db, NotFound)
      case Some(author) =>
        if author.pk == user.pk then Outcome(db, RedirectToProfile(author.username))
        else
          var n := CountKey(db.follows, FollowPair, (user.pk, author.pk));
          if n == 0 then
            var follow := Follow(db.nextFollow, user.pk, author.pk, now);
            Outcome(db.(follows := db.follows + [follow], nextFollow := db.nextFollow + 1),
                    RedirectToProfile(author.username))
          else if n == 1 then Outcome(db, RedirectToProfile(author.username))
          else Outcome(db, ServerError(MultipleObjectsReturned))
  }

  /**
    `profile_unfollow`: sign-in required; an unknown username is not
    found; the (user, author) row is deleted if there is one.
  */
  function ProfileUnfollow(db: Db, actor: Option<User>, username: string): (r: Outcome)
    ensures actor.None? ==> r == Outcome(db, RedirectToLogin)
    ensures r.db == db.(follows := r.db.follows)
    ensures r.response.NotFound? <==> actor.Some? && !HasKey(db.users, UserName, username)
    ensures r.response.RedirectToProfile? ==> r.response.username == username
    ensures r.db != db ==>
      && actor.Some? && HasKey(db.users, UserName, username)
      && var author := Find(db.users, UserName, username).value;
      && CountKey(db.follows, FollowPair, (actor.value.pk, author.pk)) == 1
      && r.response == RedirectToProfile(username)
      && r.db.follows == Filter(db.follows, OtherPair((actor.value.pk, author.pk)))
  {
    match actor
    case None => Outcome(db, RedirectToLogin)
    case Some(user) =>
      match Find(db.users, UserName, username)
      case None => Outcome(db, NotFound)
      case Some(author) =>
        var n := CountKey(db.follows, FollowPair, (user.pk, author.pk));
        if n == 0 then Outcome(db, RedirectToProfile(author.username))
        else if n == 1 then
          Outcome(db.(follows := Filter(db.follows, OtherPair((user.pk, author.pk)))),
                  RedirectToProfile(author.username))
        else Outcome(db, ServerError(MultipleObjectsReturned))
  }

  // ---------------------------------------------------------------------
  // Deletions cascading along the foreign keys

  function OtherGroup(g: GroupId): Group -> bool { (x: Group) => x.pk != g }
  function Ungrouped(g: GroupId): Post -> Post {
    (p: Post) => if p.group == Some(g) then p.(group := None) else p
  }
  function OtherPost(id: PostId): Post -> bool { (p: Post) => p.pk != id }
  function NotUnder(id: PostId): Comment -> bool { (c: Comment) => c.post != id }
  function OtherUser(u: UserId): User -> bool { (x: User) => x.pk != u }
  function NotBy(u: UserId): Post -> bool { (p: Post) => p.author != u }
  function NotInvolving(u: UserId): Follow -> bool { (f: Follow) => f.user != u && f.author != u }

  /** A post of `posts` has primary key `id` and author `u`. */
  ghost predicate PostOf(posts: seq<Post>, id: PostId, u: UserId) {
    exists p :: p in posts && p.pk == id && p.author == u
  }

  /** Kept when a user goes: neither by that user nor under one of their posts. */
  function CommentSurvives(posts: seq<Post>, u: UserId): Comment -> bool {
    (c: Comment) => c.author != u && CountKey(Filter(posts, ByAuthor(u)), PostPk, c.post) == 0
  }

  /**
    Deleting group `g`: the group row goes, and its posts stay with no
    group (`on_delete=SET_NULL`); nothing else changes.
  */
  function DeleteGroup(db: Db, g: GroupId): (r: Db)
    ensures r == db.(groups := r.groups, posts := r.posts)
    ensures forall x :: x in r.groups <==> x in db.groups && x.pk != g
    ensures |r.posts| == |db.posts|
    ensures forall i :: 0 <= i < |db.posts| ==>
      r.posts[i] == db.posts[i].(group := if db.posts[i].group == Some(g) then None else db.posts[i].group)
  {
    db.(groups := Filter(db.groups, OtherGroup(g)), posts := MapRows(db.posts, Ungrouped(g)))
  }

  /** Deleting post `id` deletes its comments (`on_delete=CASCADE`); nothing else changes. */
  function DeletePost(db: Db, id: PostId): (r: Db)
    ensures r == db.(posts := r.posts, comments := r.comments)
    ensures forall p :: p in r.posts <==> p in db.posts && p.pk != id
    ensures forall c :: c in r.comments <==> c in db.comments && c.post != id
  {
    db.(posts := Filter(db.posts, OtherPost(id)), comments := Filter(db.comments, NotUnder(id)))
  }

  /**
    Deleting user `u` deletes their posts, their comments, the comments
    under their posts, and the follow rows on either side of them.
  */
  function DeleteUser(db: Db, u: UserId): (r: Db)
    ensures r == db.(users := r.users, posts := r.posts, comments := r.comments, follows := r.follows)
    ensures forall x :: x in r.users <==> x in db.users && x.pk != u
    ensures forall p :: p in r.posts <==> p in db.posts && p.author != u
    ensures forall c :: c in r.comments <==>
      c in db.comments && c.author != u && !PostOf(db.posts, c.post, u)
    ensures forall f :: f in r.follows <==> f in db.follows && f.user != u && f.author != u
  {
    var keepComment := CommentSurvives(db.posts, u);
    forall c ensures keepComment(c) <==> c.author != u && !PostOf(db.posts, c.post, u) {
      if PostOf(db.posts, c.post, u) {
        var p :| p in db.posts && p.pk == c.post && p.author == u;
        assert p in Filter(db.posts, ByAuthor(u));
      }
    }
    db.(users := Filter(db.users, OtherUser(u)),
        posts := Filter(db.posts, NotBy(u)),
        comments := Filter(db.comments, keepComment),
        follows := Filter(db.follows, NotInvolving(u)))
  }
}
