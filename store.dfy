/**
  The database as a mutable object: one sequence per table and one
  counter per auto-incremented key. Each state-changing view is a method
  that updates the tables in place, branch for branch as the view does,
  and is proved to make exactly the transition its `Handlers` function
  describes while keeping the database well formed. The one departure
  from the views as written is the missing redirect of `add_comment`.
*/
module Blog {
  import opened Wrappers
  import opened Seqs
  import opened Models
  import opened Forms
  import Handlers
  import opened ViewProperties

  class Store {
    var users: seq<User>
    var groups: seq<Group>
    var posts: seq<Post>
    var comments: seq<Comment>
    var follows: seq<Follow>
    var nextPost: PostId
    var nextComment: CommentId
    var nextFollow: FollowId

    /** The current contents of every table. */
    function State(): Db
      reads this
    {
      Db(users, groups, posts, comments, follows, nextPost, nextComment, nextFollow)
    }

    ghost predicate Valid()
      reads this
    {
      Wellformed(State())
    }

    /** A database holding the given accounts and groups and no content; keys start at 1. */
    constructor (accounts: seq<User>, communities: seq<Group>)
      requires UsersAndGroupsOk(Db(accounts, communities, [], [], [], 1, 1, 1))
      ensures Valid()
      ensures State() == Db(accounts, communities, [], [], [], 1, 1, 1)
    {
      users, groups := accounts, communities;
      posts, comments, follows := [], [], [];
      nextPost, nextComment, nextFollow := 1, 1, 1;
    }

    /** `post_create` on the store. */
    method PostCreate(actor: Option<User>, req: Handlers.Request<PostFormData>, now: nat) returns (resp: Handlers.Response)
      requires Valid() && ActorExists(State(), actor)
      modifies this
      ensures Valid()
      ensures Handlers.Outcome(State(), resp) == Handlers.PostCreate(old(State()), actor, req, now)
    {
      PostCreateKeepsWellformed(State(), actor, req, now);
      if actor.None? {
        return Handlers.RedirectToLogin;
      }
      var user := actor.value;
      if req.Get? {
        return Handlers.RenderForm;
      }
      var form := CleanPostForm(req.data, groups);
      if form.Failure? {
        return Handlers.RenderForm;
      }
      var post := Post(nextPost, form.value.text, now, user.pk, form.value.group);
      posts := posts + [post];
      nextPost := nextPost + 1;
      resp := Handlers.RedirectToProfile(user.username);
    }

    /** `post_edit` on the store. */
    method PostEdit(actor: Option<User>, postId: PostId, req: Handlers.Request<PostFormData>) returns (resp: Handlers.Response)
      requires Valid()
      modifies this
      ensures Valid()
      ensures Handlers.Outcome(State(), resp) == Handlers.PostEdit(old(State()), actor, postId, req)
    {
      PostEditKeepsWellformed(State(), actor, postId, req);
      if actor.None? {
        return Handlers.RedirectToLogin;
      }
      var user := actor.value;
      var found := Find(posts, PostPk, postId);
      if found.None? {
        return Handlers.NotFound;
      }
      var post := found.value;
      if post.author != user.pk {
        return Handlers.RedirectToPostDetail(postId);
      }
      if req.Get? {
        return Handlers.RenderForm;
      }
      var form := CleanPostForm(req.data, groups);
      if form.Failure? {
        return Handlers.RenderForm;
      }
      posts := UpdateWhere(posts, PostPk, postId, post.(text := form.value.text, group := form.value.group));
      resp := Handlers.RedirectToPostDetail(postId);
    }

    /**
      `add_comment` on the store, with the missing final redirect supplied:
      a rejected or absent comment leads back to the post instead of ending
      the view without a response.
    */
    method AddComment(actor: Option<User>, postId: PostId, req: Handlers.Request<CommentFormData>, now: nat) returns (resp: Handlers.Response)
      requires Valid() && ActorExists(State(), actor)
      modifies this
      ensures Valid()
      ensures Handlers.Outcome(State(), resp) == Handlers.AddCommentIntended(old(State()), actor, postId, req, now)
    {
      AddCommentIntendedKeepsWellformed(State(), actor, postId, req, now);
      if actor.None? {
        return Handlers.RedirectToLogin;
      }
      var user := actor.value;
      var found := Find(posts, PostPk, postId);
      if found.None? {
        return Handlers.NotFound;
      }
      var form := if req.Submit? then CleanCommentForm(req.data) else Failure(Required);
      if req.Get? || form.Failure? {
        return Handlers.RedirectToPostDetail(postId);
      }
      comments := comments + [Comment(nextComment, found.value.pk, user.pk, form.value, now)];
      nextComment := nextComment + 1;
      resp := Handlers.RedirectToPostDetail(postId);
    }

    /** `profile_follow` on the store: `get_or_create` of the (user, author) row unless they are the same user. */
    method ProfileFollow(actor: Option<User>, username: string, now: nat) returns (resp: Handlers.Response)
      requires Valid() && ActorExists(State(), actor)
      modifies this
      ensures Valid()
      ensures Handlers.Outcome(State(), resp) == Handlers.ProfileFollow(old(State()), actor, username, now)
      ensures !resp.ServerError?
    {
      ProfileFollowKeepsWellformed(State(), actor, username, now);
      if actor.None? {
        return Handlers.RedirectToLogin;
      }
      var user := actor.value;
      var found := Find(users, UserName, username);
      if found.None? {
        return Handlers.NotFound;
      }
      var author := found.value;
      if author.pk != user.pk {
        // get_or_create: at most one row can match while the store is valid
        DistinctCountAtMostOne(follows, FollowPair, (user.pk, author.pk));
        if CountKey(follows, FollowPair, (user.pk, author.pk)) == 0 {
          follows := follows + [Follow(nextFollow, user.pk, author.pk, now)];
          nextFollow := nextFollow + 1;
        }
      }
      resp := Handlers.RedirectToProfile(author.username);
    }

    /** `profile_unfollow` on the store: delete the (user, author) row if it exists. */
    method ProfileUnfollow(actor: Option<User>, username: string) returns (resp: Handlers.Response)
      requires Valid()
      modifies this
      ensures Valid()
      ensures Handlers.Outcome(State(), resp) == Handlers.ProfileUnfollow(old(State()), actor, username)
      ensures !resp.ServerError?
    {
      ProfileUnfollowKeepsWellformed(State(), actor, username);
      if actor.None? {
        return Handlers.RedirectToLogin;
      }
      var user := actor.value;
      var found := Find(users, UserName, username);
      if found.None? {
        return Handlers.NotFound;
      }
      var author := found.value;
      var pair := (user.pk, author.pk);
      DistinctCountAtMostOne(follows, FollowPair, pair);
      var subscribe := CountKey(follows, FollowPair, pair) > 0;
      if subscribe {
        follows := Filter(follows, Handlers.OtherPair(pair));
      }
      resp := Handlers.RedirectToProfile(author.username);
    }

    /** `group.delete()`: the group goes, its posts lose their group. */
    method DeleteGroup(g: GroupId)
      requires Valid()
      modifies this
      ensures Valid()
      ensures State() == Handlers.DeleteGroup(old(State()), g)
    {
      DeleteGroupKeepsWellformed(State(), g);
      posts := MapRows(posts, Handlers.Ungrouped(g));
      groups := Filter(groups, Handlers.OtherGroup(g));
    }

    /** `post.delete()`: the post and its comments go. */
    method DeletePost(id: PostId)
      requires Valid()
      modifies this
      ensures Valid()
      ensures State() == Handlers.DeletePost(old(State()), id)
    {
      DeletePostKeepsWellformed(State(), id);
      comments := Filter(comments, Handlers.NotUnder(id));
      posts := Filter(posts, Handlers.OtherPost(id));
    }

    /** `user.delete()`: the user, their posts and comments, the comments on their posts and their follow rows go. */
    method DeleteUser(u: UserId)
      requires Valid()
      modifies this
      ensures Valid()
      ensures State() == Handlers.DeleteUser(old(State()), u)
    {
      DeleteUserKeepsWellformed(State(), u);
      follows := Filter(follows, Handlers.NotInvolving(u));
      comments := Filter(comments, Handlers.CommentSurvives(posts, u));
      posts := Filter(posts, Handlers.NotBy(u));
      users := Filter(users, Handlers.OtherUser(u));
    }
  }
}
