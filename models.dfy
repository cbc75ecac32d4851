/**
  The records of the blog (users, groups, posts, comments, follows), their
  display forms, and the database they live in together with the
  integrity the rest of the model keeps.
*/
module Models {
  import opened Wrappers
  import opened Seqs
  import opened Ordering

  type UserId = nat
  type GroupId = nat
  type PostId = nat
  type CommentId = nat
  type FollowId = nat

  /** Longest accepted post text (`max_length` of `Post.text`). */
  const PostTextMax: nat := 10000
  /** Longest accepted comment text (`max_length` of `Comment.text`). */
  const CommentTextMax: nat := 20000

  /** An account, as the authentication framework supplies it. */
  datatype User = User(pk: UserId, username: string)

  /** A topic community; `slug` is unique. */
  datatype Group = Group(pk: GroupId, title: string, slug: string, description: string)

  /** A post; `pubDate` is set once, when the post is created. The image is not modelled. */
  datatype Post = Post(pk: PostId, text: string, pubDate: nat, author: UserId, group: Option<GroupId>)

  /** A comment under a post. */
  datatype Comment = Comment(pk: CommentId, post: PostId, author: UserId, text: string, created: nat)

  /** `user` follows `author`. */
  datatype Follow = Follow(pk: FollowId, user: UserId, author: UserId, created: nat)

  // Columns, as functions, for the generic table queries of module Seqs.
  function UserPk(u: User): UserId { u.pk }
  function UserName(u: User): string { u.username }
  function GroupPk(g: Group): GroupId { g.pk }
  function GroupSlug(g: Group): string { g.slug }
  function PostPk(p: Post): PostId { p.pk }
  function PostAuthor(p: Post): UserId { p.author }
  function PostGroup(p: Post): Option<GroupId> { p.group }

  /** Accepts the posts written by user `a`. */
  function ByAuthor(a: UserId): Post -> bool { (p: Post) => p.author == a }
  function CommentPk(c: Comment): CommentId { c.pk }
  function CommentPost(c: Comment): PostId { c.post }
  function FollowPk(f: Follow): FollowId { f.pk }
  function FollowUser(f: Follow): UserId { f.user }
  function FollowPair(f: Follow): (UserId, UserId) { (f.user, f.author) }

  /** Posts are listed by `-pub_date`, then `-pk`. */
  function PostStamp(p: Post): Stamp { Stamp(p.pubDate, p.pk) }
  /** Comments are listed by `-created`, then `-pk`. */
  function CommentStamp(c: Comment): Stamp { Stamp(c.created, c.pk) }

  /** `s[:n]` for a non-negative `n`: the first `n` characters, or all of `s` when it is shorter. */
  function Truncate(s: string, n: nat): (r: string)
    ensures |r| == if |s| <= n then |s| else n
    ensures r <= s
  {
    if |s| <= n then s else s[..n]
  }

  /** `Post.__str__`: the first `symbols` characters of the text. */
  function PostStr(p: Post, symbols: nat): (r: string)
    ensures r <= p.text && |r| == if |p.text| <= symbols then |p.text| else symbols
  {
    Truncate(p.text, symbols)
  }

  /** `Comment.__str__`: the first `symbols` characters of the text. */
  function CommentStr(c: Comment, symbols: nat): (r: string)
    ensures r <= c.text && |r| == if |c.text| <= symbols then |c.text| else symbols
  {
    Truncate(c.text, symbols)
  }

  /** `Group.__str__`: the title, unchanged. */
  function GroupStr(g: Group): (r: string)
    ensures r == g.title
  {
    g.title
  }

  /** `Follow.__str__`: the username of the followed author. */
  function FollowStr(f: Follow, users: seq<User>): (r: string)
    requires HasKey(users, UserPk, f.author)
    ensures exists u :: u in users && u.pk == f.author && u.username == r
  {
    Find(users, UserPk, f.author).value.username
  }

  /** A stored text: non-empty and within the column's `max_length`. */
  predicate TextFits(text: string, limit: nat) {
    0 < |text| <= limit
  }

  /**
    The tables of the database, with the next primary key of each
    auto-incremented table that the core inserts into.
  */
  datatype Db = Db(
    users: seq<User>,
    groups: seq<Group>,
    posts: seq<Post>,
    comments: seq<Comment>,
    follows: seq<Follow>,
    nextPost: PostId,
    nextComment: CommentId,
    nextFollow: FollowId)

  ghost predicate PostRowOk(db: Db, p: Post) {
    && p.pk < db.nextPost
    && HasKey(db.users, UserPk, p.author)
    && (p.group.Some? ==> HasKey(db.groups, GroupPk, p.group.value))
    && TextFits(p.text, PostTextMax)
  }

  ghost predicate CommentRowOk(db: Db, c: Comment) {
    && c.pk < db.nextComment
    && HasKey(db.posts, PostPk, c.post)
    && HasKey(db.users, UserPk, c.author)
    && TextFits(c.text, CommentTextMax)
  }

  ghost predicate FollowRowOk(db: Db, f: Follow) {
    && f.pk < db.nextFollow
    && HasKey(db.users, UserPk, f.user)
    && HasKey(db.users, UserPk, f.author)
    && f.user != f.author
  }

  ghost predicate UsersAndGroupsOk(db: Db) {
    && DistinctBy(db.users, UserPk) && DistinctBy(db.users, UserName)
    && DistinctBy(db.groups, GroupPk) && DistinctBy(db.groups, GroupSlug)
  }

  ghost predicate PostsOk(db: Db) {
    DistinctBy(db.posts, PostPk) && forall p :: p in db.posts ==> PostRowOk(db, p)
  }

  ghost predicate CommentsOk(db: Db) {
    DistinctBy(db.comments, CommentPk) && forall c :: c in db.comments ==> CommentRowOk(db, c)
  }

  /**
    The follow table has no two rows for the same (user, author) pair and
    no row where a user follows themself. The storage does not enforce
    either (the unique constraint is built but never attached to the
    table); the follow views keep both.
  */
  ghost predicate FollowsOk(db: Db) {
    && DistinctBy(db.follows, FollowPk)
    && DistinctBy(db.follows, FollowPair)
    && forall f :: f in db.follows ==> FollowRowOk(db, f)
  }

  /**
    The database invariant: primary keys, usernames and slugs are unique,
    every foreign key resolves, stored texts fit their columns, and the
    follow table is duplicate-free.
  */
  ghost predicate Wellformed(db: Db) {
    UsersAndGroupsOk(db) && PostsOk(db) && CommentsOk(db) && FollowsOk(db)
  }

  /** `request.user`: anonymous, or an account that exists. */
  ghost predicate ActorExists(db: Db, actor: Option<User>) {
    actor.Some? ==> actor.value in db.users
  }
}
