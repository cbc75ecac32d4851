/**
  The read-only views: the index, group, profile, post detail and follow
  pages. Each filters the post table, lists it newest first, counts it
  where the page shows a count, and cuts out the requested page.
*/
module Feeds {
  import opened Wrappers
  import opened Seqs
  import opened Ordering
  import opened Pagination
  import opened Models

  /** `post.text[:LETTERS_FOR_TITLE]` is the detail page's title. */
  const TitleLetters: nat := 30

  /** What a view hands to its template, or why it did not get that far. */
  datatype Reply<T> = Shown(context: T) | NotFound | RedirectToLogin

  datatype GroupView = GroupView(group: Group, page: Page<Post>)
  datatype ProfileView = ProfileView(author: User, page: Page<Post>, postQuantity: nat, following: bool)
  datatype DetailView = DetailView(post: Post, title: string, comments: seq<Comment>)
  datatype FollowView = FollowView(follow: bool, postList: seq<Post>, page: Page<Post>, postQuantity: nat)

  function InGroup(g: GroupId): Post -> bool { (p: Post) => p.group == Some(g) }
  function UnderPost(id: PostId): Comment -> bool { (c: Comment) => c.post == id }
  function FollowedBy(follows: seq<Follow>, viewer: UserId): Post -> bool {
    (p: Post) => CountKey(follows, FollowPair, (viewer, p.author)) > 0
  }

  /** `rows`, listed newest first: the same rows, in listing order. */
  function Listed<T(!new)>(rows: seq<T>, stamp: T -> Stamp): (r: seq<T>)
    ensures NewestFirst(r, stamp)
    ensures |r| == |rows| && forall x :: x in r <==> x in rows
  {
    NewestSorted(rows, stamp);
    NewestSameRows(rows, stamp);
    Newest(rows, stamp)
  }

  /** The posts of group `g`, newest first. */
  function GroupFeed(posts: seq<Post>, g: GroupId): (r: seq<Post>)
    ensures NewestFirst(r, PostStamp)
    ensures forall p :: p in r <==> p in posts && p.group == Some(g)
    ensures |r| == CountKey(posts, PostGroup, Some(g))
  {
    FilterKeepKey(posts, InGroup(g), PostGroup, Some(g));
    Listed(Filter(posts, InGroup(g)), PostStamp)
  }

  /** The posts by author `a`, newest first. */
  function AuthorFeed(posts: seq<Post>, a: UserId): (r: seq<Post>)
    ensures NewestFirst(r, PostStamp)
    ensures forall p :: p in r <==> p in posts && p.author == a
    ensures |r| == CountKey(posts, PostAuthor, a)
  {
    FilterKeepKey(posts, ByAuthor(a), PostAuthor, a);
    Listed(Filter(posts, ByAuthor(a)), PostStamp)
  }

  /** `n` copies of `x`. */
  function Repeat<T(!new)>(x: T, n: nat): (r: seq<T>)
    ensures |r| == n && forall y :: y in r <==> y == x && n > 0
  {
    var r := seq(n, _ => x);
    assert n > 0 ==> r[0] == x;
    r
  }

  /**
    The rows of `Post JOIN Follow ON post.author = follow.author WHERE
    follow.user = viewer`: each post once per follow row of the viewer
    for its author.
  */
  function FollowJoin(posts: seq<Post>, follows: seq<Follow>, viewer: UserId): (r: seq<Post>)
    ensures forall p :: p in r <==> p in posts && HasKey(follows, FollowPair, (viewer, p.author))
  {
    if posts == [] then []
    else
      var n := CountKey(follows, FollowPair, (viewer, posts[0].author));
      assert posts == [posts[0]] + posts[1..];
      Repeat(posts[0], n) + FollowJoin(posts[1..], follows, viewer)
  }

  /** The follow page's `post_list`: the joined rows, newest first. */
  function FollowFeed(posts: seq<Post>, follows: seq<Follow>, viewer: UserId): (r: seq<Post>)
    ensures NewestFirst(r, PostStamp)
    ensures forall p :: p in r <==> p in posts && HasKey(follows, FollowPair, (viewer, p.author))
  {
    Listed(FollowJoin(posts, follows, viewer), PostStamp)
  }

  /**
    With at most one follow row per (user, author) pair, the join is the
    plain filter of the posts whose author the viewer follows.
  */
  lemma {:induction false} FollowJoinIsFilter(posts: seq<Post>, follows: seq<Follow>, viewer: UserId)
    requires DistinctBy(follows, FollowPair)
    ensures FollowJoin(posts, follows, viewer) == Filter(posts, FollowedBy(follows, viewer))
  {
    if posts != [] {
      FollowJoinIsFilter(posts[1..], follows, viewer);
      DistinctCountAtMostOne(follows, FollowPair, (viewer, posts[0].author));
    }
  }

  /**
    A second follow row for the same pair repeats the author's posts in
    the follow feed: the uniqueness of follow rows is what keeps the feed
    free of duplicates.
  */
  lemma DuplicateFollowRepeatsPost(p: Post, f: Follow)
    requires f.author == p.author
    ensures var twice := [f, f.(pk := f.pk + 1)];
      DistinctBy(twice, FollowPk) && FollowFeed([p], twice, f.user) == [p, p]
  {
    var twice := [f, f.(pk := f.pk + 1)];
    assert CountKey(twice, FollowPair, (f.user, p.author)) == 2;
    assert FollowJoin([p], twice, f.user) == [p, p];
    var r := FollowFeed([p], twice, f.user);
    assert r[0] in r && r[1] in r;
  }

  /** Pages cut from a newest-first listing hold listed rows, newest first, at most `perPage` of them. */
  lemma PageOfListing<T>(rows: seq<T>, stamp: T -> Stamp, perPage: nat, arg: PageArg)
    requires perPage > 0 && NewestFirst(rows, stamp)
    ensures var p := GetPage(rows, perPage, arg);
      NewestFirst(p.items, stamp) && forall x :: x in p.items ==> x in rows
  {
    var p := GetPage(rows, perPage, arg);
    var lo := Bottom(p.number, perPage);
    forall i, j | 0 <= i < j < |p.items| ensures NotOlder(stamp(p.items[i]), stamp(p.items[j])) {
      assert p.items[i] == rows[lo + i] && p.items[j] == rows[lo + j];
    }
    forall x | x in p.items ensures x in rows {
      var i :| 0 <= i < |p.items| && p.items[i] == x;
      assert rows[lo + i] == x;
    }
  }

  /** `index`: a page of all posts, newest first. */
  function Index(db: Db, perPage: nat, arg: PageArg): (r: Page<Post>)
    requires perPage > 0
    ensures r.numPages == NumPages(|db.posts|, perPage)
    ensures |r.items| <= perPage && NewestFirst(r.items, PostStamp)
    ensures forall p :: p in r.items ==> p in db.posts
    ensures r == GetPage(Listed(db.posts, PostStamp), perPage, arg)
  {
    var feed := Listed(db.posts, PostStamp);
    PageOfListing(feed, PostStamp, perPage, arg);
    GetPage(feed, perPage, arg)
  }

  /** `group_posts`: not found for an unknown slug, else a page of the group's posts. */
  function GroupPosts(db: Db, slug: string, perPage: nat, arg: PageArg): (r: Reply<GroupView>)
    requires perPage > 0
    ensures !r.RedirectToLogin?
    ensures r.NotFound? <==> !HasKey(db.groups, GroupSlug, slug)
    ensures r.Shown? ==> r.context.group in db.groups && r.context.group.slug == slug
    ensures r.Shown? ==> |r.context.page.items| <= perPage && NewestFirst(r.context.page.items, PostStamp)
    ensures r.Shown? ==> forall p :: p in r.context.page.items ==>
      p in db.posts && p.group == Some(r.context.group.pk)
    ensures r.Shown? ==> r.context.page == GetPage(GroupFeed(db.posts, r.context.group.pk), perPage, arg)
  {
    match Find(db.groups, GroupSlug, slug)
    case None => NotFound
    case Some(group) =>
      var feed := GroupFeed(db.posts, group.pk);
      PageOfListing(feed, PostStamp, perPage, arg);
      Shown(GroupView(group, GetPage(feed, perPage, arg)))
  }

  /**
    `profile`: not found for an unknown username; else a page of the
    author's posts, how many posts the author has, and whether the viewer
    is signed in and follows the author.
  */
  function Profile(db: Db, username: string, viewer: Option<User>, perPage: nat, arg: PageArg): (r: Reply<ProfileView>)
    requires perPage > 0
    ensures !r.RedirectToLogin?
    ensures r.NotFound? <==> !HasKey(db.users, UserName, username)
    ensures r.Shown? ==> r.context.author in db.users && r.context.author.username == username
    ensures r.Shown? ==> r.context.postQuantity == CountKey(db.posts, PostAuthor, r.context.author.pk)
    ensures r.Shown? ==> (r.context.following <==>
      viewer.Some? && HasKey(db.follows, FollowPair, (viewer.value.pk, r.context.author.pk)))
    ensures r.Shown? ==> |r.context.page.items| <= perPage && NewestFirst(r.context.page.items, PostStamp)
    ensures r.Shown? ==> forall p :: p in r.context.page.items ==>
      p in db.posts && p.author == r.context.author.pk
    ensures r.Shown? ==> r.context.page == GetPage(AuthorFeed(db.posts, r.context.author.pk), perPage, arg)
  {
    match Find(db.users, UserName, username)
    case None => NotFound
    case Some(author) =>
      var feed := AuthorFeed(db.posts, author.pk);
      PageOfListing(feed, PostStamp, perPage, arg);
      var following := viewer.Some? && CountKey(db.follows, FollowPair, (viewer.value.pk, author.pk)) > 0;
      Shown(ProfileView(author, GetPage(feed, perPage, arg), |feed|, following))
  }

  /**
    `post_detail`: not found for an unknown id; else the post, its title
    (the first 30 characters of the text) and its comments, newest first.
  */
  function PostDetail(db: Db, postId: PostId): (r: Reply<DetailView>)
    ensures !r.RedirectToLogin?
    ensures r.NotFound? <==> !HasKey(db.posts, PostPk, postId)
    ensures r.Shown? ==> r.context.post in db.posts && r.context.post.pk == postId
    ensures r.Shown? ==> (r.context.title <= r.context.post.text
      && |r.context.title| == if |r.context.post.text| <= TitleLetters then |r.context.post.text| else TitleLetters)
    ensures r.Shown? ==> NewestFirst(r.context.comments, CommentStamp)
    ensures r.Shown? ==> forall c :: c in r.context.comments <==> c in db.comments && c.post == postId
    ensures r.Shown? ==> |r.context.comments| == CountKey(db.comments, CommentPost, postId)
  {
    match Find(db.posts, PostPk, postId)
    case None => NotFound
    case Some(post) =>
      FilterKeepKey(db.comments, UnderPost(postId), CommentPost, postId);
      var comments := Listed(Filter(db.comments, UnderPost(postId)), CommentStamp);
      Shown(DetailView(post, Truncate(post.text, TitleLetters), comments))
  }

  /**
    `follow_index`: sign-in required; then whether the viewer follows
    anyone, the posts of the authors they follow (newest first), their
    number, and the requested page of them.
  */
  function FollowIndex(db: Db, viewer: Option<User>, perPage: nat, arg: PageArg): (r: Reply<FollowView>)
    requires perPage > 0
    ensures !r.NotFound?
    ensures r.RedirectToLogin? <==> viewer.None?
    ensures r.Shown? ==> (r.context.follow <==> HasKey(db.follows, FollowUser, viewer.value.pk))
    ensures r.Shown? ==> r.context.postQuantity == |r.context.postList|
    ensures r.Shown? ==> NewestFirst(r.context.postList, PostStamp)
    ensures r.Shown? ==> forall p :: p in r.context.postList <==>
      p in db.posts && HasKey(db.follows, FollowPair, (viewer.value.pk, p.author))
    ensures r.Shown? ==> |r.context.page.items| <= perPage
    ensures r.Shown? ==> forall p :: p in r.context.page.items ==> p in r.context.postList
    ensures r.Shown? ==> r.context.page == GetPage(r.context.postList, perPage, arg)
  {
    match viewer
    case None => RedirectToLogin
    case Some(follower) =>
      var follow := CountKey(db.follows, FollowUser, follower.pk) > 0;
      var postList := FollowFeed(db.posts, db.follows, follower.pk);
      PageOfListing(postList, PostStamp, perPage, arg);
      Shown(FollowView(follow, postList, GetPage(postList, perPage, arg), |postList|))
  }

  /**
    On a well-formed database the follow page's list has no post twice,
    so its `post_quantity` is the number of distinct posts whose author
    the viewer follows.
  */
  lemma FollowIndexCountsDistinctPosts(db: Db, viewer: User, perPage: nat, arg: PageArg)
    requires Wellformed(db) && perPage > 0
    ensures var r := FollowIndex(db, Some(viewer), perPage, arg);
      r.Shown? && DistinctBy(r.context.postList, PostPk)
      && r.context.postQuantity == |set p | p in db.posts && HasKey(db.follows, FollowPair, (viewer.pk, p.author))|
  {
    assert PostsOk(db) && FollowsOk(db);
    FollowFeedDistinct(db.posts, db.follows, viewer.pk);
  }

  /**
    With distinct post keys and unique follow pairs, the follow feed lists
    each followed post once.
  */
  lemma FollowFeedDistinct(posts: seq<Post>, follows: seq<Follow>, viewer: UserId)
    requires DistinctBy(posts, PostPk) && DistinctBy(follows, FollowPair)
    ensures var feed := FollowFeed(posts, follows, viewer);
      DistinctBy(feed, PostPk)
      && |feed| == |set p | p in posts && HasKey(follows, FollowPair, (viewer, p.author))|
  {
    var keep := FollowedBy(follows, viewer);
    FollowJoinIsFilter(posts, follows, viewer);
    var rows := Filter(posts, keep);
    FilterDistinct(posts, keep, PostPk);
    FilterCard(posts, keep, PostPk);
    ListingKeepsDistinct(rows, PostStamp, PostPk);
    assert Accepted(posts, keep) == set p | p in posts && HasKey(follows, FollowPair, (viewer, p.author));
  }

  /** On a well-formed database the profile's `post_quantity` is the number of distinct posts by the author. */
  lemma ProfileCountsDistinctPosts(db: Db, username: string, viewer: Option<User>, perPage: nat, arg: PageArg)
    requires Wellformed(db) && perPage > 0
    ensures var r := Profile(db, username, viewer, perPage, arg);
      r.Shown? ==> r.context.postQuantity == |set p | p in db.posts && p.author == r.context.author.pk|
  {
    var r := Profile(db, username, viewer, perPage, arg);
    if r.Shown? {
      var a := r.context.author.pk;
      FilterKeepKey(db.posts, ByAuthor(a), PostAuthor, a);
      FilterCard(db.posts, ByAuthor(a), PostPk);
      assert Accepted(db.posts, ByAuthor(a)) == set p | p in db.posts && p.author == a;
    }
  }

  /** Inserting a row whose key is new into a list with distinct keys keeps them distinct. */
  lemma {:induction false} InsertKeepsDistinct<T, K>(x: T, ys: seq<T>, stamp: T -> Stamp, key: T -> K)
    requires DistinctBy(ys, key) && forall y :: y in ys ==> key(y) != key(x)
    ensures DistinctBy(Insert(x, ys, stamp), key)
  {
    if ys == [] || NotOlder(stamp(x), stamp(ys[0])) {
      ConsDistinct(x, ys, key);
    } else {
      var t := ys[1..];
      DistinctTail(ys, key);
      InsertKeepsDistinct(x, t, stamp, key);
      var rt := Insert(x, t, stamp);
      assert ys[0] in ys;
      forall y | y in rt ensures key(y) != key(ys[0]) {
        assert y in multiset(rt);
        if y != x {
          var m :| 0 <= m < |t| && t[m] == y;
          assert ys[m + 1] == y;
        }
      }
      ConsDistinct(ys[0], rt, key);
    }
  }

  /** Listing rows newest first keeps their keys distinct. */
  lemma {:induction false} ListingKeepsDistinct<T, K>(rows: seq<T>, stamp: T -> Stamp, key: T -> K)
    requires DistinctBy(rows, key)
    ensures DistinctBy(Newest(rows, stamp), key)
  {
    if rows != [] {
      var t := rows[1..];
      DistinctTail(rows, key);
      ListingKeepsDistinct(t, stamp, key);
      var nt := Newest(t, stamp);
      forall y | y in nt ensures key(y) != key(rows[0]) {
        assert y in multiset(nt);
        var m :| 0 <= m < |t| && t[m] == y;
        assert rows[m + 1] == y;
      }
      InsertKeepsDistinct(rows[0], nt, stamp, key);
    }
  }
}
