/** The read-only views: the global feed (`index`), the group feed
    (`group_posts`), the author feed with its `following` flag (`profile`),
    the feed of followed authors (`follow_index`) and the comment list of
    `post_detail`. Each feed is ordered newest first (`ordering = ('-pk',)`)
    and paged by `get_page`. */
module Feeds {
  import opened Seqs
  import opened Models
  import opened Follows
  import opened Paging

  /** The requesting user as the authentication layer reports it. */
  datatype Viewer = Anonymous | Authenticated(user: User)

  datatype Error = NotFound | Unauthenticated

  datatype Outcome<T> = Ok(value: T) | Fail(error: Error)

  datatype GroupContext = GroupContext(group: Group, page: Page<Post>)

  datatype ProfileContext = ProfileContext(author: User, page: Page<Post>, following: bool)

  datatype DetailContext = DetailContext(post: Post, comments: seq<Comment>)

  // ---------------------------------------------------------------------
  // Lookups (`get_object_or_404`)

  function FindUser(users: seq<User>, username: string): (r: Option<User>)
    ensures r.Some? ==> r.value in users && r.value.username == username
    ensures r.None? ==> forall u :: u in users ==> u.username != username
  {
    if users == [] then None
    else if users[0].username == username then Some(users[0])
    else FindUser(users[1..], username)
  }

  function FindGroup(groups: seq<Group>, slug: string): (r: Option<Group>)
    ensures r.Some? ==> r.value in groups && r.value.slug == slug
    ensures r.None? ==> forall g :: g in groups ==> g.slug != slug
  {
    if groups == [] then None
    else if groups[0].slug == slug then Some(groups[0])
    else FindGroup(groups[1..], slug)
  }

  /** Where the post with primary key `id` is stored. */
  function PostIndex(posts: seq<Post>, id: PostId): (r: Option<nat>)
    ensures r.Some? ==> r.value < |posts| && posts[r.value].id == id
    ensures r.None? ==> id !in PostIds(posts)
  {
    if posts == [] then None
    else if posts[0].id == id then Some(0)
    else match PostIndex(posts[1..], id)
      case None => None
      case Some(i) => Some(i + 1)
  }

  function FindPost(posts: seq<Post>, id: PostId): (r: Option<Post>)
    ensures r.Some? ==> r.value in posts && r.value.id == id
    ensures r.None? ==> id !in PostIds(posts)
  {
    match PostIndex(posts, id)
    case None => None
    case Some(i) => Some(posts[i])
  }

  // ---------------------------------------------------------------------
  // Post lists, newest first

  /** Rows are stored in creation order, so ordering by `-pk` reads them back to front. */
  function NewestFirst(posts: seq<Post>): (r: seq<Post>)
    ensures forall p :: p in r <==> p in posts
    ensures Ascending(posts, PostKey) ==> Descending(r, PostKey)
  {
    ReverseMembers(posts);
    ReverseAscending(posts, PostKey);
    Reverse(posts)
  }

  function InGroup(gid: GroupId): Post -> bool { (p: Post) => p.group == Some(gid) }
  function ByAuthor(uid: UserId): Post -> bool { (p: Post) => p.author == uid }
  function ByFollowedAuthor(follows: seq<Follow>, uid: UserId): Post -> bool {
    (p: Post) => IsFollowing(follows, uid, p.author)
  }
  function OnPost(pid: PostId): Comment -> bool { (c: Comment) => c.post == pid }

  /** `Post.objects.all()`: every post, newest first. */
  function AllPosts(db: Db): (r: seq<Post>)
    ensures forall p :: p in r <==> p in db.posts
    ensures Valid(db) ==> Descending(r, PostKey)
  {
    NewestFirst(db.posts)
  }

  /** `group.posts.all()`: exactly the posts in the group, newest first. */
  function GroupPostList(db: Db, gid: GroupId): (r: seq<Post>)
    ensures forall p :: p in r <==> p in db.posts && p.group == Some(gid)
    ensures Valid(db) ==> Descending(r, PostKey)
  {
    FilterAscending(db.posts, InGroup(gid), PostKey);
    NewestFirst(Filter(db.posts, InGroup(gid)))
  }

  /** `user.posts.all()`: exactly the author's posts, newest first. */
  function AuthorPostList(db: Db, uid: UserId): (r: seq<Post>)
    ensures forall p :: p in r <==> p in db.posts && p.author == uid
    ensures Valid(db) ==> Descending(r, PostKey)
  {
    FilterAscending(db.posts, ByAuthor(uid), PostKey);
    NewestFirst(Filter(db.posts, ByAuthor(uid)))
  }

  /** `Post.objects.filter(author__following__user=user)`: exactly the posts
      whose author `uid` follows, newest first. The `UniqueConstraint` keeps
      the join from listing a post twice. */
  function FollowPostList(db: Db, uid: UserId): (r: seq<Post>)
    ensures forall p :: p in r <==> p in db.posts && p.author in FollowedAuthors(db.follows, uid)
    ensures Valid(db) ==> Descending(r, PostKey)
  {
    FollowedAuthorsMeaning(db.follows, uid);
    FilterAscending(db.posts, ByFollowedAuthor(db.follows, uid), PostKey);
    NewestFirst(Filter(db.posts, ByFollowedAuthor(db.follows, uid)))
  }

  /** `Comment.objects.filter(post=post)`: the post's comments, newest first. */
  function PostComments(db: Db, pid: PostId): (r: seq<Comment>)
    ensures forall c :: c in r <==> c in db.comments && c.post == pid
    ensures Valid(db) ==> Descending(r, CommentKey)
  {
    var own := Filter(db.comments, OnPost(pid));
    FilterAscending(db.comments, OnPost(pid), CommentKey);
    ReverseMembers(own);
    ReverseAscending(own, CommentKey);
    Reverse(own)
  }

  // ---------------------------------------------------------------------
  // The `following` flag of `profile`

  /** The flag as the view computes it for a signed-in viewer: is there a post
      of the profile's author whose author the viewer follows? */
  function ProfileFollowingAsWritten(db: Db, viewer: UserId, author: UserId): bool {
    Filter(AuthorPostList(db, author), ByFollowedAuthor(db.follows, viewer)) != []
  }

  /** As written, the flag needs the author to have a post as well as the edge. */
  lemma ProfileFollowingAsWrittenMeaning(db: Db, viewer: UserId, author: UserId)
    ensures ProfileFollowingAsWritten(db, viewer, author) <==>
      (exists p :: p in db.posts && p.author == author) && IsFollowing(db.follows, viewer, author)
  {
    var mine := AuthorPostList(db, author);
    var hits := Filter(mine, ByFollowedAuthor(db.follows, viewer));
    if hits != [] {
      assert hits[0] in hits;
    }
    if IsFollowing(db.follows, viewer, author) && exists p :: p in db.posts && p.author == author {
      var p :| p in db.posts && p.author == author;
      assert p in hits;
    }
  }

  /** A viewer who follows an author without posts is shown as not following. */
  lemma ProfileFollowingAsWrittenMissesSilentAuthors()
    ensures var db := Db([User(1, "reader"), User(2, "writer")], [], [], [], [Follow(1, 1, 2)]);
      IsFollowing(db.follows, 1, 2) && !ProfileFollowingAsWritten(db, 1, 2)
  {
    var db := Db([User(1, "reader"), User(2, "writer")], [], [], [], [Follow(1, 1, 2)]);
    assert db.follows[0] in db.follows;
    ProfileFollowingAsWrittenMeaning(db, 1, 2);
  }

  /** The flag as intended: the viewer follows the author; never for an anonymous viewer. */
  function FollowingFlag(db: Db, viewer: Viewer, author: UserId): (b: bool)
    ensures b <==> viewer.Authenticated? && (viewer.user.id, author) in Edges(db.follows)
  {
    FollowingIsEdge(db.follows, if viewer.Authenticated? then viewer.user.id else 0, author);
    viewer.Authenticated? && IsFollowing(db.follows, viewer.user.id, author)
  }

  /** The two agree whenever the author has a post. */
  lemma FollowingFlagMatchesWhenAuthorPosted(db: Db, viewer: User, author: UserId)
    requires exists p :: p in db.posts && p.author == author
    ensures FollowingFlag(db, Authenticated(viewer), author) == ProfileFollowingAsWritten(db, viewer.id, author)
  {
    ProfileFollowingAsWrittenMeaning(db, viewer.id, author);
  }

  // ---------------------------------------------------------------------
  // The views

  /** A page holds items of its feed, in the feed's order. */
  lemma PageItems<T>(items: seq<T>, req: PageRequest, key: T -> int)
    ensures forall x :: x in GetPage(items, req).items ==> x in items
    ensures Descending(items, key) ==> Descending(GetPage(items, req).items, key)
  {
    var p := GetPage(items, req);
    var lo := (p.number - 1) * PageSize;
    forall x | x in p.items ensures x in items {
      var k :| 0 <= k < |p.items| && p.items[k] == x;
      assert items[lo + k] == x;
    }
    if Descending(items, key) {
      forall i, j | 0 <= i < j < |p.items| ensures key(p.items[i]) > key(p.items[j]) {
        assert p.items[i] == items[lo + i] && p.items[j] == items[lo + j];
      }
    }
  }

  /** `index`: the page of the global feed. */
  function Index(db: Db, req: PageRequest): (p: Page<Post>)
    ensures p == GetPage(AllPosts(db), req)
    ensures forall x :: x in p.items ==> x in db.posts
    ensures db.posts != [] ==> p.items != []
    ensures Valid(db) ==> Descending(p.items, PostKey)
  {
    var all := AllPosts(db);
    PageItems(all, req, PostKey);
    assert db.posts != [] ==> db.posts[0] in all;
    GetPage(all, req)
  }

  /** `group_posts`: not found for an unknown slug, else the group and a page of its feed. */
  function GroupPosts(db: Db, slug: string, req: PageRequest): (r: Outcome<GroupContext>)
    ensures r.Fail? <==> forall g :: g in db.groups ==> g.slug != slug
    ensures r.Fail? ==> r.error == NotFound
    ensures r.Ok? ==>
      && r.value.group in db.groups && r.value.group.slug == slug
      && r.value.page == GetPage(GroupPostList(db, r.value.group.id), req)
  {
    match FindGroup(db.groups, slug)
    case None => Fail(NotFound)
    case Some(g) => Ok(GroupContext(g, GetPage(GroupPostList(db, g.id), req)))
  }

  /** `profile`: not found for an unknown username, else the author, a page of
      the author's feed and whether the viewer follows the author. */
  function Profile(db: Db, username: string, viewer: Viewer, req: PageRequest): (r: Outcome<ProfileContext>)
    ensures r.Fail? <==> forall u :: u in db.users ==> u.username != username
    ensures r.Fail? ==> r.error == NotFound
    ensures r.Ok? ==>
      && r.value.author in db.users && r.value.author.username == username
      && r.value.page == GetPage(AuthorPostList(db, r.value.author.id), req)
      && (r.value.following <==>
            viewer.Authenticated? && (viewer.user.id, r.value.author.id) in Edges(db.follows))
  {
    match FindUser(db.users, username)
    case None => Fail(NotFound)
    case Some(u) => Ok(ProfileContext(u, GetPage(AuthorPostList(db, u.id), req), FollowingFlag(db, viewer, u.id)))
  }

  /** `follow_index`: sign-in required, then a page of the followed authors' posts. */
  function FollowIndex(db: Db, viewer: Viewer, req: PageRequest): (r: Outcome<Page<Post>>)
    ensures viewer.Anonymous? <==> r == Fail(Unauthenticated)
    ensures viewer.Authenticated? ==> r == Ok(GetPage(FollowPostList(db, viewer.user.id), req))
    ensures r.Ok? ==> forall p :: p in r.value.items ==>
      p in db.posts && p.author in FollowedAuthors(db.follows, viewer.user.id)
  {
    match viewer
    case Anonymous => Fail(Unauthenticated)
    case Authenticated(u) =>
      PageItems(FollowPostList(db, u.id), req, PostKey);
      Ok(GetPage(FollowPostList(db, u.id), req))
  }

  /** `post_detail`: not found for an unknown id, else the post and its comments, newest first. */
  function PostDetail(db: Db, pid: PostId): (r: Outcome<DetailContext>)
    ensures r.Fail? <==> pid !in PostIds(db.posts)
    ensures r.Fail? ==> r.error == NotFound
    ensures r.Ok? ==>
      && r.value.post in db.posts && r.value.post.id == pid
      && r.value.comments == PostComments(db, pid)
  {
    match FindPost(db.posts, pid)
    case None => Fail(NotFound)
    case Some(p) => Ok(DetailContext(p, PostComments(db, pid)))
  }

  // ---------------------------------------------------------------------
  // Facts about the feeds

  /** A viewer who follows nobody sees an empty following feed. */
  lemma FollowFeedEmptyWithoutFollows(db: Db, uid: UserId)
    requires FollowedAuthors(db.follows, uid) == {}
    ensures FollowPostList(db, uid) == []
  {
  }

  /** A post created last heads every feed it belongs to, in front of the old
      feed, and leaves every other feed as it was. */
  lemma {:induction false} NewPostHeadsFeeds(db: Db, p: Post, uid: UserId, gid: GroupId, viewer: UserId)
    ensures var db' := db.(posts := db.posts + [p]);
      && AllPosts(db') == [p] + AllPosts(db)
      && AuthorPostList(db', p.author) == [p] + AuthorPostList(db, p.author)
      && (uid != p.author ==> AuthorPostList(db', uid) == AuthorPostList(db, uid))
      && (p.group == Some(gid) ==> GroupPostList(db', gid) == [p] + GroupPostList(db, gid))
      && (p.group != Some(gid) ==> GroupPostList(db', gid) == GroupPostList(db, gid))
      && (IsFollowing(db.follows, viewer, p.author) ==>
            FollowPostList(db', viewer) == [p] + FollowPostList(db, viewer))
      && (!IsFollowing(db.follows, viewer, p.author) ==>
            FollowPostList(db', viewer) == FollowPostList(db, viewer))
  {
    ReverseSnoc(db.posts, p);
    FilterSnoc(db.posts, p, ByAuthor(p.author));
    ReverseSnoc(Filter(db.posts, ByAuthor(p.author)), p);
    FilterSnoc(db.posts, p, ByAuthor(uid));
    FilterSnoc(db.posts, p, InGroup(gid));
    ReverseSnoc(Filter(db.posts, InGroup(gid)), p);
    FilterSnoc(db.posts, p, ByFollowedAuthor(db.follows, viewer));
    ReverseSnoc(Filter(db.posts, ByFollowedAuthor(db.follows, viewer)), p);
  }

  /** After following `author`, every post of theirs is in the follower's feed. */
  lemma FollowShowsAuthorsPosts(db: Db, id: FollowId, viewer: UserId, author: UserId)
    requires viewer != author
    ensures forall p :: p in db.posts && p.author == author ==>
      p in FollowPostList(db.(follows := AddFollow(db.follows, id, viewer, author)), viewer)
  {
    var f := AddFollow(db.follows, id, viewer, author);
    FollowEdges(db.follows, id, viewer, author);
    FollowingIsEdge(f, viewer, author);
  }

  /** From a state where the viewer follows nobody, following an author and
      then unfollowing them leaves the following feed empty. */
  lemma FollowThenUnfollowEmptiesFeed(db: Db, id: FollowId, viewer: UserId, author: UserId)
    requires NoSelfFollow(db.follows)
    requires FollowedAuthors(db.follows, viewer) == {}
    ensures var f := RemoveFollow(AddFollow(db.follows, id, viewer, author), viewer, author);
      FollowPostList(db.(follows := f), viewer) == []
  {
    var f1 := AddFollow(db.follows, id, viewer, author);
    var f2 := RemoveFollow(f1, viewer, author);
    assert NoSelfFollow(f1);
    FollowEdges(db.follows, id, viewer, author);
    UnfollowEdges(f1, viewer, author);
    forall a ensures a !in FollowedAuthors(f2, viewer) {
      FollowingIsEdge(f2, viewer, a);
      FollowingIsEdge(db.follows, viewer, a);
    }
    assert FollowedAuthors(f2, viewer) == {};
    FollowFeedEmptyWithoutFollows(db.(follows := f2), viewer);
  }

  /** A comment created last comes first among its post's comments; other
      posts' comment lists do not change. */
  lemma {:induction false} NewCommentFirst(db: Db, c: Comment, pid: PostId)
    ensures var db' := db.(comments := db.comments + [c]);
      && PostComments(db', c.post) == [c] + PostComments(db, c.post)
      && (pid != c.post ==> PostComments(db', pid) == PostComments(db, pid))
  {
    FilterSnoc(db.comments, c, OnPost(c.post));
    ReverseSnoc(Filter(db.comments, OnPost(c.post)), c);
    FilterSnoc(db.comments, c, OnPost(pid));
  }
}
