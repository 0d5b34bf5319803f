/** The records of the blog (users, groups, posts, comments, follow edges),
    their string forms, their ordering keys, the invariants the database
    schema declares, and the `on_delete` rules applied when a row is removed. */
module Models {
  import opened Seqs

  datatype Option<T> = None | Some(value: T)

  type UserId = nat
  type GroupId = nat
  type PostId = nat
  type CommentId = nat
  type FollowId = nat
  /** A server-assigned creation time (`auto_now_add`); the clock itself is an input. */
  type Timestamp = int

  /** A user is owned by the authentication layer; the core only reads it. */
  datatype User = User(id: UserId, username: string)

  datatype Group = Group(id: GroupId, title: string, slug: string, description: string)

  /** An uploaded picture, kept opaque: only its stored name is visible. */
  datatype Image = Image(name: string)

  /** A post has exactly one author and at most one group. */
  datatype Post = Post(
    id: PostId,
    text: string,
    pubDate: Timestamp,
    author: UserId,
    group: Option<GroupId>,
    image: Option<Image>)

  /** A comment has exactly one parent post and one author. */
  datatype Comment = Comment(
    id: CommentId,
    post: PostId,
    author: UserId,
    text: string,
    created: Timestamp)

  /** A directed edge: `user` follows `author`. */
  datatype Follow = Follow(id: FollowId, user: UserId, author: UserId)

  // Primary keys, the ordering key of posts, comments and follows (`-pk`).
  function PostKey(p: Post): int { p.id }
  function CommentKey(c: Comment): int { c.id }
  function FollowKey(f: Follow): int { f.id }

  // ---------------------------------------------------------------------
  // String forms

  const PostStrLength: nat := 15

  /** `str(post)`: the first fifteen characters of the text. */
  function PostStr(p: Post): (s: string)
    ensures s <= p.text
    ensures |s| == if |p.text| < PostStrLength then |p.text| else PostStrLength
  {
    if |p.text| <= PostStrLength then p.text else p.text[..PostStrLength]
  }

  /** `str(group)`: the title. */
  function GroupStr(g: Group): (s: string)
    ensures s == g.title
  {
    g.title
  }

  // ---------------------------------------------------------------------
  // Group ordering: by title, descending

  /** Lexicographic order on titles, character by character. */
  predicate TitleLeq(a: string, b: string)
    decreases |a|
  {
    a == [] || (b != [] && (a[0] < b[0] || (a[0] == b[0] && TitleLeq(a[1..], b[1..]))))
  }

  lemma {:induction false} TitleLeqTotal(a: string, b: string)
    ensures TitleLeq(a, b) || TitleLeq(b, a)
    decreases |a|
  {
    if a != [] && b != [] && a[0] == b[0] {
      TitleLeqTotal(a[1..], b[1..]);
    }
  }

  /** Each group's title is at least the title of the group after it. */
  ghost predicate TitlesDescending(gs: seq<Group>) {
    forall i :: 0 <= i < |gs| - 1 ==> TitleLeq(gs[i + 1].title, gs[i].title)
  }

  function InsertByTitle(g: Group, gs: seq<Group>): (r: seq<Group>)
    requires TitlesDescending(gs)
    ensures TitlesDescending(r)
    ensures multiset(r) == multiset(gs) + multiset{g}
    ensures r[0] == g || (gs != [] && r[0] == gs[0])
  {
    if gs == [] || TitleLeq(gs[0].title, g.title) then [g] + gs
    else
      TitleLeqTotal(gs[0].title, g.title);
      var rest := InsertByTitle(g, gs[1..]);
      assert gs == [gs[0]] + gs[1..];
      [gs[0]] + rest
  }

  /** The listing order of `Group.objects.all()` (`ordering = ('-title',)`). */
  function OrderGroups(gs: seq<Group>): (r: seq<Group>)
    ensures TitlesDescending(r)
    ensures multiset(r) == multiset(gs)
  {
    if gs == [] then []
    else
      assert gs == [gs[0]] + gs[1..];
      InsertByTitle(gs[0], OrderGroups(gs[1..]))
  }

  // ---------------------------------------------------------------------
  // The database and its integrity constraints

  datatype Db = Db(
    users: seq<User>,
    groups: seq<Group>,
    posts: seq<Post>,
    comments: seq<Comment>,
    follows: seq<Follow>)

  function UserIds(us: seq<User>): set<UserId> { set u | u in us :: u.id }
  function GroupIds(gs: seq<Group>): set<GroupId> { set g | g in gs :: g.id }
  function PostIds(ps: seq<Post>): set<PostId> { set p | p in ps :: p.id }

  /** Distinct users have distinct ids and usernames. */
  ghost predicate UniqueUsers(us: seq<User>) {
    forall a, b :: a in us && b in us && (a.id == b.id || a.username == b.username) ==> a == b
  }

  /** Distinct groups have distinct ids and slugs (`slug` is `unique=True`). */
  ghost predicate UniqueGroups(gs: seq<Group>) {
    forall a, b :: a in gs && b in gs && (a.id == b.id || a.slug == b.slug) ==> a == b
  }

  /** The `UniqueConstraint` on `(user, author)`: at most one follow row per pair. */
  ghost predicate UniqueFollowPairs(fs: seq<Follow>) {
    forall a, b :: a in fs && b in fs && a.user == b.user && a.author == b.author ==> a == b
  }

  /** Every post names an existing author, and an existing group when it has one. */
  ghost predicate PostRefsOk(db: Db) {
    forall p :: p in db.posts ==>
      p.author in UserIds(db.users) && (p.group.Some? ==> p.group.value in GroupIds(db.groups))
  }

  /** Every comment names an existing post and an existing author. */
  ghost predicate CommentRefsOk(db: Db) {
    forall c :: c in db.comments ==> c.post in PostIds(db.posts) && c.author in UserIds(db.users)
  }

  /** Both ends of every follow edge are existing users. */
  ghost predicate FollowRefsOk(db: Db) {
    forall f :: f in db.follows ==> f.user in UserIds(db.users) && f.author in UserIds(db.users)
  }

  /** The schema's invariants. Rows are kept in creation order, so primary
      keys strictly increase along each table. */
  ghost predicate Valid(db: Db) {
    && UniqueUsers(db.users)
    && UniqueGroups(db.groups)
    && Ascending(db.posts, PostKey)
    && Ascending(db.comments, CommentKey)
    && Ascending(db.follows, FollowKey)
    && PostRefsOk(db)
    && CommentRefsOk(db)
    && FollowRefsOk(db)
    && UniqueFollowPairs(db.follows)
  }

  // ---------------------------------------------------------------------
  // Delete rules

  /** Posts of a deleted group lose their group (`on_delete=SET_NULL`). */
  function ClearGroup(posts: seq<Post>, gid: GroupId): seq<Post> {
    seq(|posts|, i requires 0 <= i < |posts| =>
      if posts[i].group == Some(gid) then posts[i].(group := None) else posts[i])
  }

  /** Deleting a group keeps every post and clears the group of those in it. */
  function DeleteGroup(db: Db, gid: GroupId): (r: Db)
    ensures forall g :: g in r.groups <==> g in db.groups && g.id != gid
    ensures |r.posts| == |db.posts|
    ensures forall i :: 0 <= i < |db.posts| ==>
      r.posts[i].group == (if db.posts[i].group == Some(gid) then None else db.posts[i].group) &&
      r.posts[i] == db.posts[i].(group := r.posts[i].group)
    ensures r.users == db.users && r.comments == db.comments && r.follows == db.follows
  {
    db.(groups := Filter(db.groups, OtherGroup(gid)), posts := ClearGroup(db.posts, gid))
  }

  /** Deleting a post deletes its comments (`on_delete=CASCADE`). */
  function DeletePost(db: Db, pid: PostId): (r: Db)
    ensures forall p :: p in r.posts <==> p in db.posts && p.id != pid
    ensures forall c :: c in r.comments <==> c in db.comments && c.post != pid
    ensures r.users == db.users && r.groups == db.groups && r.follows == db.follows
  {
    db.(posts := Filter(db.posts, OtherPost(pid)), comments := Filter(db.comments, NotOnPost(pid)))
  }

  /** Deleting a user deletes the user's posts (and the comments on them),
      the user's comments and every follow edge with the user at either end. */
  function DeleteUser(db: Db, uid: UserId): (r: Db)
    ensures forall u :: u in r.users <==> u in db.users && u.id != uid
    ensures forall p :: p in r.posts <==> p in db.posts && p.author != uid
    ensures forall c :: c in r.comments <==>
      c in db.comments && c.author != uid && c.post !in PostIdsBy(db.posts, uid)
    ensures forall f :: f in r.follows <==> f in db.follows && f.user != uid && f.author != uid
    ensures r.groups == db.groups
  {
    Db(Filter(db.users, OtherUser(uid)),
       db.groups,
       Filter(db.posts, NotByUser(uid)),
       Filter(db.comments, SurvivingComment(uid, PostIdsBy(db.posts, uid))),
       Filter(db.follows, NotTouchingUser(uid)))
  }

  // Row conditions of the delete rules, named so that the rules and their
  // lemmas speak about the same condition.
  function OtherGroup(gid: GroupId): Group -> bool { (g: Group) => g.id != gid }
  function OtherPost(pid: PostId): Post -> bool { (p: Post) => p.id != pid }
  function NotOnPost(pid: PostId): Comment -> bool { (c: Comment) => c.post != pid }
  function OtherUser(uid: UserId): User -> bool { (u: User) => u.id != uid }
  function NotByUser(uid: UserId): Post -> bool { (p: Post) => p.author != uid }
  function SurvivingComment(uid: UserId, removed: set<PostId>): Comment -> bool {
    (c: Comment) => c.author != uid && c.post !in removed
  }

  /** The ids of the posts `uid` wrote. */
  function PostIdsBy(posts: seq<Post>, uid: UserId): set<PostId> {
    set p | p in posts && p.author == uid :: p.id
  }
  function NotTouchingUser(uid: UserId): Follow -> bool {
    (f: Follow) => f.user != uid && f.author != uid
  }

  lemma DeleteGroupKeepsValid(db: Db, gid: GroupId)
    requires Valid(db)
    ensures Valid(DeleteGroup(db, gid))
  {
    var r := DeleteGroup(db, gid);
    assert PostIds(r.posts) == PostIds(db.posts) by {
      forall id | id in PostIds(db.posts) ensures id in PostIds(r.posts) {
        var p :| p in db.posts && p.id == id;
        var i :| 0 <= i < |db.posts| && db.posts[i] == p;
        assert r.posts[i] in r.posts;
      }
      forall id | id in PostIds(r.posts) ensures id in PostIds(db.posts) {
        var p :| p in r.posts && p.id == id;
        var i :| 0 <= i < |r.posts| && r.posts[i] == p;
        assert db.posts[i] in db.posts;
      }
    }
    forall i, j | 0 <= i < j < |r.posts| ensures PostKey(r.posts[i]) < PostKey(r.posts[j]) {
      assert PostKey(db.posts[i]) < PostKey(db.posts[j]);
    }
    forall p | p in r.posts
      ensures p.author in UserIds(r.users) && (p.group.Some? ==> p.group.value in GroupIds(r.groups))
    {
      var i :| 0 <= i < |r.posts| && r.posts[i] == p;
      var q := db.posts[i];
      assert q in db.posts;
      if p.group.Some? {
        var g :| g in db.groups && g.id == p.group.value;
        assert g in r.groups;
      }
    }
  }

  lemma DeletePostKeepsValid(db: Db, pid: PostId)
    requires Valid(db)
    ensures Valid(DeletePost(db, pid))
  {
    var r := DeletePost(db, pid);
    FilterAscending(db.posts, OtherPost(pid), PostKey);
    FilterAscending(db.comments, NotOnPost(pid), CommentKey);
    forall c | c in r.comments ensures c.post in PostIds(r.posts) {
      var p :| p in db.posts && p.id == c.post;
      assert p in r.posts;
    }
  }

  /** In a valid database a comment survives exactly when its author does and
      its post does, and every constraint still holds. */
  lemma DeleteUserKeepsValid(db: Db, uid: UserId)
    requires Valid(db)
    ensures Valid(DeleteUser(db, uid))
    ensures forall c :: c in DeleteUser(db, uid).comments <==>
      c in db.comments && c.author != uid && c.post in PostIds(DeleteUser(db, uid).posts)
  {
    var r := DeleteUser(db, uid);
    FilterAscending(db.posts, NotByUser(uid), PostKey);
    FilterAscending(db.comments, SurvivingComment(uid, PostIdsBy(db.posts, uid)), CommentKey);
    forall c | c in db.comments && c.author != uid
      ensures c.post !in PostIdsBy(db.posts, uid) <==> c.post in PostIds(r.posts)
    {
      var p :| p in db.posts && p.id == c.post;
      if c.post in PostIdsBy(db.posts, uid) {
        var q :| q in db.posts && q.author == uid && q.id == c.post;
        forall p' | p' in r.posts ensures p'.id != c.post {
          var i :| 0 <= i < |db.posts| && db.posts[i] == q;
          var j :| 0 <= j < |db.posts| && db.posts[j] == p';
          assert i != j;
        }
      } else {
        assert p in r.posts;
      }
    }
    FilterAscending(db.follows, NotTouchingUser(uid), FollowKey);
    forall p | p in r.posts ensures p.author in UserIds(r.users) {
      var u :| u in db.users && u.id == p.author;
      assert u in r.users;
    }
    forall c | c in r.comments ensures c.author in UserIds(r.users) {
      var u :| u in db.users && u.id == c.author;
      assert u in r.users;
    }
    forall f | f in r.follows ensures f.user in UserIds(r.users) && f.author in UserIds(r.users) {
      var u :| u in db.users && u.id == f.user;
      var v :| v in db.users && v.id == f.author;
      assert u in r.users && v in r.users;
    }
  }
  /** `Post.objects.all().delete()`: every post goes, and by `on_delete=CASCADE`
      every comment on one of them. */
  function DeleteAllPosts(db: Db): (r: Db)
    ensures r.posts == []
    ensures forall c :: c in r.comments <==> c in db.comments && c.post !in PostIds(db.posts)
    ensures r.users == db.users && r.groups == db.groups && r.follows == db.follows
  {
    db.(posts := [], comments := Filter(db.comments, NotOnAnyPost(PostIds(db.posts))))
  }

  function NotOnAnyPost(pids: set<PostId>): Comment -> bool { (c: Comment) => c.post !in pids }

  /** In a valid database every comment is on a stored post, so the cascade
      leaves no comment, and the emptied database is valid. */
  lemma DeleteAllPostsLeavesNoComment(db: Db)
    requires Valid(db)
    ensures DeleteAllPosts(db).comments == []
    ensures Valid(DeleteAllPosts(db))
  {
    FilterNone(db.comments, NotOnAnyPost(PostIds(db.posts)));
  }

  // ---------------------------------------------------------------------
  // Inserting and updating rows

  /** A new post with a fresh, larger id, an existing author and an existing
      group (if any) keeps the invariants. */
  lemma AppendPostKeepsValid(db: Db, p: Post)
    requires Valid(db)
    requires forall q :: q in db.posts ==> q.id < p.id
    requires p.author in UserIds(db.users)
    requires p.group.Some? ==> p.group.value in GroupIds(db.groups)
    ensures Valid(db.(posts := db.posts + [p]))
  {
    var r := db.(posts := db.posts + [p]);
    forall i, j | 0 <= i < j < |r.posts| ensures PostKey(r.posts[i]) < PostKey(r.posts[j]) {
      assert r.posts[i] == db.posts[i] && db.posts[i] in db.posts;
      if j < |db.posts| {
        assert r.posts[j] == db.posts[j];
      }
    }
    forall c | c in r.comments ensures c.post in PostIds(r.posts) {
      var q :| q in db.posts && q.id == c.post;
      assert q in r.posts;
    }
  }

  /** Rewriting a post in place with the same id and author and an existing
      group (if any) keeps the invariants. */
  lemma ReplacePostKeepsValid(db: Db, i: nat, q: Post)
    requires Valid(db)
    requires i < |db.posts|
    requires q.id == db.posts[i].id && q.author == db.posts[i].author
    requires q.group.Some? ==> q.group.value in GroupIds(db.groups)
    ensures Valid(db.(posts := db.posts[i := q]))
  {
    var r := db.(posts := db.posts[i := q]);
    assert db.posts[i] in db.posts;
    assert PostIds(r.posts) == PostIds(db.posts) by {
      forall id | id in PostIds(db.posts) ensures id in PostIds(r.posts) {
        var p :| p in db.posts && p.id == id;
        var k :| 0 <= k < |db.posts| && db.posts[k] == p;
        assert r.posts[k] in r.posts;
      }
      forall id | id in PostIds(r.posts) ensures id in PostIds(db.posts) {
        var p :| p in r.posts && p.id == id;
        var k :| 0 <= k < |r.posts| && r.posts[k] == p;
        assert db.posts[k] in db.posts;
      }
    }
    forall a, b | 0 <= a < b < |r.posts| ensures PostKey(r.posts[a]) < PostKey(r.posts[b]) {
      assert PostKey(db.posts[a]) < PostKey(db.posts[b]);
    }
    forall p | p in r.posts
      ensures p.author in UserIds(r.users) && (p.group.Some? ==> p.group.value in GroupIds(r.groups))
    {
      var k :| 0 <= k < |r.posts| && r.posts[k] == p;
      assert db.posts[k] in db.posts;
    }
  }

  /** A new comment with a fresh, larger id on an existing post by an existing
      user keeps the invariants. */
  lemma AppendCommentKeepsValid(db: Db, c: Comment)
    requires Valid(db)
    requires forall d :: d in db.comments ==> d.id < c.id
    requires c.post in PostIds(db.posts) && c.author in UserIds(db.users)
    ensures Valid(db.(comments := db.comments + [c]))
  {
    var r := db.(comments := db.comments + [c]);
    forall i, j | 0 <= i < j < |r.comments| ensures CommentKey(r.comments[i]) < CommentKey(r.comments[j]) {
      assert r.comments[i] == db.comments[i] && db.comments[i] in db.comments;
      if j < |db.comments| {
        assert r.comments[j] == db.comments[j];
      }
    }
  }
}
