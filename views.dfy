/** The views that change the store: `profile_follow`, `profile_unfollow`,
    `post_create`, `post_edit` and `add_comment`. Each one is a method of
    `Store`, the in-memory stand-in for the database tables. */
module Views {
  import opened Seqs
  import opened Models
  import opened Follows
  import opened Feeds

  /** What a view answers. */
  datatype Response =
    | RedirectToLogin                  // `login_required` turns the request away
    | NotFoundPage                     // `get_object_or_404` found nothing
    | RedirectToFollowIndex
    | RedirectToProfile(username: string)
    | RedirectToPostDetail(postId: PostId)
    | FormPage                         // the form is shown (unbound, or with its errors)
    | NoResponse                       // the view function returned nothing

  /** The cleaned fields of a `PostForm`. */
  datatype PostFields = PostFields(text: string, group: Option<GroupId>, image: Option<Image>)

  /** The verdict of the form layer on the submitted data; validation itself
      is outside this model. A request without data gives `Rejected`. */
  datatype FormInput<T> = Cleaned(fields: T) | Rejected

  /** The form layer only accepts a group that exists (a model choice field). */
  predicate GroupChoiceOk(groups: seq<Group>, form: FormInput<PostFields>) {
    form.Cleaned? && form.fields.group.Some? ==> form.fields.group.value in GroupIds(groups)
  }

  /** `form.save()` on an existing post: the cleaned fields replace text,
      group and image; id, publication date and author stay. */
  function Edited(p: Post, f: PostFields): (q: Post)
    ensures q.id == p.id && q.pubDate == p.pubDate && q.author == p.author
    ensures q.text == f.text && q.group == f.group && q.image == f.image
  {
    p.(text := f.text, group := f.group, image := f.image)
  }

  /** The answer of `add_comment` as written: the view has no return statement
      for a form that does not validate. */
  function AddCommentResponseAsWritten(viewer: Viewer, postFound: bool, form: FormInput<string>, pid: PostId): Response {
    if viewer.Anonymous? then RedirectToLogin
    else if !postFound then NotFoundPage
    else if form.Cleaned? then RedirectToPostDetail(pid)
    else NoResponse
  }

  /** A signed-in user posting an empty comment form to an existing post gets no response. */
  lemma AddCommentAsWrittenAnswersNothing(u: User, pid: PostId)
    ensures AddCommentResponseAsWritten(Authenticated(u), true, Rejected, pid) == NoResponse
  {
  }

  /** The answer of `add_comment` as intended: back to the post in every case
      that reaches the form. */
  function AddCommentResponse(viewer: Viewer, postFound: bool, form: FormInput<string>, pid: PostId): (r: Response)
    ensures r != NoResponse
    ensures viewer.Anonymous? <==> r == RedirectToLogin
    ensures viewer.Authenticated? && !postFound <==> r == NotFoundPage
    ensures viewer.Authenticated? && postFound ==> r == RedirectToPostDetail(pid)
    ensures form.Cleaned? ==> r == AddCommentResponseAsWritten(viewer, postFound, form, pid)
  {
    if viewer.Anonymous? then RedirectToLogin
    else if !postFound then NotFoundPage
    else RedirectToPostDetail(pid)
  }

  class Store {
    var users: seq<User>
    var groups: seq<Group>
    var posts: seq<Post>
    var comments: seq<Comment>
    var follows: seq<Follow>
    var nextPostId: PostId
    var nextCommentId: CommentId
    var nextFollowId: FollowId

    /** The tables as one value. */
    function State(): Db
      reads this
    {
      Db(users, groups, posts, comments, follows)
    }

    /** The schema's invariants, no self-follow, and id counters above every id in use. */
    ghost predicate Valid()
      reads this
    {
      && Models.Valid(State())
      && NoSelfFollow(follows)
      && (forall p :: p in posts ==> p.id < nextPostId)
      && (forall c :: c in comments ==> c.id < nextCommentId)
      && (forall f :: f in follows ==> f.id < nextFollowId)
    }

    /** A signed-in viewer is a stored user. */
    ghost predicate Knows(viewer: Viewer)
      reads this
    {
      viewer.Authenticated? ==> viewer.user in users
    }

    /** A store with the given users and groups and no posts, comments or follows. */
    constructor (initialUsers: seq<User>, initialGroups: seq<Group>)
      requires UniqueUsers(initialUsers) && UniqueGroups(initialGroups)
      ensures Valid()
      ensures users == initialUsers && groups == initialGroups
      ensures posts == [] && comments == [] && follows == []
    {
      users, groups := initialUsers, initialGroups;
      posts, comments, follows := [], [], [];
      nextPostId, nextCommentId, nextFollowId := 1, 1, 1;
    }

    /** `profile_follow`: adds the edge (viewer, author) unless it is a
        self-follow or already present, then redirects to the following feed. */
    method ProfileFollow(viewer: Viewer, username: string) returns (r: Response)
      requires Valid() && Knows(viewer)
      modifies this
      ensures Valid()
      ensures users == old(users) && groups == old(groups)
      ensures posts == old(posts) && comments == old(comments)
      ensures nextPostId == old(nextPostId) && nextCommentId == old(nextCommentId)
      ensures nextFollowId == if follows == old(follows) then old(nextFollowId) else old(nextFollowId) + 1
      ensures viewer.Anonymous? ==> r == RedirectToLogin && follows == old(follows)
      ensures viewer.Authenticated? && FindUser(users, username).None? ==>
        r == NotFoundPage && follows == old(follows)
      ensures viewer.Authenticated? && FindUser(users, username).Some? ==>
        && r == RedirectToFollowIndex
        && follows == AddFollow(old(follows), old(nextFollowId), viewer.user.id, FindUser(users, username).value.id)
    {
      if viewer.Anonymous? {
        return RedirectToLogin;
      }
      var found := FindUser(users, username);
      if found.None? {
        return NotFoundPage;
      }
      var user, author := viewer.user, found.value;
      var followExists := IsFollowing(follows, user.id, author.id);
      if user.id != author.id && !followExists {
        FollowKeepsInvariant(follows, nextFollowId, user.id, author.id);
        follows := follows + [Follow(nextFollowId, user.id, author.id)];
        nextFollowId := nextFollowId + 1;
      }
      r := RedirectToFollowIndex;
    }

    /** `profile_unfollow`: deletes the edge (viewer, author) if present, then
        redirects to the following feed. */
    method ProfileUnfollow(viewer: Viewer, username: string) returns (r: Response)
      requires Valid() && Knows(viewer)
      modifies this
      ensures Valid()
      ensures users == old(users) && groups == old(groups)
      ensures posts == old(posts) && comments == old(comments)
      ensures nextPostId == old(nextPostId) && nextCommentId == old(nextCommentId)
      ensures nextFollowId == old(nextFollowId)
      ensures viewer.Anonymous? ==> r == RedirectToLogin && follows == old(follows)
      ensures viewer.Authenticated? && FindUser(users, username).None? ==>
        r == NotFoundPage && follows == old(follows)
      ensures viewer.Authenticated? && FindUser(users, username).Some? ==>
        && r == RedirectToFollowIndex
        && follows == RemoveFollow(old(follows), viewer.user.id, FindUser(users, username).value.id)
    {
      if viewer.Anonymous? {
        return RedirectToLogin;
      }
      var found := FindUser(users, username);
      if found.None? {
        return NotFoundPage;
      }
      var user, author := viewer.user, found.value;
      var followExists := IsFollowing(follows, user.id, author.id);
      if user.id != author.id && followExists {
        UnfollowKeepsInvariant(follows, user.id, author.id);
        follows := Filter(follows, NotPair(user.id, author.id));
      }
      r := RedirectToFollowIndex;
    }

    /** `post_create`: a valid form adds exactly one post, authored by the
        viewer whatever the form says, and redirects to the viewer's profile. */
    method PostCreate(viewer: Viewer, form: FormInput<PostFields>, now: Timestamp) returns (r: Response)
      requires Valid() && Knows(viewer) && GroupChoiceOk(groups, form)
      modifies this
      ensures Valid()
      ensures users == old(users) && groups == old(groups)
      ensures comments == old(comments) && follows == old(follows)
      ensures nextCommentId == old(nextCommentId) && nextFollowId == old(nextFollowId)
      ensures nextPostId == old(nextPostId) + |posts| - |old(posts)|
      ensures viewer.Anonymous? ==> r == RedirectToLogin && posts == old(posts)
      ensures viewer.Authenticated? && form.Rejected? ==> r == FormPage && posts == old(posts)
      ensures viewer.Authenticated? && form.Cleaned? ==>
        && r == RedirectToProfile(viewer.user.username)
        && posts == old(posts) + [Post(old(nextPostId), form.fields.text, now, viewer.user.id,
                                       form.fields.group, form.fields.image)]
    {
      if viewer.Anonymous? {
        return RedirectToLogin;
      }
      if form.Rejected? {
        return FormPage;
      }
      var post := Post(nextPostId, form.fields.text, now, viewer.user.id, form.fields.group, form.fields.image);
      AppendPostKeepsValid(State(), post);
      posts := posts + [post];
      nextPostId := nextPostId + 1;
      r := RedirectToProfile(viewer.user.username);
    }

    /** `post_edit`: only the author may edit. Anyone else is sent to the
        post's page and nothing changes; the author's valid form replaces the
        post's text, group and image in place. */
    method PostEdit(viewer: Viewer, postId: PostId, form: FormInput<PostFields>) returns (r: Response)
      requires Valid() && Knows(viewer) && GroupChoiceOk(groups, form)
      modifies this
      ensures Valid()
      ensures users == old(users) && groups == old(groups)
      ensures comments == old(comments) && follows == old(follows)
      ensures nextPostId == old(nextPostId) && nextCommentId == old(nextCommentId)
      ensures nextFollowId == old(nextFollowId)
      ensures viewer.Anonymous? ==> r == RedirectToLogin && posts == old(posts)
      ensures viewer.Authenticated? && PostIndex(old(posts), postId).None? ==>
        r == NotFoundPage && posts == old(posts)
      ensures viewer.Authenticated? && PostIndex(old(posts), postId).Some? ==>
        var i := PostIndex(old(posts), postId).value;
        && (old(posts)[i].author != viewer.user.id ==>
              r == RedirectToPostDetail(postId) && posts == old(posts))
        && (old(posts)[i].author == viewer.user.id && form.Rejected? ==>
              r == FormPage && posts == old(posts))
        && (old(posts)[i].author == viewer.user.id && form.Cleaned? ==>
              r == RedirectToPostDetail(postId) && posts == old(posts)[i := Edited(old(posts)[i], form.fields)])
    {
      if viewer.Anonymous? {
        return RedirectToLogin;
      }
      var found := PostIndex(posts, postId);
      if found.None? {
        return NotFoundPage;
      }
      var i := found.value;
      if posts[i].author != viewer.user.id {
        return RedirectToPostDetail(postId);
      }
      if form.Rejected? {
        return FormPage;
      }
      var post := Edited(posts[i], form.fields);
      ReplacePostKeepsValid(State(), i, post);
      posts := posts[i := post];
      r := RedirectToPostDetail(postId);
    }

    /** `add_comment`: a valid form adds exactly one comment, by the viewer,
        on the target post. */
    method AddComment(viewer: Viewer, postId: PostId, form: FormInput<string>, now: Timestamp) returns (r: Response)
      requires Valid() && Knows(viewer)
      modifies this
      ensures Valid()
      ensures users == old(users) && groups == old(groups)
      ensures posts == old(posts) && follows == old(follows)
      ensures nextPostId == old(nextPostId) && nextFollowId == old(nextFollowId)
      ensures nextCommentId == old(nextCommentId) + |comments| - |old(comments)|
      ensures r == AddCommentResponse(viewer, postId in PostIds(posts), form, postId)
      ensures viewer.Authenticated? && postId in PostIds(posts) && form.Cleaned? ==>
        comments == old(comments) + [Comment(old(nextCommentId), postId, viewer.user.id, form.fields, now)]
      ensures !(viewer.Authenticated? && postId in PostIds(posts) && form.Cleaned?) ==>
        comments == old(comments)
    {
      if viewer.Anonymous? {
        return RedirectToLogin;
      }
      var found := FindPost(posts, postId);
      if found.None? {
        return NotFoundPage;
      }
      if form.Cleaned? {
        var comment := Comment(nextCommentId, postId, viewer.user.id, form.fields, now);
        AppendCommentKeepsValid(State(), comment);
        comments := comments + [comment];
        nextCommentId := nextCommentId + 1;
      }
      r := AddCommentResponse(viewer, true, form, postId);
    }
  }
}
