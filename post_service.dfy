/**
 * The post service: creating, reading, editing and deleting posts, choosing who may see a
 * private post, commenting, and liking. A post is what `GetPostByID` finds in `posts` or,
 * read as public, in `group_posts`; visibility is the repository's `CanViewPost`, with the
 * followers table passed in as `links`. Uploaded files, the user data attached to
 * results and the notifications sent are not modelled; the audience a new post is announced
 * to is (`PostAudience`).
 */
module PostService {
  import opened Wrappers
  import opened UserStats
  import opened Text
  import FollowRepository
  import GroupRepository
  import opened PostRepository

  type Links = seq<FollowRepository.Link>

  /** Who hears of a new post: everyone, the listed users, or nobody. */
  datatype Audience = Everyone | Only(users: seq<string>) | Nobody

  /**
   * `NotifyPostCreated`: public posts go to everyone, private ones to their viewers,
   * almost-private ones to the author's followers. Everyone listed may open the post, and
   * every other user who may open it is listed.
   */
  function PostAudience(p: Post, viewers: seq<Viewer>, links: Links): (a: Audience)
    ensures a == Everyone <==> p.privacy == Public
    ensures a == Nobody <==> !ValidPrivacy(p.privacy)
    ensures a.Only? ==> forall x :: x in a.users ==> FeedVisible(p, viewers, links, x)
    ensures a.Only? ==> forall x :: x != p.userId && FeedVisible(p, viewers, links, x) ==> x in a.users
  {
    if p.privacy == Public then Everyone
    else if p.privacy == Private then Only(ViewerIds(viewers, p.id))
    else if p.privacy == AlmostPrivate then Only(FollowerIds(links, p.userId))
    else Nobody
  }

  /** `CreatePost`: a post with a valid privacy, and the author's `posts_count` set to the number of its posts. */
  method CreatePost(store: PostStore, u: string, content: string, privacy: string) returns (r: Result<Post>)
    requires store.Valid()
    modifies store
    ensures store.Valid()
    ensures r.Ok? <==> ValidPrivacy(privacy)
    ensures r.Err? ==> r == Err("invalid privacy setting") && store.posts == old(store.posts) && store.stats == old(store.stats)
    ensures r.Ok? ==> (store.posts == old(store.posts) + [r.value]
      && r.value == Post(r.value.id, u, content, privacy, 0, 0)
      && FindPost(old(store.posts), r.value.id).None? && FindPost(store.groupPosts, r.value.id).None?)
    ensures r.Ok? ==> Get(store.stats, u, PostsColumn) == PostsOf(store.posts, u)
    ensures store.viewers == old(store.viewers) && store.likes == old(store.likes) && store.comments == old(store.comments)
  {
    if !ValidPrivacy(privacy) {
      return Err("invalid privacy setting");
    }
    var p := store.CreatePost(u, content, privacy);
    var count := store.UpdateUserStats(u, PostsColumn, true);
    return Ok(p);
  }

  /** `GetPost`: the post `GetPostByID` finds, when the user may view it. */
  function GetPost(posts: seq<Post>, groupPosts: seq<Post>, viewers: seq<Viewer>, links: Links, id: int, u: string): (r: Result<Post>)
    ensures var found := GetPostById(posts, groupPosts, id);
      r.Ok? <==> found.Some? && FeedVisible(found.value, viewers, links, u)
    ensures r.Ok? ==> r.value == GetPostById(posts, groupPosts, id).value
    ensures GetPostById(posts, groupPosts, id).None? ==> r == Err("post not found")
    ensures var found := GetPostById(posts, groupPosts, id);
      found.Some? && ValidPrivacy(found.value.privacy) && r.Err? ==> r == Err("you don't have permission to view this post")
  {
    match CanViewPost(posts, groupPosts, viewers, links, id, u)
    case Err(e) => Err(e)
    case Ok(canView) =>
      if !canView then Err("you don't have permission to view this post")
      else Ok(GetPostById(posts, groupPosts, id).value)
  }

  /** The posts of `owner` that `viewer` may see, newest first. */
  function UserPostsView(rows: seq<Post>, viewers: seq<Viewer>, links: Links, owner: string, viewer: string): (r: seq<Post>)
    ensures forall p :: p in r <==> p in rows && p.userId == owner && FeedVisible(p, viewers, links, viewer)
  {
    if rows == [] then []
    else
      var init := rows[..|rows| - 1];
      var last := rows[|rows| - 1];
      assert forall p :: p in rows <==> p in init || p == last;
      (if last.userId == owner && FeedVisible(last, viewers, links, viewer) then [last] else [])
        + UserPostsView(init, viewers, links, owner, viewer)
  }

  /** `GetUserPosts`: the owner's posts, newest first, each kept when `CanViewPost` allows it. */
  method GetUserPosts(store: PostStore, links: Links, owner: string, viewer: string) returns (r: seq<Post>)
    requires UniqueIds(store.posts)
    ensures r == UserPostsView(store.posts, store.viewers, links, owner, viewer)
  {
    var posts := store.posts;
    r := [];
    var i := 0;
    while i < |posts|
      invariant 0 <= i <= |posts|
      invariant r == UserPostsView(posts[..i], store.viewers, links, owner, viewer)
    {
      var p := posts[i];
      FindUnique(posts, i);
      if p.userId == owner && CanViewPost(posts, store.groupPosts, store.viewers, links, p.id, viewer) == Ok(true) {
        r := [p] + r;
      }
      assert posts[..i + 1][..i] == posts[..i];
      i := i + 1;
    }
    assert posts[..i] == posts;
  }

  /** The default page size of `GetPublicPosts` and `GetFeedPosts`. */
  const DefaultPageSize := 10

  /** `GetPublicPosts`: public posts newest first, a non-positive limit read as 10 and a negative offset as 0. */
  function GetPublicPosts(posts: seq<Post>, limit: int, offset: int): (r: seq<Post>)
    ensures |r| <= if limit <= 0 then DefaultPageSize else limit
    ensures forall p :: p in r ==> p in posts && p.privacy == Public
    ensures var rows := PublicRows(posts);
      var size := if limit <= 0 then DefaultPageSize else limit;
      var from := if offset < 0 then 0 else offset;
      |r| == (if from >= |rows| then 0 else if from + size <= |rows| then size else |rows| - from)
      && forall i :: 0 <= i < |r| ==> r[i] == rows[|rows| - 1 - (from + i)]
  {
    var size := if limit <= 0 then DefaultPageSize else limit;
    var from := if offset < 0 then 0 else offset;
    PageWithin(PublicRows(posts), size, from);
    Page(GroupRepository.Reversed(PublicRows(posts)), size, from)
  }

  /** `GetFeedPosts`: the visible posts newest first, page `page` (at least 1) of `pageSize` (10 when below 1). */
  function GetFeedPosts(posts: seq<Post>, viewers: seq<Viewer>, links: Links, u: string, page: int, pageSize: int): (r: seq<Post>)
    ensures |r| <= if pageSize < 1 then DefaultPageSize else pageSize
    ensures forall p :: p in r ==> p in posts && FeedVisible(p, viewers, links, u)
    ensures var rows := Feed(posts, viewers, links, u);
      var size := if pageSize < 1 then DefaultPageSize else pageSize;
      var from := (if page < 1 then 0 else page - 1) * size;
      |r| == (if from >= |rows| then 0 else if from + size <= |rows| then size else |rows| - from)
      && forall i :: 0 <= i < |r| ==> r[i] == rows[|rows| - 1 - (from + i)]
  {
    var size: nat := if pageSize < 1 then DefaultPageSize else pageSize;
    var skipped: nat := if page < 1 then 0 else page - 1;
    var offset: nat := skipped * size;
    PageWithin(Feed(posts, viewers, links, u), size, offset);
    Page(GroupRepository.Reversed(Feed(posts, viewers, links, u)), size, offset)
  }

  /** A negative offset reads the same page as offset 0. */
  lemma PublicPostsNegativeOffset(posts: seq<Post>, limit: int, offset: int)
    requires offset < 0
    ensures GetPublicPosts(posts, limit, offset) == GetPublicPosts(posts, limit, 0)
  {
  }

  /** A page number below 1 reads the first page. */
  lemma FeedPageNormalised(posts: seq<Post>, viewers: seq<Viewer>, links: Links, u: string, page: int, pageSize: int)
    requires page < 1
    ensures GetFeedPosts(posts, viewers, links, u, page, pageSize) == GetFeedPosts(posts, viewers, links, u, 1, pageSize)
  {
  }

  /** Every post of a feed page is one `GetPost` hands to the same user. */
  lemma FeedPostsOpen(posts: seq<Post>, groupPosts: seq<Post>, viewers: seq<Viewer>, links: Links, u: string, page: int, pageSize: int)
    requires UniqueIds(posts)
    ensures forall p :: p in GetFeedPosts(posts, viewers, links, u, page, pageSize) ==> GetPost(posts, groupPosts, viewers, links, p.id, u) == Ok(p)
  {
    forall p | p in GetFeedPosts(posts, viewers, links, u, page, pageSize)
      ensures GetPost(posts, groupPosts, viewers, links, p.id, u) == Ok(p)
    {
      var i :| 0 <= i < |posts| && posts[i] == p;
      FindUnique(posts, i);
    }
  }

  /** The first page of the feed is its newest visible posts. */
  lemma FeedFirstPage(posts: seq<Post>, viewers: seq<Viewer>, links: Links, u: string, pageSize: int)
    requires pageSize >= 1
    ensures var visible := Feed(posts, viewers, links, u);
      var r := GetFeedPosts(posts, viewers, links, u, 1, pageSize);
      |r| == (if pageSize <= |visible| then pageSize else |visible|)
      && forall i :: 0 <= i < |r| ==> r[i] == visible[|visible| - 1 - i]
  {
  }

  /**
   * `UpdatePost`: only the author, only to a valid privacy; the edited post is returned and
   * stored in `posts`. A group post passes the same checks, but its `UPDATE posts` matches no
   * row, so nothing is stored.
   */
  method UpdatePost(store: PostStore, id: int, u: string, content: string, privacy: string) returns (r: Result<Post>)
    modifies store
    ensures old(store.Valid()) ==> store.Valid()
    ensures var found := GetPostById(old(store.posts), old(store.groupPosts), id);
      r.Ok? <==> (found.Some? && found.value.userId == u && ValidPrivacy(privacy))
    ensures GetPostById(old(store.posts), old(store.groupPosts), id).None? ==> r == Err("post not found")
    ensures var found := GetPostById(old(store.posts), old(store.groupPosts), id);
      found.Some? && found.value.userId != u ==> r == Err("you don't have permission to update this post")
    ensures var found := GetPostById(old(store.posts), old(store.groupPosts), id);
      found.Some? && found.value.userId == u && !ValidPrivacy(privacy) ==> r == Err("invalid privacy setting")
    ensures r.Ok? ==> r.value == GetPostById(old(store.posts), old(store.groupPosts), id).value.(content := content, privacy := privacy)
    ensures r.Ok? && old(store.Valid()) && FindPost(old(store.posts), id).Some? ==> FindPost(store.posts, id) == Some(r.value)
    ensures r.Err? || FindPost(old(store.posts), id).None? ==> store.posts == old(store.posts)
    ensures store.groupPosts == old(store.groupPosts) && store.viewers == old(store.viewers) && store.likes == old(store.likes)
    ensures store.comments == old(store.comments) && store.stats == old(store.stats)
  {
    var found := GetPostById(store.posts, store.groupPosts, id);
    if found.None? {
      return Err("post not found");
    }
    if found.value.userId != u {
      return Err("you don't have permission to update this post");
    }
    if !ValidPrivacy(privacy) {
      return Err("invalid privacy setting");
    }
    if store.Valid() {
      FindUpdated(store.posts, id, Edit(content, privacy), id);
    }
    if FindPost(store.posts, id).None? {
      UpdatedAbsent(store.posts, id, Edit(content, privacy));
    }
    store.UpdatePost(id, content, privacy);
    return Ok(found.value.(content := content, privacy := privacy));
  }

  /** The checks `DeletePost` makes before deleting. */
  function DeleteRefusal(posts: seq<Post>, groupPosts: seq<Post>, id: int, u: string): (e: Option<string>)
    ensures var found := GetPostById(posts, groupPosts, id);
      e.None? <==> found.Some? && found.value.userId == u
    ensures GetPostById(posts, groupPosts, id).None? ==> e == Some("post not found")
  {
    match GetPostById(posts, groupPosts, id)
    case None => Some("post not found")
    case Some(p) => if p.userId != u then Some("you don't have permission to delete this post") else None
  }

  /** `DeletePost` as written: the author's post row goes; its like and viewer rows stay. */
  method DeletePost(store: PostStore, id: int, u: string) returns (r: Status)
    modifies store
    ensures r.Success? <==> DeleteRefusal(old(store.posts), old(store.groupPosts), id, u).None?
    ensures r.Failure? ==> r == Failure(DeleteRefusal(old(store.posts), old(store.groupPosts), id, u).value) && store.posts == old(store.posts)
    ensures r.Success? ==> store.posts == WithoutPost(old(store.posts), id) && FindPost(store.posts, id).None?
    ensures store.viewers == old(store.viewers) && store.likes == old(store.likes)
    ensures store.comments == old(store.comments) && store.stats == old(store.stats)
  {
    var refusal := DeleteRefusal(store.posts, store.groupPosts, id, u);
    if refusal.Some? {
      return Failure(refusal.value);
    }
    store.DeletePost(id);
    return Success;
  }

  /** `DeletePost` that deletes the post's like and viewer rows with it, keeping the invariant. */
  method DeletePostCascading(store: PostStore, id: int, u: string) returns (r: Status)
    modifies store
    ensures old(store.Valid()) ==> store.Valid()
    ensures r.Success? <==> DeleteRefusal(old(store.posts), old(store.groupPosts), id, u).None?
    ensures r.Failure? ==> r == Failure(DeleteRefusal(old(store.posts), old(store.groupPosts), id, u).value) && store.posts == old(store.posts)
    ensures r.Success? ==> (store.posts == WithoutPost(old(store.posts), id)
      && forall x :: Viewer(id, x) !in store.viewers && Like(id, x) !in store.likes)
    ensures r.Failure? ==> store.viewers == old(store.viewers) && store.likes == old(store.likes)
    ensures store.comments == old(store.comments) && store.stats == old(store.stats)
  {
    var refusal := DeleteRefusal(store.posts, store.groupPosts, id, u);
    if refusal.Some? {
      return Failure(refusal.value);
    }
    store.DeletePostCascade(id);
    return Success;
  }

  /**
   * Deleting a post with a viewer row leaves the row behind, and the next post gets the
   * deleted id back: a private post by someone else opens for the old viewer.
   */
  lemma DeletedPostViewerSeesNextPost()
    ensures var posts := [Post(1, "ann", "", Public, 0, 0), Post(2, "ann", "", Private, 0, 0)];
      var viewers := [Viewer(2, "vic")];
      var left := WithoutPost(posts, 2);
      var id := NextPostId(left, []);
      id == 2 && CanViewPost(left + [Post(id, "bob", "", Private, 0, 0)], [], viewers, [], id, "vic") == Ok(true)
  {
    var posts := [Post(1, "ann", "", Public, 0, 0), Post(2, "ann", "", Private, 0, 0)];
    var left := WithoutPost(posts, 2);
    assert left == [posts[0]] by {
      assert posts[0] in left;
      assert WithoutPost(posts[1..], 2) == [];
    }
    var id := NextPostId(left, []);
    assert id == 2;
    var next := left + [Post(id, "bob", "", Private, 0, 0)];
    assert FindPost(next, 2) == Some(next[1]);
  }

  /** Under the invariant, deleting a post that has viewer rows always leaves orphans. */
  lemma DeletePostOrphansViewers(posts: seq<Post>, groupPosts: seq<Post>, likes: seq<Like>, viewers: seq<Viewer>, id: int, x: string)
    requires ValidPosts(posts, groupPosts, likes, viewers) && Viewer(id, x) in viewers && FindPost(groupPosts, id).None?
    ensures !ValidPosts(WithoutPost(posts, id), groupPosts, likes, viewers)
  {
    assert FindPost(WithoutPost(posts, id), id).None?;
  }

  /** The checks `SetPostViewers` makes before changing rows. */
  function ViewersRefusal(posts: seq<Post>, groupPosts: seq<Post>, id: int, u: string): (e: Option<string>)
    ensures var found := GetPostById(posts, groupPosts, id);
      e.None? <==> (found.Some? && found.value.userId == u && found.value.privacy == Private)
    ensures e.None? ==> FindPost(posts, id).Some?
  {
    match GetPostById(posts, groupPosts, id)
    case None => Some("post not found")
    case Some(p) =>
      if p.userId != u then Some("you don't have permission to set viewers for this post")
      else if p.privacy != Private then Some("viewers can only be set for private posts")
      else None
  }

  /**
   * `SetPostViewers`: the author of a private post adds a row for every listed user that was
   * not a viewer before, then removes every earlier viewer that is not listed. Afterwards the
   * post's viewers are exactly the listed users; no other post's rows change.
   */
  method SetPostViewers(store: PostStore, id: int, u: string, viewerIds: seq<string>) returns (r: Status)
    modifies store
    ensures old(store.Valid()) ==> store.Valid()
    ensures r.Success? <==> ViewersRefusal(old(store.posts), old(store.groupPosts), id, u).None?
    ensures r.Failure? ==> r == Failure(ViewersRefusal(old(store.posts), old(store.groupPosts), id, u).value) && store.viewers == old(store.viewers)
    ensures r.Success? ==> forall x :: Viewer(id, x) in store.viewers <==> x in viewerIds
    ensures forall v: Viewer :: v.postId != id ==> (v in store.viewers <==> v in old(store.viewers))
    ensures store.posts == old(store.posts) && store.likes == old(store.likes)
    ensures store.comments == old(store.comments) && store.stats == old(store.stats)
  {
    var refusal := ViewersRefusal(store.posts, store.groupPosts, id, u);
    if refusal.Some? {
      return Failure(refusal.value);
    }
    var current := ViewerIds(store.viewers, id);
    AddViewers(store, id, current, viewerIds);
    RemoveViewers(store, id, current, viewerIds);
    return Success;
  }

  /** The first loop of `SetPostViewers`: a row for every listed user not among `current`. */
  method AddViewers(store: PostStore, id: int, current: seq<string>, viewerIds: seq<string>)
    requires forall x :: Viewer(id, x) in store.viewers <==> x in current
    requires FindPost(store.posts, id).Some?
    modifies store
    ensures forall x :: Viewer(id, x) in store.viewers <==> x in current || x in viewerIds
    ensures forall v: Viewer :: v.postId != id ==> (v in store.viewers <==> v in old(store.viewers))
    ensures old(store.Valid()) ==> store.Valid()
    ensures store.posts == old(store.posts) && store.likes == old(store.likes)
    ensures store.comments == old(store.comments) && store.stats == old(store.stats)
  {
    var i := 0;
    while i < |viewerIds|
      invariant 0 <= i <= |viewerIds|
      invariant forall x :: Viewer(id, x) in store.viewers <==> x in current || x in viewerIds[..i]
      invariant forall v: Viewer :: v.postId != id ==> (v in store.viewers <==> v in old(store.viewers))
      invariant store.posts == old(store.posts) && store.likes == old(store.likes)
      invariant store.comments == old(store.comments) && store.stats == old(store.stats)
      invariant old(store.Valid()) ==> store.Valid()
    {
      assert viewerIds[..i + 1] == viewerIds[..i] + [viewerIds[i]];
      if viewerIds[i] !in current {
        store.AddPostViewer(id, viewerIds[i]);
      }
      i := i + 1;
    }
    assert viewerIds[..i] == viewerIds;
  }

  /** The second loop of `SetPostViewers`: every user of `current` not listed loses its rows. */
  method RemoveViewers(store: PostStore, id: int, current: seq<string>, viewerIds: seq<string>)
    requires forall x :: Viewer(id, x) in store.viewers <==> x in current || x in viewerIds
    modifies store
    ensures forall x :: Viewer(id, x) in store.viewers <==> x in viewerIds
    ensures forall v: Viewer :: v.postId != id ==> (v in store.viewers <==> v in old(store.viewers))
    ensures old(store.Valid()) ==> store.Valid()
    ensures store.posts == old(store.posts) && store.likes == old(store.likes)
    ensures store.comments == old(store.comments) && store.stats == old(store.stats)
  {
    var j := 0;
    while j < |current|
      invariant 0 <= j <= |current|
      invariant forall x :: Viewer(id, x) in store.viewers <==> x in viewerIds || (x in current && x !in current[..j])
      invariant forall v: Viewer :: v.postId != id ==> (v in store.viewers <==> v in old(store.viewers))
      invariant store.posts == old(store.posts) && store.likes == old(store.likes)
      invariant store.comments == old(store.comments) && store.stats == old(store.stats)
      invariant old(store.Valid()) ==> store.Valid()
    {
      assert current[..j + 1] == current[..j] + [current[j]];
      if current[j] !in viewerIds {
        store.RemovePostViewer(id, current[j]);
      }
      j := j + 1;
    }
    assert current[..j] == current;
  }

  /** `CreateComment`: a user who may view the post comments on it, and the post counts one more comment. */
  method CreateComment(store: PostStore, links: Links, id: int, u: string, content: string, commentId: int) returns (r: Result<Comment>)
    modifies store
    ensures old(store.Valid()) ==> store.Valid()
    ensures r.Ok? <==> CanViewPost(old(store.posts), old(store.groupPosts), old(store.viewers), links, id, u) == Ok(true)
    ensures CanViewPost(old(store.posts), old(store.groupPosts), old(store.viewers), links, id, u) == Ok(false) ==>
      r == Err("you don't have permission to comment on this post")
    ensures r.Ok? ==> (r.value == Comment(commentId, id, u, content) && store.comments == old(store.comments) + [r.value]
      && var c := CommentCountUpdate(old(store.posts), old(store.groupPosts), id, true);
         store.posts == c.posts && store.groupPosts == c.groupPosts)
    ensures r.Err? ==> store.comments == old(store.comments) && store.posts == old(store.posts) && store.groupPosts == old(store.groupPosts)
    ensures store.viewers == old(store.viewers) && store.likes == old(store.likes) && store.stats == old(store.stats)
  {
    var canView := CanViewPost(store.posts, store.groupPosts, store.viewers, links, id, u);
    if canView.Err? {
      return Err(canView.msg);
    }
    if !canView.value {
      return Err("you don't have permission to comment on this post");
    }
    var c := Comment(commentId, id, u, content);
    store.CreateComment(c);
    var count := store.UpdatePostCommentCount(id, true);
    return Ok(c);
  }

  /** The comments of post `id`, newest first. */
  function CommentsOf(comments: seq<Comment>, id: int): (r: seq<Comment>)
    ensures forall c :: c in r <==> c in comments && c.postId == id
  {
    if comments == [] then []
    else
      var init := comments[..|comments| - 1];
      var last := comments[|comments| - 1];
      assert forall c :: c in comments <==> c in init || c == last;
      (if last.postId == id then [last] else []) + CommentsOf(init, id)
  }

  /** `GetPostComments`: a post's comments, newest first, for a user who may view the post. */
  function GetPostComments(posts: seq<Post>, groupPosts: seq<Post>, viewers: seq<Viewer>, links: Links, comments: seq<Comment>, id: int, u: string): (r: Result<seq<Comment>>)
    ensures r.Ok? <==> CanViewPost(posts, groupPosts, viewers, links, id, u) == Ok(true)
    ensures r.Ok? ==> forall c :: c in r.value <==> c in comments && c.postId == id
    ensures CanViewPost(posts, groupPosts, viewers, links, id, u) == Ok(false) ==> r == Err("you don't have permission to view this post's comments")
  {
    match CanViewPost(posts, groupPosts, viewers, links, id, u)
    case Err(e) => Err(e)
    case Ok(canView) =>
      if !canView then Err("you don't have permission to view this post's comments")
      else Ok(CommentsOf(comments, id))
  }

  /**
   * `DeleteComment`: the comment goes whoever asks; then the post id, given as text, is
   * parsed and that post counts one comment less.
   */
  method DeleteComment(store: PostStore, commentId: int, u: string, postId: string) returns (r: Status)
    modifies store
    ensures old(store.Valid()) ==> store.Valid()
    ensures forall c :: c in store.comments <==> c in old(store.comments) && c.id != commentId
    ensures ParseInt64(postId).Err? ==> (r == Failure(ParseInt64(postId).msg)
      && store.posts == old(store.posts) && store.groupPosts == old(store.groupPosts))
    ensures ParseInt64(postId).Ok? ==>
      var u := CommentCountUpdate(old(store.posts), old(store.groupPosts), ParseInt64(postId).value, false);
      (r.Success? <==> u.result.Ok?) && (r.Failure? ==> r == Failure(u.result.msg))
      && store.posts == u.posts && store.groupPosts == u.groupPosts
    ensures store.viewers == old(store.viewers) && store.likes == old(store.likes) && store.stats == old(store.stats)
  {
    store.DeleteComment(commentId);
    var parsed := ParseInt64(postId);
    if parsed.Err? {
      return Failure(parsed.msg);
    }
    var count := store.UpdatePostCommentCount(parsed.value, false);
    if count.Err? {
      return Failure(count.msg);
    }
    return Success;
  }

  /**
   * `LikePost`: a toggle for a user who may view the post. A like that is there goes
   * (`false`), one that is not is added (`true`); the result says whether the user now likes it.
   */
  method LikePost(store: PostStore, links: Links, id: int, u: string) returns (r: Result<bool>)
    modifies store
    ensures old(store.Valid()) ==> store.Valid()
    ensures r.Ok? <==> CanViewPost(old(store.posts), old(store.groupPosts), old(store.viewers), links, id, u) == Ok(true)
    ensures CanViewPost(old(store.posts), old(store.groupPosts), old(store.viewers), links, id, u) == Ok(false) ==>
      r == Err("you don't have permission to like this post")
    ensures r.Ok? ==> r.value == (Like(id, u) !in old(store.likes)) && (Like(id, u) in store.likes <==> r.value)
    ensures r.Ok? && r.value ==> store.likes == old(store.likes) + [Like(id, u)]
    ensures r.Ok? && !r.value ==> store.likes == Unliked(old(store.likes), Like(id, u))
    ensures r.Err? ==> store.likes == old(store.likes) && store.posts == old(store.posts) && store.groupPosts == old(store.groupPosts)
    ensures store.viewers == old(store.viewers) && store.comments == old(store.comments) && store.stats == old(store.stats)
  {
    var canView := CanViewPost(store.posts, store.groupPosts, store.viewers, links, id, u);
    if canView.Err? {
      return Err(canView.msg);
    }
    if !canView.value {
      return Err("you don't have permission to like this post");
    }
    if Like(id, u) in store.likes {
      store.UnlikePost(id, u);
      return Ok(false);
    }
    store.LikePost(id, u);
    return Ok(true);
  }

  /** `UnlikePost`: a user who may view the post drops its like, if any. */
  method UnlikePost(store: PostStore, links: Links, id: int, u: string) returns (r: Status)
    modifies store
    ensures old(store.Valid()) ==> store.Valid()
    ensures r.Success? <==> CanViewPost(old(store.posts), old(store.groupPosts), old(store.viewers), links, id, u) == Ok(true)
    ensures CanViewPost(old(store.posts), old(store.groupPosts), old(store.viewers), links, id, u) == Ok(false) ==>
      r == Failure("you don't have permission to unlike this post")
    ensures r.Success? ==> store.likes == Unliked(old(store.likes), Like(id, u)) && Like(id, u) !in store.likes
    ensures r.Failure? ==> store.likes == old(store.likes) && store.posts == old(store.posts) && store.groupPosts == old(store.groupPosts)
    ensures store.viewers == old(store.viewers) && store.comments == old(store.comments) && store.stats == old(store.stats)
  {
    var canView := CanViewPost(store.posts, store.groupPosts, store.viewers, links, id, u);
    if canView.Err? {
      return Failure(canView.msg);
    }
    if !canView.value {
      return Failure("you don't have permission to unlike this post");
    }
    store.UnlikePost(id, u);
    return Success;
  }
}
