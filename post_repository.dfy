/**
 * The post repository: the `posts` rows (in insertion order, unique ids), the rows of
 * `group_posts` as far as this repository touches them (ids and counters), and the
 * `post_viewers`, `post_likes` and `comments` tables. Post ids come from one allocator
 * shared with group posts: one more than the largest id in either table.
 */
module PostRepository {
  import opened Wrappers
  import opened UserStats
  import FollowRepository
  import GroupRepository

  const Public := "public"
  const AlmostPrivate := "almost_private"
  const Private := "private"

  const PostsColumn := "posts_count"

  datatype Post = Post(id: int, userId: string, content: string, privacy: string, likesCount: int, commentsCount: int)
  datatype Viewer = Viewer(postId: int, userId: string)
  datatype Like = Like(postId: int, userId: string)
  datatype Comment = Comment(id: int, postId: int, userId: string, content: string)

  /** The three privacy levels a post may have. */
  predicate ValidPrivacy(privacy: string)
  {
    privacy == Public || privacy == AlmostPrivate || privacy == Private
  }

  // ---------------------------------------------------------------- rows

  /** The row of one table with the id, or none. */
  function FindPost(posts: seq<Post>, id: int): (r: Option<Post>)
    ensures r.Some? ==> r.value in posts && r.value.id == id
    ensures r.None? <==> forall p :: p in posts ==> p.id != id
  {
    if posts == [] then None
    else if posts[0].id == id then Some(posts[0])
    else
      assert forall p :: p in posts <==> p == posts[0] || p in posts[1..];
      FindPost(posts[1..], id)
  }

  /**
   * `GetPostByID`: the `posts` row with the id in preference to the `group_posts` one, which
   * is read as public; none when neither table holds the id.
   */
  function GetPostById(posts: seq<Post>, groupPosts: seq<Post>, id: int): (r: Option<Post>)
    ensures r.None? <==> (forall p :: p in posts ==> p.id != id) && (forall g :: g in groupPosts ==> g.id != id)
    ensures r.Some? ==> r.value.id == id
    ensures FindPost(posts, id).Some? ==> r == FindPost(posts, id)
    ensures FindPost(posts, id).None? && FindPost(groupPosts, id).Some? ==>
      r == Some(FindPost(groupPosts, id).value.(privacy := Public))
  {
    match FindPost(posts, id)
    case Some(p) => Some(p)
    case None =>
      match FindPost(groupPosts, id)
      case Some(g) => Some(g.(privacy := Public))
      case None => None
  }

  /** The ids of the rows, in order. */
  function Ids(posts: seq<Post>): (ids: seq<int>)
    ensures |ids| == |posts| && forall i :: 0 <= i < |posts| ==> ids[i] == posts[i].id
  {
    seq(|posts|, i requires 0 <= i < |posts| => posts[i].id)
  }

  /** Ids are a primary key. */
  predicate UniqueIds(posts: seq<Post>)
  {
    forall i, j :: 0 <= i < j < |posts| ==> posts[i].id != posts[j].id
  }

  /** `getNextAvailableID`: above every post and group post. */
  function NextPostId(posts: seq<Post>, groupPosts: seq<Post>): (id: int)
    ensures FindPost(posts, id).None? && FindPost(groupPosts, id).None?
    ensures id >= 1
    ensures id == 1 || FindPost(posts, id - 1).Some? || FindPost(groupPosts, id - 1).Some?
  {
    var ids := GroupRepository.NextAvailableId(Ids(posts), Ids(groupPosts));
    assert forall p :: p in posts ==> p.id < ids;
    assert forall p :: p in groupPosts ==> p.id < ids;
    ids
  }

  /** `GetPostViewers`: the users of the post's viewer rows, in row order. */
  function ViewerIds(viewers: seq<Viewer>, id: int): (r: seq<string>)
    ensures forall x :: x in r <==> Viewer(id, x) in viewers
  {
    if viewers == [] then []
    else
      assert forall v :: v in viewers <==> v == viewers[0] || v in viewers[1..];
      (if viewers[0].postId == id then [viewers[0].userId] else []) + ViewerIds(viewers[1..], id)
  }

  /** `GetUserFollowers`: the followers of `u`, in row order. */
  function FollowerIds(links: seq<FollowRepository.Link>, u: string): (r: seq<string>)
    ensures forall x :: x in r <==> FollowRepository.Link(x, u) in links
  {
    if links == [] then []
    else
      assert forall l :: l in links <==> l == links[0] || l in links[1..];
      (if links[0].following == u then [links[0].follower] else []) + FollowerIds(links[1..], u)
  }

  /** The rows of `posts` other than the one with `id`. */
  function WithoutPost(posts: seq<Post>, id: int): (r: seq<Post>)
    ensures forall p :: p in r <==> p in posts && p.id != id
    ensures UniqueIds(posts) ==> UniqueIds(r)
  {
    if posts == [] then []
    else
      var rest := WithoutPost(posts[1..], id);
      assert forall p :: p in posts <==> p == posts[0] || p in posts[1..];
      if posts[0].id == id then rest
      else
        assert UniqueIds(posts) ==> forall q :: q in rest ==> q.id != posts[0].id by {
          if UniqueIds(posts) {
            forall k | 1 <= k < |posts| ensures posts[k].id != posts[0].id {
            }
          }
        }
        [posts[0]] + rest
  }

  /** Applies `f` to the row with `id` and leaves the others. */
  function Updated(posts: seq<Post>, id: int, f: Post -> Post): (r: seq<Post>)
    ensures |r| == |posts|
    ensures forall i :: 0 <= i < |posts| ==> r[i] == if posts[i].id == id then f(posts[i]) else posts[i]
  {
    seq(|posts|, i requires 0 <= i < |posts| => if posts[i].id == id then f(posts[i]) else posts[i])
  }

  /** A row of a table with unique ids is the one `FindPost` returns. */
  lemma FindUnique(posts: seq<Post>, i: int)
    requires UniqueIds(posts) && 0 <= i < |posts|
    ensures FindPost(posts, posts[i].id) == Some(posts[i])
  {
    if i > 0 && posts[0].id != posts[i].id {
      FindUnique(posts[1..], i - 1);
    }
  }

  /** An update that keeps the id is found where the old row was. */
  lemma FindUpdated(posts: seq<Post>, id: int, f: Post -> Post, x: int)
    requires UniqueIds(posts)
    requires forall p :: f(p).id == p.id
    ensures UniqueIds(Updated(posts, id, f))
    ensures FindPost(Updated(posts, id, f), x) ==
      if x == id && FindPost(posts, x).Some? then Some(f(FindPost(posts, x).value)) else FindPost(posts, x)
  {
    var r := Updated(posts, id, f);
    match FindPost(posts, x)
    case None =>
    case Some(p) =>
      var i :| 0 <= i < |posts| && posts[i] == p;
      FindUnique(r, i);
  }

  /** An update that keeps the ids keeps the key and the set of ids found. */
  lemma UpdatedKeepsIds(posts: seq<Post>, id: int, f: Post -> Post)
    requires UniqueIds(posts)
    requires forall p :: f(p).id == p.id
    ensures UniqueIds(Updated(posts, id, f))
    ensures forall x :: FindPost(Updated(posts, id, f), x).Some? == FindPost(posts, x).Some?
  {
    forall x ensures FindPost(Updated(posts, id, f), x).Some? == FindPost(posts, x).Some? {
      FindUpdated(posts, id, f, x);
    }
  }

  /** An update that keeps the ids finds the same ids, whether or not they are unique. */
  lemma UpdatedFindsSame(posts: seq<Post>, id: int, f: Post -> Post)
    requires forall p :: f(p).id == p.id
    ensures forall x :: FindPost(Updated(posts, id, f), x).None? == FindPost(posts, x).None?
  {
    var r := Updated(posts, id, f);
    forall x ensures FindPost(r, x).None? == FindPost(posts, x).None? {
      if FindPost(r, x).Some? {
        var i :| 0 <= i < |r| && r[i] == FindPost(r, x).value;
        assert posts[i] in posts;
      }
      if FindPost(posts, x).Some? {
        var i :| 0 <= i < |posts| && posts[i] == FindPost(posts, x).value;
        assert r[i] in r;
      }
    }
  }

  /** An update of an id no row holds leaves the table as it was. */
  lemma UpdatedAbsent(posts: seq<Post>, id: int, f: Post -> Post)
    requires FindPost(posts, id).None?
    ensures Updated(posts, id, f) == posts
  {
    forall i | 0 <= i < |posts| ensures Updated(posts, id, f)[i] == posts[i] {
      assert posts[i] in posts;
    }
  }

  // ---------------------------------------------------------------- visibility

  /** The `GetFeedPosts` condition: public, own, almost private by a followed user, or private with a viewer row. */
  predicate FeedVisible(p: Post, viewers: seq<Viewer>, links: seq<FollowRepository.Link>, u: string)
  {
    p.privacy == Public || p.userId == u
    || (p.privacy == AlmostPrivate && FollowRepository.IsFollowing(links, u, p.userId))
    || (p.privacy == Private && Viewer(p.id, u) in viewers)
  }

  /**
   * `CanViewPost`: it agrees with the feed condition on the row `GetPostByID` returns, and
   * refuses a missing post or an unknown privacy.
   */
  function CanViewPost(posts: seq<Post>, groupPosts: seq<Post>, viewers: seq<Viewer>, links: seq<FollowRepository.Link>, id: int, u: string): (r: Result<bool>)
    ensures var found := GetPostById(posts, groupPosts, id);
      r == Ok(true) <==> found.Some? && FeedVisible(found.value, viewers, links, u)
    ensures var found := GetPostById(posts, groupPosts, id);
      r.Err? <==> (found.None? || (found.value.userId != u && !ValidPrivacy(found.value.privacy)))
    ensures GetPostById(posts, groupPosts, id).None? ==> r == Err("post not found")
  {
    match GetPostById(posts, groupPosts, id)
    case None => Err("post not found")
    case Some(p) =>
      if p.userId == u then Ok(true)
      else if p.privacy == Public then Ok(true)
      else if p.privacy == AlmostPrivate then Ok(FollowRepository.IsFollowing(links, u, p.userId))
      else if p.privacy == Private then Ok(Viewer(id, u) in viewers)
      else Err("invalid privacy setting")
  }

  /** A group post no `posts` row shadows opens for every user, whatever its own privacy. */
  lemma GroupPostOpen(posts: seq<Post>, groupPosts: seq<Post>, viewers: seq<Viewer>, links: seq<FollowRepository.Link>, id: int, u: string)
    requires FindPost(posts, id).None? && FindPost(groupPosts, id).Some?
    ensures CanViewPost(posts, groupPosts, viewers, links, id, u) == Ok(true)
  {
  }

  /** `GetFeedPosts` before paging: the visible rows, in the order given. */
  function Feed(rows: seq<Post>, viewers: seq<Viewer>, links: seq<FollowRepository.Link>, u: string): (r: seq<Post>)
    ensures forall p :: p in r <==> p in rows && FeedVisible(p, viewers, links, u)
    ensures |r| <= |rows|
  {
    if rows == [] then []
    else
      assert forall p :: p in rows <==> p == rows[0] || p in rows[1..];
      (if FeedVisible(rows[0], viewers, links, u) then [rows[0]] else []) + Feed(rows[1..], viewers, links, u)
  }

  /** The rows `GetPublicPosts` pages through. */
  function PublicRows(rows: seq<Post>): (r: seq<Post>)
    ensures forall p :: p in r <==> p in rows && p.privacy == Public
  {
    if rows == [] then []
    else
      assert forall p :: p in rows <==> p == rows[0] || p in rows[1..];
      (if rows[0].privacy == Public then [rows[0]] else []) + PublicRows(rows[1..])
  }

  /** `LIMIT limit OFFSET offset` for a non-negative offset and a positive limit. */
  function Page<T>(rows: seq<T>, limit: int, offset: int): (r: seq<T>)
    requires limit > 0 && offset >= 0
    ensures |r| <= limit
    ensures offset >= |rows| ==> r == []
    ensures forall i :: 0 <= i < |r| ==> offset + i < |rows| && r[i] == rows[offset + i]
    ensures offset < |rows| ==> |r| == if offset + limit <= |rows| then limit else |rows| - offset
  {
    if offset >= |rows| then [] else if offset + limit <= |rows| then rows[offset..offset + limit] else rows[offset..]
  }

  /** A page of the rows taken newest first holds only rows of the table. */
  lemma PageWithin<T>(rows: seq<T>, limit: int, offset: int)
    requires limit > 0 && offset >= 0
    ensures forall x :: x in Page(GroupRepository.Reversed(rows), limit, offset) ==> x in rows
  {
    var rev := GroupRepository.Reversed(rows);
    var page := Page(rev, limit, offset);
    forall x | x in page ensures x in rows {
      var i :| 0 <= i < |page| && page[i] == x;
      assert rev[offset + i] == rows[|rows| - 1 - (offset + i)];
    }
  }

  // ---------------------------------------------------------------- likes

  /** The like rows of post `id`. */
  function LikeCount(likes: seq<Like>, id: int): (n: nat)
    ensures n <= |likes|
  {
    if likes == [] then 0
    else LikeCount(likes[..|likes| - 1], id) + (if likes[|likes| - 1].postId == id then 1 else 0)
  }

  /** No (post, user) pair is stored twice. */
  predicate DistinctLikes(likes: seq<Like>)
  {
    forall i, j :: 0 <= i < j < |likes| ==> likes[i] != likes[j]
  }

  /** `UnlikePost`'s DELETE: every row equal to `l`. */
  function Unliked(likes: seq<Like>, l: Like): (r: seq<Like>)
    ensures forall x :: x in r <==> x in likes && x != l
  {
    if likes == [] then []
    else
      var init := likes[..|likes| - 1];
      assert forall x :: x in likes <==> x in init || x == likes[|likes| - 1];
      Unliked(init, l) + (if likes[|likes| - 1] == l then [] else [likes[|likes| - 1]])
  }

  /** The like rows not of post `id`. */
  function LikesNotOf(likes: seq<Like>, id: int): (r: seq<Like>)
    ensures forall x :: x in r <==> x in likes && x.postId != id
  {
    if likes == [] then []
    else
      var init := likes[..|likes| - 1];
      assert forall x :: x in likes <==> x in init || x == likes[|likes| - 1];
      LikesNotOf(init, id) + (if likes[|likes| - 1].postId == id then [] else [likes[|likes| - 1]])
  }

  /** The viewer rows not of post `id`. */
  function ViewersNotOf(viewers: seq<Viewer>, id: int): (r: seq<Viewer>)
    ensures forall x :: x in r <==> x in viewers && x.postId != id
  {
    if viewers == [] then []
    else
      assert forall x :: x in viewers <==> x == viewers[0] || x in viewers[1..];
      (if viewers[0].postId == id then [] else [viewers[0]]) + ViewersNotOf(viewers[1..], id)
  }

  /** A post without like rows counts none. */
  lemma {:induction false} LikeCountZero(likes: seq<Like>, id: int)
    requires forall l :: l in likes ==> l.postId != id
    ensures LikeCount(likes, id) == 0
  {
    if likes != [] {
      assert likes[|likes| - 1] in likes;
      assert forall l :: l in likes[..|likes| - 1] ==> l in likes;
      LikeCountZero(likes[..|likes| - 1], id);
    }
  }

  /** A row present once: removing it lowers its post's count by one and leaves the others. */
  lemma {:induction false} CountAfterUnlike(likes: seq<Like>, l: Like, id: int)
    requires DistinctLikes(likes) && l in likes
    ensures LikeCount(Unliked(likes, l), id) == LikeCount(likes, id) - (if l.postId == id then 1 else 0)
  {
    var init := likes[..|likes| - 1];
    var last := likes[|likes| - 1];
    assert DistinctLikes(init);
    if last == l {
      assert l !in init by {
        forall i | 0 <= i < |init| ensures init[i] != l {
          assert likes[i] != likes[|likes| - 1];
        }
      }
      UnlikedAbsent(init, l);
      assert Unliked(likes, l) == init;
    } else {
      assert l in init by {
        assert forall x :: x in likes <==> x in init || x == last;
      }
      CountAfterUnlike(init, l, id);
      var rest := Unliked(init, l);
      assert Unliked(likes, l) == rest + [last];
      assert (rest + [last])[..|rest|] == rest;
    }
  }

  /** Removing an absent row changes nothing. */
  lemma {:induction false} UnlikedAbsent(likes: seq<Like>, l: Like)
    requires l !in likes
    ensures Unliked(likes, l) == likes
  {
    if likes != [] {
      var init := likes[..|likes| - 1];
      assert likes == init + [likes[|likes| - 1]];
      UnlikedAbsent(init, l);
    }
  }

  /** Removing rows keeps the others distinct. */
  lemma {:induction false} DistinctAfterUnlike(likes: seq<Like>, l: Like)
    requires DistinctLikes(likes)
    ensures DistinctLikes(Unliked(likes, l))
  {
    if likes != [] {
      var init := likes[..|likes| - 1];
      var last := likes[|likes| - 1];
      assert DistinctLikes(init);
      DistinctAfterUnlike(init, l);
      if last != l {
        var r := Unliked(init, l);
        assert last !in r by {
          forall i | 0 <= i < |init| ensures init[i] != last {
            assert likes[i] != likes[|likes| - 1];
          }
        }
        DistinctSnoc(r, last);
      }
    }
  }

  /** Appending a new row keeps the rows distinct. */
  lemma DistinctSnoc(likes: seq<Like>, l: Like)
    requires DistinctLikes(likes) && l !in likes
    ensures DistinctLikes(likes + [l])
  {
    forall i, j | 0 <= i < j < |likes + [l]| ensures (likes + [l])[i] != (likes + [l])[j] {
      assert (likes + [l])[i] == likes[i];
      if j < |likes| {
        assert (likes + [l])[j] == likes[j];
      }
    }
  }

  /** Dropping a post's rows leaves the other posts' counts. */
  lemma {:induction false} CountNotOf(likes: seq<Like>, id: int, other: int)
    requires other != id
    ensures LikeCount(LikesNotOf(likes, id), other) == LikeCount(likes, other)
  {
    if likes != [] {
      var init := likes[..|likes| - 1];
      var last := likes[|likes| - 1];
      CountNotOf(init, id, other);
      var rest := LikesNotOf(init, id);
      if last.postId != id {
        assert LikesNotOf(likes, id) == rest + [last];
        assert (rest + [last])[..|rest|] == rest;
      } else {
        assert LikesNotOf(likes, id) == rest;
      }
    }
  }

  /** Dropping a post's rows keeps the others distinct. */
  lemma {:induction false} DistinctNotOf(likes: seq<Like>, id: int)
    requires DistinctLikes(likes)
    ensures DistinctLikes(LikesNotOf(likes, id))
  {
    if likes != [] {
      var init := likes[..|likes| - 1];
      var last := likes[|likes| - 1];
      assert DistinctLikes(init);
      DistinctNotOf(init, id);
      if last.postId != id {
        var rest := LikesNotOf(init, id);
        assert last !in rest by {
          forall i | 0 <= i < |init| ensures init[i] != last {
            assert likes[i] != likes[|likes| - 1];
          }
        }
        DistinctSnoc(rest, last);
      }
    }
  }

  // ---------------------------------------------------------------- invariant

  /**
   * Every like and viewer row belongs to a post `GetPostByID` finds, no pair is liked twice,
   * and each `posts` row's `likes_count` is its number of like rows.
   */
  ghost predicate ValidPosts(posts: seq<Post>, groupPosts: seq<Post>, likes: seq<Like>, viewers: seq<Viewer>)
  {
    UniqueIds(posts) && DistinctLikes(likes)
    && (forall l :: l in likes ==> GetPostById(posts, groupPosts, l.postId).Some?)
    && (forall v :: v in viewers ==> GetPostById(posts, groupPosts, v.postId).Some?)
    && (forall i :: 0 <= i < |posts| ==> posts[i].likesCount == LikeCount(likes, posts[i].id))
  }

  function PlusLike(p: Post): Post { p.(likesCount := p.likesCount + 1) }

  /** The `UpdatePost` edit. */
  function Edit(content: string, privacy: string): Post -> Post
  {
    (p: Post) => p.(content := content, privacy := privacy)
  }

  /** The `UpdatePostCommentCount` step: one up, or one down without a floor. */
  function CommentStep(increase: bool): Post -> Post
  {
    (p: Post) => p.(commentsCount := p.commentsCount + (if increase then 1 else -1))
  }
  function MinusLike(p: Post): Post { if p.likesCount > 0 then p.(likesCount := p.likesCount - 1) else p }

  /** `LikePost` of a pair not yet liked, on a post `GetPostByID` finds, keeps the invariant. */
  lemma ValidAfterLike(posts: seq<Post>, groupPosts: seq<Post>, likes: seq<Like>, viewers: seq<Viewer>, l: Like)
    requires ValidPosts(posts, groupPosts, likes, viewers) && l !in likes && GetPostById(posts, groupPosts, l.postId).Some?
    ensures ValidPosts(Updated(posts, l.postId, PlusLike), Updated(groupPosts, l.postId, PlusLike), likes + [l], viewers)
  {
    var r := Updated(posts, l.postId, PlusLike);
    DistinctSnoc(likes, l);
    UpdatedKeepsIds(posts, l.postId, PlusLike);
    UpdatedFindsSame(groupPosts, l.postId, PlusLike);
    forall i | 0 <= i < |r| ensures r[i].likesCount == LikeCount(likes + [l], r[i].id) {
      CountSnoc(likes, l, posts[i].id);
    }
  }

  /** An appended row counts for its own post only. */
  lemma CountSnoc(likes: seq<Like>, l: Like, id: int)
    ensures LikeCount(likes + [l], id) == LikeCount(likes, id) + (if l.postId == id then 1 else 0)
  {
    assert (likes + [l])[..|likes|] == likes;
  }

  /** `UnlikePost` keeps the invariant: one row goes and its post's count drops by one. */
  lemma ValidAfterUnlike(posts: seq<Post>, groupPosts: seq<Post>, likes: seq<Like>, viewers: seq<Viewer>, l: Like)
    requires ValidPosts(posts, groupPosts, likes, viewers) && l in likes
    ensures ValidPosts(Updated(posts, l.postId, MinusLike), Updated(groupPosts, l.postId, MinusLike), Unliked(likes, l), viewers)
  {
    var r := Updated(posts, l.postId, MinusLike);
    DistinctAfterUnlike(likes, l);
    UpdatedKeepsIds(posts, l.postId, MinusLike);
    UpdatedFindsSame(groupPosts, l.postId, MinusLike);
    forall i | 0 <= i < |r| ensures r[i].likesCount == LikeCount(Unliked(likes, l), r[i].id) {
      UnlikeRow(posts[i], likes, l);
    }
  }

  /** One row's counter after `UnlikePost`, when it tracked its like rows before. */
  lemma UnlikeRow(p: Post, likes: seq<Like>, l: Like)
    requires DistinctLikes(likes) && l in likes && p.likesCount == LikeCount(likes, p.id)
    ensures (if p.id == l.postId then MinusLike(p) else p).likesCount == LikeCount(Unliked(likes, l), p.id)
  {
    CountAfterUnlike(likes, l, p.id);
  }

  /** A new post with an id neither table holds starts the invariant with no like and no viewer row. */
  lemma ValidAfterCreate(posts: seq<Post>, groupPosts: seq<Post>, likes: seq<Like>, viewers: seq<Viewer>, p: Post)
    requires ValidPosts(posts, groupPosts, likes, viewers) && GetPostById(posts, groupPosts, p.id).None? && p.likesCount == 0
    ensures ValidPosts(posts + [p], groupPosts, likes, viewers)
  {
    LikeCountZero(likes, p.id);
    forall x | FindPost(posts, x).Some? ensures FindPost(posts + [p], x).Some? {
      FindAppend(posts, p, x);
    }
    forall x | GetPostById(posts, groupPosts, x).Some? ensures GetPostById(posts + [p], groupPosts, x).Some? {
      if FindPost(posts, x).Some? {
        FindAppend(posts, p, x);
      }
    }
    UniqueSnoc(posts, p);
    forall i | 0 <= i < |posts + [p]| ensures (posts + [p])[i].likesCount == LikeCount(likes, (posts + [p])[i].id) {
      if i < |posts| {
        assert (posts + [p])[i] == posts[i];
      }
    }
  }

  /** A row with a new id keeps the key unique. */
  lemma UniqueSnoc(posts: seq<Post>, p: Post)
    requires UniqueIds(posts) && FindPost(posts, p.id).None?
    ensures UniqueIds(posts + [p])
  {
    forall i, j | 0 <= i < j < |posts + [p]| ensures (posts + [p])[i].id != (posts + [p])[j].id {
      assert (posts + [p])[i] == posts[i];
      if j < |posts| {
        assert (posts + [p])[j] == posts[j];
      } else {
        assert posts[i] in posts;
      }
    }
  }

  /** Appending a row keeps the earlier rows findable. */
  lemma FindAppend(posts: seq<Post>, p: Post, x: int)
    requires FindPost(posts, x).Some?
    ensures FindPost(posts + [p], x) == FindPost(posts, x)
  {
    if posts[0].id != x {
      assert (posts + [p])[1..] == posts[1..] + [p];
      FindAppend(posts[1..], p, x);
    }
  }

  /** Under the invariant an id no post holds has no like and no viewer row: a new post starts unseen and unliked. */
  lemma FreshPostUnseen(posts: seq<Post>, groupPosts: seq<Post>, likes: seq<Like>, viewers: seq<Viewer>, id: int)
    requires ValidPosts(posts, groupPosts, likes, viewers) && GetPostById(posts, groupPosts, id).None?
    ensures forall x :: Viewer(id, x) !in viewers && Like(id, x) !in likes
    ensures LikeCount(likes, id) == 0
  {
    LikeCountZero(likes, id);
  }

  /** Unliking right after liking restores both the like rows and the counters. */
  lemma LikeUnlikeInverse(posts: seq<Post>, likes: seq<Like>, l: Like)
    requires l !in likes && forall p :: p in posts ==> p.likesCount >= 0
    ensures Unliked(likes + [l], l) == likes
    ensures Updated(Updated(posts, l.postId, PlusLike), l.postId, MinusLike) == posts
  {
    UnlikedAbsent(likes, l);
    assert (likes + [l])[..|likes|] == likes;
    var twice := Updated(Updated(posts, l.postId, PlusLike), l.postId, MinusLike);
    assert forall i :: 0 <= i < |posts| ==> twice[i] == posts[i] by {
      forall i | 0 <= i < |posts| ensures twice[i] == posts[i] {
        assert posts[i] in posts;
      }
    }
  }

  /** Deleting a post with its like and viewer rows keeps the invariant. */
  lemma ValidAfterCascade(posts: seq<Post>, groupPosts: seq<Post>, likes: seq<Like>, viewers: seq<Viewer>, id: int)
    requires ValidPosts(posts, groupPosts, likes, viewers)
    ensures ValidPosts(WithoutPost(posts, id), groupPosts, LikesNotOf(likes, id), ViewersNotOf(viewers, id))
  {
    var r := WithoutPost(posts, id);
    forall x | x != id && FindPost(posts, x).Some? ensures FindPost(r, x).Some? {
      assert FindPost(posts, x).value in r;
    }
    forall x | x != id && GetPostById(posts, groupPosts, x).Some? ensures GetPostById(r, groupPosts, x).Some? {
      if FindPost(posts, x).Some? {
        assert FindPost(posts, x).value in r;
      }
    }
    forall i | 0 <= i < |r| ensures r[i].likesCount == LikeCount(LikesNotOf(likes, id), r[i].id) {
      assert r[i] in r;
      var j :| 0 <= j < |posts| && posts[j] == r[i];
      CountNotOf(likes, id, r[i].id);
    }
    DistinctNotOf(likes, id);
  }

  /** An update of either table that keeps every id and like counter keeps the invariant. */
  lemma ValidAfterEdit(posts: seq<Post>, groupPosts: seq<Post>, likes: seq<Like>, viewers: seq<Viewer>, id: int, f: Post -> Post)
    requires ValidPosts(posts, groupPosts, likes, viewers)
    requires forall p :: f(p).id == p.id && f(p).likesCount == p.likesCount
    ensures ValidPosts(Updated(posts, id, f), groupPosts, likes, viewers)
    ensures ValidPosts(posts, Updated(groupPosts, id, f), likes, viewers)
  {
    UpdatedKeepsIds(posts, id, f);
    UpdatedFindsSame(groupPosts, id, f);
  }

  /** The outcome of `UpdatePostCommentCount`: the new count, and both tables afterwards. */
  datatype CountUpdate = CountUpdate(result: Result<int>, posts: seq<Post>, groupPosts: seq<Post>)

  /**
   * `UpdatePostCommentCount`: the row in `posts` in preference to the one in `group_posts`;
   * one up or one down (without a floor), and the new count back.
   */
  function CommentCountUpdate(posts: seq<Post>, groupPosts: seq<Post>, id: int, increase: bool): (u: CountUpdate)
    ensures u.result.Err? <==> FindPost(posts, id).None? && FindPost(groupPosts, id).None?
    ensures u.result.Err? ==> u == CountUpdate(Err("post not found in either posts or group_posts"), posts, groupPosts)
    ensures FindPost(posts, id).Some? ==>
      u.result == Ok(FindPost(posts, id).value.commentsCount + (if increase then 1 else -1))
      && u.posts == Updated(posts, id, CommentStep(increase)) && u.groupPosts == groupPosts
    ensures FindPost(posts, id).None? && FindPost(groupPosts, id).Some? ==>
      u.result == Ok(FindPost(groupPosts, id).value.commentsCount + (if increase then 1 else -1))
      && u.groupPosts == Updated(groupPosts, id, CommentStep(increase)) && u.posts == posts
  {
    match FindPost(posts, id)
    case Some(p) => CountUpdate(Ok(CommentStep(increase)(p).commentsCount), Updated(posts, id, CommentStep(increase)), groupPosts)
    case None =>
      match FindPost(groupPosts, id)
      case Some(g) => CountUpdate(Ok(CommentStep(increase)(g).commentsCount), posts, Updated(groupPosts, id, CommentStep(increase)))
      case None => CountUpdate(Err("post not found in either posts or group_posts"), posts, groupPosts)
  }

  /** The count `UpdatePostCommentCount` returns is the one now stored for the post. */
  lemma CommentCountStored(posts: seq<Post>, groupPosts: seq<Post>, id: int, increase: bool)
    requires UniqueIds(posts) && UniqueIds(groupPosts)
    ensures var u := CommentCountUpdate(posts, groupPosts, id, increase);
      u.result.Ok? ==>
        ((FindPost(u.posts, id).Some? && u.result.value == FindPost(u.posts, id).value.commentsCount)
         || (FindPost(u.groupPosts, id).Some? && u.result.value == FindPost(u.groupPosts, id).value.commentsCount))
  {
    FindUpdated(posts, id, CommentStep(increase), id);
    FindUpdated(groupPosts, id, CommentStep(increase), id);
  }

  // ---------------------------------------------------------------- the store

  class PostStore {
    var posts: seq<Post>
    var groupPosts: seq<Post>
    var viewers: seq<Viewer>
    var likes: seq<Like>
    var comments: seq<Comment>
    var stats: Table

    ghost predicate Valid()
      reads this
    {
      ValidPosts(posts, groupPosts, likes, viewers) && NonNegative(stats)
    }

    constructor(groupPosts: seq<Post>)
      ensures this.groupPosts == groupPosts
      ensures posts == [] && viewers == [] && likes == [] && comments == [] && stats == map[]
      ensures Valid()
    {
      this.groupPosts := groupPosts;
      posts, viewers, likes, comments, stats := [], [], [], [], map[];
    }

    /** `CreatePost`: a row with the next shared id and no likes or comments. */
    method CreatePost(userId: string, content: string, privacy: string) returns (p: Post)
      modifies this
      ensures p == Post(NextPostId(old(posts), groupPosts), userId, content, privacy, 0, 0)
      ensures posts == old(posts) + [p]
      ensures FindPost(old(posts), p.id).None? && FindPost(groupPosts, p.id).None?
      ensures old(Valid()) ==> Valid()
      ensures groupPosts == old(groupPosts) && viewers == old(viewers) && likes == old(likes)
      ensures comments == old(comments) && stats == old(stats)
    {
      p := Post(NextPostId(posts, groupPosts), userId, content, privacy, 0, 0);
      if Valid() {
        ValidAfterCreate(posts, groupPosts, likes, viewers, p);
      }
      posts := posts + [p];
    }

    /** `UpdatePost`: the content and privacy of the row with the id. */
    method UpdatePost(id: int, content: string, privacy: string)
      modifies this
      ensures posts == Updated(old(posts), id, Edit(content, privacy))
      ensures old(Valid()) ==> Valid()
      ensures groupPosts == old(groupPosts) && viewers == old(viewers) && likes == old(likes)
      ensures comments == old(comments) && stats == old(stats)
    {
      var f := Edit(content, privacy);
      if Valid() {
        ValidAfterEdit(posts, groupPosts, likes, viewers, id, f);
      }
      posts := Updated(posts, id, f);
    }

    /** `DeletePost` as written: only the `posts` row goes; its like and viewer rows stay. */
    method DeletePost(id: int)
      modifies this
      ensures posts == WithoutPost(old(posts), id)
      ensures viewers == old(viewers) && likes == old(likes)
      ensures groupPosts == old(groupPosts) && comments == old(comments) && stats == old(stats)
    {
      posts := WithoutPost(posts, id);
    }

    /** `DeletePost` that also deletes the post's like and viewer rows. */
    method DeletePostCascade(id: int)
      modifies this
      ensures posts == WithoutPost(old(posts), id)
      ensures likes == LikesNotOf(old(likes), id) && viewers == ViewersNotOf(old(viewers), id)
      ensures old(Valid()) ==> Valid()
      ensures groupPosts == old(groupPosts) && comments == old(comments) && stats == old(stats)
    {
      if Valid() {
        ValidAfterCascade(posts, groupPosts, likes, viewers, id);
      }
      posts := WithoutPost(posts, id);
      likes := LikesNotOf(likes, id);
      viewers := ViewersNotOf(viewers, id);
    }

    /** `AddPostViewer`. */
    method AddPostViewer(id: int, u: string)
      modifies this
      ensures viewers == old(viewers) + [Viewer(id, u)]
      ensures old(Valid()) && GetPostById(posts, groupPosts, id).Some? ==> Valid()
      ensures posts == old(posts) && groupPosts == old(groupPosts) && likes == old(likes)
      ensures comments == old(comments) && stats == old(stats)
    {
      viewers := viewers + [Viewer(id, u)];
    }

    /** `RemovePostViewer`: every row of the pair. */
    method RemovePostViewer(id: int, u: string)
      modifies this
      ensures forall v :: v in viewers <==> v in old(viewers) && v != Viewer(id, u)
      ensures old(Valid()) ==> Valid()
      ensures posts == old(posts) && groupPosts == old(groupPosts) && likes == old(likes)
      ensures comments == old(comments) && stats == old(stats)
    {
      var kept := [];
      var i := 0;
      while i < |viewers|
        invariant 0 <= i <= |viewers|
        invariant forall v :: v in kept <==> v in viewers[..i] && v != Viewer(id, u)
      {
        if viewers[i] != Viewer(id, u) {
          kept := kept + [viewers[i]];
        }
        assert viewers[..i + 1] == viewers[..i] + [viewers[i]];
        i := i + 1;
      }
      assert viewers[..i] == viewers;
      viewers := kept;
    }

    /** `LikePost`: a like row and `likes_count + 1` in both tables. */
    method LikePost(id: int, u: string)
      modifies this
      ensures likes == old(likes) + [Like(id, u)]
      ensures posts == Updated(old(posts), id, PlusLike) && groupPosts == Updated(old(groupPosts), id, PlusLike)
      ensures old(Valid()) && Like(id, u) !in old(likes) && GetPostById(old(posts), old(groupPosts), id).Some? ==> Valid()
      ensures viewers == old(viewers) && comments == old(comments) && stats == old(stats)
    {
      if Valid() && Like(id, u) !in likes && GetPostById(posts, groupPosts, id).Some? {
        ValidAfterLike(posts, groupPosts, likes, viewers, Like(id, u));
      }
      likes := likes + [Like(id, u)];
      posts := Updated(posts, id, PlusLike);
      groupPosts := Updated(groupPosts, id, PlusLike);
    }

    /** `UnlikePost`: the pair's rows go; the counts drop (not below 0) only when a row went. */
    method UnlikePost(id: int, u: string)
      modifies this
      ensures likes == Unliked(old(likes), Like(id, u))
      ensures Like(id, u) in old(likes) ==>
        posts == Updated(old(posts), id, MinusLike) && groupPosts == Updated(old(groupPosts), id, MinusLike)
      ensures Like(id, u) !in old(likes) ==> posts == old(posts) && groupPosts == old(groupPosts)
      ensures old(Valid()) ==> Valid()
      ensures viewers == old(viewers) && comments == old(comments) && stats == old(stats)
    {
      var removed := Like(id, u) in likes;
      if Valid() && removed {
        ValidAfterUnlike(posts, groupPosts, likes, viewers, Like(id, u));
      }
      if !removed {
        UnlikedAbsent(likes, Like(id, u));
      }
      likes := Unliked(likes, Like(id, u));
      if removed {
        posts := Updated(posts, id, MinusLike);
        groupPosts := Updated(groupPosts, id, MinusLike);
      }
    }

    /** `UpdatePostCommentCount`, as `CommentCountUpdate` describes it. */
    method UpdatePostCommentCount(id: int, increase: bool) returns (r: Result<int>)
      modifies this
      ensures var u := CommentCountUpdate(old(posts), old(groupPosts), id, increase);
        r == u.result && posts == u.posts && groupPosts == u.groupPosts
      ensures old(Valid()) ==> Valid()
      ensures viewers == old(viewers) && likes == old(likes) && comments == old(comments) && stats == old(stats)
    {
      var u := CommentCountUpdate(posts, groupPosts, id, increase);
      if Valid() {
        ValidAfterEdit(posts, groupPosts, likes, viewers, id, CommentStep(increase));
      }
      r, posts, groupPosts := u.result, u.posts, u.groupPosts;
    }

    /** `CreateComment`, with the id the database assigns. */
    method CreateComment(c: Comment)
      modifies this
      ensures comments == old(comments) + [c]
      ensures posts == old(posts) && groupPosts == old(groupPosts) && viewers == old(viewers)
      ensures likes == old(likes) && stats == old(stats)
    {
      comments := comments + [c];
    }

    /** `DeleteComment`: the comment with the id. */
    method DeleteComment(id: int)
      modifies this
      ensures forall c :: c in comments <==> c in old(comments) && c.id != id
      ensures posts == old(posts) && groupPosts == old(groupPosts) && viewers == old(viewers)
      ensures likes == old(likes) && stats == old(stats)
    {
      comments := CommentsWithout(comments, id);
    }

    /** `UpdateUserStats`: `posts_count` is set to the user's number of posts; other columns step by one. */
    method UpdateUserStats(u: string, column: string, increment: bool) returns (count: int)
      requires NonNegative(stats)
      ensures old(Valid()) ==> Valid()
      modifies this
      ensures column == PostsColumn ==> count == PostsOf(posts, u) && stats == SetStat(old(stats), u, column, count)
      ensures column != PostsColumn ==>
        stats == Bump(old(stats), u, column, increment) && count == Get(stats, u, column)
      ensures NonNegative(stats) && Get(stats, u, column) == count
      ensures forall v, c :: (v, c) != (u, column) ==> Get(stats, v, c) == Get(old(stats), v, c)
      ensures posts == old(posts) && groupPosts == old(groupPosts) && viewers == old(viewers)
      ensures likes == old(likes) && comments == old(comments)
    {
      if column == PostsColumn {
        count := PostsOf(posts, u);
        stats := SetStat(stats, u, column, count);
      } else {
        BumpStep(stats, u, column, increment);
        stats := Bump(stats, u, column, increment);
        count := Get(stats, u, column);
      }
    }
  }

  /** The comments other than the one with `id`. */
  function CommentsWithout(comments: seq<Comment>, id: int): (r: seq<Comment>)
    ensures forall c :: c in r <==> c in comments && c.id != id
  {
    if comments == [] then []
    else
      assert forall c :: c in comments <==> c == comments[0] || c in comments[1..];
      (if comments[0].id == id then [] else [comments[0]]) + CommentsWithout(comments[1..], id)
  }

  /** `SELECT COUNT(*) FROM posts WHERE user_id = ?`. */
  function PostsOf(posts: seq<Post>, u: string): (n: nat)
    ensures n <= |posts|
    ensures n == 0 <==> forall p :: p in posts ==> p.userId != u
  {
    if posts == [] then 0
    else
      assert forall p :: p in posts <==> p == posts[0] || p in posts[1..];
      (if posts[0].userId == u then 1 else 0) + PostsOf(posts[1..], u)
  }

  /** `updateUserStatsWithValue`: the column of an existing row, or a new row holding only it. */
  function SetStat(stats: Table, u: string, column: string, value: int): (r: Table)
    ensures Get(r, u, column) == value
    ensures forall v, c :: (v, c) != (u, column) ==> Get(r, v, c) == Get(stats, v, c)
    ensures NonNegative(stats) && value >= 0 ==> NonNegative(r)
  {
    if u in stats then stats[u := stats[u][column := value]] else stats[u := map[column := value]]
  }
}
