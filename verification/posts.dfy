/** The post routes: the following-scoped feed and the explore listing with
    their pagination, single-post reads, creation, deletion with its cascade
    to comments, the like and save toggles, and adding and deleting
    comments. */
module Posts {
  import opened Base
  import opened Text
  import opened Models
  import opened Database

  // ---------------------------------------------------------------------
  // Pagination.

  const FeedPageSize: nat := 10
  const ExplorePageSize: nat := 12

  datatype Paging = Paging(page: nat, limit: nat, skip: nat)

  /** `parseInt(q) || default` for page and limit (0 stands for an absent or
      zero parameter), and `skip = (page - 1) * limit`. */
  function ReadPaging(page: nat, limit: nat, defaultLimit: nat): (p: Paging)
    requires defaultLimit > 0
    ensures p.page >= 1 && p.limit >= 1
    ensures p.page == (if page == 0 then 1 else page)
    ensures p.limit == (if limit == 0 then defaultLimit else limit)
    ensures p.skip == (p.page - 1) * p.limit
  {
    var pg := if page == 0 then 1 else page;
    var lim := if limit == 0 then defaultLimit else limit;
    Paging(pg, lim, (pg - 1) * lim)
  }

  /** `Math.ceil(total / limit)`: the fewest pages of `limit` items that hold
      `total` items. */
  function PageCount(total: nat, limit: nat): (pages: nat)
    requires limit > 0
    ensures pages * limit >= total
    ensures pages > 0 ==> (pages - 1) * limit < total
    ensures total == 0 <==> pages == 0
  {
    (total + limit - 1) / limit
  }

  /** Every item of a listing is on exactly the page its index says, and
      that page is within the page count. */
  lemma EveryItemOnItsPage<T>(xs: seq<T>, limit: nat, i: nat)
    requires limit > 0 && i < |xs|
    ensures var page := i / limit + 1;
      && page <= PageCount(|xs|, limit)
      && var w := Window(xs, (page - 1) * limit, limit);
         i % limit < |w| && w[i % limit] == xs[i]
  {
    var page := i / limit + 1;
    var skip := (page - 1) * limit;
    assert skip + i % limit == i;
    assert skip <= i < |xs|;
    var pages := PageCount(|xs|, limit);
    assert (page - 1) * limit < pages * limit;
    MulLess(page - 1, pages, limit);
  }

  lemma MulLess(a: nat, b: nat, k: nat)
    requires k > 0 && a * k < b * k
    ensures a < b
  {
    assert (b - a) * k == b * k - a * k;
  }

  // ---------------------------------------------------------------------
  // Feed and explore.

  datatype FeedItem = FeedItem(post: Id, isLiked: bool, isSaved: bool)
  datatype Pagination = Pagination(page: nat, pages: nat, total: nat)
  datatype Feed = Feed(items: seq<FeedItem>, pagination: Pagination)

  /** The authors whose posts the actor's feed shows: everyone followed, and
      the actor. */
  function FeedAuthors(s: Store, actor: Id): (authors: set<Id>)
    requires actor in s.users
    ensures forall a :: a in authors <==> a == actor || a in s.users[actor].following
  {
    (set a | a in s.users[actor].following) + {actor}
  }

  function ItemIds(items: seq<FeedItem>): (ids: seq<Id>)
    ensures |ids| == |items| && forall i | 0 <= i < |items| :: ids[i] == items[i].post
  {
    seq(|items|, i requires 0 <= i < |items| => items[i].post)
  }

  function Annotate(s: Store, actor: Id, ids: seq<Id>): (items: seq<FeedItem>)
    requires forall i | 0 <= i < |ids| :: ids[i] in s.posts
    ensures ItemIds(items) == ids
    ensures forall i | 0 <= i < |items| ::
      && items[i].isLiked == (actor in s.posts[ids[i]].likes)
      && items[i].isSaved == (actor in s.posts[ids[i]].savedBy)
  {
    seq(|ids|, i requires 0 <= i < |ids| =>
      FeedItem(ids[i], actor in s.posts[ids[i]].likes, actor in s.posts[ids[i]].savedBy))
  }

  /** GET /posts: the page of the feed, newest first, each post flagged with
      the actor's like and save, and the count of all matching posts. */
  function GetFeed(s: Store, actor: Id, page: nat, limit: nat): (r: Response<Feed>)
    requires actor in s.users && IdsFresh(s)
    ensures r.Ok? && r.status == 200
    ensures var p, f := ReadPaging(page, limit, FeedPageSize), r.data;
      var all := PostsBy(s, FeedAuthors(s, actor));
      && f.pagination.page == p.page
      && f.pagination.total == |PostsOf(s, FeedAuthors(s, actor))|
      && f.pagination.pages == PageCount(f.pagination.total, p.limit)
      && |f.items| <= p.limit
      && ItemIds(f.items) == Window(all, p.skip, p.limit)
      && NoDup(ItemIds(f.items)) && NewestFirst(s, ItemIds(f.items))
      && forall i | 0 <= i < |f.items| ::
           && f.items[i].post in s.posts
           && s.posts[f.items[i].post].user in FeedAuthors(s, actor)
           && f.items[i].isLiked == (actor in s.posts[f.items[i].post].likes)
           && f.items[i].isSaved == (actor in s.posts[f.items[i].post].savedBy)
  {
    var p := ReadPaging(page, limit, FeedPageSize);
    var all := PostsBy(s, FeedAuthors(s, actor));
    var ids := Window(all, p.skip, p.limit);
    assert forall i | 0 <= i < |ids| :: ids[i] in all;
    WindowKeepsOrder(s, all, p.skip, p.limit);
    var total := |all|;
    Ok(200, Feed(Annotate(s, actor, ids), Pagination(p.page, PageCount(total, p.limit), total)))
  }

  /** A window of a duplicate-free, newest-first list is duplicate-free and
      newest first. */
  lemma WindowKeepsOrder(s: Store, xs: seq<Id>, skip: nat, limit: nat)
    requires NoDup(xs) && NewestFirst(s, xs)
    ensures NoDup(Window(xs, skip, limit)) && NewestFirst(s, Window(xs, skip, limit))
  {
    var w := Window(xs, skip, limit);
    forall i, j | 0 <= i < j < |w| ensures w[i] != w[j] && CreatedAt(s, w[i]) >= CreatedAt(s, w[j]) {
      assert w[i] == xs[skip + i] && w[j] == xs[skip + j];
    }
  }

  datatype ExploreItem = ExploreItem(post: Id, isLiked: bool)

  /** GET /posts/explore. The route asks the database to sort on a virtual
      field, so the order is the database's own: it is the `order`
      parameter, any arrangement of all posts. */
  function Explore(s: Store, viewer: Option<Id>, order: seq<Id>, page: nat, limit: nat): (r: Response<seq<ExploreItem>>)
    requires NoDup(order) && forall id :: id in order <==> id in s.posts
    ensures r.Ok? && r.status == 200
    ensures var p := ReadPaging(page, limit, ExplorePageSize);
      && |r.data| <= p.limit
      && (p.skip < |order| ==> |r.data| == if |order| - p.skip < p.limit then |order| - p.skip else p.limit)
      && forall i | 0 <= i < |r.data| ::
           && p.skip + i < |order| && r.data[i].post == order[p.skip + i]
           && r.data[i].post in s.posts
           && r.data[i].isLiked == (viewer.Some? && viewer.value in s.posts[r.data[i].post].likes)
  {
    var p := ReadPaging(page, limit, ExplorePageSize);
    var ids := Window(order, p.skip, p.limit);
    assert forall i | 0 <= i < |ids| :: ids[i] in order;
    Ok(200, seq(|ids|, i requires 0 <= i < |ids| =>
      ExploreItem(ids[i], viewer.Some? && viewer.value in s.posts[ids[i]].likes)))
  }

  datatype PostView = PostView(post: Post, isLiked: bool, isSaved: bool)

  /** GET /posts/:id, with or without a signed-in viewer. */
  function GetPost(s: Store, viewer: Option<Id>, id: Id): (r: Response<PostView>)
    ensures id !in s.posts ==> r == Err(404, "Post not found")
    ensures id in s.posts ==>
      && r.Ok? && r.status == 200 && r.data.post == s.posts[id]
      && r.data.isLiked == (viewer.Some? && viewer.value in s.posts[id].likes)
      && r.data.isSaved == (viewer.Some? && viewer.value in s.posts[id].savedBy)
  {
    if id !in s.posts then Err(404, "Post not found")
    else
      var p := s.posts[id];
      Ok(200, PostView(p, viewer.Some? && viewer.value in p.likes,
        viewer.Some? && viewer.value in p.savedBy))
  }

  // ---------------------------------------------------------------------
  // Create and delete.

  /** The multipart body of POST /posts; `None` is a field left out. */
  datatype PostBody = PostBody(image: Option<string>, caption: Option<string>, location: Option<string>)

  /** POST /posts. */
  function CreatePost(s: Store, actor: Id, now: Time, body: PostBody, file: Option<string>): (r: Step<Id>)
    requires actor in s.users
    ensures !Truthy(ImageUrl(body.image, file)) ==> r == Step(s, Err(400, "Image is required"))
    ensures r.response.Err? ==> r.store == s
    ensures r.response.Ok? <==>
      && Truthy(ImageUrl(body.image, file))
      && PostFieldsOk(NewPost(actor, ImageUrl(body.image, file).value, body.caption, body.location, now))
    ensures r.response.Err? && r.response.status != 400 ==> r.response.status == 500
    ensures r.response.Ok? ==>
      var id := r.response.data;
      && r.response.status == 201
      && id == s.nextId && id in r.store.posts
      && r.store.posts == s.posts[id := r.store.posts[id]]
      && r.store.posts[id] == NewPost(actor, ImageUrl(body.image, file).value, body.caption, body.location, now)
      && r.store.users == s.users && r.store.comments == s.comments && r.store.stories == s.stories
      && r.store.nextId == s.nextId + 1
  {
    var url := ImageUrl(body.image, file);
    if !Truthy(url) then Step(s, Err(400, "Image is required"))
    else
      var p := NewPost(actor, url.value, body.caption, body.location, now);
      var errs := PostErrors(p);
      if errs != [] then Step(s, Err(500, ValidationMessage("Post validation failed", errs)))
      else Step(s.(posts := s.posts[s.nextId := p], nextId := s.nextId + 1), Ok(201, s.nextId))
  }

  /** DELETE /posts/:id: the owner only; the post's comments go first, then
      the post. */
  function DeletePost(s: Store, actor: Id, id: Id): (r: Step<string>)
    requires actor in s.users
    ensures id !in s.posts ==> r == Step(s, Err(404, "Post not found"))
    ensures id in s.posts && s.posts[id].user != actor ==>
      r == Step(s, Err(403, "Not authorized to delete this post"))
    ensures r.response.Ok? <==> id in s.posts && s.posts[id].user == actor
    ensures r.response.Ok? ==>
      && r.response == Ok(200, "Post deleted successfully")
      && r.store.posts == s.posts - {id}
      && (forall c :: c in r.store.comments <==> c in s.comments && s.comments[c].post != id)
      && (forall c | c in r.store.comments :: r.store.comments[c] == s.comments[c])
      && r.store.users == s.users && r.store.stories == s.stories && r.store.nextId == s.nextId
  {
    if id !in s.posts then Step(s, Err(404, "Post not found"))
    else if s.posts[id].user != actor then Step(s, Err(403, "Not authorized to delete this post"))
    else
      var kept := map c | c in s.comments && s.comments[c].post != id :: s.comments[c];
      Step(s.(comments := kept, posts := s.posts - {id}), Ok(200, "Post deleted successfully"))
  }

  // ---------------------------------------------------------------------
  // Like and save toggles.

  /** Only post `id` may differ, and it keeps its key. */
  predicate OnlyPostChanged(s: Store, t: Store, id: Id) {
    && t.users == s.users && t.comments == s.comments && t.stories == s.stories
    && t.nextId == s.nextId && t.posts.Keys == s.posts.Keys
    && forall q | q in s.posts && q != id :: t.posts[q] == s.posts[q]
  }

  /** `includes` then `pull` or `push`: toggles `x`'s membership. */
  function Toggle(xs: seq<Id>, x: Id): (r: seq<Id>)
    ensures x in r <==> x !in xs
    ensures forall y | y != x :: y in r <==> y in xs
    ensures NoDup(xs) ==> NoDup(r) && |r| == if x in xs then |xs| - 1 else |xs| + 1
  {
    if x in xs then Pull(xs, x) else xs + [x]
  }

  datatype LikeResult = LikeResult(isLiked: bool, likesCount: nat)

  /** POST /posts/:id/like. */
  function ToggleLike(s: Store, actor: Id, id: Id): (r: Step<LikeResult>)
    requires actor in s.users
    ensures id !in s.posts ==> r == Step(s, Err(404, "Post not found"))
    ensures OnlyPostChanged(s, r.store, id)
    ensures id in s.posts ==>
      var before, after := s.posts[id], r.store.posts[id];
      && r.response.Ok? && r.response.status == 200
      && r.response.data.isLiked == (actor !in before.likes)
      && r.response.data.isLiked == (actor in after.likes)
      && r.response.data.likesCount == LikesCount(after)
      && (forall x | x != actor :: x in after.likes <==> x in before.likes)
      && (NoDup(before.likes) ==>
            NoDup(after.likes)
            && LikesCount(after) == if actor in before.likes then LikesCount(before) - 1 else LikesCount(before) + 1)
      && after == before.(likes := after.likes)
  {
    if id !in s.posts then Step(s, Err(404, "Post not found"))
    else
      var p := s.posts[id];
      var liked := actor in p.likes;
      var q := p.(likes := Toggle(p.likes, actor));
      Step(s.(posts := s.posts[id := q]), Ok(200, LikeResult(!liked, LikesCount(q))))
  }

  /** POST /posts/:id/save. */
  function ToggleSave(s: Store, actor: Id, id: Id): (r: Step<bool>)
    requires actor in s.users
    ensures id !in s.posts ==> r == Step(s, Err(404, "Post not found"))
    ensures OnlyPostChanged(s, r.store, id)
    ensures id in s.posts ==>
      var before, after := s.posts[id], r.store.posts[id];
      && r.response.Ok? && r.response.status == 200
      && r.response.data == (actor !in before.savedBy)
      && r.response.data == (actor in after.savedBy)
      && (forall x | x != actor :: x in after.savedBy <==> x in before.savedBy)
      && (NoDup(before.savedBy) ==> NoDup(after.savedBy))
      && after.likes == before.likes
      && after == before.(savedBy := after.savedBy)
  {
    if id !in s.posts then Step(s, Err(404, "Post not found"))
    else
      var p := s.posts[id];
      var saved := actor in p.savedBy;
      Step(s.(posts := s.posts[id := p.(savedBy := Toggle(p.savedBy, actor))]), Ok(200, !saved))
  }

  /** Reading a post back after a like toggle: the toggling user sees the
      new like state and count, their save state is untouched, and every
      other viewer sees what they saw before. */
  lemma GetPostAfterToggleLike(s: Store, actor: Id, id: Id, viewer: Id)
    requires actor in s.users && id in s.posts
    ensures var r := ToggleLike(s, actor, id);
      var before, after := GetPost(s, Some(viewer), id), GetPost(r.store, Some(viewer), id);
      && after.Ok?
      && after.data.isSaved == before.data.isSaved
      && (viewer == actor ==> after.data.isLiked == r.response.data.isLiked)
      && (viewer == actor ==> LikesCount(after.data.post) == r.response.data.likesCount)
      && (viewer != actor ==> after.data.isLiked == before.data.isLiked)
  {
  }

  /** Reading a post back after a save toggle: the toggling user sees the
      new save state, their like state is untouched, and every other viewer
      sees what they saw before. */
  lemma GetPostAfterToggleSave(s: Store, actor: Id, id: Id, viewer: Id)
    requires actor in s.users && id in s.posts
    ensures var r := ToggleSave(s, actor, id);
      var before, after := GetPost(s, Some(viewer), id), GetPost(r.store, Some(viewer), id);
      && after.Ok?
      && after.data.isLiked == before.data.isLiked
      && (viewer == actor ==> after.data.isSaved == r.response.data)
      && (viewer != actor ==> after.data.isSaved == before.data.isSaved)
  {
  }

  /** Toggling twice from the un-toggled state restores the list exactly. */
  lemma ToggleTwiceFromAbsent(xs: seq<Id>, x: Id)
    requires x !in xs
    ensures Toggle(Toggle(xs, x), x) == xs
  {
    PullUndoesPush(xs, x);
  }

  /** Liking twice restores the liked state, the count and the set of
      likers. From the liked state the actor ends up at the end of the list,
      so only membership is restored. */
  lemma ToggleLikeTwice(s: Store, actor: Id, id: Id)
    requires actor in s.users && id in s.posts && NoDup(s.posts[id].likes)
    ensures var r1 := ToggleLike(s, actor, id);
      var r2 := ToggleLike(r1.store, actor, id);
      && r2.response.Ok?
      && r2.response.data.isLiked == (actor in s.posts[id].likes)
      && r2.response.data.likesCount == LikesCount(s.posts[id])
      && (forall x :: x in r2.store.posts[id].likes <==> x in s.posts[id].likes)
  {
  }

  /** From the not-liked state, liking twice restores the whole store. */
  lemma ToggleLikeTwiceRestores(s: Store, actor: Id, id: Id)
    requires actor in s.users && id in s.posts && actor !in s.posts[id].likes
    ensures ToggleLike(ToggleLike(s, actor, id).store, actor, id).store == s
  {
    var p := s.posts[id];
    ToggleTwiceFromAbsent(p.likes, actor);
    var s1 := ToggleLike(s, actor, id).store;
    var s2 := ToggleLike(s1, actor, id).store;
    assert s2.posts[id] == p;
    assert s2.posts == s.posts;
  }

  /** Saving twice restores the saved state and the set of savers. Likes are
      never touched. */
  lemma ToggleSaveTwice(s: Store, actor: Id, id: Id)
    requires actor in s.users && id in s.posts
    ensures var r1 := ToggleSave(s, actor, id);
      var r2 := ToggleSave(r1.store, actor, id);
      && r2.response == Ok(200, actor in s.posts[id].savedBy)
      && (forall x :: x in r2.store.posts[id].savedBy <==> x in s.posts[id].savedBy)
      && r2.store.posts[id].likes == s.posts[id].likes
  {
  }

  /** From the not-saved state, saving twice restores the whole store. */
  lemma ToggleSaveTwiceRestores(s: Store, actor: Id, id: Id)
    requires actor in s.users && id in s.posts && actor !in s.posts[id].savedBy
    ensures ToggleSave(ToggleSave(s, actor, id).store, actor, id).store == s
  {
    var p := s.posts[id];
    ToggleTwiceFromAbsent(p.savedBy, actor);
    var s1 := ToggleSave(s, actor, id).store;
    var s2 := ToggleSave(s1, actor, id).store;
    assert s2.posts[id] == p;
    assert s2.posts == s.posts;
  }

  // ---------------------------------------------------------------------
  // Comments.

  /** POST /posts/:id/comment. The text check comes before the post lookup. */
  function AddComment(s: Store, actor: Id, id: Id, text: Option<string>, now: Time): (r: Step<Id>)
    requires actor in s.users
    ensures !Truthy(text) || IsBlank(text.value) ==> r == Step(s, Err(400, "Comment text is required"))
    ensures Truthy(text) && !IsBlank(text.value) && id !in s.posts ==> r == Step(s, Err(404, "Post not found"))
    ensures r.response.Err? ==> r.store == s
    ensures r.response.Ok? <==>
      Truthy(text) && !IsBlank(text.value) && id in s.posts && |Trim(text.value)| <= CommentMaxLength
    ensures r.response.Ok? ==>
      && r.response == Ok(201, s.nextId)
      && r.store.comments == s.comments[s.nextId := NewComment(actor, id, Trim(text.value), now)]
      && IsTrimmed(Trim(text.value)) && 0 < |Trim(text.value)| <= CommentMaxLength
      && r.store.posts == s.posts[id := s.posts[id].(comments := s.posts[id].comments + [s.nextId])]
      && r.store.users == s.users && r.store.stories == s.stories
      && r.store.nextId == s.nextId + 1
  {
    if !Truthy(text) || IsBlank(text.value) then Step(s, Err(400, "Comment text is required"))
    else if id !in s.posts then Step(s, Err(404, "Post not found"))
    else
      var c := NewComment(actor, id, Trim(text.value), now);
      var errs := CommentErrors(c);
      if errs != [] then Step(s, Err(500, ValidationMessage("Comment validation failed", errs)))
      else Step(AttachComment(s, c), Ok(201, s.nextId))
  }

  /** Stores `c` under the next id and appends that id to its post's list. */
  function AttachComment(s: Store, c: Comment): (t: Store)
    requires c.post in s.posts
    ensures t.comments == s.comments[s.nextId := c]
    ensures t.posts == s.posts[c.post := s.posts[c.post].(comments := s.posts[c.post].comments + [s.nextId])]
    ensures t.users == s.users && t.stories == s.stories && t.nextId == s.nextId + 1
  {
    var p := s.posts[c.post];
    s.(comments := s.comments[s.nextId := c],
       posts := s.posts[c.post := p.(comments := p.comments + [s.nextId])],
       nextId := s.nextId + 1)
  }

  /** DELETE /posts/:postId/comment/:commentId, as the route is written: the
      comment's id is pulled from the post named in the URL, whichever post
      the comment belongs to. */
  function DeleteCommentAsWritten(s: Store, actor: Id, postId: Id, commentId: Id): (r: Step<string>)
    requires actor in s.users
    ensures commentId !in s.comments ==> r == Step(s, Err(404, "Comment not found"))
    ensures commentId in s.comments && s.comments[commentId].user != actor ==>
      r == Step(s, Err(403, "Not authorized to delete this comment"))
    ensures r.response.Ok? <==> commentId in s.comments && s.comments[commentId].user == actor
    ensures r.response.Ok? ==>
      && r.response == Ok(200, "Comment deleted successfully")
      && r.store.comments == s.comments - {commentId}
      && (postId in s.posts ==> r.store.posts == s.posts[postId := s.posts[postId].(comments := Pull(s.posts[postId].comments, commentId))])
      && (postId !in s.posts ==> r.store.posts == s.posts)
      && r.store.users == s.users && r.store.stories == s.stories && r.store.nextId == s.nextId
  {
    if commentId !in s.comments then Step(s, Err(404, "Comment not found"))
    else if s.comments[commentId].user != actor then
      Step(s, Err(403, "Not authorized to delete this comment"))
    else
      var posts :=
        if postId in s.posts then
          s.posts[postId := s.posts[postId].(comments := Pull(s.posts[postId].comments, commentId))]
        else s.posts;
      Step(s.(posts := posts, comments := s.comments - {commentId}), Ok(200, "Comment deleted successfully"))
  }

  /** When the URL names another post than the comment's own, the route
      deletes the comment but leaves its id in its real post's list: the
      post's `commentsCount` still counts a comment that no longer exists. */
  lemma DeleteCommentAsWrittenLeavesDangling(s: Store, actor: Id, postId: Id, commentId: Id)
    requires CommentsOk(s) && actor in s.users
    requires commentId in s.comments && s.comments[commentId].user == actor
    requires s.comments[commentId].post != postId
    ensures var t := DeleteCommentAsWritten(s, actor, postId, commentId).store;
      var owner := s.comments[commentId].post;
      && owner in t.posts && commentId in t.posts[owner].comments && commentId !in t.comments
      && CommentsCount(t.posts[owner]) == CommentsCount(s.posts[owner])
      && !Valid(t)
  {
    var t := DeleteCommentAsWritten(s, actor, postId, commentId).store;
    var owner := s.comments[commentId].post;
    assert CommentOk(s, commentId, s.comments[commentId]);
    assert t.posts[owner] == s.posts[owner];
  }

  /** DELETE /posts/:postId/comment/:commentId, with the comment's id pulled
      from the post it belongs to. */
  function DeleteComment(s: Store, actor: Id, postId: Id, commentId: Id): (r: Step<string>)
    requires actor in s.users
    ensures commentId !in s.comments ==> r == Step(s, Err(404, "Comment not found"))
    ensures commentId in s.comments && s.comments[commentId].user != actor ==>
      r == Step(s, Err(403, "Not authorized to delete this comment"))
    ensures r.response.Ok? <==> commentId in s.comments && s.comments[commentId].user == actor
    ensures r.response.Ok? ==>
      var owner := s.comments[commentId].post;
      && r.response == Ok(200, "Comment deleted successfully")
      && r.store.comments == s.comments - {commentId}
      && r.store.posts.Keys == s.posts.Keys
      && (owner in s.posts ==>
            forall c :: c in r.store.posts[owner].comments <==> c in s.posts[owner].comments && c != commentId)
      && (forall q | q in s.posts && q != owner :: r.store.posts[q] == s.posts[q])
      && r.store.users == s.users && r.store.stories == s.stories && r.store.nextId == s.nextId
  {
    if commentId !in s.comments then Step(s, Err(404, "Comment not found"))
    else if s.comments[commentId].user != actor then
      Step(s, Err(403, "Not authorized to delete this comment"))
    else
      var owner := s.comments[commentId].post;
      var posts :=
        if owner in s.posts then
          s.posts[owner := s.posts[owner].(comments := Pull(s.posts[owner].comments, commentId))]
        else s.posts;
      Step(s.(posts := posts, comments := s.comments - {commentId}), Ok(200, "Comment deleted successfully"))
  }

  /** Deleting a comment never deletes its post, nor any other comment. */
  lemma DeleteCommentKeepsPost(s: Store, actor: Id, postId: Id, commentId: Id)
    requires CommentsOk(s) && actor in s.users
    requires commentId in s.comments
    ensures var t := DeleteComment(s, actor, postId, commentId).store;
      && s.comments[commentId].post in t.posts
      && forall c | c in s.comments && c != commentId :: c in t.comments
  {
    assert CommentOk(s, commentId, s.comments[commentId]);
  }

  /** After a post is deleted no comment refers to it. */
  lemma DeletePostLeavesNoOrphans(s: Store, actor: Id, id: Id)
    requires actor in s.users
    requires DeletePost(s, actor, id).response.Ok?
    ensures var t := DeletePost(s, actor, id).store;
      && id !in t.posts
      && forall c | c in t.comments :: t.comments[c].post != id
  {
  }

  // ---------------------------------------------------------------------
  // The store invariant.

  /** The part of the invariant the post routes touch: ids, posts and
      comments. */
  ghost predicate RefsOk(s: Store) {
    IdsFresh(s) && PostsOk(s) && CommentsOk(s)
  }

  /** A transition that keeps users and stories and the references between
      posts and comments keeps the whole invariant. */
  lemma RefsKeepValid(s: Store, t: Store)
    requires Valid(s) && t.users == s.users && t.stories == s.stories && RefsOk(t)
    ensures Valid(t)
  {
    UsersAndStoriesKept(s, t);
  }

  lemma {:induction false} ReplacePostKeepsRefs(s: Store, t: Store, id: Id)
    requires RefsOk(s) && id in s.posts && OnlyPostChanged(s, t, id)
    requires t.posts[id].user == s.posts[id].user && t.posts[id].comments == s.posts[id].comments
    requires PostFieldsOk(t.posts[id]) && NoDup(t.posts[id].likes) && NoDup(t.posts[id].savedBy)
    ensures RefsOk(t)
  {
    forall q | q in t.posts ensures PostOk(t, q, t.posts[q]) {
      assert PostOk(s, q, s.posts[q]);
    }
    ReplacePostKeepsComments(s, t, id);
  }

  lemma {:induction false} ReplacePostKeepsComments(s: Store, t: Store, id: Id)
    requires CommentsOk(s) && id in s.posts && OnlyPostChanged(s, t, id)
    requires t.posts[id].comments == s.posts[id].comments
    ensures CommentsOk(t)
  {
    forall c | c in t.comments ensures CommentOk(t, c, t.comments[c]) {
      assert CommentOk(s, c, s.comments[c]);
    }
  }

  lemma {:induction false} ToggleLikeKeepsValid(s: Store, actor: Id, id: Id)
    requires Valid(s) && actor in s.users
    ensures Valid(ToggleLike(s, actor, id).store)
  {
    var t := ToggleLike(s, actor, id).store;
    if id in s.posts {
      assert PostOk(s, id, s.posts[id]);
      ReplacePostKeepsRefs(s, t, id);
      RefsKeepValid(s, t);
    }
  }

  lemma {:induction false} ToggleSaveKeepsValid(s: Store, actor: Id, id: Id)
    requires Valid(s) && actor in s.users
    ensures Valid(ToggleSave(s, actor, id).store)
  {
    var t := ToggleSave(s, actor, id).store;
    if id in s.posts {
      assert PostOk(s, id, s.posts[id]);
      ReplacePostKeepsRefs(s, t, id);
      RefsKeepValid(s, t);
    }
  }

  lemma {:induction false} InsertPostKeepsRefs(s: Store, p: Post)
    requires RefsOk(s) && p.user in s.users && PostFieldsOk(p) && p.comments == [] && p.likes == [] && p.savedBy == []
    ensures RefsOk(s.(posts := s.posts[s.nextId := p], nextId := s.nextId + 1))
  {
    var t := s.(posts := s.posts[s.nextId := p], nextId := s.nextId + 1);
    forall q | q in t.posts ensures PostOk(t, q, t.posts[q]) {
      if q != s.nextId {
        assert PostOk(s, q, s.posts[q]);
      }
    }
    forall c | c in t.comments ensures CommentOk(t, c, t.comments[c]) {
      assert CommentOk(s, c, s.comments[c]);
      assert t.posts[s.comments[c].post] == s.posts[s.comments[c].post];
    }
  }

  lemma {:induction false} CreatePostKeepsValid(s: Store, actor: Id, now: Time, body: PostBody, file: Option<string>)
    requires Valid(s) && actor in s.users
    ensures Valid(CreatePost(s, actor, now, body, file).store)
  {
    var r := CreatePost(s, actor, now, body, file);
    if r.response.Ok? {
      var p := NewPost(actor, ImageUrl(body.image, file).value, body.caption, body.location, now);
      assert r.store == s.(posts := s.posts[s.nextId := p], nextId := s.nextId + 1);
      InsertPostKeepsValid(s, p);
    }
  }

  lemma InsertPostKeepsValid(s: Store, p: Post)
    requires Valid(s) && p.user in s.users && PostFieldsOk(p) && p.comments == [] && p.likes == [] && p.savedBy == []
    ensures Valid(s.(posts := s.posts[s.nextId := p], nextId := s.nextId + 1))
  {
    InsertPostKeepsRefs(s, p);
    RefsKeepValid(s, s.(posts := s.posts[s.nextId := p], nextId := s.nextId + 1));
  }

  lemma {:induction false} CascadeKeepsRefs(s: Store, id: Id)
    requires RefsOk(s) && id in s.posts
    ensures RefsOk(s.(comments := map c | c in s.comments && s.comments[c].post != id :: s.comments[c],
                      posts := s.posts - {id}))
  {
    var t := s.(comments := map c | c in s.comments && s.comments[c].post != id :: s.comments[c],
                posts := s.posts - {id});
    forall q | q in t.posts ensures PostOk(t, q, t.posts[q]) {
      assert PostOk(s, q, s.posts[q]);
    }
    forall c | c in t.comments ensures CommentOk(t, c, t.comments[c]) {
      assert CommentOk(s, c, s.comments[c]);
    }
  }

  lemma {:induction false} DeletePostKeepsValid(s: Store, actor: Id, id: Id)
    requires Valid(s) && actor in s.users
    ensures Valid(DeletePost(s, actor, id).store)
  {
    var r := DeletePost(s, actor, id);
    if r.response.Ok? {
      CascadeKeepsRefs(s, id);
      RefsKeepValid(s, r.store);
    }
  }

  lemma {:induction false} AttachCommentKeepsRefs(s: Store, c: Comment)
    requires RefsOk(s) && c.post in s.posts && c.user in s.users
    requires CommentFieldsOk(c) && IsTrimmed(c.text)
    ensures RefsOk(AttachComment(s, c))
  {
    AttachKeepsPosts(s, c);
    AttachKeepsComments(s, c);
  }

  lemma {:induction false} AttachKeepsPosts(s: Store, c: Comment)
    requires RefsOk(s) && c.post in s.posts && c.user in s.users
    ensures PostsOk(AttachComment(s, c))
  {
    var t := AttachComment(s, c);
    assert PostOk(s, c.post, s.posts[c.post]);
    assert s.nextId !in s.posts[c.post].comments;
    forall q | q in t.posts ensures PostOk(t, q, t.posts[q]) {
      assert PostOk(s, q, s.posts[q]);
    }
  }

  lemma {:induction false} AttachKeepsComments(s: Store, c: Comment)
    requires RefsOk(s) && c.post in s.posts && c.user in s.users
    requires CommentFieldsOk(c) && IsTrimmed(c.text)
    ensures CommentsOk(AttachComment(s, c))
  {
    var t := AttachComment(s, c);
    forall d | d in t.comments ensures CommentOk(t, d, t.comments[d]) {
      if d != s.nextId {
        assert CommentOk(s, d, s.comments[d]);
      }
    }
  }

  lemma {:induction false} AddCommentKeepsValid(s: Store, actor: Id, id: Id, text: Option<string>, now: Time)
    requires Valid(s) && actor in s.users
    ensures Valid(AddComment(s, actor, id, text, now).store)
  {
    var r := AddComment(s, actor, id, text, now);
    if r.response.Ok? {
      var c := NewComment(actor, id, Trim(text.value), now);
      assert r.store == AttachComment(s, c);
      AttachCommentKeepsRefs(s, c);
      RefsKeepValid(s, r.store);
    }
  }

  lemma {:induction false} DetachCommentKeepsRefs(s: Store, commentId: Id)
    requires RefsOk(s) && commentId in s.comments
    ensures var owner := s.comments[commentId].post;
      RefsOk(s.(posts := s.posts[owner := s.posts[owner].(comments := Pull(s.posts[owner].comments, commentId))],
                comments := s.comments - {commentId}))
  {
    var owner := s.comments[commentId].post;
    assert CommentOk(s, commentId, s.comments[commentId]);
    var t := s.(posts := s.posts[owner := s.posts[owner].(comments := Pull(s.posts[owner].comments, commentId))],
                comments := s.comments - {commentId});
    forall q | q in t.posts ensures PostOk(t, q, t.posts[q]) {
      assert PostOk(s, q, s.posts[q]);
    }
    forall c | c in t.comments ensures CommentOk(t, c, t.comments[c]) {
      assert CommentOk(s, c, s.comments[c]);
    }
  }

  lemma {:induction false} DeleteCommentKeepsValid(s: Store, actor: Id, postId: Id, commentId: Id)
    requires Valid(s) && actor in s.users
    ensures Valid(DeleteComment(s, actor, postId, commentId).store)
  {
    var r := DeleteComment(s, actor, postId, commentId);
    if r.response.Ok? {
      assert CommentOk(s, commentId, s.comments[commentId]);
      DetachCommentKeepsRefs(s, commentId);
      RefsKeepValid(s, r.store);
    }
  }
}
