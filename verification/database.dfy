/** The database as one immutable value: the four collections keyed by id,
    plus the counter new ids are drawn from. Every route handler is modelled
    as one atomic transition of this value. `Valid` is the invariant the
    handlers keep: the schema bounds of every stored record, unique accounts,
    the two-sided follow graph, and the references between posts and
    comments. */
module Database {
  import opened Base
  import opened Text
  import opened Models
  import opened Sorting

  datatype Store = Store(
    users: map<Id, User>,
    posts: map<Id, Post>,
    comments: map<Id, Comment>,
    stories: map<Id, Story>,
    nextId: Id)

  /** The outcome of one handler: the store afterwards and the response sent. */
  datatype Step<+T> = Step(store: Store, response: Response<T>)

  /** Every id in use is below the counter, so `nextId` is fresh and a
      scan of the ids below it sees every document. */
  ghost predicate IdsFresh(s: Store) {
    && (forall id | id in s.users :: id < s.nextId)
    && (forall id | id in s.posts :: id < s.nextId)
    && (forall id | id in s.comments :: id < s.nextId)
    && (forall id | id in s.stories :: id < s.nextId)
  }

  /** Stored users satisfy their schema, and usernames and emails are unique
      (the two unique indexes). */
  ghost predicate AccountsOk(s: Store) {
    && (forall u | u in s.users :: UserStored(s.users[u]))
    && (forall a, b | a in s.users && b in s.users && a != b ::
          s.users[a].username != s.users[b].username && s.users[a].email != s.users[b].email)
  }

  /** One side of a user's follow edges: no repeats, no self-edge, and only
      existing users. */
  ghost predicate EdgeListOk(s: Store, owner: Id, xs: seq<Id>) {
    NoDup(xs) && owner !in xs && forall x | x in xs :: x in s.users
  }

  /** The follow graph is stored twice, once per side; the two projections
      agree: `b` is in `a.following` exactly when `a` is in `b.followers`. */
  ghost predicate GraphOk(s: Store) {
    && (forall a | a in s.users ::
          EdgeListOk(s, a, s.users[a].followers) && EdgeListOk(s, a, s.users[a].following))
    && (forall a, b | a in s.users && b in s.users ::
          b in s.users[a].following <==> a in s.users[b].followers)
  }

  ghost predicate PostOk(s: Store, id: Id, p: Post) {
    && PostFieldsOk(p)
    && p.user in s.users
    && NoDup(p.likes) && NoDup(p.savedBy) && NoDup(p.comments)
    && (forall c | c in p.comments :: c in s.comments && s.comments[c].post == id)
  }

  ghost predicate PostsOk(s: Store) {
    forall id | id in s.posts :: PostOk(s, id, s.posts[id])
  }

  /** A comment's parent post exists and lists it; its text is the trimmed,
      non-empty text the comment route stores. */
  ghost predicate CommentOk(s: Store, id: Id, c: Comment) {
    && CommentFieldsOk(c) && IsTrimmed(c.text)
    && c.user in s.users
    && c.post in s.posts
    && id in s.posts[c.post].comments
  }

  ghost predicate CommentsOk(s: Store) {
    forall id | id in s.comments :: CommentOk(s, id, s.comments[id])
  }

  ghost predicate StoriesOk(s: Store) {
    forall id | id in s.stories ::
      StoryStored(s.stories[id]) && s.stories[id].user in s.users && NoDup(s.stories[id].viewers)
  }

  ghost predicate Valid(s: Store) {
    IdsFresh(s) && AccountsOk(s) && GraphOk(s) && PostsOk(s) && CommentsOk(s) && StoriesOk(s)
  }

  /** The empty database. */
  function Empty(): (s: Store)
    ensures Valid(s)
    ensures s.users == map[] && s.posts == map[] && s.comments == map[] && s.stories == map[]
  {
    Store(map[], map[], map[], map[], 0)
  }

  /** A transition that leaves users and stories alone keeps the parts of
      the invariant that speak only of them. */
  lemma UsersAndStoriesKept(s: Store, t: Store)
    requires t.users == s.users && t.stories == s.stories
    requires AccountsOk(s) && GraphOk(s) && StoriesOk(s)
    ensures AccountsOk(t) && GraphOk(t) && StoriesOk(t)
  {
    UsersKept(s, t);
  }

  /** A transition that leaves users alone keeps the account and graph
      invariants. */
  lemma UsersKept(s: Store, t: Store)
    requires t.users == s.users && AccountsOk(s) && GraphOk(s)
    ensures AccountsOk(t) && GraphOk(t)
  {
    forall a | a in t.users
      ensures EdgeListOk(t, a, t.users[a].followers) && EdgeListOk(t, a, t.users[a].following)
    {
      assert EdgeListOk(s, a, s.users[a].followers) && EdgeListOk(s, a, s.users[a].following);
    }
  }

  /** A transition that only edits or adds users keeps the references of
      posts, comments and stories intact. */
  lemma {:induction false} UserChangeKeepsRefs(s: Store, t: Store)
    requires s.users.Keys <= t.users.Keys
    requires t.posts == s.posts && t.comments == s.comments && t.stories == s.stories
    requires PostsOk(s) && CommentsOk(s) && StoriesOk(s)
    ensures PostsOk(t) && CommentsOk(t) && StoriesOk(t)
  {
    PostsAndCommentsKept(s, t);
  }

  /** The references of posts and comments survive any change that keeps
      both collections and removes no user. */
  lemma {:induction false} PostsAndCommentsKept(s: Store, t: Store)
    requires s.users.Keys <= t.users.Keys
    requires t.posts == s.posts && t.comments == s.comments
    requires PostsOk(s) && CommentsOk(s)
    ensures PostsOk(t) && CommentsOk(t)
  {
    forall id | id in t.posts ensures PostOk(t, id, t.posts[id]) {
      assert PostOk(s, id, s.posts[id]);
    }
    forall id | id in t.comments ensures CommentOk(t, id, t.comments[id]) {
      assert CommentOk(s, id, s.comments[id]);
    }
  }

  /** The image a create route stores: an uploaded file wins over the body's
      URL. `file` is the stored upload's file name. */
  function ImageUrl(body: Option<string>, file: Option<string>): (url: Option<string>)
    ensures file.Some? ==> url == Some("/uploads/" + file.value) && Truthy(url)
    ensures file.None? ==> url == body
  {
    match file
    case Some(f) => Some("/uploads/" + f)
    case None => body
  }

  /** `b` follows `a`, as recorded on `a`'s side. */
  ghost predicate Follows(s: Store, a: Id, b: Id) {
    a in s.users && b in s.users[a].following
  }

  // ---------------------------------------------------------------------
  // Posts by author, newest first: the query behind the feed and the
  // profile page.

  function CreatedAt(s: Store, id: Id): Time {
    if id in s.posts then s.posts[id].createdAt else 0
  }

  /** The sort key of `.sort({ createdAt: -1 })` over posts. */
  function PostTime(s: Store): Id -> int {
    (id: Id) => CreatedAt(s, id)
  }

  ghost predicate NewestFirst(s: Store, ids: seq<Id>) {
    forall i, j | 0 <= i < j < |ids| :: CreatedAt(s, ids[i]) >= CreatedAt(s, ids[j])
  }

  /** The set a `{ user: { $in: authors } }` filter matches. */
  ghost function PostsOf(s: Store, authors: set<Id>): set<Id> {
    set id | id in s.posts && s.posts[id].user in authors
  }

  /** `Post.find({ user: { $in: authors } }).sort({ createdAt: -1 })`. */
  function PostsBy(s: Store, authors: set<Id>): (r: seq<Id>)
    requires IdsFresh(s)
    ensures NoDup(r)
    ensures forall id: Id :: id in r <==> id in PostsOf(s, authors)
    ensures |r| == |PostsOf(s, authors)|
    ensures NewestFirst(s, r)
  {
    var matching := Select(s.nextId, (id: Id) => id in s.posts && s.posts[id].user in authors);
    var r := SortDesc(matching, PostTime(s));
    IncreasingHasNoDup(matching);
    PermutationKeepsNoDup(matching, r);
    NoDupSize(r, PostsOf(s, authors));
    r
  }

  /** A duplicate-free sequence has as many elements as the set of its
      members. */
  lemma {:induction false} NoDupSize(xs: seq<Id>, members: set<Id>)
    requires NoDup(xs)
    requires forall x: Id :: x in xs <==> x in members
    ensures |xs| == |members|
    decreases |xs|
  {
    if |xs| > 0 {
      var last := xs[|xs| - 1];
      var init := xs[..|xs| - 1];
      assert forall x: Id :: x in xs <==> x in init || x == last;
      assert last !in init;
      NoDupSize(init, members - {last});
    } else {
      assert forall x: Id :: x !in members;
      assert members == {};
    }
  }
}
