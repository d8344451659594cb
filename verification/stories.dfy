/** The story routes: the grouped listing of unexpired stories from followed
    users, creation with its 24-hour expiry, viewing, deletion, the owner's
    viewer list, and the expiry sweep that removes stories once they have
    expired. */
module Stories {
  import opened Base
  import opened Text
  import opened Models
  import opened Sorting
  import opened Database

  datatype StoryItem = StoryItem(id: Id, story: Story, isViewed: bool)

  /** One author's stories as the listing returns them. */
  datatype StoryGroup = StoryGroup(user: Id, stories: seq<StoryItem>, latestStory: Time, hasUnviewed: bool)

  function ItemIdsOf(items: seq<StoryItem>): (ids: seq<Id>)
    ensures |ids| == |items| && forall i | 0 <= i < |items| :: ids[i] == items[i].id
  {
    seq(|items|, i requires 0 <= i < |items| => items[i].id)
  }

  function GroupUsers(gs: seq<StoryGroup>): (users: seq<Id>)
    ensures |users| == |gs| && forall i | 0 <= i < |gs| :: users[i] == gs[i].user
  {
    seq(|gs|, i requires 0 <= i < |gs| => gs[i].user)
  }

  // ---------------------------------------------------------------------
  // What the listing matches.

  /** Story `id` is one the actor's listing matches at time `now`: its author
      is followed by the actor or is the actor, and it has not expired. */
  predicate Listed(s: Store, actor: Id, now: Time, id: Id)
    requires actor in s.users
  {
    && id in s.stories
    && (s.stories[id].user in s.users[actor].following || s.stories[id].user == actor)
    && s.stories[id].expiresAt > now
  }

  /** Author `a` has at least one listed story. */
  ghost predicate HasListed(s: Store, actor: Id, now: Time, a: Id)
    requires actor in s.users
  {
    exists id :: Listed(s, actor, now, id) && s.stories[id].user == a
  }

  /** The order in which the `$match` stage emits the stories: the
      database's own choice (the query plan decides it), so the model takes
      it as a parameter: every stored story, each once. Ids of stories since
      deleted may appear too. */
  predicate ScanOk(s: Store, scan: seq<Id>) {
    NoDup(scan) && forall id | id in s.stories :: id in scan
  }

  /** The matched stories in the order the scan emits them, each flagged
      with whether the actor has viewed it. */
  function Entries(s: Store, actor: Id, now: Time, scan: seq<Id>): (r: seq<StoryItem>)
    requires actor in s.users && ScanOk(s, scan)
    ensures NoDup(ItemIdsOf(r)) && InOrderOf(ItemIdsOf(r), scan)
    ensures forall id: Id :: id in ItemIdsOf(r) <==> Listed(s, actor, now, id)
    ensures forall i | 0 <= i < |r| ::
      && r[i].id in s.stories && r[i].story == s.stories[r[i].id]
      && r[i].isViewed == (actor in r[i].story.viewers)
  {
    var ids := Filter(scan, (id: Id) => Listed(s, actor, now, id));
    FilterNoDup(scan, (id: Id) => Listed(s, actor, now, id));
    FilterInOrder(scan, (id: Id) => Listed(s, actor, now, id));
    assert forall i | 0 <= i < |ids| :: Listed(s, actor, now, ids[i]);
    var r := seq(|ids|, i requires 0 <= i < |ids| =>
      StoryItem(ids[i], s.stories[ids[i]], actor in s.stories[ids[i]].viewers));
    assert ItemIdsOf(r) == ids;
    r
  }

  // ---------------------------------------------------------------------
  // Grouping by author.

  /** The `$push` of one `$group`: the entries by author `a`, in input
      order. */
  function ByAuthor(items: seq<StoryItem>, a: Id): (r: seq<StoryItem>)
    ensures forall it :: it in r <==> it in items && it.story.user == a
    ensures forall i | 0 <= i < |r| :: r[i].story.user == a
  {
    if |items| == 0 then []
    else
      var rest := ByAuthor(items[1..], a);
      assert forall it :: it in items <==> it == items[0] || it in items[1..];
      if items[0].story.user == a then [items[0]] + rest else rest
  }

  lemma TailInOrder(items: seq<StoryItem>, scan: seq<Id>)
    requires |items| > 0 && InOrderOf(ItemIdsOf(items), scan)
    ensures InOrderOf(ItemIdsOf(items[1..]), scan)
  {
    forall i, j | 0 <= i < j < |items[1..]|
      ensures Before(scan, ItemIdsOf(items[1..])[i], ItemIdsOf(items[1..])[j])
    {
      assert Before(scan, ItemIdsOf(items)[i + 1], ItemIdsOf(items)[j + 1]);
    }
  }

  /** Grouping keeps the order in which the stories were matched. */
  lemma {:induction false} ByAuthorInOrder(items: seq<StoryItem>, a: Id, scan: seq<Id>)
    requires InOrderOf(ItemIdsOf(items), scan)
    ensures InOrderOf(ItemIdsOf(ByAuthor(items, a)), scan)
    decreases |items|
  {
    if |items| > 0 {
      var tail := items[1..];
      TailInOrder(items, scan);
      ByAuthorInOrder(tail, a, scan);
      if items[0].story.user == a {
        var rest := ByAuthor(tail, a);
        var r := ByAuthor(items, a);
        assert r == [items[0]] + rest;
        forall j | 0 <= j < |rest| ensures Before(scan, items[0].id, rest[j].id) {
          assert rest[j] in tail;
          var m :| 0 <= m < |tail| && tail[m] == rest[j];
          assert Before(scan, ItemIdsOf(items)[0], ItemIdsOf(items)[m + 1]);
        }
        forall i, j | 0 <= i < j < |r| ensures Before(scan, ItemIdsOf(r)[i], ItemIdsOf(r)[j]) {
          if i > 0 {
            assert Before(scan, ItemIdsOf(rest)[i - 1], ItemIdsOf(rest)[j - 1]);
          }
        }
      }
    }
  }

  /** The `$max` of `createdAt`; 0 for no stories. */
  function Latest(items: seq<StoryItem>): (t: Time)
    ensures forall i | 0 <= i < |items| :: items[i].story.createdAt <= t
    ensures |items| > 0 ==> exists i :: 0 <= i < |items| && items[i].story.createdAt == t
  {
    if |items| == 0 then 0
    else if |items| == 1 then items[0].story.createdAt
    else
      var rest := Latest(items[1..]);
      assert forall i | 1 <= i < |items| :: items[i] == items[1..][i - 1];
      if items[0].story.createdAt >= rest then items[0].story.createdAt
      else
        var i :| 0 <= i < |items[1..]| && items[1..][i].story.createdAt == rest;
        assert items[i + 1].story.createdAt == rest;
        rest
  }

  function HasUnviewed(items: seq<StoryItem>): (b: bool)
    ensures b <==> exists i :: 0 <= i < |items| && !items[i].isViewed
  {
    exists i | 0 <= i < |items| :: !items[i].isViewed
  }

  function MakeGroup(entries: seq<StoryItem>, a: Id): (g: StoryGroup)
  {
    var items := ByAuthor(entries, a);
    StoryGroup(a, items, Latest(items), HasUnviewed(items))
  }

  /** The authors of the entries, each once, in order of first appearance. */
  function Authors(entries: seq<StoryItem>): (r: seq<Id>)
    ensures NoDup(r)
    ensures forall a :: a in r <==> exists i :: 0 <= i < |entries| && entries[i].story.user == a
  {
    var users: seq<Id> := seq(|entries|, i requires 0 <= i < |entries| => entries[i].story.user);
    UsersOfEntries(entries, users);
    Dedup(users)
  }

  lemma UsersOfEntries(entries: seq<StoryItem>, users: seq<Id>)
    requires |users| == |entries| && forall i | 0 <= i < |entries| :: users[i] == entries[i].story.user
    ensures forall a :: a in users <==> exists i :: 0 <= i < |entries| && entries[i].story.user == a
  {
    forall a | a in users ensures exists i :: 0 <= i < |entries| && entries[i].story.user == a {
      var i :| 0 <= i < |users| && users[i] == a;
      assert entries[i].story.user == a;
    }
    forall a | exists i :: 0 <= i < |entries| && entries[i].story.user == a ensures a in users {
      var i :| 0 <= i < |entries| && entries[i].story.user == a;
      assert users[i] == a;
    }
  }

  // ---------------------------------------------------------------------
  // Own stories first.

  function IndexOf(xs: seq<Id>, x: Id): (k: nat)
    requires x in xs
    ensures k < |xs| && xs[k] == x
  {
    if xs[0] == x then 0 else 1 + IndexOf(xs[1..], x)
  }

  /** `findIndex`, then `splice` and `unshift` when the index is positive. */
  function MoveToFront(xs: seq<Id>, x: Id): (r: seq<Id>)
    ensures x !in xs ==> r == xs
    ensures x in xs ==> |r| == |xs| && r[0] == x
    ensures x in xs ==> r[1..] == xs[..IndexOf(xs, x)] + xs[IndexOf(xs, x) + 1..]
    ensures |xs| > 0 && xs[0] == x ==> r == xs
    ensures multiset(r) == multiset(xs)
  {
    if x !in xs then xs
    else
      var k := IndexOf(xs, x);
      if k == 0 then xs
      else
        assert xs == xs[..k] + [xs[k]] + xs[k + 1..];
        [x] + xs[..k] + xs[k + 1..]
  }

  /** Moving one element to the front keeps the others in their order. */
  lemma MoveToFrontKeepsRestSorted(xs: seq<Id>, x: Id, key: Id -> int)
    requires SortedDesc(xs, key)
    ensures x in xs ==> SortedDesc(MoveToFront(xs, x)[1..], key)
  {
    if x in xs {
      DropKeepsSorted(xs, IndexOf(xs, x), key);
    }
  }

  /** Dropping one position from a sorted list leaves it sorted. */
  lemma DropKeepsSorted(xs: seq<Id>, k: nat, key: Id -> int)
    requires k < |xs| && SortedDesc(xs, key)
    ensures SortedDesc(xs[..k] + xs[k + 1..], key)
  {
    var rest := xs[..k] + xs[k + 1..];
    forall i, j | 0 <= i < j < |rest| ensures key(rest[i]) >= key(rest[j]) {
      var pi := if i < k then i else i + 1;
      var pj := if j < k then j else j + 1;
      assert rest[i] == xs[pi] && rest[j] == xs[pj];
    }
  }

  // ---------------------------------------------------------------------
  // The listing.

  /** The sort key of `{ $sort: { latestStory: -1 } }`. */
  function LatestKey(entries: seq<StoryItem>): Id -> int {
    (a: Id) => Latest(ByAuthor(entries, a))
  }

  /** The authors by descending latest story. */
  function SortedAuthors(entries: seq<StoryItem>): (r: seq<Id>)
    ensures NoDup(r)
    ensures forall a :: a in r <==> exists i :: 0 <= i < |entries| && entries[i].story.user == a
    ensures SortedDesc(r, LatestKey(entries))
  {
    var authors := Authors(entries);
    var order := SortDesc(authors, LatestKey(entries));
    PermutationKeepsNoDup(authors, order);
    order
  }

  /** Bringing `x` to the front of a sorted, duplicate-free list. */
  lemma FrontFacts(xs: seq<Id>, x: Id, key: Id -> int)
    requires NoDup(xs) && SortedDesc(xs, key)
    ensures var r := MoveToFront(xs, x);
      && NoDup(r)
      && (forall a :: a in r <==> a in xs)
      && (forall i, j | 1 <= i < j < |r| :: key(r[i]) >= key(r[j]))
      && (x in r ==> r[0] == x)
      && (x !in r ==> SortedDesc(r, key))
  {
    var r := MoveToFront(xs, x);
    PermutationKeepsNoDup(xs, r);
    MoveToFrontKeepsRestSorted(xs, x, key);
    if x in xs {
      RestSorted(r, key);
    }
  }

  /** The order of the groups: authors by descending latest story, then the
      actor's own moved to the front. */
  function GroupOrder(entries: seq<StoryItem>, actor: Id): (r: seq<Id>)
    ensures NoDup(r)
    ensures forall a :: a in r <==> exists i :: 0 <= i < |entries| && entries[i].story.user == a
    ensures forall i, j | 1 <= i < j < |r| :: LatestKey(entries)(r[i]) >= LatestKey(entries)(r[j])
    ensures actor in r ==> r[0] == actor
    ensures actor !in r ==> SortedDesc(r, LatestKey(entries))
  {
    var order := SortedAuthors(entries);
    FrontFacts(order, actor, LatestKey(entries));
    MoveToFront(order, actor)
  }

  lemma RestSorted(xs: seq<Id>, key: Id -> int)
    requires |xs| > 0 ==> SortedDesc(xs[1..], key)
    ensures forall i, j | 1 <= i < j < |xs| :: key(xs[i]) >= key(xs[j])
  {
    forall i, j | 1 <= i < j < |xs| ensures key(xs[i]) >= key(xs[j]) {
      assert xs[1..][i - 1] == xs[i] && xs[1..][j - 1] == xs[j];
    }
  }

  /** The pipeline after the match: group, sort by latest story, flag, and
      bring the actor's own group to the front. */
  function Groups(entries: seq<StoryItem>, actor: Id): (r: seq<StoryGroup>)
    ensures NoDup(GroupUsers(r))
    ensures forall a :: a in GroupUsers(r) <==> exists i :: 0 <= i < |entries| && entries[i].story.user == a
    ensures forall k | 0 <= k < |r| :: r[k] == MakeGroup(entries, r[k].user)
    ensures forall i, j | 1 <= i < j < |r| :: r[i].latestStory >= r[j].latestStory
    ensures actor in GroupUsers(r) ==> r[0].user == actor
    ensures actor !in GroupUsers(r) ==> forall i, j | 0 <= i < j < |r| :: r[i].latestStory >= r[j].latestStory
  {
    GroupsOf(entries, GroupOrder(entries, actor))
  }

  /** One group per author of `order`, in that order. */
  function GroupsOf(entries: seq<StoryItem>, order: seq<Id>): (r: seq<StoryGroup>)
    ensures GroupUsers(r) == order
    ensures forall k | 0 <= k < |r| :: r[k] == MakeGroup(entries, order[k])
    ensures forall k | 0 <= k < |r| :: r[k].latestStory == LatestKey(entries)(order[k])
  {
    var r := seq(|order|, k requires 0 <= k < |order| => MakeGroup(entries, order[k]));
    assert GroupUsers(r) == order;
    r
  }

  /** What the listing promises of one group: all of the author's listed
      stories and nothing else, each once and in the order the scan emitted
      them, each with its viewed flag, the newest creation time, and whether
      any is unviewed. */
  ghost predicate GroupOk(s: Store, actor: Id, now: Time, scan: seq<Id>, g: StoryGroup)
    requires actor in s.users
  {
    && |g.stories| > 0
    && NoDup(ItemIdsOf(g.stories)) && InOrderOf(ItemIdsOf(g.stories), scan)
    && (forall id: Id :: id in ItemIdsOf(g.stories) <==> Listed(s, actor, now, id) && s.stories[id].user == g.user)
    && (forall i | 0 <= i < |g.stories| ::
          && g.stories[i].id in s.stories && g.stories[i].story == s.stories[g.stories[i].id]
          && g.stories[i].isViewed == (actor in g.stories[i].story.viewers)
          && g.stories[i].story.createdAt <= g.latestStory)
    && (exists i :: 0 <= i < |g.stories| && g.stories[i].story.createdAt == g.latestStory)
    && (g.hasUnviewed <==> exists i :: 0 <= i < |g.stories| && !g.stories[i].isViewed)
  }

  lemma GroupFromEntries(s: Store, actor: Id, now: Time, scan: seq<Id>, a: Id)
    requires actor in s.users && ScanOk(s, scan) && HasListed(s, actor, now, a)
    ensures GroupOk(s, actor, now, scan, MakeGroup(Entries(s, actor, now, scan), a))
  {
    var entries := Entries(s, actor, now, scan);
    var g := MakeGroup(entries, a);
    var ids := ItemIdsOf(g.stories);
    ByAuthorInOrder(entries, a, scan);
    InOrderNoDup(ids, scan);
    GroupMembers(s, actor, now, scan, a);
    var id :| Listed(s, actor, now, id) && s.stories[id].user == a;
    assert id in ids;
    forall i | 0 <= i < |g.stories|
      ensures g.stories[i].id in s.stories && g.stories[i].story == s.stories[g.stories[i].id]
      ensures g.stories[i].isViewed == (actor in g.stories[i].story.viewers)
    {
      assert g.stories[i] in entries;
    }
  }

  /** The author's group holds exactly the author's listed stories. */
  lemma GroupMembers(s: Store, actor: Id, now: Time, scan: seq<Id>, a: Id)
    requires actor in s.users && ScanOk(s, scan)
    ensures var ids := ItemIdsOf(MakeGroup(Entries(s, actor, now, scan), a).stories);
      forall id: Id :: id in ids <==> Listed(s, actor, now, id) && s.stories[id].user == a
  {
    var entries := Entries(s, actor, now, scan);
    var g := MakeGroup(entries, a);
    var ids := ItemIdsOf(g.stories);
    forall id: Id ensures id in ids <==> Listed(s, actor, now, id) && s.stories[id].user == a {
      if id in ids {
        var i :| 0 <= i < |ids| && ids[i] == id;
        assert g.stories[i] in entries;
        var m :| 0 <= m < |entries| && entries[m] == g.stories[i];
        assert ItemIdsOf(entries)[m] == id;
      }
      if Listed(s, actor, now, id) && s.stories[id].user == a {
        assert id in ItemIdsOf(entries);
        var m :| 0 <= m < |entries| && ItemIdsOf(entries)[m] == id;
        assert entries[m] in g.stories;
        var i :| 0 <= i < |g.stories| && g.stories[i] == entries[m];
        assert ids[i] == id;
      }
    }
  }

  /** GET /stories. */
  function ListStories(s: Store, actor: Id, now: Time, scan: seq<Id>): (r: Response<seq<StoryGroup>>)
    requires actor in s.users && ScanOk(s, scan)
    ensures r.Ok? && r.status == 200
    ensures NoDup(GroupUsers(r.data))
    ensures forall a :: a in GroupUsers(r.data) <==> HasListed(s, actor, now, a)
    ensures forall k | 0 <= k < |r.data| :: GroupOk(s, actor, now, scan, r.data[k])
    ensures forall i, j | 1 <= i < j < |r.data| :: r.data[i].latestStory >= r.data[j].latestStory
    ensures HasListed(s, actor, now, actor) ==> r.data[0].user == actor
    ensures !HasListed(s, actor, now, actor) ==>
      forall i, j | 0 <= i < j < |r.data| :: r.data[i].latestStory >= r.data[j].latestStory
  {
    var gs := Groups(Entries(s, actor, now, scan), actor);
    ListedAuthors(s, actor, now, scan);
    ListedGroups(s, actor, now, scan);
    Ok(200, gs)
  }

  lemma ListedAuthors(s: Store, actor: Id, now: Time, scan: seq<Id>)
    requires actor in s.users && ScanOk(s, scan)
    ensures var gs := Groups(Entries(s, actor, now, scan), actor);
      forall a :: a in GroupUsers(gs) <==> HasListed(s, actor, now, a)
  {
    var gs := Groups(Entries(s, actor, now, scan), actor);
    forall a ensures a in GroupUsers(gs) <==> HasListed(s, actor, now, a) {
      AuthorsAreListed(s, actor, now, scan, a);
    }
  }

  lemma ListedGroups(s: Store, actor: Id, now: Time, scan: seq<Id>)
    requires actor in s.users && ScanOk(s, scan)
    ensures var gs := Groups(Entries(s, actor, now, scan), actor);
      forall k | 0 <= k < |gs| :: GroupOk(s, actor, now, scan, gs[k])
  {
    var gs := Groups(Entries(s, actor, now, scan), actor);
    forall k | 0 <= k < |gs| ensures GroupOk(s, actor, now, scan, gs[k]) {
      ListedGroup(s, actor, now, scan, gs, k);
    }
  }

  lemma ListedGroup(s: Store, actor: Id, now: Time, scan: seq<Id>, gs: seq<StoryGroup>, k: nat)
    requires actor in s.users && ScanOk(s, scan)
    requires gs == Groups(Entries(s, actor, now, scan), actor) && k < |gs|
    ensures GroupOk(s, actor, now, scan, gs[k])
  {
    var entries := Entries(s, actor, now, scan);
    var a := gs[k].user;
    assert a in GroupUsers(gs);
    assert gs[k] == MakeGroup(entries, a);
    AuthorsAreListed(s, actor, now, scan, a);
    GroupFromEntries(s, actor, now, scan, a);
  }

  /** An author has an entry exactly when they have a listed story. */
  lemma AuthorsAreListed(s: Store, actor: Id, now: Time, scan: seq<Id>, a: Id)
    requires actor in s.users && ScanOk(s, scan)
    ensures var entries := Entries(s, actor, now, scan);
      (exists i :: 0 <= i < |entries| && entries[i].story.user == a) <==> HasListed(s, actor, now, a)
  {
    var entries := Entries(s, actor, now, scan);
    if exists i :: 0 <= i < |entries| && entries[i].story.user == a {
      var i :| 0 <= i < |entries| && entries[i].story.user == a;
      assert ItemIdsOf(entries)[i] in ItemIdsOf(entries);
      assert Listed(s, actor, now, entries[i].id);
    }
    if HasListed(s, actor, now, a) {
      var id :| Listed(s, actor, now, id) && s.stories[id].user == a;
      assert id in ItemIdsOf(entries);
      var i :| 0 <= i < |entries| && ItemIdsOf(entries)[i] == id;
      assert entries[i].story.user == a;
    }
  }

  // ---------------------------------------------------------------------
  // Create, view, delete, viewers.

  /** POST /stories. */
  function CreateStory(s: Store, actor: Id, now: Time, image: Option<string>, file: Option<string>): (r: Step<Id>)
    requires actor in s.users
    ensures !Truthy(ImageUrl(image, file)) ==> r == Step(s, Err(400, "Image is required"))
    ensures r.response.Ok? <==> Truthy(ImageUrl(image, file))
    ensures r.response.Ok? ==>
      var id := r.response.data;
      && r.response.status == 201 && id == s.nextId && id in r.store.stories
      && r.store.stories == s.stories[id := r.store.stories[id]]
      && r.store.stories[id].user == actor
      && r.store.stories[id].image == ImageUrl(image, file).value
      && r.store.stories[id].viewers == []
      && r.store.stories[id].createdAt == now
      && r.store.stories[id].expiresAt == now + StoryLifetime
      && r.store.users == s.users && r.store.posts == s.posts && r.store.comments == s.comments
      && r.store.nextId == s.nextId + 1
  {
    var url := ImageUrl(image, file);
    if !Truthy(url) then Step(s, Err(400, "Image is required"))
    else
      Step(s.(stories := s.stories[s.nextId := NewStory(actor, url.value, now)], nextId := s.nextId + 1),
           Ok(201, s.nextId))
  }

  /** A viewed story and its viewer count. */
  datatype StoryView = StoryView(story: Story, viewersCount: nat)

  /** GET /stories/:id: marks the story viewed by the actor. The route does
      not look at the expiry: a story the sweep has not yet removed is still
      served. */
  function ViewStory(s: Store, actor: Id, id: Id): (r: Step<StoryView>)
    requires actor in s.users
    ensures id !in s.stories ==> r == Step(s, Err(404, "Story not found or expired"))
    ensures id in s.stories ==> id in r.store.stories
    ensures id in s.stories ==>
      var before, after := s.stories[id], r.store.stories[id];
      && r.response == Ok(200, StoryView(after, |after.viewers|))
      && actor in after.viewers
      && (forall x | x != actor :: x in after.viewers <==> x in before.viewers)
      && (actor in before.viewers ==> r.store == s)
      && (actor !in before.viewers ==> after.viewers == before.viewers + [actor])
      && (NoDup(before.viewers) ==> NoDup(after.viewers))
      && after == before.(viewers := after.viewers)
      && r.store == s.(stories := s.stories[id := after])
  {
    if id !in s.stories then Step(s, Err(404, "Story not found or expired"))
    else
      var st := s.stories[id];
      if actor in st.viewers then Step(s, Ok(200, StoryView(st, |st.viewers|)))
      else
        var st' := st.(viewers := st.viewers + [actor]);
        Step(s.(stories := s.stories[id := st']), Ok(200, StoryView(st', |st'.viewers|)))
  }

  /** Viewing a story twice is viewing it once. */
  lemma ViewStoryIdempotent(s: Store, actor: Id, id: Id)
    requires actor in s.users
    ensures var r1 := ViewStory(s, actor, id);
      ViewStory(r1.store, actor, id) == r1
  {
  }

  /** DELETE /stories/:id. */
  function DeleteStory(s: Store, actor: Id, id: Id): (r: Step<string>)
    requires actor in s.users
    ensures id !in s.stories ==> r == Step(s, Err(404, "Story not found"))
    ensures id in s.stories && s.stories[id].user != actor ==>
      r == Step(s, Err(403, "Not authorized to delete this story"))
    ensures r.response.Ok? <==> id in s.stories && s.stories[id].user == actor
    ensures r.response.Ok? ==>
      && r.response == Ok(200, "Story deleted successfully")
      && r.store.stories == s.stories - {id}
      && r.store.users == s.users && r.store.posts == s.posts && r.store.comments == s.comments
      && r.store.nextId == s.nextId
  {
    if id !in s.stories then Step(s, Err(404, "Story not found"))
    else if s.stories[id].user != actor then Step(s, Err(403, "Not authorized to delete this story"))
    else Step(s.(stories := s.stories - {id}), Ok(200, "Story deleted successfully"))
  }

  /** GET /stories/:id/viewers: the lookup comes before the owner check. */
  function StoryViewers(s: Store, actor: Id, id: Id): (r: Response<seq<Id>>)
    requires actor in s.users
    ensures id !in s.stories ==> r == Err(404, "Story not found")
    ensures id in s.stories && s.stories[id].user != actor ==> r == Err(403, "Only story owner can view viewers")
    ensures r.Ok? <==> id in s.stories && s.stories[id].user == actor
    ensures r.Ok? ==> r.status == 200 && r.data == s.stories[id].viewers
  {
    if id !in s.stories then Err(404, "Story not found")
    else if s.stories[id].user != actor then Err(403, "Only story owner can view viewers")
    else Ok(200, s.stories[id].viewers)
  }

  /** The author's viewer list, read after a view: it holds the viewer and
      everyone who had viewed the story before, and no one else. */
  lemma ViewersAfterView(s: Store, actor: Id, id: Id)
    requires actor in s.users && id in s.stories && s.stories[id].user in s.users
    ensures var t := ViewStory(s, actor, id).store;
      var r := StoryViewers(t, s.stories[id].user, id);
      && r.Ok?
      && actor in r.data
      && forall x :: x in r.data <==> x == actor || x in s.stories[id].viewers
  {
  }

  // ---------------------------------------------------------------------
  // Expiry.

  /** One pass of the expiry index's background sweep at time `now`: it
      removes some of the stories (`victims`) whose expiry has passed, and
      nothing else. When a pass runs and which expired stories it reaches
      are the database's choice. */
  function ExpireStories(s: Store, now: Time, victims: set<Id>): (t: Store)
    ensures forall id :: id in t.stories <==> id in s.stories && !(id in victims && s.stories[id].expiresAt <= now)
    ensures forall id | id in t.stories :: t.stories[id] == s.stories[id]
    ensures t.users == s.users && t.posts == s.posts && t.comments == s.comments && t.nextId == s.nextId
  {
    s.(stories := map id | id in s.stories && !(id in victims && s.stories[id].expiresAt <= now) :: s.stories[id])
  }

  /** A sweep never changes a later listing: it only removes stories the
      listing already leaves out. */
  lemma ExpireKeepsListing(s: Store, swept: Time, victims: set<Id>, actor: Id, now: Time, scan: seq<Id>)
    requires actor in s.users && ScanOk(s, scan) && swept <= now
    ensures ScanOk(ExpireStories(s, swept, victims), scan)
    ensures ListStories(ExpireStories(s, swept, victims), actor, now, scan) == ListStories(s, actor, now, scan)
  {
    var t := ExpireStories(s, swept, victims);
    FilterSame(scan, (id: Id) => Listed(t, actor, now, id), (id: Id) => Listed(s, actor, now, id));
    assert Entries(t, actor, now, scan) == Entries(s, actor, now, scan);
  }

  /** A story created at time `created` is listed to its author exactly
      while `now` is less than 24 hours after `created`. */
  lemma StoryListedForADay(s: Store, actor: Id, created: Time, image: Option<string>, file: Option<string>, now: Time)
    requires actor in s.users
    requires CreateStory(s, actor, created, image, file).response.Ok?
    ensures var r := CreateStory(s, actor, created, image, file);
      Listed(r.store, actor, now, r.response.data) <==> now < created + StoryLifetime
  {
  }

  // ---------------------------------------------------------------------
  // The store invariant.

  lemma {:induction false} StoriesOnlyChanged(s: Store, t: Store)
    requires AccountsOk(s) && GraphOk(s) && PostsOk(s) && CommentsOk(s)
    requires t.users == s.users && t.posts == s.posts && t.comments == s.comments
    requires IdsFresh(t) && StoriesOk(t)
    ensures Valid(t)
  {
    UsersKept(s, t);
    PostsAndCommentsKept(s, t);
  }

  /** Replacing or adding one story that satisfies its part of the invariant
      keeps the stories invariant. */
  lemma PutStoryKeepsStories(s: Store, id: Id, st: Story)
    requires StoriesOk(s) && StoryStored(st) && st.user in s.users && NoDup(st.viewers)
    ensures StoriesOk(s.(stories := s.stories[id := st]))
  {
  }

  lemma {:induction false} CreateStoryKeepsValid(s: Store, actor: Id, now: Time, image: Option<string>, file: Option<string>)
    requires Valid(s) && actor in s.users
    ensures Valid(CreateStory(s, actor, now, image, file).store)
  {
    var r := CreateStory(s, actor, now, image, file);
    if r.response.Ok? {
      var st := r.store.stories[s.nextId];
      PutStoryKeepsStories(s, s.nextId, st);
      assert r.store == s.(stories := s.stories[s.nextId := st], nextId := s.nextId + 1);
      StoriesOnlyChanged(s, r.store);
    }
  }

  lemma {:induction false} ViewStoryKeepsValid(s: Store, actor: Id, id: Id)
    requires Valid(s) && actor in s.users
    ensures Valid(ViewStory(s, actor, id).store)
  {
    if id in s.stories {
      var after := ViewStory(s, actor, id).store.stories[id];
      assert StoryStored(s.stories[id]) && NoDup(s.stories[id].viewers);
      PutStoryKeepsValid(s, id, after);
    }
  }

  /** Replacing a story by one that satisfies its part of the invariant keeps
      the store invariant. */
  lemma {:induction false} PutStoryKeepsValid(s: Store, id: Id, st: Story)
    requires Valid(s) && id in s.stories
    requires StoryStored(st) && st.user in s.users && NoDup(st.viewers)
    ensures Valid(s.(stories := s.stories[id := st]))
  {
    PutStoryKeepsStories(s, id, st);
    StoriesOnlyChanged(s, s.(stories := s.stories[id := st]));
  }

  lemma {:induction false} DeleteStoryKeepsValid(s: Store, actor: Id, id: Id)
    requires Valid(s) && actor in s.users
    ensures Valid(DeleteStory(s, actor, id).store)
  {
    if DeleteStory(s, actor, id).response.Ok? {
      StoriesShrinkKeepsValid(s, DeleteStory(s, actor, id).store);
    }
  }

  /** Removing stories, and changing nothing else, keeps the store
      invariant. */
  lemma {:induction false} StoriesShrinkKeepsValid(s: Store, t: Store)
    requires Valid(s)
    requires t.users == s.users && t.posts == s.posts && t.comments == s.comments && t.nextId == s.nextId
    requires t.stories.Keys <= s.stories.Keys
    requires forall id | id in t.stories :: t.stories[id] == s.stories[id]
    ensures Valid(t)
  {
    forall id | id in t.stories
      ensures StoryStored(t.stories[id]) && t.stories[id].user in t.users && NoDup(t.stories[id].viewers)
    {
      assert id in s.stories;
    }
    StoriesOnlyChanged(s, t);
  }

  lemma {:induction false} ExpireStoriesKeepsValid(s: Store, now: Time, victims: set<Id>)
    requires Valid(s)
    ensures Valid(ExpireStories(s, now, victims))
  {
    StoriesShrinkKeepsValid(s, ExpireStories(s, now, victims));
  }
}
