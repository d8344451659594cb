/** The user routes: the public profile, profile and avatar edits, follow and
    unfollow (which write both sides of the two-sided follow edge), the
    follower list and follow suggestions. */
module Users {
  import opened Base
  import opened Text
  import opened Models
  import opened Database

  /** `u` and `v` agree on everything but the two edge lists. */
  predicate SameProfile(u: User, v: User) {
    && u.username == v.username && u.email == v.email && u.password == v.password
    && u.name == v.name && u.avatar == v.avatar && u.bio == v.bio && u.website == v.website
    && u.verified == v.verified && u.isPrivate == v.isPrivate
  }

  /** The store with user `u`'s followers replaced by `xs`. */
  function WithFollowers(s: Store, u: Id, xs: seq<Id>): (t: Store)
    requires u in s.users
    ensures OnlyUsersChanged(s, t)
    ensures t.users[u].followers == xs && t.users[u].following == s.users[u].following
    ensures SameProfile(s.users[u], t.users[u])
    ensures forall v | v in s.users && v != u :: t.users[v] == s.users[v]
  {
    s.(users := s.users[u := s.users[u].(followers := xs)])
  }

  /** The store with user `u`'s following list replaced by `xs`. */
  function WithFollowing(s: Store, u: Id, xs: seq<Id>): (t: Store)
    requires u in s.users
    ensures OnlyUsersChanged(s, t)
    ensures t.users[u].following == xs && t.users[u].followers == s.users[u].followers
    ensures SameProfile(s.users[u], t.users[u])
    ensures forall v | v in s.users && v != u :: t.users[v] == s.users[v]
  {
    s.(users := s.users[u := s.users[u].(following := xs)])
  }

  /** Only the users collection may differ. */
  predicate OnlyUsersChanged(s: Store, t: Store) {
    t.posts == s.posts && t.comments == s.comments && t.stories == s.stories
      && t.nextId == s.nextId && t.users.Keys == s.users.Keys
  }

  // ---------------------------------------------------------------------
  // Follow and unfollow.

  /** POST /users/:id/follow by `actor` on `target`. */
  function Follow(s: Store, actor: Id, target: Id): (r: Step<string>)
    requires actor in s.users
    ensures target !in s.users ==> r == Step(s, Err(404, "User not found"))
    ensures target in s.users && target == actor ==>
      r == Step(s, Err(400, "You cannot follow yourself"))
    ensures target in s.users && target != actor && actor in s.users[target].followers ==>
      r == Step(s, Err(400, "You are already following this user"))
    ensures r.response.Ok? <==>
      target in s.users && target != actor && actor !in s.users[target].followers
    ensures r.response.Ok? ==> r.response == Ok(200, "User followed successfully")
    ensures OnlyUsersChanged(s, r.store)
    ensures forall u | u in s.users :: SameProfile(s.users[u], r.store.users[u])
    ensures forall u | u in s.users && u != actor && u != target :: r.store.users[u] == s.users[u]
    ensures r.response.Ok? ==>
      && r.store.users[target].followers == s.users[target].followers + [actor]
      && r.store.users[target].following == s.users[target].following
      && r.store.users[actor].following == s.users[actor].following + [target]
      && r.store.users[actor].followers == s.users[actor].followers
  {
    if target !in s.users then Step(s, Err(404, "User not found"))
    else if target == actor then Step(s, Err(400, "You cannot follow yourself"))
    else if actor in s.users[target].followers then
      Step(s, Err(400, "You are already following this user"))
    else
      var s1 := WithFollowers(s, target, s.users[target].followers + [actor]);
      var s2 := WithFollowing(s1, actor, s1.users[actor].following + [target]);
      Step(s2, Ok(200, "User followed successfully"))
  }

  /** DELETE /users/:id/follow by `actor` on `target`. */
  function Unfollow(s: Store, actor: Id, target: Id): (r: Step<string>)
    requires actor in s.users
    ensures target !in s.users ==> r == Step(s, Err(404, "User not found"))
    ensures target in s.users ==> r.response == Ok(200, "User unfollowed successfully")
    ensures OnlyUsersChanged(s, r.store)
    ensures forall u | u in s.users :: SameProfile(s.users[u], r.store.users[u])
    ensures forall u | u in s.users && u != actor && u != target :: r.store.users[u] == s.users[u]
    ensures target in s.users && target != actor ==>
      && r.store.users[target].following == s.users[target].following
      && r.store.users[actor].followers == s.users[actor].followers
  {
    if target !in s.users then Step(s, Err(404, "User not found"))
    else
      var s1 := WithFollowers(s, target, Pull(s.users[target].followers, actor));
      var s2 := WithFollowing(s1, actor, Pull(s1.users[actor].following, target));
      Step(s2, Ok(200, "User unfollowed successfully"))
  }

  /** A successful follow adds exactly the edge actor -> target, seen from both
      sides; a failed one changes nothing. */
  lemma FollowAddsOneEdge(s: Store, actor: Id, target: Id, a: Id, b: Id)
    requires actor in s.users && a in s.users && b in s.users
    ensures var t := Follow(s, actor, target).store;
      && (Follows(t, a, b) <==>
            Follows(s, a, b) || (Follow(s, actor, target).response.Ok? && a == actor && b == target))
      && (a in t.users[b].followers <==>
            a in s.users[b].followers || (Follow(s, actor, target).response.Ok? && a == actor && b == target))
  {
  }

  /** After an unfollow, actor -> target is gone from both sides and every
      other edge is as before. */
  lemma UnfollowRemovesOneEdge(s: Store, actor: Id, target: Id, a: Id, b: Id)
    requires actor in s.users && target in s.users && a in s.users && b in s.users
    ensures var t := Unfollow(s, actor, target).store;
      && (Follows(t, a, b) <==> Follows(s, a, b) && !(a == actor && b == target))
      && (a in t.users[b].followers <==> a in s.users[b].followers && !(a == actor && b == target))
  {
  }

  /** Following a user one already follows fails with 400 and changes nothing. */
  lemma FollowTwiceFails(s: Store, actor: Id, target: Id)
    requires actor in s.users
    requires Follow(s, actor, target).response.Ok?
    ensures var s1 := Follow(s, actor, target).store;
      Follow(s1, actor, target) == Step(s1, Err(400, "You are already following this user"))
  {
  }

  /** Unfollowing twice is the same as unfollowing once; the second call
      succeeds. */
  lemma {:induction false} UnfollowIdempotent(s: Store, actor: Id, target: Id)
    requires actor in s.users
    ensures var s1 := Unfollow(s, actor, target).store;
      Unfollow(s1, actor, target) == Step(s1, Unfollow(s, actor, target).response)
  {
    if target in s.users {
      var s1 := Unfollow(s, actor, target).store;
      assert actor !in s1.users[target].followers;
      assert target !in s1.users[actor].following;
      WithFollowersSame(s1, target);
      WithFollowingSame(s1, actor);
    }
  }

  lemma WithFollowersSame(s: Store, u: Id)
    requires u in s.users
    ensures WithFollowers(s, u, s.users[u].followers) == s
  {
    assert s.users[u].(followers := s.users[u].followers) == s.users[u];
    assert s.users[u := s.users[u]] == s.users;
  }

  lemma WithFollowingSame(s: Store, u: Id)
    requires u in s.users
    ensures WithFollowing(s, u, s.users[u].following) == s
  {
    assert s.users[u].(following := s.users[u].following) == s.users[u];
    assert s.users[u := s.users[u]] == s.users;
  }

  /** Two users that agree on the profile fields and both edge lists are
      the same record. */
  lemma SameUser(u: User, v: User)
    requires SameProfile(u, v) && u.followers == v.followers && u.following == v.following
    ensures u == v
  {
  }

  /** Unfollow undoes a successful follow exactly. */
  lemma {:induction false} UnfollowUndoesFollow(s: Store, actor: Id, target: Id)
    requires GraphOk(s) && actor in s.users
    requires Follow(s, actor, target).response.Ok?
    ensures Unfollow(Follow(s, actor, target).store, actor, target).store == s
  {
    assert target in s.users && actor !in s.users[target].followers;
    assert target !in s.users[actor].following;
    UnfollowUndoesPushes(s, actor, target);
  }

  lemma {:induction false} UnfollowUndoesPushes(s: Store, actor: Id, target: Id)
    requires actor in s.users && target in s.users && actor != target
    requires actor !in s.users[target].followers && target !in s.users[actor].following
    ensures Unfollow(Follow(s, actor, target).store, actor, target).store == s
  {
    var f := s.users[target].followers;
    var g := s.users[actor].following;
    var s1 := WithFollowing(WithFollowers(s, target, f + [actor]), actor, g + [target]);
    assert Follow(s, actor, target).store == s1;
    PullUndoesPush(f, actor);
    PullUndoesPush(g, target);
    assert Unfollow(s1, actor, target).store == WithFollowing(WithFollowers(s1, target, f), actor, g);
    RewireBack(s, actor, target);
  }

  lemma RewireBack(s: Store, actor: Id, target: Id)
    requires actor in s.users && target in s.users && actor != target
    ensures var f, g := s.users[target].followers, s.users[actor].following;
      var s1 := WithFollowing(WithFollowers(s, target, f + [actor]), actor, g + [target]);
      WithFollowing(WithFollowers(s1, target, f), actor, g) == s
  {
    var ut, ua := s.users[target], s.users[actor];
    assert s.users[target := ut][actor := ua] == s.users;
  }

  /** A change that keeps every user's key fields and only rewires edges
      keeps the account invariant and everything outside the users. */
  lemma {:induction false} EdgeChangeKeepsRest(s: Store, t: Store)
    requires IdsFresh(s) && AccountsOk(s) && PostsOk(s) && CommentsOk(s) && StoriesOk(s)
    requires OnlyUsersChanged(s, t)
    requires forall u | u in s.users :: SameProfile(s.users[u], t.users[u])
    ensures IdsFresh(t) && AccountsOk(t) && PostsOk(t) && CommentsOk(t) && StoriesOk(t)
  {
    UserChangeKeepsRefs(s, t);
    forall u | u in t.users ensures UserStored(t.users[u]) {
      assert UserStored(s.users[u]);
    }
  }

  lemma EdgeListAppend(s: Store, t: Store, owner: Id, xs: seq<Id>, x: Id)
    requires EdgeListOk(s, owner, xs) && t.users.Keys == s.users.Keys
    requires x !in xs && x != owner && x in s.users
    ensures EdgeListOk(t, owner, xs + [x])
  {
  }

  lemma EdgeListPull(s: Store, t: Store, owner: Id, xs: seq<Id>, x: Id)
    requires EdgeListOk(s, owner, xs) && t.users.Keys == s.users.Keys
    ensures EdgeListOk(t, owner, Pull(xs, x))
  {
  }

  lemma EdgeListSame(s: Store, t: Store, owner: Id, xs: seq<Id>)
    requires EdgeListOk(s, owner, xs) && t.users.Keys == s.users.Keys
    ensures EdgeListOk(t, owner, xs)
  {
  }

  lemma {:induction false} FollowKeepsGraph(s: Store, actor: Id, target: Id)
    requires GraphOk(s) && actor in s.users
    ensures GraphOk(Follow(s, actor, target).store)
  {
    var r := Follow(s, actor, target);
    var t := r.store;
    if r.response.Ok? {
      assert target !in s.users[actor].following;
      forall a | a in t.users
        ensures EdgeListOk(t, a, t.users[a].followers) && EdgeListOk(t, a, t.users[a].following)
      {
        var fs, gs := s.users[a].followers, s.users[a].following;
        assert EdgeListOk(s, a, fs) && EdgeListOk(s, a, gs);
        if a == target {
          EdgeListAppend(s, t, a, fs, actor);
          EdgeListSame(s, t, a, gs);
        } else if a == actor {
          EdgeListSame(s, t, a, fs);
          EdgeListAppend(s, t, a, gs, target);
        } else {
          EdgeListSame(s, t, a, fs);
          EdgeListSame(s, t, a, gs);
        }
      }
      forall a, b | a in t.users && b in t.users
        ensures b in t.users[a].following <==> a in t.users[b].followers
      {
        FollowAddsOneEdge(s, actor, target, a, b);
      }
    }
  }

  lemma {:induction false} UnfollowKeepsGraph(s: Store, actor: Id, target: Id)
    requires GraphOk(s) && actor in s.users
    ensures GraphOk(Unfollow(s, actor, target).store)
  {
    var r := Unfollow(s, actor, target);
    var t := r.store;
    if target in s.users {
      forall a | a in t.users
        ensures EdgeListOk(t, a, t.users[a].followers) && EdgeListOk(t, a, t.users[a].following)
      {
        var fs, gs := s.users[a].followers, s.users[a].following;
        assert EdgeListOk(s, a, fs) && EdgeListOk(s, a, gs);
        if a == target && a == actor {
          EdgeListPull(s, t, a, fs, actor);
          EdgeListPull(s, t, a, gs, target);
        } else if a == target {
          EdgeListPull(s, t, a, fs, actor);
          EdgeListSame(s, t, a, gs);
        } else if a == actor {
          EdgeListSame(s, t, a, fs);
          EdgeListPull(s, t, a, gs, target);
        } else {
          EdgeListSame(s, t, a, fs);
          EdgeListSame(s, t, a, gs);
        }
      }
      forall a, b | a in t.users && b in t.users
        ensures b in t.users[a].following <==> a in t.users[b].followers
      {
        UnfollowRemovesOneEdge(s, actor, target, a, b);
      }
    }
  }

  /** Follow keeps the store invariant: in particular the follow graph stays
      symmetric and duplicate-free. */
  lemma {:induction false} FollowKeepsValid(s: Store, actor: Id, target: Id)
    requires Valid(s) && actor in s.users
    ensures Valid(Follow(s, actor, target).store)
  {
    EdgeChangeKeepsRest(s, Follow(s, actor, target).store);
    FollowKeepsGraph(s, actor, target);
  }

  /** Unfollow keeps the store invariant. */
  lemma {:induction false} UnfollowKeepsValid(s: Store, actor: Id, target: Id)
    requires Valid(s) && actor in s.users
    ensures Valid(Unfollow(s, actor, target).store)
  {
    EdgeChangeKeepsRest(s, Unfollow(s, actor, target).store);
    UnfollowKeepsGraph(s, actor, target);
  }

  // ---------------------------------------------------------------------
  // Read-only routes.

  /** GET /users/:id/followers. */
  function Followers(s: Store, id: Id): (r: Response<seq<Id>>)
    ensures id !in s.users ==> r == Err(404, "User not found")
    ensures id in s.users ==> r.Ok? && r.status == 200
    ensures r.Ok? && Valid(s) ==> NoDup(r.data) && forall x :: x in r.data <==> Follows(s, x, id)
  {
    if id !in s.users then Err(404, "User not found")
    else Ok(200, s.users[id].followers)
  }

  /** The public profile: the user without email or password, its posts
      newest first, and the three counts. */
  datatype Profile = Profile(
    user: Id,
    username: string,
    name: string,
    avatar: string,
    bio: string,
    website: string,
    followers: seq<Id>,
    following: seq<Id>,
    verified: bool,
    isPrivate: bool,
    posts: seq<Id>,
    postsCount: nat,
    followersCount: nat,
    followingCount: nat)

  /** GET /users/:username. The query value goes through the username
      path's `trim` and `lowercase` setters, as every Mongoose query filter on
      that path does, so the lookup is by the canonical form of the
      parameter. */
  function GetProfile(s: Store, username: string): (r: Response<Profile>)
    requires IdsFresh(s)
    ensures r.Err? <==> forall u: Id | u in s.users :: s.users[u].username != Trim(Lower(username))
    ensures r.Err? ==> r == Err(404, "User not found")
    ensures r.Ok? ==>
      var p := r.data;
      && r.status == 200
      && p.user in s.users && s.users[p.user].username == Trim(Lower(username))
      && (forall id :: id in p.posts <==> id in PostsOf(s, {p.user}))
      && NoDup(p.posts) && NewestFirst(s, p.posts)
      && p.postsCount == |p.posts| == |PostsOf(s, {p.user})|
      && p.followers == s.users[p.user].followers && p.followersCount == |p.followers|
      && p.following == s.users[p.user].following && p.followingCount == |p.following|
  {
    var key := Trim(Lower(username));
    var named := (id: Id) => id in s.users && s.users[id].username == key;
    match FirstBelow(s.nextId, named)
    case None =>
      assert forall u: Id | u in s.users :: s.users[u].username != key by {
        forall u: Id | u in s.users ensures s.users[u].username != key {
          assert u < s.nextId;
          assert !named(u);
        }
      }
      Err(404, "User not found")
    case Some(id) =>
      var u := s.users[id];
      var posts := PostsBy(s, {id});
      Ok(200, Profile(id, u.username, u.name, u.avatar, u.bio, u.website,
        u.followers, u.following, u.verified, u.isPrivate,
        posts, |posts|, |u.followers|, |u.following|))
  }

  /** With unique usernames, the profile found is the only user whose
      username is the parameter's canonical form. */
  lemma ProfileIsUnique(s: Store, username: string, other: Id)
    requires Valid(s)
    requires GetProfile(s, username).Ok?
    requires other in s.users && s.users[other].username == Trim(Lower(username))
    ensures GetProfile(s, username).data.user == other
  {
  }

  /** The profile of a stored user is found under their own username in any
      capitalisation and with any surrounding white space. */
  lemma ProfileFoundByAnySpelling(s: Store, id: Id, spelled: string)
    requires IdsFresh(s) && AccountsOk(s) && id in s.users
    requires Trim(Lower(spelled)) == s.users[id].username
    ensures GetProfile(s, spelled).Ok? && GetProfile(s, spelled).data.user == id
  {
    var key := Trim(Lower(spelled));
    var r := GetProfile(s, spelled);
    assert s.users[id].username == key;
    var found := r.data.user;
    assert found in s.users && s.users[found].username == key;
    UsernamesUnique(s, found, id);
  }

  /** Two accounts with the same username are the same account. */
  lemma UsernamesUnique(s: Store, a: Id, b: Id)
    requires AccountsOk(s) && a in s.users && b in s.users
    requires s.users[a].username == s.users[b].username
    ensures a == b
  {
  }

  // ---------------------------------------------------------------------
  // Profile edits.

  /** The body of PUT /users/profile: `None` is a field left out. */
  datatype ProfileEdit = ProfileEdit(
    name: Option<string>,
    bio: Option<string>,
    website: Option<string>,
    avatar: Option<string>)

  /** The edit passes the update validators, which run only on the paths
      being set; the name goes through its `trim` setter first. */
  predicate EditOk(e: ProfileEdit) {
    && (e.name.None? || 0 < |Trim(e.name.value)| <= NameMaxLength)
    && (e.bio.None? || |e.bio.value| <= BioMaxLength)
  }

  function EditErrors(e: ProfileEdit): (errs: seq<FieldError>)
    ensures errs == [] <==> EditOk(e)
  {
    (match e.name case Some(n) => NameErrors(Trim(n)) case None => [])
      + (match e.bio case Some(b) => BioErrors(b) case None => [])
  }

  /** PUT /users/profile: sets the provided fields among name, bio, website
      and avatar; a validation failure is reported as a 500. */
  function UpdateProfile(s: Store, actor: Id, e: ProfileEdit): (r: Step<User>)
    requires actor in s.users
    ensures r.response.Ok? <==> EditOk(e)
    ensures r.response.Err? ==> r.store == s && r.response.status == 500
    ensures r.response.Ok? ==>
      && r.response == Ok(200, ApplyEdit(s.users[actor], e))
      && r.store == s.(users := s.users[actor := ApplyEdit(s.users[actor], e)])
  {
    var errs := EditErrors(e);
    if errs != [] then Step(s, Err(500, ValidationMessage("Validation failed", errs)))
    else
      var v := ApplyEdit(s.users[actor], e);
      Step(s.(users := s.users[actor := v]), Ok(200, v))
  }

  /** The `$set` of the provided fields, the name through its `trim` setter. */
  function ApplyEdit(u: User, e: ProfileEdit): (v: User)
    ensures v.username == u.username && v.email == u.email && v.password == u.password
    ensures v.followers == u.followers && v.following == u.following
    ensures v.verified == u.verified && v.isPrivate == u.isPrivate
    ensures v.name == (if e.name.Some? then Trim(e.name.value) else u.name)
    ensures v.bio == (if e.bio.Some? then e.bio.value else u.bio)
    ensures v.website == (if e.website.Some? then e.website.value else u.website)
    ensures v.avatar == (if e.avatar.Some? then e.avatar.value else u.avatar)
  {
    u.(
      name := match e.name case Some(n) => Trim(n) case None => u.name,
      bio := match e.bio case Some(b) => b case None => u.bio,
      website := match e.website case Some(w) => w case None => u.website,
      avatar := match e.avatar case Some(a) => a case None => u.avatar)
  }

  /** POST /users/avatar: `file` is the stored upload's file name, if any. */
  function UploadAvatar(s: Store, actor: Id, file: Option<string>): (r: Step<string>)
    requires actor in s.users
    ensures file.None? ==> r == Step(s, Err(400, "Please upload an image"))
    ensures file.Some? ==> r.response == Ok(200, "/uploads/" + file.value)
    ensures OnlyUsersChanged(s, r.store)
    ensures forall u | u in s.users && u != actor :: r.store.users[u] == s.users[u]
    ensures file.Some? ==>
      r.store.users[actor] == s.users[actor].(avatar := "/uploads/" + file.value)
  {
    match file
    case None => Step(s, Err(400, "Please upload an image"))
    case Some(f) =>
      var url := "/uploads/" + f;
      Step(s.(users := s.users[actor := s.users[actor].(avatar := url)]), Ok(200, url))
  }

  lemma {:induction false} UpdateProfileKeepsValid(s: Store, actor: Id, e: ProfileEdit)
    requires Valid(s) && actor in s.users
    ensures Valid(UpdateProfile(s, actor, e).store)
  {
    if UpdateProfile(s, actor, e).response.Ok? {
      ApplyEditStored(s, actor, e);
      ReplaceUserKeepsValid(s, actor, ApplyEdit(s.users[actor], e));
    }
  }

  /** An edit that passes the validators leaves a storable record. */
  lemma ApplyEditStored(s: Store, actor: Id, e: ProfileEdit)
    requires AccountsOk(s) && actor in s.users && EditOk(e)
    ensures UserStored(ApplyEdit(s.users[actor], e))
  {
    assert UserStored(s.users[actor]);
  }

  lemma {:induction false} UploadAvatarKeepsValid(s: Store, actor: Id, file: Option<string>)
    requires Valid(s) && actor in s.users
    ensures Valid(UploadAvatar(s, actor, file).store)
  {
    if file.Some? {
      var u := s.users[actor];
      assert UserStored(u);
      ReplaceUserKeepsValid(s, actor, u.(avatar := "/uploads/" + file.value));
    }
  }

  /** Replacing `actor`'s record by a storable one with the same username,
      email and edge lists keeps the store invariant. */
  lemma {:induction false} ReplaceUserKeepsValid(s: Store, actor: Id, v: User)
    requires Valid(s) && actor in s.users
    requires var u := s.users[actor];
      && v.username == u.username && v.email == u.email
      && v.followers == u.followers && v.following == u.following
    requires UserStored(v)
    ensures Valid(s.(users := s.users[actor := v]))
  {
    DisplayEditKeepsValid(s, s.(users := s.users[actor := v]), actor);
  }

  lemma {:induction false} DisplayEditKeepsValid(s: Store, t: Store, actor: Id)
    requires Valid(s) && actor in s.users && OnlyUsersChanged(s, t)
    requires forall u | u in s.users && u != actor :: t.users[u] == s.users[u]
    requires var u, v := s.users[actor], t.users[actor];
      && v.username == u.username && v.email == u.email
      && v.followers == u.followers && v.following == u.following
    requires UserStored(t.users[actor])
    ensures Valid(t)
  {
    AllStored(s, t, actor);
    EdgeChangeKeepsRestNames(s, t);
    SameEdgesKeepEdgeLists(s, t);
  }

  lemma AllStored(s: Store, t: Store, actor: Id)
    requires AccountsOk(s) && t.users.Keys == s.users.Keys
    requires forall u | u in s.users && u != actor :: t.users[u] == s.users[u]
    requires actor in t.users ==> UserStored(t.users[actor])
    ensures forall u | u in t.users :: UserStored(t.users[u])
  {
    forall u | u in t.users ensures UserStored(t.users[u]) {
      if u != actor {
        assert UserStored(s.users[u]);
      }
    }
  }

  /** Edge lists that did not change stay well formed. */
  lemma {:induction false} SameEdgesKeepEdgeLists(s: Store, t: Store)
    requires GraphOk(s) && t.users.Keys == s.users.Keys
    requires forall u | u in s.users ::
      t.users[u].followers == s.users[u].followers && t.users[u].following == s.users[u].following
    ensures forall a | a in t.users ::
      EdgeListOk(t, a, t.users[a].followers) && EdgeListOk(t, a, t.users[a].following)
  {
    forall a | a in t.users
      ensures EdgeListOk(t, a, t.users[a].followers) && EdgeListOk(t, a, t.users[a].following)
    {
      assert EdgeListOk(s, a, s.users[a].followers) && EdgeListOk(s, a, s.users[a].following);
    }
  }

  /** An edit of one user's display fields that keeps its username, email
      and edge lists, and whose record still satisfies the schema, keeps
      every part of the invariant but the graph's edge-list clause, which the
      callers re-establish. */
  lemma {:induction false} EdgeChangeKeepsRestNames(s: Store, t: Store)
    requires IdsFresh(s) && AccountsOk(s) && GraphOk(s) && PostsOk(s) && CommentsOk(s) && StoriesOk(s)
    requires OnlyUsersChanged(s, t)
    requires forall u | u in s.users ::
      && t.users[u].username == s.users[u].username && t.users[u].email == s.users[u].email
      && t.users[u].followers == s.users[u].followers && t.users[u].following == s.users[u].following
    requires forall u | u in t.users :: UserStored(t.users[u])
    ensures IdsFresh(t) && AccountsOk(t) && PostsOk(t) && CommentsOk(t) && StoriesOk(t)
    ensures forall a, b | a in t.users && b in t.users ::
      b in t.users[a].following <==> a in t.users[b].followers
  {
    UserChangeKeepsRefs(s, t);
  }

  // ---------------------------------------------------------------------
  // Suggestions.

  /** How many suggestions GET /users/feed/suggestions returns at most. */
  const SuggestionLimit: nat := 5

  datatype Suggestion = Suggestion(user: Id, followersCount: nat)

  /** `u` may be suggested to `actor`: not `actor`, not already followed. */
  ghost predicate Suggestible(s: Store, actor: Id, u: Id)
    requires actor in s.users
  {
    u in s.users && u != actor && u !in s.users[actor].following
  }

  function SuggestedIds(r: seq<Suggestion>): (ids: seq<Id>)
    ensures |ids| == |r| && forall i | 0 <= i < |r| :: ids[i] == r[i].user
  {
    seq(|r|, i requires 0 <= i < |r| => r[i].user)
  }

  /** GET /users/feed/suggestions: the first users in insertion order that the
      actor neither is nor follows, at most five. */
  method Suggestions(s: Store, actor: Id) returns (r: seq<Suggestion>)
    requires actor in s.users && IdsFresh(s)
    ensures |r| <= SuggestionLimit
    ensures forall i | 0 <= i < |r| ::
      Suggestible(s, actor, r[i].user) && r[i].followersCount == |s.users[r[i].user].followers|
    ensures Increasing(SuggestedIds(r))
    ensures forall u: Id | Suggestible(s, actor, u) && u !in SuggestedIds(r) ::
      |r| == SuggestionLimit && forall i | 0 <= i < |r| :: r[i].user < u
  {
    r := [];
    var id := 0;
    while id < s.nextId && |r| < SuggestionLimit
      invariant id <= s.nextId
      invariant |r| <= SuggestionLimit
      invariant forall i | 0 <= i < |r| ::
        Suggestible(s, actor, r[i].user) && r[i].followersCount == |s.users[r[i].user].followers|
        && r[i].user < id
      invariant Increasing(SuggestedIds(r))
      invariant forall u: Id | Suggestible(s, actor, u) && u !in SuggestedIds(r) :: u >= id
    {
      if id in s.users && id != actor && id !in s.users[actor].following {
        r := r + [Suggestion(id, |s.users[id].followers|)];
        assert SuggestedIds(r) == SuggestedIds(r[..|r| - 1]) + [id];
      }
      id := id + 1;
    }
  }
}
