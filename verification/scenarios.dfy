/** Concrete requests run through the model: a first registration, a second
    one whose username differs only by padding, a profile looked up with a
    capital letter, and the comment deletion through another post's URL, as
    written and as corrected. */
module Scenarios {
  import opened Base
  import opened Text
  import opened Models
  import opened Database
  import opened Auth
  import opened Users
  import opened Posts

  /** A well-formed sign-up for "alice". */
  function ExampleBody(): RegisterBody {
    RegisterBody(Some("alice"), Some("alice@example.com"), Some("secret1"), Some("Alice"))
  }

  /** A second sign-up whose username is "alice" once trimmed. */
  function PaddedBody(): RegisterBody {
    RegisterBody(Some(" alice"), Some("bob@example.com"), Some("secret2"), Some("Bob"))
  }

  /** The account the first sign-up builds, field by field. */
  lemma ExampleCandidate()
    ensures BodyCandidate(ExampleBody()).username == "alice"
    ensures BodyCandidate(ExampleBody()).email == "alice@example.com"
    ensures BodyCandidate(ExampleBody()).name == "Alice"
    ensures BodyCandidate(ExampleBody()).avatar == "https://i.pravatar.cc/150?u=alice"
  {
    ExampleCandidateUsername();
    ExampleCandidateEmail();
    ExampleCandidateName();
    ExampleCandidateAvatar();
  }

  lemma ExampleCandidateUsername()
    ensures BodyCandidate(ExampleBody()).username == "alice"
  {
    ExampleUsername();
  }

  lemma ExampleCandidateEmail()
    ensures BodyCandidate(ExampleBody()).email == "alice@example.com"
  {
    ExampleEmail();
  }

  lemma ExampleCandidateName()
    ensures BodyCandidate(ExampleBody()).name == "Alice"
  {
    TrimOfTrimmed("Alice");
  }

  lemma ExampleCandidateAvatar()
    ensures BodyCandidate(ExampleBody()).avatar == "https://i.pravatar.cc/150?u=alice"
  {
    var u := Candidate("alice", "alice@example.com", "secret1", "Alice");
    assert BodyCandidate(ExampleBody()) == u;
    assert u.avatar == "https://i.pravatar.cc/150?u=" + "alice";
    AvatarLiteral();
  }

  lemma AvatarLiteral()
    ensures "https://i.pravatar.cc/150?u=" + "alice" == "https://i.pravatar.cc/150?u=alice"
  {
  }

  lemma ExampleUsername()
    ensures Trim(Lower("alice")) == "alice"
  {
    LowerOfLower("alice");
    TrimOfTrimmed("alice");
  }

  lemma ExampleEmail()
    ensures Lower("alice@example.com") == "alice@example.com"
  {
    LowerOfLower("alice@example.com");
  }

  lemma TrimPadded()
    ensures Trim(" alice") == "alice"
  {
    assert IsSpace(" alice"[0]);
    assert " alice"[1..] == "alice";
    assert !IsSpace("alice"[0]);
    assert TrimStart("alice") == "alice";
    assert TrimStart(" alice") == "alice";
    assert !IsSpace("alice"[4]);
    assert TrimEnd("alice") == "alice";
  }

  lemma PaddedUsername()
    ensures Trim(Lower(" alice")) == "alice"
  {
    assert IsLower(" alice");
    LowerOfLower(" alice");
    var l := Lower(" alice");
    assert l == " alice";
    TrimPadded();
  }

  /** The first sign-up on an empty store meets every condition register
      checks. */
  lemma ExampleAdmissible()
    ensures Admissible(Empty(), ExampleBody())
  {
    ExampleCandidate();
  }

  /** Register's decision for the first sign-up: admit the candidate, its
      password hashed. */
  lemma ExampleDecision(c: Crypto)
    ensures var u := BodyCandidate(ExampleBody());
      Decide(Empty(), "alice", "alice@example.com", u, c) == Accepted(PreSave(u, true, c))
  {
    ExampleAdmissible();
  }

  /** The first sign-up on an empty store is accepted. */
  lemma RegisterExample(c: Crypto)
    ensures var r := Register(Empty(), ExampleBody(), c);
      && r.response.Ok?
      && r.response.data.username == "alice"
      && r.response.data.avatar == "https://i.pravatar.cc/150?u=alice"
  {
    var body := ExampleBody();
    var u := BodyCandidate(body);
    assert AllPresent(body);
    ExampleDecision(c);
    var v := PreSave(u, true, c);
    assert Register(Empty(), body, c).response == Ok(201, AuthData(0, v.username, v.email, v.name, v.avatar, c.token(0)));
    ExampleCandidate();
  }

  /** In a store holding only the first account, the padded sign-up
      conflicts with that account through its canonical username, and with
      no account through its email. */
  lemma PaddedConflicts(t: Store)
    requires t.users.Keys == {0}
    requires t.users[0].username == "alice" && t.users[0].email == "alice@example.com"
    ensures Conflicts(t, " alice", "bob@example.com", 0)
    ensures forall id | Conflicts(t, " alice", "bob@example.com", id) :: t.users[id].email != Lower("bob@example.com")
  {
    PaddedUsername();
    BobEmail();
    EmailsDiffer();
  }

  lemma BobEmail()
    ensures Lower("bob@example.com") == "bob@example.com"
  {
    LowerOfLower("bob@example.com");
  }

  lemma EmailsDiffer()
    ensures "alice@example.com" != "bob@example.com"
  {
    assert "alice@example.com"[0] != "bob@example.com"[0];
  }

  /** After the first sign-up, the padded one is stopped by the existence
      check, whose query trims the username: "Username already taken", and
      the store is unchanged. */
  lemma PaddedExample(c: Crypto)
    ensures IdsFresh(Register(Empty(), ExampleBody(), c).store)
    ensures var t := Register(Empty(), ExampleBody(), c).store;
      Register(t, PaddedBody(), c) == Step(t, Err(400, "Username already taken"))
  {
    RegisterExample(c);
    RegisterAddsFreshAccount(Empty(), ExampleBody(), c);
    var t := Register(Empty(), ExampleBody(), c).store;
    var u := BodyCandidate(ExampleBody());
    var v := PreSave(u, true, c);
    assert t == AddUser(Empty(), v);
    FirstAccount(u, v, c);
    OnlyAccount(v, t);
    PaddedRefused(t, c);
  }

  /** The first account as stored: the candidate, its password hashed. */
  lemma FirstAccount(u: User, v: User, c: Crypto)
    requires u == BodyCandidate(ExampleBody()) && v == PreSave(u, true, c)
    ensures v.username == "alice" && v.email == "alice@example.com"
  {
    ExampleCandidateUsername();
    ExampleCandidateEmail();
  }

  /** The empty store after adding one account. */
  lemma OnlyAccount(v: User, t: Store)
    requires t == AddUser(Empty(), v)
    ensures IdsFresh(t) && t.users.Keys == {0} && t.users[0] == v
  {
  }

  /** The padded sign-up on any store holding only the first account. */
  lemma PaddedRefused(t: Store, c: Crypto)
    requires IdsFresh(t) && t.users.Keys == {0}
    requires t.users[0].username == "alice" && t.users[0].email == "alice@example.com"
    ensures Register(t, PaddedBody(), c) == Step(t, Err(400, "Username already taken"))
  {
    PaddedConflicts(t);
    ExistingRefuses(t, PaddedBody(), c, 0);
  }

  /** A stored account with canonical username and email. */
  function Alice(): User {
    User("alice", "alice@example.com", "hash", "Alice", "", "", "", [], [], false, false)
  }

  /** One user, two of their posts, and one comment of theirs on the first. */
  function TwoPosts(): Store {
    Store(
      map[0 := Alice()],
      map[1 := Post(0, "/uploads/a.jpg", "", "", [], [3], [], 10),
          2 := Post(0, "/uploads/b.jpg", "", "", [], [], [], 20)],
      map[3 := Comment(0, 1, "nice", [], [], 30)],
      map[],
      4)
  }

  lemma AliceStored()
    ensures UserStored(Alice())
  {
    assert IsLower("alice");
    assert IsLower("alice@example.com");
  }

  /** The database holding only that account. */
  function AliceOnly(): Store {
    Store(map[0 := Alice()], map[], map[], map[], 1)
  }

  lemma CapitalisedName()
    ensures Trim(Lower("Alice")) == "alice"
  {
    var l := Lower("Alice");
    assert IsUpper("Alice"[0]);
    forall i | 0 <= i < 5 ensures l[i] == "alice"[i] {
    }
    assert l == "alice";
    TrimOfTrimmed("alice");
  }

  /** GET /users/Alice finds the account stored as "alice". */
  lemma ProfileByCapitalised()
    ensures GetProfile(AliceOnly(), "Alice").Ok?
    ensures GetProfile(AliceOnly(), "Alice").data.user == 0
  {
    var t := AliceOnly();
    AliceOnlyOk();
    CapitalisedName();
    assert Trim(Lower("Alice")) == t.users[0].username;
    ProfileFoundByAnySpelling(t, 0, "Alice");
  }

  lemma AliceOnlyOk()
    ensures IdsFresh(AliceOnly()) && AccountsOk(AliceOnly()) && 0 in AliceOnly().users
    ensures AliceOnly().users[0].username == "alice"
  {
    AliceStored();
  }

  lemma TwoPostsFresh()
    ensures IdsFresh(TwoPosts()) && StoriesOk(TwoPosts())
  {
  }

  lemma TwoPostsAccounts()
    ensures AccountsOk(TwoPosts())
  {
    AliceStored();
  }

  lemma TwoPostsGraph()
    ensures GraphOk(TwoPosts())
  {
  }

  lemma TwoPostsPosts()
    ensures PostsOk(TwoPosts())
  {
    var s := TwoPosts();
    assert PostOk(s, 1, s.posts[1]);
    assert PostOk(s, 2, s.posts[2]);
  }

  lemma TwoPostsComments()
    ensures CommentsOk(TwoPosts())
  {
    var s := TwoPosts();
    assert IsTrimmed("nice");
    assert CommentOk(s, 3, s.comments[3]);
  }

  lemma TwoPostsValid()
    ensures Valid(TwoPosts())
  {
    TwoPostsFresh();
    TwoPostsAccounts();
    TwoPostsGraph();
    TwoPostsPosts();
    TwoPostsComments();
  }

  /** As written: deleting the comment through the second post's URL leaves
      its id on the first post and breaks the invariant. */
  lemma DeleteThroughOtherPostAsWritten()
    ensures var r := DeleteCommentAsWritten(TwoPosts(), 0, 2, 3);
      && r.response.Ok?
      && 3 !in r.store.comments && r.store.posts[1].comments == [3]
      && !Valid(r.store)
  {
    TwoPostsComments();
    DeleteCommentAsWrittenLeavesDangling(TwoPosts(), 0, 2, 3);
  }

  /** Corrected: the same request empties the first post's comment list and
      keeps the invariant. */
  lemma DeleteThroughOtherPostCorrected()
    ensures var r := DeleteComment(TwoPosts(), 0, 2, 3);
      && r.response.Ok?
      && 3 !in r.store.comments && r.store.posts[1].comments == []
      && Valid(r.store)
  {
    TwoPostsValid();
    DeleteCommentKeepsValid(TwoPosts(), 0, 2, 3);
    assert Pull([3], 3) == [];
  }
}
