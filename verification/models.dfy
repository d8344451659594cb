/** The four document schemas (users, posts, comments, stories): their
    fields, defaults, length bounds and the validation errors the document
    mapper reports when a bound is broken. */
module Models {
  import opened Base
  import opened Text

  const UsernameMinLength: nat := 3
  const UsernameMaxLength: nat := 30
  const PasswordMinLength: nat := 6
  const NameMaxLength: nat := 50
  const BioMaxLength: nat := 150
  const CaptionMaxLength: nat := 2200
  const LocationMaxLength: nat := 100
  const CommentMaxLength: nat := 1000

  /** A story lives 24 hours, in milliseconds. */
  const StoryLifetime: int := 24 * 60 * 60 * 1000

  /** The schema's default avatar. Registration always overrides it. */
  const DefaultAvatar: string := "https://i.pravatar.cc/150"

  /** `password` holds the bcrypt hash once the document is saved. */
  datatype User = User(
    username: string,
    email: string,
    password: string,
    name: string,
    avatar: string,
    bio: string,
    website: string,
    followers: seq<Id>,
    following: seq<Id>,
    verified: bool,
    isPrivate: bool)

  datatype Post = Post(
    user: Id,
    image: string,
    caption: string,
    location: string,
    likes: seq<Id>,
    comments: seq<Id>,
    savedBy: seq<Id>,
    createdAt: Time)

  /** An inline reply: neither field is required by the schema. */
  datatype CommentReply = CommentReply(user: Option<Id>, text: Option<string>, createdAt: Time)

  datatype Comment = Comment(
    user: Id,
    post: Id,
    text: string,
    likes: seq<Id>,
    replies: seq<CommentReply>,
    createdAt: Time)

  datatype Story = Story(
    user: Id,
    image: string,
    viewers: seq<Id>,
    createdAt: Time,
    expiresAt: Time)

  /** One entry of a validation error: the failing path and its message. */
  datatype FieldError = FieldError(path: string, message: string)

  /** The `likesCount` virtual. */
  function LikesCount(p: Post): nat {
    |p.likes|
  }

  /** The `commentsCount` virtual. */
  function CommentsCount(p: Post): nat {
    |p.comments|
  }

  // ---------------------------------------------------------------------
  // Field bounds, stated once per schema.

  /** The user validators' bounds, password excepted (it is checked before
      hashing, see `PasswordOk`). */
  predicate UserFieldsOk(u: User) {
    && UsernameMinLength <= |u.username| <= UsernameMaxLength
    && |u.email| > 0
    && 0 < |u.name| <= NameMaxLength
    && |u.bio| <= BioMaxLength
  }

  predicate PasswordOk(password: string) {
    |password| >= PasswordMinLength
  }

  predicate PostFieldsOk(p: Post) {
    |p.image| > 0 && |p.caption| <= CaptionMaxLength && |p.location| <= LocationMaxLength
  }

  predicate CommentFieldsOk(c: Comment) {
    0 < |c.text| <= CommentMaxLength
  }

  predicate StoryFieldsOk(st: Story) {
    |st.image| > 0
  }

  /** What the schema guarantees of a stored user: the validators passed and
      the `lowercase` and `trim` setters were applied. */
  predicate UserStored(u: User) {
    && UserFieldsOk(u)
    && IsLower(u.username) && IsTrimmed(u.username)
    && IsLower(u.email)
    && IsTrimmed(u.name)
  }

  /** What the schema guarantees of a stored story: the validators passed and
      the expiry is the one fixed at creation. */
  predicate StoryStored(st: Story) {
    StoryFieldsOk(st) && st.expiresAt == st.createdAt + StoryLifetime
  }

  // ---------------------------------------------------------------------
  // Validation as the document mapper reports it: per path, the first
  // validator that fails (required, then minlength, then maxlength); paths
  // in schema order.

  function RequiredError(path: string, value: string, message: string): (errs: seq<FieldError>)
    ensures errs == [] <==> |value| > 0
    ensures |errs| <= 1
  {
    if |value| == 0 then [FieldError(path, message)] else []
  }

  function UsernameErrors(username: string): (errs: seq<FieldError>)
    ensures errs == [] <==> UsernameMinLength <= |username| <= UsernameMaxLength
    ensures |errs| <= 1
  {
    if |username| == 0 then [FieldError("username", "Username is required")]
    else if |username| < UsernameMinLength then
      [FieldError("username", "Username must be at least 3 characters")]
    else if |username| > UsernameMaxLength then
      [FieldError("username", "Username cannot exceed 30 characters")]
    else []
  }

  function PasswordErrors(password: string): (errs: seq<FieldError>)
    ensures errs == [] <==> PasswordOk(password)
    ensures |errs| <= 1
  {
    if |password| == 0 then [FieldError("password", "Password is required")]
    else if |password| < PasswordMinLength then
      [FieldError("password", "Password must be at least 6 characters")]
    else []
  }

  function NameErrors(name: string): (errs: seq<FieldError>)
    ensures errs == [] <==> 0 < |name| <= NameMaxLength
    ensures |errs| <= 1
  {
    if |name| == 0 then [FieldError("name", "Name is required")]
    else if |name| > NameMaxLength then [FieldError("name", "Name cannot exceed 50 characters")]
    else []
  }

  function BioErrors(bio: string): (errs: seq<FieldError>)
    ensures errs == [] <==> |bio| <= BioMaxLength
    ensures |errs| <= 1
  {
    if |bio| > BioMaxLength then [FieldError("bio", "Bio cannot exceed 150 characters")] else []
  }

  /** The errors `validate()` reports for a new user document whose password
      is still the raw one: at most one per path, in schema order. */
  function UserErrors(u: User): (errs: seq<FieldError>)
    ensures errs == [] <==> UserFieldsOk(u) && PasswordOk(u.password)
    ensures |errs| <= 5
  {
    UsernameErrors(u.username)
      + RequiredError("email", u.email, "Email is required")
      + PasswordErrors(u.password)
      + NameErrors(u.name)
      + BioErrors(u.bio)
  }

  function PostErrors(p: Post): (errs: seq<FieldError>)
    ensures errs == [] <==> PostFieldsOk(p)
    ensures forall i | 0 <= i < |errs| :: errs[i].path in {"image", "caption", "location"}
  {
    var image := RequiredError("image", p.image, "Post image is required");
    var caption :=
      if |p.caption| > CaptionMaxLength then
        [FieldError("caption", "Caption cannot exceed 2200 characters")]
      else [];
    var location :=
      if |p.location| > LocationMaxLength then
        [FieldError("location", "Location cannot exceed 100 characters")]
      else [];
    image + caption + location
  }

  function CommentErrors(c: Comment): (errs: seq<FieldError>)
    ensures errs == [] <==> CommentFieldsOk(c)
    ensures forall i | 0 <= i < |errs| :: errs[i].path == "text"
  {
    if |c.text| == 0 then [FieldError("text", "Comment text is required")]
    else if |c.text| > CommentMaxLength then
      [FieldError("text", "Comment cannot exceed 1000 characters")]
    else []
  }

  function StoryErrors(st: Story): (errs: seq<FieldError>)
    ensures errs == [] <==> StoryFieldsOk(st)
  {
    RequiredError("image", st.image, "Story image is required")
  }

  function Join(parts: seq<string>, sep: string): string {
    if |parts| == 0 then ""
    else if |parts| == 1 then parts[0]
    else parts[0] + sep + Join(parts[1..], sep)
  }

  /** The messages of the errors, in order. */
  function Messages(errs: seq<FieldError>): (r: seq<string>)
    ensures |r| == |errs|
    ensures forall i | 0 <= i < |errs| :: r[i] == errs[i].message
  {
    seq(|errs|, i requires 0 <= i < |errs| => errs[i].message)
  }

  /** The message of a `ValidationError`: `prefix` ("Post validation failed"
      for a document, "Validation failed" for an update) followed by
      "path: message" for each error. */
  function ValidationMessage(prefix: string, errs: seq<FieldError>): string {
    prefix + ": " + Join(seq(|errs|, i requires 0 <= i < |errs| => errs[i].path + ": " + errs[i].message), ", ")
  }

  // ---------------------------------------------------------------------
  // New documents with the schema defaults.

  /** A post as `Post.create` builds it: absent caption and location default
      to the empty string, the arrays start empty, `createdAt` is now. */
  function NewPost(user: Id, image: string, caption: Option<string>, location: Option<string>, now: Time): (p: Post)
    ensures p.user == user && p.image == image && p.createdAt == now
    ensures p.caption == (if caption.Some? then caption.value else "")
    ensures p.location == (if location.Some? then location.value else "")
    ensures LikesCount(p) == 0 && CommentsCount(p) == 0 && p.savedBy == []
  {
    Post(user, image,
      match caption case Some(c) => c case None => "",
      match location case Some(l) => l case None => "",
      [], [], [], now)
  }

  /** A story as `Story.create` builds it: no viewers, and an expiry 24 hours
      after creation. */
  function NewStory(user: Id, image: string, now: Time): (st: Story)
    ensures st.user == user && st.image == image && st.viewers == []
    ensures st.createdAt == now && st.expiresAt - st.createdAt == StoryLifetime
    ensures |image| > 0 ==> StoryStored(st)
  {
    Story(user, image, [], now, now + StoryLifetime)
  }

  /** A comment as `Comment.create` builds it: no likes, no replies. */
  function NewComment(user: Id, post: Id, text: string, now: Time): (c: Comment)
    ensures c.user == user && c.post == post && c.text == text && c.createdAt == now
    ensures c.likes == [] && c.replies == []
  {
    Comment(user, post, text, [], [], now)
  }
}
