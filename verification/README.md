# INSTAU backend, modelled in Dafny

INSTAU is an Instagram-like social app. This project models its backend: the
Express route handlers for users, posts, stories and authentication, and the
four Mongoose schemas behind them.

The database is one immutable value, `Database.Store`. It holds a map from id
to record for each collection, plus the counter that new ids are drawn from.
Ids grow with insertion. Where a query has no sort, the database does not
promise an order: the story listing takes the scan order as a parameter,
and the user lookups take ascending id (see "Left out").
Every route handler is a pure function from a store and its request
parameters to a `Step`: the store afterwards and the response sent. Each
response is `Ok(status, data)` or `Err(status, message)`. The signed-in user
(`actor`), the clock (`now`) and an uploaded file's stored name are explicit
parameters.

The modules follow the repository:

- `Models`: the schemas' fields, bounds, defaults and validation messages.
- `Database`: the store and its invariant `Valid`.
- `Users`, `Posts`, `Stories`, `Auth`: one module per route file.
- `Base`, `Text`, `Sorting`: the list, string and sort operations the routes rely on.
- `Scenarios`: concrete requests worked through the model.

`Valid` collects what the handlers keep true:
- every stored record satisfies its schema;
- usernames and emails are unique;
- the follow graph's two stored sides agree, with no duplicates and no self-edges;
- every comment's post exists and lists it, and every post lists only its own comments;
- stories keep their 24-hour expiry.

Every state-changing handler has a lemma showing that it preserves `Valid`.

Password hashing, password comparison and token signing are parameters (`Auth.Crypto`).

Where the code and its messages disagree, the model follows the code. Viewing
a story answers "Story not found or expired", yet the route never looks at
`expiresAt`: an expired story is served until the expiry sweep removes it.

## Model

| member | source | states |
|---|---|---|
| Base.Pull | Backend/routes/posts.js:240 | `$pull` removes every occurrence of the value and keeps every other element; on a duplicate-free list it removes exactly one element |
| Base.PullUndoesPush | Backend/routes/users.js:177-218 | pulling a value that was just pushed onto a list not containing it gives back the original list |
| Base.Window | Backend/routes/posts.js:54-55 | `skip`/`limit` returns the elements at positions `skip` to `skip + limit - 1`, cut at the end of the list, in order |
| Text.Lower | Backend/routes/auth.js:25 | lower-casing keeps the length, maps every capital letter to its lower-case letter and keeps every other character, so no upper-case letter is left |
| Text.Trim | Backend/models/User.js:9 | the trimmed string is the slice of the input between its leading and trailing white space, with no white space at either end; it is empty exactly when the input is all white space |
| Text.TrimLowerIsCanonical | Backend/models/User.js:9-10 | a username passed through both the `lowercase` and `trim` setters is a fixed point of both: stored usernames are canonical |
| Sorting.SortDesc | Backend/routes/posts.js:53 | a descending sort returns a permutation of its input, ordered by non-increasing key |
| Models.UsernameErrors | Backend/models/User.js:5-13 | a username has no error exactly when it has 3 to 30 characters, and at most one error is reported |
| Models.PasswordErrors | Backend/models/User.js:20-25 | a password has no error exactly when it has at least 6 characters |
| Models.NameErrors | Backend/models/User.js:26-31 | a name has no error exactly when it is non-empty and at most 50 characters long |
| Models.BioErrors | Backend/models/User.js:36-40 | a bio has no error exactly when it is at most 150 characters long |
| Models.UserErrors | Backend/models/User.js:4-40 | a new user document validates exactly when every field bound holds, with at most one error per path |
| Models.PostErrors | Backend/models/Post.js:9-22 | a post validates exactly when the image is present, the caption has at most 2200 characters and the location at most 100; errors name only those paths |
| Models.CommentErrors | Backend/models/Comment.js:14-18 | a comment validates exactly when its text is non-empty and at most 1000 characters; errors name only the text path |
| Models.StoryErrors | Backend/models/Story.js:9-12 | a story validates exactly when its image is present |
| Models.NewPost | Backend/models/Post.js:13-34 | a new post has the given author, image and time; an absent caption or location defaults to the empty string; likes, comments and saves start empty, so both count virtuals are 0 |
| Models.NewStory | Backend/models/Story.js:13-21 | a new story has no viewers and expires exactly 86 400 000 ms after creation; with an image it is storable |
| Models.NewComment | Backend/models/Comment.js:3-33 | a new comment has the given author, post and text, with no likes and no replies |
| Database.ImageUrl | Backend/routes/posts.js:117-120 | an uploaded file wins over the body's URL and always gives a non-empty URL; without a file the body's URL is used |
| Database.PostsBy | Backend/routes/posts.js:46-53 | the posts query returns each post by the given authors exactly once, newest first, and nothing else |
| Users.Follow | Backend/routes/users.js:150-195 | the checks run in order (404 missing target, 400 self-follow, 400 already following); success appends the actor to the target's followers and the target to the actor's following; no profile field and no other user changes |
| Users.Unfollow | Backend/routes/users.js:200-230 | 404 for a missing target, otherwise success; no profile field and no user other than the two changes |
| Users.FollowAddsOneEdge | Backend/routes/users.js:177-183 | after a follow, an edge exists on either side exactly when it existed before or is the new actor-to-target edge |
| Users.UnfollowRemovesOneEdge | Backend/routes/users.js:212-218 | after an unfollow, an edge exists on either side exactly when it existed before and is not actor-to-target |
| Users.FollowTwiceFails | Backend/routes/users.js:169-174 | following the same user again fails with "You are already following this user" and changes nothing |
| Users.UnfollowIdempotent | Backend/routes/users.js:202-218 | a second unfollow answers as the first did and changes nothing |
| Users.UnfollowUndoesFollow | Backend/routes/users.js:177-218 | unfollow after a successful follow restores the store exactly |
| Users.FollowKeepsValid | Backend/routes/users.js:177-183 | follow keeps the store invariant: both sides of the graph agree and neither list has a duplicate |
| Users.UnfollowKeepsValid | Backend/routes/users.js:212-218 | unfollow keeps the store invariant |
| Users.Followers | Backend/routes/users.js:235-257 | 404 for an unknown user; otherwise the followers, listed once each, are exactly the users who follow them |
| Users.GetProfile | Backend/routes/users.js:36-71 | the path parameter goes through the schema's trim and lowercase setters; 404 exactly when no user has the resulting username; otherwise that user, exactly their posts newest first, and counts equal to the list lengths |
| Users.ProfileIsUnique | Backend/routes/users.js:38 | with unique usernames, the profile found is the only user whose username is the trimmed, lower-cased parameter |
| Users.ProfileFoundByAnySpelling | Backend/routes/users.js:38 | any spelling that trims and lower-cases to a stored username, capitals and padding included, finds that user's profile |
| Users.EditErrors | Backend/routes/users.js:88-92 | the update validators pass exactly when a provided trimmed name has 1 to 50 characters and a provided bio at most 150 |
| Users.UpdateProfile | Backend/routes/users.js:76-107 | the update succeeds exactly when the edit validates and then replaces only the actor's record with the edited one; a failure is a 500 that changes nothing |
| Users.ApplyEdit | Backend/routes/users.js:80-84 | the provided fields among name (trimmed), bio, website and avatar are set; every other field, the edge lists included, is unchanged |
| Users.UploadAvatar | Backend/routes/users.js:112-145 | without a file, 400 "Please upload an image" and no change; with one, only the actor's avatar becomes the uploaded file's URL, which is also the response |
| Users.UpdateProfileKeepsValid | Backend/routes/users.js:88-92 | a profile update keeps the store invariant |
| Users.UploadAvatarKeepsValid | Backend/routes/users.js:123-127 | an avatar upload keeps the store invariant |
| Users.Suggestions | Backend/routes/users.js:262-288 | at most 5 users, in insertion order, never the actor nor anyone the actor follows, each with their follower count; any suggestible user left out comes after all 5 returned |
| Posts.ReadPaging | Backend/routes/posts.js:39-41 | page and limit default to 1 and the route's default size when absent or zero, and `skip = (page - 1) * limit` |
| Posts.PageCount | Backend/routes/posts.js:68 | the page count is the fewest pages of `limit` items that hold `total` items, and is 0 exactly when `total` is 0 |
| Posts.EveryItemOnItsPage | Backend/routes/posts.js:39-68 | every item of a listing appears on page `index / limit + 1`, at offset `index % limit`, and that page is within the page count |
| Posts.GetFeed | Backend/routes/posts.js:37-78 | the feed page is the paging window of the actor's and followed users' posts, newest first; each item carries the actor's like and save; the total counts the same filter |
| Posts.Explore | Backend/routes/posts.js:83-108 | the explore page is the paging window of the database's order over all posts; `isLiked` is the viewer's membership in the likes, false with no viewer |
| Posts.GetPost | Backend/routes/posts.js:153-184 | 404 for an unknown post; otherwise the post, with `isLiked` and `isSaved` the viewer's memberships, both false with no viewer |
| Posts.CreatePost | Backend/routes/posts.js:113-148 | with no image, 400 and no change; the post is created exactly when an image is given and the fields validate; it is stored under a fresh id, with defaults, and nothing else changes |
| Posts.DeletePost | Backend/routes/posts.js:189-220 | 404 missing, 403 not the author (no change); otherwise the post and exactly its comments are removed, and every other record is untouched |
| Posts.DeletePostLeavesNoOrphans | Backend/routes/posts.js:207-208 | after a post is deleted, no remaining comment refers to it |
| Posts.Toggle | Backend/routes/posts.js:236-244 | the toggle flips the actor's membership and leaves every other member; on a duplicate-free list the length changes by exactly one |
| Posts.ToggleLike | Backend/routes/posts.js:225-261 | 404 for an unknown post; otherwise only the actor's like flips, `isLiked` is the new state and `likesCount` the new count, changed by one; nothing else changes |
| Posts.ToggleSave | Backend/routes/posts.js:266-297 | 404 for an unknown post; otherwise only the actor's save flips, likes untouched, and `isSaved` is the new state |
| Posts.GetPostAfterToggleLike | Backend/routes/posts.js:153-261 | after a like toggle, the post read back by the actor has `isLiked` and the like count the toggle answered; `isSaved` and every other viewer's flags are unchanged |
| Posts.GetPostAfterToggleSave | Backend/routes/posts.js:153-297 | after a save toggle, the post read back by the actor has `isSaved` the toggle answered; `isLiked` and every other viewer's flags are unchanged |
| Posts.ToggleLikeTwice | Backend/routes/posts.js:236-253 | liking twice restores the liked state, the count and the set of likers |
| Posts.ToggleLikeTwiceRestores | Backend/routes/posts.js:236-246 | from the not-liked state, liking twice restores the whole store |
| Posts.ToggleSaveTwice | Backend/routes/posts.js:277-289 | saving twice restores the saved state and the set of savers, and never touches likes |
| Posts.ToggleSaveTwiceRestores | Backend/routes/posts.js:277-285 | from the not-saved state, saving twice restores the whole store |
| Posts.AddComment | Backend/routes/posts.js:302-343 | missing or blank text is a 400 before the post lookup, then 404; on success the trimmed, non-empty text is stored under a fresh id and appended to the end of the post's comment list |
| Posts.AttachComment | Backend/routes/posts.js:322-329 | the comment is stored under the next id, which is appended to its post's list; nothing else changes |
| Posts.DeleteCommentAsWritten | Backend/routes/posts.js:348-382 | the route as written: success exactly when the comment exists and the actor wrote it, with 404 missing before 403 not the author; on success it answers "Comment deleted successfully", removes the comment, pulls its id from the post named in the URL, and leaves users and stories alone |
| Posts.DeleteCommentAsWrittenLeavesDangling | Backend/routes/posts.js:366-370 | when the URL names another post, the comment's own post still lists the deleted comment and the store invariant is broken |
| Posts.DeleteComment | Backend/routes/posts.js:348-382 | 404 missing, 403 not the author; otherwise the comment is removed and its id leaves exactly its own post's list; no other post changes |
| Posts.DeleteCommentKeepsPost | Backend/routes/posts.js:366-370 | deleting a comment removes neither its post nor any other comment |
| Posts.ToggleLikeKeepsValid | Backend/routes/posts.js:236-246 | the like toggle keeps the store invariant |
| Posts.ToggleSaveKeepsValid | Backend/routes/posts.js:277-285 | the save toggle keeps the store invariant |
| Posts.CreatePostKeepsValid | Backend/routes/posts.js:129-134 | post creation keeps the store invariant |
| Posts.DeletePostKeepsValid | Backend/routes/posts.js:207-208 | the delete cascade keeps the store invariant: no comment is left without its post |
| Posts.AddCommentKeepsValid | Backend/routes/posts.js:322-329 | adding a comment keeps the store invariant |
| Posts.DeleteCommentKeepsValid | Backend/routes/posts.js:366-370 | deleting a comment from its own post keeps the store invariant |
| Stories.Entries | Backend/routes/stories.js:38-46 | the matched stories are exactly the unexpired ones by the actor or someone the actor follows, each once, in the order the database scan emits them, each flagged with the actor's view |
| Stories.AuthorsAreListed | Backend/routes/stories.js:41-56 | an author has a matched story exactly when they have a listed one |
| Stories.GroupOrder | Backend/routes/stories.js:55-82 | the groups' authors appear once each, by descending latest story, except that the actor's own group, when present, comes first |
| Stories.Groups | Backend/routes/stories.js:48-82 | one group per author with a matched story; groups after the first are ordered by descending latest story; the actor's group is first when present, and otherwise all groups are ordered |
| Stories.ListStories | Backend/routes/stories.js:35-94 | one group per author with a listed story, holding exactly that author's listed stories, each once and in scan order, with the newest creation time, per-story `isViewed` and `hasUnviewed` exactly when some story is unviewed; ordered as `GroupOrder` says |
| Stories.MoveToFront | Backend/routes/stories.js:76-82 | the reorder is a permutation that puts the actor first and keeps the relative order of all other groups; it changes nothing when the actor is absent or already first |
| Stories.CreateStory | Backend/routes/stories.js:99-130 | with no image, 400 and no change; otherwise a story by the actor, with the uploaded or given image, no viewers and a 24-hour expiry, is stored under a fresh id and nothing else changes |
| Stories.ViewStory | Backend/routes/stories.js:135-166 | 404 for an unknown story; otherwise the actor is added to the viewers only if absent, nothing else changes, and `viewersCount` is the number of viewers |
| Stories.ViewStoryIdempotent | Backend/routes/stories.js:147-151 | viewing a story twice gives the same store and response as viewing it once |
| Stories.DeleteStory | Backend/routes/stories.js:171-201 | 404 missing, 403 not the author (no change); otherwise exactly that story is removed |
| Stories.StoryViewers | Backend/routes/stories.js:206-235 | 404 is checked before 403; the viewer list goes only to the story's author |
| Stories.ViewersAfterView | Backend/routes/stories.js:135-235 | after a user views a story, the author's viewer list is the earlier viewers plus that user, and nothing else |
| Stories.ExpireStories | Backend/models/Story.js:22 | an expiry sweep removes only stories whose expiry has passed, and changes nothing else |
| Stories.ExpireKeepsListing | Backend/models/Story.js:17-22 | a sweep at or before the listing time never changes the listing, for the same scan order |
| Stories.StoryListedForADay | Backend/models/Story.js:17-21 | a story created at time T is listed to its author exactly while `now < T + 24h` |
| Stories.CreateStoryKeepsValid | Backend/routes/stories.js:113-116 | story creation keeps the store invariant |
| Stories.ViewStoryKeepsValid | Backend/routes/stories.js:147-151 | marking a story viewed keeps the store invariant |
| Stories.DeleteStoryKeepsValid | Backend/routes/stories.js:189 | story deletion keeps the store invariant |
| Stories.ExpireStoriesKeepsValid | Backend/models/Story.js:22 | the expiry sweep keeps the store invariant |
| Auth.PreSave | Backend/models/User.js:66-74 | the hook hashes the password when it was modified and otherwise leaves the document unchanged |
| Auth.ComparePassword | Backend/models/User.js:77-85 | `comparePassword` is true exactly when the comparison succeeds and says true; a comparison that throws counts as a mismatch |
| Auth.Candidate | Backend/routes/auth.js:39-45 | the new document has the lower-cased, trimmed username, the lower-cased email, the trimmed name, the avatar URL ending in the raw username, and the schema defaults |
| Auth.Existing | Backend/routes/auth.js:24-26 | a match is a user with the lower-cased email or with the username the query's setters produce (trimmed and lower-cased); nothing exactly when no user matches; among several matches the model takes the lowest id |
| Auth.UsernameHolder | Backend/models/User.js:8 | the unique username index finds a holder of the username exactly when one exists |
| Auth.ErrorMessage | Backend/routes/auth.js:65-81 | a validation error's message joins the messages with ", "; a duplicate key's message is "field already exists" |
| Auth.Decide | Backend/routes/auth.js:24-45 | the matched user decides the refusal: "Email already registered" exactly when that user's email matches, otherwise "Username already taken"; with no match, creation decides |
| Auth.ExistingRefuses | Backend/routes/auth.js:23-36 | whichever match the existence check returns: when every match has the email the answer is 400 "Email already registered", when none has it 400 "Username already taken", and the store is unchanged |
| Auth.IndexNeverFires | Backend/routes/auth.js:23-81 | for a body with every field present, register never reaches the unique username index, because the existence check compares the same canonical username first |
| Auth.Admit | Backend/routes/auth.js:39-81 | creation succeeds exactly when the fields validate and no user holds the username; validation errors come before the duplicate key; the stored account has its password hashed |
| Auth.Register | Backend/routes/auth.js:9-88 | a missing field is a 400 with the fixed message; every refusal is a 400 that changes nothing; success answers 201 with the new id and its token and stores the hashed account |
| Auth.RegisterAccepts | Backend/routes/auth.js:9-88 | register succeeds exactly when every field is present, no user has the lower-cased email or the canonical username, and the document validates |
| Auth.RegisterStores | Backend/routes/auth.js:39-45 | a successful register adds exactly the candidate, with its password hashed, under a fresh id, and changes nothing else |
| Auth.RegisterTwiceFails | Backend/routes/auth.js:28-35 | registering the same body again gets 400 "Email already registered" and changes nothing |
| Auth.RegisterRefused | Backend/routes/auth.js:28-35 | a refused registration answers 400 with the refusal's message and leaves the store alone |
| Auth.NewAccountConflictsFirst | Backend/routes/auth.js:24-34 | an account added under the next id to a store with no conflict becomes the first conflict for its own email |
| Auth.EmailOwner | Backend/routes/auth.js:107 | the login lookup finds a user with the given email exactly when one exists |
| Auth.Login | Backend/routes/auth.js:93-153 | a missing field is a 400; an unknown email and a wrong password both give 401 "Invalid credentials"; success returns that account, its counts as list lengths, and its token |
| Auth.LoginMatchesAccount | Backend/routes/auth.js:107-126 | with unique emails, login accepts exactly the passwords that the email's account accepts, and signs in as that account |
| Auth.RegisterAnswers | Backend/routes/auth.js:49-61 | a successful register answers 201 with the new account's id and that id's token |
| Auth.RegisterThenLogin | Backend/routes/auth.js:39-130 | whoever registers can log in with the same email and password, as the account just created, with the same token |
| Auth.LoginFindsAccount | Backend/routes/auth.js:107-130 | login finds an account added under the next id as the only owner of its email, and accepts its password |
| Auth.CandidateStored | Backend/models/User.js:5-31 | a validating candidate is a storable user: lower-case and trimmed username, lower-case email, trimmed name |
| Auth.AddUserKeepsValid | Backend/routes/auth.js:39-45 | adding a storable account with a new username and email and no edges keeps the store invariant |
| Auth.RegisterKeepsValid | Backend/routes/auth.js:39-45 | register keeps the store invariant, unique usernames and emails included |
| Scenarios.RegisterExample | Backend/routes/auth.js:39-61 | signing up "alice" on an empty database succeeds and answers username "alice" and the avatar URL built from the submitted username |
| Scenarios.PaddedExample | Backend/routes/auth.js:23-36 | after that sign-up, a second one with username " alice" and another email is caught by the existence check, whose setters trim the username: 400 "Username already taken", store unchanged |
| Scenarios.ProfileByCapitalised | Backend/routes/users.js:36-48 | with "alice" stored, the profile lookup for "Alice" finds her |
| Scenarios.DeleteThroughOtherPostAsWritten | Backend/routes/posts.js:366-368 | a comment on post 1 deleted through post 2's URL, as the code does it: the request succeeds and the comment is gone, but post 1 still lists it and the invariant fails |
| Scenarios.DeleteThroughOtherPostCorrected | Backend/routes/posts.js:366-368 | the same request with the id pulled from the comment's own post: post 1's list is emptied and the invariant holds |

## Left out

- Backend/server.js is not part of this model: Express wiring, CORS, static files, the catch-all handlers and logging.
- The `protect` and `optionalAuth` middleware is not part of this model. A protected route takes an `actor` that is a stored user; an optional one takes an `Option<Id>` viewer.
- Uploads are reduced to an optional stored file name. The multer storage, the file-name scheme, the size limit and the image-type filter are left out, because they are file-system I/O.
- Password hashing, password comparison and token signing are uninterpreted parameters (`Auth.Crypto`), because they are outside libraries. `Auth.Sound` is the only assumption made of them.
- `populate`, `select` and `toObject` shaping are left out because they only change presentation. Responses carry ids and the fields the contracts speak of. So is the feed's "latest 2 comments" option, and the omission of password and email from reads.
- Each handler is one atomic transition. Concurrency and a failure between two writes of one handler are left out.
- Query strings arrive already parsed: 0 stands for an absent, zero or unparsable page or limit. CastErrors from malformed ids are left out. An id is a natural number, and an unknown id takes the not-found path.
- The 500 paths for unexpected database errors are left out; only the validation failures the model can produce reach them. For the same reason the "Server error" branch of register is left out. Neither unique index can fire there when handlers run one at a time: the existence check already compares the same lower-cased email and, through the query's setters, the same trimmed, lower-cased username (`Auth.IndexNeverFires`). `Auth.Admit` keeps the username index branch for completeness.
- The clock and the timing of the background expiry sweep are left out: `now` is a parameter. `Stories.ExpireStories` is one sweep pass that removes a chosen set of expired stories.
- `createdAt` is the creation time passed in. The `updatedAt` timestamps and the unused comment index are left out.
- `toLowerCase` and `trim` are ASCII only; Unicode case mapping and Unicode white space are left out.
- The GET /auth/me route and the rest of auth.js after line 153 are left out; they are not part of the modelled core.
- Posts.Explore: the route sorts on `likesCount`, a virtual the database cannot see, so the order is the database's own. The order is a parameter (any arrangement of all posts), and the contract states paging and flags over it, not the sort.
- Sorting.SortDesc: the database does not promise an order among equal keys. The model's sort is stable on insertion order, and the contracts promise only the descending key order.
- Stories.ListStories: the order among groups with the same latest story is unspecified in the same way.
- Stories.Entries: the `$match` stage has no sort, and the database promises no order for what it emits, so the scan order is a parameter (every stored story, each once). Each group lists its stories in that order; the model does not fix which order it is.
- Auth.Existing: when two accounts conflict, one on the email and another on the username, the database does not say which `findOne` returns. The model takes the lowest id. `Auth.ExistingRefuses` states the answer that holds whichever is returned, whenever all matches agree on the email.
- Users.Suggestions: a `find` with `limit` and no sort has no promised order. The model takes insertion (ascending id) order.
- Users.Unfollow: its contract states the frame and the response. The edge removal on both sides is stated by `Users.UnfollowRemovesOneEdge`.
- Posts.ToggleLikeTwice: from the liked state the route pulls the actor and pushes them back at the end. Liking twice restores the list exactly only from the not-liked state (`Posts.ToggleLikeTwiceRestores`); from the liked state it restores membership and count. The same holds for saves.
- Auth.Login: the counts `followers?.length || 0` are the list lengths, because the model's lists are never absent.

## Findings

| source | as written | input that shows it | evidently intended | confidence | as-written member | corrected member |
|---|---|---|---|---|---|---|
| Backend/routes/posts.js:366-368 | deleting a comment pulls its id from the post named in the URL, not from the comment's own post | a comment by the actor on post A, deleted through `/posts/B/comment/:id` with B different from A: the comment is deleted but A still lists its id, so A's `commentsCount` counts a missing comment | pull the id from the post the comment belongs to | not executed | Posts.DeleteCommentAsWritten, Posts.DeleteCommentAsWrittenLeavesDangling, Scenarios.DeleteThroughOtherPostAsWritten | Posts.DeleteComment, Posts.DeleteCommentKeepsValid, Scenarios.DeleteThroughOtherPostCorrected |
