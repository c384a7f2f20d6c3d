# Medium clone: handlers, hooks and helpers in Dafny

This project models the record-store and string logic of a Medium-style
blogging app written in TypeScript (Next.js). It covers these parts:

- **Reactions API.** `GET` lists a post's reactions and the caller's own. `POST` toggles a reaction: it adds one, removes it, or changes its type in place.
- **Comments API.** `GET` lists top-level comments, each with its replies. `POST` validates a comment and appends it.
- **Posts API.** `GET` filters posts by status. `POST` validates a post, derives its slug, status, publication time, author and tag records, then appends it.
- **Post helpers.** The normalising slug generator, the post schema check, and the reshaping of a database row.
- **Shared in-memory post store.**
- **Client-side list updates.** The follow button's following list, the optimistic reaction update, comment prepend and reply insertion, and the editor's tag list and publish guard.
- **Mock auth routes.** Signup and login.
- **Upload guard.**
- **SEO metadata builders.**

State that the source changes in place is a `class` whose methods are
proved against specification functions:

- a JSON file loaded by a handler;
- the module-level `mockPosts` array;
- a React state slot;
- the follow list held in `localStorage`.

Pure derivations are functions, and the lemmas beside them state what the
code promises. Other inputs become parameters:

- `Date.now()` is a natural number, rendered in decimal;
- `new Date().toISOString()` is a string;
- `Math.random()` is its base-36 digits;
- `getCurrentUser()` is an optional user;
- the session is an optional session;
- a parsed server reply is an optional response, which is None when the request threw.

Modules, one per source file:

- `Common` holds the JavaScript vocabulary:
  - truthiness and `||` defaults;
  - the `\s` class, `toLowerCase` and `trim`;
  - `filter`, `findIndex`, `find` and `splice`;
  - regular-expression run replacement;
  - decimal rendering.
- `PostTypes` holds the shared records of `src/types/post.ts`.
- `ReactionsRoute`, `CommentsRoute`, `PostsRoute`, `PostsLib`, `MockStorage`, `FollowButton`, `UseReactions`, `UseComments`, `WritePage`, `SignupRoute`, `LoginRoute`, `UploadRoute` and `Seo` hold the core files, each named after the file it models.

## Model

| member | source | states |
|---|---|---|
| Common.Trim | src/app/write/page.tsx:41-42 | `trim()` gives a string with no white space at either end and no longer than its input. A string already trimmed is unchanged. |
| Common.TrimIsSlice | src/app/write/page.tsx:41-42 | The trimmed string is the slice of the input between a leading and a trailing stretch that are all white space, so `trim()` removes exactly the white space at the two ends. |
| Common.TrimChars | src/app/write/page.tsx:63 | Trimming keeps only characters of the input. The result is empty exactly when the input is all white space, which is the blank check of `handlePublish`. |
| Common.Lower | src/lib/posts.ts:6 | `toLowerCase()` keeps the length and lowers each character in place. |
| Common.LowerFacts | src/lib/posts.ts:6 | A lowered string has no upper-case letter, and a string without one is unchanged. |
| Common.CollapseRuns | src/lib/posts.ts:9 | Replacing every run of the given class by "-" keeps a first character outside the class and turns a first run into "-". When "-" is in the class, no "--" remains. |
| Common.CollapseRunsChars | src/lib/posts.ts:9 | The result holds only "-" and characters of the input outside the class. |
| Common.CollapseRunsKept | src/lib/posts.ts:9 | A character outside the class is copied, and the rest is collapsed after it. |
| Common.CollapseRunsRun | src/lib/posts.ts:9 | A whole run of class characters, up to the next other character or the end, becomes one "-". |
| Common.CollapseRunsPrefix | src/lib/posts.ts:9 | A prefix without class characters is copied unchanged. |
| Common.CollapseRunsRunWord | src/lib/posts.ts:9 | A run followed by a word without class characters becomes "-" and that word. |
| Common.CollapseRunsWords | src/lib/posts.ts:9 | Two words around a run become the two words joined by one "-". |
| Common.CollapseRunsKeepsOthers | src/lib/posts.ts:9 | The characters outside the class other than "-" are the input's, all of them and in the same order. |
| Common.CollapseRunsIdentity | src/lib/posts.ts:9 | A string whose only class characters are single dashes is unchanged. |
| Common.Decimal | src/app/api/posts/route.ts:49 | A number's decimal rendering is a non-empty string of digits, without a leading zero from 10 on. |
| Common.DecimalInjective | src/app/api/posts/route.ts:62 | Different numbers render differently, so the tag ids `tag_<index>` are distinct. |
| ReactionsRoute.Get | src/app/api/reactions/route.ts:10-19 | No postId gives 400 "Post ID is required". Otherwise the listing holds exactly the stored reactions on the post. `userReaction` is None without a user id. When present, it is a stored reaction of that (post, user) pair. When absent, the pair has no reaction. |
| ReactionsRoute.GetKeepsStoreOrder | src/app/api/reactions/route.ts:18 | The listing of a concatenated store is the concatenation of the listings, so reactions come in store order. |
| ReactionsRoute.GetOne | src/app/api/reactions/route.ts:18 | A single record is listed once when it is on the post and not at all otherwise; with GetKeepsStoreOrder each matching record is listed exactly once, in store order. |
| ReactionsRoute.GetUserReactionIsFirst | src/app/api/reactions/route.ts:17-19 | `userReaction` is the caller's first reaction on the post, in store order. |
| ReactionsRoute.FirstOfPostThenUser | src/app/api/reactions/route.ts:18-19 | Finding by user among the post's reactions equals finding the (post, user) pair in the whole store. |
| ReactionsRoute.NewReaction | src/app/api/reactions/route.ts:62-71 | The new record belongs to the (post, user) pair, has the sent type and the ISO time, and its id is "reaction_<now>". |
| ReactionsRoute.NewReactionIdsDiffer | src/app/api/reactions/route.ts:65 | Reactions created at different clock readings get different ids. |
| ReactionsRoute.ToggleReaction | src/app/api/reactions/route.ts:49-74 | With no reaction of the pair, the new record is appended and the reply is the type. A removal shortens the store by one. Any other reply carries the sent type. |
| ReactionsRoute.ToggleExisting | src/app/api/reactions/route.ts:52-61 | When the pair's first reaction is at index i, the same type splices out exactly entry i and replies `removed`. Another type changes only entry i's `type`, and the length and every other entry stay as they were. |
| ReactionsRoute.ToggleLeavesOtherPairs | src/app/api/reactions/route.ts:50-71 | The reactions of every other (post, user) pair are the same, in the same order, after any toggle. |
| ReactionsRoute.TogglePreservesUnique | src/app/api/reactions/route.ts:50-71 | A store with at most one reaction per (post, user) pair still has at most one after a toggle. |
| ReactionsRoute.AppendKeepsUnique | src/app/api/reactions/route.ts:64-70 | Appending a reaction of a pair the store lacks keeps one reaction per pair. |
| ReactionsRoute.SpliceKeepsUnique | src/app/api/reactions/route.ts:55 | Splicing out a reaction keeps one reaction per pair. |
| ReactionsRoute.UpdateKeepsUnique | src/app/api/reactions/route.ts:60 | Changing a reaction's type in place keeps one reaction per pair. |
| ReactionsRoute.ToggleStateMachine | src/app/api/reactions/route.ts:50-74 | On a store with one reaction per pair, toggling `kind` maps the pair's state `kind` to absent and replies `removed`. Any other state goes to `kind`, and the reply is `kind`. |
| ReactionsRoute.ToggleTwiceRestores | src/app/api/reactions/route.ts:50-71 | From no reaction, toggling the same type twice gives back the original store. |
| ReactionsRoute.ToggleThenSwitch | src/app/api/reactions/route.ts:58-71 | From no reaction, toggling A and then a different B leaves exactly one reaction of the pair: the first record, with type B. |
| ReactionsRoute.LikeLikeClap | src/app/api/reactions/route.ts:50-71 | LIKE, LIKE, CLAP from no reaction leaves the store plus one CLAP record. |
| ReactionsRoute.UniqueFirstOfPair | src/app/api/reactions/route.ts:50 | With one reaction per pair, any reaction of the pair is the one `findIndex` finds. |
| ReactionsRoute.ReactionStore.Post | src/app/api/reactions/route.ts:42-74 | A missing postId, type or user id gives 400 and leaves the store unchanged. Otherwise the new store and the reply are those of ToggleReaction. |
| CommentsRoute.RepliesTo | src/app/api/comments/route.ts:24 | The replies of a comment are exactly the stored comments whose parentId is its id. |
| CommentsRoute.Threads | src/app/api/comments/route.ts:22-25 | Each top-level comment gets, in order, the thread of its replies. |
| CommentsRoute.Get | src/app/api/comments/route.ts:9-25 | No postId gives 400. Otherwise the heads are exactly the stored comments of the post without a parentId, and none of them has a parent. Each thread's replies are exactly the comments whose parentId is the head's id. |
| CommentsRoute.GetKeepsStoreOrder | src/app/api/comments/route.ts:17-25 | Heads, and the replies of each head, come in store order: the listing of a concatenation is the concatenation of the listings. |
| CommentsRoute.PostedCommentListedLast | src/app/api/comments/route.ts:17-19 | An appended top-level comment is listed last. |
| CommentsRoute.PostedReplyListedLast | src/app/api/comments/route.ts:22-25 | An appended reply leaves the number of heads unchanged and is the last reply of its parent's thread. |
| CommentsRoute.NewComment | src/app/api/comments/route.ts:53-64 | The id is "comment_" followed by the clock reading, the id replies link through. The new comment keeps the given parent when it is truthy and gets null otherwise. The author name is the header value or "User". The author's id is the caller, and there is no avatar. |
| CommentsRoute.CommentStore.Post | src/app/api/comments/route.ts:46-72 | Missing content, postId or user id gives 400 and stores nothing. Otherwise exactly the new comment is appended, and the reply is 201 with it. |
| PostsRoute.Get | src/app/api/posts/route.ts:8-21 | The status defaults to "PUBLISHED". Exactly the stored posts with that status are listed. The pagination is page 1, limit 10, total = the count, pages 1. |
| PostsRoute.GetKeepsStoreOrder | src/app/api/posts/route.ts:11 | Posts are listed in store order. |
| PostsRoute.RouteSlug | src/app/api/posts/route.ts:49 | The slug is the lower-cased title with each white-space run made one "-", then "-", then the clock reading in decimal. It has no white space, and each character is "-", a digit, or a character of the lower-cased title. |
| PostsRoute.RouteSlugOfWords | src/app/api/posts/route.ts:49 | Two words around a white-space run give "<word1>-<word2>-<now>", lower-cased. |
| PostsRoute.TagRecords | src/app/api/posts/route.ts:61-65 | The i-th tag name becomes a record with id "tag_<i>", that name and its lower-cased slug, and the ids are pairwise distinct. |
| PostsRoute.NewPost | src/app/api/posts/route.ts:43-68 | The id is "post_" followed by the clock reading. The status defaults to DRAFT. `publishedAt` is the ISO time when the sent status is "PUBLISHED" and null otherwise, and `createdAt` and `updatedAt` are the ISO time. Absent tags give []. When the `x-user-id` header is set, it is the author's id, otherwise the id is "user_" followed by the clock reading, and `authorId` always equals the author's id. The author is named by the header or "User", with the email "<lower-cased name>@example.com". |
| PostsRoute.PostFile.Post | src/app/api/posts/route.ts:36-75 | An empty or missing title or content gives 400 and stores nothing. Otherwise exactly one post is appended and returned with 201. |
| PostsRoute.PostListedLast | src/app/api/posts/route.ts:8-11 | A post appended with the queried status (PUBLISHED by default) is listed once, last, so with GetKeepsStoreOrder each matching post is listed exactly once, in store order. |
| PostsLib.GenerateSlug | src/lib/posts.ts:4-11 | The slug is the normalised base, "-", and at most five random digits. The base is a slug base. |
| Common.JoinSuffix | src/lib/posts.ts:10 | The base, the "-" and the suffix sit at their places in the joined slug. |
| PostsLib.SlugBase | src/lib/posts.ts:5-10 | The normalised base holds only lower-case ASCII letters, digits and "-". It has no "-" at either end and never two in a row. |
| PostsLib.SlugBaseOfWords | src/lib/posts.ts:5-10 | Two alphanumeric words around a run of white space, "_" or "-" give "<word1>-<word2>", lower-cased. |
| PostsLib.KeptChars | src/lib/posts.ts:6-8 | After lowering, trimming and removal only `[\w\s-]` remains, and nothing is upper case. |
| PostsLib.CollapsedChars | src/lib/posts.ts:9 | Collapsing the `[\s_-]` runs leaves only slug characters and no "--". |
| PostsLib.StrippedIsSlugBase | src/lib/posts.ts:10 | Removing the end dashes of such a string gives a slug base. |
| PostsLib.SlugBaseIdempotent | src/lib/posts.ts:5-10 | Normalising a normalised base gives it back. |
| PostsLib.SlugBaseFixes | src/lib/posts.ts:5-10 | Every slug base is a fixed point of normalisation. |
| PostsLib.MinLength | src/lib/posts.ts:14-15 | No issue exactly when the field is present with at least the minimum length. A missing field is reported as required, and a short one with its message. |
| PostsLib.Issues | src/lib/posts.ts:13-20 | No issues exactly when the title and content are long enough, the cover image is absent, "" or a URL, and the status is absent, DRAFT or PUBLISHED. A bad cover image is reported. |
| PostsLib.ValidatePost | src/lib/posts.ts:13-36 | Valid exactly when all hold: a title of at least 3 characters and content of at least 10 are present; the cover image is absent, "", or a URL; the status is absent, DRAFT or PUBLISHED. A valid result returns the data. A short title, short content or bad status is reported among the issues. |
| PostsLib.FormatPost | src/lib/posts.ts:38-50 | The row is copied. `tags` is the Tag of each PostTag, in order, or [] when absent. The author is present exactly when the row has one, with `avatarUrl` moved to `image`. |
| MockStorage.WithoutPost | src/lib/mockStorage.ts:8-15 | The store is unchanged exactly when no post has the id. Otherwise it is one shorter. |
| MockStorage.WithoutPostAt | src/lib/mockStorage.ts:9-12 | Removal is exactly the splice at the first index holding the id: every other post stays, in store order. |
| MockStorage.WithoutPostRemovesFirst | src/lib/mockStorage.ts:9-12 | Posts with other ids keep their order. When the id is present, the posts with it lose only their first. |
| MockStorage.WithoutPostUniqueIds | src/lib/mockStorage.ts:8-15 | With unique ids, removal takes out every post with the id. |
| MockStorage.AddThenRemove | src/lib/mockStorage.ts:4-15 | Adding a post with a new id and removing it gives the store back. |
| MockStorage.MockPostStore.AddMockPost | src/lib/mockStorage.ts:4-6 | The post is appended at the end. |
| MockStorage.MockPostStore.RemoveMockPost | src/lib/mockStorage.ts:8-15 | Returns true exactly when some post has the id. The new store is WithoutPost of the old one, and on false it is unchanged. |
| MockStorage.MockPostStore.GetMockPosts | src/lib/mockStorage.ts:17-19 | Returns the current contents. |
| FollowButton.Updated | src/components/FollowButton.tsx:24-33 | After a follow the user is in the list: appended when it was absent, and the list is unchanged when present. An unfollow of an absent user changes nothing. Otherwise the list is one shorter. |
| FollowButton.UpdatedKeepsOthers | src/components/FollowButton.tsx:23-34 | The entries for other users are the same, in the same order, after either update. |
| FollowButton.UnfollowAt | src/components/FollowButton.tsx:29-32 | Unfollowing is exactly the splice at the first index holding the user. |
| FollowButton.UnfollowRemovesFirst | src/components/FollowButton.tsx:29-32 | Unfollowing removes the first occurrence only. |
| FollowButton.UpdatedKeepsDistinct | src/components/FollowButton.tsx:24-33 | A duplicate-free list stays duplicate-free, and after an unfollow the user is absent. |
| FollowButton.SpliceKeepsDistinct | src/components/FollowButton.tsx:31 | Splicing one entry out of a duplicate-free list keeps it duplicate-free and drops that value. |
| FollowButton.FollowThenUnfollow | src/components/FollowButton.tsx:24-33 | Following a new user and unfollowing them gives the list back. |
| FollowButton.FollowButton.HandleFollow | src/components/FollowButton.tsx:19-36 | `isFollowing` flips. The list becomes Updated for the new state, and the reported value is the new state. |
| UseReactions.NewReaction | src/hooks/useReactions.ts:60-66 | The optimistic record takes the reply's id, the sent type and the post. Its user is the session's user id when that is truthy, and "" otherwise. |
| UseReactions.ReplaceId | src/hooks/useReactions.ts:70-72 | Entries with the given id become the new record, and every other entry is kept in its place. |
| UseReactions.AfterToggle | src/hooks/useReactions.ts:35-79 | Without a session, or on failure, nothing changes. The same type as the user's reaction filters out every entry with its id, keeping the others in order, and clears `userReaction`. Otherwise the new record replaces the old entries in place, or is appended when there were none, and becomes `userReaction` with the sent type and postId. |
| UseReactions.AfterTogglePreservesConsistent | src/hooks/useReactions.ts:52-79 | When `userReaction` is one of the listed reactions before, it still is after. |
| UseReactions.DropIdAt | src/hooks/useReactions.ts:56 | With unique ids, dropping the user's reaction by id splices out exactly its entry. |
| UseReactions.ReplaceIdAt | src/hooks/useReactions.ts:70-72 | With unique ids, the map replaces exactly that entry. |
| UseReactions.AfterToggleAtIndex | src/hooks/useReactions.ts:54-72 | With unique ids and the user's reaction at index i, the list is spliced at i or updated at i. |
| UseReactions.MirrorsRoute | src/hooks/useReactions.ts:52-79 | When the hook's reaction type agrees with the route's state for the pair, they agree again after the same toggle. |
| UseReactions.ReactionsHook.ToggleReaction | src/hooks/useReactions.ts:34-86 | The new state slots are AfterToggle of the old ones. |
| UseComments.WithReply | src/hooks/useComments.ts:82-90 | Ids and the count are kept. A comment whose id is parentId gets the reply appended to its replies, which are created when absent, and every other comment is unchanged. |
| UseComments.WithReplyCount | src/hooks/useComments.ts:82-90 | The number of direct replies grows by the number of top-level comments with the parent's id. |
| UseComments.WithReplyAt | src/hooks/useComments.ts:82-90 | With unique ids, only the parent changes, and the reply count grows by one. |
| UseComments.WithReplyNoParent | src/hooks/useComments.ts:84 | A reply to an unlisted comment changes nothing. |
| UseComments.CommentsHook.AddComment | src/hooks/useComments.ts:38-61 | With a session and a successful reply, the new comment is put first. Otherwise nothing changes. |
| UseComments.CommentsHook.AddReply | src/hooks/useComments.ts:63-96 | With a session and a successful reply, the list becomes WithReply. Otherwise nothing changes. |
| WritePage.AddTag | src/app/write/page.tsx:40-45 | The trimmed input is appended exactly when it is non-empty and not already present. |
| WritePage.RemoveTag | src/app/write/page.tsx:47-49 | The tag is gone, and exactly the other tags remain. |
| WritePage.RemoveTagKeepsOrder | src/app/write/page.tsx:48 | Removal works piece by piece, so the remaining tags keep their order. |
| WritePage.Submission | src/app/write/page.tsx:51-75 | The submitted post carries the title, content, excerpt, cover image and tags of the form, and the given status. |
| WritePage.AddTagKeepsWellFormed | src/app/write/page.tsx:41-42 | A duplicate-free list of clean tags stays so after an add. |
| WritePage.AppendKeepsDistinct | src/app/write/page.tsx:42 | Appending an absent tag keeps the list duplicate-free. |
| WritePage.FilterKeepsDistinct | src/app/write/page.tsx:48 | Filtering keeps a duplicate-free list duplicate-free. |
| WritePage.RemoveTagKeepsWellFormed | src/app/write/page.tsx:47-49 | A well-formed tag list stays well formed after a removal. |
| WritePage.AddThenRemove | src/app/write/page.tsx:40-49 | Adding a new tag and removing it gives the list back. |
| WritePage.WriteForm.HandleAddTag | src/app/write/page.tsx:40-45 | The tags become AddTag of the old ones. The input is cleared only when a tag was added, and the other fields are unchanged. |
| WritePage.WriteForm.HandleRemoveTag | src/app/write/page.tsx:47-49 | The tags become RemoveTag of the old ones, and the other fields are unchanged. |
| WritePage.WriteForm.HandleSaveDraft | src/app/write/page.tsx:51-60 | The form is submitted as DRAFT, without a check. |
| WritePage.WriteForm.HandlePublish | src/app/write/page.tsx:62-75 | Nothing is submitted exactly when the title or the content is all white space. Otherwise the form is submitted as PUBLISHED. |
| SignupRoute.UserId | src/app/api/auth/signup/route.ts:17 | The id is "user_" followed by the email, with each character outside [A-Za-z0-9] made "_". It has length 5 + the email's length, and only [A-Za-z0-9_] after the prefix. |
| SignupRoute.UserIdSame | src/app/api/auth/signup/route.ts:17 | Two emails give the same id exactly when they agree after masking. |
| SignupRoute.UserIdOfAlnum | src/app/api/auth/signup/route.ts:17 | An alphanumeric email is kept as it is. |
| SignupRoute.UserIdCollision | src/app/api/auth/signup/route.ts:17 | Emails that differ by one non-alphanumeric character, such as "a.b" and "a_b", share an id. |
| SignupRoute.Signup | src/app/api/auth/signup/route.ts:8-25 | A missing or empty name, email or password gives 400 "Missing required fields". Otherwise the reply is 201 "User created successfully", with the name and email unchanged and the derived id. |
| LoginRoute.BeforeAt | src/app/api/auth/login/route.ts:14 | The longest prefix of the email without "@". |
| LoginRoute.BeforeAtNoAt | src/app/api/auth/login/route.ts:14 | An email without "@" is its own name. |
| LoginRoute.BeforeAtSplit | src/app/api/auth/login/route.ts:14 | The name of "local@rest" is "local". |
| LoginRoute.Login | src/app/api/auth/login/route.ts:8-22 | Success exactly when both email and password are non-empty. On success the email is echoed, the name is the part before "@", and the id is "user_<now>". Failure is 401 "Invalid credentials". |
| UploadRoute.Upload | src/app/api/posts/upload/route.ts:7-60 | The guards run in order: no user gives 401, no file gives 400, a type outside the four image types gives 400, and more than 5·1024·1024 bytes gives 400. Success reports the size unchanged, the name "<user>-<now>-<file name>", and the URL "/uploads/" + that name. |
| UploadRoute.SizeLimitInclusive | src/app/api/posts/upload/route.ts:35-41 | 5242880 bytes pass, and 5242881 do not. |
| UploadRoute.UrlShape | src/app/api/posts/upload/route.ts:44-45 | The URL starts with "/uploads/<user>-" and ends with "-<file name>". |
| Seo.StripTags | src/lib/seo.ts:47 | The result has no "<", is no longer than its input, and holds only characters of the input. |
| Seo.StripTagsPlain | src/lib/seo.ts:47 | Text without "<" is unchanged. |
| Seo.StripTagsPrefix | src/lib/seo.ts:47 | Text before the first "<" passes through. |
| Seo.StripTagsIdempotent | src/lib/seo.ts:47 | Stripping twice strips once. |
| Seo.StripTagsTag | src/lib/seo.ts:47 | A tag "<...>" without ">" inside is removed whole, and the text after it is stripped in turn. |
| Seo.StripTagsOpen | src/lib/seo.ts:47 | A "<" never closed removes the rest of the text. |
| Seo.Description | src/lib/seo.ts:46-47 | The excerpt when it is non-empty. Otherwise the first 160 characters of the tag-stripped content, then "...": at most 163 characters, with no "<". |
| Seo.HandleText | src/lib/seo.ts:77 | A handle holds no white space and no upper-case letter. |
| Seo.HandleTextEmpty | src/lib/seo.ts:77 | A handle is empty exactly when the name is all white space. |
| Seo.HandleIgnoresSpace | src/lib/seo.ts:77 | Inserting any white-space character anywhere in the name does not change the handle. |
| Seo.HandleTextNoSpace | src/lib/seo.ts:77 | A name without white space gives its lower-cased self. |
| Seo.PostCreator | src/lib/seo.ts:77 | The creator is "@" followed by the handle, or "@author" when there is no author or the handle is empty. |
| Seo.AuthorName | src/lib/seo.ts:53 | The author's name when the author is present with a non-empty name, and "Unknown Author" otherwise, so it is never empty. |
| Seo.TagNames | src/lib/seo.ts:52 | The tag names, in order. |
| Seo.GeneratePostMetadata | src/lib/seo.ts:44-84 | Fields of the post page's metadata: the title is "<title> \| Medium Clone", shared by both cards. The description comes from Description. Keywords are the tag names or [], and the authors are [AuthorName]. The URL and canonical are "/posts/<slug>". Images are non-empty exactly when a cover image is set. The creator comes from PostCreator. |
| Seo.GenerateUserMetadata | src/lib/seo.ts:86-117 | The title is "<name> \| Medium Clone". The description is the bio or "Read stories by <name> on Medium Clone". The URL is "/profile?user=<id>". Images are non-empty exactly when an avatar is set. The creator is "@" followed by the handle. |
| Seo.GenerateTagMetadata | src/lib/seo.ts:119-140 | The title is "<tag> Stories \| Medium Clone" and the description is "Discover stories about <tag> on Medium Clone". The keywords are [tag, stories, articles, blog], the URL is "/explore?tag=<tag>", and there are no images or creator. |
| Seo.PostMetadataFacts | src/lib/seo.ts:58-81 | The canonical link is the OpenGraph URL, and the creator handle after "@" holds no white space and no upper-case letter. |

## Left out

- File I/O: `loadReactions`/`saveReactions`, `loadComments`/`saveComments` and `loadPosts`/`addPost` read and write JSON files, and swallow their errors. Each store here is a sequence held by a class, with the file's records as its initial contents.
- The `catch` branches that answer 500 on a thrown exception are not modelled. Neither are malformed request bodies (`request.json()` failing).
- `null` and `undefined` are not told apart: an absent or null field is `None`.
- `toLowerCase` is modelled on ASCII letters only. Non-ASCII letters keep their case.
- Lengths count Unicode scalar values, not UTF-16 code units. For characters outside the Basic Multilingual Plane, `substring(0, 160)`, `min(3)` and `min(10)` count differently here.
- The post timestamps `publishedAt` and `updatedAt` are strings here. The `Date` case of their declared type, whose `toString()` gives the long date form, is not modelled.
- Each handler reads the clock once. Where the source calls `Date.now()` or `new Date()` twice, the two readings are taken to be equal.
- SignupRoute.UserId: a character outside the Basic Multilingual Plane is one character here but two UTF-16 units in the source, so it becomes one "_" here and "__" there.
- PostsLib.ValidatePost: zod's message texts and error-tree shape are reduced to a list of issues. The `url()` check is the parameter `isUrl`, and a non-string field is not modelled.
- `getCurrentUser` (its module is not part of this model) is a parameter of Upload.
- FollowButton.FollowButton.HandleFollow:
  - The 500 ms `setTimeout` and the `loading` flag are not modelled.
  - The JSON parse of the "following" key is not modelled: the list is the field, [] when the key is absent.
  - A React state setter is an assignment.
  - Each object holds its own list. In the source every button shares the one `localStorage` key "following", so a follow made by one button is seen by the others.
- UseReactions.MirrorsRoute: the hooks' `fetch` calls in `src/hooks/useReactions.ts` and `src/hooks/useComments.ts` send only `Content-Type`, while the routes answer 400 without `x-user-id`. The model takes the caller's id as given to both sides; whatever sets that header (if anything) is not part of this model.
- UseReactions.ReactionsHook.ToggleReaction: the `loading` flag and the `fetch` call are not modelled. The POST reply of the reactions route carries no `id`, so the hook's new record has `id` None. Closures reading a stale state value are not modelled.
- WritePage.WriteForm.HandlePublish: `alert` is not modelled, and the mutation call is the returned submission.
- MockStorage.MockPostStore.GetMockPosts returns the contents by value. The aliasing of the exported array is not modelled.
- `defaultMetadata` in `src/lib/seo.ts` (environment URL, robots flags) is not modelled, and only the fields the three builders set are kept.
- Behaviour the shown code does not have is not modelled:
  - post update or delete;
  - ownership checks;
  - tag find-or-create;
  - server-side follows;
  - comment sorting;
  - parent-existence checks;
  - reaction-type validation.

  The reactions route stores any `type` string it receives.
