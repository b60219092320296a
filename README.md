# A verified model of the food-sharing site's core

The system is a food-sharing web site in three parts:

- a Python script that fills an image folder from a photo search service;
- an Express and Prisma backend;
- a Vue frontend.

In the backend, users register and log in, publish posts, and like, favorite and comment on them. Authors receive notifications. Administrators curate "food showcases" that carry tags from their own tag table, and they soft-delete posts. Two one-off scripts seed showcase posts from the image folder and split the old shared tag table into post tags and food tags.

This project models, in Dafny, the logic those parts are made of. It covers:

- the fetcher's download loop;
- the services and their tables;
- the controllers' validation and status decisions;
- the administrators' gate;
- the two data scripts;
- the frontend's formatting, URL helpers, user store, router guard and request builders.

Each module is named after the source file it models.

The database is one `Db.Database` object. Its tables are sequence fields: users, posts, likes, favorites, comments, notifications, the two tag tables and the showcases. Each service operation that writes is a method whose `modifies` clause names the tables it changes. Its `ensures` clauses state the new tables in terms of the old ones, and its error path is a `Result`. Controllers are pure functions in two steps:

- the checks before the service call, giving a status or the call's arguments;
- the reply to the service's outcome.

Anything the code asks of the outside world is an input. This covers:

- clocks, environment variables and ids handed out by the database;
- bcrypt, the photo search, downloads, directory listings and the Supabase upload;
- whether the database fails.

Shared modules:

- `Wrappers` holds `Option` and `Result`.
- `Strings` and `Numbers` hold the JavaScript string and number primitives the code relies on: `trim`, `split`, `parseInt`, `Math.ceil`.
- `Json` holds request-body values and `Number()`.
- `Tables` holds the Prisma query shapes: filter, count, find, update, delete, order, skip and take.
- `QueryString` holds `URLSearchParams`.
- `TagTable` holds what the three tag services share.

## Model

| member | source | states |
|---|---|---|
| Formatters.Bucket | vue-frst/src/utils/formatters.ts:6-25 | a missing date and only it gives the unknown label, and an invalid date and only it gives the invalid label |
| Formatters.FormatTimeAgo | vue-frst/src/utils/formatters.ts:6-25 | `未知时间` for a missing date and `无效日期` for an invalid one; otherwise the rendered label of the first non-zero unit |
| Formatters.FutureOrRecentIsJustNow | vue-frst/src/utils/formatters.ts:13-25 | a date in the future or less than a minute old reads `刚刚` |
| Formatters.BucketRanges | vue-frst/src/utils/formatters.ts:13-24 | each label's number lies in its unit's range (minutes 1-59, hours 1-23, days 1-29, months 1-12, years at least 1), and the elapsed time lies in the matching interval |
| Formatters.TruncateText | vue-frst/src/utils/formatters.ts:34-40 | an empty or missing text gives `""`; a text within the limit is returned as is; a longer one becomes its first `maxLength` characters plus `...` |
| Formatters.TruncateTwice | vue-frst/src/utils/formatters.ts:34-40 | a result is never longer than `maxLength + 3`, so truncating it again to `maxLength + 3` leaves it unchanged |
| UrlUtils.ServerRoot | vue-frst/src/utils/urlUtils.ts:26 | removes exactly one trailing `/api/` or `/api` and nothing else; the result is a prefix of the base |
| UrlUtils.WithLeadingSlash | vue-frst/src/utils/urlUtils.ts:29 | the result starts with `/`; a path that already does is unchanged, and any other path gets one `/` in front |
| UrlUtils.ResolveStaticAssetUrl | vue-frst/src/utils/urlUtils.ts:11-36 | an empty input gives `""`; an `http://` or `https://` URL is returned unchanged; anything else becomes the server root plus the slash-prefixed path |
| UrlUtils.SlashInsensitive | vue-frst/src/utils/urlUtils.ts:29-32 | `x` and `/x` resolve to the same URL |
| UrlUtils.ServerRootKeepsScheme | vue-frst/src/utils/urlUtils.ts:26 | cutting `/api` from an absolute base keeps its scheme |
| UrlUtils.ResolveIdempotent | vue-frst/src/utils/urlUtils.ts:11-36 | with an absolute base, resolving a resolved URL returns it unchanged |
| UrlUtils.ConfiguredBaseRoot | vue-frst/src/utils/urlUtils.ts:22-32 | the configured base `http://localhost:3001/api` has root `http://localhost:3001`, and relative uploads resolve under it |
| ImageUrl.ApiBase | vue-frst/src/utils/imageUrl.ts:30 | a non-empty environment value wins; otherwise the default `http://localhost:3001/api` is used |
| ImageUrl.GetImageUrl | vue-frst/src/utils/imageUrl.ts:8-38 | an empty input gives the placeholder; a `supabase.co` URL without `/object/public/` gets its first `/storage/v1/` rewritten, and with it is unchanged; other `http(s)` URLs are unchanged; relative paths get the server root, a leading `/` and `?t=` or `&t=` with the time |
| ImageUrl.SupabaseRewriteIsPublic | vue-frst/src/utils/imageUrl.ts:15-27 | the Supabase rewrite is applied even to absolute URLs, because it is checked first, and the result contains the public object path |
| ImageUrl.RelativeSlashInsensitive | vue-frst/src/utils/imageUrl.ts:30-37 | `x` and `/x` give the same URL |
| UserStore.Merge | vue-frst/src/stores/modules/user.ts:178 | each of the patch's fields (name, avatar, bio, role and both counts) wins where present and otherwise the user's value stays; the id and e-mail are never changed |
| UserStore.MergeIdempotent | vue-frst/src/stores/modules/user.ts:178 | merging the same patch twice is merging it once, and the empty patch changes nothing |
| UserStore.Increment | vue-frst/src/stores/modules/user.ts:241 | a missing count counts as 0 and the result is always present and one more |
| UserStore.Decrement | vue-frst/src/stores/modules/user.ts:248-249 | a missing or zero count is left alone; a positive count goes down by one; the result is never negative once it changes |
| UserStore.DecrementUndoesIncrement | vue-frst/src/stores/modules/user.ts:239-253 | decrementing undoes an increment of a non-negative count, a missing count ends at 0, and a non-negative count never turns negative |
| UserStore.Store.constructor | vue-frst/src/stores/modules/user.ts:26-43 | the token is the stored one when truthy and `null` otherwise; the user is the parsed stored user, `null` when absent or unparsable; storage then mirrors the state |
| UserStore.Store.UserName | vue-frst/src/stores/modules/user.ts:48 | never empty: the user's name when it is truthy, `游客` otherwise |
| UserStore.Store.ResolvedAvatarUrl | vue-frst/src/stores/modules/user.ts:50-76 | the user's avatar, or the default avatar path when it is missing, resolved against the server root exactly as the static-asset resolver does |
| UserStore.Store.SetLoginInfo | vue-frst/src/stores/modules/user.ts:91-112 | sets token and user, stores the token or `""`, stores or removes the user, and sets the `Bearer` header exactly when the token is truthy |
| UserStore.Store.SetToken | vue-frst/src/stores/modules/user.ts:115-119 | replaces the token, keeps the user, and leaves storage and header in step |
| UserStore.Store.SetUser | vue-frst/src/stores/modules/user.ts:122-135 | replaces the user, keeps the token, and leaves storage and header in step |
| UserStore.Store.UpdateUserInfo | vue-frst/src/stores/modules/user.ts:174-185 | with a user, the user becomes the merge of the patch into it and is stored; without one nothing changes |
| UserStore.Store.Logout | vue-frst/src/stores/modules/user.ts:226-236 | no token, no user, nothing stored, no header, and not signed in |
| UserStore.Store.IncrementFollowingCount | vue-frst/src/stores/modules/user.ts:239-245 | with a user, only its following count changes, by `Increment`, and is stored; without one nothing changes |
| UserStore.Store.DecrementFollowingCount | vue-frst/src/stores/modules/user.ts:247-253 | with a user and a truthy following count, only that count changes, by `Decrement`, and is stored; otherwise nothing changes |
| UserStore.Store.IncrementFollowerCount | vue-frst/src/stores/modules/user.ts:255-261 | with a user, only its follower count changes, by `Increment`, and is stored; without one nothing changes |
| UserStore.Store.DecrementFollowerCount | vue-frst/src/stores/modules/user.ts:263-269 | with a user and a truthy follower count, only that count changes, by `Decrement`, and is stored; otherwise nothing changes |
| UserStore.AdminRoleCaseInsensitive | vue-frst/src/stores/modules/user.ts:79-84 | `admin` in any ASCII letter case lower-cases to `admin`, so it grants the admin view |
| Router.Matched | vue-frst/src/router/index.ts:20-217 | the matched records of a named route end with the route's own record, after the record it is nested in |
| Router.Guard | vue-frst/src/router/index.ts:225-240 | redirect to login, carrying the full path, exactly when some matched record requires sign-in and the user is signed out; home exactly when a signed-in user opens Login or Register without that; otherwise proceed |
| Router.GuardByLoginState | vue-frst/src/router/index.ts:225-240 | a signed-out visitor is never sent home, and a signed-in user is never sent to login |
| Router.RoutesRequiringAuth | vue-frst/src/router/index.ts:60-84 | exactly the post editor pages, every page under `/settings` (inherited from the parent record) and the three flagged admin pages require sign-in (also lines 124-159, 185-202) |
| Router.ProtectedPages | vue-frst/src/router/index.ts:228-238 | a page requiring sign-in sends a signed-out visitor to login with the requested path and lets a signed-in user through |
| Router.GuestOnlyPagesStayOpen | vue-frst/src/router/index.ts:85-108 | `requiresGuest` is not enforced: a signed-in user reaches the reset-password and verify-email pages, and only Login and Register send them home (also lines 233-235) |
| UserServiceClient.BuildProfilePayload | vue-frst/src/services/UserService.ts:87-108 | the payload holds exactly the keys that are not `undefined`, each with the caller's value (an explicit `null` kept as `null`); an empty payload fails with `No update data provided` |
| UserServiceClient.WithoutTrailingSlash | vue-frst/src/services/UserService.ts:120 | drops one trailing `/` exactly when there is one, and nothing else |
| UserServiceClient.UploadAvatarUrl | vue-frst/src/services/UserService.ts:117-124 | the URL ends in `/users/me/avatar`, after the base without its trailing slash |
| UserServiceClient.UploadAvatarUrlSlash | vue-frst/src/services/UserService.ts:117-124 | a base with or without a trailing `/` gives the same URL; the configured base gives `http://localhost:3001/api/users/me/avatar` |
| UserServiceClient.DefaultAvatars | vue-frst/src/services/UserService.ts:127-135 | the body's list, or `[]` when the request fails or the body has no list |
| AdminServiceClient.ShowcaseQuery | vue-frst/src/services/AdminService.ts:39-51 | `page` and `limit` come first, with the defaults 1 and 10, and at most three optional parameters follow |
| AdminServiceClient.QueryPageLimit | vue-frst/src/services/AdminService.ts:39-42 | the query's `page` and `limit` are the given values or the defaults 1 and 10 |
| AdminServiceClient.QueryInclude | vue-frst/src/services/AdminService.ts:43-45 | `includeTags=true` is present exactly when `includeTags` is true or left out |
| AdminServiceClient.QuerySearch | vue-frst/src/services/AdminService.ts:46-48 | `search` is present exactly when it is given and non-empty, with that value |
| AdminServiceClient.QueryTags | vue-frst/src/services/AdminService.ts:49-51 | `tags` is present exactly when a non-empty list is given, as the list joined with a vertical bar |
| AdminServiceClient.ShowcaseQueryValues | vue-frst/src/services/AdminService.ts:39-51 | every key the server reads carries the client's value, or is absent exactly when the client leaves it out |
| AdminServiceClient.BuildShowcaseQuery | vue-frst/src/services/AdminService.ts:40-51 | the successive appends build exactly `ShowcaseQuery` |
| AdminServiceClient.JoinNonEmpty | vue-frst/src/services/AdminService.ts:50 | joining a list whose first tag is non-empty never gives the empty string |
| AdminServiceClient.TagsRoundTrip | vue-frst/src/services/AdminService.ts:50 | splitting the joined tags on the vertical bar, trimming and dropping empty parts, as the server does, gives back exactly a list of clean tags |
| AdminServiceClient.ShowcaseQueryRoundTrip | vue-frst/src/services/AdminService.ts:32-55 | the server reads back the client's page and limit (unless 0), `includeTags`, a non-empty search and a non-empty list of clean tags |
| QueryString.Get | vue-frst/src/services/AdminService.ts:55 | the value of a parameter named `key`, or absent exactly when no parameter has that key |
| QueryString.GetAppend | vue-frst/src/services/AdminService.ts:41-51 | reading a key from two appended parts reads the first part and falls back to the second |
| FoodShowcaseService.Matching | backend/src/services/FoodShowcaseService.ts:26-59 | a showcase is kept exactly when it satisfies the `where` clause: a case-insensitive search hit on title, description or a tag name, and a tag named in the list, each only when given and non-empty |
| FoodShowcaseService.Ordered | backend/src/services/FoodShowcaseService.ts:68-76 | the same matches, as a permutation, sorted newest first |
| FoodShowcaseService.TagsOf | backend/src/services/FoodShowcaseService.ts:62 | exactly the food tags whose id the showcase is linked to |
| FoodShowcaseService.Embed | backend/src/services/FoodShowcaseService.ts:62-74 | one item per row, carrying the row's tags exactly when `includeTags` is set |
| FoodShowcaseService.GetAllShowcases | backend/src/services/FoodShowcaseService.ts:15-93 | a negative skip fails and is reported as an empty listing; otherwise `totalCount` counts every match and the items are the `skip`/`take` page (`Tables.IsPage`) of the newest-first matches with `skip = (page-1)*limit`, read from the back when `limit` is negative; every item is a match, with tags exactly when `includeTags` is set |
| FoodShowcaseService.EveryMatchIsOnSomePage | backend/src/services/FoodShowcaseService.ts:27-78 | with a positive limit every match appears on some page between 1 and `ceil(totalCount / limit)` |
| FoodShowcaseService.PageHoldsIndex | backend/src/services/FoodShowcaseService.ts:27-76 | the match at position `i` is listed on page `i / limit + 1` |
| FoodShowcaseService.PageHolds | backend/src/services/FoodShowcaseService.ts:27-80 | any page whose `skip`/`take` window covers an offset lists the ordered match at that offset, untagged when tags are not requested |
| FoodShowcaseService.EmbedWindow | backend/src/services/FoodShowcaseService.ts:61-75 | embedding the tags of a page of showcases gives the same page of the embedded showcases |
| FoodShowcaseService.CreateFailureMessage | backend/src/services/FoodShowcaseService.ts:137-145 | the missing-tag message exactly for `P2025`, and the generic message for everything else |
| FoodShowcaseService.CreateShowcase | backend/src/services/FoodShowcaseService.ts:105-136 | appends one showcase with a fresh id and the given fields; only non-fixed tags with new, requested names are added; every requested name ends up linked, and only requested names are linked |
| FoodShowcaseService.ConnectAll | backend/src/services/FoodShowcaseService.ts:115-123 | after the whole `connectOrCreate` list, every requested name is linked to a tag of that name, only ids of tags with requested names are linked, and the only tags added are non-fixed ones whose names were requested and absent before |
| FoodShowcaseService.ConnectOrCreate | backend/src/services/FoodShowcaseService.ts:117-124 | returns the id of the tag with that name, adding a non-fixed tag only when no tag had that name |
| FoodShowcaseService.ShowcaseById | backend/src/services/FoodShowcaseService.ts:174-179 | the showcase with that id, or none exactly when no showcase has it |
| FoodShowcaseService.UpdateFailureMessage | backend/src/services/FoodShowcaseService.ts:185-194 | `P2025` gives the not-found message, `P2016` the missing-tag message, and anything else the generic one |
| FoodShowcaseService.ApplyUpdate | backend/src/services/FoodShowcaseService.ts:158-170 | only defined fields are copied, a defined tag list replaces all tags, and the id and creation time are kept |
| FoodShowcaseService.UpdateShowcase | backend/src/services/FoodShowcaseService.ts:150-195 | with nothing defined it returns the current record (or `null`) and writes nothing; otherwise it fails, with the `P2025` message and nothing written, exactly when the record is missing or a requested tag name has no tag, and else returns the record; only the record with that id changes, by `ApplyUpdate`, and every requested name is linked |
| FoodShowcaseService.DeleteShowcase | backend/src/services/FoodShowcaseService.ts:199-215 | fails with the not-found message exactly when no showcase has the id, writing nothing; otherwise removes exactly that record and returns it |
| FoodShowcaseService.DeleteShowcasesBulk | backend/src/services/FoodShowcaseService.ts:218-234 | an empty list deletes nothing and counts 0; a list with a non-integer value fails generically; otherwise exactly the listed records go, and the count is how many went |
| FoodShowcaseService.Usage | backend/src/services/FoodShowcaseService.ts:248-252 | one entry per food tag, counting the showcases linked to it |
| FoodShowcaseService.InUse | backend/src/services/FoodShowcaseService.ts:261 | keeps exactly the entries with a positive count |
| FoodShowcaseService.ShowcaseStats | backend/src/services/FoodShowcaseService.ts:237-264 | the total is the number of showcases; the tag counts are, as a multiset, exactly the usage entries of the tags in use, each one a tag's name with its usage count, most used first |
| FoodShowcaseController.CleanParts | backend/src/controllers/foodShowcaseController.ts:15 | splitting, trimming and dropping empty parts leaves non-empty, trimmed parts without the separator |
| FoodShowcaseController.ParseTagsQuery | backend/src/controllers/foodShowcaseController.ts:14-15 | an absent or empty parameter gives no list; otherwise the non-empty trimmed bar-separated parts, each free of the bar |
| FoodShowcaseController.ParseListQuery | backend/src/controllers/foodShowcaseController.ts:11-29 | search and tags are taken from the query; page is the radix-less `parseInt` of the query value unless that is NaN or 0, when it is 1, and limit likewise with 10; `includeTags` is true exactly for the string `true` |
| FoodShowcaseController.PagedResponse | backend/src/controllers/foodShowcaseController.ts:30-41 | the items, total and page are echoed, and `totalPages` is `ceil(totalCount / limit)` |
| FoodShowcaseController.StringItems | backend/src/controllers/foodShowcaseController.ts:110 | element by element, the array filtered by `typeof === 'string'` (`Tables.Filter`), unwrapped to strings; a string is in the result exactly when it is an element |
| FoodShowcaseController.StringItemsAppend | backend/src/controllers/foodShowcaseController.ts:110 | the strings of two joined arrays are the strings of the first followed by those of the second |
| FoodShowcaseController.StringItemsCount | backend/src/controllers/foodShowcaseController.ts:110 | each string occurs in the result as often as it occurs in the array |
| FoodShowcaseController.ParseBodyTags | backend/src/controllers/foodShowcaseController.ts:106-111 | a string is split on `,`, trimmed and purged of empty parts; an array gives its string elements in order, element by element the array filtered by `typeof === 'string'`; anything else gives no tags |
| FoodShowcaseController.CreateShowcaseStep | backend/src/controllers/foodShowcaseController.ts:53-118 | no file gives 400; then a missing bucket, an upload error and a missing public URL each give 500; only then is the service called with the public URL and the parsed tags |
| FoodShowcaseController.CreateShowcaseReply | backend/src/controllers/foodShowcaseController.ts:120-134 | 201 exactly on success; a missing-tag message gives 400 with it; any other failure 500 |
| FoodShowcaseController.UpdateShowcaseStep | backend/src/controllers/foodShowcaseController.ts:138-210 | the service is called exactly when the id parses, the bucket is set and non-empty, and a sent file uploaded with a non-empty public URL; a bad id gives 400, a missing bucket, a failed upload or a missing URL give their 500 replies; the parsed tag list is always passed, so a body without `tags` clears the tags |
| FoodShowcaseController.UpdateShowcaseReply | backend/src/controllers/foodShowcaseController.ts:211-228 | 200 exactly for an updated record; `null` gives 404 with the not-found message; the not-found and missing-tag failures 404 and others 500 |
| FoodShowcaseController.DeleteShowcaseStep | backend/src/controllers/foodShowcaseController.ts:232-238 | 400 `无效的 Showcase ID` exactly when the id does not parse; otherwise the parsed id |
| FoodShowcaseController.DeleteShowcaseReply | backend/src/controllers/foodShowcaseController.ts:239-252 | 200 exactly on success; a `not found` message gives 404 and other failures 500 |
| FoodShowcaseController.ToNumbers | backend/src/controllers/foodShowcaseController.ts:267 | `Number(id)` of every element, in order, with `Number` as `Json.ToNumber` defines it |
| FoodShowcaseController.ValidateBulkIds | backend/src/controllers/foodShowcaseController.ts:256-273 | a missing, non-array or empty `ids` gives 400; an element that converts to `NaN` gives 400; otherwise the converted values |
| FoodShowcaseController.ExponentIdAccepted | backend/src/controllers/foodShowcaseController.ts:265-273 | an id written with an exponent, such as `"1e0"`, is accepted as the integer it denotes |
| FoodShowcaseController.HexIdAccepted | backend/src/controllers/foodShowcaseController.ts:265-273 | a hexadecimal id `"0x2"` is accepted as 2 |
| FoodShowcaseController.BulkDeleteReply | backend/src/controllers/foodShowcaseController.ts:274-283 | success gives 200 with the count in the message; failure gives 500 with the error message or the fallback |
| PostService.AuthorOf | backend/src/services/PostService.ts:72-78 | the selected author exactly when a user has the post's author id, with that user's id and name |
| PostService.CreatePost | backend/src/services/PostService.ts:41-54 | a missing author fails the connect and inserts nothing; otherwise one post is appended with a fresh id, the given title, content and author, no image (an `imageUrl` the caller passes is not copied), the default status and zero counters |
| PostService.OrderedPosts | backend/src/services/PostService.ts:57-70 | the author's posts when an author is given (all posts otherwise), as a permutation, ordered by `likesCount` descending for `popular` and by `createdAt` descending otherwise |
| PostService.View | backend/src/services/PostService.ts:71-117 | the selected columns and author, with `isLiked` and `isFavorited` true exactly when a current user is given and has a like or favorite row for the post |
| PostService.Views | backend/src/services/PostService.ts:104-118 | one view per row, in order |
| PostService.GetAllPosts | backend/src/services/PostService.ts:56-122 | defaults page 1 and limit 10; the query fails exactly when the skip is negative; otherwise `totalCount` counts the filtered posts and the page is the `skip`/`take` page of the ordered posts' views: `limit` consecutive rows from `(page-1)*limit`, all the rest when fewer remain, and the rows ending `skip` before the end when `limit` is negative |
| PostService.GetPostById | backend/src/services/PostService.ts:124-167 | `null` exactly when no post has the id; otherwise that post's view, with the like and favorite flags of the current user |
| PostService.ListedPostsAreTheAuthors | backend/src/services/PostService.ts:62-63 | with an author given, every listed post is one of that author's posts |
| PostService.Edited | backend/src/services/PostService.ts:183-188 | only the title and content change, each only when given |
| PostService.UpdatePost | backend/src/services/PostService.ts:170-191 | `null` and no change for a missing post; `Forbidden` and no change for anyone but the author; otherwise only that post is edited and the edited row returned |
| PostService.DeletePost | backend/src/services/PostService.ts:194-211 | `null` and no change for a missing post; `Forbidden` and no change for anyone but the author; otherwise the post is removed and returned |
| PostService.LikePost | backend/src/services/PostService.ts:214-256 | an existing like is returned with nothing changed; a missing user or post fails with nothing changed; otherwise the like is added and `likesCount` goes up by one, the notifications stay as they were because the create names `actorId`, and every post keeps its counter drift |
| PostService.UnlikePost | backend/src/services/PostService.ts:259-284 | always returns `null`; the (user, post) like is gone afterwards, and nothing changes when there was none; `likesCount` is not touched |
| PostService.UnlikeLeavesCountStale | backend/src/services/PostService.ts:259-284 | unliking an existing like moves the post's stored `likesCount` one further above its like rows |
| PostService.CommentKind | backend/src/services/PostService.ts:318-326 | `REPLY` exactly when a parent id is given and non-zero, `COMMENT` otherwise |
| PostService.CreateComment | backend/src/services/PostService.ts:289-338 | a missing author, post or parent fails with nothing changed; otherwise the comment is added with a fresh id and `commentsCount` goes up by one, the notifications stay as they were because the create names `actorId`, and every post keeps its counter drift |
| PostService.PostComments | backend/src/services/PostService.ts:342-346 | the post's comments, as a permutation, oldest first |
| PostService.CommentViews | backend/src/services/PostService.ts:347-356 | one view per comment, with its author |
| PostService.GetCommentsByPostId | backend/src/services/PostService.ts:341-375 | one view per comment of the post: every view is the view of one of the post's comments with its author, every comment of the post has its view, and the views are in non-decreasing creation time |
| PostService.PostCommentViewsSound | backend/src/services/PostService.ts:343-372 | every view built for a post is a comment of that post, shown with its author |
| PostService.PostCommentViewsComplete | backend/src/services/PostService.ts:343-372 | every comment of the post is shown |
| PostService.DeleteComment | backend/src/services/PostService.ts:377-415 | `null` and no change for a missing comment; `Forbidden` and no change for anyone but its author; otherwise the comment is removed and its post's `commentsCount` goes down by one, in one transaction that fails as a whole when the post is gone |
| PostController.CreatePostStep | backend/src/controllers/PostController.ts:11-51 | 401 without a user, then 400 without a title; otherwise the service gets the title, the content or `""`, the user and `/uploads/posts/<file>` exactly when a file came |
| PostController.CreatePostReply | backend/src/controllers/PostController.ts:53-72 | 201 on success; an upload error gets no reply; a known database error 400 with its code; anything else 500 |
| PostController.PostIdStep | backend/src/controllers/PostController.ts:97-171 | 400 `Invalid post ID` exactly when the id does not parse; otherwise the parsed id |
| PostController.GetPostByIdReply | backend/src/controllers/PostController.ts:104-114 | 200 exactly for a found post; `null` gives 404 and an error 500 |
| PostController.UpdatePostStep | backend/src/controllers/PostController.ts:118-143 | the id is checked first (400), then the user (401), then that some field is defined (400); otherwise the service gets exactly the defined fields |
| PostController.ChangeReply | backend/src/controllers/PostController.ts:145-193 | 200 exactly for a returned post; `null` gives 404; an error starting with `Forbidden` gives 403 with its text, any other 500 |
| PostController.DeletePostStep | backend/src/controllers/PostController.ts:164-177 | the id is checked first (400), then the user (401); otherwise the parsed id and the user |
| PostController.NonAuthorsGetForbidden | backend/src/controllers/PostController.ts:153-187 | the service's two refusals of a non-author reach the client as 403 |
| PostController.ImageOnlyUpdateKeepsPost | backend/src/controllers/PostController.ts:131-145 | a request defining only `imageUrl` passes the checks, yet the service leaves the post as it was |
| CommentService.ParentAuthor | backend/src/services/CommentService.ts:60-64 | the parent comment's author exactly when a non-zero parent id is given and that comment exists |
| CommentService.CommentNotes | backend/src/services/CommentService.ts:69-105 | at most two notifications to distinct recipients, none to the commenter: the post's author first (`REPLY` for a reply, `COMMENT` otherwise), then a `REPLY` to the parent's author unless that is the commenter or the post's author |
| CommentService.RecipientsOfTwo | backend/src/services/CommentService.ts:69-105 | the recipients of zero, one or two notifications are exactly their recipient ids |
| CommentService.NotifyAllAppends | backend/src/services/CommentService.ts:72-104 | creates naming `senderId` append one unread row per notification, in order, keeping the earlier rows |
| CommentService.NewComment | backend/src/services/CommentService.ts:35-49 | a fresh id, the text as given (untrimmed), the post, the author and the time, and the parent exactly when a non-zero parent id is given |
| CommentService.CommentNotesAppended | backend/src/services/CommentService.ts:69-105 | a comment appends at most two unread rows from the commenter, to distinct recipients other than the commenter, and keeps the earlier rows |
| CommentService.CreateComment | backend/src/services/CommentService.ts:29-108 | a blank text, then an invalid parent (missing or of another post), then a missing author or post each fail with nothing changed; otherwise the comment is appended and the `CommentNotes` notifications are sent, and `commentsCount` is not touched |
| CommentService.CreateLeavesCountStale | backend/src/services/CommentService.ts:51-66 | a new comment leaves its post's `commentsCount` one short of its comment rows |
| CommentService.Item | backend/src/services/CommentService.ts:130-152 | the comment's columns without the foreign keys, its author, and the number of comments whose parent it is |
| CommentService.Items | backend/src/services/CommentService.ts:145-153 | one item per comment, in order |
| CommentService.GetCommentsByPostId | backend/src/services/CommentService.ts:112-156 | defaults page 1 and limit 10; the query fails exactly when the skip is negative; otherwise `totalCount` counts all the post's comments and the page is the `skip`/`take` page of the oldest-first comments: `limit` consecutive ones from `(page-1)*limit`, all the rest when fewer remain, taken from the newest end when `limit` is negative |
| CommentService.ListedCommentsInOrder | backend/src/services/CommentService.ts:120-128 | a listed page holds only the post's comments, oldest first |
| CommentService.DeleteComment | backend/src/services/CommentService.ts:161-185 | `Comment not found` for a missing id and `Unauthorized` for anyone but the author, each with nothing changed; otherwise exactly that comment is removed and returned; `commentsCount` is not touched |
| CommentService.DeleteLeavesCountStale | backend/src/services/CommentService.ts:175-182 | deleting a comment leaves its post's `commentsCount` one above its comment rows |
| LikeService.LikeFailure | backend/src/services/LikeService.ts:36-42 | `P2025` becomes `Post not found`; every other error is passed on unchanged |
| LikeService.LikePost | backend/src/services/LikeService.ts:8-44 | an existing like is returned with nothing changed; a missing user or post fails with nothing changed; otherwise the like is added and the post's author, unless it is the liker, gets one unread `LIKE` from the liker; no counter changes |
| LikeService.UnlikePost | backend/src/services/LikeService.ts:49-63 | returns the (user, post) like, or `null` with nothing changed when there is none; afterwards the pair has no like, and with unique pairs exactly one row went |
| FavoriteService.FavoritePost | backend/src/services/FavoriteService.ts:32-73 | an existing favorite is returned with nothing changed; a missing user or post fails with nothing changed; otherwise the favorite is added and `favoritesCount` goes up by one; the notifications stay as they were because the create names `actorId` |
| FavoriteService.FavoriteAdded | backend/src/services/FavoriteService.ts:43-45 | adding a favorite for a pair without one keeps the pairs unique and makes the pair favorited |
| FavoriteService.UnfavoritePost | backend/src/services/FavoriteService.ts:78-104 | `null` with nothing changed when the pair is not favorited; a missing post fails the transaction with nothing changed; otherwise the favorite goes and `favoritesCount` goes down by one |
| FavoriteService.UserFavorites | backend/src/services/FavoriteService.ts:121-128 | the user's favorites, as a permutation, newest first |
| FavoriteService.FavoritePostIds | backend/src/services/FavoriteService.ts:130 | the post id of each favorite, in order |
| FavoriteService.FavoriteView | backend/src/services/FavoriteService.ts:160-192 | the post's columns and author, liked exactly when the user has a like on it, and always favorited |
| FavoriteService.ViewIds | backend/src/services/FavoriteService.ts:196-198 | the id of each listed post, in order |
| FavoriteService.InIdOrder | backend/src/services/FavoriteService.ts:196-198 | the posts of the page's ids in the page's order, skipping ids whose post is gone |
| FavoriteService.FetchUserFavoritesPage | backend/src/services/FavoriteService.ts:109-202 | the query fails exactly when the skip is negative; otherwise the favorite ids are the `skip`/`take` page of the user's newest-first favorites (from the back when `limit` is negative), the posts are those of the ids that still exist, in that order, and `totalCount` is 0 for an empty page and the number of the user's favorites otherwise |
| FavoriteService.ListedPostsAreFavorites | backend/src/services/FavoriteService.ts:118-198 | every listed post is one the user has favorited |
| FavoriteService.PastLastPageReportsZero | backend/src/services/FavoriteService.ts:118-133 | a page past the user's last favorite reports `totalCount` 0, however many favorites the user has |
| NotificationService.SenderOf | backend/src/services/NotificationService.ts:73-80 | the sender exactly when a sender id is given and that user exists, with its id and name |
| NotificationService.PostOf | backend/src/services/NotificationService.ts:81-86 | the post exactly when a post id is given and that post exists, with its id and title |
| NotificationService.Item | backend/src/services/NotificationService.ts:95-112 | the selected columns, the sender and the post |
| NotificationService.Items | backend/src/services/NotificationService.ts:95-112 | one item per row, in order |
| NotificationService.Ordered | backend/src/services/NotificationService.ts:45-65 | the recipient's rows (only the unread ones when asked), as a permutation, newest first |
| NotificationService.GetNotifications | backend/src/services/NotificationService.ts:38-117 | defaults page 1, limit 10 and all rows; the query fails exactly when the skip is negative; otherwise `totalCount` counts every selected row and the page is the `skip`/`take` page of the newest-first rows: `limit` consecutive ones from `(page-1)*limit`, all the rest when fewer remain, taken from the oldest end when `limit` is negative |
| NotificationService.ListedAreTheRecipients | backend/src/services/NotificationService.ts:45-65 | every listed notification is the recipient's, and unread when only unread ones are asked for; the page is newest first |
| NotificationService.NotificationById | backend/src/services/NotificationService.ts:134 | the row with that id, or none exactly when no row has it |
| NotificationService.MarkAsRead | backend/src/services/NotificationService.ts:122-138 | only the recipient's unread row with that id becomes read; the row is returned exactly when one was updated, and otherwise nothing changes |
| NotificationService.IndexOf | backend/src/services/NotificationService.ts:134 | a position holding the first row with that id |
| NotificationService.UpdateNoneKeeps | backend/src/services/NotificationService.ts:124-131 | an update whose `where` selects no row changes nothing |
| NotificationService.MarkedFound | backend/src/services/NotificationService.ts:133-134 | after an update, the row found by the id is that row, now read |
| NotificationService.MarkAsReadTwice | backend/src/services/NotificationService.ts:122-138 | a second `markAsRead` of the same notification updates nothing |
| NotificationService.MarkAllAsRead | backend/src/services/NotificationService.ts:143-152 | every unread row of the recipient becomes read, no other row changes, and the count is how many were unread |
| NotificationService.DeleteNotification | backend/src/services/NotificationService.ts:157-172 | the recipient's row with that id is removed and returned; another user's or a missing one gives `null` and removes nothing |
| NotificationService.ClearAllNotifications | backend/src/services/NotificationService.ts:177-182 | exactly the recipient's rows are removed, and the count is how many |
| TagTable.LexLeTotal | backend/src/services/TagService.ts:12 | any two names are ordered one way or the other |
| TagTable.LexLeTrans | backend/src/services/TagService.ts:12 | the name order is transitive |
| TagTable.SortedByName | backend/src/services/TagService.ts:10-14 | the same rows, as a permutation, names ascending |
| TagTable.TagById | backend/src/services/TagService.ts:29-31 | the row with that id, or none exactly when no row has it |
| TagTable.TagByName | backend/src/services/TagService.ts:86 | the row with that name, or none exactly when no row has it |
| TagTable.Renamed | backend/src/services/TagService.ts:38-41 | the row with that id takes the new name and every other row is unchanged |
| TagTable.RenameKeepsKeys | backend/src/services/TagService.ts:38-41 | renaming to a name no other tag has keeps ids and names unique |
| TagTable.NewTag | backend/src/services/TagService.ts:90-96 | a non-fixed tag with the given name and an id no row has |
| TagTable.AddKeepsKeys | backend/src/services/TagService.ts:86-96 | adding a tag under a free name keeps ids and names unique |
| TagTable.DeleteByIdKeepsKeys | backend/src/services/TagService.ts:66-68 | deleting by id keeps ids and names unique |
| TagTable.RemoveAtKeepsKeys | backend/src/services/TagService.ts:66-68 | removing one row keeps ids and names unique |
| TagTable.EditKeepsFixed | backend/src/services/TagService.ts:33-68 | renaming or deleting an editable tag leaves every fixed tag in place |
| TagService.CreateFailure | backend/src/services/TagService.ts:98-105 | a duplicate error is thrown as it is and anything else as `Failed to create tag` |
| TagService.DuplicateKeepsMessage | backend/src/services/TagService.ts:88-102 | the service's own duplicate error reaches the caller unchanged |
| TagService.GetAllTags | backend/src/services/TagService.ts:9-19 | every tag, as a permutation, names ascending; a failed query gives `Failed to retrieve tags` |
| TagService.UpdateTag | backend/src/services/TagService.ts:27-47 | a failed query fails with nothing changed; a missing or fixed tag gives `null` and no change; a name another tag has fails the unique key with nothing changed; otherwise only that tag is renamed; unique keys and fixed tags are kept |
| TagService.DeleteTag | backend/src/services/TagService.ts:54-75 | `true` exactly for an editable tag, which alone is removed; `false` changes nothing; a failed query fails with nothing changed; unique keys and fixed tags are kept |
| TagService.CreateTag | backend/src/services/TagService.ts:83-106 | a name in use is refused with the duplicate error; otherwise a non-fixed tag with that name and a fresh id is added; a failed query fails through `CreateFailure`; unique keys are kept |
| FoodTagService.CreateFailure | backend/src/services/FoodTagService.ts:103-117 | a unique-constraint or duplicate error becomes the duplicate error for the name; anything else is passed on |
| FoodTagService.GetAllTags | backend/src/services/FoodTagService.ts:9-19 | every food tag, as a permutation, names ascending; a failed query gives `Failed to retrieve food tags` |
| FoodTagService.UpdateTag | backend/src/services/FoodTagService.ts:27-47 | a failed query fails with nothing changed; a missing or fixed tag gives `null` and no change; a name another tag has fails with nothing changed; otherwise only that tag is renamed; unique keys and fixed tags are kept |
| FoodTagService.Unlinked | backend/src/services/FoodTagService.ts:65-67 | every showcase keeps its fields and loses only its link to the deleted tag |
| FoodTagService.DeleteTag | backend/src/services/FoodTagService.ts:54-73 | `true` exactly for an editable tag, which is removed with all its showcase links; `false` changes nothing; a failed query fails with nothing changed; unique keys and fixed tags are kept |
| FoodTagService.CreateTag | backend/src/services/FoodTagService.ts:80-118 | in one transaction, a name in use is refused with the duplicate error, otherwise a non-fixed tag with that name and a fresh id is added; errors go through `CreateFailure`; unique keys are kept |
| PostTagService.GetAllTags | backend/dist/services/PostTagService.js:22-35 | every post tag, as a permutation, names ascending; a failed query gives `Failed to retrieve post tags` |
| PostTagService.UpdateTag | backend/dist/services/PostTagService.js:42-63 | a failed query fails with nothing changed; a missing or fixed tag gives `null` and no change; a name another tag has fails with nothing changed; otherwise only that tag is renamed; unique keys and fixed tags are kept |
| PostTagService.DeleteTag | backend/dist/services/PostTagService.js:69-89 | `true` exactly for an editable tag, which alone is removed; `false` changes nothing; a failed query fails with nothing changed; unique keys and fixed tags are kept |
| PostTagService.CreateTag | backend/dist/services/PostTagService.js:95-116 | a name in use is refused with the duplicate error; otherwise a non-fixed tag with that name and a fresh id is added; a failed query's error is passed on unchanged; unique keys are kept |
| FoodTagController.NameStep | backend/src/controllers/FoodTagController.ts:33-73 | an absent or empty name gives 400 `标签名称不能为空` before the service is called; otherwise the name |
| FoodTagController.FailureReply | backend/src/controllers/FoodTagController.ts:8-29 | 503 `database_error` exactly when the error names the database or a connection, otherwise 500 `internal_error` with the handler's message |
| FoodTagController.GetAllTagsReply | backend/src/controllers/FoodTagController.ts:4-29 | 200 exactly on success; a failure is 503 or 500 as `FailureReply` classifies it |
| FoodTagController.UpdateTagReply | backend/src/controllers/FoodTagController.ts:38-66 | 200 exactly for a renamed tag; `null` gives 404; a failure is 503 or 500 |
| FoodTagController.CreateTagReply | backend/src/controllers/FoodTagController.ts:74-107 | 201 exactly on success; an error saying the name exists gives 409 with its text, whatever else it says; other failures 503 or 500 |
| FoodTagController.DeleteTagReply | backend/src/controllers/FoodTagController.ts:111-144 | 200 exactly for `true`; `false` gives 404; a database error 503 even when it also names a foreign key; a foreign-key error 400 `tag_in_use`; anything else 500 |
| FoodTagController.DuplicatesAreConflicts | backend/src/controllers/FoodTagController.ts:84-91 | every duplicate the service reports on create, by its own check or by the unique key, reaches the client as 409 |
| FoodTagController.PlainFailure | backend/src/controllers/FoodTagController.ts:15 | a text without the letters `b`, `c`, `k` and `外` names neither the database, a connection nor a foreign key (also line 131) |
| FoodTagController.ListFailureIsInternal | backend/src/controllers/FoodTagController.ts:8-29 | the service's listing failure is answered with 500, so the 503 branch is unreachable |
| FoodTagController.UpdateFailureIsInternal | backend/src/controllers/FoodTagController.ts:45-66 | the service's rename failure is answered with 500 |
| FoodTagController.DeleteFailureIsInternal | backend/src/controllers/FoodTagController.ts:118-144 | the service's delete failure is answered with 500 `internal_error`, so the 503 and `tag_in_use` branches are unreachable |
| UserService.GetUserById | backend/src/services/UserService.ts:7-20 | the profile of the user with that id, without the password, or nothing exactly when no user has that id |
| UserService.Applied | backend/src/services/UserService.ts:30-32 | only the name and avatar columns change; each takes the given value when defined (a given `null` avatar clears it) and keeps the old one otherwise |
| UserService.AppliedIdempotent | backend/src/services/UserService.ts:30-34 | writing the same profile data twice equals writing it once, and data with no field changes nothing |
| UserService.UpdateUserProfile | backend/src/services/UserService.ts:23-60 | with no field it writes nothing and returns the current profile or nothing; on a missing user it fails with `Failed to update user profile`; otherwise it writes the defined fields to that user's row and returns the new profile |
| UserController.CheckedAvatar | backend/src/controllers/UserController.ts:137-144 | an avatar is accepted exactly when it is `null` or a text starting with `/avatars/defaults/`, and an accepted text is passed on unchanged |
| UserController.UpdateUserProfileStep | backend/src/controllers/UserController.ts:122-149 | 401 without a user id, 400 for an avatar outside the default directory, 400 when neither field is given; otherwise the service receives the given name and the checked avatar |
| UserController.UpdateUserProfileReply | backend/src/controllers/UserController.ts:151-157 | 200 exactly when the service succeeds; a failure answers 500 with its message, or the fixed default when the message is empty |
| UserController.UpdateProfileStep | backend/src/controllers/UserController.ts:38-53 | 401 without a user id, 400 when no name is given; otherwise only the name is passed to the service |
| UserController.UpdateProfileReply | backend/src/controllers/UserController.ts:55-63 | 200 exactly when the service succeeds; the two known service messages answer 400 with that message, any other failure answers 500 |
| UserController.UploadAvatarStep | backend/src/controllers/UserController.ts:161-176 | 401 without a user id, 400 without a file; otherwise the avatar is set to `/uploads/avatars/` followed by the saved file name |
| UserController.UploadedPathRefusedByProfile | backend/src/controllers/UserController.ts:137-141 | an uploaded avatar's path cannot be set through the profile endpoint; it is refused with 400 |
| UserController.ValidatedProfileIsWritten | backend/src/controllers/UserController.ts:146-150 | a request that passes validation always carries a field, so the service always writes instead of returning the stored profile |
| UserController.WriteFailureStatuses | backend/src/controllers/UserController.ts:58-62 | the same failed write is a 400 from `updateProfile` and a 500 from `updateUserProfile` |
| UserController.Paging | backend/src/controllers/UserController.ts:207-208 | page is the radix-less `parseInt` of the query value, or 1 when that is missing, NaN or 0; limit likewise with 10; so neither result is ever 0 |
| UserController.HexPageRead | backend/src/controllers/UserController.ts:207 | a hexadecimal page such as `0x2` is read in base 16 |
| AdminPostService.StatusFilterOf | backend/src/services/AdminPostService.ts:36-47 | no status, an empty status or `ALL` does not filter; a known status filters to that status; any other name is unknown |
| AdminPostService.Selected | backend/src/services/AdminPostService.ts:28-60 | exactly the posts that match the search and the status filter, each as often as in the table, ordered newest first |
| AdminPostService.GetPosts | backend/src/services/AdminPostService.ts:11-76 | an unknown status gives an empty page with zero totals; otherwise the query fails exactly when `(page - 1) * limit` is negative, and succeeds with the count of matching posts, the `skip`/`take` page of them (from the back when `limit` is negative) and `ceil(total / limit)` pages for any non-zero limit, none for a zero one |
| AdminPostService.ListedPostsMatch | backend/src/services/AdminPostService.ts:28-40 | every listed post contains the search term in its title or content and has the requested status |
| AdminPostService.DeletePost | backend/src/services/AdminPostService.ts:84-102 | a missing post is reported by its id; otherwise that post's status becomes `DELETED`, its deletion time is set, and the row and every other row stay |
| AdminPostService.SoftDeletedStillListed | backend/src/services/AdminPostService.ts:48-91 | a soft-deleted post still appears under `ALL` when it appeared before, and it appears under the `DELETED` status |
| AdminMiddleware.Request.constructor | backend/src/middleware/AdminMiddleware.ts:9 | a request carries the authenticated user id and the role, if any |
| AdminMiddleware.Decision | backend/src/middleware/AdminMiddleware.ts:9-57 | 401 without a user id, or when the role must be looked up and no user exists; 500 when the lookup fails; 403 for a role other than `ADMIN` or `MODERATOR`; otherwise the request passes |
| AdminMiddleware.Gate | backend/src/middleware/AdminMiddleware.ts:9-57 | answers as `Decision` does, calls `next` exactly once when it does not answer, and stores the looked-up role on a request that had none |
| AdminMiddleware.ExactRoles | backend/src/middleware/AdminMiddleware.ts:43-46 | roles are compared exactly, so lower-case `admin` is refused with 403 and `MODERATOR` is let in |
| AuthService.ConfiguredExpiry | backend/src/services/AuthService.ts:9 | the configured lifetime is the environment's value, or `1d` when that is unset or empty |
| AuthService.UnitSeconds | backend/src/services/AuthService.ts:15-20 | only `s`, `m`, `h` and `d` are units, worth 1, 60, 3600 and 86400 seconds |
| AuthService.GetExpiresInSeconds | backend/src/services/AuthService.ts:12-22 | a known last character multiplies the number before it; an unknown unit or an empty text gives one day |
| AuthService.ExpiresInOfWritten | backend/src/services/AuthService.ts:12-22 | a lifetime written as a number and a known unit is read back as that many units in seconds |
| AuthService.DefaultExpiryIsOneDay | backend/src/services/AuthService.ts:9-23 | without configuration a token lasts 86400 seconds |
| AuthService.NewUser | backend/src/services/AuthService.ts:40-46 | the new row has a fresh id, the given email, the hash and the name, role `USER`, and is not verified |
| AuthService.Register | backend/src/services/AuthService.ts:27-51 | a known email is refused with `Email already exists` and nothing is written; otherwise exactly the new user is appended and returned without its password |
| AuthService.Login | backend/src/services/AuthService.ts:54-82 | an unknown email or a wrong password gives the generic error, an unverified user the verification error; otherwise a token carrying the id, email and role with the configured lifetime, and the user without the password |
| AuthService.LoginHidesUnknownEmail | backend/src/services/AuthService.ts:59-72 | an unknown email and a wrong password for a known email give the same answer |
| AuthService.VerificationBeforePassword | backend/src/services/AuthService.ts:64-70 | an unverified user gets the same answer whatever password is tried |
| AuthService.NewUserCannotLogIn | backend/src/services/AuthService.ts:40-66 | right after registering, logging in is refused as unverified, even with the right password |
| Strings.MessageOr | backend/src/controllers/CommentController.ts:45 | the error's own message when it has one, the handler's fixed fallback otherwise |
| CommentController.CreateCommentStep | backend/src/controllers/CommentController.ts:9-36 | checks in order: a post id that is not a number is 400, no user is 401, a missing, non-text or blank text is 400, a parent id that is not an integer is 400; otherwise the service gets the post id, the trimmed text, the user and the parent id |
| CommentController.CreateCommentReply | backend/src/controllers/CommentController.ts:38-47 | 201 exactly when the service succeeds; a missing record is 404; any other failure is 500 with its message or the fallback |
| CommentController.GetCommentsReply | backend/src/controllers/CommentController.ts:50-67 | a post id that is not a number is 400; otherwise 200 exactly when the service succeeds, and 500 with the message or the fallback when it fails |
| CommentController.DeleteCommentStep | backend/src/controllers/CommentController.ts:69-82 | a comment id that is not a number is 400, then no user is 401; otherwise the service gets the parsed id and the user |
| CommentController.DeleteCommentReply | backend/src/controllers/CommentController.ts:84-103 | 204 whenever the service does not fail, even when nothing was found; a message containing `Forbidden` is 403, a missing record 404, anything else 500 |
| CommentController.DeleteOutcomes | backend/src/controllers/CommentController.ts:84-97 | the service's refusal of a non-author is answered 403, and deleting a comment that does not exist is answered 204 |
| ImageFetcher.DownloadImage | ImageD/download_images.py:40-55 | the download succeeds exactly when every chunk was written; request errors and write errors both give false |
| ImageFetcher.ImageUrl | ImageD/download_images.py:104 | a record has an image URL exactly when its `urls` object has the `regular` key |
| ImageFetcher.FileName | ImageD/download_images.py:112 | the file name is the query with spaces made `_`, then `_`, the id and `.jpg`; no space survives and the name ends in `.jpg` |
| ImageFetcher.FilePathInjective | ImageD/download_images.py:111-113 | within one query, distinct image ids are saved to distinct files |
| ImageFetcher.Fetch | ImageD/download_images.py:99-118 | from a given count, the final count never passes the quota of 5 and there is at most one attempt per result |
| ImageFetcher.Planned | ImageD/download_images.py:100-113 | without a quota, one attempt per record that has both an image URL and an id, in order |
| ImageFetcher.Successes | ImageD/download_images.py:116-117 | the successful attempts are never more than the attempts |
| ImageFetcher.FetchCountsSuccesses | ImageD/download_images.py:116-118 | a query's count grows by exactly its successful downloads |
| ImageFetcher.FetchFollowsPlan | ImageD/download_images.py:100-113 | records are tried in result order and incomplete ones are skipped: the attempts are a prefix of the plan, and the whole plan when the quota was not reached |
| ImageFetcher.FetchQuery | ImageD/download_images.py:99-118 | the loop over a query's results makes exactly the attempts of `Fetch`, stops at the quota, and counts exactly its successes |
| ImageFetcher.QueryOutcome | ImageD/download_images.py:86-129 | a failed or empty search downloads nothing; no query passes its quota |
| ImageFetcher.SumBound | ImageD/download_images.py:75-118 | a total of per-query counts each within a quota is within the quota times the number of queries |
| ImageFetcher.Run | ImageD/download_images.py:58-132 | without the output directory nothing is requested; otherwise one search per query, a failed search does not stop the later ones, each query's count is its own outcome and the total is their sum, at most 5 per query |
| ImageFetcher.SearchRequestsAsWritten | ImageD/download_images.py:86-126 | as written, the script crashes exactly when the very first search raises before any response: it then makes one search request; otherwise it makes all of them |
| ImageFetcher.UnansweredFirstSearchEndsRun | ImageD/download_images.py:87-123 | with the configured sixteen queries, an unanswered first search ends the script after one search |
| ImageFetcher.AnsweredFirstSearchRunsToEnd | ImageD/download_images.py:120-126 | once the first search got a response, the script as written searches every query |
| ImageFetcher.ConfiguredRunBound | ImageD/download_images.py:14-33 | the script as configured downloads at most 80 images |
| MigrateTags.CopyTags | backend/src/scripts/migrateTags.ts:152-213 | the tag loop keeps every existing row unchanged, and every row it adds is a used old tag stored under its own id |
| MigrateTags.UsedTagIsCopied | backend/src/scripts/migrateTags.ts:152-180 | conversely, a used old tag whose id is new and whose name is free is copied as it is |
| MigrateTags.CopyTagsSettles | backend/src/scripts/migrateTags.ts:158-176 | once the loop is done, another turn over any of the same tags changes nothing |
| MigrateTags.CopyTagsFixedPoint | backend/src/scripts/migrateTags.ts:152-180 | a table that no single turn changes is left unchanged by the whole loop |
| MigrateTags.CopyTagsIdempotent | backend/src/scripts/migrateTags.ts:152-213 | running the tag loop twice gives the same table as running it once |
| MigrateTags.CopyTagLoop | backend/src/scripts/migrateTags.ts:152-180 | the loop over the old tags builds exactly the table `CopyTags` describes |
| MigrateTags.Insertable | backend/src/scripts/migrateTags.ts:216-263 | a join row can be inserted exactly when it is an old join row whose owner and tag both exist |
| MigrateTags.InsertLinks | backend/src/scripts/migrateTags.ts:217-240 | the join-row loop adds exactly the insertable rows to those already present and removes none |
| MigrateTags.Migrated | backend/src/scripts/migrateTags.ts:114-273 | nothing changes when a table is missing or there are no old tags; otherwise existing rows stay, each new tag row is a used old tag under its own id, and each new join row is an old join row whose owner and tag exist |
| MigrateTags.MigrateIdempotent | backend/src/scripts/migrateTags.ts:158-235 | running the migration a second time changes nothing |
| MigrateTags.UsedTagsAreCopied | backend/src/scripts/migrateTags.ts:152-213 | a tag used by some post, with a new id and a free name, ends up in PostTag as it was, and likewise for showcases and FoodTag |
| MigrateTags.Migrate | backend/src/scripts/migrateTags.ts:114-273 | the store's tables become exactly those `Migrated` describes |
| Seed.ImageFiles | backend/src/scripts/seed.ts:56 | exactly the listed names with a `jpg`, `jpeg`, `png` or `webp` extension in any case, in listing order |
| Seed.BeforeFirstDot | backend/src/scripts/seed.ts:76 | the prefix of the name up to its first dot, or all of it when there is none |
| Seed.StripId | backend/src/scripts/seed.ts:78 | a prefix of the text: a trailing space followed by eight or more word characters is cut off where there is one, and the text is kept whole otherwise |
| Seed.IdSuffixUnique | backend/src/scripts/seed.ts:78 | a text has at most one place where such an id suffix starts, so the cut is well defined |
| Seed.Capitalize | backend/src/scripts/seed.ts:79 | only the first character can change, and it is upper-cased when it is a word character |
| Seed.Title | backend/src/scripts/seed.ts:75-79 | the title is no longer than the file name, has no dot or underscore, and does not start with a lower-case letter |
| Seed.FetchedImageTitle | backend/src/scripts/seed.ts:75-79 | a file saved by the image fetcher, `<query>_<id>.jpg` with an id of eight or more letters and digits, is titled after its query with spaces and a capital first letter |
| Seed.NewPost | backend/src/scripts/seed.ts:92-101 | the new post is a showcase post by the author with the file's image URL, the fallback title when the derived one is empty, the `PUBLISHED` default status and an id no post has |
| Seed.Created | backend/src/scripts/seed.ts:72-107 | the loop adds at most one post per file |
| Seed.CreatedAreSeeded | backend/src/scripts/seed.ts:83-103 | every added post is a titled showcase post by the author for one of the files whose insert succeeded |
| Seed.SeedKeepsUrlsUnique | backend/src/scripts/seed.ts:84-89 | skipping files whose URL is taken keeps the image URLs unique |
| Seed.SeedCoversFiles | backend/src/scripts/seed.ts:72-107 | after the loop, each file either has a post with its URL or is one whose insert fails |
| Seed.SeedFixedPoint | backend/src/scripts/seed.ts:84-89 | a loop over files that are all skipped adds nothing |
| Seed.ReseedCreatesNothing | backend/src/scripts/seed.ts:84-89 | seeding again from the same folder, with the same inserts failing, creates nothing |
| Seed.SeedLoop | backend/src/scripts/seed.ts:70-107 | the loop appends exactly the posts `Created` describes, and `createdCount` is their number |
| Seed.SeedPosts | backend/src/scripts/seed.ts:48-108 | a missing or unreadable folder creates nothing; otherwise the image files are seeded in listing order and the post table grows by exactly `createdCount` rows |
| Db.WithoutPassword | backend/src/services/AuthService.ts:49-50 | every column of the user but the password hash is kept |
| Db.FreshId | backend/src/services/PostService.ts:44-51 | an autoincrement id: positive and larger than every id in use |
| Db.BumpPost | backend/src/services/PostService.ts:228-231 | one counter moves by the delta; the other counters, the id and the author stay |
| Db.BumpCounter | backend/src/services/FavoriteService.ts:46-98 | only the row with that id has its counter moved; the table keeps its length and every other row |
| Db.LikeAddedKeepsDrift | backend/src/services/PostService.ts:224-232 | adding a like and incrementing `likesCount` keeps every post's counters exactly as far from the rows they count as before |
| Db.FavoriteAddedKeepsDrift | backend/src/services/FavoriteService.ts:42-50 | adding a favorite and incrementing `favoritesCount` keeps every post's counters as far from the rows as before |
| Db.CommentAddedKeepsDrift | backend/src/services/PostService.ts:299-312 | adding a comment and incrementing `commentsCount` keeps every post's counters as far from the rows as before |
| Db.FavoriteRemovedKeepsDrift | backend/src/services/FavoriteService.ts:89-99 | removing an existing favorite and decrementing `favoritesCount` keeps every post's counters as far from the rows as before |
| Db.CommentRemovedKeepsDrift | backend/src/services/PostService.ts:394-411 | removing an existing comment and decrementing its post's `commentsCount` keeps every post's counters as far from the rows as before |
| Db.CreateNotification | backend/src/services/LikeService.ts:28-30 | a create naming the `senderId` column succeeds with the new row; one naming `actorId` is rejected |
| Db.SenderIdCreateAppends | backend/src/services/LikeService.ts:28-30 | a `senderId` create adds exactly one unread row for the recipient and from the sender, with a new id, and keeps every earlier row |
| Db.ActorIdCreateIsDropped | backend/src/services/PostService.ts:238-249 | an `actorId` create is always rejected, and with its failure caught the notification table stays as it was |
| Numbers.ParseInt | backend/src/controllers/CommentController.ts:11-18 | `parseInt(s, 10)` is NaN exactly when, after leading whitespace and an optional sign, no digit follows |
| Numbers.ParseIntOr | backend/src/controllers/UserController.ts:79-80 | `parseInt(raw) || fallback`: a parsed non-zero number is kept, and a missing, unparsable or zero value gives the fallback; never 0 for a non-zero fallback |
| Numbers.ParseIntAuto | backend/src/controllers/UserController.ts:79 | `parseInt` without a radix: a string without a `0x` or `0X` prefix after the sign parses in base 10; a prefixed one is NaN exactly when no hexadecimal digit follows, and otherwise the signed base-16 value of the digits |
| Numbers.ParseIntAutoOfIntToString | backend/src/controllers/UserController.ts:79 | the decimal form of an integer parses back to itself without a radix |
| Numbers.ParseIntAutoOfHex | backend/src/controllers/UserController.ts:79 | `0x` followed by hexadecimal digits and a non-digit parses as the digits' base-16 value |
| Numbers.ParseIntOfIntToString | backend/src/controllers/CommentController.ts:11 | an integer written in decimal parses back to itself |
| Numbers.ParseIntIgnoresSuffix | backend/src/controllers/CommentController.ts:11 | digits followed by a non-digit parse as the digits alone |
| Numbers.CeilDiv | backend/src/controllers/foodShowcaseController.ts:32 | `Math.ceil(a / b)` for a non-zero divisor: the least multiple count that covers `a` |
| Numbers.PageCountCoversItems | backend/src/services/AdminPostService.ts:23-64 | every item of a listing falls on a page between 1 and the reported page count |
| Json.ToNumber | backend/src/controllers/foodShowcaseController.ts:267 | `Number(v)`: `null` is 0, `true` 1 and `false` 0, a number is itself, a string is converted by `Json.StringToNumber`, `[]` is 0, a longer array than one element and an object are NaN |
| Json.StringToNumber | backend/src/controllers/foodShowcaseController.ts:267 | `Number(s)` of a string: blank is 0; after a `0x`, `0o` or `0b` prefix it is NaN unless only digits of that base follow; `Infinity` with an optional sign is not an integer; otherwise NaN exactly when no decimal literal follows the sign |
| Json.StringToNumberOfExponent | backend/src/controllers/foodShowcaseController.ts:267 | an integer followed by `e` and an exponent converts to the integer times that power of ten |
| Json.StringToNumberOfInfinity | backend/src/controllers/foodShowcaseController.ts:267 | `Infinity`, `+Infinity` and `-Infinity` convert to a number that is not an integer |
| Json.StringToNumberOfInt | backend/src/controllers/foodShowcaseController.ts:267 | the decimal form of an integer converts back to that integer |
| Strings.Trim | backend/src/controllers/CommentController.ts:23-33 | `trim()`: the result is the part of the input between a whitespace-only prefix and a whitespace-only suffix, and it has no whitespace at either end |
| Strings.TrimIdempotent | backend/src/controllers/CommentController.ts:23-33 | trimming twice is trimming once |
| Strings.Split | backend/src/controllers/foodShowcaseController.ts:15 | `split(sep)` gives pieces free of the separator (also line 108) |
| Strings.JoinSplit | backend/src/controllers/foodShowcaseController.ts:15 | joining the pieces of a split with the separator gives the text back (also line 108) |
| Strings.SplitJoin | backend/src/controllers/foodShowcaseController.ts:15 | splitting a join of separator-free parts gives the parts back (also line 108) |
| Tables.Window | backend/src/services/FavoriteService.ts:115-126 | `skip`/`take`: empty past the end; for `take >= 0` at most `take` rows, the rows from `skip` on in order, all the rest when fewer than `take` remain; for `take < 0` at most `-take` rows, the ones ending just before the last `skip` rows, in order |
| Tables.WindowFromEnd | backend/src/services/FavoriteService.ts:115-126 | a negative `take` is the positive page of the reversed rows, reversed back: the ordering is flipped, `skip` and `-take` applied, and the rows put back in the requested order |
| Tables.PageOfMapped | backend/src/services/PostService.ts:103-118 | mapping each row of a page to its view gives the same page of the views, for either sign of `take` |
| Tables.SortBy | backend/src/services/TagService.ts:12 | `orderBy` gives the same rows, sorted by the comparison |

## Left out

- HTTP plumbing is not modelled: the Express request and response objects, routes, multer, the Axios interceptors and the authentication middleware that verifies tokens. Handlers are functions from the parsed request to a status and message, and response bodies other than `message` are not modelled.
- Logging (`console.*`, Python `print`) is not modelled, including the fetcher's 401 and 403 hints.
- Foreign libraries are inputs. bcrypt's hash is an input and its comparison a function parameter. A signed JWT is represented by its payload. Supabase uploads and the photo search are outcomes given as inputs, and so is each download.
- Clocks, environment variables and `Date.now()` are parameters.
- Concurrency is not modelled. Each service call runs alone, and a Prisma transaction is atomic. Races such as the check-then-create in `TagService.createTag` cannot occur in the model.
- A database failure that the code only catches (a lost connection, a timeout) is a boolean or set-valued input where the code distinguishes it. Elsewhere it is not modelled.
- Autoincrement ids are the largest id in use plus one (`Db.FreshId`). A database sequence that never reuses an id after deletes is not modelled.
- Prisma's ordering of rows with equal sort keys is not modelled. The model keeps table order for ties.
- Tag names sort by UTF-16 code unit (`TagTable.LexLe`), not by the database collation.
- Case-insensitive matching (`mode: 'insensitive'`, `toLowerCase`) folds ASCII letters only.
- Referential actions on delete are not modelled. Deleting a post or comment does not cascade to its likes, favorites, comments or notifications, and replies keep their `parentId`.
- The link between posts and tags (`_PostToTag`) is not part of the post model. Posts carry no tag set, and it appears only as input to the migration.
- Prisma error codes are modelled as follows:
  - a failed foreign-key check is `P2003`;
  - a record that an update, delete or nested connect requires and cannot find is `P2025`.
- `FoodShowcaseService.UpdateFailureMessage` maps `P2016` to its message, but no modelled write produces `P2016`. An unknown tag on update surfaces as `P2025`.
- `FoodShowcaseService.CreateShowcase`: a tag name listed twice is connected once. What Prisma does with a repeated name inside one nested write is not modelled.
- A negative `skip` makes a listing query fail (`Db.InvalidPaging`). A negative `take` does not fail: Prisma reads it as that many rows counted back from the end, before the last `skip` rows, as `Tables.Window` and `Tables.WindowFromEnd` state. NaN page and limit values, which Prisma rejects, are not modelled.
- The `updatedAt` column is not modelled.
- The User columns `role` (default `USER`) and `isEmailVerified` (default false) are taken as the defaults a registration gets. The Prisma schema is not part of this model.
- `AdminMiddleware.Decision`: the middleware's lookup selects `username`, a column the user model here does not have. The model only distinguishes a found user, a missing user and a failed lookup.
- `AuthService.GetExpiresInSeconds` gives `None` where the number before the unit is NaN. The JWT library's handling of a NaN lifetime is not modelled.
- The message `No profile data provided for update`, which `updateProfile` checks for, is never produced by the user service.
- Names and other body fields are strings or absent. Non-string JSON values are modelled only where the handler checks their type: comment text, parent id, avatar URL, showcase tags and bulk ids.
- `FoodShowcaseController`: the `getShowcaseStats` handler only passes the service's result on, so only `FoodShowcaseService.ShowcaseStats` is modelled. `PostController.getAllPosts` and the remaining per-user listing handlers (`getMyPosts`, `getUserFavorites`, `getUserPosts`, `getUserNotifications`, `getCurrentUser`, `getCurrentUserProfile`) are likewise pass-throughs: only their paging (`UserController.Paging`) and the services they call are modelled.
- `UserController.uploadAvatar`'s reply to a multer error or a non-image file is not modelled; upload errors come from the middleware.
- `Seed.SeedPosts`: the author is a parameter. The search for the first user and the creation of a default author are left out. Whether an insert fails is a set of file names. Each file's URL, title and content are derived once, before the loop (`Seed.Prepared`).
- `Seed.NewPost`: the post's default status `PUBLISHED` and zero counters are assumed from the column defaults.
- `ImageFetcher.Run`: `os.path.join` is modelled as joining with `/`, and the bytes written are not modelled beyond the chunks of a completed transfer. The script's exit when the directory cannot be created is modelled as "nothing is requested".
- `MigrateTags.Migrate`: the tables are maps keyed by id and sets of join rows. `createMigrationFile`, `runCommand`, the wait for a key press and the Prisma client generation in `main` are shell and file I/O and are left out. A failed insert has two modelled causes, a tag name already taken and a join row whose owner or tag is missing; other database errors are not modelled.
- `QueryString`: percent-encoding is not modelled. Keys and values travel as they are.
- `UserStore.Store`: local storage and the HTTP client's default header are fields of the store. Their persistence across page loads is not modelled.
- Unicode: strings are sequences of UTF-16 code units, and there is no normalisation.
- Json.StringToNumber, Json.ToNumber, Numbers.ParseIntAuto and Numbers.ParseIntOr compute exact values rather than IEEE doubles. Overflow to `Infinity` (`"1e400"`), underflow to 0 and the loss of precision above 2^53 are not modelled. A finite non-integer is one `NonIntVal`, so `Infinity` and fractions are not told apart.
- PostService.LikePost and PostService.UnlikePost look a like up by the compound key `userId_postId` (backend/src/services/PostService.ts:217, 262 and 272), where `LikeService` names it `postId_userId`. The Prisma schema that decides which name the client accepts is not part of this model. The model assumes the lookup succeeds and finds the (user, post) like.

## Findings

| source | as written | input that shows it | evidently intended | confidence | as-written member | corrected member |
|---|---|---|---|---|---|---|
| backend/src/services/PostService.ts:242 | `likePost`, `createComment` (line 323) and `favoritePost` (backend/src/services/FavoriteService.ts:60) create their notification with an `actorId` field. The `Notification` model's column is `senderId`, so the client rejects the create, the error is caught and logged, and no notification is written | user 2 likes, comments on or favorites a post by user 1 | the notification is created with `senderId`, as `LikeService.likePost` (backend/src/services/LikeService.ts:29) and `CommentService.createComment` do, so the author receives it | high, not executed | Db.ActorIdCreateIsDropped, PostService.LikePost, PostService.CreateComment, FavoriteService.FavoritePost | Db.SenderIdCreateAppends, LikeService.LikePost, CommentService.CreateComment |
| ImageD/download_images.py:123 | the handler for a failed search reads `response.status_code`. When the first query's request raises before any response exists, `response` is unbound, so the handler raises `NameError` and the script ends after one search | the search request for the first query fails to connect | a failed search is reported and the loop goes on to the next query | high, not executed | ImageFetcher.SearchRequestsAsWritten, ImageFetcher.UnansweredFirstSearchEndsRun | ImageFetcher.Run |
