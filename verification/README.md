# Photo-sharing backend: reactions, feed and request helpers

A Dafny model of the logic at the centre of the photo-sharing backend.

- **Reaction toggle engine.** This is the `reactToPhoto`/`reactToComment` handlers. They read a like/dislike request, compute the user's next reaction (the toggle), write the reaction ledger, apply the counter delta, clamp the counters and report them.
- **Reaction overlay.** Photos and their embedded comments are shaped for the client, with defaulted counters and the caller's own reaction attached. This is `attachReactions`, `shapePhoto` and `toClient`.
- **Recent-photos feed.** This covers the page size, the `date|id` cursor and the `limit + 1` paging.
- **Request helpers.** Object-id checks, pagination and trimming; ownership and authentication checks; the CSRF double-submit guard; the JSON response helpers; and the final error middleware.

Persistence is abstract. The reaction ledger is a map from (user, target kind, target id) to +1 or -1, and every target has a pair of counters. Within one sequential request, the central invariant is **counter conservation**: a target's `likeCount` is the number of +1 records for it, and its `dislikeCount` is the number of -1 records. `ReactionInvariants.RunPreservesConsistency` proves that the invariant holds across any sequence of requests. So the clamp in the handlers is a safeguard that never fires from a consistent store.

Modules follow the source files:

| module | source |
|---|---|
| `Wrappers` | `Option` and `Result` |
| `Js` | JavaScript values, truthiness, `||`, `trim`, `parseInt(s, 10)`, `indexOf`, `split`/`join`, and Express query parameters |
| `Http` | `backend/src/utils/http.js` |
| `Documents` | the stored photo, comment and reaction-row shapes, and the client shapes |
| `Ledger` | the abstract store: the ledger, counters, tallies and the ledger write |
| `ReactionEngine` | the pure functions of `backend/src/controllers/reactionController.js` |
| `ReactionController` | the two reaction handlers as one state transition |
| `ReactionInvariants` | counter conservation |
| `PhotoPresenter` | `backend/src/presenters/photoPresenter.js` |
| `PhotoService` | `attachReactions` of `backend/src/services/photoService.js` |
| `PhotoController` | the feed, the cursor and the controller's copies of the overlay |
| `Validators` | `backend/src/utils/validators.js` |
| `Permissions` | `backend/src/utils/permissions.js` |
| `CsrfGuard` | `backend/src/middlewares/csrfGuard.js` |
| `ErrorHandler` | `backend/src/middlewares/errorHandler.js` |

Conventions:

- An optional string is `None` when the JavaScript value is `undefined`. `Js.Present` is its truthiness: present and non-empty. This is how `req.user?._id`, tokens and similar values are tested.
- Library predicates are function parameters. These are `isValidObjectId` (`validId`), "`new Date(d)` is a valid date" (`validDate`) and `new Date(d).toISOString()` (`isoDate`).
- The reaction collection is a sequence of rows. `Ledger.Represents` says when such a sequence holds exactly the ledger's records.

## Model

| member | source | states |
|---|---|---|
| ReactionEngine.NormalizeValue | backend/src/controllers/reactionController.js:8-12 | A request value is accepted exactly when it is the number 1, -1 or 0, and the accepted vote is that number. Everything else is rejected. |
| ReactionEngine.ComputeNextValue | backend/src/controllers/reactionController.js:14-19 | Over all nine (current, requested) pairs, the next value is 0 when the request is 0 or repeats the current vote. Otherwise it is the request. |
| ReactionEngine.ToggleSequences | backend/src/controllers/reactionController.js:14-19 | From neutral a vote is taken. The same vote again returns to neutral, and a third time brings it back. After a flip the original vote is re-established. A 0 request always clears. |
| ReactionEngine.IncForTransition | backend/src/controllers/reactionController.js:21-28 | The delta turns the old value's contribution (+1 like or +1 dislike) into the new one's. Each component is in [-1, 1], and both are 0 when the value does not change. |
| ReactionEngine.Clamp | backend/src/controllers/reactionController.js:30-42 | A negative counter is reset to 0. A non-negative one is returned as read. The same holds for the comment variant at lines 44-64. |
| ReactionEngine.ClampProperties | backend/src/controllers/reactionController.js:44-64 | The clamped counts are never negative. The clamp writes exactly when it changes something, and it is idempotent. |
| Ledger.WriteLedger | backend/src/controllers/reactionController.js:103-117 | Afterwards the key has a record exactly when the next value is non-zero, and that record holds the next value. Clearing an absent record changes nothing. Every other user's and target's record is untouched. |
| Ledger.TallyAfterWrite | backend/src/controllers/reactionController.js:103-117 | A write moves exactly one record of the target from the old value's count to the new value's count. Other targets' counts are unchanged. |
| ReactionInvariants.DeltaKeepsTally | backend/src/controllers/reactionController.js:103-127 | If a target's counters equal its tallies before the ledger write, then after the write and the delta they equal the new tallies. |
| ReactionInvariants.WritePreservesConsistency | backend/src/controllers/reactionController.js:103-117 | Writing one key and setting its target's counters to the new tallies keeps every target consistent. |
| ReactionController.Transition | backend/src/controllers/reactionController.js:103-147 | The reported reaction is the toggle's next value, and the ledger now holds it. No other key changes. Only this target's counters change, to the clamped counters after the delta, and the reported counts are those counters. |
| ReactionInvariants.TransitionPreservesConsistency | backend/src/controllers/reactionController.js:119-147 | A transition from a consistent store leaves it consistent. The counts it reports are the target's new tallies. |
| ReactionController.React | backend/src/controllers/reactionController.js:77-148 | A missing user gives 401, then a bad id gives 400, then a bad value gives 400. 404 occurs exactly when a valid request names a missing target. A refusal leaves the store untouched. Success happens exactly for a validated request, and then it is the transition. |
| ReactionController.ValidationPrecedesStore | backend/src/controllers/reactionController.js:82-95 | A 401 or 400 refusal is the same whatever the store holds. Validation reads nothing. |
| ReactionInvariants.ReactPreservesConsistency | backend/src/controllers/reactionController.js:77-240 | Either handler keeps a consistent store consistent. It reports the new tallies, and the clamp has nothing to correct. |
| ReactionInvariants.RunPreservesConsistency | backend/src/controllers/reactionController.js:77-240 | After any finite sequence of photo and comment reactions from a consistent start, every target's like and dislike counts equal the number of +1 and -1 ledger records for it. |
| ReactionController.ReplyOf | backend/src/controllers/reactionController.js:143-147 | A reaction is answered with 200 and the body `{ myReaction, likeCount, dislikeCount }` holding the outcome's new vote and post-clamp counters. The 400, 401 and 404 refusals are answered with their status and an `{ error: message }` body. |
| PhotoPresenter.BuildOptimizedUrl | backend/src/presenters/photoPresenter.js:3-11 | The empty URL gives the empty URL. A URL without `/upload/` is returned unchanged. Otherwise the result is longer by exactly the inserted segment. The controller's copy at backend/src/controllers/photoController.js:33-41 is identical. |
| PhotoPresenter.OptimizedKeepsMarker | backend/src/controllers/photoController.js:33-41 | The split is at the first `/upload/`. The optimised URL has its first marker in the same place, followed by `f_auto,q_auto,w_1080/`, and the text before and after is the input's. |
| PhotoPresenter.OptimizeRoundTrip | backend/src/presenters/photoPresenter.js:3-11 | Deleting the inserted segment recovers every input URL. |
| PhotoPresenter.OptimizedOf | backend/src/presenters/photoPresenter.js:18 | Present exactly for a truthy URL. Its value is then the URL with the transform inserted after the first `/upload/`, which removing the segment undoes. |
| PhotoPresenter.LookupReaction | backend/src/presenters/photoPresenter.js:21 | `myReaction` is the map's value for the id when there is one, and 0 when the map or the entry is missing. |
| PhotoPresenter.ShapeComment | backend/src/presenters/photoPresenter.js:22-30 | A comment keeps its id, text and date. Its author is the populated user when truthy, else the raw reference. A stored counter is kept and a missing one is 0. Its `myReaction` is the comment map's entry for its id, or 0. |
| PhotoPresenter.ShapeComments | backend/src/presenters/photoPresenter.js:22-30 | Comments are shaped one for one, in input order. |
| PhotoPresenter.ToClient | backend/src/presenters/photoPresenter.js:13-32 | No photo gives no view. Otherwise the view carries the whole stored photo and the photo's reaction from the map. `imageUrlOptimized` is the optimised URL of a truthy `imageUrl`, and absent otherwise. The comments are the stored comments, each shaped with the comment map, in the same order. |
| PhotoPresenter.CountsDefaulted | backend/src/presenters/photoPresenter.js:19-20 | On the photo and on every comment (lines 27-28), a stored counter is reported as stored and a missing one as 0. |
| PhotoPresenter.NoMapsNoReaction | backend/src/presenters/photoPresenter.js:21-29 | Without reaction maps, the photo and every comment report reaction 0. |
| PhotoPresenter.EmptyMapsAreNoMaps | backend/src/controllers/photoController.js:43 | The empty default maps of `shapePhoto` give the same view as passing no maps. |
| PhotoService.BuildMaps | backend/src/services/photoService.js:33-39 | A Photo row fills only the photo table and a Comment row only the comment table. Each entry comes from a row about that target. Among rows about the same target, the last one wins. |
| PhotoService.FindReactions | backend/src/services/photoService.js:25-31 | The rows read are exactly the caller's rows about a photo of the page or one of their comments. |
| PhotoService.ShapeAll | backend/src/services/photoService.js:41-43 | There is one view per photo, in order, each the presenter's view. |
| PhotoService.AttachReactions | backend/src/services/photoService.js:16-44 | No photos, or an empty list, gives []. Otherwise there is one view per photo, in order, over the same document. Without a user, each view is the plain `toClient` view. For any caller, each view differs from the plain view only in `myReaction`: the optimised URL, the defaulted counters and the number of comments are the same, and each comment is the same once its reaction is set aside. |
| PhotoService.AnonymousSeesNoReactions | backend/src/services/photoService.js:18 | Without a user, the result does not depend on the reaction collection, and every photo and comment reports reaction 0. |
| PhotoService.TableAgreesWithLedger | backend/src/services/photoService.js:25-39 | When the collection holds exactly the ledger's records, a table lookup for a target of the page gives the caller's recorded vote, or 0 when there is none. |
| PhotoService.OverlayMatchesLedger | backend/src/services/photoService.js:16-44 | When the collection holds exactly the ledger's records, every photo and comment of the page reports the caller's own recorded vote, or 0 when there is none. |
| PhotoController.ShapePhoto | backend/src/controllers/photoController.js:43-62 | A null document gives null. The controller's field-by-field copy gives exactly the presenter's view with the same maps. With the default empty maps, that is the presenter's view without maps. |
| PhotoController.AttachReactions | backend/src/controllers/photoController.js:64-90 | The controller's copy sends exactly what the service's copy sends, for every input. |
| PhotoController.ParseFeedLimit | backend/src/controllers/photoController.js:17-21 | The page size is always in [1, 30]. Unreadable input gives 12. An in-range number is kept, and anything else is clamped to the nearer bound. |
| PhotoController.FeedLimitRoundTrip | backend/src/controllers/photoController.js:17-21 | A page size from 1 to 30, written in decimal, is read back unchanged. |
| PhotoController.ParseCursor | backend/src/controllers/photoController.js:23-31 | Only a non-empty single string is considered. An accepted cursor's date and id are the first two `|`-pieces of the text. Both are non-empty and free of `|`, the date satisfies the date check and the id satisfies the id check. |
| PhotoController.CursorRoundTrip | backend/src/controllers/photoController.js:23-31 | A cursor written as `date|id` is decoded back to that date and id, provided both pass their checks. |
| PhotoController.MalformedCursorRefused | backend/src/controllers/photoController.js:25-26 | A cursor without `|`, or one whose date piece is empty, is refused. |
| PhotoController.CursorIgnoresTail | backend/src/controllers/photoController.js:25 | Anything after a second `|` is ignored. |
| PhotoController.Fetch | backend/src/controllers/photoController.js:145-147 | At most `limit + 1` rows are fetched, as a prefix of the feed order. |
| PhotoController.Paginate | backend/src/controllers/photoController.js:154-162 | `hasMore` holds exactly when more than `limit` rows were fetched. The items are a prefix of the fetched rows with at most `limit` elements. There is a next cursor exactly when `hasMore` holds and the limit is positive, and it names the last item's date and id. |
| PhotoController.GetRecentPhotos | backend/src/controllers/photoController.js:128-171 | A truthy cursor that does not parse is refused, and nothing else is. A page holds the first `min(limit, rows)` rows in feed order, overlaid with the caller's reactions. `hasMore` holds exactly when rows exceed the limit. There is a next cursor exactly when `hasMore` holds, and it is the ISO date and id of the last photo, joined by `\|`. |
| PhotoController.ServePage | backend/src/controllers/photoController.js:145-168 | With an accepted cursor and a limit of at least 1, the page holds the first `min(limit, rows)` rows in feed order, overlaid with the caller's reactions. `hasMore` holds exactly when rows exceed the limit. There is a next cursor exactly when `hasMore` holds, and it is the ISO date and id of the last photo of the page. |
| PhotoController.FetchedPage | backend/src/controllers/photoController.js:147-162 | Fetching `limit + 1` rows and paginating keeps the first `limit` rows and says whether more follow. The next cursor names the row at position `limit`. |
| PhotoController.NextCursorResumes | backend/src/controllers/photoController.js:158-162 | The next cursor of a full page decodes to the date and id of the page's last photo. |
| PhotoController.FeedReply | backend/src/controllers/photoController.js:133-135 | An invalid cursor is answered with 400 and `{ error: 'Invalid cursor' }`. |
| Validators.RequireObjectId | backend/src/utils/validators.js:7-13 | The result is true exactly when the id check holds. A reply is written only on failure and only when a response is given. It has status 400 by default, and the payload if truthy, else `{ error: 'Invalid id' }`. |
| Validators.RequireObjectIdDefaults | backend/src/utils/validators.js:7-13 | With only a response object, an invalid id gets 400 with `{ error: 'Invalid id' }`, and a valid id passes with nothing written. |
| Validators.ParsedOr | backend/src/utils/validators.js:21-23 | A readable non-zero number is kept. NaN and 0 both fall back to the default. |
| Validators.ParsePagination | backend/src/utils/validators.js:15-25 | The limit is the parsed value, or the default when it parses to NaN or 0, clamped to [1, `maxLimit`] (default 100): kept within range, exactly `maxLimit` above it, exactly 1 below it. The skip is the parsed value, or the default when NaN or 0, and becomes 0 when not positive. |
| Validators.MissingQueryUsesDefaults | backend/src/utils/validators.js:15-25 | With no query and no options, the result is limit 20 and skip 0. A missing query takes the caller's defaults, clamped the same way. |
| Validators.ZeroLimitFallsBack | backend/src/utils/validators.js:19-22 | An explicit `limit=0`, or an unreadable limit, is read exactly like a missing one. |
| Validators.ZeroSkipFallsBack | backend/src/utils/validators.js:23 | An explicit `skip=0`, or an unreadable skip, is read exactly like a missing one. |
| Validators.LimitRoundTrip | backend/src/utils/validators.js:19-22 | A limit from 1 to `maxLimit`, written in decimal, is read back unchanged. |
| Validators.SafeTrim | backend/src/utils/validators.js:27-29 | A non-string gives the empty string. A string becomes a contiguous part of itself, with only whitespace cut from either end, and it neither starts nor ends with whitespace. |
| Validators.SafeTrimIdempotent | backend/src/utils/validators.js:27-29 | Trimming a trimmed string changes nothing. |
| Permissions.IsOwnerOrAdmin | backend/src/utils/permissions.js:3-5 | A missing user is refused and an admin is allowed. Any other user is allowed exactly when the owner equals their id. |
| Permissions.NonAdminHasOneOwner | backend/src/utils/permissions.js:3-5 | A user who is not an admin is allowed on the resources of one owner only, their own id. |
| Permissions.CanEditPhoto | backend/src/utils/permissions.js:7-9 | The decision is ownership of the photo's `user_id`. An authenticated user may act on a missing photo only as an admin. |
| Permissions.CanDeletePhoto | backend/src/utils/permissions.js:11-13 | The decision is the same as for editing. |
| Permissions.EditIffDelete | backend/src/utils/permissions.js:7-13 | Editing and deleting a photo are granted to exactly the same users. |
| Permissions.AssertAuth | backend/src/utils/permissions.js:15-21 | The user is returned exactly when it has a truthy id. Otherwise the error has status 401 by default, the payload if truthy, else `{ error: 'Unauthorized' }`, and no response type. |
| CsrfGuard.Guard | backend/src/middlewares/csrfGuard.js:4-17 | The guard passes when the cross-site flag is not `'true'`, for other methods than POST, PUT, PATCH and DELETE, and for the login and refresh paths. Otherwise it passes exactly when the header token is truthy and equals the cookie token. A refusal is 403 with `{ error: 'Invalid CSRF token' }`. |
| CsrfGuard.GuardDeniesExactly | backend/src/middlewares/csrfGuard.js:5-14 | A request is refused exactly when the flag is on, the method changes state, the path is not excluded and the two tokens are not the same truthy string. |
| Http.NewHttpError | backend/src/utils/http.js:1-8 | The status defaults to 500 and the message to `'Server error'`. The payload and response type are kept. |
| Http.NormalizePayload | backend/src/utils/http.js:10-14 | A falsy payload gives `{ key: undefined }` and a string gives `{ key: s }`. Anything else is returned unchanged. The key defaults to `error`. |
| Http.NormalizePayloadIdempotent | backend/src/utils/http.js:10-14 | A normalised payload is a truthy non-string, and normalising it again with any key changes nothing. |
| Http.Ok | backend/src/utils/http.js:16-18 | Status 200 with the data as body. |
| Http.Created | backend/src/utils/http.js:20-22 | Status 201 with the data as body. |
| Http.Fail | backend/src/utils/http.js:24-26 | The status defaults to 500, and the body is the normalised payload. |
| Http.BadRequest | backend/src/utils/http.js:28-30 | Status 400 with the normalised payload. |
| Http.Unauthorized | backend/src/utils/http.js:32-34 | Status 401 with the normalised payload. |
| Http.Forbidden | backend/src/utils/http.js:36-38 | Status 403 with the normalised payload. |
| Http.NotFound | backend/src/utils/http.js:40-42 | Status 404 with the normalised payload. |
| Http.ErrorHelpersKeepErrorBody | backend/src/utils/http.js:28-42 | Every error helper sends an `{ error: message }` body as is. |
| ErrorHandler.StatusOf | backend/src/middlewares/errorHandler.js:13 | The status is the error's own when truthy, else 500, for an `HttpError`, for any other thrown value and for null or undefined. It is never 0. |
| ErrorHandler.Handle | backend/src/middlewares/errorHandler.js:3-25 | If headers were sent, the handler delegates, and otherwise it always answers. A multer error, or a message about image files, gives 400 with `{ error: message }`. Otherwise the status is the error's status or 500. An `HttpError` with text response type sends the bare message, one with a truthy payload sends the payload, and any other sends `{ error: message }`. Anything else sends `{ error: message || 'Server error' }`. |
| ErrorHandler.FailedAuthIsUnauthorized | backend/src/utils/permissions.js:15-21 | A request refused by `assertAuth` with its defaults reaches the client, through the error middleware, as 401 with `{ error: 'Unauthorized' }`. |
| ErrorHandler.TextErrorsSendTheMessage | backend/src/middlewares/errorHandler.js:15-17 | An error thrown with response type `'text'` is sent as its bare message with its status. |
| Js.ParseIntDecimal | backend/src/controllers/photoController.js:18 | `parseInt(s, 10)` reads back every integer written in decimal. |
| Js.Split | backend/src/controllers/photoController.js:25 | Splitting on a character gives at least one piece and no piece contains the separator. Joining the pieces again gives the input. |
| Js.SplitJoin | backend/src/controllers/photoController.js:25 | Splitting a join of separator-free pieces gives the pieces back. |

## Left out

- `Number(req.body?.value)`: the coercion of an arbitrary request body value to a number (strings, booleans, arrays) is not modelled. The request carries the already-coerced number.
- Storage calls: the Mongoose queries (`findById`, `findOne`, `find`, `create`, `updateOne`, `deleteOne`, `$inc` with `arrayFilters`, `populate`, `select`) are replaced by the abstract ledger and counter maps. A target exists exactly when it has counters. A stored document that lacks a counter field reads as 0, which is what `$inc` does with a missing field.
- The feed query: the cursor filter (`date_time` before the cursor, or equal with a smaller `_id`) and the sort are storage semantics. `GetRecentPhotos` is given the rows in feed order.
- The order of the rows `Reaction.find` returns is taken to be collection order. MongoDB does not promise an order, and last-wins is stated over whatever order is given.
- Concurrency: the model runs each request atomically. Interleaving between the `await`s of two requests, and a failure part way through a request, are not modelled.
- The comment reread at backend/src/controllers/reactionController.js:211-219 is not modelled separately. In the abstract store a comment that was found still exists after the update, so that second "Comment not found" answer cannot occur in the model.
- `logReactionFlow`: console logging only.
- Upload handling: Cloudinary upload and delete, the `file-type` sniffing in `validateImageBuffer`, multer configuration and `validateImageUpload` are foreign library and I/O code.
- Authentication: JWT signing and verification, hashing and environment lookups are foreign code. The model starts from the decoded user.
- `new Date(...)`, `toISOString` and `mongoose.Types.ObjectId.isValid` are parameters (`validDate`, `isoDate`, `validId`), not interpretations. A date that `toISOString` rejects would throw and become a 500. That is not modelled.
- The CRUD handlers of photoController.js (`getPhotosOfUser`, `addComment`, `uploadNewPhoto`, `deletePhoto`, `updatePhotoDescription`, `replacePhotoImage`, `updateComment`, `deleteComment`): sequences of store calls around the modelled validators, permission checks and overlay.
- Express wiring, `asyncHandler` and the `fs` unlink in `deletePhotoAsset` are framework plumbing.
- Permissions.IsOwnerOrAdmin: `resourceUserId?.toString()` is modelled as the owner id string. A user with no `_id` therefore matches a resource with no owner, as `undefined === undefined` does.
- ErrorHandler.Handle: a non-string `message` (on which `includes` would throw) is not modelled. A message is a string or absent.
- Validators.ParsePagination: the options are integers. A non-numeric option value passed by a caller is not modelled.
- Ids are compared as exact strings. Mongoose casts a route id to an ObjectId, so an upper-case hex id or a 12-character string names the same document and reaction key as its canonical lower-case form. The model keys the store by the string as given. For such an id, `ReactionController.React` answers 404 where the service answers 200.
- Js.ParseInt: returns an unbounded integer. JavaScript's `parseInt` returns a double, which rounds above 2^53 and is `Infinity` for very long digit strings. The feed limit and the pagination limit are clamped, so only `Validators.ParsePagination`'s skip can differ.
- The 200 body of `getRecentPhotos`, `{ items, nextCursor, hasMore }`: shaped photos are not encoded as JSON values. `Feed` carries the three fields, and `PhotoController.FeedReply` covers the 400 refusal only.
