# WheelDeal back end — a verified model of its core

WheelDeal is a car-rental marketplace back end (Node.js, Express, MongoDB). This project models its
core in Dafny and proves properties of the model:

- the refresh-token session state machine of the authentication service: login, logout, refresh on
  landing, recovery from an expired access token, and the access gate in front of protected routes;
- Serbian transliteration of addresses, and how the post service splits an address into street and
  city;
- the post service and the post repository:
  - soft deletion by archiving;
  - owner checks on update and delete;
  - the like/unlike toggle;
  - the search filter builders;
  - paginated search with `hasMore`;
- the user, vehicle, booking and comment services:
  - existence and ownership checks;
  - the liked-posts list;
  - the vehicle image-keep rule;
  - the days a booking occupies;
  - the comment validation chain;
- the two daily cleanup jobs:
  - unverified accounts older than four weeks;
  - posts archived for four weeks, with their images;
- the dependency container.

Layout, one module per file:

| files | modules | what they hold |
|---|---|---|
| `common.dfy`, `lists.dfy`, `strings.dfy` | `Common`, `Lists`, `Strings` | shared helpers: results and errors, JS `filter(x !== v)` on lists, and JS `split`, `includes`, `replace` and ASCII `toLowerCase` on strings |
| `docs.dfy` | `Docs` | a MongoDB record as a flat map from field name to a JavaScript value; the queries and updates the services use; the `Database` class whose collections the service methods rewrite |
| `auth_service.dfy`, `auth_middleware.dfy` | `AuthService`, `AuthMiddleware` | pure decision functions for each flow, plus the `AuthService` class whose methods follow the source's call structure and are proved equal to those functions |
| `transliteration.dfy` | `Transliteration` | the transliteration table and `transliterate` |
| `post_repository.dfy`, `post_service.dfy`, `user_service.dfy`, `vehicle_service.dfy`, `bookings.dfy`, `comments.dfy` | one per service or repository | pure checks and lookups are functions; operations that write to the database are methods over `Database`, each proved equal to a flow function about which lemmas are proved |
| `sweep.dfy`, `scheduler_user.dfy`, `scheduler_post.dfy` | `Sweep`, `UserSweep`, `PostSweep` | the four-week rule and the sweep loops |
| `dependency_container.dfy` | `DependencyContainer` | the registry class |

Representation choices:

- **Dates.** Dates in bookings and filters are day numbers; day 0 is 1970-01-01. Scheduler times are
  milliseconds since the epoch.
- **Errors.** An error is `AppError(status, message)` or a runtime error. The error handler answers
  a runtime error with 500 "Something went wrong".
- **Owner ids** are compared as strings, since an ObjectId's `toString` is its hex string.

## Model

| member | source | states |
|---|---|---|
| AuthService.Credentials | services/auth.js:59-91 | login checks run in order: unknown email is 404, unverified account is 403, wrong password is 400; success exactly when the email's account is verified and the password matches |
| AuthService.UserByEmail | services/auth.js:198-206 | the account with that e-mail address, or none exactly when no account has it |
| AuthService.Owner | services/auth.js:277-282 | the user holding a token, or none exactly when no list holds it |
| AuthService.SetTokens | services/users.js:65-68 | writing a user's list changes that user's list only |
| AuthService.ExtractRefreshToken | services/auth.js:269-275 | no cookie gives 401 "No user detected"; otherwise the cookie's token |
| AuthService.AccessToken | services/auth.js:365-376 | the second space-separated word of the Authorization header; a missing header or an empty second word gives 401 |
| AuthService.LoginSession | services/auth.js:134-166 | a failed check changes nothing; a login removes every copy of the cookie's token from the user's list, keeps every other token (the whole list without a cookie), appends exactly one new token, touches no other user, and returns the user with an empty list |
| AuthService.LoginKeepsOwnersUnique | services/auth.js:134-151 | a login keeps every token on at most one user's list |
| AuthService.LogoutAlwaysNoContent | services/auth.js:168-196 | logout always answers 204; without a cookie nothing is read; an unowned token writes nothing; otherwise every copy leaves its owner's list, other entries keep their order, and nobody holds the token afterwards |
| AuthService.LogoutIdempotent | services/auth.js:168-196 | a second logout with the same cookie leaves the store as the first left it |
| AuthService.RefreshSucceedsIff | services/auth.js:560-580 | a refresh succeeds exactly when the token is on a list and verifies for that owner; the token is then used up and exactly one new token is appended, with no other list changed |
| AuthService.RefreshHeldButRejected | services/auth.js:284-313 | a held token that fails verification loses every copy, clears the cookie and answers 401 with no new token; one that verifies for another user answers 403 and writes nothing |
| AuthService.RefreshUnknownToken | services/auth.js:315-335 | no cookie answers 401; a token on no list answers 403 with the cookie cleared, and empties its subject's whole list when it verifies, changing nothing otherwise |
| AuthService.RefreshKeepsOwnersUnique | services/auth.js:560-580 | a refresh keeps every token on at most one list |
| AuthService.RefreshReplayWipes | services/auth.js:315-335 | replaying a refresh token after a successful refresh ends every session of its owner with 403 |
| AuthService.ExpiryGuards | services/auth.js:365-388 | recovery answers 401 without an access token, no response at all while the access token is valid, and 401 "Missing refresh token" without a cookie, changing nothing |
| AuthService.RecoverBranches | services/auth.js:389-437 | recovery answers 500 for an unverifiable token on no list, 401 with the token removed when a held token fails, 403 with no list wiped for a valid token on no list, and rotation with no subject check for a valid held token |
| AuthService.ReuseHandledDifferently | services/auth.js:315-335 | a replayed valid token on no list is refused with 403 on both routes; only the landing route empties its subject's list |
| AuthService.AccessExpiryKeepsOwnersUnique | services/auth.js:378-443 | recovery keeps every token on at most one list |
| AuthService.AuthService.UpdateUser | services/users.js:65-68 | the store becomes the store with that user's list replaced |
| AuthService.AuthService.IssueAccessRefreshTokens | services/auth.js:134-166 | the stored list is the kept list plus the new token; the user comes back with an empty list, and the cookie is set to the new token |
| AuthService.AuthService.LoginUserFromRoute | services/auth.js:524-541 | the new store, cookie and reply are those of the login flow |
| AuthService.AuthService.LogoutUser | services/auth.js:168-196 | the new store and cookie are those of the logout flow, and the status is 204 |
| AuthService.AuthService.LogoutUserFromRoute | services/auth.js:543-551 | the new store, cookie and reply are those of the logout flow |
| AuthService.AuthService.HandleFaultyRefreshToken | services/auth.js:337-344 | writes the kept list, clears the cookie and fails with 401 |
| AuthService.AuthService.HandleProperRefreshToken | services/auth.js:346-363 | writes the kept list plus the new token, sets the cookie and answers with an access token for the user |
| AuthService.AuthService.FlushUserRefreshTokens | services/auth.js:315-335 | clears the cookie, fails with 403, and empties the subject's list when the token verifies |
| AuthService.AuthService.HandleRefreshToken | services/auth.js:284-313 | the outcome of checking a held token: faulty, forbidden or proper |
| AuthService.AuthService.HandleRefreshTokenFromRoute | services/auth.js:560-580 | the new store, cookie and reply are those of the landing refresh |
| AuthService.AuthService.HandleAccessTokenExpiry | services/auth.js:378-443 | the new store, cookie and reply are those of the recovery on the access token |
| AuthService.AuthService.HandleAccessTokenExpiryFromRoute | services/auth.js:553-558 | the new store, cookie and reply are those of the recovery route |
| AuthMiddleware.VerifyToken | middleware/auth.js:11-31 | every request gets exactly one outcome: one 401 response or one call of `next`; `req.user` is set exactly when `next` runs |
| AuthMiddleware.GateOutcomes | middleware/auth.js:12-29 | no header or no second word gives 401 "Unauthorized"; an expired token and a bad signature get their own messages; a request passes exactly when the second word verifies, with its subject |
| AuthMiddleware.GateAgreesWithRecovery | middleware/auth.js:11-31 | the gate passes a request exactly when the recovery route stays silent on the same header |
| Transliteration.CyrillicLower | modules/transliteration.js:4-33 | every Cyrillic lower-case entry is one or two ASCII characters |
| Transliteration.CyrillicUpper | modules/transliteration.js:34-63 | every Cyrillic upper-case entry is one or two ASCII characters |
| Transliteration.LatinLetter | modules/transliteration.js:64-77 | every Latin-letter entry is one or two ASCII characters |
| Transliteration.Letter | modules/transliteration.js:4-77 | every one-character key is a non-ASCII character |
| Transliteration.LookupSound | modules/transliteration.js:2-78 | every key is one or two characters ending in a non-ASCII character, and every entry is one or two ASCII characters |
| Transliteration.Entry | modules/transliteration.js:89-93 | a character with an entry contributes that entry; any other character is copied |
| Transliteration.Transliterate | modules/transliteration.js:82-97 | the result is the place-name replacement, then the per-character mapping, then lowercasing |
| Transliteration.MapCharsAppend | modules/transliteration.js:87-95 | the mapping distributes over concatenation, so characters keep their order |
| Transliteration.MapCharsLength | modules/transliteration.js:87-95 | each character contributes one or two characters |
| Transliteration.TransliteratedLength | modules/transliteration.js:85-96 | the output is between one and two times as long as the replaced input |
| Transliteration.AsciiEntry | modules/transliteration.js:89-90 | an ASCII character is copied unchanged |
| Transliteration.MapCharsAscii | modules/transliteration.js:87-95 | ASCII text passes through the mapping unchanged |
| Transliteration.AsciiPassesThrough | modules/transliteration.js:85-96 | ASCII input with neither place name comes back as its lowercase |
| Transliteration.AsciiReplacement | modules/transliteration.js:85-96 | an ASCII replacement result comes back lowercased |
| Transliteration.DigraphKeysUnused | modules/transliteration.js:71-77 | the two-character keys are in the table but never looked up; "dž" still maps to "dz" and "DŽ" to "Dz" |
| Transliteration.DigraphsTransliterated | modules/transliteration.js:85-96 | both spellings of the digraph come out as "dz" |
| Transliteration.ReplacedBelgrade | modules/transliteration.js:85 | "Belgrade" is replaced by "Beograd"; "belgrade" is not replaced |
| Transliteration.BelgradeTransliterated | modules/transliteration.js:85-96 | "Belgrade" becomes "beograd" |
| Transliteration.LowerBelgradeTransliterated | modules/transliteration.js:85-96 | "belgrade" stays "belgrade" |
| Transliteration.PlaceNamesCaseSensitive | modules/transliteration.js:85 | the replacement is case-sensitive |
| Transliteration.OneLetter | modules/transliteration.js:87-96 | a one-letter word becomes its entry, lowercased |
| Transliteration.LatinDjLetter | modules/transliteration.js:96 | "Đ" becomes "dj" |
| Transliteration.CyrillicLjLetter | modules/transliteration.js:96 | "Љ" becomes "lj" |
| Transliteration.DigraphLetters | modules/transliteration.js:96 | "Đ" and "Љ" become two lower-case letters |
| PostService.CityFrom | services/posts.js:40-47 | the city is the first later part the street does not contain, or "" when the street contains them all |
| PostService.EmptyAlwaysIncluded | services/posts.js:40-46 | every string contains "", so an empty part is never chosen as the city |
| PostService.ExtractCityStreetFromAddress | services/posts.js:27-54 | the result is the split of the transliterated address |
| PostService.SplitAddressParts | services/posts.js:28-51 | the search address is the whole transliterated string; street and city never contain ", "; with at most two parts the street is "" and the city is the first part |
| PostService.RepeatedStreetSkipped | services/posts.js:36-46 | when the second part is contained in the street and the third is not, the city is the third part |
| PostService.CheckPostExistsById | services/posts.js:113-120 | the unarchived post with that id, or 404 "Post not found." exactly when there is none |
| PostService.GetPost | services/posts.js:81-96 | 404 "Post not found" without a matching unarchived post; with one, success exactly when its vehicle exists (the first vehicle with that id is returned with the post), and 404 "Vehicle not found." otherwise |
| PostService.UpdatePost | services/posts.js:164-194 | the new posts and the reply are those of the update flow |
| PostService.DeletePost | services/posts.js:196-203 | the new posts and the reply are those of the delete flow |
| PostService.OnlyOwnerWrites | services/posts.js:164-203 | posts change only when the stored owner is the requester; a refused request writes nothing; a missing post is a runtime error |
| PostService.UpdateWrittenBeforeVehicleLookup | services/posts.js:179-184 | an owner's update is written even when the vehicle lookup then fails |
| PostService.DeletedPostGone | services/posts.js:196-203 | after the owner deletes a post, it is no longer found |
| PostService.LikeDislikePost | services/posts.js:205-235 | the new users and the reply are those of the like flow |
| PostService.LikeToggles | services/posts.js:205-235 | a missing user or post answers 400 and changes nothing; otherwise the post's membership in the user's list flips |
| PostService.LikeTwiceRestores | services/posts.js:205-235 | liking twice gives the user collection back |
| PostService.Filter.constructor | services/posts.js:272-279 | a filter starts with no clauses and the given page and limit |
| PostService.Filter.UpdateFilterByStartDate | services/posts.js:281-294 | appends one clause, from the given day or 1970-01-01 |
| PostService.Filter.UpdateFilterByEndDate | services/posts.js:296-309 | appends one clause, up to the given day or 2100-01-01 |
| PostService.Filter.UpdateFilterByStartPrice | services/posts.js:311-325 | appends one clause, a price of at least the given one or 1 |
| PostService.Filter.UpdateFilterByEndPrice | services/posts.js:327-341 | appends one clause, a price of at most the given one or 100000 |
| PostService.Filter.UpdateFilterByLocation | services/posts.js:343-365 | appends one clause: city or street starts with the transliterated location |
| PostService.Filter.UpdateFilterByArchived | services/posts.js:367-376 | appends the not-archived clause |
| PostService.Filter.UpdateFilterByBrand | services/posts.js:378-387 | adds nothing; a non-empty brand throws on the undeclared `req` |
| PostService.InitializeFilter | services/posts.js:272-279 | no clauses, page 1 and limit 12 unless given |
| PostService.EmptyLocationMatchesStringAddresses | services/posts.js:343-365 | an empty location matches exactly the posts whose street and city are strings |
| PostService.PageZeroFails | services/posts.js:275 | a page "0" is kept and the search then fails on the negative skip |
| PostRepository.Where | repositories/posts.js:47-57 | exactly the posts that meet every clause, and no more than the collection holds |
| PostRepository.WhereAppend | repositories/posts.js:47-59 | the matches keep natural order: those of a concatenation are the first part's, then the second's, so pages slice a fixed order |
| PostRepository.WhereSingle | repositories/posts.js:47-57 | a single post is a match exactly when it meets every clause |
| PostRepository.PostByFields | repositories/posts.js:17-20 | an unarchived post with the searched values, or none exactly when no such post exists |
| PostRepository.AllPostsByFields | repositories/posts.js:23-26 | exactly the unarchived posts with the searched values |
| PostRepository.UpdatePost | repositories/posts.js:29-36 | the post with that id gets the fields and is unarchived; none is returned exactly when no post has that id |
| PostRepository.DeletePost | repositories/posts.js:39-43 | the post is archived, never removed |
| PostRepository.UpdateUnarchives | repositories/posts.js:29-35 | an updated post is never archived, and every other sent field is written |
| PostRepository.ArchivingKeepsFields | repositories/posts.js:39-43 | archiving changes only the archive flag |
| PostRepository.UpdatedPostFound | repositories/posts.js:29-35 | after an update, the lookup by id finds the post even if it was archived |
| PostRepository.FirstMatchIs | repositories/posts.js:17-20 | a match with no match before it is what `findOne` returns |
| PostRepository.DeletedPostHidden | repositories/posts.js:39-43 | a deleted post stays in the collection but is hidden from lookups |
| PostRepository.PerformFilterSearch | repositories/posts.js:45-62 | fails on no clauses or a negative skip; `hasMore` holds exactly when page × limit is below the match count; the page is the matches from (page − 1) × limit, at most limit of them |
| PostRepository.HasMoreIffMatchesRemain | repositories/posts.js:47-59 | with positive page and limit, `hasMore` says exactly that matches remain after the page |
| PostRepository.MatchOnItsPage | repositories/posts.js:55-59 | every match is on exactly one page |
| UserService.CheckUserExistsById | services/users.js:57-63 | the user with that id, or 404 "User not found." exactly when there is none |
| UserService.GetUserDataById | services/users.js:29-46 | 404 exactly when no user has that id; otherwise the stored fields without password and updatedAt, with a signed image URL |
| UserService.CheckUserHasAccess | services/users.js:112-118 | access exactly for the owner or the string "true" admin flag; 403 otherwise |
| UserService.BooleanAdminFlagIgnored | services/users.js:113 | a boolean admin flag never grants access |
| UserService.UpdateUserLikedPosts | services/users.js:70-82 | the new users and the returned list are those of the liked-posts update |
| UserService.LikeAppends | services/users.js:72-74 | liking appends the post to the stored list, and the returned list ends with it twice |
| UserService.UnlikeRemovesAll | services/users.js:75-79 | unliking removes every copy from the stored list and returns that list |
| UserService.PushThenPull | repositories/users.js:38-55 | on one record, pushing an absent value and then pulling it restores the record |
| UserService.LikeThenUnlikeRestores | services/users.js:70-82 | liking, then unliking, restores the users |
| VehicleService.CheckCanChangeVehicle | services/vehicles.js:67-73 | allowed exactly when the stored owner is the requester; 401 otherwise |
| VehicleService.GetVehicle | services/vehicles.js:103-111 | the matching vehicle, or 404 exactly when none matches |
| VehicleService.GetAllUserVehicles | services/vehicles.js:113-121 | always succeeds with exactly the matching vehicles |
| VehicleService.UpdateVehicle | services/vehicles.js:75-101 | the new vehicles and the reply are those of the update flow |
| VehicleService.DeleteVehicle | services/vehicles.js:132-143 | the new vehicles and the reply are those of the delete flow |
| VehicleService.ChangesOnlyByOwner | services/vehicles.js:75-143 | existence is checked before ownership, and nothing is written unless both pass |
| VehicleService.UpdatedImages | services/vehicles.js:84-98 | images are the body's, else the uploaded keys, else the old ones; the body's fields are written and the others are kept |
| VehicleService.Summary | services/vehicles.js:147-152 | one listing entry holds exactly the id, brand, model and year |
| VehicleService.GetVehiclesWithoutImages | services/vehicles.js:145-154 | the same vehicles in order, each reduced to id, brand, model and year, without images |
| BookingService.GetTakenDates | services/bookings.js:39-49 | the days of every booking in booking order, and each walked booking's start date ends one past its end date |
| BookingService.DaysLength | services/bookings.js:43-46 | a booking contributes end − start + 1 days, or none when start is after end |
| BookingService.DaysAscending | services/bookings.js:42-46 | the days rise one at a time from the start date |
| BookingService.DaysMembership | services/bookings.js:43 | a day is contributed exactly when it lies between start and end inclusive |
| BookingService.TakenDaysAppend | services/bookings.js:41-47 | the days of two lists of bookings are the first list's days, then the second's |
| BookingService.TakenDaysMembership | services/bookings.js:39-49 | a day is taken exactly when some booking covers it |
| BookingService.EmptyBookingAddsNothing | services/bookings.js:43 | a booking whose start is after its end adds no day |
| BookingService.Walked | services/bookings.js:42-45 | a walked booking's start date ends one past its end date |
| BookingService.HostedBooking | services/bookings.js:31-35 | the host is the post's owner unless the booking data names a host; every other field is the data's |
| BookingService.CreateBooking | services/bookings.js:25-37 | the new bookings and the reply are those of the create flow |
| BookingService.CreateBookingOutcomes | services/bookings.js:25-37 | a booking is stored exactly when the post loads with its vehicle, and it is then the one new record; a missing post is 404 "Post not found", a missing vehicle 404 "Vehicle not found.", and neither stores anything |
| BookingService.HostIsOwnerUnlessGiven | services/bookings.js:31-35 | the host is the post's owner unless the data names a host |
| BookingService.GetAllPostBookings | services/bookings.js:16-23 | the post check's error, or exactly the bookings matching the data |
| BookingService.PostIdOnlyGates | services/bookings.js:16-23 | the post id only gates the query: two existing posts give the same bookings |
| CommentService.CommentChecks | services/comments.js:22-49 | passes exactly when the author exists, the post exists unarchived, the author is not its owner, and the rating is truthy |
| CommentService.CreateComment | services/comments.js:22-52 | the new comments and the reply are those of the create flow |
| CommentService.ChecksInOrder | services/comments.js:22-52 | the first failed check answers (404, 404, 403, 400 in that order), and a comment is stored exactly when all pass |
| CommentService.FalsyRatingRefused | services/comments.js:47-49 | a falsy rating, 0 included, never stores a comment |
| CommentService.CheckCommentExistsById | services/comments.js:54-62 | the comment with that id, or 404 "Comment not found." exactly when there is none |
| CommentService.UpdateComment | services/comments.js:64-76 | the new comments and the reply are those of the update flow |
| CommentService.UpdateChangesRatingAndContent | services/comments.js:71-74 | an author's update sets exactly rating and content (undefined included), keeping every other field and comment |
| CommentService.RefusedUpdateWritesNothing | services/comments.js:64-70 | an unknown id answers 404, a non-author 403, and neither writes |
| Docs.CopyFields | repositories/comments.js:15-17 | each given field takes the given value (undefined included) and every other field keeps its own |
| Docs.AssignFields | repositories/comments.js:15-17 | each given field reads as the given value; every other field reads as before |
| Docs.SameId | services/comments.js:67 | comparing an undefined or null id throws; the ids match exactly when the stored one is a string equal to the expected one |
| Docs.FindOne | repositories/users.js:18 | `findOne`: the first matching record, or none exactly when no record matches |
| Docs.FindAll | repositories/vehicles.js:12 | `find`: exactly the matching records, and no more records than the collection holds |
| Docs.FindAllAppend | repositories/vehicles.js:12 | `find` keeps natural order: the matches of a concatenation are the first part's matches, then the second's |
| Docs.FindAllSingle | repositories/vehicles.js:12 | a single record is found exactly when it matches |
| Docs.Apply | repositories/users.js:38-55 | an update keeps the id; `$set` writes the given fields, `$push` appends, `$pull` removes every copy, and the other fields stay |
| Docs.UpdateById | repositories/posts.js:29-36 | the first record with the id is updated; the collection keeps its length and every other record |
| Docs.DeleteByIdRemovesExactly | modules/scheduler/user.js:24 | `findByIdAndDelete` on unique ids removes exactly the record with that id and keeps ids unique |
| Lists.Without | services/auth.js:141 | `filter(x => x !== v)`: every copy of v is removed and every other entry is kept with its count |
| Lists.WithoutAppend | services/auth.js:141 | removal distributes over concatenation, so the entries that stay keep their order |
| Lists.WithoutIdempotent | services/auth.js:186-188 | removing the same token twice is removing it once |
| Strings.IndexFrom | modules/transliteration.js:85 | the first occurrence at or after a position, or -1 exactly when there is none |
| Strings.ReplaceFirst | modules/transliteration.js:85 | a string pattern replaces only its first occurrence; without one the string is unchanged |
| Strings.Split | services/posts.js:29 | `split` returns at least one piece |
| Strings.SplitJoin | services/posts.js:29 | joining the pieces with the separator gives the string back |
| Strings.SplitPiecesFree | services/posts.js:29 | no piece contains the separator |
| Strings.SecondWordEmptyIff | middleware/auth.js:13 | `split(" ")[1]` is falsy exactly when there is no space, or the first space is the last character or is followed by another |
| Strings.ToLower | modules/transliteration.js:96 | lowercasing keeps the length and maps each character on its own |
| Strings.ToLowerAppend | modules/transliteration.js:96 | lowercasing distributes over concatenation |
| Strings.ToLowerNoUpper | modules/transliteration.js:96 | text without upper-case ASCII letters is its own lowercase |
| Sweep.Timestamp | modules/scheduler/user.js:15 | a number is that many milliseconds; a non-date value is invalid |
| Sweep.OverdueIds | modules/scheduler/user.js:23-28 | exactly the ids of the overdue candidates |
| Sweep.BoundaryIsInclusive | modules/scheduler/user.js:18-23 | four weeks is 2,419,200,000 ms, and a record exactly that old is overdue |
| Sweep.SweepFromKeeps | modules/scheduler/user.js:14-31 | the sweep keeps exactly the records no overdue candidate names, and ids stay unique |
| Sweep.SweepRemovesExactlyOverdue | modules/scheduler/post.js:10-37 | a record is deleted exactly when it matches the query and is overdue |
| UserSweep.SweepUnverifiedUsers | modules/scheduler/user.js:8-32 | the users are those of sweeping the unverified accounts against one fixed time, and the ids removed are the overdue ones in order |
| UserSweep.SweepDeletesExactlyStaleUnverified | modules/scheduler/user.js:9-24 | an account is deleted exactly when it is unverified and at least four weeks old |
| PostSweep.Deletions | modules/scheduler/post.js:22-30 | deletions come in pairs, images then record |
| PostSweep.SweepArchivedPosts | modules/scheduler/post.js:9-38 | the posts are those of sweeping the archived posts against one fixed time; the deletions are each overdue post's images, then its record |
| PostSweep.ImagesBeforeRecord | modules/scheduler/post.js:24-30 | every record deletion comes right after the deletion of that post's images |
| PostSweep.RecordsDeletedAreOverdue | modules/scheduler/post.js:15-30 | the records deleted are exactly the overdue candidates, in order |
| PostSweep.SweepDeletesExactlyStaleArchived | modules/scheduler/post.js:10-30 | a post is deleted exactly when it is archived and last updated at least four weeks ago |
| DependencyContainer.Container.constructor | modules/dependencyContainer.js:4-6 | a new container has no registrations |
| DependencyContainer.Container.Register | modules/dependencyContainer.js:8-10 | the name holds the new value, overwriting any earlier one; every other name is unchanged |
| DependencyContainer.Container.GetDependency | modules/dependencyContainer.js:12-18 | returns a registered truthy value; throws "Dependency "name" is not registered." otherwise (the corrected lookup, see Findings) |
| DependencyContainer.Property | modules/dependencyContainer.js:13 | a read is the own entry, else a truthy inherited member, else undefined |
| DependencyContainer.Resolve | modules/dependencyContainer.js:12-18 | as written: returns the value exactly when the read is truthy |
| DependencyContainer.InheritedNameResolves | modules/dependencyContainer.js:13-17 | "toString" resolves on an empty container |
| DependencyContainer.ResolveOwn | modules/dependencyContainer.js:12-18 | resolves exactly when the name has a truthy own entry |
| DependencyContainer.ResolveAgreesOutsidePrototype | modules/dependencyContainer.js:12-18 | the two lookups agree on every registered or non-inherited name |
| DependencyContainer.RegisterThenResolve | modules/dependencyContainer.js:8-17 | the most recent truthy registration is returned; a falsy one throws |
| DependencyContainer.RegisterKeepsOthers | modules/dependencyContainer.js:9 | registering a name changes no other name's lookup |
| DependencyContainer.EmptyContainerResolvesNothing | modules/dependencyContainer.js:4-17 | with the corrected lookup a new container throws for every name; as written it throws exactly for the names `Object.prototype` does not define |

## Left out

- Signing and verifying tokens (jsonwebtoken) and password hashing (bcrypt) are foreign libraries. A verifier is a function from token to verdict, the password comparison is a predicate parameter, and a new refresh token is a parameter.
- AuthService.Fresh: a new refresh token is assumed to be on no user's list. The source signs only `{ id }` with a fixed secret and an expiry, with no random part (services/auth.js:113-130). Two tokens issued to the same user within the same second are therefore identical, and jsonwebtoken guarantees a new token only across different users or different seconds. The single-use and replay properties (AuthService.RefreshSucceedsIff, AuthService.RefreshReplayWipes, and the `newToken != cookie` of AuthService.LoginSession) hold under this assumption. A login followed by a refresh in the same second, which would rotate a token into itself, is not covered.
- The token store assumes each user record keeps a `refreshToken` list. models/User.js declares no such path. Under Mongoose's default strict mode, that field would not be saved by `updateUser` and would read as undefined, so the spread at services/auth.js:145 would throw on login. The model follows the evidently intended behaviour, in which the list is stored, as the test fixtures expect.
- AuthService.AuthService.IssueAccessRefreshTokens: the reply's `profileImage` is not replaced by a signed URL (services/auth.js:153-160). The model's user has no profile image. That S3 call comes after the token list is written, so a failure there would fail the login after the list has already changed; this is not modelled.
- PostService.InitializeFilter: `page` and `limit` arrive as query strings and are combined with `||` and `*` (services/posts.js:275-276 and repositories/posts.js:51-59). The model takes the number each string denotes. An absent or empty string is `None`, which `||` replaces by the default; "0" is truthy and becomes `Some(0)`. A string that is not a number (NaN) is not modelled.
- Concurrent requests are not modelled: each request is one atomic step over the store, so interleavings across `await` are not covered.
- Mongoose schema validation and casting on save are not modelled, nor the `_id` a new record receives. A created booking or comment is stored as the data given. A save the schema would refuse (for example a comment whose rating is left undefined by an update) is shown as succeeding.
- A query value of undefined, such as `{ _id: undefined }`, matches exactly the records without that field, as MongoDB's null does. Stored records always carry an `_id`, but the model does not require it, so `ById(Undefined)` matches records that lack one.
- Object-store (S3) calls are parameters or recorded effects:
  - signed URLs come from a function parameter;
  - uploaded image keys are a parameter;
  - the post sweep records its image deletions in order;
  - failures of these calls are not modelled.
- Mail is not part of this model: registration, verification and password reset are not covered.
- Date handling is simplified:
  - dates are whole day numbers, and the "YYYY-MM-DD" text of `toISOString` is the day number itself;
  - time zones and the local-to-UTC conversion of the filter dates are not modelled;
  - timestamps in the sweeps are milliseconds, and a date string stored in a timestamp field is treated as an invalid date rather than parsed.
- Prices are whole numbers; `parseFloat` of a price string is not modelled.
- The location clause's regular expressions are modelled as prefix tests.
- PostRepository.Satisfies reads `location.searchStreet` and `location.searchCity`, which `createPost` writes (services/posts.js:129-136). models/Post.js declares only `location.address` and `location.latLng`, so under Mongoose's default strict mode these fields would not be stored. The model follows the evidently intended behaviour, in which they are stored.
- PostRepository.UpdatePost: records are flat maps with dotted keys, so a body carrying a whole `location` object adds a `location` key and keeps the old `location.search*` keys. MongoDB would replace the whole subdocument, and a later location filter would no longer match the old street and city. This replacement is not modelled.
- Cron scheduling and console logging of the cleanup jobs are not modelled. The sweeps take the current time as a parameter. The user sweep returns the ids it would log.
- Transliteration:
  - `toLowerCase` lowercases ASCII letters only. Characters without a table entry are copied unchanged, and some of them are non-ASCII letters, such as "Ö" or Cyrillic "Ы". JavaScript would lowercase those, and the model leaves them as they are;
  - the table is modelled as lookup functions instead of an object filled at start-up;
  - characters are iterated as Unicode scalar values, not UTF-16 code units.
- Registering the name `__proto__` replaces the container's prototype instead of adding an entry; this is not modelled.
- The status code of the container's "not registered" error is not known, because modules/errorHandling/AppError.js is not part of this model. That error is a separate result, not an `AppError`.
- The S3-picture helpers and the sync/listing operations of the post service are not part of this model: `getVehiclePictures`, `getPosts`, `syncUserLikedPosts`, `applyFilter` and `createPost`.

## Findings

| source | as written | input that shows it | evidently intended | confidence | as-written member | corrected member |
|---|---|---|---|---|---|---|
| modules/dependencyContainer.js:13-17 | `!this.dependencies[name]` reads a plain object, so names inherited from `Object.prototype` count as registered | `getDependency("toString")` on an empty container returns the inherited function instead of throwing | only names registered on the container resolve (an own-property check or a `Map`) | medium, not executed | DependencyContainer.InheritedNameResolves | DependencyContainer.ResolveOwn |
