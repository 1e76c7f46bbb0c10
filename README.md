# COOKit recipe sharing: a Dafny model of its decision logic

COOKit is an Express/MongoDB recipe-sharing server with a React client. This
project models the logic inside its route handlers, schemas, upload middleware
and client pages. The document store, the clock, random tokens, password
hashing and JWT signing are replaced by parameters and plain values. The
properties the routes and pages promise are proved about the model.

- `Common`: the JavaScript string and array operations the code relies on.
  These are `trim`, unanchored substring tests, lower-casing, `findIndex`,
  `filter`, `String(n)` for integers and a stable sort.
- `UserModel`, `RecipeModel`, `CommentModel`: the documents.
  - `RecipeModel` and `CommentModel` hold the schema validators, the
    averageRating, ratingsCount and likesCount virtuals, and the pre-save
    updatedAt hook.
  - `UserModel` holds only the user record and lookups; models/User.js is not
    part of this model.
- `Store`: a `Database` class whose users, recipes and comments sequences and
  mail outbox are updated in place.
- `Auth`, `RecipeRoutes`, `Admin`, `CommentRoutes`: the handlers of
  routes/auth.js, routes/recipes.js, routes/admin.js and routes/comments.js.
  Each is a method on the database that makes the handler's assignments in the
  handler's order. Where the handler's effect is a pure function of the stored
  data, the method is proved equal to a step function, and the lemmas speak
  about those step functions.
- `Upload`: the multer filters of middleware/upload.js, the stored file name,
  and the count and size limits.
- Client pages:
  - `Pagination`: the page bar shared by the search and browse pages.
  - `RecipeQuery`: the query string those pages send and how the list route
    reads it back.
  - `SearchRecipes` and `BrowseRecipes`: classes whose methods step the page
    state the way its setters do. Each method returns the requests that follow:
    the handler's own fetch and the fetch the effect makes after the next render.
  - `CreateRecipe` and `EditRecipe`: the list editors, the submit checks and the
    multipart body.
  - `AdminRoute`: the client-side admin guard.

## Model

| member | source | states |
|---|---|---|
| Auth.Register | routes/auth.js:20-77 | The users, the mail outbox and the reply equal RegisterStep's outcome, and the id counter advances only on success. |
| Auth.RegisterStep | routes/auth.js:20-77 | The register outcome. It is stated by RegisterRejectsInvalidInput, RegisterRejectsDuplicate and RegisterCreatesUnverifiedUser. |
| Auth.RegisterRejectsInvalidInput | routes/auth.js:21-28 | Invalid input is refused with 400, naming exactly the failing fields: a trimmed username under 3 characters, a malformed email, a password under 6 characters. Nothing is created or mailed. |
| Auth.RegisterRejectsDuplicate | routes/auth.js:34-37 | Any user with the same email or trimmed username makes register fail with 400, with the store unchanged. |
| Auth.RegisterCreatesUnverifiedUser | routes/auth.js:40-71 | A successful register appends exactly one user. That user is unverified, holds the token, and its expiry is now + 86 400 000 ms. The token is mailed, and the 201 reply carries a 30-day session for the new id. |
| Auth.Login | routes/auth.js:82-126 | The reply equals LoginStep, and the store is unchanged. |
| Auth.LoginStep | routes/auth.js:82-126 | The login reply. It is stated by LoginUniformFailure, LoginChecksVerification and LoginWrongPasswordBeforeVerification. |
| Auth.LoginUniformFailure | routes/auth.js:95-104 | An unknown email and a wrong password get the same 401 Invalid credentials. |
| Auth.LoginChecksVerification | routes/auth.js:101-121 | The right password on an unverified account gets 403 and no session. On a verified account it gets a 30-day session for that user. |
| Auth.LoginWrongPasswordBeforeVerification | routes/auth.js:101-112 | A wrong password gets 401 whether or not the account is verified. |
| Auth.VerifyEmail | routes/auth.js:144-188 | The users, the outbox and the reply equal VerifyStep's outcome. |
| Auth.VerifyStep | routes/auth.js:144-188 | The verification outcome. It is stated by VerifySucceedsIff, VerifyClearsToken, VerifyExpiredToken, VerifyUnknownToken and VerifyReplayIsInvalid. |
| Auth.VerifySucceedsIff | routes/auth.js:151-154 | Verification succeeds if and only if some user holds the token with an expiry strictly after now. |
| Auth.VerifyClearsToken | routes/auth.js:170-178 | Success marks the holder verified and clears its token and expiry. No other user changes, and a welcome mail is sent. |
| Auth.VerifyExpiredToken | routes/auth.js:158-164 | A held token that is not live gets the "expired" 400, and the user stays unverified. |
| Auth.VerifyUnknownToken | routes/auth.js:165-166 | A token no user holds gets the "invalid" 400, with nothing changed. |
| Auth.VerifyReplayIsInvalid | routes/auth.js:151-173 | Once a token was consumed, verifying with it again at any time gets the "invalid" 400. |
| Auth.ResendVerification | routes/auth.js:193-227 | The users, the outbox and the reply equal ResendStep's outcome. |
| Auth.ResendStep | routes/auth.js:193-227 | The resend outcome. It is stated by ResendRefusals, ResendReplacesToken and ResendInvalidatesOldToken. |
| Auth.ResendRefusals | routes/auth.js:204-211 | An unknown email gets 404 and an already verified account gets 400, with nothing changed. |
| Auth.ResendReplacesToken | routes/auth.js:213-220 | The token is replaced and the expiry becomes now + 24 h. Nobody else changes, and the new token is mailed. |
| Auth.ResendInvalidatesOldToken | routes/auth.js:213-217 | After a resend, the old token gets the "invalid" 400. |
| Auth.RegisterVerifyLogin | routes/auth.js:20-126 | Register, then verify within 24 h, then log in: the login succeeds with a session for the new user. |
| RecipeModel.AverageTenths | models/Recipe.js:116-120 | averageRating in tenths is 0 without ratings. Otherwise it is the mean rounded half up to one decimal. |
| RecipeModel.RatingSumBounds | models/Recipe.js:90-95 | Valid ratings sum to between 1 and 5 per entry. |
| RecipeModel.AverageTenthsBounds | models/Recipe.js:84-120 | With valid ratings a rated recipe averages between 1.0 and 5.0. |
| RecipeModel.RatedIffHasRatings | models/Recipe.js:116-120 | With ratings in 1..5 the average is non-zero if and only if the recipe has ratings. |
| RecipeModel.BlankReferenceUrlAccepted | models/Recipe.js:59-61 | A blank link entry passes the validator whatever the URL parser says. |
| RecipeModel.SaveTouchesOnlyUpdatedAt | models/Recipe.js:137-140 | A save succeeds exactly when the validators pass: title and description long enough in UTF-16 code units, no empty ingredient or instruction, a listed category and difficulty, positive times and servings, every link accepted by the URL validator, and every rating in 1..5. It sets updatedAt to now, and createdAt and every other field are unchanged. |
| RecipeRoutes.CastAgreesWithIsInt | routes/recipes.js:108-110 | A value that passes `isInt({ min: 1 })` casts to the same integer, which is at least 1. |
| RecipeRoutes.NaturalStringValue | routes/recipes.js:45 | The decimal digits of a natural number read back as that number. |
| RecipeRoutes.DecimalParses | routes/recipes.js:45 | `String(n)` parses back to n, so a page number survives the query string. |
| RecipeRoutes.DecimalCasts | routes/recipes.js:184-186 | `String(n)` sent as a form field casts back to n. |
| RecipeRoutes.FeaturedLeIsTotalPreorder | routes/recipes.js:16-28 | The featured comparator is total and transitive. |
| RecipeRoutes.FeaturedOrder | routes/recipes.js:10-30 | The featured list is drawn from the recipes and has min(limit, count) entries. Rated recipes come before unrated ones, rated ones by descending average, unrated ones newest first. Every featured recipe ranks before every recipe left out. |
| RecipeRoutes.FeaturedSortedMeans | routes/recipes.js:16-27 | A list in the featured comparator's order puts rated recipes before unrated ones, rated ones by descending average, unrated ones newest first. |
| RecipeRoutes.Featured | routes/recipes.js:10-30 | The featured selection. Its order and size are stated by FeaturedOrder and FeaturedDefaultLimit. |
| RecipeRoutes.FeaturedDefaultLimit | routes/recipes.js:10 | With no limit, at most six recipes are featured, and exactly six when there are six or more. |
| RecipeRoutes.TotalPages | routes/recipes.js:76 | totalPages is the ceiling of count / limit, and null for a zero limit. |
| RecipeRoutes.Selected | routes/recipes.js:47-65 | The selection holds exactly the recipes the query document matches. |
| RecipeRoutes.Window | routes/recipes.js:68-69 | skip then limit returns consecutive entries from skip: all that remain when the limit is 0 or reaches past the end, otherwise exactly the limit's absolute value. It is empty past the end. |
| RecipeRoutes.PaginateContents | routes/recipes.js:65-79 | A page holds the consecutive entries of the newest-first result from `(page - 1) * limit`: exactly `limit` of them, or all that remain past that point, or none past the end. It is still newest first and reports the total and the page number. |
| RecipeRoutes.ListPageContents | routes/recipes.js:43-79 | The listing answers with exactly `limit` matching recipes, or what remains of them past `(page - 1) * limit`, newest first, and reports the number selected as `total`. |
| RecipeRoutes.SortedSelection | routes/recipes.js:43-79 | The matching recipes sorted newest first are as many as the query selects, are in order, and are all matching recipes of the store. |
| RecipeRoutes.ListRecipes | routes/recipes.js:43-79 | The listing. Its contents are stated by ListPageContents, ListPageNonEmptyIff and SameSelectionSameListing. |
| RecipeRoutes.SkipWithinCount | routes/recipes.js:69-76 | The skip reaches into the result if and only if page <= totalPages. |
| RecipeRoutes.ListPageNonEmptyIff | routes/recipes.js:65-79 | A page is non-empty if and only if its number is at most totalPages. |
| RecipeRoutes.SameSelectionSameListing | routes/recipes.js:65-72 | Queries selecting the same recipes give the same listing. |
| RecipeRoutes.ListAllMeansNoFilter | routes/recipes.js:57-63 | 'All' and an absent category or difficulty give the same listing. |
| RecipeRoutes.TrimAllIdempotent | models/Recipe.js:55-57 | Trimming the links twice is trimming them once. |
| RecipeRoutes.CreateSchemaCheck | routes/recipes.js:104-144 | Once the request validators pass, the new recipe passes the schema if and only if its category and difficulty are listed, no ingredient or instruction is empty, and the URL validator accepts every link. The length checks cannot fail, because the request validator's count never exceeds the schema's. |
| RecipeRoutes.CreateSchemaCheckForRows | routes/recipes.js:104-144 | With the request validators passed, listed category and difficulty, and non-empty ingredient and instruction rows, the schema accepts the new recipe exactly when the URL validator accepts every trimmed link. |
| RecipeRoutes.NewRecipe | routes/recipes.js:130-144 | The document created from a validated body. What the schema makes of it is stated by CreateSchemaCheck. |
| RecipeRoutes.TitleCountsDiffer | routes/recipes.js:105 | Two emoji are too short a title for the create validator but long enough for the schema. |
| RecipeRoutes.Create | routes/recipes.js:104-153 | Invalid input gets 400 and no change. Otherwise the recipe NewRecipe builds is inserted when the schema, with the store's URL parser, accepts it, and a 500 leaves the store unchanged. |
| RecipeRoutes.ApplyForm | routes/recipes.js:179-198 | The field-by-field assignments of the update handler compute MergeUpdate. |
| RecipeRoutes.MergeUpdate | routes/recipes.js:179-198 | The update merge. It is stated by ApplyForm, MergeEmptyIsIdentity, MergePreserves and MergeIdempotent. |
| RecipeRoutes.Update | routes/recipes.js:155-212 | 404 for an unknown id and 403 unless the caller is the author or an admin, each with no change. Otherwise the merged recipe is saved, or 500 with no change. |
| RecipeRoutes.MergeEmptyIsIdentity | routes/recipes.js:179-198 | An update that provides nothing changes nothing. |
| RecipeRoutes.MergePreserves | routes/recipes.js:179-198 | The update keeps the author, ratings, likes and createdAt. Images and attachments are only appended, an empty link list clears the links, and an empty title keeps the old one. |
| RecipeRoutes.MergeIdempotent | routes/recipes.js:179-191 | Sending the same update twice without files equals sending it once. |
| RecipeRoutes.Delete | routes/recipes.js:214-236 | 404 for an unknown id and 403 unless the caller is the author or an admin, each with no change. Otherwise exactly that recipe is removed. |
| RecipeRoutes.Rate | routes/recipes.js:251-295 | A missing rating, 0, or one outside 1..5 gets 400 with no change. An unknown recipe gets 404. Otherwise the ratings become UpsertRating's result. |
| RecipeRoutes.UpsertRating | routes/recipes.js:265-277 | The rating upsert. It is stated by UpsertRatingOnePerUser and UpsertRatingKeepsValid. |
| RecipeRoutes.ApplyRating | routes/recipes.js:265-277 | The in-place edit of the ratings array computes UpsertRating: the caller's entry gets the new value and date, or a new entry is pushed. |
| RecipeRoutes.UpsertRatingOnePerUser | routes/recipes.js:265-277 | The caller ends with exactly one rating holding the new value. Others' entries are untouched, and no user gets two. |
| RecipeRoutes.UpsertRatingKeepsValid | routes/recipes.js:255-277 | An accepted rating keeps every rating within 1..5. |
| RecipeRoutes.Like | routes/recipes.js:297-330 | An unknown recipe gets 404 and an existing like gets 400. Otherwise the caller's id is appended. |
| RecipeRoutes.AddLike | routes/recipes.js:305-313 | The like step. It is stated by LikeKeepsDistinct and LikeThenUnlike. |
| RecipeRoutes.LikeKeepsDistinct | routes/recipes.js:305-313 | A like is refused if and only if the caller already likes the recipe. Otherwise it adds exactly one id and no duplicate. |
| RecipeRoutes.Unlike | routes/recipes.js:332-365 | An unknown recipe gets 404 and a missing like gets 400. Otherwise the caller's first occurrence is removed. |
| RecipeRoutes.RemoveLike | routes/recipes.js:340-348 | The unlike step. It is stated by UnlikeRemovesOne and LikeThenUnlike. |
| RecipeRoutes.UnlikeRemovesOne | routes/recipes.js:340-348 | An unlike is refused if and only if the caller is absent. Otherwise the caller's first occurrence is removed, the rest keep their order, and the multiset loses exactly one copy of the caller. |
| RecipeRoutes.LikeThenUnlike | routes/recipes.js:297-348 | A like followed by an unlike restores the likes. |
| Admin.Gate | routes/admin.js:11 | A request passes if and only if the caller is an authenticated admin. Otherwise it gets 401 without a user and 403 with one. |
| Admin.CreateUser | routes/admin.js:48-106 | Refused by the gate with no change. Otherwise the users, the outbox and the reply equal CreateUserStep's outcome. |
| Admin.CreateUserStep | routes/admin.js:48-106 | The admin create outcome. It is stated by CreateUserTokenIffUnverified, CreateUserRejectsDuplicate and CreateUserRejectsUnknownRole. |
| Admin.CreateUserTokenIffUnverified | routes/admin.js:68-89 | The new user holds a token with a 24 h expiry, and is mailed it, exactly when isVerified is absent or the JSON boolean false. The role defaults to user and the flag to false. |
| Admin.CreateUserRejectsDuplicate | routes/admin.js:62-66 | An existing email or trimmed username gets 400 with no change. |
| Admin.CreateUserRejectsUnknownRole | routes/admin.js:52-57 | A role other than user or admin is refused with 400, with no change. |
| Admin.UpdateUser | routes/admin.js:111-143 | Refused by the gate with no change. Otherwise the users and the reply equal UpdateUserStep's outcome. |
| Admin.UpdateUserStep | routes/admin.js:111-143 | The admin user update. It is stated by UpdateUserChangesOnlyNamedFields and UpdateUserEdgeCases. |
| Admin.UpdateUserChangesOnlyNamedFields | routes/admin.js:120-126 | Username, email and role change only when given non-empty, and isVerified whenever defined (true to false allowed). Nothing else changes, and no other user. |
| Admin.UpdateUserEdgeCases | routes/admin.js:115-118 | An unknown id gets 404 with no change, and an empty patch leaves the user as it was. |
| Admin.CascadeAsWritten | routes/admin.js:161 | The recipe deletion as written: the filter names `user`, which is not a recipe path. |
| Admin.CascadeByAuthor | routes/admin.js:160-166 | Exactly the recipes authored by the user are removed, and every other recipe remains. |
| Admin.CascadeAsWrittenMissesAuthor | routes/admin.js:161 | As written, a recipe by the deleted user survives without strictQuery, and with strictQuery another user's recipe is deleted. The corrected cascade does neither. |
| Admin.CascadeAsWrittenExample | routes/admin.js:161 | A concrete two-recipe store on which the written cascade and the corrected one differ. |
| Admin.DeleteUser | routes/admin.js:148-171 | 404 for an unknown id and 400 for the caller's own id, each with nothing deleted. Otherwise the user is removed and the recipes become `CascadeAsWritten`: none with strictQuery, all of them without. |
| Admin.DeleteUserCorrected | routes/admin.js:148-171 | The same replies, with the recipes becoming `CascadeByAuthor`: exactly the deleted user's recipes are removed. |
| Admin.DeleteUserRemovesUserAndRecipes | routes/admin.js:160-166 | After the corrected delete, no user with that id and no recipe by that author remains. |
| Admin.AllowedFieldsDistinct | routes/admin.js:203 | The allowed list names all nine paths, under distinct keys. |
| Admin.SetFieldChangesOnlyItsPath | routes/admin.js:206 | Assigning a path fails exactly on a cast error. Otherwise it sets that path and nothing else. |
| Admin.ApplyFieldsSpec | routes/admin.js:204-208 | The copy loop fails exactly when a defined field fails to cast. Otherwise it copies exactly the defined fields. |
| Admin.ApplyFields | routes/admin.js:203-210 | The copy loop over the allowed fields. It is stated by ApplyFieldsSpec and AdminMergeCopiesDefinedFields. |
| Admin.AdminMergeCopiesDefinedFields | routes/admin.js:203-210 | The admin update copies exactly the defined allowed fields, falsy ones included (a prepTime of 0 is stored and refused by the schema). Nothing outside the nine paths changes. |
| Admin.ZeroPrepTimeStored | routes/admin.js:203-210 | A body `{ prepTime: 0 }` is copied as it is, because only undefined is skipped, and the result fails the schema's minimum of 1. |
| Admin.ApplyFieldsKeepsId | routes/admin.js:203-210 | The copy over the allowed fields never changes the document's id. |
| Admin.MergeAllowed | routes/admin.js:203-208 | The forEach over the allowed fields computes ApplyFields. |
| Admin.UpdateRecipe | routes/admin.js:195-220 | The recipe becomes ApplyFields' result stamped with the time when the schema accepts it (200). Otherwise the answer is 404 or 500 with no change. |
| Admin.DeleteRecipe | routes/admin.js:225-239 | 404 for an unknown id. Otherwise exactly that recipe is removed. |
| Admin.RecentUsers | routes/admin.js:252-255 | The recent users are min(5, n) entries drawn from the users, newest first, and each is at least as new as every user left out. |
| Admin.RecentRecipes | routes/admin.js:258-261 | The recent recipes are min(5, n) entries drawn from the recipes, newest first, and each is at least as new as every recipe left out. |
| Admin.NewestUsers | routes/admin.js:252-255 | For any n up to the count, the first n users sorted by `createdAt: -1` are drawn from the users, in order, and none is older than a user left out. |
| Admin.NewestRecipes | routes/admin.js:258-261 | For any n up to the count, the first n recipes sorted by `createdAt: -1` are drawn from the recipes, in order, and none is older than a recipe left out. |
| Admin.StatsUnverifiedCount | routes/admin.js:246-270 | unverifiedUsers = totalUsers - verifiedUsers counts exactly the unverified users and is never negative. |
| Admin.GetStats | routes/admin.js:244-278 | The recent users in the reply are the recent users with their passwords removed, entry by entry and in the same order. |
| Admin.PublicUsers | routes/admin.js:253 | `.select('-password')` keeps every user, in order, each as its record without the password. |
| Admin.StatsIgnorePasswords | routes/admin.js:244-278 | Two user lists that agree on everything but passwords give the same stats reply. |
| Admin.CountsIgnorePasswords | routes/admin.js:247-249 | The verified and admin counts agree for two user lists that differ only in passwords. |
| Admin.RecentUsersIgnorePasswords | routes/admin.js:251-255 | The recent users, once the passwords are removed, agree for two user lists that differ only in passwords. |
| Admin.StatsIgnoreOnePassword | routes/admin.js:244-278 | Changing one user's password leaves the stats reply unchanged. |
| UserModel.WithoutPassword | routes/admin.js:253 | The public record drops the password and keeps every other field. |
| UserModel.WithoutPasswordForgetsOnlyPassword | routes/admin.js:253 | Two users have the same public record exactly when they differ at most in the password. |
| CommentModel.NewComment | models/Comment.js:3-28 | The stored text is its own trim, no longer than the input, and empty exactly for blank input. The save that `create` runs at the same instant stores the comment as built, or nothing. |
| CommentModel.SaveCommentTouchesOnlyUpdatedAt | models/Comment.js:14-35 | A save succeeds exactly when the text has 1..1000 UTF-16 code units, and it only refreshes updatedAt. |
| CommentRoutes.AcceptedTextIsValid | routes/comments.js:29 | Text the validator accepts is stored trimmed, and passes the schema if and only if the trimmed text has at most 1000 UTF-16 code units. |
| CommentRoutes.TextAccepted | routes/comments.js:29 | The text validator, counting as validator.js counts. It is stated by AcceptedTextIsValid and RejectedTextIsBlankOrLong. |
| CommentRoutes.StoredText | routes/comments.js:84 | The text stored after the sanitiser and the schema's setter is the input's trim. |
| CommentRoutes.AcceptedBasicTextIsValid | routes/comments.js:29 | Without astral code points and presentation selectors, accepted text always passes the schema. |
| CommentRoutes.AstralTextAcceptedButInvalid | routes/comments.js:29-49 | 600 emoji pass the validator but fail the schema, so the create answers 500. |
| CommentRoutes.SelectorOnlyTextRefused | routes/comments.js:29 | A lone U+FE0F is not blank, yet the validator refuses it. |
| CommentRoutes.RejectedTextIsBlankOrLong | routes/comments.js:29 | Text the validator refuses is, once trimmed, empty or nothing but presentation selectors, or more than 1000 code points that are not presentation selectors. |
| CommentRoutes.Create | routes/comments.js:27-59 | 400 for a missing recipe id or bad text and 404 for an unknown recipe, each with no change. Otherwise one comment by the caller, with the trimmed text, is added when the schema accepts it, and a 500 leaves the store unchanged. |
| CommentRoutes.EditRightsWithinDeleteRights | routes/comments.js:80-82 | Whoever may edit may delete. An admin may delete, but not edit, another's comment, and for non-admins the two rights coincide. |
| CommentRoutes.MayEdit | routes/comments.js:80 | Only the author may edit. It is stated by EditRightsWithinDeleteRights. |
| CommentRoutes.MayDelete | routes/comments.js:112 | The author or an admin may delete. It is stated by EditRightsWithinDeleteRights. |
| CommentRoutes.Update | routes/comments.js:64-98 | 400 for bad text, 404 for an unknown comment and 403 for anyone but the author, each with no change. Otherwise only the text and updatedAt change when the schema accepts the text, and a 500 leaves the store unchanged. |
| CommentRoutes.EditChangesOnlyText | routes/comments.js:84-85 | An accepted edit saves if and only if the trimmed text fits the schema, and then changes only the text and updatedAt. |
| CommentRoutes.Delete | routes/comments.js:103-126 | 404 for an unknown comment and 403 unless the caller is the author or an admin, each with no change. Otherwise exactly that comment is removed. |
| CommentRoutes.CommentsFor | routes/comments.js:13-15 | The listing holds exactly the recipe's comments, newest first. |
| Upload.ExtNameShape | middleware/upload.js:25 | `path.extname` is empty or a dot followed by characters that are neither dots nor slashes. |
| Upload.ExtNameOfPrefixed | middleware/upload.js:18 | A dot-free, slash-free name followed by an extension has that extension. |
| Upload.ExtName | middleware/upload.js:25 | `path.extname`. It is stated by ExtNameShape and ExtNameOfPrefixed. |
| Upload.ImageAccepted | middleware/upload.js:23-33 | The image filter. It is stated by NameWithoutExtensionRefused, UpperCaseMimetypeRefused, ExtensionCaseIgnored and ExtensionSuffixIgnored. |
| Upload.AttachmentAccepted | middleware/upload.js:36-45 | The attachment filter. It is stated by NameWithoutExtensionRefused, ExtensionCaseIgnored and ExtensionSuffixIgnored. |
| Upload.NameWithoutExtensionRefused | middleware/upload.js:23-45 | A name with no extension is refused by both filters. |
| Upload.UpperCaseMimetypeRefused | middleware/upload.js:26 | The mimetype is not lower-cased, so one with no lower-case letters is refused as an image. |
| Upload.ExtensionCaseIgnored | middleware/upload.js:23-45 | The extension is lower-cased, so the filters decide the same for `.JPG` and `.jpg`. |
| Upload.ExtensionSuffixIgnored | middleware/upload.js:24-44 | The patterns are unanchored: an accepted extension stays accepted with characters appended. |
| Upload.StoredNameKeepsExtension | middleware/upload.js:16-19 | The stored file name keeps the client file's extension. |
| Upload.StoredName | middleware/upload.js:16-19 | The stored file name. It is stated by StoredNameKeepsExtension. |
| Upload.UploadImagesBounds | middleware/upload.js:48-52 | uploadImages admits at most five files, each an accepted image of at most 5 MB. |
| Upload.UploadAttachmentsBounds | middleware/upload.js:55-59 | uploadAttachments admits at most three files, each an accepted attachment of at most 10 MB. |
| Upload.UploadFilesChecksNoType | middleware/upload.js:62-68 | uploadFiles caps images at five and attachments at three, each of at most 10 MB. It admits an images file of any type. |
| Upload.Admitted | middleware/upload.js:48-68 | What multer lets through. It is stated by UploadImagesBounds, UploadAttachmentsBounds and UploadFilesChecksNoType. |
| Pagination.WindowItems | client/src/pages/SearchRecipes.js:195-210 | A page is an item if and only if it is 1, the last page or within one of the current page, and it is active exactly when it is the current page. |
| Pagination.WindowFrom | client/src/pages/SearchRecipes.js:195-214 | The bar's entries from a given page on are in page order, within range, and hold every page that has a slot. |
| Pagination.Window | client/src/pages/SearchRecipes.js:195-214 | The bar's entries. They are stated by WindowItems, WindowEllipses, ExactlyOneActive and WindowAtMostSeven. |
| Pagination.WindowEllipses | client/src/pages/SearchRecipes.js:211-214 | A page is an ellipsis if and only if it is two away from the current page and not an item. Every other page is omitted. |
| Pagination.ExactlyOneActive | client/src/pages/SearchRecipes.js:205 | Exactly the current page's item is active. |
| Pagination.WindowAtMostSeven | client/src/pages/BrowseRecipes.js:115-135 | The bar never holds more than seven entries. |
| Pagination.StepsStayInRange | client/src/pages/SearchRecipes.js:186-224 | Prev and Next keep the page in [1, totalPages]. First/Prev are disabled exactly at page 1 and Next/Last exactly at the last page. |
| Pagination.PrevPage | client/src/pages/SearchRecipes.js:191 | One page back, never below 1. It is stated by StepsStayInRange. |
| Pagination.NextPage | client/src/pages/SearchRecipes.js:218 | One page on, never past totalPages. It is stated by StepsStayInRange and NextClampsStalePage. |
| Pagination.NextClampsStalePage | client/src/pages/BrowseRecipes.js:137-140 | From a stale page beyond the end, Next goes to the last page. |
| RecipeQuery.Lookup | client/src/pages/SearchRecipes.js:26-35 | A query-string lookup is None exactly when no parameter has the name, and otherwise returns a value sent under that name. |
| RecipeQuery.LookupAppend | client/src/pages/SearchRecipes.js:31-33 | A lookup in appended parameters finds the first list's value before the second's. |
| RecipeQuery.BaseParamsRead | routes/recipes.js:45 | The page and limit the client writes are the page and limit the route reads. |
| SearchRecipes.SearchQueryRead | client/src/pages/SearchRecipes.js:26-33 | The route reads back the page, limit 12, the search text, and the category and difficulty unless left on 'All'. |
| SearchRecipes.SearchSelects | client/src/pages/SearchRecipes.js:26-35 | The search page's listing selects a recipe exactly when it matches the text and the chosen filters. |
| SearchRecipes.SearchPage.EffectRequests | client/src/pages/SearchRecipes.js:43-49 | The effect fetches nothing before a search is submitted. Otherwise it fetches the current query or nothing. |
| SearchRecipes.SearchPage.TypeSearch | client/src/pages/SearchRecipes.js:76 | Typing sets the text. Before a submitted search it fetches nothing; afterwards it refetches. |
| SearchRecipes.SearchPage.SelectCategory | client/src/pages/SearchRecipes.js:87-90 | Choosing a category resets the page to 1. |
| SearchRecipes.SearchPage.SelectDifficulty | client/src/pages/SearchRecipes.js:100-103 | Choosing a difficulty resets the page to 1. |
| SearchRecipes.SearchPage.Submit | client/src/pages/SearchRecipes.js:51-56 | Submit resets the page to 1 and marks the search submitted. It fetches with the old page, then the effect fetches page 1. |
| SearchRecipes.SearchPage.Prev | client/src/pages/SearchRecipes.js:190-193 | Prev steps back, clamped at 1, and is a no-op on page 1. |
| SearchRecipes.SearchPage.Next | client/src/pages/SearchRecipes.js:217-220 | Next steps on, clamped at totalPages, and is a no-op on the last page. |
| SearchRecipes.SearchPage.First | client/src/pages/SearchRecipes.js:186-189 | First goes to page 1. |
| SearchRecipes.SearchPage.Last | client/src/pages/SearchRecipes.js:221-224 | Last goes to the last page. |
| SearchRecipes.SearchPage.SelectPage | client/src/pages/SearchRecipes.js:203-206 | A clicked item's page is within [1, totalPages] and becomes current. |
| SearchRecipes.SearchPage.constructor | client/src/pages/SearchRecipes.js:9-14 | The page starts empty on 'All'/'All', page 1, with no bar. |
| BrowseRecipes.BrowseQueryRead | client/src/pages/BrowseRecipes.js:19-22 | The route reads back the page and limit 12, with no search or filter. |
| BrowseRecipes.BrowseSelectsAll | client/src/pages/BrowseRecipes.js:16-32 | Every recipe is eligible for the browse listing. |
| BrowseRecipes.BrowsePage.EffectRequests | client/src/pages/BrowseRecipes.js:32-36 | The effect refetches if and only if the page changed. The one request it sends is read by the server as the unfiltered listing of the current page, 12 per page. |
| BrowseRecipes.BrowsePage.Mount | client/src/pages/BrowseRecipes.js:34-36 | On mount one request is sent, which the server reads as the unfiltered listing of the current page, 12 per page. |
| BrowseRecipes.BrowsePage.Prev | client/src/pages/BrowseRecipes.js:110-113 | Prev steps back, clamped at 1, and on page 1 changes and fetches nothing. |
| BrowseRecipes.BrowsePage.Next | client/src/pages/BrowseRecipes.js:137-140 | Next steps on, clamped at totalPages, and on the last page changes and fetches nothing. |
| BrowseRecipes.BrowsePage.First | client/src/pages/BrowseRecipes.js:106-109 | First goes to page 1. |
| BrowseRecipes.BrowsePage.Last | client/src/pages/BrowseRecipes.js:141-144 | Last goes to the last page. |
| BrowseRecipes.BrowsePage.SelectPage | client/src/pages/BrowseRecipes.js:123-127 | A clicked item's page becomes current. Clicking the active item fetches nothing. |
| CreateRecipe.ChangeEntry | client/src/pages/CreateRecipe.js:39-43 | Editing row i replaces only row i, and the length is unchanged. |
| CreateRecipe.AddEntry | client/src/pages/CreateRecipe.js:45-50 | Add appends exactly one blank row after the others. |
| CreateRecipe.AddThenRemove | client/src/pages/CreateRecipe.js:45-55 | Adding a row and removing it restores the list. |
| CreateRecipe.RemoveEntry | client/src/pages/CreateRecipe.js:52-55 | Removing a row. It is stated by AddThenRemove and EditsKeepARow. |
| CreateRecipe.EditsKeepARow | client/src/pages/CreateRecipe.js:278-287 | No sequence of edits empties a list, since remove buttons (here the ingredient one; the instruction and link ones are alike) show only when there is more than one row. |
| CreateRecipe.SomeBlankIff | client/src/pages/CreateRecipe.js:102 | The `some` check holds if and only if some row is blank after trimming. |
| CreateRecipe.SubmitRefusesBlankRows | client/src/pages/CreateRecipe.js:102-110 | Once the browser's own validation has passed, `handleSubmit` sends the form if and only if no ingredient and no instruction is blank after trimming. A blank ingredient is reported first. |
| CreateRecipe.Submit | client/src/pages/CreateRecipe.js:98-148 | The submit handler. It is stated by SubmitRefusesBlankRows and SentRowsNonEmpty. |
| CreateRecipe.CreateBody | client/src/pages/CreateRecipe.js:115-142 | The multipart body. It is stated by SentRowsNonEmpty and SentRecipeIsValid. |
| CreateRecipe.InitialFormRefused | client/src/pages/CreateRecipe.js:10-23 | The initial form cannot be sent, and its preselected category and difficulty are valid. |
| CreateRecipe.ValidUrlsSpec | client/src/pages/CreateRecipe.js:139 | The kept links are exactly the filled rows, and none are kept if and only if all rows are blank. Stored trimmed, none is empty. |
| CreateRecipe.ValidUrls | client/src/pages/CreateRecipe.js:139 | The kept links. They are stated by ValidUrlsSpec. |
| CreateRecipe.SentRowsNonEmpty | client/src/pages/CreateRecipe.js:115-142 | What is sent has no empty ingredient or instruction. The links are omitted exactly when every row is blank. |
| CreateRecipe.SentRecipeIsValid | client/src/pages/CreateRecipe.js:98-148 | A sent body that passes the route's validators, with select values, makes a recipe the schema accepts if and only if the URL validator accepts every kept link, as trimmed. |
| EditRecipe.Load | client/src/pages/EditRecipe.js:35-50 | Loading shows every field of the recipe, and each number shown casts back to the stored number on the server. The link rows are replaced only when the recipe has links. |
| EditRecipe.RemoveUrl | client/src/pages/EditRecipe.js:125-129 | Removing a link never empties the list. Removing the last one leaves one blank row. |
| EditRecipe.EditBody | client/src/pages/EditRecipe.js:147-169 | The update body is the create body, except that the filled links are always sent. |
| EditRecipe.Submit | client/src/pages/EditRecipe.js:134-142 | The edit form's `handleSubmit` refuses exactly what the create form's `handleSubmit` refuses, with the same messages. |
| EditRecipe.BlankLinksClearStoredLinks | client/src/pages/EditRecipe.js:168-169 | Blanking every link and saving clears the stored links, where the upload form omits them. |
| EditRecipe.LoadedLinksRoundTrip | client/src/pages/EditRecipe.js:47-50 | Loaded trimmed links are stored back unchanged. |
| EditRecipe.UntouchedEditIsIdentity | client/src/pages/EditRecipe.js:30-175 | Opening a recipe and saving it untouched gives back the same recipe, for stored values the form can reproduce. |
| EditRecipe.MergeOfCopy | client/src/pages/EditRecipe.js:35-50 | A body that repeats every stored field, numbers written as text, merges back to the stored recipe. |
| EditRecipe.MergeOfCastCopy | client/src/pages/EditRecipe.js:35-50 | The same, for any number texts that cast to the stored numbers. |
| AdminRoute.GuardAgreesWithServer | client/src/components/AdminRoute.js:5-13 | The guard renders the dashboard exactly for an admin, and for the same user it agrees with the server's admin gate: it renders exactly when the admin routes answer, sends to /login where the server answers 401, and sends home where the server answers 403. |

## Left out

- Network, database and file-system I/O are left out: Mongo queries, `populate`, multer's disk storage and `fs.mkdirSync`. The store is a set of in-memory sequences, and a document's ObjectId is a natural number drawn from a counter.
- Emails are recorded in an outbox, not sent.
- The clock (`Date.now()`), `crypto.randomBytes` and `Math.random` are parameters.
- JWT signing and verification are a `Session` value carrying the subject and the expiry.
- bcrypt's `comparePassword` is equality with the stored secret.
- models/User.js and middleware/auth.js are not part of this model. The user record's shape is taken from the routes. The unique indexes on email and username are assumed. `protect` and `admin` deliver an `Option<Caller>`. The schema's `role` enum is not modelled either; see the `Admin.UpdateUserStep` line below.
- Auth.IsEmail: a simplified form of express-validator's `isEmail`, which is a foreign library.
- RecipeRoutes.ListRecipes: the case-insensitive `$regex` search is an abstract `matches` predicate, because user-supplied patterns are not given regex semantics.
- RecipeModel.AverageTenths: the exact mean rounded half up to one decimal. `toFixed`'s binary floating-point rounding, and the featured comparator's coercion of that string back to a number, are not modelled.
- RecipeRoutes.CastNumber: only integer literals are modelled. Mongoose's Number cast also accepts decimal and exponent strings (`"2.5"`, `"1e1"`), hexadecimal, binary and octal literals (`"0x10"` is 16) and `"Infinity"`. Each of these is a cast error here.
- RecipeModel.ReferenceUrlAccepted: the WHATWG URL parser is a foreign library. It is the parameter `parses`, which the store holds as a constant, so only the blank-string case is proved outright.
- The `GET` routes that only read one document (`/api/recipes/:id`, `/api/recipes/user/:userId`, `/api/admin/users`, `/api/admin/users/:id`, `/api/admin/recipes`) are left out. So are `GET /api/auth/me`, the AI assistant and the rendering-only client pages.
- The client pages' loading flags, toasts, navigation, file pickers and rendered markup are left out. The React effects are modelled as the requests each handler causes.
- Concurrency is left out. Verification is a read-then-save, and the model is sequential.
- Admin.CascadeAsWritten: which branch applies depends on the Mongoose version's `strictQuery` default, which is not part of the source. Both branches are modelled.
- RecipeRoutes.Rate: the rating arrives as an integer or as absent. A fractional JSON number such as 3.5 passes the route's range check and would be stored as it is. A numeric string would be cast by Mongoose. A non-numeric string passes the check, because comparisons with NaN are false, and then fails the cast with a 500. None of these are modelled, because ratings are integers throughout the model.
- RecipeRoutes.Create: the body's list fields arrive already parsed. A malformed JSON string in `ingredients`, `instructions` or `referenceUrls` makes `JSON.parse` throw, and the route answers 500. That path is not modelled.
- RecipeRoutes.Update: the same malformed-JSON path is not modelled.
- Admin.Cast: a body value is a string, an integer or an array of strings. Other JSON values are not modelled. A `null` field such as `{title: null}` passes the `!== undefined` test (routes/admin.js:205) and fails a `required` path on save, so the route answers 500. A fractional number such as `{prepTime: 1.5}` is stored as it is. A boolean or an object is cast or refused by Mongoose, path by path.
- Admin.UpdateUserStep: stores any non-empty `role`. The `role` enum of models/User.js is not part of this model, so the 500 that a role outside it would cause on save is not modelled. A defined `isVerified` is a JSON boolean. A string would be cast by Mongoose on save (routes/admin.js:124-126): `"false"` is stored as false, and `"abc"` fails the save with 500. Neither case is modelled.
- Admin.CreateUserStep: `isVerified` is an optional JSON boolean. The source tests the raw value with `!isVerified` (routes/admin.js:69) and stores `isVerified || false` through Mongoose's Boolean cast (routes/admin.js:80). A string such as `"false"`, `"0"` or `"no"` is truthy, so no token is made and no mail is sent, yet the cast stores `false`. The result is an unverified user without a token, who gets 403 at login until they ask for a resend. A string outside the cast's tables, such as `"abc"`, fails the save, so the route answers 500 and no user is created. None of this is modelled. `Admin.CreateUserTokenIffUnverified` is proved for JSON booleans only.
- Admin.CreateUserTokenIffUnverified: covers JSON booleans only. For the strings that Mongoose casts to false, the source stores an unverified user without a token; see the `Admin.CreateUserStep` line.
- RecipeRoutes.Featured: the limit is an integer. The source reads it from the query string and slices with `limit * 1` (routes/recipes.js:10, 30). So `?limit=abc` gives an empty list (`slice(0, NaN)`), `?limit=2.5` gives 2 entries, and `?limit=` or `?limit=%20` gives none. No member reads the featured limit from the query string.
- RecipeQuery.NumberParam: a present `page` or `limit` is read as an integer literal. Any other text is None and is not modelled further. The source's arithmetic on it (`limit * 1`, `(page - 1) * limit`) gives NaN for text such as `"abc"` and truncates `"2.5"`. A parameter repeated in the query string reaches Express as an array; `Lookup` takes the first value instead.
- The browser's own form validation is not modelled. CreateRecipe.js and EditRecipe.js have no `noValidate`, so the browser checks `required`, `minLength`, `min` and `type="url"` before `handleSubmit` runs. A form that fails those checks, such as a 2-character title or an empty row, is never handed to `handleSubmit`. The client members state what `handleSubmit` does with the form it is given.
- Common.ToLower: folds ASCII letters only. JavaScript's `toLowerCase` folds every Unicode letter. It is used by the upload filter's extension test, so an extension whose non-ASCII letters would lower-case into one of the listed extensions is refused by the model.
- Common.ValidatorLength: strings are sequences of Unicode scalar values, so a lone surrogate, which JavaScript strings can hold, cannot be expressed.

## Findings

| source | as written | input that shows it | evidently intended | confidence | as-written member | corrected member |
|---|---|---|---|---|---|---|
| routes/admin.js:161 | The cascade filters recipes on a `user` path, but recipes store their owner in `author` (models/Recipe.js:79-83). | Recipe A by user 1 and recipe B by user 2; delete user 1. Without strictQuery both remain. With strictQuery the filter is stripped to `{}`, so both are deleted. | Delete exactly the recipes authored by the deleted user, as the reply "User and their recipes deleted successfully" says. | not executed | Admin.DeleteUser, Admin.CascadeAsWrittenMissesAuthor, Admin.CascadeAsWrittenExample | Admin.CascadeByAuthor, Admin.DeleteUserCorrected |
