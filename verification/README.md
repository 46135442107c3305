# Decision rules of a multi-vendor storefront, in Dafny

This project models the deterministic decision rules of a TypeScript
e-commerce application (an Express/Mongoose REST server and a React client)
and proves properties about them. Every handler becomes a pure function that
takes the store and the request and returns the reply with the new store.
Storage, hashing, token signing and verification, the clock, `Math.random`,
image upload and mail delivery are inputs.

The modules follow the source files:

- `CategoryModel` (`category.dfy`) covers the category slug pre-save hook and the post-save cascade over children. Acyclic parent links are a precondition, witnessed by a height map.
- `BusinessController` (`business.dfy`) covers creating, reading, updating and soft-deleting a seller account, and the admin status change.
- `Dashboard` (`dashboard.dfy`) covers the four seller dashboard aggregations. They are folds over the orders unwound into (order, line item) rows.
- `PublicProfile` (`publicprofile.dfy`) covers the public storefront and its pagination.
- `Auth` (`auth.dfy`) covers registration, login, logout, the OTP mail throttle, OTP verification and the password reset.
- `AuthMiddleware` (`middleware.dfy`) covers access-token extraction and the outcome of `verifyJWT`.
- `UserProfile` (`profile.dfy`) covers `fetchUser` and the profile-update whitelist.
- `Cloudinary` (`cloudinary.dfy`) covers the public-id extractor. Its regular expression is written out as the backtracking search a JavaScript engine performs.
- `Inventory` (`inventory.dfy`) covers the stock bounds and the `sellable` virtual.
- `AuthSlice` (`authslice.dfy`) covers the client session reducer.
- `Carousel` (`carousel.dfy`) covers the banner index wrap-around with JavaScript's truncating `%`, paging, swipes, preload and indicators.
- `CategoryBar` (`categorybar.dfy`) covers the category link slugs and the "More" dropdown state.
- `Signup` (`signup.dfy`) covers the sign-up form schema, the submitted payload and the session the page stores afterwards.
- `Users`, `Shop`, `Http`, `Js`, `Collections` and `Wrappers` hold the documents, the replies, and JavaScript and MongoDB semantics (truthiness, truncating remainder, `trim`, `replace`, `split`, `findOne`, `$sort`, `$limit`).

Collections are sequences whose positions are document ids. A query's natural
order is the sequence order, so `findOne` is the first match. A request field
is `Option<string>`, and it is truthy exactly when it is present and non-empty.

Where the code departs from its own comments and schemas, the model follows the code:

- The comment at `server/src/models/category.model.ts:61-65` promises that renaming a category updates every descendant's slug. The pre-save guard at line 44 skips each re-saved child, because a freshly loaded child has no modified path, so the rename stops at the direct category (see Findings).
- The revenue pipeline at `server/src/controllers/business.controller.ts:275` reads `items.price` and a top-level `paymentStatus`. The order schema stores neither: it has `priceAtPurchase` (`server/src/models/order.model.ts:30`) and `paymentInfo.status` (line 37). So for orders written through the schema, revenue is always 0. The pipeline also counts `orderStatus` "pending" (business.controller.ts:277), a value the schema's enum (order.model.ts:46-50) lacks, so the pending count is always 0 too (`Dashboard.SchemaOrdersShowNoRevenueNorPending`).
- The summary fields `pendingOrders` and `deliveredOrders` (business.controller.ts:277-278) count line items, not orders, and `totalSold` (line 288) counts line items, not units.
- The business schema (`server/src/models/business.model.ts:4-38`) declares no `isDeleted` path, yet the handlers write it (business.controller.ts:216) and read it (lines 76, 153, 187, 259, 368, 415). Under Mongoose's default strict mode that write is dropped and the read gives `undefined`, so in the deployed program no business is ever soft-deleted. The model keeps `isDeleted` as a stored flag, the schema the handlers were written for. "## Left out" names every member this affects.

## Model

| member | source | states |
|---|---|---|
| CategoryModel.PreSave | server/src/models/category.model.ts:42-59 | the hook keeps name and parent; when name or parent was modified the slug follows the slug rule, otherwise the document is saved exactly as it is |
| CategoryModel.PreSaveCases | server/src/models/category.model.ts:44-57 | no parent gives slugify(name); a found parent gives parent.slug + "/" + slugify(name); a parent id that resolves to nothing falls back to slugify(name) |
| CategoryModel.ChildrenFrom | server/src/models/category.model.ts:67 | the children found from a position are exactly the store's children there, with their documents, in increasing id order |
| CategoryModel.Children | server/src/models/category.model.ts:67 | `find({ parentCategory })` returns exactly the direct children, in natural order |
| CategoryModel.Save | server/src/models/category.model.ts:42-73 | the cascade terminates on acyclic links, and saving changes only the saved category, because each re-saved child has no modified path |
| CategoryModel.SaveChildren | server/src/models/category.model.ts:66-73 | the post-save loop over the loaded children leaves the store as it was |
| CategoryModel.SaveLeavesOthersAlone | server/src/models/category.model.ts:44 | every category other than the saved one, descendants included, keeps its document |
| CategoryModel.RenameDoesNotReachChild | server/src/models/category.model.ts:61-72 | renaming "Electronics" to "Tech" leaves the child at "electronics/laptops", which no longer follows the slug rule |
| CategoryModel.SaveBreaksConsistency | server/src/models/category.model.ts:61-72 | a store where every slug follows the rule becomes inconsistent after that rename |
| CategoryModel.SaveRecomputing | server/src/models/category.model.ts:66-73 | the cascade with each child marked modified keeps every name and parent link |
| CategoryModel.SavedRootFollowsRule | server/src/models/category.model.ts:44-57 | with recomputation, the saved category's own slug follows the rule in the store the cascade leaves behind |
| CategoryModel.ResaveRecomputingFixesSubtrees | server/src/models/category.model.ts:66-73 | re-saving the loaded children with recomputation changes only their subtrees, and every category in those subtrees ends up following the slug rule |
| CategoryModel.ResaveRecomputing | server/src/models/category.model.ts:69-72 | re-saving children with recomputation keeps every name and parent link |
| CategoryModel.SaveRecomputingFixesSubtree | server/src/models/category.model.ts:61-73 | the recomputing cascade rewrites only the saved category's subtree, and every category in it ends up following the slug rule |
| CategoryModel.SaveRecomputingKeepsConsistency | server/src/models/category.model.ts:61-65 | with recomputation, a consistent tree stays consistent after a rename or re-parent |
| CategoryModel.RenameReachesChildWhenRecomputing | server/src/models/category.model.ts:61-65 | with recomputation the example comes out as the comment promises: "tech" and "tech/laptops" |
| BusinessController.ToSeller | server/src/controllers/business.controller.ts:50 | the owner's role becomes seller and nothing else about the user changes |
| BusinessController.ToShopper | server/src/controllers/business.controller.ts:226 | the owner's role becomes user and nothing else about the user changes |
| BusinessController.CreateBusiness | server/src/controllers/business.controller.ts:14-65 | 201 exactly when the three required fields are truthy, no business (deleted or not) has the caller as owner or holds the tax id, and the trimmed name is non-empty; on success a business under review is appended and the owner becomes a seller; every refusal leaves the store unchanged |
| BusinessController.CreateConflictMessage | server/src/controllers/business.controller.ts:32-36 | the first blocking business gives 400, with "Tax ID already registered." exactly when it holds the requested tax id |
| BusinessController.CreateKeepsOwnersAndTaxIdsUnique | server/src/controllers/business.controller.ts:27-37 | if no owner holds two businesses and no tax id is held twice, creating preserves that |
| BusinessController.DeletedOwnerCannotCreate | server/src/controllers/business.controller.ts:28-37 | an owner whose business was soft-deleted can never create another |
| BusinessController.GetBusiness | server/src/controllers/business.controller.ts:147-173 | 200 with the caller's first business (the one `findOne` returns) unless there is none or it is soft-deleted, which is 404 even when a later business of the caller is live |
| BusinessController.TaxIdTaken | server/src/controllers/business.controller.ts:88-89 | the conflict lookup finds something exactly when some business holds the tax id |
| BusinessController.SameOwnersSameLive | server/src/controllers/business.controller.ts:75-78 | the live-business lookup depends only on owners and deletion flags, so an update that keeps them keeps every caller's business |
| BusinessController.ApplyUpdate | server/src/controllers/business.controller.ts:96-129 | only the caller's business changes; truthy fields overwrite, and address and bank parts that are not supplied keep their values |
| BusinessController.UpdateBusiness | server/src/controllers/business.controller.ts:72-140 | 404 exactly for a missing or soft-deleted business; 400 exactly when a new, different tax id is already registered; a blank name fails validation with 500; refusals change nothing; success applies the update |
| BusinessController.UpdateIdempotent | server/src/controllers/business.controller.ts:124-129 | sending the same update twice leaves the store as sending it once |
| BusinessController.UpdatedIdempotent | server/src/controllers/business.controller.ts:96-122 | applying the same request to an already updated business changes nothing |
| BusinessController.EmptyUpdateChangesNothing | server/src/controllers/business.controller.ts:96-129 | a request with no field leaves the store as it was, whatever the reply |
| BusinessController.TrimIdempotent | server/src/models/business.model.ts:6 | the `trim` setter is idempotent, so a stored name is already in trimmed form |
| BusinessController.Withdraw | server/src/controllers/business.controller.ts:219-223 | every product of the seller becomes unpublished and deleted, and every other product is untouched |
| BusinessController.Retire | server/src/controllers/business.controller.ts:214-229 | the business is marked deleted, its products withdrawn and its owner demoted to user, while orders and reviews are untouched |
| BusinessController.DeleteBusiness | server/src/controllers/business.controller.ts:180-249 | 404 exactly for a missing or already deleted business; 400 exactly when an order with the seller's item is processing or shipped; refusals leave the store unchanged; success is the one atomic retirement |
| BusinessController.DeleteTwice | server/src/controllers/business.controller.ts:186-194 | after a successful delete, a second delete is a 404 that changes nothing |
| BusinessController.DeleteUnpublishesEverything | server/src/controllers/business.controller.ts:219-223 | after a successful delete no product of the seller is published, and each is marked deleted |
| BusinessController.ParseStatus | server/src/controllers/business.controller.ts:405-407 | only "active", "suspended" and "under_review" are accepted, each to its own status |
| BusinessController.ToggleBusinessStatus | server/src/controllers/business.controller.ts:400-427 | 400 exactly for a status outside the whitelist; an existing business gets the status written even when it is soft-deleted and answered 404 |
| BusinessController.NotFoundYetChanged | server/src/controllers/business.controller.ts:409-417 | a soft-deleted business is reported 404 with its status changed all the same |
| BusinessController.ToggleBusinessStatusChecked | server/src/controllers/business.controller.ts:415-417 | a corrected status change: every non-200 reply leaves the store unchanged |
| BusinessController.CheckedAgreesExceptOnDeleted | server/src/controllers/business.controller.ts:409-417 | the corrected and original handlers give the same reply, and the same store except on a soft-deleted business |
| Shop.FindOwned | server/src/controllers/business.controller.ts:75 | `findOne({ owner })` is the first business of the owner, deleted or not |
| Shop.LiveBusiness | server/src/controllers/business.controller.ts:75-78 | the owner's first business unless it is soft-deleted |
| Collections.FindById | server/src/middlewares/auth.middleware.ts:18 | `findById` finds a document exactly for an id that is present, and then the document stored under it |
| Collections.FirstWhere | server/src/controllers/business.controller.ts:75 | `findOne`: the first matching position, none earlier matches, and none exactly when nothing matches |
| Collections.Distinct | server/src/controllers/business.controller.ts:276 | `$addToSet`: no value twice, the same values as the input, never longer |
| Collections.Take | server/src/controllers/business.controller.ts:290 | `$limit: n`: a prefix of length min(n, size) |
| Collections.SortDescending | server/src/controllers/business.controller.ts:289 | `$sort` descending: a non-increasing permutation of the input |
| Collections.TopAreMaximal | server/src/controllers/business.controller.ts:289-290 | after a descending sort, an element cut off by the limit ranks no higher than any element kept |
| Dashboard.OrderRows | server/src/controllers/business.controller.ts:270 | one row per line item of an order, in array order |
| Dashboard.Unwind | server/src/controllers/business.controller.ts:270 | `$unwind` yields rows only from real line items, and yields every line item of every order |
| Dashboard.SalesSummary | server/src/controllers/business.controller.ts:269-282 | pending plus delivered and the distinct-order count are bounded by the matched rows, and no match gives the all-zero fallback |
| Dashboard.StatusesDisjoint | server/src/controllers/business.controller.ts:277-278 | a row is never counted as both pending and delivered |
| Dashboard.OrderIdsBound | server/src/controllers/business.controller.ts:276 | `$addToSet` of order ids holds no more ids than rows |
| Dashboard.SummaryOverAllOrders | server/src/controllers/business.controller.ts:269-281 | revenue sums the prices of the seller's items in paid orders only; pending and delivered count line items; totalOrders is the number of orders holding a seller item |
| Dashboard.MatchedOrderIds | server/src/controllers/business.controller.ts:276 | the distinct order ids among the matched rows are exactly the orders holding a seller item |
| Dashboard.MatchedOrdersAreSellers | server/src/controllers/business.controller.ts:270-276 | every order id counted by `$addToSet` belongs to an order holding one of the seller's line items |
| Dashboard.SellerOrdersAreMatched | server/src/controllers/business.controller.ts:270-276 | every order holding one of the seller's line items is counted |
| Dashboard.NoOrdersIffNoItems | server/src/controllers/business.controller.ts:325 | the order count is zero exactly when no order holds a line item of the seller |
| Dashboard.SchemaOrdersShowNoRevenueNorPending | server/src/controllers/business.controller.ts:275-277 | orders written through the schema, with no top-level paymentStatus and never "pending", always show zero revenue and zero pending |
| Dashboard.PendingCountsLineItems | server/src/controllers/business.controller.ts:277 | one pending paid order with two of the seller's items counts 2 pending, 1 order and the sum of both prices |
| Dashboard.GroupBy | server/src/controllers/business.controller.ts:288 | `$group` gives one group per distinct key, each holding exactly the rows with that key, non-empty, scored by its accumulator, and every row's key has a group |
| Dashboard.RowInItsGroup | server/src/controllers/business.controller.ts:288 | every row falls into the group of its own key |
| Dashboard.KeyHasRows | server/src/controllers/business.controller.ts:288 | a key that some row carries selects a non-empty group |
| Dashboard.InGroupBy | server/src/controllers/business.controller.ts:288 | any group of the grouping holds exactly the rows with its key |
| Dashboard.Top | server/src/controllers/business.controller.ts:289-290 | `$sort` then `$limit: 5`: at most five groups, non-increasing by score, all taken from the input |
| Dashboard.TopKeepsTheHighest | server/src/controllers/business.controller.ts:289-290 | a group cut off by the limit scores no higher than any group kept |
| Dashboard.Found | server/src/controllers/business.controller.ts:291-292 | `$lookup` with `$unwind` keeps exactly the groups whose document exists |
| Dashboard.Listed | server/src/controllers/business.controller.ts:289-292 | at most five groups, non-increasing by score, each naming an existing document |
| Dashboard.ListedKeepsTop | server/src/controllers/business.controller.ts:290-292 | a top-five group whose document exists is listed |
| Dashboard.ListedGroups | server/src/controllers/business.controller.ts:288-292 | each listed group names an existing document and holds exactly its key's rows, non-empty, with its accumulator as score |
| Dashboard.ListedAreTheBest | server/src/controllers/business.controller.ts:285-292 | a key present in the rows with an existing document that is not listed scores no higher than any listed group |
| Dashboard.FirstImage | server/src/controllers/business.controller.ts:293 | `$arrayElemAt: [images, 0]` is the first image, absent exactly for a product with none |
| Dashboard.TopProducts | server/src/controllers/business.controller.ts:285-294 | at most five entries, non-increasing by totalSold, one per ranked group in order |
| Dashboard.TopProductsDescribed | server/src/controllers/business.controller.ts:288-293 | each entry carries its product's name and first image, its line-item count (not quantity) and its rows' total price |
| Dashboard.TopProductsAreBestSellers | server/src/controllers/business.controller.ts:285-292 | an existing product that sold but is not listed sold no more line items than any listed one |
| Dashboard.StockAlerts | server/src/controllers/business.controller.ts:297-300 | at most five products, each the seller's with stock below 10, and all of them when fewer than five qualify |
| Dashboard.LastPurchase | server/src/controllers/business.controller.ts:311 | `$max` of createdAt: no row is later and some row attains it |
| Dashboard.TopCustomers | server/src/controllers/business.controller.ts:303-319 | at most five entries, non-increasing by totalSpent, one per ranked group in order |
| Dashboard.RankedCustomersExist | server/src/controllers/business.controller.ts:310-316 | every ranked customer group names an existing user and holds rows |
| Dashboard.StatsInRankOrder | server/src/controllers/business.controller.ts:314 | entries built from groups in score order are in spending order |
| Dashboard.TopCustomersDescribed | server/src/controllers/business.controller.ts:307-318 | each entry carries the user's name and email, the total of their paid rows, the number of distinct orders and the latest createdAt |
| Dashboard.TopCustomersAreBiggestSpenders | server/src/controllers/business.controller.ts:303-317 | an existing user who bought but is not listed spent no more than any listed customer |
| Dashboard.DashboardStats | server/src/controllers/business.controller.ts:256-330 | 404 exactly when the caller owns no business; otherwise the four aggregations for their first business |
| Dashboard.DeletedBusinessGetsStats | server/src/controllers/business.controller.ts:258-261 | a soft-deleted business still gets its dashboard, because `.select("_id")` never loads `isDeleted` |
| Dashboard.DashboardStatsChecked | server/src/controllers/business.controller.ts:258-261 | a corrected handler: 404 exactly when the caller has no live business |
| Dashboard.CheckedDashboardRefusesDeleted | server/src/controllers/business.controller.ts:258-261 | the corrected handler refuses every soft-deleted business and otherwise agrees with the original |
| PublicProfile.OrDefault | server/src/controllers/business.controller.ts:346-347 | `parseInt(..) \|\| d`: an unparsable or zero argument gives the default, otherwise the parsed value |
| PublicProfile.Profile | server/src/controllers/business.controller.ts:353 | the public profile keeps owner, name and status and leaves out the bank details and tax id |
| PublicProfile.Catalogue | server/src/controllers/business.controller.ts:357 | exactly the seller's published products, counted as `countDocuments` counts them |
| PublicProfile.Newest | server/src/controllers/business.controller.ts:357-359 | the catalogue as a permutation, newest first |
| PublicProfile.Offset | server/src/controllers/business.controller.ts:348 | skip = (page − 1) · limit, non-negative for page ≥ 1 |
| PublicProfile.PageSize | server/src/controllers/business.controller.ts:360-361 | a page holds at most `limit` products, a full page unless the catalogue ends first, and none past the end |
| PublicProfile.Window | server/src/controllers/business.controller.ts:360-361 | `.skip(s).limit(n)` returns the products at positions s, s+1, … in order |
| PublicProfile.Shelf | server/src/controllers/business.controller.ts:376-388 | the storefront: the public profile, at most `limit` of the seller's published products, newest first, with totalPages = ceil(total / limit) and hasNextPage iff skip + shown < total |
| PublicProfile.StoreProfile | server/src/controllers/business.controller.ts:343-393 | 404 for a business not active or deleted; 500 when the skip is negative; otherwise 200 with the storefront for the defaulted page and limit |
| PublicProfile.DefaultsApply | server/src/controllers/business.controller.ts:346-347 | absent or zero page and limit give page 1 with up to twelve products |
| PublicProfile.HasNextPageIffNotLast | server/src/controllers/business.controller.ts:384-385 | for page and limit ≥ 1, hasNextPage holds exactly when page < totalPages |
| PublicProfile.NextPageArithmetic | server/src/controllers/business.controller.ts:384-385 | skip + pageSize < total exactly when page < ceil(total / limit) |
| PublicProfile.EveryProductHasItsPage | server/src/controllers/business.controller.ts:357-362 | the product at a given slot of a given page is the catalogue's product at skip + slot |
| PublicProfile.PageOf | server/src/controllers/business.controller.ts:348 | every catalogue position lies on a page and slot that some request reaches |
| Users.ToObject | server/src/models/user.model.ts:11-31 | the plain document has a password and a refresh token exactly when stored, and always the name and email |
| Users.PublicFields | server/src/models/user.model.ts:11-31 | the non-secret paths of a user never include a password or refresh token |
| Users.SecretFields | server/src/models/user.model.ts:11-31 | the secret paths hold only the password and the refresh token |
| Users.StripSecrets | server/src/controllers/auth.controller.ts:60-62 | removing the secret keys from public and secret paths gives back exactly the public ones |
| Users.Sanitize | server/src/controllers/auth.controller.ts:60-62 | the user without password and refreshToken, every other path as stored |
| Users.SanitizeIgnoresSecrets | server/src/middlewares/auth.middleware.ts:18 | what leaves the server does not depend on the password hash or the refresh token |
| Users.FindByEmail | server/src/controllers/auth.controller.ts:36 | `findOne({ email })` is the first user with the email, or none when no user has it |
| Users.FindAppended | server/src/controllers/auth.controller.ts:36-56 | a user appended under an unused email is the one that email then finds |
| Users.UpdateUser | server/src/controllers/auth.controller.ts:118-121 | an update by id changes only that user, and a missing id changes nothing |
| Auth.NewUser | server/src/controllers/auth.controller.ts:51-56 | the created user stores the hashed password and is a plain, unverified user with no refresh token |
| Auth.Register | server/src/controllers/auth.controller.ts:25-69 | 201 exactly when email, name and password are truthy, the password is at least 6 UTF-16 code units long (JavaScript `.length`), the email is unused and any upload succeeded; refusals change nothing; success appends the user with the refresh token and replies with the sanitized user |
| Auth.RegisterReturningToken | server/src/controllers/auth.controller.ts:58-68 | registration that also puts the access token in the reply data, otherwise the same reply and store |
| Auth.Login | server/src/controllers/auth.controller.ts:76-104 | 400 exactly for a missing field; 200 exactly when the first user with the email has a matching hash; every 401 says "Invalid credentials"; success stores the refresh token and returns the sanitized user with the access token |
| Auth.CredentialRepliesHideSecrets | server/src/controllers/auth.controller.ts:60-62 | neither a registration nor a login reply carries a password or refresh token |
| Auth.UnknownEmailLooksLikeWrongPassword | server/src/controllers/auth.controller.ts:83-91 | an unknown email and a wrong password get identical replies |
| Auth.RegisteredUserCanLogIn | server/src/controllers/auth.controller.ts:83-91 | with a sound bcrypt, a fresh registration logs in with its password |
| Auth.Logout | server/src/controllers/auth.controller.ts:111-127 | without a refresh-token cookie, 204 and no change; otherwise the caller's refresh token becomes "" and no other user changes |
| Auth.LogoutIdempotent | server/src/controllers/auth.controller.ts:118-121 | logging out twice leaves the same store as logging out once |
| Auth.SixDigitCode | server/src/controllers/auth.controller.ts:156 | the generated code lies in [100000, 999999] |
| Auth.WaitSeconds | server/src/controllers/auth.controller.ts:146-148 | the wait is the whole number of seconds that covers what remains of the minute |
| Auth.Resent | server/src/controllers/auth.controller.ts:158-167 | the upsert stores the new code and now, and the count goes up by one (1 for a new record) |
| Auth.SendOtp | server/src/controllers/auth.controller.ts:134-185 | 400 for no email, 404 for an unknown user, 429 within a minute of the last send or at five sends; refusals change nothing; otherwise the record is rewritten before the mail, which decides 200 or 500 |
| Auth.ThrottleBeforeCap | server/src/controllers/auth.controller.ts:145-153 | within the minute the reply is the wait message, even when the cap is reached |
| Auth.SendOtpKeepsOtpsWellFormed | server/src/controllers/auth.controller.ts:151-167 | every stored code keeps six digits and every count stays in 1..5 |
| Auth.SendsAreAMinuteApart | server/src/controllers/auth.controller.ts:145-149 | two accepted sends for one email lie at least a minute apart |
| Auth.VerifyOtp | server/src/controllers/auth.controller.ts:192-218 | 400 for missing input or a wrong code, 404 for no record; refusals change nothing; a matching code deletes the record and grants the reset token |
| Auth.OtpSingleUse | server/src/controllers/auth.controller.ts:215 | a code that verified once finds no record the second time |
| Auth.MailedCodeVerifies | server/src/controllers/auth.controller.ts:156-205 | the code written into the mail, typed back in, verifies |
| Auth.BearerToken | server/src/controllers/auth.controller.ts:233 | `split(' ')[1]` contains no space |
| Auth.BearerTokenOf | server/src/controllers/auth.controller.ts:233 | "Bearer " followed by a space-free token yields that token |
| Auth.ResetPassword | server/src/controllers/auth.controller.ts:225-255 | 401 exactly for a missing or non-Bearer header or an invalid token; 400 exactly for a mismatch once the token is valid; with a valid token and matching passwords, 404 exactly when no user has the token's email, 500 exactly when that user exists and either the password is empty or the stored role is outside the schema's enum (a seller), 200 exactly otherwise; success sets the hashed new password and clears the refresh token, and every refusal changes nothing |
| Auth.SellerCannotReset | server/src/controllers/auth.controller.ts:246-252 | a seller with a valid token and matching passwords always gets 500, and the password stays as it was, because the plain `save()` re-validates the stored role against `enum: ['user', 'admin']` (server/src/models/user.model.ts:25) |
| Auth.ResetPasswordModifiedOnly | server/src/controllers/auth.controller.ts:250-252 | the reset saved with `validateModifiedOnly`: with a valid token and matching passwords it succeeds exactly when the user exists and the password is non-empty, whatever the role; refusals change nothing |
| Auth.ModifiedOnlyAgreesOffSellers | server/src/controllers/auth.controller.ts:225-255 | on a store with no seller the corrected reset and the handler give the same reply and store |
| Auth.ResetThenLoginAnyRole | server/src/controllers/auth.controller.ts:76-104 | with the corrected save, any existing user, a seller included, logs in with the new password after a reset |
| Auth.ResetThenLogin | server/src/controllers/auth.controller.ts:250-252 | after a successful reset (which a seller never gets), the new password logs in |
| Auth.ResetSkipsLengthRule | server/src/controllers/auth.controller.ts:243-252 | the reset applies no length rule: a one-letter password is saved for a user outside the seller role |
| AuthMiddleware.AccessToken | server/src/middlewares/auth.middleware.ts:8 | a truthy cookie wins; otherwise the header with its first "Bearer " removed |
| AuthMiddleware.VerifyJwt | server/src/middlewares/auth.middleware.ts:5-30 | every rejection is 401; "Unauthorized request" exactly when there is no token; next is reached exactly for a verified token naming an existing user, with that user sanitized |
| AuthMiddleware.BareBearerIsUnauthorized | server/src/middlewares/auth.middleware.ts:8-12 | a header of exactly "Bearer " with no cookie is refused as unauthorized |
| AuthMiddleware.HeaderTokenIsBearerSuffix | server/src/middlewares/auth.middleware.ts:8 | without a cookie, "Bearer t" yields t |
| Js.ReplaceFirstAtStart | server/src/middlewares/auth.middleware.ts:8 | removing the first occurrence of a prefix leaves the rest |
| AuthMiddleware.CookieWins | server/src/middlewares/auth.middleware.ts:8 | with a truthy cookie the header is irrelevant |
| AuthMiddleware.ProceedHidesSecrets | server/src/middlewares/auth.middleware.ts:18-26 | the user attached to the request has no password or refresh token |
| UserProfile.FetchUser | server/src/controllers/user.controller.ts:15-51 | 404 exactly when the request carries no user; otherwise that user is returned |
| UserProfile.Patched | server/src/controllers/user.controller.ts:68-78 | email, role, password, refresh token and verification are never written |
| UserProfile.UpdateProfile | server/src/controllers/user.controller.ts:58-123 | 400 exactly with no field and no successful upload; 404 for a missing user; the old picture is destroyed exactly after a successful upload when it had an id; only the caller's document changes |
| UserProfile.UntouchedAddressPartsStay | server/src/controllers/user.controller.ts:74-78 | address parts not supplied keep their values, and supplied ones overwrite |
| UserProfile.FailedUploadKeepsPicture | server/src/controllers/user.controller.ts:81-92 | a failed upload leaves the stored picture and destroys nothing |
| UserProfile.FailedUploadAloneIsRejected | server/src/controllers/user.controller.ts:95-97 | a failed upload with no other field is a 400 that changes nothing |
| UserProfile.UpdateProfileIdempotent | server/src/controllers/user.controller.ts:100-107 | re-sending the same update changes nothing further |
| UserProfile.OnlyWhitelistWritten | server/src/controllers/user.controller.ts:66-78 | only whitelisted fields change: the picture only with an upload, the name only when submitted |
| UserProfile.PictureDestroyedEvenWhenUserMissing | server/src/controllers/user.controller.ts:81-111 | the old picture is destroyed before the store is written, so even when the user is then not found |
| Cloudinary.DigitsEnd | server/src/utils/deleteCloudinaryImage.ts:7 | greedy `\d+`: the end of the digit run |
| Cloudinary.VersionEnd | server/src/utils/deleteCloudinaryImage.ts:7 | `(?:v\d+\/)` matches exactly "v", one or more digits and "/" |
| Cloudinary.RunEnd | server/src/utils/deleteCloudinaryImage.ts:7 | greedy `[^\.]+` runs to the next '.' or the end |
| Cloudinary.CaptureStart | server/src/utils/deleteCloudinaryImage.ts:7 | the capture starts after the version group only when a non-'.' follows it |
| Cloudinary.CaptureAt | server/src/utils/deleteCloudinaryImage.ts:7 | a capture is non-empty and has no '.' |
| Cloudinary.FirstMatch | server/src/utils/deleteCloudinaryImage.ts:8 | the leftmost position where the expression matches |
| Cloudinary.ExtractPublicId | server/src/utils/deleteCloudinaryImage.ts:5-14 | a non-null result is non-empty and contains no '.' |
| Cloudinary.ExtractPublicIdLeftmost | server/src/utils/deleteCloudinaryImage.ts:7-13 | null exactly when no "/upload/" is followed by a character other than '.'; otherwise the capture of the leftmost match |
| Cloudinary.PublicIdShape | server/src/utils/deleteCloudinaryImage.ts:7 | the id runs from after the marker, less a version segment, to the next '.' or the end |
| Cloudinary.LeftmostMatchIsExtracted | server/src/utils/deleteCloudinaryImage.ts:8 | the leftmost match's capture is returned |
| Cloudinary.VersionSkipped | server/src/utils/deleteCloudinaryImage.ts:7 | a "v<digits>/" segment followed by a non-'.' is excluded from the id |
| Cloudinary.TypicalUrl | server/src/utils/deleteCloudinaryImage.ts:7-11 | "/upload/v12/shop/a.png" gives "shop/a", keeping folder separators |
| Cloudinary.VersionKeptBeforeDot | server/src/utils/deleteCloudinaryImage.ts:7 | "/upload/v1/.png" gives "v1/": the engine backtracks out of the optional group |
| Inventory.Create | server/src/models/inventary.model.ts:8-17 | a record is accepted exactly when quantity and reserved are non-negative; reserved defaults to 0, the threshold to 5, the location to "Default Warehouse" |
| Inventory.SellableAtMostQuantity | server/src/models/inventary.model.ts:21-23 | sellable never exceeds quantity, and equals it with nothing reserved |
| Inventory.OverReservedIsValid | server/src/models/inventary.model.ts:8-23 | nothing ties reserved to quantity: a valid record can report negative sellable stock |
| AuthSlice.Reduce | client/src/store/authSlice.ts:27-40 | setCredentials stores the user and token and sets the flag whatever the prior state; logOut yields the initial state |
| AuthSlice.InitialConsistent | client/src/store/authSlice.ts:17-21 | the initial state has no user, no token and the flag unset, consistently |
| AuthSlice.RunKeepsConsistent | client/src/store/authSlice.ts:17-40 | flag ⇔ user ⇔ token holds after any run whose credentials carry a token |
| AuthSlice.LogOutIdempotent | client/src/store/authSlice.ts:36-40 | logging out twice is logging out once, and both give the initial state |
| AuthSlice.SetCredentialsOverwrites | client/src/store/authSlice.ts:27-35 | setting credentials forgets the previous session entirely |
| Carousel.Index | client/src/components/shared/BannerCarousel.tsx:56 | with truncating `%`, the index lies in [0, 4) for every page, negative included, and is the mathematical residue |
| Carousel.IndexPeriodic | client/src/components/shared/BannerCarousel.tsx:56 | four pages on, the same banner |
| Carousel.IndexSuccessor | client/src/components/shared/BannerCarousel.tsx:56-60 | one page on shows the next banner, and one page back the previous, wrapping |
| Carousel.Paginate | client/src/components/shared/BannerCarousel.tsx:59-61 | paginate(dir) moves the page by dir and records dir as the direction |
| Carousel.DragEnd | client/src/components/shared/BannerCarousel.tsx:110-113 | a drag (a fractional pixel offset) past 80 goes back one, past −80 forward one, anything else changes nothing |
| Carousel.SwipesCancel | client/src/components/shared/BannerCarousel.tsx:110-113 | a forward swipe then a backward one shows the same banner again |
| Carousel.Preload | client/src/components/shared/BannerCarousel.tsx:71 | the preloaded banner is in range and is the next page's banner |
| Carousel.Indicators | client/src/components/shared/BannerCarousel.tsx:169-175 | four bars, and bar i is active exactly when i is the index |
| Carousel.OneIndicatorActive | client/src/components/shared/BannerCarousel.tsx:169-175 | exactly one indicator is active |
| CategoryBar.MainSlug | client/src/components/ui/CategoryBar.tsx:34 | a main-category slug contains no space |
| CategoryBar.MoreSlug | client/src/components/ui/CategoryBar.tsx:64 | a "More" slug contains no space |
| Js.ReplaceAllAbsent | client/src/components/ui/CategoryBar.tsx:34 | a pattern that never occurs is never replaced |
| Js.ReplaceAllPlainPrefix | client/src/components/ui/CategoryBar.tsx:34 | a prefix without the pattern's first character is copied unchanged |
| Js.ReplaceAllHit | client/src/components/ui/CategoryBar.tsx:34 | an occurrence at the front is replaced and the global search resumes after it |
| CategoryBar.RulesAgreeWithoutAmpersand | client/src/components/ui/CategoryBar.tsx:34-64 | for names without '&' the two link rules agree |
| CategoryBar.WordKept | client/src/components/ui/CategoryBar.tsx:34 | a word without spaces is left alone by either rule's replacements |
| CategoryBar.MainSlugOfPair | client/src/components/ui/CategoryBar.tsx:34 | the main rule turns "a & b" into "a-b" for single words |
| CategoryBar.ReplaceAround | client/src/components/ui/CategoryBar.tsx:64 | a one-character pattern on both sides of another character is replaced on both sides |
| CategoryBar.MoreTail | client/src/components/ui/CategoryBar.tsx:64 | the "More" rule turns " & b" into "-&-b" |
| CategoryBar.MoreSlugOfPair | client/src/components/ui/CategoryBar.tsx:64 | the "More" rule turns "a & b" into "a-&-b": the '&' stays |
| CategoryBar.LowerCased | client/src/components/ui/CategoryBar.tsx:34 | lower-casing checked one character at a time |
| CategoryBar.HomeAndKitchen | client/src/components/ui/CategoryBar.tsx:34 | "Home & Kitchen" links to "/category/home-kitchen" |
| CategoryBar.ToysAndGames | client/src/components/ui/CategoryBar.tsx:64 | "Toys & Games" links to "/category/toys-&-games" |
| CategoryBar.Hover | client/src/components/ui/CategoryBar.tsx:44-45 | mouse-enter sets "more" and mouse-leave resets to null |
| CategoryBar.OpenIffLastEntered | client/src/components/ui/CategoryBar.tsx:44-53 | after any non-empty event sequence the dropdown is open exactly when the last event entered |
| Signup.FieldIssues | client/src/pages/auth/signup.tsx:15-17 | at most one issue per checked field, each on name, email or password |
| Signup.Validate | client/src/pages/auth/signup.tsx:14-22 | accepted exactly when the name has ≥ 2 and the password ≥ 6 UTF-16 code units (zod `.min`), the email passes and the passwords match; each failed check has its issue, and a mismatch is reported on confirmPassword, last |
| Signup.ToPayload | client/src/pages/auth/signup.tsx:42-46 | the payload carries name, email and password, and no confirmPassword |
| Signup.AcceptedFormPassesServerChecks | client/src/pages/auth/signup.tsx:14-22 | an accepted form passes every server field check: registration succeeds exactly when the email is unused, else the "already exists" 400 |
| Signup.AfterReply | client/src/pages/auth/signup.tsx:48-50 | a reply with a user dispatches setCredentials with the user and token it carries; any other reply leaves the session |
| Signup.SignupLeavesNoToken | client/src/pages/auth/signup.tsx:48-50 | a successful sign-up leaves the session authenticated with no token, inconsistent |
| Signup.CorrectedSignupIsConsistent | client/src/pages/auth/signup.tsx:48-50 | with the token in the reply, a successful sign-up leaves a consistent session holding that token |
| Js.Merge | server/src/controllers/business.controller.ts:104-110 | a truthy request value overwrites, anything else keeps the stored one |
| Js.SetIfTruthy | server/src/controllers/user.controller.ts:70 | `if (name) update.name = name`: a truthy value overwrites, anything else keeps |
| Js.Rem | client/src/components/shared/BannerCarousel.tsx:56 | JavaScript `%`: the result is smaller than the divisor in magnitude and takes the dividend's sign |
| Js.RemQuotient | client/src/components/shared/BannerCarousel.tsx:56 | the truncating remainder leaves a multiple of the divisor behind |
| Js.CeilDiv | server/src/controllers/business.controller.ts:384 | `Math.ceil(a / b)`: the least k with a ≤ k·b when b > 0, and the least k with k·b ≤ a when b < 0 (a negative `limit` reaches line 384 unchecked) |
| Js.IndexOfFrom | server/src/middlewares/auth.middleware.ts:8 | `indexOf` finds the first occurrence from a position, or none |
| Js.ReplaceAllRemovesChar | client/src/components/ui/CategoryBar.tsx:34 | replacing every one-character pattern by text without it leaves none behind |
| Js.ReplaceAllKeepsCharOut | client/src/components/ui/CategoryBar.tsx:34 | a replacement introduces no character that neither the text nor the replacement had |
| Js.Split | server/src/controllers/auth.controller.ts:233 | `split(c)` gives at least one piece, two or more exactly when c occurs, and no piece contains c |
| Js.JoinSplit | server/src/controllers/auth.controller.ts:233 | joining the pieces with the separator gives the string back |
| Js.SplitNoSeparator | server/src/controllers/auth.controller.ts:233 | a string without the separator splits into itself |
| Js.SplitAfterSeparator | server/src/controllers/auth.controller.ts:233 | "p c t" with separator-free p and t splits into [p, t] |
| Js.Length | server/src/controllers/auth.controller.ts:32 | `.length` counts UTF-16 code units: between |s| and 2·|s|, and exactly |s| when no character lies outside the Basic Multilingual Plane |
| Js.ThreeEmoji | client/src/pages/auth/signup.tsx:17 | three emoji are three characters but length 6, so they meet the six-character rule |
| Js.TrimStart | server/src/models/business.model.ts:6 | drops exactly the leading white space |
| Js.TrimEnd | server/src/models/business.model.ts:6 | drops exactly the trailing white space |
| Js.TrimEmptyIffBlank | server/src/models/business.model.ts:6 | trimming leaves nothing exactly when the string is all white space |
| Js.ToLower | client/src/components/ui/CategoryBar.tsx:34 | lower-casing maps each character and keeps the length |
| Js.DecimalString | server/src/controllers/auth.controller.ts:148 | a number prints as a non-empty string of digits |
| Js.NumberOf | server/src/controllers/auth.controller.ts:205 | `Number(s)` of a trimmed digit string is a non-negative value |
| Js.DigitsValueDecimal | server/src/controllers/auth.controller.ts:156-205 | the digits of a number's decimal printing read back as the number |
| Js.NumberOfDecimal | server/src/controllers/auth.controller.ts:205 | a code printed in decimal reads back as the same number |

## Left out

- Database plumbing is not modelled: Mongoose queries, sessions and multi-document transactions. The delete handler's transaction is one atomic step, and an abort leaves the store as it was.
- Unexpected exceptions are not modelled: connection failures, the `catch` blocks' 500 replies, and the JSON envelopes (`ApiResponse`, `ApiError`, `asyncHandler`). The model keeps some failures the request itself provokes, such as a blank business name or an empty new password failing validation, but not all of them (next line).
- PublicProfile.StoreProfile, BusinessController.ToggleBusinessStatus: ids are positions (`nat`). A path `:id` that is not a valid ObjectId makes Mongoose throw a CastError, which the `catch` blocks answer with 500 (business.controller.ts:389-392, 423-425). The model cannot express such an id and answers 404 for every absent one.
- bcrypt, `jwt.sign` and `jwt.verify` are parameters: a hash/compare pair, and functions from a token to its claim. Cookies and their options are not modelled beyond whether the refresh-token cookie is present.
- Image upload, image destroy and mail delivery are not performed. The model takes their results as inputs (`Upload`, `mailSent`) and outputs the public id it would destroy.
- The expiry of OTP records by the collection's TTL index is database behaviour and is not modelled.
- Auth.SendOtp: the throttle uses integer milliseconds instead of the source's floating-point seconds. The wait message uses the whole number of seconds that covers the remaining milliseconds.
- Auth.VerifyOtp, Js.NumberOf: models `Number()` only on strings that trim to decimal digits. A blank string reads as 0, as in JavaScript. Signs, fractions, exponents and hex are taken as not a number, so such an OTP never matches a stored code.
- Js.ToLower: maps ASCII letters only. There is no Unicode case mapping.
- `slugify` and zod's email check come from libraries with hidden semantics. They are an uninterpreted function and an input predicate.
- The category `slug` path's `lowercase` setter is taken as already applied: `slugify` is called with `lower: true`, and stored slugs are lower-case.
- The unique index on category slugs is not modelled, nor its duplicate-slug error.
- The four dashboard aggregations run concurrently in the source. Here they are independent pure functions.
- `$sort` has no tie-break, so sorted lists are stated as non-increasing, not as one fixed order. `Collections.SortDescending` is one such order.
- Floating point is not modelled: the business conversion rate, review ratings and float OTP arithmetic. The carousel drag offset is the one float kept, as a `real`. `Math.random()` is a real number in [0, 1).
- Inventory.Create, Dashboard.SalesSummary: prices (`server/src/models/product.model.ts:8`, order line prices), product stock (product.model.ts:13), and inventory quantity and reserved (`server/src/models/inventary.model.ts:8,11`) are JavaScript `Number`s, which admit fractions such as 19.99. The model takes them as integers, as if in minor units. Sums and comparisons keep their meaning, but fractional stock counts are not represented.
- PublicProfile.Profile, BusinessController.GetBusiness: `populate("owner", …)` (business.controller.ts:150, 354) is not modelled. The owner stays a user id, and the populated name, email and profile picture are not part of the reply.
- PublicProfile.OrDefault: `parseInt` is a parameter, an `Option<int>` that is None for NaN. Its prefix parsing ("12abc" reads as 12, "3.9" as 3, "-2" as −2) is not written out.
- Inventory.Create: the unique index on `sku` (`server/src/models/inventary.model.ts:5`) is not modelled, nor the duplicate-key error a second record for the same SKU would raise.
- Rendering, animation, autoplay timers, routing and the other client pages are out of scope. The carousel's hover pause of autoplay is also out.
- `Product.isInStock` is written as the predicate `Shop.IsInStock` and carries no property of its own.
- CategoryModel.Save: acyclic parent links are a precondition, witnessed by a height map. The source would loop forever on a cycle.
- BusinessController.GetBusiness, BusinessController.UpdateBusiness, BusinessController.DeleteBusiness, BusinessController.DeleteTwice, BusinessController.ToggleBusinessStatus, Dashboard.DashboardStats, PublicProfile.StoreProfile: these model the schema the handlers were written for, with `isDeleted` as a stored path. The deployed business schema has no such path (business.model.ts:4-38). There, the write at business.controller.ts:216 is dropped, every "soft-deleted" 404 is unreachable, and a second delete succeeds again. The `isDeleted: false` filter at line 352 matches either nothing or every business, depending on the Mongoose version's `strictQuery`.

## Findings

| source | as written | input that shows it | evidently intended | confidence | as-written member | corrected member |
|---|---|---|---|---|---|---|
| server/src/models/category.model.ts:44 | the post-save cascade re-saves each child, but a freshly loaded child has no modified path, so its pre-save hook keeps the old slug | "Electronics" (root) with child "Laptops" at "electronics/laptops"; rename the root to "Tech" | the child becomes "tech/laptops", as the comment at lines 61-65 says | high, not executed | CategoryModel.RenameDoesNotReachChild | CategoryModel.SaveRecomputingKeepsConsistency |
| server/src/controllers/business.controller.ts:409-417 | `findByIdAndUpdate` writes the new status before the soft-delete check, so a deleted business answered 404 is changed anyway (with `isDeleted` stored, as the handlers assume) | a soft-deleted business under review, status "active" | a 404 leaves the business untouched | medium, not executed | BusinessController.NotFoundYetChanged | BusinessController.CheckedAgreesExceptOnDeleted |
| server/src/controllers/business.controller.ts:258-259 | the business is fetched with `.select("_id")`, so `isDeleted` is never loaded and the soft-delete check never fires | the owner of a soft-deleted business asks for the dashboard | 404 for a soft-deleted business, as in the other seller handlers | medium, not executed | Dashboard.DeletedBusinessGetsStats | Dashboard.CheckedDashboardRefusesDeleted |
| server/src/controllers/auth.controller.ts:252 | the reset saves with a plain `user.save()`, which validates every loaded path; a seller's role, written without validators at server/src/controllers/business.controller.ts:50, is outside the enum at server/src/models/user.model.ts:25, so the save throws and the reply is 500 | a seller with a valid reset token sends matching new passwords | a seller can reset a password like any other user (for instance `save({ validateModifiedOnly: true })`, or `seller` in the enum) | medium, not executed | Auth.SellerCannotReset | Auth.ResetThenLoginAnyRole |
| client/src/pages/auth/signup.tsx:48-50 | the page reads `accessToken` from the register reply, but registration returns only the user (server/src/controllers/auth.controller.ts:68), so the session is authenticated with a null token | any successful sign-up | the register reply carries the access token, as login's does | high, not executed | Signup.SignupLeavesNoToken | Signup.CorrectedSignupIsConsistent |
