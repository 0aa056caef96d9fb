# Product-key shop: inventory, checkout and administration

A Dafny model of the core of an e-commerce backend that sells digital product keys (Node.js,
Express and Sequelize over PostgreSQL). The database tables are fields of one `Schema.Shop`
object:

- `productKeys` is a map from key id to row.
- `products` holds each product with its brand/category row.
- Carts map each user to a sequence of lines.
- `lockedKeys` is a sequence of rows: the table has no unique `userId`, `findOne` reads the first row and `destroy` removes all of them.
- Orders form an append-only sequence.

The controllers are methods that update those fields:

- **Key claim** (`getProductKeys`). The transactional `UPDATE … LIMIT` marks some unsold keys sold, in no fixed order. The whole claim rolls back when a line cannot be served.
- **Key release** (`unlockKeys`). Locked keys go back to unsold, except keys already bound to an order.
- **Checkout** (`initiatePayment`). The cart is filtered and priced, the old lock is released and deleted, keys are claimed, a new lock is written and an expiry is armed. The expiry is an explicit event, `Orders.Expire`.
- **Settlement** (`createOrder`, `paymentFailed`). `createOrder` records the order, binds its keys and reduces stock. `paymentFailed` records a failed order and leaves keys and stock untouched.
- **Signature checks** (`checkPayment`, `checkPayment2`). The HMAC is an uninterpreted function.
- **Cart edits** (`updateCart`, `addToCart`, `removeFromCart`).
- **Key administration** (`addNewProduct`, `addNewProductKeys`, `deleteProductKeys`, `editProductKey`, `updateProductDetails`). These keep `inStock` in step with the count of keys not bound to an order.
- **Admin and role guards** on the `admins`, `roles` and `rolePermissions` tables (`Admins.AdminStore`).

Some inputs are parameters of the model:

- the clock (`now`);
- fresh UUIDs;
- `Math.random` draws;
- `calculateGST`;
- HMAC-SHA256;
- bcrypt;
- `validator.isEmail` and `validator.isMobilePhone`.

Prices are integers. Timestamps are milliseconds. The declared widths of the string columns the core writes are modelled: PostgreSQL rejects a longer value when the row is written. These are 100 characters for an admin's name and email, 20 for the phone number, 50 for a role name, 100 for a product name and 255 for a product key.

Where the code departs from its evident intent, the model follows the code:

- `createOrder` has no idempotence guard and keeps the lock (`Orders.SettledTwice`).
- The expiry compares `createdAt` values only to the second (`Orders.SameSecondStaleExpiryFires`).
- `createOrder` stops at the first missing product. It keeps the order row, the key bindings and the earlier decrements.
- `addToCart` and `removeFromCart` read the signed-in user's cart but write the cart named by `req.query.userId`.
- `updateCart` appends a new product even with a negative quantity (`Carts.NegativeNewLineAppended`).
- `editRole` answers 200 on every error.

## Model

| member | source | states |
|---|---|---|
| KeyStore.SomeRows | controllers/cartOrders/orders.js:294-302 | for any n not above the unsold pool, some n distinct keys of the pool exist for the UPDATE … LIMIT to pick |
| KeyStore.ClaimEffect | controllers/cartOrders/orders.js:294-302 | claimed rows leave the product's unsold set. The unsold count drops by their number. Other products' unsold keys and every product's unbound keys are untouched |
| KeyStore.ReleasedEffect | utils/utils.js:200-214 | a listed key with no order becomes unsold. A key bound to an order, or one not listed, keeps its row |
| KeyStore.ReleasedUnion | utils/utils.js:200-214 | releasing value sets one after another is releasing their union, so the loop order does not matter |
| KeyStore.ReleaseIdempotent | utils/utils.js:203-213 | releasing the same values twice leaves the table as releasing once does |
| KeyStore.BoundUnion | controllers/cartOrders/orders.js:223-238 | binding pair sets one after another for one order is binding their union |
| Ledger.ValuesOfLinesSpec | utils/utils.js:200-202 | a value is listed by a lock exactly when some line's productKeys holds it |
| Ledger.FindLockSpec | controllers/cartOrders/orders.js:25-27 | findOne finds a row exactly when the user has one, and the row found is that user's |
| Ledger.DestroyLocksSpec | controllers/cartOrders/orders.js:32-36 | destroy leaves the user without a lock. Other users' locks are unchanged. It keeps at most one lock per user |
| Ledger.FindLockAppend | controllers/cartOrders/orders.js:63-67 | findOne after a row is created finds the earlier row if any, else the new one when it is the user's |
| Ledger.ReplaceLock | controllers/cartOrders/orders.js:25-67 | destroy followed by create leaves exactly the new lock for the user, other users' locks unchanged and at most one lock per user |
| Ledger.AddLock | controllers/cartOrders/orders.js:63-67 | creating a lock for a user who has none makes it theirs, changes no other user's lock and keeps one lock per user |
| Utils.AvailableLinesSpec | utils/utils.js:79-95 | the filtered cart holds exactly the lines whose product exists and has an unsold key. It never grows |
| Utils.AvailableLinesAppend | utils/utils.js:81-93 | the filter works line by line, so kept lines keep their relative order |
| Utils.AvailableLinesIdempotent | utils/utils.js:81-95 | filtering an already filtered cart changes nothing |
| Utils.FilterAvailable | utils/utils.js:79-93 | the loop pushes exactly the available lines, in cart order |
| Utils.GetUserCart | utils/utils.js:75-99 | a user with no cart is an error with no write. Otherwise the filtered lines are saved and returned |
| Utils.CalculateOrderAmount | utils/utils.js:101-132 | succeeds iff every line's product exists with a positive price. Then each line carries its product's actualPrice and the total is the sum of price × quantity. Otherwise it is an error with no total |
| Utils.ReleaseValues | utils/utils.js:201-214 | the inner loop releases exactly the values of one lock line |
| Utils.UnlockKeys | utils/utils.js:195-216 | with a lock, the keys table becomes its release over every value the lock lists. With none it is an error and nothing changes |
| Utils.GetRandomString | utils/utils.js:218-289 | the string has the requested length (0 for a negative one) and character i is the alphabet symbol of draw i |
| Utils.AmountRejected | utils/utils.js:48-55 | the amount guard of `order` rejects no amount |
| Utils.ToPaise | utils/utils.js:61-63 | the gateway amount is a multiple of 100 and divides back to the rupee amount |
| Orders.ClaimRows | controllers/cartOrders/orders.js:294-313 | one UPDATE claims min(quantity, unsold) distinct unsold keys of the product, returns their values, and marks exactly those rows sold |
| Orders.GetProductKeys | controllers/cartOrders/orders.js:283-331 | succeeds iff every line asks a non-negative quantity and, with the earlier lines of its product, no more than were unsold at the start. Failure leaves the keys table as it was. On success line i holds exactly quantity_i keys of its product. All of them were unsold, no key is claimed twice, and exactly those keys are now sold |
| Orders.ClaimableDistinctProducts | controllers/cartOrders/orders.js:290-317 | with one line per product, a claim succeeds iff each quantity lies between 0 and its product's unsold count |
| Orders.GetProductKeysIndividual | controllers/cartOrders/orders.js:446-486 | the single-line claim succeeds iff 0 ≤ quantity ≤ unsold. It then marks exactly quantity unsold keys of the product sold. Otherwise nothing changes |
| Orders.PriceCart | controllers/cartOrders/orders.js:18-22 | the cart is filtered and saved, then priced as CalculateOrderAmount states |
| Orders.Relock | controllers/cartOrders/orders.js:25-47 | any lock of the user is released and destroyed, then the claim runs on the released table. Its outcome is as GetProductKeys states. The user is left with no lock and other users' locks are untouched |
| Orders.InitiatePayment | controllers/cartOrders/orders.js:18-84 | a priceable cart succeeds iff its priced lines can be claimed on the table released of the user's old lock. Otherwise the error is KeysUnavailable. On success the user has exactly one lock. It lists a valid claim of the priced cart, its total is amount + gst(amount), createdAt is now, and there is an expiry for it. Without a cart nothing changes. An unpriceable cart touches neither keys nor locks. Unavailable keys leave the released table and no lock. Other users' locks are kept and one lock per user is preserved |
| Orders.Expire | controllers/cartOrders/orders.js:49-61 | fires iff the user's current lock renders like the captured createdAt. It then releases that lock's keys and destroys the user's locks. Otherwise nothing changes |
| Orders.CurrentExpiryFires | controllers/cartOrders/orders.js:49-68 | the expiry armed for a lock fires while that lock is the user's current one |
| Orders.StaleExpiryIsNoOp | controllers/cartOrders/orders.js:53 | an expiry whose lock was replaced by one created in another second does nothing |
| Orders.SameSecondStaleExpiryFires | controllers/cartOrders/orders.js:53 | a lock re-created within the same second is expired by the earlier lock's timer |
| Orders.SettledSpec | controllers/cartOrders/orders.js:240-246 | settling lowers each product's inStock by the quantity the lock's lines ask of it and changes nothing else |
| Orders.SettledTwice | controllers/cartOrders/orders.js:205-261 | settling the same lock twice lowers stock by twice the demand: there is no idempotence guard |
| Orders.FirstMissing | controllers/cartOrders/orders.js:240-244 | the index of the first line whose product is missing: all earlier products exist |
| Orders.BindLine | controllers/cartOrders/orders.js:224-237 | the inner loop binds to the order exactly the keys whose (value, productId) the line lists |
| Orders.BindKeys | controllers/cartOrders/orders.js:223-238 | the binding loops bind exactly the (value, productId) pairs of all lines |
| Orders.DecrementStock | controllers/cartOrders/orders.js:240-246 | succeeds iff every line's product exists. The catalog is settled over the lines before the first missing product |
| Orders.CreateOrder | controllers/cartOrders/orders.js:205-261 | with no lock it is an error and nothing changes. Otherwise it appends one success order carrying the lock's products and total, binds every listed key and settles stock up to the first missing product. On success it empties the cart. The lock is kept |
| Orders.PaymentFailed | controllers/cartOrders/orders.js:263-281 | with no lock it is an error and nothing changes. Otherwise it appends one failed order with the reason and the lock's products and total |
| Orders.CheckPayment | controllers/cartOrders/orders.js:86-106 | 200 iff HMAC(order_id + "\|" + payment_id) equals the signature, else 400 |
| Orders.CheckPayment2 | controllers/cartOrders/orders.js:108-203 | an error iff the user has no lock. Otherwise 401 with no notice iff the HMAC does not match, and 201 iff it does. A captured or failed event mails its notice and other verified events mail none |
| Orders.TotalPages | controllers/cartOrders/orders.js:350-351 | with a positive limit the page count is the least n with count ≤ n·limit. A zero limit gives 0 pages or Infinity |
| Orders.PageWithinOrders | controllers/cartOrders/orders.js:338-351 | with a positive limit, page p starts inside the orders iff p is at most the page count |
| Orders.PairsCount | controllers/cartOrders/orders.js:223-238 | when a lock lists no value twice and as many per line as its quantity, the values bound for a product are as many as the lines ask of it |
| Orders.BindCount | controllers/cartOrders/orders.js:226-237 | when each value bound for a product belongs to an order-unbound key of it, the product's unbound count drops by their number |
| Orders.SettlementInStep | controllers/cartOrders/orders.js:223-246 | for such a lock, createOrder changes the product's unbound count and its inStock by the same amount |
| Orders.ClaimedLinesDistinct | controllers/cartOrders/orders.js:290-322 | the lines of a successful claim list pairwise distinct values, as many per line as its quantity |
| Orders.ValueImageCard | models/product/productKeys.js:11-15 | under the unique productKey constraint, a set of rows has as many distinct values as rows |
| Carts.FindIndex | controllers/cartOrders/carts.js:39-41 | -1 iff no line has the product. Otherwise the first line that has it |
| Carts.UpdateCart | controllers/cartOrders/carts.js:17-62 | the loop computes UpdatedCart, the fold of the requests over the cart |
| Carts.EditAllPrefixErr | controllers/cartOrders/carts.js:17-60 | a request that fails ends updateCart with that error, whatever follows |
| Carts.UpdateCartReference | controllers/cartOrders/carts.js:17-62 | for requests naming distinct products, with no negative quantity for a line the cart holds and no missing product except one removing a held line at 0, the new cart is the existing lines in order, each set to its requested quantity or removed at 0, followed by the new products in request order, whatever their quantity |
| Carts.EditAllReference | controllers/cartOrders/carts.js:17-60 | the edit loop equals the reference definition on such requests |
| Carts.RevisedUntouched | controllers/cartOrders/carts.js:39-55 | a line no request names keeps its quantity |
| Carts.DuplicateNewProductAppendedTwice | controllers/cartOrders/carts.js:43-49 | the same new product requested twice is appended twice |
| Carts.NegativeNewLineAppended | controllers/cartOrders/carts.js:30-49 | a negative quantity for a new product is appended to the cart |
| Carts.RequestedQuantity | controllers/cartOrders/carts.js:101 | `Number(quantity) \|\| 1` is never 0 and keeps a given non-zero quantity |
| Carts.AddedToCart | controllers/cartOrders/carts.js:95-108 | an absent product is appended with the requested quantity when it exists. A present product's quantity grows by exactly 1 and nothing else changes. One line per product is preserved |
| Carts.RemovedFromCart | controllers/cartOrders/carts.js:138-149 | an absent product leaves the cart as it is. With prod, or at quantity 1, the line is removed. Otherwise that line's quantity drops by 1 and nothing else changes. One line per product is preserved |
| Carts.RemoveBelowZero | controllers/cartOrders/carts.js:142-146 | a line at quantity 0 or below is not removed but goes negative |
| Carts.UpdateUserCart | controllers/cartOrders/carts.js:9-77 | the filtered cart is saved, then replaced by UpdatedCart of it when every request went through |
| Carts.AddToUserCart | controllers/cartOrders/carts.js:79-125 | the caller's filtered cart is saved. The edit computed from it is written to the cart of `req.query.userId`. An absent query id fails with TargetMissing, and a target with no cart is left unwritten |
| Carts.RemoveFromUserCart | controllers/cartOrders/carts.js:127-167 | the same for removeFromCart |
| Products.InsertedRows | controllers/product/products.js:146-150 | bulkCreate keeps the old rows and adds each new id with its value, unsold and unbound |
| Products.InsertedSpec | controllers/product/products.js:146-150 | the new rows join the product's unbound keys and no other product's |
| Products.InsertedCount | controllers/product/products.js:146-150 | the product's unbound count grows by the number of rows inserted |
| Products.InsertedUnique | controllers/product/products.js:146-150 | an insert that meets the unique constraint keeps productKey unique |
| Products.CountRows | controllers/product/products.js:152-153 | the counting loop counts the inserted rows |
| Products.AddNewProduct | controllers/product/products.js:108-184 | a missing brandId or categoryId is refused. A name over 100 characters fails the create and writes nothing. An unknown brand or category, or keys that are over 255 characters or break the unique constraint, destroy the product and leave both tables as they were. On success inStock equals the number of keys inserted and moves with the product's unbound count |
| Products.AddNewProductKeys | controllers/product/products.js:391-421 | refuses a missing productId, an unknown product and an empty key list. Succeeds iff every key fits its 255-character column and the keys meet the unique constraint. On success inStock grows by the number of keys, in step with the unbound count |
| Products.DeleteProductKeys | controllers/product/products.js:365-388 | deletes exactly the listed keys of the product that have no order. Keys bound to an order survive. inStock drops by the number deleted, in step with the unbound count. A missing product is found only after the delete |
| Products.EditProductKey | controllers/product/products.js:344-363 | refuses a missing id, an unknown key and a key bound to an order. A value over 255 characters is refused. Otherwise it succeeds iff no other key has the new value. Only that key's value changes |
| Products.AssociationChange | controllers/product/products.js:279-287 | the brand/category row is rewritten iff brandId or categoryId differs from the stored one |
| Products.UpdateProductDetails | controllers/product/products.js:234-319 | refuses a missing productId or product. A changed pair naming an unknown brand or category saves nothing. A name over 100 characters then fails the save, but the new pair stays written. Otherwise the name, prices and pair are saved and inStock is kept |
| Admins.WithoutRole | controllers/admin/admins.js:477 | removing a role's permissions leaves it none and other roles' as they were |
| Admins.Grants | controllers/admin/admins.js:479 | attaching a list grants the role exactly the listed permissions |
| Admins.ReplaceGrants | controllers/admin/admins.js:475-480 | remove-then-attach replaces the role's permissions by the list, not merging, and leaves other roles' alone |
| Admins.AdminAddRootAdmin | controllers/admin/admins.js:14-61 | refused while a root admin exists. Then email, phone and a 6–20 character password are checked before any write. Valid input then succeeds iff a rootAdmin role exists, the name and email fit 100 characters and the phone 20, and no admin has the email. Otherwise the error is RootRoleMissing, ValueTooLong or DuplicateEmail, in that order. On success the new admin is the only root and has the rootAdmin role. At most one root is preserved |
| Admins.EditAdmin | controllers/admin/admins.js:281-338 | refuses a missing or root admin, then a missing name or phoneNo, an invalid phone number, a name over 100 or a phone over 20 characters, and a role that does not exist. Only name, phoneNo and roleId change, and the reply carries the new role's permissions. Root admins are untouched |
| Admins.ResetPasswordForAdmin | controllers/admin/admins.js:340-366 | refuses a missing or empty id, a missing admin and the root admin. Only the password changes, to the digest of a fresh 8-character string |
| Admins.DeleteAdmin | controllers/admin/admins.js:525-541 | refuses a missing or empty id, a missing admin and the root admin. Otherwise only that admin is removed |
| Admins.AddNewRole | controllers/admin/admins.js:454-468 | a name over 50 characters is refused, then a name already taken. Otherwise it creates the role. It succeeds iff the list names only existing permissions and none of them twice. A failed attach destroys the role, leaving both tables as they were. On success the role has exactly the listed permissions and other roles keep theirs |
| Admins.EditRole | controllers/admin/admins.js:470-486 | status 200 always. A missing role and the rootAdmin role change nothing. Otherwise the role's permissions are replaced by the list. An attach naming an unknown or repeated permission fails and leaves the role with none, its name unsaved. With the permissions replaced, a name over 50 characters or one that clashes is not saved. Otherwise the name changes. The rootAdmin role is untouched |
| Admins.DeleteRole | controllers/admin/admins.js:488-514 | refuses a missing role, the rootAdmin role and a role some admin has. Otherwise it always succeeds, removing the role with its permissions |

## Left out

- E-mail delivery (`sendEmail`, `sendKeys`, `sendOtpToEmail`) and the text of the messages: the webhook's notices are a datatype.
- The Razorpay client. The model keeps only the ×100 scaling of the amount. The webhook's `amount / 100` is a floating-point division that only feeds e-mail text, so it is not modelled.
- HMAC-SHA256, JWT, bcrypt and validator are parameters of the model. Sign-in, token refresh, users.js and the auth middlewares are not part of this model.
- bcrypt salts are random: the model's `hash` parameter is a fixed function.
- Timers and concurrency. Handlers run to completion one at a time. The expiry timer is the event `Orders.Expire`. The cart-clearing timer of `createOrder` runs right after it. Races between parallel requests are not modelled, including a stale lock's keys being re-claimed before `createOrder` binds them.
- Floating-point prices: `marketPrice` and `actualPrice` are integers.
- Cart and lock lines carry no `name` or `marketPrice` fields, because nothing in the core reads them.
- The image upload and deletion, and the `description` field of products.
- `calculateGST` is defined in no file of the repository. It is the parameter `gst`.
- `unlockKeysIndividual` is also undefined. `initiatePaymentIndividual` is not routed: only its claim, `getProductKeysIndividual`, is modelled.
- `addNewAdmin`, `changePasswordForSelf`, `fetch*`, `view*`, `deleteProducts`, brand, category and review CRUD, the permission middlewares, pagination helpers and `searchResult` are outside the core.
- Double responses: a `next(...)` that does not return sends an error response and lets the handler go on. The model follows the database effects. Its result is what the handler goes on to produce, not the response already sent.
- Carts.UpdateUserCart: two requests reach `next` but do not end the request, and the cart is still written. One is a new product with a negative quantity, the other a missing product at quantity 0. The model then returns Ok with the cart written, although the client has already received the error.
- `addNewProductKeys` does not await `product.save()`. The model treats the save as done.
- Admins.ResetPasswordForAdmin: `admin.save()` is not awaited either, so the new password is sent before it is written. The model treats the save as done.
- Products.AddNewProduct: inStock is a 32-bit INTEGER column. Overflow past 2^31 - 1 keys is not modelled, here or in AddNewProductKeys.
- The description column (STRING(500)) is not modelled, so neither is its width limit.
- Null and `undefined` request fields are modelled as `Option`, or as the empty string for `editAdmin`'s name and phoneNo, only where the source tests them. Elsewhere a missing field is assumed present.
- editProductKey: a `null` productKey, which the NOT NULL constraint would reject, is not modelled.
- updateProductDetails: an absent `brandId` or `categoryId`, which compares as changed, is not modelled.
- Sequelize `WHERE x = undefined` errors are not modelled.
- Products.DeleteProductKeys: takes the id list already split on ',' and trimmed. String splitting is not modelled.
- Admins.AdminAddRootAdmin: password length counts Dafny characters (code points), while JavaScript's `.length` counts UTF-16 code units. They differ outside the Basic Multilingual Plane.
- Orders.Expire: the timer reads `key.createdAt` without checking that a lock is still there. A second checkout whose claim fails destroys the lock first, so the callback throws and the rejection inside `setTimeout` is never handled. The model treats that case as an expiry that does nothing.
- Orders.GetProductKeysIndividual: on a failed claim the source calls `next`, which is not defined in that function. It therefore rejects with a ReferenceError instead of returning `false`, and the model returns `false`. The rollback happens before the call in both.
- Orders.TotalPages: page and limit are integers. A non-numeric query (`+q.page` giving NaN) is not modelled.
- Orders.PaymentFailed: the handler never sends a response, so the client waits until it times out. The model's result is the failed order row written.
- Orders.SettlementInStep: assumes the lock's values are still held by order-unbound keys of their products when `createOrder` runs. The source does not check this: a lock expired and re-claimed elsewhere, or an order settled twice, breaks it.
- The productBrandCategories row is folded into the product. Destroying a product in the rollback of `addNewProduct` removes its brand/category pair with it.
- Products.AddNewProduct: the new product starts with no keys, so StockInSync is stated only for products that had no unbound keys. A fresh UUID has none.
- Orders.CurrentExpiryFires: Dafny proves it with no proof steps. It is kept as a statement of the design, not as a proof.
