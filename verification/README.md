# A verified model of the produce-marketplace REST back end

The back end serves administrators, retailers, products, orders and a unified
user table. Each entity has a create / list / get / update / soft-delete /
hard-delete service over one Prisma table, and an Express controller that maps
the service's outcome to an HTTP status. Two JWT middlewares guard the user
routes. This project models three parts of it in Dafny:

- **The services.** Every service is a pure function over an immutable table
  (`Store.Table`: rows keyed by id, each with `deletedAt: Option<Time>`, plus the
  store-native listing order). A call returns `Ok((table', row))`, or `Err(message)`
  with the exact text the service throws. Joi validation is a small schema
  interpreter (`Joi`), and its first complaint becomes "Validation error: …".
  The model records:
  - which operations validate before touching the store;
  - which ones check "absent or soft-deleted";
  - which listings hide soft-deleted rows;
  - the `skip (page-1)*limit, take limit` window.
- **The controllers.** Each handler takes the request's parts (body, `:id`, query,
  the clock, a fresh id) and returns the new table and the response envelope
  (`Http.Response`). The model records which branch answers which status. It
  proves that the branches switching on "X not found" are dead, because every
  service rewrites that message before it throws.
- **The guards.** `authMiddleware` and `adminMiddleware` are decision functions over
  the `Authorization` header, with the token verifier as a parameter.

Password hashing is a parameter `Crypto.Hasher(hash, matches)`, and so is the
token verifier. Clocks and fresh ids are arguments too.

Where the system's written description and the code disagree, the model follows the code:
- only orders and admins are filtered out of listings when soft-deleted. Products,
  retailers and users are listed with their deleted rows.
- the third product category is spelled "Serials".
- admin, retailer and user soft deletes re-stamp an already deleted row. Product
  and order soft deletes refuse it.

## Model

| member | source | states |
|---|---|---|
| Http.CheckId | src/controllers/adminController.js:6 | `idSchema` accepts an id exactly when it is non-empty |
| Http.Pagination | src/controllers/adminController.js:7-10 | the query is admitted exactly when it holds only `page` and `limit`, each a whole number from 1 to 2^53-1 (`Number.MAX_SAFE_INTEGER`), given as a number or a plain decimal numeral; absent ones default to 1 and 10, and the numbers passed on are the ones given |
| Http.PaginationOfQueryText | src/controllers/adminController.js:7-10 | for p and l from 1 to 2^53-1, a query `?page=p&limit=l` written in decimal yields exactly page p of size l |
| Http.UnsafePageRefused | src/controllers/adminController.js:8 | a page of 2^53 is refused while 2^53-1 is admitted |
| Http.PagingAdmits | src/controllers/adminController.js:7-10 | the Joi pagination schema admits a query exactly when it holds only `page` and `limit`, each a whole number from 1 to 2^53-1 given as a number or a plain decimal numeral |
| Joi.Validate | src/services/adminService.js:16-19 | `schema.validate` succeeds exactly when the schema admits the object, and then, for a schema without repeated keys, returns each given value converted and each missing default filled in |
| Joi.BooleanWordsIgnoreCase | src/services/productService.js:11 | `Joi.boolean()` converts "TRUE" and "False" and refuses other words |
| Joi.UnsafeNumberRefused | src/services/productService.js:10 | a number past 2^53-1 is refused with "must be a safe number" before any integer or minimum rule |
| Store.FindMany | src/services/adminService.js:36-48 | fails exactly when the offset `(page-1)*limit` passes 2^63-1, the range of Prisma's 64-bit `skip`; otherwise returns exactly the `(page-1)*limit` to `page*limit` slice of the stored rows the filter keeps, in listing order: full pages of `limit` rows, a shorter last page, and nothing past the end |
| Store.FindManyPagesDisjoint | src/services/adminService.js:37-38 | two different pages of one listing, when both are served, share no row |
| Store.FindManyListsEveryKeptRow | src/services/adminService.js:36-43 | in a table of at most 2^63 rows, every stored row the filter keeps appears on some page whose offset the store accepts, for any page size |
| AdminService.SchemaAdmits | src/services/adminService.js:7-12 | the admin schema admits a body exactly when it has name, email, password and profileImage as non-empty strings, a well-formed email, and no other key |
| AdminService.CreateAdmin | src/services/adminService.js:15-31 | an invalid body fails with the validation message before the store is touched; a valid body succeeds exactly when the id is fresh and stores the four fields as sent; any other failure is "Error creating admin" |
| AdminService.DuplicateEmailAccepted | src/services/adminService.js:15-31 | two admins with one e-mail address are both created: no look-up precedes `create` |
| AdminService.AdminPasswordStoredInPlain | src/services/adminService.js:22-24 | the stored password is the one sent, unhashed |
| AdminService.GetAdmins | src/services/adminService.js:34-49 | "Error fetching admins" exactly when the offset passes 2^63-1; otherwise exactly the `(page-1)*limit` to `page*limit` slice of the live admins in listing order |
| AdminService.GetAdminById | src/services/adminService.js:52-70 | succeeds exactly for a stored, live admin; "Admin not found" is rethrown as "Error fetching admin" |
| AdminService.UpdateAdmin | src/services/adminService.js:73-103 | validation first; then it succeeds exactly for a live admin, overwrites the four fields and keeps id and deletedAt; a missing or deleted admin gives "Error updating admin" |
| AdminService.DeleteAdmin | src/services/adminService.js:106-122 | succeeds for any stored admin, deleted or not, and stamps deletedAt with the clock |
| AdminService.PermanentlyDeleteAdmin | src/services/adminService.js:125-148 | succeeds exactly for a stored admin, soft-deleted ones included, and removes only that row |
| AdminService.CreatedAdminIsFetchable | src/services/adminService.js:15-70 | a created admin is fetched back by its id |
| AdminService.SoftDeletedAdminIsHidden | src/services/adminService.js:34-122 | after a soft delete the admin cannot be fetched or updated, is on no page the listing serves, and can be deleted again |
| AdminService.LiveAdminIsListed | src/services/adminService.js:34-49 | in a table of at most 2^63 rows, a live admin is on some page the listing serves |
| AdminService.PurgedAdminIsGone | src/services/adminService.js:125-148 | after a purge every id-keyed operation fails |
| AdminController.CreateAdmin | src/controllers/adminController.js:13-32 | 201 exactly for a valid body and a fresh id; every failure is 400 and leaves the table unchanged |
| AdminController.GetAdmins | src/controllers/adminController.js:35-64 | 400 exactly for a bad query; 500 with "Error fetching admins" exactly for an admitted query whose offset passes 2^63-1; otherwise 200 with the `(page-1)*limit` to `page*limit` slice of the live admins for the page and limit asked |
| AdminController.GetAdminsServesTheAskedPage | src/controllers/adminController.js:35-64 | for p and l up to 2^53-1 with `(p-1)*l` at most 2^63-1, `?page=p&limit=l` answers 200 with the live admins at positions `(p-1)*l` to `p*l` of the listing |
| AdminController.GetAdminsOffsetOverflow | src/controllers/adminController.js:47-62 | `?page=4294967297&limit=4294967296`, which Joi admits, answers 500 with "Error fetching admins": the offset is 2^64 |
| AdminController.GetAdminById | src/controllers/adminController.js:67-105 | 200 exactly for a live admin, 400 exactly for an empty id; a missing or deleted admin is 500, never 404 |
| AdminController.UpdateAdmin | src/controllers/adminController.js:108-146 | 200 exactly for a non-empty id, a valid body and a live admin; the table changes only on 200 |
| AdminController.UpdateAdminNever404 | src/controllers/adminController.js:127-145 | the 404 branch is dead: a missing or deleted admin gets 400 with "Error updating admin" |
| AdminController.DeleteAdmin | src/controllers/adminController.js:149-173 | 204 with no body exactly when the admin is stored, otherwise 400 or 500 with the table unchanged |
| AdminController.PermanentlyDeleteAdmin | src/controllers/adminController.js:176-205 | 200 with `data: null` exactly when the admin is stored, and the row is gone |
| RetailerService.SchemaAdmits | src/services/retailerService.js:8-13 | the retailer schema admits exactly the four non-empty string fields with a well-formed email |
| RetailerService.CreateRetailerAsWritten | src/services/retailerService.js:16-43 | as written, an invalid body gets the validation message and every valid body fails with "Error creating retailer" |
| RetailerService.CreateRetailer | src/services/retailerService.js:16-43 | with the hash called: a valid body succeeds exactly for a fresh id and stores hash(password) |
| RetailerService.DuplicateEmailAccepted | src/services/retailerService.js:23-33 | two retailers with one email are both created |
| RetailerService.CreateRetailerDiscrepancy | src/services/retailerService.js:5 | one concrete valid body fails as written and succeeds once corrected |
| RetailerService.GetRetailers | src/services/retailerService.js:46-58 | "Error fetching retailers" exactly when the offset passes 2^63-1; otherwise exactly the `(page-1)*limit` to `page*limit` slice of all stored retailers, deleted ones included |
| RetailerService.GetRetailerById | src/services/retailerService.js:61-79 | succeeds exactly for a live retailer; otherwise "Error fetching retailer" |
| RetailerService.UpdateRetailerAsWritten | src/services/retailerService.js:82-121 | as written, every valid update fails with "Error updating retailer", found or not |
| RetailerService.UpdateRetailer | src/services/retailerService.js:82-121 | with the hash called: succeeds exactly for a live retailer and stores hash(password) |
| RetailerService.UpdateRetailerDiscrepancy | src/services/retailerService.js:101 | updating a live retailer fails as written and succeeds once corrected |
| RetailerService.DeleteRetailer | src/services/retailerService.js:124-140 | any stored retailer is re-stamped, deleted or not |
| RetailerService.PermanentlyDeleteRetailer | src/services/retailerService.js:143-166 | succeeds exactly for a stored retailer and removes only its row |
| RetailerService.SoftDeletedRetailerIsListed | src/services/retailerService.js:46-58 | in a table of at most 2^63 rows, a soft-deleted retailer is still on some page the listing serves |
| RetailerService.SoftDeletedRetailerLifecycle | src/services/retailerService.js:61-140 | after a soft delete the retailer cannot be fetched or updated, and a second delete re-stamps it |
| RetailerService.PurgedRetailerIsGone | src/services/retailerService.js:143-166 | after a purge every id-keyed operation fails |
| RetailerController.CreateRetailer | src/controllers/retailerController.js:13-39 | with the hash called: without an upload it is 400 with the TypeError text; otherwise 201 exactly when the body with the upload's path as profileImage is valid and the id fresh; the stored profileImage is that path |
| RetailerController.CreateRetailerAsWritten | src/controllers/retailerController.js:13-39 | as written, every request is 400 with nothing stored: the TypeError text without an upload, the validation message for an invalid form, and "Error creating retailer" for a valid one |
| RetailerController.UploadSuppliesProfileImage | src/controllers/retailerController.js:20 | with the hash called: the uploaded path overrides any profileImage sent and completes an otherwise valid form |
| RetailerController.GetRetailers | src/controllers/retailerController.js:42-71 | 400 exactly for a bad query; 500 with "Error fetching retailers" exactly for an admitted query whose offset passes 2^63-1; otherwise 200 with the `(page-1)*limit` to `page*limit` slice of all stored retailers, deleted ones included |
| RetailerController.GetRetailerById | src/controllers/retailerController.js:74-112 | 200 exactly for a live retailer; a missing or deleted one is 500 |
| RetailerController.UpdateRetailer | src/controllers/retailerController.js:115-153 | with the hash called: 200 exactly for a non-empty id, a valid body and a live retailer |
| RetailerController.UpdateRetailerAsWritten | src/controllers/retailerController.js:115-153 | as written, every update is 400 with nothing changed, and a valid one gets "Error updating retailer" whether or not the retailer exists |
| RetailerController.UpdateRetailerNever404 | src/controllers/retailerController.js:135-152 | a missing or deleted retailer gets 400, never 404 |
| RetailerController.RetailerHandlersDiscrepancy | src/services/retailerService.js:5 | a complete form with an upload is 400 as written and 201 once the hash is called; a valid update of a live retailer is 400 as written and 200 once corrected |
| RetailerController.DeleteRetailer | src/controllers/retailerController.js:156-180 | 204 exactly for a stored retailer, otherwise 400 or 500 |
| RetailerController.PermanentlyDeleteRetailer | src/controllers/retailerController.js:183-212 | 200 with `data: null` exactly for a stored retailer |
| ProductService.SchemaAdmits | src/services/productService.js:7-15 | the product schema admits exactly the seven keys: four non-empty strings, a number or plain decimal numeral within ±(2^53-1), a boolean or "true"/"false" in any letter case, and a category from the list |
| ProductService.ProductOf | src/services/productService.js:23-37 | an admitted body gives a storable record exactly when availability is a real boolean |
| ProductService.CreateProduct | src/services/productService.js:18-48 | validation first; then success exactly for a fresh id and a boolean availability, storing what the body describes |
| ProductService.NegativePriceStored | src/services/productService.js:10 | a negative price passes validation and is stored |
| ProductService.TextAvailabilityRefused | src/services/productService.js:11 | availability "true" as text passes Joi but the store refuses it: "Error creating product" |
| ProductService.GetProducts | src/services/productService.js:51-63 | "Error fetching products" exactly when the offset passes 2^63-1; otherwise exactly the `(page-1)*limit` to `page*limit` slice of all stored products, deleted ones included |
| ProductService.GetProductsByCategory | src/services/productService.js:66-87 | succeeds exactly for a listed category string and an offset up to 2^63-1, with the `(page-1)*limit` to `page*limit` slice of the products in that category, deleted ones included; a bad category gives the validation message, a valid one with a larger offset "Error fetching products by category" |
| ProductService.CategoryListsEveryProduct | src/services/productService.js:66-87 | in a table of at most 2^63 rows, every product of a category is on some page of that category's listing |
| ProductService.GetProductById | src/services/productService.js:90-108 | succeeds exactly for a live product; otherwise "Error fetching product" |
| ProductService.UpdateProduct | src/services/productService.js:111-154 | validation first; success exactly for a live product and a boolean availability; id, deletedAt and listing position kept |
| ProductService.DeleteProduct | src/services/productService.js:157-183 | succeeds exactly for a live product and stamps it; a deleted one is refused |
| ProductService.PermanentlyDeleteProduct | src/services/productService.js:186-209 | succeeds exactly for a stored product and removes its row |
| ProductService.CreatedProductIsFetchable | src/services/productService.js:18-108 | a created product is fetched back by its id |
| ProductService.SoftDeleteIsNotRepeatable | src/services/productService.js:157-183 | after a soft delete a second delete, a fetch and an update fail, but in a table of at most 2^63 rows the product is still on a page the listing serves |
| ProductService.PurgedProductIsGone | src/services/productService.js:186-209 | after a purge every id-keyed operation fails |
| ProductController.CreateProduct | src/controllers/productController.js:13-32 | 201 exactly for a valid body with boolean availability and a fresh id; every failure is 400 |
| ProductController.GetProducts | src/controllers/productController.js:35-64 | 400 exactly for a bad query; 500 with "Error fetching products" exactly for an admitted query whose offset passes 2^63-1; otherwise 200 with the `(page-1)*limit` to `page*limit` slice of all stored products, deleted ones included |
| ProductController.GetProductById | src/controllers/productController.js:67-105 | 200 exactly for a live product; otherwise 400 or 500, never 404 |
| ProductController.CreatedProductIsServed | src/controllers/productController.js:13-105 | what `createProduct` answered 201 with, `getProductById` serves back |
| ProductController.UpdateProduct | src/controllers/productController.js:108-137 | 200 exactly for a valid update of a live product; a missing product is 400 with "Error updating product" |
| ProductController.DeleteProduct | src/controllers/productController.js:140-169 | 200 with `data: null` exactly for a live product, otherwise 400 or 500 |
| ProductController.SecondDeleteFails | src/controllers/productController.js:140-169 | a second delete of the same product answers 500 |
| ProductController.PermanentlyDeleteProduct | src/controllers/productController.js:172-201 | an empty id is 400 with `data: null`; otherwise 200 exactly for a stored product |
| OrderService.SchemaAdmits | src/services/orderService.js:7-14 | the order schema admits exactly the five required non-empty strings with a well-formed email, plus an optional status from the list |
| OrderService.CreateOrder | src/services/orderService.js:17-33 | validation first; success exactly for a fresh id; the body is stored as sent, with no status when none was given |
| OrderService.DefaultStatusNotStored | src/services/orderService.js:13-25 | Joi's "Processing" default never reaches the store |
| OrderService.ValidatedStatusDefaults | src/services/orderService.js:13 | validating an order without a status yields status "Processing" |
| OrderService.GetOrders | src/services/orderService.js:36-51 | "Error fetching orders" exactly when the offset passes 2^63-1; otherwise exactly the `(page-1)*limit` to `page*limit` slice of the live orders in listing order |
| OrderService.GetOrderById | src/services/orderService.js:54-79 | succeeds exactly for a live order whose product is stored, returning both |
| OrderService.UpdateOrder | src/services/orderService.js:82-111 | validation first; success exactly for a live order; an absent status keeps the stored one |
| OrderService.UpdateKeepsStatus | src/services/orderService.js:99-105 | an update naming no status keeps the stored status |
| OrderService.DeleteOrder | src/services/orderService.js:114-140 | succeeds exactly for a live order; a deleted one is refused |
| OrderService.PermanentlyDeleteOrder | src/services/orderService.js:143-166 | succeeds exactly for a stored order and removes its row |
| OrderService.OrphanedOrderUnreadable | src/services/orderService.js:36-79 | after its product is purged an order cannot be fetched, yet in a table of at most 2^63 rows it is still on a page the listing serves |
| OrderService.CreatedOrderIsFetchable | src/services/orderService.js:17-79 | a created order is fetched back with its product while the product is stored |
| OrderService.SoftDeletedOrderIsHidden | src/services/orderService.js:36-140 | after a soft delete the order is hidden from every read and from every page the listing serves |
| OrderService.PurgedOrderIsGone | src/services/orderService.js:143-166 | after a purge every id-keyed operation fails |
| OrderController.CreateOrder | src/controllers/orderController.js:13-32 | 201 exactly for a valid body and a fresh id, otherwise 400 |
| OrderController.UpdateOrder | src/controllers/orderController.js:35-80 | 200 exactly for a non-empty id, a valid body and a live order |
| OrderController.UpdateOrderStatus | src/controllers/orderController.js:35-80 | never 404; 400 exactly for a bad id or body; a missing order is 500 |
| OrderController.GetOrders | src/controllers/orderController.js:83-112 | 400 exactly for a bad query; 500 with "Error fetching orders" exactly for an admitted query whose offset passes 2^63-1; otherwise 200 with the `(page-1)*limit` to `page*limit` slice of the live orders |
| OrderController.GetOrderById | src/controllers/orderController.js:115-153 | 200 exactly for a live order whose product is stored; otherwise 400 or 500 |
| OrderController.DeleteOrder | src/controllers/orderController.js:156-194 | 200 exactly for a live order, with the row stamped |
| OrderController.PermanentlyDeleteOrder | src/controllers/orderController.js:197-235 | 200 exactly for a stored order, with the row removed |
| OrderController.DeletionsNever404 | src/controllers/orderController.js:156-235 | neither deletion answers 404; a missing order is 500 |
| OrderController.OrphanedOrderAnswers500 | src/controllers/orderController.js:115-153 | an order whose product was purged answers 500 by id |
| AuthService.AdminSchemaAdmits | src/services/authService.js:8-13 | the admin user schema admits credentials with an optional role "admin" and nothing else |
| AuthService.RetailerSchemaAdmits | src/services/authService.js:16-23 | the retailer user schema admits credentials, farmName and location, an optional role "retailer", and nothing else |
| AuthService.FindByEmail | src/services/authService.js:40-44 | the look-up by email finds a user exactly when one holds that address, deleted or not |
| AuthService.FindByEmailUnique | src/services/authService.js:40-44 | with unique emails, the look-up by a stored user's email finds exactly that user |
| AuthService.CreateUser | src/services/authService.js:32-74 | no schema raises the TypeError; invalid input fails with the validation message; a taken email fails with "Error creating user: User with the same email already exists"; otherwise success exactly for a fresh id, storing hash(password) |
| AuthService.CreatedPasswordIsHashed | src/services/authService.js:56-62 | the stored password is the hash of the one sent and differs from it under a hiding hash |
| AuthService.CreateKeepsEmailsUnique | src/services/authService.js:40-67 | creation keeps the emails unique |
| AuthService.LoginUser | src/services/authService.js:77-105 | invalid input fails with the validation message; otherwise success exactly when a live user with that email matches the password, and every refusal is "Error logging in user" |
| AuthService.LoginSchemaAdmits | src/services/authService.js:26-29 | the login schema admits exactly a non-empty well-formed email and a non-empty password |
| AuthService.SignUpThenLogIn | src/services/authService.js:32-105 | a user who has just signed up logs in with the same email and password |
| AuthService.GetUsers | src/services/authService.js:108-123 | "Error fetching users" exactly when the offset passes 2^63-1; otherwise exactly the `(page-1)*limit` to `page*limit` slice of the users with the role asked for, or of all users when none is given, deleted ones included |
| AuthService.GetUsersListsEveryMatch | src/services/authService.js:108-123 | in a table of at most 2^63 rows, every user of the role, or every user when none is given, is on some page the listing serves |
| AuthService.GetUserById | src/services/authService.js:126-144 | succeeds exactly for a live user whose stored role equals the one asked for |
| AuthService.UpdateUser | src/services/authService.js:147-189 | validation first; success exactly for a live user of the body's role whose new email no other user holds; name, email and hash(password) are written, absent farmName or location are kept |
| AuthService.UpdateKeepsEmailsUnique | src/services/authService.js:169-182 | an update keeps the emails unique |
| AuthService.UpdateWithoutRoleFails | src/services/authService.js:161-163 | a body without a role never updates |
| AuthService.DeleteUser | src/services/authService.js:192-208 | any stored user is stamped, deleted or not |
| AuthService.PermanentlyDeleteUser | src/services/authService.js:211-234 | succeeds exactly for a stored user and removes its row |
| AuthService.SoftDeletedUserBlocksEmail | src/services/authService.js:40-50 | a soft-deleted user's email still blocks a new sign-up |
| AuthService.SoftDeleteRestamps | src/services/authService.js:192-208 | a second soft delete succeeds and re-stamps |
| AuthService.PurgedUserIsGone | src/services/authService.js:211-234 | after a purge the user cannot be fetched or deleted |
| AuthController.SchemasUndeclared | src/controllers/authController.js:1-3 | neither `paginationSchema` nor `idSchema` is declared, so both raise a ReferenceError |
| AuthController.CreateUserAsWritten | src/controllers/authController.js:6-35 | as written, every sign-up is 400 with the TypeError text and nothing is stored |
| AuthController.CreateUser | src/controllers/authController.js:6-35 | with the role's schema passed: 201 exactly when the stripped body is admitted, the id fresh and the email unused; any failure is 400 |
| AuthController.AdminSignUpDropsFarmFields | src/controllers/authController.js:11-14 | an admin body with farm fields is refused by the admin schema but admitted once stripped |
| AuthController.RoleSchemaFitsStripped | src/controllers/authController.js:8-16 | whatever stripped body the role's schema admits, it kept the email and password the request sent, so the password hashed is the one sent |
| AuthController.CreateUserDiscrepancy | src/controllers/authController.js:16 | a valid admin sign-up is 400 as written and 201 once corrected |
| AuthController.LoginUser | src/controllers/authController.js:38-70 | 200 exactly when the user can log in; the payload is the user's public fields, never the password; every failure is 401 |
| AuthController.LoginResponseHidesHash | src/controllers/authController.js:49-58 | the login response depends on the stored hash only through whether it matches |
| AuthController.GetUsersAsWritten | src/controllers/authController.js:73-103 | as written, always 500 with "paginationSchema is not defined" |
| AuthController.GetUsers | src/controllers/authController.js:73-103 | with the schema declared: 400 exactly for a bad query; 500 with "Error fetching users" exactly for an admitted query whose offset passes 2^63-1; otherwise 200 with the `(page-1)*limit` to `page*limit` slice of all users |
| AuthController.RoleQueryRefused | src/controllers/authController.js:75-86 | a query naming a role is refused by the pagination schema, so a 200 lists users of every role |
| AuthController.GetUserByIdAsWritten | src/controllers/authController.js:106-145 | as written, always 500 with "idSchema is not defined" |
| AuthController.GetUserById | src/controllers/authController.js:106-145 | with the schema declared: 200 exactly for a live user whose role equals the query's; a query without a role never gets 200 |
| AuthController.UpdateUserAsWritten | src/controllers/authController.js:148-178 | as written, always 400 with "idSchema is not defined" |
| AuthController.UpdateUser | src/controllers/authController.js:148-178 | with the schema declared and passed: 200 exactly for a valid update of a live user of the body's role, role kept; otherwise 400 |
| AuthController.DeleteUserAsWritten | src/controllers/authController.js:181-210 | as written, always 500 with "idSchema is not defined" |
| AuthController.DeleteUser | src/controllers/authController.js:181-210 | with the schema declared: 200 exactly for a stored user, deleted or not |
| AuthController.PermanentlyDeleteUserAsWritten | src/controllers/authController.js:213-242 | as written, always 500 with "idSchema is not defined" |
| AuthController.PermanentlyDeleteUser | src/controllers/authController.js:213-242 | with the schema declared: 200 exactly for a stored user, with the row removed |
| AuthController.UndeclaredSchemaDiscrepancy | src/controllers/authController.js:75 | for a stored user, listing and both deletions fail as written and succeed once declared |
| AuthController.GetUserByIdDiscrepancy | src/controllers/authController.js:108 | a live user asked for by its role is 500 as written and 200 once declared |
| Guards.Split | src/middlewares/authMiddleware.js:19 | `split(' ')` gives at least one piece, at least two exactly when the header holds a space, and no piece holds a space |
| Guards.JoinSplit | src/middlewares/authMiddleware.js:19 | joining the pieces of a split gives the string back |
| Guards.SplitJoin | src/middlewares/authMiddleware.js:19 | splitting a join of space-free pieces gives the pieces back |
| Guards.Token | src/middlewares/authMiddleware.js:19 | the second piece exists exactly when the header holds a space, and holds no space |
| Guards.AuthGuard | src/middlewares/authMiddleware.js:7-43 | a missing or empty header is 401; the request proceeds exactly when the second word is non-empty and verifies, with the decoded claims as the user; every refusal is the 401 envelope |
| Guards.AuthGuardNever403 | src/middlewares/authMiddleware.js:7-43 | the guard never answers 403 |
| Guards.TokenIsSecondWord | src/middlewares/authMiddleware.js:19-33 | `scheme token` proceeds exactly when the token is non-empty and verifies |
| Guards.SchemeIgnored | src/middlewares/authMiddleware.js:19 | the first word is never checked: two headers with the same tail are treated alike |
| Guards.TokenAfterScheme | src/middlewares/authMiddleware.js:19 | after a first word without a space, the token is the first space-free piece of the rest of the header |
| Guards.AdminGuard | src/middlewares/adminMiddleware.js:7-41 | a missing header or a whole header that does not verify is 401; claims without role "admin" are 403; otherwise it proceeds with the claims |
| Guards.AdminGuardVerifiesWholeHeader | src/middlewares/adminMiddleware.js:8-20 | the answer depends only on what the verifier makes of the whole header |
| Guards.ChainAlwaysRejects | src/middlewares/adminMiddleware.js:20 | if the verifier refuses every string with a space, no request passes both guards, and the chain answers 401 |
| Guards.ChainOpensForLenientVerifier | src/middlewares/authMiddleware.js:19 | without that assumption a verifier can let "Bearer t" through both guards |
| Guards.AdminGuardOnToken | src/middlewares/adminMiddleware.js:7-41 | corrected: the admin guard verifies the header's second word; it proceeds exactly when the first guard does and the claims carry role "admin", and answers 403 exactly when the first guard proceeds with other claims |
| Guards.ChainOnTokenAdmitsAdmins | src/routes/authRoutes.js:15 | under the verifier that closes the written chain, `scheme token` is still refused by the written chain, while the corrected chain lets it through exactly when the token verifies to admin claims and answers 403 for other valid tokens |

## Left out

- The Prisma client and its connection. Each table is an immutable map plus a fixed listing order. Foreign keys are not enforced: an order may name a product that does not exist.
- Prisma's own error texts are one constant. Only `createUser` lets a store error's text reach the caller.
- bcrypt and its salt are the `Crypto.Hasher` parameter. `verifyPassword` is its `matches`.
- JWT signing and verifying are not modelled. Verifying is a parameter of the guards.
- AuthController.LoginUser: the `accessToken` is left out. `generateToken` (src/utils/hashPassword.js:16-18) refers to a `jwt` its module never imports, so its promise rejects with "jwt is not defined". The handler neither awaits nor catches it (src/controllers/authController.js:42), so the 200 carries `accessToken: {}`, and the rejection goes unhandled; under the defaults of Node.js 15 and later that ends the process after every successful login. The process lifetime is outside this model, and so is whether the 200 reaches the client first.
- AuthController.CreateUser: the same holds for the sign-up's `accessToken` (src/controllers/authController.js:18): the 201 carries `accessToken: {}` and the unhandled rejection ends the process.
- Joi.IsEmail: a structural stand-in for Joi's e-mail check (one '@' with text on both sides). It admits some addresses Joi refuses, such as "a@b", whose domain has no registered top-level part. Every schema with an e-mail key, and every "exactly when valid" contract built on one, inherits that difference.
- Joi's message for an unknown key does not name the key, because request objects are unordered maps here. Only the "Validation error" prefix is observed by the controllers.
- Joi.Validate: numbers are exact reals, not IEEE doubles. Numerals are plain decimals (digits with an optional fraction). Joi also converts a sign, surrounding white space, an exponent ("1e3"), ".5" and "5.", which the model refuses. It also refuses numerals that do not survive a round trip through a double, which the model admits. Boolean words ignore only ASCII letter case.
- Http.Pagination: inherits the numeral grammar of Joi.Validate: "+2", " 2 " and "1e1" are 400 here but admitted by Joi. The safe-integer bound is modelled.
- Http.PagingAdmits: same numeral grammar as Http.Pagination.
- AdminController.GetAdmins: "400 exactly for a bad query" inherits the numeral grammar of Http.Pagination, and "500 exactly when the offset passes 2^63-1" inherits the exact offset of Store.FindMany.
- Store.FindMany: the offset `(page-1)*limit` is computed exactly, where the program computes it as an IEEE double. Exact offsets from 2^63-512 up to 2^63-1 round to 2^63, so the program already fails there while the model serves a page. Above 2^53 the rounded offset can differ from the exact one, which changes no page of a table shorter than 2^53 rows. The bound itself is taken from the signed 64-bit type of Prisma's `skip` argument.
- Store.FindManyListsEveryKeptRow: only for tables of at most 2^63 rows, and so are AdminService.LiveAdminIsListed, RetailerService.SoftDeletedRetailerIsListed, ProductService.CategoryListsEveryProduct, ProductService.SoftDeleteIsNotRepeatable, OrderService.OrphanedOrderUnreadable and AuthService.GetUsersListsEveryMatch. Further down no offset the store accepts reaches a row, in the program as in the model.
- RetailerController.GetRetailers: same as AdminController.GetAdmins.
- ProductController.GetProducts: same as AdminController.GetAdmins.
- OrderController.GetOrders: same as AdminController.GetAdmins.
- AuthController.GetUsers: same as AdminController.GetAdmins.
- ProductService.SchemaAdmits: a price numeral such as "1e3" or " 5 " is refused here, though Joi converts it. The price is an exact real.
- ProductService.CreateProduct: inherits the price numeral grammar of ProductService.SchemaAdmits. The program would store `parseFloat` of such a numeral.
- ProductService.UpdateProduct: same as ProductService.CreateProduct.
- ProductController.CreateProduct: same as ProductService.CreateProduct.
- ProductController.UpdateProduct: same as ProductService.CreateProduct.
- RetailerController.CreateRetailer: states the handler over the corrected service. As written, no request is created; see RetailerController.CreateRetailerAsWritten.
- RetailerController.UploadSuppliesProfileImage: holds over the corrected service only. As written, the completed form is 400 "Error creating retailer".
- RetailerController.UpdateRetailer: states the handler over the corrected service. As written, no update answers 200; see RetailerController.UpdateRetailerAsWritten.
- AdminService.CreateAdmin: assumes the admin table has no unique constraint on `email`, so a valid body with a fresh id always succeeds, even when another admin holds the address (AdminService.DuplicateEmailAccepted). The service makes no look-up (src/services/adminService.js:21-24), so with such a constraint the database would refuse the duplicate and the answer would be "Error creating admin". The database schema is not part of this model.
- AdminService.UpdateAdmin: the same assumption: an update of a live admin to an address another admin holds succeeds here; with a unique constraint it would be "Error updating admin".
- AdminController.CreateAdmin: inherits the assumption of AdminService.CreateAdmin in "201 exactly for a valid body and a fresh id".
- AdminController.UpdateAdmin: inherits the assumption of AdminService.UpdateAdmin in "200 exactly for a good id, a valid body and a live admin".
- RetailerService.DuplicateEmailAccepted: assumes the retailer table has no unique constraint on `email`. The database schema is not part of this model. The user table's e-mail check is the service's own look-up.
- OrderService.CreateOrder: assumes the order table's `status` column has no default. An order created without a status is stored with none, which OrderService.DefaultStatusNotStored relies on.
- A `role` query that is not a single string, such as a repeated parameter, is treated as absent.
- Express routing, CORS, morgan, the logger and `console.log` are left out. So are multer and file storage: only the copy of `req.file.path` is modelled. src/routes/retailerRoutes.js:7 mounts no upload middleware, so through that router `createRetailer` always takes the no-upload branch.
- No entry point mounts the admin, retailer or auth routers: app.js mounts none, and src/app.js mounts only the product and order routers. The handlers behind the other three routers are modelled as those routers declare them.
- `new Date()` is a `now` argument. Fresh ids are a `newId` argument.
- The race between a look-up and the following write is a concurrency concern and is left out.
- The JWT secret and other environment configuration are left out.
- The user table's `role` column is taken to default to null when `createUser` omits it.
- AuthService.CreateUser: requires the schema to be absent or one of the two schemas the file declares. Callers pass no other.
- AuthService.UpdateUser: requires the schema to be absent or one of the two declared schemas, as for creation.
- AdminService.GetAdmins: requires page ≥ 1. The only caller passes a validated page. Its failure bound uses the exact offset of Store.FindMany.
- RetailerService.GetRetailers: requires page ≥ 1, as above. Its failure bound uses the exact offset of Store.FindMany.
- ProductService.GetProducts: requires page ≥ 1, as above. Its failure bound uses the exact offset of Store.FindMany.
- ProductService.GetProductsByCategory: requires page ≥ 1. No route calls it. Its failure bound uses the exact offset of Store.FindMany.
- OrderService.GetOrders: requires page ≥ 1, as above. Its failure bound uses the exact offset of Store.FindMany.
- AuthService.GetUsers: requires page ≥ 1, as above. Its failure bound uses the exact offset of Store.FindMany.
- AuthController.CreateUser: requires a valid table, meaning a listing order without duplicates. The database guarantees this.

## Findings

| source | as written | input that shows it | evidently intended | confidence | as-written member | corrected member |
|---|---|---|---|---|---|---|
| src/services/retailerService.js:5 | `hashPassword` is bound to the module's exports object, so `hashPassword(password)` throws a TypeError and every valid creation fails with "Error creating retailer" | body {name "Farm A", email "a@x.com", password "secret", profileImage "uploads/a.png"} on an empty table | call the hash function and store the hash | high, not executed | RetailerService.CreateRetailerAsWritten | RetailerService.CreateRetailer |
| src/services/retailerService.js:101 | the same binding makes every valid update of a live retailer fail with "Error updating retailer" | a live retailer and a valid body | hash the new password and store it | high, not executed | RetailerService.UpdateRetailerAsWritten | RetailerService.UpdateRetailer |
| src/controllers/authController.js:16 | `authService.createUser(user)` passes no schema, so `schema.validate` throws and every sign-up is 400 | an admin body {name, email, password, role "admin"} on an empty table | validate against the schema of the role asked for | medium, not executed | AuthController.CreateUserAsWritten | AuthController.CreateUser |
| src/controllers/authController.js:75 | `paginationSchema` is never declared in this file, so `getUsers` always answers 500 | an empty query | declare the pagination schema as the other controllers do | high, not executed | AuthController.GetUsersAsWritten | AuthController.GetUsers |
| src/controllers/authController.js:108 | `idSchema` is never declared, so `getUserById` always answers 500 | a live user's id with `?role=` its role | declare the id schema | high, not executed | AuthController.GetUserByIdAsWritten | AuthController.GetUserById |
| src/controllers/authController.js:150 | `idSchema` is never declared, so `updateUser` always answers 400; it also passes no schema to the service | any id and body | declare the id schema and pass the role's schema | high, not executed | AuthController.UpdateUserAsWritten | AuthController.UpdateUser |
| src/controllers/authController.js:183 | `idSchema` is never declared, so `deleteUser` always answers 500 | a stored user's id | declare the id schema | high, not executed | AuthController.DeleteUserAsWritten | AuthController.DeleteUser |
| src/controllers/authController.js:215 | `idSchema` is never declared, so `permanentlyDeleteUser` always answers 500 | a stored user's id | declare the id schema | high, not executed | AuthController.PermanentlyDeleteUserAsWritten | AuthController.PermanentlyDeleteUser |
| src/middlewares/adminMiddleware.js:20 | `jwt.verify` receives the whole `Authorization` header, while `authMiddleware` lets a request through only when that header holds a space; so behind both guards (src/routes/authRoutes.js:15, 24, 27) a verifier that refuses strings with a space, as it does compact tokens, refuses everyone | header "Bearer <valid admin token>" on the auth router's `GET /` (src/routes/authRoutes.js:15) | verify the header's second word, as `authMiddleware` does | medium, not executed | Guards.ChainAlwaysRejects | Guards.AdminGuardOnToken |
