# massage-health-declaration-BE, modelled in Dafny

This project models the core of a role-gated CRUD backend written in
TypeScript (Express, Prisma, JWT, bcrypt). It also models the scaffolding
script that generates new entities for that backend. The database is an
in-memory store of tables. Each row has an id, its columns and a
`deletedAt` mark (user rows too; see "Left out"). Signing, verifying
and password comparison are parameters of the model.

What is modelled, module by module:

- **Store** (`store.dfy`): the Prisma calls the services use, over tables
  of rows. These are `findMany`/`count` with a where-clause, `findUnique`,
  `create`, `createMany`, `update`, `delete` and `deleteMany`. The
  `Database` class holds the tables and its methods update them in place.
- **Entity services** (`base_service.dfy`, `field_filter.dfy`,
  `role_service.dfy`, `permission_service.dfy`, `user_service.dfy`,
  `user_response.dfy`):
  - the generic service: listing with the soft-delete predicate and
    pagination, reading by id, writing through allow-lists, and the soft
    delete behind the related-data guard;
  - the role service and its guards;
  - the replace-set of role permissions;
  - the user service and its public projection.
- **Controllers** (`base_controller.dfy`, `login_controller.dfy`): query
  parsing into filters, page, limit and sort, and the status codes of
  create, read, update and delete. Also login, logout and token
  deletion.
- **Sessions and access** (`tokens.dfy`, `auth_middleware.dfy`,
  `check_permissions.dfy`, `login_service.dfy`):
  - the stored per-user token and its lifecycle;
  - the authentication middleware;
  - the permission middleware's all-of check.
- **Errors** (`app_errors.dfy`, `error_helper.dfy`, `error_handler.dfy`,
  `http.dfy`): the six error kinds, the four factories, and the error
  handler's fixed classification order.
- **Validators** (`validation.dfy` and one file per validator): the rule
  chains as predicates over the request body and a snapshot of the
  stored rows.
- **Mail** (`utf8.dfy`, `base64.dfy`, `mailer.dfy`):
  - the RFC 2047 encoded-word subject, using the "B" encoding of
    section 4.1 of RFC 2047;
  - the multipart/mixed body of section 5.1 of RFC 2046;
  - the unpadded base64url `raw` field of section 5 of RFC 4648.
- **Uploads and lists** (`upload.dfy`, `common.dfy`):
  - the format filter and its message;
  - the limits and how errors are passed on;
  - the stored file name and the public URL;
  - `convertToArray`.
- **Generator** (`model_names.dfy`, `schema_lines.dfy`,
  `model_definition.dfy`, `validation_rules.dfy`, `type_mapping.dfy`,
  `import_splices.dfy`):
  - the Prisma model-block parser and the validation rules it writes;
  - the type maps and the Swagger definition;
  - the marker-based insertion of imports into the three configuration
    files.
- **JavaScript values** (`values.dfy`, `strings.dfy`, `wrappers.dfy`):
  JSON-like values, `Number`, `parseInt`, truthiness, and the string
  methods the source relies on.

State that the source changes in place is modelled as classes. These
are the database, the services and controllers that hold it, the
uploaded files and the upload middleware. Loops in the source become
loops with invariants, and each such method is proved equal to a
specification function. The properties are proved about those
functions.

The fourth splice of `addImportsToSwaggerConfig` tests the index of the
definition-import marker instead of the index of the definitions marker.
The model reproduces this as written:
`ImportSplices.SwaggerIncludeBeforeLastCharacter` shows where the
include lands when the definitions marker is missing.

## Model

| member | source | states |
|---|---|---|
| AppErrors.TypeNameRoundTrip | src/middlewares/appError.ts:1-8 | each of the six kinds has its own string value, from which the kind is read back |
| AppErrors.NewAppError | src/middlewares/appError.ts:10-18 | the error keeps the given kind, message and status code; its name is always `AppError` |
| ErrorHelper.CreateBadRequestError | src/utils/errorHelper.ts:3-4 | a BadRequest error with status 400 and the given message |
| ErrorHelper.CreateNotFoundError | src/utils/errorHelper.ts:6-7 | a NotFound error with status 404 and the given message |
| ErrorHelper.CreateConflictError | src/utils/errorHelper.ts:9-10 | a Conflict error with status 409 and the given message |
| ErrorHelper.CreateInternalError | src/utils/errorHelper.ts:12-13 | an Internal error with status 500 and the given message |
| ErrorHandler.HandleError | src/middlewares/errorHandler.ts:7-63 | the tests run in order: an `UnauthorizedError` name or `Unauthorized` message gives 401 with the error's message and `Unauthorized access`; then `FileFormatError` gives 400 with its message; then an AppError gives its own status with its kind as `error` and its message; then any other Error gives 500 with status `error`, its message as `error` and `common.SOMETHING_WENT_WRONG` as `message`; a non-Error gives 400 with status `fail` and exactly the validation errors as `errors` when there are any; `next()` is called exactly when none of these applies |
| ErrorHandler.UnauthorizedMessageWins | src/middlewares/errorHandler.ts:18-24 | an AppError of any kind whose message is `Unauthorized` is answered 401, because that test runs first |
| ErrorHandler.FactoryErrorsKeepStatus | src/middlewares/errorHandler.ts:33-39 | an error from one of the four factories reaches the client with the factory's status and its kind as `error` |
| Store.Select | src/services/BaseService.ts:48-58 | the rows a `where` matches, in table order: a row is kept exactly when it is a row of the table and matches |
| Store.CountZero | src/services/BaseService.ts:103-110 | the count under a `where` is zero exactly when no row matches it |
| Store.Reject | src/services/permissionService.ts:39-43 | the rows `deleteMany` leaves: exactly the rows of the table that do not match |
| Store.FindFirst | src/validators/roleValidator.ts:17-21 | `findFirst` finds a row exactly when some row matches, and the row it finds matches |
| Store.FindById | src/services/BaseService.ts:76-80 | `findUnique` by id finds a row exactly when some row has the id, soft-deleted or not |
| Store.FoundById | src/services/BaseService.ts:76-80 | every row of the table is found by its own id |
| Store.ApplyData | src/services/BaseService.ts:83-89 | an update writes every defined entry of `data` over its column, keeps every other column and the id, and keeps `deletedAt` unless `data` sets it |
| Store.NewRow | src/services/BaseService.ts:20-25 | a created row gets the given id and is well shaped |
| Store.NewRowColumns | src/services/BaseService.ts:20-25 | a created row's columns are exactly the written entries of `data`, and it is live unless `data` gives `deletedAt` a time |
| Store.NewRows | src/services/permissionService.ts:27-29 | `createMany` makes one row per item, with consecutive ids |
| Store.UpdateRows | src/services/BaseService.ts:83-89 | updating by id changes the row with that id and no other |
| Store.RemoveId | src/services/userService.ts:93-99 | deleting by id leaves exactly the rows with another id |
| Store.SelectAfterReject | src/services/permissionService.ts:39-43 | removing the rows of one `where` leaves the selection of a disjoint `where` unchanged |
| Store.FindAfterUpdate | src/services/BaseService.ts:83-89 | after an update by id, the row found by that id is the updated row |
| Store.Database.Create | src/services/BaseService.ts:22-24 | `create` appends the new row under the next id and changes no other table |
| Store.Database.CreateMany | src/services/permissionService.ts:27-29 | `createMany` appends one row per item, returns their number and changes no other table |
| Store.Database.Update | src/services/BaseService.ts:85-88 | without a row of that id, `update` throws and nothing changes; otherwise that row alone is rewritten and returned |
| Store.Database.Delete | src/services/userService.ts:94-98 | without a row of that id, `delete` throws and nothing changes; otherwise that row alone is removed and returned |
| Store.Database.DeleteMany | src/services/permissionService.ts:40-42 | `deleteMany` removes exactly the matching rows and returns how many it removed |
| FieldFilter.Kept | src/utils/utils.ts:19-35 | an empty allow-list returns the input itself; otherwise the result's keys are exactly the allowed keys the input has (even one holding `undefined`), each with its value unchanged |
| FieldFilter.FilterFields | src/utils/utils.ts:19-35 | the loop fills a fresh record equal to `Kept`; the input is a value and is not modified |
| BaseService.CondFor | src/services/BaseService.ts:39-45 | a string filter matches as a substring (`contains`); any other value matches by equality |
| BaseService.WhereFor | src/services/BaseService.ts:34-46 | the `where` has the filter keys plus `deletedAt`; each filter key gets its condition; `deletedAt` is IS NULL unless a filter sets it |
| BaseService.BuildWhere | src/services/BaseService.ts:34-46 | the `forEach` over the filter entries builds exactly `WhereFor` |
| BaseService.LiveRowsOnly | src/services/BaseService.ts:34-36 | without a `deletedAt` filter, every listed row is live |
| BaseService.DeletedAtOverride | src/services/BaseService.ts:38-46 | a caller `deletedAt` filter replaces the base soft-delete condition |
| BaseService.Ordered | src/services/BaseService.ts:31-54 | the ordered rows are the matching rows, permuted |
| BaseService.OrderedById | src/services/BaseService.ts:31-54 | ordering by id strictly increases the ids for `asc` and strictly decreases them for `desc` |
| BaseService.Reverse | src/services/BaseService.ts:31-54 | the reversed rows are the same rows, last first |
| BaseService.Window | src/services/BaseService.ts:55-56 | `skip`/`take` yields at most `take` consecutive rows starting at `skip`, exactly `take` when enough rows remain, none past the end |
| BaseService.CeilDiv | src/services/BaseService.ts:60 | `Math.ceil(a / b)`: the least `q` with `q * b >= a` |
| BaseService.Defaulted | src/services/BaseService.ts:50 | a default applies only to an `undefined` page or limit |
| BaseService.PageOf | src/services/BaseService.ts:48-72 | the query fails unless page and limit are positive integers; otherwise `totalRecords` counts the matching rows, `totalPages` is their ceiling quotient by the limit, `currentPage` and `recordsPerPage` echo the inputs, and the items are the window at `(page-1)*limit` of size `limit` |
| BaseService.PastLastPage | src/services/BaseService.ts:55-67 | a page past the last is empty but still echoes its page number |
| BaseService.FullPages | src/services/BaseService.ts:55-60 | every page before the last holds exactly `limit` rows |
| BaseService.SortedPage | src/services/BaseService.ts:48-72 | the count and the page use the same `where`; an `orderBy` direction other than `asc`/`desc` makes the query fail |
| BaseService.ListRows | src/services/BaseService.ts:50 | the page and limit default to 1 and 10 |
| BaseService.ListedRowsMatch | src/services/BaseService.ts:52-58 | every listed row is a row of the table and matches the `where` |
| BaseService.BlocksIff | src/services/BaseService.ts:103-110 | a related table blocks exactly when a live row's foreign key equals the id |
| BaseService.FirstBlockingFrom | src/services/BaseService.ts:102-112 | the relations are checked in configured order, and the first one that blocks is found |
| BaseService.RelatedCheck | src/services/BaseService.ts:101-113 | the check fails with the Conflict error exactly when some configured relation blocks |
| BaseService.RelatedConflictIs409 | src/services/BaseService.ts:111 | the conflict is a 409 Conflict error with the source's message |
| BaseService.SoftDeleteOnlyTarget | src/services/BaseService.ts:94-97 | a soft delete stamps `deletedAt` on the target row only, and keeps every other row and the target's other columns |
| BaseService.EntityService.constructor | src/services/BaseService.ts:12-17 | the service holds its table, its two allow-lists and its related guards |
| BaseService.EntityService.Create | src/services/BaseService.ts:20-25 | the table gains one row built from the allowed part of `data`; nothing else changes |
| BaseService.EntityService.GetAll | src/services/BaseService.ts:28-73 | the result is `ListRows` over the table with `WhereFor(filters)`, and the sort defaults to `{ id: 'desc' }` |
| BaseService.EntityService.GetById | src/services/BaseService.ts:76-80 | a row is found exactly when one has the id, soft-deleted or not |
| BaseService.EntityService.Update | src/services/BaseService.ts:83-89 | the row with the id is rewritten with the allowed part of `data`; a missing id throws and changes nothing |
| BaseService.EntityService.CheckRelatedData | src/services/BaseService.ts:101-113 | the loop returns exactly `RelatedCheck`, stopping at the first relation that blocks |
| BaseService.EntityService.Delete | src/services/BaseService.ts:92-98 | a conflict changes nothing; a missing row throws and changes nothing; otherwise only the target row is soft-deleted |
| BaseController.FilterValue | src/controllers/BaseController.ts:91-94 | a string that `Number` reads as a number becomes that number; any other value is kept |
| BaseController.Filters | src/controllers/BaseController.ts:82-100 | the filters always hold `deletedAt`; they never hold `page`, `limit` or `orderBy`; they hold every other defined, non-null entry converted by `FilterValue`, and nothing else; `deletedAt` stays null unless the query sets it |
| BaseController.BuildFilters | src/controllers/BaseController.ts:82-100 | the `forEach` builds exactly `Filters` |
| BaseController.AbsentDropped | src/controllers/BaseController.ts:90 | an undefined or null entry is dropped |
| BaseController.NumericStringIsEquality | src/controllers/BaseController.ts:91-94 | a numeric query string reaches the service as a number and filters by equality |
| BaseController.PageParam | src/controllers/BaseController.ts:108-113 | the page defaults to 1 and is converted with `Number` |
| BaseController.LimitParam | src/controllers/BaseController.ts:108-114 | the limit defaults to 20 and is converted with `Number` |
| BaseController.RestParams | src/controllers/BaseController.ts:108 | the rest of the query is exactly the entries other than `page`, `limit` and `orderBy` |
| BaseController.SortParam | src/controllers/BaseController.ts:117-121 | only a string `orderBy` gives a sort, keyed by its text before the first colon |
| BaseController.SortPair | src/controllers/BaseController.ts:119-120 | `k:v` becomes the sort `{ k: v }`, unchanged |
| BaseController.SortWithoutColon | src/controllers/BaseController.ts:119-120 | a string without a colon gives an undefined direction, and the query fails |
| BaseController.ListingValue | src/controllers/BaseController.ts:123-126 | the reply lists every item of the listing, in order |
| BaseController.ItemReply | src/controllers/BaseController.ts:32-76 | 200 with the item exactly when there is one; 404 otherwise |
| BaseController.Listed | src/controllers/BaseController.ts:108-122 | the listing fails exactly when the direction is unknown or `Number(page)` or `Number(limit)` is not a positive integer; otherwise it echoes page and limit, counts the matching rows, and lists only rows of the table that match the query's filters |
| BaseController.ListReply | src/controllers/BaseController.ts:102-130 | the reply is 200 with the listing exactly when the listing succeeds; otherwise the store error goes to `next` |
| BaseController.DefaultListing | src/controllers/BaseController.ts:108-122 | a query without `page`, `limit` and `orderBy` succeeds and lists page 1 of 20 matching rows, by id descending |
| BaseController.EmptyQueryWhere | src/controllers/BaseController.ts:81-99 | with no query at all, the only filter is `deletedAt: null`, so only live rows match |
| BaseController.EntityController.constructor | src/controllers/BaseController.ts:5-6 | the controller holds its service |
| BaseController.EntityController.Create | src/controllers/BaseController.ts:8-22 | 201 with the created row, and the table gains that row |
| BaseController.EntityController.Update | src/controllers/BaseController.ts:24-43 | an unparsable id or a missing row goes to `next` and changes nothing; otherwise 200 with the updated row; the 404 branch is never reached |
| BaseController.EntityController.Delete | src/controllers/BaseController.ts:45-59 | a conflict or a missing row goes to `next` and changes nothing; otherwise 200, and only the target row is soft-deleted |
| BaseController.EntityController.GetById | src/controllers/BaseController.ts:61-80 | 200 with the row exactly when a row has the id; 404 otherwise |
| BaseController.EntityController.GetAll | src/controllers/BaseController.ts:102-130 | the reply is `ListReply` over the table's rows |
| RoleService.NewRoleService | src/services/roleService.ts:10-17 | the role service works on the role table with no allow-lists and guards users and then role permissions, both by `roleId` |
| RoleService.DeleteGuard | src/services/roleService.ts:13-16 | a role's deletion fails with Conflict exactly when a live user or a live role permission refers to it |
| RoleService.LiveUserBlocks | src/services/roleService.ts:14 | a live user of the role blocks its deletion, and the user guard is reached first |
| RoleService.LiveRolePermissionBlocks | src/services/roleService.ts:15 | a live role permission of the role blocks its deletion |
| PermissionService.PermissionData | src/services/permissionService.ts:20-25 | each row's data is `roleId`, then the element's own keys, then both time stamps |
| PermissionService.PermissionsData | src/services/permissionService.ts:20-25 | one row's data per element, in order |
| PermissionService.NewRowsCarryRole | src/services/permissionService.ts:20-29 | every inserted row carries the role's id |
| PermissionService.ExactlyNewSet | src/services/permissionService.ts:15-30 | after `create`, the role's rows are exactly the new rows, one per element; nothing of the old set remains |
| PermissionService.OtherRolesUntouched | src/services/permissionService.ts:15-43 | another role's rows are the same after `create` and after `delete` |
| PermissionService.UndefinedRoleDeletesAll | src/services/permissionService.ts:39-43 | with `roleId` undefined the `where` is empty, so `delete` empties the table |
| PermissionService.RoleRowsListed | src/services/permissionService.ts:32-37 | `getById` lists exactly the rows of the role, deleted or not |
| PermissionService.PermissionOf | src/services/permissionService.ts:35 | the included permission is the permission row whose id is the row's `permissionId`, or null |
| PermissionService.WithPermission | src/services/permissionService.ts:33-36 | each listed row carries its permission |
| PermissionService.PermissionService.constructor | src/services/permissionService.ts:10-13 | the service works on the role-permission table, with no allow-lists and no guards |
| PermissionService.PermissionService.Delete | src/services/permissionService.ts:39-43 | a hard `deleteMany` of the role's rows; no other table changes |
| PermissionService.PermissionService.Create | src/services/permissionService.ts:15-30 | the role's rows are deleted, then one row per element is inserted; a non-array `permissions` throws after the delete |
| PermissionService.PermissionService.GetById | src/services/permissionService.ts:32-37 | the role's rows, each with its permission |
| UserResponse.Project | src/responseHandlers/UserResponseHandler.ts:8-19 | the keys are exactly the ten public columns, each copied from the input; there is never a password or a token |
| UserResponse.HandleUserResponse | src/responseHandlers/UserResponseHandler.ts:3-22 | one user gives one record; an array gives an array of the same length, projected element by element in order |
| UserResponse.ProjectIdempotent | src/responseHandlers/UserResponseHandler.ts:8-19 | projecting twice is projecting once |
| UserService.WithDefaultToken | src/services/userService.ts:19-24 | the token is the supplied one when truthy, and `''` otherwise; every other entry is kept |
| UserService.CreatedTokenDefault | src/services/userService.ts:19-26 | a created user's token is never null or missing |
| UserService.UserWhere | src/services/userService.ts:43-47 | only truthy filters apply: `id` by equality, and the three name columns by substring; a truthy non-string for one of those makes the query fail; there is no `deletedAt` condition |
| UserService.AddContains | src/services/userService.ts:45-47 | a truthy string adds a substring condition; a falsy value adds nothing |
| UserService.ZeroIdIgnored | src/services/userService.ts:44 | `id: 0` is falsy and filters nothing |
| UserService.DeletedUsersListed | src/services/userService.ts:43-65 | a soft-deleted user that satisfies the filters is listed |
| UserService.UserOrder | src/services/userService.ts:49-51 | `f:d` orders by `f` with `d` lower-cased; a falsy value gives `{ id: 'desc' }`; a truthy non-string throws a TypeError |
| UserService.UserOrderPair | src/services/userService.ts:50 | `f:d` becomes `{ f: d.toLowerCase() }` |
| UserService.UserOrderNoColon | src/services/userService.ts:50 | a non-empty string without a colon throws a TypeError |
| UserService.UserListing | src/services/userService.ts:39-80 | an `orderBy` TypeError comes first, then a filter Prisma rejects; otherwise the query runs without page or limit defaults, echoes page and limit, counts the matching users and lists only matching users |
| UserService.NoPageDefault | src/services/userService.ts:60 | without a page, the skip is NaN and the query fails |
| UserService.UserService.constructor | src/services/userService.ts:13-16 | the service works on the user table |
| UserService.UserService.CreateUser | src/services/userService.ts:18-28 | the table gains one row built from the data with the token defaulted |
| UserService.UserService.GetUserById | src/services/userService.ts:30-37 | a row is found exactly when one has the id, deleted or not |
| UserService.UserService.GetAllUsers | src/services/userService.ts:39-80 | the result is exactly `UserListing` over the user table |
| UserService.UserService.UpdateUser | src/services/userService.ts:82-91 | the data is written unfiltered to the row with the id; a missing id throws and changes nothing |
| UserService.UserService.DeleteUser | src/services/userService.ts:93-99 | the row is removed, a hard delete; a missing id throws and changes nothing |
| Tokens.Verify | src/middlewares/authMiddleware.ts:5-22 | verifying with an empty secret always fails |
| Tokens.LoginSecret | src/services/loginService.ts:14 | the login secret is `JWT_SECRET` when it is set, and the non-empty default otherwise |
| Tokens.PermissionSecret | src/middlewares/checkPermissions.ts:24-27 | the permission check's secret is `JWT_SECRET` when it is set, and its own non-empty default otherwise |
| Tokens.BearerToken | src/middlewares/authMiddleware.ts:12 | the token is the second space-separated word of the header; an empty one counts as none |
| Tokens.BearerTokenOf | src/middlewares/authMiddleware.ts:12 | `Bearer t` yields `t` |
| Tokens.NoSpaceNoToken | src/middlewares/authMiddleware.ts:12-18 | a header without a space carries no token |
| Tokens.FindUser | src/middlewares/authMiddleware.ts:26-28 | an id that is not a number is rejected; otherwise the user is looked up by id |
| Tokens.SignedClaim | src/middlewares/authMiddleware.ts:22-23 | a token signed over a payload whose `user` has an id claims that id under the same secret |
| AuthMiddleware.Authenticate | src/middlewares/authMiddleware.ts:7-49 | every failure is a 401: no token, a token that does not verify, an unknown user (401, not 404), or a stored token that differs; `next()` is called exactly when the stored token equals the presented one; only the user table is read |
| AuthMiddleware.UnsetSecretRejectsAll | src/middlewares/authMiddleware.ts:5-48 | with `JWT_SECRET` unset, every request is answered 401 |
| CheckPermissions.Find | src/middlewares/checkPermissions.ts:66-68 | `find` gives the first entry with the name, and none exactly when no entry has it |
| CheckPermissions.HasPermission | src/middlewares/checkPermissions.ts:65-70 | access is granted exactly when every required pair passes: its name's first entry holds the action flag exactly equal to 1 |
| CheckPermissions.MissingPermissionDenies | src/middlewares/checkPermissions.ts:66-69 | a required name the role lacks denies |
| CheckPermissions.FirstEntryDecides | src/middlewares/checkPermissions.ts:66-69 | when the first entry with a name holds a flag other than 1, access is denied even if a later duplicate holds 1 |
| CheckPermissions.UserPermissions | src/middlewares/checkPermissions.ts:53-63 | one element per role-permission row, carrying the name of its permission and its four flags unchanged; a row without a permission throws |
| CheckPermissions.RoleOf | src/middlewares/checkPermissions.ts:30-43 | the role found is the user's `roleId` row |
| CheckPermissions.Decide | src/middlewares/checkPermissions.ts:12-84 | no token gives 401; a thrown error goes to `next(error)`; an unknown user gives 404; otherwise `next()` is called exactly when every required pair passes, and a denial gives 403 |
| CheckPermissions.NothingRequired | src/middlewares/checkPermissions.ts:65 | an empty required list admits every user the guards let through |
| LoginService.FindByUsername | src/services/loginService.ts:22-30 | for a string name, the user with that name, or none exactly when no user has it; a non-string name is rejected |
| LoginService.Validated | src/services/loginService.ts:47-60 | the user is returned exactly when the name exists and the password matches the stored hash; an unknown name gives null |
| LoginService.TokenPayload | src/services/loginService.ts:37-41 | the payload is the user's public projection, without password or token, plus the role's permission rows as scope |
| LoginService.TokenData | src/services/loginService.ts:63-66 | the write sets the token and the update time, and nothing else |
| LoginService.TokenStored | src/services/loginService.ts:62-72 | after the write, the user's token is the new token, whatever it held before |
| LoginService.LoginService.constructor | src/services/loginService.ts:11-20 | the service's secret is `LoginSecret` of the environment |
| LoginService.LoginService.GetUserByUsername | src/services/loginService.ts:22-30 | the lookup is `FindByUsername` over the user table |
| LoginService.LoginService.ValidateUser | src/services/loginService.ts:47-60 | the result is `Validated` over the user table |
| LoginService.LoginService.UpdatedUserWithToken | src/services/loginService.ts:62-72 | only the user's row changes, getting the token and the update time; a missing id throws and changes nothing |
| LoginService.LoginService.GenerateToken | src/services/loginService.ts:32-45 | no user gives null and writes nothing; otherwise the signed token is stored on the user, overwriting any earlier one, and returned |
| LoginService.LoginService.DeleteToken | src/services/loginService.ts:74-80 | exactly the supplied data is written to the user's row; a non-numeric or missing id throws and changes nothing |
| LoginController.LoginBody | src/controllers/loginController.ts:50-58 | the reply holds the user's public projection plus the token, and never the password |
| LoginController.LogoutData | src/controllers/loginController.ts:91-95 | logout writes a null token and the update time |
| LoginController.LoginController.constructor | src/controllers/loginController.ts:10-21 | the controller's secret is `LoginSecret` of the environment |
| LoginController.LoginController.Login | src/controllers/loginController.ts:23-62 | failed credentials give 401 `fail` and change nothing; otherwise the issued token is stored on the user, and the reply is the projection plus the token, or 401 when the token is falsy |
| LoginController.LoginController.DeleteToken | src/controllers/loginController.ts:91-97 | the user's token becomes null |
| LoginController.LoginController.Logout | src/controllers/loginController.ts:64-89 | no bearer token gives 400 and changes nothing; a token that does not verify goes to `next`; otherwise the decoded user's token becomes null and the reply is 200 |
| LoginController.FreshTokenAccepted | src/controllers/loginController.ts:43-58 | a token just issued at login passes the auth middleware, when `JWT_SECRET` is set |
| LoginController.SupersededTokenRejected | src/services/loginService.ts:43 | after a later login, the earlier token gets 401 from the auth middleware, though it still verifies |
| LoginController.LoggedOutTokenRejected | src/controllers/loginController.ts:91-97 | after logout, every token claiming that user gets 401 from the auth middleware |
| Validation.TextLength | src/validators/roleValidator.ts:12 | the length `isLength` counts is at most the number of code points, and equal to it without variation selectors |
| Validation.ToInt | src/validators/roleValidator.ts:58 | `toInt()` gives a number or NaN |
| Validation.IntTextIsInt | src/validators/rolePermissionValidator.ts:7 | the text of every integer passes `isInt()` |
| Validation.ToIntIsInt | src/validators/roleValidator.ts:56-60 | `toInt().isInt()` passes exactly when `parseInt` finds digits |
| Validation.Rule | src/validators/roleValidator.ts:7-15 | a check adds no error when it passes, and exactly one error, with its message key, when it fails |
| Validation.Lookup | src/validators/roleValidator.ts:17-21 | a lookup of a string value is a `findUnique` on that column; a non-string value is rejected |
| Validation.LookupFinds | src/validators/userValidator.ts:27-29 | for a string, no row is found exactly when no row holds it, and a row found holds it |
| RoleValidator.RoleCreateErrors | src/validators/roleValidator.ts:5-31 | a body passes exactly when the name is a non-empty string of at most 190 characters held by no role, soft-deleted roles included; every error is on `name` |
| RoleValidator.UpdateNameErrors | src/validators/roleValidator.ts:35-55 | an absent name passes; otherwise it passes exactly when it is a string of at most 190 characters whose holder, if any, is the role being updated |
| RoleValidator.StatusErrors | src/validators/roleValidator.ts:56-60 | an absent status passes; otherwise it passes exactly when `parseInt` reads it |
| RoleValidator.RoleUpdateErrors | src/validators/roleValidator.ts:33-62 | an update passes exactly when both chains pass; an empty body passes |
| RoleValidator.OwnNameAccepted | src/validators/roleValidator.ts:49 | keeping one's own name passes |
| RoleValidator.PartialStatusPasses | src/validators/roleValidator.ts:58-59 | `"12abc"` is sanitised to 12 and passes |
| UserValidator.BoundedString | src/validators/userValidator.ts:7-15 | a field passes exactly when it is a string of at most 190 characters |
| UserValidator.UsernameErrors | src/validators/userValidator.ts:23-34 | the username chain on create passes exactly when the username is a string that no user holds |
| UserValidator.PhoneErrors | src/validators/userValidator.ts:35-39 | the phone chain passes exactly when the phone is a non-empty string |
| UserValidator.PasswordErrors | src/validators/userValidator.ts:40-48 | the password chain on create passes exactly when the password is a string of at least 6 characters |
| UserValidator.UserCreateErrors | src/validators/userValidator.ts:5-50 | a body passes exactly when first and last names are strings of at most 190 characters, the username is a string no user holds, phone is a non-empty string, and password is a string of at least 6 characters |
| UserValidator.UsernameFreeFor | src/validators/userValidator.ts:66-77 | a missing id parameter is an error; otherwise the username passes exactly when no user holds it or its holder has the id `parseInt` reads |
| UserValidator.UserUpdateErrors | src/validators/userValidator.ts:52-82 | a passing update has an integer id parameter and string first name, last name, username and phone |
| UserValidator.PasswordIgnoredOnUpdate | src/validators/userValidator.ts:52-82 | the update rules never look at the password |
| UserValidator.OwnUsernameAccepted | src/validators/userValidator.ts:70-75 | keeping one's own username passes |
| RolePermissionValidator.EachIsInt | src/validators/rolePermissionValidator.ts:13-32 | a wildcard chain passes exactly when every element's field is an integer, with at most one error per element |
| RolePermissionValidator.ElementErrors | src/validators/rolePermissionValidator.ts:13-32 | the elements pass exactly when each has integer `permissionId`, `add`, `edit`, `remove` and `view` |
| RolePermissionValidator.RolePermissionErrors | src/validators/rolePermissionValidator.ts:4-34 | a body passes exactly when `roleId` is an integer, `permissions` is an array of at least one element, and every element passes |
| RolePermissionValidator.AnyIntegerFlag | src/validators/rolePermissionValidator.ts:17-32 | any integer flag passes; there is no 0/1 range check |
| LoginValidator.LoginErrors | src/validators/loginValidator.ts:4-19 | a body passes exactly when the username is a string and the password is a string of at least 6 characters |
| LoginValidator.OtherFieldsIgnored | src/validators/loginValidator.ts:4-19 | no other field affects the result |
| LoginValidator.ShortPassword | src/validators/loginValidator.ts:12-16 | a five-character password fails only its length check |
| Utf8.EncodeChar | src/mailer/mailer.ts:267 | each character is one to four bytes, one exactly when it is below U+0080, and every byte after the first is a continuation byte |
| Utf8.Encode | src/mailer/mailer.ts:267 | a string's bytes number between one and four per character |
| Utf8.DecodeEncodedChar | src/mailer/mailer.ts:267 | a character's bytes decode to that character, whatever follows them |
| Utf8.DecodeEncode | src/mailer/mailer.ts:267 | decoding gives back every encoded string |
| Utf8.AsciiEncoding | src/mailer/mailer.ts:335 | characters below U+0080 are one byte each, equal to their code |
| Base64.StdValue | src/mailer/mailer.ts:267 | the value read from a character of the standard alphabet is the one that character encodes |
| Base64.StdValueOf | src/mailer/mailer.ts:267 | every six-bit value is read back from its character |
| Base64.Sextets | src/mailer/mailer.ts:267 | bytes give four six-bit pieces per group of three, and two or three for a trailing group |
| Base64.Padding | src/mailer/mailer.ts:267 | fewer than four `=` bring the length to a multiple of four |
| Base64.EncodeLength | src/mailer/mailer.ts:267-271 | the padded form has four characters per started group of three bytes |
| Base64.EncodePrintable | src/mailer/mailer.ts:271-276 | base64 text is printable ASCII with no line break |
| Base64.EncodeUrl | src/mailer/mailer.ts:335-339 | the unpadded URL form has no `=`, `+` or `/`, and the length that leaves out the padding |
| Base64.StripPadding | src/mailer/mailer.ts:339 | `replace(/=+$/, '')` removes the trailing `=` and nothing before them |
| Base64.GroupRoundTrip | src/mailer/mailer.ts:267 | three bytes come back from their four six-bit pieces |
| Base64.FromSextetsOf | src/mailer/mailer.ts:267 | any bytes come back from their six-bit pieces |
| Base64.DecodeEncode | src/mailer/mailer.ts:267-271 | decoding gives back every encoded byte string |
| Base64.UrlIsStd | src/mailer/mailer.ts:336-339 | the unpadded URL form is the standard form with `+` and `/` renamed and the padding dropped |
| Base64.DecodeUrlEncode | src/mailer/mailer.ts:335-339 | decoding gives back every byte string in the unpadded URL form |
| Mailer.EncodeRfc2047Header | src/mailer/mailer.ts:265-268 | the header is wrapped as an encoded word, starting `=?UTF-8?B?` and ending `?=` |
| Mailer.SubjectRoundTrip | src/mailer/mailer.ts:265-302 | a reader of the encoded word gets the subject back |
| Mailer.AttachmentLayout | src/mailer/mailer.ts:270-277 | a part is the content-type line naming the file, the base64 transfer-encoding line, the disposition line naming the file, a blank line, and one line of base64 that decodes to the file's contents |
| Mailer.Present | src/mailer/mailer.ts:310-322 | the attachments that are kept are at most those listed |
| Mailer.ReplaceChar | src/mailer/mailer.ts:337-338 | a global one-character replace renames every occurrence and keeps every other character |
| Mailer.AppendParts | src/mailer/mailer.ts:310-327 | the loop adds the parts of exactly the attachments whose file exists, in order |
| Mailer.SendMail | src/mailer/mailer.ts:296-339 | the message is the headers followed by a single text part, or by the multipart body when there are attachments; `raw` is its base64url form |
| Mailer.RawIsUnpaddedBase64Url | src/mailer/mailer.ts:335-339 | `raw` is the message's UTF-8 bytes in the URL-safe alphabet, without padding |
| Mailer.RawRoundTrip | src/mailer/mailer.ts:335-339 | a reader of `raw` gets the message back |
| Mailer.HeaderLines | src/mailer/mailer.ts:299-303 | the message opens with the From, To, Subject and MIME-Version lines, in that order, each ending in CRLF |
| Mailer.PresentAppend | src/mailer/mailer.ts:310-327 | the attachments are kept in order |
| Mailer.MissingFileSkipped | src/mailer/mailer.ts:319-322 | an attachment whose file does not exist leaves the message as if it had not been listed |
| Mailer.AllFilesPresent | src/mailer/mailer.ts:310-327 | when every file exists, there is one part per attachment, in order, with its name and contents |
| Mailer.EndsWithClosing | src/mailer/mailer.ts:329 | with attachments, the message ends with the close-delimiter `--boundary--` |
| Utf8.DecodeFirst | src/mailer/mailer.ts:267 | a decoded character takes between one byte and what is left |
| Base64.StripOfPadded | src/mailer/mailer.ts:339 | trailing `=` come off and the text before them is kept |
| Base64.ValuesOfStd | src/mailer/mailer.ts:267 | standard-alphabet text reads back as the six-bit values it was written from |
| Upload.WithDefault | src/utils/uploadFile.ts:47-49 | an empty format list is replaced by the PNG and JPEG defaults, and any other list is kept, so the list in force is never empty |
| Upload.Subtypes | src/utils/uploadFile.ts:63-65 | each listed format contributes the part after its `/`, in order |
| Upload.FileFilter | src/utils/uploadFile.ts:55-70 | a file is accepted exactly when its MIME type is in the list; any other file is refused with a `FileFormatError` naming the field and the allowed subtypes |
| Upload.SubtypeOf | src/utils/uploadFile.ts:64 | the subtype of `type/subtype` is `subtype` |
| Upload.DefaultSubtypes | src/utils/uploadFile.ts:10 | the defaults name the subtypes png, jpeg and jpg |
| Upload.DefaultList | src/utils/uploadFile.ts:63-65 | with the defaults the allowed list reads `png, jpeg, jpg` |
| Upload.DefaultRejectionMessage | src/utils/uploadFile.ts:63-66 | the refusal under the default formats lists png, jpeg and jpg |
| Upload.RefusedFormatIs400 | src/utils/uploadFile.ts:66-110 | a refused file reaches the client as a 400 `fail` response carrying the refusal message |
| Upload.FileSizeLimit | src/utils/uploadFile.ts:52-54 | the size limit is 5 MB in bytes |
| Upload.FieldLimits | src/utils/uploadFile.ts:71-73 | every configured field accepts up to ten files |
| Upload.Settle | src/utils/uploadFile.ts:77-110 | `next()` is called with no error exactly when the upload did not fail and `req.files` is set; with no failure and no `req.files` (a request that is not multipart) `next` gets a TypeError; a multer size error becomes a `FileFormatError` naming the limit; any other multer error is passed on as a `MulterError` with its message; a refusal or any other failure is passed to `next` unchanged |
| Upload.PublicUrl | src/utils/uploadFile.ts:100 | a path under `public/` or `public\` is served from `/`, and any other path is kept |
| Upload.PublicUrlIdempotent | src/utils/uploadFile.ts:100 | mapping a URL again changes nothing |
| Upload.PublicPathServedFromRoot | src/utils/uploadFile.ts:100 | a file stored under either spelling of `public` is served at the root under the rest of its path |
| Upload.LastIndex | src/utils/uploadFile.ts:30 | finds the last occurrence of a character, or reports that there is none |
| Upload.BaseName | src/utils/uploadFile.ts:30-32 | the last path segment has no `/` and ends the name |
| Upload.ExtName | src/utils/uploadFile.ts:30 | the extension is empty or a dot followed by no other dot, and it ends the name |
| Upload.StoredName | src/utils/uploadFile.ts:29-36 | the stored name ends with the original extension |
| Upload.OriginalBaseDiscarded | src/utils/uploadFile.ts:31-35 | two uploads with the same extension, clock reading and random number get the same stored name, whatever their original base names |
| Upload.ExtensionOf | src/utils/uploadFile.ts:30 | `stem.ext` has extension `.ext` |
| Upload.DotFileHasNoExtension | src/utils/uploadFile.ts:30 | a name whose only dot leads it has no extension |
| Upload.UploadedFile.constructor | src/utils/uploadFile.ts:12-14 | a stored file has its path and, at first, no URL |
| Upload.AssignUrls | src/utils/uploadFile.ts:93-102 | every file of every field gets its public URL |
| Upload.UploadMiddleware.constructor | src/utils/uploadFile.ts:41-45 | the middleware holds its destination, formats and fields |
| Upload.UploadMiddleware.Default | src/utils/uploadFile.ts:41-45 | `uploadFile(destinationPath)` with its defaults: no formats and the one field `file` |
| Upload.UploadMiddleware.UseDefaultFormats | src/utils/uploadFile.ts:47-49 | the closure's format list becomes the defaulted one |
| Upload.WithDefaultIdempotent | src/utils/uploadFile.ts:47-49 | a later request keeps the list the first one left |
| Common.ConvertToArray | src/utils/common.ts:13-20 | a list is returned unchanged; a string gives one piece more than its commas, the i-th being the trimmed i-th piece of the split, without a comma and with no surrounding white space |
| Common.PiecesFromString | src/utils/common.ts:17 | every character of a piece comes from the string |
| Common.TrimNoSpace | src/utils/common.ts:17 | a piece without white space trims to itself |
| Common.JoinsBack | src/utils/common.ts:13-20 | with no white space, joining the pieces with `,` gives the string back |
| Values.StringToNumber | src/controllers/BaseController.ts:92-93 | `Number` of a string is a number or NaN, and a blank string gives 0 |
| Values.JsNumber | src/controllers/BaseController.ts:113-114 | `Number` of any value is a number or NaN, and an array is read as its elements joined with commas |
| Values.NumberOfArray | src/controllers/BaseController.ts:113-114 | `Number([])` is 0 and `Number([s])` is `Number(s)` |
| Values.NumberOfNatText | src/controllers/BaseController.ts:92-93 | a numeric string written from a count is read back by `Number` as that count |
| Values.DigitsOfNat | src/controllers/BaseController.ts:30 | a count's text is all digits and has that count's value |
| Values.ParseIntOfNatText | src/controllers/BaseController.ts:30 | `parseInt` reads a count's text back as the count |
| Values.DigitPrefix | src/controllers/BaseController.ts:30 | `parseInt` reads the longest run of leading digits and stops at the first non-digit |
| Values.DigitPrefixAll | src/validators/userValidator.ts:70 | a string of digits is read whole |
| Strings.IndexFrom | generate-files.ts:334 | finds the first occurrence at or after the start, or reports that there is none |
| Strings.IndexOf | generate-files.ts:334-342 | `indexOf` gives the first occurrence, and -1 exactly when there is none |
| Strings.Trim | src/utils/common.ts:17 | the trimmed text starts and ends with a character that is not white space |
| Strings.TrimMeaning | src/utils/common.ts:17 | the original is the trimmed text with only white space before and after it |
| Strings.SplitBy | generate-files.ts:60 | a split gives at least one piece, and no piece holds a separator |
| Strings.Split | src/utils/common.ts:17 | a split on one character gives at least one piece, and no piece holds it |
| Strings.SplitJoin | src/utils/common.ts:17 | joining the pieces with the separator gives the string back |
| Strings.SplitCount | src/utils/common.ts:17 | there is one more piece than separators |
| Strings.SplitSpaces | generate-files.ts:60 | splitting on white-space runs gives pieces without white space |
| Strings.RemoveCharsMeaning | generate-files.ts:65 | the result holds exactly the characters of the input that are not removed |
| Strings.ToLower | generate-files.ts:52 | lower-casing changes each character on its own, keeps the length and leaves no upper-case ASCII letter |
| Strings.ToLowerIdempotent | generate-files.ts:52 | lower-casing twice is lower-casing once |
| Strings.ToUpper | generate-files.ts:123 | upper-casing changes each character on its own, keeps the length and leaves no lower-case ASCII letter |
| Strings.ToUpperIdempotent | generate-files.ts:123 | upper-casing twice is upper-casing once |
| Strings.NatToString | generate-files.ts:125 | a count is written as a non-empty run of decimal digits |
| Strings.NonEmptyMeaning | generate-files.ts:137 | `filter(Boolean)` keeps only non-empty pieces, each of them from the list |
| ModelNames.LowerFirst | generate-files.ts:313 | the derived name is as long as the model name |
| ModelNames.LowerFirstChanges | generate-files.ts:313 | only the first character can change, and it does exactly when it is an upper-case ASCII letter, becoming its lower-case form |
| ModelNames.LowerFirstIdempotent | generate-files.ts:313 | deriving the name again changes nothing |
| ModelNames.LowerFirstKeepsOut | generate-files.ts:313 | the derived name holds a character other than a lower-case letter only when the model name does |
| SchemaLines.BlockLines | generate-files.ts:39 | the model block gives at least one line |
| SchemaLines.Classify | generate-files.ts:48-61 | a declaring line has a non-empty name and type |
| SchemaLines.DeclaredWords | generate-files.ts:60 | the declared name and type hold no white space |
| SchemaLines.Declarations | generate-files.ts:47-72 | the scan reaches at most one declaration per line |
| SchemaLines.SkipSticky | generate-files.ts:52-58 | once the relation marker has been seen, no later line is reached |
| SchemaLines.MarkerEndsScan | generate-files.ts:50-58 | the lines after a relation-marker comment declare nothing |
| SchemaLines.ScanLine | generate-files.ts:48-61 | one line sets `skipRest` exactly when it is the relation marker; it declares a field exactly when nothing was skipped and it has a name and a type |
| SchemaLines.PassedOver | generate-files.ts:50-61 | a blank line, an ordinary comment or a one-word line changes nothing for the scan |
| SchemaLines.ReachedLines | generate-files.ts:47-72 | a declaration is reached exactly when its line declares it and no earlier line set `skipRest` |
| ModelDefinition.StoredTypeShape | generate-files.ts:63-68 | a stored type is the declared type without `?`, `[` and `]`, followed by `[]` exactly when the declared type ends in `[]` |
| ModelDefinition.DefinitionOf | generate-files.ts:67-68 | there is one field and one stored type per reached declaration, in order |
| ModelDefinition.DefinitionStep | generate-files.ts:63-71 | one more declaration pushes its field and stored type, and adds the field to the optional set when it is optional |
| ModelDefinition.OptionalFields | generate-files.ts:63-71 | a field is optional exactly when some declaration of it ends in `?` or names `id` or `deletedAt` |
| ModelDefinition.ExtractModelDefinition | generate-files.ts:33-75 | the loop yields the fields, stored types and optional set of the reached declarations |
| ModelDefinition.DefinitionShape | generate-files.ts:41-74 | fields and types have the same length, no stored type keeps a `?` or a bracket apart from the list suffix, and every optional field is a field |
| ValidationRules.TypeValidation | generate-files.ts:18-31 | there is a type check exactly for String, Int, Float and Boolean, once the `?` marks are removed |
| ValidationRules.QuestionMarkIgnored | generate-files.ts:19 | a `?` anywhere in the type does not change its check |
| ValidationRules.CreateParts | generate-files.ts:115-137 | the create rule is the field, then `notEmpty` or `optional`, then the type check if any, the length limit for a `String` and the uniqueness check for a `@unique` field, with nothing empty |
| ValidationRules.UpdateParts | generate-files.ts:142-159 | the update rule is like the create rule but always optional, and its uniqueness check allows the record's own id |
| ValidationRules.RuleDecls | generate-files.ts:110-113 | rules are written for exactly the reached declarations that are not system fields |
| ValidationRules.Rules | generate-files.ts:139-161 | one rule per reached declaration that is not a system field |
| ValidationRules.ExtractValidationRules | generate-files.ts:79-165 | the loop yields the create rules and the update rules of the reached declarations, in order |
| ValidationRules.NonSystem | generate-files.ts:111 | leaving out system fields keeps at most the fields there were |
| ValidationRules.RulesFollowDefinition | generate-files.ts:79-165 | the rules are for the model definition's fields that are not system fields, in the same order |
| ValidationRules.NoQuestionMark | generate-files.ts:19 | a type without `?` is looked up as it is |
| ValidationRules.OnlyMarkRemoved | generate-files.ts:19 | a trailing `?` is all the lookup drops |
| ValidationRules.OptionalStringCheck | generate-files.ts:19-21 | a `String?` field gets the string check |
| ValidationRules.OptionalStringStillRequired | generate-files.ts:116-125 | a `String?` field with no separate `?` word still gets `notEmpty`, and gets no length limit |
| ValidationRules.LengthLimitText | generate-files.ts:117-125 | the limit allows 190 characters and its message key says 191 |
| TypeMapping.TsOfStoredType | generate-files.ts:186-207 | a stored type maps to its base's TypeScript name, an unknown base passing through, with the list suffix kept |
| TypeMapping.SwaggerOfStoredType | generate-files.ts:243-258 | a stored list type maps to `array[...]` of its base's Swagger type, and any other type to that type, `string` for an unknown base |
| TypeMapping.RequiredOf | generate-files.ts:222-238 | the required list has at most one entry per field |
| TypeMapping.AddField | generate-files.ts:223-237 | a system field is passed over; any other field gets its property, and a place in the required list when its type mentions neither `null` nor `undefined` |
| TypeMapping.AddFields | generate-files.ts:222-238 | the loop yields the required list and the properties of exactly the given fields |
| TypeMapping.GenerateSwagger | generate-files.ts:209-241 | the loop yields the definition whose required list and properties are those of the model's fields |
| TypeMapping.PropertyKeys | generate-files.ts:222-233 | the properties are exactly the fields that are not system fields |
| TypeMapping.PropertyOfLast | generate-files.ts:231-233 | a property's type comes from the last field of that name |
| TypeMapping.AllRequired | generate-files.ts:222-238 | when no type mentions `null` or `undefined`, every field that is not a system field is required, in order |
| TypeMapping.NoUIsRequired | generate-files.ts:228 | a type without the letter `u` is required |
| ImportSplices.SliceIndex | generate-files.ts:338-346 | `slice` keeps an index inside the text where it is, and takes -1 to the last position |
| ImportSplices.SpliceShape | generate-files.ts:338-346 | a splice puts the snippet at the position, and taking it out gives the text back |
| ImportSplices.InsertBeforeMarker | generate-files.ts:334-347 | a snippet goes just before the first occurrence of the marker, and the text is unchanged when there is none |
| ImportSplices.AddImportsToInversifyConfig | generate-files.ts:309-353 | the written file is the content with the imports before the container line and the bindings before the export, unless both names are already present |
| ImportSplices.InversifySnippetsName | generate-files.ts:315-326 | each inserted snippet names both the controller and the service |
| ImportSplices.InversifyIdempotent | generate-files.ts:326-347 | running the step again changes nothing |
| ImportSplices.AddImportsToV1Routes | generate-files.ts:355-394 | the written file is the content with the route import before the router line and the binding before the export, unless the routes name is already present |
| ImportSplices.V1IdempotentWithImportMarker | generate-files.ts:366-379 | when the router line is present and the model name has no `;`, running the step again changes nothing |
| ImportSplices.V1IdempotentLowerName | generate-files.ts:359-387 | for an already lower-case model name, running the step again changes nothing |
| ImportSplices.V1FirstRunOnExport | generate-files.ts:374-387 | on a file holding only the export line, the first run inserts only the binding |
| ImportSplices.V1RepeatsBinding | generate-files.ts:363-387 | for a capitalised name and a file holding only the export line, a second run adds the binding again |
| ImportSplices.AddImportsToSwaggerConfig | generate-files.ts:417-474 | the written file is the content after the four splices, unless the paths name is already present |
| ImportSplices.SwaggerIncludeBeforeLastCharacter | generate-files.ts:462-467 | with the definition-import marker present and no definitions marker, the definitions include lands before the file's last character |
| ImportSplices.SwaggerIdempotentWithPathMarker | generate-files.ts:432-445 | when the path-import marker is present and the model name has no `/`, running the step again changes nothing |
| ImportSplices.SwaggerIdempotentWithPathsHere | generate-files.ts:432-460 | when the paths marker will be found and the model name has no `/`, running the step again changes nothing |

## Left out

- Numbers: JavaScript numbers are modelled as integers. `Number` reads
  only integer literals; a fraction, an exponent or a hexadecimal literal
  reads as NaN. `parseInt` reads the leading decimal digits and stops at
  the first non-digit, so `"1.5"` reads as 1, as in JavaScript.
- Values.ParseInt: a `0x` or `0X` prefix reads as 0. The controllers
  (`parseInt(id)` without a radix) would read it as hexadecimal, so
  `/roles/0x10` looks up id 0 here and id 16 in the source.
- Store.NewRow: an `id` entry in `data` is not written; the row always
  takes the table's next id. Prisma would insert the given id, or fail
  on a duplicate one.
- Store.ApplyData: an `id` entry in `data` is not written, so an update
  never moves a row to another id; and a `deletedAt` that is neither
  null nor a `Date` (an ISO string from a JSON body, say) leaves the
  column as it was, where Prisma would write the parsed date.
- Pagination: a page or limit that is not a positive integer fails the
  query. Prisma would reject it or compute with NaN or Infinity; that
  behaviour is not modelled.
- Ordering: a table keeps its rows in id order. Only an `orderBy` on
  `id`, ascending or descending, reorders the rows. A sort on another
  column leaves the table order.
- Prisma: the text of Prisma's error messages is not modelled, and a
  failed call is one `StoreError`. Transactions are not modelled either,
  so the permission replace-set is two separate statements, as in the
  source.
- JWT and bcrypt: signing, verification and password comparison are not
  modelled. They are function parameters. `Tokens.Sound` states the one
  law the proofs assume: verifying with the signing secret gives back
  the signed payload.
- Tokens.Sound: the payload comes back exactly as signed. A real token
  carries the payload as JSON, so a `Date` would come back as a string
  and an `undefined` entry would be gone; only `user.id`, a number, is
  read back, and that survives JSON unchanged.
- Clocks and randomness: `new Date()`, `Date.now()` and `Math.random()`
  are parameters.
- Mail transport: the OAuth2 client, `gmail.users.messages.send`, console
  logging and the resolution of attachment paths (an http URL or
  `path.resolve`) are left out. File existence and contents are a
  function from path to optional bytes. The boundary's timestamp is a
  parameter.
- Uploads: multer's multipart parsing, the directory creation and the
  disk writes are left out. `removeFiles` and the logger are left out too:
  they are filesystem I/O.
- Generator:
  - finding the model block in `schema.prisma` with a regular expression
    is left out, and the block's text is the input;
  - reading and writing files, the templates, the `inquirer` prompts and
    the console messages are left out;
  - `generateModel`, `generateController`, `generateService`,
    `generateRoutes`, `generateValidation` and `generateSwaggerPath` are
    left out. They fill text templates and write them to disk.
- TypeMapping.GenerateSwagger: the order of the Swagger `properties` keys
  is not modelled, because the properties are a map.
- Map lookups: keys inherited from `Object.prototype` are not modelled.
  Case conversion covers ASCII letters only.
- i18n: messages are their translation keys. The `res.__` lookup is left
  out.
- Express and DI wiring, the route files and the order of validation and
  permission checks per route are left out. No request pipeline is
  modelled.
- Concurrency: every `async` call is a sequential step.
- Store.Matches: a table has no schema. A filter on a column the model
  does not have, or a value of the wrong type for it (`?foo=bar`,
  `?name=5`), matches no row; Prisma rejects such a query instead, and
  the error handler answers 500.
- Store.Database.Create: with no schema, `Create`, `CreateMany` and
  `Update` never fail on their data. An unknown, mistyped or missing
  column, or a `roleId`/`permissionId` naming no row, is written as
  given; Prisma throws instead, and the error handler answers 500. So
  `POST /roles` with `{"name":"X","foo":1}` is created here, and a
  user's unfiltered `...data` is stored whatever its keys.
- RoleService.LiveUserBlocks: every table, the user table included,
  has a `deletedAt` mark here, but src/models/User.ts:1-13 shows no such
  column and users are only ever hard-deleted (userService.ts:93-99). The
  role guard on users still counts `{ roleId: id, deletedAt: null }`
  (roleService.ts:14, BaseService.ts:103-108). If the Prisma schema has
  no `deletedAt` on users, that `count` throws and every role deletion
  answers 500, where `RoleService.DeleteGuard` and `LiveUserBlocks` give
  409 or success. `UserService.DeletedUsersListed` likewise speaks of
  soft-deleted users, a state the source never creates.
- BaseController.SortWithoutColon: that an `orderBy` without a colon
  (an undefined direction) fails the query is a choice of this model;
  how Prisma treats `{ [key]: undefined }` is not modelled.
- PermissionService.Spread: spreading a string or an array into the
  permission data would add its index keys (`"0"`, `"1"`, ...); the model
  adds nothing for any value that is not an object.
- UserValidator.UserUpdateErrors: states what a passing update
  satisfies, one direction only. The username part is exact in
  `UserValidator.UsernameFreeFor`.
