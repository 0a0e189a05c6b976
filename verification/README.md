# Seller routes of the gocart marketplace, modelled in Dafny

This project models the decision logic of the four seller API routes of the
gocart marketplace backend over an abstract in-memory database:

- **Store application** (`app/api/store/create/route.js`). `POST` validates
  the form. If the caller already has a store, it answers with that store's
  status. Otherwise it rejects a username that is taken once lower-cased,
  uploads the logo, inserts a `pending` store and links the user row to it.
  `GET` answers with the caller's store status or "not registered".
- **Product catalog** (`app/api/store/product/route.js`). `POST` passes the
  seller gate, validates the form, uploads the images in order and inserts
  one product scoped to the seller's store. `GET` lists that store's products.
- **Stock toggle** (`app/api/store/stock-toggle/route.js`). It looks a product
  up by its id *and* the caller's store id, then writes the negation of its
  `inStock` flag.
- **Dashboard** (`app/api/store/dashboard/route.js`). It counts the store's
  orders and products, joins the ratings by membership in the store's product
  ids, and sums the order totals, rounding once.

The database is the class `Tables.Database`. It has one field per table:
`stores`, `products`, `orders` and `ratings` are sequences in table order, and
`users` is a map keyed by user id. Its invariant `Valid()` says three things.
No two stores share an id, an owner or a username. Every stored username is
lower-case. Product ids are distinct. The `POST` handlers are methods that
modify the database. Each runs its guard chain as a pure `Admit` function
first, then makes its write or writes. The `GET` handlers and the dashboard
are functions of the tables they read, so they cannot write.

Two collaborators that the routes call are parameters:

- the seller gate `authSeller`, a function from a user id to an optional store id;
- the image uploader, a function from an image and a folder to an optional
  URL, where `None` means the upload threw.

The id the database assigns to a new row is also a parameter. If it is already
taken, the insert fails the way a unique-constraint error does.

Where the intended design and the code disagree, the model follows the code:

- Product prices are checked only for JavaScript truthiness, so negative
  prices are accepted (`app/api/store/product/route.js:26`).
- The dashboard has no unauthorized branch (`app/api/store/dashboard/route.js:9-11`).
  The aggregation runs on whatever the gate returns. The model takes "no
  store" to be a value no row carries, so the dashboard is then empty (see
  `StoreDashboard.NoStoreEmptyDashboard` under "## Left out").
- Store creation is two writes, not one atomic step
  (`app/api/store/create/route.js:72-94`). The model assumes no foreign key
  from a store's owner to the users table, so a missing user row leaves the
  store inserted but unlinked (see `StoreCreate.ApplyForStore` under
  "## Left out").
- The gate is meant to admit only the owners of approved stores. Which stores
  it admits is up to `authSeller`, which is not part of this model.

Three handlers fail as written. In the store application, the refusals and
`GET` run, but every application that would create a store fails. The stock
toggle fails on every request that carries a product id. The dashboard fails
on every request. Each handler is modelled as intended, and the as-written
behaviour is modelled beside it (see "## Findings"). A fourth slip
is also left aside: the dashboard's `where` filters name `storeID` and
`productID` (`app/api/store/dashboard/route.js:13,19,25`), but the other routes
use `storeId`. The model uses `storeId` and `productId` throughout.

## Model

| member | source | states |
|---|---|---|
| `Text.Lower` | app/api/store/create/route.js:43 | `toLowerCase` keeps the length, turns each upper-case ASCII letter into its lower-case partner and keeps every other character |
| `Text.LowerFixesLowerCase` | app/api/store/create/route.js:77 | lower-casing leaves a string unchanged exactly when it is already lower-case |
| `Text.LowerIdempotent` | app/api/store/create/route.js:43 | lower-casing an already lower-cased username changes nothing |
| `Query.FindFirst` | app/api/store/create/route.js:29-33 | `findFirst` returns the position of a matching row with no matching row before it, or none when no row matches |
| `Query.FindMany` | app/api/store/product/route.js:77-81 | `findMany` returns exactly the matching rows, each as many times as it occurs in the table |
| `Query.FindManySize` | app/api/store/dashboard/route.js:37 | the length of a `findMany` result is the number of positions holding a matching row |
| `Query.FindManyPermutation` | app/api/store/dashboard/route.js:11-15 | listing the table in another order changes only the order of a `findMany` result |
| `StoreCreate.Admit` | app/api/store/create/route.js:23-68 | "missing store information" exactly when a field is missing; the caller's store status exactly when the form is complete and the caller has a store, so never "username is taken" then; "username is taken" exactly when the caller has no store and the lower-cased username is stored; an upload failure ends the request; admitted, with the upload's logo URL, exactly when all checks pass and the upload succeeds |
| `StoreCreate.ApplyForStore` | app/api/store/create/route.js:8-96 | every refusal leaves the database unchanged; on success exactly one store is appended (the row `NewStore`, models the `data:` of lines 73-82), with the lower-cased username, the logo URL and the initial status, and the user row is linked to it; a missing user row leaves the store inserted and reports the error; the uniqueness invariant is kept; other tables are untouched |
| `StoreCreate.ApplyForStoreAsWritten` | app/api/store/create/route.js:72-74 | as written, no application ever succeeds: exactly the applications that would create a store fail on the undeclared `userID` |
| `StoreCreate.FirstApplicationFailsAsWritten` | app/api/store/create/route.js:74 | a complete first application, with a working upload, is admitted by the guards but fails as written |
| `StoreCreate.GetStatus` | app/api/store/create/route.js:106-119 | "not registered" exactly when the user has no store; otherwise the status of a store the user owns |
| `StoreCreate.ReapplyReturnsStatus` | app/api/store/create/route.js:29-37 | after an admitted application and its insert, another complete application by the same user returns the initial status, and `GET` reports that status |
| `StoreCreate.UsernamesDistinctIgnoringCase` | app/api/store/create/route.js:41-49 | in a valid store table no two usernames coincide once lower-cased |
| `StoreCreate.ApplyTwice` | app/api/store/create/route.js:29-37 | applying twice in a row after a success returns the status the second time; the stores table ends with exactly the one new store appended, the user is linked to it, and the other tables are unchanged |
| `StoreProduct.UploadAll` | app/api/store/product/route.js:30-46 | the URLs exist exactly when every upload succeeds; there is one URL per image, and URL i comes from image i |
| `StoreProduct.Admit` | app/api/store/product/route.js:12-46 | "unauthorized" exactly when the gate gives no store; "missing product information" exactly when an authorized form lacks a name, description or category, has a 0 or NaN `mrp` or `price`, or has no image; an upload failure ends the request; admitted, with the gate's store id and the ordered URLs, exactly when the gate gives a store, the form is complete and every upload succeeds |
| `StoreProduct.AddProduct` | app/api/store/product/route.js:9-60 | every refusal leaves the products unchanged; on success exactly one product is appended (the row `NewProduct`, models the `data:` of lines 49-57), with the gate's store id, the form's fields, the URLs and the initial stock flag; other tables are untouched |
| `StoreProduct.ListProducts` | app/api/store/product/route.js:68-83 | "unauthorized" exactly when the gate gives no store; otherwise exactly the products of that store, with their multiplicities |
| `StoreProduct.AddedProductIsListed` | app/api/store/product/route.js:48-58 | a product just added by a seller appears in that seller's listing |
| `StockToggle.SetInStock` | app/api/store/stock-toggle/route.js:27-34 | the update by id changes only the `inStock` field of the rows with that id |
| `StockToggle.ToggleStock` | app/api/store/stock-toggle/route.js:5-36 | a missing product id is reported before the gate; no store id gives "unauthorized"; it succeeds exactly when the product has that id and belongs to the caller's store, and otherwise gives "product not found"; every failure leaves the database unchanged; on success only the target's `inStock` changes, to its negation |
| `StockToggle.ToggleTwice` | app/api/store/stock-toggle/route.js:32 | two toggles in a row, the first succeeding, restore every product; the other tables are unchanged |
| `StockToggle.ToggleStockAsWritten` | app/api/store/stock-toggle/route.js:9-13 | as written, no toggle ever succeeds: every request with a product id fails on the unimported `authSeller` |
| `StoreDashboard.Ids` | app/api/store/dashboard/route.js:26 | the id list holds exactly the ids of the given products |
| `StoreDashboard.RoundToUnit` | app/api/store/dashboard/route.js:38 | `Math.round` gives the nearest whole unit, halves rounded up |
| `StoreDashboard.GetDashboard` | app/api/store/dashboard/route.js:6-42 | `totalOrders` and `totalProducts` are the numbers of rows whose store id is the gate's (the `where` filters of lines 11-21 are `StoreOrders` and `StoreProducts`); `ratings` holds exactly the ratings of a product of that store, with their multiplicities; `totalEarnings` is the sum of the store's order totals (`SumTotals`, the `reduce` of line 38) rounded once |
| `StoreDashboard.CountMatching` | app/api/store/dashboard/route.js:11-15 | the number of orders fetched is the number of order rows of the store |
| `StoreDashboard.CountMatchingProducts` | app/api/store/dashboard/route.js:17-21 | the number of products fetched is the number of product rows of the store |
| `StoreDashboard.SumTotalsWithout` | app/api/store/dashboard/route.js:38 | removing one order from the sum subtracts exactly its total |
| `StoreDashboard.SumTotalsPermutation` | app/api/store/dashboard/route.js:38 | the sum of the order totals does not depend on the order of the orders |
| `StoreDashboard.DashboardIgnoresOrderListing` | app/api/store/dashboard/route.js:37-38 | two listings of the same orders give the same `totalOrders` and `totalEarnings` |
| `StoreDashboard.NoStoreEmptyDashboard` | app/api/store/dashboard/route.js:9-28 | with no store id from the gate, the dashboard is empty and zero |
| `StoreDashboard.GetDashboardAsWritten` | app/api/store/dashboard/route.js:11 | as written, the dashboard never returns data: `prisma` is not imported |

## Left out

- Sign-in (`getAuth`), form-data and JSON parsing, response objects and HTTP
  status codes are request plumbing. The caller's user id is an input, and
  each reply is a datatype of outcomes. A signed-out caller is not modelled.
- `authSeller` is not part of this model. It is the parameter `authSeller`.
  Store ids it returns are taken to be non-empty, so any `Some` passes the
  `!storeId` test.
- Image upload and URL derivation, with their transformation options, are a
  foreign service. They are the parameter `upload`, and each folder stands
  for its own transformation.
- The storage engine is not modelled. Tables are sequences, and the users
  table is a map. Ratings carry only their ids; the `include` of the rating's
  user and product is not modelled. The id of a new row is a parameter.
- The schema is not part of this model. The initial store status (`pending`)
  and the initial stock flag (`true`) are constants.
- Floating point is not modelled. Prices and order totals are integers in
  hundredths, and `Math.round` is applied to that exact sum. Float drift in
  `reduce` is therefore absent.
- Concurrency is not modelled: every request runs alone, from start to finish.
  This leaves out two races: the check-then-create race in store creation
  and the read-then-write race in the stock toggle.
- The catch-all branches (`error.code || error.message`) are modelled only as
  the `Failed` outcome with an abstract `Fault`.
- `app/api/store/is-seller/route.js` is left out. It is a gate plus one
  lookup, with no logic of its own.
- Text.Lower: models `toLowerCase` on ASCII letters only. Other scripts'
  case mappings are not modelled.
- StoreCreate.GetStatus: names the status of *a* store of the user, not of the
  first one. The two coincide in a valid database, where a user owns at most
  one store.
- StoreCreate.Admit: names the status of *a* store of the caller when one
  exists, not of the first one. This is for the same reason as `GetStatus`.
- StoreCreate.ApplyForStore: assumes the schema has no foreign key from a
  store's owner to the users table. With such a key, an application from a
  user with no user row would fail at the insert and write nothing, whereas
  the model inserts the store and then fails at the link. The schema is not
  part of this model.
- StoreDashboard.NoStoreEmptyDashboard: assumes the gate's "no store" is
  `null`, which no row's store id equals. `authSeller` is not part of this
  model, and its falsy value decides the source's behaviour. With `undefined`
  the filters are dropped and every store's rows come back. With `false` the
  query is rejected and the catch-all answers. Only `null` or `""` give the
  empty dashboard the lemma states.

## Findings

| source | as written | input that shows it | evidently intended | confidence | as-written member | corrected member |
|---|---|---|---|---|---|---|
| app/api/store/create/route.js:74 | the store insert names `userID`, which is never declared, so it throws a ReferenceError after the logo upload and the catch-all answers | any complete application by a user without a store, with a free username and a working upload | insert the store with `userId` | high, not executed | `StoreCreate.ApplyForStoreAsWritten` | `StoreCreate.ApplyForStore` |
| app/api/store/stock-toggle/route.js:13 | `authSeller` is called but never imported, so every request with a product id throws | any request carrying a product id | import `authSeller` and gate on it | high, not executed | `StockToggle.ToggleStockAsWritten` | `StockToggle.ToggleStock` |
| app/api/store/dashboard/route.js:11 | `prisma` is used but never imported, so every request throws before reading | any request | import `prisma`, and filter on `storeId` and `productId` | high, not executed | `StoreDashboard.GetDashboardAsWritten` | `StoreDashboard.GetDashboard` |
