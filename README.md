# Shop backend services in Dafny

This project models the business logic of a small NestJS shop backend:
four services over three MySQL tables (users, products, purchases),
reached through TypeORM repositories.

- **`UserService`** keeps a directory of users. E-mail addresses are stored
  and looked up lower-cased and trimmed, and they are unique. A password that
  already carries the bcrypt prefix `$2b$` is stored as it is; any other
  password is hashed.
- **`ProductService`** keeps a catalogue of products. Each product has a
  unique, trimmed name and a non-negative price held to two decimals.
- **`PurchaseService`** records purchases. Each purchase links a user and a
  product and keeps the total at the price of the day.
- **`AuthService`** registers users and logs them in, answering with a
  signed token.

## How the model is built

- **The store.** The three repositories are one `Store.Database` object. It
  holds one `map<int, Row>` per table and an auto-increment counter per
  table.
- **The invariant.** `Database.Valid` states that primary keys match their
  rows. It also states the UNIQUE indexes (user e-mail, product name) and that
  every purchase's foreign keys resolve.
- **Saves.** A save that would break a UNIQUE index reports a duplicate
  instead of writing. This is the `ER_DUP_ENTRY` case. Deleting a user or a
  product deletes their purchases, as `onDelete: 'CASCADE'` does.
- **The services.** Each service is a class holding the shared database. Its
  operations are methods with `modifies` clauses on exactly the tables they
  change, or functions reading the database. Each operation states its
  result and the new tables for every branch.
- **Error results.** The services signal errors in two ways, and the model
  keeps them apart:
  - A thrown HTTP exception (409, 400, 401), or the plain `Error` of
    `findByName`, which surfaces as a 500, is `Err(fault)`.
  - A response envelope with `success: false` and an error code is
    `Ok(Failure(message, code))`.
- **Messages.** The Turkish messages and the error codes are the source's
  own constants.
- **Normalisation.** `toLowerCase().trim()` is `Text.Normalize`.
  `Text.Lower` changes ASCII letters only (see "## Left out"). `Text.Trim`
  strips the ECMAScript white-space set.
- **Numbers.** A JavaScript number is `Money.JsNumber`, either NaN or an
  exact decimal `digits / 10^scale`. `toFixed(2)` is `Money.ToCents`, which
  rounds to the nearest cent and rounds half-way cases up. Prices and totals
  are stored as whole cents.
- **Foreign calls.** bcrypt's `hash` and `compare` are function parameters.
  The JWT `sign` is a function held by `AuthService`. The purchase timestamp
  (`CURRENT_TIMESTAMP`) is the parameter `now`.
- **`findByEmail`.** `findByEmail` (user.service.ts:40-42) runs the same
  query as `getByEmailEntity`, so `Users.UserService.GetByEmailEntity`
  models both.

### Things the proofs bring out

- **Users: the save-time duplicate check never fires.** Both `create` and
  `updateByEmail` check for the address before saving, in a store that
  handles one request at a time. `ER_DUP_ENTRY` therefore cannot occur on a
  user save. The methods prove this and have no branch for it.
- **Products `create`: the two name checks look at different names.**
  - The pre-check tests the name as given.
  - The row stores the trimmed name.
  - So `" Pen "` passes the pre-check when `"Pen"` exists, and is refused
    only by the UNIQUE index at save time.
  - Both paths give the same 409 conflict.
- **Products `update`: no pre-check.** A rename onto another product's name
  is refused only at save time.
- **Purchases: in exact decimal arithmetic the total guard never fires.**
  Prices are non-negative cents and quantities are at least 1. In exact
  decimal arithmetic the guard "total is not finite or is negative"
  therefore never fires, and the stored total is exactly `price × quantity`
  (`Money.TotalIsExactProduct`). With binary floating point a huge quantity
  can overflow the product to Infinity, and then the guard does fire (see
  "## Left out").
- **Purchases: the two e-mail look-ups differ.** `create` finds the user by
  the normalised address. `findByUserEmail` compares the raw argument with
  the stored address. Under the exact comparison the model uses, an address
  with capitals or surrounding spaces therefore lists nothing
  (`Purchases.PurchaseService.ListedEmailIsNormal`), although a purchase made
  under it succeeds. Under MySQL's default case-insensitive collation this
  still holds for an address with leading white space, but not for one that
  differs only in case.
- **Users `updateByEmail`: a blank name empties the name.** A name of white
  space only is truthy, so it is applied, and it trims to the empty string.
  A password of white space only is also truthy, but it fails the second
  check and the password is kept (`Users.BlankFieldIsGiven`).
- **Auth: the password is hashed only once.** `register` hashes the password
  and passes the hash to `createResponse`. `createResponse` stores a value
  that starts with `$2b$` as it is, so the stored password is a single hash
  whenever bcrypt's output carries that prefix.

## Model

| member | source | states |
|---|---|---|
| Text.Trim | backend-main/src/user/user.service.ts:32 | `trim` leaves no white space at either end and never lengthens the string. |
| Text.TrimOfPadded | backend-main/src/user/user.service.ts:32 | Trimming a trimmed string wrapped in white space gives that string back. |
| Text.LeadingSpacesExact | backend-main/src/user/user.service.ts:32 | The white space `trim` drops at the front is exactly the leading run of white space. |
| Text.TrailingSpacesExact | backend-main/src/user/user.service.ts:32 | The white space `trim` drops at the end is exactly the trailing run of white space. |
| Text.TrimSplits | backend-main/src/user/user.service.ts:32 | Every string is white space, then its trimmed form, then white space. |
| Text.TrimIdempotent | backend-main/src/user/user.service.ts:32 | Trimming twice is trimming once. |
| Text.TrimIgnoresPadding | backend-main/src/user/user.service.ts:32 | Extra white space around a string does not change its trimmed form. |
| Text.Lower | backend-main/src/user/user.service.ts:20 | Lower-casing keeps the length, leaves no capital letter A–Z, and changes nothing but capital letters. |
| Text.Normalize | backend-main/src/user/user.service.ts:20 | A normalised address is lower-case, has no white space at either end, and is no longer than the input. |
| Text.LowerIdempotent | backend-main/src/user/user.service.ts:20 | Lower-casing twice is lower-casing once. |
| Text.NormalizeIdempotent | backend-main/src/user/user.service.ts:20 | Normalising a normalised address changes nothing, so re-normalising in a callee is harmless. |
| Text.NormalizeIgnoresCase | backend-main/src/user/user.service.ts:141 | An address and its lower-cased form normalise alike. |
| Text.NormalizeIgnoresPadding | backend-main/src/user/user.service.ts:141 | An address with white space around it normalises like the bare address. |
| Money.IntegerIsWholeNumber | backend-main/src/purchase/purchase.service.ts:21 | `Number.isInteger` holds exactly for the numbers whose value is a whole number, and `IntegerValue` is that number. |
| Money.IntegerValue | backend-main/src/purchase/purchase.service.ts:21 | An integral number's value times the scale is its digits. |
| Money.ToCentsNearest | backend-main/src/product/product.service.ts:46 | `toFixed(2)` lands within half a cent of the price, and half-way cases round up; `create` and `update` store prices this way. |
| Money.ToCentsExact | backend-main/src/product/product.service.ts:72 | A price with at most two decimals is stored exactly, by `update` as by `create`. |
| Money.CentsRoundTrip | backend-main/src/purchase/purchase.service.ts:35 | A stored price read back with `Number` and fixed to two decimals is the same number of cents. |
| Money.TotalIsExactProduct | backend-main/src/purchase/purchase.service.ts:35-46 | In exact decimal arithmetic, a quantity of at least 1 always gives an accepted total equal to price × quantity in cents. |
| Money.TotalRefusedExactly | backend-main/src/purchase/purchase.service.ts:35-39 | The total guard refuses exactly a negative quantity at a non-zero price; the total is never NaN. |
| Table.Select | backend-main/src/product/product.service.ts:22 | `find` with `order: { id: 'DESC' }` returns exactly the matching keys, each once, in strictly descending order. |
| Table.FindOne | backend-main/src/product/product.service.ts:118 | `findOne` returns a matching row if one exists, and none otherwise. |
| Entities.UserCascadeKeepsLinks | backend-main/src/purchase/entities/purchase.entity.ts:10-12 | After a user is deleted with the cascade, every remaining purchase still joins to a remaining user and a product. The purchase table is unchanged exactly when that user had no purchases. |
| Entities.ProductCascadeKeepsLinks | backend-main/src/purchase/entities/purchase.entity.ts:14-16 | After a product is deleted with the cascade, every remaining purchase still joins to a user and a remaining product. The purchase table is unchanged exactly when nobody had bought that product. |
| Store.Database.FindUserByEmail | backend-main/src/user/user.service.ts:22 | The exact-match look-up finds a row if and only if some row holds the address, and that row holds it. |
| Store.Database.FindProductByName | backend-main/src/product/product.service.ts:35 | The exact-match look-up finds a row if and only if some row holds the name, and that row holds it. |
| Store.Database.InsertUser | backend-main/src/user/user.service.ts:31-37 | A save inserts under the next id unless the e-mail is taken; the invariant holds afterwards. |
| Store.Database.UpdateUser | backend-main/src/user/user.service.ts:128-136 | A save writes back the row unless another row holds its e-mail; the invariant holds afterwards. |
| Store.Database.RemoveUser | backend-main/src/user/user.service.ts:98 | A remove deletes the row and cascades to its purchases; foreign keys still resolve. |
| Store.Database.InsertProduct | backend-main/src/product/product.service.ts:44-57 | A save inserts under the next id unless the name is taken; the invariant holds afterwards. |
| Store.Database.UpdateProduct | backend-main/src/product/product.service.ts:75-83 | A save writes back the row unless another row holds its name; the invariant holds afterwards. |
| Store.Database.RemoveProduct | backend-main/src/product/product.service.ts:97 | A remove deletes the row and cascades to its purchases; foreign keys still resolve. |
| Store.Database.InsertPurchase | backend-main/src/purchase/purchase.service.ts:41-48 | A save appends one purchase under the next id; foreign keys still resolve. |
| Users.StoredPasswordHashedOnce | backend-main/src/user/user.service.ts:27-29 | When bcrypt's output carries the `$2b$` prefix, the stored password always carries it too, storing a stored password again keeps it, and a hash passed in is not hashed a second time. |
| Users.BlankFieldIsGiven | backend-main/src/user/user.service.ts:113-126 | A non-empty field of white space only counts as given but trims to the empty string: it empties the name, and it leaves the password unchanged. |
| Users.UserService.GetByEmailEntity | backend-main/src/user/user.service.ts:140-142 | The look-up finds a user if and only if some user holds the normalised address; it returns that user without password. |
| Users.UserService.GetByEmailWithPasswordEntity | backend-main/src/user/user.service.ts:145-151 | The same look-up, returning the full row with its password. |
| Users.UserService.FindByEmailResponse | backend-main/src/user/user.service.ts:51-57 | Success if and only if the normalised address is held, and then the data is the stored user holding it, without password; otherwise `USER_NOT_FOUND` and no data. |
| Users.Directory | backend-main/src/user/user.service.ts:46 | Every user of the table appears once, without password, in strictly descending id order, and nothing else does. |
| Users.UserService.FindAll | backend-main/src/user/user.service.ts:45-48 | Every user appears, without password, in strictly descending id order, and nothing else does. |
| Users.UserService.LookupIgnoresCaseAndPadding | backend-main/src/user/user.service.ts:140-142 | Case and white-space variants of an address find the same user. |
| Users.UserService.LookupFindsTheHolder | backend-main/src/user/user.service.ts:140-142 | The look-up returns precisely the row holding the normalised address. |
| Users.UserService.Create | backend-main/src/user/user.service.ts:19-38 | A taken normalised address gives a 409 and no change. Otherwise exactly one row is added: the next id, the normalised address, the trimmed name and the stored password. E-mails stay unique and normalised. |
| Users.UserService.CreateResponse | backend-main/src/user/user.service.ts:60-87 | The same as `create`, with the new user wrapped in a success envelope. |
| Users.UserService.DeleteByEmail | backend-main/src/user/user.service.ts:90-104 | A missing user gives `USER_NOT_FOUND` and no change. Otherwise exactly that user is removed with their purchases, and their id, e-mail and name are returned. |
| Users.UserService.UpdateByEmail | backend-main/src/user/user.service.ts:107-137 | A missing user gives `USER_NOT_FOUND` and no change. A new normalised address held by someone else gives a 409 and no change. Otherwise only this row changes, field by field: a non-empty name is trimmed, a non-empty address is normalised, a non-blank password is hashed, and the id is kept. |
| Products.ProductService.FindByName | backend-main/src/product/product.service.ts:11-13 | Always fails as not implemented. |
| Products.ProductService.GetByNameEntity | backend-main/src/product/product.service.ts:117-119 | Finds a product if and only if one has exactly this name; no trimming. |
| Products.ProductService.GetByNameResponse | backend-main/src/product/product.service.ts:26-32 | Success if and only if the name is held, and then the data is the stored product with that name; otherwise `PRODUCT_NOT_FOUND` and no data. |
| Products.ProductService.PaddedNameNotFound | backend-main/src/product/product.service.ts:117-119 | A name with white space at either end never matches, since stored names are trimmed. |
| Products.StoredPriceAccepted | backend-main/src/product/product.service.ts:68-72 | A stored price sent back as it reads passes the price check and is stored as the same number of cents. |
| Products.Catalogue | backend-main/src/product/product.service.ts:22 | Every product of the table appears once, in strictly descending id order, and nothing else does. |
| Products.ProductService.FindAll | backend-main/src/product/product.service.ts:21-24 | Every product appears in strictly descending id order, and nothing else does. |
| Products.ProductService.Create | backend-main/src/product/product.service.ts:34-58 | In order: a name held as given gives a 409; then a NaN or negative price gives a 400; then a trimmed name already held gives a 409 at save. Each refusal leaves the table unchanged. Otherwise exactly one product is added with the trimmed name and the price in cents. Names stay unique and trimmed. |
| Products.ProductService.Update | backend-main/src/product/product.service.ts:60-84 | A missing product gives `PRODUCT_NOT_FOUND`. A given invalid price gives a 400. A name held by another product gives a 409. None of these changes anything. Otherwise only the given name (trimmed) and price (in cents) of that row change. |
| Products.ProductService.Delete | backend-main/src/product/product.service.ts:86-103 | A missing product gives `PRODUCT_NOT_FOUND` and no change. Otherwise exactly that product and its purchases are removed, and its id and name are returned. |
| Products.ProductService.SetImageUrlByName | backend-main/src/product/product.service.ts:105-114 | A missing product gives `PRODUCT_NOT_FOUND`. Otherwise only that product's image URL changes. |
| Purchases.AcceptableQuantityIsWholeNumber | backend-main/src/purchase/purchase.service.ts:21-23 | `create` accepts exactly the quantities whose value is a whole number of at least 1. |
| Purchases.Listing | backend-main/src/purchase/purchase.service.ts:53-56 | The loaded purchases that match are listed, each once and in strictly descending id order, and nothing else is. |
| Purchases.PurchaseService.FindAll | backend-main/src/purchase/purchase.service.ts:52-58 | Every purchase appears with its relations, newest first. |
| Purchases.PurchaseService.FindByUserEmail | backend-main/src/purchase/purchase.service.ts:60-67 | Exactly the purchases whose user's stored e-mail equals the raw argument, newest first. The list may be empty, and that is still a success. |
| Purchases.PurchaseService.ListedEmailIsNormal | backend-main/src/purchase/purchase.service.ts:60-67 | Only a normalised address can list any purchase. |
| Purchases.PurchaseService.Create | backend-main/src/purchase/purchase.service.ts:18-50 | The checks run in order: quantity first (400), then the user by normalised e-mail (`USER_NOT_FOUND`), then the product by exact name (`PRODUCT_NOT_FOUND`); each refusal adds no row. Otherwise exactly one purchase is added: the next id, that user and product, the quantity, price × quantity in cents, and `now`. Users and products are never changed. |
| Auth.AuthService.Register | backend-main/src/auth/auth.service.ts:17-54 | A taken normalised address gives a 409 and no change. Otherwise one user is added with the normalised address, the trimmed name and the hashed password, and only id, name and e-mail are returned. When the hash carries the bcrypt prefix, the stored password is that single hash. |
| Auth.AuthService.Login | backend-main/src/auth/auth.service.ts:56-78 | Succeeds if and only if the user holding the normalised address exists and the password matches. Every failure is the same 401. The token signs the user's id and stored e-mail. |
| Auth.AuthService.RegisteredUserLogsIn | backend-main/src/auth/auth.service.ts:56-78 | A user stored with the hash of a password logs in with that password, under any padded spelling of the address, and gets a token for that user. |

## Left out

- **Concurrency.** Requests are modelled one at a time.
  - Two concurrent requests for the same e-mail or name can pass each
    other's pre-check. In the source this raises `ER_DUP_ENTRY` on a user
    save, a branch the model proves unreachable.
  - Gaps that failed inserts leave in the auto-increment sequence are not
    modelled.
- **MySQL collation.** The UNIQUE indexes and the `where` look-ups are
  modelled as exact string comparison. The real comparison depends on the
  server's default collation, which the application does not pin: it
  ignores case on MySQL 5.7 and 8 alike, ignores trailing spaces on 5.7
  (PAD SPACE) but not on 8 (`utf8mb4_0900_ai_ci` is NO PAD), and on 8 also
  ignores accents.
- **Text.Lower:** changes the ASCII letters A–Z only. JavaScript's
  `toLowerCase` maps the whole of Unicode, including characters whose lower
  case has a different length.
- **Floating point.**
  - Numbers are exact decimals. Binary floating point can make `toFixed(2)`
    round a tie such as 1.005 down, and makes `unit * quantity` inexact.
  - ±Infinity is not modelled. In the source +Infinity passes the price
    check and then fails in the database, while −Infinity is refused as
    negative with a 400.
  - Exponent notation is not modelled.
  - The `DECIMAL(10,2)` column limit is not modelled.
  - The `VARCHAR(255)` limits of the name, e-mail, password and image
    columns (user.entity.ts, product.entity.ts) are not modelled. Nothing
    bounds a name's length before the save, so a longer name fails at save
    in the source while the model stores it.
- **Money.TotalCents / Purchases.PurchaseService.Create:** the total is
  computed exactly. In the source, a quantity such as 1e308 passes the
  integer check. At a non-zero price `unit * quantity` overflows to
  Infinity, which the guard refuses with a 400. A finite total beyond
  `DECIMAL(10,2)` fails at save. The model records a purchase in both
  cases.
- **Store.Database.InsertPurchase / Purchases.PurchaseService.Create:** the
  `quantity` column is a MySQL `INT` (purchase.entity.ts:18-19), and its
  range is not modelled. In the source a quantity above 2147483647 fails at
  save with a 500, even when its total fits `DECIMAL(10,2)` (3000000000 at
  0.01). At price 0 the total is 0, so even 1e308 reaches the save and
  fails there. The model records the purchase in each case.
- **Number parsing.** `Number(dto.price)` on a string is not modelled; the
  price arrives as a `JsNumber`.
- **bcrypt, JWT and the clock.** These are parameters.
  - bcrypt's salt, its randomness and its cost factor are not modelled.
  - The token's one-day expiry is not modelled.
  - The purchase timestamp is the parameter `now`.
- **Users.UserService.UpdateByEmail:** returns the saved user without
  password. The source returns the saved entity, which holds the new hash
  when the password was changed.
- **Users.UserService.Create:** the exception a failed save rethrows (any
  error other than `ER_DUP_ENTRY`) is not modelled. Neither is the database
  failing in any other way.
- **Controllers and DTO validation.** These are left out. The services are
  modelled for whatever arguments the DTOs let through: an optional DTO
  field is an `Option`, and a JavaScript-falsy string is the empty one.
- **Users.UserService.DeleteByEmail / Products.ProductService.Delete:**
  TypeORM's `remove` may clear the entity's id
  before `deleteByEmail` and `delete` build their responses
  (user.service.ts:102, product.service.ts:101). The model returns the id
  the row had.
- **Relation loading of a saved purchase.** This is modelled as the user and
  product objects the service passes to `create`, and they are returned in
  the response.
