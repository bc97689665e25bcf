# Model of the statement and response shaping of an Express/PostgreSQL shop backend

The backend is a set of Express handlers that each send one SQL statement to a
PostgreSQL pool and return JSON. Most of it is glue. This project models the
parts that are rules over strings and row sequences, and proves properties of them:

- **db.js.** SQLite-style `?` placeholders are rewritten to PostgreSQL `$1`, `$2`, …. Then `run` appends ` RETURNING id`
  when the trimmed statement starts with INSERT and the statement's text nowhere contains RETURNING (both
  case-insensitive). This is a text test, not a parse of the SQL: a string literal containing `returning` also
  stops the suffix, and a `WITH … INSERT` statement or one that starts with a comment never gets it. `getOne` gives the first row or null. `run` returns the
  `{ lastID, changes }` record.
- **server.js.** The upload handler rewrites the host's URL to request `q_auto,f_auto`. The checkout stub always
  reports success. Given a row array, the order fetch answers 404 or the first row, and the wishlist insert
  answers `{ message, data }`, where `data` is the inserted row, or is absent when the insert-or-ignore hit an
  existing pair. As written, both handlers throw at those lines and answer 500 (see "## Findings").

Modules:

- `Wrappers` (wrappers.dfy): `Option`, used for JavaScript's `null`/`undefined`.
- `Text` (text.dfy): the JavaScript string operations the code calls: ASCII `toUpperCase`, `trim`, `startsWith`,
  `includes`, `indexOf`, first-match `replace`, and decimal rendering in a template literal. The last one comes with
  a parser that inverts it.
- `Json` (json.dfy): JSON values and rows (column name to value).
- `Db` (db.dfy, modelling db.js): the placeholder rewrite, as a loop method proved equal to the function `Numbered`. Also the append
  step, `getOne` and the `run` record.
- `Server` (server.dfy, modelling server.js): the upload URL rewrite, as a method proved equal to `OptimizedUrl`, and the three
  response shapes.

The database is never modelled. The rows the driver returns, and the driver's `rowCount`, are inputs.

The upload handler rewrites the URL it gets back from the host (server.js:50-53); `Server.OptimizedUrl` models that.

## Model

| member | source | states |
|---|---|---|
| `Db.RewritePlaceholders` | db.js:15-17 | the scan with a counter starting at 1 on every call yields `Numbered(sql, 1)`, and the result contains no `?` |
| `Db.NumberedConcat` | db.js:17 | the rewrite works left to right: text after a prefix is numbered from one past the prefix's placeholder count |
| `Db.NumberedAtPlaceholder` | db.js:16-17 | the k-th `?` from the left is replaced by `$k` (k counted from the starting number), with the text before and after it rewritten in order |
| `Db.NumberedHasNoPlaceholder` | db.js:17 | no `?` survives the rewrite, including `?` inside quoted literals |
| `Db.NumberedIdentity` | db.js:17 | a statement comes back unchanged if and only if it contains no `?` (so every `$n`-style statement passes through untouched) |
| `Db.NumberedIdempotent` | db.js:17 | rewriting the rewritten statement again changes nothing, whatever the counter |
| `Text.Decimal` | db.js:17 | the text of `${paramIndex}` is a non-empty string of digits with no leading zero |
| `Text.DecimalRoundTrip` | db.js:17 | reading the numeral back gives the number, so distinct placeholders get distinct numerals |
| `Db.WithReturningIdIff` | db.js:40-41 | ` RETURNING id` is appended iff the trimmed upper-cased statement starts with INSERT and the upper-cased statement does not contain RETURNING; otherwise the statement is unchanged |
| `Db.UpdateAndDeleteUnchanged` | db.js:40 | a statement that starts with UPDATE or DELETE after trimming and upper-casing is never suffixed |
| `Db.SuffixHasReturning` | db.js:41 | whatever it is appended to, the suffix makes the statement contain RETURNING |
| `Db.WithReturningIdIdempotent` | db.js:40-41 | applying the append step to its own output changes nothing |
| `Db.AppendDecisionCommutes` | db.js:37-40 | the INSERT and RETURNING checks give the same answer on the rewritten statement as on the caller's statement |
| `Db.PrepareRun` | db.js:35-42 | the statement `run` sends is the rewritten statement, plus ` RETURNING id` exactly when the caller's statement is an INSERT without RETURNING; it contains no `?` |
| `Db.GetOne` | db.js:27-28 | null exactly for an empty result, otherwise the first row |
| `Db.RunResultOf` | db.js:47-50 | `changes` is the driver's row count; `lastID` is the first row's `id`, and undefined when no row came back or the row has no `id` |
| `Db.RunLastIdIsFirstRowId` | db.js:28-48 | `lastID` is the `id` of the row `getOne` would return for the same rows |
| `Text.IndexOf` | server.js:52 | the index found is where the pattern occurs and no earlier index has it; none exactly when the pattern does not occur |
| `Server.OptimizeImageUrl` | server.js:50-53 | the returned URL is `OptimizedUrl(path)`: unchanged without `/upload/`, 14 characters longer with it |
| `Server.OptimizedUrlChangesIff` | server.js:51-52 | the URL changes if and only if it contains `/upload/`, and then grows by exactly 14 characters |
| `Server.OptimizedUrlAtFirstOccurrence` | server.js:52 | for `a + "/upload/" + b` with the first occurrence right after `a`, the result is `a + "/upload/q_auto,f_auto/" + b` |
| `Server.OptimizedUrlNotIdempotent` | server.js:51-52 | the rewritten URL still contains `/upload/`, so a second application grows it by another 14 characters |
| `Server.Checkout` | server.js:61-63 | status 200, body exactly `{ success: true, message: 'Payment processed successfully' }` |
| `Server.CheckoutIgnoresRequest` | server.js:61-63 | any two request bodies get the same response |
| `Server.OrderById` | server.js:77-78 | 404 with "Order not found" exactly when there are no rows, otherwise 200 with the first row |
| `Server.OrderByIdAgreesWithGetOne` | server.js:77-78 | the order response picks the row `getOne` picks, and answers 404 where `getOne` gives null |
| `Server.WishlistAdd` | server.js:103-105 | status 201 and `message: 'success'` always; `data` is present exactly when a row came back, and is then the first row; no other keys |
| `Server.WishlistAddOnConflict` | server.js:103-105 | an insert-or-ignore that returned nothing yields `{ message: 'success' }` alone; otherwise `data` is the row `getOne` would give |
| `Db.Numbered` | db.js:17 | the text the global `?` replace at db.js:17 produces with the counter at `n`: each `?` becomes `$` and the current number, which then goes up by one; every other character is copied |
| `Db.IsInsert` | db.js:40 | `pgSql.trim().toUpperCase().startsWith('INSERT')` |
| `Db.HasReturning` | db.js:40 | `pgSql.toUpperCase().includes('RETURNING')` |
| `Db.WithReturningId` | db.js:40-42 | the statement with ` RETURNING id` appended when it is an INSERT without RETURNING, and unchanged otherwise |
| `Text.Upper` | db.js:40 | `toUpperCase`, ASCII-only: `a`-`z` become `A`-`Z`, and every other character is kept |
| `Text.Trim` | db.js:40 | `trim`: strips leading and trailing characters of the full ECMAScript WhiteSpace and LineTerminator set |
| `Text.StartsWith` | db.js:40 | `startsWith`: the prefix of `s` as long as `p` is `p`; false when `p` is longer than `s` |
| `Text.Contains` | server.js:51 | `includes`: some suffix of the string starts with the pattern (used for db.js:40 too) |
| `Text.ReplaceFirst` | server.js:52 | `replace` with a string pattern, for a replacement without `$` patterns: the first occurrence found by `IndexOf` is replaced, and without one the string is returned as it is |
| `Server.OptimizedUrl` | server.js:51-52 | the URL with its first `/upload/` replaced by `/upload/q_auto,f_auto/` when it contains one, and the URL itself otherwise |
| `Server.RowsProperty` | server.js:76 | `const { rows } = value` binds the rows of a driver result, and undefined for an array |
| `Server.InternalError` | server.js:79 | the catch branch answers status 500 with body `{ error: message }` |
| `Server.OrderFetchAsWritten` | server.js:76-79 | the order fetch as written: 500 when `rows` is undefined, otherwise exactly `OrderById(rows)` |
| `Server.WishlistAddAsWritten` | server.js:104-107 | the wishlist insert as written: 500 when `rows` is undefined, otherwise exactly `WishlistAdd(rows)` |
| `Server.OrderFetchAsWrittenFails` | server.js:76-79 | with `pool.query` resolving to the row array, the order fetch answers 500 for every row sequence, never what `OrderById` gives |
| `Server.WishlistAddAsWrittenFails` | server.js:104-107 | with `pool.query` resolving to the row array, the wishlist insert answers 500 for every row sequence, never what `WishlistAdd` gives |
| `Server.HandlersWithDriverResult` | server.js:76-78 | bound to a value that has a `rows` property, the two handlers answer what `OrderById` and `WishlistAdd` say about those rows |

## Left out

- Connection pool: acquire and release, SSL configuration and `client.query` (db.js:5-8, 12, 19-23, 32, 44, 51-53). These are driver resource handling with no logic of their own.
- Database semantics: what `ON CONFLICT … DO NOTHING`, `RETURNING *`, the wishlist JOIN and DELETE do. Row sequences and the row count are inputs instead.
- Cloudinary and multer configuration, and the upload middleware's 500 and 400 error paths (server.js:18-46). These are foreign library calls.
- Express routing, `cors`, `express.json`, `app.listen` and dotenv (server.js:1-16, 122-124; db.js:1).
- Handlers outside the modelled rules: the order insert (server.js:66-72), the wishlist listing (server.js:84-98) and the wishlist delete (server.js:111-119). Each only forwards rows or answers a constant.
- The catch branch of the order fetch and the wishlist insert when the query itself fails (a database or connection error), and the catch branch of every other handler. Each answers 500 with the raw error message. Only the TypeError that the order fetch and the wishlist insert throw after destructuring is modelled (`Server.OrderFetchAsWritten`, `Server.WishlistAddAsWritten`).
- init.js (schema read and seeding against the pool) and index.js (child-process bootstrap). init.js and index.js are not part of this model.
- `Db.WithReturningIdIff`, `Db.PrepareRun`, `Db.AppendDecisionCommutes`: `toUpperCase` is modelled on ASCII letters only. JavaScript's full Unicode mapping also turns `ı` into `I` and `ſ` into `S`, so it can accept statements such as `ınsert …` that the model does not. In the other direction, JavaScript counts `returnıng` as RETURNING and does not append, where the model appends the suffix. `trim` is modelled with the full ECMAScript whitespace and line-terminator set.
- `Db.RewritePlaceholders`: `paramIndex` is an unbounded natural, not a JavaScript number. The model does not capture loss of precision above 2^53 placeholders.
- `Db.GetOne`: `rows[0] || null` is modelled as "first row or null". This relies on a driver row always being an object, and objects are always truthy.
- JSON numbers are integers in the model. Floating point is not modelled.
- `Server.OrderById`, `Server.WishlistAdd`: `rows` is taken to be a row array, like the `rows` of a pg `Pool.query` result. These members cover server.js:77-78 and server.js:105 only. What the handlers as written bind to `rows` is modelled by `Server.OrderFetchAsWritten` and `Server.WishlistAddAsWritten`.
- `Server.InternalError`: the error texts are V8's TypeError messages. Other engines word them differently.

## Findings

Both rows come from reading the code; nothing was executed. server.js:7 imports db.js's export object (db.js:56) as `pool`. So `pool.query` is the helper at db.js:11-24, which resolves to `result.rows`, the row array itself (db.js:20). Destructuring `const { rows }` from an array binds undefined. The same pattern at server.js:69-70 and server.js:93-94 is outside this model.

| source | as written | input that shows it | evidently intended | confidence | as-written member | corrected member |
|---|---|---|---|---|---|---|
| server.js:76-79 | `const { rows } = await pool.query(...)` destructures the array the db.js helper resolves to, so `rows` is undefined and `rows.length` throws; the catch answers 500 | any order id, with any rows in the table (e.g. none, where 404 was meant) | 404 "Order not found" for no rows, otherwise 200 with the first row | not executed | `Server.OrderFetchAsWrittenFails` | `Server.OrderById` |
| server.js:104-107 | the same destructuring binds undefined, and `rows[0]` throws; the catch answers 500 | any `{ session_id, product_id }` body, new pair or duplicate | 201 `{ message: 'success', data }`, with `data` the inserted row or absent on a duplicate | not executed | `Server.WishlistAddAsWrittenFails` | `Server.WishlistAdd` |
