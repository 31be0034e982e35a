# Recipe and base-ingredient store

A Dafny model of the backend of a small bill-of-materials service. There are
two tables:

- `base_ingredients` holds the leaf items.
- `recipes` holds composite items. Each recipe stores an ordered `ingredients`
  JSONB array. An element of that array may point at a base ingredient
  (`is_recipe: false`) or at another recipe (`is_recipe: true`).

The eight HTTP handlers each become one atomic method of a `Store` class that
holds both tables as maps. A method returns a `Reply` whose `Status()` is the
HTTP code the handler sends (200, 201, 204, 400, 404 or 500).

Modules:

- `Schema` (`schema.dfy`): the record types and the column constraints of the
  schema script. These are the primary key, `UNIQUE NOT NULL` names,
  VARCHAR(255)/VARCHAR(50) lengths, NUMERIC(10, 2) amounts (held as integer
  cents, |v| ≤ 9999999999) and the NOT NULL ingredient array. The module also
  defines the write check the database applies.
- `NameOrder` (`name_order.dfy`): `ORDER BY name`. It defines a lexicographic
  order on names, the sorted listing of a table, and a proof that this listing
  is unique.
- `Requests` (`requests.dfy`): the request bodies and the handlers' validation
  (`!name`, `Array.isArray`, `length === 0`).
- `UsageGuard` (`usage_guard.dfy`): the pre-delete query. It is
  `COUNT(*) ... WHERE ingredients @> '[{"item_id": id, "is_recipe": flag}]'`
  followed by `count > 0`, written as a predicate over the stored sequences.
- `Uuid` (`uuid.dfy`): how PostgreSQL reads a path id as a UUID. `Key` maps
  every spelling `uuid_in` accepts (digits of either case, optional braces, a
  hyphen after any group of four digits) to the canonical text `uuid_out`
  writes, or to nothing when the text is not a UUID. Rows are stored under
  canonical text.
- `Api` (`api.dfy`): the `Store` class and its eight handler methods.
- `Scenarios` (`scenarios.dfy`): request sequences on a fresh store, with the
  replies they get, plus create-then-delete round trips.

Behaviour follows the code where an idealised design would differ:

- A duplicate name, an over-long string, an out-of-range amount, a text value
  holding U+0000 and a path id that is not a UUID all make the statement fail.
  The handler's generic `catch` turns each into 500. None is a distinct
  conflict error.
- A VARCHAR column takes a value that is too long when every character past
  its bound is a space: the spaces are cut off and the write succeeds.
- The guard compares the path text with the stored `item_id` text exactly,
  while `WHERE id = $1` compares UUID values. A respelled id (upper case,
  braces) of a referenced row passes the guard and deletes the row, leaving
  the reference dangling.
- Delete runs the usage guard before it looks up the row. So a referenced but
  nonexistent id gets 400, not 404.
- The guard scans every recipe, including the one being deleted. A recipe
  that lists itself as a recipe ingredient can therefore never be deleted by
  the id text its own list holds. Another spelling of the same UUID, such as
  the braced one, passes the guard and deletes it.
- A recipe body with no `ingredients`, or with an empty one, gets 400. This
  holds even for a request such as `{name: "Dough"}` that has no other fault.
- Update checks everything except uniqueness before it looks the row up.
  Binding the parameters, parsing the UUID and coercing the new values to
  VARCHAR and NUMERIC all happen while the statement is planned. So a value
  holding U+0000, a name too long for its column or an amount outside
  NUMERIC(10, 2) gets 500 even for an absent id. Only a body the columns
  take gets 404 for an absent id; the UNIQUE check applies only to a row
  that is found.
- Update writes every column from the body. A member the body omits becomes
  NULL. The ingredient list is replaced as a whole.
- The store does not check that an `item_id` resolves to an existing row.

`uuidv4()` becomes a `freshId` parameter, with `requires IsCanonical(freshId)
&& freshId !in` its table.

## Model

| member | source | states |
|---|---|---|
| `Schema.BaseWriteAcceptedIff` | backend/src/db/init.ts:7-13 | On a table that meets the `base_ingredients` schema, a write is accepted exactly when the table still meets the schema afterwards. The schema is: key equals `id`, unique name, name ≤ 255, image_url ≤ 255, unit ≤ 50, price within NUMERIC(10, 2). |
| `Schema.RecipeWriteAcceptedIff` | backend/src/db/init.ts:20-27 | The same exactness for `recipes`: unique name, name and image_url ≤ 255, prep_time ≤ 50, unit_price within NUMERIC(10, 2). |
| `Api.Store.constructor` | backend/src/db/init.ts:6-28 | The store starts with both tables empty, and empty tables meet every invariant. |
| `NameOrder.LeTotal` | backend/src/index.ts:20 | The name order used by `ORDER BY name` relates every pair of names. |
| `NameOrder.LeAntisymmetric` | backend/src/index.ts:20 | Two names that sort no later than each other are equal. |
| `NameOrder.LeTransitive` | backend/src/index.ts:20 | The name order is transitive. |
| `NameOrder.SortedRows` | backend/src/index.ts:20 | For a keyed table with unique names, the result holds every row exactly once, each at its own id, in strictly ascending name order. |
| `NameOrder.SortedListingUnique` | backend/src/index.ts:94 | Any two sorted listings of the same table are equal. So a list response depends only on the table's contents, not on insertion order. |
| `Api.Store.ListBaseIngredients` | backend/src/index.ts:18-26 | Returns 200 with exactly the rows of `base_ingredients`, ordered by name. It changes no state. |
| `Api.Store.CreateBaseIngredient` | backend/src/index.ts:28-44 | A falsy name gives 400 and no change. A value holding U+0000, a value that cannot be assigned to its VARCHAR column, an amount out of range or a duplicate name gives 500 and no change. Otherwise the row is added under the fresh id with the body's values as their columns store them (trailing spaces past the bound cut off) and nulls for omitted members, and the reply is 201 with that row. `recipes` is untouched and the invariant is kept. |
| `Api.Store.UpdateBaseIngredient` | backend/src/index.ts:46-65 | A falsy name gives 400. A value holding U+0000, a path id that spells no UUID, a value its VARCHAR column cannot take or an amount outside NUMERIC(10, 2) gives 500, whether or not a row exists. Only for a body that passes these does a UUID that selects no row give 404. A rejected write of the found row, including a name held by another row, gives 500. Otherwise the row the UUID selects, under whatever spelling, is overwritten as a whole and the reply is 200 with it. Every other row and `recipes` are unchanged. |
| `Api.Store.DeleteBaseIngredient` | backend/src/index.ts:67-88 | If any recipe holds `{item_id: id, is_recipe: false}` with the path text as sent, the reply is 400 and nothing changes, whether or not a row exists. Otherwise a path id that spells no UUID gives 500, a UUID that selects no row gives 404, and the selected row is removed alone with 204. |
| `Api.Store.ListRecipes` | backend/src/index.ts:92-100 | Returns 200 with exactly the rows of `recipes`, each ingredient list as stored, ordered by name. It changes no state. |
| `Api.Store.CreateRecipe` | backend/src/index.ts:102-118 | A falsy name, or `ingredients` missing, not an array or empty, gives 400 and no change. U+0000 in a text value or in the ingredient array, a value that cannot be assigned, an amount out of range or a duplicate name gives 500. Otherwise the row is added under the fresh id, the ingredient array verbatim and the text values as stored, and the reply is 201 with it. |
| `Api.Store.UpdateRecipe` | backend/src/index.ts:120-139 | Same validation as create. U+0000 in the body, a path id that spells no UUID, a value its VARCHAR column cannot take or an amount outside NUMERIC(10, 2) gives 500, whether or not a row exists. Only for a body that passes these does a UUID that selects no row give 404. A rejected write of the found row gives 500. Otherwise the selected row is replaced as a whole, the ingredient list wholesale, and the reply is 200 with it. |
| `Api.Store.DeleteRecipe` | backend/src/index.ts:141-162 | If any recipe, this one included, holds `{item_id: id, is_recipe: true}` with the path text as sent, the reply is 400 and nothing changes. Otherwise a path id that spells no UUID gives 500, a UUID that selects no row gives 404, and the selected row is removed alone with 204. |
| `Schema.VarcharAssign` | backend/src/db/init.ts:9-11 | The value a VARCHAR(n) column stores is the prefix of what was sent that is exactly n long, or all of it when it fits; only spaces are cut off, and it is free of U+0000 when the value was. |
| `Schema.OptAssign` | backend/src/db/init.ts:22-24 | A nullable VARCHAR column stores NULL for NULL and, for a value, its prefix of length min(its length, n). What it stores fits the column exactly when the value holds no U+0000. |
| `Requests.BaseRow` | backend/src/index.ts:35-38 | The written row has a non-empty name, and it meets every column constraint when the parameters bind and the amount is in range. |
| `Requests.RecipeRow` | backend/src/index.ts:109-111 | The written row has a non-empty name and a non-empty ingredient list, and meets every column constraint when the parameters bind and the amount is in range. |
| `Uuid.KeyIsCanonical` | backend/src/db/init.ts:8 | Whatever a path id spells is canonical UUID text, and canonical text is exactly the text that `Key` maps to itself. |
| `Uuid.CanonicalKey` | backend/src/index.ts:79 | An id as `uuidv4()` writes it selects the row stored under that same text. |
| `Uuid.BracedKey` | backend/src/index.ts:153 | The braced spelling of a canonical id is different text but selects the same row. |
| `Uuid.CanonicalNulFree` | backend/src/db/init.ts:21 | Canonical UUID text holds no U+0000, so a canonical id can always be bound. |
| `Uuid.ToLower` | backend/src/db/init.ts:8 | A hexadecimal digit of either case becomes the lower-case digit of the same value, and a lower-case one is kept. |
| `Uuid.UpperKey` | backend/src/index.ts:54 | The same UUID written with upper-case digits selects the row stored under its canonical text. |
| `UsageGuard.ContainsIff` | backend/src/index.ts:71-74 | The containment test on one ingredient array holds exactly when some element is a reference with that `item_id` and that `is_recipe`; other members are wildcards. |
| `UsageGuard.InUseIff` | backend/src/index.ts:71-77 | `count > 0` holds exactly when some recipe has a matching element at some position. |
| `UsageGuard.SelfReferenceInUse` | backend/src/index.ts:145-150 | A recipe whose own list references it as a recipe makes the guard fire whenever the path text is the text its list holds, so it cannot be deleted by that text. |
| `UsageGuard.InUseAfterWrite` | backend/src/index.ts:145-150 | After writing a recipe row, the guard fires exactly when another recipe or the new list holds a matching reference. |
| `UsageGuard.InUseAfterRemove` | backend/src/index.ts:71-77 | Removing a recipe never makes the guard fire where it did not, and removing an absent key changes nothing. |
| `Scenarios.FlourAndBread` | backend/src/index.ts:67-88 | Create Flour and then Bread, which uses Flour. Deleting Flour gives 400. Deleting Bread gives 204. Deleting Flour then gives 204. |
| `Scenarios.RecipeWithoutIngredients` | backend/src/index.ts:104-106 | A recipe body with no `ingredients` gives 400. |
| `Scenarios.DoughAndPizza` | backend/src/index.ts:141-162 | Dough cannot be deleted (400) while Pizza lists it as a recipe. After Pizza's delete (204), Dough's delete gives 204. |
| `Scenarios.GuardBeforeLookup` | backend/src/index.ts:71-82 | Deleting a referenced id that has no row gives 400, even when it is not a UUID. An unreferenced missing UUID gives 404. Unreferenced text that is not a UUID gives 500. A self-referencing recipe gives 400. |
| `Scenarios.RespelledIdBypassesGuard` | backend/src/index.ts:71-83 | With Bread listing Flour, deleting Flour by its braced id gives 204. Afterwards no base ingredient is listed, while Bread still lists Flour's id. |
| `Scenarios.SelfReferenceRespelled` | backend/src/index.ts:145-157 | A recipe listing itself gets 400 when deleted by its own id text, but 204 when deleted by the braced spelling of that UUID, after which no recipe is listed. |
| `Scenarios.TrailingSpaces` | backend/src/db/init.ts:9 | A name of 256 characters ending in spaces is created (201) and stored as 255 characters. A 256-character name ending otherwise gets 500. |
| `Scenarios.CheckedBeforeLookup` | backend/src/index.ts:53-59 | On a UUID with no row, an update whose name holds U+0000, whose name is too long for VARCHAR(255) or whose price is outside NUMERIC(10, 2) gets 500; an update with the name "Salt" gets 404. |
| `Scenarios.DuplicateName` | backend/src/index.ts:35-43 | A second base ingredient with an existing name gives 500, and listing then shows only the first. |
| `Scenarios.UpdateReplacesIngredients` | backend/src/index.ts:126-134 | After an update to a shorter ingredient list, listing returns exactly that list, and the omitted `prep_time` is null. |
| `Scenarios.CreateThenDeleteBaseIngredient` | backend/src/index.ts:28-88 | Create followed by delete returns 201 then 204 and restores both tables, when no recipe references the fresh id. |
| `Scenarios.CreateThenDeleteRecipe` | backend/src/index.ts:102-162 | The same round trip for a recipe, also requiring that the new list does not reference the recipe itself. |

Predicates that only name a source condition have no row of their own. The
rows of the lemmas and methods that use them state what they mean:
`Requests.HasName`, `HasIngredients`, `BaseBodyBinds` and `RecipeBodyBinds`
appear in the `Api.Store` create and update rows. `UsageGuard.Contains` and
`InUse` appear in `UsageGuard.ContainsIff` and `InUseIff`. `Uuid.Key` appears
in `Uuid.KeyIsCanonical`, `CanonicalKey`, `BracedKey` and `UpperKey`.

## Left out

- Express setup, CORS, JSON body parsing, environment loading and `app.listen`: HTTP and configuration plumbing.
- `backend/src/db/db.ts` (the connection pool and its error handler): a foreign library and process control.
- The schema script's `pool.query` calls, logging, `process.exit` and `pool.end`: only the table definitions are modelled.
- Api.Store.ListBaseIngredients: never returns 500, because storage failures other than rejected writes (lost connection, server error) are not modelled. The same holds for every other handler's 500 on such failures.
- Api.Store.ListRecipes: never returns 500, for the same reason: a failing `SELECT` (lost connection, server error) is not modelled.
- Ids in the guard pattern are interpolated into JSON text unescaped. A path id holding `"`, `\` or a control character makes the pattern malformed JSON or a different pattern; the model compares the path text with `item_id` directly, as for any other id.
- Request members are typed. `name` is an optional string, with truthiness being "present and non-empty". Non-string names and their coercion by the driver are not modelled. Amounts arrive as integer cents, so NUMERIC rounding of extra decimals and non-numeric amounts are not modelled.
- VARCHAR lengths are counted as elements of `seq<char>`. The model does not use PostgreSQL's character counting in the server encoding.
- JSON serialisation and JSONB normalisation (key order, duplicate keys). An ingredient element is either a reference with its other members kept as an opaque string, or an opaque non-reference; arrays are stored and returned verbatim.
- The database collation for `ORDER BY name`. It is replaced by lexicographic order on character codes.
- Concurrency. Each handler is one atomic step, so the window between the guard query and the DELETE is not modelled.
- Console logging and the text of error messages. Only status codes are kept.
