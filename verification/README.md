# Pantry Tracker backend — a Dafny model of the data-access layer

This project models the data-access layer of the Pantry Tracker backend.

- **The partial-update builder** (`sqlForPartialUpdate`).
- **The three models.**
  - `Ingredient`, `Recipe` and `User`.
  - They run over a PostgreSQL database of six tables:
    - `ingredients`, `recipes` (with its id sequence) and `users`;
    - three junction tables: `recipe_ingredients` (with the amount), `users_ingredients` and `users_recipes`.
- **The error classes** of `expressError.js`, with the status the catch-all error handler answers with.

The database is an immutable value (`Store.Db`): maps keyed by name, id or username, and sets for the junction tables. Each model method is a pure function from a database and its arguments to a `Result`:

- on success, a `Step`: the new database and what the method returns;
- on failure, an `Error`: the class the code throws, its message and its status.

A failure carries no database, so a failed operation leaves the state unchanged by construction. Sets and map keys make duplicate junction pairs unrepresentable. `Store.Valid` says that rows sit under their own key and that junction rows refer to existing rows. Every writing operation is proved to keep it.

A JavaScript object argument is an ordered sequence of (key, value) pairs, with `Value = Null | Str | Bool | Int`. `undefined` is a missing key, so key order and null-versus-absent stay explicit.

Two SQL fragments are modelled as text, and the database's reading of them is modelled too:

- **The update builder's SET list** `"col"=$1, "col2"=$2, …`. Module `SqlText` reads this text back into (column, placeholder) pairs. `Sql.Plan` then binds each `$k` to the k-th element of the bind list `[...values, key]`, as the database does for `UPDATE … SET … WHERE key = $(n+1)`. The proved meaning is:
  - the statement assigns exactly the requested columns and values;
  - it selects the row by the key;
  - otherwise it is refused for a column that may not be written.

  Three definitions state what the text should say. `Sql.ColumnFor` is `jsToSql[key] || key`. `Sql.Numbered` pairs the i-th key's column with the number i+1. `Sql.Requested` pairs the i-th key's column with the i-th value. They are reference definitions that the proofs compare the builder's text against, not behaviour of their own.
- **The `findByCriteria` WHERE clause** `col ILIKE $1 AND col2 ILIKE $2 …`. Module `Search` builds it exactly as the code does and evaluates it on a row. Module `ILike` is the `ILIKE` pattern matcher. The proved meaning is that, for filter text without wildcards, the result is exactly the rows in which every supplied filter occurs in its column, ignoring ASCII case.

  The reference definitions here are `Search.Clauses` and `Search.Patterns`. `Search.Clauses` pairs the k-th supplied filter's column with `$k`. `Search.Patterns` gives that filter's text between two `%`.

Sorted reads (`ORDER BY`) are methods that return a permutation of the selected rows, sorted by a proved total preorder:

- code-point order for text;
- NULL last for nullable text;
- numeric order for ids.

Unordered reads return the selected rows once each, and promise no order.

bcrypt is an ideal digest (`Crypto.Cell`). A column holds either a plain value or `Digest(p)`, which records only the password it was computed from. `Compare` accepts exactly that password. `hash` and `compare` throw on a non-string password, and `compare` also throws on a NULL stored hash; both are modelled.

## Model

| member | source | states |
|---|---|---|
| Errors.ExpressError | pantry-tracker-backend/expressError.js:5-11 | the base error keeps exactly the message and status it is given |
| Errors.NotFoundError | pantry-tracker-backend/expressError.js:15-19 | status 404; message "Not Found" when none is given, else the given one |
| Errors.UnauthorizedError | pantry-tracker-backend/expressError.js:23-27 | status 401; default message "Unauthorized" |
| Errors.BadRequestError | pantry-tracker-backend/expressError.js:31-35 | status 400; default message "Bad Request" |
| Errors.ForbiddenError | pantry-tracker-backend/expressError.js:39-43 | status 403; default message "Forbidden" |
| Errors.UnhandledError | pantry-tracker-backend/app.js:35-43 | an exception that is not an ExpressError has no status of its own |
| Errors.HttpStatus | pantry-tracker-backend/app.js:37 | the handler answers with the error's own status, or 500 when it has none |
| Errors.StatusIdentifiesKind | pantry-tracker-backend/expressError.js:13-43 | among the four subclasses and unhandled errors, two errors get the same HTTP status exactly when they are of the same class |
| Values.ValueText | pantry-tracker-backend/models/ingredient.js:29 | the text a value interpolates to in a message; a truthy value never prints as empty |
| Values.TextOf | pantry-tracker-backend/models/recipe.js:42-44 | a stored value reads as NULL exactly when it is null |
| Decimal.NatToString | pantry-tracker-backend/helpers/sql.js:24 | the decimal text of a number: non-empty digits, with a leading zero only for 0 |
| Decimal.DigitsValueOfNatToString | pantry-tracker-backend/helpers/sql.js:24 | reading the digits of `$${idx + 1}` back gives the number written |
| Decimal.NatToStringInjective | pantry-tracker-backend/models/ingredient.js:146 | distinct placeholder numbers have distinct texts |
| SqlText.JoinSnoc | pantry-tracker-backend/helpers/sql.js:28 | joining one more part appends the separator and the part, with no leading or trailing separator |
| SqlText.ParseRender | pantry-tracker-backend/helpers/sql.js:23-28 | a rendered list of `"col"=$k` (or `col ILIKE $k`) items reads back as exactly the (column, number) pairs it was rendered from, when no column holds its delimiter |
| Sql.SqlForPartialUpdate | pantry-tracker-backend/helpers/sql.js:18-31 | an empty object fails with BadRequest "No data"; otherwise the values are the object's values in key order, one per key, copied unchanged (null included) |
| Sql.SetColsMeaning | pantry-tracker-backend/helpers/sql.js:23-28 | when no column name holds a double quote, the SET text reads back as the i-th renamed column with placeholder i+1, for every key |
| Sql.EmptyRenamesKeepKeys | pantry-tracker-backend/helpers/sql.js:24 | with an empty rename table the columns are exactly the keys |
| Sql.BindAll | pantry-tracker-backend/models/ingredient.js:155 | binding placeholders succeeds exactly when each number names an element of the bind list, and binds `$k` to element k |
| Sql.KeyPlaceholderBindsKey | pantry-tracker-backend/models/ingredient.js:146-155 | `$(n+1)` binds the key appended after the n values |
| Sql.BindNumbered | pantry-tracker-backend/models/recipe.js:151-162 | each SET placeholder `$(i+1)` binds the i-th value, never the key |
| Sql.BindAlignment | pantry-tracker-backend/models/user.js:177-187 | the SET list of the builder, bound against `[...values, key]`, resolves to the requested (column, value) pairs, and the key placeholder to the key |
| Sql.CheckColumns | pantry-tracker-backend/models/ingredient.js:148-150 | the database accepts a SET list exactly when every column may be written and none twice; otherwise it raises an unhandled error |
| Sql.Assign | pantry-tracker-backend/models/ingredient.js:148-155 | an UPDATE writes the assigned columns and keeps every other column of the row |
| Sql.AssignMeaning | pantry-tracker-backend/models/ingredient.js:148-155 | after the update a column holds the value assigned to it, or its old value when none is |
| Sql.Plan | pantry-tracker-backend/models/ingredient.js:144-155 | a planned statement selects by the caller's key and writes only writable, distinct columns; planning fails only with an unhandled error |
| Sql.PlanMeaning | pantry-tracker-backend/models/user.js:172-187 | for field names without a double quote, the plan is exactly the requested assignments with the key, or a database error when a column may not be written or is written twice |
| Sql.NoRenames | pantry-tracker-backend/models/recipe.js:149 | with `{}` as the rename table the requested assignments are the data object itself |
| ILike.LikeAnything | pantry-tracker-backend/models/ingredient.js:80 | `%` matches every text |
| ILike.LikeLiteralPrefix | pantry-tracker-backend/models/ingredient.js:80 | a wildcard-free text followed by `%` matches exactly the texts that start with it, ignoring case |
| ILike.LikeLeadingPercent | pantry-tracker-backend/models/ingredient.js:80 | a leading `%` matches when the rest matches some suffix |
| ILike.SearchPatternMeaning | pantry-tracker-backend/models/ingredient.js:80 | `%f%` with a wildcard-free f matches exactly the texts containing f, ignoring case |
| Search.FilterText | pantry-tracker-backend/models/ingredient.js:68-71 | a filter counts as supplied exactly when it is truthy; an empty string counts as absent |
| Search.SuppliedFilters | pantry-tracker-backend/models/ingredient.js:78-93 | the filters that get a clause are exactly the supplied ones |
| Search.BuildWhereNone | pantry-tracker-backend/models/ingredient.js:73-74 | with nothing supplied, the WHERE text and the values stay empty |
| Search.BuildWhereFirst | pantry-tracker-backend/models/ingredient.js:78-81 | the first supplied filter starts the list with `$1` and no separator |
| Search.BuildWhereNext | pantry-tracker-backend/models/ingredient.js:82-93 | each later supplied filter adds " AND " and the next number |
| Search.BuildWhereRenders | pantry-tracker-backend/models/ingredient.js:73-93 | the built WHERE text is the supplied clauses, numbered from 1 and joined by " AND ", and the values are their patterns in the same order |
| Search.EvalRendered | pantry-tracker-backend/models/ingredient.js:95-101 | the database evaluates a rendered conjunction as the conjunction of its clauses |
| Search.ClauseDefined | pantry-tracker-backend/models/ingredient.js:95-101 | every clause names a column of the row and binds an existing value |
| Search.ClauseMeaning | pantry-tracker-backend/models/ingredient.js:78-92 | a clause holds on a row exactly when its filter occurs in its column, ignoring case |
| Search.WhereMeaning | pantry-tracker-backend/models/ingredient.js:95-101 | for wildcard-free filters the WHERE clause is true on a row exactly when every supplied filter occurs in its column |
| Search.WhereDefined | pantry-tracker-backend/models/ingredient.js:95-101 | the database never fails to evaluate the WHERE clause on a row |
| Search.AllClausesIffAllFilters | pantry-tracker-backend/models/ingredient.js:78-93 | every supplied clause holding is the same as every supplied filter matching |
| Sorting.Insert | pantry-tracker-backend/models/ingredient.js:53 | inserting into a sorted list gives a sorted permutation with one more element |
| Sorting.SortSet | pantry-tracker-backend/models/ingredient.js:49-57 | ORDER BY returns every selected row, once each, in ascending order |
| Sorting.Enumerate | pantry-tracker-backend/models/recipe.js:122-130 | a query without ORDER BY returns every selected row once, in some order |
| Sorting.ListsSet | pantry-tracker-backend/models/user.js:215-226 | such a list holds exactly the set's elements, without repetition |
| Sorting.LexTotal | pantry-tracker-backend/models/user.js:107 | any two strings are ordered one way or the other |
| Sorting.LexTransitive | pantry-tracker-backend/models/user.js:107 | string order is transitive |
| Sorting.LexAntisymmetric | pantry-tracker-backend/models/user.js:107 | only equal strings precede each other |
| Sorting.LexOrder | pantry-tracker-backend/models/user.js:107 | `ORDER BY username` compares by a total preorder |
| Sorting.NullsLastOrder | pantry-tracker-backend/models/recipe.js:44 | text with NULL last is a total preorder |
| Sorting.NatOrder | pantry-tracker-backend/models/user.js:148 | `ORDER BY recipe_id` compares by a total preorder |
| Crypto.Hash | pantry-tracker-backend/models/user.js:76 | hashing succeeds exactly for a string, and never yields the plain password |
| Crypto.Compare | pantry-tracker-backend/models/user.js:41 | compare throws for a non-string password or a NULL stored hash, and is true exactly for the digest of that password |
| Crypto.HashThenCompare | pantry-tracker-backend/models/user.js:37-48 | a digest accepts exactly the password it was computed from |
| Ingredients.Row | pantry-tracker-backend/models/ingredient.js:51-53 | an ingredient row has exactly the columns name, description, type |
| Ingredients.ByNameOrder | pantry-tracker-backend/models/ingredient.js:53 | `ORDER BY name` is a total preorder on ingredients |
| Ingredients.Create | pantry-tracker-backend/models/ingredient.js:18-41 | a falsy name is a BadRequest before any lookup; a present name is the "Duplicate ingredient" BadRequest; otherwise exactly one row is added, with description and type defaulting to "", and it is returned; nothing else changes |
| Ingredients.GetByName | pantry-tracker-backend/models/ingredient.js:111-128 | an empty name is BadRequest; an unknown one NotFound "Ingredient not found: name"; otherwise the stored row |
| Ingredients.FindAll | pantry-tracker-backend/models/ingredient.js:49-57 | every ingredient, sorted ascending by name |
| Ingredients.Criteria | pantry-tracker-backend/models/ingredient.js:66-71 | three filters, in this order: nameLike on name, descriptionLike on description, typeLike on type; each is supplied exactly when its property is truthy, and its text is then that property's text |
| Ingredients.CriteriaEvaluable | pantry-tracker-backend/models/ingredient.js:78-99 | every search clause names a column of an ingredient row |
| Ingredients.FindByCriteria | pantry-tracker-backend/models/ingredient.js:66-104 | with no truthy filter, all rows, as findAll; otherwise the rows on which the WHERE text holds, sorted by name, each once; for wildcard-free filters, exactly the rows matching every supplied filter, ignoring case |
| Ingredients.SearchDefined | pantry-tracker-backend/models/ingredient.js:95-101 | the search query never fails on an ingredient row |
| Ingredients.Apply | pantry-tracker-backend/models/ingredient.js:148-161 | the UPDATE changes only the row named by the key, or is NotFound "Ingredient with name '…' not found" when there is none; it keeps the database valid |
| Ingredients.Update | pantry-tracker-backend/models/ingredient.js:140-162 | empty data is BadRequest "No update data provided"; NotFound only for an absent name; on success only that ingredient's row is replaced, its name is kept and the database stays valid |
| Ingredients.WritableFields | pantry-tracker-backend/models/ingredient.js:148-150 | the SET list is writable exactly when every field is description or type |
| Ingredients.UpdatePlans | pantry-tracker-backend/models/ingredient.js:141-155 | non-empty data plans its own fields against the name, or fails in the database for an unwritable field |
| Ingredients.UpdateMeaning | pantry-tracker-backend/models/ingredient.js:140-162 | an update succeeds exactly for non-empty data of updatable fields on an existing name; each supplied field is stored (null included) and the others kept |
| Ingredients.ApplyFields | pantry-tracker-backend/models/ingredient.js:148-155 | applying a data object's fields stores each supplied one and keeps the rest |
| Ingredients.Remove | pantry-tracker-backend/models/ingredient.js:168-181 | an unknown name is NotFound; otherwise exactly that ingredient and the junction rows naming it are deleted, and the database stays valid |
| Ingredients.CreateThenGet | pantry-tracker-backend/models/ingredient.js:111-128 | a created ingredient is read back unchanged by get |
| Ingredients.CreateTwice | pantry-tracker-backend/models/ingredient.js:21-29 | creating the same name twice fails the second time with the duplicate error |
| Ingredients.CreateThenRemove | pantry-tracker-backend/models/ingredient.js:168-181 | removing a freshly created ingredient restores the database |
| Ingredients.RemoveThenGet | pantry-tracker-backend/models/ingredient.js:168-181 | after a remove, get reports the name not found |
| Recipes.Row | pantry-tracker-backend/models/recipe.js:42-44 | a recipe row has exactly the columns id, name, instructions, category, area |
| Recipes.ByNameOrder | pantry-tracker-backend/models/recipe.js:44 | `ORDER BY name`, NULL last, is a total preorder on recipes |
| Recipes.Create | pantry-tracker-backend/models/recipe.js:17-32 | a missing name, then missing instructions, is a BadRequest; there is no duplicate check; a success takes the next sequence value as its id and advances the sequence by one, so a removed recipe's id is never issued again; on a valid database that id is not in use; the new row is stored under it and returned; category and area default to ""; only the recipes table and the sequence change |
| Recipes.CreateKeepsValid | pantry-tracker-backend/models/recipe.js:22-28 | a create keeps the database valid |
| Recipes.CreateTwiceFreshIds | pantry-tracker-backend/models/recipe.js:17-32 | creating the same data twice gives two recipes with different ids, both stored |
| Recipes.GetRow | pantry-tracker-backend/models/recipe.js:110-120 | an unknown id is NotFound "Recipe not found: id" |
| Recipes.GetDetail | pantry-tracker-backend/models/recipe.js:110-133 | the recipe with exactly its (ingredientName, amount) entries, each once, in no promised order |
| Recipes.FindAll | pantry-tracker-backend/models/recipe.js:40-48 | every recipe, sorted by name |
| Recipes.Criteria | pantry-tracker-backend/models/recipe.js:57-64 | four filters, in this order: nameLike on name, instructionsLike on instructions, categoryLike on category, areaLike on area; each is supplied exactly when its property is truthy, and its text is then that property's text |
| Recipes.CriteriaEvaluable | pantry-tracker-backend/models/recipe.js:71-100 | every search clause names a column of a recipe row |
| Recipes.FindByCriteria | pantry-tracker-backend/models/recipe.js:57-103 | with no truthy filter, all rows; otherwise the rows on which the WHERE text holds, sorted by name; for wildcard-free filters, exactly the rows matching every supplied filter |
| Recipes.SearchDefined | pantry-tracker-backend/models/recipe.js:94-100 | the search query never fails on a recipe row |
| Recipes.Apply | pantry-tracker-backend/models/recipe.js:153-165 | the UPDATE changes only the row with the bound id and keeps its id, or is NotFound "Recipe with id '…' not found"; it keeps the database valid |
| Recipes.Update | pantry-tracker-backend/models/recipe.js:145-168 | empty data is BadRequest; NotFound only for an absent id; on success only that recipe changes, its id is kept and the database stays valid |
| Recipes.WritableFields | pantry-tracker-backend/models/recipe.js:153-155 | the SET list is writable exactly when every field is name, instructions, category or area |
| Recipes.UpdatePlans | pantry-tracker-backend/models/recipe.js:146-162 | non-empty data plans its own fields against the id, or fails in the database for an unwritable field |
| Recipes.ApplyFields | pantry-tracker-backend/models/recipe.js:153-162 | each supplied field is stored, null included, and the rest kept |
| Recipes.UpdateMeaning | pantry-tracker-backend/models/recipe.js:145-168 | an update succeeds exactly for non-empty data of updatable fields on an existing id; supplied fields are stored and the others kept |
| Recipes.Remove | pantry-tracker-backend/models/recipe.js:174-186 | an unknown id is NotFound; otherwise exactly that recipe, its ingredient entries and the favourites naming it are deleted, and the database stays valid |
| Recipes.RemoveThenGet | pantry-tracker-backend/models/recipe.js:110-120 | after a remove the recipe is not found |
| Recipes.AddIngredient | pantry-tracker-backend/models/recipe.js:196-247 | checks in order: missing name, missing amount (BadRequest), unknown recipe, unknown ingredient (NotFound), present pair (BadRequest); a success adds exactly the one (recipe, name) entry with the amount and returns it |
| Recipes.AddIngredientKeepsValid | pantry-tracker-backend/models/recipe.js:205-235 | the entry added refers to an existing recipe and ingredient |
| Recipes.RemoveIngredient | pantry-tracker-backend/models/recipe.js:257-296 | a falsy id or name is BadRequest; an unknown recipe or an absent pair NotFound; otherwise exactly that pair is deleted and returned, and nothing else changes |
| Recipes.AddThenRemoveIngredient | pantry-tracker-backend/models/recipe.js:257-296 | removing an entry just added restores the database |
| Recipes.AddIngredientTwice | pantry-tracker-backend/models/recipe.js:225-235 | adding the same ingredient to a recipe twice fails the second time with BadRequest |
| Users.ProfileOf | pantry-tracker-backend/models/user.js:18 | the returned user object keeps the username and leaves out the password |
| Users.Row | pantry-tracker-backend/models/user.js:79-85 | a user row has the key username and the five updatable columns |
| Users.ByUsernameOrder | pantry-tracker-backend/models/user.js:107 | `ORDER BY username` is a total preorder on users |
| Users.Authenticate | pantry-tracker-backend/models/user.js:23-49 | success exactly when the user exists and the stored digest is of the given string password, returning the public fields; an unknown user and a wrong password fail with the same Unauthorized error |
| Users.UnknownLikeWrongPassword | pantry-tracker-backend/models/user.js:39-48 | an unknown username and a wrong password are indistinguishable to the caller |
| Users.KeyText | pantry-tracker-backend/models/user.js:66-71 | a username that is absent or null names no row; any other value names the row with its text |
| Users.Register | pantry-tracker-backend/models/user.js:58-93 | a taken username is BadRequest "Duplicate username: …" before anything else; a success needs a string password and a username, stores the digest and never the plain password, adds exactly one user and returns the public fields |
| Users.RegisterKeepsValid | pantry-tracker-backend/models/user.js:78-89 | registering keeps the database valid |
| Users.RegisterThenAuthenticate | pantry-tracker-backend/models/user.js:23-93 | a registered user authenticates with exactly the registered password |
| Users.RegisterTwice | pantry-tracker-backend/models/user.js:66-74 | registering the same username twice fails with the duplicate error |
| Users.FindAll | pantry-tracker-backend/models/user.js:99-110 | every user's public fields, once each, sorted by username |
| Users.GetRow | pantry-tracker-backend/models/user.js:118-132 | an unknown user is NotFound "No user: …"; otherwise the public fields |
| Users.GetDetail | pantry-tracker-backend/models/user.js:118-155 | the user's ingredient names sorted ascending and favourite recipe ids sorted ascending, exactly those of the junction tables, each once |
| Users.GetUserIngredients | pantry-tracker-backend/models/user.js:215-226 | exactly the user's ingredient names, each once, no order promised; an unknown user has none |
| Users.GetUserRecipes | pantry-tracker-backend/models/user.js:306-318 | one (id, name) per favourite, with NULL as the name when no recipe has that id |
| Users.Prepared | pantry-tracker-backend/models/user.js:168-170 | a truthy password is replaced by its digest, failing for a non-string; every other field is kept as given |
| Users.Apply | pantry-tracker-backend/models/user.js:179-190 | the UPDATE changes only the row with the bound username, or is NotFound "No user: …"; it keeps the database valid |
| Users.Update | pantry-tracker-backend/models/user.js:167-194 | empty data is BadRequest "No data", from the builder; NotFound only for an absent user; on success only that user changes, and the returned fields have no password |
| Users.PasswordColumn | pantry-tracker-backend/models/user.js:172-176 | only the field `password` writes the password column |
| Users.GetAligned | pantry-tracker-backend/models/user.js:168-172 | replacing the password value does not move any field |
| Users.PreparedColumns | pantry-tracker-backend/models/user.js:168-176 | hashing the password does not change which columns are written |
| Users.PreparedCell | pantry-tracker-backend/models/user.js:168-176 | each column is assigned the value asked for, except a truthy password, which is assigned its digest |
| Users.UpdatePlans | pantry-tracker-backend/models/user.js:172-187 | non-empty data plans its renamed fields against the username, or fails in the database for a column that may not be written or is written twice |
| Users.StoredCell | pantry-tracker-backend/models/user.js:179-187 | what the UPDATE stores in one column |
| Users.ApplyResult | pantry-tracker-backend/models/user.js:179-193 | the planned UPDATE replaces exactly the named user and returns the public fields |
| Users.UpdatedFirstName | pantry-tracker-backend/models/user.js:172-176 | first_name receives the value of the field that maps to it after renaming (firstName, or a raw first_name field); when no field maps to it the stored first name is kept |
| Users.UpdatedLastName | pantry-tracker-backend/models/user.js:172-176 | last_name receives the value of the field that maps to it after renaming (lastName, or a raw last_name field); when no field maps to it the stored last name is kept |
| Users.UpdatedEmail | pantry-tracker-backend/models/user.js:172-187 | email is not renamed: when sent it is stored as given; otherwise the stored email is kept |
| Users.UpdatedIsAdmin | pantry-tracker-backend/models/user.js:172-176 | is_admin receives the value of the field that maps to it after renaming (isAdmin, or a raw is_admin field); when no field maps to it the admin flag is kept |
| Users.UpdatedPassword | pantry-tracker-backend/models/user.js:168-170 | a truthy password is stored only as the digest of the text sent; a falsy one is stored as given; an absent one leaves the stored password |
| Users.UpdatedFields | pantry-tracker-backend/models/user.js:168-187 | firstName, lastName and isAdmin land in first_name, last_name and is_admin, email as given, and a truthy password as its digest |
| Users.UpdateMeaning | pantry-tracker-backend/models/user.js:167-194 | an update succeeds exactly for non-empty data whose truthy password is a string and whose renamed columns are writable and distinct, on an existing user; supplied fields are stored under their columns, a truthy password only as its digest |
| Users.Remove | pantry-tracker-backend/models/user.js:198-209 | an unknown user is NotFound; otherwise exactly that user and their junction rows are deleted, and the database stays valid |
| Users.RemoveThenAuthenticate | pantry-tracker-backend/models/user.js:198-209 | a removed user can no longer log in |
| Users.AddIngredient | pantry-tracker-backend/models/user.js:233-273 | checks in order: unknown ingredient, unknown user (NotFound), already possessed (BadRequest); a success inserts exactly the pair and returns it |
| Users.RemoveIngredient | pantry-tracker-backend/models/user.js:278-300 | NotFound exactly when the pair is absent, with no other existence check; otherwise exactly that pair is deleted and the fixed message returned |
| Users.AddThenRemoveIngredient | pantry-tracker-backend/models/user.js:233-300 | removing a pair just added restores the database; adding it twice fails with BadRequest |
| Users.AddRecipe | pantry-tracker-backend/models/user.js:325-365 | checks in order: unknown recipe, unknown user (NotFound), already favourited (BadRequest); a success inserts exactly the pair and returns it |
| Users.RemoveRecipe | pantry-tracker-backend/models/user.js:370-392 | NotFound exactly when the pair is absent; otherwise exactly that pair is deleted and "Removed recipe R from user U's favorites" returned |
| Users.AddThenRemoveRecipe | pantry-tracker-backend/models/user.js:325-392 | removing a favourite just added restores the database; favouriting twice fails with BadRequest |

## Left out

- The `db` module and SQL execution are not part of this model. Tables are Dafny maps and sets. Only the SET list of the update builder and the WHERE clause of the searches are modelled as text.
- The schema is not part of this model either. Constraints and cascades are inferred from the code and its tests:
  - unknown, repeated or key columns in an UPDATE are refused with an unhandled (500) error;
  - a NULL username is refused on insert;
  - deleting an ingredient, recipe or user also deletes the junction rows that refer to it.
- Ingredients.Update, Recipes.Update, Users.Update: an UPDATE that assigns the key column (`name`, `id`, `username`) is modelled as refused by the database. Only the other columns count as writable. PostgreSQL would accept it when no foreign key objects.
- Ingredients.UpdateMeaning, Recipes.UpdateMeaning, Users.UpdateMeaning: these hold only for field names without a double quote. Such a quote ends the quoted identifier early, and the model does not give the resulting SQL a meaning.
- Ingredients.UpdatePlans, Recipes.UpdatePlans, Users.UpdatePlans: same restriction to field names without a double quote.
- Ingredients.FindByCriteria, Recipes.FindByCriteria: the "exactly the matching rows" clause holds only for filter text without `%` or `_`. The matcher gives those two wildcards their ILIKE meaning. A literal text also excludes the backslash, PostgreSQL's default LIKE escape character, which the matcher does not model. Case folding is ASCII only.
- Type coercion by node-postgres and PostgreSQL is not modelled:
  - a non-key column stores the JavaScript value as given;
  - keys and amounts are stored as their text;
  - a recipe id is a natural number, with 0 standing for a falsy id.
- NOT NULL constraints other than on primary keys are not modelled.
- Text order is code-point order, not a database collation.
- bcrypt's salt, cost factor (`config.js`) and 72-byte truncation are not modelled. A digest records its password, so two digests of one password compare equal. A stored plain string is never accepted as a digest, even one that happens to look like a bcrypt hash.
- Recipe.removeIngredient's "Removal could not be processed." error (recipe.js:292-293) is not modelled. It cannot happen in a sequential model: the pair was checked just before the delete.
- Concurrency is not modelled, including the race between a duplicate check and its insert. The model is sequential.
- The routes, `app.js` (except the status fallback), `config.js`, the test fixtures and the whole frontend are not part of this model.
- Sql.ColumnFor: `jsToSql[key]` reads only the rename table's own entries. In JavaScript the lookup also finds inherited properties, so a field named `toString` or `constructor` gets the source text of a function as its column name. The database then refuses that column, but the model's refusal is for the raw field name.
- Users.Prepared: the model is pure. The source also writes the digest back into the caller's `data.password`, and that change is not represented.
- Sql.SqlForPartialUpdate: a property explicitly set to `undefined` cannot be represented, because an absent key and `undefined` are the same in the model. The source counts such a key in `Object.keys` and binds it as NULL, so `Ingredient.update(n, {description: undefined})` sets the description to NULL. The model reads that call as empty data, a BadRequest.
- Values.ValueText: integers are unbounded and print as plain decimal digits. JavaScript numbers are doubles, and `String(n)` switches to exponent notation from 1e21 on.
- Recipes.Create: the id sequence is unbounded, so a create on a valid database always succeeds. In PostgreSQL a serial sequence runs out at its type's maximum.
- Positional arguments are typed. A username or ingredient name is a string, with "" standing for `undefined`. A recipe id is a natural number.
