# Foodgram recipe core in Dafny

A model of the core of Foodgram, a Django recipe site. The model covers:

- **Ingredient form parsing** (`get_ingredients`). The recipe form posts
  `nameIngredient_<n>` / `valueIngredient_<n>` field pairs, which become a
  dictionary from ingredient title to quantity text.
- **Saving and editing a recipe** (`save_recipe`, `edit_recipe`). The recipe is
  saved with the requester as author, and one RecipeIngredient join row is
  created per parsed ingredient, with `,` normalised to `.` before the `Decimal`
  conversion. All of this happens in one atomic block. Editing first deletes
  the recipe's join rows.
- **Favourites filter** (`get_recipes`). The tag filter over a user's favourite
  recipes.
- **Recipe views**:
  - the superuser-or-author guard of `recipe_edit` and `recipe_delete`;
  - the tag filters of `index` and `profile_view`;
  - the shopping-list aggregation of `purchases_download`: group by (ingredient
    title, dimension), sum the quantities exactly, order by title.
- **User relations** of `api/models.py`. Favorite, Subscription and Purchase are
  tables of (user, target) rows with a unique constraint on the pair and
  cascading foreign keys.
- **API serializers** that create those rows: the one field each accepts, the
  self-subscription check, and `create`, which always records the requesting
  user.

The store is an in-memory `Database` class. Its fields are the users, the
recipes, the ingredient catalogue (title to dimension), the join rows and the
three relations. Methods that write change only the fields their `modifies`
clause names, and `Valid()` is the store's consistency invariant: unique rows,
existing foreign keys, at most one join row per (recipe, ingredient), and
recipe ids below the next id. A transaction is modelled by restoring the
written fields when the block raises. Afterwards the store is either the
state the block built or exactly the state before it.

Notes on behaviour the code has:

- `key.split('_')[1]` is the text between the first and the second
  underscore, not everything after the first one.
- The dictionary keeps insertion order. Assigning an existing title replaces
  its quantity in place, so a later field with the same title wins.
- `save_recipe` sets `recipe.author = request.user` on edits too. A superuser
  who edits someone else's recipe becomes its author. `RecipeEdit` states this.
- An unknown ingredient title raises `Http404`, so the view answers 404. Every
  other exception from the atomic block ends as a server error:
  - `KeyError` and `IndexError` from the form fields;
  - `InvalidOperation` from `Decimal`;
  - the `TypeError` of `raise HttpResponseBadRequest` after an `IntegrityError`.

Files:

- `wrappers.dfy`: `Option`, `Result`.
- `tables.dfy`: row-table helpers: `Unique`, `Filter`, `Distinct`.
- `ingredient_form.dfy`: `get_ingredients` and the comma normalisation.
- `store.dfy`: entities, the `Database` class, insert and cascading deletes.
- `recipe_utils.dfy`: `save_recipe`, `edit_recipe`, `get_recipes`.
- `shopping_list.dfy`: the aggregation of `purchases_download`.
- `views.dfy`: `recipe_new`, `recipe_edit`, `recipe_delete`, `index`, `profile_view`.
- `serializers.dfy`: the API serializers.

## Model

| member | source | states |
|---|---|---|
| Tables.Filter | recipes/utils.py:15-18 | a queryset `filter`: the result keeps exactly the rows that satisfy the condition, never grows, and keeps a unique table unique |
| Tables.Distinct | recipes/utils.py:18 | `distinct()`: every row of the input once and nothing else, and a table already without repeats is unchanged (also at recipes/views.py:31) |
| IngredientForm.Lookup | recipes/utils.py:32-34 | `request.POST[k]` has no value exactly when `k` was not posted; with distinct keys it is the value posted under `k` |
| IngredientForm.Put | recipes/utils.py:32 | `ingredients[name] = q` adds `name` to the keys, makes `name` map to `q`, leaves every other key's value alone, and keeps keys distinct; a new title goes at the end and an existing title keeps its place, so the dict's order (which decides the first failing entry of `save_recipe`) is fixed |
| IngredientForm.SecondPiece | recipes/utils.py:31 | `key.split('_')[1]` raises exactly when the key has no `_`; otherwise it is the text between the first `_` and the next `_` or the end |
| IngredientForm.StartsWith | recipes/utils.py:30 | defines: Python's `startswith`, the prefix equals the key's first characters |
| IngredientForm.IsNameField | recipes/utils.py:30 | defines: a name field is one whose key starts with `nameIngredient` |
| IngredientForm.FieldEntry | recipes/utils.py:30-34 | a field whose key does not start with `nameIngredient` contributes nothing; a name key without `_` raises IndexError; otherwise the field raises KeyError (`MissingValue` of `valueIngredient_<num>`) exactly when that partner was not posted, and when it was, the entry is the field's value (the title) paired with the partner's value |
| IngredientForm.ParsePrefix | recipes/utils.py:28-34 | the parsed dictionary never holds a title twice |
| IngredientForm.ParseIngredients | recipes/utils.py:24-36 | defines: `get_ingredients` is the parse of the whole post; its properties are stated by `ParseKeys`, `ParseLastWins`, `ParseFailure` and `ParseFailureFirst` |
| IngredientForm.GetIngredients | recipes/utils.py:24-36 | for a form as `request.POST.items()` gives it (distinct keys), the loop that fills `ingredients`, with its startswith test, split and lookup written as statements (lines 30-34), returns exactly `ParseIngredients(post)`, including the exception of the first field that raises |
| IngredientForm.ParseSkips | recipes/utils.py:30 | a field that is not a name field leaves the dictionary as it is |
| IngredientForm.ParseAssigns | recipes/utils.py:31-34 | a name field whose partner was posted assigns the partner's value to the field's title |
| IngredientForm.ParseRaises | recipes/utils.py:31-34 | a field that raises ends the whole parse: IndexError (`NoUnderscore`) for a key without `_`, KeyError (`MissingValue`) for a missing partner |
| IngredientForm.FailureSticks | recipes/utils.py:29-34 | once a field has raised, the later fields cannot change the outcome |
| IngredientForm.ParseKeys | recipes/utils.py:29-32 | the parsed keys are exactly the titles posted in `nameIngredient...` fields; no other field adds a key |
| IngredientForm.ParseLastWins | recipes/utils.py:32-34 | a title's quantity is the one paired with the last name field that posted that title |
| IngredientForm.Raises | recipes/utils.py:31-34 | defines: a field raises when it is a name field whose key has no `_` or whose `valueIngredient_<num>` partner was not posted |
| IngredientForm.RaisesIsFailure | recipes/utils.py:30-34 | the loop body raises on a field exactly when `Raises` holds for it |
| IngredientForm.ParseFailure | recipes/utils.py:31-34 | parsing fails if and only if some name field has no `_` or lacks its `valueIngredient_<num>` partner |
| IngredientForm.ParseFailureFirst | recipes/utils.py:29-34 | a failed parse reports the exception of the first field that raises, and every earlier field succeeded |
| IngredientForm.Normalise | recipes/utils.py:57 | `replace(',', '.')` keeps the length, leaves no `,`, turns each `,` into `.` and keeps every other character |
| IngredientForm.NormaliseIdempotent | recipes/utils.py:57 | normalising twice is normalising once |
| IngredientForm.SeparatorsAgree | recipes/utils.py:57 | quantities that differ only in `,` versus `.` normalise to the same text, so "1,5" and "1.5" give the same Decimal |
| RecipeUtils.ToRow | recipes/utils.py:52-58 | an unknown title fails with the 404 error (`UnknownIngredient`); a known title whose normalised quantity does not convert fails with `InvalidQuantity`, the InvalidOperation that ends as a server error; the row fails exactly when the title is unknown or the normalised quantity does not convert; a row points at the saved recipe and the named ingredient and carries the converted quantity |
| RecipeUtils.BuildRows | recipes/utils.py:51-59 | on success one row per entry, each the conversion of its entry; on failure the error of an entry that fails, all entries before it converting |
| RecipeUtils.BuildRowsSucceed | recipes/utils.py:51-59 | when every entry converts, the rows are exactly the converted entries in order |
| RecipeUtils.BuildRowsFail | recipes/utils.py:51-59 | the first entry that fails decides the error |
| RecipeUtils.RowsFor | recipes/utils.py:49-59 | defines: the rows `save_recipe` builds are the parse of the post followed by `BuildRows`, and a parse failure is the save's error; `RowsForEntries` states what the rows are |
| RecipeUtils.RowsForEntries | recipes/utils.py:49-59 | on success there is one row per parsed entry, for that entry's ingredient; every row points at the saved recipe and at an existing ingredient |
| RecipeUtils.CollectRows | recipes/utils.py:49-59 | the loop that appends to `objs` returns exactly `RowsFor`: parse, then convert entry by entry until one raises |
| RecipeUtils.SaveRecipe | recipes/utils.py:39-65 | on success the recipe (new id, or the edited one) has the requester as author and the form's fields, and exactly the built rows are appended; any failure (bad field, unknown title, bad quantity, duplicate join row) leaves recipes, join rows and the id counter as they were; the store stays valid |
| RecipeUtils.NewRowsValid | recipes/utils.py:60 | bulk-creating the rows of one recipe from a dictionary with distinct titles keeps at most one row per (recipe, ingredient) |
| RecipeUtils.EditRecipe | recipes/utils.py:68-77 | never fails on integrity; on success the recipe's join rows are exactly the newly built rows and other recipes' rows are unchanged; on failure the deletion is undone too |
| RecipeUtils.ReplaceRows | recipes/utils.py:73-75 | deleting a recipe's rows and appending rows for it leaves exactly the new rows for it and the other rows as they were, with no duplicate |
| RecipeUtils.FavoriteRecipes | recipes/utils.py:20 | a recipe is listed if and only if the user favourited it; each once when the Favorite table is unique |
| RecipeUtils.HasTagSlug | recipes/utils.py:18 | defines: `tags__slug__in`, the recipe carries a tag whose slug is requested |
| RecipeUtils.GetRecipes | recipes/utils.py:13-21 | with tags: exactly the favourites carrying a requested tag slug, each once (`distinct()`); without tags: exactly all favourites |
| Store.RelationWithoutTarget | api/models.py:19-24 | removing the rows that refer to a deleted recipe keeps a relation unique and its foreign keys valid |
| Store.RelationWithoutUser | api/models.py:42-53 | removing the rows in which a deleted user is follower or followed author keeps a relation unique and its foreign keys valid |
| Store.Database.Insert | api/models.py:26-32 | inserting an existing (user, target) pair fails with the unique constraint; an insert succeeds if and only if the pair is new and both keys exist; it then adds exactly that row and leaves the other tables alone (the same constraint holds at api/models.py:55-59 and 75-79) |
| Store.Database.DeleteRecipe | api/models.py:19-24 | the recipe goes, and with it every join row, Favorite and Purchase that refers to it (the Purchase cascade is api/models.py:71-73); nothing else goes |
| Store.Database.DeleteUser | api/models.py:13-15 | the user's Favorites and Purchases go, as does every Subscription in which the user is follower or author (api/models.py:42-53, 68-70) |
| ShoppingList.LexLessIrreflexive | recipes/views.py:230-232 | no title sorts before itself |
| ShoppingList.LexLessAsymmetric | recipes/views.py:230-232 | two titles are never each before the other |
| ShoppingList.LexLessTransitive | recipes/views.py:230-232 | the title order is transitive |
| ShoppingList.LexLessTotal | recipes/views.py:230-232 | any two different titles are ordered one way or the other |
| ShoppingList.AddLine | recipes/views.py:232-234 | adding a row to the sorted groups keeps them strictly sorted, adds its (title, dimension) group and adds its quantity to that group's amount only |
| ShoppingList.Aggregate | recipes/views.py:232-234 | the groups are strictly sorted, are exactly the (title, dimension) pairs of the rows, and each amount is the reference sum `SumFor` |
| ShoppingList.AmountOfListed | recipes/views.py:234 | in a sorted result, the amount listed beside a group is that group's amount |
| ShoppingList.RecipeLines | recipes/views.py:228-232 | the join of one recipe's ingredient rows with the ingredient catalogue: a (title, dimension, quantity) row is listed if and only if the recipe has a join row for that ingredient with that quantity and the ingredient's dimension is that dimension |
| ShoppingList.PurchasedLines | recipes/views.py:228-232 | a user without purchases contributes no rows; a (title, dimension, quantity) row is listed if and only if some purchase of the user is of a recipe with a join row for that ingredient and quantity, and the ingredient has that dimension |
| ShoppingList.PurchasesDownload | recipes/views.py:224-238 | one row per distinct (title, dimension) among the purchased recipes' ingredients, each amount the exact sum of its group, rows in order of title, and no rows for a user without purchases |
| Views.CanModify | recipes/views.py:100-101 | defines: the guard of `recipe_edit` and `recipe_delete` (line 130), the requester is a superuser or the recipe's author |
| Views.ErrorResponse | recipes/utils.py:52-65 | defines: the unknown-ingredient 404 is a not-found response; every other exception from the atomic block is a server error |
| Views.RecipeNew | recipes/views.py:69-86 | an invalid form renders again with nothing changed; a valid one is saved under a fresh id and redirects to it, or answers the error's response with nothing changed; the unique constraint never fires for a new recipe |
| Views.RecipeEdit | recipes/views.py:89-121 | unknown id: 404; a requester neither superuser nor author is redirected and nothing changes; an invalid form renders again unchanged; otherwise `edit_recipe` replaces the recipe and its rows |
| Views.RecipeDelete | recipes/views.py:124-132 | unknown id: 404; otherwise the recipe is deleted if and only if the requester is superuser or author, and the view always redirects to the index; a deletion removes exactly that recipe, its join rows, and the Favorites and Purchases of it, and leaves every other row; when nothing is deleted, nothing changes |
| Views.Listed | recipes/views.py:25-26 | defines: `tags__title__in`, the recipe has a tag whose title is requested |
| Views.Index | recipes/views.py:19-31 | defines: a recipe is listed if and only if one of its tag titles is requested; a set, so each recipe once |
| Views.ProfileView | recipes/views.py:135-143 | defines: 404 exactly for an unknown user; otherwise only that author's recipes with a requested tag title |
| Views.ProfileViewIsIndexOfAuthor | recipes/views.py:139-143 | a profile page lists exactly the author's part of what the index lists for the same tags |
| Views.IndexUnion | recipes/views.py:23-26 | requesting two tag lists lists the union of what each lists, so adding tags never hides a recipe |
| Serializers.Field | api/serializers.py:26-41 | defines: the Subscription serializer's only field is `author`, Favorite's and Purchase's is `recipe` |
| Serializers.ToInternal | api/serializers.py:26-41 | defines: the serializer's field is required and must name an existing row; the validated data holds that field only, with the posted key |
| Serializers.ToInternalIgnoresUser | api/serializers.py:26-41 | a `user` in the request body has no effect on the validated data |
| Serializers.Validate | api/serializers.py:13-17 | defines, as written: rejects exactly a value equal to the requesting user's id, and returns any other value unchanged |
| Serializers.ValidateNeverRejects | api/serializers.py:13-17 | given the validated mapping, as DRF does, the written check never rejects |
| Serializers.SelfSubscriptionAccepted | api/serializers.py:15-16 | user 7 subscribing to author 7 passes the written check |
| Serializers.ValidateAttrs | api/serializers.py:13-17 | defines, corrected: rejects exactly data whose `author` is the requesting user, and returns all other data unchanged |
| Serializers.ValidateAttrsComparesAuthor | api/serializers.py:15 | the corrected check is the written comparison applied to the author's id |
| Serializers.ValidateAttrsRecipeKinds | api/serializers.py:32-41 | Favorite and Purchase data always pass the corrected check |
| Serializers.Create | api/serializers.py:9-11 | the row's user is always the requester, whatever was supplied; one row is inserted into the serializer's table; a duplicate pair fails with the unique constraint; on failure nothing changes |
| Serializers.SubmitAsWritten | api/serializers.py:8-17 | as written: a POST succeeds exactly when the field is posted, names an existing row, the (requester, target) pair is new and the requester exists, with no check against subscribing to oneself; it adds that one row with the requester as user, and a failure changes nothing |
| Serializers.SelfSubscriptionCreated | api/serializers.py:15-16 | as written: user 7 posting `{"author": 7}` to the subscription endpoint creates the subscription (7, 7) |
| Serializers.SubmitCorrected | api/serializers.py:8-17 | corrected: a POST succeeds exactly for an existing, new, non-self target and adds that one row with the requester as user; a created subscription is never to oneself |

## Left out

- PDF generation (`generate_pdf`) and the `FileResponse` of `purchases_download`. They are template rendering and a foreign call; the model ends at the list of rows passed to the template.
- Pagination, `render` and the redirect's slug argument are framework plumbing. A view ends in a `Response` value instead.
- `Decimal` parsing is a parameter `toDecimal: string -> Option<real>`, applied after the comma normalisation. `None` stands for `InvalidOperation`. Quantities and sums are exact `real` numbers.
- The form's own validation (`RecipeForm.is_valid`) is a boolean parameter. The form's fields other than title and tags (image, description, cooking time, slug) are left out.
- The default tag list `TAGS` comes from settings, which are not part of this model. `Index` and `ProfileView` take the requested tag titles as a parameter.
- The order of querysets is left out. `index` and `profile_view` give sets of recipe ids. `get_recipes` keeps the Favorite table's order.
- PurchasesDownload: ORM join multiplicity is not modelled. The grouping key and the summed column reach the recipe through two different relations, so the real SQL join may repeat rows. The model sums the join rows of each purchased recipe once. The reverse relation is also joined with a LEFT OUTER JOIN, so a purchased recipe without any ingredient rows (a form with no `nameIngredient` field saves none) yields a group with a null title, dimension and amount; the model yields no row for it.
- PurchasesDownload: groups that share a title are ordered by dimension, an order the source leaves to the database. Titles compare by code point, not by the database collation.
- recipes/models.py is not part of this model. The model assumes:
  - unique ingredient titles (the catalogue is a map from title to dimension);
  - at most one join row per (recipe, ingredient), checked explicitly before the bulk insert;
  - join rows that cascade when their recipe is deleted;
  - users that can be deleted without touching their recipes, because `Recipe.author`'s `on_delete` is not known.
- SaveRecipe: the recipe id counter is rolled back with the transaction, where a database sequence would keep its increment.
- Repeated form keys: a QueryDict merges them before the model sees the form, so a `Post` is `request.POST.items()`, one pair per key carrying its last value. `GetIngredients`, `CollectRows`, `SaveRecipe`, `EditRecipe`, `RecipeNew` and `RecipeEdit` require `DistinctKeys(post)`, which every such form meets; the merging itself is not modelled.
- `login_required` and authentication: the requester is always a logged-in user.
- The primary-key fields of the serializers take integers only. The "incorrect type" error for non-integer text is not modelled.
- Create: `objects.create` with an unexpected keyword fails with a `TypeError`, modelled as `UnexpectedField`. Serializer-level unique validators are not generated because `user` is not a serializer field, so a duplicate reaches the database's unique constraint.
- The other views are outside the core: `recipe_view_redirect`, `recipe_view_slug`, `subscriptions`, `favorites` (beyond `get_recipes`) and `purchases`. So are `IngredientSerializer`, foodgram/urls.py, api/admin.py and recipes/context_processors.py.

## Findings

| source | as written | input that shows it | evidently intended | confidence | as-written member | corrected member |
|---|---|---|---|---|---|---|
| api/serializers.py:15 | `validate(self, value)` receives the whole validated mapping, and compares `user.id` with it, so the comparison is never true and a self-subscription is never rejected | user 7 POSTs `{"author": 7}` to the subscription endpoint: the data passes `validate` and the row (7, 7) is created | reject when the data's `author` is the requesting user, as the error message ("cannot subscribe to yourself") says | high; not executed | Serializers.SelfSubscriptionAccepted, Serializers.SubmitAsWritten, Serializers.SelfSubscriptionCreated | Serializers.ValidateAttrs, Serializers.SubmitCorrected |
