# Foodgram recipe backend: write pipeline and schema in Dafny

This project models the core of a recipe-sharing backend (Django + Django REST
framework). Users publish recipes made of ingredient lines and tags, mark
recipes as favorites or put them in a shopping cart, and subscribe to authors.

What is modelled:

- **`Users`** (`users.dfy`): the three roles and the `is_admin` / `is_guest` /
  `is_user` properties, the default role, the unique username and e-mail, and
  `Subscribe.clean` together with the unique `(user, author)` constraint.
- **`Recipes`** (`recipes.dfy`): the record shapes of Ingredient, Tag, Recipe,
  IngredientsInRecipe and the Favorite / ShoppingCart rows, the default cooking
  time, tag uniqueness, the `(ingredient, recipe)` key of an ingredient line,
  and the ingredient, tag and recipe listings in their default orderings.
- **`Database`** (`database.dfy`): the in-memory tables as one value, the
  integrity the schema declares (every unique constraint, every foreign key
  resolving), the `on_delete=CASCADE` deletions of recipes, ingredients, tags
  and users, and the one atomic bulk insert of ingredient lines.
- **`Serializers`** (`serializers.dfy`): `RecipeCreateSerializer.validate` as a
  loop over the ingredient lines, `to_representation` of a line, the
  `is_favorited` / `is_in_shopping_cart` flags, and a class `RecipeStore`
  whose methods `IngredientsCreate`, `Create` and `Update` mutate the tables
  the way `ingredients_create`, `create` and `update` do.
- **`Rows`** and **`Wrappers`**: a row filter, the shape of a unique
  constraint over a table kept in row-id order, a sort standing for
  `ORDER BY`, and Option / Result.

Modelling choices:

- Entity tables are maps keyed by primary key. The link tables (ingredient
  lines, favorites, carts, subscriptions) are sequences in row-id order. The
  recipe-tag many-to-many table is a set of pairs.
- A favorite or cart row carries nothing but its `(user, recipe)` key.
- `pub_date` (`auto_now_add`) is a `now` parameter of `Create`. Recipe primary
  keys come from a counter (`nextRecipeId`) that the database hands out.
- Every statement commits on its own: no transaction spans the steps of
  `create` or `update`. A missing key in the validated data raises before or
  between writes (`KeyError`). A bulk insert refused by the unique constraint
  (`IntegrityError`) inserts nothing, and the writes made before it stay.
- Behaviour of the code the model keeps:
  - `validate` compares duplicates as whole `{id, amount}` records, not by
    ingredient;
  - deleting a user deletes their recipes (`on_delete=CASCADE`);
  - there are three roles: user, guest and admin;
  - the amount check is `amount == 0` on a non-negative amount.

## Model

| member | source | states |
|---|---|---|
| `Users.RolePredicates` | backend/users/models.py:48-58 | is_guest and is_user are never both true; every account is guest, user or admin; admin without staff rules out the other two roles; is_admin holds iff staff or role is admin |
| `Users.NewUser` | backend/users/models.py:33-37 | a new account keeps the given fields; without an explicit role it is a plain user, not a guest, and admin exactly when staff |
| `Users.InsertUser` | backend/users/models.py:14-21 | saving an account succeeds iff its key, username and e-mail are all free; success adds exactly that account and keeps usernames and e-mails unique |
| `Users.AddSubscription` | backend/users/models.py:77-88 | clean refuses exactly self-subscription with its message; the unique constraint refuses an existing (user, author) pair of two different accounts, naming unique_subscribe_user_author; success appends the row and keeps the table free of duplicates |
| `Users.SubscribeTwice` | backend/users/models.py:83-88 | after a successful subscription, the same subscription fails on the unique constraint |
| `Recipes.NewRecipe` | backend/recipes/models.py:73-77 | a new recipe keeps the given fields, has cooking time 1 when none is given, and carries the creation time as pub_date |
| `Recipes.InsertTag` | backend/recipes/models.py:20-34 | saving a tag succeeds iff its key, name, color and slug are all free; success keeps names, colors and slugs unique |
| `Recipes.NameLeTotal` | backend/recipes/models.py:11 | any two names are comparable in the name order of the listings |
| `Recipes.NameLeAntisymmetric` | backend/recipes/models.py:37 | two names each ordered before the other are equal |
| `Recipes.NameLeTransitive` | backend/recipes/models.py:11 | the name order is transitive |
| `Recipes.IngredientListing` | backend/recipes/models.py:10-11 | an ingredient query returns exactly the given rows, each as often as stored, ordered by name |
| `Recipes.TagListing` | backend/recipes/models.py:36-37 | a tag query returns exactly the given rows, each as often as stored, ordered by name |
| `Recipes.RecipeListing` | backend/recipes/models.py:79-80 | a recipe query returns exactly the given rows, each as often as stored, newest pub_date first |
| `Recipes.NewestFirst` | backend/recipes/models.py:79-80 | the head of a non-empty recipe listing was published no earlier than any recipe in it |
| `Recipes.TagListingDetermined` | backend/recipes/models.py:20-37 | because a tag is identified by its name, two name-ordered listings of the same tag rows are identical |
| `Recipes.TagListingIgnoresRowOrder` | backend/recipes/models.py:20-37 | for a tag table with unique names, the tag listing does not depend on the order the rows are stored or returned in |
| `Database.BulkInsertLines` | backend/recipes/models.py:103-108 | the bulk insert succeeds iff old and new lines together keep (ingredient, recipe) unique; it then appends all rows, and otherwise it names the constraint |
| `Database.SetTags` | backend/api/serializers.py:118 | after `tags.set`, a link exists iff it belonged to another recipe or links this recipe to one of the given tags |
| `Database.SetTagsReplaces` | backend/api/serializers.py:125 | after `tags.set`, the recipe's tag set is exactly the given tags (replaced, not merged) and every other recipe's tag set is unchanged |
| `Database.AddRecipeKeepsValid` | backend/api/serializers.py:116 | inserting a recipe with a fresh key and an existing or null author keeps every constraint and foreign key |
| `Database.ChangeRecipeKeepsValid` | backend/api/serializers.py:127 | rewriting a recipe's fields without touching its author keeps the database valid |
| `Database.SetTagsKeepsValid` | backend/api/serializers.py:118 | setting a recipe's tags to existing tags keeps the database valid |
| `Database.AppendLinesKeepsValid` | backend/api/serializers.py:110 | appending resolving lines that keep (ingredient, recipe) unique keeps the database valid |
| `Database.DropLinesKeepsValid` | backend/api/serializers.py:122 | deleting one recipe's lines keeps the database valid |
| `Database.DeleteRecipe` | backend/recipes/models.py:89-93 | deleting a recipe removes exactly its lines, tag links, favorites and cart rows (cascades at lines 89-93, 118-123, 143-148) and leaves users, subscriptions, ingredients and tags untouched |
| `Database.DeleteRecipeKeepsValid` | backend/recipes/models.py:103-108 | the recipe cascade keeps every unique constraint and leaves no dangling foreign key |
| `Database.DeleteRecipeKeepsOtherLines` | backend/recipes/models.py:89-93 | deleting a recipe leaves every other recipe's lines as they were, in the same order |
| `Database.DeleteIngredient` | backend/recipes/models.py:94-98 | deleting an ingredient removes exactly the lines that reference it and changes nothing else |
| `Database.DeleteIngredientKeepsValid` | backend/recipes/models.py:94-98 | the ingredient cascade keeps the database valid |
| `Database.DeleteTag` | backend/recipes/models.py:59-64 | deleting a tag removes exactly its recipe links and changes nothing else |
| `Database.DeleteTagKeepsValid` | backend/recipes/models.py:59-64 | the tag cascade keeps the database valid |
| `Database.DeleteUserLeavesNoTrace` | backend/recipes/models.py:46-52 | after a user is deleted, no remaining recipe has them as author, and no favorite, cart row or subscription names them |
| `Database.DeleteUser` | backend/recipes/models.py:46-52 | deleting a user deletes their recipes with everything those recipes own, the user's favorites and cart rows (lines 112-117, 137-142), and every subscription in which they follow or are followed (backend/users/models.py:66-75) |
| `Database.DeleteUserKeepsValid` | backend/recipes/models.py:112-117 | the user cascade keeps the database valid |
| `Serializers.Validate` | backend/api/serializers.py:129-147 | a missing or empty list fails with "at least one ingredient"; otherwise the first line that has amount 0 or equals an earlier line decides between "amount must be greater than 0" and "already in recipe"; success iff no line does, and it returns the data unchanged |
| `Serializers.ScanStopsAt` | backend/api/serializers.py:136-146 | the scan stops at the first bad line, so the error reported depends only on that line |
| `Serializers.ScanPasses` | backend/api/serializers.py:136-147 | a list with no zero amount and no repeated line raises no per-line error |
| `Serializers.DuplicateTestsCompared` | backend/api/serializers.py:142 | the per-ingredient test accepts exactly the payloads the whole-record test accepts that also list each ingredient once |
| `Serializers.SameIngredientTwoAmountsAccepted` | backend/api/serializers.py:142 | one ingredient listed with amounts 2 and 3 passes the whole-record test, and its lines break the unique (ingredient, recipe) constraint |
| `Serializers.ValidateByIngredient` | backend/api/serializers.py:129-147 | the same scan with the duplicate test keyed by ingredient: it succeeds iff the list is non-empty, has no zero amount and names each ingredient once |
| `Serializers.InsertFreshLines` | backend/api/serializers.py:102-110 | the lines of a recipe that has none keep the unique constraint iff no ingredient is listed twice, whatever the amounts |
| `Serializers.AcceptedPayloadInserts` | backend/api/serializers.py:102-110 | every ingredient list the corrected validation accepts inserts into a recipe with no lines without breaking unique_ingredient_recipe |
| `Serializers.LinesOfFresh` | backend/api/serializers.py:102-110 | after the bulk insert, the recipe's lines are exactly one per payload entry, in payload order, and every other recipe's lines are unchanged |
| `Serializers.ToRepresentation` | backend/api/serializers.py:39-42 | a line is shown with its ingredient's id, name and measurement unit and its own amount |
| `Serializers.ReadBack` | backend/api/serializers.py:28-53 | reading a freshly written recipe's ingredients back yields the {id, amount} payload that was written |
| `Serializers.Marked` | backend/api/serializers.py:64-77 | false for an anonymous viewer; otherwise true iff the recipe exists and a row for (viewer, recipe) exists |
| `Serializers.DeletedRecipeUnmarked` | backend/api/serializers.py:64-68 | after a recipe is deleted it is nobody's favorite and in nobody's cart |
| `Serializers.DeletedUserUnmarked` | backend/api/serializers.py:70-77 | after a user is deleted nothing is marked for them, and their own recipes are marked for nobody |
| `Serializers.ApplyFields` | backend/api/serializers.py:127 | a partial update sets each scalar field present in the data, keeps each field absent from it, and keeps author and pub_date |
| `Serializers.RecipeStore.IngredientsCreate` | backend/api/serializers.py:102-110 | appends exactly one line per entry for the recipe, iff the unique constraint allows all of them, and changes nothing else |
| `Serializers.RecipeStore.Create` | backend/api/serializers.py:112-119 | a missing ingredients, image or tags key fails with nothing written; otherwise a fresh recipe row is stored; it succeeds iff no ingredient repeats, and then its lines are exactly the payload entries and its tags exactly the given tags; a refused bulk insert leaves the recipe with no lines and no tags |
| `Serializers.RecipeStore.Update` | backend/api/serializers.py:121-127 | every old line of the recipe is gone in all outcomes; on success its lines equal the payload, its tag set is replaced by the given tags, and its scalar fields are updated; other recipes' lines and tags are unchanged |

## Left out

- backend/api/views.py, backend/api/urls.py and backend/recipes/admin.py: routing, viewset wiring and admin screens, with no logic. The recipe view is not part of this model, so the author of a new recipe is a parameter of `Create`.
- backend/api/filters.py: the `istartswith` name filter and the multi-value tag-slug filter. Their meaning lives in the filtering library.
- The shopping-list download, the favorite / cart / subscribe endpoints and the subscription listing are not in the source. The store has no insert for favorites, carts or subscriptions besides `AddSubscription`. Their unique constraints are kept as database invariants that every modelled operation preserves.
- Field mapping of `UserSerializer`, `TagSerializer`, `IngredientSerializer` and `FavoriteCartSerializer`, `Base64ImageField` decoding, token authentication and the login field. An image is an opaque string.
- DRF field-level coercion: the requires of `Create` and `Update` say that every ingredient and tag id already resolves, as `PrimaryKeyRelatedField` guarantees. Amounts are natural numbers, matching `PositiveIntegerField`; its upper bound of 2147483647, which the serializer field derived from the column enforces, is not modelled.
- Recipes.NewRecipe: cooking time is a natural number, and the 32767 bound of `PositiveSmallIntegerField` is not modelled. The write serializer declares `cooking_time` as a plain `IntegerField` (backend/api/serializers.py:91), so a negative or too large value passes validation. A negative value then violates the column's `cooking_time >= 0` CHECK (an IntegrityError). A value above 32767 meets the column type instead, and what happens depends on the backend: PostgreSQL refuses it ("smallint out of range", a DataError), while SQLite stores it. When the write is refused, in `create` the recipe insert fails before anything is written, and in `update` the save fails after the lines were deleted, the tags replaced and the new lines inserted. None of these failures is modelled.
- `max_length` limits on strings and `__str__` methods.
- Transactions: each write commits on its own, the default autocommit behaviour. The project settings (for example request-wide atomic transactions) are not part of this model. Under such a transaction the partial writes after a failure would be rolled back.
- Serializers.RecipeIngredients: the model reads a recipe's lines in row-id order. The source query has no ordering, so the source only guarantees the same lines in some order.
- `Subscribe.clean` runs only when the model is fully cleaned, so it is not a database invariant. `AddSubscription` applies it before the unique constraint.
- The username ordering of users (backend/users/models.py:61) has no listing here; it would be one more `Rows.SortBy` by `NameLe`.
- Recipes.NameLe: names compare code point by code point, which is what `ORDER BY name` does under a binary (C) collation. Under a locale collation such as en_US.UTF-8 the database orders names differently (for instance "apple" before "Banana").
- Recipes.IngredientListing, Recipes.TagListing, Recipes.RecipeListing: a listing is a sort of the rows a query hands back. The queries themselves live in the views, which are not part of this model. Ties (two ingredients with one name, two recipes with one pub_date) come out in one fixed order; the database promises no particular order for them.
- Users.RolePredicates: `role` is a character field whose `choices` only the forms and serializers check. The database accepts any string of up to 16 characters. The model's role is one of exactly three values, so "every account is guest, user or admin" holds only for rows written through validated paths.
- Deletions are pure functions over the tables rather than `RecipeStore` methods: no shown code deletes a recipe, ingredient, tag or user. The row deletions it does make, of a recipe's lines in `update` and of tag links in `tags.set`, are modelled in `Update` and `SetTags`.

## Findings

| source | as written | input that shows it | evidently intended | confidence | as-written member | corrected member |
|---|---|---|---|---|---|---|
| backend/api/serializers.py:142 | the duplicate test `ingredient in valid_ingredients` compares the whole {id, amount} record | ingredients `[{id: 7, amount: 2}, {id: 7, amount: 3}]` pass `validate`; the bulk insert then breaks unique_ingredient_recipe, so `create` ends in an integrity error with a recipe row and no lines, and `update` ends with the recipe's lines deleted | reject an ingredient listed twice, whatever the amounts, with the "already in recipe" validation error | not executed; high | `Serializers.SameIngredientTwoAmountsAccepted` | `Serializers.ValidateByIngredient` |

The as-written scan is `Serializers.Validate`. The corrected scan, `Serializers.ValidateByIngredient`, accepts only payloads that `RecipeStore.Create` and `RecipeStore.Update` write successfully when the image and tags keys are present: both succeed iff no ingredient repeats, and `Serializers.AcceptedPayloadInserts` proves every accepted payload meets that. The converse does not hold: the empty list and zero amounts are refused by validation but would insert. `Serializers.DuplicateTestsCompared` shows the two scans differ only on such payloads.
