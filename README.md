# foodgram-st backend core in Dafny

foodgram-st is a recipe-sharing web service: users publish recipes made of catalogue
ingredients, follow other authors, mark recipes as favorites, put them in a shopping cart
and download the cart as a plain-text shopping list. This project models the backend's
core and proves properties of that model:

- the tables of the recipe store and their invariants (`Models`, `Store`): recipes keyed by
  id with an existing author and a cooking time within its validators, join rows whose
  amount is within its validators and which are unique per (recipe, ingredient), at least
  one join row per recipe, favorites / cart entries / subscriptions whose foreign keys
  resolve, and nobody subscribed to themselves. `Store.Store` is a class holding the
  tables; every state change keeps `Valid()`, including the cascades when a recipe or a
  user is deleted;
- the request handlers (`Views`): subscribe / unsubscribe, favorite and shopping-cart
  toggles with their status codes and messages, recipe create / update / delete with
  their permission checks, the filtered recipe listing and the shopping-list download;
- the serializers (`Serializers`): the viewer-dependent flags `is_subscribed`,
  `is_favorited` and `is_in_shopping_cart`, the subscriber payload with its
  `recipes_limit` slice, and the validation of a recipe submission;
- the recipe filter set (`Filters`) and the author-or-read-only object permission
  (`Permissions`);
- the shopping-list aggregation and its text file (`ShoppingList`), with Python's
  `str.capitalize`, `'\n'.join` and `int()` on the query parameter written out
  (`Text`, `Decimal`).

Requests arrive already authenticated: a `Viewer` is `Anonymous` or `Authenticated(id)`.
Responses are a status and a body (`Views.Response`). The current time is a parameter:
the store keeps a day counter `today` and the download takes the timestamp text.

## Model

| member | source | states |
|---|---|---|
| Models.RowsOf | backend/recipes/models.py:160-198 | the join rows of one recipe are exactly the table's rows that point at it |
| Models.NewestFirst | backend/recipes/models.py:154 | the listing holds exactly the stored recipes below the bound, each as stored, in strictly descending id (creation) order |
| Models.NewestFirstByPostingDate | backend/recipes/models.py:145-154 | when posting dates follow creation order, the listing is ordered by descending posting date, as `ordering = ('-posting_time',)` asks |
| Models.RecipesBy | backend/api/serializers.py:197 | `obj.recipes.all()`: exactly the stored recipes of that author, each as stored, in strictly descending id order (the model's `-posting_time` ordering) |
| Store.Store.constructor | backend/recipes/models.py:54-254 | the empty store satisfies every table invariant |
| Store.Store.AddUser | backend/recipes/models.py:8-51 | adding a user keeps the invariants and changes only the user table |
| Store.Store.AddIngredient | backend/recipes/models.py:86-105 | adding a catalogue ingredient keeps the invariants and changes only the catalogue |
| Store.Store.AdvanceClock | backend/recipes/models.py:145-148 | the day moves forward only; posting dates stay no later than today |
| Store.Store.CreateRecipe | backend/api/serializers.py:313-324 | the recipe is stored under a fresh id with the requester as author and today's date, its join rows are appended, the id counter advances, nothing else changes, and the invariants hold |
| Store.Store.UpdateRecipe | backend/api/serializers.py:326-334 | the recipe's join rows are replaced by the submitted ones, the sent fields overwrite the recipe (id, author and date kept, an unsent image kept), nothing else changes, and the invariants hold |
| Store.Store.DeleteRecipe | backend/recipes/models.py:160-254 | deleting a recipe removes its join rows, favorites and cart entries (the `CASCADE` foreign keys) and nothing else, keeping the invariants |
| Store.Store.DeleteUser | backend/recipes/models.py:61-70 | deleting a user removes their recipes (with those recipes' rows and pairs), their favorites, cart entries and subscriptions in both directions, keeping the invariants |
| Store.Store.AddSubPair | backend/recipes/models.py:72-78 | adding a subscription of two distinct existing users keeps the invariants and changes only the subscriptions |
| Store.Store.RemoveSubPair | backend/recipes/models.py:54-78 | removing a subscription keeps the invariants and changes only the subscriptions |
| Store.Store.AddToCollection | backend/recipes/models.py:201-254 | adding a pair to favorites or to the cart changes only that relation |
| Store.Store.RemoveFromCollection | backend/recipes/models.py:201-254 | removing a pair from favorites or from the cart changes only that relation |
| Store.Store.AuthorRecipes | backend/api/serializers.py:197 | an author's recipes are exactly the stored recipes they wrote, newest first (strictly descending ids) |
| Store.RowsWithout | backend/api/serializers.py:331 | deleting a recipe's join rows keeps every other row and no row of that recipe |
| Store.RowsOfRecipes | backend/recipes/models.py:160-175 | the `recipe` foreign key cascades: the rows kept are exactly those of surviving recipes |
| Store.RowsOfAfterReplace | backend/api/serializers.py:326-348 | after the update the recipe's rows are exactly the new ones and every other recipe's rows are unchanged |
| Store.RowsOfAfterDrop | backend/recipes/models.py:160-175 | after a deletion the recipe has no rows and every other recipe's rows are unchanged |
| Store.DeleteRecipeKeepsInvariants | backend/recipes/models.py:160-254 | the cascade on recipe deletion preserves every table invariant |
| Store.DeleteUserKeepsInvariants | backend/recipes/models.py:61-70 | the cascade on user deletion preserves every table invariant |
| Store.CreateRecipeKeepsInvariants | backend/api/serializers.py:313-324 | storing a validated submission as a new recipe preserves every table invariant |
| Store.UpdateRecipeKeepsInvariants | backend/api/serializers.py:326-334 | replacing a recipe's rows and fields with a validated submission preserves every table invariant |
| Store.RecipesValidAfterUpdate | backend/recipes/models.py:108-157 | a recipe rewritten with its id, author and date kept and valid fields keeps the recipe table valid |
| Store.UniqueKeep | backend/recipes/models.py:190-195 | removing join rows cannot break `Unique_IngredientInRecipe` |
| Store.UniqueAppend | backend/recipes/models.py:190-195 | appending the rows of a recipe that has none keeps uniqueness |
| Store.NewRowsValid | backend/api/serializers.py:336-348 | rows built from accepted, non-repeating entries resolve, have valid amounts, are unique and cover the recipe |
| Store.RowsValidAfterReplace | backend/api/serializers.py:326-348 | valid rows without a recipe plus its new rows are valid again |
| Store.RowsValidAfterDrop | backend/recipes/models.py:160-175 | removing a recipe and its rows keeps the rows valid |
| Serializers.AnonymousSeesNoFlags | backend/api/serializers.py:26-38 | an anonymous viewer is never subscribed and has no favorite or cart flag |
| Serializers.CutRecipes | backend/api/serializers.py:154-170 | the short payload has one summary per recipe, in order |
| Serializers.SerializeSubscriber | backend/api/serializers.py:173-226 | the profile carries the author's id and username, `is_subscribed` holds exactly when the viewer follows the author, `recipes` is exactly `get_recipes` of the author's recipes and `recipes_limit`, and `recipes_count` is the author's number of recipes, never below the shown list's length |
| Serializers.IngredientsData | backend/api/serializers.py:68-93 | one entry per join row, carrying the catalogue name and unit and the row's amount |
| Serializers.SerializeRecipe | backend/api/serializers.py:96-151 | the payload carries the recipe's id, name, image, text and cooking time as stored, the author's id, username and `is_subscribed`, the ingredients as the serialized join rows of that recipe (one per row, in table order), and `is_favorited` / `is_in_shopping_cart` exactly when the authenticated viewer has the pair |
| Serializers.LimitRecipes | backend/api/serializers.py:192-212 | the result is a prefix; a non-negative integer limit cuts it to that length; a missing, empty, non-integer or negative limit leaves the list whole |
| Serializers.GetRecipes | backend/api/serializers.py:192-212 | the payload is the short form of the first entries of the author's recipes, exactly as many as `recipes_limit` keeps |
| Serializers.LimitShowsNewest | backend/api/serializers.py:192-212 | with `recipes_limit=n` the subscriber payload shows the author's min(n, count) newest recipes in order, and every recipe left out is older than every one shown |
| Serializers.LimitByNumber | backend/api/serializers.py:200-204 | a limit written as a number keeps exactly that many recipes, or all when fewer |
| Serializers.LimitIgnoresNonInteger | backend/api/serializers.py:200-206 | a limit holding a character `int()` rejects leaves the list whole |
| Serializers.Validate | backend/api/serializers.py:272-297 | passes exactly when the ingredient list is present, non-empty and without repeated ids, with the message of each failure |
| Serializers.ValidateImage | backend/api/serializers.py:299-311 | refuses exactly an empty image, with "Required field" |
| Serializers.EntryErrors | backend/api/serializers.py:229-247 | no error exactly when every entry names a catalogue ingredient with an amount within the validators |
| Serializers.FieldErrors | backend/recipes/models.py:113-122 | the model's `name` and `text` may not be blank: a value blank once trimmed gets the `blank` error of that field, and there are no field errors exactly when both are non-blank and the other fields pass |
| Serializers.RunValidation | backend/api/serializers.py:250-311 | a submission passes exactly when, with name and text trimmed, it is storable (and carries an image unless partial); the validated data are the trimmed ones, so the name and text kept are non-blank and without surrounding whitespace; a name or text that is blank once trimmed fails with the `blank` error; a failure carries at least one error |
| Serializers.JoinRows | backend/api/serializers.py:336-348 | one join row per submitted entry, for the recipe, with the entry's ingredient and amount |
| Serializers.JoinRowsUnique | backend/recipes/models.py:190-195 | rows built from non-repeating ingredients satisfy the uniqueness constraint |
| Filters.FilterIsFavorited | backend/api/filters.py:17-20 | with a true value and a logged-in viewer, exactly the viewer's favorites are kept; otherwise the queryset is unchanged |
| Filters.FilterIsInShoppingCart | backend/api/filters.py:22-25 | with a true value and a logged-in viewer, exactly the recipes in the viewer's cart are kept; otherwise unchanged |
| Filters.CleanAuthor | backend/api/filters.py:27-29 | the `author` parameter is cleaned as a user choice: absent or empty means no filter, an integer naming an existing user selects that user, and anything else is the 400 field error `invalid_choice` |
| Filters.CleanAuthorOfId | backend/api/filters.py:27-29 | `author=<id>` selects that user when they exist and is the `invalid_choice` error otherwise |
| Filters.CleanQuery | backend/api/filters.py:27-29 | the filter set is valid exactly when its `author` field is, and then carries the cleaned author and the two boolean parameters |
| Filters.FilterAuthor | backend/api/filters.py:27-29 | once cleaned, the `author` field filter keeps exactly that author's recipes |
| Filters.FilterRecipesIsIntersection | backend/api/filters.py:6-29 | the chained filters keep exactly the recipes every given parameter accepts |
| Filters.FavoriteFilterAgreesWithFlag | backend/api/filters.py:17-20 | a recipe passes the favorite filter exactly when the serializer's `is_favorited` is true |
| Filters.CartFilterAgreesWithFlag | backend/api/filters.py:22-25 | a recipe passes the cart filter exactly when `is_in_shopping_cart` is true |
| Filters.FilterRecipesKeepsOrder | backend/api/filters.py:6-29 | filtering keeps the queryset's order: the result is a subsequence |
| Permissions.SafeMethodAlwaysPermitted | backend/api/permissions.py:10-14 | a safe method is always permitted |
| Permissions.WriteNeedsAuthor | backend/api/permissions.py:10-14 | an unsafe method is permitted exactly to the object's author |
| Views.SubscribeStep | backend/api/views.py:106-152 | 401 exactly for an anonymous viewer, 404 exactly for an unknown author, 201 exactly for a new subscription to someone else (the pair added), 204 exactly for an existing one on DELETE (the pair removed), otherwise 400 and no change |
| Views.SubscribeThenUnsubscribe | backend/api/views.py:123-151 | unsubscribing right after subscribing returns 204 and restores the subscriptions |
| Views.UnsubscribeThenSubscribe | backend/api/views.py:123-151 | subscribing right after unsubscribing returns 201 and restores the subscriptions |
| Views.SubscribeTwice | backend/api/views.py:128-131 | subscribing twice is refused the second time with 400 and changes nothing |
| Views.SubscribeKeepsSubsValid | backend/api/views.py:124-135 | subscribing never creates a self-subscription or a dangling pair |
| Views.Subscribe | backend/api/views.py:112-152 | the handler answers as `SubscribeStep` says, changes only the subscriptions, returns the subscriber payload on 201 and the message on 400 |
| Views.FavAndCartStep | backend/api/views.py:176-224 | 401 exactly for an anonymous viewer, 404 exactly for an unknown recipe, 201 exactly for a new pair (added), 204 exactly for an existing one on DELETE (removed), 400 for the rest with no change |
| Views.AddThenRemove | backend/api/views.py:182-205 | removing right after adding returns 204 and restores the relation |
| Views.RemoveThenAdd | backend/api/views.py:182-218 | adding right after removing returns 201 and restores the relation |
| Views.AddTwice | backend/api/views.py:183-196 | adding twice is refused the second time with 400 |
| Views.FavAndCartKeepsPairsValid | backend/api/views.py:176-224 | the toggles never create a pair with an unknown user or recipe |
| Views.FlagFollowsToggle | backend/api/serializers.py:123-151 | after a successful toggle the recipe's flag is true exactly when the request was POST |
| Views.FavAndCart | backend/api/views.py:176-224 | the shared handler answers as `FavAndCartStep` says on the chosen relation, leaves the other untouched, returns the short recipe on 201 and the message on 400 |
| Views.Favorite | backend/api/views.py:226-239 | the favorite toggle, with "Recipe was already favorited!" |
| Views.ShoppingCart | backend/api/views.py:241-254 | the cart toggle, with "Recipe is already in the cart!" |
| Views.DownloadShoppingCart | backend/api/views.py:285-312 | anonymous viewers get 401; a logged-in one gets a file whose lines are the header, an empty line, the title and one numbered line per ingredient group of their cart |
| Models.ListingWhere | backend/recipes/models.py:154 | exactly the stored recipes that pass a test, newest first |
| Views.Shown | backend/api/views.py:163-169 | the filtered queryset holds exactly the stored recipes every parameter accepts, newest first |
| Views.ListedRecipes | backend/api/views.py:163-169 | the listing holds exactly the selected recipes, newest first, each entry the full serialized payload of the stored recipe for this viewer, with the favorite / cart flags set when filtered on them |
| Views.ListingSerialized | backend/api/serializers.py:96-151 | serializing keeps the listing's membership, completeness and order, and each entry is the full payload of the stored recipe |
| Views.ListingFlags | backend/api/filters.py:17-25 | recipes that passed a true `is_favorited` / `is_in_shopping_cart` filter are shown with that flag set |
| Views.ListResponse | backend/api/views.py:163-169 | an invalid filter query is answered 400 with the field error; a valid one is answered 200 with the serialized listing of exactly the recipes the cleaned query selects |
| Views.ListByAuthorId | backend/api/views.py:163-169 | `?author=<id>` is answered 400 when no such user exists, and otherwise 200 with only that author's recipes |
| Views.ListRecipes | backend/api/views.py:163-169 | on the store's tables: an invalid query is answered 400 with the form's error; a valid one 200 with every stored recipe the query selects and no other, in strictly descending id order, each the recipe's full serialized payload for the viewer |
| Views.CreateRecipe | backend/api/serializers.py:272-324 | 401 for anonymous, 400 with the errors for an invalid submission, otherwise 201 and the recipe stored by `create`, with the trimmed name and text |
| Views.UpdateRecipe | backend/api/serializers.py:272-334 | 401, then 404 for an unknown recipe, 403 for a non-author, 400 for an invalid submission, otherwise 200 and the recipe updated by `update`, with the trimmed name and text |
| Views.DestroyRecipe | backend/api/views.py:155-159 | 401, 404, 403 for a non-author, otherwise 204 with the recipe, its rows, favorites and cart entries gone |
| ShoppingList.InsertSorted | backend/api/views.py:293-302 | adding a row to the grouped list keeps it strictly ordered by key |
| ShoppingList.InsertSpec | backend/api/views.py:293-302 | adding a row adds its key, adds its amount to that key's total and to the grand total |
| ShoppingList.AggregateSpec | backend/api/views.py:293-302 | the grouped list is ordered by key, has one group per (name, unit) that occurs, each total is the `Sum` of its rows, and the grand total is kept |
| ShoppingList.SortedByName | backend/api/views.py:300-302 | the grouped list is in `order_by(name)` order |
| ShoppingList.CartAddsRecipe | backend/api/views.py:293-302 | putting a recipe in the cart adds exactly that recipe's amounts to every group's total |
| ShoppingList.CartLinesOwnCartOnly | backend/api/views.py:293-295 | other users' carts never reach a user's list |
| ShoppingList.CartLinesClean | backend/api/views.py:293-302 | the joined rows carry catalogue names and units |
| ShoppingList.ItemLines | backend/api/views.py:262-274 | one numbered line per group, counting from the start given |
| ShoppingList.ItemBlockLines | backend/api/views.py:262-274 | the joined item block splits back into its lines (one empty line when there are none) |
| ShoppingList.RenderLines | backend/api/views.py:256-283 | the file splits into the header line, an empty line, the title and the item lines |
| ShoppingList.ShoppingListFileLines | backend/api/views.py:256-312 | the downloaded file of a user reads as the header, an empty line, the title, then one numbered line per ingredient group of their cart |
| Text.Capitalize | backend/api/views.py:264-267 | same length, first letter upper-cased, the rest lower-cased |
| Text.CapitalizeIdempotent | backend/api/views.py:264-267 | capitalizing twice is capitalizing once |
| Text.CapitalizeKeepsNonLetter | backend/api/views.py:264-267 | capitalizing neither adds nor removes a newline or any other non-letter |
| Text.SplitJoin | backend/api/views.py:264-279 | splitting a `'\n'.join` of newline-free lines gives the lines back |
| Decimal.ParseIntOfIntToString | backend/api/serializers.py:203 | `int()` reads back any integer's decimal text |
| Decimal.ParseIntRejectsForeignChar | backend/api/serializers.py:203 | `int()` refuses a text holding a character other than a digit, sign, underscore or space |
| Decimal.ParseIntIgnoresSurroundingSpace | backend/api/serializers.py:203 | `int()` ignores surrounding whitespace: for whitespace-only `w1` and `w2`, `int(w1 + s + w2)` reads the same as `int(s)`, number or error |
| Decimal.StripIdempotent | backend/api/serializers.py:250-264 | `str.strip()` applied twice is applied once: a trimmed name or text has no surrounding whitespace left |

## Left out

- Routing: a method the route does not accept (405) is excluded by each handler's precondition on the verb.
- The detail texts of 401, 403 and 404 responses: those bodies are `Empty`.
- Views.CreateRecipe: the 201 body is the new recipe's id (`Written`), not the full `RecipeSerializer` payload.
- Views.UpdateRecipe: the 200 body is the recipe's id, not the full payload; a partial update still overwrites name, text and cooking time, because the submission datatype always carries them.
- Views.ListedRecipes: `-posting_time` is a date, so recipes posted on the same day may come in any order; the model uses descending id, one of those orders (`Models.NewestFirstByPostingDate`).
- ShoppingList.SortedByName: groups with equal names are ordered by unit, one of the orders the query permits; strings compare by code point rather than by the database collation.
- The users' subscriptions listing (`subscriptions`, views.py:85-104), pagination, `return_short_link` and the absolute URL it builds.
- djoser's user endpoints, `get_me`, the avatar and `Base64ImageField`: users and catalogue ingredients enter the store through `AddUser` / `AddIngredient` instead of registration and `populate_ingredients`.
- `get_serializer_class`, `SearchFilter` and `IngredientFilter`.
- `max_length` limits of the text fields, the username regex and email uniqueness.
- `constant.py` is not part of this model: both minimum-value constants are taken as 1.
- `FIELD_INVALID` stands for the framework's own wording of a model-field validation error; only the messages written in the serializers and the framework's `blank` message are literal.
- Decimal.Strip: Python's `str.strip()` and `int()` skip Unicode whitespace; the model skips its ASCII part only, so a name surrounded by other spaces (U+00A0, say) keeps them.
- Serializers.UserData: the user profile carries id, username and `is_subscribed` only; `email`, `first_name` and `last_name`, which `UserSerializer` also returns, are not modelled, since the store keeps no such columns.
- Store.Store.AddUser: usernames are not required to be unique, though `AbstractUser.username` is `unique=True`; users enter the store from outside the modelled endpoints, and no modelled operation depends on it.
- The clock: `datetime.now()` is the download's `timestamp` text parameter, and `auto_now_add` reads the store's `today` counter.
- Text.Capitalize: letters are those of ASCII and basic Cyrillic (U+0400 to U+045F); other scripts' case mappings are not modelled.
- Filters.RawQuery: `is_favorited` and `is_in_shopping_cart` arrive already read as optional booleans; a value the boolean field cannot read means no filter, as for an absent one.
- Filters.INVALID_CHOICE stands for the framework's default `invalid_choice` text of a model-choice field.
- Decimal: Python's `int()` is modelled for ASCII whitespace, signs, digits and single underscores; Unicode digits and spaces are not modelled.
- `BytesIO`, `FileResponse` and UTF-8 encoding: the file is its text.
- `admin.py` and `populate_ingredients`.
- Transactions and concurrent requests: every request runs alone.
- The favorite and cart relations are sets, so their pair uniqueness holds by construction; a subscription is a set element too, and the self-subscription ban is an invariant that `subscribe` keeps.
