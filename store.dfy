/**
 * The database behind the views (backend/recipes/models.py): the tables, the invariants
 * their fields and constraints keep, and the writes the serializers and the cascades of
 * `on_delete=CASCADE` perform.
 */
module Store {
  import opened Wrappers
  import opened Seqs
  import opened Models
  import opened Serializers

  // ---------------------------------------------------------------- table invariants

  /**
   * Recipes: keyed by id, ids below the next id to hand out, an existing author, a cooking
   * time and a non-blank name, text and image as the fields demand, posted no later than
   * today, and posting dates that follow creation order.
   */
  predicate RecipesValid(usernames: map<UserId, string>, recipes: map<RecipeId, Recipe>, nextRecipeId: nat, today: nat)
  {
    && KeyedById(recipes)
    && DatesFollowIds(recipes)
    && (forall k :: k in recipes ==>
          && k < nextRecipeId
          && recipes[k].author in usernames
          && ValidCookingTime(recipes[k].cookingTime)
          && recipes[k].name != "" && recipes[k].text != "" && recipes[k].image != ""
          && recipes[k].postingDate <= today)
  }

  /** Whether some join row belongs to recipe `k`. */
  predicate HasRows(rows: seq<IngredientInRecipe>, k: RecipeId)
  {
    rows != [] && (rows[0].recipe == k || HasRows(rows[1..], k))
  }

  /**
   * Join rows: both foreign keys resolve, the amount is within its validators,
   * `Unique_IngredientInRecipe` holds, and every recipe has at least one row.
   */
  predicate RowsValid(ingredients: map<IngredientId, Ingredient>, recipes: map<RecipeId, Recipe>, rows: seq<IngredientInRecipe>)
  {
    && (forall row :: row in rows ==> row.recipe in recipes && row.ingredient in ingredients && ValidAmount(row.amount))
    && UniqueIngredientRows(rows)
    && (forall k :: k in recipes ==> HasRows(rows, k))
  }

  /** `Favorite` or `ToBuyList`: both foreign keys resolve (the set holds a pair at most once). */
  predicate PairsValid(usernames: map<UserId, string>, recipes: map<RecipeId, Recipe>, relation: set<UserRecipe>)
  {
    forall p :: p in relation ==> p.user in usernames && p.recipe in recipes
  }

  /** `SubPair`: both users exist, and nobody follows themselves. */
  predicate SubsValid(usernames: map<UserId, string>, subPairs: set<SubPair>)
  {
    forall p :: p in subPairs ==> p.subscriber in usernames && p.contentMaker in usernames && p.subscriber != p.contentMaker
  }

  /** Every table invariant at once. */
  predicate StoreValid(
    usernames: map<UserId, string>, ingredients: map<IngredientId, Ingredient>, recipes: map<RecipeId, Recipe>,
    nextRecipeId: nat, today: nat, rows: seq<IngredientInRecipe>,
    favorites: set<UserRecipe>, toBuyLists: set<UserRecipe>, subPairs: set<SubPair>)
  {
    && RecipesValid(usernames, recipes, nextRecipeId, today)
    && RowsValid(ingredients, recipes, rows)
    && PairsValid(usernames, recipes, favorites)
    && PairsValid(usernames, recipes, toBuyLists)
    && SubsValid(usernames, subPairs)
  }

  // ---------------------------------------------------------------- row lemmas

  lemma UniqueCons(x: IngredientInRecipe, t: seq<IngredientInRecipe>)
    requires UniqueIngredientRows(t)
    requires forall j :: 0 <= j < |t| ==> x.recipe != t[j].recipe || x.ingredient != t[j].ingredient
    ensures UniqueIngredientRows([x] + t)
  {
    var s := [x] + t;
    forall i, j | 0 <= i < j < |s| ensures s[i].recipe != s[j].recipe || s[i].ingredient != s[j].ingredient {
      if i > 0 {
        assert s[i] == t[i - 1] && s[j] == t[j - 1];
      }
    }
  }

  lemma UniqueTail(rows: seq<IngredientInRecipe>)
    requires rows != [] && UniqueIngredientRows(rows)
    ensures UniqueIngredientRows(rows[1..])
  {
    var t := rows[1..];
    forall i, j | 0 <= i < j < |t| ensures t[i].recipe != t[j].recipe || t[i].ingredient != t[j].ingredient {
      assert t[i] == rows[i + 1] && t[j] == rows[j + 1];
    }
  }

  /** The first row differs in its key from every row taken from the rest. */
  lemma HeadApart(rows: seq<IngredientInRecipe>, t: seq<IngredientInRecipe>)
    requires rows != [] && UniqueIngredientRows(rows)
    requires forall j :: 0 <= j < |t| ==> t[j] in rows[1..]
    ensures forall j :: 0 <= j < |t| ==> rows[0].recipe != t[j].recipe || rows[0].ingredient != t[j].ingredient
  {
    forall j | 0 <= j < |t| ensures rows[0].recipe != t[j].recipe || rows[0].ingredient != t[j].ingredient {
      var k :| 0 <= k < |rows| - 1 && rows[1..][k] == t[j];
      assert rows[k + 1] == t[j];
    }
  }

  /** Removing rows keeps `Unique_IngredientInRecipe`. */
  lemma {:induction false} UniqueKeep(rows: seq<IngredientInRecipe>, p: IngredientInRecipe -> bool)
    requires UniqueIngredientRows(rows)
    ensures UniqueIngredientRows(Keep(rows, p))
  {
    if rows != [] {
      UniqueTail(rows);
      UniqueKeep(rows[1..], p);
      var t := Keep(rows[1..], p);
      if p(rows[0]) {
        assert Keep(rows, p) == [rows[0]] + t;
        HeadApart(rows, t);
        UniqueCons(rows[0], t);
      } else {
        assert Keep(rows, p) == t;
      }
    }
  }

  /** Two uniquely keyed row lists about different recipes stay unique together. */
  lemma UniqueAppend(a: seq<IngredientInRecipe>, b: seq<IngredientInRecipe>)
    requires UniqueIngredientRows(a) && UniqueIngredientRows(b)
    requires forall i, j :: 0 <= i < |a| && 0 <= j < |b| ==> a[i].recipe != b[j].recipe
    ensures UniqueIngredientRows(a + b)
  {
    var s := a + b;
    forall i, j | 0 <= i < j < |s| ensures s[i].recipe != s[j].recipe || s[i].ingredient != s[j].ingredient {
      if j < |a| {
        assert s[i] == a[i] && s[j] == a[j];
      } else if i >= |a| {
        assert s[i] == b[i - |a|] && s[j] == b[j - |a|];
      } else {
        assert s[i] == a[i] && s[j] == b[j - |a|];
      }
    }
  }

  /** A recipe with a row keeps it when the rows removed belong to other recipes. */
  lemma {:induction false} HasRowsKeep(rows: seq<IngredientInRecipe>, k: RecipeId, p: IngredientInRecipe -> bool)
    requires HasRows(rows, k)
    requires forall row :: row in rows && row.recipe == k ==> p(row)
    ensures HasRows(Keep(rows, p), k)
  {
    var head := if p(rows[0]) then [rows[0]] else [];
    assert Keep(rows, p) == head + Keep(rows[1..], p);
    if rows[0].recipe == k {
      assert (head + Keep(rows[1..], p))[0] == rows[0];
    } else {
      assert forall row :: row in rows[1..] ==> row in rows;
      HasRowsKeep(rows[1..], k, p);
      HasRowsAppend(head, Keep(rows[1..], p), k);
    }
  }

  lemma {:induction false} HasRowsAppend(a: seq<IngredientInRecipe>, b: seq<IngredientInRecipe>, k: RecipeId)
    requires HasRows(a, k) || HasRows(b, k)
    ensures HasRows(a + b, k)
  {
    if a == [] {
      assert a + b == b;
    } else {
      assert (a + b)[0] == a[0] && (a + b)[1..] == a[1..] + b;
      if a[0].recipe != k {
        HasRowsAppend(a[1..], b, k);
      }
    }
  }

  /** Rows built from a validated ingredient list: fresh recipe id, known ingredients, valid amounts. */
  lemma NewRowsValid(
    ingredients: map<IngredientId, Ingredient>, recipe: RecipeId, entries: seq<IngredientEntry>)
    requires entries != [] && Distinct(IngredientIds(entries))
    requires forall i :: 0 <= i < |entries| ==> EntryAcceptable(entries[i], ingredients.Keys)
    ensures forall row :: row in JoinRows(recipe, entries) ==>
      row.recipe == recipe && row.ingredient in ingredients && ValidAmount(row.amount)
    ensures UniqueIngredientRows(JoinRows(recipe, entries))
    ensures HasRows(JoinRows(recipe, entries), recipe)
  {
    var rows := JoinRows(recipe, entries);
    JoinRowsUnique(recipe, entries);
    forall row | row in rows ensures row.recipe == recipe && row.ingredient in ingredients && ValidAmount(row.amount) {
      var i :| 0 <= i < |rows| && rows[i] == row;
      assert EntryAcceptable(entries[i], ingredients.Keys);
    }
    assert rows[0].recipe == recipe;
  }

  /** Replacing (or first writing) the rows of `recipe`: the old ones go, the new ones come. */
  lemma RowsValidAfterReplace(
    ingredients: map<IngredientId, Ingredient>, recipes: map<RecipeId, Recipe>,
    rows: seq<IngredientInRecipe>, recipe: RecipeId, stored: Recipe, entries: seq<IngredientEntry>)
    requires RowsValid(ingredients, RecipesWithout(recipes, recipe), RowsWithout(rows, recipe))
    requires entries != [] && Distinct(IngredientIds(entries))
    requires forall i :: 0 <= i < |entries| ==> EntryAcceptable(entries[i], ingredients.Keys)
    ensures RowsValid(ingredients, recipes[recipe := stored],
      RowsWithout(rows, recipe) + JoinRows(recipe, entries))
  {
    var kept := RowsWithout(rows, recipe);
    var added := JoinRows(recipe, entries);
    var after := recipes[recipe := stored];
    NewRowsValid(ingredients, recipe, entries);
    UniqueAppend(kept, added);
    forall k | k in after ensures HasRows(kept + added, k) {
      HasRowsAppend(kept, added, k);
    }
    forall row: IngredientInRecipe | row in kept + added ensures row.recipe in after && row.ingredient in ingredients && ValidAmount(row.amount) {
    }
  }

  /** Dropping the rows of `recipe` leaves valid rows for the remaining recipes. */
  lemma RowsValidAfterDrop(
    ingredients: map<IngredientId, Ingredient>, recipes: map<RecipeId, Recipe>,
    rows: seq<IngredientInRecipe>, recipe: RecipeId)
    requires RowsValid(ingredients, recipes, rows)
    ensures RowsValid(ingredients, RecipesWithout(recipes, recipe), RowsWithout(rows, recipe))
  {
    var p := (row: IngredientInRecipe) => row.recipe != recipe;
    UniqueKeep(rows, p);
    forall k | k in RecipesWithout(recipes, recipe) ensures HasRows(Keep(rows, p), k) {
      HasRowsKeep(rows, k, p);
    }
  }

  /** Rows of a recipe that never existed: dropping them changes nothing. */
  lemma DropAbsent(ingredients: map<IngredientId, Ingredient>, recipes: map<RecipeId, Recipe>, rows: seq<IngredientInRecipe>, recipe: RecipeId)
    requires RowsValid(ingredients, recipes, rows) && recipe !in recipes
    ensures RowsWithout(rows, recipe) == rows
    ensures RecipesWithout(recipes, recipe) == recipes
  {
    KeepAll(rows, (row: IngredientInRecipe) => row.recipe != recipe);
  }

  /** `Recipe.objects.create(...)` from validated data, posted today. */
  function NewRecipe(id: RecipeId, author: UserId, data: RecipeInput, today: nat): Recipe
    requires data.image.Some?
  {
    Recipe(id, author, data.name, data.image.value, data.text, data.cookingTime, today)
  }

  /** `super().update(instance, validated_data)`: fields sent overwrite; an image not sent is kept. */
  function UpdatedRecipe(r: Recipe, data: RecipeInput): Recipe
  {
    Recipe(r.id, r.author, data.name, if data.image.Some? then data.image.value else r.image,
           data.text, data.cookingTime, r.postingDate)
  }

  /** The recipes left after one is deleted. */
  function RecipesWithout(recipes: map<RecipeId, Recipe>, id: RecipeId): (r: map<RecipeId, Recipe>)
    ensures forall k :: k in r <==> k in recipes && k != id
    ensures forall k :: k in r ==> r[k] == recipes[k]
  {
    map k | k in recipes && k != id :: recipes[k]
  }

  /** The recipes a deleted user's cascade leaves: those by other authors. */
  function RecipesWithoutAuthor(recipes: map<RecipeId, Recipe>, user: UserId): (r: map<RecipeId, Recipe>)
    ensures forall k :: k in r <==> k in recipes && recipes[k].author != user
    ensures forall k :: k in r ==> r[k] == recipes[k]
  {
    map k | k in recipes && recipes[k].author != user :: recipes[k]
  }

  /** `IngredientInRecipe.objects.filter(recipe=...).delete()`: the rows of other recipes. */
  function RowsWithout(rows: seq<IngredientInRecipe>, recipe: RecipeId): (r: seq<IngredientInRecipe>)
    ensures forall row :: row in r ==> row in rows && row.recipe != recipe
    ensures forall row :: row in rows && row.recipe != recipe ==> row in r
  {
    Keep(rows, (row: IngredientInRecipe) => row.recipe != recipe)
  }

  /** The rows whose recipe is still stored. */
  function RowsOfRecipes(rows: seq<IngredientInRecipe>, recipes: map<RecipeId, Recipe>): (r: seq<IngredientInRecipe>)
    ensures forall row :: row in r ==> row in rows && row.recipe in recipes
    ensures forall row :: row in rows && row.recipe in recipes ==> row in r
  {
    Keep(rows, (row: IngredientInRecipe) => row.recipe in recipes)
  }

  /**
   * Deleting a recipe's rows and inserting new ones: that recipe's rows are exactly the
   * new ones, in submission order, and every other recipe keeps its rows.
   */
  lemma RowsOfAfterReplace(rows: seq<IngredientInRecipe>, recipe: RecipeId, entries: seq<IngredientEntry>, other: RecipeId)
    ensures RowsOf(RowsWithout(rows, recipe) + JoinRows(recipe, entries), recipe) == JoinRows(recipe, entries)
    ensures other != recipe ==>
      RowsOf(RowsWithout(rows, recipe) + JoinRows(recipe, entries), other) == RowsOf(rows, other)
  {
    var kept := RowsWithout(rows, recipe);
    var added := JoinRows(recipe, entries);
    var mine := (row: IngredientInRecipe) => row.recipe == recipe;
    var theirs := (row: IngredientInRecipe) => row.recipe == other;
    KeepAppend(kept, added, mine);
    KeepNone(kept, mine);
    KeepAll(added, mine);
    if other != recipe {
      KeepAppend(kept, added, theirs);
      KeepNone(added, theirs);
      KeepKeep(rows, (row: IngredientInRecipe) => row.recipe != recipe, theirs, theirs);
    }
  }

  /** Deleting a recipe's rows: it has none left, and every other recipe keeps its rows. */
  lemma RowsOfAfterDrop(rows: seq<IngredientInRecipe>, recipe: RecipeId, other: RecipeId)
    ensures RowsOf(RowsWithout(rows, recipe), recipe) == []
    ensures other != recipe ==> RowsOf(RowsWithout(rows, recipe), other) == RowsOf(rows, other)
  {
    var theirs := (row: IngredientInRecipe) => row.recipe == other;
    KeepNone(RowsWithout(rows, recipe), (row: IngredientInRecipe) => row.recipe == recipe);
    if other != recipe {
      KeepKeep(rows, (row: IngredientInRecipe) => row.recipe != recipe, theirs, theirs);
    }
  }

  /** Removing recipes (and nothing the rest refers to) keeps the recipe invariant. */
  lemma RecipesValidSubset(
    usernames: map<UserId, string>, recipes: map<RecipeId, Recipe>, nextRecipeId: nat, today: nat,
    users: map<UserId, string>, kept: map<RecipeId, Recipe>)
    requires RecipesValid(usernames, recipes, nextRecipeId, today)
    requires forall k :: k in kept ==> k in recipes && kept[k] == recipes[k] && kept[k].author in users
    ensures RecipesValid(users, kept, nextRecipeId, today)
  {
  }

  /** The favorites or cart entries a recipe's deletion leaves: those of other recipes. */
  function PairsWithoutRecipe(relation: set<UserRecipe>, id: RecipeId): (r: set<UserRecipe>)
    ensures forall p :: p in r <==> p in relation && p.recipe != id
  {
    set p | p in relation && p.recipe != id
  }

  /** The state a recipe's deletion leaves behind keeps every invariant. */
  lemma DeleteRecipeKeepsInvariants(
    usernames: map<UserId, string>, ingredients: map<IngredientId, Ingredient>, recipes: map<RecipeId, Recipe>,
    nextRecipeId: nat, today: nat, rows: seq<IngredientInRecipe>,
    favorites: set<UserRecipe>, toBuyLists: set<UserRecipe>, subPairs: set<SubPair>, id: RecipeId)
    requires StoreValid(usernames, ingredients, recipes, nextRecipeId, today, rows, favorites, toBuyLists, subPairs)
    ensures StoreValid(usernames, ingredients, RecipesWithout(recipes, id), nextRecipeId, today, RowsWithout(rows, id),
      PairsWithoutRecipe(favorites, id), PairsWithoutRecipe(toBuyLists, id), subPairs)
  {
    RecipesValidSubset(usernames, recipes, nextRecipeId, today, usernames, RecipesWithout(recipes, id));
    RowsValidAfterDrop(ingredients, recipes, rows, id);
  }

  /** The favorites or cart entries a user's deletion leaves: other users' entries on surviving recipes. */
  function PairsWithoutUser(relation: set<UserRecipe>, user: UserId, kept: map<RecipeId, Recipe>): (r: set<UserRecipe>)
    ensures forall p :: p in r <==> p in relation && p.user != user && p.recipe in kept
  {
    set p | p in relation && p.user != user && p.recipe in kept
  }

  /** The subscriptions a user's deletion leaves: those the user is on neither side of. */
  function SubsWithout(subPairs: set<SubPair>, user: UserId): (r: set<SubPair>)
    ensures forall p :: p in r <==> p in subPairs && p.subscriber != user && p.contentMaker != user
  {
    set p | p in subPairs && p.subscriber != user && p.contentMaker != user
  }

  /** The state a user's deletion leaves behind keeps every invariant. */
  lemma DeleteUserKeepsInvariants(
    usernames: map<UserId, string>, ingredients: map<IngredientId, Ingredient>, recipes: map<RecipeId, Recipe>,
    nextRecipeId: nat, today: nat, rows: seq<IngredientInRecipe>,
    favorites: set<UserRecipe>, toBuyLists: set<UserRecipe>, subPairs: set<SubPair>, user: UserId)
    requires StoreValid(usernames, ingredients, recipes, nextRecipeId, today, rows, favorites, toBuyLists, subPairs)
    ensures var kept := RecipesWithoutAuthor(recipes, user);
      StoreValid(usernames - {user}, ingredients, kept, nextRecipeId, today, RowsOfRecipes(rows, kept),
        PairsWithoutUser(favorites, user, kept), PairsWithoutUser(toBuyLists, user, kept), SubsWithout(subPairs, user))
  {
    var kept := RecipesWithoutAuthor(recipes, user);
    var p := (row: IngredientInRecipe) => row.recipe in kept;
    RecipesValidSubset(usernames, recipes, nextRecipeId, today, usernames - {user}, kept);
    UniqueKeep(rows, p);
    forall k | k in kept ensures HasRows(Keep(rows, p), k) {
      HasRowsKeep(rows, k, p);
    }
  }

  /** The state `create` leaves behind keeps every invariant. */
  lemma CreateRecipeKeepsInvariants(
    usernames: map<UserId, string>, ingredients: map<IngredientId, Ingredient>, recipes: map<RecipeId, Recipe>,
    nextRecipeId: nat, today: nat, rows: seq<IngredientInRecipe>,
    favorites: set<UserRecipe>, toBuyLists: set<UserRecipe>, subPairs: set<SubPair>,
    author: UserId, data: RecipeInput)
    requires StoreValid(usernames, ingredients, recipes, nextRecipeId, today, rows, favorites, toBuyLists, subPairs)
    requires author in usernames && Storable(data, ingredients.Keys) && data.image.Some?
    ensures StoreValid(usernames, ingredients, recipes[nextRecipeId := NewRecipe(nextRecipeId, author, data, today)],
      nextRecipeId + 1, today, rows + JoinRows(nextRecipeId, data.ingredients.value), favorites, toBuyLists, subPairs)
  {
    var id := nextRecipeId;
    DropAbsent(ingredients, recipes, rows, id);
    RowsValidAfterReplace(ingredients, recipes, rows, id, NewRecipe(id, author, data, today), data.ingredients.value);
  }

  /** The state `update` leaves behind keeps every invariant. */
  lemma UpdateRecipeKeepsInvariants(
    usernames: map<UserId, string>, ingredients: map<IngredientId, Ingredient>, recipes: map<RecipeId, Recipe>,
    nextRecipeId: nat, today: nat, rows: seq<IngredientInRecipe>,
    favorites: set<UserRecipe>, toBuyLists: set<UserRecipe>, subPairs: set<SubPair>,
    id: RecipeId, data: RecipeInput)
    requires StoreValid(usernames, ingredients, recipes, nextRecipeId, today, rows, favorites, toBuyLists, subPairs)
    requires id in recipes && Storable(data, ingredients.Keys)
    ensures StoreValid(usernames, ingredients, recipes[id := UpdatedRecipe(recipes[id], data)],
      nextRecipeId, today, RowsWithout(rows, id) + JoinRows(id, data.ingredients.value), favorites, toBuyLists, subPairs)
  {
    var stored := UpdatedRecipe(recipes[id], data);
    RecipesValidAfterUpdate(usernames, recipes, nextRecipeId, today, id, stored);
    RowsValidAfterDrop(ingredients, recipes, rows, id);
    RowsValidAfterReplace(ingredients, recipes, rows, id, stored, data.ingredients.value);
  }

  /** Overwriting a recipe's fields, keeping its id, author and date, keeps the recipe invariant. */
  lemma RecipesValidAfterUpdate(
    usernames: map<UserId, string>, recipes: map<RecipeId, Recipe>, nextRecipeId: nat, today: nat,
    id: RecipeId, stored: Recipe)
    requires RecipesValid(usernames, recipes, nextRecipeId, today) && id in recipes
    requires stored.id == id && stored.author == recipes[id].author && stored.postingDate == recipes[id].postingDate
    requires ValidCookingTime(stored.cookingTime) && stored.name != "" && stored.text != "" && stored.image != ""
    ensures RecipesValid(usernames, recipes[id := stored], nextRecipeId, today)
  {
    var after := recipes[id := stored];
    forall a, b | a in after && b in after && a < b ensures after[a].postingDate <= after[b].postingDate {
      assert after[a].postingDate == recipes[a].postingDate && after[b].postingDate == recipes[b].postingDate;
    }
  }

  // ---------------------------------------------------------------- the store

  class Store {
    var usernames: map<UserId, string>
    var ingredients: map<IngredientId, Ingredient>
    var recipes: map<RecipeId, Recipe>
    var nextRecipeId: nat
    /** The date the database clock gives to a recipe created now. */
    var today: nat
    var joinRows: seq<IngredientInRecipe>
    var favorites: set<UserRecipe>
    var toBuyLists: set<UserRecipe>
    var subPairs: set<SubPair>

    predicate Valid()
      reads this
    {
      StoreValid(usernames, ingredients, recipes, nextRecipeId, today, joinRows, favorites, toBuyLists, subPairs)
    }

    /** The relation one of the two user/recipe models stands for. */
    function Relation(c: Collection): set<UserRecipe>
      reads this
    {
      match c
      case Favorites => favorites
      case ToBuyLists => toBuyLists
    }

    /** `author.recipes.all()`: the author's recipes, newest first. */
    function AuthorRecipes(author: UserId): (r: seq<Recipe>)
      reads this
      requires Valid()
      ensures forall x :: x in r <==> x.id in recipes && recipes[x.id] == x && x.author == author
      ensures forall i, j :: 0 <= i < j < |r| ==> r[i].id > r[j].id
    {
      RecipesBy(recipes, nextRecipeId, author)
    }

    /** An empty database; the first id handed out is 1. */
    constructor()
      ensures Valid()
      ensures usernames == map[] && ingredients == map[] && recipes == map[] && joinRows == []
      ensures favorites == {} && toBuyLists == {} && subPairs == {}
      ensures nextRecipeId == 1 && today == 0
    {
      usernames := map[];
      ingredients := map[];
      recipes := map[];
      nextRecipeId := 1;
      today := 0;
      joinRows := [];
      favorites := {};
      toBuyLists := {};
      subPairs := {};
    }

    /** A user account, as registration creates it. */
    method AddUser(id: UserId, username: string)
      requires Valid() && id !in usernames
      modifies this
      ensures Valid()
      ensures usernames == old(usernames)[id := username]
      ensures ingredients == old(ingredients) && recipes == old(recipes) && nextRecipeId == old(nextRecipeId)
      ensures today == old(today) && joinRows == old(joinRows)
      ensures favorites == old(favorites) && toBuyLists == old(toBuyLists) && subPairs == old(subPairs)
    {
      usernames := usernames[id := username];
    }

    /** An ingredient of the catalogue, as the loading command creates it. */
    method AddIngredient(id: IngredientId, ingredient: Ingredient)
      requires Valid() && id !in ingredients
      modifies this
      ensures Valid()
      ensures ingredients == old(ingredients)[id := ingredient]
      ensures usernames == old(usernames) && recipes == old(recipes) && nextRecipeId == old(nextRecipeId)
      ensures today == old(today) && joinRows == old(joinRows)
      ensures favorites == old(favorites) && toBuyLists == old(toBuyLists) && subPairs == old(subPairs)
    {
      ingredients := ingredients[id := ingredient];
    }

    /** The clock moves on; it never runs backwards. */
    method AdvanceClock(day: nat)
      requires Valid() && day >= today
      modifies this
      ensures Valid()
      ensures today == day
      ensures usernames == old(usernames) && ingredients == old(ingredients) && recipes == old(recipes)
      ensures nextRecipeId == old(nextRecipeId) && joinRows == old(joinRows)
      ensures favorites == old(favorites) && toBuyLists == old(toBuyLists) && subPairs == old(subPairs)
    {
      today := day;
    }

    /**
     * `CreateRecipeSerializer.create`: the recipe under the next id, by `author`, posted
     * today, followed by `create_ingredients`' rows.
     */
    method CreateRecipe(author: UserId, data: RecipeInput) returns (id: RecipeId)
      requires Valid() && author in usernames
      requires Storable(data, ingredients.Keys) && data.image.Some?
      modifies this
      ensures Valid()
      ensures id == old(nextRecipeId) && id !in old(recipes) && nextRecipeId == id + 1
      ensures recipes == old(recipes)[id := NewRecipe(id, author, data, today)]
      ensures joinRows == old(joinRows) + JoinRows(id, data.ingredients.value)
      ensures usernames == old(usernames) && ingredients == old(ingredients) && today == old(today)
      ensures favorites == old(favorites) && toBuyLists == old(toBuyLists) && subPairs == old(subPairs)
    {
      id := nextRecipeId;
      var recipes', joinRows' := recipes[id := NewRecipe(id, author, data, today)], joinRows + JoinRows(id, data.ingredients.value);
      CreateRecipeKeepsInvariants(usernames, ingredients, recipes, nextRecipeId, today, joinRows, favorites, toBuyLists, subPairs, author, data);
      recipes, joinRows, nextRecipeId := recipes', joinRows', nextRecipeId + 1;
    }

    /**
     * `CreateRecipeSerializer.update`: the recipe's rows are deleted and the submitted
     * ones created; then the sent fields overwrite the recipe's.
     */
    method UpdateRecipe(id: RecipeId, data: RecipeInput)
      requires Valid() && id in recipes
      requires Storable(data, ingredients.Keys)
      modifies this
      ensures Valid()
      ensures recipes == old(recipes)[id := UpdatedRecipe(old(recipes)[id], data)]
      ensures joinRows == RowsWithout(old(joinRows), id) + JoinRows(id, data.ingredients.value)
      ensures usernames == old(usernames) && ingredients == old(ingredients)
      ensures nextRecipeId == old(nextRecipeId) && today == old(today)
      ensures favorites == old(favorites) && toBuyLists == old(toBuyLists) && subPairs == old(subPairs)
    {
      var recipes', joinRows' := recipes[id := UpdatedRecipe(recipes[id], data)], RowsWithout(joinRows, id) + JoinRows(id, data.ingredients.value);
      UpdateRecipeKeepsInvariants(usernames, ingredients, recipes, nextRecipeId, today, joinRows, favorites, toBuyLists, subPairs, id, data);
      recipes, joinRows := recipes', joinRows';
    }

    /** `recipe.delete()`: its rows, favorites and cart entries go with it. */
    method DeleteRecipe(id: RecipeId)
      requires Valid() && id in recipes
      modifies this
      ensures Valid()
      ensures recipes == RecipesWithout(old(recipes), id)
      ensures joinRows == RowsWithout(old(joinRows), id)
      ensures favorites == PairsWithoutRecipe(old(favorites), id)
      ensures toBuyLists == PairsWithoutRecipe(old(toBuyLists), id)
      ensures usernames == old(usernames) && ingredients == old(ingredients) && subPairs == old(subPairs)
      ensures nextRecipeId == old(nextRecipeId) && today == old(today)
    {
      var recipes', joinRows' := RecipesWithout(recipes, id), RowsWithout(joinRows, id);
      var favorites', toBuyLists' := PairsWithoutRecipe(favorites, id), PairsWithoutRecipe(toBuyLists, id);
      DeleteRecipeKeepsInvariants(usernames, ingredients, recipes, nextRecipeId, today, joinRows, favorites, toBuyLists, subPairs, id);
      assert StoreValid(usernames, ingredients, recipes', nextRecipeId, today, joinRows', favorites', toBuyLists', subPairs);
      recipes, joinRows, favorites, toBuyLists := recipes', joinRows', favorites', toBuyLists';
    }

    /**
     * `user.delete()`: the user's recipes (with their rows, favorites and cart entries),
     * the user's own favorites and cart, and every subscription on either side go with it.
     */
    method DeleteUser(user: UserId)
      requires Valid() && user in usernames
      modifies this
      ensures Valid()
      ensures usernames == old(usernames) - {user}
      ensures recipes == RecipesWithoutAuthor(old(recipes), user)
      ensures joinRows == RowsOfRecipes(old(joinRows), recipes)
      ensures favorites == PairsWithoutUser(old(favorites), user, recipes)
      ensures toBuyLists == PairsWithoutUser(old(toBuyLists), user, recipes)
      ensures subPairs == SubsWithout(old(subPairs), user)
      ensures ingredients == old(ingredients) && nextRecipeId == old(nextRecipeId) && today == old(today)
    {
      var kept := RecipesWithoutAuthor(recipes, user);
      var rows' := RowsOfRecipes(joinRows, kept);
      var favorites', toBuyLists' := PairsWithoutUser(favorites, user, kept), PairsWithoutUser(toBuyLists, user, kept);
      var subPairs' := SubsWithout(subPairs, user);
      DeleteUserKeepsInvariants(usernames, ingredients, recipes, nextRecipeId, today, joinRows, favorites, toBuyLists, subPairs, user);
      usernames, recipes, joinRows, favorites, toBuyLists, subPairs := usernames - {user}, kept, rows', favorites', toBuyLists', subPairs';
    }

    /** `SubPair.objects.create(...)`. */
    method AddSubPair(pair: SubPair)
      requires Valid() && pair.subscriber in usernames && pair.contentMaker in usernames
      requires pair.subscriber != pair.contentMaker
      modifies this
      ensures Valid()
      ensures subPairs == old(subPairs) + {pair}
      ensures usernames == old(usernames) && ingredients == old(ingredients) && recipes == old(recipes)
      ensures nextRecipeId == old(nextRecipeId) && today == old(today) && joinRows == old(joinRows)
      ensures favorites == old(favorites) && toBuyLists == old(toBuyLists)
    {
      subPairs := subPairs + {pair};
    }

    /** `subpair.delete()`. */
    method RemoveSubPair(pair: SubPair)
      requires Valid()
      modifies this
      ensures Valid()
      ensures subPairs == old(subPairs) - {pair}
      ensures usernames == old(usernames) && ingredients == old(ingredients) && recipes == old(recipes)
      ensures nextRecipeId == old(nextRecipeId) && today == old(today) && joinRows == old(joinRows)
      ensures favorites == old(favorites) && toBuyLists == old(toBuyLists)
    {
      subPairs := subPairs - {pair};
    }

    /** `model.objects.create(user=..., recipes=...)` for `Favorite` or `ToBuyList`. */
    method AddToCollection(c: Collection, pair: UserRecipe)
      requires Valid() && pair.user in usernames && pair.recipe in recipes
      modifies this
      ensures Valid()
      ensures Relation(c) == old(Relation(c)) + {pair}
      ensures c == Favorites ==> toBuyLists == old(toBuyLists)
      ensures c == ToBuyLists ==> favorites == old(favorites)
      ensures usernames == old(usernames) && ingredients == old(ingredients) && recipes == old(recipes)
      ensures nextRecipeId == old(nextRecipeId) && today == old(today) && joinRows == old(joinRows)
      ensures subPairs == old(subPairs)
    {
      match c
      case Favorites => favorites := favorites + {pair};
      case ToBuyLists => toBuyLists := toBuyLists + {pair};
    }

    /** `.delete()` on a `Favorite` or `ToBuyList` row. */
    method RemoveFromCollection(c: Collection, pair: UserRecipe)
      requires Valid()
      modifies this
      ensures Valid()
      ensures Relation(c) == old(Relation(c)) - {pair}
      ensures c == Favorites ==> toBuyLists == old(toBuyLists)
      ensures c == ToBuyLists ==> favorites == old(favorites)
      ensures usernames == old(usernames) && ingredients == old(ingredients) && recipes == old(recipes)
      ensures nextRecipeId == old(nextRecipeId) && today == old(today) && joinRows == old(joinRows)
      ensures subPairs == old(subPairs)
    {
      match c
      case Favorites => favorites := favorites - {pair};
      case ToBuyLists => toBuyLists := toBuyLists - {pair};
    }
  }
}
