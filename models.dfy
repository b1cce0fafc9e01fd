/**
 * The tables of the recipe store (backend/recipes/models.py) as values: users are
 * identified by id, ingredients are reference data, a recipe belongs to its author, the
 * join rows carry an amount, and the three relations are sets of pairs.
 */
module Models {
  import opened Seqs

  type UserId = nat
  type RecipeId = nat
  type IngredientId = nat

  /** A stored image file, referred to by its path. */
  type ImageRef = string

  /** `constant.ING_IN_REC_AMOUNT_LIMIT_VALUE`: the least amount of an ingredient in a recipe. */
  const ING_IN_REC_AMOUNT_LIMIT_VALUE: int := 1
  /** `constant.RECIPE_COOKING_TIME_LIMIT_VALUE`: the least cooking time, in minutes. */
  const RECIPE_COOKING_TIME_LIMIT_VALUE: int := 1
  /** The largest value of a `PositiveSmallIntegerField`. */
  const POSITIVE_SMALL_INT_MAX: int := 32767

  datatype Ingredient = Ingredient(name: string, measurementUnit: string)

  datatype Recipe = Recipe(
    id: RecipeId,
    author: UserId,
    name: string,
    image: ImageRef,
    text: string,
    cookingTime: int,
    postingDate: nat)

  /** A row of the recipe/ingredient join table. */
  datatype IngredientInRecipe = IngredientInRecipe(recipe: RecipeId, ingredient: IngredientId, amount: int)

  /** `SubPair`: `subscriber` follows `contentMaker`. */
  datatype SubPair = SubPair(subscriber: UserId, contentMaker: UserId)

  /** A row of `Favorite` or of `ToBuyList` (both are `AbstractUserRecipe`). */
  datatype UserRecipe = UserRecipe(user: UserId, recipe: RecipeId)

  /** The two user/recipe relations, told apart by the collection they stand for. */
  datatype Collection = Favorites | ToBuyLists

  /** `amount`'s validators: at least the limit value, and within the small-integer column. */
  predicate ValidAmount(amount: int)
  {
    ING_IN_REC_AMOUNT_LIMIT_VALUE <= amount <= POSITIVE_SMALL_INT_MAX
  }

  /** `cooking_time`'s validators. */
  predicate ValidCookingTime(minutes: int)
  {
    RECIPE_COOKING_TIME_LIMIT_VALUE <= minutes <= POSITIVE_SMALL_INT_MAX
  }

  /** `Unique_IngredientInRecipe`: at most one row per (recipe, ingredient). */
  predicate UniqueIngredientRows(rows: seq<IngredientInRecipe>)
  {
    forall i, j :: 0 <= i < j < |rows| ==>
      rows[i].recipe != rows[j].recipe || rows[i].ingredient != rows[j].ingredient
  }

  /** The join rows of one recipe, in table order (`recipe.recipe_ingredient.all()`). */
  function RowsOf(rows: seq<IngredientInRecipe>, recipe: RecipeId): (r: seq<IngredientInRecipe>)
    ensures forall row :: row in r ==> row.recipe == recipe && row in rows
    ensures forall row :: row in rows && row.recipe == recipe ==> row in r
  {
    Keep(rows, (row: IngredientInRecipe) => row.recipe == recipe)
  }

  /** Every stored recipe sits under its own id. */
  predicate KeyedById(recipes: map<RecipeId, Recipe>)
  {
    forall k :: k in recipes ==> recipes[k].id == k
  }

  /**
   * The recipes whose ids are below `bound`, newest first (`ordering = ('-posting_time',)`):
   * ids are handed out in creation order, so newest first is descending id.
   */
  function NewestFirst(recipes: map<RecipeId, Recipe>, bound: nat): (r: seq<Recipe>)
    requires KeyedById(recipes)
    ensures forall i :: 0 <= i < |r| ==> r[i].id in recipes && r[i].id < bound && recipes[r[i].id] == r[i]
    ensures forall k :: k in recipes && k < bound ==> recipes[k] in r
    ensures forall i, j :: 0 <= i < j < |r| ==> r[i].id > r[j].id
  {
    if bound == 0 then []
    else (if bound - 1 in recipes then [recipes[bound - 1]] else []) + NewestFirst(recipes, bound - 1)
  }

  /** Posting dates never decrease as ids grow: the clock does not run backwards. */
  predicate DatesFollowIds(recipes: map<RecipeId, Recipe>)
  {
    forall a, b :: a in recipes && b in recipes && a < b ==> recipes[a].postingDate <= recipes[b].postingDate
  }

  /** The newest-first listing is ordered by descending posting date, as the model's ordering promises. */
  lemma NewestFirstByPostingDate(recipes: map<RecipeId, Recipe>, bound: nat)
    requires KeyedById(recipes) && DatesFollowIds(recipes)
    ensures var r := NewestFirst(recipes, bound);
      forall i, j :: 0 <= i < j < |r| ==> r[i].postingDate >= r[j].postingDate
  {
    var r := NewestFirst(recipes, bound);
    forall i, j | 0 <= i < j < |r| ensures r[i].postingDate >= r[j].postingDate {
      assert recipes[r[j].id] == r[j] && recipes[r[i].id] == r[i];
    }
  }

  /** Listing ids strictly decrease. */
  predicate IdAbove(a: Recipe, b: Recipe)
  {
    a.id > b.id
  }

  /** The stored recipes below `bound` that pass `p`: all of them, newest first. */
  function ListingWhere(recipes: map<RecipeId, Recipe>, bound: nat, p: Recipe -> bool): (r: seq<Recipe>)
    requires KeyedById(recipes)
    ensures forall i :: 0 <= i < |r| ==> r[i].id in recipes && recipes[r[i].id] == r[i] && p(r[i])
    ensures forall k :: k in recipes && k < bound && p(recipes[k]) ==> recipes[k] in r
    ensures Ordered(r, IdAbove)
  {
    var listing := NewestFirst(recipes, bound);
    KeepOrdered(listing, p, IdAbove);
    var r := Keep(listing, p);
    assert forall k :: k in recipes && k < bound && p(recipes[k]) ==> recipes[k] in r by {
      forall k | k in recipes && k < bound && p(recipes[k]) ensures recipes[k] in r {
        var i :| 0 <= i < |listing| && listing[i] == recipes[k];
      }
    }
    r
  }

  /** `author.recipes.all()`: an author's recipes, newest first. */
  function RecipesBy(recipes: map<RecipeId, Recipe>, bound: nat, author: UserId): (r: seq<Recipe>)
    requires KeyedById(recipes)
    ensures forall i :: 0 <= i < |r| ==> r[i].author == author && r[i].id in recipes && recipes[r[i].id] == r[i]
    ensures forall k :: k in recipes && k < bound && recipes[k].author == author ==> recipes[k] in r
    ensures forall i, j :: 0 <= i < j < |r| ==> r[i].id > r[j].id
  {
    var r := ListingWhere(recipes, bound, (x: Recipe) => x.author == author);
    IdsDescend(r);
    r
  }

  /** A listing ordered by `IdAbove` has strictly decreasing ids. */
  lemma IdsDescend(r: seq<Recipe>)
    requires Ordered(r, IdAbove)
    ensures forall i, j :: 0 <= i < j < |r| ==> r[i].id > r[j].id
  {
    forall i, j | 0 <= i < j < |r| ensures r[i].id > r[j].id {
      assert IdAbove(r[i], r[j]);
    }
  }
}
