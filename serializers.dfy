/**
 * The serializers' own logic (backend/api/serializers.py): the viewer-dependent flags,
 * the `recipes_limit` truncation, the recipe validator and the rows the write path
 * inserts. Serialized payloads are datatypes holding the fields the model keeps.
 */
module Serializers {
  import opened Wrappers
  import opened Seqs
  import opened Decimal
  import opened Models
  import opened Http

  // ---------------------------------------------------------------- viewer flags

  /** `get_is_subscribed`: the viewer is logged in and follows `obj`. */
  predicate IsSubscribed(viewer: Viewer, obj: UserId, subPairs: set<SubPair>)
  {
    viewer.Authenticated? && SubPair(viewer.id, obj) in subPairs
  }

  /** `_get_is_template`: the viewer is logged in and the pair (viewer, recipe) is in the relation. */
  predicate IsTemplate(viewer: Viewer, recipe: RecipeId, relation: set<UserRecipe>)
  {
    viewer.Authenticated? && UserRecipe(viewer.id, recipe) in relation
  }

  predicate IsFavorited(viewer: Viewer, recipe: RecipeId, favorites: set<UserRecipe>)
  {
    IsTemplate(viewer, recipe, favorites)
  }

  predicate IsInShoppingCart(viewer: Viewer, recipe: RecipeId, toBuyLists: set<UserRecipe>)
  {
    IsTemplate(viewer, recipe, toBuyLists)
  }

  /** The anonymous viewer sees every flag false, whatever the tables hold. */
  lemma AnonymousSeesNoFlags(obj: UserId, recipe: RecipeId, subPairs: set<SubPair>, relation: set<UserRecipe>)
    ensures !IsSubscribed(Anonymous, obj, subPairs)
    ensures !IsTemplate(Anonymous, recipe, relation)
  {
  }

  // ---------------------------------------------------------------- payloads

  /** `CutRecipeSerializer`: id, name, image and cooking time. */
  datatype RecipeSummary = RecipeSummary(id: RecipeId, name: string, image: ImageRef, cookingTime: int)

  function CutRecipe(r: Recipe): RecipeSummary
  {
    RecipeSummary(r.id, r.name, r.image, r.cookingTime)
  }

  function CutRecipes(rs: seq<Recipe>): (r: seq<RecipeSummary>)
    ensures |r| == |rs|
    ensures forall i :: 0 <= i < |rs| ==> r[i] == CutRecipe(rs[i])
  {
    if rs == [] then [] else [CutRecipe(rs[0])] + CutRecipes(rs[1..])
  }

  /** The profile part of `UserSerializer` that the model keeps. */
  datatype UserData = UserData(id: UserId, username: string, isSubscribed: bool)

  function SerializeUser(viewer: Viewer, user: UserId, username: string, subPairs: set<SubPair>): UserData
  {
    UserData(user, username, IsSubscribed(viewer, user, subPairs))
  }

  /** `SubscriberSerializer`: the profile, the (possibly truncated) recipes and their total count. */
  datatype SubscriberData = SubscriberData(user: UserData, recipes: seq<RecipeSummary>, recipesCount: nat)

  function SerializeSubscriber(
    viewer: Viewer, author: UserId, username: string, subPairs: set<SubPair>,
    authorRecipes: seq<Recipe>, recipesLimit: Option<string>): (d: SubscriberData)
    ensures d.user.id == author && d.user.username == username
    ensures d.user.isSubscribed <==> IsSubscribed(viewer, author, subPairs)
    ensures d.recipes == GetRecipes(authorRecipes, recipesLimit)
    ensures d.recipesCount == |authorRecipes|
    ensures |d.recipes| <= d.recipesCount
  {
    SubscriberData(
      SerializeUser(viewer, author, username, subPairs),
      GetRecipes(authorRecipes, recipesLimit),
      |authorRecipes|)
  }

  /** `IngredientInRecipeSerializer`. */
  datatype IngredientData = IngredientData(id: IngredientId, name: string, measurementUnit: string, amount: int)

  /** `RecipeSerializer`. */
  datatype RecipeData = RecipeData(
    id: RecipeId,
    author: UserData,
    ingredients: seq<IngredientData>,
    isFavorited: bool,
    isInShoppingCart: bool,
    name: string,
    image: ImageRef,
    text: string,
    cookingTime: int)

  function IngredientsData(rows: seq<IngredientInRecipe>, catalogue: map<IngredientId, Ingredient>): (r: seq<IngredientData>)
    requires forall i :: 0 <= i < |rows| ==> rows[i].ingredient in catalogue
    ensures |r| == |rows|
    ensures forall i :: 0 <= i < |rows| ==>
      r[i] == IngredientData(rows[i].ingredient, catalogue[rows[i].ingredient].name,
                             catalogue[rows[i].ingredient].measurementUnit, rows[i].amount)
  {
    if rows == [] then []
    else
      var ing := catalogue[rows[0].ingredient];
      [IngredientData(rows[0].ingredient, ing.name, ing.measurementUnit, rows[0].amount)]
        + IngredientsData(rows[1..], catalogue)
  }

  function SerializeRecipe(
    viewer: Viewer, recipe: Recipe, authorName: string, rows: seq<IngredientInRecipe>,
    catalogue: map<IngredientId, Ingredient>,
    favorites: set<UserRecipe>, toBuyLists: set<UserRecipe>, subPairs: set<SubPair>): (d: RecipeData)
    requires forall i :: 0 <= i < |rows| ==> rows[i].ingredient in catalogue
    ensures d.id == recipe.id
    ensures d.author.id == recipe.author && d.author.username == authorName
    ensures d.author.isSubscribed <==> IsSubscribed(viewer, recipe.author, subPairs)
    ensures d.ingredients == IngredientsData(RowsOf(rows, recipe.id), catalogue)
    ensures |d.ingredients| == |RowsOf(rows, recipe.id)|
    ensures d.name == recipe.name && d.image == recipe.image && d.text == recipe.text
    ensures d.cookingTime == recipe.cookingTime
    ensures d.isFavorited <==> IsFavorited(viewer, recipe.id, favorites)
    ensures d.isInShoppingCart <==> IsInShoppingCart(viewer, recipe.id, toBuyLists)
  {
    RecipeData(
      recipe.id,
      SerializeUser(viewer, recipe.author, authorName, subPairs),
      IngredientsData(RowsOf(rows, recipe.id), catalogue),
      IsFavorited(viewer, recipe.id, favorites),
      IsInShoppingCart(viewer, recipe.id, toBuyLists),
      recipe.name, recipe.image, recipe.text, recipe.cookingTime)
  }

  // ---------------------------------------------------------------- recipes_limit

  /**
   * The slice `get_recipes` takes of an author's recipes. A missing or empty parameter
   * leaves the list whole; so does one that `int()` rejects, and a negative one, whose
   * slice the queryset refuses with `ValueError`; both errors are swallowed.
   */
  function LimitRecipes<T>(recipes: seq<T>, recipesLimit: Option<string>): (r: seq<T>)
    ensures |r| <= |recipes| && r == recipes[..|r|]
    ensures recipesLimit.Some? && recipesLimit.value != [] && ParseInt(recipesLimit.value).Some?
            && ParseInt(recipesLimit.value).value >= 0
        ==> |r| == Min(ParseInt(recipesLimit.value).value, |recipes|)
    ensures recipesLimit.None? || recipesLimit.value == [] || ParseInt(recipesLimit.value).None?
            || ParseInt(recipesLimit.value).value < 0
        ==> r == recipes
  {
    if recipesLimit.None? || recipesLimit.value == [] then recipes
    else match ParseInt(recipesLimit.value)
      case None => recipes
      case Some(n) => if n < 0 then recipes else recipes[..Min(n, |recipes|)]
  }

  function Min(a: int, b: int): int
  {
    if a < b then a else b
  }

  /** `get_recipes`: the truncated recipes, serialized by `CutRecipeSerializer`. */
  function GetRecipes(recipes: seq<Recipe>, recipesLimit: Option<string>): (r: seq<RecipeSummary>)
    ensures |r| == |LimitRecipes(recipes, recipesLimit)| <= |recipes|
    ensures forall i :: 0 <= i < |r| ==> r[i] == CutRecipe(recipes[i])
  {
    CutRecipes(LimitRecipes(recipes, recipesLimit))
  }

  /**
   * `recipes_limit` over an author's recipes in the model's order: a limit of `n` shows the
   * author's `n` newest recipes (or all of them), each newer than every recipe left out.
   */
  lemma LimitShowsNewest(
    recipes: map<RecipeId, Recipe>, bound: nat, author: UserId, n: nat,
    viewer: Viewer, username: string, subPairs: set<SubPair>)
    requires KeyedById(recipes)
    ensures var all := RecipesBy(recipes, bound, author);
      var d := SerializeSubscriber(viewer, author, username, subPairs, all, Some(NatToString(n)));
      && |d.recipes| == Min(n, |all|)
      && (forall i :: 0 <= i < |d.recipes| ==> d.recipes[i] == CutRecipe(all[i]))
      && (forall i, k ::
            (0 <= i < |d.recipes| && k in recipes && k < bound && recipes[k].author == author &&
             recipes[k] !in all[..|d.recipes|]) ==> d.recipes[i].id > k)
  {
    var all := RecipesBy(recipes, bound, author);
    var shown := GetRecipes(all, Some(NatToString(n)));
    LimitByNumber(all, n);
    assert |shown| == Min(n, |all|);
    forall i, k | 0 <= i < |shown| && k in recipes && k < bound && recipes[k].author == author &&
        recipes[k] !in all[..|shown|]
      ensures shown[i].id > k
    {
      PrefixIsNewer(all, |shown|, i, recipes[k]);
    }
  }

  /** In a list of strictly decreasing ids, a prefix holds only ids above those it leaves out. */
  lemma PrefixIsNewer(all: seq<Recipe>, m: nat, i: nat, x: Recipe)
    requires forall a, b :: 0 <= a < b < |all| ==> all[a].id > all[b].id
    requires i < m <= |all| && x in all && x !in all[..m]
    ensures all[i].id > x.id
  {
    var j :| 0 <= j < |all| && all[j] == x;
    assert j >= m;
  }

  /** A limit written as a number gives exactly the first that many recipes. */
  lemma {:induction false} LimitByNumber<T>(recipes: seq<T>, n: nat)
    ensures LimitRecipes(recipes, Some(NatToString(n))) == recipes[..Min(n, |recipes|)]
  {
    ParseIntOfIntToString(n);
    assert IntToString(n) == NatToString(n);
  }

  /** A limit holding anything but whitespace, sign, digits or underscores is ignored. */
  lemma {:induction false} LimitIgnoresNonInteger<T>(recipes: seq<T>, limit: string, k: nat)
    requires k < |limit|
    requires !IsSpace(limit[k]) && !IsDigit(limit[k]) && limit[k] != '_' && !IsSign(limit[k])
    ensures LimitRecipes(recipes, Some(limit)) == recipes
  {
    ParseIntRejectsForeignChar(limit, k);
  }

  // ---------------------------------------------------------------- validation

  /** One submitted ingredient: `{"id": ..., "amount": ...}`. */
  datatype IngredientEntry = IngredientEntry(ingredient: IngredientId, amount: int)

  /**
   * The fields a recipe write submits. `image` is `None` when the field is not sent at
   * all and `Some("")` for an empty payload; `ingredients` is `None` when not sent.
   */
  datatype RecipeInput = RecipeInput(
    name: string,
    image: Option<ImageRef>,
    text: string,
    ingredients: Option<seq<IngredientEntry>>,
    cookingTime: int)

  /** A validation error scoped to one field. */
  datatype FieldError = FieldError(field: string, message: string)

  const REQUIRED_FIELD: string := "Required field"
  const INGREDIENTS_SHOULD_NOT_REPEAT: string := "Ingredients should not repeat!"
  /** Stands for the wording of an error the framework reports from a model field's validators. */
  const FIELD_INVALID: string := "invalid"
  /** The framework's `blank` error of a text field that may not be blank. */
  const BLANK: string := "This field may not be blank."

  function IngredientIds(entries: seq<IngredientEntry>): (ids: seq<IngredientId>)
    ensures |ids| == |entries|
    ensures forall i :: 0 <= i < |entries| ==> ids[i] == entries[i].ingredient
  {
    if entries == [] then [] else [entries[0].ingredient] + IngredientIds(entries[1..])
  }

  /**
   * `validate`: the ingredient list must be present and non-empty, and its ingredient ids
   * must not repeat (`len(ids) != len(set(ids))`). Otherwise the data pass unchanged.
   */
  function Validate(data: RecipeInput): (r: Result<RecipeInput, FieldError>)
    ensures r.Success? <==>
      data.ingredients.Some? && data.ingredients.value != [] && Distinct(IngredientIds(data.ingredients.value))
    ensures r.Success? ==> r.value == data
    ensures data.ingredients.None? || data.ingredients.value == [] ==>
      r == Failure(FieldError("ingredients", REQUIRED_FIELD))
    ensures data.ingredients.Some? && data.ingredients.value != [] && !Distinct(IngredientIds(data.ingredients.value)) ==>
      r == Failure(FieldError("ingredients", INGREDIENTS_SHOULD_NOT_REPEAT))
  {
    if data.ingredients.None? || data.ingredients.value == [] then
      Failure(FieldError("ingredients", REQUIRED_FIELD))
    else
      var ids := IngredientIds(data.ingredients.value);
      DistinctIffNoCollapse(ids);
      if |ids| != |Elements(ids)| then Failure(FieldError("ingredients", INGREDIENTS_SHOULD_NOT_REPEAT))
      else Success(data)
  }

  /** `validate_image`: a falsy upload (an empty file name) is refused. */
  function ValidateImage(value: ImageRef): (r: Result<ImageRef, FieldError>)
    ensures r.Success? <==> value != ""
    ensures r.Success? ==> r.value == value
    ensures r.Failure? ==> r.error == FieldError("image", REQUIRED_FIELD)
  {
    if value == "" then Failure(FieldError("image", REQUIRED_FIELD)) else Success(value)
  }

  /** The checks the framework derives from the model's fields for one ingredient entry. */
  predicate EntryAcceptable(e: IngredientEntry, catalogue: set<IngredientId>)
  {
    e.ingredient in catalogue && ValidAmount(e.amount)
  }

  function EntryErrors(entries: seq<IngredientEntry>, catalogue: set<IngredientId>): (errs: seq<FieldError>)
    ensures errs == [] <==> forall i :: 0 <= i < |entries| ==> EntryAcceptable(entries[i], catalogue)
  {
    if entries == [] then []
    else
      (if EntryAcceptable(entries[0], catalogue) then [] else [FieldError("ingredients", FIELD_INVALID)])
        + EntryErrors(entries[1..], catalogue)
  }

  /**
   * The model's `name` and `text` become text fields of the serializer with
   * `trim_whitespace=True`: the values kept are the submitted ones without surrounding
   * whitespace.
   */
  function Trimmed(data: RecipeInput): RecipeInput
  {
    data.(name := Strip(data.name), text := Strip(data.text))
  }

  /**
   * Field-level validation, run before `validate`: the name and text (the model's text
   * fields may not be blank once trimmed), then the other fields.
   */
  function FieldErrors(data: RecipeInput, catalogue: set<IngredientId>, partial: bool): (errs: seq<FieldError>)
    ensures Strip(data.name) == "" ==> FieldError("name", BLANK) in errs
    ensures Strip(data.text) == "" ==> FieldError("text", BLANK) in errs
    ensures errs == [] <==>
      Strip(data.name) != "" && Strip(data.text) != "" && OtherFieldErrors(data, catalogue, partial) == []
  {
    var nameErrors := if Strip(data.name) == "" then [FieldError("name", BLANK)] else [];
    var textErrors := if Strip(data.text) == "" then [FieldError("text", BLANK)] else [];
    var errs := nameErrors + textErrors + OtherFieldErrors(data, catalogue, partial);
    assert nameErrors != [] ==> errs[0] == nameErrors[0];
    assert textErrors != [] ==> errs[|nameErrors|] == textErrors[0];
    errs
  }

  /**
   * The field errors of the image (`validate_image`), the ingredient entries (known
   * ingredient, amount within the model's bounds) and the cooking time. In a partial update
   * an absent image or ingredient list is skipped; otherwise it is required.
   */
  function OtherFieldErrors(data: RecipeInput, catalogue: set<IngredientId>, partial: bool): (errs: seq<FieldError>)
    ensures errs == [] <==>
      && (data.image.None? ==> partial)
      && (data.image.Some? ==> data.image.value != "")
      && (data.ingredients.None? ==> partial)
      && (data.ingredients.Some? ==>
            forall i :: 0 <= i < |data.ingredients.value| ==> EntryAcceptable(data.ingredients.value[i], catalogue))
      && ValidCookingTime(data.cookingTime)
  {
    (match data.image
     case None => if partial then [] else [FieldError("image", FIELD_INVALID)]
     case Some(v) => if ValidateImage(v).Failure? then [ValidateImage(v).error] else [])
    + (match data.ingredients
       case None => if partial then [] else [FieldError("ingredients", FIELD_INVALID)]
       case Some(es) => EntryErrors(es, catalogue))
    + (if ValidCookingTime(data.cookingTime) then [] else [FieldError("cooking_time", FIELD_INVALID)])
  }

  /** What the write path may store: every model invariant of a recipe and its rows holds. */
  predicate Storable(data: RecipeInput, catalogue: set<IngredientId>)
  {
    && data.ingredients.Some?
    && data.ingredients.value != []
    && Distinct(IngredientIds(data.ingredients.value))
    && (forall i :: 0 <= i < |data.ingredients.value| ==> EntryAcceptable(data.ingredients.value[i], catalogue))
    && ValidCookingTime(data.cookingTime)
    && (data.image.Some? ==> data.image.value != "")
    && data.name != ""
    && data.text != ""
  }

  /**
   * `is_valid()`: field-level errors first; if there are none, `validate`. Data pass
   * exactly when, trimmed, they are storable (and, outside a partial update, carry an
   * image); the validated data are the trimmed ones, so a stored name or text is never
   * blank and has no surrounding whitespace.
   */
  function RunValidation(data: RecipeInput, catalogue: set<IngredientId>, partial: bool): (r: Result<RecipeInput, seq<FieldError>>)
    ensures r.Success? <==> Storable(Trimmed(data), catalogue) && (partial || data.image.Some?)
    ensures r.Success? ==> r.value == Trimmed(data)
    ensures r.Success? ==> r.value.name != "" && Strip(r.value.name) == r.value.name
    ensures r.Success? ==> r.value.text != "" && Strip(r.value.text) == r.value.text
    ensures Strip(data.name) == "" ==> r.Failure? && FieldError("name", BLANK) in r.error
    ensures Strip(data.text) == "" ==> r.Failure? && FieldError("text", BLANK) in r.error
    ensures r.Failure? ==> r.error != []
  {
    var errs := FieldErrors(data, catalogue, partial);
    var trimmed := Trimmed(data);
    assert trimmed.ingredients == data.ingredients && trimmed.image == data.image;
    assert trimmed.cookingTime == data.cookingTime;
    assert trimmed.name == Strip(data.name) && trimmed.text == Strip(data.text);
    if errs != [] then Failure(errs)
    else
      StripIdempotent(data.name);
      StripIdempotent(data.text);
      match Validate(trimmed)
      case Failure(e) => Failure([e])
      case Success(d) => Success(d)
  }

  // ---------------------------------------------------------------- rows to insert

  /** `create_ingredients`: one join row per submitted entry, bound to `recipe`. */
  function JoinRows(recipe: RecipeId, entries: seq<IngredientEntry>): (rows: seq<IngredientInRecipe>)
    ensures |rows| == |entries|
    ensures forall i :: 0 <= i < |entries| ==>
      rows[i] == IngredientInRecipe(recipe, entries[i].ingredient, entries[i].amount)
  {
    if entries == [] then [] else [IngredientInRecipe(recipe, entries[0].ingredient, entries[0].amount)] + JoinRows(recipe, entries[1..])
  }

  /** Rows built from distinct ingredient ids satisfy `Unique_IngredientInRecipe`. */
  lemma JoinRowsUnique(recipe: RecipeId, entries: seq<IngredientEntry>)
    requires Distinct(IngredientIds(entries))
    ensures UniqueIngredientRows(JoinRows(recipe, entries))
  {
    var rows := JoinRows(recipe, entries);
    var ids := IngredientIds(entries);
    forall i, j | 0 <= i < j < |rows| ensures rows[i].ingredient != rows[j].ingredient {
      assert ids[i] != ids[j];
    }
  }
}
