/**
 * `RecipeFilter` (backend/api/filters.py): the recipe listing narrowed by author and by
 * the two viewer flags. Each filter keeps the order of the listing it is given.
 */
module Filters {
  import opened Wrappers
  import opened Seqs
  import opened Decimal
  import opened Models
  import opened Http
  import opened Serializers

  /** `filter_is_favorited`: only a true flag from a logged-in viewer narrows the listing. */
  function FilterIsFavorited(queryset: seq<Recipe>, viewer: Viewer, value: bool, favorites: set<UserRecipe>): (r: seq<Recipe>)
    ensures !value || viewer.Anonymous? ==> r == queryset
    ensures value && viewer.Authenticated? ==>
      (forall x :: x in r ==> x in queryset && UserRecipe(viewer.id, x.id) in favorites)
      && (forall x :: x in queryset && UserRecipe(viewer.id, x.id) in favorites ==> x in r)
  {
    if value && viewer.Authenticated? then
      Keep(queryset, (x: Recipe) => UserRecipe(viewer.id, x.id) in favorites)
    else queryset
  }

  /** `filter_is_in_shopping_cart`: the same, against the shopping cart. */
  function FilterIsInShoppingCart(queryset: seq<Recipe>, viewer: Viewer, value: bool, toBuyLists: set<UserRecipe>): (r: seq<Recipe>)
    ensures !value || viewer.Anonymous? ==> r == queryset
    ensures value && viewer.Authenticated? ==>
      (forall x :: x in r ==> x in queryset && UserRecipe(viewer.id, x.id) in toBuyLists)
      && (forall x :: x in queryset && UserRecipe(viewer.id, x.id) in toBuyLists ==> x in r)
  {
    if value && viewer.Authenticated? then
      Keep(queryset, (x: Recipe) => UserRecipe(viewer.id, x.id) in toBuyLists)
    else queryset
  }

  /** The generated `author` filter: exact match on the author's id. */
  function FilterAuthor(queryset: seq<Recipe>, author: UserId): (r: seq<Recipe>)
    ensures forall x :: x in r ==> x in queryset && x.author == author
    ensures forall x :: x in queryset && x.author == author ==> x in r
  {
    Keep(queryset, (x: Recipe) => x.author == author)
  }

  /** The query parameters `author`, `is_favorited` and `is_in_shopping_cart`; `None` when absent. */
  datatype RecipeQuery = RecipeQuery(author: Option<UserId>, isFavorited: Option<bool>, isInShoppingCart: Option<bool>)

  /** The parameters as the request sends them; the two flags arrive already read as booleans. */
  datatype RawQuery = RawQuery(author: Option<string>, isFavorited: Option<bool>, isInShoppingCart: Option<bool>)

  /** The error the filter form reports for an `author` that names no user. */
  const INVALID_CHOICE: string := "Select a valid choice. That choice is not one of the available choices."

  /**
   * The `author` field of the filter form (a user choice, since `author` is a foreign key):
   * an absent or empty value sets no filter; any other value must read as an integer
   * (`int()`) that is the id of an existing user, or the form is invalid.
   */
  function CleanAuthor(raw: Option<string>, users: set<UserId>): (r: Result<Option<UserId>, FieldError>)
    ensures raw.None? || raw.value == "" ==> r == Success(None)
    ensures raw.Some? && raw.value != "" ==>
      (r.Success? <==> exists u :: u in users && ParseInt(raw.value) == Some(u as int))
    ensures r.Success? && r.value.Some? ==>
      raw.Some? && r.value.value in users && ParseInt(raw.value) == Some(r.value.value as int)
    ensures r.Failure? ==> r.error == FieldError("author", INVALID_CHOICE)
  {
    if raw.None? || raw.value == "" then Success(None)
    else match ParseInt(raw.value)
      case Some(n) =>
        if n >= 0 && n as UserId in users then Success(Some(n as UserId))
        else Failure(FieldError("author", INVALID_CHOICE))
      case None => Failure(FieldError("author", INVALID_CHOICE))
  }

  /** A user's id written in decimal selects that user; an id naming no user is refused. */
  lemma {:induction false} CleanAuthorOfId(u: UserId, users: set<UserId>)
    ensures u in users ==> CleanAuthor(Some(NatToString(u)), users) == Success(Some(u))
    ensures u !in users ==> CleanAuthor(Some(NatToString(u)), users) == Failure(FieldError("author", INVALID_CHOICE))
  {
    ParseIntOfIntToString(u);
    assert IntToString(u) == NatToString(u);
  }

  /** The filter form: valid exactly when its `author` field is. */
  function CleanQuery(raw: RawQuery, users: set<UserId>): (r: Result<RecipeQuery, FieldError>)
    ensures r.Success? <==> CleanAuthor(raw.author, users).Success?
    ensures r.Success? ==> r.value == RecipeQuery(CleanAuthor(raw.author, users).value, raw.isFavorited, raw.isInShoppingCart)
    ensures r.Failure? ==> r.error == CleanAuthor(raw.author, users).error
  {
    match CleanAuthor(raw.author, users)
    case Success(author) => Success(RecipeQuery(author, raw.isFavorited, raw.isInShoppingCart))
    case Failure(e) => Failure(e)
  }

  /** The `author` parameter, when present. */
  function ByAuthor(queryset: seq<Recipe>, query: RecipeQuery): seq<Recipe>
  {
    if query.author.Some? then FilterAuthor(queryset, query.author.value) else queryset
  }

  /** The `is_favorited` parameter, when present. */
  function ByFavorite(queryset: seq<Recipe>, query: RecipeQuery, viewer: Viewer, favorites: set<UserRecipe>): seq<Recipe>
  {
    if query.isFavorited.Some? then FilterIsFavorited(queryset, viewer, query.isFavorited.value, favorites) else queryset
  }

  /** The `is_in_shopping_cart` parameter, when present. */
  function ByCart(queryset: seq<Recipe>, query: RecipeQuery, viewer: Viewer, toBuyLists: set<UserRecipe>): seq<Recipe>
  {
    if query.isInShoppingCart.Some? then FilterIsInShoppingCart(queryset, viewer, query.isInShoppingCart.value, toBuyLists) else queryset
  }

  /** The filter set: each parameter present is applied in turn, in the order of `Meta.fields`. */
  function FilterRecipes(
    queryset: seq<Recipe>, query: RecipeQuery, viewer: Viewer,
    favorites: set<UserRecipe>, toBuyLists: set<UserRecipe>): seq<Recipe>
  {
    ByCart(ByFavorite(ByAuthor(queryset, query), query, viewer, favorites), query, viewer, toBuyLists)
  }

  /** What each parameter asks of one recipe. */
  predicate AuthorOk(x: Recipe, query: RecipeQuery)
  {
    query.author.Some? ==> x.author == query.author.value
  }

  predicate FavoriteOk(x: Recipe, query: RecipeQuery, viewer: Viewer, favorites: set<UserRecipe>)
  {
    query.isFavorited == Some(true) && viewer.Authenticated? ==> IsFavorited(viewer, x.id, favorites)
  }

  predicate CartOk(x: Recipe, query: RecipeQuery, viewer: Viewer, toBuyLists: set<UserRecipe>)
  {
    query.isInShoppingCart == Some(true) && viewer.Authenticated? ==> IsInShoppingCart(viewer, x.id, toBuyLists)
  }

  /** Whether one recipe passes every filter the query asks for. */
  predicate Selected(
    x: Recipe, query: RecipeQuery, viewer: Viewer,
    favorites: set<UserRecipe>, toBuyLists: set<UserRecipe>)
  {
    AuthorOk(x, query) && FavoriteOk(x, query, viewer, favorites) && CartOk(x, query, viewer, toBuyLists)
  }

  lemma ByAuthorKeeps(queryset: seq<Recipe>, query: RecipeQuery)
    ensures ByAuthor(queryset, query) == Keep(queryset, (x: Recipe) => AuthorOk(x, query))
  {
    if query.author.Some? {
      KeepCongruent(queryset, (x: Recipe) => x.author == query.author.value, (x: Recipe) => AuthorOk(x, query));
    } else {
      KeepAll(queryset, (x: Recipe) => AuthorOk(x, query));
    }
  }

  lemma ByFavoriteKeeps(queryset: seq<Recipe>, query: RecipeQuery, viewer: Viewer, favorites: set<UserRecipe>)
    ensures ByFavorite(queryset, query, viewer, favorites) == Keep(queryset, (x: Recipe) => FavoriteOk(x, query, viewer, favorites))
  {
    var p := (x: Recipe) => FavoriteOk(x, query, viewer, favorites);
    if query.isFavorited == Some(true) && viewer.Authenticated? {
      KeepCongruent(queryset, (x: Recipe) => UserRecipe(viewer.id, x.id) in favorites, p);
    } else {
      KeepAll(queryset, p);
    }
  }

  lemma ByCartKeeps(queryset: seq<Recipe>, query: RecipeQuery, viewer: Viewer, toBuyLists: set<UserRecipe>)
    ensures ByCart(queryset, query, viewer, toBuyLists) == Keep(queryset, (x: Recipe) => CartOk(x, query, viewer, toBuyLists))
  {
    var p := (x: Recipe) => CartOk(x, query, viewer, toBuyLists);
    if query.isInShoppingCart == Some(true) && viewer.Authenticated? {
      KeepCongruent(queryset, (x: Recipe) => UserRecipe(viewer.id, x.id) in toBuyLists, p);
    } else {
      KeepAll(queryset, p);
    }
  }

  /**
   * Combining the filters is the intersection of what each keeps: the result is the
   * listing restricted to the recipes every filter accepts, in the listing's order.
   */
  lemma FilterRecipesIsIntersection(
    queryset: seq<Recipe>, query: RecipeQuery, viewer: Viewer,
    favorites: set<UserRecipe>, toBuyLists: set<UserRecipe>)
    ensures FilterRecipes(queryset, query, viewer, favorites, toBuyLists)
         == Keep(queryset, (x: Recipe) => Selected(x, query, viewer, favorites, toBuyLists))
  {
    var pa := (x: Recipe) => AuthorOk(x, query);
    var pf := (x: Recipe) => FavoriteOk(x, query, viewer, favorites);
    var pc := (x: Recipe) => CartOk(x, query, viewer, toBuyLists);
    var paf := (x: Recipe) => AuthorOk(x, query) && FavoriteOk(x, query, viewer, favorites);
    var all := (x: Recipe) => Selected(x, query, viewer, favorites, toBuyLists);
    var byAuthor := ByAuthor(queryset, query);
    var byFavorite := ByFavorite(byAuthor, query, viewer, favorites);
    ByAuthorKeeps(queryset, query);
    ByFavoriteKeeps(byAuthor, query, viewer, favorites);
    KeepKeep(queryset, pa, pf, paf);
    assert byFavorite == Keep(queryset, paf);
    ByCartKeeps(byFavorite, query, viewer, toBuyLists);
    KeepKeep(queryset, paf, pc, all);
  }

  /**
   * The listing filter and the serialized flag agree: for a logged-in viewer, a recipe of
   * the listing survives `is_favorited=1` exactly when its `is_favorited` field is true.
   */
  lemma FavoriteFilterAgreesWithFlag(queryset: seq<Recipe>, viewer: Viewer, favorites: set<UserRecipe>, k: nat)
    requires viewer.Authenticated? && k < |queryset|
    ensures queryset[k] in FilterIsFavorited(queryset, viewer, true, favorites)
        <==> IsFavorited(viewer, queryset[k].id, favorites)
  {
    var r := FilterIsFavorited(queryset, viewer, true, favorites);
    if queryset[k] in r {
      var i :| 0 <= i < |r| && r[i] == queryset[k];
      assert UserRecipe(viewer.id, r[i].id) in favorites;
    }
  }

  /** The same agreement for the shopping cart. */
  lemma CartFilterAgreesWithFlag(queryset: seq<Recipe>, viewer: Viewer, toBuyLists: set<UserRecipe>, k: nat)
    requires viewer.Authenticated? && k < |queryset|
    ensures queryset[k] in FilterIsInShoppingCart(queryset, viewer, true, toBuyLists)
        <==> IsInShoppingCart(viewer, queryset[k].id, toBuyLists)
  {
    var r := FilterIsInShoppingCart(queryset, viewer, true, toBuyLists);
    if queryset[k] in r {
      var i :| 0 <= i < |r| && r[i] == queryset[k];
      assert UserRecipe(viewer.id, r[i].id) in toBuyLists;
    }
  }

  /** Each filter returns a subsequence of its input, so the listing order survives. */
  lemma FilterRecipesKeepsOrder(
    queryset: seq<Recipe>, query: RecipeQuery, viewer: Viewer,
    favorites: set<UserRecipe>, toBuyLists: set<UserRecipe>)
    ensures IsSubsequence(FilterRecipes(queryset, query, viewer, favorites, toBuyLists), queryset)
  {
    FilterRecipesIsIntersection(queryset, query, viewer, favorites, toBuyLists);
    KeepIsSubsequence(queryset, (x: Recipe) => Selected(x, query, viewer, favorites, toBuyLists));
  }
}
