/**
 * The actions of `UserViewSet` and `RecipeViewSet` (backend/api/views.py) that change or
 * read the tables: following an author, the favorite and shopping-cart toggles, the
 * shopping-list download, and the recipe writes the viewset performs through
 * `CreateRecipeSerializer`. Each request is one sequential step on the store.
 *
 * The toggles are specified twice: a function from the relation before the request to the
 * status and the relation after it, which the lemmas below reason about, and a method on
 * the store that is proved to follow that function.
 */
module Views {
  import opened Wrappers
  import opened Seqs
  import opened Decimal
  import opened Text
  import opened Models
  import opened Http
  import opened Serializers
  import opened Permissions
  import opened Filters
  import opened ShoppingList
  import opened Store

  // ---------------------------------------------------------------- responses

  datatype Body =
    | Empty
      /** A `ValidationError` raised with a bare message. */
    | Detail(message: string)
      /** `{'Fail': error_message}`. */
    | Fail(message: string)
    | Subscriber(data: SubscriberData)
    | Cut(summary: RecipeSummary)
    | Errors(errors: seq<FieldError>)
      /** The recipe a write stored, by id. */
    | Written(id: RecipeId)
    | Recipes(recipes: seq<RecipeData>)
    | File(content: string)

  datatype Response = Response(status: int, body: Body)

  const CANNOT_SUBSCRIBE_TO_YOURSELF: string := "You cannot subscribe to yourself!"
  const ALREADY_SUBSCRIBED: string := "You are already subscribed to this user!"
  const ALREADY_FAVORITED: string := "Recipe was already favorited!"
  const ALREADY_IN_CART: string := "Recipe is already in the cart!"

  /** The status a request ends with and the relation it leaves behind. */
  datatype Step<S> = Step(status: int, after: S)

  /** Statuses that report a change. */
  predicate Changed(status: int)
  {
    status == HTTP_201_CREATED || status == HTTP_204_NO_CONTENT
  }

  // ---------------------------------------------------------------- subscribe

  /**
   * `subscribe` on the follow relation: login required, then the author must exist; a POST
   * refuses following oneself and following twice, a DELETE refuses a pair that is absent.
   */
  function SubscribeStep(subPairs: set<SubPair>, users: set<UserId>, viewer: Viewer, verb: HttpMethod, author: UserId): (r: Step<set<SubPair>>)
    requires verb == POST || verb == DELETE
    ensures !Changed(r.status) ==> r.after == subPairs
    ensures r.status == HTTP_401_UNAUTHORIZED <==> viewer.Anonymous?
    ensures r.status == HTTP_404_NOT_FOUND <==> viewer.Authenticated? && author !in users
    ensures r.status == HTTP_201_CREATED <==>
      verb == POST && viewer.Authenticated? && author in users && viewer.id != author && SubPair(viewer.id, author) !in subPairs
    ensures r.status == HTTP_201_CREATED ==> r.after == subPairs + {SubPair(viewer.id, author)}
    ensures r.status == HTTP_204_NO_CONTENT <==>
      verb == DELETE && viewer.Authenticated? && author in users && SubPair(viewer.id, author) in subPairs
    ensures r.status == HTTP_204_NO_CONTENT ==> r.after == subPairs - {SubPair(viewer.id, author)}
    ensures r.status in {HTTP_201_CREATED, HTTP_204_NO_CONTENT, HTTP_400_BAD_REQUEST, HTTP_401_UNAUTHORIZED, HTTP_404_NOT_FOUND}
  {
    if viewer.Anonymous? then Step(HTTP_401_UNAUTHORIZED, subPairs)
    else if author !in users then Step(HTTP_404_NOT_FOUND, subPairs)
    else
      var pair := SubPair(viewer.id, author);
      if verb == POST then
        if viewer.id == author || pair in subPairs then Step(HTTP_400_BAD_REQUEST, subPairs)
        else Step(HTTP_201_CREATED, subPairs + {pair})
      else if pair in subPairs then Step(HTTP_204_NO_CONTENT, subPairs - {pair})
      else Step(HTTP_400_BAD_REQUEST, subPairs)
  }

  /** Following and then unfollowing an author restores the relation. */
  lemma SubscribeThenUnsubscribe(subPairs: set<SubPair>, users: set<UserId>, viewer: Viewer, author: UserId)
    requires SubscribeStep(subPairs, users, viewer, POST, author).status == HTTP_201_CREATED
    ensures var after := SubscribeStep(subPairs, users, viewer, POST, author).after;
      SubscribeStep(after, users, viewer, DELETE, author) == Step(HTTP_204_NO_CONTENT, subPairs)
  {
    var pair := SubPair(viewer.id, author);
    assert subPairs + {pair} - {pair} == subPairs;
  }

  /** Unfollowing and then following again restores the relation. */
  lemma UnsubscribeThenSubscribe(subPairs: set<SubPair>, usernames: map<UserId, string>, viewer: Viewer, author: UserId)
    requires SubscribeStep(subPairs, usernames.Keys, viewer, DELETE, author).status == HTTP_204_NO_CONTENT
    requires SubsValid(usernames, subPairs)
    ensures var after := SubscribeStep(subPairs, usernames.Keys, viewer, DELETE, author).after;
      SubscribeStep(after, usernames.Keys, viewer, POST, author) == Step(HTTP_201_CREATED, subPairs)
  {
    var pair := SubPair(viewer.id, author);
    assert pair in subPairs;
    assert subPairs - {pair} + {pair} == subPairs;
  }

  /** Following twice: the second request is refused and changes nothing. */
  lemma SubscribeTwice(subPairs: set<SubPair>, users: set<UserId>, viewer: Viewer, author: UserId)
    requires SubscribeStep(subPairs, users, viewer, POST, author).status == HTTP_201_CREATED
    ensures var after := SubscribeStep(subPairs, users, viewer, POST, author).after;
      SubscribeStep(after, users, viewer, POST, author) == Step(HTTP_400_BAD_REQUEST, after)
  {
  }

  /** The relation never gains a pair of unknown users, nor anybody following themselves. */
  lemma SubscribeKeepsSubsValid(
    usernames: map<UserId, string>, subPairs: set<SubPair>, viewer: Viewer, verb: HttpMethod, author: UserId)
    requires verb == POST || verb == DELETE
    requires SubsValid(usernames, subPairs)
    requires viewer.Authenticated? ==> viewer.id in usernames
    ensures SubsValid(usernames, SubscribeStep(subPairs, usernames.Keys, viewer, verb, author).after)
  {
  }

  // ---------------------------------------------------------------- favorite and shopping cart

  /**
   * `_fav_and_cart` followed by `actions_recipe` on a `Favorite` or `ToBuyList` relation:
   * login required; a DELETE of a pair that is absent while the recipe exists is refused
   * before anything else; then the recipe must exist; a POST adds the pair unless it is
   * already there, a DELETE removes the pair (or answers 404 when it is not there).
   */
  function FavAndCartStep(relation: set<UserRecipe>, recipes: set<RecipeId>, viewer: Viewer, verb: HttpMethod, recipe: RecipeId): (r: Step<set<UserRecipe>>)
    requires verb == POST || verb == DELETE
    ensures !Changed(r.status) ==> r.after == relation
    ensures r.status == HTTP_401_UNAUTHORIZED <==> viewer.Anonymous?
    ensures r.status == HTTP_404_NOT_FOUND <==> viewer.Authenticated? && recipe !in recipes
    ensures r.status == HTTP_201_CREATED <==>
      verb == POST && viewer.Authenticated? && recipe in recipes && UserRecipe(viewer.id, recipe) !in relation
    ensures r.status == HTTP_201_CREATED ==> r.after == relation + {UserRecipe(viewer.id, recipe)}
    ensures r.status == HTTP_204_NO_CONTENT <==>
      verb == DELETE && viewer.Authenticated? && UserRecipe(viewer.id, recipe) in relation && recipe in recipes
    ensures r.status == HTTP_204_NO_CONTENT ==> r.after == relation - {UserRecipe(viewer.id, recipe)}
    ensures r.status == HTTP_400_BAD_REQUEST <==>
      viewer.Authenticated? && recipe in recipes && (verb == POST <==> UserRecipe(viewer.id, recipe) in relation)
  {
    if viewer.Anonymous? then Step(HTTP_401_UNAUTHORIZED, relation)
    else
      var pair := UserRecipe(viewer.id, recipe);
      if verb == DELETE && pair !in relation && recipe in recipes then Step(HTTP_400_BAD_REQUEST, relation)
      else if recipe !in recipes then Step(HTTP_404_NOT_FOUND, relation)
      else if verb == POST then
        if pair !in relation then Step(HTTP_201_CREATED, relation + {pair})
        else Step(HTTP_400_BAD_REQUEST, relation)
      else if pair in relation then Step(HTTP_204_NO_CONTENT, relation - {pair})
      else Step(HTTP_404_NOT_FOUND, relation)
  }

  /** Adding a recipe and then removing it restores the relation. */
  lemma AddThenRemove(relation: set<UserRecipe>, recipes: set<RecipeId>, viewer: Viewer, recipe: RecipeId)
    requires FavAndCartStep(relation, recipes, viewer, POST, recipe).status == HTTP_201_CREATED
    ensures var after := FavAndCartStep(relation, recipes, viewer, POST, recipe).after;
      FavAndCartStep(after, recipes, viewer, DELETE, recipe) == Step(HTTP_204_NO_CONTENT, relation)
  {
    var pair := UserRecipe(viewer.id, recipe);
    assert relation + {pair} - {pair} == relation;
  }

  /** Removing a recipe and then adding it again restores the relation. */
  lemma RemoveThenAdd(relation: set<UserRecipe>, recipes: set<RecipeId>, viewer: Viewer, recipe: RecipeId)
    requires FavAndCartStep(relation, recipes, viewer, DELETE, recipe).status == HTTP_204_NO_CONTENT
    ensures var after := FavAndCartStep(relation, recipes, viewer, DELETE, recipe).after;
      FavAndCartStep(after, recipes, viewer, POST, recipe) == Step(HTTP_201_CREATED, relation)
  {
    var pair := UserRecipe(viewer.id, recipe);
    assert relation - {pair} + {pair} == relation;
  }

  /** Adding twice: the second request is refused and changes nothing. */
  lemma AddTwice(relation: set<UserRecipe>, recipes: set<RecipeId>, viewer: Viewer, recipe: RecipeId)
    requires FavAndCartStep(relation, recipes, viewer, POST, recipe).status == HTTP_201_CREATED
    ensures var after := FavAndCartStep(relation, recipes, viewer, POST, recipe).after;
      FavAndCartStep(after, recipes, viewer, POST, recipe) == Step(HTTP_400_BAD_REQUEST, after)
  {
  }

  /** The relation never gains a pair whose user or recipe does not exist. */
  lemma FavAndCartKeepsPairsValid(
    usernames: map<UserId, string>, recipes: map<RecipeId, Recipe>, relation: set<UserRecipe>,
    viewer: Viewer, verb: HttpMethod, recipe: RecipeId)
    requires verb == POST || verb == DELETE
    requires PairsValid(usernames, recipes, relation)
    requires viewer.Authenticated? ==> viewer.id in usernames
    ensures PairsValid(usernames, recipes, FavAndCartStep(relation, recipes.Keys, viewer, verb, recipe).after)
  {
  }

  /** After a successful toggle the serialized flag reports the new state. */
  lemma FlagFollowsToggle(relation: set<UserRecipe>, recipes: set<RecipeId>, viewer: Viewer, verb: HttpMethod, recipe: RecipeId)
    requires verb == POST || verb == DELETE
    requires Changed(FavAndCartStep(relation, recipes, viewer, verb, recipe).status)
    ensures IsTemplate(viewer, recipe, FavAndCartStep(relation, recipes, viewer, verb, recipe).after) <==> verb == POST
  {
  }

  /** The message a refused POST answers with, per relation. */
  function AlreadyMessage(c: Collection): string
  {
    match c
    case Favorites => ALREADY_FAVORITED
    case ToBuyLists => ALREADY_IN_CART
  }

  // ---------------------------------------------------------------- the actions on the store

  /** `subscribe`: follows the step above, and answers a new follow with the author's profile. */
  method Subscribe(db: Store, viewer: Viewer, verb: HttpMethod, author: UserId, recipesLimit: Option<string>) returns (resp: Response)
    requires db.Valid() && (verb == POST || verb == DELETE)
    requires viewer.Authenticated? ==> viewer.id in db.usernames
    modifies db
    ensures db.Valid()
    ensures resp.status == SubscribeStep(old(db.subPairs), old(db.usernames).Keys, viewer, verb, author).status
    ensures db.subPairs == SubscribeStep(old(db.subPairs), old(db.usernames).Keys, viewer, verb, author).after
    ensures db.usernames == old(db.usernames) && db.ingredients == old(db.ingredients) && db.recipes == old(db.recipes)
    ensures db.nextRecipeId == old(db.nextRecipeId) && db.today == old(db.today) && db.joinRows == old(db.joinRows)
    ensures db.favorites == old(db.favorites) && db.toBuyLists == old(db.toBuyLists)
    ensures resp.status == HTTP_201_CREATED ==>
      && author in db.usernames
      && resp.body == Subscriber(SerializeSubscriber(viewer, author, db.usernames[author], db.subPairs, db.AuthorRecipes(author), recipesLimit))
    ensures resp.status == HTTP_400_BAD_REQUEST && verb == POST ==>
      && viewer.Authenticated?
      && resp.body == Detail(if viewer.id == author then CANNOT_SUBSCRIBE_TO_YOURSELF else ALREADY_SUBSCRIBED)
    ensures resp.status != HTTP_201_CREATED && !(resp.status == HTTP_400_BAD_REQUEST && verb == POST) ==> resp.body == Empty
  {
    if viewer.Anonymous? {
      return Response(HTTP_401_UNAUTHORIZED, Empty);
    }
    if author !in db.usernames {
      return Response(HTTP_404_NOT_FOUND, Empty);
    }
    var pair := SubPair(viewer.id, author);
    if verb == POST {
      if viewer.id == author {
        return Response(HTTP_400_BAD_REQUEST, Detail(CANNOT_SUBSCRIBE_TO_YOURSELF));
      }
      if pair in db.subPairs {
        return Response(HTTP_400_BAD_REQUEST, Detail(ALREADY_SUBSCRIBED));
      }
      db.AddSubPair(pair);
      var data := SerializeSubscriber(viewer, author, db.usernames[author], db.subPairs, db.AuthorRecipes(author), recipesLimit);
      return Response(HTTP_201_CREATED, Subscriber(data));
    }
    if pair in db.subPairs {
      db.RemoveSubPair(pair);
      return Response(HTTP_204_NO_CONTENT, Empty);
    }
    return Response(HTTP_400_BAD_REQUEST, Empty);
  }

  /**
   * `_fav_and_cart` and `actions_recipe` on one of the two relations: follows the step
   * above, answers an addition with the recipe's summary and a refused one with `message`.
   */
  method FavAndCart(db: Store, c: Collection, viewer: Viewer, verb: HttpMethod, recipe: RecipeId) returns (resp: Response)
    requires db.Valid() && (verb == POST || verb == DELETE)
    requires viewer.Authenticated? ==> viewer.id in db.usernames
    modifies db
    ensures db.Valid()
    ensures resp.status == FavAndCartStep(old(db.Relation(c)), old(db.recipes).Keys, viewer, verb, recipe).status
    ensures db.Relation(c) == FavAndCartStep(old(db.Relation(c)), old(db.recipes).Keys, viewer, verb, recipe).after
    ensures c == Favorites ==> db.toBuyLists == old(db.toBuyLists)
    ensures c == ToBuyLists ==> db.favorites == old(db.favorites)
    ensures db.usernames == old(db.usernames) && db.ingredients == old(db.ingredients) && db.recipes == old(db.recipes)
    ensures db.nextRecipeId == old(db.nextRecipeId) && db.today == old(db.today) && db.joinRows == old(db.joinRows)
    ensures db.subPairs == old(db.subPairs)
    ensures resp.status == HTTP_201_CREATED ==> recipe in db.recipes && resp.body == Cut(CutRecipe(db.recipes[recipe]))
    ensures resp.status == HTTP_400_BAD_REQUEST && verb == POST ==> resp.body == Fail(AlreadyMessage(c))
    ensures resp.status != HTTP_201_CREATED && !(resp.status == HTTP_400_BAD_REQUEST && verb == POST) ==> resp.body == Empty
  {
    if viewer.Anonymous? {
      return Response(HTTP_401_UNAUTHORIZED, Empty);
    }
    var pair := UserRecipe(viewer.id, recipe);
    if verb == DELETE && pair !in db.Relation(c) && recipe in db.recipes {
      return Response(HTTP_400_BAD_REQUEST, Empty);
    }
    if recipe !in db.recipes {
      return Response(HTTP_404_NOT_FOUND, Empty);
    }
    if verb == POST {
      if pair in db.Relation(c) {
        return Response(HTTP_400_BAD_REQUEST, Fail(AlreadyMessage(c)));
      }
      db.AddToCollection(c, pair);
      return Response(HTTP_201_CREATED, Cut(CutRecipe(db.recipes[recipe])));
    }
    if pair in db.Relation(c) {
      db.RemoveFromCollection(c, pair);
      return Response(HTTP_204_NO_CONTENT, Empty);
    }
    return Response(HTTP_404_NOT_FOUND, Empty);
  }

  /** `favorite`: the toggle on `Favorite`. */
  method Favorite(db: Store, viewer: Viewer, verb: HttpMethod, recipe: RecipeId) returns (resp: Response)
    requires db.Valid() && (verb == POST || verb == DELETE)
    requires viewer.Authenticated? ==> viewer.id in db.usernames
    modifies db
    ensures db.Valid()
    ensures resp.status == FavAndCartStep(old(db.favorites), old(db.recipes).Keys, viewer, verb, recipe).status
    ensures db.favorites == FavAndCartStep(old(db.favorites), old(db.recipes).Keys, viewer, verb, recipe).after
    ensures db.toBuyLists == old(db.toBuyLists) && db.subPairs == old(db.subPairs)
    ensures db.usernames == old(db.usernames) && db.ingredients == old(db.ingredients) && db.recipes == old(db.recipes)
    ensures db.nextRecipeId == old(db.nextRecipeId) && db.today == old(db.today) && db.joinRows == old(db.joinRows)
    ensures resp.status == HTTP_400_BAD_REQUEST && verb == POST ==> resp.body == Fail(ALREADY_FAVORITED)
  {
    resp := FavAndCart(db, Favorites, viewer, verb, recipe);
  }

  /** `shopping_cart`: the toggle on `ToBuyList`. */
  method ShoppingCart(db: Store, viewer: Viewer, verb: HttpMethod, recipe: RecipeId) returns (resp: Response)
    requires db.Valid() && (verb == POST || verb == DELETE)
    requires viewer.Authenticated? ==> viewer.id in db.usernames
    modifies db
    ensures db.Valid()
    ensures resp.status == FavAndCartStep(old(db.toBuyLists), old(db.recipes).Keys, viewer, verb, recipe).status
    ensures db.toBuyLists == FavAndCartStep(old(db.toBuyLists), old(db.recipes).Keys, viewer, verb, recipe).after
    ensures db.favorites == old(db.favorites) && db.subPairs == old(db.subPairs)
    ensures db.usernames == old(db.usernames) && db.ingredients == old(db.ingredients) && db.recipes == old(db.recipes)
    ensures db.nextRecipeId == old(db.nextRecipeId) && db.today == old(db.today) && db.joinRows == old(db.joinRows)
    ensures resp.status == HTTP_400_BAD_REQUEST && verb == POST ==> resp.body == Fail(ALREADY_IN_CART)
  {
    resp := FavAndCart(db, ToBuyLists, viewer, verb, recipe);
  }

  // ---------------------------------------------------------------- shopping list

  /**
   * `download_shopping_cart`: login required; the file holds the viewer's username, the
   * time of the request and the totals of the viewer's cart, numbered from 1.
   */
  function DownloadShoppingCart(db: Store, viewer: Viewer, timestamp: string): (r: Response)
    reads db
    requires db.Valid()
    requires viewer.Authenticated? ==> viewer.id in db.usernames
    ensures viewer.Anonymous? ==> r == Response(HTTP_401_UNAUTHORIZED, Empty)
    ensures viewer.Authenticated? ==> r.status == HTTP_200_OK && r.body.File?
    ensures viewer.Authenticated? && SingleLines(db, viewer.id, timestamp) ==>
      Split(r.body.content, '\n') == CartFileLines(db, viewer.id, timestamp)
  {
    if viewer.Anonymous? then Response(HTTP_401_UNAUTHORIZED, Empty)
    else
      var content := Render(db.usernames[viewer.id], timestamp, ShoppingTotals(viewer.id, db.toBuyLists, db.joinRows, db.ingredients));
      assert SingleLines(db, viewer.id, timestamp) ==> Split(content, '\n') == CartFileLines(db, viewer.id, timestamp) by {
        if SingleLines(db, viewer.id, timestamp) {
          ShoppingListFileLines(db.usernames[viewer.id], timestamp, viewer.id, db.toBuyLists, db.joinRows, db.ingredients);
        }
      }
      Response(HTTP_200_OK, File(content))
  }

  /** Neither the username, the timestamp nor any ingredient name or unit holds a newline. */
  predicate SingleLines(db: Store, user: UserId, timestamp: string)
    reads db
    requires user in db.usernames
  {
    && NoNewline(db.usernames[user])
    && NoNewline(timestamp)
    && (forall id :: id in db.ingredients ==> NoNewline(db.ingredients[id].name) && NoNewline(db.ingredients[id].measurementUnit))
  }

  /** The lines of a user's shopping list: header, empty line, title, then one line per group. */
  function CartFileLines(db: Store, user: UserId, timestamp: string): seq<string>
    reads db
    requires user in db.usernames
  {
    [HeaderLine(db.usernames[user], timestamp), "", INGREDIENTS_TITLE]
      + ItemBlock(ShoppingTotals(user, db.toBuyLists, db.joinRows, db.ingredients))
  }

  // ---------------------------------------------------------------- recipe listing

  /** `RecipeSerializer` over a list of recipes. */
  function SerializeAll(
    viewer: Viewer, xs: seq<Recipe>, usernames: map<UserId, string>, rows: seq<IngredientInRecipe>,
    catalogue: map<IngredientId, Ingredient>,
    favorites: set<UserRecipe>, toBuyLists: set<UserRecipe>, subPairs: set<SubPair>): (r: seq<RecipeData>)
    requires forall i :: 0 <= i < |xs| ==> xs[i].author in usernames
    requires forall i :: 0 <= i < |rows| ==> rows[i].ingredient in catalogue
    ensures |r| == |xs|
    ensures forall i :: 0 <= i < |xs| ==>
      r[i] == SerializeRecipe(viewer, xs[i], usernames[xs[i].author], rows, catalogue, favorites, toBuyLists, subPairs)
  {
    seq(|xs|, i requires 0 <= i < |xs| =>
      SerializeRecipe(viewer, xs[i], usernames[xs[i].author], rows, catalogue, favorites, toBuyLists, subPairs))
  }

  /**
   * The recipes the filtered listing shows: stored ones that every given parameter
   * accepts, all of them, newest first.
   */
  function Shown(
    recipes: map<RecipeId, Recipe>, nextRecipeId: nat, query: RecipeQuery, viewer: Viewer,
    favorites: set<UserRecipe>, toBuyLists: set<UserRecipe>): (r: seq<Recipe>)
    requires KeyedById(recipes)
    ensures forall i :: 0 <= i < |r| ==>
      r[i].id in recipes && recipes[r[i].id] == r[i] && Selected(r[i], query, viewer, favorites, toBuyLists)
    ensures forall k :: k in recipes && k < nextRecipeId && Selected(recipes[k], query, viewer, favorites, toBuyLists) ==>
      recipes[k] in r
    ensures Ordered(r, IdAbove)
  {
    FilterRecipesIsIntersection(NewestFirst(recipes, nextRecipeId), query, viewer, favorites, toBuyLists);
    var selected := (x: Recipe) => Selected(x, query, viewer, favorites, toBuyLists);
    var r := ListingWhere(recipes, nextRecipeId, selected);
    assert FilterRecipes(NewestFirst(recipes, nextRecipeId), query, viewer, favorites, toBuyLists) == r;
    FilterRecipes(NewestFirst(recipes, nextRecipeId), query, viewer, favorites, toBuyLists)
  }

  /**
   * The recipe list with the `RecipeFilter` parameters applied: newest first, exactly the
   * stored recipes every given parameter accepts, each serialized for the viewer.
   */
  function ListedRecipes(
    recipes: map<RecipeId, Recipe>, nextRecipeId: nat, usernames: map<UserId, string>,
    rows: seq<IngredientInRecipe>, ingredients: map<IngredientId, Ingredient>,
    favorites: set<UserRecipe>, toBuyLists: set<UserRecipe>, subPairs: set<SubPair>,
    viewer: Viewer, query: RecipeQuery): (r: seq<RecipeData>)
    requires KeyedById(recipes)
    requires forall k :: k in recipes ==> recipes[k].author in usernames
    requires forall i :: 0 <= i < |rows| ==> rows[i].ingredient in ingredients
    ensures forall i :: 0 <= i < |r| ==>
      r[i].id in recipes && Selected(recipes[r[i].id], query, viewer, favorites, toBuyLists)
    ensures forall k :: k in recipes && k < nextRecipeId && Selected(recipes[k], query, viewer, favorites, toBuyLists) ==>
      exists i :: 0 <= i < |r| && r[i].id == k
    ensures forall i, j :: 0 <= i < j < |r| ==> r[i].id > r[j].id
    ensures forall i :: 0 <= i < |r| ==>
      r[i].id in recipes &&
      r[i] == SerializeRecipe(viewer, recipes[r[i].id], usernames[recipes[r[i].id].author], rows, ingredients,
                              favorites, toBuyLists, subPairs)
    ensures query.isFavorited == Some(true) && viewer.Authenticated? ==> forall i :: 0 <= i < |r| ==> r[i].isFavorited
    ensures query.isInShoppingCart == Some(true) && viewer.Authenticated? ==> forall i :: 0 <= i < |r| ==> r[i].isInShoppingCart
  {
    var shown := Shown(recipes, nextRecipeId, query, viewer, favorites, toBuyLists);
    ListingSerialized(recipes, nextRecipeId, viewer, shown, usernames, rows, ingredients, favorites, toBuyLists, subPairs, query);
    ListingFlags(viewer, shown, usernames, rows, ingredients, favorites, toBuyLists, subPairs, query);
    SerializeAll(viewer, shown, usernames, rows, ingredients, favorites, toBuyLists, subPairs)
  }

  /** Serializing a listing keeps its membership, its completeness and its order. */
  lemma ListingSerialized(
    recipes: map<RecipeId, Recipe>, nextRecipeId: nat,
    viewer: Viewer, xs: seq<Recipe>, usernames: map<UserId, string>, rows: seq<IngredientInRecipe>,
    catalogue: map<IngredientId, Ingredient>,
    favorites: set<UserRecipe>, toBuyLists: set<UserRecipe>, subPairs: set<SubPair>, query: RecipeQuery)
    requires KeyedById(recipes)
    requires forall i :: 0 <= i < |xs| ==> xs[i].author in usernames
    requires forall i :: 0 <= i < |rows| ==> rows[i].ingredient in catalogue
    requires forall i :: 0 <= i < |xs| ==>
      xs[i].id in recipes && recipes[xs[i].id] == xs[i] && Selected(xs[i], query, viewer, favorites, toBuyLists)
    requires forall k :: k in recipes && k < nextRecipeId && Selected(recipes[k], query, viewer, favorites, toBuyLists) ==>
      recipes[k] in xs
    requires Ordered(xs, IdAbove)
    ensures var r := SerializeAll(viewer, xs, usernames, rows, catalogue, favorites, toBuyLists, subPairs);
      && (forall i :: 0 <= i < |r| ==>
            r[i].id in recipes && Selected(recipes[r[i].id], query, viewer, favorites, toBuyLists))
      && (forall k :: k in recipes && k < nextRecipeId && Selected(recipes[k], query, viewer, favorites, toBuyLists) ==>
            exists i :: 0 <= i < |r| && r[i].id == k)
      && (forall i, j :: 0 <= i < j < |r| ==> r[i].id > r[j].id)
      && (forall i :: 0 <= i < |r| ==>
            r[i].id in recipes &&
            r[i] == SerializeRecipe(viewer, recipes[r[i].id], usernames[recipes[r[i].id].author], rows, catalogue,
                                    favorites, toBuyLists, subPairs))
  {
    var r := SerializeAll(viewer, xs, usernames, rows, catalogue, favorites, toBuyLists, subPairs);
    SerializedIds(viewer, xs, usernames, rows, catalogue, favorites, toBuyLists, subPairs);
    forall i | 0 <= i < |r|
      ensures r[i].id in recipes
      ensures r[i] == SerializeRecipe(viewer, recipes[r[i].id], usernames[recipes[r[i].id].author], rows, catalogue,
                                      favorites, toBuyLists, subPairs)
    {
      assert recipes[r[i].id] == xs[i];
    }
    forall k | k in recipes && k < nextRecipeId && Selected(recipes[k], query, viewer, favorites, toBuyLists)
      ensures exists i :: 0 <= i < |r| && r[i].id == k
    {
      var i :| 0 <= i < |xs| && xs[i] == recipes[k];
      assert r[i].id == k;
    }
    forall i, j | 0 <= i < j < |r| ensures r[i].id > r[j].id {
      assert IdAbove(xs[i], xs[j]);
    }
  }

  /** Serializing a listing keeps each entry's id, in place. */
  lemma SerializedIds(
    viewer: Viewer, xs: seq<Recipe>, usernames: map<UserId, string>, rows: seq<IngredientInRecipe>,
    catalogue: map<IngredientId, Ingredient>,
    favorites: set<UserRecipe>, toBuyLists: set<UserRecipe>, subPairs: set<SubPair>)
    requires forall i :: 0 <= i < |xs| ==> xs[i].author in usernames
    requires forall i :: 0 <= i < |rows| ==> rows[i].ingredient in catalogue
    ensures var r := SerializeAll(viewer, xs, usernames, rows, catalogue, favorites, toBuyLists, subPairs);
      |r| == |xs| && forall i :: 0 <= i < |xs| ==> r[i].id == xs[i].id
  {
  }

  /** A listing filtered on the viewer's favorites (or cart) serializes every entry as favorited (or in the cart). */
  lemma ListingFlags(
    viewer: Viewer, xs: seq<Recipe>, usernames: map<UserId, string>, rows: seq<IngredientInRecipe>,
    catalogue: map<IngredientId, Ingredient>,
    favorites: set<UserRecipe>, toBuyLists: set<UserRecipe>, subPairs: set<SubPair>, query: RecipeQuery)
    requires forall i :: 0 <= i < |xs| ==> xs[i].author in usernames
    requires forall i :: 0 <= i < |rows| ==> rows[i].ingredient in catalogue
    requires forall i :: 0 <= i < |xs| ==> Selected(xs[i], query, viewer, favorites, toBuyLists)
    ensures var r := SerializeAll(viewer, xs, usernames, rows, catalogue, favorites, toBuyLists, subPairs);
      && (query.isFavorited == Some(true) && viewer.Authenticated? ==> forall i :: 0 <= i < |r| ==> r[i].isFavorited)
      && (query.isInShoppingCart == Some(true) && viewer.Authenticated? ==> forall i :: 0 <= i < |r| ==> r[i].isInShoppingCart)
  {
    var r := SerializeAll(viewer, xs, usernames, rows, catalogue, favorites, toBuyLists, subPairs);
    forall i | 0 <= i < |xs|
      ensures r[i].isFavorited <==> IsFavorited(viewer, xs[i].id, favorites)
      ensures r[i].isInShoppingCart <==> IsInShoppingCart(viewer, xs[i].id, toBuyLists)
    {
    }
  }

  /**
   * The recipe list as the viewer asks for it: the filter form is checked first, and an
   * invalid `author` answers 400 with the form's error; otherwise 200 and the listing
   * the cleaned parameters select, each recipe serialized for the viewer.
   */
  function ListResponse(
    recipes: map<RecipeId, Recipe>, nextRecipeId: nat, usernames: map<UserId, string>,
    rows: seq<IngredientInRecipe>, ingredients: map<IngredientId, Ingredient>,
    favorites: set<UserRecipe>, toBuyLists: set<UserRecipe>, subPairs: set<SubPair>,
    viewer: Viewer, raw: RawQuery): (resp: Response)
    requires KeyedById(recipes)
    requires forall k :: k in recipes ==> recipes[k].author in usernames && k < nextRecipeId
    requires forall i :: 0 <= i < |rows| ==> rows[i].ingredient in ingredients
    ensures CleanQuery(raw, usernames.Keys).Failure? ==>
      resp == Response(HTTP_400_BAD_REQUEST, Errors([CleanQuery(raw, usernames.Keys).error]))
    ensures CleanQuery(raw, usernames.Keys).Success? ==>
      resp == Response(HTTP_200_OK, Recipes(ListedRecipes(recipes, nextRecipeId, usernames, rows, ingredients,
        favorites, toBuyLists, subPairs, viewer, CleanQuery(raw, usernames.Keys).value)))
  {
    match CleanQuery(raw, usernames.Keys)
    case Failure(e) => Response(HTTP_400_BAD_REQUEST, Errors([e]))
    case Success(query) =>
      Response(HTTP_200_OK, Recipes(ListedRecipes(recipes, nextRecipeId, usernames, rows, ingredients,
        favorites, toBuyLists, subPairs, viewer, query)))
  }

  /**
   * `?author=<id>`: an id naming no user is answered with 400 and the form's error; an
   * existing user's id lists only recipes by that user.
   */
  lemma ListByAuthorId(
    recipes: map<RecipeId, Recipe>, nextRecipeId: nat, usernames: map<UserId, string>,
    rows: seq<IngredientInRecipe>, ingredients: map<IngredientId, Ingredient>,
    favorites: set<UserRecipe>, toBuyLists: set<UserRecipe>, subPairs: set<SubPair>,
    viewer: Viewer, u: UserId, isFavorited: Option<bool>, isInShoppingCart: Option<bool>)
    requires KeyedById(recipes)
    requires forall k :: k in recipes ==> recipes[k].author in usernames && k < nextRecipeId
    requires forall i :: 0 <= i < |rows| ==> rows[i].ingredient in ingredients
    ensures var resp := ListResponse(recipes, nextRecipeId, usernames, rows, ingredients, favorites, toBuyLists, subPairs,
                                     viewer, RawQuery(Some(NatToString(u)), isFavorited, isInShoppingCart));
      && (u !in usernames ==> resp == Response(HTTP_400_BAD_REQUEST, Errors([FieldError("author", INVALID_CHOICE)])))
      && (u in usernames ==>
            && resp.status == HTTP_200_OK && resp.body.Recipes?
            && forall i :: 0 <= i < |resp.body.recipes| ==> resp.body.recipes[i].author.id == u)
  {
    var raw := RawQuery(Some(NatToString(u)), isFavorited, isInShoppingCart);
    CleanAuthorOfId(u, usernames.Keys);
    if u in usernames {
      var query := RecipeQuery(Some(u), isFavorited, isInShoppingCart);
      assert CleanQuery(raw, usernames.Keys) == Success(query);
      var r := ListedRecipes(recipes, nextRecipeId, usernames, rows, ingredients, favorites, toBuyLists, subPairs, viewer, query);
      forall i | 0 <= i < |r| ensures r[i].author.id == u {
        assert AuthorOk(recipes[r[i].id], query);
      }
    }
  }

  /**
   * `entries` lists every stored recipe the query selects and no other, newest first, each
   * serialized for the viewer.
   */
  predicate ListsSelected(
    entries: seq<RecipeData>, recipes: map<RecipeId, Recipe>, usernames: map<UserId, string>,
    rows: seq<IngredientInRecipe>, ingredients: map<IngredientId, Ingredient>,
    favorites: set<UserRecipe>, toBuyLists: set<UserRecipe>, subPairs: set<SubPair>,
    viewer: Viewer, query: RecipeQuery)
    requires forall k :: k in recipes ==> recipes[k].author in usernames
    requires forall i :: 0 <= i < |rows| ==> rows[i].ingredient in ingredients
  {
    && (forall i :: 0 <= i < |entries| ==>
          && entries[i].id in recipes
          && Selected(recipes[entries[i].id], query, viewer, favorites, toBuyLists)
          && entries[i] == SerializeRecipe(viewer, recipes[entries[i].id], usernames[recipes[entries[i].id].author],
                                           rows, ingredients, favorites, toBuyLists, subPairs))
    && (forall k :: (k in recipes && Selected(recipes[k], query, viewer, favorites, toBuyLists)) ==>
          exists i :: 0 <= i < |entries| && entries[i].id == k)
    && (forall i, j :: 0 <= i < j < |entries| ==> entries[i].id > entries[j].id)
  }

  /** When every stored id is below the id counter, the listing lists exactly the selected recipes. */
  lemma ListedRecipesListsSelected(
    recipes: map<RecipeId, Recipe>, nextRecipeId: nat, usernames: map<UserId, string>,
    rows: seq<IngredientInRecipe>, ingredients: map<IngredientId, Ingredient>,
    favorites: set<UserRecipe>, toBuyLists: set<UserRecipe>, subPairs: set<SubPair>,
    viewer: Viewer, query: RecipeQuery)
    requires KeyedById(recipes)
    requires forall k :: k in recipes ==> recipes[k].author in usernames && k < nextRecipeId
    requires forall i :: 0 <= i < |rows| ==> rows[i].ingredient in ingredients
    ensures ListsSelected(ListedRecipes(recipes, nextRecipeId, usernames, rows, ingredients, favorites, toBuyLists,
                                        subPairs, viewer, query),
                          recipes, usernames, rows, ingredients, favorites, toBuyLists, subPairs, viewer, query)
  {
  }

  /**
   * The recipe list of the store (`GET /recipes/`): an invalid query is answered 400 with
   * the form's error; a valid one is answered 200 with every stored recipe the query
   * selects and no other, newest first, each serialized for the viewer.
   */
  function ListRecipes(db: Store, viewer: Viewer, raw: RawQuery): (resp: Response)
    reads db
    requires db.Valid()
    ensures CleanQuery(raw, db.usernames.Keys).Failure? ==>
      resp == Response(HTTP_400_BAD_REQUEST, Errors([CleanQuery(raw, db.usernames.Keys).error]))
    ensures CleanQuery(raw, db.usernames.Keys).Success? ==>
      && resp.status == HTTP_200_OK && resp.body.Recipes?
      && ListsSelected(resp.body.recipes, db.recipes, db.usernames, db.joinRows, db.ingredients,
                       db.favorites, db.toBuyLists, db.subPairs, viewer, CleanQuery(raw, db.usernames.Keys).value)
  {
    if CleanQuery(raw, db.usernames.Keys).Success? then
      ListedRecipesListsSelected(db.recipes, db.nextRecipeId, db.usernames, db.joinRows, db.ingredients,
                                 db.favorites, db.toBuyLists, db.subPairs, viewer, CleanQuery(raw, db.usernames.Keys).value);
      ListResponse(db.recipes, db.nextRecipeId, db.usernames, db.joinRows, db.ingredients,
                   db.favorites, db.toBuyLists, db.subPairs, viewer, raw)
    else
      ListResponse(db.recipes, db.nextRecipeId, db.usernames, db.joinRows, db.ingredients,
                   db.favorites, db.toBuyLists, db.subPairs, viewer, raw)
  }

  // ---------------------------------------------------------------- recipe writes

  /**
   * Creating a recipe: login required (`IsAuthenticatedOrReadOnly`); the submission must
   * pass validation with every field required; then `create` stores the validated (trimmed)
   * data under the next id with the requester as author, and one join row per submitted
   * ingredient.
   */
  method CreateRecipe(db: Store, viewer: Viewer, data: RecipeInput) returns (resp: Response)
    requires db.Valid()
    requires viewer.Authenticated? ==> viewer.id in db.usernames
    modifies db
    ensures db.Valid()
    ensures viewer.Anonymous? ==> resp == Response(HTTP_401_UNAUTHORIZED, Empty) && unchanged(db)
    ensures viewer.Authenticated? && RunValidation(data, old(db.ingredients).Keys, false).Failure? ==>
      && resp == Response(HTTP_400_BAD_REQUEST, Errors(RunValidation(data, old(db.ingredients).Keys, false).error))
      && unchanged(db)
    ensures viewer.Authenticated? && RunValidation(data, old(db.ingredients).Keys, false).Success? ==>
      var id := old(db.nextRecipeId);
      && resp == Response(HTTP_201_CREATED, Written(id))
      && id !in old(db.recipes)
      && db.recipes == old(db.recipes)[id := NewRecipe(id, viewer.id, Trimmed(data), old(db.today))]
      && db.recipes[id].author == viewer.id
      && db.recipes[id].name == Strip(data.name) && db.recipes[id].text == Strip(data.text)
      && RowsOf(db.joinRows, id) == JoinRows(id, data.ingredients.value)
      && (forall other :: other != id ==> RowsOf(db.joinRows, other) == RowsOf(old(db.joinRows), other))
      && db.nextRecipeId == id + 1
      && db.usernames == old(db.usernames) && db.ingredients == old(db.ingredients) && db.today == old(db.today)
      && db.favorites == old(db.favorites) && db.toBuyLists == old(db.toBuyLists) && db.subPairs == old(db.subPairs)
  {
    if viewer.Anonymous? {
      return Response(HTTP_401_UNAUTHORIZED, Empty);
    }
    var checked := RunValidation(data, db.ingredients.Keys, false);
    if checked.Failure? {
      return Response(HTTP_400_BAD_REQUEST, Errors(checked.error));
    }
    DropAbsent(db.ingredients, db.recipes, db.joinRows, db.nextRecipeId);
    var id := db.CreateRecipe(viewer.id, checked.value);
    forall other {
      RowsOfAfterReplace(old(db.joinRows), id, data.ingredients.value, other);
    }
    return Response(HTTP_201_CREATED, Written(id));
  }

  /**
   * Updating a recipe (PUT, or PATCH for a partial update): login required, then the
   * recipe must exist, then only its author may write it; the submission must pass
   * validation; then `update` replaces the recipe's join rows and the fields sent, trimmed.
   */
  method UpdateRecipe(db: Store, viewer: Viewer, verb: HttpMethod, id: RecipeId, data: RecipeInput) returns (resp: Response)
    requires db.Valid() && (verb == PUT || verb == PATCH)
    modifies db
    ensures db.Valid()
    ensures viewer.Anonymous? ==> resp == Response(HTTP_401_UNAUTHORIZED, Empty) && unchanged(db)
    ensures viewer.Authenticated? && id !in old(db.recipes) ==> resp == Response(HTTP_404_NOT_FOUND, Empty) && unchanged(db)
    ensures viewer.Authenticated? && id in old(db.recipes) && !HasObjectPermission(verb, old(db.recipes)[id].author, viewer) ==>
      resp == Response(HTTP_403_FORBIDDEN, Empty) && unchanged(db)
    ensures viewer.Authenticated? && id in old(db.recipes) && HasObjectPermission(verb, old(db.recipes)[id].author, viewer)
            && RunValidation(data, old(db.ingredients).Keys, verb == PATCH).Failure? ==>
      && resp == Response(HTTP_400_BAD_REQUEST, Errors(RunValidation(data, old(db.ingredients).Keys, verb == PATCH).error))
      && unchanged(db)
    ensures viewer.Authenticated? && id in old(db.recipes) && HasObjectPermission(verb, old(db.recipes)[id].author, viewer)
            && RunValidation(data, old(db.ingredients).Keys, verb == PATCH).Success? ==>
      && resp == Response(HTTP_200_OK, Written(id))
      && db.recipes == old(db.recipes)[id := UpdatedRecipe(old(db.recipes)[id], Trimmed(data))]
      && db.recipes[id].name == Strip(data.name) && db.recipes[id].text == Strip(data.text)
      && RowsOf(db.joinRows, id) == JoinRows(id, data.ingredients.value)
      && (forall other :: other != id ==> RowsOf(db.joinRows, other) == RowsOf(old(db.joinRows), other))
      && db.usernames == old(db.usernames) && db.ingredients == old(db.ingredients)
      && db.nextRecipeId == old(db.nextRecipeId) && db.today == old(db.today)
      && db.favorites == old(db.favorites) && db.toBuyLists == old(db.toBuyLists) && db.subPairs == old(db.subPairs)
  {
    if viewer.Anonymous? {
      return Response(HTTP_401_UNAUTHORIZED, Empty);
    }
    if id !in db.recipes {
      return Response(HTTP_404_NOT_FOUND, Empty);
    }
    if !HasObjectPermission(verb, db.recipes[id].author, viewer) {
      return Response(HTTP_403_FORBIDDEN, Empty);
    }
    var checked := RunValidation(data, db.ingredients.Keys, verb == PATCH);
    if checked.Failure? {
      return Response(HTTP_400_BAD_REQUEST, Errors(checked.error));
    }
    db.UpdateRecipe(id, checked.value);
    forall other {
      RowsOfAfterReplace(old(db.joinRows), id, data.ingredients.value, other);
    }
    return Response(HTTP_200_OK, Written(id));
  }

  /**
   * Deleting a recipe: login required, then the recipe must exist, then only its author
   * may delete it; its join rows, favorites and cart entries go with it.
   */
  method DestroyRecipe(db: Store, viewer: Viewer, id: RecipeId) returns (resp: Response)
    requires db.Valid()
    modifies db
    ensures db.Valid()
    ensures viewer.Anonymous? ==> resp == Response(HTTP_401_UNAUTHORIZED, Empty) && unchanged(db)
    ensures viewer.Authenticated? && id !in old(db.recipes) ==> resp == Response(HTTP_404_NOT_FOUND, Empty) && unchanged(db)
    ensures viewer.Authenticated? && id in old(db.recipes) && old(db.recipes)[id].author != viewer.id ==>
      resp == Response(HTTP_403_FORBIDDEN, Empty) && unchanged(db)
    ensures viewer.Authenticated? && id in old(db.recipes) && old(db.recipes)[id].author == viewer.id ==>
      && resp == Response(HTTP_204_NO_CONTENT, Empty)
      && db.recipes == RecipesWithout(old(db.recipes), id)
      && RowsOf(db.joinRows, id) == []
      && (forall other :: other != id ==> RowsOf(db.joinRows, other) == RowsOf(old(db.joinRows), other))
      && db.favorites == PairsWithoutRecipe(old(db.favorites), id)
      && db.toBuyLists == PairsWithoutRecipe(old(db.toBuyLists), id)
      && db.usernames == old(db.usernames) && db.ingredients == old(db.ingredients) && db.subPairs == old(db.subPairs)
      && db.nextRecipeId == old(db.nextRecipeId) && db.today == old(db.today)
  {
    if viewer.Anonymous? {
      return Response(HTTP_401_UNAUTHORIZED, Empty);
    }
    if id !in db.recipes {
      return Response(HTTP_404_NOT_FOUND, Empty);
    }
    if !HasObjectPermission(DELETE, db.recipes[id].author, viewer) {
      return Response(HTTP_403_FORBIDDEN, Empty);
    }
    db.DeleteRecipe(id);
    forall other {
      RowsOfAfterDrop(old(db.joinRows), id, other);
    }
    return Response(HTTP_204_NO_CONTENT, Empty);
  }
}
