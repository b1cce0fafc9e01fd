/**
 * `download_shopping_cart` and `_download_file` (backend/api/views.py): the ingredients
 * of every recipe in a user's cart, summed per (name, measurement unit), ordered by name,
 * and rendered as a numbered plain-text list.
 */
module ShoppingList {
  import opened Seqs
  import opened Decimal
  import opened Text
  import opened Models

  /** The grouping key: the ingredient's name and measurement unit. */
  datatype Key = Key(name: string, unit: string)

  /** One row of the cart join: an ingredient of a carted recipe with its amount. */
  datatype Line = Line(key: Key, amount: int)

  /** One group of the result: a key and the `Sum` of its amounts (`total`). */
  datatype Entry = Entry(key: Key, total: int)

  /**
   * `order_by(name)`; rows with the same name are ordered by unit, one of the orders the
   * query allows for them. Strings compare by code point.
   */
  predicate KeyLt(a: Key, b: Key)
  {
    Less(a.name, b.name) || (a.name == b.name && Less(a.unit, b.unit))
  }

  lemma KeyLtIrreflexive(a: Key)
    ensures !KeyLt(a, a)
  {
    LessIrreflexive(a.name);
    LessIrreflexive(a.unit);
  }

  lemma KeyLtTransitive(a: Key, b: Key, c: Key)
    requires KeyLt(a, b) && KeyLt(b, c)
    ensures KeyLt(a, c)
  {
    if Less(a.name, b.name) && Less(b.name, c.name) {
      LessTransitive(a.name, b.name, c.name);
    } else if a.name == b.name && b.name == c.name {
      LessTransitive(a.unit, b.unit, c.unit);
    }
  }

  lemma KeyLtTotal(a: Key, b: Key)
    ensures a == b || KeyLt(a, b) || KeyLt(b, a)
  {
    LessTotal(a.name, b.name);
    LessTotal(a.unit, b.unit);
  }

  /** Every key of `es` comes strictly after `k`. */
  predicate Below(k: Key, es: seq<Entry>)
  {
    forall i :: 0 <= i < |es| ==> KeyLt(k, es[i].key)
  }

  /** Strictly increasing keys: ordered, and no key twice. */
  predicate Sorted(es: seq<Entry>)
  {
    es == [] || (Below(es[0].key, es[1..]) && Sorted(es[1..]))
  }

  /** The `total` shown for `k`, or 0 when no group has that key. */
  function Lookup(es: seq<Entry>, k: Key): int
  {
    if es == [] then 0
    else if es[0].key == k then es[0].total
    else Lookup(es[1..], k)
  }

  function EntryKeys(es: seq<Entry>): set<Key>
  {
    if es == [] then {} else {es[0].key} + EntryKeys(es[1..])
  }

  function SumTotals(es: seq<Entry>): int
  {
    if es == [] then 0 else es[0].total + SumTotals(es[1..])
  }

  /** `Sum('amount')` over the rows of one key. */
  function TotalFor(lines: seq<Line>, k: Key): int
  {
    if lines == [] then 0
    else (if lines[0].key == k then lines[0].amount else 0) + TotalFor(lines[1..], k)
  }

  function KeysOf(lines: seq<Line>): set<Key>
  {
    if lines == [] then {} else {lines[0].key} + KeysOf(lines[1..])
  }

  function SumAmounts(lines: seq<Line>): int
  {
    if lines == [] then 0 else lines[0].amount + SumAmounts(lines[1..])
  }

  predicate AllPositive(es: seq<Entry>)
  {
    forall i :: 0 <= i < |es| ==> es[i].total >= 1
  }

  predicate AllAmountsPositive(lines: seq<Line>)
  {
    forall i :: 0 <= i < |lines| ==> lines[i].amount >= 1
  }

  /** Adds one row to the groups: into its key's group, or as a new group in key order. */
  function Insert(es: seq<Entry>, l: Line): seq<Entry>
  {
    if es == [] then [Entry(l.key, l.amount)]
    else if es[0].key == l.key then [Entry(l.key, es[0].total + l.amount)] + es[1..]
    else if KeyLt(l.key, es[0].key) then [Entry(l.key, l.amount)] + es
    else [es[0]] + Insert(es[1..], l)
  }

  /** `.values(name, unit).annotate(total=Sum(amount)).order_by(name)`. */
  function Aggregate(lines: seq<Line>): seq<Entry>
  {
    if lines == [] then [] else Insert(Aggregate(lines[1..]), lines[0])
  }

  lemma BelowWeaken(a: Key, b: Key, es: seq<Entry>)
    requires KeyLt(a, b) && Below(b, es)
    ensures Below(a, es)
  {
    forall i | 0 <= i < |es| ensures KeyLt(a, es[i].key) {
      KeyLtTransitive(a, b, es[i].key);
    }
  }

  lemma {:induction false} LookupBelow(es: seq<Entry>, k: Key)
    requires Below(k, es)
    ensures Lookup(es, k) == 0
  {
    if es != [] {
      KeyLtIrreflexive(k);
      LookupBelow(es[1..], k);
    }
  }

  /** Inserting into a sorted list keeps it sorted, and keeps every lower bound below the new key. */
  lemma {:induction false} InsertSorted(es: seq<Entry>, l: Line)
    requires Sorted(es)
    ensures Sorted(Insert(es, l))
    ensures forall k :: Below(k, es) && KeyLt(k, l.key) ==> Below(k, Insert(es, l))
  {
    var r := Insert(es, l);
    if es == [] {
    } else if es[0].key == l.key {
      assert r[1..] == es[1..];
    } else if KeyLt(l.key, es[0].key) {
      assert r[1..] == es;
      BelowWeaken(l.key, es[0].key, es[1..]);
    } else {
      KeyLtTotal(l.key, es[0].key);
      assert r[1..] == Insert(es[1..], l);
      InsertSorted(es[1..], l);
    }
  }

  /** Inserting a line adds its key, adds its amount to that key's total and to the grand total. */
  lemma {:induction false} InsertSpec(es: seq<Entry>, l: Line)
    requires Sorted(es)
    ensures EntryKeys(Insert(es, l)) == EntryKeys(es) + {l.key}
    ensures forall k :: Lookup(Insert(es, l), k) == Lookup(es, k) + (if k == l.key then l.amount else 0)
    ensures SumTotals(Insert(es, l)) == SumTotals(es) + l.amount
    ensures AllPositive(es) && l.amount >= 1 ==> AllPositive(Insert(es, l))
  {
    var r := Insert(es, l);
    if es == [] {
    } else if es[0].key == l.key {
      assert r[1..] == es[1..];
    } else if KeyLt(l.key, es[0].key) {
      assert r[1..] == es;
      BelowWeaken(l.key, es[0].key, es[1..]);
      LookupBelow(es, l.key);
    } else {
      KeyLtTotal(l.key, es[0].key);
      assert r[1..] == Insert(es[1..], l);
      InsertSpec(es[1..], l);
    }
  }

  /**
   * The grouped list: strictly ordered by key (by name first), one group per key that
   * occurs, each group's total the sum of its rows, nothing lost or added overall, and
   * every total positive when every amount is.
   */
  lemma {:induction false} AggregateSpec(lines: seq<Line>)
    ensures Sorted(Aggregate(lines))
    ensures EntryKeys(Aggregate(lines)) == KeysOf(lines)
    ensures forall k :: Lookup(Aggregate(lines), k) == TotalFor(lines, k)
    ensures SumTotals(Aggregate(lines)) == SumAmounts(lines)
    ensures AllAmountsPositive(lines) ==> AllPositive(Aggregate(lines))
  {
    if lines != [] {
      AggregateSpec(lines[1..]);
      InsertSorted(Aggregate(lines[1..]), lines[0]);
      InsertSpec(Aggregate(lines[1..]), lines[0]);
      if AllAmountsPositive(lines) {
        assert AllAmountsPositive(lines[1..]) by {
          forall i | 0 <= i < |lines| - 1 ensures lines[1..][i].amount >= 1 {
            assert lines[1..][i] == lines[i + 1];
          }
        }
      }
    }
  }

  /** A key-sorted list is in the order the query asks for: names never decrease. */
  lemma {:induction false} SortedByName(es: seq<Entry>)
    requires Sorted(es)
    ensures forall i, j :: 0 <= i < j < |es| ==> es[i].key.name == es[j].key.name || Less(es[i].key.name, es[j].key.name)
  {
    if es != [] {
      SortedByName(es[1..]);
      forall i, j | 0 <= i < j < |es| ensures es[i].key.name == es[j].key.name || Less(es[i].key.name, es[j].key.name) {
        if i == 0 {
          assert KeyLt(es[0].key, es[1..][j - 1].key);
        } else {
          assert es[i] == es[1..][i - 1] && es[j] == es[1..][j - 1];
        }
      }
    }
  }

  /**
   * The rows the query joins for `user`: each join row of a recipe in the user's cart,
   * with its ingredient's name and unit. A cart holds a recipe at most once, so each join
   * row contributes once.
   */
  function CartLines(user: UserId, toBuyLists: set<UserRecipe>, rows: seq<IngredientInRecipe>, ingredients: map<IngredientId, Ingredient>): seq<Line>
  {
    if rows == [] then []
    else
      var row := rows[0];
      (if UserRecipe(user, row.recipe) in toBuyLists && row.ingredient in ingredients
       then [Line(Key(ingredients[row.ingredient].name, ingredients[row.ingredient].measurementUnit), row.amount)]
       else [])
      + CartLines(user, toBuyLists, rows[1..], ingredients)
  }

  /** The whole query for one user. */
  function ShoppingTotals(user: UserId, toBuyLists: set<UserRecipe>, rows: seq<IngredientInRecipe>, ingredients: map<IngredientId, Ingredient>): seq<Entry>
  {
    Aggregate(CartLines(user, toBuyLists, rows, ingredients))
  }

  lemma {:induction false} TotalForAppend(a: seq<Line>, b: seq<Line>, k: Key)
    ensures TotalFor(a + b, k) == TotalFor(a, k) + TotalFor(b, k)
  {
    if a == [] {
      assert a + b == b;
    } else {
      assert (a + b)[1..] == a[1..] + b;
      TotalForAppend(a[1..], b, k);
    }
  }

  /**
   * Putting one more recipe in the cart adds that recipe's own amounts to the list: for
   * every key, the new total is the old one plus what the list of that recipe alone shows.
   */
  lemma {:induction false} CartAddsRecipe(
    user: UserId, toBuyLists: set<UserRecipe>, recipe: RecipeId,
    rows: seq<IngredientInRecipe>, ingredients: map<IngredientId, Ingredient>, k: Key)
    requires UserRecipe(user, recipe) !in toBuyLists
    ensures Lookup(ShoppingTotals(user, toBuyLists + {UserRecipe(user, recipe)}, rows, ingredients), k)
         == Lookup(ShoppingTotals(user, toBuyLists, rows, ingredients), k)
          + Lookup(ShoppingTotals(user, {UserRecipe(user, recipe)}, rows, ingredients), k)
  {
    var added := toBuyLists + {UserRecipe(user, recipe)};
    var one := {UserRecipe(user, recipe)};
    CartLinesSplit(user, toBuyLists, recipe, rows, ingredients, k);
    AggregateSpec(CartLines(user, added, rows, ingredients));
    AggregateSpec(CartLines(user, toBuyLists, rows, ingredients));
    AggregateSpec(CartLines(user, one, rows, ingredients));
  }

  lemma {:induction false} CartLinesSplit(
    user: UserId, toBuyLists: set<UserRecipe>, recipe: RecipeId,
    rows: seq<IngredientInRecipe>, ingredients: map<IngredientId, Ingredient>, k: Key)
    requires UserRecipe(user, recipe) !in toBuyLists
    ensures TotalFor(CartLines(user, toBuyLists + {UserRecipe(user, recipe)}, rows, ingredients), k)
         == TotalFor(CartLines(user, toBuyLists, rows, ingredients), k)
          + TotalFor(CartLines(user, {UserRecipe(user, recipe)}, rows, ingredients), k)
  {
    if rows != [] {
      var added := toBuyLists + {UserRecipe(user, recipe)};
      var one := {UserRecipe(user, recipe)};
      CartLinesSplit(user, toBuyLists, recipe, rows[1..], ingredients, k);
      TotalForAppend(CartLines(user, added, rows[..1], ingredients), CartLines(user, added, rows[1..], ingredients), k);
      var head := (if UserRecipe(user, rows[0].recipe) in added && rows[0].ingredient in ingredients
        then [Line(Key(ingredients[rows[0].ingredient].name, ingredients[rows[0].ingredient].measurementUnit), rows[0].amount)]
        else []);
      var headOld := (if UserRecipe(user, rows[0].recipe) in toBuyLists && rows[0].ingredient in ingredients
        then head else []);
      var headOne := (if UserRecipe(user, rows[0].recipe) in one && rows[0].ingredient in ingredients
        then head else []);
      assert CartLines(user, added, rows, ingredients) == head + CartLines(user, added, rows[1..], ingredients);
      assert CartLines(user, toBuyLists, rows, ingredients) == headOld + CartLines(user, toBuyLists, rows[1..], ingredients);
      assert CartLines(user, one, rows, ingredients) == headOne + CartLines(user, one, rows[1..], ingredients);
      TotalForAppend(head, CartLines(user, added, rows[1..], ingredients), k);
      TotalForAppend(headOld, CartLines(user, toBuyLists, rows[1..], ingredients), k);
      TotalForAppend(headOne, CartLines(user, one, rows[1..], ingredients), k);
    }
  }

  /** Other users' carts never reach a user's list. */
  lemma {:induction false} CartLinesOwnCartOnly(
    user: UserId, toBuyLists: set<UserRecipe>, other: UserRecipe,
    rows: seq<IngredientInRecipe>, ingredients: map<IngredientId, Ingredient>)
    requires other.user != user
    ensures CartLines(user, toBuyLists + {other}, rows, ingredients) == CartLines(user, toBuyLists, rows, ingredients)
  {
    if rows != [] {
      CartLinesOwnCartOnly(user, toBuyLists, other, rows[1..], ingredients);
    }
  }

  // Rendering (`_download_file`).

  const LIST_TITLE: string := "Список покупок "
  const INGREDIENTS_TITLE: string := "Ингридиенты:"

  /** The header line without its newline. */
  function HeaderLine(username: string, timestamp: string): string
  {
    LIST_TITLE + username + " (" + timestamp + ") - "
  }

  /** `file_head`: the title, the username and the timestamp, ending with a newline. */
  function Header(username: string, timestamp: string): string
  {
    HeaderLine(username, timestamp) + "\n"
  }

  /** One numbered item: `{i}. {Name} ({unit}) - {total}`. */
  function ItemLine(i: nat, e: Entry): string
  {
    NatToString(i) + ". " + Capitalize(e.key.name) + " (" + e.key.unit + ") - " + IntToString(e.total)
  }

  /** `enumerate(xs, start=start)`, each pair formatted by `line`. */
  function Numbered<T>(xs: seq<T>, start: nat, line: (nat, T) -> string): (r: seq<string>)
    ensures |r| == |xs|
    ensures forall i :: 0 <= i < |xs| ==> r[i] == line(start + i, xs[i])
  {
    if xs == [] then [] else [line(start, xs[0])] + Numbered(xs[1..], start + 1, line)
  }

  /** The numbered item lines of the list, from `start`. */
  function ItemLines(es: seq<Entry>, start: nat): (r: seq<string>)
    ensures |r| == |es|
    ensures forall i :: 0 <= i < |es| ==> r[i] == ItemLine(start + i, es[i])
  {
    Numbered(es, start, ItemLine)
  }

  /** The file: the header and the ingredient block joined by a newline. */
  function Render(username: string, timestamp: string, es: seq<Entry>): string
  {
    Join([Header(username, timestamp), INGREDIENTS_TITLE + "\n" + Join(ItemLines(es, 1), '\n')], '\n')
  }

  predicate NoNewline(s: string)
  {
    '\n' !in s
  }

  lemma IntToStringNoNewline(n: int)
    ensures NoNewline(IntToString(n))
  {
    var s := IntToString(n);
    if n < 0 {
      assert s == "-" + NatToString(-n);
      assert forall i :: 1 <= i < |s| ==> s[i] == NatToString(-n)[i - 1];
    }
  }

  lemma ItemLineNoNewline(i: nat, e: Entry)
    requires NoNewline(e.key.name) && NoNewline(e.key.unit)
    ensures NoNewline(ItemLine(i, e))
  {
    CapitalizeKeepsNonLetter(e.key.name, '\n');
    IntToStringNoNewline(e.total);
  }

  lemma HeaderLineNoNewline(username: string, timestamp: string)
    requires NoNewline(username) && NoNewline(timestamp)
    ensures NoNewline(HeaderLine(username, timestamp))
  {
    TitlesNoNewline();
  }

  lemma JoinTwo(a: string, b: string, sep: char)
    ensures Join([a, b], sep) == a + [sep] + b
  {
    assert [a, b][1..] == [b];
  }

  /** The lines of the ingredient block: one per group, or a single empty line when there is none. */
  function ItemBlock(es: seq<Entry>): seq<string>
  {
    if es == [] then [""] else ItemLines(es, 1)
  }

  lemma ItemBlockLines(es: seq<Entry>)
    requires forall i :: 0 <= i < |es| ==> NoNewline(es[i].key.name) && NoNewline(es[i].key.unit)
    ensures Split(Join(ItemLines(es, 1), '\n'), '\n') == ItemBlock(es)
  {
    var items := ItemLines(es, 1);
    if es != [] {
      forall i | 0 <= i < |items| ensures '\n' !in items[i] {
        ItemLineNoNewline(1 + i, es[i]);
      }
      SplitJoin(items, '\n');
    }
  }

  lemma TitlesNoNewline()
    ensures NoNewline(LIST_TITLE) && NoNewline(INGREDIENTS_TITLE)
  {
  }

  /** A line ending in a newline joined to a titled block: three lines, the middle one empty, then the block. */
  lemma ThreeLinesThenBlock(h: string, t: string, body: string)
    requires NoNewline(h) && NoNewline(t)
    ensures Split(Join([h + "\n", t + "\n" + body], '\n'), '\n') == [h, "", t] + Split(body, '\n')
  {
    var rest := t + "\n" + body;
    var tail := [] + ['\n'] + rest;
    JoinTwo(h + "\n", rest, '\n');
    assert Join([h + "\n", rest], '\n') == h + ['\n'] + tail;
    SplitAtFirstSeparator(h, tail, '\n');
    SplitAtFirstSeparator([], rest, '\n');
    assert Split(tail, '\n') == [""] + Split(rest, '\n');
    SplitAtFirstSeparator(t, body, '\n');
    assert Split(rest, '\n') == [t] + Split(body, '\n');
  }

  /** The first three lines of the file, then whatever the ingredient block splits into. */
  lemma RenderSplitsHead(username: string, timestamp: string, es: seq<Entry>)
    requires NoNewline(username) && NoNewline(timestamp)
    ensures Split(Render(username, timestamp, es), '\n')
         == [HeaderLine(username, timestamp), "", INGREDIENTS_TITLE] + Split(Join(ItemLines(es, 1), '\n'), '\n')
  {
    HeaderLineNoNewline(username, timestamp);
    TitlesNoNewline();
    ThreeLinesThenBlock(HeaderLine(username, timestamp), INGREDIENTS_TITLE, Join(ItemLines(es, 1), '\n'));
  }

  /**
   * The file read line by line: the header line, an empty line, the ingredients title,
   * then one line per group in order (a single empty line when the list is empty), as
   * long as no username, timestamp, name or unit holds a newline.
   */
  lemma RenderLines(username: string, timestamp: string, es: seq<Entry>)
    requires NoNewline(username) && NoNewline(timestamp)
    requires forall i :: 0 <= i < |es| ==> NoNewline(es[i].key.name) && NoNewline(es[i].key.unit)
    ensures Split(Render(username, timestamp, es), '\n')
         == [HeaderLine(username, timestamp), "", INGREDIENTS_TITLE] + ItemBlock(es)
  {
    RenderSplitsHead(username, timestamp, es);
    ItemBlockLines(es);
  }

  /** A key none of whose parts holds a newline. */
  predicate CleanKey(k: Key)
  {
    NoNewline(k.name) && NoNewline(k.unit)
  }

  lemma {:induction false} EntryKeysHoldKeys(es: seq<Entry>)
    ensures forall i :: 0 <= i < |es| ==> es[i].key in EntryKeys(es)
  {
    if es != [] {
      EntryKeysHoldKeys(es[1..]);
      forall i | 1 <= i < |es| ensures es[i].key in EntryKeys(es) {
        assert es[i] == es[1..][i - 1];
      }
    }
  }

  /** The joined rows carry the names and units of the catalogue. */
  lemma {:induction false} CartLinesClean(
    user: UserId, toBuyLists: set<UserRecipe>, rows: seq<IngredientInRecipe>, ingredients: map<IngredientId, Ingredient>)
    requires forall id :: id in ingredients ==> NoNewline(ingredients[id].name) && NoNewline(ingredients[id].measurementUnit)
    ensures forall k :: k in KeysOf(CartLines(user, toBuyLists, rows, ingredients)) ==> CleanKey(k)
  {
    if rows != [] {
      CartLinesClean(user, toBuyLists, rows[1..], ingredients);
      var head := if UserRecipe(user, rows[0].recipe) in toBuyLists && rows[0].ingredient in ingredients
        then [Line(Key(ingredients[rows[0].ingredient].name, ingredients[rows[0].ingredient].measurementUnit), rows[0].amount)]
        else [];
      var tail := CartLines(user, toBuyLists, rows[1..], ingredients);
      assert CartLines(user, toBuyLists, rows, ingredients) == head + tail;
      KeysOfAppend(head, tail);
    }
  }

  lemma {:induction false} KeysOfAppend(a: seq<Line>, b: seq<Line>)
    ensures KeysOf(a + b) == KeysOf(a) + KeysOf(b)
  {
    if a == [] {
      assert a + b == b;
    } else {
      assert (a + b)[1..] == a[1..] + b;
      KeysOfAppend(a[1..], b);
    }
  }

  /**
   * The downloaded file of one user, read line by line: the header, an empty line, the
   * ingredients title, then one numbered line per group of the cart (a single empty line
   * for an empty cart), when no username, timestamp, name or unit holds a newline.
   */
  lemma ShoppingListFileLines(
    username: string, timestamp: string,
    user: UserId, toBuyLists: set<UserRecipe>, rows: seq<IngredientInRecipe>, ingredients: map<IngredientId, Ingredient>)
    requires NoNewline(username) && NoNewline(timestamp)
    requires forall id :: id in ingredients ==> NoNewline(ingredients[id].name) && NoNewline(ingredients[id].measurementUnit)
    ensures Split(Render(username, timestamp, ShoppingTotals(user, toBuyLists, rows, ingredients)), '\n')
         == [HeaderLine(username, timestamp), "", INGREDIENTS_TITLE] + ItemBlock(ShoppingTotals(user, toBuyLists, rows, ingredients))
  {
    var lines := CartLines(user, toBuyLists, rows, ingredients);
    var es := ShoppingTotals(user, toBuyLists, rows, ingredients);
    AggregateSpec(lines);
    CartLinesClean(user, toBuyLists, rows, ingredients);
    EntryKeysHoldKeys(es);
    forall i | 0 <= i < |es| ensures NoNewline(es[i].key.name) && NoNewline(es[i].key.unit) {
      assert CleanKey(es[i].key);
    }
    RenderLines(username, timestamp, es);
  }
}
