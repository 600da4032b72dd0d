/**
 * The recipe serializers (backend/api/serializers.py): the validation of
 * the ingredient payload, the read-side representation of a recipe's
 * lines and of the favorite / shopping-cart flags, and the write
 * procedures that store a recipe with its lines and tags.
 */
module Serializers {

  import opened Wrappers
  import Rows
  import opened Users
  import opened Recipes
  import opened Database

  /** One entry of the "ingredients" payload: an ingredient and its amount. */
  datatype Entry = Entry(id: IngredientId, amount: nat)

  /** The validated data of a recipe write; every key may be absent. */
  datatype RecipeData = RecipeData(
    ingredients: Option<seq<Entry>>,
    tags: Option<seq<TagId>>,
    name: Option<string>,
    text: Option<string>,
    image: Option<string>,
    cookingTime: Option<nat>)

  /** A field-keyed validation error. */
  datatype ValidationError = ValidationError(field: string, message: string)

  const NoIngredients := ValidationError("ingredients", "Нужен хотя бы один ингредиент в рецепте")
  const ZeroAmount := ValidationError("ingredients", "Количество должно быть больше 0")
  const DuplicateIngredient := ValidationError("ingredients", "Такой ингредиент уже есть в рецепте")

  /** The whole {id, amount} record: what `validate` compares lines by. */
  function Whole(e: Entry): Entry
  {
    e
  }

  /** The ingredient alone: what the unique_ingredient_recipe constraint compares lines by. */
  function IdOf(e: Entry): IngredientId
  {
    e.id
  }

  /** No entry has amount 0 and no two entries have the same `key`. */
  ghost predicate PassesBy<K>(es: seq<Entry>, key: Entry -> K)
  {
    (forall k :: 0 <= k < |es| ==> es[k].amount != 0) && Rows.KeysDistinct(es, key)
  }

  /** Entry `i` has the same `key` as an earlier entry. */
  ghost predicate RepeatsEarlier<K>(es: seq<Entry>, i: nat, key: Entry -> K)
    requires i < |es|
  {
    exists j :: 0 <= j < i && key(es[j]) == key(es[i])
  }

  /** The scan stops at a line whose amount is 0. */
  ghost predicate StopsAtZero<K>(es: seq<Entry>, key: Entry -> K)
  {
    exists i :: 0 <= i < |es| && es[i].amount == 0 && PassesBy(es[..i], key)
  }

  /** The scan stops at a line with a non-zero amount that repeats an earlier line. */
  ghost predicate StopsAtRepeat<K>(es: seq<Entry>, key: Entry -> K)
  {
    exists i :: 0 <= i < |es| && es[i].amount != 0 && RepeatsEarlier(es, i, key) && PassesBy(es[..i], key)
  }

  /** Extending a passing prefix by a good entry gives a passing prefix. */
  lemma PassesByStep<K>(es: seq<Entry>, i: nat, key: Entry -> K)
    requires i < |es| && PassesBy(es[..i], key)
    requires es[i].amount != 0 && !RepeatsEarlier(es, i, key)
    ensures PassesBy(es[..i + 1], key)
  {
    var p := es[..i + 1];
    forall a, b | 0 <= a < b < |p| ensures key(p[a]) != key(p[b]) {
      if b < i {
        assert p[a] == es[..i][a] && p[b] == es[..i][b];
      } else {
        assert p[a] == es[a] && p[b] == es[i];
      }
    }
    forall k | 0 <= k < |p| ensures p[k].amount != 0 {
      if k < i {
        assert p[k] == es[..i][k];
      }
    }
  }

  /**
   * A scan that reaches entry `i` with a passing prefix and finds it bad
   * stops there: which error it reports is decided by entry `i` alone.
   */
  lemma {:induction false} ScanStopsAt<K>(es: seq<Entry>, i: nat, key: Entry -> K)
    requires i < |es| && PassesBy(es[..i], key)
    requires es[i].amount == 0 || RepeatsEarlier(es, i, key)
    ensures StopsAtZero(es, key) <==> es[i].amount == 0
    ensures StopsAtRepeat(es, key) <==> es[i].amount != 0
  {
    forall j | 0 <= j < |es| && PassesBy(es[..j], key) && (es[j].amount == 0 || RepeatsEarlier(es, j, key))
      ensures j == i
    {
      if j < i {
        GoodBefore(es, i, j, key);
      } else if i < j {
        GoodBefore(es, j, i, key);
      }
    }
  }

  /** Every entry inside a passing prefix is good. */
  lemma GoodBefore<K>(es: seq<Entry>, n: nat, i: nat, key: Entry -> K)
    requires i < n <= |es| && PassesBy(es[..n], key)
    ensures es[i].amount != 0 && !RepeatsEarlier(es, i, key)
  {
    assert es[..n][i] == es[i];
    forall m | 0 <= m < i ensures key(es[m]) != key(es[i]) {
      assert es[..n][m] == es[m];
    }
  }

  /** A scan over a passing list never stops. */
  lemma {:induction false} ScanPasses<K>(es: seq<Entry>, key: Entry -> K)
    requires PassesBy(es, key)
    ensures !StopsAtZero(es, key) && !StopsAtRepeat(es, key)
  {
    forall i | 0 <= i < |es| ensures es[i].amount != 0 && !RepeatsEarlier(es, i, key) { }
  }

  /**
   * RecipeCreateSerializer.validate: the ingredient list must be present
   * and non-empty; then the lines are scanned in order, and the first line
   * whose amount is 0, or which equals (same ingredient AND same amount) a
   * line already accepted, decides the error. Otherwise the data is
   * returned unchanged.
   */
  method Validate(data: RecipeData) returns (r: Result<RecipeData, ValidationError>)
    ensures r.Success? ==> r.value == data
    ensures (data.ingredients.None? || data.ingredients.value == []) <==> r == Failure(NoIngredients)
    ensures r.Success? <==>
      data.ingredients.Some? && data.ingredients.value != [] && PassesBy(data.ingredients.value, Whole)
    ensures r == Failure(ZeroAmount) <==>
      data.ingredients.Some? && StopsAtZero(data.ingredients.value, Whole)
    ensures r == Failure(DuplicateIngredient) <==>
      data.ingredients.Some? && StopsAtRepeat(data.ingredients.value, Whole)
  {
    if data.ingredients.None? || data.ingredients.value == [] {
      return Failure(NoIngredients);
    }
    var ingredients := data.ingredients.value;
    var valid: seq<Entry> := [];
    for i := 0 to |ingredients|
      invariant valid == ingredients[..i]
      invariant PassesBy(valid, Whole)
    {
      var ingredient := ingredients[i];
      if ingredient.amount == 0 {
        ScanStopsAt(ingredients, i, Whole);
        return Failure(ZeroAmount);
      }
      if ingredient in valid {
        var j :| 0 <= j < i && valid[j] == ingredient;
        assert Whole(ingredients[j]) == Whole(ingredients[i]);
        ScanStopsAt(ingredients, i, Whole);
        return Failure(DuplicateIngredient);
      }
      PassesByStep(ingredients, i, Whole);
      valid := valid + [ingredient];
    }
    assert ingredients[..|ingredients|] == ingredients;
    ScanPasses(ingredients, Whole);
    return Success(data);
  }

  /**
   * The duplicate test as the unique_ingredient_recipe constraint needs it:
   * the same scan, but a line repeats an earlier one when it names the same
   * ingredient, whatever the amounts.
   */
  method ValidateByIngredient(data: RecipeData) returns (r: Result<RecipeData, ValidationError>)
    ensures r.Success? ==> r.value == data
    ensures (data.ingredients.None? || data.ingredients.value == []) <==> r == Failure(NoIngredients)
    ensures r.Success? <==>
      data.ingredients.Some? && data.ingredients.value != [] && PassesBy(data.ingredients.value, IdOf)
    ensures r == Failure(ZeroAmount) <==>
      data.ingredients.Some? && StopsAtZero(data.ingredients.value, IdOf)
    ensures r == Failure(DuplicateIngredient) <==>
      data.ingredients.Some? && StopsAtRepeat(data.ingredients.value, IdOf)
  {
    if data.ingredients.None? || data.ingredients.value == [] {
      return Failure(NoIngredients);
    }
    var ingredients := data.ingredients.value;
    var seen: seq<IngredientId> := [];
    for i := 0 to |ingredients|
      invariant |seen| == i && forall k :: 0 <= k < i ==> seen[k] == ingredients[k].id
      invariant PassesBy(ingredients[..i], IdOf)
    {
      var ingredient := ingredients[i];
      if ingredient.amount == 0 {
        ScanStopsAt(ingredients, i, IdOf);
        return Failure(ZeroAmount);
      }
      if ingredient.id in seen {
        var j :| 0 <= j < i && seen[j] == ingredient.id;
        assert IdOf(ingredients[j]) == IdOf(ingredients[i]);
        ScanStopsAt(ingredients, i, IdOf);
        return Failure(DuplicateIngredient);
      }
      PassesByStep(ingredients, i, IdOf);
      seen := seen + [ingredient.id];
    }
    assert ingredients[..|ingredients|] == ingredients;
    ScanPasses(ingredients, IdOf);
    return Success(data);
  }

  /**
   * The two duplicate tests differ exactly on payloads that list one
   * ingredient more than once with different amounts.
   */
  lemma {:induction false} DuplicateTestsCompared(es: seq<Entry>)
    ensures PassesBy(es, IdOf) <==> PassesBy(es, Whole) && Rows.KeysDistinct(es, IdOf)
  {
    if PassesBy(es, IdOf) {
      forall i, j | 0 <= i < j < |es| ensures Whole(es[i]) != Whole(es[j]) {
        assert IdOf(es[i]) != IdOf(es[j]);
      }
    }
  }

  /**
   * `validate` as written accepts one ingredient listed with two amounts,
   * whose lines then break the unique_ingredient_recipe constraint, so
   * `Create` and `Update` end with an integrity error instead of a
   * validation error.
   */
  lemma SameIngredientTwoAmountsAccepted()
    ensures PassesBy([Entry(7, 2), Entry(7, 3)], Whole)
    ensures !Rows.KeysDistinct([Entry(7, 2), Entry(7, 3)], IdOf)
    ensures !LinesUnique(LinesFor([Entry(7, 2), Entry(7, 3)], 0))
  {
    var es := [Entry(7, 2), Entry(7, 3)];
    assert IdOf(es[0]) == IdOf(es[1]);
    var ls := LinesFor(es, 0);
    assert LineKey(ls[0]) == LineKey(ls[1]);
  }

  /** The lines ingredients_create builds for `recipe`, one per entry, in payload order. */
  function LinesFor(es: seq<Entry>, recipe: RecipeId): seq<IngredientsInRecipe>
  {
    seq(|es|, k requires 0 <= k < |es| => IngredientsInRecipe(recipe, es[k].id, es[k].amount))
  }

  /**
   * Appending the lines of a recipe that has none yet keeps the
   * unique_ingredient_recipe constraint exactly when no ingredient is
   * listed twice, whatever the amounts.
   */
  lemma InsertFreshLines(ls: seq<IngredientsInRecipe>, es: seq<Entry>, r: RecipeId)
    requires LinesUnique(ls)
    requires forall l :: l in ls ==> l.recipe != r
    ensures LinesUnique(ls + LinesFor(es, r)) <==> Rows.KeysDistinct(es, IdOf)
  {
    var added := LinesFor(es, r);
    var all := ls + added;
    var n := |ls|;
    if Rows.KeysDistinct(es, IdOf) {
      forall i, j | 0 <= i < j < |all| ensures LineKey(all[i]) != LineKey(all[j]) {
        if j < n {
          assert all[i] == ls[i] && all[j] == ls[j];
        } else if i < n {
          assert all[i] == ls[i] && all[i] in ls;
          assert all[j] == added[j - n];
        } else {
          assert all[i] == added[i - n] && all[j] == added[j - n];
          assert IdOf(es[i - n]) != IdOf(es[j - n]);
        }
      }
    } else {
      var a, b :| 0 <= a < b < |es| && IdOf(es[a]) == IdOf(es[b]);
      assert all[n + a] == added[a] && all[n + b] == added[b];
      assert LineKey(all[n + a]) == LineKey(all[n + b]);
    }
  }

  /**
   * A payload the corrected validation accepts always goes in cleanly: its
   * lines keep unique_ingredient_recipe on a recipe that has no lines yet.
   */
  lemma AcceptedPayloadInserts(ls: seq<IngredientsInRecipe>, es: seq<Entry>, r: RecipeId)
    requires LinesUnique(ls)
    requires forall l :: l in ls ==> l.recipe != r
    requires PassesBy(es, IdOf)
    ensures LinesUnique(ls + LinesFor(es, r))
  {
    InsertFreshLines(ls, es, r);
  }

  /**
   * After appending the lines of a recipe that had none, that recipe's
   * lines are exactly the new ones and every other recipe's are as before.
   */
  lemma LinesOfFresh(ls: seq<IngredientsInRecipe>, es: seq<Entry>, r: RecipeId)
    requires forall l :: l in ls ==> l.recipe != r
    ensures LinesOf(ls + LinesFor(es, r), r) == LinesFor(es, r)
    ensures forall other :: other != r ==> LinesOf(ls + LinesFor(es, r), other) == LinesOf(ls, other)
  {
    var added := LinesFor(es, r);
    Rows.FilterAppend(ls, added, (l: IngredientsInRecipe) => l.recipe == r);
    Rows.FilterNone(ls, (l: IngredientsInRecipe) => l.recipe == r);
    Rows.FilterAll(added, (l: IngredientsInRecipe) => l.recipe == r);
    forall other | other != r ensures LinesOf(ls + added, other) == LinesOf(ls, other) {
      Rows.FilterAppend(ls, added, (l: IngredientsInRecipe) => l.recipe == other);
      Rows.FilterNone(added, (l: IngredientsInRecipe) => l.recipe == other);
    }
  }

  /** A line as the API shows it: the ingredient's fields plus the amount. */
  datatype IngredientView = IngredientView(id: IngredientId, name: string, measurementUnit: string, amount: nat)

  /** IngredientsInRecipeSerializer.to_representation. */
  function ToRepresentation(ingredients: map<IngredientId, Ingredient>, l: IngredientsInRecipe): (v: IngredientView)
    requires l.ingredient in ingredients
    ensures v.id == l.ingredient && v.amount == l.amount
    ensures v.name == ingredients[l.ingredient].name
    ensures v.measurementUnit == ingredients[l.ingredient].measurementUnit
  {
    var i := ingredients[l.ingredient];
    IngredientView(l.ingredient, i.name, i.measurementUnit, l.amount)
  }

  /** The "ingredients" field of a recipe read: every line of the recipe, represented. */
  function RecipeIngredients(t: Tables, r: RecipeId): seq<IngredientView>
    requires forall l :: l in t.lines ==> l.ingredient in t.ingredients
  {
    var ls := LinesOf(t.lines, r);
    seq(|ls|, k requires 0 <= k < |ls| => ToRepresentation(t.ingredients, ls[k]))
  }

  /** The {id, amount} entries a list of shown lines carries. */
  function Payload(vs: seq<IngredientView>): seq<Entry>
  {
    seq(|vs|, k requires 0 <= k < |vs| => Entry(vs[k].id, vs[k].amount))
  }

  /**
   * Reading a recipe back after its lines were written gives the payload
   * that was written: the write and the read representation round-trip.
   */
  lemma ReadBack(t: Tables, es: seq<Entry>, r: RecipeId)
    requires forall l :: l in t.lines ==> l.ingredient in t.ingredients && l.recipe != r
    requires forall e :: e in es ==> e.id in t.ingredients
    ensures forall l :: l in t.lines + LinesFor(es, r) ==> l.ingredient in t.ingredients
    ensures Payload(RecipeIngredients(t.(lines := t.lines + LinesFor(es, r)), r)) == es
  {
    LinesOfFresh(t.lines, es, r);
    var vs := RecipeIngredients(t.(lines := t.lines + LinesFor(es, r)), r);
    assert |vs| == |es|;
    forall k | 0 <= k < |es| ensures Payload(vs)[k] == es[k] {
      assert LinesFor(es, r)[k] == IngredientsInRecipe(r, es[k].id, es[k].amount);
    }
  }

  /** Whether a logged-in `viewer` has a row for `recipe` in a favorites or cart table. */
  function Marked(rows: seq<Membership>, recipes: map<RecipeId, Recipe>, viewer: Option<UserId>, recipe: RecipeId): (b: bool)
    ensures viewer.None? ==> !b
    ensures b <==> viewer.Some? && recipe in recipes && Membership(viewer.value, recipe) in rows
  {
    match viewer
    case None => false
    case Some(u) => recipe in recipes && exists m :: m in rows && m.user == u && m.recipe == recipe
  }

  /** get_is_favorited: false for an anonymous viewer, else whether a Favorite row exists. */
  function IsFavorited(t: Tables, viewer: Option<UserId>, recipe: RecipeId): bool
  {
    Marked(t.favorites, t.recipes, viewer, recipe)
  }

  /** get_is_in_shopping_cart: false for an anonymous viewer, else whether a ShoppingCart row exists. */
  function IsInShoppingCart(t: Tables, viewer: Option<UserId>, recipe: RecipeId): bool
  {
    Marked(t.carts, t.recipes, viewer, recipe)
  }

  /** Once a recipe is deleted it is nobody's favorite and in nobody's cart. */
  lemma DeletedRecipeUnmarked(t: Tables, r: RecipeId, viewer: Option<UserId>)
    ensures !IsFavorited(DeleteRecipe(t, r), viewer, r)
    ensures !IsInShoppingCart(DeleteRecipe(t, r), viewer, r)
  {
  }

  /** Once a user is deleted nothing is marked for them, and their own recipes are marked for nobody. */
  lemma DeletedUserUnmarked(t: Tables, u: UserId, r: RecipeId, viewer: Option<UserId>)
    ensures !IsFavorited(DeleteUser(t, u), Some(u), r) && !IsInShoppingCart(DeleteUser(t, u), Some(u), r)
    ensures r in AuthoredBy(t, u) ==>
      !IsFavorited(DeleteUser(t, u), viewer, r) && !IsInShoppingCart(DeleteUser(t, u), viewer, r)
  {
  }

  /** Why a write stopped: a key missing from the validated data, or a constraint the database refused. */
  datatype WriteError = KeyError(key: string) | IntegrityError(constraint: string)

  /** The scalar part of ModelSerializer.update: each field present in the data is set, the others are kept. */
  function ApplyFields(rec: Recipe, data: RecipeData): (u: Recipe)
    ensures u.author == rec.author && u.pubDate == rec.pubDate
    ensures data.name.Some? ==> u.name == data.name.value
    ensures data.text.Some? ==> u.text == data.text.value
    ensures data.image.Some? ==> u.image == Some(data.image.value)
    ensures data.cookingTime.Some? ==> u.cookingTime == data.cookingTime.value
    ensures data.name.None? ==> u.name == rec.name
    ensures data.text.None? ==> u.text == rec.text
    ensures data.image.None? ==> u.image == rec.image
    ensures data.cookingTime.None? ==> u.cookingTime == rec.cookingTime
  {
    rec.(name := data.name.GetOr(rec.name),
         text := data.text.GetOr(rec.text),
         image := if data.image.Some? then data.image else rec.image,
         cookingTime := data.cookingTime.GetOr(rec.cookingTime))
  }

  /**
   * The database as RecipeCreateSerializer writes to it: one field per
   * table, and the next primary key the recipe table hands out.
   */
  class RecipeStore {
    var users: map<UserId, User>
    var subscriptions: seq<Subscribe>
    var ingredients: map<IngredientId, Ingredient>
    var tags: map<TagId, Tag>
    var recipes: map<RecipeId, Recipe>
    var lines: seq<IngredientsInRecipe>
    var recipeTags: set<(RecipeId, TagId)>
    var favorites: seq<Membership>
    var carts: seq<Membership>
    var nextRecipeId: RecipeId

    function Snapshot(): Tables
      reads this
    {
      Tables(users, subscriptions, ingredients, tags, recipes, lines, recipeTags, favorites, carts)
    }

    ghost predicate Valid()
      reads this
    {
      Database.Valid(Snapshot()) && forall r :: r in recipes ==> r < nextRecipeId
    }

    constructor (t: Tables, nextId: RecipeId)
      requires Database.Valid(t)
      requires forall r :: r in t.recipes ==> r < nextId
      ensures Valid() && Snapshot() == t && nextRecipeId == nextId
    {
      users, subscriptions, ingredients, tags := t.users, t.subscriptions, t.ingredients, t.tags;
      recipes, lines, recipeTags := t.recipes, t.lines, t.recipeTags;
      favorites, carts := t.favorites, t.carts;
      nextRecipeId := nextId;
    }

    /**
     * ingredients_create: one line per payload entry for `recipe`, written
     * with one atomic bulk insert that the database takes whole or refuses.
     */
    method IngredientsCreate(es: seq<Entry>, recipe: RecipeId) returns (r: Outcome<WriteError>)
      requires Valid()
      requires recipe in recipes
      requires forall e :: e in es ==> e.id in ingredients
      modifies this
      ensures Valid()
      ensures r.Pass? <==> LinesUnique(old(lines) + LinesFor(es, recipe))
      ensures r.Pass? ==> lines == old(lines) + LinesFor(es, recipe)
      ensures r.Fail? ==> lines == old(lines) && r.error == IntegrityError("unique_ingredient_recipe")
      ensures Snapshot() == old(Snapshot()).(lines := lines) && nextRecipeId == old(nextRecipeId)
    {
      var rows: seq<IngredientsInRecipe> := [];
      for k := 0 to |es|
        invariant |rows| == k
        invariant forall m :: 0 <= m < k ==> rows[m] == IngredientsInRecipe(recipe, es[m].id, es[m].amount)
      {
        rows := rows + [IngredientsInRecipe(recipe, es[k].id, es[k].amount)];
      }
      assert rows == LinesFor(es, recipe);
      match BulkInsertLines(lines, rows)
      case Success(all) =>
        forall l | l in rows ensures l.recipe in recipes && l.ingredient in ingredients {
          var m :| 0 <= m < |rows| && rows[m] == l;
          assert es[m] in es;
        }
        AppendLinesKeepsValid(Snapshot(), rows);
        lines := all;
        r := Pass;
      case Failure(constraint) =>
        r := Fail(IntegrityError(constraint));
    }

    /**
     * create: store the recipe (author from the request, publication date
     * `now`), then its lines, then its tags. Without a transaction, a
     * refused bulk insert leaves the recipe row in place, with no lines
     * and no tags.
     */
    method Create(author: Option<UserId>, data: RecipeData, now: nat) returns (r: Result<RecipeId, WriteError>)
      requires Valid()
      requires author.Some? ==> author.value in users
      requires data.ingredients.Some? ==> forall e :: e in data.ingredients.value ==> e.id in ingredients
      requires data.tags.Some? ==> forall g :: g in data.tags.value ==> g in tags
      modifies this
      ensures Valid()
      ensures data.ingredients.None? ==> r == Failure(KeyError("ingredientsinrecipe_set")) && unchanged(this)
      ensures data.ingredients.Some? && data.image.None? ==> r == Failure(KeyError("image")) && unchanged(this)
      ensures data.ingredients.Some? && data.image.Some? && data.tags.None? ==>
        r == Failure(KeyError("tags")) && unchanged(this)
      ensures data.ingredients.Some? && data.image.Some? && data.tags.Some? ==>
        var id, es := old(nextRecipeId), data.ingredients.value;
        && id !in old(recipes)
        && nextRecipeId == id + 1
        && recipes == old(recipes)[id := NewRecipe(author, data.name.GetOr(""), data.text.GetOr(""),
                                                   data.image, data.cookingTime, now)]
        && (r.Success? <==> Rows.KeysDistinct(es, IdOf))
        && (r.Success? ==> r.value == id)
        && (r.Failure? ==> r.error == IntegrityError("unique_ingredient_recipe"))
        && lines == old(lines) + (if r.Success? then LinesFor(es, id) else [])
        && LinesOf(lines, id) == (if r.Success? then LinesFor(es, id) else [])
        && recipeTags == (if r.Success? then SetTags(old(recipeTags), id, data.tags.value) else old(recipeTags))
        && TagsOf(Snapshot(), id) == (if r.Success? then set g | g in data.tags.value else {})
      ensures users == old(users) && subscriptions == old(subscriptions)
      ensures ingredients == old(ingredients) && tags == old(tags)
      ensures favorites == old(favorites) && carts == old(carts)
    {
      if data.ingredients.None? {
        return Failure(KeyError("ingredientsinrecipe_set"));
      }
      if data.image.None? {
        return Failure(KeyError("image"));
      }
      if data.tags.None? {
        return Failure(KeyError("tags"));
      }
      var es := data.ingredients.value;
      var id := nextRecipeId;
      var recipe := NewRecipe(author, data.name.GetOr(""), data.text.GetOr(""), data.image, data.cookingTime, now);
      AddRecipeKeepsValid(Snapshot(), id, recipe);
      recipes := recipes[id := recipe];
      nextRecipeId := nextRecipeId + 1;
      InsertFreshLines(lines, es, id);
      LinesOfFresh(lines, es, id);
      Rows.FilterNone(lines, (l: IngredientsInRecipe) => l.recipe == id);
      assert TagsOf(Snapshot(), id) == {};
      var written := IngredientsCreate(es, id);
      if written.Fail? {
        return Failure(written.error);
      }
      SetTagsKeepsValid(Snapshot(), id, data.tags.value);
      SetTagsReplaces(Snapshot(), id, data.tags.value);
      recipeTags := SetTags(recipeTags, id, data.tags.value);
      return Success(id);
    }

    /**
     * update: delete every line of the recipe, take the ingredients and
     * the tags from the data, replace the tag set, write the new lines, and
     * only then set the scalar fields. Each step is committed on its own,
     * so a missing key or a refused bulk insert leaves the recipe without
     * lines.
     */
    method Update(id: RecipeId, data: RecipeData) returns (r: Result<RecipeId, WriteError>)
      requires Valid()
      requires id in recipes
      requires data.ingredients.Some? ==> forall e :: e in data.ingredients.value ==> e.id in ingredients
      requires data.tags.Some? ==> forall g :: g in data.tags.value ==> g in tags
      modifies this
      ensures Valid()
      ensures r.Success? ==> data.ingredients.Some?
      ensures r.Success? ==>
        lines == Rows.Filter(old(lines), (l: IngredientsInRecipe) => l.recipe != id) + LinesFor(data.ingredients.value, id)
      ensures r.Failure? ==> lines == Rows.Filter(old(lines), (l: IngredientsInRecipe) => l.recipe != id)
      ensures r.Success? ==> LinesOf(lines, id) == LinesFor(data.ingredients.value, id)
      ensures r.Failure? ==> LinesOf(lines, id) == []
      ensures forall other :: other != id ==> LinesOf(lines, other) == LinesOf(old(lines), other)
      ensures data.ingredients.None? ==> r == Failure(KeyError("ingredientsinrecipe_set"))
      ensures data.ingredients.Some? && data.tags.None? ==> r == Failure(KeyError("tags"))
      ensures data.ingredients.None? || data.tags.None? ==>
        recipeTags == old(recipeTags) && recipes == old(recipes)
      ensures data.ingredients.Some? && data.tags.Some? ==>
        && recipeTags == SetTags(old(recipeTags), id, data.tags.value)
        && TagsOf(Snapshot(), id) == (set g | g in data.tags.value)
        && (forall other :: other != id ==> TagsOf(Snapshot(), other) == TagsOf(old(Snapshot()), other))
        && (r.Success? <==> Rows.KeysDistinct(data.ingredients.value, IdOf))
        && (r.Failure? ==> r.error == IntegrityError("unique_ingredient_recipe"))
      ensures r.Success? ==> r.value == id && recipes == old(recipes)[id := ApplyFields(old(recipes)[id], data)]
      ensures r.Failure? ==> recipes == old(recipes)
      ensures users == old(users) && subscriptions == old(subscriptions)
      ensures ingredients == old(ingredients) && tags == old(tags)
      ensures favorites == old(favorites) && carts == old(carts) && nextRecipeId == old(nextRecipeId)
    {
      var before := lines;
      DropLinesKeepsValid(Snapshot(), id);
      lines := Rows.Filter(lines, (l: IngredientsInRecipe) => l.recipe != id);
      Rows.FilterNone(lines, (l: IngredientsInRecipe) => l.recipe == id);
      forall other | other != id ensures LinesOf(lines, other) == LinesOf(before, other) {
        KeepOtherLines(before, id, other);
      }
      if data.ingredients.None? {
        return Failure(KeyError("ingredientsinrecipe_set"));
      }
      if data.tags.None? {
        return Failure(KeyError("tags"));
      }
      var es := data.ingredients.value;
      SetTagsKeepsValid(Snapshot(), id, data.tags.value);
      SetTagsReplaces(Snapshot(), id, data.tags.value);
      recipeTags := SetTags(recipeTags, id, data.tags.value);
      InsertFreshLines(lines, es, id);
      LinesOfFresh(lines, es, id);
      var written := IngredientsCreate(es, id);
      if written.Fail? {
        return Failure(written.error);
      }
      ChangeRecipeKeepsValid(Snapshot(), id, ApplyFields(recipes[id], data));
      recipes := recipes[id := ApplyFields(recipes[id], data)];
      return Success(id);
    }
  }
}
