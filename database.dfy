/**
 * The in-memory database: one value per table, the integrity the schema
 * declares (unique constraints and foreign keys that resolve), and the
 * deletions with the on_delete=CASCADE rules of the schema.
 */
module Database {

  import opened Wrappers
  import Rows
  import opened Users
  import opened Recipes

  /**
   * Entity tables are keyed by primary key; the link tables are kept in
   * row-id order; the recipe-tag many-to-many table is a set of pairs.
   */
  datatype Tables = Tables(
    users: map<UserId, User>,
    subscriptions: seq<Subscribe>,
    ingredients: map<IngredientId, Ingredient>,
    tags: map<TagId, Tag>,
    recipes: map<RecipeId, Recipe>,
    lines: seq<IngredientsInRecipe>,
    recipeTags: set<(RecipeId, TagId)>,
    favorites: seq<Membership>,
    carts: seq<Membership>)

  /** Every unique constraint of the schema holds. */
  ghost predicate Unique(t: Tables)
  {
    && UsersUnique(t.users)
    && Rows.NoDuplicates(t.subscriptions)
    && TagsUnique(t.tags)
    && LinesUnique(t.lines)
    && Rows.NoDuplicates(t.favorites)
    && Rows.NoDuplicates(t.carts)
  }

  /** Every foreign key points at an existing row. */
  ghost predicate ReferencesResolve(t: Tables)
  {
    && (forall s :: s in t.subscriptions ==> s.user in t.users && s.author in t.users)
    && (forall r :: r in t.recipes && t.recipes[r].author.Some? ==> t.recipes[r].author.value in t.users)
    && (forall l :: l in t.lines ==> l.recipe in t.recipes && l.ingredient in t.ingredients)
    && (forall p :: p in t.recipeTags ==> p.0 in t.recipes && p.1 in t.tags)
    && (forall f :: f in t.favorites ==> f.user in t.users && f.recipe in t.recipes)
    && (forall c :: c in t.carts ==> c.user in t.users && c.recipe in t.recipes)
  }

  ghost predicate Valid(t: Tables)
  {
    Unique(t) && ReferencesResolve(t)
  }

  /** The ingredient lines of recipe `r`, in row-id order. */
  function LinesOf(lines: seq<IngredientsInRecipe>, r: RecipeId): seq<IngredientsInRecipe>
  {
    Rows.Filter(lines, (l: IngredientsInRecipe) => l.recipe == r)
  }

  /** The tags of recipe `r`. */
  function TagsOf(t: Tables, r: RecipeId): set<TagId>
  {
    set p | p in t.recipeTags && p.0 == r :: p.1
  }

  /**
   * bulk_create of ingredient lines: one atomic bulk insert, which the
   * unique_ingredient_recipe constraint refuses as a whole when any two
   * lines, old or new, share their (ingredient, recipe) pair.
   */
  function BulkInsertLines(lines: seq<IngredientsInRecipe>, rows: seq<IngredientsInRecipe>)
    : (r: Result<seq<IngredientsInRecipe>, string>)
    ensures r.Success? <==> LinesUnique(lines + rows)
    ensures r.Success? ==> r.value == lines + rows
    ensures r.Failure? ==> r.error == "unique_ingredient_recipe"
  {
    var all := lines + rows;
    if forall i, j | 0 <= i < j < |all| :: LineKey(all[i]) != LineKey(all[j]) then Success(all)
    else Failure("unique_ingredient_recipe")
  }

  /** The tag links `r.tags.set(tags)` leaves: the other recipes' links, and `r` linked to exactly `tags`. */
  function SetTags(links: set<(RecipeId, TagId)>, r: RecipeId, tags: seq<TagId>): (s: set<(RecipeId, TagId)>)
    ensures forall p :: p in s <==> (p in links && p.0 != r) || (p.0 == r && p.1 in tags)
  {
    (set p | p in links && p.0 != r) + (set g | g in tags :: (r, g))
  }

  /** After `set`, the recipe's tags are exactly the given ones and every other recipe's are as before. */
  lemma SetTagsReplaces(t: Tables, r: RecipeId, tags: seq<TagId>)
    ensures TagsOf(t.(recipeTags := SetTags(t.recipeTags, r, tags)), r) == set g | g in tags
    ensures forall other :: other != r ==>
      TagsOf(t.(recipeTags := SetTags(t.recipeTags, r, tags)), other) == TagsOf(t, other)
  {
    var u := t.(recipeTags := SetTags(t.recipeTags, r, tags));
    forall g ensures g in TagsOf(u, r) <==> g in tags {
      if g in tags {
        assert (r, g) in u.recipeTags;
      }
    }
    forall other | other != r ensures TagsOf(u, other) == TagsOf(t, other) {
      forall g ensures g in TagsOf(u, other) <==> g in TagsOf(t, other) {
        if g in TagsOf(t, other) {
          assert (other, g) in u.recipeTags;
        }
        if g in TagsOf(u, other) {
          assert (other, g) in t.recipeTags;
        }
      }
    }
  }

  /** A new recipe row with a fresh key and an existing (or no) author keeps the database valid. */
  lemma AddRecipeKeepsValid(t: Tables, id: RecipeId, rec: Recipe)
    requires Valid(t) && id !in t.recipes
    requires rec.author.Some? ==> rec.author.value in t.users
    ensures Valid(t.(recipes := t.recipes[id := rec]))
  {
  }

  /** Rewriting a recipe's fields but not its author keeps the database valid. */
  lemma ChangeRecipeKeepsValid(t: Tables, id: RecipeId, rec: Recipe)
    requires Valid(t) && id in t.recipes && rec.author == t.recipes[id].author
    ensures Valid(t.(recipes := t.recipes[id := rec]))
  {
  }

  /** Setting a recipe's tags to existing tags keeps the database valid. */
  lemma SetTagsKeepsValid(t: Tables, id: RecipeId, tags: seq<TagId>)
    requires Valid(t) && id in t.recipes
    requires forall g :: g in tags ==> g in t.tags
    ensures Valid(t.(recipeTags := SetTags(t.recipeTags, id, tags)))
  {
  }

  /** Appending lines that resolve and respect the unique constraint keeps the database valid. */
  lemma AppendLinesKeepsValid(t: Tables, rows: seq<IngredientsInRecipe>)
    requires Valid(t) && LinesUnique(t.lines + rows)
    requires forall l :: l in rows ==> l.recipe in t.recipes && l.ingredient in t.ingredients
    ensures Valid(t.(lines := t.lines + rows))
  {
  }

  /** Deleting the lines of one recipe keeps the database valid. */
  lemma DropLinesKeepsValid(t: Tables, id: RecipeId)
    requires Valid(t)
    ensures Valid(t.(lines := Rows.Filter(t.lines, (l: IngredientsInRecipe) => l.recipe != id)))
  {
    Rows.FilterKeysDistinct(t.lines, (l: IngredientsInRecipe) => l.recipe != id, LineKey);
  }

  /** Deleting a recipe: its lines, tag links, favorites and cart rows go with it. */
  function DeleteRecipe(t: Tables, r: RecipeId): (d: Tables)
    ensures d.recipes == t.recipes - {r}
    ensures forall l :: l in d.lines <==> l in t.lines && l.recipe != r
    ensures forall p :: p in d.recipeTags <==> p in t.recipeTags && p.0 != r
    ensures forall f :: f in d.favorites <==> f in t.favorites && f.recipe != r
    ensures forall c :: c in d.carts <==> c in t.carts && c.recipe != r
    ensures d.users == t.users && d.subscriptions == t.subscriptions
    ensures d.ingredients == t.ingredients && d.tags == t.tags
  {
    t.(recipes := t.recipes - {r},
       lines := Rows.Filter(t.lines, (l: IngredientsInRecipe) => l.recipe != r),
       recipeTags := (set p | p in t.recipeTags && p.0 != r),
       favorites := Rows.Filter(t.favorites, (f: Membership) => f.recipe != r),
       carts := Rows.Filter(t.carts, (c: Membership) => c.recipe != r))
  }

  /** Deleting an ingredient removes exactly the lines that use it. */
  function DeleteIngredient(t: Tables, i: IngredientId): (d: Tables)
    ensures d.ingredients == t.ingredients - {i}
    ensures forall l :: l in d.lines <==> l in t.lines && l.ingredient != i
    ensures d == t.(ingredients := d.ingredients, lines := d.lines)
  {
    t.(ingredients := t.ingredients - {i},
       lines := Rows.Filter(t.lines, (l: IngredientsInRecipe) => l.ingredient != i))
  }

  /** Deleting a tag removes it from every recipe and nothing else. */
  function DeleteTag(t: Tables, g: TagId): (d: Tables)
    ensures d.tags == t.tags - {g}
    ensures forall p :: p in d.recipeTags <==> p in t.recipeTags && p.1 != g
    ensures d == t.(tags := d.tags, recipeTags := d.recipeTags)
  {
    t.(tags := t.tags - {g}, recipeTags := set p | p in t.recipeTags && p.1 != g)
  }

  /** The recipes whose author is `u`. */
  function AuthoredBy(t: Tables, u: UserId): (a: set<RecipeId>)
    ensures a <= t.recipes.Keys
  {
    set r | r in t.recipes && t.recipes[r].author == Some(u)
  }

  /**
   * Deleting a user: their recipes go (and with them those recipes' lines,
   * tag links, favorites and cart rows), and so do the user's own favorites,
   * cart rows and every subscription in which they follow or are followed.
   */
  function DeleteUser(t: Tables, u: UserId): (d: Tables)
    ensures d.users == t.users - {u}
    ensures d.recipes == t.recipes - AuthoredBy(t, u)
    ensures forall l :: l in d.lines <==> l in t.lines && l.recipe !in AuthoredBy(t, u)
    ensures forall p :: p in d.recipeTags <==> p in t.recipeTags && p.0 !in AuthoredBy(t, u)
    ensures forall f :: f in d.favorites <==> f in t.favorites && f.user != u && f.recipe !in AuthoredBy(t, u)
    ensures forall c :: c in d.carts <==> c in t.carts && c.user != u && c.recipe !in AuthoredBy(t, u)
    ensures forall s :: s in d.subscriptions <==> s in t.subscriptions && s.user != u && s.author != u
    ensures d.ingredients == t.ingredients && d.tags == t.tags
  {
    var gone := AuthoredBy(t, u);
    Tables(
      users := t.users - {u},
      subscriptions := Rows.Filter(t.subscriptions, (s: Subscribe) => s.user != u && s.author != u),
      ingredients := t.ingredients,
      tags := t.tags,
      recipes := t.recipes - gone,
      lines := Rows.Filter(t.lines, (l: IngredientsInRecipe) => l.recipe !in gone),
      recipeTags := (set p | p in t.recipeTags && p.0 !in gone),
      favorites := Rows.Filter(t.favorites, (f: Membership) => f.user != u && f.recipe !in gone),
      carts := Rows.Filter(t.carts, (c: Membership) => c.user != u && c.recipe !in gone))
  }

  /** Once a user is deleted, no recipe, favorite, cart row or subscription refers to them. */
  lemma DeleteUserLeavesNoTrace(t: Tables, u: UserId)
    ensures AuthoredBy(DeleteUser(t, u), u) == {}
    ensures forall r :: r in DeleteUser(t, u).recipes ==> DeleteUser(t, u).recipes[r].author != Some(u)
    ensures forall f :: f in DeleteUser(t, u).favorites ==> f.user != u
    ensures forall c :: c in DeleteUser(t, u).carts ==> c.user != u
    ensures forall s :: s in DeleteUser(t, u).subscriptions ==> s.user != u && s.author != u
  {
  }

  lemma DeleteRecipeKeepsValid(t: Tables, r: RecipeId)
    requires Valid(t)
    ensures Valid(DeleteRecipe(t, r))
  {
    Rows.FilterKeysDistinct(t.lines, (l: IngredientsInRecipe) => l.recipe != r, LineKey);
    Rows.FilterNoDuplicates(t.favorites, (f: Membership) => f.recipe != r);
    Rows.FilterNoDuplicates(t.carts, (c: Membership) => c.recipe != r);
  }

  lemma DeleteIngredientKeepsValid(t: Tables, i: IngredientId)
    requires Valid(t)
    ensures Valid(DeleteIngredient(t, i))
  {
    Rows.FilterKeysDistinct(t.lines, (l: IngredientsInRecipe) => l.ingredient != i, LineKey);
  }

  lemma DeleteTagKeepsValid(t: Tables, g: TagId)
    requires Valid(t)
    ensures Valid(DeleteTag(t, g))
  {
  }

  lemma DeleteUserKeepsValid(t: Tables, u: UserId)
    requires Valid(t)
    ensures Valid(DeleteUser(t, u))
  {
    var gone := AuthoredBy(t, u);
    Rows.FilterNoDuplicates(t.subscriptions, (s: Subscribe) => s.user != u && s.author != u);
    Rows.FilterKeysDistinct(t.lines, (l: IngredientsInRecipe) => l.recipe !in gone, LineKey);
    Rows.FilterNoDuplicates(t.favorites, (f: Membership) => f.user != u && f.recipe !in gone);
    Rows.FilterNoDuplicates(t.carts, (c: Membership) => c.user != u && c.recipe !in gone);
  }

  /** Deleting one recipe leaves every other recipe's lines as they were, in the same order. */
  lemma {:induction false} DeleteRecipeKeepsOtherLines(t: Tables, r: RecipeId, other: RecipeId)
    requires other != r
    ensures LinesOf(DeleteRecipe(t, r).lines, other) == LinesOf(t.lines, other)
  {
    KeepOtherLines(t.lines, r, other);
  }

  /** Dropping the lines of `r` does not change the lines of any other recipe. */
  lemma {:induction false} KeepOtherLines(lines: seq<IngredientsInRecipe>, r: RecipeId, other: RecipeId)
    requires other != r
    ensures LinesOf(Rows.Filter(lines, (l: IngredientsInRecipe) => l.recipe != r), other) == LinesOf(lines, other)
  {
    if lines != [] {
      var keep := (l: IngredientsInRecipe) => l.recipe != r;
      var head := if keep(lines[0]) then [lines[0]] else [];
      KeepOtherLines(lines[1..], r, other);
      assert Rows.Filter(lines, keep) == head + Rows.Filter(lines[1..], keep);
      Rows.FilterAppend(head, Rows.Filter(lines[1..], keep), (l: IngredientsInRecipe) => l.recipe == other);
    }
  }
}
