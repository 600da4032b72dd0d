/**
 * The recipe schema (backend/recipes/models.py): ingredients, tags,
 * recipes, the ingredient lines that tie a recipe to its ingredients,
 * and the favorite and shopping-cart rows; their defaults, their unique
 * constraints and the default orderings of the listings.
 */
module Recipes {

  import opened Wrappers
  import Rows
  import Users

  type IngredientId = nat
  type TagId = nat
  type RecipeId = nat

  datatype Ingredient = Ingredient(name: string, measurementUnit: string)

  datatype Tag = Tag(name: string, color: string, slug: string)

  /**
   * A recipe. The author may be null in the schema; `pubDate` is set once,
   * when the row is created, from an opaque clock reading.
   */
  datatype Recipe = Recipe(
    author: Option<Users.UserId>,
    name: string,
    text: string,
    image: Option<string>,
    cookingTime: nat,
    pubDate: nat)

  const DefaultCookingTime: nat := 1

  /** A recipe row as the database creates it: cooking time 1 unless given, publication date `now`. */
  function NewRecipe(author: Option<Users.UserId>, name: string, text: string, image: Option<string>,
                     cookingTime: Option<nat>, now: nat): (r: Recipe)
    ensures r.author == author && r.name == name && r.text == text && r.image == image
    ensures cookingTime.None? ==> r.cookingTime == 1
    ensures cookingTime.Some? ==> r.cookingTime == cookingTime.value
    ensures r.pubDate == now
  {
    Recipe(author, name, text, image, if cookingTime.Some? then cookingTime.value else DefaultCookingTime, now)
  }

  /** One ingredient of one recipe with its amount (the IngredientsInRecipe row). */
  datatype IngredientsInRecipe = IngredientsInRecipe(recipe: RecipeId, ingredient: IngredientId, amount: nat)

  /** The fields of the unique_ingredient_recipe constraint. */
  function LineKey(l: IngredientsInRecipe): (IngredientId, RecipeId)
  {
    (l.ingredient, l.recipe)
  }

  /** No two lines name the same ingredient for the same recipe. */
  ghost predicate LinesUnique(lines: seq<IngredientsInRecipe>)
  {
    Rows.KeysDistinct(lines, LineKey)
  }

  /**
   * A Favorite or a ShoppingCart row: `user` has marked `recipe`. Both tables
   * have a unique (recipe, user) constraint, so a row is exactly its key.
   */
  datatype Membership = Membership(user: Users.UserId, recipe: RecipeId)

  /** No two tags share a name, a color or a slug. */
  ghost predicate TagsUnique(tags: map<TagId, Tag>)
  {
    forall a, b :: a in tags && b in tags && a != b ==>
      tags[a].name != tags[b].name && tags[a].color != tags[b].color && tags[a].slug != tags[b].slug
  }

  /** Saving a new tag: refused when its key, name, color or slug is taken. */
  function InsertTag(tags: map<TagId, Tag>, id: TagId, t: Tag): (r: Result<map<TagId, Tag>, string>)
    ensures r.Success? <==>
      id !in tags && forall k :: k in tags ==>
        tags[k].name != t.name && tags[k].color != t.color && tags[k].slug != t.slug
    ensures r.Success? ==> r.value == tags[id := t]
    ensures TagsUnique(tags) && r.Success? ==> TagsUnique(r.value)
  {
    if id in tags then Failure("recipes_tag_pkey")
    else if exists k :: k in tags && tags[k].name == t.name then Failure("recipes_tag_name_key")
    else if exists k :: k in tags && tags[k].color == t.color then Failure("recipes_tag_color_key")
    else if exists k :: k in tags && tags[k].slug == t.slug then Failure("recipes_tag_slug_key")
    else Success(tags[id := t])
  }

  /**
   * Lexicographic order on names, code point by code point: the order of
   * `ordering = ['name']` under a binary collation.
   */
  predicate NameLe(a: string, b: string)
  {
    if a == [] then true
    else if b == [] then false
    else if a[0] != b[0] then a[0] < b[0]
    else NameLe(a[1..], b[1..])
  }

  lemma {:induction false} NameLeTotal(a: string, b: string)
    ensures NameLe(a, b) || NameLe(b, a)
  {
    if a != [] && b != [] && a[0] == b[0] {
      NameLeTotal(a[1..], b[1..]);
    }
  }

  lemma {:induction false} NameLeAntisymmetric(a: string, b: string)
    requires NameLe(a, b) && NameLe(b, a)
    ensures a == b
  {
    if a != [] && b != [] {
      NameLeAntisymmetric(a[1..], b[1..]);
      assert a == [a[0]] + a[1..] && b == [b[0]] + b[1..];
    }
  }

  lemma {:induction false} NameLeTransitive(a: string, b: string, c: string)
    requires NameLe(a, b) && NameLe(b, c)
    ensures NameLe(a, c)
  {
    if a != [] && b != [] && c != [] && a[0] == b[0] && b[0] == c[0] {
      NameLeTransitive(a[1..], b[1..], c[1..]);
    }
  }

  /** An ingredient listing in its default order: by name, ascending. */
  ghost predicate IngredientsOrdered(s: seq<Ingredient>)
  {
    forall i, j :: 0 <= i < j < |s| ==> NameLe(s[i].name, s[j].name)
  }

  /** A tag listing in its default order: by name, ascending. */
  ghost predicate TagsOrdered(s: seq<Tag>)
  {
    forall i, j :: 0 <= i < j < |s| ==> NameLe(s[i].name, s[j].name)
  }

  /** A recipe listing in its default order: by publication date, newest first. */
  ghost predicate RecipesOrdered(s: seq<Recipe>)
  {
    forall i, j :: 0 <= i < j < |s| ==> s[i].pubDate >= s[j].pubDate
  }

  function IngredientNameLe(a: Ingredient, b: Ingredient): bool
  {
    NameLe(a.name, b.name)
  }

  function TagNameLe(a: Tag, b: Tag): bool
  {
    NameLe(a.name, b.name)
  }

  function PublishedNoEarlier(a: Recipe, b: Recipe): bool
  {
    a.pubDate >= b.pubDate
  }

  /** Comparing rows by a name column is an ORDER BY key. */
  lemma NameKeyPreorder<T(!new)>(name: T -> string, le: (T, T) -> bool)
    requires forall a, b :: le(a, b) == NameLe(name(a), name(b))
    ensures Rows.TotalPreorder(le)
  {
    forall a, b ensures le(a, b) || le(b, a) {
      NameLeTotal(name(a), name(b));
    }
    forall a, b, c | le(a, b) && le(b, c) ensures le(a, c) {
      NameLeTransitive(name(a), name(b), name(c));
    }
  }

  /** Ingredient rows as a query returns them under `ordering = ['name']`. */
  function IngredientListing(rows: seq<Ingredient>): (r: seq<Ingredient>)
    ensures IngredientsOrdered(r)
    ensures multiset(r) == multiset(rows)
  {
    NameKeyPreorder((x: Ingredient) => x.name, IngredientNameLe);
    Rows.SortBy(rows, IngredientNameLe)
  }

  /** Tag rows as a query returns them under `ordering = ['name']`. */
  function TagListing(rows: seq<Tag>): (r: seq<Tag>)
    ensures TagsOrdered(r)
    ensures multiset(r) == multiset(rows)
  {
    NameKeyPreorder((x: Tag) => x.name, TagNameLe);
    Rows.SortBy(rows, TagNameLe)
  }

  /** Recipe rows as a query returns them under `ordering = ['-pub_date']`. */
  function RecipeListing(rows: seq<Recipe>): (r: seq<Recipe>)
    ensures RecipesOrdered(r)
    ensures multiset(r) == multiset(rows)
  {
    Rows.SortBy(rows, PublishedNoEarlier)
  }

  /** The most recently published recipe heads the recipe listing. */
  lemma NewestFirst(rows: seq<Recipe>)
    requires rows != []
    ensures forall x :: x in rows ==> RecipeListing(rows)[0].pubDate >= x.pubDate
  {
    var r := RecipeListing(rows);
    assert |r| == |multiset(rows)| == |rows|;
    forall x | x in rows ensures r[0].pubDate >= x.pubDate {
      assert x in multiset(r);
      var k :| 0 <= k < |r| && r[k] == x;
    }
  }

  /** Within `s`, a tag is identified by its name. */
  ghost predicate NamesIdentify(s: seq<Tag>)
  {
    forall x, y :: x in s && y in s && x.name == y.name ==> x == y
  }

  /** Dropping the first row of a name-ordered tag listing leaves it ordered. */
  lemma TagsOrderedTail(s: seq<Tag>)
    requires s != [] && TagsOrdered(s)
    ensures TagsOrdered(s[1..])
  {
    forall i, j | 0 <= i < j < |s[1..]| ensures NameLe(s[1..][i].name, s[1..][j].name) {
      assert s[1..][i] == s[i + 1] && s[1..][j] == s[j + 1];
    }
  }

  /** Two name-ordered listings of the same uniquely named rows start with the same row. */
  lemma SameHead(a: seq<Tag>, b: seq<Tag>)
    requires TagsOrdered(a) && TagsOrdered(b)
    requires NamesIdentify(a)
    requires multiset(a) == multiset(b)
    requires a != []
    ensures b != [] && a[0] == b[0]
  {
    assert a[0] in multiset(b);
    assert b != [] && b[0] in multiset(a);
    var m :| 0 <= m < |a| && a[m] == b[0];
    var k :| 0 <= k < |b| && b[k] == a[0];
    if m != 0 && k != 0 {
      assert NameLe(a[0].name, a[m].name) && NameLe(b[0].name, b[k].name);
      NameLeAntisymmetric(a[0].name, b[0].name);
    }
  }

  /**
   * Tag names are unique, so the name order leaves no ties: two listings of
   * the same tag rows in the default order are the same listing.
   */
  lemma {:induction false} TagListingDetermined(a: seq<Tag>, b: seq<Tag>)
    requires TagsOrdered(a) && TagsOrdered(b)
    requires NamesIdentify(a)
    requires multiset(a) == multiset(b)
    ensures a == b
  {
    if a == [] {
      assert |b| == |multiset(b)| == 0;
    } else {
      SameHead(a, b);
      assert a == [a[0]] + a[1..] && b == [b[0]] + b[1..];
      assert multiset(a) == multiset{a[0]} + multiset(a[1..]);
      assert multiset(b) == multiset{b[0]} + multiset(b[1..]);
      assert multiset(a[1..]) == multiset(a) - multiset{a[0]} == multiset(b) - multiset{b[0]} == multiset(b[1..]);
      TagsOrderedTail(a);
      TagsOrderedTail(b);
      TagListingDetermined(a[1..], b[1..]);
    }
  }

  /**
   * Whatever order the database hands back the rows of a tag table in, the
   * tag listing is the same.
   */
  lemma TagListingIgnoresRowOrder(tags: map<TagId, Tag>, a: seq<Tag>, b: seq<Tag>)
    requires TagsUnique(tags)
    requires forall x :: x in a ==> x in tags.Values
    requires multiset(a) == multiset(b)
    ensures TagListing(a) == TagListing(b)
  {
    var la := TagListing(a);
    forall x, y | x in la && y in la && x.name == y.name ensures x == y {
      assert x in multiset(a) && y in multiset(a);
      assert x in a && y in a;
      var kx :| kx in tags && tags[kx] == x;
      var ky :| ky in tags && tags[ky] == y;
    }
    TagListingDetermined(la, TagListing(b));
  }
}
