/**
 * The recipe helpers of recipes/utils.py: saving a recipe with its ingredient
 * rows inside one transaction (`save_recipe`), replacing a recipe's ingredient
 * rows (`edit_recipe`) and the tag filter over a user's favourites
 * (`get_recipes`).
 *
 * A transaction is modelled by remembering the fields it writes and restoring
 * them when the block raises: afterwards the store is either in the state the
 * block built or exactly as it was.
 */
module RecipeUtils {
  import opened Wrappers
  import opened Tables
  import opened IngredientForm
  import opened Store

  /** The validated recipe form: the recipe fields the core reads. */
  datatype RecipeForm = RecipeForm(title: string, tags: set<Tag>)

  /** The exceptions that leave the atomic block of `save_recipe`. */
  datatype SaveError =
    | BadIngredientField(cause: ParseError)  // IndexError or KeyError in get_ingredients
    | UnknownIngredient(name: string)        // Http404 from get_object_or_404
    | InvalidQuantity(text: string)          // decimal.InvalidOperation
    | IntegrityViolation                     // IntegrityError from bulk_create

  /**
   * One iteration of the loop in `save_recipe`: look the ingredient up by
   * title, convert the quantity after replacing ',' by '.', build the join row.
   * `toDecimal` stands for `Decimal(...)`, `None` where it raises.
   */
  function ToRow(rid: RecipeId, entry: (string, string), catalogue: map<string, string>,
                 toDecimal: string -> Option<real>): (r: Result<RecipeIngredient, SaveError>)
    ensures entry.0 !in catalogue ==> r == Failure(UnknownIngredient(entry.0))
    ensures entry.0 in catalogue && toDecimal(Normalise(entry.1)).None? ==> r == Failure(InvalidQuantity(entry.1))
    ensures r.Failure? <==> entry.0 !in catalogue || toDecimal(Normalise(entry.1)).None?
    ensures r.Success? ==>
      && r.value.recipe == rid && r.value.ingredient == entry.0
      && toDecimal(Normalise(entry.1)) == Some(r.value.quantity)
  {
    var (name, quantity) := entry;
    if name !in catalogue then Failure(UnknownIngredient(name))
    else
      match toDecimal(Normalise(quantity))
      case None => Failure(InvalidQuantity(quantity))
      case Some(amount) => Success(RecipeIngredient(rid, name, amount))
  }

  /**
   * The rows the loop of `save_recipe` collects in `objs`: one per parsed entry,
   * in the dict's order, or the exception of the first entry that raises.
   */
  function BuildRows(rid: RecipeId, entries: Dict, catalogue: map<string, string>,
                     toDecimal: string -> Option<real>): (r: Result<seq<RecipeIngredient>, SaveError>)
    ensures r.Success? ==> |r.value| == |entries|
    ensures r.Success? ==>
      forall i :: 0 <= i < |entries| ==> ToRow(rid, entries[i], catalogue, toDecimal) == Success(r.value[i])
    ensures r.Failure? ==>
      exists i :: 0 <= i < |entries| && ToRow(rid, entries[i], catalogue, toDecimal) == Failure(r.error)
        && forall j :: 0 <= j < i ==> ToRow(rid, entries[j], catalogue, toDecimal).Success?
    decreases |entries|
  {
    if entries == [] then Success([])
    else
      var init := entries[..|entries| - 1];
      assert forall i :: 0 <= i < |init| ==> init[i] == entries[i];
      match BuildRows(rid, init, catalogue, toDecimal)
      case Failure(e) => Failure(e)
      case Success(rows) =>
        match ToRow(rid, entries[|entries| - 1], catalogue, toDecimal)
        case Failure(e) => Failure(e)
        case Success(row) => Success(rows + [row])
  }

  /** When every entry converts, the rows are the converted entries. */
  lemma BuildRowsSucceed(rid: RecipeId, entries: Dict, catalogue: map<string, string>,
                         toDecimal: string -> Option<real>, objs: seq<RecipeIngredient>)
    requires |objs| == |entries|
    requires forall j :: 0 <= j < |entries| ==> ToRow(rid, entries[j], catalogue, toDecimal) == Success(objs[j])
    ensures BuildRows(rid, entries, catalogue, toDecimal) == Success(objs)
  {
    var built := BuildRows(rid, entries, catalogue, toDecimal);
    assert forall k :: 0 <= k < |entries| ==> ToRow(rid, entries[k], catalogue, toDecimal).Success?;
    assert built.Success?;
    assert built.value == objs;
  }

  /** The first entry that fails decides the error. */
  lemma BuildRowsFail(rid: RecipeId, entries: Dict, catalogue: map<string, string>,
                      toDecimal: string -> Option<real>, i: nat)
    requires i < |entries|
    requires forall j :: 0 <= j < i ==> ToRow(rid, entries[j], catalogue, toDecimal).Success?
    requires ToRow(rid, entries[i], catalogue, toDecimal).Failure?
    ensures BuildRows(rid, entries, catalogue, toDecimal) == Failure(ToRow(rid, entries[i], catalogue, toDecimal).error)
  {
  }

  /**
   * What `get_ingredients` and the loop of `save_recipe` give for recipe
   * `rid`: the join rows, or the exception that leaves the atomic block.
   */
  function RowsFor(rid: RecipeId, post: Post, catalogue: map<string, string>,
                   toDecimal: string -> Option<real>): Result<seq<RecipeIngredient>, SaveError>
  {
    match ParseIngredients(post)
    case Failure(e) => Failure(BadIngredientField(e))
    case Success(entries) => BuildRows(rid, entries, catalogue, toDecimal)
  }

  /**
   * On success there is one row per parsed entry, for that entry's ingredient,
   * and every row points at the recipe being saved.
   */
  lemma RowsForEntries(rid: RecipeId, post: Post, catalogue: map<string, string>,
                       toDecimal: string -> Option<real>)
    requires RowsFor(rid, post, catalogue, toDecimal).Success?
    ensures ParseIngredients(post).Success?
    ensures var rows := RowsFor(rid, post, catalogue, toDecimal).value;
      && |rows| == |ParseIngredients(post).value|
      && (forall i :: 0 <= i < |rows| ==> rows[i].ingredient == ParseIngredients(post).value[i].0)
      && (forall x :: x in rows ==> x.recipe == rid && x.ingredient in catalogue)
  {
    var entries := ParseIngredients(post).value;
    var rows := RowsFor(rid, post, catalogue, toDecimal).value;
    forall x | x in rows ensures x.recipe == rid && x.ingredient in catalogue {
      var i :| 0 <= i < |rows| && rows[i] == x;
      assert ToRow(rid, entries[i], catalogue, toDecimal) == Success(x);
    }
    forall i | 0 <= i < |rows| ensures rows[i].ingredient == entries[i].0 {
      assert ToRow(rid, entries[i], catalogue, toDecimal) == Success(rows[i]);
    }
  }

  /**
   * Lines 49-59 of `save_recipe`: parse the posted ingredients, then collect
   * one join row per entry in `objs` until an entry raises.
   */
  method CollectRows(rid: RecipeId, post: Post, catalogue: map<string, string>,
                     toDecimal: string -> Option<real>) returns (r: Result<seq<RecipeIngredient>, SaveError>)
    requires DistinctKeys(post)
    ensures r == RowsFor(rid, post, catalogue, toDecimal)
    ensures r.Success? ==> ParseIngredients(post).Success? && |r.value| == |ParseIngredients(post).value|
    ensures r.Success? ==> forall i :: 0 <= i < |r.value| ==>
      r.value[i].recipe == rid && r.value[i].ingredient == ParseIngredients(post).value[i].0
      && r.value[i].ingredient in catalogue
  {
    var objs: seq<RecipeIngredient> := [];
    var parsed := GetIngredients(post);
    if parsed.Failure? {
      return Failure(BadIngredientField(parsed.error));
    }
    var entries := parsed.value;
    var i := 0;
    while i < |entries|
      invariant 0 <= i <= |entries| && |objs| == i
      invariant forall j :: 0 <= j < i ==> ToRow(rid, entries[j], catalogue, toDecimal) == Success(objs[j])
    {
      var (name, quantity) := entries[i];
      // ingredient = get_object_or_404(Ingredient, title=name)
      if name !in catalogue {
        BuildRowsFail(rid, entries, catalogue, toDecimal, i);
        return Failure(UnknownIngredient(name));
      }
      // Decimal(quantity.replace(',', '.'))
      var amount := toDecimal(Normalise(quantity));
      if amount.None? {
        BuildRowsFail(rid, entries, catalogue, toDecimal, i);
        return Failure(InvalidQuantity(quantity));
      }
      objs := objs + [RecipeIngredient(rid, name, amount.value)];
      i := i + 1;
    }
    BuildRowsSucceed(rid, entries, catalogue, toDecimal, objs);
    return Success(objs);
  }

  /** Two rows, one in each sequence, that link the same recipe and ingredient. */
  predicate Clash(table: seq<RecipeIngredient>, rows: seq<RecipeIngredient>)
  {
    exists w, x :: w in table && x in rows && w.recipe == x.recipe && w.ingredient == x.ingredient
  }

  /**
   * `save_recipe(request, form)`: save the form's recipe with the requester as
   * author (a new recipe when `instance` is `None`, the edited one otherwise),
   * parse the posted ingredients and bulk-create one join row per entry, all in
   * one atomic block. Any exception leaves the store as it was.
   */
  method SaveRecipe(db: Database, requester: UserId, form: RecipeForm, instance: Option<RecipeId>,
                    post: Post, toDecimal: string -> Option<real>)
    returns (r: Result<RecipeId, SaveError>)
    requires db.Valid() && DistinctKeys(post)
    requires instance.Some? ==> instance.value in db.recipes
    modifies db`recipes, db`nextRecipeId, db`recipeIngredients
    ensures db.Valid()
    ensures
      var rid := if instance.Some? then instance.value else old(db.nextRecipeId);
      var rows := RowsFor(rid, post, db.ingredients, toDecimal);
      && (rows.Failure? ==> r == Failure(rows.error))
      && (rows.Success? && Clash(old(db.recipeIngredients), rows.value) ==> r == Failure(IntegrityViolation))
      && (rows.Success? && !Clash(old(db.recipeIngredients), rows.value) ==>
        && r == Success(rid)
        && db.recipes == old(db.recipes)[rid := Recipe(requester, form.title, form.tags)]
        && db.recipeIngredients == old(db.recipeIngredients) + rows.value)
    ensures r.Success? && instance.None? ==> r.value !in old(db.recipes) && db.nextRecipeId == old(db.nextRecipeId) + 1
    ensures r.Failure? || instance.Some? ==> db.nextRecipeId == old(db.nextRecipeId)
    ensures r.Failure? ==> db.recipes == old(db.recipes) && db.recipeIngredients == old(db.recipeIngredients)
  {
    var savedRecipes, savedNext := db.recipes, db.nextRecipeId;

    // recipe = form.save(commit=False); recipe.author = request.user; recipe.save()
    var rid: RecipeId;
    var tags: set<Tag>;
    if instance.Some? {
      rid, tags := instance.value, db.recipes[instance.value].tags;
    } else {
      rid, tags := db.nextRecipeId, {};
      db.nextRecipeId := db.nextRecipeId + 1;
    }
    db.recipes := db.recipes[rid := Recipe(requester, form.title, tags)];

    var objs := CollectRows(rid, post, db.ingredients, toDecimal);
    // RecipeIngredient.objects.bulk_create(objs)
    if objs.Failure? || Clash(db.recipeIngredients, objs.value) {
      db.recipes, db.nextRecipeId := savedRecipes, savedNext;
      return if objs.Failure? then Failure(objs.error) else Failure(IntegrityViolation);
    }
    NewRowsValid(db.recipeIngredients, objs.value, rid, ParseIngredients(post).value, db.recipes.Keys, db.ingredients);
    db.recipeIngredients := db.recipeIngredients + objs.value;

    // form.save_m2m()
    db.recipes := db.recipes[rid := Recipe(requester, form.title, form.tags)];
    return Success(rid);
  }

  /** Appending the rows built for one recipe from a dict keeps the join table valid. */
  lemma NewRowsValid(table: seq<RecipeIngredient>, objs: seq<RecipeIngredient>, rid: RecipeId,
                     entries: Dict, recipes: set<RecipeId>, catalogue: map<string, string>)
    requires JoinRowsValid(table, recipes, catalogue.Keys) && rid in recipes
    requires DistinctKeys(entries) && |objs| == |entries|
    requires forall i :: 0 <= i < |objs| ==> objs[i].recipe == rid && objs[i].ingredient == entries[i].0
    requires forall x :: x in objs ==> x.ingredient in catalogue
    requires !Clash(table, objs)
    ensures JoinRowsValid(table + objs, recipes, catalogue.Keys)
  {
    assert Unique(objs) by {
      forall i, j | 0 <= i < j < |objs| ensures objs[i] != objs[j] {
        assert entries[i].0 != entries[j].0;
      }
    }
    UniqueAppend(table, objs);
    forall w, x | w in table + objs && x in table + objs && w.recipe == x.recipe && w.ingredient == x.ingredient
      ensures w == x
    {
      if w in objs && x in objs {
        var i :| 0 <= i < |objs| && objs[i] == w;
        var j :| 0 <= j < |objs| && objs[j] == x;
        assert entries[i].0 == entries[j].0;
      }
    }
  }

  /**
   * `edit_recipe(request, form, instance)`: inside one atomic block, delete the
   * recipe's join rows and run `save_recipe` on the instance. On success the
   * recipe's rows are exactly the ones built from the new post and every other
   * recipe's rows are untouched; on failure nothing changes, the deletion
   * included.
   */
  method EditRecipe(db: Database, requester: UserId, form: RecipeForm, instance: RecipeId,
                    post: Post, toDecimal: string -> Option<real>)
    returns (r: Result<RecipeId, SaveError>)
    requires db.Valid() && DistinctKeys(post) && instance in db.recipes
    modifies db`recipes, db`nextRecipeId, db`recipeIngredients
    ensures db.Valid()
    ensures db.nextRecipeId == old(db.nextRecipeId)
    ensures r != Failure(IntegrityViolation)
    ensures
      var rows := RowsFor(instance, post, db.ingredients, toDecimal);
      && (rows.Failure? ==> r == Failure(rows.error))
      && (rows.Success? ==>
        && r == Success(instance)
        && db.recipes == old(db.recipes)[instance := Recipe(requester, form.title, form.tags)]
        && Filter(db.recipeIngredients, OfRecipe(instance)) == rows.value
        && Filter(db.recipeIngredients, NotOfRecipe(instance)) == Filter(old(db.recipeIngredients), NotOfRecipe(instance)))
    ensures r.Failure? ==> db.recipes == old(db.recipes) && db.recipeIngredients == old(db.recipeIngredients)
  {
    var saved := db.recipeIngredients;
    // RecipeIngredient.objects.filter(recipe=instance).delete()
    db.recipeIngredients := Filter(db.recipeIngredients, NotOfRecipe(instance));
    r := SaveRecipe(db, requester, form, Some(instance), post, toDecimal);
    if r.Failure? {
      db.recipeIngredients := saved;
      return;
    }
    ReplaceRows(saved, RowsFor(instance, post, db.ingredients, toDecimal).value, instance);
  }

  /**
   * Deleting a recipe's rows and appending new rows for it leaves exactly the
   * new rows for that recipe and the other recipes' rows as they were.
   */
  lemma ReplaceRows(table: seq<RecipeIngredient>, rows: seq<RecipeIngredient>, rid: RecipeId)
    requires forall x :: x in rows ==> x.recipe == rid
    ensures !Clash(Filter(table, NotOfRecipe(rid)), rows)
    ensures Filter(Filter(table, NotOfRecipe(rid)) + rows, OfRecipe(rid)) == rows
    ensures Filter(Filter(table, NotOfRecipe(rid)) + rows, NotOfRecipe(rid)) == Filter(table, NotOfRecipe(rid))
  {
    var kept := Filter(table, NotOfRecipe(rid));
    FilterAppend(kept, rows, OfRecipe(rid));
    FilterAppend(kept, rows, NotOfRecipe(rid));
    FilterKeepsAll(rows, OfRecipe(rid));
    FilterKeepsAll(kept, NotOfRecipe(rid));
    FilterNone(kept, OfRecipe(rid));
    FilterNone(rows, NotOfRecipe(rid));
  }

  /** The recipes a user has favourited, in the order of the Favorite table. */
  function FavoriteRecipes(favorites: seq<Pair>, user: UserId): (r: seq<RecipeId>)
    ensures forall x :: x in r <==> Pair(user, x) in favorites
    ensures Unique(favorites) ==> Unique(r)
  {
    if favorites == [] then []
    else
      var rest := FavoriteRecipes(favorites[1..], user);
      assert Unique(favorites) ==> Unique(favorites[1..]) by {
        if Unique(favorites) {
          forall i, j | 0 <= i < j < |favorites[1..]| ensures favorites[1..][i] != favorites[1..][j] {
            assert favorites[1..][i] == favorites[i + 1] && favorites[1..][j] == favorites[j + 1];
          }
        }
      }
      assert Unique(favorites) ==> favorites[0] !in favorites[1..] by {
        if Unique(favorites) {
          forall k | 0 <= k < |favorites[1..]| ensures favorites[1..][k] != favorites[0] {
            assert favorites[1..][k] == favorites[k + 1];
          }
        }
      }
      if favorites[0].user == user then
        assert Unique(favorites) ==> Unique([favorites[0].target] + rest) by {
          if Unique(favorites) {
            UniqueAppend([favorites[0].target], rest);
          }
        }
        [favorites[0].target] + rest
      else rest
  }

  predicate HasTagSlug(recipe: Recipe, slugs: seq<string>)
  {
    exists t :: t in recipe.tags && t.slug in slugs
  }

  /**
   * `get_recipes(request, tags)`: the requester's favourite recipes, restricted
   * to those carrying a tag whose slug is requested when any tag is requested.
   * Each recipe is listed once: by `distinct()` when tags are given, and by the
   * Favorite table's unique constraint when they are not.
   */
  function GetRecipes(favorites: seq<Pair>, recipes: map<RecipeId, Recipe>, user: UserId,
                      tags: seq<string>): (r: seq<RecipeId>)
    ensures forall x :: x in r <==>
      Pair(user, x) in favorites && (tags == [] || (x in recipes && HasTagSlug(recipes[x], tags)))
    ensures tags != [] || Unique(favorites) ==> Unique(r)
  {
    if tags != [] then
      Distinct(Filter(FavoriteRecipes(favorites, user),
                      (x: RecipeId) => x in recipes && HasTagSlug(recipes[x], tags)))
    else FavoriteRecipes(favorites, user)
  }
}
