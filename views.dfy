/**
 * The decisions of the recipe views in recipes/views.py: who may edit or
 * delete a recipe, what creating, editing and deleting do to the store, and
 * which recipes the index and profile pages list for the requested tags.
 * Rendering, pagination and redirects are reduced to the response they end in.
 */
module Views {
  import opened Wrappers
  import opened Tables
  import opened IngredientForm
  import opened Store
  import opened RecipeUtils

  /** The logged-in user making the request (all three views require a login). */
  datatype Requester = Requester(id: UserId, isSuperuser: bool)

  /** How a view ends. */
  datatype Response =
    | NotFound                          // Http404
    | RedirectToRecipe(recipe: RecipeId)
    | RedirectToIndex
    | RenderForm                        // the form page again, with its errors
    | ServerError                       // any other exception leaving the view

  /** The edit and delete guard: superuser or author. */
  predicate CanModify(requester: Requester, recipe: Recipe)
  {
    requester.isSuperuser || requester.id == recipe.author
  }

  /**
   * The response an exception from `save_recipe` turns into: Http404 for an
   * unknown ingredient title; a server error for the others (a KeyError, an
   * IndexError, an InvalidOperation, or the TypeError of raising a response
   * class).
   */
  function ErrorResponse(e: SaveError): (r: Response)
    ensures r == NotFound <==> e.UnknownIngredient?
    ensures r == NotFound || r == ServerError
  {
    if e.UnknownIngredient? then NotFound else ServerError
  }

  /**
   * `recipe_new`: a valid form is saved as a new recipe of the requester, whose
   * page the view redirects to; an invalid form is shown again. A new recipe
   * has no rows yet, so the bulk insert never breaks the unique constraint.
   */
  method RecipeNew(db: Database, requester: Requester, formValid: bool, form: RecipeForm,
                   post: Post, toDecimal: string -> Option<real>)
    returns (resp: Response)
    requires db.Valid() && DistinctKeys(post)
    modifies db`recipes, db`nextRecipeId, db`recipeIngredients
    ensures db.Valid()
    ensures
      var rid := old(db.nextRecipeId);
      var rows := RowsFor(rid, post, db.ingredients, toDecimal);
      && (!formValid ==> resp == RenderForm)
      && (formValid && rows.Failure? ==> resp == ErrorResponse(rows.error))
      && (formValid && rows.Success? ==>
        && resp == RedirectToRecipe(rid) && rid !in old(db.recipes)
        && db.recipes == old(db.recipes)[rid := Recipe(requester.id, form.title, form.tags)]
        && db.recipeIngredients == old(db.recipeIngredients) + rows.value)
    ensures !resp.RedirectToRecipe? ==>
      db.recipes == old(db.recipes) && db.recipeIngredients == old(db.recipeIngredients)
      && db.nextRecipeId == old(db.nextRecipeId)
  {
    if !formValid {
      return RenderForm;
    }
    if RowsFor(db.nextRecipeId, post, db.ingredients, toDecimal).Success? {
      RowsForEntries(db.nextRecipeId, post, db.ingredients, toDecimal);
    }
    var r := SaveRecipe(db, requester.id, form, None, post, toDecimal);
    match r {
      case Success(id) => resp := RedirectToRecipe(id);
      case Failure(e) => resp := ErrorResponse(e);
    }
  }

  /**
   * `recipe_edit`: an unknown id is a 404; a requester who is neither
   * superuser nor author is redirected to the recipe and nothing changes; a
   * valid form replaces the recipe and its ingredient rows (`edit_recipe`).
   */
  method RecipeEdit(db: Database, requester: Requester, rid: RecipeId, formValid: bool,
                    form: RecipeForm, post: Post, toDecimal: string -> Option<real>)
    returns (resp: Response)
    requires db.Valid() && DistinctKeys(post)
    modifies db`recipes, db`nextRecipeId, db`recipeIngredients
    ensures db.Valid() && db.nextRecipeId == old(db.nextRecipeId)
    ensures rid !in old(db.recipes) ==> resp == NotFound
    ensures rid in old(db.recipes) && !CanModify(requester, old(db.recipes)[rid]) ==> resp == RedirectToRecipe(rid)
    ensures rid in old(db.recipes) && CanModify(requester, old(db.recipes)[rid]) && !formValid ==> resp == RenderForm
    ensures
      var rows := RowsFor(rid, post, db.ingredients, toDecimal);
      rid in old(db.recipes) && CanModify(requester, old(db.recipes)[rid]) && formValid ==>
        && (rows.Failure? ==> resp == ErrorResponse(rows.error))
        && (rows.Success? ==>
          && resp == RedirectToRecipe(rid)
          && db.recipes == old(db.recipes)[rid := Recipe(requester.id, form.title, form.tags)]
          && Filter(db.recipeIngredients, OfRecipe(rid)) == rows.value
          && Filter(db.recipeIngredients, NotOfRecipe(rid)) == Filter(old(db.recipeIngredients), NotOfRecipe(rid)))
    ensures rid !in old(db.recipes) || !CanModify(requester, old(db.recipes)[rid]) || !formValid
            || resp != RedirectToRecipe(rid) ==>
      db.recipes == old(db.recipes) && db.recipeIngredients == old(db.recipeIngredients)
  {
    if rid !in db.recipes {
      return NotFound;
    }
    var recipe := db.recipes[rid];
    if !requester.isSuperuser {
      if requester.id != recipe.author {
        return RedirectToRecipe(rid);
      }
    }
    if !formValid {
      return RenderForm;
    }
    var r := EditRecipe(db, requester.id, form, rid, post, toDecimal);
    match r {
      case Success(_) => resp := RedirectToRecipe(rid);
      case Failure(e) => resp := ErrorResponse(e);
    }
  }

  /**
   * `recipe_delete`: an unknown id is a 404; otherwise the recipe is deleted,
   * with its cascade, exactly when the requester may modify it, and the view
   * always redirects to the index.
   */
  method RecipeDelete(db: Database, requester: Requester, rid: RecipeId) returns (resp: Response)
    requires db.Valid()
    modifies db`recipes, db`recipeIngredients, db`favorites, db`purchases
    ensures db.Valid()
    ensures resp == if rid in old(db.recipes) then RedirectToIndex else NotFound
    ensures rid in db.recipes <==> rid in old(db.recipes) && !CanModify(requester, old(db.recipes)[rid])
    ensures db.recipes.Keys == old(db.recipes).Keys - (if rid in db.recipes then {} else {rid})
    ensures rid !in db.recipes ==>
      && (forall w :: w in db.recipeIngredients ==> w.recipe != rid)
      && (forall p :: p in db.favorites ==> p.target != rid)
      && (forall p :: p in db.purchases ==> p.target != rid)
    ensures rid in old(db.recipes) && rid !in db.recipes ==>
      && db.recipes == old(db.recipes) - {rid}
      && db.recipeIngredients == Filter(old(db.recipeIngredients), NotOfRecipe(rid))
      && db.favorites == Filter(old(db.favorites), NotTarget(rid))
      && db.purchases == Filter(old(db.purchases), NotTarget(rid))
    ensures rid in db.recipes || rid !in old(db.recipes) ==>
      && db.recipes == old(db.recipes) && db.recipeIngredients == old(db.recipeIngredients)
      && db.favorites == old(db.favorites) && db.purchases == old(db.purchases)
  {
    if rid !in db.recipes {
      return NotFound;
    }
    if requester.isSuperuser || requester.id == db.recipes[rid].author {
      db.DeleteRecipe(rid);
    }
    return RedirectToIndex;
  }

  /** `tags__title__in=titles`: the recipe has a tag with one of these titles. */
  predicate Listed(recipe: Recipe, titles: seq<string>)
  {
    exists t :: t in recipe.tags && t.title in titles
  }

  /**
   * The recipes `index` lists, each once (`distinct()`), for the requested tag
   * titles (`request.GET.getlist('tag', TAGS)`).
   */
  function Index(recipes: map<RecipeId, Recipe>, titles: seq<string>): (r: set<RecipeId>)
    ensures forall id :: id in r <==> id in recipes && Listed(recipes[id], titles)
  {
    set id | id in recipes && Listed(recipes[id], titles)
  }

  /** The recipes `profile_view` lists for an author; `None` is the 404 for an unknown user. */
  function ProfileView(users: set<UserId>, recipes: map<RecipeId, Recipe>, author: UserId,
                       titles: seq<string>): (r: Option<set<RecipeId>>)
    ensures r.None? <==> author !in users
    ensures r.Some? ==> forall id :: id in r.value <==>
      id in recipes && recipes[id].author == author && Listed(recipes[id], titles)
  {
    if author !in users then None
    else Some(set id | id in recipes && recipes[id].author == author && Listed(recipes[id], titles))
  }

  /** A profile page lists exactly the author's part of what the index lists for the same tags. */
  lemma ProfileViewIsIndexOfAuthor(users: set<UserId>, recipes: map<RecipeId, Recipe>,
                                   author: UserId, titles: seq<string>)
    requires author in users
    ensures ProfileView(users, recipes, author, titles)
      == Some(set id | id in Index(recipes, titles) && recipes[id].author == author)
  {
    var listed := Index(recipes, titles);
    var own := set id | id in listed && recipes[id].author == author;
    assert ProfileView(users, recipes, author, titles).value == own by {
      forall id ensures id in ProfileView(users, recipes, author, titles).value <==> id in own {
        if id in recipes && Listed(recipes[id], titles) {
          assert id in listed;
        }
      }
    }
  }

  /** Requesting more tags never hides a recipe; requesting two lists gives the union. */
  lemma IndexUnion(recipes: map<RecipeId, Recipe>, a: seq<string>, b: seq<string>)
    ensures Index(recipes, a + b) == Index(recipes, a) + Index(recipes, b)
  {
    forall id | id in Index(recipes, a + b) ensures id in Index(recipes, a) + Index(recipes, b) {
      var t :| t in recipes[id].tags && t.title in a + b;
    }
  }
}
