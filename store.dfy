/**
 * The relational store the views and serializers work on, in memory: the
 * recipe tables, and the three user relations of api/models.py (Favorite,
 * Subscription, Purchase). Each relation is a table of (user, target) rows
 * under a unique constraint on the pair, whose foreign keys cascade on delete.
 */
module Store {
  import opened Wrappers
  import opened Tables

  type UserId = nat
  type RecipeId = nat

  datatype Tag = Tag(title: string, slug: string)

  /** The recipe fields the core reads: its author and its tags. */
  datatype Recipe = Recipe(author: UserId, title: string, tags: set<Tag>)

  /** A RecipeIngredient join row; the ingredient is named by its unique title. */
  datatype RecipeIngredient = RecipeIngredient(recipe: RecipeId, ingredient: string, quantity: real)

  /**
   * A row of one of the user relations. For Favorite and Purchase the target is
   * a recipe; for Subscription it is the author the user follows.
   */
  datatype Pair = Pair(user: UserId, target: nat)

  datatype Relation = Favorites | Subscriptions | Purchases

  /** The IntegrityError an insert raises. */
  datatype StoreError = UniqueViolation | ForeignKeyViolation

  /** The rows of a user relation are unique and refer to existing rows. */
  ghost predicate RelationValid(rows: seq<Pair>, users: set<UserId>, targets: set<nat>)
  {
    && Unique(rows)
    && forall p :: p in rows ==> p.user in users && p.target in targets
  }

  /**
   * Join rows refer to existing recipes and ingredients, and at most one row
   * links a recipe to an ingredient.
   */
  ghost predicate JoinRowsValid(rows: seq<RecipeIngredient>, recipes: set<RecipeId>, catalogue: set<string>)
  {
    && Unique(rows)
    && (forall w :: w in rows ==> w.recipe in recipes && w.ingredient in catalogue)
    && forall w, x :: w in rows && x in rows && w.recipe == x.recipe && w.ingredient == x.ingredient ==> w == x
  }

  function NotOfRecipe(rid: RecipeId): RecipeIngredient -> bool
  {
    (w: RecipeIngredient) => w.recipe != rid
  }

  function OfRecipe(rid: RecipeId): RecipeIngredient -> bool
  {
    (w: RecipeIngredient) => w.recipe == rid
  }

  function NotTarget(t: nat): Pair -> bool
  {
    (p: Pair) => p.target != t
  }

  function NotUser(u: UserId): Pair -> bool
  {
    (p: Pair) => p.user != u
  }

  function Unrelated(u: UserId): Pair -> bool
  {
    (p: Pair) => p.user != u && p.target != u
  }

  /** Removing the rows that refer to target `t` keeps a relation valid without `t`. */
  lemma RelationWithoutTarget(rows: seq<Pair>, users: set<UserId>, targets: set<nat>, t: nat)
    requires RelationValid(rows, users, targets)
    ensures RelationValid(Filter(rows, NotTarget(t)), users, targets - {t})
  {
    var kept := Filter(rows, NotTarget(t));
    forall p | p in kept ensures p.user in users && p.target in targets - {t} {
      assert p in rows && NotTarget(t)(p);
    }
  }

  /**
   * Removing the rows that involve user `u` (as `user`, and as target when
   * `alsoTarget`) keeps a relation valid without `u`.
   */
  lemma RelationWithoutUser(rows: seq<Pair>, users: set<UserId>, targets: set<nat>, u: UserId, alsoTarget: bool)
    requires RelationValid(rows, users, targets)
    ensures var keep := if alsoTarget then Unrelated(u) else NotUser(u);
      RelationValid(Filter(rows, keep), users - {u}, if alsoTarget then targets - {u} else targets)
  {
    var keep := if alsoTarget then Unrelated(u) else NotUser(u);
    var kept := Filter(rows, keep);
    forall p | p in kept
      ensures p.user in users - {u} && p.target in (if alsoTarget then targets - {u} else targets)
    {
      assert p in rows && keep(p);
    }
  }

  /** Removing a recipe's join rows keeps the join table valid without that recipe. */
  lemma JoinRowsWithoutRecipe(rows: seq<RecipeIngredient>, recipes: set<RecipeId>, catalogue: set<string>, rid: RecipeId)
    requires JoinRowsValid(rows, recipes, catalogue)
    ensures JoinRowsValid(Filter(rows, NotOfRecipe(rid)), recipes - {rid}, catalogue)
  {
    var kept := Filter(rows, NotOfRecipe(rid));
    forall w | w in kept ensures w.recipe in recipes - {rid} && w.ingredient in catalogue {
      assert w in rows && NotOfRecipe(rid)(w);
    }
  }

  class Database {
    var users: set<UserId>
    var recipes: map<RecipeId, Recipe>
    /** The primary key the next new recipe receives. */
    var nextRecipeId: RecipeId
    /** The Ingredient table: title to dimension (unit of measurement). */
    var ingredients: map<string, string>
    var recipeIngredients: seq<RecipeIngredient>
    var favorites: seq<Pair>
    var subscriptions: seq<Pair>
    var purchases: seq<Pair>

    ghost predicate Valid()
      reads this
    {
      && (forall id :: id in recipes ==> id < nextRecipeId)
      && JoinRowsValid(recipeIngredients, recipes.Keys, ingredients.Keys)
      && RelationValid(favorites, users, recipes.Keys)
      && RelationValid(subscriptions, users, users)
      && RelationValid(purchases, users, recipes.Keys)
    }

    function Rows(rel: Relation): seq<Pair>
      reads this
    {
      match rel
      case Favorites => favorites
      case Subscriptions => subscriptions
      case Purchases => purchases
    }

    /** What the target column of a relation refers to. */
    function Targets(rel: Relation): set<nat>
      reads this
    {
      if rel == Subscriptions then users else recipes.Keys
    }

    constructor (users: set<UserId>, ingredients: map<string, string>)
      ensures Valid()
      ensures this.users == users && this.ingredients == ingredients
      ensures recipes == map[] && recipeIngredients == []
      ensures favorites == [] && subscriptions == [] && purchases == []
    {
      this.users := users;
      this.ingredients := ingredients;
      recipes := map[];
      nextRecipeId := 0;
      recipeIngredients := [];
      favorites, subscriptions, purchases := [], [], [];
    }

    /**
     * `objects.create(user=..., <target>=...)` on one relation: the unique
     * constraint rejects a pair already present, the foreign keys a pair whose
     * user or target does not exist; otherwise exactly that row is added.
     */
    method Insert(rel: Relation, p: Pair) returns (r: Result<Pair, StoreError>)
      requires Valid()
      modifies this`favorites, this`subscriptions, this`purchases
      ensures Valid()
      ensures p in old(Rows(rel)) ==> r == Failure(UniqueViolation)
      ensures r.Success? <==> p !in old(Rows(rel)) && p.user in users && p.target in Targets(rel)
      ensures r.Success? ==> r.value == p && Rows(rel) == old(Rows(rel)) + [p]
      ensures r.Failure? ==> Rows(rel) == old(Rows(rel))
      ensures forall other :: other != rel ==> Rows(other) == old(Rows(other))
    {
      if p in Rows(rel) {
        return Failure(UniqueViolation);
      }
      if p.user !in users || p.target !in Targets(rel) {
        return Failure(ForeignKeyViolation);
      }
      UniqueAppend(Rows(rel), [p]);
      match rel {
        case Favorites => favorites := favorites + [p];
        case Subscriptions => subscriptions := subscriptions + [p];
        case Purchases => purchases := purchases + [p];
      }
      return Success(p);
    }

    /**
     * `recipe.delete()`: the recipe goes, and with it every join row, Favorite
     * and Purchase that refers to it.
     */
    method DeleteRecipe(rid: RecipeId)
      requires Valid()
      modifies this`recipes, this`recipeIngredients, this`favorites, this`purchases
      ensures Valid()
      ensures recipes == old(recipes) - {rid}
      ensures recipeIngredients == Filter(old(recipeIngredients), NotOfRecipe(rid))
      ensures favorites == Filter(old(favorites), NotTarget(rid))
      ensures purchases == Filter(old(purchases), NotTarget(rid))
      ensures forall w :: w in recipeIngredients <==> w in old(recipeIngredients) && w.recipe != rid
      ensures forall p :: p in favorites <==> p in old(favorites) && p.target != rid
      ensures forall p :: p in purchases <==> p in old(purchases) && p.target != rid
    {
      JoinRowsWithoutRecipe(recipeIngredients, recipes.Keys, ingredients.Keys, rid);
      RelationWithoutTarget(favorites, users, recipes.Keys, rid);
      RelationWithoutTarget(purchases, users, recipes.Keys, rid);
      recipes := recipes - {rid};
      recipeIngredients := Filter(recipeIngredients, NotOfRecipe(rid));
      favorites := Filter(favorites, NotTarget(rid));
      purchases := Filter(purchases, NotTarget(rid));
    }

    /**
     * Deleting a user: their Favorites and Purchases go, and so does every
     * Subscription in which they are the follower or the author followed.
     */
    method DeleteUser(u: UserId)
      requires Valid()
      modifies this`users, this`favorites, this`subscriptions, this`purchases
      ensures Valid()
      ensures users == old(users) - {u}
      ensures favorites == Filter(old(favorites), NotUser(u))
      ensures purchases == Filter(old(purchases), NotUser(u))
      ensures subscriptions == Filter(old(subscriptions), Unrelated(u))
      ensures forall p :: p in favorites <==> p in old(favorites) && p.user != u
      ensures forall p :: p in purchases <==> p in old(purchases) && p.user != u
      ensures forall p :: p in subscriptions <==> p in old(subscriptions) && p.user != u && p.target != u
    {
      RelationWithoutUser(favorites, users, recipes.Keys, u, false);
      RelationWithoutUser(purchases, users, recipes.Keys, u, false);
      RelationWithoutUser(subscriptions, users, users, u, true);
      users := users - {u};
      favorites := Filter(favorites, NotUser(u));
      purchases := Filter(purchases, NotUser(u));
      subscriptions := Filter(subscriptions, Unrelated(u));
    }
  }
}
