/**
 * The database as one object: the five tables as maps keyed by primary key,
 * the next key of each table, and the ORM writes the site performs. Each write
 * keeps the links between tables and their unique columns, which Consistent()
 * collects; Valid() adds that every user has a profile.
 */
module Store {
  import opened Wrappers
  import opened UserModels
  import opened RecipeModels

  predicate KeysBelow<V>(m: map<nat, V>, next: nat)
  {
    forall k :: k in m ==> k < next
  }

  /** Adding a fresh key grows a table by exactly one row. */
  lemma AddRowCount<V>(m: map<nat, V>, k: nat, v: V)
    requires k !in m
    ensures |m[k := v]| == |m| + 1
  {
    assert m[k := v].Keys == m.Keys + {k};
  }

  /** Some recipe names this user as its author. */
  predicate IsAuthor(recipes: map<RecipeId, Recipe>, u: UserId)
  {
    exists r :: r in recipes && recipes[r].author == u
  }

  /** The profile rows that survive deleting user `id`. */
  function CascadeProfiles(profiles: map<ProfileId, Profile>, id: UserId): map<ProfileId, Profile>
  {
    map p | p in profiles && profiles[p].user != id :: profiles[p]
  }

  /** Deleting a user and its profile keeps the one-to-one link and the provisioning rule. */
  lemma CascadeProfilesKeepsLinks(users: map<UserId, User>, profiles: map<ProfileId, Profile>, id: UserId)
    requires ProfilesWellFormed(users, profiles) && EveryUserHasProfile(users, profiles)
    ensures ProfilesWellFormed(users - {id}, CascadeProfiles(profiles, id))
    ensures EveryUserHasProfile(users - {id}, CascadeProfiles(profiles, id))
  {
    var rest := CascadeProfiles(profiles, id);
    assert forall p :: p in rest ==> p in profiles && rest[p] == profiles[p];
    forall u | u in users - {id}
      ensures HasProfile(rest, u)
    {
      var q :| q in profiles && profiles[q].user == u;
      assert q in rest;
    }
  }

  /** Deleting a user who authored nothing keeps the user table's rules and the authors' links. */
  lemma RemoveUserKeepsRules(users: map<UserId, User>, recipes: map<RecipeId, Recipe>, next: nat, id: UserId)
    requires KeysBelow(users, next) && UniqueUsernames(users) && UsernamesNonEmpty(users)
    requires RecipeAuthorsExist(users, recipes) && !IsAuthor(recipes, id)
    ensures KeysBelow(users - {id}, next) && UniqueUsernames(users - {id}) && UsernamesNonEmpty(users - {id})
    ensures RecipeAuthorsExist(users - {id}, recipes)
  {
  }

  class Db {
    var users: map<UserId, User>
    var profiles: map<ProfileId, Profile>
    var recipes: map<RecipeId, Recipe>
    var ingredients: map<IngredientId, Ingredient>
    var nutrients: map<NutrientId, Nutrient>
    var nextUserId: nat
    var nextProfileId: nat
    var nextRecipeId: nat
    var nextIngredientId: nat
    var nextNutrientId: nat

    /** The account tables and their key counters. */
    ghost function Accounts(): (map<UserId, User>, map<ProfileId, Profile>, nat, nat)
      reads this
    {
      (users, profiles, nextUserId, nextProfileId)
    }

    /** The recipe tables and their key counters. */
    ghost function Recipes(): (map<RecipeId, Recipe>, map<IngredientId, Ingredient>, map<NutrientId, Nutrient>, nat, nat, nat)
      reads this
    {
      (recipes, ingredients, nutrients, nextRecipeId, nextIngredientId, nextNutrientId)
    }

    /** Every rule the tables keep, except that every user has a profile. */
    ghost predicate Consistent()
      reads this
    {
      && KeysBelow(users, nextUserId)
      && KeysBelow(profiles, nextProfileId)
      && KeysBelow(recipes, nextRecipeId)
      && KeysBelow(ingredients, nextIngredientId)
      && KeysBelow(nutrients, nextNutrientId)
      && UniqueUsernames(users)
      && UsernamesNonEmpty(users)
      && ProfilesWellFormed(users, profiles)
      && RecipeAuthorsExist(users, recipes)
      && IngredientsLinked(recipes, ingredients)
      && NutrientsLinked(recipes, nutrients)
      && NutrientsUnique(nutrients)
    }

    /** The state between requests. */
    ghost predicate Valid()
      reads this
    {
      Consistent() && EveryUserHasProfile(users, profiles)
    }

    constructor ()
      ensures Valid()
      ensures users == map[] && profiles == map[] && recipes == map[] && ingredients == map[] && nutrients == map[]
    {
      users, profiles, recipes, ingredients, nutrients := map[], map[], map[], map[], map[];
      nextUserId, nextProfileId, nextRecipeId, nextIngredientId, nextNutrientId := 0, 0, 0, 0, 0;
    }

    // -------------------------------------------------------------------
    // Users and profiles

    /** Saves a new user row. Until its profile is created only Consistent() holds. */
    method InsertUser(u: User) returns (id: UserId)
      requires Valid()
      requires u.username != "" && !UsernameTaken(users, u.username)
      modifies this
      ensures Consistent()
      ensures id == old(nextUserId) && id !in old(users)
      ensures users == old(users)[id := u] && nextUserId == id + 1
      ensures profiles == old(profiles) && nextProfileId == old(nextProfileId)
      ensures Recipes() == old(Recipes())
      ensures !HasProfile(profiles, id)
      ensures forall v :: v in users && v != id ==> HasProfile(profiles, v)
    {
      id := nextUserId;
      users := users[id := u];
      nextUserId := nextUserId + 1;
    }

    /** Saves changed fields of an existing user row. */
    method UpdateUser(id: UserId, u: User)
      requires Valid() && id in users
      requires u.username != "" && !UsernameTakenByOther(users, id, u.username)
      modifies this
      ensures Valid()
      ensures users == old(users)[id := u] && nextUserId == old(nextUserId)
      ensures profiles == old(profiles) && nextProfileId == old(nextProfileId)
      ensures Recipes() == old(Recipes())
    {
      users := users[id := u];
    }

    /** Saves a new profile row for a user that has none. */
    method InsertProfile(p: Profile) returns (id: ProfileId)
      requires Consistent() && p.user in users && !HasProfile(profiles, p.user)
      modifies this
      ensures Consistent()
      ensures id == old(nextProfileId) && id !in old(profiles)
      ensures profiles == old(profiles)[id := p] && nextProfileId == id + 1
      ensures users == old(users) && nextUserId == old(nextUserId)
      ensures Recipes() == old(Recipes())
    {
      id := nextProfileId;
      profiles := profiles[id := p];
      nextProfileId := nextProfileId + 1;
    }

    /**
     * Deletes a user; its profile goes with it. Recipes point at their author
     * with a default that is not a user key, so deleting an author fails and
     * nothing changes.
     */
    method DeleteUser(id: UserId) returns (deleted: bool)
      requires Valid() && id in users
      modifies this
      ensures Valid()
      ensures deleted <==> !old(IsAuthor(recipes, id))
      ensures deleted ==> users == old(users) - {id} && profiles == CascadeProfiles(old(profiles), id)
      ensures !deleted ==> users == old(users) && profiles == old(profiles)
      ensures nextUserId == old(nextUserId) && nextProfileId == old(nextProfileId)
      ensures Recipes() == old(Recipes())
    {
      if IsAuthor(recipes, id) {
        deleted := false;
      } else {
        deleted := true;
        CascadeProfilesKeepsLinks(users, profiles, id);
        RemoveUserKeepsRules(users, recipes, nextUserId, id);
        var rest := CascadeProfiles(profiles, id);
        assert KeysBelow(rest, nextProfileId);
        users, profiles := users - {id}, rest;
      }
    }

    // -------------------------------------------------------------------
    // Recipes and their children

    method InsertRecipe(r: Recipe) returns (id: RecipeId)
      requires Valid() && r.author in users
      modifies this
      ensures Valid()
      ensures id == old(nextRecipeId) && id !in old(recipes)
      ensures recipes == old(recipes)[id := r] && nextRecipeId == id + 1
      ensures ingredients == old(ingredients) && nutrients == old(nutrients)
      ensures nextIngredientId == old(nextIngredientId) && nextNutrientId == old(nextNutrientId)
      ensures Accounts() == old(Accounts())
    {
      id := nextRecipeId;
      recipes := recipes[id := r];
      nextRecipeId := nextRecipeId + 1;
    }

    method UpdateRecipe(id: RecipeId, r: Recipe)
      requires Valid() && id in recipes && r.author in users
      modifies this
      ensures Valid()
      ensures recipes == old(recipes)[id := r] && nextRecipeId == old(nextRecipeId)
      ensures ingredients == old(ingredients) && nutrients == old(nutrients)
      ensures nextIngredientId == old(nextIngredientId) && nextNutrientId == old(nextNutrientId)
      ensures Accounts() == old(Accounts())
    {
      recipes := recipes[id := r];
    }

    /** Deletes a recipe; its ingredients and its nutrient go with it. */
    method DeleteRecipe(pk: RecipeId)
      requires Valid() && pk in recipes
      modifies this
      ensures Valid()
      ensures recipes == old(recipes) - {pk}
      ensures ingredients == CascadeIngredients(old(ingredients), pk)
      ensures nutrients == CascadeNutrients(old(nutrients), pk)
      ensures nextRecipeId == old(nextRecipeId) && nextIngredientId == old(nextIngredientId)
      ensures nextNutrientId == old(nextNutrientId)
      ensures Accounts() == old(Accounts())
    {
      CascadeKeepsLinks(recipes, ingredients, nutrients, pk);
      recipes := recipes - {pk};
      ingredients := CascadeIngredients(ingredients, pk);
      nutrients := CascadeNutrients(nutrients, pk);
    }

    method InsertIngredient(g: Ingredient) returns (id: IngredientId)
      requires Valid() && g.recipe in recipes
      modifies this
      ensures Valid()
      ensures id == old(nextIngredientId) && id !in old(ingredients)
      ensures ingredients == old(ingredients)[id := g] && nextIngredientId == id + 1
      ensures recipes == old(recipes) && nutrients == old(nutrients)
      ensures nextRecipeId == old(nextRecipeId) && nextNutrientId == old(nextNutrientId)
      ensures Accounts() == old(Accounts())
    {
      id := nextIngredientId;
      ingredients := ingredients[id := g];
      nextIngredientId := nextIngredientId + 1;
    }

    method UpdateIngredient(id: IngredientId, g: Ingredient)
      requires Valid() && id in ingredients && g.recipe in recipes
      modifies this
      ensures Valid()
      ensures ingredients == old(ingredients)[id := g] && nextIngredientId == old(nextIngredientId)
      ensures recipes == old(recipes) && nutrients == old(nutrients)
      ensures nextRecipeId == old(nextRecipeId) && nextNutrientId == old(nextNutrientId)
      ensures Accounts() == old(Accounts())
    {
      ingredients := ingredients[id := g];
    }

    /** Saves the nutrient row of a recipe that has none; the column is one-to-one. */
    method InsertNutrient(n: Nutrient) returns (id: NutrientId)
      requires Valid() && n.recipe in recipes && !HasNutrient(nutrients, n.recipe)
      modifies this
      ensures Valid()
      ensures id == old(nextNutrientId) && id !in old(nutrients)
      ensures nutrients == old(nutrients)[id := n] && nextNutrientId == id + 1
      ensures recipes == old(recipes) && ingredients == old(ingredients)
      ensures nextRecipeId == old(nextRecipeId) && nextIngredientId == old(nextIngredientId)
      ensures Accounts() == old(Accounts())
    {
      id := nextNutrientId;
      nutrients := nutrients[id := n];
      nextNutrientId := nextNutrientId + 1;
    }

    method UpdateNutrient(id: NutrientId, n: Nutrient)
      requires Valid() && id in nutrients && n.recipe in recipes
      requires forall m :: m in nutrients && m != id ==> nutrients[m].recipe != n.recipe
      modifies this
      ensures Valid()
      ensures nutrients == old(nutrients)[id := n] && nextNutrientId == old(nextNutrientId)
      ensures recipes == old(recipes) && ingredients == old(ingredients)
      ensures nextRecipeId == old(nextRecipeId) && nextIngredientId == old(nextIngredientId)
      ensures Accounts() == old(Accounts())
    {
      nutrients := nutrients[id := n];
    }
  }
}
