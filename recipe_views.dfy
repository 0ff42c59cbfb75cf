/**
 * The writing views of recipesApp/views.py: the create and update wizards,
 * whose `done` saves the three steps in order, the update wizard's lookup of
 * the instances its forms edit, and the delete view with its author test.
 */
module RecipeViews {
  import opened Wrappers
  import opened UserModels
  import opened RecipeModels
  import opened RecipeForms
  import opened Store
  import opened Http

  // ---------------------------------------------------------------------
  // The ingredient loop of both `done` methods

  /** The ingredient table as the loop sees it: the rows and the next key. */
  datatype IngredientTable = IngredientTable(rows: map<IngredientId, Ingredient>, next: nat)

  /** form.save() for one ingredient form after recipeName_id is set: an update of its row, or a new row. */
  function SaveIngredientForm(t: IngredientTable, f: IngredientFormData, rid: RecipeId): IngredientTable
  {
    match f.instance
    case Some(i) => IngredientTable(t.rows[i := BoundIngredient(f, rid)], t.next)
    case None => IngredientTable(t.rows[t.next := BoundIngredient(f, rid)], t.next + 1)
  }

  /** The forms saved one after another, in formset order. */
  function SaveIngredientForms(t: IngredientTable, forms: seq<IngredientFormData>, rid: RecipeId): IngredientTable
    decreases |forms|
  {
    if forms == [] then t
    else SaveIngredientForms(SaveIngredientForm(t, forms[0], rid), forms[1..], rid)
  }

  /** After one form is saved, the remaining forms still edit only rows of the recipe. */
  lemma SaveFormKeepsBelonging(t: IngredientTable, forms: seq<IngredientFormData>, rid: RecipeId)
    requires forms != [] && FormInstancesBelongTo(t.rows, Some(rid), forms)
    ensures FormInstancesBelongTo(SaveIngredientForm(t, forms[0], rid).rows, Some(rid), forms[1..])
  {
    var u := SaveIngredientForm(t, forms[0], rid);
    forall k | 0 <= k < |forms[1..]| && forms[1..][k].instance.Some?
      ensures forms[1..][k].instance.value in u.rows && u.rows[forms[1..][k].instance.value].recipe == rid
    {
      assert forms[1..][k] == forms[k + 1];
    }
  }

  /**
   * The loop deletes nothing (the formset has can_delete=False): every row is
   * kept, and each row afterwards is either as it was or bound to the recipe.
   */
  lemma {:induction false} SaveKeepsRows(t: IngredientTable, forms: seq<IngredientFormData>, rid: RecipeId)
    requires FormInstancesBelongTo(t.rows, Some(rid), forms)
    ensures var r := SaveIngredientForms(t, forms, rid);
      && t.next <= r.next
      && t.rows.Keys <= r.rows.Keys
      && (forall i :: i in r.rows ==> (i in t.rows && r.rows[i] == t.rows[i]) || r.rows[i].recipe == rid)
      && (KeysBelow(t.rows, t.next) ==> KeysBelow(r.rows, r.next))
    decreases |forms|
  {
    if forms != [] {
      SaveFormKeepsBelonging(t, forms, rid);
      SaveKeepsRows(SaveIngredientForm(t, forms[0], rid), forms[1..], rid);
    }
  }

  /** The rows of one recipe. */
  function RowsOf(rows: map<IngredientId, Ingredient>, rid: RecipeId): set<IngredientId>
  {
    set i | i in rows && rows[i].recipe == rid
  }

  /**
   * On update the forms edit only the recipe's own rows: its rows stay its
   * rows, so the number of its ingredients never goes down, and the rows of
   * other recipes are untouched.
   */
  lemma {:induction false} SaveKeepsOwnRows(t: IngredientTable, forms: seq<IngredientFormData>, rid: RecipeId)
    requires KeysBelow(t.rows, t.next) && FormInstancesBelongTo(t.rows, Some(rid), forms)
    ensures var r := SaveIngredientForms(t, forms, rid);
      && RowsOf(t.rows, rid) <= RowsOf(r.rows, rid)
      && (forall i :: i in t.rows && t.rows[i].recipe != rid ==> i in r.rows && r.rows[i] == t.rows[i])
    decreases |forms|
  {
    if forms != [] {
      var u := SaveIngredientForm(t, forms[0], rid);
      if forms[0].instance.Some? {
        assert t.rows[forms[0].instance.value].recipe == rid;
      }
      SaveFormKeepsBelonging(t, forms, rid);
      SaveKeepsOwnRows(u, forms[1..], rid);
    }
  }

  lemma OwnRowsCount(t: IngredientTable, forms: seq<IngredientFormData>, rid: RecipeId)
    requires KeysBelow(t.rows, t.next) && FormInstancesBelongTo(t.rows, Some(rid), forms)
    ensures |RowsOf(t.rows, rid)| <= |RowsOf(SaveIngredientForms(t, forms, rid).rows, rid)|
  {
    SaveKeepsOwnRows(t, forms, rid);
    var a := RowsOf(t.rows, rid);
    var b := RowsOf(SaveIngredientForms(t, forms, rid).rows, rid);
    assert b == a + (b - a);
  }

  /** All forms of a create formset are new ones. */
  predicate AllNew(forms: seq<IngredientFormData>)
  {
    forall k :: 0 <= k < |forms| ==> forms[k].instance.None?
  }

  /** The k-th form is saved as the row with key lo + k, bound to the recipe. */
  predicate SavedFrom(rows: map<IngredientId, Ingredient>, lo: nat, forms: seq<IngredientFormData>, rid: RecipeId)
  {
    forall k :: 0 <= k < |forms| ==> lo + k in rows && rows[lo + k] == BoundIngredient(forms[k], rid)
  }

  /**
   * Saving a create formset over `before`, whose free keys start at lo, gave
   * `after`: the keys are the old ones plus one per form, every old row is
   * left as it was, and the k-th form is the row with key lo + k.
   */
  ghost predicate NewRowsSaved(before: map<IngredientId, Ingredient>, lo: nat, after: map<IngredientId, Ingredient>,
                         forms: seq<IngredientFormData>, rid: RecipeId)
  {
    && (forall i :: i in after <==> i in before || lo <= i < lo + |forms|)
    && (forall i :: i in before ==> after[i] == before[i])
    && SavedFrom(after, lo, forms, rid)
  }

  /** New forms edit no row, so they belong to any formset. */
  lemma AllNewBelong(rows: map<IngredientId, Ingredient>, owner: Option<RecipeId>, forms: seq<IngredientFormData>)
    requires AllNew(forms)
    ensures FormInstancesBelongTo(rows, owner, forms)
  {
  }

  /**
   * On create every form is new: the k-th form becomes the row with key
   * next + k bound to the recipe, one fresh key per form, and every row
   * already there is left as it was.
   */
  lemma {:induction false} SaveNewForms(t: IngredientTable, forms: seq<IngredientFormData>, rid: RecipeId)
    requires KeysBelow(t.rows, t.next) && AllNew(forms)
    ensures var r := SaveIngredientForms(t, forms, rid);
      && r.next == t.next + |forms|
      && (forall i :: i in r.rows <==> i in t.rows || t.next <= i < t.next + |forms|)
      && (forall i :: i in t.rows ==> r.rows[i] == t.rows[i])
      && SavedFrom(r.rows, t.next, forms, rid)
    decreases |forms|
  {
    if forms != [] {
      var u := SaveIngredientForm(t, forms[0], rid);
      assert forms[0].instance.None?;
      assert u.rows == t.rows[t.next := BoundIngredient(forms[0], rid)] && u.next == t.next + 1;
      var rest := forms[1..];
      assert forall k :: 0 <= k < |rest| ==> rest[k] == forms[k + 1];
      SaveNewForms(u, rest, rid);
      var r := SaveIngredientForms(t, forms, rid);
      assert r == SaveIngredientForms(u, rest, rid);
      forall k | 0 <= k < |forms|
        ensures r.rows[t.next + k] == BoundIngredient(forms[k], rid)
      {
        if k > 0 {
          assert r.rows[u.next + (k - 1)] == BoundIngredient(rest[k - 1], rid);
        }
      }
    }
  }

  /** form.save() for one ingredient form, through the store. */
  method SaveIngredient(db: Db, f: IngredientFormData, rid: RecipeId)
    requires db.Valid() && rid in db.recipes
    requires f.instance.Some? ==> f.instance.value in db.ingredients
    modifies db
    ensures db.Valid()
    ensures IngredientTable(db.ingredients, db.nextIngredientId)
         == SaveIngredientForm(IngredientTable(old(db.ingredients), old(db.nextIngredientId)), f, rid)
    ensures db.recipes == old(db.recipes) && db.nextRecipeId == old(db.nextRecipeId)
    ensures db.nutrients == old(db.nutrients) && db.nextNutrientId == old(db.nextNutrientId)
    ensures db.Accounts() == old(db.Accounts())
  {
    match f.instance {
      case Some(i) =>
        db.UpdateIngredient(i, BoundIngredient(f, rid));
      case None =>
        var _ := db.InsertIngredient(BoundIngredient(f, rid));
    }
  }

  /** The loop itself: each form saved through the store, in order. */
  method SaveIngredients(db: Db, forms: seq<IngredientFormData>, rid: RecipeId)
    requires db.Valid() && rid in db.recipes
    requires FormInstancesBelongTo(db.ingredients, Some(rid), forms)
    modifies db
    ensures db.Valid()
    ensures IngredientTable(db.ingredients, db.nextIngredientId)
         == SaveIngredientForms(IngredientTable(old(db.ingredients), old(db.nextIngredientId)), forms, rid)
    ensures db.recipes == old(db.recipes) && db.nextRecipeId == old(db.nextRecipeId)
    ensures db.nutrients == old(db.nutrients) && db.nextNutrientId == old(db.nextNutrientId)
    ensures db.Accounts() == old(db.Accounts())
  {
    ghost var goal := SaveIngredientForms(IngredientTable(db.ingredients, db.nextIngredientId), forms, rid);
    var k := 0;
    while k < |forms|
      invariant 0 <= k <= |forms|
      invariant db.Valid()
      invariant FormInstancesBelongTo(db.ingredients, Some(rid), forms[k..])
      invariant SaveIngredientForms(IngredientTable(db.ingredients, db.nextIngredientId), forms[k..], rid) == goal
      invariant db.recipes == old(db.recipes) && db.nextRecipeId == old(db.nextRecipeId)
      invariant db.nutrients == old(db.nutrients) && db.nextNutrientId == old(db.nextNutrientId)
      invariant db.Accounts() == old(db.Accounts())
    {
      ghost var t := IngredientTable(db.ingredients, db.nextIngredientId);
      var f := forms[k];
      assert forms[k..][0] == f && forms[k..][1..] == forms[k + 1..];
      SaveFormKeepsBelonging(t, forms[k..], rid);
      SaveIngredient(db, f, rid);
      k := k + 1;
    }
  }

  // ---------------------------------------------------------------------
  // The two commits

  /**
   * FormWizardView.done: the recipe row with the current user as author gets
   * a new key; each ingredient form and the nutrient form are then saved bound
   * to that key.
   */
  method DoneCreate(db: Db, user: UserId, rf: RecipeFormData, forms: seq<IngredientFormData>,
                    nf: NutrientFormData, now: int) returns (rid: RecipeId)
    requires db.Valid() && user in db.users
    requires AllNew(forms) && NumbersGiven(rf)
    modifies db
    ensures db.Valid()
    ensures rid == old(db.nextRecipeId) && rid !in old(db.recipes)
    ensures db.recipes == old(db.recipes)[rid := NewRecipe(user, rf, now)]
    ensures NewRowsSaved(old(db.ingredients), old(db.nextIngredientId), db.ingredients, forms, rid)
    ensures db.nutrients == old(db.nutrients)[old(db.nextNutrientId) := BoundNutrient(nf, rid)]
    ensures db.Accounts() == old(db.Accounts())
  {
    rid := db.InsertRecipe(NewRecipe(user, rf, now));
    ghost var t := IngredientTable(db.ingredients, db.nextIngredientId);
    assert t.rows == old(db.ingredients) && t.next == old(db.nextIngredientId);
    SaveNewForms(t, forms, rid);
    AllNewBelong(db.ingredients, Some(rid), forms);
    SaveIngredients(db, forms, rid);
    ghost var r := SaveIngredientForms(t, forms, rid);
    assert db.ingredients == r.rows;
    assert db.nutrients == old(db.nutrients);
    assert !HasNutrient(db.nutrients, rid) by {
      assert NutrientsLinked(old(db.recipes), old(db.nutrients));
    }
    var _ := db.InsertNutrient(BoundNutrient(nf, rid));
    assert db.ingredients == r.rows;
  }

  /**
   * UpdateFormWizardView.done: the loaded recipe keeps its key and takes the
   * form's fields and the editing user as author; the ingredient forms are
   * saved bound to it and its nutrient row is overwritten in place.
   */
  method DoneUpdate(db: Db, user: UserId, pk: RecipeId, rf: RecipeFormData, forms: seq<IngredientFormData>,
                    nf: NutrientFormData, nid: NutrientId)
    requires db.Valid() && user in db.users && pk in db.recipes
    requires nid in db.nutrients && db.nutrients[nid].recipe == pk
    requires FormInstancesBelongTo(db.ingredients, Some(pk), forms) && NumbersGiven(rf)
    modifies db
    ensures db.Valid()
    ensures db.recipes == old(db.recipes)[pk := ApplyRecipeForm(old(db.recipes)[pk], rf).(author := user)]
    ensures IngredientTable(db.ingredients, db.nextIngredientId)
         == SaveIngredientForms(IngredientTable(old(db.ingredients), old(db.nextIngredientId)), forms, pk)
    ensures RowsOf(old(db.ingredients), pk) <= RowsOf(db.ingredients, pk)
    ensures forall i :: i in old(db.ingredients) && old(db.ingredients)[i].recipe != pk ==>
              i in db.ingredients && db.ingredients[i] == old(db.ingredients)[i]
    ensures db.nutrients == old(db.nutrients)[nid := BoundNutrient(nf, pk)]
    ensures db.nextRecipeId == old(db.nextRecipeId) && db.nextNutrientId == old(db.nextNutrientId)
    ensures db.Accounts() == old(db.Accounts())
  {
    ghost var t := IngredientTable(db.ingredients, db.nextIngredientId);
    SaveKeepsOwnRows(t, forms, pk);
    SaveKeepsRows(t, forms, pk);
    db.UpdateRecipe(pk, ApplyRecipeForm(db.recipes[pk], rf).(author := user));
    SaveIngredients(db, forms, pk);
    db.UpdateNutrient(nid, BoundNutrient(nf, pk));
  }

  // ---------------------------------------------------------------------
  // UpdateFormWizardView.get_form_instance

  /** The update wizard's step names. */
  const RecipeStep := "RecipeForm"
  const IngredientStep := "1"
  const NutrientStep := "NutrientForm"

  datatype FormInstance = RecipeInstance(id: RecipeId, recipe: Recipe) | NutrientInstance(id: NutrientId, nutrient: Nutrient) | NoInstance

  /** Model.objects.get finds no row. */
  datatype LookupError = DoesNotExist

  /**
   * The instance a step's form edits: the recipe for the recipe step and for
   * the ingredient formset (whose rows are that recipe's), the recipe's
   * nutrient row for the nutrient step, and none otherwise.
   */
  method GetFormInstance(db: Db, pk: Option<RecipeId>, step: string) returns (r: Result<FormInstance, LookupError>)
    ensures pk.None? || (step != RecipeStep && step != IngredientStep && step != NutrientStep) ==> r == Ok(NoInstance)
    ensures pk.Some? && (step == RecipeStep || step == IngredientStep) ==>
              r == if pk.value in db.recipes then Ok(RecipeInstance(pk.value, db.recipes[pk.value])) else Err(DoesNotExist)
    ensures pk.Some? && step == NutrientStep ==>
              && (r.Ok? <==> HasNutrient(db.nutrients, pk.value))
              && (r.Ok? ==> r.value.NutrientInstance? && r.value.id in db.nutrients
                            && db.nutrients[r.value.id] == r.value.nutrient && r.value.nutrient.recipe == pk.value)
  {
    if pk.Some? && (step == RecipeStep || step == IngredientStep) {
      if pk.value in db.recipes {
        r := Ok(RecipeInstance(pk.value, db.recipes[pk.value]));
      } else {
        r := Err(DoesNotExist);
      }
    } else if pk.Some? && step == NutrientStep {
      if HasNutrient(db.nutrients, pk.value) {
        var n :| n in db.nutrients && db.nutrients[n].recipe == pk.value;
        r := Ok(NutrientInstance(n, db.nutrients[n]));
      } else {
        r := Err(DoesNotExist);
      }
    } else {
      r := Ok(NoInstance);
    }
  }

  // ---------------------------------------------------------------------
  // The wizards' final request

  const WizardTemplate := "recipes/recipe_form.html"

  /** All three steps pass, stated through the fields' ranges. */
  predicate WizardValid(ingredients: map<IngredientId, Ingredient>, owner: Option<RecipeId>,
                        rf: RecipeFormData, forms: seq<IngredientFormData>, nf: NutrientFormData)
  {
    RecipeFieldsInRange(rf) && IngredientStepValid(ingredients, owner, forms) && NutrientFieldsInRange(nf)
  }

  /**
   * The wizard's final request validates every step's form again; it may
   * finish only when the recipe form, the ingredient formset and the
   * nutrient form all report no error.
   */
  method RevalidateSteps(ingredients: map<IngredientId, Ingredient>, owner: Option<RecipeId>,
                         rf: RecipeFormData, forms: seq<IngredientFormData>, nf: NutrientFormData) returns (valid: bool)
    ensures valid <==> WizardValid(ingredients, owner, rf, forms, nf)
  {
    RecipeFormRule(rf);
    NutrientFormRule(nf);
    valid := RecipeFormErrors(rf) == [] && IngredientStepValid(ingredients, owner, forms) && NutrientFormErrors(nf) == [];
  }

  /**
   * The create wizard's last POST: login required; every step is validated
   * again, and only if all pass is the commit run, redirecting to the new
   * recipe. Otherwise the wizard renders again and nothing is saved.
   */
  method FinishCreate(db: Db, current: Option<UserId>, rf: RecipeFormData, forms: seq<IngredientFormData>,
                      nf: NutrientFormData, now: int) returns (resp: Response)
    requires db.Valid() && (current.Some? ==> current.value in db.users)
    modifies db
    ensures db.Valid()
    ensures db.Accounts() == old(db.Accounts())
    ensures current.None? ==> resp == Redirect(LoginUrl) && db.Recipes() == old(db.Recipes())
    ensures current.Some? && !WizardValid(old(db.ingredients), None, rf, forms, nf) ==>
              resp == Render(WizardTemplate) && db.Recipes() == old(db.Recipes())
    ensures current.Some? && WizardValid(old(db.ingredients), None, rf, forms, nf) ==>
              && resp == RedirectToRecipe(old(db.nextRecipeId))
              && db.recipes == old(db.recipes)[old(db.nextRecipeId) := NewRecipe(current.value, rf, now)]
              && NewRowsSaved(old(db.ingredients), old(db.nextIngredientId), db.ingredients, forms, old(db.nextRecipeId))
              && db.nutrients == old(db.nutrients)[old(db.nextNutrientId) := BoundNutrient(nf, old(db.nextRecipeId))]
  {
    if current.None? {
      return Redirect(LoginUrl);
    }
    var valid := RevalidateSteps(db.ingredients, None, rf, forms, nf);
    if valid {
      var rid := DoneCreate(db, current.value, rf, forms, nf, now);
      resp := RedirectToRecipe(rid);
    } else {
      resp := Render(WizardTemplate);
    }
  }

  /**
   * The update wizard's last POST: login required but no author test, so any
   * signed-in user may edit any recipe and becomes its author. A missing
   * recipe or nutrient row makes the instance lookup raise, which is a 500.
   */
  method FinishUpdate(db: Db, current: Option<UserId>, pk: RecipeId, rf: RecipeFormData,
                      forms: seq<IngredientFormData>, nf: NutrientFormData) returns (resp: Response)
    requires db.Valid() && (current.Some? ==> current.value in db.users)
    modifies db
    ensures db.Valid()
    ensures db.Accounts() == old(db.Accounts())
    ensures current.None? ==> resp == Redirect(LoginUrl) && db.Recipes() == old(db.Recipes())
    ensures current.Some? && (pk !in old(db.recipes) || !HasNutrient(old(db.nutrients), pk)) ==>
              resp == ServerError && db.Recipes() == old(db.Recipes())
    ensures current.Some? && pk in old(db.recipes) && HasNutrient(old(db.nutrients), pk)
            && !WizardValid(old(db.ingredients), Some(pk), rf, forms, nf) ==>
              resp == Render(WizardTemplate) && db.Recipes() == old(db.Recipes())
    ensures current.Some? && pk in old(db.recipes) && HasNutrient(old(db.nutrients), pk)
            && WizardValid(old(db.ingredients), Some(pk), rf, forms, nf) ==>
              && resp == RedirectToRecipe(pk)
              && db.recipes == old(db.recipes)[pk := ApplyRecipeForm(old(db.recipes)[pk], rf).(author := current.value)]
              && IngredientTable(db.ingredients, db.nextIngredientId)
                 == SaveIngredientForms(IngredientTable(old(db.ingredients), old(db.nextIngredientId)), forms, pk)
              && RowsOf(old(db.ingredients), pk) <= RowsOf(db.ingredients, pk)
              && (forall i :: i in old(db.ingredients) && old(db.ingredients)[i].recipe != pk ==>
                    i in db.ingredients && db.ingredients[i] == old(db.ingredients)[i])
              && (exists nid :: nid in old(db.nutrients) && old(db.nutrients)[nid].recipe == pk
                                && db.nutrients == old(db.nutrients)[nid := BoundNutrient(nf, pk)])
  {
    if current.None? {
      return Redirect(LoginUrl);
    }
    var recipe := GetFormInstance(db, Some(pk), RecipeStep);
    var nutrient := GetFormInstance(db, Some(pk), NutrientStep);
    if recipe.Err? || nutrient.Err? {
      return ServerError;
    }
    var nid := nutrient.value.id;
    var valid := RevalidateSteps(db.ingredients, Some(pk), rf, forms, nf);
    if valid {
      DoneUpdate(db, current.value, pk, rf, forms, nf, nid);
      resp := RedirectToRecipe(pk);
    } else {
      resp := Render(WizardTemplate);
    }
  }

  // ---------------------------------------------------------------------
  // RecipeDeleteView

  /** test_func: get_object() 404s on a missing key; otherwise the requester must be the author. */
  function TestFunc(recipes: map<RecipeId, Recipe>, user: UserId, pk: RecipeId): (r: Option<bool>)
    ensures r.None? <==> pk !in recipes
    ensures r == Some(true) <==> pk in recipes && recipes[pk].author == user
  {
    if pk !in recipes then None else Some(recipes[pk].author == user)
  }

  /**
   * The delete view: login first, then the author test (404 for a missing
   * recipe, 403 for anyone but the author); a GET asks for confirmation and a
   * POST deletes the recipe with its ingredients and nutrient.
   */
  method DeleteRecipeView(db: Db, current: Option<UserId>, pk: RecipeId, verb: Method) returns (resp: Response)
    requires db.Valid()
    modifies db
    ensures db.Valid()
    ensures db.Accounts() == old(db.Accounts())
    ensures current.None? ==> resp == Redirect(LoginUrl)
    ensures current.Some? && pk !in old(db.recipes) ==> resp == NotFound
    ensures current.Some? && pk in old(db.recipes) && old(db.recipes)[pk].author != current.value ==> resp == Forbidden
    ensures current.Some? && pk in old(db.recipes) && old(db.recipes)[pk].author == current.value && verb == Get ==>
              resp == Render("recipes/recipe_confirm_delete.html")
    ensures resp.Redirect? && resp.to == "recipes-home" <==>
              current.Some? && pk in old(db.recipes) && old(db.recipes)[pk].author == current.value && verb == Post
    ensures resp.Redirect? && resp.to == "recipes-home" ==>
              && db.recipes == old(db.recipes) - {pk}
              && db.ingredients == CascadeIngredients(old(db.ingredients), pk)
              && db.nutrients == CascadeNutrients(old(db.nutrients), pk)
    ensures !(resp.Redirect? && resp.to == "recipes-home") ==> db.Recipes() == old(db.Recipes())
  {
    if current.None? {
      return Redirect(LoginUrl);
    }
    var allowed := TestFunc(db.recipes, current.value, pk);
    if allowed.None? {
      resp := NotFound;
    } else if !allowed.value {
      resp := Forbidden;
    } else if verb == Get {
      resp := Render("recipes/recipe_confirm_delete.html");
    } else {
      db.DeleteRecipe(pk);
      resp := Redirect("recipes-home");
    }
  }
}
