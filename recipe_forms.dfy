/**
 * The three wizard forms: the fields each takes from the user, how a
 * submitted form is checked against the model's field rules, how it is copied
 * onto a model instance and read back from one, and the configuration of the
 * ingredient formset.
 */
module RecipeForms {
  import opened Wrappers
  import opened UserModels
  import opened RecipeModels
  import opened Text

  /** RecipeForm.Meta.fields, in order; author and dateAdded are not among them. */
  const RecipeFormFields: seq<string> :=
    ["recipeName", "description", "instruction", "recipeCategory", "cost", "cookingTime", "portion", "skillsLevel", "image"]

  /**
   * What the recipe step submits: exactly the nine fields above. A numeric
   * field left blank is None.
   */
  datatype RecipeFormData = RecipeFormData(
    recipeName: string,
    description: string,
    instruction: string,
    recipeCategory: string,
    cost: Option<int>,
    cookingTime: Option<int>,
    portion: Option<int>,
    skillsLevel: string,
    image: string)

  /**
   * One form of the ingredient formset: the existing row it edits, if any, and
   * its one field. recipeName is excluded, so no form can choose the recipe.
   */
  datatype IngredientFormData = IngredientFormData(instance: Option<IngredientId>, ingredient: string)

  /** NutrientForm: every Nutrient field except recipeName. */
  datatype NutrientFormData = NutrientFormData(
    calories: Option<int>,
    fat: Option<int>,
    carbohydrate: Option<int>,
    fibre: Option<int>,
    protein: Option<int>,
    salt: Option<int>)

  // ---------------------------------------------------------------------
  // Validation

  /**
   * The errors of the recipe step, field by field in the order of Meta.fields.
   * The three free-text fields are form CharFields and are stripped first; the
   * choice fields and the file field are not.
   */
  function RecipeFormErrors(f: RecipeFormData): seq<string>
  {
    Clean(RecipeNameField, Text(Strip(f.recipeName)))
    + Clean(DescriptionField, Text(Strip(f.description)))
    + Clean(InstructionField, Text(Strip(f.instruction)))
    + Clean(RecipeCategoryField, Text(f.recipeCategory))
    + Clean(CostField, OptionalNumber(f.cost))
    + Clean(CookingTimeField, OptionalNumber(f.cookingTime))
    + Clean(PortionField, OptionalNumber(f.portion))
    + Clean(SkillsLevelField, Text(f.skillsLevel))
    + Clean(ImageField, Text(f.image))
  }

  /** The recipe step's rules stated as plain ranges and memberships. */
  predicate RecipeFieldsInRange(f: RecipeFormData)
  {
    && 1 <= |Strip(f.recipeName)| <= 150
    && 5 <= |Strip(f.description)| <= 120
    && 10 <= |Strip(f.instruction)| <= 5000
    && ParseCategory(f.recipeCategory).Some?
    && f.cost.Some? && 1 <= f.cost.value <= 10001
    && f.cookingTime.Some? && 0 <= f.cookingTime.value <= 1440
    && f.portion.Some? && 1 <= f.portion.value <= 20
    && ParseSkill(f.skillsLevel).Some?
    && 1 <= |f.image| <= 250 && Extension(f.image) in ImageExtensions
  }

  /**
   * The declared validators of the nine fields accept exactly the recipes in
   * range; the three numeric fields are required, so a blank one is an error.
   */
  lemma RecipeFormRule(f: RecipeFormData)
    ensures RecipeFormErrors(f) == [] <==> RecipeFieldsInRange(f)
    ensures f.cost.None? || f.cookingTime.None? || f.portion.None? ==> NullMessage in RecipeFormErrors(f)
  {
    RecipeNameRule(Strip(f.recipeName));
    DescriptionRule(Strip(f.description));
    InstructionRule(Strip(f.instruction));
    RecipeCategoryRule(f.recipeCategory);
    if f.cost.Some? { CostRule(f.cost.value); }
    if f.cookingTime.Some? { CookingTimeRule(f.cookingTime.value); }
    if f.portion.Some? { PortionRule(f.portion.value); }
    SkillsLevelRule(f.skillsLevel);
    ImageRule(f.image);
  }

  function IngredientFormErrors(f: IngredientFormData): seq<string>
  {
    Clean(IngredientField, Text(Strip(f.ingredient)))
  }

  function NutrientFormErrors(f: NutrientFormData): seq<string>
  {
    Clean(CaloriesField, OptionalNumber(f.calories))
    + Clean(FatField, OptionalNumber(f.fat))
    + Clean(CarbohydrateField, OptionalNumber(f.carbohydrate))
    + Clean(FibreField, OptionalNumber(f.fibre))
    + Clean(ProteinField, OptionalNumber(f.protein))
    + Clean(SaltField, OptionalNumber(f.salt))
  }

  predicate InRangeOrAbsent(v: Option<int>, lo: int, hi: int)
  {
    v.None? || lo <= v.value <= hi
  }

  /** The nutrient step's rules as plain ranges, in hundredths for the decimals. */
  predicate NutrientFieldsInRange(f: NutrientFormData)
  {
    && InRangeOrAbsent(f.calories, 0, 10000)
    && InRangeOrAbsent(f.fat, -1, 100000)
    && InRangeOrAbsent(f.carbohydrate, -1, 100000)
    && InRangeOrAbsent(f.fibre, -1, 50000)
    && InRangeOrAbsent(f.protein, -1, 100000)
    && InRangeOrAbsent(f.salt, -1, 50000)
  }

  /** The declared validators of the six amounts accept exactly the nutrient forms in range. */
  lemma NutrientFormRule(f: NutrientFormData)
    ensures NutrientFormErrors(f) == [] <==> NutrientFieldsInRange(f)
  {
    CaloriesRule(f.calories);
    NutrientAmountRules(f.fat);
    NutrientAmountRules(f.carbohydrate);
    NutrientAmountRules(f.fibre);
    NutrientAmountRules(f.protein);
    NutrientAmountRules(f.salt);
  }

  // ---------------------------------------------------------------------
  // Forms and instances

  /** The form's values as cleaned: the free-text fields stripped. */
  function Cleaned(f: RecipeFormData): RecipeFormData
  {
    f.(recipeName := Strip(f.recipeName), description := Strip(f.description), instruction := Strip(f.instruction))
  }

  /** Every numeric field has a value, as it has once the form is valid. */
  predicate NumbersGiven(f: RecipeFormData)
  {
    f.cost.Some? && f.cookingTime.Some? && f.portion.Some?
  }

  /** The row a create commit saves: the cleaned fields, the current user as author, the clock as dateAdded. */
  function NewRecipe(author: UserId, f: RecipeFormData, now: int): Recipe
    requires NumbersGiven(f)
  {
    var c := Cleaned(f);
    Recipe(author, c.recipeName, c.image, c.cost.value, c.portion.value, c.description, c.instruction,
           c.cookingTime.value, c.skillsLevel, c.recipeCategory, now)
  }

  /** Copies a bound form onto an existing instance: only the nine form fields change. */
  function ApplyRecipeForm(r: Recipe, f: RecipeFormData): Recipe
    requires NumbersGiven(f)
  {
    var c := Cleaned(f);
    r.(recipeName := c.recipeName, description := c.description, instruction := c.instruction,
       recipeCategory := c.recipeCategory, cost := c.cost.value, cookingTime := c.cookingTime.value,
       portion := c.portion.value, skillsLevel := c.skillsLevel, image := c.image)
  }

  /** The values an update form is pre-filled with from its instance. */
  function RecipeFormInitial(r: Recipe): RecipeFormData
  {
    RecipeFormData(r.recipeName, r.description, r.instruction, r.recipeCategory, Some(r.cost),
                   Some(r.cookingTime), Some(r.portion), r.skillsLevel, r.image)
  }

  /** A row whose free-text fields are as a form would have cleaned them. */
  predicate TextsUnpadded(r: Recipe)
  {
    Unpadded(r.recipeName) && Unpadded(r.description) && Unpadded(r.instruction)
  }

  /**
   * Filling a form from an instance and copying it back are inverse: what is
   * read back is the cleaned submission, an unchanged form leaves a cleaned
   * instance as it was, and author and dateAdded never come from the form.
   */
  lemma RecipeFormRoundTrip(r: Recipe, f: RecipeFormData)
    requires NumbersGiven(f)
    ensures NumbersGiven(RecipeFormInitial(r))
    ensures RecipeFormInitial(ApplyRecipeForm(r, f)) == Cleaned(f)
    ensures TextsUnpadded(ApplyRecipeForm(r, f))
    ensures TextsUnpadded(r) ==> ApplyRecipeForm(r, RecipeFormInitial(r)) == r
    ensures ApplyRecipeForm(r, f).author == r.author && ApplyRecipeForm(r, f).dateAdded == r.dateAdded
    ensures NewRecipe(r.author, f, r.dateAdded) == ApplyRecipeForm(r, f)
  {
    StripSpec(f.recipeName);
    StripSpec(f.description);
    StripSpec(f.instruction);
    if TextsUnpadded(r) {
      StripKeepsUnpadded(r.recipeName);
      StripKeepsUnpadded(r.description);
      StripKeepsUnpadded(r.instruction);
    }
  }

  /** The ingredient row a form saves once the commit has set recipeName_id. */
  function BoundIngredient(f: IngredientFormData, rid: RecipeId): Ingredient
  {
    Ingredient(rid, Strip(f.ingredient))
  }

  /** The nutrient row the form saves once the commit has set recipeName_id. */
  function BoundNutrient(f: NutrientFormData, rid: RecipeId): Nutrient
  {
    Nutrient(rid, f.calories, f.fat, f.carbohydrate, f.fibre, f.protein, f.salt)
  }

  function NutrientFormInitial(n: Nutrient): NutrientFormData
  {
    NutrientFormData(n.calories, n.fat, n.carbohydrate, n.fibre, n.protein, n.salt)
  }

  /** Reading a nutrient form back from its bound row gives the form; rebinding to the row's recipe gives the row. */
  lemma NutrientFormRoundTrip(n: Nutrient, f: NutrientFormData, rid: RecipeId)
    ensures NutrientFormInitial(BoundNutrient(f, rid)) == f
    ensures BoundNutrient(NutrientFormInitial(n), n.recipe) == n
  {
  }

  /** A nutrient form left entirely blank is valid: every amount is optional. */
  lemma BlankNutrientFormAccepted()
    ensures NutrientFormErrors(NutrientFormData(None, None, None, None, None, None)) == []
  {
    NutrientFormRule(NutrientFormData(None, None, None, None, None, None));
  }

  // ---------------------------------------------------------------------
  // The ingredient formset

  const MinNum: nat := 3
  const Extra: nat := 0

  /**
   * How many forms the ingredient step shows for a recipe that has `initial`
   * ingredients: never fewer than three, one per existing ingredient, and no
   * blank extras once the minimum is met.
   */
  function FormsetFormCount(initial: nat): (n: nat)
    ensures n >= MinNum && n >= initial
    ensures initial >= MinNum ==> n == initial
    ensures initial <= MinNum ==> n == MinNum
  {
    (if initial > MinNum then initial else MinNum) + Extra
  }

  /**
   * The formset only accepts forms that edit an ingredient of its own recipe;
   * a formset for a recipe not yet saved has no rows, so its forms edit none.
   */
  predicate FormInstancesBelongTo(ingredients: map<IngredientId, Ingredient>, owner: Option<RecipeId>,
                                  forms: seq<IngredientFormData>)
  {
    forall k :: 0 <= k < |forms| && forms[k].instance.Some? ==>
      owner.Some? && forms[k].instance.value in ingredients && ingredients[forms[k].instance.value].recipe == owner.value
  }

  /**
   * A form the formset lets through blank: an extra form (one that edits no
   * row) past the first MinNum forms.
   */
  predicate EmptyPermitted(forms: seq<IngredientFormData>, k: nat)
    requires k < |forms|
  {
    forms[k].instance.None? && k >= MinNum
  }

  /**
   * The ingredient step is valid when every form edits an own row and every
   * form's text is valid, except that a permitted-empty form left blank skips
   * validation.
   */
  predicate IngredientStepValid(ingredients: map<IngredientId, Ingredient>, owner: Option<RecipeId>,
                                forms: seq<IngredientFormData>)
  {
    && FormInstancesBelongTo(ingredients, owner, forms)
    && forall k :: 0 <= k < |forms| ==>
         IngredientFormErrors(forms[k]) == [] || (EmptyPermitted(forms, k) && Strip(forms[k].ingredient) == "")
  }

  /** Every form of a valid step saves a valid ingredient, unless it is a blank permitted-empty form. */
  lemma IngredientStepRule(ingredients: map<IngredientId, Ingredient>, owner: Option<RecipeId>,
                           forms: seq<IngredientFormData>, k: nat)
    requires IngredientStepValid(ingredients, owner, forms) && k < |forms|
    ensures k < MinNum || forms[k].instance.Some? ==> 3 <= |Strip(forms[k].ingredient)| <= 120
    ensures 3 <= |Strip(forms[k].ingredient)| <= 120 || (k >= MinNum && Strip(forms[k].ingredient) == "")
  {
    IngredientRule(Strip(forms[k].ingredient));
  }
}
