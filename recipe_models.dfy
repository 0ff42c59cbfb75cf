/**
 * The field rules of the Recipe, Ingredient and Nutrient models. Each field is
 * given as the list of validators Django runs on it: the explicit ones of the
 * model, and the ones Django derives from max_length, from max_digits and from
 * the positive small-integer column. A generic Clean evaluates such a list the
 * way a field's clean does. Decimals are integer hundredths: 0.01 is 1 and
 * 100.01 is 10001.
 */
module RecipeModels {
  import opened Wrappers
  import opened UserModels
  import opened Text

  type RecipeId = nat
  type IngredientId = nat
  type NutrientId = nat

  /** A row of the recipe table; dateAdded is a clock reading. */
  datatype Recipe = Recipe(
    author: UserId,
    recipeName: string,
    image: string,
    cost: int,
    portion: int,
    description: string,
    instruction: string,
    cookingTime: int,
    skillsLevel: string,
    recipeCategory: string,
    dateAdded: int)

  /** Ingredient.recipeName is a foreign key to Recipe with on_delete=CASCADE. */
  datatype Ingredient = Ingredient(recipe: RecipeId, ingredient: string)

  /** Nutrient.recipeName is a one-to-one link to Recipe with on_delete=CASCADE; every amount may be null. */
  datatype Nutrient = Nutrient(
    recipe: RecipeId,
    calories: Option<int>,
    fat: Option<int>,
    carbohydrate: Option<int>,
    fibre: Option<int>,
    protein: Option<int>,
    salt: Option<int>)

  // ---------------------------------------------------------------------
  // Choices

  datatype Skill = Easy | Medium | Difficult

  datatype Category = Picnic | Party | Dinner | Dessert | Drink | Other

  function SkillName(k: Skill): string
  {
    match k
    case Easy => "Easy"
    case Medium => "Medium"
    case Difficult => "Difficult"
  }

  /** Reads a stored skillsLevel back as the enumeration; exactly the names of the choices parse. */
  function ParseSkill(s: string): (r: Option<Skill>)
    ensures forall k :: r == Some(k) <==> SkillName(k) == s
  {
    if s == "Easy" then Some(Easy)
    else if s == "Medium" then Some(Medium)
    else if s == "Difficult" then Some(Difficult)
    else None
  }

  function CategoryName(c: Category): string
  {
    match c
    case Picnic => "Picnic"
    case Party => "Party"
    case Dinner => "Dinner"
    case Dessert => "Dessert"
    case Drink => "Drink"
    case Other => "Other"
  }

  /** Reads a stored recipeCategory back as the enumeration; exactly the names of the choices parse. */
  function ParseCategory(s: string): (r: Option<Category>)
    ensures forall c :: r == Some(c) <==> CategoryName(c) == s
  {
    if s == "Picnic" then Some(Picnic)
    else if s == "Party" then Some(Party)
    else if s == "Dinner" then Some(Dinner)
    else if s == "Dessert" then Some(Dessert)
    else if s == "Drink" then Some(Drink)
    else if s == "Other" then Some(Other)
    else None
  }

  /** The stored values of skillsChoice, in declaration order. */
  const SkillChoices: seq<string> := ["Easy", "Medium", "Difficult"]

  /** The stored values of categoryChoice, in declaration order. */
  const CategoryChoices: seq<string> := ["Picnic", "Party", "Dinner", "Dessert", "Drink", "Other"]

  /** The choice lists hold exactly the names of the enumerations. */
  lemma ChoicesAreTheEnumerations(s: string)
    ensures s in SkillChoices <==> ParseSkill(s).Some?
    ensures s in CategoryChoices <==> ParseCategory(s).Some?
  {
  }

  /** The value the CharField stores for the tuple default of skillsLevel, str(('Easy', 'Easy')). */
  const SkillDefaultAsWritten: string := "('Easy', 'Easy')"

  /** The value the CharField stores for the tuple default of recipeCategory, str(('Other', 'Other')). */
  const CategoryDefaultAsWritten: string := "('Other', 'Other')"

  /** The defaults evidently intended: the stored value of the first pair element. */
  const SkillDefault: string := "Easy"
  const CategoryDefault: string := "Other"

  // ---------------------------------------------------------------------
  // Validators

  /** A submitted field value: absent (None), text, or a number (hundredths for decimals). */
  datatype Value = Null | Text(s: string) | Number(n: int)

  function OptionalNumber(v: Option<int>): Value
  {
    match v
    case None => Null
    case Some(n) => Number(n)
  }

  datatype Validator =
    | MinLength(length: nat, message: string)
    | MaxLength(length: nat, message: string)
    | MinValue(limit: int, message: string)
    | MaxValue(limit: int, message: string)
      /** DecimalValidator with two decimal places: at most `digits` digits in all. */
    | MaxDigits(digits: nat, message: string)
    | FileExtension(allowed: seq<string>, message: string)

  /** A field as cleaning sees it: null and blank allowed together, its choices (none if empty), its validators. */
  datatype Field = Field(optional: bool, choices: seq<string>, validators: seq<Validator>)

  const NullMessage: string := "This field cannot be null."
  const BlankMessage: string := "This field cannot be blank."
  const ChoiceMessage: string := "Value is not a valid choice."

  function Pow10(n: nat): (r: int)
    ensures r >= 1
  {
    if n == 0 then 1 else 10 * Pow10(n - 1)
  }

  /** The error one validator raises on a value, if any. */
  function Violation(x: Validator, v: Value): Option<string>
  {
    match x
    case MinLength(n, m) => if v.Text? && |v.s| < n then Some(m) else None
    case MaxLength(n, m) => if v.Text? && |v.s| > n then Some(m) else None
    case MinValue(n, m) => if v.Number? && v.n < n then Some(m) else None
    case MaxValue(n, m) => if v.Number? && v.n > n then Some(m) else None
    case MaxDigits(d, m) => if v.Number? && !(-Pow10(d) < v.n < Pow10(d)) then Some(m) else None
    case FileExtension(allowed, m) => if v.Text? && Extension(v.s) !in allowed then Some(m) else None
  }

  /** run_validators: every validator runs and every error is collected, in order. */
  function Violations(v: Value, xs: seq<Validator>): (errors: seq<string>)
    ensures errors == [] <==> forall i :: 0 <= i < |xs| ==> Violation(xs[i], v).None?
  {
    if xs == [] then []
    else
      var head := match Violation(xs[0], v) case Some(m) => [m] case None => [];
      head + Violations(v, xs[1..])
  }

  /**
   * Field.clean: an empty value is accepted only by an optional field and is
   * not validated further; a value outside the choices fails before the
   * validators run; otherwise all validator errors are reported.
   */
  function Clean(f: Field, v: Value): (errors: seq<string>)
  {
    if v == Null then (if f.optional then [] else [NullMessage])
    else if v == Text("") then (if f.optional then [] else [BlankMessage])
    else if |f.choices| > 0 && !(v.Text? && v.s in f.choices) then [ChoiceMessage]
    else Violations(v, f.validators)
  }

  // ---------------------------------------------------------------------
  // File extensions

  const ImageExtensions: seq<string> :=
    ["jpg", "png", "webp", "tiff", "gif", "jpeg", "bmp", "ico", "tif", "svgz", "svg", "pjp", "xbm", "jfif", "pjpeg", "avif"]

  const DefaultImage: string := "default.jpg"

  /** The last component of a path. */
  function FileName(path: string): string
  {
    path[LastIndexOf(path, '/') + 1..]
  }

  /** A path suffix without its dot; empty when the name has no dot, starts with its only dot or ends with one. */
  function Suffix(name: string): string
  {
    var i := LastIndexOf(name, '.');
    if 0 < i < |name| - 1 then name[i + 1..] else ""
  }

  /** What FileExtensionValidator compares with its list: the lower-cased suffix of the file name. */
  function Extension(path: string): string
  {
    Lower(Suffix(FileName(path)))
  }

  /** A name made of a base and an extension has that extension, case folded, whatever dots the base holds. */
  lemma ExtensionOfJoin(base: string, ext: string)
    requires base != [] && '/' !in base
    requires ext != [] && '.' !in ext && '/' !in ext
    ensures Extension(base + "." + ext) == Lower(ext)
  {
    var name := base + "." + ext;
    assert forall i :: 0 <= i < |name| ==> name[i] != '/';
    assert FileName(name) == name;
    assert name[|base|] == '.';
    assert forall i :: |base| < i < |name| ==> name[i] != '.';
    assert name[|base| + 1..] == ext;
  }

  /** A file name without any dot has no extension, so the allow-list refuses it. */
  lemma NoDotNoExtension(path: string)
    requires '.' !in path
    ensures Extension(path) == ""
  {
  }

  // ---------------------------------------------------------------------
  // The fields, as models.py declares them

  const RecipeNameField: Field := Field(false, [], [
    MaxLength(150, "Ensure this value has at most 150 characters.")])

  const ImageField: Field := Field(false, [], [
    MaxLength(250, "Ensure this filename has at most 250 characters."),
    FileExtension(ImageExtensions, "Specify a valid file type")])

  const CostField: Field := Field(false, [], [
    MaxDigits(5, "Ensure that there are no more than 3 digits before the decimal point."),
    MinValue(1, "The cost may not be less than 0.01 £"),
    MaxValue(10001, "The cost may not be greater than 100 £")])

  const PortionField: Field := Field(false, [], [
    MinValue(0, "Ensure this value is greater than or equal to 0."),
    MaxValue(32767, "Ensure this value is less than or equal to 32767."),
    MaxValue(20, "To many portions"),
    MinValue(1, "Portion must be more than 0")])

  const DescriptionField: Field := Field(false, [], [
    MaxLength(120, "Ensure this value has at most 120 characters."),
    MinLength(5, "Please provide longer description")])

  const InstructionField: Field := Field(false, [], [
    MaxLength(5000, "Ensure this value has at most 5000 characters."),
    MinLength(10, "Please provide longer instruction")])

  const CookingTimeField: Field := Field(false, [], [
    MinValue(0, "Ensure this value is greater than or equal to 0."),
    MaxValue(32767, "Ensure this value is less than or equal to 32767."),
    MaxValue(1440, "The cooking time is too long")])

  const SkillsLevelField: Field := Field(false, SkillChoices, [
    MaxLength(30, "Ensure this value has at most 30 characters.")])

  const RecipeCategoryField: Field := Field(false, CategoryChoices, [
    MaxLength(30, "Ensure this value has at most 30 characters.")])

  const IngredientField: Field := Field(false, [], [
    MaxLength(120, "Ensure this value has at most 120 characters."),
    MinLength(3, "Please provide longer ingredient description")])

  const CaloriesField: Field := Field(true, [], [
    MinValue(0, "Ensure this value is greater than or equal to 0."),
    MaxValue(32767, "Ensure this value is less than or equal to 32767."),
    MaxValue(10000, "To many calories")])

  const FatField: Field := Field(true, [], [
    MaxDigits(6, "Ensure that there are no more than 4 digits before the decimal point."),
    MinValue(-1, "Fat must not be less than 0"),
    MaxValue(100000, "Too much fat")])

  const CarbohydrateField: Field := Field(true, [], [
    MaxDigits(6, "Ensure that there are no more than 4 digits before the decimal point."),
    MinValue(-1, "Carbohydrate must not be less than 0"),
    MaxValue(100000, "Too much carbohydrate")])

  const FibreField: Field := Field(true, [], [
    MaxDigits(5, "Ensure that there are no more than 3 digits before the decimal point."),
    MinValue(-1, "Fibre must not be less than 0"),
    MaxValue(50000, "Too much fibre")])

  const ProteinField: Field := Field(true, [], [
    MaxDigits(6, "Ensure that there are no more than 4 digits before the decimal point."),
    MinValue(-1, "Protein must not be less than 0"),
    MaxValue(100000, "Too much protein")])

  const SaltField: Field := Field(true, [], [
    MaxDigits(5, "Ensure that there are no more than 3 digits before the decimal point."),
    MinValue(-1, "Salt must not be less than 0"),
    MaxValue(50000, "Too much salt")])

  // ---------------------------------------------------------------------
  // What each declared field accepts, stated as plain ranges

  lemma RecipeNameRule(s: string)
    ensures Clean(RecipeNameField, Text(s)) == [] <==> 1 <= |s| <= 150
  {
    assert RecipeNameField.validators[0] == MaxLength(150, "Ensure this value has at most 150 characters.");
  }

  lemma DescriptionRule(s: string)
    ensures Clean(DescriptionField, Text(s)) == [] <==> 5 <= |s| <= 120
  {
    var xs := DescriptionField.validators;
    assert Violation(xs[0], Text(s)).None? <==> |s| <= 120;
    assert Violation(xs[1], Text(s)).None? <==> |s| >= 5;
  }

  lemma InstructionRule(s: string)
    ensures Clean(InstructionField, Text(s)) == [] <==> 10 <= |s| <= 5000
  {
    var xs := InstructionField.validators;
    assert Violation(xs[0], Text(s)).None? <==> |s| <= 5000;
    assert Violation(xs[1], Text(s)).None? <==> |s| >= 10;
  }

  lemma IngredientRule(s: string)
    ensures Clean(IngredientField, Text(s)) == [] <==> 3 <= |s| <= 120
  {
    var xs := IngredientField.validators;
    assert Violation(xs[0], Text(s)).None? <==> |s| <= 120;
    assert Violation(xs[1], Text(s)).None? <==> |s| >= 3;
  }

  lemma ImageRule(s: string)
    ensures Clean(ImageField, Text(s)) == [] <==> 1 <= |s| <= 250 && Extension(s) in ImageExtensions
  {
    var xs := ImageField.validators;
    var e := Extension(s);
    assert Violation(xs[0], Text(s)).None? <==> |s| <= 250;
    assert Violation(xs[1], Text(s)) == if e !in ImageExtensions then Some("Specify a valid file type") else None;
  }

  /** 0.01 to 100.01 inclusive; the five-digit limit never bites inside that range. */
  lemma CostRule(c: int)
    ensures Clean(CostField, Number(c)) == [] <==> 1 <= c <= 10001
  {
    var xs := CostField.validators;
    assert Pow10(5) == 100000;
    assert Violation(xs[0], Number(c)).None? <==> -100000 < c < 100000;
    assert Violation(xs[1], Number(c)).None? <==> c >= 1;
    assert Violation(xs[2], Number(c)).None? <==> c <= 10001;
  }

  lemma PortionRule(p: int)
    ensures Clean(PortionField, Number(p)) == [] <==> 1 <= p <= 20
  {
    var xs := PortionField.validators;
    assert Violation(xs[0], Number(p)).None? <==> p >= 0;
    assert Violation(xs[1], Number(p)).None? <==> p <= 32767;
    assert Violation(xs[2], Number(p)).None? <==> p <= 20;
    assert Violation(xs[3], Number(p)).None? <==> p >= 1;
  }

  lemma CookingTimeRule(t: int)
    ensures Clean(CookingTimeField, Number(t)) == [] <==> 0 <= t <= 1440
  {
    var xs := CookingTimeField.validators;
    assert Violation(xs[0], Number(t)).None? <==> t >= 0;
    assert Violation(xs[1], Number(t)).None? <==> t <= 32767;
    assert Violation(xs[2], Number(t)).None? <==> t <= 1440;
  }

  lemma SkillsLevelRule(s: string)
    ensures Clean(SkillsLevelField, Text(s)) == [] <==> ParseSkill(s).Some?
  {
    ChoicesAreTheEnumerations(s);
    assert SkillsLevelField.validators[0] == MaxLength(30, "Ensure this value has at most 30 characters.");
  }

  lemma RecipeCategoryRule(s: string)
    ensures Clean(RecipeCategoryField, Text(s)) == [] <==> ParseCategory(s).Some?
  {
    ChoicesAreTheEnumerations(s);
    assert RecipeCategoryField.validators[0] == MaxLength(30, "Ensure this value has at most 30 characters.");
  }

  lemma CaloriesRule(v: Option<int>)
    ensures Clean(CaloriesField, OptionalNumber(v)) == [] <==> v.None? || 0 <= v.value <= 10000
  {
    if v.Some? {
      var xs := CaloriesField.validators;
      assert Violation(xs[0], Number(v.value)).None? <==> v.value >= 0;
      assert Violation(xs[1], Number(v.value)).None? <==> v.value <= 32767;
      assert Violation(xs[2], Number(v.value)).None? <==> v.value <= 10000;
    }
  }

  /** A decimal amount field with bounds -0.01 and `hi` hundredths, both inclusive, within `digits` digits. */
  predicate AmountField(f: Field, hi: int)
  {
    && f.optional && f.choices == [] && |f.validators| == 3
    && f.validators[0].MaxDigits? && 1 < Pow10(f.validators[0].digits) && hi < Pow10(f.validators[0].digits)
    && f.validators[1].MinValue? && f.validators[1].limit == -1
    && f.validators[2].MaxValue? && f.validators[2].limit == hi
  }

  lemma AmountRule(f: Field, hi: int, v: Option<int>)
    requires AmountField(f, hi)
    ensures Clean(f, OptionalNumber(v)) == [] <==> v.None? || -1 <= v.value <= hi
  {
    if v.Some? {
      var xs := f.validators;
      assert Violation(xs[0], Number(v.value)).None? <==> -Pow10(xs[0].digits) < v.value < Pow10(xs[0].digits);
      assert Violation(xs[1], Number(v.value)).None? <==> v.value >= -1;
      assert Violation(xs[2], Number(v.value)).None? <==> v.value <= hi;
    }
  }

  /** fat, carbohydrate and protein: -0.01 to 1000; fibre and salt: -0.01 to 500; all optional. */
  lemma NutrientAmountRules(v: Option<int>)
    ensures Clean(FatField, OptionalNumber(v)) == [] <==> v.None? || -1 <= v.value <= 100000
    ensures Clean(CarbohydrateField, OptionalNumber(v)) == [] <==> v.None? || -1 <= v.value <= 100000
    ensures Clean(ProteinField, OptionalNumber(v)) == [] <==> v.None? || -1 <= v.value <= 100000
    ensures Clean(FibreField, OptionalNumber(v)) == [] <==> v.None? || -1 <= v.value <= 50000
    ensures Clean(SaltField, OptionalNumber(v)) == [] <==> v.None? || -1 <= v.value <= 50000
  {
    assert Pow10(5) == 100000;
    assert Pow10(6) == 1000000;
    AmountRule(FatField, 100000, v);
    AmountRule(CarbohydrateField, 100000, v);
    AmountRule(ProteinField, 100000, v);
    AmountRule(FibreField, 50000, v);
    AmountRule(SaltField, 50000, v);
  }

  /** A file name is accepted exactly when its extension, case folded, is on the allow-list and the name fits. */
  lemma JoinedImageNameRule(base: string, ext: string)
    requires base != [] && '/' !in base
    requires ext != [] && '.' !in ext && '/' !in ext
    ensures Clean(ImageField, Text(base + "." + ext)) == [] <==> |base| + 1 + |ext| <= 250 && Lower(ext) in ImageExtensions
  {
    ExtensionOfJoin(base, ext);
    ImageRule(base + "." + ext);
  }

  /** The model's default image name passes the allow-list. */
  lemma DefaultImageAccepted()
    ensures Clean(ImageField, Text(DefaultImage)) == []
  {
    assert Lower("jpg") == "jpg";
    assert "default" + "." + "jpg" == DefaultImage;
    JoinedImageNameRule("default", "jpg");
  }

  /** The extension is compared after case folding. */
  lemma UpperCaseExtensionAccepted()
    ensures Clean(ImageField, Text("beans.JPG")) == []
  {
    assert Lower("JPG") == "jpg";
    assert "beans" + "." + "JPG" == "beans.JPG";
    JoinedImageNameRule("beans", "JPG");
  }

  /** A name whose only dot comes first has no extension, so it is refused. */
  lemma HiddenFileNameRefused()
    ensures Clean(ImageField, Text(".jpg")) != []
  {
    var name := ".jpg";
    assert name[0] == '.' && name[1] == 'j' && name[2] == 'p' && name[3] == 'g';
    assert LastIndexOf(name, '/') == -1;
    assert FileName(name) == name;
    assert LastIndexOf(name, '.') == 0;
    assert Extension(".jpg") == "";
    ImageRule(".jpg");
  }

  /** The tuple defaults, once stored as text, are not among the choices. */
  lemma TupleDefaultsAreNotChoices()
    ensures Clean(SkillsLevelField, Text(SkillDefaultAsWritten)) != []
    ensures Clean(RecipeCategoryField, Text(CategoryDefaultAsWritten)) != []
  {
    SkillsLevelRule(SkillDefaultAsWritten);
    RecipeCategoryRule(CategoryDefaultAsWritten);
  }

  /** The intended defaults are the first choice of skillsChoice and the last of categoryChoice. */
  lemma IntendedDefaultsAreChoices()
    ensures Clean(SkillsLevelField, Text(SkillDefault)) == [] && ParseSkill(SkillDefault) == Some(Easy)
    ensures Clean(RecipeCategoryField, Text(CategoryDefault)) == [] && ParseCategory(CategoryDefault) == Some(Other)
  {
    SkillsLevelRule(SkillDefault);
    RecipeCategoryRule(CategoryDefault);
  }

  // ---------------------------------------------------------------------
  // Links between tables

  /** Recipe.author references an existing user. */
  predicate RecipeAuthorsExist(users: map<UserId, User>, recipes: map<RecipeId, Recipe>)
  {
    forall r :: r in recipes ==> recipes[r].author in users
  }

  predicate IngredientsLinked(recipes: map<RecipeId, Recipe>, ingredients: map<IngredientId, Ingredient>)
  {
    forall i :: i in ingredients ==> ingredients[i].recipe in recipes
  }

  predicate NutrientsLinked(recipes: map<RecipeId, Recipe>, nutrients: map<NutrientId, Nutrient>)
  {
    forall n :: n in nutrients ==> nutrients[n].recipe in recipes
  }

  /** The one-to-one column: no recipe has two nutrient rows. */
  predicate NutrientsUnique(nutrients: map<NutrientId, Nutrient>)
  {
    forall a, b :: a in nutrients && b in nutrients && nutrients[a].recipe == nutrients[b].recipe ==> a == b
  }

  predicate HasNutrient(nutrients: map<NutrientId, Nutrient>, rid: RecipeId)
  {
    exists n :: n in nutrients && nutrients[n].recipe == rid
  }

  /** The ingredient rows that survive deleting recipe `pk`. */
  function CascadeIngredients(ingredients: map<IngredientId, Ingredient>, pk: RecipeId): map<IngredientId, Ingredient>
  {
    map i | i in ingredients && ingredients[i].recipe != pk :: ingredients[i]
  }

  /** The nutrient rows that survive deleting recipe `pk`. */
  function CascadeNutrients(nutrients: map<NutrientId, Nutrient>, pk: RecipeId): map<NutrientId, Nutrient>
  {
    map n | n in nutrients && nutrients[n].recipe != pk :: nutrients[n]
  }

  /**
   * Deleting a recipe with its cascade leaves every remaining child pointing at
   * a remaining recipe, keeps the one-to-one column, removes every child of the
   * deleted recipe and keeps every other row as it was.
   */
  lemma CascadeKeepsLinks(recipes: map<RecipeId, Recipe>, ingredients: map<IngredientId, Ingredient>,
                          nutrients: map<NutrientId, Nutrient>, pk: RecipeId)
    requires IngredientsLinked(recipes, ingredients) && NutrientsLinked(recipes, nutrients) && NutrientsUnique(nutrients)
    ensures IngredientsLinked(recipes - {pk}, CascadeIngredients(ingredients, pk))
    ensures NutrientsLinked(recipes - {pk}, CascadeNutrients(nutrients, pk))
    ensures NutrientsUnique(CascadeNutrients(nutrients, pk))
    ensures !HasNutrient(CascadeNutrients(nutrients, pk), pk)
    ensures forall i :: i in ingredients ==> (i in CascadeIngredients(ingredients, pk) <==> ingredients[i].recipe != pk)
    ensures forall i :: i in CascadeIngredients(ingredients, pk) ==> CascadeIngredients(ingredients, pk)[i] == ingredients[i]
    ensures forall n :: n in nutrients ==> (n in CascadeNutrients(nutrients, pk) <==> nutrients[n].recipe != pk)
  {
  }
}
