# Student recipes site — a Dafny model

A Django site where students register, keep a profile and share recipes. A recipe
has a list of ingredients and one row of nutrient values. This project models the
site's two applications in Dafny and proves properties of them.

- **recipesApp**: the models and their field validators, the three forms of the
  recipe wizard, and the views. The views are the recipe listings with search,
  category filter and pagination, the per-author listings, the create and update
  wizards, and the delete view with its author test.
- **users**: the registration and profile-update forms, the views for
  registering, editing the profile and deactivating the account, and the
  `post_save` signals that give every new user a profile.

The database is one object, `Store.Db`, with one `map` per table and one key
counter per table. Its methods are the ORM writes the views perform. The
invariant `Db.Valid()` says:

- every foreign key points at an existing row;
- keys are below their counter;
- usernames are unique and non-empty, as Django's `User` model requires;
- a recipe has at most one nutrient row;
- every user has exactly one profile.

Inserting a user leaves only `Db.Consistent()`, which is `Valid()` without the
profile clause. The `create_profile` receiver restores the full invariant.

Form validation is modelled as data. Each model field is a list of validators,
and `RecipeModels.Clean` runs them. A "Rule" lemma per field states which values
the list accepts. Decimal fields are integers counting hundredths.

The views are methods on the store. Each takes:

- the signed-in user, as `Option<UserId>`;
- the request method;
- the already parsed form data.

Each returns an `Http.Response`. The listing views compute pure values:

- the query filters, then sorts newest first;
- `Paginator` cuts the result into 9-row pages;
- a bad `page` parameter is a 404.

When both a category `c` and a search `s` are given, `get_queryset` returns at
the category branch and ignores the search; `RecipeListing.CategoryTakesPrecedence`
states that.

Both account forms are model forms on Django's `User`. Validating them runs the
model's `clean`, which lower-cases the part of the email after the last `@`, so
the saved address is normalised. The registration form's own uniqueness test
runs earlier, on the address as typed.

Nothing calls the clock, the file system or the network. Time is passed in as
the parameter `now`. Uploaded files are taken as their stored names.

## Model

| member | source | states |
|---|---|---|
| RecipeModels.ParseSkill | recipesApp/models.py:14-18 | a string parses to a skill exactly when it is that skill's stored name |
| RecipeModels.ParseCategory | recipesApp/models.py:20-27 | a string parses to a category exactly when it is that category's stored name |
| RecipeModels.ChoicesAreTheEnumerations | recipesApp/models.py:14-27 | the choice tuples' stored values are exactly the strings the skill and category parsers accept |
| RecipeModels.Violations | recipesApp/models.py:41-49 | a value passes a validator list iff no validator in the list reports a violation |
| RecipeModels.Clean | recipesApp/models.py:29-75 | no contract of its own: it runs a field's validator list; the per-field Rule lemmas below state what each list accepts |
| Text.Lower | recipesApp/models.py:35-38 | lower-casing keeps the length and maps each character through the ASCII case fold; Text.LowerIdempotent states that folding a folded string changes nothing |
| Text.LowerIdempotent | recipesApp/models.py:35-38 | folding a folded string changes nothing |
| RecipeModels.ExtensionOfJoin | recipesApp/models.py:35-38 | the extension the file-extension validator reads from `base.ext` is `ext` lower-cased |
| RecipeModels.NoDotNoExtension | recipesApp/models.py:35-38 | a name with no dot has the empty extension |
| RecipeModels.RecipeNameRule | recipesApp/models.py:29 | a recipe name is accepted iff its length is 1 to 150 |
| RecipeModels.DescriptionRule | recipesApp/models.py:56-59 | a description is accepted iff its length is 5 to 120 |
| RecipeModels.InstructionRule | recipesApp/models.py:60-63 | an instruction is accepted iff its length is 10 to 5000 |
| RecipeModels.IngredientRule | recipesApp/models.py:100-107 | an ingredient text is accepted iff its length is 3 to 120 |
| RecipeModels.ImageRule | recipesApp/models.py:30-40 | an image name is accepted iff it is 1 to 250 characters and its lower-cased extension is one of the sixteen listed |
| RecipeModels.CostRule | recipesApp/models.py:41-49 | a cost is accepted iff it is 0.01 to 100.01, in hundredths |
| RecipeModels.PortionRule | recipesApp/models.py:50-55 | a portion count is accepted iff it is 1 to 20 |
| RecipeModels.CookingTimeRule | recipesApp/models.py:64-67 | a cooking time is accepted iff it is 0 to 1440 minutes |
| RecipeModels.SkillsLevelRule | recipesApp/models.py:68 | a skills level is accepted iff it is one of the three choices |
| RecipeModels.RecipeCategoryRule | recipesApp/models.py:69-74 | a category is accepted iff it is one of the six choices |
| RecipeModels.CaloriesRule | recipesApp/models.py:116-122 | calories are accepted iff absent or 0 to 10000 |
| RecipeModels.AmountRule | recipesApp/models.py:123-132 | a nullable decimal amount with min -0.01 and max `hi` is accepted iff absent or in that range |
| RecipeModels.NutrientAmountRules | recipesApp/models.py:123-172 | fat, carbohydrate and protein are accepted iff absent or -0.01 to 1000, fibre and salt iff absent or -0.01 to 500 |
| RecipeModels.JoinedImageNameRule | recipesApp/models.py:30-40 | `base.ext` is accepted as an image iff it fits 250 characters and `ext` lower-cased is a listed extension |
| RecipeModels.DefaultImageAccepted | recipesApp/models.py:31 | the default image name `default.jpg` passes the image validators |
| RecipeModels.UpperCaseExtensionAccepted | recipesApp/models.py:35-38 | an upper-case extension such as `beans.JPG` is accepted |
| RecipeModels.HiddenFileNameRefused | recipesApp/models.py:35-38 | `.jpg` has no extension and is refused |
| RecipeModels.TupleDefaultsAreNotChoices | recipesApp/models.py:68-74 | the two tuple defaults, stored as text, fail their fields' choice validation |
| RecipeModels.IntendedDefaultsAreChoices | recipesApp/models.py:68-74 | `Easy` and `Other` pass choice validation and parse to the first skill and the last category |
| RecipeModels.CascadeKeepsLinks | recipesApp/models.py:98-115 | deleting a recipe with CASCADE on ingredients and nutrient leaves every link valid and removes exactly the recipe's rows |
| Text.StripSpec | users/forms.py:21 | stripping yields an unpadded middle slice of the input with only whitespace cut off at both ends |
| Text.StripKeepsUnpadded | users/forms.py:21 | stripping leaves an unpadded string unchanged |
| Text.StripIdempotent | users/forms.py:21 | stripping twice is stripping once |
| RecipeForms.RecipeFormRule | recipesApp/forms.py:13-18 | the recipe form has no errors iff every one of its nine fields, text fields stripped, is in its field's range; cost, cooking time and portion are required, so leaving one blank is an error |
| RecipeForms.RecipeFormErrors | recipesApp/forms.py:13-18 | no contract of its own: the recipe form's errors, field by field; RecipeForms.RecipeFormRule states when there are none |
| RecipeForms.NutrientFormRule | recipesApp/forms.py:30-34 | the nutrient form has no errors iff every one of its six amounts is absent or in range |
| RecipeForms.NutrientFormErrors | recipesApp/forms.py:30-34 | no contract of its own: the nutrient form's errors; RecipeForms.NutrientFormRule states when there are none |
| RecipeForms.RecipeFormRoundTrip | recipesApp/forms.py:7-18 | saving the form into a recipe and reading it back returns the cleaned form; a recipe with unpadded texts edited with its own initial data is unchanged; author and date are kept |
| RecipeForms.NutrientFormRoundTrip | recipesApp/forms.py:30-34 | binding a nutrient form and reading it back give the form and the row back |
| RecipeForms.BlankNutrientFormAccepted | recipesApp/forms.py:30-34 | a nutrient form with every amount left blank is valid |
| RecipeForms.FormsetFormCount | recipesApp/forms.py:38-45 | the ingredient formset shows at least three forms, and exactly the existing rows when there are three or more |
| RecipeForms.IngredientStepRule | recipesApp/forms.py:38-45 | in a valid ingredient step the first three forms and every form editing a row hold 3 to 120 characters; only later extra forms may be blank |
| RecipeForms.IngredientStepValid | recipesApp/forms.py:38-45 | no contract of its own: the formset is valid when its forms edit only the recipe's rows and each form is valid or a permitted blank extra; RecipeForms.IngredientStepRule states what that gives each form |
| Store.CascadeProfilesKeepsLinks | users/models.py:7 | removing a user with CASCADE on its profile keeps every profile linked and every remaining user with a profile |
| Store.RemoveUserKeepsRules | recipesApp/models.py:28 | removing a user who is no recipe's author keeps keys, unique non-empty usernames and recipe authors valid |
| Store.Db.InsertUser | users/views.py:19 | a new user row under the next key; nothing else changes; that user alone lacks a profile |
| Store.Db.UpdateUser | users/views.py:36 | the user row is replaced; the invariant holds; nothing else changes |
| Store.Db.InsertProfile | users/signals.py:11 | a new profile row under the next key; nothing else changes |
| Store.Db.DeleteUser | recipesApp/models.py:28 | a user is deleted, with their profile, iff they author no recipe; otherwise nothing changes |
| Store.Db.InsertRecipe | recipesApp/views.py:88 | a new recipe row under the next key; nothing else changes |
| Store.Db.UpdateRecipe | recipesApp/views.py:127 | the recipe row is replaced; nothing else changes |
| Store.Db.DeleteRecipe | recipesApp/models.py:98-115 | the recipe goes, with its ingredients and nutrient row; accounts are untouched |
| Store.Db.InsertIngredient | recipesApp/views.py:89-91 | a new ingredient row under the next key; nothing else changes |
| Store.Db.UpdateIngredient | recipesApp/views.py:128-130 | the ingredient row is replaced; nothing else changes |
| Store.Db.InsertNutrient | recipesApp/views.py:92-93 | a new nutrient row for a recipe that had none; nothing else changes |
| Store.Db.UpdateNutrient | recipesApp/views.py:131-132 | the nutrient row is replaced; nothing else changes |
| Signals.CreateProfile | users/signals.py:8-11 | on creation a profile for the instance is added under the next key; on a plain save nothing changes |
| Signals.SaveProfile | users/signals.py:15-17 | `instance.profile` succeeds iff the user has a profile, and then names that profile |
| Signals.PostSave | users/signals.py:8-17 | both receivers in order: after a creation the profile just made is found; otherwise the lookup fails exactly when the user has no profile |
| Signals.SaveNewUser | users/views.py:19 | saving a new user adds the user and exactly one profile for them, and restores the full invariant |
| Signals.SaveExistingUser | users/views.py:36 | re-saving a user replaces their row and leaves profiles as they were |
| UserForms.MatchTail | users/forms.py:45 | the pattern's tail from `i` matches iff at least one character remains and every remaining one is a word character or one of `.@+-` |
| UserForms.UsernamePatternMatches | users/forms.py:45-46 | `^[\w.@+-]+\Z` matches iff the name is non-empty and made of those characters only |
| UserForms.CleanEmail | users/forms.py:25-28 | the email is refused with "The given email is already registered" iff some user already has it; otherwise it is returned unchanged |
| UserForms.CleanUsername | users/forms.py:43-48 | the username is refused with "Provide a valid username" iff it does not match the pattern; otherwise it is returned unchanged |
| UserForms.NormalizeEmailRule | users/forms.py:9-18 | the normalised email keeps the length, the last `@` and everything before it, and folds the case of each domain character; an address without `@` is unchanged |
| UserForms.NormalizeEmailIdempotent | users/forms.py:9-18 | normalising a normalised email changes nothing |
| UserForms.StoredEmailIsNormalized | users/forms.py:9-18 | `bob@Example.COM` is stored as `bob@example.com`, so that lower-case address is then in use |
| UserForms.RegisterFormRule | users/forms.py:9-28 | the registration form has no errors iff the stripped username is non-empty and free, the stripped email is non-empty and unused, and both password fields are given and equal |
| UserForms.RegisterRejectsUsedEmail | users/forms.py:25-28 | registration reports the used-email error iff the stripped email is non-empty and already registered |
| UserForms.RegisterErrors | users/forms.py:9-28 | no contract of its own: the registration form's errors; UserForms.RegisterFormRule and RegisterRejectsUsedEmail state them |
| UserForms.UpdateFormRule | users/forms.py:32-48 | the update form has no errors iff the stripped username matches the pattern and is no other user's, and the stripped email is non-empty |
| UserForms.UpdateIgnoresEmailInUse | users/forms.py:32-40 | an update may take another user's email: the update form has no email uniqueness check |
| UserForms.UpdateErrors | users/forms.py:32-48 | no contract of its own: the update form's errors; UserForms.UpdateFormRule and UpdateIgnoresEmailInUse state them |
| UserForms.EmptyUsernameRejected | users/forms.py:45 | the pattern refuses the empty name |
| UserForms.StarsUsernameRejected | users/forms.py:45 | the pattern refuses `***` |
| UserForms.PlainUsernameAccepted | users/forms.py:45 | the pattern accepts `test39` |
| UserForms.TrailingNewlineStripped | users/forms.py:45 | `\Z` refuses `abc\n`, but the field strips the newline first, so `abc` is what gets checked |
| UserViews.Register | users/views.py:12-27 | a POST with a valid form adds the user, with stripped name and normalised email, and their profile, and redirects to login; anything else renders the form and changes nothing |
| UserViews.ProfileView | users/views.py:31-47 | anonymous requests go to login; a valid POST replaces the signed-in user's username and email, the email normalised, and redirects to profile; anything else renders and changes nothing |
| UserViews.DelAccount | users/views.py:51-61 | a POST by a signed-in user deactivates only that account and redirects to login; a GET renders the confirmation page and changes nothing |
| RecipeListing.IsSubstringIff | recipesApp/views.py:41 | the substring search finds `sub` iff `sub` occurs at some position of `s` |
| RecipeListing.EmptySearchContained | recipesApp/views.py:41 | every name contains the empty search |
| RecipeListing.CaseIgnored | recipesApp/views.py:41 | `icontains` holds iff the lower-cased search occurs in the lower-cased name |
| RecipeListing.Filter | recipesApp/views.py:39-41 | filtering keeps exactly the matching rows, each as often as in the input |
| RecipeListing.NewestFirstCons | recipesApp/views.py:30 | a row no older than a newest-first list may be put in front of it |
| RecipeListing.InsertByDate | recipesApp/views.py:30 | inserting into a newest-first list keeps it newest first and adds exactly that row |
| RecipeListing.SortNewestFirst | recipesApp/views.py:30 | ordering by `-dateAdded` gives a newest-first permutation of the input |
| RecipeListing.ListingRule | recipesApp/views.py:35-42 | a listing is newest first and holds exactly the matching rows with their multiplicity |
| RecipeListing.ListingOfTable | recipesApp/views.py:39-42 | a listing of an enumeration of the recipe table holds exactly the table's recipes that match |
| RecipeListing.QueryCriterion | recipesApp/views.py:36-41 | no contract of its own: a category beats a search, a search beats the full table; the three lemmas below state each case |
| RecipeListing.ListRecipes | recipesApp/views.py:35-42 | no contract of its own: the listing for the query's criterion; CategoryTakesPrecedence, SearchWithoutCategory, NoFilterListsAll, EmptySearchListsAll and UnmatchedCategoryEmpty state it for every query |
| RecipeListing.CategoryTakesPrecedence | recipesApp/views.py:38-39 | with a category given, the listing filters by category and the search parameter makes no difference |
| RecipeListing.SearchWithoutCategory | recipesApp/views.py:40-41 | with no category and a search given, the listing is the rows whose name contains the search |
| RecipeListing.NoFilterListsAll | recipesApp/views.py:42 | for any query with neither a category nor a search (absent or "NONE"), every recipe is listed, newest first, whatever page is asked for |
| RecipeListing.AllRecipesPageLink | recipesApp/views.py:32-42 | with no filter, the link to page k shows the k-th chunk of all recipes newest first, the same listing as the bare home page |
| RecipeListing.EmptySearchListsAll | recipesApp/views.py:40-41 | for any query without a category, an empty search lists every recipe |
| RecipeListing.UnmatchedCategoryEmpty | recipesApp/views.py:38-39 | for any query naming a category no recipe has, the listing is empty |
| RecipeListing.NumPages | recipesApp/views.py:32 | the page count is at least 1 and is the smallest count whose 9-row pages hold all rows |
| RecipeListing.Chunks | recipesApp/views.py:32 | the pages number NumPages, hold at most 9 rows each, and concatenate back to the rows |
| RecipeListing.Page | recipesApp/views.py:32 | page n exists iff 1 <= n <= NumPages, and holds at most 9 rows |
| RecipeListing.PageIsChunk | recipesApp/views.py:32 | page n is the n-th chunk |
| RecipeListing.ParseInt | recipesApp/views.py:32 | no contract of its own: `int()` on digits with an optional sign; RecipeListing.NatToStringRoundTrip states that it reads back every written page number |
| RecipeListing.NatToStringRoundTrip | recipesApp/views.py:32 | a page number written in decimal parses back to itself |
| RecipeListing.PageParam | recipesApp/views.py:32 | no contract of its own: a missing or empty page parameter is page 1, else a number, `last`, or malformed; the Paginate lemmas state the page each gives |
| RecipeListing.Paginate | recipesApp/views.py:32 | a page holds at most 9 rows, all taken from the listing |
| RecipeListing.PaginateNumber | recipesApp/views.py:32 | a numeric page parameter gives that chunk when in range and a 404 otherwise |
| RecipeListing.PaginateLast | recipesApp/views.py:32 | `page=last` gives the last chunk |
| RecipeListing.PaginateMalformed | recipesApp/views.py:32 | any other page parameter is a 404 |
| RecipeListing.FirstPageByDefault | recipesApp/views.py:32 | with no page parameter the first chunk is shown |
| RecipeListing.PageLinksResolve | recipesApp/views.py:32 | the decimal link to every existing page shows that page |
| RecipeListing.RecipeListPage | recipesApp/views.py:25-42 | no contract of its own: the home listing's requested page; RecipeListing.RecipeListPageRule states it |
| RecipeListing.RecipeListPageRule | recipesApp/views.py:25-42 | a home-listing page holds at most 9 rows, each selected by the query; with no page parameter it is the first chunk; a malformed parameter is a 404 |
| RecipeListing.FindUser | recipesApp/views.py:68 | the lookup by username succeeds iff a user has that name, and then gives that user |
| RecipeListing.AuthorRecipesRule | recipesApp/views.py:67-70 | an author's page 404s iff no user has the name, and otherwise lists that user's recipes newest first |
| RecipeListing.AuthorRecipes | recipesApp/views.py:67-70 | no contract of its own: the named user's recipes newest first, or a 404; RecipeListing.AuthorRecipesRule states it |
| RecipeListing.AuthorPage | recipesApp/views.py:61-70 | no contract of its own: the requested page of an author's listing; RecipeListing.AuthorPageRule states it |
| RecipeListing.AuthorPageRule | recipesApp/views.py:61-70 | an unknown name is a 404; otherwise each of the page's at most 9 rows is a recipe by the user with that name |
| RecipeListing.MyRecipes | recipesApp/views.py:53-57 | no contract of its own: the listing under the requester's username; the next two lemmas state it |
| RecipeListing.AnonymousMyRecipesNotFound | recipesApp/views.py:53-57 | an anonymous request to "my recipes" looks up the empty username and gets a 404 |
| RecipeListing.SignedInMyRecipes | recipesApp/views.py:53-57 | a signed-in user's "my recipes" lists their own recipes newest first |
| RecipeListing.DeactivatedAuthorStillListed | recipesApp/views.py:67-70 | deactivating an account does not change its author page |
| RecipeViews.SaveKeepsRows | recipesApp/views.py:89-91 | saving the formset keeps every existing row key, changes only rows of the recipe, and keeps keys below the counter |
| RecipeViews.SaveIngredientForms | recipesApp/views.py:89-91 | no contract of its own: the formset's forms saved one after another; SaveKeepsRows, SaveKeepsOwnRows and SaveNewForms state what it keeps and adds |
| RecipeViews.SaveKeepsOwnRows | recipesApp/views.py:128-130 | after saving the formset the recipe still owns every row it owned, and other recipes' rows are untouched |
| RecipeViews.OwnRowsCount | recipesApp/views.py:128-130 | saving the formset never lowers the number of the recipe's ingredients |
| RecipeViews.SaveNewForms | recipesApp/views.py:89-91 | saving only new forms adds one row per form under consecutive keys, the k-th holding the k-th form's text |
| RecipeViews.SaveIngredient | recipesApp/views.py:91 | `form.save()` of one ingredient form: a new form inserts one row under the next key, a bound form overwrites its own row; recipes and nutrients are unchanged |
| RecipeViews.SaveIngredients | recipesApp/views.py:89-91 | the loop over the formset leaves the ingredient table equal to the forms saved one after another |
| RecipeViews.DoneCreate | recipesApp/views.py:86-96 | the create wizard's save adds the recipe, one ingredient per form, and the nutrient row, all bound to the new recipe |
| RecipeViews.DoneUpdate | recipesApp/views.py:125-135 | the update wizard's save replaces the recipe with the signed-in user as author, saves the formset and replaces the nutrient row |
| RecipeViews.GetFormInstance | recipesApp/views.py:110-122 | with a pk, steps `RecipeForm` and `1` get the recipe and `NutrientForm` gets its nutrient row, failing when the row is missing; otherwise no instance |
| RecipeViews.RevalidateSteps | recipesApp/views.py:80-83 | the wizard may finish iff the recipe form, the ingredient formset and the nutrient form of its form list all have their fields in range |
| RecipeViews.FinishCreate | recipesApp/views.py:80-96 | login required; the create commit runs iff all three steps are valid, and then redirects to the new recipe; otherwise nothing is saved |
| RecipeViews.FinishUpdate | recipesApp/views.py:100-135 | login required; a missing recipe or nutrient raises (500); the update commit runs iff all three steps are valid, and then redirects to the recipe |
| RecipeViews.TestFunc | recipesApp/views.py:150-155 | the test 404s iff the recipe is missing and passes iff the requester is its author |
| RecipeViews.DeleteRecipeView | recipesApp/views.py:139-155 | a POST by the author deletes the recipe with its rows and redirects home; a missing recipe is a 404, a non-author a 403, a GET renders the confirmation |

## Left out

- Image resizing in `Recipe.save` (Pillow) is not modelled: it is file I/O and floating point on pixel sizes. An image is its stored name.
- RecipeForms.RecipeFormRule: the form-level `ImageField` decodes each upload with Pillow and admits only the extensions Pillow knows, which leaves out svg, svgz, pjp and pjpeg. Neither check is modelled, because it depends on the upload's bytes and on the Pillow version; the model assumes every upload is an image Pillow can decode and applies only the model field's own 16-extension list.
- `FileSystemStorage` and the wizard's session storage are not modelled. The wizard is modelled at its final POST, with the three steps' data as parameters.
- Templates, flash messages, logging and `print("test")` have no effect on the model.
- Password hashing and Django's password validators are left out; registration only checks that the two password fields are given and equal. Login is a parameter, the signed-in user.
- Django's own username validator on registration, NFKC normalisation of the username and `max_length=150` are not modelled. The help text's limit of 20 characters is not enforced by the code either.
- `EmailField` syntax validation is left out: an email is any non-empty stripped string. Its normalisation folds ASCII case only, where Python's `lower()` folds all of Unicode.
- Whitespace, `\w` and case folding are ASCII only. Unicode classes are outside the model.
- `int()` parsing of the page parameter covers an optional sign and ASCII digits; surrounding whitespace, underscores and Unicode digits are not modelled.
- Decimal fields are taken as already parsed hundredths. Parsing decimal text and the `decimal_places` check are not modelled.
- RecipeForms.RecipeFormErrors: a numeric form field is either blank or an already parsed number. Text that is not a number ("Enter a number.", "Enter a whole number.") is not modelled, and neither is the integer parsing of `cookingTime`, `portion` and `calories`. A blank required field reports the model field's message ("This field cannot be null.", "This field cannot be blank.") instead of the form field's "This field is required."; which fields fail is the same.
- Choice fields are not stripped, as Django does not strip them.
- Rows with equal `dateAdded` may come in any order in the database; the model fixes one order by its insertion sort.
- A query key given twice is modelled by one value, the last one, as `QueryDict.get` returns.
- Transactions and concurrent requests are not modelled.
- `RecipeForms.IngredientStepRule`: `validate_min` is off in the formset, so the model does not require three non-blank forms.
- `Store.Db.DeleteUser`: for an author, `SET_DEFAULT` to `'Anonymous'` is not a valid key and the deletion fails, so the model refuses it and changes nothing.
- URL routing is modelled only through the wizard's step names; no view resolves a URL.
- `RecipeDetailView`, `home` and `about` only render templates and are not modelled.
- Extra ingredient forms left blank are saved as rows with an empty text, as the code does.

## Findings

| source | as written | input that shows it | evidently intended | confidence | as-written member | corrected member |
|---|---|---|---|---|---|---|
| recipesApp/models.py:68 | `skillsLevel` default is the tuple `('Easy', 'Easy')`, which a CharField stores as its text | a recipe saved without a skills level stores `"('Easy', 'Easy')"`, which fails choice validation | default `'Easy'` | not executed | RecipeModels.TupleDefaultsAreNotChoices | RecipeModels.IntendedDefaultsAreChoices |
| recipesApp/models.py:71 | `recipeCategory` default is the tuple `('Other', 'Other')` | a recipe saved without a category stores `"('Other', 'Other')"`, which fails choice validation | default `'Other'` | not executed | RecipeModels.TupleDefaultsAreNotChoices | RecipeModels.IntendedDefaultsAreChoices |
