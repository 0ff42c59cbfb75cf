/**
 * The three recipe listings of recipesApp/views.py: the home listing with its
 * category and name filters, the signed-in user's recipes and any user's
 * recipes. Each is a query over the recipe table, ordered newest first and cut
 * into pages of nine.
 */
module RecipeListing {
  import opened Wrappers
  import opened UserModels
  import opened RecipeModels
  import opened Text

  /** A recipe as the ORM returns it: primary key and row. */
  datatype Row = Row(id: RecipeId, recipe: Recipe)

  /** The rows of a recipe table in some database order: each key once, with its row. */
  predicate Enumerates(rows: seq<Row>, recipes: map<RecipeId, Recipe>)
  {
    && (forall i :: 0 <= i < |rows| ==> rows[i].id in recipes && recipes[rows[i].id] == rows[i].recipe)
    && (forall id :: id in recipes ==> exists i :: 0 <= i < |rows| && rows[i].id == id)
    && (forall i, j :: 0 <= i < j < |rows| ==> rows[i].id != rows[j].id)
  }

  /** request.GET; a repeated key is represented by the value QueryDict.get returns, its last one. */
  type QueryDict = map<string, string>

  /** QueryDict.get(key, default). */
  function GetParam(q: QueryDict, key: string, default: string): string
  {
    if key in q then q[key] else default
  }

  // ---------------------------------------------------------------------
  // Case-insensitive containment (recipeName__icontains)

  /** `sub` occurs in `s` starting at position k. */
  predicate OccursAt(sub: string, s: string, k: nat)
  {
    k + |sub| <= |s| && s[k..k + |sub|] == sub
  }

  /** Tries every start position from the left. */
  function IsSubstring(sub: string, s: string): bool
    decreases |s|
  {
    if |sub| > |s| then false
    else if s[..|sub|] == sub then true
    else IsSubstring(sub, s[1..])
  }

  /** The search finds `sub` iff it occurs somewhere in `s`. */
  lemma {:induction false} IsSubstringIff(sub: string, s: string)
    ensures IsSubstring(sub, s) <==> exists k: nat :: OccursAt(sub, s, k)
    decreases |s|
  {
    if |sub| > |s| {
      assert forall k: nat :: !OccursAt(sub, s, k);
    } else if s[..|sub|] == sub {
      assert OccursAt(sub, s, 0);
    } else {
      IsSubstringIff(sub, s[1..]);
      forall k: nat
        ensures OccursAt(sub, s[1..], k) <==> OccursAt(sub, s, k + 1)
      {
        if k + 1 + |sub| <= |s| {
          assert s[1..][k..k + |sub|] == s[k + 1..k + 1 + |sub|];
        }
      }
      assert s[0..|sub|] == s[..|sub|];
      assert !OccursAt(sub, s, 0);
      if exists k: nat :: OccursAt(sub, s, k) {
        var k: nat :| OccursAt(sub, s, k);
        assert OccursAt(sub, s[1..], k - 1);
      }
    }
  }

  /** icontains, with ASCII case folding of both sides. */
  predicate ContainsIgnoringCase(name: string, search: string)
  {
    IsSubstring(Lower(search), Lower(name))
  }

  /** The empty search string is contained in every name. */
  lemma EmptySearchContained(name: string)
    ensures ContainsIgnoringCase(name, "")
  {
    assert Lower(name)[..0] == Lower("");
  }

  /** Containment ignores letter case: it holds iff the lower-cased search occurs somewhere in the lower-cased name. */
  lemma CaseIgnored(name: string, search: string)
    ensures ContainsIgnoringCase(name, search) <==> exists k: nat :: OccursAt(Lower(search), Lower(name), k)
  {
    IsSubstringIff(Lower(search), Lower(name));
  }

  // ---------------------------------------------------------------------
  // Filtering and ordering

  datatype Criterion = ByCategory(category: string) | NameContains(search: string) | ByAuthor(author: UserId) | All

  predicate Matches(r: Row, c: Criterion)
  {
    match c
    case ByCategory(category) => r.recipe.recipeCategory == category
    case NameContains(search) => ContainsIgnoringCase(r.recipe.recipeName, search)
    case ByAuthor(author) => r.recipe.author == author
    case All => true
  }

  /** filter(): the matching rows, each as often as it occurs, in their order. */
  function Filter(rows: seq<Row>, c: Criterion): (r: seq<Row>)
    ensures forall x :: multiset(r)[x] == if Matches(x, c) then multiset(rows)[x] else 0
    ensures |r| <= |rows|
  {
    if rows == [] then []
    else
      assert rows == [rows[0]] + rows[1..];
      (if Matches(rows[0], c) then [rows[0]] else []) + Filter(rows[1..], c)
  }

  /** order_by('-dateAdded'): no row is older than a row after it. */
  predicate NewestFirst(s: seq<Row>)
  {
    forall i, j :: 0 <= i < j < |s| ==> s[i].recipe.dateAdded >= s[j].recipe.dateAdded
  }

  /** No row of `s` is newer than d. */
  predicate NoNewerThan(s: seq<Row>, d: int)
  {
    forall j :: 0 <= j < |s| ==> s[j].recipe.dateAdded <= d
  }

  lemma NewestFirstCons(y: Row, rest: seq<Row>)
    requires NewestFirst(rest) && NoNewerThan(rest, y.recipe.dateAdded)
    ensures NewestFirst([y] + rest)
  {
  }

  function InsertByDate(x: Row, s: seq<Row>): (r: seq<Row>)
    requires NewestFirst(s)
    ensures NewestFirst(r) && multiset(r) == multiset(s) + multiset{x}
    ensures forall d :: NoNewerThan(s, d) && x.recipe.dateAdded <= d ==> NoNewerThan(r, d)
  {
    if s == [] || x.recipe.dateAdded >= s[0].recipe.dateAdded then
      NewestFirstCons(x, s);
      [x] + s
    else
      assert s == [s[0]] + s[1..];
      var rest := InsertByDate(x, s[1..]);
      assert NoNewerThan(s[1..], s[0].recipe.dateAdded);
      NewestFirstCons(s[0], rest);
      [s[0]] + rest
  }

  /** The rows newest first; rows with the same date may come in any order. */
  function SortNewestFirst(s: seq<Row>): (r: seq<Row>)
    ensures NewestFirst(r) && multiset(r) == multiset(s)
  {
    if s == [] then []
    else
      assert s == [s[0]] + s[1..];
      InsertByDate(s[0], SortNewestFirst(s[1..]))
  }

  /** The rows matching a criterion, newest first. */
  function Listing(rows: seq<Row>, c: Criterion): seq<Row>
  {
    SortNewestFirst(Filter(rows, c))
  }

  /** A listing holds every matching row as often as the table does, nothing else, ordered by date. */
  lemma ListingRule(rows: seq<Row>, c: Criterion)
    ensures NewestFirst(Listing(rows, c))
    ensures forall x :: multiset(Listing(rows, c))[x] == if Matches(x, c) then multiset(rows)[x] else 0
    ensures forall x :: x in Listing(rows, c) <==> x in rows && Matches(x, c)
  {
    var l := Listing(rows, c);
    forall x
      ensures x in l <==> x in rows && Matches(x, c)
    {
      assert x in l <==> x in multiset(l);
      assert x in rows <==> x in multiset(rows);
    }
  }

  /**
   * A listing taken from an enumeration of the recipe table holds exactly the
   * table's recipes that match.
   */
  lemma ListingOfTable(rows: seq<Row>, recipes: map<RecipeId, Recipe>, c: Criterion)
    requires Enumerates(rows, recipes)
    ensures forall x :: x in Listing(rows, c) <==> x.id in recipes && recipes[x.id] == x.recipe && Matches(x, c)
  {
    ListingRule(rows, c);
    forall x: Row | x.id in recipes && recipes[x.id] == x.recipe
      ensures x in rows
    {
      var i :| 0 <= i < |rows| && rows[i].id == x.id;
      assert rows[i] == x;
    }
  }

  // ---------------------------------------------------------------------
  // RecipeListView.get_queryset

  const NoParam := "NONE"

  /** The filter get_queryset picks: a category beats a search, a search beats the full table. */
  function QueryCriterion(q: QueryDict): Criterion
  {
    var category := GetParam(q, "c", NoParam);
    var search := GetParam(q, "s", NoParam);
    if category != NoParam then ByCategory(category)
    else if search != NoParam then NameContains(search)
    else All
  }

  function ListRecipes(rows: seq<Row>, q: QueryDict): seq<Row>
  {
    Listing(rows, QueryCriterion(q))
  }

  /** With a category in the query the search is ignored: the listing is that category's recipes. */
  lemma CategoryTakesPrecedence(rows: seq<Row>, q: QueryDict, search: string)
    requires "c" in q && q["c"] != NoParam
    ensures ListRecipes(rows, q) == Listing(rows, ByCategory(q["c"]))
    ensures ListRecipes(rows, q["s" := search]) == ListRecipes(rows, q)
  {
    assert q["s" := search]["c"] == q["c"];
  }

  /** Without a category, a search lists the recipes whose name contains it, whatever the case. */
  lemma SearchWithoutCategory(rows: seq<Row>, q: QueryDict)
    requires GetParam(q, "c", NoParam) == NoParam && "s" in q && q["s"] != NoParam
    ensures ListRecipes(rows, q) == Listing(rows, NameContains(q["s"]))
  {
  }

  /**
   * Without a category or a search (absent, or given as "NONE") every recipe
   * is listed newest first, whatever else the query holds, a page number say.
   */
  lemma NoFilterListsAll(rows: seq<Row>, q: QueryDict)
    requires GetParam(q, "c", NoParam) == NoParam && GetParam(q, "s", NoParam) == NoParam
    ensures multiset(ListRecipes(rows, q)) == multiset(rows)
    ensures NewestFirst(ListRecipes(rows, q))
  {
    ListingRule(rows, All);
    assert QueryCriterion(q) == All;
    assert forall x :: multiset(Listing(rows, All))[x] == multiset(rows)[x];
  }

  /** Without a category, an empty search matches every name, so it lists every recipe. */
  lemma EmptySearchListsAll(rows: seq<Row>, q: QueryDict)
    requires GetParam(q, "c", NoParam) == NoParam && "s" in q && q["s"] == ""
    ensures multiset(ListRecipes(rows, q)) == multiset(rows)
  {
    assert QueryCriterion(q) == NameContains("");
    forall x: Row
      ensures Matches(x, NameContains(""))
    {
      EmptySearchContained(x.recipe.recipeName);
    }
    ListingRule(rows, NameContains(""));
    assert forall x :: multiset(Listing(rows, NameContains("")))[x] == multiset(rows)[x];
  }

  /** A category no recipe has gives an empty listing, not an error, whatever else the query holds. */
  lemma UnmatchedCategoryEmpty(rows: seq<Row>, q: QueryDict)
    requires "c" in q && q["c"] != NoParam
    requires forall i :: 0 <= i < |rows| ==> rows[i].recipe.recipeCategory != q["c"]
    ensures ListRecipes(rows, q) == []
  {
    var category := q["c"];
    assert QueryCriterion(q) == ByCategory(category);
    var f := Filter(rows, ByCategory(category));
    forall x
      ensures multiset(f)[x] == 0
    {
      if Matches(x, ByCategory(category)) {
        assert x !in rows;
      }
    }
    assert multiset(f) == multiset{};
  }

  // ---------------------------------------------------------------------
  // Pagination (Paginator with paginate_by = 9, orphans 0, empty first page allowed)

  const PageSize: nat := 9

  /** Paginator.num_pages: ceil(max(1, count) / 9), so an empty listing still has one page. */
  function NumPages(count: nat): (n: nat)
    ensures n >= 1 && count <= n * PageSize
    ensures n == 1 || (n - 1) * PageSize < count
  {
    var hits := if count > 1 then count else 1;
    (hits + PageSize - 1) / PageSize
  }

  function Flatten<T>(pages: seq<seq<T>>): seq<T>
  {
    if pages == [] then [] else pages[0] + Flatten(pages[1..])
  }

  /** The pages of a listing: slices of nine in order, the last possibly shorter, one empty page for an empty listing. */
  function Chunks<T>(items: seq<T>): (pages: seq<seq<T>>)
    ensures |pages| == NumPages(|items|)
    ensures forall k :: 0 <= k < |pages| ==> |pages[k]| <= PageSize
    ensures Flatten(pages) == items
    decreases |items|
  {
    if |items| <= PageSize then
      assert Flatten([items]) == items + Flatten<T>([]);
      [items]
    else
      var rest := Chunks(items[PageSize..]);
      var pages := [items[..PageSize]] + rest;
      assert pages[1..] == rest;
      assert items == items[..PageSize] + items[PageSize..];
      pages
  }

  datatype PageError = InvalidPage

  /** Paginator.page(n): the n-th slice, or an error outside 1..num_pages. */
  function Page<T>(items: seq<T>, n: int): (r: Result<seq<T>, PageError>)
    ensures r.Ok? <==> 1 <= n <= NumPages(|items|)
    ensures r.Ok? ==> |r.value| <= PageSize && forall x :: x in r.value ==> x in items
  {
    if 1 <= n <= NumPages(|items|) then
      var bottom := (n - 1) * PageSize;
      var top := if bottom + PageSize <= |items| then bottom + PageSize else |items|;
      Ok(items[bottom..top])
    else
      Err(InvalidPage)
  }

  /** Page n is the n-th of the chunks, so reading the pages in order reproduces the listing. */
  lemma {:induction false} PageIsChunk<T>(items: seq<T>, n: int)
    requires 1 <= n <= NumPages(|items|)
    ensures Page(items, n) == Ok(Chunks(items)[n - 1])
    decreases n
  {
    if n > 1 {
      var rest := items[PageSize..];
      PageIsChunk(rest, n - 1);
      var bottom := (n - 1) * PageSize;
      var top := if bottom + PageSize <= |items| then bottom + PageSize else |items|;
      assert items[bottom..top] == rest[bottom - PageSize..top - PageSize];
    }
  }

  // ---------------------------------------------------------------------
  // The page parameter

  predicate IsDigit(c: char)
  {
    '0' <= c <= '9'
  }

  function DigitsValue(s: string): (v: nat)
    requires forall k :: 0 <= k < |s| ==> IsDigit(s[k])
  {
    if s == [] then 0
    else
      assert IsDigit(s[|s| - 1]);
      10 * DigitsValue(s[..|s| - 1]) + (s[|s| - 1] as int - '0' as int)
  }

  predicate AllDigits(s: string)
  {
    s != [] && forall k :: 0 <= k < |s| ==> IsDigit(s[k])
  }

  /** int() on a string of ASCII digits with an optional sign. */
  function ParseInt(s: string): Option<int>
  {
    var magnitude: int := if |s| >= 2 && AllDigits(s[1..]) then DigitsValue(s[1..]) else 0;
    if AllDigits(s) then Some(DigitsValue(s))
    else if |s| >= 2 && s[0] == '+' && AllDigits(s[1..]) then Some(magnitude)
    else if |s| >= 2 && s[0] == '-' && AllDigits(s[1..]) then Some(-magnitude)
    else None
  }

  /** str() of a natural number, the way page links are written. */
  function NatToString(n: nat): (s: string)
    ensures AllDigits(s)
  {
    if n < 10 then [('0' as int + n) as char]
    else NatToString(n / 10) + [('0' as int + n % 10) as char]
  }

  /** Reading back a written page number gives the number. */
  lemma {:induction false} NatToStringRoundTrip(n: nat)
    ensures ParseInt(NatToString(n)) == Some(n)
    ensures DigitsValue(NatToString(n)) == n
  {
    var s := NatToString(n);
    if n >= 10 {
      NatToStringRoundTrip(n / 10);
      assert s[..|s| - 1] == NatToString(n / 10);
    } else {
      assert s[..|s| - 1] == [];
    }
    assert DigitsValue(s) == n;
  }

  datatype PageRequest = PageNumber(n: int) | Last | Malformed

  /**
   * `page = kwargs.get('page') or GET.get('page') or 1`: a missing or empty
   * parameter is page 1; otherwise a number, the word "last", or neither.
   */
  function PageParam(q: QueryDict): PageRequest
  {
    var p := GetParam(q, "page", "");
    if p == "" then PageNumber(1)
    else match ParseInt(p)
      case Some(n) => PageNumber(n)
      case None => if p == "last" then Last else Malformed
  }

  datatype ListError = NotFound

  /** paginate_queryset: the requested page, or a 404 for a malformed or out-of-range page. */
  function Paginate<T>(items: seq<T>, q: QueryDict): (r: Result<seq<T>, ListError>)
    ensures r.Ok? ==> |r.value| <= PageSize && forall x :: x in r.value ==> x in items
  {
    var number := match PageParam(q)
      case PageNumber(n) => Some(n)
      case Last => Some(NumPages(|items|))
      case Malformed => None;
    if number.None? then Err(NotFound)
    else match Page(items, number.value)
      case Ok(page) => Ok(page)
      case Err(_) => Err(NotFound)
  }

  /** A page number in 1..num_pages finds that chunk; any other number is a 404. */
  lemma PaginateNumber<T>(items: seq<T>, q: QueryDict)
    requires PageParam(q).PageNumber?
    ensures 1 <= PageParam(q).n <= NumPages(|items|) ==> Paginate(items, q) == Ok(Chunks(items)[PageParam(q).n - 1])
    ensures !(1 <= PageParam(q).n <= NumPages(|items|)) ==> Paginate(items, q) == Err(NotFound)
  {
    var n := PageParam(q).n;
    assert Paginate(items, q) == match Page(items, n) case Ok(page) => Ok(page) case Err(_) => Err(NotFound);
    if 1 <= n <= NumPages(|items|) {
      PageIsChunk(items, n);
    }
  }

  /** "last" finds the final chunk. */
  lemma PaginateLast<T>(items: seq<T>, q: QueryDict)
    requires PageParam(q).Last?
    ensures Paginate(items, q) == Ok(Chunks(items)[NumPages(|items|) - 1])
  {
    PageIsChunk(items, NumPages(|items|));
  }

  /** Anything that is neither a number nor "last" is a 404. */
  lemma PaginateMalformed<T>(items: seq<T>, q: QueryDict)
    requires PageParam(q).Malformed?
    ensures Paginate(items, q) == Err(NotFound)
  {
  }

  /** Without a page parameter the first nine recipes are shown. */
  lemma FirstPageByDefault<T>(items: seq<T>)
    ensures Paginate(items, map[]) == Ok(Chunks(items)[0])
  {
    assert PageParam(map[]) == PageNumber(1);
    PaginateNumber(items, map[]);
  }

  /** The link to page k of a listing leads to the k-th chunk. */
  lemma PageLinksResolve<T>(items: seq<T>, k: nat)
    requires 1 <= k <= NumPages(|items|)
    ensures Paginate(items, map["page" := NatToString(k)]) == Ok(Chunks(items)[k - 1])
  {
    var q := map["page" := NatToString(k)];
    NatToStringRoundTrip(k);
    assert PageParam(q) == PageNumber(k);
    PaginateNumber(items, q);
  }

  /** The home listing's page. */
  function RecipeListPage(rows: seq<Row>, q: QueryDict): Result<seq<Row>, ListError>
  {
    Paginate(ListRecipes(rows, q), q)
  }

  /**
   * The home page's link to page k, with no filter, shows the k-th chunk of
   * every recipe newest first: the same listing as the bare home page.
   */
  lemma AllRecipesPageLink(rows: seq<Row>, k: nat)
    requires 1 <= k <= NumPages(|rows|)
    ensures var q := map["page" := NatToString(k)];
      && ListRecipes(rows, q) == ListRecipes(rows, map[])
      && multiset(ListRecipes(rows, q)) == multiset(rows)
      && RecipeListPage(rows, q) == Ok(Chunks(ListRecipes(rows, map[]))[k - 1])
  {
    var q := map["page" := NatToString(k)];
    NoFilterListsAll(rows, q);
    assert QueryCriterion(q) == All == QueryCriterion(map[]);
    var all := ListRecipes(rows, q);
    assert |all| == |multiset(all)| == |multiset(rows)| == |rows|;
    PageLinksResolve(all, k);
  }

  /**
   * A page of the home listing holds at most nine rows, each a recipe the
   * query selects; with no page parameter it is the first nine of the
   * listing, and a malformed page parameter is a 404.
   */
  lemma RecipeListPageRule(rows: seq<Row>, q: QueryDict)
    ensures RecipeListPage(rows, q).Ok? ==>
              && |RecipeListPage(rows, q).value| <= PageSize
              && forall x :: x in RecipeListPage(rows, q).value ==> x in rows && Matches(x, QueryCriterion(q))
    ensures GetParam(q, "page", "") == "" ==> RecipeListPage(rows, q) == Ok(Chunks(ListRecipes(rows, q))[0])
    ensures PageParam(q).Malformed? ==> RecipeListPage(rows, q) == Err(NotFound)
  {
    ListingRule(rows, QueryCriterion(q));
    if GetParam(q, "page", "") == "" {
      assert PageParam(q) == PageNumber(1);
      PaginateNumber(ListRecipes(rows, q), q);
    }
    if PageParam(q).Malformed? {
      PaginateMalformed(ListRecipes(rows, q), q);
    }
  }

  // ---------------------------------------------------------------------
  // Per-author listings

  /** get_object_or_404(User, username=...): the one user with that name. */
  function FindUser(users: map<UserId, User>, username: string): (r: Option<UserId>)
    requires UniqueUsernames(users)
    ensures r.Some? <==> UsernameTaken(users, username)
    ensures r.Some? ==> r.value in users && users[r.value].username == username
  {
    if UsernameTaken(users, username) then
      var u :| u in users && users[u].username == username;
      Some(u)
    else
      None
  }

  /** UserRecipeListView.get_queryset: the named user's recipes newest first, or 404. */
  function AuthorRecipes(users: map<UserId, User>, rows: seq<Row>, username: string): Result<seq<Row>, ListError>
    requires UniqueUsernames(users)
  {
    match FindUser(users, username)
    case Some(u) => Ok(Listing(rows, ByAuthor(u)))
    case None => Err(NotFound)
  }

  /** An unknown name is a 404; a known one lists exactly that user's recipes. */
  lemma AuthorRecipesRule(users: map<UserId, User>, rows: seq<Row>, username: string)
    requires UniqueUsernames(users)
    ensures AuthorRecipes(users, rows, username).Err? <==> !UsernameTaken(users, username)
    ensures forall u :: u in users && users[u].username == username ==>
              AuthorRecipes(users, rows, username) == Ok(Listing(rows, ByAuthor(u)))
  {
  }

  /** The username a request carries: the signed-in user's, or the anonymous user's empty one. */
  function RequestUsername(users: map<UserId, User>, requester: Option<UserId>): string
    requires requester.Some? ==> requester.value in users
  {
    if requester.Some? then users[requester.value].username else ""
  }

  /** MyRecipeView.get_queryset: the listing of the requester's own name. */
  function MyRecipes(users: map<UserId, User>, rows: seq<Row>, requester: Option<UserId>): Result<seq<Row>, ListError>
    requires UniqueUsernames(users)
    requires requester.Some? ==> requester.value in users
  {
    AuthorRecipes(users, rows, RequestUsername(users, requester))
  }

  /** The view has no login check; an anonymous request looks up the empty name, which no user has. */
  lemma AnonymousMyRecipesNotFound(users: map<UserId, User>, rows: seq<Row>)
    requires UniqueUsernames(users) && UsernamesNonEmpty(users)
    ensures MyRecipes(users, rows, None) == Err(NotFound)
  {
  }

  /** A signed-in user sees exactly their own recipes. */
  lemma SignedInMyRecipes(users: map<UserId, User>, rows: seq<Row>, id: UserId)
    requires UniqueUsernames(users) && id in users
    ensures MyRecipes(users, rows, Some(id)) == Ok(Listing(rows, ByAuthor(id)))
  {
    AuthorRecipesRule(users, rows, users[id].username);
  }

  /** The lookups ignore is_active: a deactivated account's recipes are still listed under its name. */
  lemma DeactivatedAuthorStillListed(users: map<UserId, User>, rows: seq<Row>, id: UserId, username: string)
    requires UniqueUsernames(users) && id in users
    ensures UniqueUsernames(users[id := users[id].(isActive := false)])
    ensures AuthorRecipes(users[id := users[id].(isActive := false)], rows, username) == AuthorRecipes(users, rows, username)
  {
    var after := users[id := users[id].(isActive := false)];
    assert forall u :: u in after ==> after[u].username == users[u].username;
    AuthorRecipesRule(users, rows, username);
    AuthorRecipesRule(after, rows, username);
    if UsernameTaken(users, username) {
      var u :| u in users && users[u].username == username;
      assert u in after && after[u].username == username;
    }
  }

  /** A per-author listing's page. */
  function AuthorPage(users: map<UserId, User>, rows: seq<Row>, username: string, q: QueryDict): Result<seq<Row>, ListError>
    requires UniqueUsernames(users)
  {
    match AuthorRecipes(users, rows, username)
    case Ok(items) => Paginate(items, q)
    case Err(e) => Err(e)
  }

  /**
   * An author page 404s when no user has the name; otherwise each of its at
   * most nine rows is a recipe by the user with that name.
   */
  lemma AuthorPageRule(users: map<UserId, User>, rows: seq<Row>, username: string, q: QueryDict)
    requires UniqueUsernames(users)
    ensures !UsernameTaken(users, username) ==> AuthorPage(users, rows, username, q) == Err(NotFound)
    ensures AuthorPage(users, rows, username, q).Ok? ==>
              && |AuthorPage(users, rows, username, q).value| <= PageSize
              && forall x :: x in AuthorPage(users, rows, username, q).value ==>
                   x in rows && x.recipe.author in users && users[x.recipe.author].username == username
  {
    AuthorRecipesRule(users, rows, username);
    if UsernameTaken(users, username) {
      var u :| u in users && users[u].username == username;
      var items := Listing(rows, ByAuthor(u));
      assert AuthorPage(users, rows, username, q) == Paginate(items, q);
      ListingRule(rows, ByAuthor(u));
      assert forall x :: x in items ==> x.recipe.author == u;
    }
  }
}
