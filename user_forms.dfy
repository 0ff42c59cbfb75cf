/**
 * The two account forms of users/forms.py. Django cleans a form field by field:
 * the field strips surrounding whitespace, a blank required field is an error,
 * then the form's clean_<field> method runs on the stripped value, and finally
 * the model's unique columns are checked and the model's clean normalises the
 * email. Each form is modelled as the list of errors it reports; the form is
 * valid iff that list is empty.
 */
module UserForms {
  import opened Wrappers
  import opened UserModels
  import opened Text

  // ---------------------------------------------------------------------
  // The username pattern of UserUpdateForm.clean_username: ^[\w.@+-]+\Z

  /** `\w` on ASCII: a letter, a digit or the underscore. */
  predicate WordChar(c: char)
  {
    ('a' <= c <= 'z') || ('A' <= c <= 'Z') || ('0' <= c <= '9') || c == '_'
  }

  /** The character class [\w.@+-]. */
  predicate UsernameChar(c: char)
  {
    WordChar(c) || c == '.' || c == '@' || c == '+' || c == '-'
  }

  /**
   * The pattern `[\w.@+-]+\Z` matched from position i: one class character,
   * then either the end of the string (`\Z`) or another repetition.
   */
  function MatchTail(s: string, i: nat): (m: bool)
    requires i <= |s|
    decreases |s| - i
    ensures m <==> i < |s| && forall k :: i <= k < |s| ==> UsernameChar(s[k])
  {
    i < |s| && UsernameChar(s[i]) && (i + 1 == |s| || MatchTail(s, i + 1))
  }

  /**
   * re.search with the leading `^`: without MULTILINE the anchor only holds at
   * position 0, so the search succeeds iff the rest matches from there.
   */
  function UsernamePatternMatches(s: string): (m: bool)
    ensures m <==> s != [] && forall k :: 0 <= k < |s| ==> UsernameChar(s[k])
  {
    MatchTail(s, 0)
  }

  // ---------------------------------------------------------------------
  // Messages and errors

  const RequiredMessage := "This field is required."
  const EmailRegisteredMessage := "The given email is already registered"
  const InvalidUsernameMessage := "Provide a valid username"
  const UsernameExistsMessage := "A user with that username already exists."
  const PasswordMismatchMessage := "The two password fields didn't match."

  datatype FormError = FormError(field: string, message: string)

  /** UserRegisterForm.clean_email: refuses an address some user already has, else returns it as given. */
  function CleanEmail(users: map<UserId, User>, email: string): (r: Result<string, string>)
    ensures r.Err? <==> EmailInUse(users, email)
    ensures r.Err? ==> r.error == EmailRegisteredMessage
    ensures r.Ok? ==> r.value == email
  {
    if EmailInUse(users, email) then Err(EmailRegisteredMessage) else Ok(email)
  }

  /** UserUpdateForm.clean_username: refuses a name outside the pattern, else returns it as given. */
  function CleanUsername(username: string): (r: Result<string, string>)
    ensures r.Ok? <==> username != [] && forall k :: 0 <= k < |username| ==> UsernameChar(username[k])
    ensures r.Err? ==> r.error == InvalidUsernameMessage
    ensures r.Ok? ==> r.value == username
  {
    if UsernamePatternMatches(username) then Ok(username) else Err(InvalidUsernameMessage)
  }

  function ErrorsOf(field: string, r: Result<string, string>): seq<FormError>
  {
    if r.Err? then [FormError(field, r.error)] else []
  }

  // ---------------------------------------------------------------------
  // Email normalisation (AbstractUser.clean, run when the form validates its instance)

  /**
   * BaseUserManager.normalize_email: the part after the last '@' is
   * lower-cased; an address without '@' is kept as it is.
   */
  function NormalizeEmail(email: string): string
  {
    var at := LastIndexOf(email, '@');
    if at < 0 then email else email[..at + 1] + Lower(email[at + 1..])
  }

  /**
   * Normalising keeps the length, the last '@' and everything up to it, and
   * folds the case of each character of the domain; an address without '@'
   * is unchanged.
   */
  lemma NormalizeEmailRule(email: string)
    ensures var n := NormalizeEmail(email); var at := LastIndexOf(email, '@');
      && |n| == |email|
      && LastIndexOf(n, '@') == at
      && n[..at + 1] == email[..at + 1]
      && (at < 0 ==> n == email)
      && (at >= 0 ==> forall k :: at < k < |email| ==> n[k] == LowerChar(email[k]))
  {
    var at := LastIndexOf(email, '@');
    if at >= 0 {
      var local, domain := SplitAtLast(email, at);
      AppendFoldedDomain(local, domain);
      FoldSuffix(email, at + 1);
    }
  }

  /** Cutting an address after its last '@' gives a local part ending in '@' and a domain without '@'. */
  lemma SplitAtLast(email: string, at: int) returns (local: string, domain: string)
    requires at == LastIndexOf(email, '@') && at >= 0
    ensures local == email[..at + 1] && domain == email[at + 1..]
    ensures |local| == at + 1 && local[at] == '@' && '@' !in domain
    ensures email == local + domain
  {
    local, domain := email[..at + 1], email[at + 1..];
    forall j | 0 <= j < |domain|
      ensures domain[j] != '@'
    {
      assert domain[j] == email[at + 1 + j];
    }
  }

  /** A local part ending in '@' followed by a folded domain without '@'. */
  lemma AppendFoldedDomain(local: string, domain: string)
    requires local != [] && local[|local| - 1] == '@' && '@' !in domain
    ensures var n := local + Lower(domain);
      && LastIndexOf(n, '@') == |local| - 1
      && n[..|local|] == local
      && n[|local|..] == Lower(domain)
  {
    var n := local + Lower(domain);
    forall k | |local| <= k < |n|
      ensures n[k] != '@'
    {
      assert n[k] == LowerChar(domain[k - |local|]);
    }
    LastIndexOfAt(n, '@', |local| - 1);
  }

  /** Normalising a normalised address changes nothing. */
  lemma NormalizeEmailIdempotent(email: string)
    ensures NormalizeEmail(NormalizeEmail(email)) == NormalizeEmail(email)
  {
    var at := LastIndexOf(email, '@');
    if at >= 0 {
      var local, domain := SplitAtLast(email, at);
      var n := local + Lower(domain);
      assert NormalizeEmail(email) == n;
      AppendFoldedDomain(local, domain);
      LowerIdempotent(domain);
      assert NormalizeEmail(n) == local + Lower(Lower(domain));
    }
  }

  /** An address registered with an upper-case domain is stored in lower case, so the same address in lower case is then in use. */
  lemma StoredEmailIsNormalized()
    ensures NormalizeEmail("bob@Example.COM") == "bob@example.com"
    ensures EmailInUse(map[0 := User("bob", NormalizeEmail("bob@Example.COM"), true)], "bob@example.com")
  {
    var e := "bob@Example.COM";
    ExampleAddressParts();
    assert NormalizeEmail(e) == "bob@" + Lower("Example.COM");
    ExampleDomainFolded();
    var users := map[0 := User("bob", NormalizeEmail(e), true)];
    assert users[0].email == "bob@example.com";
  }

  lemma ExampleAddressParts()
    ensures LastIndexOf("bob@Example.COM", '@') == 3
    ensures "bob@Example.COM"[..4] == "bob@" && "bob@Example.COM"[4..] == "Example.COM"
  {
    var e := "bob@Example.COM";
    assert forall k :: 3 < k < |e| ==> e[k] != '@';
    LastIndexOfAt(e, '@', 3);
  }

  lemma ExampleDomainFolded()
    ensures Lower("Example.COM") == "example.com"
  {
  }

  // ---------------------------------------------------------------------
  // UserRegisterForm: username, email, password1, password2

  datatype RegisterData = RegisterData(username: string, email: string, password1: string, password2: string)

  /** The row a valid registration saves: stripped name, stripped and normalised email, active. */
  function RegisteredUser(f: RegisterData): User
  {
    User(Strip(f.username), NormalizeEmail(Strip(f.email)), true)
  }

  function RegisterErrors(users: map<UserId, User>, f: RegisterData): seq<FormError>
  {
    var username := Strip(f.username);
    var email := Strip(f.email);
    (if username == "" then [FormError("username", RequiredMessage)]
     else if UsernameTaken(users, username) then [FormError("username", UsernameExistsMessage)]
     else [])
    + (if email == "" then [FormError("email", RequiredMessage)]
       else ErrorsOf("email", CleanEmail(users, email)))
    + (if f.password1 == "" then [FormError("password1", RequiredMessage)] else [])
    + (if f.password2 == "" then [FormError("password2", RequiredMessage)]
       else if f.password1 != "" && f.password1 != f.password2 then [FormError("password2", PasswordMismatchMessage)]
       else [])
  }

  /** What a registration needs, stated on its own. */
  predicate RegistrationAcceptable(users: map<UserId, User>, f: RegisterData)
  {
    var username := Strip(f.username);
    var email := Strip(f.email);
    && username != "" && !UsernameTaken(users, username)
    && email != "" && !EmailInUse(users, email)
    && f.password1 != "" && f.password1 == f.password2
  }

  lemma RegisterFormRule(users: map<UserId, User>, f: RegisterData)
    ensures RegisterErrors(users, f) == [] <==> RegistrationAcceptable(users, f)
  {
    var email := Strip(f.email);
    if email != "" {
      var r := CleanEmail(users, email);
      assert r.Err? <==> EmailInUse(users, email);
    }
  }

  /** The form reports the address as registered iff it is non-blank and some user has it. */
  lemma RegisterRejectsUsedEmail(users: map<UserId, User>, f: RegisterData)
    ensures FormError("email", EmailRegisteredMessage) in RegisterErrors(users, f)
        <==> Strip(f.email) != "" && EmailInUse(users, Strip(f.email))
  {
    var username := Strip(f.username);
    var email := Strip(f.email);
    var e1 := if username == "" then [FormError("username", RequiredMessage)]
              else if UsernameTaken(users, username) then [FormError("username", UsernameExistsMessage)]
              else [];
    var e2 := if email == "" then [FormError("email", RequiredMessage)] else ErrorsOf("email", CleanEmail(users, email));
    var e3 := if f.password1 == "" then [FormError("password1", RequiredMessage)] else [];
    var e4 := if f.password2 == "" then [FormError("password2", RequiredMessage)]
              else if f.password1 != "" && f.password1 != f.password2 then [FormError("password2", PasswordMismatchMessage)]
              else [];
    assert RegisterErrors(users, f) == e1 + e2 + e3 + e4;
    assert forall e: FormError :: e in e1 + e3 + e4 ==> e.field != "email";
  }

  // ---------------------------------------------------------------------
  // UserUpdateForm: username, email of the signed-in user `self`

  datatype UpdateData = UpdateData(username: string, email: string)

  /** The row after a valid update: the stripped name and the stripped, normalised email replace the old ones. */
  function UpdatedUser(old_: User, f: UpdateData): User
  {
    old_.(username := Strip(f.username), email := NormalizeEmail(Strip(f.email)))
  }

  function UpdateErrors(users: map<UserId, User>, self: UserId, f: UpdateData): seq<FormError>
  {
    var username := Strip(f.username);
    var email := Strip(f.email);
    (if username == "" then [FormError("username", RequiredMessage)]
     else if CleanUsername(username).Err? then ErrorsOf("username", CleanUsername(username))
     else if UsernameTakenByOther(users, self, username) then [FormError("username", UsernameExistsMessage)]
     else [])
    + (if email == "" then [FormError("email", RequiredMessage)] else [])
  }

  /**
   * What a profile update needs: a name in the pattern that no other user has
   * and a non-blank email. Whether another user has the same email plays no part.
   */
  predicate UpdateAcceptable(users: map<UserId, User>, self: UserId, f: UpdateData)
  {
    var username := Strip(f.username);
    && username != [] && (forall k :: 0 <= k < |username| ==> UsernameChar(username[k]))
    && !UsernameTakenByOther(users, self, username)
    && Strip(f.email) != ""
  }

  lemma UpdateFormRule(users: map<UserId, User>, self: UserId, f: UpdateData)
    ensures UpdateErrors(users, self, f) == [] <==> UpdateAcceptable(users, self, f)
  {
    var r := CleanUsername(Strip(f.username));
    assert r.Ok? <==> Strip(f.username) != [] && forall k :: 0 <= k < |Strip(f.username)| ==> UsernameChar(Strip(f.username)[k]);
  }

  /** A profile update is accepted even when another user already has the submitted email. */
  lemma UpdateIgnoresEmailInUse(users: map<UserId, User>, self: UserId, f: UpdateData, other: UserId)
    requires other in users && other != self && users[other].email == Strip(f.email)
    requires UpdateAcceptable(users, self, f)
    ensures EmailInUse(users, Strip(f.email))
    ensures UpdateErrors(users, self, f) == []
  {
    UpdateFormRule(users, self, f);
  }

  // ---------------------------------------------------------------------
  // Concrete names

  lemma EmptyUsernameRejected()
    ensures !UsernamePatternMatches("")
  {
  }

  lemma StarsUsernameRejected()
    ensures !UsernamePatternMatches("***")
  {
    assert !UsernameChar("***"[0]);
  }

  lemma PlainUsernameAccepted()
    ensures UsernamePatternMatches("test39")
  {
    var n := "test39";
    assert forall k :: 0 <= k < |n| ==> UsernameChar(n[k]);
  }

  /**
   * `\Z` only matches at the very end, so a name with a trailing newline does
   * not match the pattern; the field strips the newline before the pattern is
   * applied, so the form itself accepts the name.
   */
  lemma TrailingNewlineStripped()
    ensures !UsernamePatternMatches("abc\n")
    ensures Strip("abc\n") == "abc"
  {
    var s := "abc\n";
    assert !UsernameChar(s[3]);
    assert LeadingSpaces(s) == 0;
    assert TrailingSpaces(s[..3]) == 0;
    assert TrailingSpaces(s) == 1;
    assert s[0..3] == "abc";
  }
}
