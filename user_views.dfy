/**
 * The account views of users/views.py as transitions of the store. The
 * signed-in user is a parameter: None for an anonymous request, otherwise the
 * key of `request.user`.
 */
module UserViews {
  import opened Wrappers
  import opened UserModels
  import opened Store
  import opened Signals
  import opened UserForms
  import opened Http

  /**
   * register: a valid POST saves the new user (and, through the signal, its
   * profile) and redirects to the login page; any other request renders the
   * form and changes nothing.
   */
  method Register(db: Db, verb: Method, f: RegisterData) returns (resp: Response)
    requires db.Valid()
    modifies db
    ensures db.Valid()
    ensures db.Recipes() == old(db.Recipes())
    ensures verb == Post && RegistrationAcceptable(old(db.users), f) ==>
              && resp == Redirect(LoginUrl)
              && old(db.nextUserId) !in old(db.users)
              && db.users == old(db.users)[old(db.nextUserId) := RegisteredUser(f)]
              && db.profiles == old(db.profiles)[old(db.nextProfileId) := Profile(old(db.nextUserId))]
    ensures !(verb == Post && RegistrationAcceptable(old(db.users), f)) ==>
              && resp == Render("users/register.html")
              && db.users == old(db.users) && db.profiles == old(db.profiles)
  {
    RegisterFormRule(db.users, f);
    if verb == Post && RegisterErrors(db.users, f) == [] {
      var _ := SaveNewUser(db, RegisteredUser(f));
      resp := Redirect(LoginUrl);
    } else {
      resp := Render("users/register.html");
    }
  }

  /**
   * profile: login required; a valid POST overwrites the signed-in user's
   * username and email and redirects back, any other request renders the form.
   */
  method ProfileView(db: Db, current: Option<UserId>, verb: Method, f: UpdateData) returns (resp: Response)
    requires db.Valid() && (current.Some? ==> current.value in db.users)
    modifies db
    ensures db.Valid()
    ensures db.Recipes() == old(db.Recipes()) && db.profiles == old(db.profiles)
    ensures current.None? ==> resp == Redirect(LoginUrl) && db.users == old(db.users)
    ensures current.Some? && verb == Post && UpdateAcceptable(old(db.users), current.value, f) ==>
              && resp == Redirect("profile")
              && db.users == old(db.users)[current.value := UpdatedUser(old(db.users)[current.value], f)]
    ensures current.Some? && !(verb == Post && UpdateAcceptable(old(db.users), current.value, f)) ==>
              resp == Render("users/profile.html") && db.users == old(db.users)
  {
    if current.None? {
      return Redirect(LoginUrl);
    }
    var id := current.value;
    UpdateFormRule(db.users, id, f);
    if verb == Post && UpdateErrors(db.users, id, f) == [] {
      SaveExistingUser(db, id, UpdatedUser(db.users[id], f));
      resp := Redirect("profile");
    } else {
      resp := Render("users/profile.html");
    }
  }

  /**
   * delAccount: login required; a POST deactivates the signed-in account, which
   * stays in the table with its other fields, and redirects to the login page.
   * A GET renders the confirmation page.
   */
  method DelAccount(db: Db, current: Option<UserId>, verb: Method) returns (resp: Response)
    requires db.Valid() && (current.Some? ==> current.value in db.users)
    modifies db
    ensures db.Valid()
    ensures db.Recipes() == old(db.Recipes()) && db.profiles == old(db.profiles)
    ensures current.None? ==> resp == Redirect(LoginUrl) && db.users == old(db.users)
    ensures current.Some? && verb == Post ==>
              && resp == Redirect(LoginUrl)
              && db.users == old(db.users)[current.value := old(db.users)[current.value].(isActive := false)]
    ensures current.Some? && verb == Get ==>
              resp == Render("users/delete-account.html") && db.users == old(db.users)
  {
    if current.None? {
      return Redirect(LoginUrl);
    }
    var id := current.value;
    if verb == Post {
      SaveExistingUser(db, id, db.users[id].(isActive := false));
      resp := Redirect(LoginUrl);
    } else {
      resp := Render("users/delete-account.html");
    }
  }
}
