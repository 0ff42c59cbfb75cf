/**
 * The two post_save receivers of users/signals.py. Django calls them, in the
 * order they are registered, after every save of a User row; `created` tells
 * whether the save inserted the row.
 */
module Signals {
  import opened Wrappers
  import opened UserModels
  import opened Store

  /** Reading `user.profile` when no profile points at the user raises this. */
  datatype SignalError = RelatedObjectDoesNotExist

  /** create_profile: a newly inserted user gets a profile pointing at it. */
  method CreateProfile(db: Db, instance: UserId, created: bool)
    requires db.Consistent() && instance in db.users
    requires created ==> !HasProfile(db.profiles, instance)
    modifies db
    ensures db.Consistent()
    ensures created ==> db.profiles == old(db.profiles)[old(db.nextProfileId) := Profile(instance)]
    ensures created ==> old(db.nextProfileId) !in old(db.profiles)
    ensures !created ==> db.profiles == old(db.profiles) && db.nextProfileId == old(db.nextProfileId)
    ensures db.users == old(db.users) && db.nextUserId == old(db.nextUserId)
    ensures db.Recipes() == old(db.Recipes())
  {
    if created {
      var _ := db.InsertProfile(Profile(instance));
    }
  }

  /**
   * save_profile: follows the reverse one-to-one link from the user to its
   * profile and saves that row again, which writes the values it already has.
   * The result is the profile that was saved, or the error raised when the
   * user has none.
   */
  method SaveProfile(db: Db, instance: UserId) returns (r: Result<ProfileId, SignalError>)
    ensures r.Ok? <==> HasProfile(db.profiles, instance)
    ensures r.Ok? ==> r.value in db.profiles && db.profiles[r.value].user == instance
  {
    if HasProfile(db.profiles, instance) {
      var p :| p in db.profiles && db.profiles[p].user == instance;
      r := Ok(p);
    } else {
      r := Err(RelatedObjectDoesNotExist);
    }
  }

  /** Both receivers in registration order. */
  method PostSave(db: Db, instance: UserId, created: bool) returns (r: Result<ProfileId, SignalError>)
    requires db.Consistent() && instance in db.users
    requires created ==> !HasProfile(db.profiles, instance)
    modifies db
    ensures db.Consistent()
    ensures created ==> db.profiles == old(db.profiles)[old(db.nextProfileId) := Profile(instance)]
    ensures created ==> old(db.nextProfileId) !in old(db.profiles)
    ensures !created ==> db.profiles == old(db.profiles) && db.nextProfileId == old(db.nextProfileId)
    ensures db.users == old(db.users) && db.nextUserId == old(db.nextUserId)
    ensures db.Recipes() == old(db.Recipes())
    ensures r.Ok? <==> HasProfile(db.profiles, instance)
    ensures created ==> r == Ok(old(db.nextProfileId))
  {
    CreateProfile(db, instance, created);
    if created {
      ghost var q := old(db.nextProfileId);
      assert q in db.profiles && db.profiles[q].user == instance;
    }
    r := SaveProfile(db, instance);
  }

  /**
   * Saving a new user: the row is inserted, then the receivers run. Afterwards
   * every user has a profile again, the new user has exactly one, and the
   * saved profile is that one.
   */
  method SaveNewUser(db: Db, u: User) returns (id: UserId)
    requires db.Valid()
    requires u.username != "" && !UsernameTaken(db.users, u.username)
    modifies db
    ensures db.Valid()
    ensures id == old(db.nextUserId) && id !in old(db.users) && db.users == old(db.users)[id := u]
    ensures |db.users| == |old(db.users)| + 1 && |db.profiles| == |old(db.profiles)| + 1
    ensures db.profiles == old(db.profiles)[old(db.nextProfileId) := Profile(id)]
    ensures old(db.nextProfileId) !in old(db.profiles)
    ensures forall p :: p in db.profiles && db.profiles[p].user == id ==> p == old(db.nextProfileId)
    ensures db.Recipes() == old(db.Recipes())
  {
    id := db.InsertUser(u);
    ghost var before := db.profiles;
    AddRowCount(old(db.users), id, u);
    AddRowCount(before, db.nextProfileId, Profile(id));
    var r := PostSave(db, id, true);
    forall v | v in db.users
      ensures HasProfile(db.profiles, v)
    {
      if v != id {
        var q :| q in before && before[q].user == v;
        assert q in db.profiles && db.profiles[q].user == v;
      }
    }
  }

  /**
   * Saving an existing user: the row is overwritten, then the receivers run;
   * create_profile does nothing and save_profile finds the user's profile.
   */
  method SaveExistingUser(db: Db, id: UserId, u: User)
    requires db.Valid() && id in db.users
    requires u.username != "" && !UsernameTakenByOther(db.users, id, u.username)
    modifies db
    ensures db.Valid()
    ensures db.users == old(db.users)[id := u] && db.nextUserId == old(db.nextUserId)
    ensures db.profiles == old(db.profiles) && db.nextProfileId == old(db.nextProfileId)
    ensures db.Recipes() == old(db.Recipes())
  {
    db.UpdateUser(id, u);
    var r := PostSave(db, id, false);
    assert r.Ok?;
  }
}
