/**
 * The account side of the data model: Django's auth User (only the fields the
 * site reads or writes) and the Profile of users/models.py, with the table-level
 * rules the database keeps for them.
 */
module UserModels {

  type UserId = nat
  type ProfileId = nat

  /** A row of the auth user table; the password hash is not modelled. */
  datatype User = User(username: string, email: string, isActive: bool)

  /** Profile.user is a OneToOneField to User with on_delete=CASCADE. */
  datatype Profile = Profile(user: UserId)

  predicate UsernameTaken(users: map<UserId, User>, username: string)
  {
    exists u :: u in users && users[u].username == username
  }

  /** Some user other than `self` already has this username. */
  predicate UsernameTakenByOther(users: map<UserId, User>, self: UserId, username: string)
  {
    exists u :: u in users && u != self && users[u].username == username
  }

  predicate EmailInUse(users: map<UserId, User>, email: string)
  {
    exists u :: u in users && users[u].email == email
  }

  /** User.username is a unique column. */
  predicate UniqueUsernames(users: map<UserId, User>)
  {
    forall a, b :: a in users && b in users && users[a].username == users[b].username ==> a == b
  }

  /** User.username is a required column: no stored user has the empty name. */
  predicate UsernamesNonEmpty(users: map<UserId, User>)
  {
    forall u :: u in users ==> users[u].username != ""
  }

  predicate HasProfile(profiles: map<ProfileId, Profile>, user: UserId)
  {
    exists p :: p in profiles && profiles[p].user == user
  }

  /** The one-to-one link: every profile points at an existing user, and no user has two. */
  predicate ProfilesWellFormed(users: map<UserId, User>, profiles: map<ProfileId, Profile>)
  {
    && (forall p :: p in profiles ==> profiles[p].user in users)
    && (forall p, q :: p in profiles && q in profiles && profiles[p].user == profiles[q].user ==> p == q)
  }

  /** The provisioning rule that users/signals.py maintains. */
  predicate EveryUserHasProfile(users: map<UserId, User>, profiles: map<ProfileId, Profile>)
  {
    forall u :: u in users ==> HasProfile(profiles, u)
  }
}
