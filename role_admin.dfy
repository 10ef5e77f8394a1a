/** The two administrator operations that change a user's roles: promotion
    adds the administrator role to whatever roles the user has, demotion
    overwrites the whole role set with the plain user role. */
module RoleAdmin {
  import opened Records

  const AdminRole := "ROLE_ADMIN"
  const UserRole := "ROLE_USER"

  /** The roles as a set, a null role set reading as empty. */
  function RolesOf(roles: Option<set<string>>): set<string> {
    match roles
    case None => {}
    case Some(rs) => rs
  }

  /** The role set after promotion (lines 373-378): the old roles, a fresh
      empty set when they were null, with the administrator role added. */
  function Promoted(roles: Option<set<string>>): (promoted: set<string>)
    ensures AdminRole in promoted
    ensures RolesOf(roles) <= promoted
    ensures promoted - {AdminRole} == RolesOf(roles) - {AdminRole}
  {
    var current := if roles.None? then {} else roles.value;
    current + {AdminRole}
  }

  /** Promoting twice gives the roles of promoting once. */
  lemma PromoteIdempotent(roles: Option<set<string>>)
    ensures Promoted(Some(Promoted(roles))) == Promoted(roles)
  {
  }

  /** Promotion leaves an administrator's roles as they were. */
  lemma PromoteKeepsAdminRoles(roles: set<string>)
    requires AdminRole in roles
    ensures Promoted(Some(roles)) == roles
  {
  }

  /** The body of a successful role change. */
  datatype RoleChange = RoleChange(message: string, username: string, roles: set<string>)

  /** The user table as the role endpoints see it: the rows by id, and the
      ids passed to `save`, in order. */
  class UserRepository {
    var users: map<int, User>
    var saved: seq<int>

    ghost predicate Valid()
      reads this
    {
      KeyedById(users) && UniqueUsernames(users)
    }

    constructor (initial: map<int, User>)
      requires KeyedById(initial) && UniqueUsernames(initial)
      ensures Valid()
      ensures users == initial && saved == []
    {
      users := initial;
      saved := [];
    }

    /** `userRepository.save(user)`: writes the row under its id. */
    method Save(user: User)
      requires Valid() && user.id in users && user.username == users[user.id].username
      modifies this
      ensures Valid()
      ensures users == old(users)[user.id := user]
      ensures saved == old(saved) + [user.id]
    {
      users := users[user.id := user];
      saved := saved + [user.id];
    }

    /** PUT /{id}/promote (lines 365-388). */
    method PromoteToAdmin(id: int) returns (reply: Reply<RoleChange>)
      requires Valid()
      modifies this
      ensures Valid()
      ensures id !in old(users) ==> reply == NotFound && users == old(users) && saved == old(saved)
      ensures id in old(users) ==>
                && users == old(users)[id := old(users)[id].(roles := Some(Promoted(old(users)[id].roles)))]
                && saved == old(saved) + [id]
                && reply == Ok(RoleChange("User promoted to admin", old(users)[id].username, Promoted(old(users)[id].roles)))
    {
      var found := FindById(users, id);
      if found.None? {
        return NotFound;
      }
      var user := found.value;
      var roles := user.roles;
      if roles.None? {
        roles := Some({});
      }
      roles := Some(roles.value + {AdminRole});
      user := user.(roles := roles);
      Save(user);
      return Ok(RoleChange("User promoted to admin", user.username, roles.value));
    }

    /** PUT /{id}/demote (lines 390-410). */
    method DemoteToUser(id: int) returns (reply: Reply<RoleChange>)
      requires Valid()
      modifies this
      ensures Valid()
      ensures id !in old(users) ==> reply == NotFound && users == old(users) && saved == old(saved)
      ensures id in old(users) ==>
                && users == old(users)[id := old(users)[id].(roles := Some({UserRole}))]
                && saved == old(saved) + [id]
                && reply == Ok(RoleChange("Admin demoted to user", old(users)[id].username, {UserRole}))
    {
      var found := FindById(users, id);
      if found.None? {
        return NotFound;
      }
      var user := found.value;
      var roles := {UserRole};
      user := user.(roles := Some(roles));
      Save(user);
      return Ok(RoleChange("Admin demoted to user", user.username, roles));
    }
  }

  /** A caller's view of the two operations: on a stored user, promotion
      followed by demotion leaves exactly the user role, touches no other
      user and writes the row twice. */
  method PromoteThenDemote(repo: UserRepository, id: int)
    requires repo.Valid() && id in repo.users
    modifies repo
    ensures repo.Valid()
    ensures repo.users.Keys == old(repo.users).Keys
    ensures repo.users[id].roles == Some({UserRole})
    ensures repo.users[id] == old(repo.users)[id].(roles := Some({UserRole}))
    ensures forall k :: k in repo.users && k != id ==> repo.users[k] == old(repo.users)[k]
    ensures repo.saved == old(repo.saved) + [id, id]
  {
    var promoted := repo.PromoteToAdmin(id);
    assert promoted.Ok? && AdminRole in promoted.value.roles;
    var demoted := repo.DemoteToUser(id);
    assert demoted == Ok(RoleChange("Admin demoted to user", old(repo.users)[id].username, {UserRole}));
  }

  /** A caller's view of a missing id: both operations answer 404 and write
      nothing. */
  method MissingIdWritesNothing(repo: UserRepository, id: int)
    requires repo.Valid() && id !in repo.users
    modifies repo
    ensures repo.users == old(repo.users) && repo.saved == old(repo.saved)
  {
    var promoted := repo.PromoteToAdmin(id);
    assert promoted == NotFound;
    var demoted := repo.DemoteToUser(id);
    assert demoted == NotFound;
  }
}
