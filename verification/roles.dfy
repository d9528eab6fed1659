/** The admin's role manager: the `user_roles` table as a set of
    (user, role) pairs, with adding and removing one pair at a time. */
module UserRoleManager {
  import opened Wrappers
  import opened Domain
  import opened JobStore

  /** The `user_roles` table; its unique key is the (user, role) pair. */
  type Grants = set<(UserId, Role)>

  /** The roles held by `user`: the rows with that `user_id`. */
  function RolesOf(g: Grants, user: UserId): (roles: set<Role>)
    ensures forall r: Role :: r in roles <==> (user, r) in g
  {
    set p | p in g && p.0 == user :: p.1
  }

  /** The role picker's options, in the order shown. */
  const RoleOptions: seq<string> := ["admin", "manager", "allocater", "declarant"]

  /** The picker offers exactly the labels of the four roles. */
  lemma RoleOptionsAreTheEnum()
    ensures forall i :: 0 <= i < |RoleOptions| ==> ParseRole(RoleOptions[i]).Some?
    ensures forall r: Role :: RoleName(r) in RoleOptions
  {
    forall r: Role ensures RoleName(r) in RoleOptions {
      match r
      case Admin => assert RoleOptions[0] == RoleName(r);
      case Manager => assert RoleOptions[1] == RoleName(r);
      case Allocater => assert RoleOptions[2] == RoleName(r);
      case Declarant => assert RoleOptions[3] == RoleName(r);
    }
  }

  /** Why a role change wrote nothing. */
  datatype RoleError = AlreadyHasRole | AddFailed | RemoveFailed

  /** The database's reading of a role label: a text outside the enum is
      rejected with code 22P02. */
  function ReadRole(text: string): (r: Result<Role, DbError>)
    ensures r.Ok? <==> ParseRole(text).Some?
    ensures r.Ok? ==> RoleName(r.value) == text
    ensures r.Err? ==> r.error.code == InvalidTextRepresentation
  {
    match ParseRole(text)
    case Some(role) => Ok(role)
    case None => Err(DbError(InvalidTextRepresentation))
  }

  /** INSERT of one (user, role) row: a unique violation when the pair is
      already there. */
  function InsertGrant(g: Grants, user: UserId, text: string): (r: Result<Grants, DbError>)
    ensures r.Err? <==> ParseRole(text).None? || (user, ParseRole(text).value) in g
    ensures ParseRole(text).Some? && r.Err? ==> r.error.code == UniqueViolation
    ensures r.Ok? ==> r.value == g + {(user, ParseRole(text).value)}
  {
    match ReadRole(text)
    case Err(e) => Err(e)
    case Ok(role) => if (user, role) in g then Err(DbError(UniqueViolation)) else Ok(g + {(user, role)})
  }

  /** DELETE of the rows matching both the user and the role. */
  function DeleteGrant(g: Grants, user: UserId, text: string): (r: Result<Grants, DbError>)
    ensures r.Err? <==> ParseRole(text).None?
    ensures r.Ok? ==> r.value == g - {(user, ParseRole(text).value)}
  {
    match ReadRole(text)
    case Err(e) => Err(e)
    case Ok(role) => Ok(g - {(user, role)})
  }

  /** `handleAddRole`'s outcome: code 23505 reads "already has this role",
      any other failure is generic. */
  function AddRole(g: Grants, user: UserId, text: string): (r: Result<Grants, RoleError>)
    ensures r == Err(AlreadyHasRole) <==> ParseRole(text).Some? && (user, ParseRole(text).value) in g
    ensures r == Err(AddFailed) <==> ParseRole(text).None?
    ensures r.Ok? ==> r.value == g + {(user, ParseRole(text).value)} && r.value != g
  {
    match InsertGrant(g, user, text)
    case Ok(h) => Ok(h)
    case Err(e) => if e.code == UniqueViolation then Err(AlreadyHasRole) else Err(AddFailed)
  }

  /** `handleRemoveRole`'s outcome: every failure is generic. Removing a
      pair that is not there deletes nothing and succeeds. */
  function RemoveRole(g: Grants, user: UserId, text: string): (r: Result<Grants, RoleError>)
    ensures r.Err? <==> ParseRole(text).None?
    ensures r.Err? ==> r.error == RemoveFailed
    ensures r.Ok? ==> r.value == g - {(user, ParseRole(text).value)}
  {
    match DeleteGrant(g, user, text)
    case Ok(h) => Ok(h)
    case Err(_) => Err(RemoveFailed)
  }

  /** Adding a role gives the user that role and changes nobody else's. */
  lemma AddRoleEffect(g: Grants, user: UserId, role: Role, other: UserId)
    requires AddRole(g, user, RoleName(role)).Ok?
    ensures RolesOf(AddRole(g, user, RoleName(role)).value, user) == RolesOf(g, user) + {role}
    ensures other != user ==> RolesOf(AddRole(g, user, RoleName(role)).value, other) == RolesOf(g, other)
  {
    assert ParseRole(RoleName(role)) == Some(role);
  }

  /** Removing a role takes exactly that role from the user, keeps the
      user's other roles, and changes nobody else's. */
  lemma RemoveRoleEffect(g: Grants, user: UserId, role: Role, other: UserId)
    ensures RemoveRole(g, user, RoleName(role)).Ok?
    ensures RolesOf(RemoveRole(g, user, RoleName(role)).value, user) == RolesOf(g, user) - {role}
    ensures other != user ==> RolesOf(RemoveRole(g, user, RoleName(role)).value, other) == RolesOf(g, other)
  {
    assert ParseRole(RoleName(role)) == Some(role);
  }

  /** Adding a role the user lacks and then removing it restores the table;
      adding a role the user has fails and changes nothing. */
  lemma AddThenRemove(g: Grants, user: UserId, role: Role)
    ensures (user, role) !in g ==>
      AddRole(g, user, RoleName(role)).Ok? && RemoveRole(AddRole(g, user, RoleName(role)).value, user, RoleName(role)) == Ok(g)
    ensures (user, role) in g ==> AddRole(g, user, RoleName(role)) == Err(AlreadyHasRole)
  {
    assert ParseRole(RoleName(role)) == Some(role);
    if (user, role) !in g {
      assert g + {(user, role)} - {(user, role)} == g;
    }
  }

  /** A user's card: their id and the roles listed on it. */
  datatype UserRoles = UserRoles(user: UserId, roles: set<Role>)

  /** `fetchUsers`: one card per profile, in the profile query's order,
      each listing the roles held by that user. */
  function Listing(g: Grants, profiles: seq<UserId>): (cards: seq<UserRoles>)
    ensures |cards| == |profiles|
    ensures forall i :: 0 <= i < |cards| ==> cards[i].user == profiles[i]
    ensures forall i, r: Role :: 0 <= i < |cards| ==> (r in cards[i].roles <==> (profiles[i], r) in g)
  {
    seq(|profiles|, i requires 0 <= i < |profiles| => UserRoles(profiles[i], RolesOf(g, profiles[i])))
  }

  /** The manager's state: the table and the cards on screen. */
  datatype Screen = Screen(grants: Grants, cards: seq<UserRoles>)

  /** A role change followed by the refetch: the cards are rebuilt from the
      new table only when the change succeeded; after a failure the table
      and the cards stay as they were. */
  function AfterChange(sc: Screen, profiles: seq<UserId>, change: Result<Grants, RoleError>): (r: Screen)
    ensures change.Ok? ==> r.grants == change.value && r.cards == Listing(change.value, profiles)
    ensures change.Err? ==> r == sc
  {
    match change
    case Ok(h) => Screen(h, Listing(h, profiles))
    case Err(_) => sc
  }

  /** The cards on screen list, for each profile in order, exactly the roles
      the table grants that user. */
  predicate InSync(sc: Screen, profiles: seq<UserId>) {
    && |sc.cards| == |profiles|
    && forall i :: 0 <= i < |profiles| ==> sc.cards[i].user == profiles[i] && sc.cards[i].roles == RolesOf(sc.grants, profiles[i])
  }

  /** The screen stays in step with the table through every role change,
      successful or not: a success rebuilds the cards from the new table,
      and a failure leaves both as they were. */
  lemma AfterChangeKeepsInSync(sc: Screen, profiles: seq<UserId>, change: Result<Grants, RoleError>)
    requires change.Err? ==> InSync(sc, profiles)
    ensures InSync(AfterChange(sc, profiles, change), profiles)
    ensures change.Err? ==> AfterChange(sc, profiles, change).grants == sc.grants
  {
  }

  /** After a successful add the refreshed cards show the new role on the
      user's card. */
  lemma AddShowsRole(sc: Screen, profiles: seq<UserId>, user: UserId, role: Role, i: nat)
    requires AddRole(sc.grants, user, RoleName(role)).Ok? && i < |profiles| && profiles[i] == user
    ensures role in AfterChange(sc, profiles, AddRole(sc.grants, user, RoleName(role))).cards[i].roles
  {
    assert ParseRole(RoleName(role)) == Some(role);
  }
}
