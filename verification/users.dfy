/**
 * The user record and the admin promotion/demotion rules (models/usersModel.go,
 * with the two error types of models/customErrorModel.go).
 */
module Users {
  import opened Wrappers

  /** A stored account. `password` holds the bcrypt hash once the record is saved. */
  datatype User = User(id: nat, email: string, userName: string, password: string, isAdmin: bool)

  /** ErrNotAdmin and ErrAlreadyAdmin. */
  datatype RoleError = NotAdmin | AlreadyAdmin {
    /** The text each error type's Error method returns. */
    function Message(): string {
      match this
      case NotAdmin => "User is not an admin"
      case AlreadyAdmin => "User is already an admin"
    }
  }

  /** The returned error and the target as it stands afterwards. */
  datatype RoleChange = RoleChange(err: Option<RoleError>, target: User)

  /** `a` and `b` agree on every field except the admin flag. */
  predicate SameButRole(a: User, b: User) {
    a.id == b.id && a.email == b.email && a.userName == b.userName && a.password == b.password
  }

  /** UserPromotion: an admin grants the admin flag to a user that lacks it. */
  function UserPromotion(actor: User, target: User): (r: RoleChange)
    ensures SameButRole(r.target, target)
    ensures !actor.isAdmin ==> r == RoleChange(Some(NotAdmin), target)
    ensures actor.isAdmin && target.isAdmin ==> r == RoleChange(Some(AlreadyAdmin), target)
    ensures actor.isAdmin && !target.isAdmin ==> r.err == None && r.target.isAdmin
    ensures r.err == None <==> actor.isAdmin && !target.isAdmin
  {
    if actor.isAdmin then
      if target.isAdmin then RoleChange(Some(AlreadyAdmin), target)
      else RoleChange(None, target.(isAdmin := true))
    else RoleChange(Some(NotAdmin), target)
  }

  /** UserDemotion: an admin withdraws the admin flag from a user that has it. */
  function UserDemotion(actor: User, target: User): (r: RoleChange)
    ensures SameButRole(r.target, target)
    ensures !actor.isAdmin ==> r == RoleChange(Some(NotAdmin), target)
    ensures actor.isAdmin && !target.isAdmin ==> r == RoleChange(Some(NotAdmin), target)
    ensures actor.isAdmin && target.isAdmin ==> r.err == None && !r.target.isAdmin
    ensures r.err == None <==> actor.isAdmin && target.isAdmin
  {
    if actor.isAdmin then
      if !target.isAdmin then RoleChange(Some(NotAdmin), target)
      else RoleChange(None, target.(isAdmin := false))
    else RoleChange(Some(NotAdmin), target)
  }

  /** A failed role change leaves the target exactly as it was. */
  lemma FailedChangeKeepsTarget(actor: User, target: User)
    ensures UserPromotion(actor, target).err.Some? ==> UserPromotion(actor, target).target == target
    ensures UserDemotion(actor, target).err.Some? ==> UserDemotion(actor, target).target == target
  {
  }

  /** Promoting a non-admin and then demoting them, both by an admin, restores the record. */
  lemma PromoteThenDemoteRestores(actor: User, target: User)
    requires actor.isAdmin && !target.isAdmin
    ensures UserPromotion(actor, target).err == None
    ensures UserDemotion(actor, UserPromotion(actor, target).target) == RoleChange(None, target)
  {
  }
}
