/** The users routes (`routes/users.js`): an allow variant over a synthetic
    resource, the permissions lookup, role updates with their audit trail,
    and the `mfa_required` toggle. */
module Users {
  import opened Wrappers
  import opened Entities
  import opened Http
  import Decision
  import Seqs
  import Mac
  import Rbac
  import Rubac
  import Abac
  import Dac
  import Auth

  /** What the users routes check against: classification 1, an active
      project in the default location, in the caller's own department. */
  function Synthetic(u: Principal): (r: Resource)
    ensures r.id == NoId && r.classification == Some(1)
    ensures r.status == Some("active") && r.location == Some("default")
    ensures r.department == u.department
  {
    Resource(NoId, NoId, Some("active"), Some("default"), Some(1), u.department)
  }

  /** `allow(user, action)`. The DAC stage is asked about a null project. */
  function Decide(u: Principal, action: string, clockHour: int): (d: Option<Decision.Reason>)
    ensures d != Some(Decision.Dac)
    ensures d.None? <==>
      && Mac.CheckMAC(u, Synthetic(u))
      && Rbac.CheckRole(u, action)
      && Rubac.CheckRuBAC(u, action, AtClock(clockHour))
      && Abac.CheckABAC(u, Synthetic(u), AtClock(clockHour))
  {
    var resource := Synthetic(u);
    var ctx := AtClock(clockHour);
    if !Mac.CheckMAC(u, resource) then Some(Decision.Mac)
    else if !Rbac.CheckRole(u, action) then Some(Decision.Rbac)
    else if !Rubac.CheckRuBAC(u, action, ctx) then Some(Decision.Rubac)
    else if !Dac.CheckDAC(u.id, NoId, NoId, {}) then Some(Decision.Dac)
    else if !Abac.CheckABAC(u, resource, ctx) then Some(Decision.Abac)
    else None
  }

  /** The verdict is the first failure of mac, rbac, rubac, dac, abac, with
      DAC asked about a null project. */
  lemma DecideIsFirstFailure(u: Principal, action: string, clockHour: int)
    ensures Decide(u, action, clockHour) == Decision.FirstFailure(Decision.Pipeline(
      Mac.CheckMAC(u, Synthetic(u)),
      Rbac.CheckRole(u, action),
      Rubac.CheckRuBAC(u, action, AtClock(clockHour)),
      Dac.CheckDAC(u.id, NoId, NoId, {}),
      Abac.CheckABAC(u, Synthetic(u), AtClock(clockHour))))
  {
    Decision.PipelineFirstFailure(
      Mac.CheckMAC(u, Synthetic(u)),
      Rbac.CheckRole(u, action),
      Rubac.CheckRuBAC(u, action, AtClock(clockHour)),
      Dac.CheckDAC(u.id, NoId, NoId, {}),
      Abac.CheckABAC(u, Synthetic(u), AtClock(clockHour)));
  }

  /** The DAC stage cannot fail here, whatever the grant store holds. */
  lemma DacStagePasses(u: Principal, grants: set<(Id, Id)>)
    ensures Dac.CheckDAC(u.id, NoId, NoId, grants)
  {
  }

  /** Listing users takes exactly the owner role and a clearance of at least
      1; a low clearance is reported as MAC before the role as RBAC. */
  lemma ReadAllowedIff(u: Principal, clockHour: int)
    ensures Decide(u, "users:read", clockHour).None? <==> u.role == "owner" && OrElse(u.clearance, 0) >= 1
    ensures OrElse(u.clearance, 0) < 1 ==> Decide(u, "users:read", clockHour) == Some(Decision.Mac)
    ensures OrElse(u.clearance, 0) >= 1 && u.role != "owner" ==>
      Decide(u, "users:read", clockHour) == Some(Decision.Rbac)
  {
  }

  /** Updating a role additionally holds an `hr` owner to business hours. */
  lemma UpdateAllowedIff(u: Principal, clockHour: int)
    ensures Decide(u, "users:update", clockHour).None? <==>
      && u.role == "owner" && OrElse(u.clearance, 0) >= 1
      && (u.department == Some("hr") ==> 8 <= clockHour <= 18)
  {
  }

  /** An `hr` owner updating a user at hour 20 is refused by RuBAC, and at
      hour 10 is allowed. */
  lemma HrAfterHoursDeniedByRubac(u: Principal)
    requires u.department == Some("hr") && u.role == "owner" && OrElse(u.clearance, 0) >= 1
    ensures Decide(u, "users:update", 20) == Some(Decision.Rubac)
    ensures Decide(u, "users:update", 10).None?
  {
  }

  /** `GET /users/me/permissions`: the role's action list, or none. */
  function PermissionsOf(role: string): (actions: seq<string>)
    ensures role !in Rbac.RolePermissions ==> actions == []
    ensures forall a :: a in actions <==> Rbac.CheckRole(Principal(NoId, role, None, None), a)
  {
    Rbac.Permissions(role)
  }

  /** A `role_changes` row: target user, acting user, old and new role. */
  datatype RoleChange = RoleChange(userId: Id, changedBy: Id, oldRole: string, newRole: string)

  datatype UserStore = UserStore(users: seq<UserRow>, roleChanges: seq<RoleChange>)

  /** The request body of `PUT /users/:id/role`; `None` is null or undefined. */
  datatype RoleBody = RoleBody(role: Option<string>, clearance: Option<int>)

  function FindUser(users: seq<UserRow>, id: Id): (r: Option<UserRow>)
    ensures r.Some? ==> r.value in users && r.value.id == id
    ensures r.None? ==> forall x :: x in users ==> x.id != id
  {
    Seqs.Find(users, (x: UserRow) => x.id == id)
  }

  /** A falsy role keeps the old role; only a null or undefined clearance
      keeps the old clearance (0 is stored). */
  function ApplyRole(target: UserRow, body: RoleBody): (t: UserRow)
    ensures t == target.(role := t.role, clearance := t.clearance)
    ensures TruthyText(body.role) ==> t.role == body.role.value
    ensures !TruthyText(body.role) ==> t.role == target.role
    ensures body.clearance.Some? ==> t.clearance == body.clearance
    ensures body.clearance.None? ==> t.clearance == target.clearance
  {
    target.(role := OrElseText(body.role, target.role),
            clearance := if body.clearance.Some? then body.clearance else target.clearance)
  }

  /** `PUT /users/:id/role`: policy first, then the target must exist. */
  function UpdateRole(st: UserStore, u: Principal, id: Id, body: RoleBody, clockHour: int): (r: (UserStore, Reply))
    ensures r.1 != Done ==> r.0 == st
    ensures Decide(u, "users:update", clockHour).Some? ==>
      r.1 == Forbidden("Denied", Decide(u, "users:update", clockHour).value.Name())
    ensures Decide(u, "users:update", clockHour).None? ==>
      if FindUser(st.users, id).None? then r == (st, NotFound("Not found")) else r.1 == Done
    ensures r.1 == Done ==>
      && FindUser(st.users, id).Some?
      && (var prior := FindUser(st.users, id).value;
          && FindUser(r.0.users, id) == Some(ApplyRole(prior, body))
          && (forall x :: x in r.0.users && x.id == id ==> x == ApplyRole(prior, body))
          && r.0.roleChanges == st.roleChanges + [RoleChange(id, u.id, prior.role, ApplyRole(prior, body).role)])
      && (forall x :: x in r.0.users && x.id != id <==> x in st.users && x.id != id)
      && |r.0.users| == |st.users|
  {
    match Decide(u, "users:update", clockHour)
    case Some(reason) => (st, Forbidden("Denied", reason.Name()))
    case None =>
      match FindUser(st.users, id)
      case None => (st, NotFound("Not found"))
      case Some(target) =>
        var updated := ApplyRole(target, body);
        var users := Seqs.Replace(st.users, (x: UserRow) => x.id == id, updated);
        (UserStore(users, st.roleChanges + [RoleChange(target.id, u.id, target.role, updated.role)]), Done)
  }

  /** A role update takes effect on the target's next request: with a
      truthy role and a clearance in the body, the target may list users
      afterwards exactly when the new role is `owner` and the new clearance
      is at least 1. */
  lemma RoleChangeTakesEffect(st: UserStore, u: Principal, id: Id, body: RoleBody, clockHour: int, later: int)
    requires UpdateRole(st, u, id, body, clockHour).1 == Done
    requires TruthyText(body.role) && body.clearance.Some?
    ensures var target := FindUser(UpdateRole(st, u, id, body, clockHour).0.users, id).value;
      && target.role == body.role.value
      && (Decide(PrincipalOf(target), "users:read", later).None?
          <==> body.role.value == "owner" && OrElse(body.clearance, 0) >= 1)
  {
    var target := FindUser(UpdateRole(st, u, id, body, clockHour).0.users, id).value;
    ReadAllowedIff(PrincipalOf(target), later);
  }

  /** A JSON value's truthiness, for `req.body.required`. */
  datatype Json = Absent | Bool(b: bool) | Num(n: int) | Text(s: string) | Composite

  predicate JsonTruthy(v: Json) {
    match v
    case Absent => false
    case Bool(b) => b
    case Num(n) => n != 0
    case Text(s) => s != ""
    case Composite => true
  }

  /** `POST /users/me/update-mfa-required`: stores 1 exactly when the flag
      is truthy, and changes nothing else. */
  function SetMfaRequired(u: UserRow, required: Json): (u': UserRow)
    ensures u'.mfaRequired <==> JsonTruthy(required)
    ensures u' == u.(mfaRequired := u'.mfaRequired)
  {
    u.(mfaRequired := JsonTruthy(required))
  }

  /** The flag takes effect at the next login: for an unlocked account with
      no enrolled secret, the right password is refused with `MFA required`
      after a truthy flag and logs in after a falsy one. */
  lemma MfaFlagGatesLogin(u: UserRow, required: Json, now: int, codeOk: bool)
    requires !Auth.LockoutActive(u, now) && !Auth.HasSecret(u)
    ensures Auth.Attempt(SetMfaRequired(u, required), now, true, codeOk).1
         == if JsonTruthy(required) then Unauthorized("MFA required") else Done
  {
  }
}
