/** The projects routes (`routes/projects.js`): the full five-stage allow
    pipeline, and the create, read, update, delete, list and grant/revoke
    effects on the project table and the grant store. */
module Projects {
  import opened Wrappers
  import opened Entities
  import opened Http
  import Decision
  import Seqs
  import Mac
  import Rbac
  import Rubac
  import Abac
  import Dac

  /** A row of the `projects` table. */
  datatype Project = Project(
    name: string,
    res: Resource,
    description: string,
    contractor: string,
    finance: string)

  /** The project table, the next autoincrement id, and the grant store. */
  datatype ProjectStore = ProjectStore(rows: seq<Project>, nextId: Id, access: Dac.AccessStore)

  /** Row ids are positive, below the next autoincrement id, and no two
      different rows share one. */
  predicate Valid(st: ProjectStore) {
    && st.nextId > 0
    && (forall p :: p in st.rows ==> 0 < p.res.id < st.nextId)
    && (forall p, q :: p in st.rows && q in st.rows && p.res.id == q.res.id ==> p == q)
  }

  /** `allow`: MAC, RBAC, RuBAC, DAC (only for a resource that has an id),
      ABAC, stopping at the first failure. `None` means allowed. */
  function Decide(u: Principal, r: Resource, action: string, clockHour: int, grants: set<(Id, Id)>)
    : (d: Option<Decision.Reason>)
    ensures d.None? <==>
      && Mac.CheckMAC(u, r)
      && Rbac.CheckRole(u, action)
      && Rubac.CheckRuBAC(u, action, AtClock(clockHour))
      && (r.id == NoId || Dac.CheckDAC(u.id, r.id, r.ownerId, grants))
      && Abac.CheckABAC(u, r, AtClock(clockHour))
    ensures d == Some(Decision.Dac) ==> r.id != NoId
  {
    var ctx := AtClock(clockHour);
    if !Mac.CheckMAC(u, r) then Some(Decision.Mac)
    else if !Rbac.CheckRole(u, action) then Some(Decision.Rbac)
    else if !Rubac.CheckRuBAC(u, action, ctx) then Some(Decision.Rubac)
    else if r.id != NoId && !Dac.CheckDAC(u.id, r.id, r.ownerId, grants) then Some(Decision.Dac)
    else if !Abac.CheckABAC(u, r, ctx) then Some(Decision.Abac)
    else None
  }

  /** The reported reason is that of the earliest failing stage in the order
      mac, rbac, rubac, dac, abac, every earlier stage having passed; a
      skipped DAC stage counts as passed. */
  lemma DecideIsFirstFailure(u: Principal, r: Resource, action: string, clockHour: int, grants: set<(Id, Id)>)
    ensures Decide(u, r, action, clockHour, grants) == Decision.FirstFailure(Decision.Pipeline(
      Mac.CheckMAC(u, r),
      Rbac.CheckRole(u, action),
      Rubac.CheckRuBAC(u, action, AtClock(clockHour)),
      r.id == NoId || Dac.CheckDAC(u.id, r.id, r.ownerId, grants),
      Abac.CheckABAC(u, r, AtClock(clockHour))))
  {
    Decision.PipelineFirstFailure(
      Mac.CheckMAC(u, r),
      Rbac.CheckRole(u, action),
      Rubac.CheckRuBAC(u, action, AtClock(clockHour)),
      r.id == NoId || Dac.CheckDAC(u.id, r.id, r.ownerId, grants),
      Abac.CheckABAC(u, r, AtClock(clockHour)));
  }

  /** A resource without an id (the create path) is never denied for DAC,
      whatever the grants. */
  lemma NoIdSkipsDac(u: Principal, r: Resource, action: string, clockHour: int, g1: set<(Id, Id)>, g2: set<(Id, Id)>)
    requires r.id == NoId
    ensures Decide(u, r, action, clockHour, g1) != Some(Decision.Dac)
    ensures Decide(u, r, action, clockHour, g1) == Decide(u, r, action, clockHour, g2)
  {
  }

  function FindProject(rows: seq<Project>, id: Id): (r: Option<Project>)
    ensures r.Some? ==> r.value in rows && r.value.res.id == id
    ensures r.None? ==> forall p :: p in rows ==> p.res.id != id
  {
    Seqs.Find(rows, (p: Project) => p.res.id == id)
  }

  /** `GET /projects`: the rows the caller may read, in table order. */
  function List(rows: seq<Project>, u: Principal, clockHour: int, grants: set<(Id, Id)>): (r: seq<Project>)
    ensures forall p :: p in r <==> p in rows && Decide(u, p.res, "projects:read", clockHour, grants).None?
  {
    Seqs.Filter(rows, (p: Project) => Decide(u, p.res, "projects:read", clockHour, grants).None?)
  }

  /** The list of a concatenation is the concatenation of the lists, so the
      list keeps the table order. */
  lemma ListKeepsOrder(a: seq<Project>, b: seq<Project>, u: Principal, clockHour: int, grants: set<(Id, Id)>)
    ensures List(a + b, u, clockHour, grants) == List(a, u, clockHour, grants) + List(b, u, clockHour, grants)
  {
    Seqs.FilterConcat(a, b, (p: Project) => Decide(u, p.res, "projects:read", clockHour, grants).None?);
  }

  /** The request body of `POST /projects`; `None` is an absent field. */
  datatype CreateBody = CreateBody(
    name: Option<string>,
    status: Option<string>,
    location: Option<string>,
    classification: Option<int>,
    description: Option<string>,
    contractor: Option<string>,
    finance: Option<string>,
    department: Option<string>)

  /** The resource checked on create: the body's values with their defaults
      (`draft`, empty location, classification 1), the department falling
      back to the creator's and then to `general`, and no id or owner yet. */
  function CreateProbe(u: Principal, body: CreateBody): Resource {
    Resource(
      NoId, NoId,
      Some(body.status.GetOr("draft")),
      Some(body.location.GetOr("")),
      Some(body.classification.GetOr(1)),
      Some(OrElseText(body.department, OrElseText(u.department, "general"))))
  }

  /** `POST /projects`. */
  function Create(st: ProjectStore, u: Principal, body: CreateBody, clockHour: int): (r: (ProjectStore, Reply))
    ensures !TruthyText(body.name) ==> r == (st, BadRequest("Name required"))
    ensures TruthyText(body.name) ==>
      match Decide(u, CreateProbe(u, body), "projects:create", clockHour, st.access.grants)
      case Some(reason) => r == (st, Forbidden("Denied", reason.Name()))
      case None => r.1 == Done
    ensures r.1 == Done ==>
      && |r.0.rows| == |st.rows| + 1
      && r.0.rows[..|st.rows|] == st.rows
      && r.0.nextId == st.nextId + 1
      && r.0.rows[|st.rows|].name == body.name.value
      && r.0.rows[|st.rows|].res == CreateProbe(u, body).(id := st.nextId, ownerId := u.id)
      && r.0.rows[|st.rows|].description == body.description.GetOr("")
      && r.0.rows[|st.rows|].contractor == body.contractor.GetOr("")
      && r.0.rows[|st.rows|].finance == body.finance.GetOr("")
      && r.0.access == Dac.GrantAccess(st.access, st.nextId, u.id, u.id)
    ensures Valid(st) ==> Valid(r.0)
  {
    if !TruthyText(body.name) then (st, BadRequest("Name required"))
    else
      var probe := CreateProbe(u, body);
      match Decide(u, probe, "projects:create", clockHour, st.access.grants)
      case Some(reason) => (st, Forbidden("Denied", reason.Name()))
      case None =>
        var id := st.nextId;
        var row := Project(
          body.name.value,
          probe.(id := id, ownerId := u.id),
          body.description.GetOr(""),
          body.contractor.GetOr(""),
          body.finance.GetOr(""));
        (ProjectStore(st.rows + [row], id + 1, Dac.GrantAccess(st.access, id, u.id, u.id)), Done)
  }

  /** On a valid store the new project is the one found under the new id,
      and the rows that were there are kept. */
  lemma CreateThenFind(st: ProjectStore, u: Principal, body: CreateBody, clockHour: int)
    requires Valid(st)
    requires Create(st, u, body, clockHour).1 == Done
    ensures var rows := Create(st, u, body, clockHour).0.rows;
      && FindProject(rows, st.nextId) == Some(rows[|st.rows|])
      && forall p :: p in st.rows ==> p in rows
  {
    var rows := Create(st, u, body, clockHour).0.rows;
    assert rows == st.rows + [rows[|st.rows|]];
    assert forall p :: p in st.rows ==> p.res.id != st.nextId;
  }

  /** The creator of a project passes DAC on it, and holds an explicit grant
      row as well as ownership. */
  lemma CreatorPassesDac(st: ProjectStore, u: Principal, body: CreateBody, clockHour: int, ownerId: Id)
    requires Create(st, u, body, clockHour).1 == Done
    ensures (st.nextId, u.id) in Create(st, u, body, clockHour).0.access.grants
    ensures Dac.CheckDAC(u.id, st.nextId, ownerId, Create(st, u, body, clockHour).0.access.grants)
  {
  }

  /** A non-owner refused for lack of a grant gets through DAC once the pair
      is granted; the verdict is then ABAC's alone. */
  lemma GrantUnblocksDac(u: Principal, r: Resource, action: string, clockHour: int, st: Dac.AccessStore, actor: Id)
    requires Decide(u, r, action, clockHour, st.grants) == Some(Decision.Dac)
    ensures var after := Dac.GrantAccess(st, r.id, u.id, actor).grants;
      Decide(u, r, action, clockHour, after)
        == if Abac.CheckABAC(u, r, AtClock(clockHour)) then None else Some(Decision.Abac)
  {
  }

  /** `GET /projects/:id`. */
  function Read(st: ProjectStore, u: Principal, id: Id, clockHour: int): (r: Reply)
    ensures FindProject(st.rows, id).None? <==> r == NotFound("Not found")
    ensures FindProject(st.rows, id).Some? ==>
      match Decide(u, FindProject(st.rows, id).value.res, "projects:read", clockHour, st.access.grants)
      case Some(reason) => r == Forbidden("Denied", reason.Name())
      case None => r == Done
    ensures r == Done <==>
      FindProject(st.rows, id).Some?
      && Decide(u, FindProject(st.rows, id).value.res, "projects:read", clockHour, st.access.grants).None?
  {
    match FindProject(st.rows, id)
    case None => NotFound("Not found")
    case Some(p) =>
      match Decide(u, p.res, "projects:read", clockHour, st.access.grants)
      case Some(reason) => Forbidden("Denied", reason.Name())
      case None => Done
  }

  /** The request body of `PUT /projects/:id`; `None` is null or undefined. */
  datatype UpdateBody = UpdateBody(
    name: Option<string>,
    status: Option<string>,
    location: Option<string>,
    classification: Option<int>,
    description: Option<string>,
    contractor: Option<string>,
    finance: Option<string>,
    department: Option<string>)

  /** `req.body.field ?? project.field`, field by field. The id and the owner
      are not updatable. */
  function Merge(p: Project, body: UpdateBody): (m: Project)
    ensures m.res.id == p.res.id && m.res.ownerId == p.res.ownerId
  {
    Project(
      body.name.GetOr(p.name),
      Resource(
        p.res.id,
        p.res.ownerId,
        if body.status.Some? then body.status else p.res.status,
        if body.location.Some? then body.location else p.res.location,
        if body.classification.Some? then body.classification else p.res.classification,
        if body.department.Some? then body.department else p.res.department),
      body.description.GetOr(p.description),
      body.contractor.GetOr(p.contractor),
      body.finance.GetOr(p.finance))
  }

  /** A body with every field absent changes nothing. */
  lemma MergeEmptyIsIdentity(p: Project)
    ensures Merge(p, UpdateBody(None, None, None, None, None, None, None, None)) == p
  {
  }

  /** Applying the same body twice is the same as once. */
  lemma MergeIdempotent(p: Project, body: UpdateBody)
    ensures Merge(Merge(p, body), body) == Merge(p, body)
  {
  }

  /** A field present in the body overwrites the old value; a field absent
      from it keeps the old value. */
  lemma MergeFieldwise(p: Project, body: UpdateBody)
    ensures body.name.Some? ==> Merge(p, body).name == body.name.value
    ensures body.name.None? ==> Merge(p, body).name == p.name
    ensures body.status.Some? ==> Merge(p, body).res.status == body.status
    ensures body.status.None? ==> Merge(p, body).res.status == p.res.status
    ensures body.location.Some? ==> Merge(p, body).res.location == body.location
    ensures body.location.None? ==> Merge(p, body).res.location == p.res.location
    ensures body.classification.Some? ==> Merge(p, body).res.classification == body.classification
    ensures body.classification.None? ==> Merge(p, body).res.classification == p.res.classification
    ensures body.description.Some? ==> Merge(p, body).description == body.description.value
    ensures body.description.None? ==> Merge(p, body).description == p.description
    ensures body.contractor.Some? ==> Merge(p, body).contractor == body.contractor.value
    ensures body.contractor.None? ==> Merge(p, body).contractor == p.contractor
    ensures body.finance.Some? ==> Merge(p, body).finance == body.finance.value
    ensures body.finance.None? ==> Merge(p, body).finance == p.finance
    ensures body.department.Some? ==> Merge(p, body).res.department == body.department
    ensures body.department.None? ==> Merge(p, body).res.department == p.res.department
  {
  }

  /** `PUT /projects/:id`. */
  function Update(st: ProjectStore, u: Principal, id: Id, body: UpdateBody, clockHour: int): (r: (ProjectStore, Reply))
    ensures FindProject(st.rows, id).None? ==> r == (st, NotFound("Not found"))
    ensures FindProject(st.rows, id).Some? ==>
      match Decide(u, FindProject(st.rows, id).value.res, "projects:update", clockHour, st.access.grants)
      case Some(reason) => r == (st, Forbidden("Denied", reason.Name()))
      case None => r.1 == Done
    ensures r.1 != Done ==> r.0 == st
    ensures r.1 == Done ==>
      && FindProject(st.rows, id).Some?
      && FindProject(r.0.rows, id) == Some(Merge(FindProject(st.rows, id).value, body))
      && (forall p :: p in r.0.rows && p.res.id == id ==> p == Merge(FindProject(st.rows, id).value, body))
      && (forall p :: p in r.0.rows && p.res.id != id <==> p in st.rows && p.res.id != id)
      && |r.0.rows| == |st.rows|
      && r.0.nextId == st.nextId
      && r.0.access == st.access
    ensures Valid(st) ==> Valid(r.0)
  {
    match FindProject(st.rows, id)
    case None => (st, NotFound("Not found"))
    case Some(p) =>
      match Decide(u, p.res, "projects:update", clockHour, st.access.grants)
      case Some(reason) => (st, Forbidden("Denied", reason.Name()))
      case None =>
        var merged := Merge(p, body);
        (st.(rows := Seqs.Replace(st.rows, (q: Project) => q.res.id == id, merged)), Done)
  }

  /** `DELETE /projects/:id`: the row and every grant on it go; the grant
      history is untouched. */
  function Delete(st: ProjectStore, u: Principal, id: Id, clockHour: int): (r: (ProjectStore, Reply))
    ensures FindProject(st.rows, id).None? ==> r == (st, NotFound("Not found"))
    ensures FindProject(st.rows, id).Some? ==>
      match Decide(u, FindProject(st.rows, id).value.res, "projects:delete", clockHour, st.access.grants)
      case Some(reason) => r == (st, Forbidden("Denied", reason.Name()))
      case None => r.1 == Done
    ensures r.1 != Done ==> r.0 == st
    ensures r.1 == Done ==>
      && FindProject(st.rows, id).Some?
      && r.0.nextId == st.nextId
      && (forall p :: p in r.0.rows <==> p in st.rows && p.res.id != id)
      && (forall g :: g in r.0.access.grants <==> g in st.access.grants && g.0 != id)
      && r.0.access.history == st.access.history
    ensures Valid(st) ==> Valid(r.0)
  {
    match FindProject(st.rows, id)
    case None => (st, NotFound("Not found"))
    case Some(p) =>
      match Decide(u, p.res, "projects:delete", clockHour, st.access.grants)
      case Some(reason) => (st, Forbidden("Denied", reason.Name()))
      case None =>
        var rows := Seqs.Filter(st.rows, (q: Project) => q.res.id != p.res.id);
        var grants := set g | g in st.access.grants && g.0 != p.res.id;
        (ProjectStore(rows, st.nextId, Dac.AccessStore(grants, st.access.history)), Done)
  }

  /** `POST /projects/:id/access`: owner only, then a target user is needed. */
  function GrantRoute(st: ProjectStore, u: Principal, id: Id, target: Id): (r: (ProjectStore, Reply))
    ensures FindProject(st.rows, id).None? ==> r == (st, NotFound("Not found"))
    ensures FindProject(st.rows, id).Some? && FindProject(st.rows, id).value.res.ownerId != u.id ==>
      r == (st, Forbidden("Owner only", "dac_owner"))
    ensures FindProject(st.rows, id).Some? && FindProject(st.rows, id).value.res.ownerId == u.id ==>
      if target == NoId then r == (st, BadRequest("Missing user")) else r.1 == Done
    ensures r.1 != Done ==> r.0 == st
    ensures r.1 == Done ==>
      && FindProject(st.rows, id).Some? && FindProject(st.rows, id).value.res.ownerId == u.id
      && target != NoId
      && r.0 == st.(access := Dac.GrantAccess(st.access, id, target, u.id))
  {
    match FindProject(st.rows, id)
    case None => (st, NotFound("Not found"))
    case Some(p) =>
      if p.res.ownerId != u.id then (st, Forbidden("Owner only", "dac_owner"))
      else if target == NoId then (st, BadRequest("Missing user"))
      else (st.(access := Dac.GrantAccess(st.access, p.res.id, target, u.id)), Done)
  }

  /** `DELETE /projects/:id/access/:userId`: owner only. */
  function RevokeRoute(st: ProjectStore, u: Principal, id: Id, target: Id): (r: (ProjectStore, Reply))
    ensures FindProject(st.rows, id).None? ==> r == (st, NotFound("Not found"))
    ensures FindProject(st.rows, id).Some? && FindProject(st.rows, id).value.res.ownerId != u.id ==>
      r == (st, Forbidden("Owner only", "dac_owner"))
    ensures FindProject(st.rows, id).Some? && FindProject(st.rows, id).value.res.ownerId == u.id ==>
      r.1 == Done
    ensures r.1 != Done ==> r.0 == st
    ensures r.1 == Done ==>
      && FindProject(st.rows, id).Some? && FindProject(st.rows, id).value.res.ownerId == u.id
      && r.0 == st.(access := Dac.RevokeAccess(st.access, id, target, u.id))
  {
    match FindProject(st.rows, id)
    case None => (st, NotFound("Not found"))
    case Some(p) =>
      if p.res.ownerId != u.id then (st, Forbidden("Owner only", "dac_owner"))
      else (st.(access := Dac.RevokeAccess(st.access, p.res.id, target, u.id)), Done)
  }

  /** After the owner grants a user access through the route, that user
      passes DAC on the project, whoever its owner is. */
  lemma GrantRouteOpensDac(st: ProjectStore, u: Principal, id: Id, target: Id, ownerId: Id)
    requires GrantRoute(st, u, id, target).1 == Done
    ensures Dac.CheckDAC(target, id, ownerId, GrantRoute(st, u, id, target).0.access.grants)
  {
    Dac.GrantThenCheck(st.access, id, target, ownerId, u.id);
  }

  /** After the owner revokes a user through the route, that user passes DAC
      on the project exactly when it is the project's owner. */
  lemma RevokeRouteClosesDac(st: ProjectStore, u: Principal, id: Id, target: Id)
    requires Valid(st)
    requires target != NoId
    requires RevokeRoute(st, u, id, target).1 == Done
    ensures var owner := FindProject(st.rows, id).value.res.ownerId;
      Dac.CheckDAC(target, id, owner, RevokeRoute(st, u, id, target).0.access.grants) <==> target == owner
  {
    var owner := FindProject(st.rows, id).value.res.ownerId;
    Dac.RevokeThenCheck(st.access, id, target, owner, u.id);
  }

  /** An engineer reading an active project of its own department, cleared
      for it and granted on it, passes MAC, RBAC, RuBAC and DAC and is
      refused by ABAC: the active status admits owner and manager only. */
  lemma EngineerOnActiveProjectDeniedByAbac(grants: set<(Id, Id)>, clockHour: int)
    requires 8 <= clockHour <= 18
    requires (7, 3) in grants
    ensures Decide(Principal(3, "engineer", Some(1), Some("eng")),
                   Resource(7, 9, Some("active"), Some("default"), Some(1), Some("eng")),
                   "projects:read", clockHour, grants) == Some(Decision.Abac)
  {
  }
}
