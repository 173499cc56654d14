/** The files routes (`routes/files.js`): their own allow variant, which
    never skips DAC and refuses a missing project, and the list, create and
    delete effects on the file table. */
module Files {
  import opened Wrappers
  import opened Entities
  import opened Http
  import Decision
  import Seqs
  import Mac
  import Rbac
  import Rubac
  import Abac
  import Dac
  import Projects

  /** A row of the `files` table (`type` is called `kind` here). */
  datatype File = File(
    id: Id,
    projectId: Id,
    name: string,
    kind: string,
    size: int,
    classification: Option<int>,
    createdBy: Id)

  datatype FileStore = FileStore(files: seq<File>, nextId: Id)

  /** File ids are positive and below the next autoincrement id, and every
      file belongs to some project id (files are only created on an existing
      project, whose id is at least 1). */
  predicate Valid(fs: FileStore) {
    && fs.nextId > 0
    && (forall f :: f in fs.files ==> 0 < f.id < fs.nextId && f.projectId != NoId)
  }

  /** `allow` answers a bare `false` for a missing project, otherwise a
      decision. */
  datatype FileDecision = NoProject | Decided(outcome: Option<Decision.Reason>)

  /** `allow(...).ok`: `false.ok` is undefined, hence not ok. */
  predicate Ok(d: FileDecision) {
    d.Decided? && d.outcome.None?
  }

  /** The pipeline on an existing project: MAC, RBAC, RuBAC, DAC, ABAC. */
  function DecideOn(u: Principal, r: Resource, action: string, clockHour: int, grants: set<(Id, Id)>)
    : (d: Option<Decision.Reason>)
    ensures d.None? <==>
      && Mac.CheckMAC(u, r)
      && Rbac.CheckRole(u, action)
      && Rubac.CheckRuBAC(u, action, AtClock(clockHour))
      && Dac.CheckDAC(u.id, r.id, r.ownerId, grants)
      && Abac.CheckABAC(u, r, AtClock(clockHour))
  {
    var ctx := AtClock(clockHour);
    if !Mac.CheckMAC(u, r) then Some(Decision.Mac)
    else if !Rbac.CheckRole(u, action) then Some(Decision.Rbac)
    else if !Rubac.CheckRuBAC(u, action, ctx) then Some(Decision.Rubac)
    else if !Dac.CheckDAC(u.id, r.id, r.ownerId, grants) then Some(Decision.Dac)
    else if !Abac.CheckABAC(u, r, ctx) then Some(Decision.Abac)
    else None
  }

  function Decide(u: Principal, project: Option<Resource>, action: string, clockHour: int, grants: set<(Id, Id)>)
    : (d: FileDecision)
    ensures project.None? <==> d == NoProject
    ensures Ok(d) ==> project.Some? && DecideOn(u, project.value, action, clockHour, grants).None?
  {
    match project
    case None => NoProject
    case Some(r) => Decided(DecideOn(u, r, action, clockHour, grants))
  }

  /** The verdict is the first failure of mac, rbac, rubac, dac, abac, DAC
      always among them. */
  lemma DecideIsFirstFailure(u: Principal, r: Resource, action: string, clockHour: int, grants: set<(Id, Id)>)
    ensures Decide(u, Some(r), action, clockHour, grants) == Decided(Decision.FirstFailure(Decision.Pipeline(
      Mac.CheckMAC(u, r),
      Rbac.CheckRole(u, action),
      Rubac.CheckRuBAC(u, action, AtClock(clockHour)),
      Dac.CheckDAC(u.id, r.id, r.ownerId, grants),
      Abac.CheckABAC(u, r, AtClock(clockHour)))))
  {
    Decision.PipelineFirstFailure(
      Mac.CheckMAC(u, r),
      Rbac.CheckRole(u, action),
      Rubac.CheckRuBAC(u, action, AtClock(clockHour)),
      Dac.CheckDAC(u.id, r.id, r.ownerId, grants),
      Abac.CheckABAC(u, r, AtClock(clockHour)));
  }

  /** On an existing project the files variant and the projects variant give
      the same verdict: skipping DAC for a resource without an id changes
      nothing, because the DAC check itself passes when the project id is
      missing. */
  lemma AgreesWithProjects(u: Principal, r: Resource, action: string, clockHour: int, grants: set<(Id, Id)>)
    ensures Decide(u, Some(r), action, clockHour, grants)
         == Decided(Projects.Decide(u, r, action, clockHour, grants))
  {
  }

  /** `classification || project.classification`: a truthy request value
      replaces the project's, for the checks and for the stored row. */
  function Override(r: Resource, classification: Option<int>): (o: Resource)
    ensures Truthy(classification) ==> o.classification == classification
    ensures !Truthy(classification) ==> o == r
    ensures o.(classification := r.classification) == r
  {
    if Truthy(classification) then r.(classification := classification) else r
  }

  /** With a truthy override, both MAC and the ABAC classification gate
      compare the clearance with the override, not with the project. */
  lemma OverrideDrivesMacAndAbac(u: Principal, r: Resource, c: int)
    requires c != 0
    ensures Mac.CheckMAC(u, Override(r, Some(c))) <==> OrElse(u.clearance, 0) >= c
    ensures Abac.ClassificationGate(u, Override(r, Some(c))) <==> OrElse(u.clearance, 0) >= c
  {
  }

  /** The files selected by the `projectId` query string. `None` is an
      absent or empty query, the only falsy strings; any other query,
      `"0"` included, selects by project id. */
  function Selected(files: seq<File>, query: Option<Id>): (r: seq<File>)
    ensures forall f :: f in r <==> f in files && (query.None? || f.projectId == query.value)
    ensures query.None? ==> r == files
  {
    match query
    case None => files
    case Some(q) => Seqs.Filter(files, (f: File) => f.projectId == q)
  }

  /** One list entry: the file with its project, when the project exists and
      the caller may read files on it. */
  function Entry(rows: seq<Projects.Project>, u: Principal, clockHour: int, grants: set<(Id, Id)>, f: File)
    : Option<(File, Projects.Project)>
  {
    match Projects.FindProject(rows, f.projectId)
    case None => None
    case Some(p) =>
      if Ok(Decide(u, Some(p.res), "files:read", clockHour, grants)) then Some((f, p)) else None
  }

  /** `GET /files`. */
  function List(fs: FileStore, rows: seq<Projects.Project>, u: Principal, query: Option<Id>, clockHour: int, grants: set<(Id, Id)>)
    : (r: seq<(File, Projects.Project)>)
    ensures forall e :: e in r <==>
      && e.0 in fs.files
      && (query.None? || e.0.projectId == query.value)
      && Projects.FindProject(rows, e.0.projectId) == Some(e.1)
      && Ok(Decide(u, Some(e.1.res), "files:read", clockHour, grants))
  {
    Seqs.FilterMap(Selected(fs.files, query), f => Entry(rows, u, clockHour, grants, f))
  }

  /** The list of a concatenated table is the concatenation of the lists, so
      the list keeps the table order. */
  lemma ListKeepsOrder(a: seq<File>, b: seq<File>, nextId: Id, rows: seq<Projects.Project>, u: Principal,
                       query: Option<Id>, clockHour: int, grants: set<(Id, Id)>)
    ensures List(FileStore(a + b, nextId), rows, u, query, clockHour, grants)
         == List(FileStore(a, nextId), rows, u, query, clockHour, grants)
          + List(FileStore(b, nextId), rows, u, query, clockHour, grants)
  {
    if query.Some? {
      Seqs.FilterConcat(a, b, (f: File) => f.projectId == query.value);
    }
    Seqs.FilterMapConcat(Selected(a, query), Selected(b, query), f => Entry(rows, u, clockHour, grants, f));
  }

  /** `?projectId=0` is a truthy string: it selects by project id 0, which
      no file carries, so the list is empty rather than unfiltered. */
  lemma ZeroQueryListsNothing(fs: FileStore, rows: seq<Projects.Project>, u: Principal, clockHour: int, grants: set<(Id, Id)>)
    requires Valid(fs)
    ensures List(fs, rows, u, Some(0), clockHour, grants) == []
  {
  }

  /** The request body of `POST /files`; `None` is an absent field. */
  datatype CreateBody = CreateBody(
    projectId: Id,
    name: Option<string>,
    kind: Option<string>,
    size: Option<int>,
    classification: Option<int>)

  /** `POST /files`. */
  function Create(fs: FileStore, rows: seq<Projects.Project>, grants: set<(Id, Id)>, u: Principal, body: CreateBody, clockHour: int)
    : (r: (FileStore, Reply))
    ensures body.projectId == NoId || !TruthyText(body.name) ==> r == (fs, BadRequest("Missing fields"))
    ensures r.1 != Done ==> r.0 == fs
    ensures body.projectId != NoId && TruthyText(body.name) && Projects.FindProject(rows, body.projectId).None? ==>
      r.1 == NotFound("Project missing")
    ensures body.projectId != NoId && TruthyText(body.name) && Projects.FindProject(rows, body.projectId).Some? ==>
      var p := Projects.FindProject(rows, body.projectId).value;
      match DecideOn(u, Override(p.res, body.classification), "files:create", clockHour, grants)
      case Some(reason) => r == (fs, Forbidden("Denied", reason.Name()))
      case None => r.1 == Done
    ensures r.1 == Done ==>
      var p := Projects.FindProject(rows, body.projectId);
      && p.Some?
      && |r.0.files| == |fs.files| + 1
      && r.0.files[..|fs.files|] == fs.files
      && r.0.nextId == fs.nextId + 1
      && r.0.files[|fs.files|].id == fs.nextId
      && r.0.files[|fs.files|].projectId == body.projectId
      && r.0.files[|fs.files|].name == body.name.value
      && r.0.files[|fs.files|].kind == body.kind.GetOr("")
      && r.0.files[|fs.files|].size == body.size.GetOr(0)
      && r.0.files[|fs.files|].createdBy == u.id
      && r.0.files[|fs.files|].classification == Override(p.value.res, body.classification).classification
    ensures Valid(fs) ==> Valid(r.0)
  {
    if body.projectId == NoId || !TruthyText(body.name) then (fs, BadRequest("Missing fields"))
    else
      match Projects.FindProject(rows, body.projectId)
      case None => (fs, NotFound("Project missing"))
      case Some(p) =>
        var resource := Override(p.res, body.classification);
        match DecideOn(u, resource, "files:create", clockHour, grants)
        case Some(reason) => (fs, Forbidden("Denied", reason.Name()))
        case None =>
          var file := File(
            fs.nextId, body.projectId, body.name.value, body.kind.GetOr(""), body.size.GetOr(0),
            resource.classification, u.id);
          (FileStore(fs.files + [file], fs.nextId + 1), Done)
  }

  function FindFile(files: seq<File>, id: Id): (r: Option<File>)
    ensures r.Some? ==> r.value in files && r.value.id == id
    ensures r.None? ==> forall f :: f in files ==> f.id != id
  {
    Seqs.Find(files, (f: File) => f.id == id)
  }

  /** `DELETE /files/:id`. */
  function Delete(fs: FileStore, rows: seq<Projects.Project>, grants: set<(Id, Id)>, u: Principal, id: Id, clockHour: int)
    : (r: (FileStore, Reply))
    ensures FindFile(fs.files, id).None? ==> r == (fs, NotFound("Not found"))
    ensures FindFile(fs.files, id).Some? && Projects.FindProject(rows, FindFile(fs.files, id).value.projectId).None? ==>
      r == (fs, NotFound("Project missing"))
    ensures FindFile(fs.files, id).Some? && Projects.FindProject(rows, FindFile(fs.files, id).value.projectId).Some? ==>
      var p := Projects.FindProject(rows, FindFile(fs.files, id).value.projectId).value;
      match DecideOn(u, p.res, "files:delete", clockHour, grants)
      case Some(reason) => r == (fs, Forbidden("Denied", reason.Name()))
      case None => r.1 == Done
    ensures r.1 != Done ==> r.0 == fs
    ensures r.1 == Done ==>
      && FindFile(fs.files, id).Some?
      && (forall f :: f in r.0.files <==> f in fs.files && f.id != id)
      && r.0.nextId == fs.nextId
    ensures Valid(fs) ==> Valid(r.0)
  {
    match FindFile(fs.files, id)
    case None => (fs, NotFound("Not found"))
    case Some(file) =>
      match Projects.FindProject(rows, file.projectId)
      case None => (fs, NotFound("Project missing"))
      case Some(p) =>
        match DecideOn(u, p.res, "files:delete", clockHour, grants)
        case Some(reason) => (fs, Forbidden("Denied", reason.Name()))
        case None => (fs.(files := Seqs.Filter(fs.files, (f: File) => f.id != file.id)), Done)
  }

  /** On a valid table the new file is the one found under the new id. */
  lemma CreateThenFind(fs: FileStore, rows: seq<Projects.Project>, grants: set<(Id, Id)>, u: Principal, body: CreateBody, clockHour: int)
    requires Valid(fs)
    requires Create(fs, rows, grants, u, body, clockHour).1 == Done
    ensures var files := Create(fs, rows, grants, u, body, clockHour).0.files;
      FindFile(files, fs.nextId) == Some(files[|fs.files|])
  {
    var files := Create(fs, rows, grants, u, body, clockHour).0.files;
    assert files == fs.files + [files[|fs.files|]];
  }

  /** Deleting the file just created, by someone the project allows to
      delete files, succeeds and gives back the table as it was. */
  lemma CreateThenDeleteRestores(fs: FileStore, rows: seq<Projects.Project>, grants: set<(Id, Id)>, u: Principal,
                                 body: CreateBody, clockHour: int)
    requires Valid(fs)
    requires Create(fs, rows, grants, u, body, clockHour).1 == Done
    requires Projects.FindProject(rows, body.projectId).Some?
    requires DecideOn(u, Projects.FindProject(rows, body.projectId).value.res, "files:delete", clockHour, grants).None?
    ensures var created := Create(fs, rows, grants, u, body, clockHour).0;
      Delete(created, rows, grants, u, fs.nextId, clockHour) == (created.(files := fs.files), Done)
  {
    var created := Create(fs, rows, grants, u, body, clockHour).0;
    var added := created.files[|fs.files|];
    assert created.files == fs.files + [added];
    CreateThenFind(fs, rows, grants, u, body, clockHour);
    var keep := (f: File) => f.id != added.id;
    Seqs.FilterConcat(fs.files, [added], keep);
    Seqs.FilterAll(fs.files, keep);
    Seqs.FilterSingleton(added, keep);
    assert Seqs.Filter(created.files, keep) == fs.files;
    assert FindFile(created.files, fs.nextId) == Some(added);
    assert added.projectId == body.projectId;
  }
}
