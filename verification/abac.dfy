/** Attribute-based access control (`access/abac.js`): six gates checked in
    order, any one of which denies. */
module Abac {
  import opened Wrappers
  import opened Entities
  import Rules
  import Mac

  /** The status's allowed roles: an unset status reads as `draft`, and a
      status missing from the table falls back to the draft list. */
  function StatusRoles(r: Resource): seq<string> {
    var status := OrElseText(r.status, "draft");
    if status in Rules.Status then Rules.Status[status] else Rules.Status["draft"]
  }

  /** Only the exact location `restricted` selects the narrow list. */
  function LocationRoles(r: Resource): seq<string> {
    if r.location == Some("restricted") then Rules.Locations["restricted"]
    else Rules.Locations["default"]
  }

  predicate StatusGate(p: Principal, r: Resource) {
    p.role in StatusRoles(r)
  }

  predicate LocationGate(p: Principal, r: Resource) {
    p.role in LocationRoles(r)
  }

  predicate TimeGate(p: Principal, ctx: Context) {
    var hour := HourOf(ctx);
    hour < Rules.HoursStart || hour > Rules.HoursEnd ==> p.role == "owner"
  }

  predicate ClassificationGate(p: Principal, r: Resource) {
    !(Truthy(r.classification) && OrElse(p.clearance, 0) < r.classification.value)
  }

  predicate DepartmentGate(p: Principal, r: Resource) {
    !(TruthyText(r.department) && TruthyText(p.department)
      && r.department.value != p.department.value)
  }

  predicate ArchivalGate(p: Principal, r: Resource) {
    r.status == Some("archived") ==> p.role == "owner"
  }

  /** `checkABAC`, as the chain of early returns the source writes. */
  predicate CheckABAC(p: Principal, r: Resource, ctx: Context) {
    if !(p.role in StatusRoles(r)) then false
    else if !(p.role in LocationRoles(r)) then false
    else if (HourOf(ctx) < Rules.HoursStart || HourOf(ctx) > Rules.HoursEnd) && p.role != "owner" then false
    else if Truthy(r.classification) && OrElse(p.clearance, 0) < r.classification.value then false
    else if TruthyText(r.department) && TruthyText(p.department) && r.department.value != p.department.value then false
    else if r.status == Some("archived") && p.role != "owner" then false
    else true
  }

  /** The early-return chain is exactly the conjunction of the six gates. */
  lemma AbacIsConjunction(p: Principal, r: Resource, ctx: Context)
    ensures CheckABAC(p, r, ctx) <==>
      StatusGate(p, r) && LocationGate(p, r) && TimeGate(p, ctx)
      && ClassificationGate(p, r) && DepartmentGate(p, r) && ArchivalGate(p, r)
  {
  }

  /** An unset or empty status is judged as `draft`, and so is any status
      the table does not know. */
  lemma UnknownStatusIsDraft(p: Principal, r: Resource)
    requires !TruthyText(r.status) || r.status.value !in Rules.Status
    ensures StatusGate(p, r) <==> p.role in ["owner", "manager", "engineer"]
  {
  }

  /** Anything but the exact string `restricted`, an unset location included,
      admits the four standard roles. */
  lemma LocationChoice(p: Principal, r: Resource)
    ensures r.location == Some("restricted") ==> (LocationGate(p, r) <==> p.role in ["owner", "manager"])
    ensures r.location != Some("restricted") ==>
      (LocationGate(p, r) <==> p.role in ["owner", "manager", "engineer", "finance"])
  {
  }

  /** Outside business hours only the owner passes. */
  lemma OffHoursOwnerOnly(p: Principal, r: Resource, ctx: Context)
    requires HourOf(ctx) < 8 || HourOf(ctx) > 18
    requires CheckABAC(p, r, ctx)
    ensures p.role == "owner"
  {
  }

  /** The classification gate is the MAC rule applied again. */
  lemma ClassificationGateIsMac(p: Principal, r: Resource)
    ensures ClassificationGate(p, r) <==> Mac.CheckMAC(p, r)
  {
  }

  /** The department gate denies only when both departments are set and differ. */
  lemma DepartmentDeniesOnlyOnMismatch(p: Principal, r: Resource)
    ensures !DepartmentGate(p, r) <==>
      r.department.Some? && p.department.Some? && r.department.value != ""
      && p.department.value != "" && r.department != p.department
  {
  }

  /** Archived resources admit the owner role only. */
  lemma ArchivedOwnerOnly(p: Principal, r: Resource, ctx: Context)
    requires r.status == Some("archived")
    requires CheckABAC(p, r, ctx)
    ensures p.role == "owner"
  {
  }

  /** The archival override never decides anything the status gate has not
      already decided, because the archived status list is the owner alone. */
  lemma ArchivalGateRedundant(p: Principal, r: Resource)
    requires StatusGate(p, r)
    ensures ArchivalGate(p, r)
  {
  }
}
