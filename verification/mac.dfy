/** Mandatory access control (`access/mac.js`): clearance against classification. */
module Mac {
  import opened Wrappers
  import opened Entities

  /** An unset or zero classification lets everybody through; otherwise the
      clearance, a missing one counting as 0, must reach the classification. */
  predicate CheckMAC(p: Principal, r: Resource) {
    if !Truthy(r.classification) then true
    else OrElse(p.clearance, 0) >= r.classification.value
  }

  lemma UnclassifiedAllowsAll(p: Principal, r: Resource)
    requires r.classification.None? || r.classification == Some(0)
    ensures CheckMAC(p, r)
  {
  }

  lemma ClassifiedNeedsClearance(p: Principal, r: Resource)
    requires Truthy(r.classification)
    ensures CheckMAC(p, r) <==> OrElse(p.clearance, 0) >= r.classification.value
  {
  }

  /** A principal without a clearance passes only unclassified resources
      (and resources with a negative classification, which are truthy). */
  lemma MissingClearanceDenied(p: Principal, r: Resource)
    requires p.clearance.None?
    requires r.classification.Some? && r.classification.value > 0
    ensures !CheckMAC(p, r)
  {
  }

  /** Raising the clearance never turns an allow into a deny. */
  lemma MonotoneInClearance(p: Principal, r: Resource, c: int)
    requires CheckMAC(p, r)
    requires c >= OrElse(p.clearance, 0)
    ensures CheckMAC(p.(clearance := Some(c)), r)
  {
  }

  /** Raising the classification never turns a deny into an allow, unless it
      is raised exactly to 0, which reads as unclassified. */
  lemma MonotoneInClassification(p: Principal, r: Resource, c: int)
    requires !CheckMAC(p, r)
    requires c >= r.classification.value && c != 0
    ensures !CheckMAC(p, r.(classification := Some(c)))
  {
  }
}
