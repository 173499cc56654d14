/** Discretionary access control (`access/dac.js`): ownership, or an explicit
    (project, user) grant, with an append-only grant/revoke history.
    The `project_access` table has no uniqueness constraint, so it may hold a
    pair several times; a set is exact for everything that reads it, because
    the check only asks whether a row exists and a revoke deletes every copy. */
module Dac {
  import opened Entities

  datatype GrantAction = Grant | Revoke

  /** A `dac_history` row: project, target user, action, acting user. */
  datatype HistoryRecord = HistoryRecord(projectId: Id, target: Id, action: GrantAction, actor: Id)

  datatype AccessStore = AccessStore(grants: set<(Id, Id)>, history: seq<HistoryRecord>)

  /** No project or no user: nothing to check. A (truthy) owner passes.
      Otherwise a grant row must exist. */
  predicate CheckDAC(userId: Id, projectId: Id, ownerId: Id, grants: set<(Id, Id)>) {
    if projectId == NoId || userId == NoId then true
    else if ownerId != NoId && ownerId == userId then true
    else (projectId, userId) in grants
  }

  function RecordHistory(st: AccessStore, projectId: Id, userId: Id, action: GrantAction, byUser: Id): (st': AccessStore)
    ensures st'.grants == st.grants
    ensures |st'.history| == |st.history| + 1 && st'.history[..|st.history|] == st.history
    ensures st'.history[|st.history|] == HistoryRecord(projectId, userId, action, byUser)
  {
    AccessStore(st.grants, st.history + [HistoryRecord(projectId, userId, action, byUser)])
  }

  /** `INSERT OR IGNORE` the pair, then log the grant. */
  function GrantAccess(st: AccessStore, projectId: Id, userId: Id, byUser: Id): (st': AccessStore)
    ensures (projectId, userId) in st'.grants
    ensures forall q :: q != (projectId, userId) ==> (q in st'.grants <==> q in st.grants)
    ensures st'.history == st.history + [HistoryRecord(projectId, userId, Grant, byUser)]
  {
    var inserted := AccessStore(st.grants + {(projectId, userId)}, st.history);
    RecordHistory(inserted, projectId, userId, Grant, byUser)
  }

  /** Delete every row for the pair, then log the revoke. */
  function RevokeAccess(st: AccessStore, projectId: Id, userId: Id, byUser: Id): (st': AccessStore)
    ensures (projectId, userId) !in st'.grants
    ensures forall q :: q != (projectId, userId) ==> (q in st'.grants <==> q in st.grants)
    ensures st'.history == st.history + [HistoryRecord(projectId, userId, Revoke, byUser)]
  {
    var deleted := AccessStore(st.grants - {(projectId, userId)}, st.history);
    RecordHistory(deleted, projectId, userId, Revoke, byUser)
  }

  /** A missing project or user id passes without looking at the grants. */
  lemma MissingIdPasses(userId: Id, projectId: Id, ownerId: Id, grants: set<(Id, Id)>)
    requires projectId == NoId || userId == NoId
    ensures CheckDAC(userId, projectId, ownerId, grants)
  {
  }

  /** The owner passes with no grant at all. */
  lemma OwnerPasses(userId: Id, projectId: Id, grants: set<(Id, Id)>)
    requires userId != NoId
    ensures CheckDAC(userId, projectId, userId, grants)
  {
  }

  /** For a non-owner on an existing project, the check is grant membership. */
  lemma NonOwnerNeedsGrant(userId: Id, projectId: Id, ownerId: Id, grants: set<(Id, Id)>)
    requires projectId != NoId && userId != NoId && ownerId != userId
    ensures CheckDAC(userId, projectId, ownerId, grants) <==> (projectId, userId) in grants
  {
  }

  lemma GrantThenCheck(st: AccessStore, p: Id, u: Id, o: Id, actor: Id)
    ensures CheckDAC(u, p, o, GrantAccess(st, p, u, actor).grants)
  {
  }

  /** Granting twice gives the same memberships as granting once; only the
      history grows. */
  lemma GrantIdempotent(st: AccessStore, p: Id, u: Id, by1: Id, by2: Id)
    ensures GrantAccess(GrantAccess(st, p, u, by1), p, u, by2).grants == GrantAccess(st, p, u, by1).grants
    ensures |GrantAccess(GrantAccess(st, p, u, by1), p, u, by2).history| == |st.history| + 2
  {
  }

  /** After a revoke the pair passes only through ownership. */
  lemma RevokeThenCheck(st: AccessStore, p: Id, u: Id, o: Id, actor: Id)
    requires p != NoId && u != NoId
    ensures CheckDAC(u, p, o, RevokeAccess(st, p, u, actor).grants) <==> (o != NoId && o == u)
  {
  }

  /** Revoking a pair undoes granting it, for memberships: the net effect of
      a grant followed by a revoke is that the pair is absent. */
  lemma GrantRevokeCancel(st: AccessStore, p: Id, u: Id, by1: Id, by2: Id)
    ensures RevokeAccess(GrantAccess(st, p, u, by1), p, u, by2).grants == st.grants - {(p, u)}
  {
  }
}
