/** The records the access-control engine works on, and the JavaScript
    truthiness rules the source applies to their optional fields. */
module Entities {
  import opened Wrappers

  /** A SQLite row id. `NoId` stands for a missing id (null or undefined);
      real row ids start at 1, so a missing id is exactly a falsy one. */
  type Id = int
  const NoId: Id := 0

  /** `if (v)` for a numeric field: set and non-zero. */
  predicate Truthy(v: Option<int>) {
    v.Some? && v.value != 0
  }

  /** `if (v)` for a text field: set and non-empty. */
  predicate TruthyText(v: Option<string>) {
    v.Some? && v.value != ""
  }

  /** `v || fallback` for a numeric field. */
  function OrElse(v: Option<int>, fallback: int): int {
    if Truthy(v) then v.value else fallback
  }

  /** `v || fallback` for a text field. */
  function OrElseText(v: Option<string>, fallback: string): string {
    if TruthyText(v) then v.value else fallback
  }

  /** The authenticated user as the evaluators see it (`req.user`). Roles are
      free text: registration accepts any string. */
  datatype Principal = Principal(
    id: Id,
    role: string,
    clearance: Option<int>,
    department: Option<string>)

  /** The attributes of a project (or of a synthetic resource) that the
      evaluators read. `id == NoId` is a resource that does not exist yet. */
  datatype Resource = Resource(
    id: Id,
    ownerId: Id,
    status: Option<string>,
    location: Option<string>,
    classification: Option<int>,
    department: Option<string>)

  /** The evaluation context: an explicit numeric `hour`, or else the local
      hour of the request time. */
  datatype Context = Context(hourOverride: Option<int>, clockHour: int)

  /** The hour the time-dependent rules look at: a numeric `ctx.hour` wins. */
  function HourOf(ctx: Context): int {
    ctx.hourOverride.GetOr(ctx.clockHour)
  }

  /** The context every route builds: `{ time: Date.now() }`. */
  function AtClock(clockHour: int): Context {
    Context(None, clockHour)
  }

  /** A row of the `users` table, without the password hash (only ever read
      through the bcrypt comparison, which is an input here). Times are
      milliseconds since the epoch. */
  datatype UserRow = UserRow(
    id: Id,
    email: string,
    role: string,
    clearance: Option<int>,
    department: Option<string>,
    mfaSecret: Option<string>,
    mfaRequired: bool,
    failedAttempts: nat,
    lockoutUntil: Option<int>)

  function PrincipalOf(u: UserRow): Principal {
    Principal(u.id, u.role, u.clearance, u.department)
  }
}
