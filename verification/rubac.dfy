/** Rule-based access control (`access/rubac.js`): a sparse list of
    contextual rules keyed by action. */
module Rubac {
  import opened Wrappers
  import opened Entities
  import Seqs
  import Rules

  /** Inclusive window; the source writes the bounds 8 and 18 literally. */
  predicate WithinHours(hour: int) {
    hour >= 8 && hour <= 18
  }

  /** The kinds of rule check; today there is exactly one. */
  datatype RuleCheck = HrBusinessHours

  datatype Rule = Rule(action: string, check: RuleCheck)

  const RuleList: seq<Rule> := [Rule("users:update", HrBusinessHours)]

  /** Only principals of the `hr` department are held to the business hours. */
  predicate Apply(check: RuleCheck, p: Principal, ctx: Context) {
    match check
    case HrBusinessHours =>
      if p.department != Some("hr") then true else WithinHours(HourOf(ctx))
  }

  /** `rules.find(r => r.action === action)`; no rule means allowed. */
  predicate CheckRuBAC(p: Principal, action: string, ctx: Context) {
    match Seqs.Find(RuleList, (r: Rule) => r.action == action)
    case None => true
    case Some(rule) => Apply(rule.check, p, ctx)
  }

  lemma OtherActionsPass(p: Principal, action: string, ctx: Context)
    requires action != "users:update"
    ensures CheckRuBAC(p, action, ctx)
  {
  }

  lemma NonHrPasses(p: Principal, ctx: Context)
    requires p.department != Some("hr")
    ensures CheckRuBAC(p, "users:update", ctx)
  {
  }

  lemma HrBoundToWindow(p: Principal, ctx: Context)
    requires p.department == Some("hr")
    ensures CheckRuBAC(p, "users:update", ctx) <==> 8 <= HourOf(ctx) <= 18
  {
  }

  /** A numeric `ctx.hour` overrides the hour of `ctx.time`. */
  lemma HourOverrideWins(p: Principal, action: string, h: int, clock1: int, clock2: int)
    ensures CheckRuBAC(p, action, Context(Some(h), clock1))
        <==> CheckRuBAC(p, action, Context(Some(h), clock2))
  {
  }

  /** The literal window agrees with the shared business-hour table. */
  lemma WindowMatchesRules(hour: int)
    ensures WithinHours(hour) <==> Rules.HoursStart <= hour <= Rules.HoursEnd
  {
  }
}
