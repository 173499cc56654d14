/** The decision reasons and the reference semantics of the allow pipeline:
    the stages run in a fixed order and the first failing one names the
    denial. */
module Decision {
  import opened Wrappers

  datatype Reason = Mac | Rbac | Rubac | Dac | Abac {
    /** The reason string the routes put in a 403 response. */
    function Name(): string {
      match this
      case Mac => "mac"
      case Rbac => "rbac"
      case Rubac => "rubac"
      case Dac => "dac"
      case Abac => "abac"
    }
  }

  /** One evaluated stage: its reason code and whether it passed. */
  datatype Stage = Stage(reason: Reason, passed: bool)

  /** `None` when every stage passes; otherwise the reason of the earliest
      stage that fails, every stage before it having passed. */
  function FirstFailure(stages: seq<Stage>): (r: Option<Reason>)
    ensures r.None? <==> forall i :: 0 <= i < |stages| ==> stages[i].passed
    ensures r.Some? ==> exists i :: 0 <= i < |stages| && stages[i] == Stage(r.value, false)
                          && forall j :: 0 <= j < i ==> stages[j].passed
  {
    if |stages| == 0 then None
    else if !stages[0].passed then Some(stages[0].reason)
    else
      var r := FirstFailure(stages[1..]);
      assert r.Some? ==> exists i :: 1 <= i < |stages| && stages[i] == Stage(r.value, false)
                            && forall j :: 1 <= j < i ==> stages[j].passed;
      r
  }

  /** One unfolding of `FirstFailure`. */
  lemma FirstFailureStep(stages: seq<Stage>)
    requires |stages| > 0
    ensures FirstFailure(stages) ==
      if !stages[0].passed then Some(stages[0].reason) else FirstFailure(stages[1..])
  {
  }

  /** Reason names are distinct, so a 403 reason identifies its stage. */
  lemma NamesDistinct(a: Reason, b: Reason)
    ensures a.Name() == b.Name() ==> a == b
  {
  }

  /** The five stages in the order every `allow` runs them, from the verdict
      of each model. */
  function Pipeline(mac: bool, rbac: bool, rubac: bool, dac: bool, abac: bool): seq<Stage> {
    [Stage(Mac, mac), Stage(Rbac, rbac), Stage(Rubac, rubac), Stage(Dac, dac), Stage(Abac, abac)]
  }

  /** The first failure of the five stages is the early-return chain:
      mac, then rbac, rubac, dac, abac. */
  lemma PipelineFirstFailure(mac: bool, rbac: bool, rubac: bool, dac: bool, abac: bool)
    ensures FirstFailure(Pipeline(mac, rbac, rubac, dac, abac)) ==
      if !mac then Some(Mac)
      else if !rbac then Some(Rbac)
      else if !rubac then Some(Rubac)
      else if !dac then Some(Dac)
      else if !abac then Some(Abac)
      else None
  {
    var s := Pipeline(mac, rbac, rubac, dac, abac);
    FirstFailureStep(s);
    FirstFailureStep(s[1..]);
    FirstFailureStep(s[2..]);
    FirstFailureStep(s[3..]);
    FirstFailureStep(s[4..]);
    assert s[1..][1..] == s[2..] && s[2..][1..] == s[3..] && s[3..][1..] == s[4..] && s[4..][1..] == [];
  }
}
