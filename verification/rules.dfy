/** The static policy tables of `helpers/rules.js`. */
module Rules {

  /** Project status to the roles the ABAC status gate admits. */
  const Status: map<string, seq<string>> := map[
    "draft" := ["owner", "manager", "engineer"],
    "active" := ["owner", "manager"],
    "closed" := ["owner", "finance"],
    "archived" := ["owner"]
  ]

  /** Location key to the roles the ABAC location gate admits. */
  const Locations: map<string, seq<string>> := map[
    "default" := ["owner", "manager", "engineer", "finance"],
    "restricted" := ["owner", "manager"]
  ]

  /** The business-hour window, inclusive at both ends. */
  const HoursStart: int := 8
  const HoursEnd: int := 18

  lemma OwnerInEveryList()
    ensures forall s :: s in Status ==> "owner" in Status[s]
    ensures forall l :: l in Locations ==> "owner" in Locations[l]
  {
  }

  lemma ArchivedIsOwnerOnly()
    ensures "archived" in Status && Status["archived"] == ["owner"]
  {
  }

  lemma RestrictedWithinDefault()
    ensures "restricted" in Locations && "default" in Locations
    ensures forall role :: role in Locations["restricted"] ==> role in Locations["default"]
  {
  }

  lemma BusinessHoursWindow()
    ensures HoursStart == 8 && HoursEnd == 18 && HoursStart <= HoursEnd
  {
  }
}
