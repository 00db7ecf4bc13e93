/** Plan.java: the membership plans and their Stripe plan ids. */
module Plans {
  import opened Wrappers

  datatype Plan = Standard | Silver | Gold | Platinum

  /** Plan.values(), in declaration order. */
  const VALUES: seq<Plan> := [Standard, Silver, Gold, Platinum]

  function StripePlanId(p: Plan): string
  {
    match p
    case Standard => "standard-1"
    case Silver => "silver-1"
    case Gold => "gold-1"
    case Platinum => "platinum-1"
  }

  /** The Error the static initializer raises on a repeated id: the id, the
      plan that already had it and the plan that repeats it. */
  datatype DuplicatePlanId = DuplicatePlanId(id: string, previous: Plan, plan: Plan)

  ghost predicate DistinctIds(plans: seq<Plan>, id: Plan -> string)
  {
    forall i, j :: 0 <= i < j < |plans| ==> id(plans[i]) != id(plans[j])
  }

  /** The static initializer: puts every plan under its id (`id` is
      getStripePlanId) and fails on the first id that an earlier plan
      already has. */
  method IndexPlans(plans: seq<Plan>, id: Plan -> string) returns (r: Result<map<string, Plan>, DuplicatePlanId>)
    ensures r.Success? <==> DistinctIds(plans, id)
    ensures r.Success? ==> r.value.Keys == set p | p in plans :: id(p)
    ensures r.Success? ==> forall p :: p in plans ==> r.value[id(p)] == p
    ensures r.Failure? ==>
              && r.error.previous in plans && r.error.plan in plans
              && id(r.error.previous) == r.error.id == id(r.error.plan)
  {
    var m: map<string, Plan> := map[];
    for i := 0 to |plans|
      invariant DistinctIds(plans[..i], id)
      invariant forall k :: 0 <= k < i ==> id(plans[k]) in m && m[id(plans[k])] == plans[k]
      invariant forall s :: s in m ==> exists k :: 0 <= k < i && id(plans[k]) == s
    {
      var plan := plans[i];
      var planId := id(plan);
      if planId in m {
        var k :| 0 <= k < i && id(plans[k]) == planId;
        var previous := m[planId];
        assert previous == plans[k];
        assert !DistinctIds(plans, id) by {
          assert id(plans[k]) == id(plans[i]);
        }
        return Failure(DuplicatePlanId(planId, previous, plan));
      }
      assert DistinctIds(plans[..i + 1], id) by {
        forall a, b | 0 <= a < b < i + 1 ensures id(plans[a]) != id(plans[b]) {
          if b == i {
            assert id(plans[a]) in m;
          } else {
            assert plans[..i][a] == plans[a] && plans[..i][b] == plans[b];
          }
        }
      }
      m := m[planId := plan];
    }
    assert plans[..|plans|] == plans;
    assert m.Keys == set p | p in plans :: id(p) by {
      forall s | s in m ensures exists p :: p in plans && id(p) == s {
        var k :| 0 <= k < |plans| && id(plans[k]) == s;
        assert plans[k] in plans;
      }
    }
    r := Success(m);
  }

  /** ID_TO_PLAN_MAP as the static initializer leaves it. */
  const ID_TO_PLAN_MAP: map<string, Plan> :=
    map["standard-1" := Standard, "silver-1" := Silver, "gold-1" := Gold, "platinum-1" := Platinum]

  /** The four ids are pairwise distinct: their second letters differ. */
  lemma PlanIdsAreDistinct()
    ensures DistinctIds(VALUES, StripePlanId)
  {
    forall i, j | 0 <= i < j < |VALUES|
      ensures StripePlanId(VALUES[i]) != StripePlanId(VALUES[j])
    {
      assert StripePlanId(VALUES[i])[1] != StripePlanId(VALUES[j])[1];
    }
  }

  /** The ids of the plans are the keys of ID_TO_PLAN_MAP. */
  lemma PlanIdsAreTheKeys()
    ensures (set p | p in VALUES :: StripePlanId(p)) == ID_TO_PLAN_MAP.Keys
  {
    assert Standard in VALUES && Silver in VALUES && Gold in VALUES && Platinum in VALUES;
    forall p | p in VALUES
      ensures StripePlanId(p) in ID_TO_PLAN_MAP
    {
    }
  }

  /** The four ids are pairwise distinct, so the initializer succeeds and
      builds exactly ID_TO_PLAN_MAP. */
  method InitializeIdToPlanMap() returns (m: map<string, Plan>)
    ensures m == ID_TO_PLAN_MAP
  {
    PlanIdsAreDistinct();
    var r := IndexPlans(VALUES, StripePlanId);
    m := r.value;
    IndexIsIdToPlanMap(m);
  }

  /** A map whose keys are the plans' ids and which holds each plan under
      its id is ID_TO_PLAN_MAP. */
  lemma IndexIsIdToPlanMap(m: map<string, Plan>)
    requires m.Keys == set p | p in VALUES :: StripePlanId(p)
    requires forall p :: p in VALUES ==> m[StripePlanId(p)] == p
    ensures m == ID_TO_PLAN_MAP
  {
    PlanIdsAreTheKeys();
    forall p | p in VALUES
      ensures m[StripePlanId(p)] == ID_TO_PLAN_MAP[StripePlanId(p)]
    {
    }
    forall id | id in m
      ensures m[id] == ID_TO_PLAN_MAP[id]
    {
      var p :| p in VALUES && StripePlanId(p) == id;
    }
  }

  /** Plan.forStripePlanName. */
  function ForStripePlanName(id: string): (r: Option<Plan>)
    ensures r.Some? ==> StripePlanId(r.value) == id
  {
    if id in ID_TO_PLAN_MAP then Some(ID_TO_PLAN_MAP[id]) else None
  }

  /** Looking a plan up by its own id gives the plan back; any other string
      gives nothing. */
  lemma ForStripePlanNameInverts(p: Plan, id: string)
    ensures ForStripePlanName(StripePlanId(p)) == Some(p)
    ensures (forall q :: StripePlanId(q) != id) ==> ForStripePlanName(id) == None
  {
  }
}
