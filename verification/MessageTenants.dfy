/** Nobody approves, sends or fills in on behalf of another tenant. */
module MessageTenants {
  import opened MessageClassifier
  import opened MessageDelivery

  function DeliverCalls(actions: seq<Action>, tenant: string, id: nat): nat {
    if actions == [] then 0
    else
      var first := if actions[0] == Deliver(tenant, id) then 1 else 0;
      first + DeliverCalls(actions[1..], tenant, id)
  }

  function ApproveCalls(actions: seq<Action>, tenant: string, id: nat): nat {
    if actions == [] then 0
    else
      var first := if actions[0].Approve? && actions[0].tenant == tenant && actions[0].id == id then 1 else 0;
      first + ApproveCalls(actions[1..], tenant, id)
  }

  lemma {:induction false} StepCounts(s: State, a: Action, id: nat)
    requires id < |s.messages|
    ensures Deliveries(Apply(s, a).deliveries, id) - Deliveries(s.deliveries, id)
        <= if a == Deliver(s.messages[id].tenant, id) then 1 else 0
    ensures Approvals(Apply(s, a).approvals, id) - Approvals(s.approvals, id)
        <= if a.Approve? && a.tenant == s.messages[id].tenant && a.id == id then 1 else 0
    ensures |Apply(s, a).messages| >= |s.messages| && Apply(s, a).messages[id].tenant == s.messages[id].tenant
  {
    StepDeliveries(s, a, id);
    StepApprovals(s, a, id);
  }

  lemma {:induction false} StepDeliveries(s: State, a: Action, id: nat)
    requires id < |s.messages|
    ensures Deliveries(Apply(s, a).deliveries, id) - Deliveries(s.deliveries, id)
        <= if a == Deliver(s.messages[id].tenant, id) then 1 else 0
  {
    if a.Deliver? && a.id < |s.messages| {
      OneMoreDelivery(s.deliveries, Delivery(a.id, s.messages[a.id].hash), id);
    } else {
      assert Apply(s, a).deliveries == s.deliveries;
    }
  }

  lemma {:induction false} StepApprovals(s: State, a: Action, id: nat)
    requires id < |s.messages|
    ensures Approvals(Apply(s, a).approvals, id) - Approvals(s.approvals, id)
        <= if a.Approve? && a.tenant == s.messages[id].tenant && a.id == id then 1 else 0
  {
    if a.Approve? && a.id < |s.messages| {
      OneMoreApproval(s.approvals, Approval(a.id, a.actor, s.messages[a.id].hash), id);
    } else {
      assert Apply(s, a).approvals == s.approvals;
    }
  }

  /** Over every run a message goes out no more often than its own tenant asked for it, and is approved no more often
      than its own tenant approved it. */
  lemma {:induction false} CallsOfItsTenant(s: State, actions: seq<Action>, id: nat)
    requires id < |s.messages|
    ensures
      var s', tenant := Run(s, actions), s.messages[id].tenant;
      && Deliveries(s'.deliveries, id) <= Deliveries(s.deliveries, id) + DeliverCalls(actions, tenant, id)
      && Approvals(s'.approvals, id) <= Approvals(s.approvals, id) + ApproveCalls(actions, tenant, id)
    decreases |actions|
  {
    if actions != [] {
      StepCounts(s, actions[0], id);
      CallsOfItsTenant(Apply(s, actions[0]), actions[1..], id);
    }
  }

  ghost predicate Silent(actions: seq<Action>, tenant: string) {
    forall k :: 0 <= k < |actions| ==> actions[k].tenant != tenant
  }

  /** What other tenants do leaves a tenant's messages exactly as they are. */
  lemma {:induction false} OthersChangeNothing(s: State, actions: seq<Action>, id: nat)
    requires id < |s.messages| && Silent(actions, s.messages[id].tenant)
    ensures id < |Run(s, actions).messages| && Run(s, actions).messages[id] == s.messages[id]
    decreases |actions|
  {
    if actions != [] {
      assert actions[0].tenant != s.messages[id].tenant;
      OthersChangeNothing(Apply(s, actions[0]), actions[1..], id);
    }
  }

  ghost predicate PutAt(actions: seq<Action>, k: (string, string, string), t: Template, i: nat) {
    i < |actions| && actions[i] == PutTemplate(k.0, k.1, k.2, t)
  }

  /** Every template was put there by its tenant. */
  lemma {:induction false} TemplatesWerePut(actions: seq<Action>, k: (string, string, string)) returns (i: nat)
    requires k in Run(EMPTY, actions).templates
    ensures PutAt(actions, k, Run(EMPTY, actions).templates[k], i)
    decreases |actions|
  {
    i := 0;
    if actions != [] {
      var n := |actions| - 1;
      RunLast(EMPTY, actions);
      var s := Run(EMPTY, actions[..n]);
      if k in s.templates && s.templates[k] == Run(EMPTY, actions).templates[k] {
        i := TemplatesWerePut(actions[..n], k);
      } else {
        i := n;
      }
    }
  }

  /** Over every run: a ROUTINE message of a tenant is filled in from a template that this tenant itself had put,
      approved, before the message was drafted. */
  lemma {:induction false} RoutineUsesOwnTemplate(actions: seq<Action>, id: nat) returns (k: nat, i: nat)
    requires id < |Run(EMPTY, actions).messages| && Run(EMPTY, actions).messages[id].classification.Routine?
    ensures i < k < |actions| && actions[k].DraftMessage? && actions[i].PutTemplate?
    ensures actions[k].tenant == actions[i].tenant == Run(EMPTY, actions).messages[id].tenant
    ensures actions[i].template.status == Approved && Suits(actions[i].template, actions[k].input)
    ensures Run(EMPTY, actions).messages[id].content
        == MessageRendering.Fill(actions[i].template.body, MessageRendering.Reads(actions[k].input.variables))
  {
    RoutineComesFromApprovedTemplate(actions, id);
    k :| Origin(actions, id, Run(EMPTY, actions).messages[id].content, k);
    var s, a := Run(EMPTY, actions[..k]), actions[k];
    var key := (a.tenant, a.input.templateKey.value, a.input.templateVersion.value);
    i := TemplatesWerePut(actions[..k], key);
    DraftedBy(actions, k, id);
  }

  lemma {:induction false} DraftedBy(actions: seq<Action>, k: nat, id: nat)
    requires k < |actions| && actions[k].DraftMessage? && id < |Run(EMPTY, actions).messages|
    requires |Run(EMPTY, actions[..k]).messages| == id
    requires
      var s, a := Run(EMPTY, actions[..k]), actions[k];
      Classified(a.input, FindTemplate(s, a.tenant, a.input)).Some?
    ensures Run(EMPTY, actions).messages[id].tenant == actions[k].tenant
  {
    var n := k + 1;
    RunLast(EMPTY, actions[..n]);
    assert actions[..n][..k] == actions[..k];
    assert actions == actions[..n] + actions[n..];
    RunAppend(EMPTY, actions[..n], actions[n..]);
    ContentNeverChanges(Run(EMPTY, actions[..n]), actions[n..], id);
  }
}
