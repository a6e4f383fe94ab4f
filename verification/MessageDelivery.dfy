/** Drafting, approving and delivering messages. */
module MessageDelivery {
  import opened Basics
  import opened PolicyDigest
  import opened MessageRendering
  import opened MessageClassifier

  datatype Status = Drafted | AwaitingApproval | ApprovedToSend | Sent

  /** The hash is taken to be injective on canonical forms, so it is its canonical form. */
  function ContentHash(content: string): Json { Canonicalize(Text(content)) }

  datatype Message = Message(tenant: string, case_: string, classification: Classification, content: string,
      hash: Json, status: Status)

  datatype Approval = Approval(message: nat, actor: string, hash: Json)

  /** What went out. */
  datatype Delivery = Delivery(message: nat, hash: Json)

  /** Messages, approvals and deliveries are never deleted: their ids are their places. */
  datatype State = State(
    templates: map<(string, string, string), Template>, messages: seq<Message>, approvals: seq<Approval>,
        deliveries: seq<Delivery>)

  /** Each call is one step; templates come and change as operators please. */
  datatype Action =
    | PutTemplate(tenant: string, key: string, version: string, template: Template)
    | DraftMessage(tenant: string, case_: string, input: Input)
    | Approve(tenant: string, id: nat, actor: string)
    | Deliver(tenant: string, id: nat)

  function FindTemplate(s: State, tenant: string, input: Input): Option<Template> {
    if Named(input.templateKey) && Named(input.templateVersion)
        && (tenant, input.templateKey.value, input.templateVersion.value) in s.templates
    then Some(s.templates[(tenant, input.templateKey.value, input.templateVersion.value)]) else None
  }

  function NewMessage(tenant: string, case_: string, o: Outcome): Message {
    Message(tenant, case_, o.classification, o.content, ContentHash(o.content),
        if o.classification.Protected? then AwaitingApproval else Drafted)
  }

  predicate Present(s: State, tenant: string, id: nat) { id < |s.messages| && s.messages[id].tenant == tenant }

  predicate Approvable(m: Message) { m.classification.Protected? && m.status != ApprovedToSend }

  predicate Ready(m: Message) {
    (m.classification.Routine? && m.status == Drafted) || (m.classification.Protected? && m.status == ApprovedToSend)
  }

  function Apply(s: State, a: Action): State {
    match a
    case PutTemplate(tenant, key, version, t) => s.(templates := s.templates[(tenant, key, version) := t])
    case DraftMessage(tenant, c, input) =>
      var o := Classified(input, FindTemplate(s, tenant, input));
      if o.None? then s else s.(messages := s.messages + [NewMessage(tenant, c, o.value)])
    case Approve(tenant, id, actor) =>
      if Present(s, tenant, id) && Approvable(s.messages[id]) then
        s.(messages := s.messages[id := s.messages[id].(status := ApprovedToSend)],
           approvals := s.approvals + [Approval(id, actor, s.messages[id].hash)])
      else s
    case Deliver(tenant, id) =>
      if Present(s, tenant, id) && Ready(s.messages[id]) then
        s.(messages := s.messages[id := s.messages[id].(status := Sent)],
            deliveries := s.deliveries + [Delivery(id, s.messages[id].hash)])
      else s
  }

  function Run(s: State, actions: seq<Action>): State
    decreases |actions|
  {
    if actions == [] then s else Run(Apply(s, actions[0]), actions[1..])
  }

  const EMPTY: State := State(map[], [], [], [])

  // ---------------------------------------------------------------------------------------------
  // Counting

  function Approvals(s: seq<Approval>, id: nat): nat {
    if s == [] then 0 else Approvals(s[..|s| - 1], id) + (if s[|s| - 1].message == id then 1 else 0)
  }

  function Deliveries(s: seq<Delivery>, id: nat): nat {
    if s == [] then 0 else Deliveries(s[..|s| - 1], id) + (if s[|s| - 1].message == id then 1 else 0)
  }

  lemma {:induction false} OneMoreApproval(s: seq<Approval>, a: Approval, id: nat)
    ensures Approvals(s + [a], id) == Approvals(s, id) + (if a.message == id then 1 else 0)
  {
    assert (s + [a])[..|s|] == s;
  }

  lemma {:induction false} OneMoreDelivery(s: seq<Delivery>, d: Delivery, id: nat)
    ensures Deliveries(s + [d], id) == Deliveries(s, id) + (if d.message == id then 1 else 0)
  {
    assert (s + [d])[..|s|] == s;
  }

  /** The books of one message balance. */
  ghost predicate Balanced(s: State, id: nat)
    requires id < |s.messages|
  {
    var m, approved, sent := s.messages[id], Approvals(s.approvals, id), Deliveries(s.deliveries, id);
    if m.classification.Routine? then
      approved == 0 && (if m.status == Drafted then sent == 0 else m.status == Sent && sent == 1)
    else
      && m.status != Drafted && approved == sent + (if m.status == ApprovedToSend then 1 else 0)
      && (m.status == AwaitingApproval ==> approved == 0)
  }

  /** Hashes are those of the content. */
  ghost predicate Bound(s: State) {
    && (forall id :: 0 <= id < |s.messages| ==> s.messages[id].hash == ContentHash(s.messages[id].content))
    && (forall k :: 0 <= k < |s.approvals| ==>
        s.approvals[k].message < |s.messages| && s.approvals[k].hash == s.messages[s.approvals[k].message].hash)
    && (forall k :: 0 <= k < |s.deliveries| ==>
        s.deliveries[k].message < |s.messages| && s.deliveries[k].hash == s.messages[s.deliveries[k].message].hash)
  }

  ghost predicate Inv(s: State) { Bound(s) && forall id :: 0 <= id < |s.messages| ==> Balanced(s, id) }

  lemma {:induction false} NobodyYet(s: State, id: nat)
    requires Bound(s) && id >= |s.messages|
    ensures Approvals(s.approvals, id) == 0 && Deliveries(s.deliveries, id) == 0
  {
    NoApprovals(s.approvals, id);
    NoDeliveries(s.deliveries, id);
  }

  lemma {:induction false} NoApprovals(s: seq<Approval>, id: nat)
    requires forall k :: 0 <= k < |s| ==> s[k].message != id
    ensures Approvals(s, id) == 0
  {
    if s != [] { NoApprovals(s[..|s| - 1], id); }
  }

  lemma {:induction false} NoDeliveries(s: seq<Delivery>, id: nat)
    requires forall k :: 0 <= k < |s| ==> s[k].message != id
    ensures Deliveries(s, id) == 0
  {
    if s != [] { NoDeliveries(s[..|s| - 1], id); }
  }

  lemma {:induction false} StepKeepsBound(s: State, a: Action)
    requires Bound(s)
    ensures Bound(Apply(s, a))
  {
  }

  lemma {:induction false} ApproveKeepsBalance(s: State, tenant: string, i: nat, actor: string, id: nat)
    requires id < |s.messages| && Balanced(s, id)
    ensures |Apply(s, Approve(tenant, i, actor)).messages| == |s.messages|
    ensures Balanced(Apply(s, Approve(tenant, i, actor)), id)
  {
    if Present(s, tenant, i) { OneMoreApproval(s.approvals, Approval(i, actor, s.messages[i].hash), id); }
  }

  lemma {:induction false} DeliverKeepsBalance(s: State, tenant: string, i: nat, id: nat)
    requires id < |s.messages| && Balanced(s, id)
    ensures |Apply(s, Deliver(tenant, i)).messages| == |s.messages| && Balanced(Apply(s, Deliver(tenant, i)), id)
  {
    if Present(s, tenant, i) { OneMoreDelivery(s.deliveries, Delivery(i, s.messages[i].hash), id); }
  }

  lemma {:induction false} DraftKeepsBalance(s: State, tenant: string, c: string, input: Input, id: nat)
    requires Inv(s) && id < |Apply(s, DraftMessage(tenant, c, input)).messages|
    ensures Balanced(Apply(s, DraftMessage(tenant, c, input)), id)
  {
    if id < |s.messages| { assert Balanced(s, id); } else { NobodyYet(s, id); }
  }

  lemma {:induction false} StepKeepsBalance(s: State, a: Action, id: nat)
    requires Inv(s) && id < |Apply(s, a).messages|
    ensures Balanced(Apply(s, a), id)
  {
    match a
    case PutTemplate(_, _, _, _) => assert Balanced(s, id);
    case DraftMessage(tenant, c, input) => DraftKeepsBalance(s, tenant, c, input, id);
    case Approve(tenant, i, actor) => ApproveKeepsBalance(s, tenant, i, actor, id);
    case Deliver(tenant, i) => DeliverKeepsBalance(s, tenant, i, id);
  }

  lemma {:induction false} StepKeepsInv(s: State, a: Action)
    requires Inv(s)
    ensures Inv(Apply(s, a))
  {
    StepKeepsBound(s, a);
    var s' := Apply(s, a);
    forall id | 0 <= id < |s'.messages| ensures Balanced(s', id) { StepKeepsBalance(s, a, id); }
  }

  lemma {:induction false} RunKeepsInv(s: State, actions: seq<Action>)
    requires Inv(s)
    ensures Inv(Run(s, actions))
    decreases |actions|
  {
    if actions != [] {
      StepKeepsInv(s, actions[0]);
      RunKeepsInv(Apply(s, actions[0]), actions[1..]);
    }
  }

  /** In every run a ROUTINE message goes out at most once and needs no approval, and a PROTECTED one goes out no more
      often than it was approved, every approval and every delivery bound to the hash of its content. */
  lemma {:induction false} DeliveryDiscipline(actions: seq<Action>, id: nat)
    requires id < |Run(EMPTY, actions).messages|
    ensures
      var s := Run(EMPTY, actions);
      var m, approved, sent := s.messages[id], Approvals(s.approvals, id), Deliveries(s.deliveries, id);
      && (m.classification.Routine? ==> sent <= 1 && approved == 0)
      && (m.classification.Protected? ==> sent <= approved <= sent + 1)
      && (forall k :: 0 <= k < |s.approvals| && s.approvals[k].message == id ==>
          s.approvals[k].hash == ContentHash(m.content))
      && (forall k :: 0 <= k < |s.deliveries| && s.deliveries[k].message == id ==>
          s.deliveries[k].hash == ContentHash(m.content))
  {
    RunKeepsInv(EMPTY, actions);
    assert Balanced(Run(EMPTY, actions), id);
  }

  /** An approval or a delivery with the hash of a content is one of that content and no other. */
  lemma {:induction false} HashTellsContent(a: string, b: string)
    ensures ContentHash(a) == ContentHash(b) <==> a == b
  {
  }

  /** What a message says and how it was classified never change. */
  lemma {:induction false} ContentNeverChanges(s: State, actions: seq<Action>, id: nat)
    requires id < |s.messages|
    ensures
      var s' := Run(s, actions);
      && id < |s'.messages| && s'.messages[id].content == s.messages[id].content
      && s'.messages[id].hash == s.messages[id].hash
      && s'.messages[id].classification == s.messages[id].classification
      && s'.messages[id].tenant == s.messages[id].tenant
    decreases |actions|
  {
    if actions != [] { ContentNeverChanges(Apply(s, actions[0]), actions[1..], id); }
  }

  lemma {:induction false} RunLast(s: State, actions: seq<Action>)
    requires actions != []
    ensures Run(s, actions) == Apply(Run(s, actions[..|actions| - 1]), actions[|actions| - 1])
    decreases |actions|
  {
    var n := |actions| - 1;
    if n == 0 {
      assert actions[1..] == [] && actions[..0] == [];
    } else {
      assert actions[1..][..n - 1] == actions[..n][1..];
      RunLast(Apply(s, actions[0]), actions[1..]);
    }
  }

  /** Step `k` of the run drafted message `id` with `content` from a template that was approved and suited the draft. */
  ghost predicate Origin(actions: seq<Action>, id: nat, content: string, k: nat) {
    && k < |actions| && actions[k].DraftMessage?
    && var s, input := Run(EMPTY, actions[..k]), actions[k].input;
       var t := FindTemplate(s, actions[k].tenant, input);
       && |s.messages| == id && t.Some? && input.freeform.None? && Suits(t.value, input)
       && AllAnswered(t.value.body, input.variables) && AllAllowed(input.variables, t.value.allowed)
       && content == Fill(t.value.body, Reads(input.variables))
  }

  lemma {:induction false} DraftHasOrigin(actions: seq<Action>, n: nat)
    requires n + 1 == |actions| && actions[n].DraftMessage?
    requires
      var s, a := Run(EMPTY, actions[..n]), actions[n];
      var o := Classified(a.input, FindTemplate(s, a.tenant, a.input));
      o.Some? && o.value.classification.Routine?
    ensures
      var s, a := Run(EMPTY, actions[..n]), actions[n];
      Origin(actions, |s.messages|, Classified(a.input, FindTemplate(s, a.tenant, a.input)).value.content, n)
  {
    var s, a := Run(EMPTY, actions[..n]), actions[n];
    RoutineIff(a.input, FindTemplate(s, a.tenant, a.input));
  }

  ghost predicate HasOrigin(actions: seq<Action>, id: nat, content: string) {
    exists k: nat :: Origin(actions, id, content, k)
  }

  lemma {:induction false} SameOrigin(actions: seq<Action>, n: nat, id: nat, content: string)
    requires n <= |actions| && HasOrigin(actions[..n], id, content)
    ensures HasOrigin(actions, id, content)
  {
    var k: nat :| Origin(actions[..n], id, content, k);
    assert actions[..n][..k] == actions[..k];
    assert Origin(actions, id, content, k);
  }

  /** A step keeps the messages there are; a new one is the draft just classified. */
  lemma {:induction false} StepMessages(s: State, a: Action, id: nat)
    requires id < |Apply(s, a).messages|
    ensures
      var m := Apply(s, a).messages[id];
      if id < |s.messages| then m.content == s.messages[id].content && m.classification == s.messages[id].classification
      else
        && id == |s.messages| && a.DraftMessage?
        && var o := Classified(a.input, FindTemplate(s, a.tenant, a.input));
           o.Some? && m.content == o.value.content && m.classification == o.value.classification
  {
  }

  /** In every run, whatever stands there as a ROUTINE message is the filled-in text of a template that was approved,
      and suited the draft, when the message was drafted. */
  lemma {:induction false} RoutineComesFromApprovedTemplate(actions: seq<Action>, id: nat)
    requires id < |Run(EMPTY, actions).messages| && Run(EMPTY, actions).messages[id].classification.Routine?
    ensures HasOrigin(actions, id, Run(EMPTY, actions).messages[id].content)
    decreases |actions|
  {
    if actions != [] {
      var n := |actions| - 1;
      var s := Run(EMPTY, actions[..n]);
      RunLast(EMPTY, actions);
      StepMessages(s, actions[n], id);
      if id < |s.messages| {
        RoutineComesFromApprovedTemplate(actions[..n], id);
        SameOrigin(actions, n, id, s.messages[id].content);
      } else {
        DraftHasOrigin(actions, n);
      }
    }
  }

  /** A sent PROTECTED message can be approved and sent again: delivery is bounded by approvals, not by one. */
  lemma {:induction false} ProtectedCanGoOutAgain(s: State, tenant: string, id: nat, actor: string)
    requires Inv(s) && Present(s, tenant, id) && s.messages[id].classification.Protected?
    requires s.messages[id].status == Sent
    ensures Deliveries(Run(s, [Approve(tenant, id, actor), Deliver(tenant, id)]).deliveries, id)
        == Deliveries(s.deliveries, id) + 1
  {
    var s1 := Apply(s, Approve(tenant, id, actor));
    var s2 := Apply(s1, Deliver(tenant, id));
    assert [Approve(tenant, id, actor), Deliver(tenant, id)][1..] == [Deliver(tenant, id)];
    assert [Deliver(tenant, id)][1..] == [];
    assert Run(s1, [Deliver(tenant, id)]) == Run(s2, []) == s2;
    OneMoreDelivery(s.deliveries, Delivery(id, s1.messages[id].hash), id);
  }

  /** A sent message can go out again if and only if it is PROTECTED. */
  lemma {:induction false} GoesOutAgainIff(s: State, id: nat)
    requires Inv(s) && id < |s.messages| && s.messages[id].status == Sent
    ensures (exists actions :: Deliveries(Run(s, actions).deliveries, id) > Deliveries(s.deliveries, id))
       <==> s.messages[id].classification.Protected?
  {
    var tenant := s.messages[id].tenant;
    if s.messages[id].classification.Protected? {
      ProtectedCanGoOutAgain(s, tenant, id, "");
    } else {
      assert Balanced(s, id);
      forall actions
        ensures Deliveries(Run(s, actions).deliveries, id) == 1 || Deliveries(Run(s, actions).deliveries, id) == 0
      {
        RunKeepsInv(s, actions);
        ContentNeverChanges(s, actions, id);
        assert Balanced(Run(s, actions), id);
      }
    }
  }

  lemma {:induction false} RunOne(s: State, a: Action)
    ensures Run(s, [a]) == Apply(s, a)
  {
    assert [a][1..] == [];
  }

  lemma {:induction false} RunAppend(s: State, xs: seq<Action>, ys: seq<Action>)
    ensures Run(s, xs + ys) == Run(Run(s, xs), ys)
    decreases |xs|
  {
    if xs == [] {
      assert xs + ys == ys;
    } else {
      assert (xs + ys)[1..] == xs[1..] + ys;
      RunAppend(Apply(s, xs[0]), xs[1..], ys);
    }
  }

  /** Five calls send one PROTECTED message twice. */
  lemma {:induction false} SentTwice() returns (actions: seq<Action>)
    ensures
      var s := Run(EMPTY, actions);
      |s.messages| == 1 && s.messages[0].classification.Protected? && Deliveries(s.deliveries, 0) == 2
  {
    var vars: Variables := Record([], map[]);
    var draft := DraftMessage("t", "c", Input("", "", "", None, None, vars, Some("text"), false));
    var m := Message("t", "c", Protected, "text", ContentHash("text"), AwaitingApproval);
    RunOne(EMPTY, draft);
    assert Run(EMPTY, [draft]).messages == [m];
    var again := [Approve("t", 0, "a"), Deliver("t", 0)];
    RunKeepsInv(EMPTY, [draft]);
    Resend(Run(EMPTY, [draft]));
    var s := Run(Run(EMPTY, [draft]), again);
    RunKeepsInv(Run(EMPTY, [draft]), again);
    Resend(s);
    RunAppend(EMPTY, [draft], again);
    RunAppend(EMPTY, [draft] + again, again);
    actions := [draft] + again + again;
  }

  /** Approving and delivering the one PROTECTED message sends it once more. */
  lemma {:induction false} Resend(s: State)
    requires |s.messages| == 1 && Present(s, "t", 0) && s.messages[0].classification.Protected?
    requires s.messages[0].status != ApprovedToSend
    ensures
      var s' := Run(s, [Approve("t", 0, "a"), Deliver("t", 0)]);
      && |s'.messages| == 1 && Present(s', "t", 0) && s'.messages[0].classification.Protected?
      && s'.messages[0].status == Sent
      && Deliveries(s'.deliveries, 0) == Deliveries(s.deliveries, 0) + 1
  {
    var a, b := Approve("t", 0, "a"), Deliver("t", 0);
    assert [a, b] == [a] + [b];
    RunAppend(s, [a], [b]);
    RunOne(s, a);
    RunOne(Apply(s, a), b);
    OneMoreDelivery(s.deliveries, Delivery(0, s.messages[0].hash), 0);
  }

  // ---------------------------------------------------------------------------------------------
  // The services

  datatype ApprovalAnswer = ApprovalSaved(approval: Approval) | MessageNotFound | NotProtected | AlreadyApproved
  datatype DeliveryAnswer = Delivered | NotReady | NoSuchMessage

  class Desk {
    var templates: map<(string, string, string), Template>
    var messages: seq<Message>
    var approvals: seq<Approval>
    var deliveries: seq<Delivery>

    ghost function View(): State
      reads this
    {
      State(templates, messages, approvals, deliveries)
    }

    constructor ()
      ensures View() == EMPTY
    {
      templates, messages, approvals, deliveries := map[], [], [], [];
    }

    /** The new message, or nothing when classification throws. */
    method DraftFor(tenant: string, case_: string, input: Input) returns (r: Option<nat>)
      modifies this
      ensures View() == Apply(old(View()), DraftMessage(tenant, case_, input))
      ensures r == if |messages| > |old(messages)| then Some(|old(messages)|) else None
    {
      var template: Option<Template> := None;
      if Named(input.templateKey) && Named(input.templateVersion) {
        var k := (tenant, input.templateKey.value, input.templateVersion.value);
        if k in templates { template := Some(templates[k]); }
      }
      var outcome := Classify(input, template);
      if outcome.None? { return None; }
      var o := outcome.value;
      var status := if o.classification.Protected? then AwaitingApproval else Drafted;
      messages := messages + [Message(tenant, case_, o.classification, o.content, ContentHash(o.content), status)];
      return Some(|messages| - 1);
    }

    method ApproveMessage(tenant: string, id: nat, actor: string) returns (r: ApprovalAnswer)
      modifies this
      ensures View() == Apply(old(View()), Approve(tenant, id, actor))
      ensures r.ApprovalSaved? <==> Present(old(View()), tenant, id) && Approvable(old(messages)[id])
      ensures r.ApprovalSaved? ==>
        r.approval == Approval(id, actor, old(messages)[id].hash) && approvals == old(approvals) + [r.approval]
      ensures r.MessageNotFound? <==> !Present(old(View()), tenant, id)
      ensures r.NotProtected? ==> old(messages)[id].classification.Routine?
      ensures r.AlreadyApproved? ==> old(messages)[id].status == ApprovedToSend
    {
      if id >= |messages| || messages[id].tenant != tenant { return MessageNotFound; }
      var message := messages[id];
      if !message.classification.Protected? { return NotProtected; }
      if message.status == ApprovedToSend { return AlreadyApproved; }
      var approval := Approval(id, actor, message.hash);
      approvals := approvals + [approval];
      messages := messages[id := message.(status := ApprovedToSend)];
      return ApprovalSaved(approval);
    }

    method DeliverMessage(tenant: string, id: nat) returns (r: DeliveryAnswer)
      modifies this
      ensures View() == Apply(old(View()), Deliver(tenant, id))
      ensures r.NoSuchMessage? <==> !Present(old(View()), tenant, id)
      ensures r.Delivered? <==> Present(old(View()), tenant, id) && Ready(old(messages)[id])
    {
      if id >= |messages| || messages[id].tenant != tenant { return NoSuchMessage; }
      var message := messages[id];
      var ready := (message.classification.Routine? && message.status == Drafted)
          || (message.classification.Protected? && message.status == ApprovedToSend);
      if !ready { return NotReady; }
      deliveries := deliveries + [Delivery(id, message.hash)];
      messages := messages[id := message.(status := Sent)];
      return Delivered;
    }
  }
}
