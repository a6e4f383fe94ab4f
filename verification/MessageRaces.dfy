/** Approving and delivering as the services do it: a read, and later a write that does not look again. */
module MessageRaces {
  import opened Basics
  import opened MessageDelivery

  /** Where a call stands. */
  datatype Caller =
    | Delivering(tenant: string, id: nat)
    | SawReady(id: nat)
    | Approving(tenant: string, id: nat, actor: string)
    | SawApprovable(id: nat, actor: string)
    | Over

  datatype Race = Race(books: State, callers: map<nat, Caller>)

  /** Templates and drafts are written in one step each; the other calls begin, read and write. */
  datatype Step = Write(action: Action) | Begin(c: nat, caller: Caller) | Go(c: nat)

  function Advance(r: Race, c: nat): Race
    requires c in r.callers
  {
    var b := r.books;
    match r.callers[c]
    case Delivering(tenant, id) =>
      r.(callers := r.callers[c := if Present(b, tenant, id) && Ready(b.messages[id]) then SawReady(id) else Over])
    case SawReady(id) => Race(if id < |b.messages| then Sending(b, id) else b, r.callers[c := Over])
    case Approving(tenant, id, actor) =>
      r.(callers := r.callers[c := if Present(b, tenant, id)
          && Approvable(b.messages[id]) then SawApprovable(id, actor) else Over])
    case SawApprovable(id, actor) =>
      Race(if id < |b.messages| then Permitting(b, id, actor) else b, r.callers[c := Over])
    case Over => r
  }

  function Sending(b: State, id: nat): State
    requires id < |b.messages|
  {
    b.(messages := b.messages[id := b.messages[id].(status := Sent)],
        deliveries := b.deliveries + [Delivery(id, b.messages[id].hash)])
  }

  function Permitting(b: State, id: nat, actor: string): State
    requires id < |b.messages|
  {
    b.(messages := b.messages[id := b.messages[id].(status := ApprovedToSend)],
        approvals := b.approvals + [Approval(id, actor, b.messages[id].hash)])
  }

  function Take(r: Race, step: Step): Race {
    match step
    case Write(a) => if a.PutTemplate? || a.DraftMessage? then r.(books := MessageDelivery.Apply(r.books, a)) else r
    case Begin(c, p) =>
      if c !in r.callers && (p.Delivering? || p.Approving?) then r.(callers := r.callers[c := p]) else r
    case Go(c) => if c in r.callers then Advance(r, c) else r
  }

  function Play(r: Race, steps: seq<Step>): Race
    decreases |steps|
  {
    if steps == [] then r else Play(Take(r, steps[0]), steps[1..])
  }

  /** The deliver calls that have read a message as ready and not written yet. */
  function InFlight(r: Race, id: nat): set<nat> { set c | c in r.callers && r.callers[c] == SawReady(id) }

  function Out(r: Race, id: nat): nat { Deliveries(r.books.deliveries, id) }

  // ---------------------------------------------------------------------------------------------
  // Every interleaving

  ghost predicate MessageOk(r: Race, id: nat)
    requires id < |r.books.messages|
  {
    var m := r.books.messages[id];
    && (m.classification.Routine? ==> m.status == Drafted || m.status == Sent)
    && (m.status == Drafted ==> m.classification.Routine? && Out(r, id) == 0)
  }

  ghost predicate CallerOk(r: Race, p: Caller) {
    match p
    case SawReady(id) => id < |r.books.messages|
    case SawApprovable(id, _) => id < |r.books.messages| && r.books.messages[id].classification.Protected?
    case _ => true
  }

  ghost predicate DeliveriesOk(b: State) {
    forall k :: 0 <= k < |b.deliveries| ==> b.deliveries[k].message < |b.messages|
  }

  ghost predicate Inv(r: Race) {
    && DeliveriesOk(r.books)
    && (forall id :: 0 <= id < |r.books.messages| ==> MessageOk(r, id))
    && (forall c :: c in r.callers ==> CallerOk(r, r.callers[c]))
  }

  /** What a step does to one message that is there. */
  ghost predicate Kept(r: Race, r': Race) {
    && |r.books.messages| <= |r'.books.messages|
    && forall id :: 0 <= id < |r.books.messages| ==>
        r'.books.messages[id].classification == r.books.messages[id].classification
  }

  lemma {:induction false} TakeKeeps(r: Race, step: Step)
    ensures Kept(r, Take(r, step))
  {
  }

  lemma {:induction false} SendKeepsMessages(r: Race, c: nat, id: nat, k: nat)
    requires Inv(r) && c in r.callers && r.callers[c] == SawReady(id) && k < |r.books.messages|
    ensures MessageOk(Advance(r, c), k)
  {
    assert MessageOk(r, k) && CallerOk(r, r.callers[c]);
    OneMoreDelivery(r.books.deliveries, Delivery(id, r.books.messages[id].hash), k);
  }

  lemma {:induction false} WriteKeepsMessages(r: Race, a: Action, k: nat)
    requires Inv(r) && (a.PutTemplate? || a.DraftMessage?) && k < |Take(r, Write(a)).books.messages|
    ensures MessageOk(Take(r, Write(a)), k)
  {
    if k < |r.books.messages| {
      assert MessageOk(r, k);
    } else {
      NoDeliveries(r.books.deliveries, k);
    }
  }

  lemma {:induction false} GoKeepsMessages(r: Race, c: nat, k: nat)
    requires Inv(r) && c in r.callers && k < |r.books.messages|
    ensures |Advance(r, c).books.messages| == |r.books.messages| && MessageOk(Advance(r, c), k)
  {
    assert MessageOk(r, k) && CallerOk(r, r.callers[c]);
    if r.callers[c].SawReady? { SendKeepsMessages(r, c, r.callers[c].id, k); }
  }

  lemma {:induction false} TakeKeepsInv(r: Race, step: Step)
    requires Inv(r)
    ensures Inv(Take(r, step))
  {
    var r' := Take(r, step);
    TakeKeeps(r, step);
    forall k | 0 <= k < |r'.books.messages| ensures MessageOk(r', k) {
      match step
      case Write(a) =>
        if a.PutTemplate? || a.DraftMessage? { WriteKeepsMessages(r, a, k); } else { assert MessageOk(r, k); }
      case Begin(_, _) => assert MessageOk(r, k);
      case Go(c) => if c in r.callers { GoKeepsMessages(r, c, k); } else { assert MessageOk(r, k); }
    }
    forall c | c in r'.callers ensures CallerOk(r', r'.callers[c]) {
      if c in r.callers { assert CallerOk(r, r.callers[c]); }
    }
    DeliveriesStayOk(r, step);
  }

  lemma {:induction false} DeliveriesStayOk(r: Race, step: Step)
    requires Inv(r)
    ensures DeliveriesOk(Take(r, step).books)
  {
    if step.Go? && step.c in r.callers { assert CallerOk(r, r.callers[step.c]); }
  }

  lemma {:induction false} PlayKeepsInv(r: Race, steps: seq<Step>)
    requires Inv(r)
    ensures Inv(Play(r, steps))
    decreases |steps|
  {
    if steps != [] {
      TakeKeepsInv(r, steps[0]);
      PlayKeepsInv(Take(r, steps[0]), steps[1..]);
    }
  }

  // ---------------------------------------------------------------------------------------------
  // When a ROUTINE message goes out twice

  /** Out or on its way out. */
  function Launched(r: Race, id: nat): nat { Out(r, id) + |InFlight(r, id)| }

  lemma {:induction false} OneLess(a: set<nat>, b: set<nat>, c: nat)
    requires c in a && b == a - {c}
    ensures |b| == |a| - 1
  {
  }

  lemma {:induction false} SendMoves(r: Race, c: nat, id: nat)
    requires c in r.callers && r.callers[c] == SawReady(id) && id < |r.books.messages|
    ensures Out(Advance(r, c), id) == Out(r, id) + 1 && |InFlight(Advance(r, c), id)| == |InFlight(r, id)| - 1
    ensures forall k :: k != id ==> Out(Advance(r, c), k) == Out(r, k) && InFlight(Advance(r, c), k) == InFlight(r, k)
  {
    var r', d := Advance(r, c), Delivery(id, r.books.messages[id].hash);
    OneMoreDelivery(r.books.deliveries, d, id);
    OneLess(InFlight(r, id), InFlight(r', id), c);
    forall k: nat | k != id ensures Out(r', k) == Out(r, k) && InFlight(r', k) == InFlight(r, k) {
      OneMoreDelivery(r.books.deliveries, d, k);
    }
  }

  /** Once a ROUTINE message is sent, no step launches it any more. */
  lemma {:induction false} SentLaunchesNoMore(r: Race, step: Step, id: nat)
    requires Inv(r) && id < |r.books.messages| && r.books.messages[id].classification.Routine?
    requires r.books.messages[id].status == Sent
    ensures
      var r' := Take(r, step);
      && id < |r'.books.messages| && r'.books.messages[id].classification.Routine?
      && r'.books.messages[id].status == Sent
      && Launched(r', id) == Launched(r, id)
  {
    var r' := Take(r, step);
    TakeKeepsInv(r, step);
    TakeKeeps(r, step);
    assert MessageOk(r', id);
    if step.Go? && step.c in r.callers {
      assert CallerOk(r, r.callers[step.c]);
      if r.callers[step.c].SawReady? {
        SendMoves(r, step.c, r.callers[step.c].id);
      } else {
        assert InFlight(r', id) == InFlight(r, id);
      }
    } else {
      assert InFlight(r', id) == InFlight(r, id);
    }
  }

  lemma {:induction false} SentLaunchesNever(r: Race, steps: seq<Step>, id: nat)
    requires Inv(r) && id < |r.books.messages| && r.books.messages[id].classification.Routine?
    requires r.books.messages[id].status == Sent
    ensures Launched(Play(r, steps), id) == Launched(r, id)
    decreases |steps|
  {
    if steps != [] {
      SentLaunchesNoMore(r, steps[0], id);
      TakeKeepsInv(r, steps[0]);
      SentLaunchesNever(Take(r, steps[0]), steps[1..], id);
    }
  }

  ghost predicate CanGoTwice(r: Race, id: nat) { exists steps :: Out(Play(r, steps), id) >= 2 }

  lemma {:induction false} TwiceLater(r: Race, step: Step, id: nat)
    requires CanGoTwice(Take(r, step), id)
    ensures CanGoTwice(r, id)
  {
    var steps :| Out(Play(Take(r, step), steps), id) >= 2;
    assert ([step] + steps)[1..] == steps;
    assert Play(r, [step] + steps) == Play(Take(r, step), steps);
  }

  lemma {:induction false} TwiceNow(r: Race, id: nat)
    requires Out(r, id) >= 2
    ensures CanGoTwice(r, id)
  {
    assert Play(r, []) == r;
  }

  /** What is on its way out goes out. */
  lemma {:induction false} LaunchedGoesOut(r: Race, id: nat)
    requires Inv(r) && id < |r.books.messages| && Launched(r, id) >= 2
    ensures CanGoTwice(r, id)
    decreases |InFlight(r, id)|
  {
    if Out(r, id) >= 2 {
      TwiceNow(r, id);
    } else {
      var c :| c in InFlight(r, id);
      SendMoves(r, c, id);
      TakeKeepsInv(r, Go(c));
      LaunchedGoesOut(Take(r, Go(c)), id);
      TwiceLater(r, Go(c), id);
    }
  }

  /** A ready message can be launched once more. */
  lemma {:induction false} LaunchOnce(r: Race, id: nat) returns (c: nat)
    requires id < |r.books.messages| && Ready(r.books.messages[id])
    ensures c !in r.callers
    ensures
      var r' := Take(Take(r, Begin(c, Delivering(r.books.messages[id].tenant, id))), Go(c));
      r'.books == r.books && |InFlight(r', id)| == |InFlight(r, id)| + 1
  {
    c := FreshId(r.callers.Keys);
    var r' := Take(Take(r, Begin(c, Delivering(r.books.messages[id].tenant, id))), Go(c));
    assert r'.callers == r.callers[c := SawReady(id)];
    assert InFlight(r', id) == InFlight(r, id) + {c};
  }

  lemma {:induction false} DraftedGoesTwice(r: Race, id: nat)
    requires Inv(r) && id < |r.books.messages| && Ready(r.books.messages[id])
    ensures CanGoTwice(r, id)
  {
    var c := LaunchOnce(r, id);
    var first := Begin(c, Delivering(r.books.messages[id].tenant, id));
    var r1 := Take(r, first);
    var r2 := Take(r1, Go(c));
    TakeKeepsInv(r, first);
    TakeKeepsInv(r1, Go(c));
    LaunchedAgain(r2, id);
    TwiceLater(r1, Go(c), id);
    TwiceLater(r, first, id);
  }

  lemma {:induction false} LaunchedAgain(r: Race, id: nat)
    requires Inv(r) && id < |r.books.messages| && Ready(r.books.messages[id]) && |InFlight(r, id)| >= 1
    ensures CanGoTwice(r, id)
  {
    var c := LaunchOnce(r, id);
    var first := Begin(c, Delivering(r.books.messages[id].tenant, id));
    var r1 := Take(r, first);
    TakeKeepsInv(r, first);
    TakeKeepsInv(r1, Go(c));
    LaunchedGoesOut(Take(r1, Go(c)), id);
    TwiceLater(r1, Go(c), id);
    TwiceLater(r, first, id);
  }

  /** In any reachable state, a ROUTINE message can still come to be delivered twice if and only if it has not been
      sent, or two deliveries of it are out or under way. */
  lemma {:induction false} RoutineGoesTwiceIff(r: Race, id: nat)
    requires Inv(r) && id < |r.books.messages| && r.books.messages[id].classification.Routine?
    ensures CanGoTwice(r, id) <==> r.books.messages[id].status == Drafted || Launched(r, id) >= 2
  {
    assert MessageOk(r, id);
    if r.books.messages[id].status == Drafted {
      DraftedGoesTwice(r, id);
    } else if Launched(r, id) >= 2 {
      LaunchedGoesOut(r, id);
    } else {
      forall steps ensures Out(Play(r, steps), id) < 2 { SentLaunchesNever(r, steps, id); }
    }
  }

  // ---------------------------------------------------------------------------------------------
  // Deliveries that do not overlap

  /** A deliver call does not read a message while another one is between its read and its write. */
  predicate Alone(r: Race, step: Step) {
    step.Go? && step.c in r.callers && r.callers[step.c].Delivering? ==> InFlight(r, r.callers[step.c].id) == {}
  }

  predicate Serial(r: Race, steps: seq<Step>)
    decreases |steps|
  {
    steps == [] || (Alone(r, steps[0]) && Serial(Take(r, steps[0]), steps[1..]))
  }

  /** Deliveries out and under way are covered: by one, or by the approvals, of which one is left while the message
      waits. */
  ghost predicate Covered(r: Race, id: nat)
    requires id < |r.books.messages|
  {
    var m, flying := r.books.messages[id], |InFlight(r, id)|;
    if m.classification.Routine? then Launched(r, id) <= 1
    else Launched(r, id) + (if m.status == ApprovedToSend && flying == 0 then 1
        else 0) <= Approvals(r.books.approvals, id)
  }

  ghost predicate AllCovered(r: Race) { forall id :: 0 <= id < |r.books.messages| ==> Covered(r, id) }

  lemma {:induction false} NobodyFlies(r: Race, id: nat)
    requires Inv(r) && id >= |r.books.messages|
    ensures InFlight(r, id) == {} && Out(r, id) == 0
  {
    forall c | c in r.callers ensures r.callers[c] != SawReady(id) { assert CallerOk(r, r.callers[c]); }
    NoDeliveries(r.books.deliveries, id);
  }

  lemma {:induction false} WriteKeepsCover(r: Race, a: Action, k: nat)
    requires Inv(r) && AllCovered(r) && (a.PutTemplate? || a.DraftMessage?) && k < |Take(r, Write(a)).books.messages|
    ensures Covered(Take(r, Write(a)), k)
  {
    assert InFlight(Take(r, Write(a)), k) == InFlight(r, k);
    if k < |r.books.messages| {
      assert Covered(r, k);
    } else {
      NobodyFlies(r, k);
    }
  }

  lemma {:induction false} ReadKeepsCover(r: Race, c: nat, k: nat)
    requires Inv(r) && AllCovered(r) && c in r.callers && r.callers[c].Delivering? && Alone(r, Go(c))
    requires k < |r.books.messages|
    ensures Covered(Advance(r, c), k)
  {
    var r', id := Advance(r, c), r.callers[c].id;
    assert Covered(r, k) && MessageOk(r, k);
    if k == id && r'.callers[c].SawReady? {
      assert InFlight(r', k) == {c};
    } else {
      assert InFlight(r', k) == InFlight(r, k);
    }
  }

  lemma {:induction false} SendKeepsCover(r: Race, c: nat, k: nat)
    requires Inv(r) && AllCovered(r) && c in r.callers && r.callers[c].SawReady? && k < |r.books.messages|
    ensures Covered(Advance(r, c), k)
  {
    assert Covered(r, k) && CallerOk(r, r.callers[c]);
    SendMoves(r, c, r.callers[c].id);
  }

  lemma {:induction false} ApproveKeepsCover(r: Race, c: nat, k: nat)
    requires Inv(r) && AllCovered(r) && c in r.callers && k < |r.books.messages|
    requires r.callers[c].SawApprovable? || r.callers[c].Approving? || r.callers[c].Over?
    ensures Covered(Advance(r, c), k)
  {
    var r' := Advance(r, c);
    assert Covered(r, k) && CallerOk(r, r.callers[c]);
    assert InFlight(r', k) == InFlight(r, k);
    if r.callers[c].SawApprovable? {
      var id, actor := r.callers[c].id, r.callers[c].actor;
      OneMoreApproval(r.books.approvals, Approval(id, actor, r.books.messages[id].hash), k);
    }
  }

  lemma {:induction false} TakeKeepsCover(r: Race, step: Step, k: nat)
    requires Inv(r) && AllCovered(r) && Alone(r, step) && k < |Take(r, step).books.messages|
    ensures Covered(Take(r, step), k)
  {
    match step
    case Write(a) =>
      if a.PutTemplate? || a.DraftMessage? { WriteKeepsCover(r, a, k); } else { assert Covered(r, k); }
    case Begin(_, _) =>
      assert Covered(r, k);
      assert InFlight(Take(r, step), k) == InFlight(r, k);
    case Go(c) =>
      if c !in r.callers {
        assert Covered(r, k);
      } else if r.callers[c].Delivering? {
        ReadKeepsCover(r, c, k);
      } else if r.callers[c].SawReady? {
        SendKeepsCover(r, c, k);
      } else {
        ApproveKeepsCover(r, c, k);
      }
  }

  lemma {:induction false} SerialKeepsCover(r: Race, steps: seq<Step>)
    requires Inv(r) && AllCovered(r) && Serial(r, steps)
    ensures Inv(Play(r, steps)) && AllCovered(Play(r, steps))
    decreases |steps|
  {
    if steps != [] {
      var r' := Take(r, steps[0]);
      TakeKeepsInv(r, steps[0]);
      forall k | 0 <= k < |r'.books.messages| ensures Covered(r', k) { TakeKeepsCover(r, steps[0], k); }
      SerialKeepsCover(r', steps[1..]);
    }
  }

  const QUIET: Race := Race(EMPTY, map[])

  /** If deliver calls of one message do not overlap, then however approvals interleave, a ROUTINE message goes out at
      most once and a PROTECTED one no more often than it was approved. */
  lemma {:induction false} SerialDeliveriesAreDisciplined(steps: seq<Step>, id: nat)
    requires Serial(QUIET, steps) && id < |Play(QUIET, steps).books.messages|
    ensures
      var b := Play(QUIET, steps).books;
      if b.messages[id].classification.Routine? then Deliveries(b.deliveries, id) <= 1
      else Deliveries(b.deliveries, id) <= Approvals(b.approvals, id)
  {
    SerialKeepsCover(QUIET, steps);
    assert Covered(Play(QUIET, steps), id);
  }
}
