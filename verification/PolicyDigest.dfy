/** Canonical JSON: object keys are sorted at every depth, arrays keep their order. */
module PolicyDigest {
  import opened Sorting

  /** An object lists its members in insertion order. */
  datatype Json =
    | Null
    | Bool(b: bool)
    | Num(n: int)
    | Text(s: string)
    | Arr(items: seq<Json>)
    | Obj(members: seq<Member>)

  datatype Member = Member(key: string, value: Json)

  predicate KeyLe(a: Member, b: Member) { TextLe(a.key, b.key) }

  function Canonicalize(v: Json): Json {
    match v
    case Arr(items) => Arr(seq(|items|, i requires 0 <= i < |items| => Canonicalize(items[i])))
    case Obj(ms) => Obj(Sort(CanonicalMembers(ms), KeyLe))
    case _ => v
  }

  function CanonicalMembers(ms: seq<Member>): (r: seq<Member>)
    ensures |r| == |ms|
    ensures forall i :: 0 <= i < |ms| ==> r[i] == Member(ms[i].key, Canonicalize(ms[i].value))
  {
    seq(|ms|, i requires 0 <= i < |ms| => Member(ms[i].key, Canonicalize(ms[i].value)))
  }

  /** Keys of one object are distinct, at every depth. */
  ghost predicate WellFormed(v: Json) {
    match v
    case Arr(items) => forall i :: 0 <= i < |items| ==> WellFormed(items[i])
    case Obj(ms) =>
      && (forall i, j :: 0 <= i < j < |ms| ==> ms[i].key != ms[j].key)
      && (forall i :: 0 <= i < |ms| ==> WellFormed(ms[i].value))
    case _ => true
  }

  /** The values differ at most in the order in which object members are listed, at any depth. */
  ghost predicate SameUpToKeyOrder(v: Json, w: Json) {
    match v
    case Arr(items) =>
      && w.Arr? && |w.items| == |items|
      && forall i :: 0 <= i < |items| ==> SameUpToKeyOrder(items[i], w.items[i])
    case Obj(ms) =>
      && w.Obj? && |w.members| == |ms|
      && forall i :: 0 <= i < |ms| ==> HasPartner(ms[i], w.members)
    case _ => v == w
  }

  ghost predicate HasPartner(m: Member, ns: seq<Member>) {
    exists j :: 0 <= j < |ns| && ns[j].key == m.key && SameUpToKeyOrder(m.value, ns[j].value)
  }

  predicate DistinctKeys(ms: seq<Member>) {
    forall i, j :: 0 <= i < j < |ms| ==> ms[i].key != ms[j].key
  }

  lemma {:induction false} KeysOrder(ms: seq<Member>)
    requires DistinctKeys(ms)
    ensures OrderOn(ms, KeyLe)
  {
    forall x: Member, y: Member { TextTotal(x.key, y.key); }
    forall x: Member, y: Member, z: Member | KeyLe(x, y) && KeyLe(y, z) { TextTransitive(x.key, y.key, z.key); }
  }

  /** Sorted canonical members agree exactly when every member has a partner with its key and canonical value. */
  lemma {:induction false} MembersExact(ms: seq<Member>, ns: seq<Member>)
    requires DistinctKeys(ms) && DistinctKeys(ns)
    ensures
      var a, b := CanonicalMembers(ms), CanonicalMembers(ns);
      Sort(a, KeyLe) == Sort(b, KeyLe) <==> |a| == |b| && forall x :: x in a ==> x in b
  {
    var a, b := CanonicalMembers(ms), CanonicalMembers(ns);
    KeysOrder(a);
    SortForgetsOrder(a, b, KeyLe);
    if Sort(a, KeyLe) == Sort(b, KeyLe) {
      BagMembers(a, b);
    } else if |a| == |b| && forall x :: x in a ==> x in b {
      SameBag(a, b);
    }
  }

  /** Two JSON values have the same canonical form exactly when they differ only in object key order. */
  lemma {:induction false} CanonicalFormIsExact(v: Json, w: Json)
    requires WellFormed(v) && WellFormed(w)
    ensures Canonicalize(v) == Canonicalize(w) <==> SameUpToKeyOrder(v, w)
  {
    if v.Arr? && w.Arr? && |v.items| == |w.items| {
      forall i | 0 <= i < |v.items|
        ensures Canonicalize(v.items[i]) == Canonicalize(w.items[i]) <==> SameUpToKeyOrder(v.items[i], w.items[i])
      {
        CanonicalFormIsExact(v.items[i], w.items[i]);
      }
      ItemsExact(v, w);
    } else if v.Obj? && w.Obj? {
      forall i, j | 0 <= i < |v.members| && 0 <= j < |w.members|
        ensures Canonicalize(v.members[i].value) == Canonicalize(w.members[j].value)
           <==> SameUpToKeyOrder(v.members[i].value, w.members[j].value)
      {
        CanonicalFormIsExact(v.members[i].value, w.members[j].value);
      }
      MembersExact(v.members, w.members);
      PartnersExact(v, w);
      assert Canonicalize(v) == Obj(Sort(CanonicalMembers(v.members), KeyLe));
      assert Canonicalize(w) == Obj(Sort(CanonicalMembers(w.members), KeyLe));
    } else {
      assert v.Arr? ==> Canonicalize(v).Arr? && |Canonicalize(v).items| == |v.items|;
      assert w.Arr? ==> Canonicalize(w).Arr? && |Canonicalize(w).items| == |w.items|;
    }
  }

  lemma {:induction false} ItemsExact(v: Json, w: Json)
    requires v.Arr? && w.Arr? && |v.items| == |w.items|
    ensures Canonicalize(v) == Canonicalize(w) <==>
            forall i :: 0 <= i < |v.items| ==> Canonicalize(v.items[i]) == Canonicalize(w.items[i])
  {
    var a, b := Canonicalize(v).items, Canonicalize(w).items;
    assert forall i :: 0 <= i < |v.items| ==> a[i] == Canonicalize(v.items[i]) && b[i] == Canonicalize(w.items[i]);
    if forall i :: 0 <= i < |v.items| ==> Canonicalize(v.items[i]) == Canonicalize(w.items[i]) {
      assert a == b;
    }
  }

  lemma {:induction false} PartnerExact(m: Member, ns: seq<Member>)
    requires forall j :: 0 <= j < |ns| ==>
      (Canonicalize(m.value) == Canonicalize(ns[j].value) <==> SameUpToKeyOrder(m.value, ns[j].value))
    ensures Member(m.key, Canonicalize(m.value)) in CanonicalMembers(ns) <==> HasPartner(m, ns)
  {
    var b := CanonicalMembers(ns);
    if HasPartner(m, ns) {
      var j :| 0 <= j < |ns| && ns[j].key == m.key && SameUpToKeyOrder(m.value, ns[j].value);
      assert b[j] == Member(m.key, Canonicalize(m.value));
    }
  }

  lemma {:induction false} PartnersExact(v: Json, w: Json)
    requires v.Obj? && w.Obj?
    requires forall i, j :: 0 <= i < |v.members| && 0 <= j < |w.members| ==>
      (Canonicalize(v.members[i].value) == Canonicalize(w.members[j].value)
       <==> SameUpToKeyOrder(v.members[i].value, w.members[j].value))
    ensures
      var a, b := CanonicalMembers(v.members), CanonicalMembers(w.members);
      (|a| == |b| && forall x :: x in a ==> x in b) <==> SameUpToKeyOrder(v, w)
  {
    var a, b := CanonicalMembers(v.members), CanonicalMembers(w.members);
    forall i | 0 <= i < |v.members| ensures a[i] in b <==> HasPartner(v.members[i], w.members) {
      PartnerExact(v.members[i], w.members);
    }
    assert (forall x :: x in a ==> x in b) <==> forall i :: 0 <= i < |a| ==> a[i] in b;
  }

  lemma {:induction false} CanonicalizeIsIdempotent(v: Json)
    requires WellFormed(v)
    ensures Canonicalize(Canonicalize(v)) == Canonicalize(v)
  {
    match v
    case Arr(items) =>
      forall i | 0 <= i < |items| { CanonicalizeIsIdempotent(items[i]); }
    case Obj(ms) =>
      var a := CanonicalMembers(ms);
      KeysOrder(a);
      SortBag(a, KeyLe);
      var b := Sort(a, KeyLe);
      BagMembers(a, b);
      forall i | 0 <= i < |ms| { CanonicalizeIsIdempotent(ms[i].value); }
      forall k | 0 <= k < |b| ensures Canonicalize(b[k].value) == b[k].value {
        assert b[k] in b && b[k] in a;
      }
      assert CanonicalMembers(b) == b;
      SortForgetsOrder(a, b, KeyLe);
    case _ =>
  }
}
