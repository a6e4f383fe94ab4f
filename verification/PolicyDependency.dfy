/** The dependency digest of a resolution. The hash is taken to be injective on canonical forms, so a digest is its
    canonical form. */
module PolicyDependency {
  import opened Sorting
  import opened PolicyDigest
  import opened PolicyCatalog

  type Digest = Json

  predicate IdLe(a: VersionRef, b: VersionRef) { a.id <= b.id }

  function RefJson(v: VersionRef): Json {
    Obj([Member("policyVersionId", Num(v.id)), Member("ruleId", Text(v.ruleId)), Member("version", Text(v.tag)),
         Member("rule", v.rule), Member("effectiveFrom", Num(v.effectiveFrom)),
         Member("effectiveTo", if v.effectiveTo.Some? then Num(v.effectiveTo.value) else Null)])
  }

  /** The versions as they are stored and hashed: by ascending id. */
  function SnapshotVersions(versions: seq<VersionRef>): seq<VersionRef> { Sort(versions, IdLe) }

  function Texts(ts: seq<string>): Json { Arr(seq(|ts|, i requires 0 <= i < |ts| => Text(ts[i]))) }

  function Refs(vs: seq<VersionRef>): Json { Arr(seq(|vs|, i requires 0 <= i < |vs| => RefJson(vs[i]))) }

  function Dependency(resolved: bool, reasons: seq<string>, versions: seq<VersionRef>): Json {
    Obj([Member("status", Text(if resolved then "RESOLVED" else "REVIEW_REQUIRED")),
         Member("unresolvedReasons", Texts(Sort(reasons, TextLe))),
         Member("versions", Refs(SnapshotVersions(versions)))])
  }

  function ComputeDigest(resolved: bool, reasons: seq<string>, versions: seq<VersionRef>): Digest {
    Canonicalize(Dependency(resolved, reasons, versions))
  }

  // ---------------------------------------------------------------------------------------------

  ghost predicate RulesWellFormed(vs: seq<VersionRef>) { forall i :: 0 <= i < |vs| ==> WellFormed(vs[i].rule) }

  function CanonicalRef(v: VersionRef): VersionRef { v.(rule := Canonicalize(v.rule)) }

  ghost function CanonicalRefs(vs: seq<VersionRef>): set<VersionRef> { set v | v in vs :: CanonicalRef(v) }

  /** Objects with the same keys in the same order are compared member by member. */
  lemma {:induction false} SameKeys(ms: seq<Member>, ns: seq<Member>)
    requires |ms| == |ns| && DistinctKeys(ms) && forall i :: 0 <= i < |ms| ==> ms[i].key == ns[i].key
    ensures SameUpToKeyOrder(Obj(ms), Obj(ns)) <==> forall i :: 0 <= i < |ms| ==>
      SameUpToKeyOrder(ms[i].value, ns[i].value)
  {
    forall i | 0 <= i < |ms| ensures HasPartner(ms[i], ns) <==> SameUpToKeyOrder(ms[i].value, ns[i].value) {
      if HasPartner(ms[i], ns) {
        var j :| 0 <= j < |ns| && ns[j].key == ms[i].key && SameUpToKeyOrder(ms[i].value, ns[j].value);
        assert j == i;
      }
    }
  }

  lemma {:induction false} RefKeys(v: VersionRef)
    ensures DistinctKeys(RefJson(v).members)
  {
    var ms := RefJson(v).members;
    assert |ms[0].key| == 15 && |ms[1].key| == 6 && |ms[2].key| == 7 && |ms[3].key| == 4 && |ms[4].key| == 13
        && |ms[5].key| == 11;
  }

  lemma {:induction false} RefWellFormed(v: VersionRef)
    requires WellFormed(v.rule)
    ensures WellFormed(RefJson(v))
  {
    RefKeys(v);
    var ms := RefJson(v).members;
    assert forall i :: 0 <= i < |ms| ==> WellFormed(ms[i].value);
  }

  lemma {:induction false} SixMembers(ms: seq<Member>, ns: seq<Member>)
    requires |ms| == |ns| == 6
    ensures (forall i :: 0 <= i < 6 ==> SameUpToKeyOrder(ms[i].value, ns[i].value)) <==>
      (&& SameUpToKeyOrder(ms[0].value, ns[0].value) && SameUpToKeyOrder(ms[1].value, ns[1].value)
       && SameUpToKeyOrder(ms[2].value, ns[2].value) && SameUpToKeyOrder(ms[3].value, ns[3].value)
       && SameUpToKeyOrder(ms[4].value, ns[4].value) && SameUpToKeyOrder(ms[5].value, ns[5].value))
  {
  }

  lemma {:induction false} LeafExact(a: Json, b: Json)
    requires a.Num? || a.Text? || a.Null?
    ensures SameUpToKeyOrder(a, b) <==> a == b
  {
  }

  lemma {:induction false} RefExact(v: VersionRef, w: VersionRef)
    requires WellFormed(v.rule) && WellFormed(w.rule)
    ensures SameUpToKeyOrder(RefJson(v), RefJson(w)) <==> CanonicalRef(v) == CanonicalRef(w)
  {
    var ms, ns := RefJson(v).members, RefJson(w).members;
    RefKeys(v);
    SameKeys(ms, ns);
    CanonicalFormIsExact(v.rule, w.rule);
    SixMembers(ms, ns);
    LeafExact(ms[0].value, ns[0].value);
    LeafExact(ms[1].value, ns[1].value);
    LeafExact(ms[2].value, ns[2].value);
    LeafExact(ms[4].value, ns[4].value);
    LeafExact(ms[5].value, ns[5].value);
  }

  lemma {:induction false} RefsExact(vs: seq<VersionRef>, ws: seq<VersionRef>)
    requires RulesWellFormed(vs) && RulesWellFormed(ws)
    ensures SameUpToKeyOrder(Refs(vs), Refs(ws)) <==>
      |vs| == |ws| && forall i :: 0 <= i < |vs| ==> CanonicalRef(vs[i]) == CanonicalRef(ws[i])
  {
    if |vs| == |ws| {
      forall i | 0 <= i < |vs|
        ensures SameUpToKeyOrder(RefJson(vs[i]), RefJson(ws[i])) <==> CanonicalRef(vs[i]) == CanonicalRef(ws[i])
      {
        RefExact(vs[i], ws[i]);
      }
      assert forall i :: 0 <= i < |vs| ==> Refs(vs).items[i] == RefJson(vs[i]) && Refs(ws).items[i] == RefJson(ws[i]);
    }
  }

  function Canonicals(vs: seq<VersionRef>): (r: seq<VersionRef>)
    ensures |r| == |vs| && forall i :: 0 <= i < |vs| ==> r[i] == CanonicalRef(vs[i])
  {
    seq(|vs|, i requires 0 <= i < |vs| => CanonicalRef(vs[i]))
  }

  lemma {:induction false} IdsOrder(vs: seq<VersionRef>)
    requires DistinctIds(vs)
    ensures OrderOn(vs, IdLe) && Distinct(vs)
  {
  }

  /** Storing by id keeps the versions and their distinctness. */
  lemma {:induction false} SnapshotKeeps(vs: seq<VersionRef>)
    requires DistinctIds(vs)
    ensures
      var s := SnapshotVersions(vs);
      Sorted(s, IdLe) && DistinctIds(s) && multiset(s) == multiset(vs) && forall v :: v in s <==> v in vs
  {
    IdsOrder(vs);
    SortIsOrdered(vs, vs, IdLe);
    SortBag(vs, IdLe);
    var s := SnapshotVersions(vs);
    BagMembers(s, vs);
    forall i, j | 0 <= i < j < |s| ensures s[i].id != s[j].id {
      DistinctBagIsDistinct(s, vs);
      assert s[i] in vs && s[j] in vs;
    }
  }

  lemma {:induction false} DistinctBagIsDistinct(a: seq<VersionRef>, b: seq<VersionRef>)
    requires multiset(a) == multiset(b) && Distinct(b)
    ensures Distinct(a)
  {
    forall i, j | 0 <= i < j < |a| ensures a[i] != a[j] {
      if a[i] == a[j] {
        TwiceInBag(a, i, j);
        OnceInBag(b, a[i]);
      }
    }
  }

  lemma {:induction false} CanonicalMembersOf(vs: seq<VersionRef>, s: seq<VersionRef>)
    requires forall v :: v in s <==> v in vs
    ensures Members(Canonicals(s)) == CanonicalRefs(vs)
  {
    var c := Canonicals(s);
    forall x | x in Members(c) ensures x in CanonicalRefs(vs) {
      var i :| 0 <= i < |c| && c[i] == x;
      assert s[i] in vs;
    }
    forall x | x in CanonicalRefs(vs) ensures x in Members(c) {
      var v :| v in vs && x == CanonicalRef(v);
      assert v in s;
      var i :| 0 <= i < |s| && s[i] == v;
      assert c[i] == x;
    }
  }

  /** Stored by id, two listings agree position by position exactly when they hold the same versions. */
  lemma {:induction false} StoredExact(vs: seq<VersionRef>, ws: seq<VersionRef>)
    requires DistinctIds(vs) && DistinctIds(ws)
    ensures Canonicals(SnapshotVersions(vs)) == Canonicals(SnapshotVersions(ws)) <==>
        CanonicalRefs(vs) == CanonicalRefs(ws)
  {
    SnapshotKeeps(vs);
    SnapshotKeeps(ws);
    var a, b := Canonicals(SnapshotVersions(vs)), Canonicals(SnapshotVersions(ws));
    CanonicalMembersOf(vs, SnapshotVersions(vs));
    CanonicalMembersOf(ws, SnapshotVersions(ws));
    if Members(a) == Members(b) {
      assert DistinctIds(a) && DistinctIds(b);
      IdsOrder(a);
      IdsOrder(b);
      DistinctBags(a, b);
      SortedUnique(a, b, IdLe);
    }
  }

  lemma {:induction false} TextsExact(xs: seq<string>, ys: seq<string>)
    ensures SameUpToKeyOrder(Texts(xs), Texts(ys)) <==> xs == ys
    ensures WellFormed(Texts(xs))
  {
    if |xs| == |ys| {
      assert forall i :: 0 <= i < |xs| ==> Texts(xs).items[i] == Text(xs[i]) && Texts(ys).items[i] == Text(ys[i]);
      if SameUpToKeyOrder(Texts(xs), Texts(ys)) {
        forall i | 0 <= i < |xs| ensures xs[i] == ys[i] {
          assert SameUpToKeyOrder(Texts(xs).items[i], Texts(ys).items[i]);
          LeafExact(Text(xs[i]), Text(ys[i]));
        }
      }
    }
  }

  lemma {:induction false} DependencyWellFormed(resolved: bool, reasons: seq<string>, versions: seq<VersionRef>)
    requires DistinctIds(versions) && RulesWellFormed(versions)
    ensures RulesWellFormed(SnapshotVersions(versions)) && WellFormed(Dependency(resolved, reasons, versions))
    ensures DistinctKeys(Dependency(resolved, reasons, versions).members)
  {
    SnapshotKeeps(versions);
    var s := SnapshotVersions(versions);
    forall i | 0 <= i < |s| ensures WellFormed(s[i].rule) { assert s[i] in versions; }
    forall i | 0 <= i < |s| ensures WellFormed(Refs(s).items[i]) { RefWellFormed(s[i]); }
    TextsExact(Sort(reasons, TextLe), []);
    var ms := Dependency(resolved, reasons, versions).members;
    assert |ms[0].key| == 6 && |ms[1].key| == 17 && |ms[2].key| == 8;
    assert WellFormed(ms[0].value) && WellFormed(ms[1].value) && WellFormed(ms[2].value);
  }

  lemma {:induction false} DependencySame(
      resolved: bool, reasons: seq<string>, versions: seq<VersionRef>, resolved': bool, reasons': seq<string>,
          versions': seq<VersionRef>)
    requires DistinctIds(versions) && RulesWellFormed(versions)
    ensures SameUpToKeyOrder(Dependency(resolved, reasons, versions), Dependency(resolved', reasons', versions')) <==>
      && resolved == resolved'
      && SameUpToKeyOrder(Texts(Sort(reasons, TextLe)), Texts(Sort(reasons', TextLe)))
      && SameUpToKeyOrder(Refs(SnapshotVersions(versions)), Refs(SnapshotVersions(versions')))
  {
    DependencyWellFormed(resolved, reasons, versions);
    var ms, ns := Dependency(resolved, reasons, versions).members, Dependency(resolved', reasons', versions').members;
    SameKeys(ms, ns);
    LeafExact(ms[0].value, ns[0].value);
    assert |"RESOLVED"| != |"REVIEW_REQUIRED"|;
    assert (forall i :: 0 <= i < 3 ==> SameUpToKeyOrder(ms[i].value, ns[i].value)) <==>
      SameUpToKeyOrder(ms[0].value, ns[0].value) && SameUpToKeyOrder(ms[1].value, ns[1].value)
          && SameUpToKeyOrder(ms[2].value, ns[2].value);
  }

  /** The digest depends on exactly three things: the status, the bag of reasons, and the set of resolved versions
      (rule documents compared up to key order). The order in which the resolver produced them is forgotten. */
  lemma {:induction false} DigestIsExact(
      resolved: bool, reasons: seq<string>, versions: seq<VersionRef>, resolved': bool, reasons': seq<string>,
          versions': seq<VersionRef>)
    requires DistinctIds(versions) && RulesWellFormed(versions) && DistinctIds(versions') && RulesWellFormed(versions')
    ensures ComputeDigest(resolved, reasons, versions) == ComputeDigest(resolved', reasons', versions') <==>
      resolved == resolved' && multiset(reasons) == multiset(reasons')
          && CanonicalRefs(versions) == CanonicalRefs(versions')
  {
    DependencyWellFormed(resolved, reasons, versions);
    DependencyWellFormed(resolved', reasons', versions');
    CanonicalFormIsExact(Dependency(resolved, reasons, versions), Dependency(resolved', reasons', versions'));
    DependencySame(resolved, reasons, versions, resolved', reasons', versions');
    TextsExact(Sort(reasons, TextLe), Sort(reasons', TextLe));
    TextOrder(reasons);
    SortForgetsOrder(reasons, reasons', TextLe);
    var a, b := SnapshotVersions(versions), SnapshotVersions(versions');
    RefsExact(a, b);
    assert (|a| == |b| && forall i :: 0 <= i < |a| ==> CanonicalRef(a[i]) == CanonicalRef(b[i])) <==>
        Canonicals(a) == Canonicals(b);
    StoredExact(versions, versions');
  }
}
