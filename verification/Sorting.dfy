/** Sorting with a caller-supplied order, and the order JavaScript uses for strings. */
module Sorting {

  predicate Sorted<T>(s: seq<T>, le: (T, T) -> bool) {
    forall i, j :: 0 <= i < j < |s| ==> le(s[i], s[j])
  }

  /** `le` is a total order on the elements of `s`. */
  ghost predicate OrderOn<T>(s: seq<T>, le: (T, T) -> bool) {
    && (forall x, y :: x in s && y in s ==> le(x, y) || le(y, x))
    && (forall x, y :: x in s && y in s && le(x, y) && le(y, x) ==> x == y)
    && (forall x, y, z :: x in s && y in s && z in s && le(x, y) && le(y, z) ==> le(x, z))
  }

  function Insert<T>(x: T, s: seq<T>, le: (T, T) -> bool): seq<T> {
    if s == [] then [x]
    else if le(x, s[0]) then [x] + s
    else [s[0]] + Insert(x, s[1..], le)
  }

  function Sort<T>(s: seq<T>, le: (T, T) -> bool): seq<T> {
    if s == [] then [] else Insert(s[0], Sort(s[1..], le), le)
  }

  lemma {:induction false} InsertBag<T>(x: T, s: seq<T>, le: (T, T) -> bool)
    ensures multiset(Insert(x, s, le)) == multiset(s) + multiset{x}
  {
    if s == [] {
    } else {
      assert s == [s[0]] + s[1..];
      if !le(x, s[0]) { InsertBag(x, s[1..], le); }
    }
  }

  lemma {:induction false} SortBag<T>(s: seq<T>, le: (T, T) -> bool)
    ensures multiset(Sort(s, le)) == multiset(s)
  {
    if s == [] {
    } else {
      assert s == [s[0]] + s[1..];
      SortBag(s[1..], le);
      InsertBag(s[0], Sort(s[1..], le), le);
    }
  }

  lemma {:induction false} BagMembers<T>(a: seq<T>, b: seq<T>)
    requires multiset(a) == multiset(b)
    ensures |a| == |b| && forall x :: x in a <==> x in b
  {
    assert |multiset(a)| == |a| && |multiset(b)| == |b|;
    forall x ensures x in a <==> x in b {
      assert x in a <==> x in multiset(a);
      assert x in b <==> x in multiset(b);
    }
  }

  lemma {:induction false} OrderOnFewer<T>(s: seq<T>, t: seq<T>, le: (T, T) -> bool)
    requires OrderOn(s, le) && forall x :: x in t ==> x in s
    ensures OrderOn(t, le)
  {
  }

  lemma {:induction false} InsertSorts<T>(x: T, s: seq<T>, le: (T, T) -> bool)
    requires OrderOn([x] + s, le) && Sorted(s, le)
    ensures Sorted(Insert(x, s, le), le)
  {
    if s == [] {
    } else if le(x, s[0]) {
      forall i | 0 <= i < |s| ensures le(x, s[i]) {
        assert x in [x] + s && s[0] in [x] + s && s[i] in [x] + s;
      }
    } else {
      var rest := Insert(x, s[1..], le);
      OrderOnFewer([x] + s, [x] + s[1..], le);
      InsertSorts(x, s[1..], le);
      InsertBag(x, s[1..], le);
      forall i | 0 <= i < |rest| ensures le(s[0], rest[i]) {
        assert rest[i] in multiset(rest);
        assert x in [x] + s && s[0] in [x] + s;
        assert rest[i] == x || rest[i] in s[1..];
      }
    }
  }

  lemma {:induction false} SortSorts<T>(s: seq<T>, le: (T, T) -> bool)
    requires OrderOn(s, le)
    ensures Sorted(Sort(s, le), le)
  {
    if s != [] {
      OrderOnFewer(s, s[1..], le);
      SortSorts(s[1..], le);
      SortBag(s[1..], le);
      var rest := Sort(s[1..], le);
      BagMembers(rest, s[1..]);
      forall x | x in [s[0]] + rest ensures x in s {
        if x in rest { assert x in multiset(rest) && x in multiset(s[1..]); }
      }
      OrderOnFewer(s, [s[0]] + rest, le);
      InsertSorts(s[0], Sort(s[1..], le), le);
    }
  }

  lemma {:induction false} SameLeast<T>(a: seq<T>, b: seq<T>, le: (T, T) -> bool)
    requires OrderOn(a, le) && Sorted(a, le) && Sorted(b, le) && |a| == |b| > 0
    requires forall x :: x in a <==> x in b
    ensures a[0] == b[0]
  {
    assert a[0] in b && b[0] in a;
    var i :| 0 <= i < |a| && a[i] == b[0];
    var j :| 0 <= j < |b| && b[j] == a[0];
    assert le(a[0], a[0]) && le(b[0], b[0]);
  }

  /** A bag has only one sorted listing. */
  lemma {:induction false} SortedUnique<T>(a: seq<T>, b: seq<T>, le: (T, T) -> bool)
    requires OrderOn(a, le) && Sorted(a, le) && Sorted(b, le) && multiset(a) == multiset(b)
    ensures a == b
  {
    BagMembers(a, b);
    if a != [] {
      SameLeast(a, b, le);
      assert a == [a[0]] + a[1..] && b == [b[0]] + b[1..];
      assert multiset(a[1..]) == multiset(a) - multiset{a[0]};
      assert multiset(b[1..]) == multiset(b) - multiset{b[0]};
      OrderOnFewer(a, a[1..], le);
      SortedUnique(a[1..], b[1..], le);
    }
  }

  /** Sorting forgets the order of its input and nothing else. */
  lemma {:induction false} SortForgetsOrder<T>(a: seq<T>, b: seq<T>, le: (T, T) -> bool)
    requires OrderOn(a, le)
    ensures multiset(a) == multiset(b) <==> Sort(a, le) == Sort(b, le)
  {
    SortBag(a, le);
    SortBag(b, le);
    if multiset(a) == multiset(b) {
      SortIsOrdered(a, a, le);
      BagMembers(a, b);
      SortIsOrdered(a, b, le);
      SortedUnique(Sort(a, le), Sort(b, le), le);
    }
  }

  lemma {:induction false} SortIsOrdered<T>(s: seq<T>, t: seq<T>, le: (T, T) -> bool)
    requires OrderOn(s, le) && forall x :: x in t ==> x in s
    ensures Sorted(Sort(t, le), le) && OrderOn(Sort(t, le), le)
  {
    OrderOnFewer(s, t, le);
    SortSorts(t, le);
    SortBag(t, le);
    BagMembers(Sort(t, le), t);
    forall x | x in Sort(t, le) ensures x in t {
      assert x in multiset(Sort(t, le));
    }
    OrderOnFewer(t, Sort(t, le), le);
  }

  // ---------------------------------------------------------------------------------------------
  // Listings without repetition

  predicate Distinct<T(==)>(s: seq<T>) {
    forall i, j :: 0 <= i < j < |s| ==> s[i] != s[j]
  }

  lemma {:induction false} DistinctJoin<T>(a: seq<T>, b: seq<T>)
    requires Distinct(a) && Distinct(b) && forall x :: x in a ==> x !in b
    ensures Distinct(a + b)
  {
    var s := a + b;
    forall i, j | 0 <= i < j < |s| ensures s[i] != s[j] {
      if i < |a| <= j { assert s[i] in a && s[j] in b; }
    }
  }

  function Without<T>(s: seq<T>, j: nat): seq<T>
    requires j < |s|
  {
    s[..j] + s[j + 1..]
  }

  lemma {:induction false} WithoutBag<T>(s: seq<T>, j: nat)
    requires j < |s|
    ensures multiset(s) == multiset(Without(s, j)) + multiset{s[j]}
  {
    assert s == s[..j] + [s[j]] + s[j + 1..];
  }

  lemma {:induction false} WithoutMember<T>(s: seq<T>, j: nat, x: T)
    requires j < |s| && x in s && x != s[j]
    ensures x in Without(s, j)
  {
    var k :| 0 <= k < |s| && s[k] == x;
    assert x == Without(s, j)[if k < j then k else k - 1];
  }

  /** Two equally long listings without repetition are the same bag as soon as one is covered by the other. */
  lemma {:induction false} SameBag<T>(a: seq<T>, b: seq<T>)
    requires Distinct(a) && Distinct(b) && |a| == |b| && forall x :: x in a ==> x in b
    ensures multiset(a) == multiset(b)
  {
    if a != [] {
      assert a[0] in a;
      var j :| 0 <= j < |b| && b[j] == a[0];
      var rest := Without(b, j);
      forall x | x in a[1..] ensures x in rest {
        assert x in a && x != a[0];
        WithoutMember(b, j, x);
      }
      assert Distinct(a[1..]) && Distinct(rest);
      SameBag(a[1..], rest);
      WithoutBag(b, j);
      WithoutBag(a, 0);
      assert Without(a, 0) == a[1..];
    }
  }

  lemma {:induction false} TwiceInBag<T>(s: seq<T>, i: nat, j: nat)
    requires i < j < |s| && s[i] == s[j]
    ensures multiset(s)[s[i]] >= 2
  {
    WithoutBag(s, i);
    WithoutBag(Without(s, i), j - 1);
  }

  lemma {:induction false} OnceInBag<T>(s: seq<T>, x: T)
    requires Distinct(s)
    ensures multiset(s)[x] <= 1
  {
    if x in s {
      var i :| 0 <= i < |s| && s[i] == x;
      WithoutBag(s, i);
      assert x !in Without(s, i);
    }
  }

  ghost function Members<T>(s: seq<T>): set<T> { set x | x in s }

  lemma {:induction false} DistinctFits<T>(a: seq<T>, b: seq<T>)
    requires Distinct(a) && forall x :: x in a ==> x in b
    ensures |a| <= |b|
  {
    if a != [] {
      assert a[0] in a;
      var j :| 0 <= j < |b| && b[j] == a[0];
      forall x | x in a[1..] ensures x in Without(b, j) {
        assert x in a && x != a[0];
        WithoutMember(b, j, x);
      }
      DistinctFits(a[1..], Without(b, j));
    }
  }

  /** Listings without repetition are the same bag exactly when they have the same members. */
  lemma {:induction false} DistinctBags<T>(a: seq<T>, b: seq<T>)
    requires Distinct(a) && Distinct(b)
    ensures multiset(a) == multiset(b) <==> Members(a) == Members(b)
  {
    if multiset(a) == multiset(b) {
      BagMembers(a, b);
    }
    if Members(a) == Members(b) {
      forall x | x in a ensures x in b { assert x in Members(a); }
      forall x | x in b ensures x in a { assert x in Members(b); }
      DistinctFits(a, b);
      DistinctFits(b, a);
      SameBag(a, b);
    }
  }

  function Mapped<A, B>(f: A -> B, s: seq<A>): seq<B> { seq(|s|, i requires 0 <= i < |s| => f(s[i])) }

  lemma {:induction false} MappedWithout<A, B>(f: A -> B, s: seq<A>, j: nat)
    requires j < |s|
    ensures multiset(Mapped(f, s)) == multiset(Mapped(f, Without(s, j))) + multiset{f(s[j])}
  {
    WithoutBag(Mapped(f, s), j);
    assert Without(Mapped(f, s), j) == Mapped(f, Without(s, j));
  }

  /** A function takes equal bags to equal bags. */
  lemma {:induction false} MappedBags<A, B>(f: A -> B, a: seq<A>, b: seq<A>)
    requires multiset(a) == multiset(b)
    ensures multiset(Mapped(f, a)) == multiset(Mapped(f, b))
    decreases |a|
  {
    BagMembers(a, b);
    if a != [] {
      assert a[0] in b;
      var j :| 0 <= j < |b| && b[j] == a[0];
      WithoutBag(a, 0);
      WithoutBag(b, j);
      assert multiset(Without(a, 0)) == multiset(a) - multiset{a[0]};
      assert multiset(Without(b, j)) == multiset(b) - multiset{a[0]};
      MappedBags(f, Without(a, 0), Without(b, j));
      MappedWithout(f, a, 0);
      MappedWithout(f, b, j);
    }
  }

  // ---------------------------------------------------------------------------------------------
  // Strings

  /** Lexicographic order by code unit. */
  predicate TextLe(a: string, b: string) {
    a == [] || (b != [] && (a[0] < b[0] || (a[0] == b[0] && TextLe(a[1..], b[1..]))))
  }

  lemma {:induction false} TextTotal(a: string, b: string)
    ensures TextLe(a, b) || TextLe(b, a)
    ensures TextLe(a, b) && TextLe(b, a) ==> a == b
  {
    if a != [] && b != [] {
      TextTotal(a[1..], b[1..]);
      assert a == [a[0]] + a[1..] && b == [b[0]] + b[1..];
    }
  }

  lemma {:induction false} TextTransitive(a: string, b: string, c: string)
    requires TextLe(a, b) && TextLe(b, c)
    ensures TextLe(a, c)
  {
    if a != [] && a[0] == b[0] == c[0] { TextTransitive(a[1..], b[1..], c[1..]); }
  }

  lemma {:induction false} TextOrder(s: seq<string>)
    ensures OrderOn(s, TextLe)
  {
    forall x, y { TextTotal(x, y); }
    forall x, y, z | TextLe(x, y) && TextLe(y, z) { TextTransitive(x, y, z); }
  }
}
