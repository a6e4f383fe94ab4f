/** Newest-first listings read page by page through a cursor. */
module Keyset {
  import opened Basics
  import opened Sorting

  /** A stored row. The database keeps `createdAt` in microseconds. */
  datatype Row<T(!new)> = Row(createdAt: int, id: string, data: T)

  /** What a cursor compares against. */
  datatype Position = Position(createdAt: int, id: string)

  /** A timestamp read into the program keeps only whole milliseconds. */
  function WholeMillis(micros: int): int { micros - micros % 1000 }

  function Seen<T(!new)>(r: Row<T>): Position { Position(WholeMillis(r.createdAt), r.id) }

  predicate Older<T(!new)>(r: Row<T>, p: Position) {
    r.createdAt < p.createdAt || (r.createdAt == p.createdAt && r.id != p.id && TextLe(r.id, p.id))
  }

  /** `a` is listed before `b`. */
  predicate NewerFirst<T(!new)>(a: Row<T>, b: Row<T>) {
    b.createdAt < a.createdAt || (b.createdAt == a.createdAt && TextLe(b.id, a.id))
  }

  /** The primary key. */
  predicate Keyed<T(!new)>(table: seq<Row<T>>) {
    forall i, j :: 0 <= i < j < |table| ==> table[i].id != table[j].id
  }

  function Where<T(!new)>(s: seq<Row<T>>, p: Row<T> -> bool): seq<Row<T>> {
    if s == [] then [] else (if p(s[0]) then [s[0]] else []) + Where(s[1..], p)
  }

  /** The matching rows, newest first. */
  function Listing<T(!new)>(table: seq<Row<T>>, p: Row<T> -> bool): seq<Row<T>> {
    Sort(Where(table, p), NewerFirst)
  }

  function Past<T(!new)>(p: Row<T> -> bool, cursor: Option<Position>): Row<T> -> bool {
    r => p(r) && (cursor.Some? ==> Older(r, cursor.value))
  }

  /** One keyset query. */
  function Fetch<T(!new)>(table: seq<Row<T>>, p: Row<T> -> bool, cursor: Option<Position>, take: nat): seq<Row<T>> {
    var all := Listing(table, Past(p, cursor));
    all[..Min(take, |all|)]
  }

  predicate Descending<T(!new)>(s: seq<Row<T>>) {
    && Keyed(s)
    && forall i, j :: 0 <= i < j < |s| ==> NewerFirst(s[i], s[j])
  }

  // ---------------------------------------------------------------------------------------------
  // Filtering and sorting

  lemma {:induction false} WhereMembers<T(!new)>(s: seq<Row<T>>, p: Row<T> -> bool)
    ensures forall r :: r in Where(s, p) <==> r in s && p(r)
  {
    if s != [] { WhereMembers(s[1..], p); }
  }

  lemma {:induction false} WhereKeyed<T(!new)>(s: seq<Row<T>>, p: Row<T> -> bool)
    requires Keyed(s)
    ensures Keyed(Where(s, p))
  {
    if s != [] {
      WhereKeyed(s[1..], p);
      WhereMembers(s[1..], p);
      var rest := Where(s[1..], p);
      forall j | 0 <= j < |rest| ensures rest[j].id != s[0].id {
        assert rest[j] in rest && rest[j] in s[1..];
      }
    }
  }

  lemma {:induction false} SameIdSameRow<T(!new)>(table: seq<Row<T>>, a: Row<T>, b: Row<T>)
    requires Keyed(table) && a in table && b in table && a.id == b.id
    ensures a == b
  {
  }

  lemma {:induction false} NewerFirstIsOrder<T(!new)>(s: seq<Row<T>>)
    requires Keyed(s)
    ensures OrderOn(s, NewerFirst)
  {
    forall x, y | x in s && y in s
      ensures NewerFirst(x, y) || NewerFirst(y, x)
      ensures NewerFirst(x, y) && NewerFirst(y, x) ==> x == y
    {
      TextTotal(x.id, y.id);
    }
    forall x: Row<T>, y: Row<T>, z: Row<T> | NewerFirst(x, y) && NewerFirst(y, z) ensures NewerFirst(x, z) {
      if x.createdAt == y.createdAt == z.createdAt { TextTransitive(z.id, y.id, x.id); }
    }
  }

  lemma {:induction false} KeyedIsDistinct<T(!new)>(s: seq<Row<T>>)
    requires Keyed(s)
    ensures Distinct(s)
  {
  }

  lemma {:induction false} BagKeepsKeys<T(!new)>(a: seq<Row<T>>, b: seq<Row<T>>)
    requires Keyed(a) && multiset(a) == multiset(b)
    ensures Keyed(b)
  {
    forall i, j | 0 <= i < j < |b| ensures b[i].id != b[j].id {
      if b[i].id == b[j].id {
        BagMembers(a, b);
        assert b[i] in b && b[j] in b;
        SameIdSameRow(a, b[i], b[j]);
        KeyedIsDistinct(a);
        TwiceInBag(b, i, j);
        OnceInBag(a, b[i]);
      }
    }
  }

  /** A listing is the matching rows in strictly descending order. */
  lemma {:induction false} ListingIsExact<T(!new)>(table: seq<Row<T>>, p: Row<T> -> bool)
    requires Keyed(table)
    ensures Descending(Listing(table, p))
    ensures forall r :: r in Listing(table, p) <==> r in table && p(r)
    ensures |Listing(table, p)| == |Where(table, p)|
  {
    var rows := Where(table, p);
    WhereKeyed(table, p);
    WhereMembers(table, p);
    NewerFirstIsOrder(rows);
    SortSorts(rows, NewerFirst);
    SortBag(rows, NewerFirst);
    BagKeepsKeys(rows, Listing(table, p));
    BagMembers(rows, Listing(table, p));
  }

  ghost predicate SameRows<T(!new)>(a: seq<Row<T>>, b: seq<Row<T>>) {
    (forall r :: r in a ==> r in b) && (forall r :: r in b ==> r in a)
  }

  /** Two strictly descending listings of the same rows are equal. */
  lemma {:induction false} DescendingUnique<T(!new)>(a: seq<Row<T>>, b: seq<Row<T>>)
    requires Descending(a) && Descending(b) && SameRows(a, b)
    ensures a == b
  {
    KeyedIsDistinct(a);
    KeyedIsDistinct(b);
    assert Members(a) == Members(b);
    DistinctBags(a, b);
    NewerFirstIsOrder(a);
    SortedUnique(a, b, NewerFirst);
  }

  // ---------------------------------------------------------------------------------------------
  // Where a cursor cuts a listing

  /** How many rows stand before the first one older than the cursor. */
  function Cut<T(!new)>(list: seq<Row<T>>, p: Position): (c: nat)
    ensures c <= |list|
    ensures forall i :: 0 <= i < c ==> !Older(list[i], p)
    ensures c < |list| ==> Older(list[c], p)
  {
    if list == [] || Older(list[0], p) then 0 else 1 + Cut(list[1..], p)
  }

  lemma {:induction false} OlderThanOlder<T(!new)>(a: Row<T>, b: Row<T>, p: Position)
    requires NewerFirst(a, b) && a.id != b.id && Older(a, p)
    ensures Older(b, p)
  {
    if b.createdAt == a.createdAt == p.createdAt {
      TextTransitive(b.id, a.id, p.id);
      if b.id == p.id { TextTotal(a.id, b.id); }
    }
  }

  lemma {:induction false} AllOlderAfterCut<T(!new)>(list: seq<Row<T>>, p: Position, i: nat)
    requires Descending(list) && i < |list|
    ensures Older(list[i], p) <==> Cut(list, p) <= i
  {
    var c := Cut(list, p);
    if c < i { OlderThanOlder(list[c], list[i], p); }
  }

  function CutAt<T(!new)>(list: seq<Row<T>>, cursor: Option<Position>): (c: nat)
    ensures c <= |list|
  {
    if cursor.Some? then Cut(list, cursor.value) else 0
  }

  lemma {:induction false} PastMembers<T(!new)>(table: seq<Row<T>>, p: Row<T> -> bool, cursor: Option<Position>)
    requires Keyed(table)
    ensures
      var list := Listing(table, p);
      SameRows(Listing(table, Past(p, cursor)), list[CutAt(list, cursor)..])
  {
    var list, c := Listing(table, p), CutAt(Listing(table, p), cursor);
    ListingIsExact(table, p);
    ListingIsExact(table, Past(p, cursor));
    forall r ensures r in Listing(table, Past(p, cursor)) <==> r in list[c..] {
      if r in list { BehindCursor(list, cursor, r); }
    }
  }

  lemma {:induction false} BehindCursor<T(!new)>(list: seq<Row<T>>, cursor: Option<Position>, r: Row<T>)
    requires Descending(list) && r in list
    ensures r in list[CutAt(list, cursor)..] <==> (cursor.Some? ==> Older(r, cursor.value))
  {
    var c := CutAt(list, cursor);
    var i :| 0 <= i < |list| && list[i] == r;
    if cursor.Some? { AllOlderAfterCut(list, cursor.value, i); }
    if c <= i { assert list[c..][i - c] == r; } else { SuffixMisses(list, c, i); }
  }

  lemma {:induction false} SuffixMisses<T(!new)>(list: seq<Row<T>>, c: nat, i: nat)
    requires Keyed(list) && i < c <= |list|
    ensures list[i] !in list[c..]
  {
  }

  lemma {:induction false} PastIsSuffix<T(!new)>(table: seq<Row<T>>, p: Row<T> -> bool, cursor: Option<Position>)
    requires Keyed(table)
    ensures
      var list := Listing(table, p);
      Listing(table, Past(p, cursor)) == list[CutAt(list, cursor)..]
  {
    var list, c := Listing(table, p), CutAt(Listing(table, p), cursor);
    ListingIsExact(table, p);
    ListingIsExact(table, Past(p, cursor));
    PastMembers(table, p, cursor);
    assert Descending(list[c..]);
    DescendingUnique(Listing(table, Past(p, cursor)), list[c..]);
  }

  /** A keyset query returns the stretch of the listing that starts where its cursor cuts. */
  lemma {:induction false} FetchIsSlice<T(!new)>(
    table: seq<Row<T>>, p: Row<T> -> bool, cursor: Option<Position>, take: nat)
    requires Keyed(table)
    ensures
      var list := Listing(table, p);
      var c := CutAt(list, cursor);
      Fetch(table, p, cursor, take) == list[c..Min(c + take, |list|)]
  {
    PastIsSuffix(table, p, cursor);
  }

  /** Row `k` is still visible to a cursor taken from the row before it. */
  predicate Clear<T(!new)>(list: seq<Row<T>>, k: nat)
    requires 0 < k < |list|
  {
    Older(list[k], Seen(list[k - 1]))
  }

  /** A cursor taken from a row passes that row; it passes no other exactly when the next row is clear. */
  lemma {:induction false} CutAfterRow<T(!new)>(list: seq<Row<T>>, k: nat)
    requires Descending(list) && 0 < k <= |list|
    ensures Cut(list, Seen(list[k - 1])) >= k
    ensures Cut(list, Seen(list[k - 1])) == k <==> k == |list| || Clear(list, k)
  {
    var p := Seen(list[k - 1]);
    var c := Cut(list, p);
    AllOlderAfterCut(list, p, k - 1);
    assert !Older(list[k - 1], p);
    if k < |list| { AllOlderAfterCut(list, p, k); }
  }

  /** Stored times are whole milliseconds. */
  predicate Whole<T(!new)>(list: seq<Row<T>>) {
    forall i :: 0 <= i < |list| ==> list[i].createdAt % 1000 == 0
  }

  lemma {:induction false} WholeIsVisible<T(!new)>(list: seq<Row<T>>, i: nat, k: nat)
    requires Descending(list) && Whole(list) && i < k < |list|
    ensures Older(list[k], Seen(list[i]))
  {
    assert NewerFirst(list[i], list[k]) && list[i].id != list[k].id;
  }

  // ---------------------------------------------------------------------------------------------
  // Rows added between two queries

  /** Matching rows are never lost, and the ones added sort ahead of those already there. */
  ghost predicate GrewAhead<T(!new)>(before: seq<Row<T>>, after: seq<Row<T>>, p: Row<T> -> bool) {
    && Keyed(after)
    && (forall r :: r in before && p(r) ==> r in after)
    && (forall r, was :: r in after && r !in before && was in before && p(r) && p(was) ==> NewerFirst(r, was))
  }

  lemma {:induction false} NewRowStaysAhead<T(!new)>(r: Row<T>, was: Row<T>)
    requires NewerFirst(r, was) && r.id != was.id
    ensures !Older(r, Seen(was))
  {
    TextTotal(r.id, was.id);
  }

  /** Behind a cursor taken from a row of the first table, a grown table shows what the first one showed. */
  lemma {:induction false} GrowthIsInvisible<T(!new)>(
    before: seq<Row<T>>, after: seq<Row<T>>, p: Row<T> -> bool, last: Row<T>, take: nat)
    requires Keyed(before) && GrewAhead(before, after, p) && last in before && p(last)
    ensures Fetch(after, p, Some(Seen(last)), take) == Fetch(before, p, Some(Seen(last)), take)
  {
    var q := Past(p, Some(Seen(last)));
    ListingIsExact(before, q);
    ListingIsExact(after, q);
    forall r | r in after && q(r) ensures r in before {
      if r !in before {
        if r.id == last.id { SameIdSameRow(after, r, last); }
        NewRowStaysAhead(r, last);
      }
    }
    DescendingUnique(Listing(after, q), Listing(before, q));
  }

  // ---------------------------------------------------------------------------------------------
  // Following cursors

  /** The rows met by following cursors through pages of `size`, starting at `c`. */
  ghost function Walk<T(!new)>(list: seq<Row<T>>, c: nat, size: nat): seq<Row<T>>
    requires c <= |list|
    decreases |list| - c
  {
    var e := Min(c + size, |list|);
    if e == |list| || e == 0 then list[c..e]
    else
      var d := Cut(list, Seen(list[e - 1]));
      list[c..e] + (if c < d then Walk(list, d, size) else [])
  }

  lemma {:induction false} WalkTurns<T(!new)>(list: seq<Row<T>>, c: nat, size: nat, page: seq<Row<T>>)
    requires Descending(list) && c <= |list| && size > 0 && page == list[c..Min(c + size, |list|)]
    ensures c + size >= |list| ==> Walk(list, c, size) == page
    ensures c + size < |list| ==>
      var d := Cut(list, Seen(list[c + size - 1]));
      c < d && Walk(list, c, size) == page + Walk(list, d, size)
  {
    if c + size < |list| { CutAfterRow(list, c + size); }
  }

  /** Every page after the one at `c` starts right behind the one before it. */
  predicate BordersClear<T(!new)>(list: seq<Row<T>>, c: nat, size: nat)
    requires size > 0
    decreases |list| - c
  {
    c + size < |list| ==> Clear(list, c + size) && BordersClear(list, c + size, size)
  }

  /** A walk meets rows in order and none twice, and nothing ahead of its start. */
  lemma {:induction false} WalkIsOrdered<T(!new)>(list: seq<Row<T>>, c: nat, size: nat)
    requires Descending(list) && c <= |list| && size > 0
    ensures Descending(Walk(list, c, size)) && forall r :: r in Walk(list, c, size) ==> r in list[c..]
    decreases |list| - c
  {
    var e := Min(c + size, |list|);
    if e < |list| {
      CutAfterRow(list, e);
      var d := Cut(list, Seen(list[e - 1]));
      WalkIsOrdered(list, d, size);
      JoinDescends(list, c, e, d, Walk(list, d, size));
    }
  }

  lemma {:induction false} JoinDescends<T(!new)>(list: seq<Row<T>>, c: nat, e: nat, d: nat, rest: seq<Row<T>>)
    requires Descending(list) && c <= e <= d <= |list| && Descending(rest) && forall r :: r in rest ==> r in list[d..]
    ensures Descending(list[c..e] + rest) && forall r :: r in list[c..e] + rest ==> r in list[c..]
  {
    var page := list[c..e];
    forall i, j | 0 <= i < |page| && 0 <= j < |rest| ensures NewerFirst(page[i], rest[j]) && page[i].id != rest[j].id {
      assert rest[j] in list[d..];
    }
    forall r | r in page + rest ensures r in list[c..] {
      if r in rest {
        assert r in list[d..];
        var i :| d <= i < |list| && list[i] == r;
      }
    }
  }

  /** A walk meets every row exactly when no row hides at a page border. */
  lemma {:induction false} WalkIsComplete<T(!new)>(list: seq<Row<T>>, c: nat, size: nat)
    requires Descending(list) && c <= |list| && size > 0
    ensures Walk(list, c, size) == list[c..] <==> BordersClear(list, c, size)
    decreases |list| - c
  {
    var e := Min(c + size, |list|);
    if e < |list| {
      CutAfterRow(list, e);
      var d := Cut(list, Seen(list[e - 1]));
      assert list[c..] == list[c..e] + list[e..];
      if d == e {
        WalkIsComplete(list, e, size);
        CancelPrefix(list[c..e], Walk(list, e, size), list[e..]);
      } else {
        WalkIsOrdered(list, d, size);
        SuffixMisses(list, d, e);
        CancelPrefix(list[c..e], Walk(list, d, size), list[e..]);
        assert list[e] in list[e..];
      }
    }
  }

  lemma {:induction false} CancelPrefix<T>(a: seq<T>, x: seq<T>, y: seq<T>)
    ensures a + x == a + y <==> x == y
  {
    assert (a + x)[|a|..] == x && (a + y)[|a|..] == y;
  }
}
