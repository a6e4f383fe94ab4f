/** The audit export: the whole history of a tenant read page by page, with a cap that is never silent. */
module AuditExport {
  import opened Basics
  import opened Keyset

  datatype Event = Event(tenant: string, action: string, resource: string)
  type Table = seq<Row<Event>>

  datatype Export = Export(events: Table, truncated: bool)

  const PAGE_SIZE: nat := 1000

  /** Where a full page ends. */
  predicate Border(k: nat) { k % 1000 == 0 }

  function Owned(tenant: string): Row<Event> -> bool { (r: Row<Event>) => r.data.tenant == tenant }

  function History(table: Table, tenant: string): Table { Listing(table, Owned(tenant)) }

  /** The history of a tenant is its own events, all of them, newest first. */
  lemma {:induction false} HistoryIsOwn(table: Table, tenant: string)
    requires Keyed(table)
    ensures
      var list := History(table, tenant);
      && (forall r :: r in list <==> r in table && r.data.tenant == tenant)
      && forall i, j :: 0 <= i < j < |list| ==> list[j].createdAt <= list[i].createdAt && list[i].id != list[j].id
  {
    var list := History(table, tenant);
    ListingIsExact(table, Owned(tenant));
    forall i, j | 0 <= i < j < |list| ensures NewerFirst(list[i], list[j]) && list[i].id != list[j].id {
    }
  }

  /** The capped export of `list`, and whether the cap left anything out. */
  predicate Exact(list: Table, cap: nat, e: Export) {
    && e.events == list[..Min(cap, |list|)]
    && (e.truncated <==> |list| > cap)
  }

  /** Each page starts right after the one before it, and the probe beyond the cap can see the oldest row. */
  predicate NothingHidden(list: Table, cap: nat)
    requires cap > 0
  {
    && PagesMeet(list, Min(cap, |list|))
    && (|list| > cap ==> Older(list[|list| - 1], Seen(list[cap - 1])))
  }

  predicate PagesMeet(list: Table, upto: nat)
    requires upto <= |list|
  {
    forall k :: 0 < k < upto && Border(k) ==> Clear(list, k)
  }

  // ---------------------------------------------------------------------------------------------
  // Page by page

  /** `events` were picked from `list` in order, without repetition. */
  ghost predicate Picked(list: Table, events: Table) {
    Descending(events) && forall r :: r in events ==> r in list
  }

  /** A row at a page border was passed over for good. */
  ghost predicate Lost(list: Table, events: Table, c: nat, k: nat) {
    0 < k < c <= |list| && k < |events| && Border(k) && !Clear(list, k) && list[k] !in events
  }

  /** After fetching `events`, the next page starts at `c`. */
  ghost predicate Walked(list: Table, events: Table, c: nat) {
    && c <= |list|
    && c == (if events == [] then 0 else Cut(list, Seen(events[|events| - 1])))
    && Picked(list[..c], events)
    && (Straight(list, events) || Loses(list, events, c))
  }

  /** Nothing was passed over so far. */
  ghost predicate Straight(list: Table, events: Table) {
    |events| <= |list| && PagesMeet(list, |events|) && events == list[..|events|]
  }

  ghost predicate Loses(list: Table, events: Table, c: nat) { exists k: nat :: Lost(list, events, c, k) }

  ghost function Page(list: Table, c: nat): Table
    requires c <= |list|
  {
    list[c..Min(c + PAGE_SIZE, |list|)]
  }

  lemma {:induction false} PickedNext(list: Table, events: Table, c: nat, page: Table)
    requires Descending(list) && c <= |list| && Picked(list[..c], events) && page == Page(list, c) && page != []
    ensures
      var c' := Cut(list, Seen(page[|page| - 1]));
      c + |page| <= c' && Picked(list[..c'], events + page)
  {
    var c' := Cut(list, Seen(page[|page| - 1]));
    var e := c + |page|;
    CutAfterRow(list, e);
    forall r | r in events + page ensures r in list[..c'] {
      if r in events { assert r in list[..c]; }
    }
    JoinsBelow(list, events, c, page);
  }

  /** Rows picked ahead of a page come before it. */
  lemma {:induction false} JoinsBelow(list: Table, events: Table, c: nat, page: Table)
    requires Descending(list) && c + |page| <= |list| && Picked(list[..c], events) && page == list[c..c + |page|]
    ensures Descending(events + page)
  {
    var all := events + page;
    forall i, j | 0 <= i < j < |all| ensures NewerFirst(all[i], all[j]) && all[i].id != all[j].id {
      if i < |events| <= j { ComesBefore(list, events[i], c, j - |events|); }
    }
  }

  lemma {:induction false} ComesBefore(list: Table, r: Row<Event>, c: nat, j: nat)
    requires Descending(list) && c + j < |list| && r in list[..c]
    ensures NewerFirst(r, list[c + j]) && r.id != list[c + j].id
  {
    var i :| 0 <= i < c && list[i] == r;
  }

  /** Once a row is lost it stays lost. */
  lemma {:induction false} LostNext(list: Table, events: Table, c: nat, page: Table, c': nat, k: nat)
    requires Descending(list) && Lost(list, events, c, k) && page == Page(list, c) && c <= c' <= |list|
    ensures Lost(list, events + page, c', k)
  {
    assert list[k] !in page;
  }

  /** A page that starts late loses the row it should have started with. */
  lemma {:induction false} LateLoses(list: Table, n: nat, c: nat, page: Table, c': nat)
    requires Descending(list) && 0 < n < c <= c' <= |list| && Border(n) && !Clear(list, n)
    requires page == Page(list, c) && page != []
    ensures Lost(list, list[..n] + page, c', n)
  {
    assert list[n] !in page;
    assert list[n] !in list[..n];
  }

  lemma {:induction false} MeetNext(list: Table, n: nat, page: Table)
    requires Descending(list) && Border(n) && n <= |list| && PagesMeet(list, n) && page == Page(list, n)
    requires 0 < n < |list| ==> Clear(list, n)
    ensures PagesMeet(list, n + |page|) && list[..n] + page == list[..n + |page|]
  {
    forall k | 0 < k < n + |page| && Border(k) ensures Clear(list, k) {
      BorderAtMost(k, n + |page|, n);
    }
  }

  lemma {:induction false} StraightOn(list: Table, events: Table, c: nat, page: Table, c': nat)
    requires Descending(list) && Straight(list, events) && Border(|events|) && c <= c' <= |list|
    requires c == (if events == [] then 0 else Cut(list, Seen(events[|events| - 1])))
    requires page == Page(list, c) && page != []
    ensures Straight(list, events + page) || Loses(list, events + page, c')
  {
    var n := |events|;
    if n > 0 { CutAfterRow(list, n); }
    if c == n {
      MeetNext(list, n, page);
    } else {
      LateLoses(list, n, c, page, c');
    }
  }

  /** One more page. */
  lemma {:induction false} WalkOn(list: Table, events: Table, c: nat, page: Table)
    requires Descending(list) && Walked(list, events, c) && Border(|events|)
    requires page == Page(list, c) && page != []
    ensures Walked(list, events + page, Cut(list, Seen(page[|page| - 1])))
  {
    var c' := Cut(list, Seen(page[|page| - 1]));
    PickedNext(list, events, c, page);
    if Loses(list, events, c) {
      var k: nat :| Lost(list, events, c, k);
      LostNext(list, events, c, page, c', k);
    } else {
      StraightOn(list, events, c, page, c');
    }
  }

  /** A short page reaches the oldest row. */
  lemma {:induction false} ShortPageEnds(list: Table, events: Table, c: nat, page: Table)
    requires Descending(list) && Walked(list, events, c) && Border(|events|)
    requires page == Page(list, c) && 0 < |page| < PAGE_SIZE
    ensures events + page == list || Loses(list, events + page, Cut(list, Seen(page[|page| - 1])))
  {
    WalkOn(list, events, c, page);
    if Straight(list, events + page) { EndsTogether(list, events + page); }
  }

  lemma {:induction false} EndsTogether(list: Table, all: Table)
    requires Keyed(list) && 0 < |all| <= |list| && all == list[..|all|] && all[|all| - 1] == list[|list| - 1]
    ensures all == list
  {
    assert list[|all| - 1].id == list[|list| - 1].id;
  }

  // ---------------------------------------------------------------------------------------------
  // The result

  lemma {:induction false} LostIsInexact(list: Table, events: Table, c: nat, k: nat, cap: nat)
    requires Lost(list, events, c, k) && k < cap
    ensures events[..Min(cap, |events|)] != list[..Min(cap, |list|)] && !PagesMeet(list, Min(cap, |list|))
  {
    assert list[k] in list[..Min(cap, |list|)];
  }

  /** The end was reached within the cap. */
  lemma {:induction false} EndedResult(list: Table, events: Table, c: nat, cap: nat)
    requires Descending(list) && Walked(list, events, c) && |events| <= cap && cap > 0
    requires events == list || Loses(list, events, c) || (c == |list| && Border(|events|) && |events| < cap)
    ensures Exact(list, cap, Export(events, false)) <==> NothingHidden(list, cap)
  {
    var n := |events|;
    if Loses(list, events, c) {
      var k: nat :| Lost(list, events, c, k);
      LostIsInexact(list, events, c, k, cap);
    } else if n > 0 {
      CutAfterRow(list, n);
    }
  }

  /** The cap was reached; a probe from the last row kept tells whether anything follows. */
  lemma {:induction false} CappedResult(list: Table, events: Table, c: nat, cap: nat, before: nat, more: bool)
    requires Descending(list) && Walked(list, events, c) && 0 < cap <= |events|
    requires before < cap && Border(before) && |events| <= before + PAGE_SIZE
    requires more <==> Cut(list, Seen(events[cap - 1])) < |list|
    ensures Exact(list, cap, Export(events[..cap], more)) <==> NothingHidden(list, cap)
  {
    if Loses(list, events, c) {
      var k: nat :| Lost(list, events, c, k);
      BorderAtMost(k, |events|, before);
      LostIsInexact(list, events, c, k, cap);
    } else {
      StraightCapped(list, events, cap, before, more);
    }
  }

  lemma {:induction false} BorderAtMost(k: nat, n: nat, before: nat)
    requires Border(k) && Border(before) && k < n <= before + PAGE_SIZE
    ensures k <= before
  {
  }

  lemma {:induction false} StraightCapped(list: Table, events: Table, cap: nat, before: nat, more: bool)
    requires Descending(list) && Straight(list, events) && 0 < cap <= |events|
    requires more <==> Cut(list, Seen(events[cap - 1])) < |list|
    ensures Exact(list, cap, Export(events[..cap], more)) <==> NothingHidden(list, cap)
  {
    assert events[..cap] == list[..cap];
    AllOlderAfterCut(list, Seen(list[cap - 1]), |list| - 1);
    CutAfterRow(list, cap);
  }

  // ---------------------------------------------------------------------------------------------
  // The export

  /** What fetch number `n` returns, in terms of the history at the first fetch. */
  lemma {:induction false} FetchSees(tables: nat -> Table, tenant: string, n: nat, events: Table, take: nat)
    requires Keyed(tables(0)) && (forall i :: GrewAhead(tables(0), tables(i), Owned(tenant)))
    requires (n == 0 <==> events == [])
    requires Picked(History(tables(0), tenant), events)
    ensures
      var list := History(tables(0), tenant);
      var cursor := if events == [] then None else Some(Seen(events[|events| - 1]));
      Fetch(tables(n), Owned(tenant), cursor, take)
          == list[CutAt(list, cursor)..Min(CutAt(list, cursor) + take, |list|)]
  {
    ListingIsExact(tables(0), Owned(tenant));
    if events == [] {
      FetchIsSlice(tables(0), Owned(tenant), None, take);
    } else {
      var last := events[|events| - 1];
      assert last in events;
      FetchIsSlice(tables(0), Owned(tenant), Some(Seen(last)), take);
      GrowthIsInvisible(tables(0), tables(n), Owned(tenant), last, take);
    }
  }

  /** Where the loop stands: `fetches` pages read, the last of them starting at `before`. */
  ghost predicate Reading(
    list: Table, events: Table, cursor: Option<Position>, fetches: nat, c: nat, before: nat, cap: int) {
    && Walked(list, events, c)
    && cursor == (if events == [] then None else Some(Seen(events[|events| - 1])))
    && (fetches == 0 <==> events == [])
    && Border(before) && |events| <= before + PAGE_SIZE && (events == [] || before < cap)
  }

  lemma {:induction false} ReadOn(
    list: Table, events: Table, cursor: Option<Position>, fetches: nat, c: nat, before: nat, cap: int, page: Table)
    requires Descending(list) && Reading(list, events, cursor, fetches, c, before, cap) && Border(|events|)
    requires |events| < cap
    requires page == Page(list, c) && page != []
    ensures Reading(list, events + page, Some(Seen(page[|page| - 1])), fetches + 1,
        Cut(list, Seen(page[|page| - 1])), |events|, cap)
  {
    WalkOn(list, events, c, page);
    assert (events + page)[|events + page| - 1] == page[|page| - 1];
  }

  lemma {:induction false} PickedPrefix(list: Table, events: Table, c: nat, k: nat)
    requires c <= |list| && Picked(list[..c], events) && k <= |events|
    ensures Picked(list, events[..k])
  {
    forall r | r in events[..k] ensures r in list { assert r in list[..c]; }
  }

  ghost predicate Setting(tables: nat -> Table, tenant: string) {
    Keyed(tables(0)) && forall i :: GrewAhead(tables(0), tables(i), Owned(tenant))
  }

  /** Why reading stopped. */
  ghost predicate Stopped(list: Table, events: Table, c: nat, cap: int, ended: bool) {
    if ended then events == list || Loses(list, events, c) || (c == |list| && Border(|events|) && |events| < cap)
    else |events| >= cap
  }

  lemma {:induction false} PageStops(list: Table, events: Table, c: nat, page: Table, cap: int)
    requires Descending(list) && Walked(list, events, c) && Border(|events|) && page == Page(list, c) && page != []
    ensures if |page| < PAGE_SIZE then Stopped(list, events + page, Cut(list, Seen(page[|page| - 1])), cap, true)
        else Border(|events + page|)
  {
    if |page| < PAGE_SIZE { ShortPageEnds(list, events, c, page); }
  }

  /** All that the loop leaves to decide is what the probe behind the cap finds. */
  ghost predicate Settles(list: Table, events: Table, fetches: nat, cap: nat, ended: bool)
    requires cap > 0
  {
    if ended && |events| <= cap then Delivers(list, cap, Export(events, false))
    else
      && |events| >= cap && fetches > 0 && Picked(list, events[..cap])
      && Delivers(list, cap, Export(events[..cap], Cut(list, Seen(events[cap - 1])) < |list|))
  }

  lemma {:induction false} StoppedSettles(
    list: Table, events: Table, cursor: Option<Position>, fetches: nat, c: nat, before: nat, cap: nat, ended: bool)
    requires Descending(list) && Reading(list, events, cursor, fetches, c, before, cap)
    requires Stopped(list, events, c, cap, ended) && cap > 0
    ensures Settles(list, events, fetches, cap, ended)
  {
    if ended && |events| <= cap {
      EndedDelivers(list, events, c, cap);
    } else {
      KeptIsPicked(list, events, c, cap);
      CappedDelivers(list, events, c, before, cap, Cut(list, Seen(events[cap - 1])) < |list|);
    }
  }

  /** The paging loop. */
  method ReadPages(tables: nat -> Table, tenant: string, cap: int)
    returns (events: Table, fetches: nat, reachedRealEnd: bool)
    requires Setting(tables, tenant)
    ensures cap > 0 ==> Settles(History(tables(0), tenant), events, fetches, cap, reachedRealEnd)
  {
    events, fetches, reachedRealEnd := [], 0, false;
    ghost var c: nat, before: nat := 0, 0;
    var cursor: Option<Position> := None;
    ghost var list := History(tables(0), tenant);
    ListingIsExact(tables(0), Owned(tenant));
    while |events| < cap
      invariant Reading(list, events, cursor, fetches, c, before, cap)
      invariant !reachedRealEnd && Border(|events|)
      decreases cap - |events|
    {
      ReadsPage(tables, tenant, fetches, events, cursor, c, before, cap);
      var page := Fetch(tables(fetches), Owned(tenant), cursor, PAGE_SIZE);
      if |page| == 0 {
        reachedRealEnd := true;
        break;
      }
      ReadOn(list, events, cursor, fetches, c, before, cap, page);
      PageStops(list, events, c, page, cap);
      before := |events|;
      events := events + page;
      cursor := Some(Seen(page[|page| - 1]));
      fetches, c := fetches + 1, Cut(list, cursor.value);
      if |page| < PAGE_SIZE {
        reachedRealEnd := true;
        break;
      }
    }
    if cap > 0 { StoppedSettles(list, events, cursor, fetches, c, before, cap, reachedRealEnd); }
  }

  lemma {:induction false} ReadsPage(
    tables: nat -> Table, tenant: string, fetches: nat, events: Table, cursor: Option<Position>, c: nat,
        before: nat, cap: int)
    requires Setting(tables, tenant) && Reading(History(tables(0), tenant), events, cursor, fetches, c, before, cap)
    ensures Fetch(tables(fetches), Owned(tenant), cursor, PAGE_SIZE) == Page(History(tables(0), tenant), c)
  {
    PickedPrefix(History(tables(0), tenant), events, c, |events|);
    assert events[..|events|] == events;
    FetchSees(tables, tenant, fetches, events, PAGE_SIZE);
  }

  /** An ordered selection within the cap, and the exact one if and only if nothing was hidden. */
  ghost predicate Delivers(list: Table, cap: nat, e: Export)
    requires cap > 0
  {
    && Picked(list, e.events) && |e.events| <= cap
    && (Exact(list, cap, e) <==> NothingHidden(list, cap))
  }

  lemma {:induction false} EndedDelivers(list: Table, events: Table, c: nat, cap: nat)
    requires Descending(list) && Walked(list, events, c) && |events| <= cap && cap > 0
    requires Stopped(list, events, c, cap, true)
    ensures Delivers(list, cap, Export(events, false))
  {
    EndedResult(list, events, c, cap);
    PickedPrefix(list, events, c, |events|);
    assert events[..|events|] == events;
  }

  lemma {:induction false} CappedDelivers(list: Table, events: Table, c: nat, before: nat, cap: nat, more: bool)
    requires Descending(list) && Walked(list, events, c) && 0 < cap <= |events|
    requires before < cap && Border(before) && |events| <= before + PAGE_SIZE
    requires more <==> Cut(list, Seen(events[cap - 1])) < |list|
    ensures Delivers(list, cap, Export(events[..cap], more))
  {
    PickedPrefix(list, events, c, cap);
    CappedResult(list, events, c, cap, before, more);
  }

  lemma {:induction false} KeptIsPicked(list: Table, events: Table, c: nat, k: nat)
    requires Walked(list, events, c) && k <= |events|
    ensures Picked(list, events[..k])
  {
    PickedPrefix(list, events, c, k);
  }

  lemma {:induction false} ProbeSees(tables: nat -> Table, tenant: string, fetches: nat, kept: Table, probe: Table)
    requires Setting(tables, tenant) && kept != [] && fetches > 0 && Picked(History(tables(0), tenant), kept)
    requires probe == Fetch(tables(fetches), Owned(tenant), Some(Seen(kept[|kept| - 1])), 1)
    ensures
      var list := History(tables(0), tenant);
      |probe| > 0 <==> Cut(list, Seen(kept[|kept| - 1])) < |list|
  {
    FetchSees(tables, tenant, fetches, kept, 1);
  }

  /** The export. `tables(n)` is the content of the table when page `n` is fetched. With a cap below one the
      service fails on a missing row: no result. */
  method ListAll(tables: nat -> Table, tenant: string, cap: int) returns (r: Option<Export>)
    requires Setting(tables, tenant)
    ensures r.Some? <==> cap > 0
    ensures r.Some? ==> Delivers(History(tables(0), tenant), cap, r.value)
  {
    var events, fetches, reachedRealEnd := ReadPages(tables, tenant, cap);
    if cap <= 0 { return None; }
    if reachedRealEnd && |events| <= cap { return Some(Export(events, false)); }
    var beyondCap := Fetch(tables(fetches), Owned(tenant), Some(Seen(events[cap - 1])), 1);
    ProbeSees(tables, tenant, fetches, events[..cap], beyondCap);
    return Some(Export(events[..cap], |beyondCap| > 0));
  }

  // ---------------------------------------------------------------------------------------------
  // When the export is exact

  /** With timestamps stored in whole milliseconds nothing is hidden, whatever the cap. */
  lemma {:induction false} WholeMillisecondsHideNothing(table: Table, tenant: string, cap: nat)
    requires Keyed(table) && Whole(table) && cap > 0
    ensures NothingHidden(History(table, tenant), cap)
  {
    var list := History(table, tenant);
    ListingIsExact(table, Owned(tenant));
    forall i | 0 <= i < |list| ensures list[i].createdAt % 1000 == 0 { assert list[i] in list; }
    forall k | 0 < k < |list| ensures Clear(list, k) { WholeIsVisible(list, k - 1, k); }
    if |list| > cap { WholeIsVisible(list, cap - 1, |list| - 1); }
  }

  /** Otherwise two rows of one millisecond are enough to export one of them and call it complete. */
  lemma {:induction false} SharedMillisecondHides() returns (table: Table)
    ensures Keyed(table) && |History(table, "t")| == 2 && !NothingHidden(History(table, "t"), 1)
  {
    var newer, older_ := Row(1002, "a", Event("t", "", "")), Row(1001, "b", Event("t", "", ""));
    table := [newer, older_];
    assert newer.id[0] != older_.id[0];
    ListingIsExact(table, Owned("t"));
    var list := [newer, older_];
    assert Descending(list);
    DescendingUnique(History(table, "t"), list);
    assert !Older(list[1], Seen(list[0]));
  }
}
