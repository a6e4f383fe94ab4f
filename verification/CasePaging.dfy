/** The case list, page by page through opaque cursors. */
module CasePaging {
  import opened Basics
  import opened Sorting
  import opened Keyset
  import opened Numerals
  import opened TextCoding

  datatype LoanCase = LoanCase(tenant: string, status: string, borrower: string)
  type Table = seq<Row<LoanCase>>

  // ---------------------------------------------------------------------------------------------
  // Cursors

  /** A moment in whole milliseconds and a case id. */
  datatype Cursor = Cursor(millis: Instant, id: string)

  function CursorText(c: Cursor): string { Stamp(c.millis) + ("|" + c.id) }

  function EncodeCursor(c: Cursor): string { Armor(CursorText(c)) }

  function LastBar(s: string): (r: Option<nat>)
    ensures r.None? ==> forall i :: 0 <= i < |s| ==> s[i] != '|'
    ensures r.Some? ==> r.value < |s| && s[r.value] == '|' && forall i :: r.value < i < |s| ==> s[i] != '|'
  {
    if s == [] then None else if s[|s| - 1] == '|' then Some(|s| - 1) else LastBar(s[..|s| - 1])
  }

  function ReadCursor(text: string): Option<Cursor> {
    var bar := LastBar(text);
    var stamp := if bar.None? then "" else text[..bar.value];
    var id := if bar.None? then "" else text[bar.value + 1..];
    var at := ReadStamp(stamp);
    if id == "" || at.None? then None else Some(Cursor(at.value, id))
  }

  /** `None` is the bad request. */
  function DecodeCursor(s: string): Option<Cursor> { ReadCursor(Unarmor(s)) }

  predicate PlainId(id: string) { id != "" && '|' !in id }

  lemma {:induction false} BarIsUnique(a: string, id: string)
    requires '|' !in id
    ensures LastBar(a + ("|" + id)) == Some(|a|)
  {
    var s := a + ("|" + id);
    assert s[|a|] == '|';
    var k := LastBar(s).value;
    var rest := s[k + 1..];
    assert forall i :: k < i < |s| ==> s[i] == rest[i - k - 1];
    assert forall i :: |a| < i < |s| ==> s[i] == id[i - |a| - 1];
  }

  lemma {:induction false} CursorTextParts(c: Cursor)
    ensures CursorText(c)[..|Stamp(c.millis)|] == Stamp(c.millis)
    ensures CursorText(c)[|Stamp(c.millis)| + 1..] == c.id
  {
  }

  lemma {:induction false} PlainReadsBack(c: Cursor)
    requires PlainId(c.id)
    ensures ReadCursor(CursorText(c)) == Some(c)
  {
    ReadWhatWasStamped(c.millis);
    BarIsUnique(Stamp(c.millis), c.id);
    CursorTextParts(c);
  }

  lemma {:induction false} ReadIsPlain(text: string)
    ensures ReadCursor(text).Some? ==> PlainId(ReadCursor(text).value.id)
  {
    var bar := LastBar(text);
    if bar.Some? {
      var id := text[bar.value + 1..];
      assert forall i :: 0 <= i < |id| ==> id[i] == text[bar.value + 1 + i];
    }
  }

  /** Decoding undoes encoding for every id that is not empty and has no bar, and for no other. */
  lemma {:induction false} CursorRoundTrip(c: Cursor)
    ensures DecodeCursor(EncodeCursor(c)) == Some(c) <==> PlainId(c.id)
  {
    ArmorRoundTrip(CursorText(c));
    ReadIsPlain(CursorText(c));
    if PlainId(c.id) { PlainReadsBack(c); }
  }

  // ---------------------------------------------------------------------------------------------
  // One page

  const DEFAULT_PAGE_SIZE := 20
  const MAX_PAGE_SIZE := 100

  datatype Filter = Filter(status: Option<string>, borrower: Option<string>)
  datatype Options = Options(filter: Filter, first: Option<int>, after: Option<string>)
  datatype Edge = Edge(node: Row<LoanCase>, cursor: string)
  datatype Connection = Connection(edges: seq<Edge>, hasNextPage: bool, endCursor: Option<string>)
  datatype Answer = BadCursor | Listed(connection: Connection)

  function PageSize(first: Option<int>): (n: nat)
    ensures 1 <= n <= 100 && (first.None? ==> n == 20)
    ensures first.Some? ==> if first.value < 1 then n == 1 else if first.value > 100 then n == 100 else n == first.value
  {
    Min(Max(if first.Some? then first.value else DEFAULT_PAGE_SIZE, 1), MAX_PAGE_SIZE)
  }

  /** An empty string counts as not given. */
  predicate Given(o: Option<string>) { o.Some? && o.value != "" }

  function Matches(tenant: string, o: Filter): Row<LoanCase> -> bool {
    (r: Row<LoanCase>) =>
      && r.data.tenant == tenant
      && (Given(o.status) ==> r.data.status == o.status.value)
      && (Given(o.borrower) ==> r.data.borrower == o.borrower.value)
  }

  function CursorOf(r: Row<LoanCase>): Cursor { Cursor(WholeMillis(r.createdAt) / 1000, r.id) }

  /** The text that stands for a row. */
  type Marker = Row<LoanCase> -> string

  function RowCursor(r: Row<LoanCase>): string { EncodeCursor(CursorOf(r)) }

  function EdgesOf(rows: Table, mark: Marker): seq<Edge> {
    seq(|rows|, i requires 0 <= i < |rows| => Edge(rows[i], mark(rows[i])))
  }

  function ListCases(table: Table, tenant: string, o: Options): Answer {
    var size := PageSize(o.first);
    var cursor := if Given(o.after) then DecodeCursor(o.after.value) else None;
    if Given(o.after) && cursor.None? then BadCursor
    else
      var at := if cursor.Some? then Some(Position(cursor.value.millis * 1000, cursor.value.id)) else None;
      Listed(PageOf(Fetch(table, Matches(tenant, o.filter), at, size + 1), size, RowCursor))
  }

  /** One row more than the page was asked for, to learn whether another page follows. */
  function PageOf(rows: Table, size: nat, mark: Marker): Connection {
    var hasNextPage := |rows| > size;
    var page := if hasNextPage then rows[..size] else rows;
    var edges := EdgesOf(page, mark);
    Connection(edges, hasNextPage, if |edges| > 0 then Some(edges[|edges| - 1].cursor) else None)
  }

  function Nodes(c: Connection): Table { seq(|c.edges|, i requires 0 <= i < |c.edges| => c.edges[i].node) }

  predicate PlainIds(table: Table) { forall i :: 0 <= i < |table| ==> PlainId(table[i].id) }

  /** Every edge cursor stands for its row, as far as a cursor can see it. */
  lemma {:induction false} EdgeCursor(r: Row<LoanCase>)
    requires PlainId(r.id)
    ensures
      var c := DecodeCursor(RowCursor(r));
      c.Some? && Position(c.value.millis * 1000, c.value.id) == Seen(r) && RowCursor(r) != ""
  {
    CursorRoundTrip(CursorOf(r));
    assert WholeMillis(r.createdAt) / 1000 * 1000 == WholeMillis(r.createdAt);
    EmptyIsNoCursor();
  }

  lemma {:induction false} EmptyIsNoCursor()
    ensures DecodeCursor("") == None
  {
    assert FromBase64("") == [] && Unarmor("") == "";
  }

  /** The page of `list` that starts at `c`, with the flag that says whether more follows and the mark of its last row.
      */
  ghost predicate IsPage(answer: Answer, list: Table, c: nat, size: nat, mark: Marker)
    requires c <= |list|
  {
    var e := Min(c + size, |list|);
    && answer.Listed?
    && Nodes(answer.connection) == list[c..e]
    && (answer.connection.hasNextPage <==> e < |list|)
    && answer.connection.endCursor == (if c < e then Some(mark(list[e - 1])) else None)
  }

  /** The cursor asked for, or the start. */
  ghost predicate Asks(o: Options, at: Option<Position>) {
    if Given(o.after) then
      var c := DecodeCursor(o.after.value);
      c.Some? && at == Some(Position(c.value.millis * 1000, c.value.id))
    else at == None
  }

  lemma {:induction false} NodesOfEdges(rows: Table, mark: Marker, more: bool, end: Option<string>)
    ensures Nodes(Connection(EdgesOf(rows, mark), more, end)) == rows
  {
  }

  /** A call answers with a page unless its cursor is malformed, and says truthfully whether more follows. */
  lemma {:induction false} ListIsPage(table: Table, tenant: string, o: Options, at: Option<Position>)
    requires Keyed(table) && Asks(o, at)
    ensures
      var list := Listing(table, Matches(tenant, o.filter));
      IsPage(ListCases(table, tenant, o), list, CutAt(list, at), PageSize(o.first), RowCursor)
  {
    var list, size := Listing(table, Matches(tenant, o.filter)), PageSize(o.first);
    AnswerIs(table, tenant, o, at);
    FetchIsSlice(table, Matches(tenant, o.filter), at, size + 1);
    PageOfSlice(list, CutAt(list, at), size, Fetch(table, Matches(tenant, o.filter), at, size + 1), RowCursor);
  }

  lemma {:induction false} AnswerIs(table: Table, tenant: string, o: Options, at: Option<Position>)
    requires Asks(o, at)
    ensures ListCases(table, tenant, o)
        == Listed(PageOf(Fetch(table, Matches(tenant, o.filter), at, PageSize(o.first) + 1), PageSize(o.first),
            RowCursor))
  {
  }

  lemma {:induction false} PageOfSlice(list: Table, c: nat, size: nat, rows: Table, mark: Marker)
    requires c <= |list| && size > 0 && rows == list[c..Min(c + size + 1, |list|)]
    ensures IsPage(Listed(PageOf(rows, size, mark)), list, c, size, mark)
  {
    var e := Min(c + size, |list|);
    var page := if |rows| > size then rows[..size] else rows;
    assert page == list[c..e];
    var a := PageOf(rows, size, mark);
    NodesOfEdges(page, mark, a.hasNextPage, a.endCursor);
    if c < e { assert page[|page| - 1] == list[e - 1]; }
  }

  /** The list that is paged through holds exactly the cases of the caller's tenant with the status and the borrower
      asked for, where one is given, newest first. */
  lemma {:induction false} ListIsWhatWasAsked(table: Table, tenant: string, f: Filter)
    requires Keyed(table)
    ensures
      var list := Listing(table, Matches(tenant, f));
      && (forall r :: r in list <==>
            && r in table && r.data.tenant == tenant
            && (f.status == None || f.status == Some("") || f.status == Some(r.data.status))
            && (f.borrower == None || f.borrower == Some("") || f.borrower == Some(r.data.borrower)))
      && forall i, j :: 0 <= i < j < |list| ==>
           || list[j].createdAt < list[i].createdAt
           || (list[j].createdAt == list[i].createdAt && list[j].id != list[i].id && TextLe(list[j].id, list[i].id))
  {
    var list := Listing(table, Matches(tenant, f));
    ListingIsExact(table, Matches(tenant, f));
    forall i, j | 0 <= i < j < |list|
      ensures NewerFirst(list[i], list[j]) && list[i].id != list[j].id
    {
    }
  }

  lemma {:induction false} EdgesAreMarked(rows: Table, size: nat, mark: Marker, i: nat)
    requires i < |PageOf(rows, size, mark).edges|
    ensures
      var page := PageOf(rows, size, mark);
      page.edges[i].cursor == mark(page.edges[i].node) && |Nodes(page)| == |page.edges|
          && Nodes(page)[i] == page.edges[i].node
  {
  }

  lemma {:induction false} EdgeOnPage(page: Connection, list: Table, c: nat, size: nat, mark: Marker, i: nat)
    requires c <= |list| && IsPage(Listed(page), list, c, size, mark) && i < |page.edges|
    ensures c + i < |list| && page.edges[i].node == list[c + i]
  {
    assert Nodes(page)[i] == page.edges[i].node;
  }

  /** Each edge carries a row of the page together with the cursor of that very row. */
  lemma {:induction false} EdgeIsRow(table: Table, tenant: string, o: Options, at: Option<Position>, i: nat)
    requires Keyed(table) && Asks(o, at)
    requires ListCases(table, tenant, o).Listed? && i < |ListCases(table, tenant, o).connection.edges|
    ensures
      var list, edge := Listing(table, Matches(tenant, o.filter)), ListCases(table, tenant, o).connection.edges[i];
      var k := CutAt(list, at) + i;
      k < |list| && edge.node == list[k] && edge.cursor == RowCursor(list[k])
  {
    var list, size := Listing(table, Matches(tenant, o.filter)), PageSize(o.first);
    var rows := Fetch(table, Matches(tenant, o.filter), at, size + 1);
    ListIsPage(table, tenant, o, at);
    AnswerIs(table, tenant, o, at);
    EdgesAreMarked(rows, size, RowCursor, i);
    EdgeOnPage(PageOf(rows, size, RowCursor), list, CutAt(list, at), size, RowCursor, i);
  }

  lemma {:induction false} RowLeadsOn(table: Table, tenant: string, o: Options, k: nat)
    requires Keyed(table) && PlainIds(table) && k < |Listing(table, Matches(tenant, o.filter))|
    requires o.after == Some(RowCursor(Listing(table, Matches(tenant, o.filter))[k]))
    ensures
      var list := Listing(table, Matches(tenant, o.filter));
      IsPage(ListCases(table, tenant, o), list, Cut(list, Seen(list[k])), PageSize(o.first), RowCursor)
  {
    var list := Listing(table, Matches(tenant, o.filter));
    RowOfList(table, tenant, o.filter, k);
    EdgeCursor(list[k]);
    ListIsPage(table, tenant, o, Some(Seen(list[k])));
  }

  /** The cursor of any edge, not only of the last one, leads on from its own row: the next answer is a page that starts
      behind that row, and right behind it exactly when the row that follows does not hide. */
  lemma {:induction false} AnyEdgeLeadsOn(table: Table, tenant: string, o: Options, at: Option<Position>, i: nat)
    requires Keyed(table) && PlainIds(table) && Asks(o, at)
    requires ListCases(table, tenant, o).Listed? && i < |ListCases(table, tenant, o).connection.edges|
    ensures
      var list := Listing(table, Matches(tenant, o.filter));
      var next := o.(after := Some(ListCases(table, tenant, o).connection.edges[i].cursor));
      var k := CutAt(list, at) + i;
      && k < |list|
      && var c := Cut(list, Seen(list[k]));
      && IsPage(ListCases(table, tenant, next), list, c, PageSize(o.first), RowCursor)
      && c > k && (c == k + 1 <==> k + 1 == |list| || Clear(list, k + 1))
  {
    var list := Listing(table, Matches(tenant, o.filter));
    var k := CutAt(list, at) + i;
    EdgeIsRow(table, tenant, o, at, i);
    RowLeadsOn(table, tenant, o.(after := Some(RowCursor(list[k]))), k);
    ListingIsExact(table, Matches(tenant, o.filter));
    CutAfterRow(list, k + 1);
  }

  // ---------------------------------------------------------------------------------------------
  // All pages

  function AllNodes(pages: seq<Connection>): Table {
    if pages == [] then [] else Nodes(pages[0]) + AllNodes(pages[1..])
  }

  /** What call number `n` with cursor `after` answers. */
  type Service = (nat, Option<string>) -> Answer

  /** The pages a client gets by following end cursors, from call number `n` on, until there is no next page. */
  ghost predicate Chain(ask: Service, n: nat, after: Option<string>, pages: seq<Connection>)
    decreases |pages|
  {
    && pages != []
    && ask(n, after) == Listed(pages[0])
    && (if pages[0].hasNextPage then Chain(ask, n + 1, pages[0].endCursor, pages[1..]) else |pages| == 1)
  }

  /** Call number `n` sees `tables(n)`. */
  function CaseList(tables: nat -> Table, tenant: string, o: Options): Service {
    (n: nat, after: Option<string>) => ListCases(tables(n), tenant, o.(after := after))
  }

  /** Cases may be added meanwhile, ahead of those already there. */
  ghost predicate Setting(tables: nat -> Table, tenant: string, o: Options) {
    && Keyed(tables(0)) && PlainIds(tables(0))
    && forall i :: GrewAhead(tables(0), tables(i), Matches(tenant, o.filter))
  }

  /** Call number `n` comes with the cursor of row `k`, the first call without a cursor. */
  ghost predicate Marks(list: Table, n: nat, after: Option<string>, k: nat, mark: Marker) {
    if n == 0 then !Given(after) else k < |list| && after == Some(mark(list[k]))
  }

  /** Where that call starts. */
  ghost function Start(list: Table, n: nat, k: nat): (c: nat)
    ensures c <= |list|
  {
    if n == 0 || k >= |list| then 0 else Cut(list, Seen(list[k]))
  }

  lemma {:induction false} MarkAsks(list: Table, n: nat, o: Options, k: nat)
    requires n > 0 && Marks(list, n, o.after, k, RowCursor) && PlainId(list[k].id)
    ensures Asks(o, Some(Seen(list[k])))
  {
    EdgeCursor(list[k]);
  }

  lemma {:induction false} LaterCall(tables: nat -> Table, n: nat, tenant: string, o: Options, last: Row<LoanCase>)
    requires Setting(tables, tenant, o) && Asks(o, Some(Seen(last))) && last in tables(0)
    requires Matches(tenant, o.filter)(last)
    ensures
      var list := Listing(tables(0), Matches(tenant, o.filter));
      IsPage(ListCases(tables(n), tenant, o), list, Cut(list, Seen(last)), PageSize(o.first), RowCursor)
  {
    var at := Some(Seen(last));
    AnswerIs(tables(n), tenant, o, at);
    AnswerIs(tables(0), tenant, o, at);
    GrowthIsInvisible(tables(0), tables(n), Matches(tenant, o.filter), last, PageSize(o.first) + 1);
    ListIsPage(tables(0), tenant, o, at);
  }

  /** Call number `n` answers with the page of the first list that starts behind its cursor. */
  lemma {:induction false} CallIsPage(tables: nat -> Table, n: nat, tenant: string, o: Options, k: nat)
    requires Setting(tables, tenant, o)
    requires Marks(Listing(tables(0), Matches(tenant, o.filter)), n, o.after, k, RowCursor)
    ensures
      var list := Listing(tables(0), Matches(tenant, o.filter));
      IsPage(ListCases(tables(n), tenant, o), list, Start(list, n, k), PageSize(o.first), RowCursor)
  {
    var list := Listing(tables(0), Matches(tenant, o.filter));
    if n == 0 {
      ListIsPage(tables(0), tenant, o, None);
    } else {
      RowOfList(tables(0), tenant, o.filter, k);
      MarkAsks(list, n, o, k);
      LaterCall(tables, n, tenant, o, list[k]);
    }
  }

  lemma {:induction false} RowOfList(table: Table, tenant: string, f: Filter, k: nat)
    requires Keyed(table) && PlainIds(table) && k < |Listing(table, Matches(tenant, f))|
    ensures
      var r := Listing(table, Matches(tenant, f))[k];
      r in table && Matches(tenant, f)(r) && PlainId(r.id)
  {
    ListingIsExact(table, Matches(tenant, f));
    assert Listing(table, Matches(tenant, f))[k] in Listing(table, Matches(tenant, f));
  }

  /** Call number `n` with cursor `after`, the one of row `k`. */
  datatype Stop = Stop(n: nat, after: Option<string>, k: nat)

  /** A way through a list: which stops belong to it, which follows which, what is still to be shown and how much that
      is. */
  datatype Tour = Tour(stops: Stop -> bool, next: Stop -> Stop, rest: Stop -> Table, left: Stop -> nat)

  /** The page got at a stop leads on to the next stop, or is the last. */
  ghost predicate LeadsOn(tour: Tour, s: Stop, page: Connection) {
    if page.hasNextPage then
      var s' := tour.next(s);
      && s'.n == s.n + 1 && s'.after == page.endCursor && tour.stops(s')
      && tour.left(s') < tour.left(s) && tour.rest(s) == Nodes(page) + tour.rest(s')
    else tour.rest(s) == Nodes(page)
  }

  ghost predicate Guides(tour: Tour, ask: Service) {
    forall s :: tour.stops(s) ==> ask(s.n, s.after).Listed? && LeadsOn(tour, s, ask(s.n, s.after).connection)
  }

  /** What the pages of a chain show is what its tour has to show. */
  lemma {:induction false} ChainShows(ask: Service, tour: Tour, s: Stop, pages: seq<Connection>)
    requires Guides(tour, ask) && tour.stops(s) && Chain(ask, s.n, s.after, pages)
    ensures AllNodes(pages) == tour.rest(s)
    decreases |pages|
  {
    if pages[0].hasNextPage {
      ChainShows(ask, tour, tour.next(s), pages[1..]);
    } else {
      assert pages[1..] == [];
    }
  }

  /** Following end cursors comes to a last page. */
  lemma {:induction false} ChainEnds(ask: Service, tour: Tour, s: Stop) returns (pages: seq<Connection>)
    requires Guides(tour, ask) && tour.stops(s)
    ensures Chain(ask, s.n, s.after, pages)
    decreases tour.left(s)
  {
    var page := ask(s.n, s.after).connection;
    pages := [page];
    if page.hasNextPage {
      var rest := ChainEnds(ask, tour, tour.next(s));
      pages := [page] + rest;
      assert pages[1..] == rest;
    }
  }

  /** Through `list` in pages of `size`, each call with the mark of the last row shown. */
  ghost function TourOf(list: Table, size: nat, mark: Marker): Tour {
    Tour(
      (s: Stop) => Marks(list, s.n, s.after, s.k, mark),
      (s: Stop) => NextStop(list, size, mark, s),
      (s: Stop) => Walk(list, Start(list, s.n, s.k), size),
      (s: Stop) => |list| - Start(list, s.n, s.k))
  }

  ghost function NextStop(list: Table, size: nat, mark: Marker, s: Stop): Stop {
    var e := Start(list, s.n, s.k) + size;
    if 0 < e <= |list| then Stop(s.n + 1, Some(mark(list[e - 1])), e - 1) else s
  }

  lemma {:induction false} PageLeadsOn(list: Table, size: nat, mark: Marker, s: Stop, page: Connection)
    requires Descending(list) && size > 0 && Marks(list, s.n, s.after, s.k, mark)
    requires IsPage(Listed(page), list, Start(list, s.n, s.k), size, mark)
    ensures LeadsOn(TourOf(list, size, mark), s, page)
  {
    TurnsFrom(list, size, Start(list, s.n, s.k), mark, page);
    if page.hasNextPage { NextStart(list, size, mark, s, page); }
  }

  lemma {:induction false} TurnsFrom(list: Table, size: nat, c: nat, mark: Marker, page: Connection)
    requires Descending(list) && size > 0 && c <= |list| && IsPage(Listed(page), list, c, size, mark)
    ensures page.hasNextPage ==>
      && c + size < |list| && c < Cut(list, Seen(list[c + size - 1]))
      && Walk(list, c, size) == Nodes(page) + Walk(list, Cut(list, Seen(list[c + size - 1])), size)
    ensures !page.hasNextPage ==> Walk(list, c, size) == Nodes(page)
  {
    WalkTurns(list, c, size, Nodes(page));
  }

  lemma {:induction false} NextStart(list: Table, size: nat, mark: Marker, s: Stop, page: Connection)
    requires size > 0 && IsPage(Listed(page), list, Start(list, s.n, s.k), size, mark) && page.hasNextPage
    ensures
      var s', e := NextStop(list, size, mark, s), Start(list, s.n, s.k) + size;
      && e < |list| && s' == Stop(s.n + 1, page.endCursor, e - 1)
      && Marks(list, s'.n, s'.after, s'.k, mark) && Start(list, s'.n, s'.k) == Cut(list, Seen(list[e - 1]))
  {
  }

  lemma {:induction false} TourGuides(tables: nat -> Table, tenant: string, o: Options)
    requires Setting(tables, tenant, o)
    ensures Guides(TourOf(Listing(tables(0), Matches(tenant, o.filter)), PageSize(o.first), RowCursor),
        CaseList(tables, tenant, o))
  {
    var ask, list, size := CaseList(tables, tenant, o), Listing(tables(0), Matches(tenant, o.filter)),
        PageSize(o.first);
    ListingIsExact(tables(0), Matches(tenant, o.filter));
    var tour := TourOf(list, size, RowCursor);
    forall s | tour.stops(s) ensures ask(s.n, s.after).Listed? && LeadsOn(tour, s, ask(s.n, s.after).connection) {
      CallIsPage(tables, s.n, tenant, o.(after := s.after), s.k);
      PageLeadsOn(list, size, RowCursor, s, ask(s.n, s.after).connection);
    }
  }

  /** Whatever cases are added ahead meanwhile, following end cursors comes to a last page; on the way it shows matching
      cases of the first list in order and none twice, and all of them exactly when no case hides at a page border. */
  lemma {:induction false} PagesPartitionTheList(tables: nat -> Table, tenant: string, o: Options)
    requires Setting(tables, tenant, o)
    ensures exists pages :: Chain(CaseList(tables, tenant, o), 0, None, pages)
    ensures forall pages :: Chain(CaseList(tables, tenant, o), 0, None, pages) ==>
      var list := Listing(tables(0), Matches(tenant, o.filter));
      && Descending(AllNodes(pages)) && (forall r :: r in AllNodes(pages) ==> r in list)
      && (AllNodes(pages) == list <==> BordersClear(list, 0, PageSize(o.first)))
  {
    var ask, list, size := CaseList(tables, tenant, o), Listing(tables(0), Matches(tenant, o.filter)),
        PageSize(o.first);
    ListingIsExact(tables(0), Matches(tenant, o.filter));
    TourGuides(tables, tenant, o);
    var tour := TourOf(list, size, RowCursor);
    var pages := ChainEnds(ask, tour, Stop(0, None, 0));
    WalkIsOrdered(list, 0, size);
    WalkIsComplete(list, 0, size);
    assert list[0..] == list;
    forall pages | Chain(ask, 0, None, pages) ensures AllNodes(pages) == Walk(list, 0, size) {
      ChainShows(ask, tour, Stop(0, None, 0), pages);
    }
  }

  lemma {:induction false} WholeBordersAreClear(list: Table, c: nat, size: nat)
    requires Descending(list) && Whole(list) && size > 0
    ensures BordersClear(list, c, size)
    decreases |list| - c
  {
    if c + size < |list| {
      WholeIsVisible(list, c + size - 1, c + size);
      WholeBordersAreClear(list, c + size, size);
    }
  }

  /** Two cases of one millisecond in pages of one: whoever follows the cursors never sees the second. */
  lemma {:induction false} SharedMillisecondHides() returns (table: Table, o: Options)
    ensures
      var tables := (n: nat) => table;
      var list := Listing(table, Matches("t", o.filter));
      && Setting(tables, "t", o) && |list| == 2
      && forall pages :: Chain(CaseList(tables, "t", o), 0, None, pages) ==> AllNodes(pages) != list
  {
    var newer, older_ := Row(1002, "a", LoanCase("t", "", "")), Row(1001, "b", LoanCase("t", "", ""));
    table, o := [newer, older_], Options(Filter(None, None), Some(1), None);
    var tables := (n: nat) => table;
    assert newer.id[0] != older_.id[0];
    ListingIsExact(table, Matches("t", o.filter));
    assert Descending([newer, older_]);
    DescendingUnique(Listing(table, Matches("t", o.filter)), [newer, older_]);
    assert !Clear([newer, older_], 1);
    PagesPartitionTheList(tables, "t", o);
  }
}
