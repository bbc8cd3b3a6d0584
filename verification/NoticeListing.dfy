/** The notice list and its export (app/repositories/notice_repository.py) as queries on one snapshot. */
module NoticeListing {
  import opened Options
  import opened Ordering
  import opened Text

  type Instant = int

  const SECONDS_PER_HOUR := 3600
  const RECENT_HOURS := 24

  /** A notice joined with its source site; versions only by their creation times. */
  datatype Notice = Notice(
    id: nat, siteId: string, sourceCode: string, sourceName: string,
    title: string, noticeType: string, issuer: Option<string>, region: Option<string>,
    publishedAt: Option<Instant>, deadlineAt: Option<Instant>, budgetAmount: Option<int>,
    externalId: Option<string>, projectCode: Option<string>,
    dedupKey: Option<string>, sourceDuplicateKey: Option<string>, dedupHash: Option<string>,
    createdAt: Instant, versionsCreatedAt: seq<Instant>)

  datatype Filters = Filters(
    keyword: Option<string>, sourceCode: Option<string>, noticeType: Option<string>, region: Option<string>,
    recentHours: Option<int>, publishedFrom: Option<Instant>, publishedTo: Option<Instant>)

  /** What the database decides: case-insensitive matching, and the place of a name in its collation. */
  datatype Database = Database(matches: (string, string) -> bool, collation: string -> int)

  datatype Row = Row(notice: Notice, dedupKey: string, isRecentNew: bool)

  datatype Entry = Entry(row: Row, duplicateCount: nat)

  // ---------------------------------------------------------------- base rows

  function NullIfBlank(s: Option<string>): Option<string> {
    if s.None? || Trim(s.value) == "" then None else Some(Trim(s.value))
  }

  function TrimmedOr(s: Option<string>, default: string): string {
    if s.None? then default else Trim(s.value)
  }

  function DedupKeyOf(n: Notice): string {
    NullIfBlank(n.dedupKey).Or(NullIfBlank(n.sourceDuplicateKey)).Or(NullIfBlank(n.dedupHash)).GetOr(
      "fallback:" + n.siteId + "|" + TrimmedOr(n.externalId, "") + "|" + TrimmedOr(n.projectCode, "") + "|" + Trim(n.title))
  }

  predicate CreatedSince(n: Notice, start: Instant) {
    n.createdAt >= start || exists t | t in n.versionsCreatedAt :: t >= start
  }

  predicate Wanted(filter: Option<string>, value: Option<string>) {
    filter.None? || filter.value == "" || value == filter
  }

  predicate Admits(f: Filters, d: Database, now: Instant, n: Notice) {
    && (f.keyword.None? || Strip(f.keyword.value) == "" ||
        d.matches(n.title, Strip(f.keyword.value))
        || (n.issuer.Some? && d.matches(n.issuer.value, Strip(f.keyword.value)))
        || (n.region.Some? && d.matches(n.region.value, Strip(f.keyword.value))))
    && Wanted(f.sourceCode, Some(n.sourceCode)) && Wanted(f.noticeType, Some(n.noticeType)) && Wanted(f.region, n.region)
    && (f.recentHours.Some? ==> CreatedSince(n, now - f.recentHours.value * SECONDS_PER_HOUR))
    && (f.publishedFrom.Some? ==> n.publishedAt.Some? && n.publishedAt.value >= f.publishedFrom.value)
    && (f.publishedTo.Some? ==> n.publishedAt.Some? && n.publishedAt.value <= f.publishedTo.value)
  }

  function BaseRows(table: seq<Notice>, f: Filters, d: Database, now: Instant): seq<Row> {
    if table == [] then []
    else
      (if Admits(f, d, now, table[0])
       then [Row(table[0], DedupKeyOf(table[0]), CreatedSince(table[0], now - RECENT_HOURS * SECONDS_PER_HOUR))] else [])
      + BaseRows(table[1..], f, d, now)
  }

  /** The primary key, as far as these rows go. */
  ghost predicate DistinctIds(rows: seq<Row>) {
    forall i, j | 0 <= i < j < |rows| :: rows[i].notice.id != rows[j].notice.id
  }

  ghost predicate DistinctNotices(table: seq<Notice>) {
    forall i, j | 0 <= i < j < |table| :: table[i].id != table[j].id
  }

  lemma {:induction false} BaseRowsKeepTheKey(table: seq<Notice>, f: Filters, d: Database, now: Instant)
    requires DistinctNotices(table)
    ensures DistinctIds(BaseRows(table, f, d, now))
    ensures forall r | r in BaseRows(table, f, d, now) :: exists n | n in table :: r.notice.id == n.id
  {
    if table != [] {
      BaseRowsKeepTheKey(table[1..], f, d, now);
      assert table[0] in table && forall n | n in table[1..] :: n in table;
    }
  }

  /** A filter left open, or given as an empty text, lets every value pass; any other only its own. */
  predicate Passes(filter: Option<string>, value: Option<string>) {
    match filter
    case None => true
    case Some(wanted) => wanted == "" || (value.Some? && value.value == wanted)
  }

  /** A row is listed for exactly the notices of the table that pass every filter: a keyword that is not
      blank occurs in the title, the issuer or the region; the creation of the notice or of one of its
      versions is recent enough; a notice without a date passes no date filter. */
  lemma {:induction false} FiltersAreExact(table: seq<Notice>, f: Filters, d: Database, now: Instant, n: Notice)
    ensures (exists r :: r in BaseRows(table, f, d, now) && r.notice == n) <==>
              && n in table
              && (f.keyword.Some? && !AllSpaces(f.keyword.value) ==>
                    || d.matches(n.title, Strip(f.keyword.value))
                    || (n.issuer.Some? && d.matches(n.issuer.value, Strip(f.keyword.value)))
                    || (n.region.Some? && d.matches(n.region.value, Strip(f.keyword.value))))
              && Passes(f.sourceCode, Some(n.sourceCode)) && Passes(f.noticeType, Some(n.noticeType)) && Passes(f.region, n.region)
              && (forall hours | f.recentHours == Some(hours) ::
                    n.createdAt >= now - hours * 3600 || exists t :: t in n.versionsCreatedAt && t >= now - hours * 3600)
              && (forall day | f.publishedFrom == Some(day) :: n.publishedAt.Some? && day <= n.publishedAt.value)
              && (forall day | f.publishedTo == Some(day) :: n.publishedAt.Some? && n.publishedAt.value <= day)
  {
    if f.keyword.Some? { StripOfBlank(f.keyword.value); }
    BaseRowsMembers(table, f, d, now, n);
    hide BaseRows;
    assert Admits(f, d, now, n) <==>
              && (f.keyword.Some? && !AllSpaces(f.keyword.value) ==>
                    || d.matches(n.title, Strip(f.keyword.value))
                    || (n.issuer.Some? && d.matches(n.issuer.value, Strip(f.keyword.value)))
                    || (n.region.Some? && d.matches(n.region.value, Strip(f.keyword.value))))
              && Passes(f.sourceCode, Some(n.sourceCode)) && Passes(f.noticeType, Some(n.noticeType)) && Passes(f.region, n.region)
              && (forall hours | f.recentHours == Some(hours) ::
                    n.createdAt >= now - hours * 3600 || exists t :: t in n.versionsCreatedAt && t >= now - hours * 3600)
              && (forall day | f.publishedFrom == Some(day) :: n.publishedAt.Some? && day <= n.publishedAt.value)
              && (forall day | f.publishedTo == Some(day) :: n.publishedAt.Some? && n.publishedAt.value <= day);
  }

  lemma {:induction false} BaseRowsMembers(table: seq<Notice>, f: Filters, d: Database, now: Instant, n: Notice)
    ensures (exists r :: r in BaseRows(table, f, d, now) && r.notice == n) <==> n in table && Admits(f, d, now, n)
    ensures forall r | r in BaseRows(table, f, d, now) ::
              r.dedupKey == DedupKeyOf(r.notice) && r.isRecentNew == CreatedSince(r.notice, now - RECENT_HOURS * SECONDS_PER_HOUR)
  {
    hide Admits, DedupKeyOf, CreatedSince;
    if table != [] {
      var rest := BaseRows(table[1..], f, d, now);
      BaseRowsMembers(table[1..], f, d, now, n);
      assert table == [table[0]] + table[1..];
      var own := if Admits(f, d, now, table[0])
                 then [Row(table[0], DedupKeyOf(table[0]), CreatedSince(table[0], now - RECENT_HOURS * SECONDS_PER_HOUR))] else [];
      assert BaseRows(table, f, d, now) == own + rest;
      assert forall r :: r in own + rest <==> r in own || r in rest;
      if n == table[0] && Admits(f, d, now, n) { assert own[0] in own; }
    }
  }

  predicate Blank(s: Option<string>) { s == None || AllBlanks(s.value) }

  /** The dedup key of a listed row: the first of dedup key, source duplicate key and dedup hash that is
      not blank, without the blanks around it; and its flag: created, or given a version, in the last day. */
  lemma {:induction false} KeyAndFlagOfRow(table: seq<Notice>, f: Filters, d: Database, now: Instant, r: Row,
                                           left: string, core: string, right: string)
    requires r in BaseRows(table, f, d, now)
    requires AllBlanks(left) && AllBlanks(right) && core != "" && !IsBlank(core[0]) && !IsBlank(core[|core| - 1])
    ensures var n := r.notice;
            && (n.dedupKey == Some(left + core + right) ==> r.dedupKey == core)
            && (Blank(n.dedupKey) && n.sourceDuplicateKey == Some(left + core + right) ==> r.dedupKey == core)
            && (Blank(n.dedupKey) && Blank(n.sourceDuplicateKey) && n.dedupHash == Some(left + core + right) ==> r.dedupKey == core)
            && (Blank(n.dedupKey) && Blank(n.sourceDuplicateKey) && Blank(n.dedupHash) ==>
                  r.dedupKey == "fallback:" + n.siteId + "|" + TrimmedOr(n.externalId, "") + "|" + TrimmedOr(n.projectCode, "") + "|" + Trim(n.title))
            && (r.isRecentNew <==> n.createdAt >= now - 86400 || exists t :: t in n.versionsCreatedAt && t >= now - 86400)
  {
    BaseRowsMembers(table, f, d, now, r.notice);
    hide BaseRows, Trim;
    TrimOfPadded(left, core, right);
    KeyIsBlank(r.notice.dedupKey);
    KeyIsBlank(r.notice.sourceDuplicateKey);
    KeyIsBlank(r.notice.dedupHash);
  }

  lemma KeyIsBlank(s: Option<string>)
    ensures NullIfBlank(s) == None <==> Blank(s)
  {
    if s.Some? { TrimOfBlank(s.value); }
  }

  // ---------------------------------------------------------------- sorting

  datatype Column = PublishedAt | DeadlineAt | BudgetAmount | SourceName

  datatype Order = Order(column: Column, ascending: bool)

  const DEFAULT_ORDER := Order(PublishedAt, false)

  /** Unknown columns sort by publication, unknown directions downwards. */
  function OrderOf(sortBy: string, sortOrder: string): Order {
    Order(if sortBy == "deadline_at" then DeadlineAt else if sortBy == "budget_amount" then BudgetAmount
          else if sortBy == "source_name" then SourceName else PublishedAt,
          sortOrder == "asc")
  }

  function Value(d: Database, column: Column, r: Row): Option<int> {
    match column
    case PublishedAt => r.notice.publishedAt
    case DeadlineAt => r.notice.deadlineAt
    case BudgetAmount => r.notice.budgetAmount
    case SourceName => Some(d.collation(r.notice.sourceName))
  }

  /** Missing values last, then the value, then the newest id. */
  predicate ByValue(x: Option<int>, y: Option<int>, ascending: bool, idX: nat, idY: nat) {
    if x.None? != y.None? then y.None?
    else if x.Some? && x.value != y.value then (if ascending then x.value < y.value else x.value > y.value)
    else idX >= idY
  }

  predicate RowBefore(d: Database, o: Order, a: Row, b: Row) {
    if !o.ascending && o.column == PublishedAt && a.isRecentNew != b.isRecentNew then a.isRecentNew
    else ByValue(Value(d, o.column, a), Value(d, o.column, b), o.ascending, a.notice.id, b.notice.id)
  }

  function RowOrder(d: Database, o: Order): (Row, Row) -> bool {
    (a, b) => RowBefore(d, o, a, b)
  }

  function EntryOrder(d: Database, o: Order): (Entry, Entry) -> bool {
    (a: Entry, b: Entry) => RowBefore(d, o, a.row, b.row)
  }

  // ---------------------------------------------------------------- window functions

  /** The order inside a partition of equal dedup keys. */
  predicate RankedBefore(a: Row, b: Row) {
    if a.isRecentNew != b.isRecentNew then a.isRecentNew
    else ByValue(a.notice.publishedAt, b.notice.publishedAt, false, a.notice.id, b.notice.id)
  }

  /** `ROW_NUMBER() OVER (PARTITION BY dedup_key ORDER BY ..)`. */
  function RowRank(rows: seq<Row>, r: Row): nat {
    1 + |set other | other in rows && other != r && other.dedupKey == r.dedupKey && RankedBefore(other, r)|
  }

  function Leads(rows: seq<Row>): Row -> bool {
    r => RowRank(rows, r) == 1
  }

  /** `COUNT(*) OVER (PARTITION BY dedup_key)`. */
  function KeyCount(rows: seq<Row>, key: string): nat {
    if rows == [] then 0 else (if rows[0].dedupKey == key then 1 else 0) + KeyCount(rows[1..], key)
  }

  function Counted(rows: seq<Row>, part: seq<Row>): (r: seq<Entry>)
    ensures |r| == |part| && forall i | 0 <= i < |r| :: r[i] == Entry(part[i], KeyCount(rows, part[i].dedupKey))
  {
    if part == [] then [] else [Entry(part[0], KeyCount(rows, part[0].dedupKey))] + Counted(rows, part[1..])
  }

  function Singles(rows: seq<Row>): (r: seq<Entry>)
    ensures |r| == |rows| && forall i | 0 <= i < |r| :: r[i] == Entry(rows[i], 1)
  {
    if rows == [] then [] else [Entry(rows[0], 1)] + Singles(rows[1..])
  }

  function ListQuery(rows: seq<Row>, dedup: bool): seq<Entry> {
    if dedup then Counted(rows, Filter(Leads(rows), rows)) else Singles(rows)
  }

  // ---------------------------------------------------------------- results

  /** What one evaluation of the export may return. */
  ghost predicate IsExport(d: Database, rows: seq<Row>, dedup: bool, o: Order, result: seq<Entry>) {
    IsOrderingOf(EntryOrder(d, o), ListQuery(rows, dedup), result)
  }

  function Slice<T>(s: seq<T>, limit: nat, offset: nat): seq<T> {
    if offset >= |s| then [] else Limit(limit, s[offset..])
  }

  /** What one evaluation of the list may return. */
  ghost predicate IsPage(d: Database, rows: seq<Row>, dedup: bool, o: Order, limit: nat, offset: nat, page: seq<Entry>) {
    exists full :: IsExport(d, rows, dedup, o, full) && page == Slice(full, limit, offset)
  }

  function Export(d: Database, rows: seq<Row>, dedup: bool, o: Order): seq<Entry> {
    Sort(EntryOrder(d, o), ListQuery(rows, dedup))
  }

  function RowsOf(entries: seq<Entry>): (r: seq<Row>)
    ensures |r| == |entries| && forall i | 0 <= i < |r| :: r[i] == entries[i].row
  {
    if entries == [] then [] else [entries[0].row] + RowsOf(entries[1..])
  }

  predicate Appears(key: string, rows: seq<Row>) {
    exists r | r in rows :: r.dedupKey == key
  }

  /** The rows whose dedup key has not appeared before them. */
  function FirstOccurrences(rows: seq<Row>): seq<Row> {
    if rows == [] then []
    else
      var last := rows[|rows| - 1];
      FirstOccurrences(rows[..|rows| - 1])
      + if Appears(last.dedupKey, rows[..|rows| - 1]) then [] else [last]
  }

  function Total(entries: seq<Entry>): nat {
    if entries == [] then 0 else entries[0].duplicateCount + Total(entries[1..])
  }

  // ---------------------------------------------------------------- orders are total

  lemma SameIdSameRow(rows: seq<Row>, a: Row, b: Row)
    requires DistinctIds(rows) && a in rows && b in rows && a.notice.id == b.notice.id
    ensures a == b
  {
  }

  lemma RowOrderIsTotal(d: Database, o: Order, rows: seq<Row>)
    requires DistinctIds(rows)
    ensures TotalOrderOn(RowOrder(d, o), rows)
  {
    var leq := RowOrder(d, o);
    forall x, y | x in rows && y in rows && leq(x, y) && leq(y, x) ensures x == y {
      SameIdSameRow(rows, x, y);
    }
  }

  /** Distinct rows wrapped as entries, in any way that keeps the row. */
  ghost predicate Wraps(entries: seq<Entry>, rows: seq<Row>) {
    |entries| == |rows| && forall i | 0 <= i < |rows| :: entries[i].row == rows[i]
  }

  lemma EntryOrderIsTotal(d: Database, o: Order, entries: seq<Entry>, rows: seq<Row>)
    requires DistinctIds(rows) && Wraps(entries, rows)
    ensures TotalOrderOn(EntryOrder(d, o), entries)
  {
    RowOrderIsTotal(d, o, rows);
    assert Distinct(rows);
    hide RowBefore, DistinctIds;
    var leq := EntryOrder(d, o);
    var rowLeq := RowOrder(d, o);
    forall e | e in entries ensures e.row in rows {
      var i :| 0 <= i < |entries| && entries[i] == e;
      assert rows[i] == e.row;
    }
    forall x, y | x in entries && y in entries && leq(x, y) && leq(y, x) ensures x == y {
      var i :| 0 <= i < |entries| && entries[i] == x;
      var j :| 0 <= j < |entries| && entries[j] == y;
      assert rowLeq(x.row, y.row) && rowLeq(y.row, x.row);
      assert rows[i] == rows[j];
      assert i == j;
    }
    forall x, y | x in entries && y in entries ensures leq(x, y) || leq(y, x) {
      assert rowLeq(x.row, y.row) || rowLeq(y.row, x.row);
    }
    forall x, y, z | x in entries && y in entries && z in entries && leq(x, y) && leq(y, z) ensures leq(x, z) {
      assert rowLeq(x.row, y.row) && rowLeq(y.row, z.row);
    }
  }

  lemma {:induction false} FilterKeepsIds(keep: Row -> bool, rows: seq<Row>)
    requires DistinctIds(rows)
    ensures DistinctIds(Filter(keep, rows))
  {
    if rows != [] {
      FilterKeepsIds(keep, rows[1..]);
      var rest := Filter(keep, rows[1..]);
      FilterMembers(keep, rows[1..]);
      forall j | 0 <= j < |rest| ensures rows[0].notice.id != rest[j].notice.id {
        assert rest[j] in rows[1..];
        var i :| 0 <= i < |rows[1..]| && rows[1..][i] == rest[j];
        assert rest[j] == rows[i + 1];
      }
      assert Filter(keep, rows) == (if keep(rows[0]) then [rows[0]] else []) + rest;
    }
  }

  lemma SortedRows(d: Database, o: Order, rows: seq<Row>)
    requires DistinctIds(rows)
    ensures var sorted := Sort(RowOrder(d, o), rows);
            SortedBy(RowOrder(d, o), sorted) && DistinctIds(sorted) && |sorted| == |rows| && forall r :: r in sorted <==> r in rows
  {
    hide RowBefore;
    var sorted := Sort(RowOrder(d, o), rows);
    RowOrderIsTotal(d, o, rows);
    SortOrders(RowOrder(d, o), rows);
    SameMembers(sorted, rows);
    assert Distinct(rows);
    RearrangementIsDistinct(rows, sorted);
    forall i, j | 0 <= i < j < |sorted| ensures sorted[i].notice.id != sorted[j].notice.id {
      assert sorted[i] in rows && sorted[j] in rows;
      if sorted[i].notice.id == sorted[j].notice.id { SameIdSameRow(rows, sorted[i], sorted[j]); }
    }
  }

  /** Sorting entries is sorting their rows. */
  lemma SortEntries(d: Database, o: Order, entries: seq<Entry>, rows: seq<Row>, entries': seq<Entry>, rows': seq<Row>)
    requires DistinctIds(rows) && Wraps(entries, rows)
    requires DistinctIds(rows') && Wraps(entries', rows') && SortedBy(RowOrder(d, o), rows')
    requires forall e :: e in entries <==> e in entries'
    ensures Sort(EntryOrder(d, o), entries) == entries'
  {
    hide RowBefore;
    EntryOrderIsTotal(d, o, entries, rows);
    assert Distinct(entries) by {
      forall i, j | 0 <= i < j < |entries| ensures entries[i] != entries[j] { assert rows[i] != rows[j]; }
    }
    assert Distinct(entries') by {
      forall i, j | 0 <= i < j < |entries'| ensures entries'[i] != entries'[j] { assert rows'[i] != rows'[j]; }
    }
    DistinctWithSameMembers(entries, entries');
    var leq := EntryOrder(d, o);
    var rowLeq := RowOrder(d, o);
    assert SortedBy(leq, entries') by {
      forall i, j | 0 <= i < j < |entries'| ensures leq(entries'[i], entries'[j]) { assert rowLeq(rows'[i], rows'[j]); }
    }
    SortIgnoresArrangement(leq, entries, entries');
    EntryOrderIsTotal(d, o, entries', rows');
    SortOfSorted(leq, entries');
  }

  lemma SinglesMembers(rows: seq<Row>, e: Entry)
    ensures e in Singles(rows) <==> e.row in rows && e.duplicateCount == 1
  {
    if e.row in rows && e.duplicateCount == 1 {
      var i :| 0 <= i < |rows| && rows[i] == e.row;
      assert Singles(rows)[i] == e;
    }
  }

  lemma CountedMembers(rows: seq<Row>, part: seq<Row>, e: Entry)
    ensures e in Counted(rows, part) <==> e.row in part && e.duplicateCount == KeyCount(rows, e.row.dedupKey)
  {
    if e.row in part && e.duplicateCount == KeyCount(rows, e.row.dedupKey) {
      var i :| 0 <= i < |part| && part[i] == e.row;
      assert Counted(rows, part)[i] == e;
    }
  }

  lemma PlainExport(d: Database, rows: seq<Row>, o: Order)
    requires DistinctIds(rows)
    ensures Export(d, rows, false, o) == Singles(Sort(RowOrder(d, o), rows))
  {
    hide RowBefore, Singles, Sort;
    var sorted := Sort(RowOrder(d, o), rows);
    SortedRows(d, o, rows);
    forall e ensures e in Singles(rows) <==> e in Singles(sorted) {
      SinglesMembers(rows, e);
      SinglesMembers(sorted, e);
    }
    SortEntries(d, o, Singles(rows), rows, Singles(sorted), sorted);
  }

  lemma {:induction false} DedupExport(d: Database, rows: seq<Row>, o: Order)
    requires DistinctIds(rows)
    ensures Export(d, rows, true, o) == Counted(rows, Filter(Leads(rows), Sort(RowOrder(d, o), rows)))
  {
    hide RowBefore, Counted, Sort, RowRank, Filter;
    var sorted := Sort(RowOrder(d, o), rows);
    SortedRows(d, o, rows);
    var leaders := Filter(Leads(rows), rows);
    var sortedLeaders := Filter(Leads(rows), sorted);
    FilterKeepsIds(Leads(rows), rows);
    FilterKeepsIds(Leads(rows), sorted);
    FilterKeepsOrder(RowOrder(d, o), Leads(rows), sorted);
    FilterMembers(Leads(rows), rows);
    FilterMembers(Leads(rows), sorted);
    forall e ensures e in Counted(rows, leaders) <==> e in Counted(rows, sortedLeaders) {
      CountedMembers(rows, leaders, e);
      CountedMembers(rows, sortedLeaders, e);
    }
    SortEntries(d, o, Counted(rows, leaders), leaders, Counted(rows, sortedLeaders), sortedLeaders);
  }

  /** However the database evaluates a query, ids break every tie and the result is the same. */
  lemma {:induction false} EvaluationsAgree(d: Database, rows: seq<Row>, dedup: bool, o: Order, result: seq<Entry>)
    requires DistinctIds(rows) && IsExport(d, rows, dedup, o, result)
    ensures result == Export(d, rows, dedup, o)
  {
    hide RowBefore, Counted, Singles, RowRank, Filter;
    var part := if dedup then Filter(Leads(rows), rows) else rows;
    FilterKeepsIds(Leads(rows), rows);
    EntryOrderIsTotal(d, o, ListQuery(rows, dedup), part);
    SameMembers(result, ListQuery(rows, dedup));
    SortIgnoresArrangement(EntryOrder(d, o), ListQuery(rows, dedup), result);
    OrderOnMembers(EntryOrder(d, o), ListQuery(rows, dedup), result);
    SortOfSorted(EntryOrder(d, o), result);
  }

  /** Recent notices first under the default sort; otherwise missing values last, values in the
      direction asked for, newest id first among equals. */
  ghost predicate ReadsInOrder(d: Database, o: Order, a: Row, b: Row) {
    var x := Value(d, o.column, a);
    var y := Value(d, o.column, b);
    && (o == DEFAULT_ORDER && b.isRecentNew ==> a.isRecentNew)
    && (o != DEFAULT_ORDER || a.isRecentNew == b.isRecentNew ==>
          && (x.None? ==> y.None?)
          && (x.Some? && y.Some? ==> if o.ascending then x.value <= y.value else x.value >= y.value)
          && (x == y ==> a.notice.id > b.notice.id))
  }

  lemma BeforeReadsInOrder(d: Database, o: Order, a: Row, b: Row)
    requires RowBefore(d, o, a, b) && a.notice.id != b.notice.id
    ensures ReadsInOrder(d, o, a, b)
  {
  }

  /** Any two entries of an export, in the order they appear. */
  lemma {:induction false} ExportOrder(d: Database, rows: seq<Row>, dedup: bool, o: Order, i: nat, j: nat)
    requires DistinctIds(rows) && i < j < |Export(d, rows, dedup, o)|
    ensures ReadsInOrder(d, o, Export(d, rows, dedup, o)[i].row, Export(d, rows, dedup, o)[j].row)
  {
    hide RowBefore, RowRank, Filter, Sort, Export, ReadsInOrder;
    var sorted := Sort(RowOrder(d, o), rows);
    var shown := if dedup then Filter(Leads(rows), sorted) else sorted;
    SortedRows(d, o, rows);
    FilterKeepsOrder(RowOrder(d, o), Leads(rows), sorted);
    FilterKeepsIds(Leads(rows), sorted);
    PlainExport(d, rows, o);
    DedupExport(d, rows, o);
    var full := Export(d, rows, dedup, o);
    assert |full| == |shown| && full[i].row == shown[i] && full[j].row == shown[j];
    assert RowOrder(d, o)(shown[i], shown[j]) && shown[i].notice.id != shown[j].notice.id;
    BeforeReadsInOrder(d, o, shown[i], shown[j]);
  }

  /** One column of two rows in the order they are listed: missing last, and newest id first among equals. */
  predicate InDirection(x: Option<int>, y: Option<int>, ascending: bool, idX: nat, idY: nat) {
    && (x == None ==> y == None)
    && (x.Some? && y.Some? ==> if ascending then x.value <= y.value else y.value <= x.value)
    && (x == y ==> idX > idY)
  }

  /** The list as a caller asks for it, by the names of column and direction, read off the notices: any
      other column name means publication, any other direction means downwards, and downwards by
      publication puts recent notices before all others. */
  lemma {:induction false} ListedAsAsked(d: Database, rows: seq<Row>, dedup: bool, sortBy: string, sortOrder: string, i: nat, j: nat)
    requires DistinctIds(rows) && i < j < |Export(d, rows, dedup, OrderOf(sortBy, sortOrder))|
    ensures var full := Export(d, rows, dedup, OrderOf(sortBy, sortOrder));
            var a, b := full[i].row, full[j].row;
            var up := sortOrder == "asc";
            var x, y := a.notice, b.notice;
            && (sortBy == "deadline_at" ==> InDirection(x.deadlineAt, y.deadlineAt, up, x.id, y.id))
            && (sortBy == "budget_amount" ==> InDirection(x.budgetAmount, y.budgetAmount, up, x.id, y.id))
            && (sortBy == "source_name" ==>
                  InDirection(Some(d.collation(x.sourceName)), Some(d.collation(y.sourceName)), up, x.id, y.id))
            && (sortBy != "deadline_at" && sortBy != "budget_amount" && sortBy != "source_name" ==>
                  && (up ==> InDirection(x.publishedAt, y.publishedAt, true, x.id, y.id))
                  && (!up && b.isRecentNew ==> a.isRecentNew)
                  && (!up && a.isRecentNew == b.isRecentNew ==> InDirection(x.publishedAt, y.publishedAt, false, x.id, y.id)))
  {
    hide Export;
    ExportOrder(d, rows, dedup, OrderOf(sortBy, sortOrder), i, j);
  }

  // ---------------------------------------------------------------- deduplication

  /** For every sort, the deduplicated list is the full list with only the leader of each key kept. */
  lemma {:induction false} DedupKeepsLeaders(d: Database, rows: seq<Row>, o: Order)
    requires DistinctIds(rows)
    ensures RowsOf(Export(d, rows, true, o)) == Filter(Leads(rows), RowsOf(Export(d, rows, false, o)))
  {
    hide RowBefore, Counted, Singles, RowRank, Filter, Sort, Export;
    PlainExport(d, rows, o);
    DedupExport(d, rows, o);
    var sorted := Sort(RowOrder(d, o), rows);
    assert RowsOf(Singles(sorted)) == sorted;
    assert RowsOf(Counted(rows, Filter(Leads(rows), sorted))) == Filter(Leads(rows), sorted);
  }

  /** The leader of a key is the row no other row of that key is ranked before. */
  lemma {:induction false} LeaderIsUnbeaten(rows: seq<Row>, r: Row)
    ensures Leads(rows)(r) <==> forall other | other in rows && other != r && other.dedupKey == r.dedupKey :: !RankedBefore(other, r)
  {
    var before := set other | other in rows && other != r && other.dedupKey == r.dedupKey && RankedBefore(other, r);
    if Leads(rows)(r) {
      assert before == {};
      forall other | other in rows && other != r && other.dedupKey == r.dedupKey ensures !RankedBefore(other, r) {
        assert RankedBefore(other, r) ==> other in before;
      }
    } else {
      assert before != {};
      var other :| other in before;
    }
  }

  lemma RankIsTheDefaultOrder(d: Database, a: Row, b: Row)
    ensures RankedBefore(a, b) == RowBefore(d, DEFAULT_ORDER, a, b)
  {
  }

  /** In the default order a row leads its key exactly if it is the first of its key. */
  lemma LeaderComesFirst(d: Database, rows: seq<Row>, sorted: seq<Row>, n: nat)
    requires DistinctIds(rows) && DistinctIds(sorted) && SortedBy(RowOrder(d, DEFAULT_ORDER), sorted)
    requires (forall r :: r in sorted <==> r in rows) && n < |sorted|
    ensures Leads(rows)(sorted[n]) <==> !Appears(sorted[n].dedupKey, sorted[..n])
  {
    var leq := RowOrder(d, DEFAULT_ORDER);
    var r := sorted[n];
    LeaderIsUnbeaten(rows, r);
    hide Leads;
    if Appears(r.dedupKey, sorted[..n]) {
      var earlier :| earlier in sorted[..n] && earlier.dedupKey == r.dedupKey;
      var i :| 0 <= i < n && sorted[i] == earlier;
      assert leq(sorted[i], r) && sorted[i] in rows && sorted[i] != r;
      RankIsTheDefaultOrder(d, sorted[i], r);
    } else {
      forall other | other in rows && other != r && other.dedupKey == r.dedupKey ensures !RankedBefore(other, r) {
        assert other in sorted;
        var j :| 0 <= j < |sorted| && sorted[j] == other;
        assert forall k | 0 <= k < n :: sorted[k] in sorted[..n];
        assert j > n && leq(r, other);
        RowOrderIsTotal(d, DEFAULT_ORDER, rows);
        assert r in sorted && r in rows;
        RankIsTheDefaultOrder(d, other, r);
        assert leq(other, r) ==> other == r;
      }
    }
  }

  lemma FirstOccurrencesSnoc(s: seq<Row>, x: Row)
    ensures FirstOccurrences(s + [x]) == FirstOccurrences(s) + if Appears(x.dedupKey, s) then [] else [x]
  {
    assert (s + [x])[..|s|] == s;
  }

  lemma {:induction false} KeepingFirsts(keep: Row -> bool, s: seq<Row>)
    requires forall n | 0 <= n < |s| :: keep(s[n]) <==> !Appears(s[n].dedupKey, s[..n])
    ensures Filter(keep, s) == FirstOccurrences(s)
  {
    hide Appears;
    if s != [] {
      var init := s[..|s| - 1];
      var last := s[|s| - 1];
      forall n | 0 <= n < |init| ensures keep(init[n]) <==> !Appears(init[n].dedupKey, init[..n]) {
        assert init[n] == s[n] && init[..n] == s[..n];
      }
      KeepingFirsts(keep, init);
      assert s == init + [last];
      FilterSnoc(keep, init, last);
    }
  }

  /** Under the default sort the deduplicated list is the full list with only the first row of each
      dedup key kept, and each kept entry counts the rows of its key. */
  lemma {:induction false} DedupKeepsFirstOccurrences(d: Database, rows: seq<Row>)
    requires DistinctIds(rows)
    ensures var full := Export(d, rows, false, DEFAULT_ORDER);
            var deduped := Export(d, rows, true, DEFAULT_ORDER);
            && RowsOf(deduped) == FirstOccurrences(RowsOf(full))
            && forall e | e in deduped :: e.duplicateCount == KeyCount(rows, e.row.dedupKey)
  {
    hide RowBefore, Singles, RowRank, Filter, Sort, Export, FirstOccurrences, Appears, Leads;
    DedupKeepsLeaders(d, rows, DEFAULT_ORDER);
    PlainExport(d, rows, DEFAULT_ORDER);
    DedupExport(d, rows, DEFAULT_ORDER);
    var sorted := Sort(RowOrder(d, DEFAULT_ORDER), rows);
    SortedRows(d, DEFAULT_ORDER, rows);
    assert RowsOf(Singles(sorted)) == sorted;
    forall n | 0 <= n < |sorted| ensures Leads(rows)(sorted[n]) <==> !Appears(sorted[n].dedupKey, sorted[..n]) {
      LeaderComesFirst(d, rows, sorted, n);
    }
    KeepingFirsts(Leads(rows), sorted);
  }

  /** The list an order shows first-occurrence style: deduplicating means keeping the first row of each key. */
  ghost predicate KeepsFirsts(d: Database, rows: seq<Row>, o: Order) {
    RowsOf(Export(d, rows, true, o)) == FirstOccurrences(RowsOf(Export(d, rows, false, o)))
  }

  const BLANK := Notice(0, "1", "", "", "", "", None, None, None, None, None, None, None, Some("key"), None, None, 0, [])

  /** Two notices of one dedup key; the one ranked second comes first in the given order. */
  function RivalNotices(ascending: bool): seq<Notice> {
    var low := BLANK.(id := 1, sourceName := if ascending then "" else "n", publishedAt := Some(1),
                      deadlineAt := Some(if ascending then 1 else 2), budgetAmount := Some(if ascending then 1 else 2));
    var high := BLANK.(id := 2, sourceName := if ascending then "n" else "", publishedAt := Some(2),
                       deadlineAt := Some(if ascending then 2 else 1), budgetAmount := Some(if ascending then 2 else 1));
    [low, high]
  }

  function Rivals(ascending: bool): seq<Row> {
    [Row(RivalNotices(ascending)[0], "key", false), Row(RivalNotices(ascending)[1], "key", false)]
  }

  const BY_LENGTH := Database((text, keyword) => false, name => |name|)

  const NO_FILTERS := Filters(None, None, None, None, None, None, None)

  /** Two days after both notices were stored. */
  const LATER := 2 * RECENT_HOURS * SECONDS_PER_HOUR

  /** The rivals are what the query reads from a table of these two notices. */
  lemma RivalsComeFromATable(d: Database, ascending: bool)
    ensures DistinctNotices(RivalNotices(ascending))
    ensures BaseRows(RivalNotices(ascending), NO_FILTERS, d, LATER) == Rivals(ascending)
  {
    var table := RivalNotices(ascending);
    assert Trim("key") == "key";
    assert table[1..] == [table[1]] && table[1..][1..] == [];
    assert BaseRows([], NO_FILTERS, d, LATER) == [];
    assert BaseRows(table[1..], NO_FILTERS, d, LATER) == [Rivals(ascending)[1]];
  }

  lemma RivalsInOrder(o: Order)
    requires o != DEFAULT_ORDER
    ensures var rows := Rivals(o.ascending);
            DistinctIds(rows) && SortedBy(RowOrder(BY_LENGTH, o), rows) && RankedBefore(rows[1], rows[0]) && |rows| == 2
            && rows[0].dedupKey == rows[1].dedupKey && rows[0] != rows[1]
  {
  }

  /** Of two rows with one key the first in the list occurs first, but the one ranked second is dropped. */
  lemma SecondRankedIsDropped(d: Database, rows: seq<Row>, o: Order)
    requires DistinctIds(rows) && SortedBy(RowOrder(d, o), rows) && |rows| == 2
    requires rows[0].dedupKey == rows[1].dedupKey && RankedBefore(rows[1], rows[0])
    ensures !KeepsFirsts(d, rows, o)
  {
    hide RowBefore, RankedBefore, Sort, Export;
    RowOrderIsTotal(d, o, rows);
    SortOfSorted(RowOrder(d, o), rows);
    PlainExport(d, rows, o);
    DedupKeepsLeaders(d, rows, o);
    LeaderIsUnbeaten(rows, rows[0]);
    assert rows[1] in rows && rows[1] != rows[0];
    hide Leads, DistinctIds, SortedBy;
    assert RowsOf(Singles(rows)) == rows;
    assert rows[0] !in RowsOf(Export(d, rows, true, o));
    FirstRowOccursFirst(rows);
  }

  lemma FirstRowOccursFirst(rows: seq<Row>)
    requires |rows| == 2
    ensures rows[0] in FirstOccurrences(rows)
  {
    FirstOccurrencesSnoc([rows[0]], rows[1]);
    FirstOccurrencesSnoc([], rows[0]);
    hide FirstOccurrences;
    assert [] + [rows[0]] == [rows[0]] && [rows[0]] + [rows[1]] == rows;
  }

  lemma RivalsLoseTheFirst(o: Order)
    requires o != DEFAULT_ORDER
    ensures DistinctIds(Rivals(o.ascending)) && !KeepsFirsts(BY_LENGTH, Rivals(o.ascending), o)
  {
    RivalsInOrder(o);
    hide Rivals, RowBefore, RankedBefore, KeepsFirsts;
    SecondRankedIsDropped(BY_LENGTH, Rivals(o.ascending), o);
  }

  /** Keeping first occurrences is what deduplication does under the default sort, for every table,
      filter and clock, and under no other sort. */
  lemma {:induction false} FirstOccurrencesExactly(o: Order)
    ensures o == DEFAULT_ORDER <==>
            forall d, table, f, now | DistinctNotices(table) :: KeepsFirsts(d, BaseRows(table, f, d, now), o)
  {
    hide KeepsFirsts, BaseRows;
    if o == DEFAULT_ORDER {
      forall d, table, f, now | DistinctNotices(table) ensures KeepsFirsts(d, BaseRows(table, f, d, now), o) {
        BaseRowsKeepTheKey(table, f, d, now);
        DefaultKeepsFirsts(d, BaseRows(table, f, d, now));
      }
    } else {
      RivalsLoseTheFirst(o);
      RivalsComeFromATable(BY_LENGTH, o.ascending);
    }
  }

  lemma DefaultKeepsFirsts(d: Database, rows: seq<Row>)
    requires DistinctIds(rows)
    ensures KeepsFirsts(d, rows, DEFAULT_ORDER)
  {
    hide Export, FirstOccurrences;
    DedupKeepsFirstOccurrences(d, rows);
  }

  // ---------------------------------------------------------------- duplicate counts

  function Without(rows: seq<Row>, key: string): seq<Row> {
    if rows == [] then [] else (if rows[0].dedupKey == key then [] else [rows[0]]) + Without(rows[1..], key)
  }

  lemma {:induction false} WithoutOneKey(rows: seq<Row>, key: string)
    ensures |rows| == KeyCount(rows, key) + |Without(rows, key)|
    ensures forall other | other != key :: KeyCount(Without(rows, key), other) == KeyCount(rows, other)
    ensures forall r :: r in Without(rows, key) <==> r in rows && r.dedupKey != key
  {
    if rows != [] {
      var rest := Without(rows[1..], key);
      WithoutOneKey(rows[1..], key);
      if rows[0].dedupKey == key {
        assert Without(rows, key) == rest;
      } else {
        assert Without(rows, key) == [rows[0]] + rest && ([rows[0]] + rest)[1..] == rest;
      }
    }
  }

  /** One entry per key, each counting the rows of its key, and no key left out. */
  ghost predicate Partition(entries: seq<Entry>, rows: seq<Row>) {
    && (forall i, j | 0 <= i < j < |entries| :: entries[i].row.dedupKey != entries[j].row.dedupKey)
    && (forall i | 0 <= i < |entries| :: entries[i].duplicateCount == KeyCount(rows, entries[i].row.dedupKey))
    && (forall r | r in rows :: exists i :: 0 <= i < |entries| && entries[i].row.dedupKey == r.dedupKey)
  }

  lemma PartitionOfTheRest(entries: seq<Entry>, rows: seq<Row>)
    requires Partition(entries, rows) && entries != []
    ensures Partition(entries[1..], Without(rows, entries[0].row.dedupKey))
  {
    var rest := entries[1..];
    var others := Without(rows, entries[0].row.dedupKey);
    WithoutOneKey(rows, entries[0].row.dedupKey);
    hide KeyCount, Without;
    assert forall i | 0 <= i < |rest| :: rest[i] == entries[i + 1];
    forall r | r in others ensures exists i :: 0 <= i < |rest| && rest[i].row.dedupKey == r.dedupKey {
      var i :| 0 <= i < |entries| && entries[i].row.dedupKey == r.dedupKey;
      assert rest[i - 1] == entries[i];
    }
  }

  lemma {:induction false} CountsAddUp(entries: seq<Entry>, rows: seq<Row>)
    requires Partition(entries, rows)
    ensures Total(entries) == |rows|
  {
    if entries == [] {
      EmptyOrInhabited(rows);
    } else {
      PartitionOfTheRest(entries, rows);
      CountsAddUp(entries[1..], Without(rows, entries[0].row.dedupKey));
      WithoutOneKey(rows, entries[0].row.dedupKey);
    }
  }

  /** Every key has a leader. */
  lemma {:induction false} KeyHasLeader(rows: seq<Row>, r: Row, d: Database)
    requires DistinctIds(rows) && r in rows
    ensures exists leader | leader in rows :: leader.dedupKey == r.dedupKey && Leads(rows)(leader)
    decreases |set other | other in rows && other != r && RankedBefore(other, r)|
  {
    LeaderIsUnbeaten(rows, r);
    hide Leads;
    if !Leads(rows)(r) {
      var better :| better in rows && better != r && better.dedupKey == r.dedupKey && RankedBefore(better, r);
      var below := set other | other in rows && other != better && RankedBefore(other, better);
      var all := set other | other in rows && other != r && RankedBefore(other, r);
      BetterThanBetter(d, rows, better, r);
      assert below <= all && better in all && better !in below;
      SubsetsAreSmaller(below, all - {better});
      KeyHasLeader(rows, better, d);
    }
  }

  lemma BetterThanBetter(d: Database, rows: seq<Row>, better: Row, r: Row)
    requires DistinctIds(rows) && r in rows && better in rows && better != r && RankedBefore(better, r)
    ensures forall other | other in rows && other != better && RankedBefore(other, better) :: other != r && RankedBefore(other, r)
  {
    forall other | other in rows && other != better && RankedBefore(other, better) ensures other != r && RankedBefore(other, r) {
      if other == r { SameIdSameRow(rows, better, r); }
    }
  }

  lemma LeadersDiffer(rows: seq<Row>, a: Row, b: Row)
    requires DistinctIds(rows) && a in rows && b in rows && a != b && Leads(rows)(a) && Leads(rows)(b)
    ensures a.dedupKey != b.dedupKey
  {
    LeaderIsUnbeaten(rows, a);
    LeaderIsUnbeaten(rows, b);
    if a.notice.id == b.notice.id { SameIdSameRow(rows, a, b); }
    assert RankedBefore(a, b) || RankedBefore(b, a);
  }

  /** For every sort the duplicate counts of the deduplicated list sum to the length of the full list. */
  lemma {:induction false} DuplicateCountsSumToTheTotal(d: Database, rows: seq<Row>, o: Order)
    requires DistinctIds(rows)
    ensures Total(Export(d, rows, true, o)) == |Export(d, rows, false, o)| == |rows|
  {
    hide RowBefore, Singles, RankedBefore, Sort, Export, Leads, KeyCount;
    PlainExport(d, rows, o);
    DedupExport(d, rows, o);
    SortedRows(d, o, rows);
    var kept := Filter(Leads(rows), Sort(RowOrder(d, o), rows));
    FilterKeepsIds(Leads(rows), Sort(RowOrder(d, o), rows));
    FilterMembers(Leads(rows), Sort(RowOrder(d, o), rows));
    hide Filter;
    hide Sort, DistinctIds;
    CountsOfLeadersAddUp(d, rows, kept);
  }

  lemma {:induction false} CountsOfLeadersAddUp(d: Database, rows: seq<Row>, kept: seq<Row>)
    requires DistinctIds(rows) && DistinctIds(kept)
    requires forall r :: r in kept <==> r in rows && Leads(rows)(r)
    ensures Total(Counted(rows, kept)) == |rows|
  {
    hide KeyCount, Leads, RankedBefore;
    var entries := Counted(rows, kept);
    forall i, j | 0 <= i < j < |entries| ensures entries[i].row.dedupKey != entries[j].row.dedupKey {
      LeadersDiffer(rows, kept[i], kept[j]);
    }
    forall r | r in rows ensures exists i :: 0 <= i < |entries| && entries[i].row.dedupKey == r.dedupKey {
      var leader := LeaderIsKept(d, rows, kept, r);
      var i :| 0 <= i < |kept| && kept[i] == leader;
      assert entries[i].row == leader;
    }
    hide Counted;
    CountsAddUp(entries, rows);
  }

  lemma LeaderIsKept(d: Database, rows: seq<Row>, kept: seq<Row>, r: Row) returns (leader: Row)
    requires DistinctIds(rows) && r in rows && forall k | k in rows && Leads(rows)(k) :: k in kept
    ensures leader in kept && leader.dedupKey == r.dedupKey
  {
    hide Leads;
    KeyHasLeader(rows, r, d);
    leader :| leader in rows && leader.dedupKey == r.dedupKey && Leads(rows)(leader);
  }

  // ---------------------------------------------------------------- pages

  /** Where page number `page`, counted from 0, begins. */
  function OffsetOf(page: nat, limit: nat): nat {
    if page == 0 then 0 else OffsetOf(page - 1, limit) + limit
  }

  lemma {:induction false} OffsetIsProduct(page: nat, limit: nat)
    ensures OffsetOf(page, limit) == page * limit
  {
    if page > 0 { OffsetIsProduct(page - 1, limit); }
  }

  /** The consecutive pages of a list, each evaluated by its own query. */
  ghost predicate ArePages(d: Database, rows: seq<Row>, dedup: bool, o: Order, limit: nat, pages: seq<seq<Entry>>) {
    forall k | 0 <= k < |pages| :: IsPage(d, rows, dedup, o, limit, OffsetOf(k, limit), pages[k])
  }

  function Joined(pages: seq<seq<Entry>>): seq<Entry> {
    if pages == [] then [] else Joined(pages[..|pages| - 1]) + pages[|pages| - 1]
  }

  lemma SliceExtends<T>(s: seq<T>, limit: nat, offset: nat)
    ensures Limit(offset, s) + Slice(s, limit, offset) == Limit(offset + limit, s)
  {
  }

  lemma PageIsASlice(d: Database, rows: seq<Row>, dedup: bool, o: Order, limit: nat, offset: nat, page: seq<Entry>)
    requires DistinctIds(rows) && IsPage(d, rows, dedup, o, limit, offset, page)
    ensures page == Slice(Export(d, rows, dedup, o), limit, offset)
  {
    hide IsExport, Export;
    var full :| IsExport(d, rows, dedup, o, full) && page == Slice(full, limit, offset);
    EvaluationsAgree(d, rows, dedup, o, full);
  }

  lemma NextOffset(page: nat, limit: nat)
    ensures OffsetOf(page, limit) + limit == OffsetOf(page + 1, limit)
  {
  }

  lemma {:induction false} SlicesJoin(full: seq<Entry>, limit: nat, pages: seq<seq<Entry>>)
    requires forall k | 0 <= k < |pages| :: pages[k] == Slice(full, limit, OffsetOf(k, limit))
    ensures Joined(pages) == Limit(OffsetOf(|pages|, limit), full)
  {
    hide Slice, Limit;
    if pages != [] {
      var k := |pages| - 1;
      NextOffset(k, limit);
      hide OffsetOf;
      SlicesJoin(full, limit, pages[..k]);
      SliceExtends(full, limit, OffsetOf(k, limit));
    } else {
      assert Limit(0, full) == [];
    }
  }

  /** For every sort, consecutive pages join to a prefix of the export, with nothing repeated and
      nothing lost between them, and to all of it once they reach its end. */
  lemma {:induction false} PagesConcatenateToTheExport(d: Database, rows: seq<Row>, dedup: bool, o: Order, limit: nat,
                                                       pages: seq<seq<Entry>>, exported: seq<Entry>)
    requires DistinctIds(rows) && ArePages(d, rows, dedup, o, limit, pages) && IsExport(d, rows, dedup, o, exported)
    ensures Joined(pages) == Limit(OffsetOf(|pages|, limit), exported)
    ensures OffsetOf(|pages|, limit) >= |exported| ==> Joined(pages) == exported
  {
    hide Export, Joined, IsPage, Slice, ListQuery, DistinctIds;
    forall k | 0 <= k < |pages| ensures pages[k] == Slice(Export(d, rows, dedup, o), limit, OffsetOf(k, limit)) {
      assert IsPage(d, rows, dedup, o, limit, OffsetOf(k, limit), pages[k]);
      PageIsASlice(d, rows, dedup, o, limit, OffsetOf(k, limit), pages[k]);
    }
    SlicesJoin(Export(d, rows, dedup, o), limit, pages);
    EvaluationsAgree(d, rows, dedup, o, exported);
  }
}
