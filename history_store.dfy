/** The history store (`Database`): the `speed_tests` table of completed speed
    tests keyed by task id, the single `settings` row, paginated time-filtered
    reads, CSV export and age-based pruning.

    A timestamp is held as its RFC 3339 text, which is what the table stores
    (`to_rfc3339`) and what SQLite compares: text under the BINARY collation,
    i.e. code-point order (`TextLe`). The table is the sequence of its rows in
    rowid order; `Table` is its view as a map from task id to row. */
module HistoryStore {

  import opened Wrappers
  import opened Numeric
  import opened Text
  import opened Types

  /** A `speed_tests` row, and the `SpeedTestResult` it is read back as. */
  datatype SpeedTestResult = SpeedTestResult(
    taskId: string,
    endpoint: string,
    downloadMbps: real,
    uploadMbps: Option<real>,
    latencyMs: Option<real>,
    jitterMs: Option<real>,
    lossPct: Option<real>,
    startedAt: string,
    durationMs: int)

  datatype HistoryFilter = HistoryFilter(page: int, pageSize: int, from: Option<string>, to: Option<string>)

  datatype TimeRange = TimeRange(from: Option<string>, to: Option<string>)

  datatype HistoryPage = HistoryPage(total: nat, items: seq<SpeedTestResult>)

  datatype ExportResult = ExportResult(path: string, rows: nat)

  /* ---------------- the connection URL built by `Database::new` ---------------- */

  const UrlScheme := "sqlite://"

  /** Backslashes become slashes; a path holding ":/" (a drive letter) gets
      a third slash after the scheme. */
  function SqliteUrl(dbPath: string): string
  {
    var p := ReplaceChar(dbPath, '\\', '/');
    if Contains(p, ":/") then UrlScheme + "/" + p else UrlScheme + p
  }

  /** The path a URL built by `SqliteUrl` names. */
  function UrlPath(url: string): string
    requires StartsWith(url, UrlScheme)
  {
    var rest := url[|UrlScheme|..];
    if |rest| > 0 && rest[0] == '/' && Contains(rest[1..], ":/") then rest[1..] else rest
  }

  /** The URL has the sqlite scheme and names the path with every backslash
      turned into a slash, and nothing else changed. */
  lemma SqliteUrlRoundTrip(dbPath: string)
    ensures StartsWith(SqliteUrl(dbPath), UrlScheme)
    ensures UrlPath(SqliteUrl(dbPath)) == ReplaceChar(dbPath, '\\', '/')
    ensures '\\' !in UrlPath(SqliteUrl(dbPath))
  {
    var p := ReplaceChar(dbPath, '\\', '/');
    var url := SqliteUrl(dbPath);
    assert url[..|UrlScheme|] == UrlScheme;
    if Contains(p, ":/") {
      assert url[|UrlScheme|..] == "/" + p;
      assert ("/" + p)[1..] == p;
    } else {
      assert url[|UrlScheme|..] == p;
    }
    assert forall i :: 0 <= i < |p| ==> p[i] != '\\';
  }

  /* ---------------- text order of timestamps ---------------- */

  /** `a <= b` on TEXT under SQLite's BINARY collation: code-point lexicographic order. */
  predicate TextLe(a: string, b: string)
    decreases |a|
  {
    a == [] || (b != [] && (a[0] < b[0] || (a[0] == b[0] && TextLe(a[1..], b[1..]))))
  }

  /** `a < b` on TEXT. */
  predicate TextLt(a: string, b: string)
  {
    TextLe(a, b) && a != b
  }

  lemma {:induction false} TextLeTotal(a: string, b: string)
    ensures TextLe(a, b) || TextLe(b, a)
    decreases |a|
  {
    if a != [] && b != [] && a[0] == b[0] {
      TextLeTotal(a[1..], b[1..]);
    }
  }

  lemma {:induction false} TextLeTransitive(a: string, b: string, c: string)
    requires TextLe(a, b) && TextLe(b, c)
    ensures TextLe(a, c)
    decreases |a|
  {
    if a != [] && a[0] == b[0] && b[0] == c[0] {
      TextLeTransitive(a[1..], b[1..], c[1..]);
    }
  }

  lemma {:induction false} TextLeAntisymmetric(a: string, b: string)
    requires TextLe(a, b) && TextLe(b, a)
    ensures a == b
    decreases |a|
  {
    if a != [] {
      TextLeAntisymmetric(a[1..], b[1..]);
      assert a == [a[0]] + a[1..] && b == [b[0]] + b[1..];
    }
  }

  /** A row is deleted by `started_at < cutoff` exactly when the cutoff does not
      precede it: the order is total. */
  lemma TextLtIffNotLe(a: string, b: string)
    ensures TextLt(a, b) <==> !TextLe(b, a)
  {
    TextLeTotal(a, b);
    if TextLe(a, b) && TextLe(b, a) {
      TextLeAntisymmetric(a, b);
    }
  }

  /* ---------------- rows, filters and the table ---------------- */

  /** The rows of `rows` that satisfy `keep`, in table order. */
  function Filter(rows: seq<SpeedTestResult>, keep: SpeedTestResult -> bool): (r: seq<SpeedTestResult>)
    ensures |r| <= |rows|
    ensures forall x :: x in r <==> x in rows && keep(x)
  {
    if rows == [] then []
    else (if keep(rows[0]) then [rows[0]] else []) + Filter(rows[1..], keep)
  }

  lemma {:induction false} FilterAppend(a: seq<SpeedTestResult>, b: seq<SpeedTestResult>, keep: SpeedTestResult -> bool)
    ensures Filter(a + b, keep) == Filter(a, keep) + Filter(b, keep)
    decreases |a|
  {
    if a != [] {
      assert (a + b)[0] == a[0] && (a + b)[1..] == a[1..] + b;
      FilterAppend(a[1..], b, keep);
    } else {
      assert a + b == b;
    }
  }

  lemma {:induction false} FilterKeepsAll(rows: seq<SpeedTestResult>, keep: SpeedTestResult -> bool)
    requires forall i :: 0 <= i < |rows| ==> keep(rows[i])
    ensures Filter(rows, keep) == rows
    decreases |rows|
  {
    if rows != [] {
      FilterKeepsAll(rows[1..], keep);
    }
  }

  /** Filtering twice by the same predicate is filtering once. */
  lemma FilterIdempotent(rows: seq<SpeedTestResult>, keep: SpeedTestResult -> bool)
    ensures Filter(Filter(rows, keep), keep) == Filter(rows, keep)
  {
    var r := Filter(rows, keep);
    assert forall i :: 0 <= i < |r| ==> r[i] in r;
    FilterKeepsAll(r, keep);
  }

  /** `task_id` is the primary key: no two rows share one. */
  predicate UniqueIds(rows: seq<SpeedTestResult>)
  {
    forall i, j :: 0 <= i < j < |rows| ==> rows[i].taskId != rows[j].taskId
  }

  lemma {:induction false} FilterUnique(rows: seq<SpeedTestResult>, keep: SpeedTestResult -> bool)
    requires UniqueIds(rows)
    ensures UniqueIds(Filter(rows, keep))
    decreases |rows|
  {
    if rows != [] {
      var rest := Filter(rows[1..], keep);
      FilterUnique(rows[1..], keep);
      if keep(rows[0]) {
        forall j | 0 <= j < |rest| ensures rows[0].taskId != rest[j].taskId {
          assert rest[j] in rows[1..];
          var k :| 0 <= k < |rows[1..]| && rows[1..][k] == rest[j];
          assert rows[k + 1] == rest[j];
        }
      }
    }
  }

  /** The table as a map from task id to row. */
  function Table(rows: seq<SpeedTestResult>): map<string, SpeedTestResult>
  {
    if rows == [] then map[] else map[rows[0].taskId := rows[0]] + Table(rows[1..])
  }

  lemma {:induction false} TableAppend(rows: seq<SpeedTestResult>, r: SpeedTestResult)
    ensures Table(rows + [r]) == Table(rows)[r.taskId := r]
    decreases |rows|
  {
    if rows != [] {
      assert (rows + [r])[0] == rows[0] && (rows + [r])[1..] == rows[1..] + [r];
      TableAppend(rows[1..], r);
    } else {
      assert [] + [r] == [r];
    }
  }

  lemma TableCons(head: SpeedTestResult, rest: seq<SpeedTestResult>)
    ensures Table([head] + rest) == map[head.taskId := head] + Table(rest)
  {
    assert ([head] + rest)[0] == head && ([head] + rest)[1..] == rest;
  }

  lemma TableOfNonEmpty(rows: seq<SpeedTestResult>)
    requires rows != []
    ensures Table(rows) == map[rows[0].taskId := rows[0]] + Table(rows[1..])
  {
  }

  lemma WithoutIdCons(rows: seq<SpeedTestResult>, id: string)
    requires rows != []
    ensures rows[0].taskId != id ==> WithoutId(rows, id) == [rows[0]] + WithoutId(rows[1..], id)
    ensures rows[0].taskId == id ==> WithoutId(rows, id) == WithoutId(rows[1..], id)
  {
  }

  lemma MapRemoveOther(m: map<string, SpeedTestResult>, k: string, v: SpeedTestResult, id: string)
    requires k != id
    ensures map[k := v] + (m - {id}) == (map[k := v] + m) - {id}
  {
  }

  lemma MapRemoveSame(m: map<string, SpeedTestResult>, v: SpeedTestResult, id: string)
    ensures (map[id := v] + m) - {id} == m - {id}
  {
  }

  lemma {:induction false} TableWithout(rows: seq<SpeedTestResult>, id: string)
    ensures Table(WithoutId(rows, id)) == Table(rows) - {id}
    decreases |rows|
  {
    if rows != [] {
      var head := rows[0];
      var w := WithoutId(rows[1..], id);
      var t := Table(rows[1..]);
      TableWithout(rows[1..], id);
      TableOfNonEmpty(rows);
      WithoutIdCons(rows, id);
      if head.taskId != id {
        TableCons(head, w);
        MapRemoveOther(t, head.taskId, head, id);
      } else {
        MapRemoveSame(t, head, id);
      }
    }
  }

  function OtherId(id: string): SpeedTestResult -> bool
  {
    (x: SpeedTestResult) => x.taskId != id
  }

  /** The rows whose task id is not `id`. */
  function WithoutId(rows: seq<SpeedTestResult>, id: string): seq<SpeedTestResult>
  {
    Filter(rows, OtherId(id))
  }

  /** `INSERT OR REPLACE`: the row holding the same task id, if any, is deleted
      and the new row is added at the end of the table. */
  function Upsert(rows: seq<SpeedTestResult>, r: SpeedTestResult): (u: seq<SpeedTestResult>)
    ensures u != [] && u[|u| - 1] == r
    ensures forall x :: x in u <==> x == r || (x in rows && x.taskId != r.taskId)
  {
    WithoutId(rows, r.taskId) + [r]
  }

  /** After an upsert exactly one row has the task id, it is the new row, and
      the primary key still holds. */
  lemma UpsertExactlyOne(rows: seq<SpeedTestResult>, r: SpeedTestResult)
    requires UniqueIds(rows)
    ensures UniqueIds(Upsert(rows, r))
    ensures var u := Upsert(rows, r);
      u[|u| - 1] == r && forall i :: 0 <= i < |u| - 1 ==> u[i].taskId != r.taskId
  {
    var w := WithoutId(rows, r.taskId);
    FilterUnique(rows, OtherId(r.taskId));
    assert forall i :: 0 <= i < |w| ==> w[i] in w;
  }

  /** An upsert replaces the whole row under its task id and leaves every
      other task id mapped to what it was. */
  lemma UpsertTable(rows: seq<SpeedTestResult>, r: SpeedTestResult)
    ensures Table(Upsert(rows, r)) == Table(rows)[r.taskId := r]
  {
    TableWithout(rows, r.taskId);
    TableAppend(WithoutId(rows, r.taskId), r);
  }

  /** Rows with another task id keep their relative order and are all still present. */
  lemma UpsertKeepsOthers(rows: seq<SpeedTestResult>, r: SpeedTestResult, x: SpeedTestResult)
    requires x.taskId != r.taskId
    ensures x in Upsert(rows, r) <==> x in rows
  {
  }

  /** Inserting the same record twice leaves the table as inserting it once. */
  lemma UpsertIdempotent(rows: seq<SpeedTestResult>, r: SpeedTestResult)
    ensures Upsert(Upsert(rows, r), r) == Upsert(rows, r)
  {
    var w := WithoutId(rows, r.taskId);
    FilterAppend(w, [r], OtherId(r.taskId));
    assert forall i :: 0 <= i < |w| ==> w[i] in w;
    FilterKeepsAll(w, OtherId(r.taskId));
    assert Filter([r], OtherId(r.taskId)) == [];
  }

  /* ---------------- query_history ---------------- */

  const MaxPageSize := 200

  /** `filter.page.max(1)`. */
  function NormalizedPage(page: int): (p: int)
    ensures p >= 1
    ensures page >= 1 ==> p == page
    ensures page < 1 ==> p == 1
  {
    Max(page, 1)
  }

  /** `filter.page_size.clamp(1, 200)`. */
  function NormalizedPageSize(pageSize: int): (n: int)
    ensures 1 <= n <= MaxPageSize
    ensures 1 <= pageSize <= MaxPageSize ==> n == pageSize
  {
    Clamp(pageSize, 1, MaxPageSize)
  }

  /** `(page - 1) * page_size` on the normalised values: the number of rows
      on the pages before this one. */
  function PageOffset(page: int, pageSize: int): (offset: nat)
    ensures page <= 1 ==> offset == 0
    ensures page > 1 ==> offset >= NormalizedPageSize(pageSize)
  {
    (NormalizedPage(page) - 1) * NormalizedPageSize(pageSize)
  }

  /** `WHERE started_at >= from AND started_at <= to`, each part present only
      when its bound is: both bounds inclusive. */
  predicate InRange(stamp: string, from: Option<string>, to: Option<string>)
  {
    (from.None? || TextLe(from.value, stamp)) && (to.None? || TextLe(stamp, to.value))
  }

  /** The rows the WHERE clause selects, in table order; the count and the
      page read use this same predicate with the same bounds. */
  function Matching(rows: seq<SpeedTestResult>, from: Option<string>, to: Option<string>): (m: seq<SpeedTestResult>)
    ensures |m| <= |rows|
    ensures forall x :: x in m <==> x in rows && InRange(x.startedAt, from, to)
  {
    Filter(rows, (x: SpeedTestResult) => InRange(x.startedAt, from, to))
  }

  /** Bounds in the wrong order select nothing: no timestamp lies at or after
      `from` and at or before an earlier `to`. */
  lemma EmptyRangeMatchesNothing(rows: seq<SpeedTestResult>, from: string, to: string)
    requires TextLt(to, from)
    ensures Matching(rows, Some(from), Some(to)) == []
  {
    var m := Matching(rows, Some(from), Some(to));
    if m != [] {
      assert m[0] in m;
      TextLeTransitive(from, m[0].startedAt, to);
      TextLtIffNotLe(to, from);
      assert false;
    }
  }

  /** Most recent first: `ORDER BY started_at DESC`. */
  predicate Descending(s: seq<SpeedTestResult>)
  {
    forall i, j :: 0 <= i < j < |s| ==> TextLe(s[j].startedAt, s[i].startedAt)
  }

  /** Places `x` before the first row that is not later than it. */
  function InsertDesc(x: SpeedTestResult, s: seq<SpeedTestResult>): (r: seq<SpeedTestResult>)
    ensures multiset(r) == multiset(s) + multiset{x}
  {
    if s == [] then [x]
    else if TextLe(s[0].startedAt, x.startedAt) then [x] + s
    else
      assert s == [s[0]] + s[1..];
      [s[0]] + InsertDesc(x, s[1..])
  }

  /** No row of `s` is later than `stamp`. */
  predicate NotLaterThan(s: seq<SpeedTestResult>, stamp: string)
  {
    forall i :: 0 <= i < |s| ==> TextLe(s[i].startedAt, stamp)
  }

  lemma ConsDescending(y: SpeedTestResult, t: seq<SpeedTestResult>)
    requires Descending(t) && NotLaterThan(t, y.startedAt)
    ensures Descending([y] + t)
  {
    var r := [y] + t;
    forall i, j | 0 <= i < j < |r| ensures TextLe(r[j].startedAt, r[i].startedAt) {
      assert r[j] == t[j - 1];
      if i > 0 {
        assert r[i] == t[i - 1];
      }
    }
  }

  lemma {:induction false} InsertDescBound(x: SpeedTestResult, s: seq<SpeedTestResult>, stamp: string)
    requires NotLaterThan(s, stamp) && TextLe(x.startedAt, stamp)
    ensures NotLaterThan(InsertDesc(x, s), stamp)
    decreases |s|
  {
    if s != [] && !TextLe(s[0].startedAt, x.startedAt) {
      InsertDescBound(x, s[1..], stamp);
      var t := InsertDesc(x, s[1..]);
      assert InsertDesc(x, s) == [s[0]] + t;
    }
  }

  lemma {:induction false} InsertDescSorted(x: SpeedTestResult, s: seq<SpeedTestResult>)
    requires Descending(s)
    ensures Descending(InsertDesc(x, s))
    decreases |s|
  {
    if s == [] {
    } else if TextLe(s[0].startedAt, x.startedAt) {
      forall i | 0 <= i < |s| ensures TextLe(s[i].startedAt, x.startedAt) {
        if i > 0 {
          TextLeTransitive(s[i].startedAt, s[0].startedAt, x.startedAt);
        }
      }
      ConsDescending(x, s);
    } else {
      TextLeTotal(s[0].startedAt, x.startedAt);
      InsertDescSorted(x, s[1..]);
      InsertDescBound(x, s[1..], s[0].startedAt);
      ConsDescending(s[0], InsertDesc(x, s[1..]));
    }
  }

  /** The order of `ORDER BY started_at DESC`: an insertion sort, which keeps
      rows with equal timestamps in table order (SQLite leaves their order
      unspecified). */
  function SortDesc(s: seq<SpeedTestResult>): (r: seq<SpeedTestResult>)
    ensures multiset(r) == multiset(s)
    ensures |r| == |s|
  {
    if s == [] then []
    else
      assert s == [s[0]] + s[1..];
      InsertDesc(s[0], SortDesc(s[1..]))
  }

  lemma {:induction false} SortDescSorted(s: seq<SpeedTestResult>)
    ensures Descending(SortDesc(s))
    decreases |s|
  {
    if s != [] {
      SortDescSorted(s[1..]);
      InsertDescSorted(s[0], SortDesc(s[1..]));
    }
  }

  /** `LIMIT size OFFSET offset`. */
  function Window(s: seq<SpeedTestResult>, offset: nat, size: nat): seq<SpeedTestResult>
  {
    s[Min(offset, |s|)..Min(offset + size, |s|)]
  }

  /** The rows one page of the query returns, before they are decoded. */
  function PageRows(rows: seq<SpeedTestResult>, filter: HistoryFilter): (p: seq<SpeedTestResult>)
    ensures |p| <= NormalizedPageSize(filter.pageSize)
    ensures |p| <= |Matching(rows, filter.from, filter.to)|
  {
    Window(SortDesc(Matching(rows, filter.from, filter.to)),
           PageOffset(filter.page, filter.pageSize), NormalizedPageSize(filter.pageSize))
  }

  /** A page holds the matching rows from its offset on, most recent first,
      and no more than a page size of them. */
  lemma PageRowsSpec(rows: seq<SpeedTestResult>, filter: HistoryFilter)
    ensures var m := Matching(rows, filter.from, filter.to);
      var offset := PageOffset(filter.page, filter.pageSize);
      var size := NormalizedPageSize(filter.pageSize);
      |PageRows(rows, filter)| == Max(0, Min(size, |m| - offset))
    ensures Descending(PageRows(rows, filter))
    ensures forall x :: x in PageRows(rows, filter) ==>
      x in rows && InRange(x.startedAt, filter.from, filter.to)
  {
    var m := Matching(rows, filter.from, filter.to);
    var sorted := SortDesc(m);
    SortDescSorted(m);
    WindowSpec(sorted, PageOffset(filter.page, filter.pageSize), NormalizedPageSize(filter.pageSize));
    forall x | x in PageRows(rows, filter) ensures x in rows && InRange(x.startedAt, filter.from, filter.to) {
      assert x in multiset(sorted);
      assert x in m;
    }
  }

  /** A window holds up to `size` rows of `s` from `offset` on, in the order of `s`. */
  lemma WindowSpec(s: seq<SpeedTestResult>, offset: nat, size: nat)
    ensures |Window(s, offset, size)| == Max(0, Min(size, |s| - offset))
    ensures Descending(s) ==> Descending(Window(s, offset, size))
    ensures forall x :: x in Window(s, offset, size) ==> x in s
  {
    var w := Window(s, offset, size);
    var a := Min(offset, |s|);
    forall x | x in w ensures x in s {
      var k :| 0 <= k < |w| && w[k] == x;
      assert s[a + k] == x;
    }
    if Descending(s) {
      forall i, j | 0 <= i < j < |w| ensures TextLe(w[j].startedAt, w[i].startedAt) {
        assert w[i] == s[a + i] && w[j] == s[a + j];
      }
    }
  }

  lemma PageOffsetNext(page: int, pageSize: int)
    requires page >= 1
    ensures PageOffset(page + 1, pageSize) == PageOffset(page, pageSize) + NormalizedPageSize(pageSize)
  {
    var n := NormalizedPageSize(pageSize);
    assert page * n == (page - 1) * n + n;
  }

  lemma WindowsAdjacent(s: seq<SpeedTestResult>, offset: nat, size: nat)
    ensures Window(s, offset, size) + Window(s, offset + size, size) == Window(s, offset, 2 * size)
  {
    var a, b, c := Min(offset, |s|), Min(offset + size, |s|), Min(offset + 2 * size, |s|);
    assert s[a..b] + s[b..c] == s[a..c];
  }

  /** Consecutive pages of a sorted result follow each other: page p+1
      starts where page p ends, so paging visits every matching row once. */
  lemma ConsecutivePages(sorted: seq<SpeedTestResult>, page: int, pageSize: int)
    requires page >= 1
    ensures var size := NormalizedPageSize(pageSize);
      Window(sorted, PageOffset(page, pageSize), size) + Window(sorted, PageOffset(page + 1, pageSize), size)
        == Window(sorted, PageOffset(page, pageSize), 2 * size)
  {
    PageOffsetNext(page, pageSize);
    WindowsAdjacent(sorted, PageOffset(page, pageSize), NormalizedPageSize(pageSize));
  }

  /** A row read back. `parse` stands for chrono's RFC 3339 parser followed by
      the conversion to UTC and `to_rfc3339`: it gives the canonical text of
      the stored instant, or `None` when the stored text does not parse, in
      which case the row gets `now`. Every other column is read back as stored. */
  function Decode(row: SpeedTestResult, now: string, parse: string -> Option<string>): (r: SpeedTestResult)
    ensures r.(startedAt := row.startedAt) == row
    ensures parse(row.startedAt).Some? ==> r.startedAt == parse(row.startedAt).value
    ensures parse(row.startedAt).None? ==> r.startedAt == now
  {
    match parse(row.startedAt)
    case Some(t) => row.(startedAt := t)
    case None => row.(startedAt := now)
  }

  /** A row stored as `insert_speed_test` writes it, with the canonical UTC
      text of its instant, is read back unchanged. */
  lemma DecodeCanonical(row: SpeedTestResult, now: string, parse: string -> Option<string>)
    requires parse(row.startedAt) == Some(row.startedAt)
    ensures Decode(row, now, parse) == row
  {
  }

  /** The row loop of `query_history`: every fetched row becomes one item, none is dropped. */
  function DecodeAll(rows: seq<SpeedTestResult>, now: string, parse: string -> Option<string>): (items: seq<SpeedTestResult>)
    ensures |items| == |rows|
    ensures forall i :: 0 <= i < |rows| ==> items[i] == Decode(rows[i], now, parse)
  {
    if rows == [] then []
    else DecodeAll(rows[..|rows| - 1], now, parse) + [Decode(rows[|rows| - 1], now, parse)]
  }

  /* ---------------- export_history_csv ---------------- */

  const CsvColumns: seq<string> := ["task_id", "endpoint", "download_mbps", "upload_mbps", "latency_ms",
                                    "jitter_ms", "loss_pct", "started_at", "duration_ms"]

  /** The header line: the nine column names joined by commas. */
  function CsvHeader(): string
  {
    Join(CsvColumns, ',') + "\n"
  }

  /** An optional number as a CSV field: empty when absent, `{:.4}` (`fmt`) otherwise. */
  function OptionalField(v: Option<real>, fmt: real -> string): string
  {
    match v
    case None => ""
    case Some(x) => fmt(x)
  }

  /** The nine fields of one data line, in header order. */
  function CsvFields(item: SpeedTestResult, fmt: real -> string): (fields: seq<string>)
    ensures |fields| == |CsvColumns|
  {
    [item.taskId, item.endpoint, fmt(item.downloadMbps),
     OptionalField(item.uploadMbps, fmt), OptionalField(item.latencyMs, fmt),
     OptionalField(item.jitterMs, fmt), OptionalField(item.lossPct, fmt),
     item.startedAt, IntToDecimal(item.durationMs)]
  }

  /** A character that is neither a digit nor a minus sign and that neither
      the number format nor the text columns produce occurs in no field. */
  lemma CsvFieldsWithout(item: SpeedTestResult, fmt: real -> string, c: char)
    requires !IsDigit(c) && c != '-'
    requires forall x :: c !in fmt(x)
    requires c !in item.taskId && c !in item.endpoint && c !in item.startedAt
    ensures forall i :: 0 <= i < |CsvFields(item, fmt)| ==> c !in CsvFields(item, fmt)[i]
  {
    assert c !in IntToDecimal(item.durationMs);
  }

  function CsvLine(item: SpeedTestResult, fmt: real -> string): string
  {
    Join(CsvFields(item, fmt), ',') + "\n"
  }

  function CsvLines(items: seq<SpeedTestResult>, fmt: real -> string): string
  {
    if items == [] then "" else CsvLines(items[..|items| - 1], fmt) + CsvLine(items[|items| - 1], fmt)
  }

  lemma CsvLinesStep(items: seq<SpeedTestResult>, i: nat, fmt: real -> string)
    requires i < |items|
    ensures CsvLines(items[..i + 1], fmt) == CsvLines(items[..i], fmt) + CsvLine(items[i], fmt)
  {
    assert items[..i + 1][..i] == items[..i];
  }

  /** The loop of `export_history_csv` that appends one line per item to the header. */
  method RenderCsv(header: string, items: seq<SpeedTestResult>, fmt: real -> string) returns (csv: string)
    ensures csv == header + CsvLines(items, fmt)
  {
    csv := header;
    for i := 0 to |items|
      invariant csv == header + CsvLines(items[..i], fmt)
    {
      CsvLinesStep(items, i, fmt);
      csv := csv + CsvLine(items[i], fmt);
    }
    assert items[..|items|] == items;
  }

  /** The query the export runs: page 1 of 10 000 rows, which the page-size
      clamp turns into 200. */
  function ExportFilter(range: TimeRange): HistoryFilter
  {
    HistoryFilter(1, 10_000, range.from, range.to)
  }

  /** The export holds the 200 most recent matching rows at most, most recent first. */
  lemma ExportRows(rows: seq<SpeedTestResult>, range: TimeRange)
    ensures |PageRows(rows, ExportFilter(range))| == Min(|Matching(rows, range.from, range.to)|, MaxPageSize)
    ensures Descending(PageRows(rows, ExportFilter(range)))
    ensures PageRows(rows, ExportFilter(range)) == SortDesc(Matching(rows, range.from, range.to))[..|PageRows(rows, ExportFilter(range))|]
  {
    PageRowsSpec(rows, ExportFilter(range));
  }

  predicate NoNewlines(item: SpeedTestResult)
  {
    '\n' !in item.taskId && '\n' !in item.endpoint && '\n' !in item.startedAt
  }

  /** No column name holds a comma or a line break. */
  lemma ColumnsPlain()
    ensures forall i :: 0 <= i < |CsvColumns| ==> ',' !in CsvColumns[i] && '\n' !in CsvColumns[i]
  {
  }

  /** The header is exactly one line. */
  lemma HeaderOneLine()
    ensures Count(CsvHeader(), '\n') == 1
  {
    ColumnsPlain();
    JoinAbsent(CsvColumns, ',', '\n');
    CountOneLine(Join(CsvColumns, ','));
  }

  /** The file has one line for the header and one per item, provided no field
      carries a line break of its own. */
  lemma CsvLineCount(items: seq<SpeedTestResult>, fmt: real -> string)
    requires forall x :: '\n' !in fmt(x)
    requires forall i :: 0 <= i < |items| ==> NoNewlines(items[i])
    ensures Count(CsvHeader() + CsvLines(items, fmt), '\n') == |items| + 1
  {
    HeaderOneLine();
    CountAppend(CsvHeader(), CsvLines(items, fmt), '\n');
    CsvLinesCount(items, fmt);
  }

  lemma {:induction false} CsvLinesCount(items: seq<SpeedTestResult>, fmt: real -> string)
    requires forall x :: '\n' !in fmt(x)
    requires forall i :: 0 <= i < |items| ==> NoNewlines(items[i])
    ensures Count(CsvLines(items, fmt), '\n') == |items|
    decreases |items|
  {
    if items != [] {
      var last := items[|items| - 1];
      var fields := CsvFields(last, fmt);
      CsvLinesCount(items[..|items| - 1], fmt);
      CsvFieldsWithout(last, fmt, '\n');
      JoinAbsent(fields, ',', '\n');
      CountAbsent(Join(fields, ','), '\n');
      CountAppend(Join(fields, ','), "\n", '\n');
      CountAppend(CsvLines(items[..|items| - 1], fmt), CsvLine(last, fmt), '\n');
    }
  }

  /** A data line splits back on commas into its nine fields when no field
      holds a comma; an optional column is empty exactly when its value is
      absent, provided the number format never yields empty text. */
  lemma CsvLineFields(item: SpeedTestResult, fmt: real -> string)
    requires forall x :: ',' !in fmt(x)
    requires ',' !in item.taskId && ',' !in item.endpoint && ',' !in item.startedAt
    ensures var line := CsvLine(item, fmt);
      Split(line[..|line| - 1], ',') == CsvFields(item, fmt)
    ensures (forall x :: fmt(x) != "") ==>
      && (CsvFields(item, fmt)[3] == "" <==> item.uploadMbps.None?)
      && (CsvFields(item, fmt)[4] == "" <==> item.latencyMs.None?)
      && (CsvFields(item, fmt)[5] == "" <==> item.jitterMs.None?)
      && (CsvFields(item, fmt)[6] == "" <==> item.lossPct.None?)
  {
    var fields := CsvFields(item, fmt);
    CsvFieldsWithout(item, fmt, ',');
    var line := CsvLine(item, fmt);
    assert line[..|line| - 1] == Join(fields, ',');
    SplitJoin(fields, ',');
  }

  /** The header line splits into the nine column names. */
  lemma CsvHeaderColumns()
    ensures Split(CsvHeader()[..|CsvHeader()| - 1], ',') == CsvColumns
  {
    ColumnsPlain();
    DropLineEnd(Join(CsvColumns, ','));
    SplitJoin(CsvColumns, ',');
  }

  /* ---------------- prune_old_history ---------------- */

  /** Instants are integer milliseconds since the Unix epoch. */
  const MillisPerDay := 86_400_000

  /** `Utc::now() - Duration::days(keep_days.max(1))`: the cutoff instant,
      at least one day before now. */
  function CutoffInstant(now: int, keepDays: int): (t: int)
    ensures t <= now - MillisPerDay
    ensures keepDays >= 1 ==> t == now - keepDays * MillisPerDay
    ensures keepDays < 1 ==> t == now - MillisPerDay
  {
    now - Max(keepDays, 1) * MillisPerDay
  }

  /** `DELETE FROM speed_tests WHERE started_at < cutoff`. */
  function Pruned(rows: seq<SpeedTestResult>, cutoff: string): (r: seq<SpeedTestResult>)
    ensures |r| <= |rows|
    ensures forall x :: x in r <==> x in rows && !TextLt(x.startedAt, cutoff)
  {
    Filter(rows, NotOlderThan(cutoff))
  }

  function NotOlderThan(cutoff: string): SpeedTestResult -> bool
  {
    (x: SpeedTestResult) => !TextLt(x.startedAt, cutoff)
  }

  /** Pruning deletes exactly the rows older than the cutoff, keeps the rest in
      table order with the primary key intact, and a second prune with the same
      cutoff deletes nothing. */
  lemma PruneSpec(rows: seq<SpeedTestResult>, cutoff: string)
    requires UniqueIds(rows)
    ensures forall x :: x in Pruned(rows, cutoff) <==> x in rows && TextLe(cutoff, x.startedAt)
    ensures UniqueIds(Pruned(rows, cutoff))
    ensures Pruned(Pruned(rows, cutoff), cutoff) == Pruned(rows, cutoff)
  {
    forall x | x in rows ensures !TextLt(x.startedAt, cutoff) <==> TextLe(cutoff, x.startedAt) {
      TextLtIffNotLe(x.startedAt, cutoff);
    }
    FilterUnique(rows, NotOlderThan(cutoff));
    FilterIdempotent(rows, NotOlderThan(cutoff));
  }

  /* ---------------- the store ---------------- */

  class Database {
    /** The connection URL `new` derived from the database path. */
    const url: string
    /** `speed_tests`, in rowid order. */
    var rows: seq<SpeedTestResult>
    /** The `settings` row with id 1, if it exists (its JSON encoding is not modelled). */
    var settings: Option<AppSettings>

    ghost predicate Valid()
      reads this
    {
      UniqueIds(rows)
    }

    /** `Database::new`: opens the database file at `dbPath`. Both tables are
        created only if they do not exist yet, so the rows and the settings
        row already stored in the file (`stored` and `saved`; empty and `None`
        for a new file) are kept. */
    constructor (dbPath: string, stored: seq<SpeedTestResult>, saved: Option<AppSettings>)
      requires UniqueIds(stored)
      ensures Valid()
      ensures url == SqliteUrl(dbPath) && rows == stored && settings == saved
    {
      url := SqliteUrl(dbPath);
      rows := stored;
      settings := saved;
    }

    /** `SELECT json FROM settings WHERE id = 1`. */
    method LoadSettings() returns (s: Option<AppSettings>)
      ensures s == settings
    {
      s := settings;
    }

    /** `INSERT ... ON CONFLICT(id) DO UPDATE`: the single settings row now holds `s`. */
    method SaveSettings(s: AppSettings)
      modifies this
      ensures settings == Some(s)
      ensures rows == old(rows)
    {
      settings := Some(s);
    }

    method InsertSpeedTest(result: SpeedTestResult)
      requires Valid()
      modifies this
      ensures Valid()
      ensures rows == Upsert(old(rows), result)
      ensures Table(rows) == Table(old(rows))[result.taskId := result]
      ensures settings == old(settings)
    {
      UpsertExactlyOne(rows, result);
      UpsertTable(rows, result);
      rows := Upsert(rows, result);
    }

    /** Counts the matching rows, then reads one page of them most recent
        first and decodes each row. */
    method QueryHistory(filter: HistoryFilter, now: string, parse: string -> Option<string>) returns (page: HistoryPage)
      ensures page.total == |Matching(rows, filter.from, filter.to)|
      ensures page.items == DecodeAll(PageRows(rows, filter), now, parse)
      ensures |page.items| <= NormalizedPageSize(filter.pageSize)
      ensures |page.items| <= page.total
    {
      var size := NormalizedPageSize(filter.pageSize);
      var offset := PageOffset(filter.page, filter.pageSize);

      var matching := Matching(rows, filter.from, filter.to);
      var total := |matching|;
      var fetched := Window(SortDesc(matching), offset, size);

      var items: seq<SpeedTestResult> := [];
      for i := 0 to |fetched|
        invariant items == DecodeAll(fetched[..i], now, parse)
      {
        assert fetched[..i + 1][..i] == fetched[..i];
        items := items + [Decode(fetched[i], now, parse)];
      }
      assert fetched[..|fetched|] == fetched;
      page := HistoryPage(total, items);
    }

    /** Renders page 1 of the export query as CSV text (the file's content) and
        reports the number of data lines. */
    method ExportHistoryCsv(exportPath: string, range: TimeRange, now: string, parse: string -> Option<string>,
                            fmt: real -> string) returns (csv: string, result: ExportResult)
      ensures var items := DecodeAll(PageRows(rows, ExportFilter(range)), now, parse);
        csv == CsvHeader() + CsvLines(items, fmt) && result.rows == |items|
      ensures result.rows == Min(|Matching(rows, range.from, range.to)|, MaxPageSize)
      ensures result.path == exportPath
    {
      var page := QueryHistory(ExportFilter(range), now, parse);
      csv := RenderCsv(CsvHeader(), page.items, fmt);
      ExportRows(rows, range);
      result := ExportResult(exportPath, |page.items|);
    }

    /** Deletes the rows older than the cutoff; `render` stands for `to_rfc3339`. */
    method PruneOldHistory(keepDays: int, now: int, render: int -> string)
      requires Valid()
      modifies this
      ensures Valid()
      ensures rows == Pruned(old(rows), render(CutoffInstant(now, keepDays)))
      ensures settings == old(settings)
    {
      var cutoff := render(CutoffInstant(now, keepDays));
      PruneSpec(rows, cutoff);
      rows := Pruned(rows, cutoff);
    }
  }
}
