/**
 `get_historical_data` (deploy/test_results_db/db_handler.py) and the choice of its tags in
 `compare_dapp_results` (clickfile.py).
 */
module History {
  import opened Wrappers
  import opened Lists
  import opened ResultsDb
  import Tags
  import ActionNames

  datatype QueryError = NegativeLimit | NoReportForTag

  datatype HistoryRow = HistoryRow(report: CostReport, tag: string, data: DataRow)

  /** order_by(desc(CostReport.timestamp)). */
  function NewestFirst(): (CostReport, CostReport) -> bool {
    (a: CostReport, b: CostReport) => a.timestamp >= b.timestamp
  }

  /** `CostReport.repo == repo, tag_column.in_(tags)`. */
  function InTags(repo: Repo, tags: seq<string>): CostReport -> bool {
    (r: CostReport) => r.repo == repo && TagOf(r) in tags
  }

  function Ordered(db: Db, keep: CostReport -> bool): seq<CostReport> {
    SortBy(NewestFirst(), Filter(keep, db.reports))
  }

  function Offset(latestTag: string, previousTags: seq<string>): nat {
    if latestTag in previousTags then 1 else 0
  }

  function Drop<T>(s: seq<T>, n: nat): seq<T> {
    if n <= |s| then s[n..] else []
  }

  /** The reports of the history: the last one, and the previous ones by offset and limit. */
  function PreviousReports(db: Db, depth: int, repo: Repo, latestTag: string, previousTags: seq<string>)
    : seq<CostReport>
  {
    Take(Drop(Ordered(db, InTags(repo, previousTags)), Offset(latestTag, previousTags)), depth - 1)
  }

  function UsedReports(db: Db, depth: int, repo: Repo, latestTag: string, previousTags: seq<string>): seq<CostReport>
    requires Ordered(db, IsFor(repo, latestTag)) != []
  {
    [Ordered(db, IsFor(repo, latestTag))[0]] + PreviousReports(db, depth, repo, latestTag, previousTags)
  }

  predicate HasDapp(rows: seq<DappData>, id: nat, dappName: string) {
    exists i | 0 <= i < |rows| :: rows[i].costReportId == id && rows[i].data.dappName == dappName
  }

  predicate HasAction(rows: seq<DappData>, id: nat, action: string) {
    exists i | 0 <= i < |rows| :: rows[i].costReportId == id && rows[i].data.action == action
  }

  /** Rows of the given reports whose dapp name, and whose action, occurs in the last report. */
  function Wanted(db: Db, lastId: nat, ids: seq<nat>): DappData -> bool {
    (row: DappData) =>
      && row.costReportId in ids
      && HasDapp(db.rows, lastId, row.data.dappName)
      && HasAction(db.rows, lastId, row.data.action)
  }

  /** The rows of the history, as stored. */
  function HistoryRows(db: Db, depth: int, repo: Repo, latestTag: string, previousTags: seq<string>): seq<DappData>
    requires Ordered(db, IsFor(repo, latestTag)) != []
  {
    var used := UsedReports(db, depth, repo, latestTag, previousTags);
    Filter(Wanted(db, used[0].id, Ids(used)), db.rows)
  }

  /** The dictionary of the reports by id; a later one replaces an earlier one. */
  function ById(reports: seq<CostReport>): (m: map<nat, CostReport>)
    ensures forall id :: id in m <==> id in Ids(reports)
    ensures forall id | id in m :: m[id] in reports && m[id].id == id
  {
    if reports == [] then map[]
    else
      var (init, last) := (reports[..|reports| - 1], reports[|reports| - 1]);
      assert reports == init + [last];
      assert Ids(reports) == Ids(init) + [last.id];
      ById(init)[last.id := last]
  }

  /** The rows of the frame before it is sorted: one for each data row whose report is known. */
  function Joined(used: seq<CostReport>, rows: seq<DappData>): seq<HistoryRow> {
    if rows == [] then []
    else
      var (x, byId) := (rows[|rows| - 1], ById(used));
      Joined(used, rows[..|rows| - 1]) +
      if x.costReportId in byId
      then [HistoryRow(byId[x.costReportId], TagOf(byId[x.costReportId]), x.data)] else []
  }

  /** sort_values(by=["timestamp", "dapp_name", "action"]). */
  function FrameOrder(): (HistoryRow, HistoryRow) -> bool {
    (a: HistoryRow, b: HistoryRow) =>
      || a.report.timestamp < b.report.timestamp
      || (a.report.timestamp == b.report.timestamp &&
          (ActionNames.TextLess(a.data.dappName, b.data.dappName) ||
           (a.data.dappName == b.data.dappName && !ActionNames.TextLess(b.data.action, a.data.action))))
  }

  /** The frame is sorted, and holds each data row once, with its own report and that report's tag. */
  ghost predicate IsFrame(used: seq<CostReport>, rows: seq<DappData>, frame: seq<HistoryRow>) {
    && Sorted(FrameOrder(), frame) && multiset(frame) == multiset(Joined(used, rows))
    && |Joined(used, rows)| == |rows|
    && forall k | 0 <= k < |rows| :: IsRowOf(used, rows[k], Joined(used, rows)[k])
  }

  ghost predicate IsRowOf(used: seq<CostReport>, x: DappData, row: HistoryRow) {
    row.data == x.data && row.report in used && row.report.id == x.costReportId && row.tag == TagOf(row.report)
  }

  // ---------------------------------------------------------------- ordered queries

  lemma OrderedReports(db: Db, keep: CostReport -> bool)
    requires Consistent(db)
    ensures var found := Ordered(db, keep);
            && Distinct(found) && Sorted(NewestFirst(), found)
            && (forall r :: r in found <==> r in db.reports && keep(r))
            && |found| == |Filter(keep, db.reports)|
  {
    var kept := Filter(keep, db.reports);
    ReportsDistinct(db);
    FilterSelects(keep, db.reports);
    SortSorts(NewestFirst(), kept);
    SortPermutes(NewestFirst(), kept);
    PermutedDistinct(kept, SortBy(NewestFirst(), kept));
    PermutedMembers(kept, SortBy(NewestFirst(), kept));
  }

  lemma ReportsDistinct(db: Db)
    requires Consistent(db)
    ensures Distinct(db.reports)
  {
    forall i, j | 0 <= i < j < |db.reports|
      ensures db.reports[i] != db.reports[j]
    {
      assert Ids(db.reports)[i] != Ids(db.reports)[j];
    }
  }

  /** The tag lists that `compare_dapp_results` can produce. */
  predicate Producible(latestTag: string, previousTags: seq<string>) {
    previousTags == [latestTag] || latestTag !in previousTags
  }

  /** Asking for the last report's own tag alone skips exactly that report. */
  lemma SkipsTheLast(db: Db, repo: Repo, tag: string)
    ensures Ordered(db, InTags(repo, [tag])) == Ordered(db, IsFor(repo, tag))
  {
    FilterAgree(InTags(repo, [tag]), IsFor(repo, tag), db.reports);
  }

  /** `used` is what the command promises of its reports: at most `depth`, each once, the newest of the tag first. */
  ghost predicate GoodReports(db: Db, depth: int, repo: Repo, tag: string, used: seq<CostReport>) {
    && 1 <= |used| <= depth && Distinct(used)
    && used[0] in db.reports && IsFor(repo, tag)(used[0])
    && (forall r | r in db.reports && IsFor(repo, tag)(r) :: r.timestamp <= used[0].timestamp)
  }

  /** A run of distinct elements, with a different element put before it, is distinct. */
  lemma RunDistinct(found: seq<CostReport>, last: CostReport, rest: seq<CostReport>, offset: nat)
    requires Distinct(found) && offset <= 1 && offset + |rest| <= |found|
    requires forall k | 0 <= k < |rest| :: rest[k] == found[offset + k]
    requires if offset == 1 then found[0] == last else last !in found
    ensures Distinct([last] + rest)
  {
    var used := [last] + rest;
    forall i, j | 0 <= i < j < |used|
      ensures used[i] != used[j]
    {
      assert used[j] == found[offset + j - 1];
      assert i > 0 ==> used[i] == found[offset + i - 1];
    }
  }

  /** For every producible list and depth at least 1, the history uses the newest report of the tag first, and at
      most `depth` reports, each once. */
  lemma HistoryUses(db: Db, depth: int, repo: Repo, latestTag: string, previousTags: seq<string>)
    requires Consistent(db) && depth >= 1 && Producible(latestTag, previousTags)
    requires Ordered(db, IsFor(repo, latestTag)) != []
    ensures GoodReports(db, depth, repo, latestTag, UsedReports(db, depth, repo, latestTag, previousTags))
  {
    var newest := Ordered(db, IsFor(repo, latestTag));
    UsedDistinct(db, depth, repo, latestTag, previousTags);
    OrderedReports(db, IsFor(repo, latestTag));
    assert newest[0] in newest;
    NewestIsNewest(db, newest);
  }

  lemma UsedDistinct(db: Db, depth: int, repo: Repo, latestTag: string, previousTags: seq<string>)
    requires Consistent(db) && depth >= 1 && Producible(latestTag, previousTags)
    requires Ordered(db, IsFor(repo, latestTag)) != []
    ensures Distinct(UsedReports(db, depth, repo, latestTag, previousTags))
  {
    var last := Ordered(db, IsFor(repo, latestTag))[0];
    var found := Ordered(db, InTags(repo, previousTags));
    LastHasTag(db, repo, latestTag);
    OrderedReports(db, InTags(repo, previousTags));
    if previousTags == [latestTag] {
      SkipsTheLast(db, repo, latestTag);
    }
    var rest := PreviousReports(db, depth, repo, latestTag, previousTags);
    RunDistinct(found, last, rest, Offset(latestTag, previousTags));
  }

  lemma LastHasTag(db: Db, repo: Repo, tag: string)
    requires Consistent(db) && Ordered(db, IsFor(repo, tag)) != []
    ensures IsFor(repo, tag)(Ordered(db, IsFor(repo, tag))[0])
  {
    OrderedReports(db, IsFor(repo, tag));
    assert Ordered(db, IsFor(repo, tag))[0] in Ordered(db, IsFor(repo, tag));
  }

  /** The reports after the first have previous tags; there are as many as the depth allows and the store has,
      and no report with a previous tag that is left out is newer than one of them. */
  lemma HistoryUsesNewest(db: Db, depth: int, repo: Repo, latestTag: string, previousTags: seq<string>)
    requires Consistent(db) && depth >= 1 && Producible(latestTag, previousTags)
    requires Ordered(db, IsFor(repo, latestTag)) != []
    ensures var rest := PreviousReports(db, depth, repo, latestTag, previousTags);
            var available := |Filter(InTags(repo, previousTags), db.reports)| - Offset(latestTag, previousTags);
            && |rest| == (if depth - 1 < available then depth - 1 else available)
            && (forall r | r in rest :: r in db.reports && InTags(repo, previousTags)(r))
            && (forall r, u | r in db.reports && InTags(repo, previousTags)(r) && u in rest &&
                              r !in UsedReports(db, depth, repo, latestTag, previousTags) :: r.timestamp <= u.timestamp)
  {
    var found := Ordered(db, InTags(repo, previousTags));
    var rest := PreviousReports(db, depth, repo, latestTag, previousTags);
    var offset := Offset(latestTag, previousTags);
    OrderedReports(db, InTags(repo, previousTags));
    if previousTags == [latestTag] {
      SkipsTheLast(db, repo, latestTag);
    }
    SliceOf(found, offset, depth - 1);
    LeftOutIsOlder(found, Ordered(db, IsFor(repo, latestTag))[0], rest, offset);
  }

  lemma SliceOf(found: seq<CostReport>, offset: nat, limit: nat)
    requires offset <= |found|
    ensures var rest := Take(Drop(found, offset), limit);
            && |rest| == (if limit < |found| - offset then limit else |found| - offset)
            && forall k | 0 <= k < |rest| :: rest[k] == found[offset + k] && rest[k] in found
  {
  }

  lemma NewestIsNewest(db: Db, newest: seq<CostReport>)
    requires newest != [] && Sorted(NewestFirst(), newest)
    ensures forall r | r in newest :: r.timestamp <= newest[0].timestamp
  {
    forall r | r in newest
      ensures r.timestamp <= newest[0].timestamp
    {
      var k :| 0 <= k < |newest| && newest[k] == r;
      assert k > 0 ==> NewestFirst()(newest[0], newest[k]);
    }
  }

  lemma LeftOutIsOlder(found: seq<CostReport>, last: CostReport, rest: seq<CostReport>, offset: nat)
    requires Sorted(NewestFirst(), found) && offset <= 1 && offset + |rest| <= |found|
    requires forall k | 0 <= k < |rest| :: rest[k] == found[offset + k]
    requires offset == 1 ==> found[0] == last
    ensures forall r, u | r in found && u in rest && r !in [last] + rest :: r.timestamp <= u.timestamp
  {
    forall x | offset <= x < offset + |rest|
      ensures found[x] in rest
    {
      var k := x - offset;
      assert rest[k] == found[offset + k];
    }
    forall r, u | r in found && u in rest && r !in [last] + rest
      ensures r.timestamp <= u.timestamp
    {
      var k :| 0 <= k < |found| && found[k] == r;
      var m :| 0 <= m < |rest| && rest[m] == u;
      assert last in [last] + rest;
      assert k >= offset + |rest|;
      assert NewestFirst()(found[offset + m], found[k]);
    }
  }

  /** No used report is newer than the compared one exactly when only that one is used, or no report with a
      previous tag is newer. */
  lemma ComparedIsNewest(db: Db, depth: int, repo: Repo, latestTag: string, previousTags: seq<string>)
    requires Consistent(db) && depth >= 1 && Producible(latestTag, previousTags)
    requires Ordered(db, IsFor(repo, latestTag)) != []
    ensures var used := UsedReports(db, depth, repo, latestTag, previousTags);
            (forall u | u in used :: u.timestamp <= used[0].timestamp)
            <==> depth == 1 ||
                 forall r | r in db.reports && InTags(repo, previousTags)(r) :: r.timestamp <= used[0].timestamp
  {
    var last := Ordered(db, IsFor(repo, latestTag))[0];
    var found := Ordered(db, InTags(repo, previousTags));
    OrderedReports(db, InTags(repo, previousTags));
    if previousTags == [latestTag] {
      SkipsTheLast(db, repo, latestTag);
      NewestAmongOwn(db, found, depth - 1);
    } else {
      NewestOf(db, found, last, depth - 1);
      assert Drop(found, 0) == found;
    }
  }

  lemma NewestAmongOwn(db: Db, found: seq<CostReport>, limit: nat)
    requires Sorted(NewestFirst(), found) && found != []
    ensures forall u | u in [found[0]] + Take(Drop(found, 1), limit) :: u.timestamp <= found[0].timestamp
    ensures forall r | r in found :: r.timestamp <= found[0].timestamp
  {
    NewestIsNewest(db, found);
    TakenFrom(Drop(found, 1), limit);
    assert forall u | u in Drop(found, 1) :: u in found;
  }

  lemma TakenFrom(s: seq<CostReport>, limit: nat)
    ensures forall u | u in Take(s, limit) :: u in s
  {
  }

  /** Of the first reports in descending order one is newer than `last` if and only if any report is. */
  lemma NewestOf(db: Db, found: seq<CostReport>, last: CostReport, limit: nat)
    requires Sorted(NewestFirst(), found)
    ensures (forall u | u in [last] + Take(found, limit) :: u.timestamp <= last.timestamp)
       <==> limit == 0 || forall r | r in found :: r.timestamp <= last.timestamp
  {
    TakenFrom(found, limit);
    if limit > 0 && found != [] {
      var used := [last] + Take(found, limit);
      NewestIsNewest(db, found);
      assert used[1] == found[0] && used[1] in used;
    }
  }

  /** It need not be: a branch compared with "latest", which has a newer report. */
  lemma NewerLatest(db: Db, compared: CostReport, newer: CostReport)
    requires compared == CostReport(0, 10, Evm, "feature", "feature", None, "a1")
    requires newer == CostReport(1, 20, Evm, "latest", "latest", None, "b2")
    requires db == Db([compared, newer], [], 2)
    ensures Consistent(db) && Producible("feature", ["latest"]) && Ordered(db, IsFor(Evm, "feature")) != []
    ensures var used := UsedReports(db, 2, Evm, "feature", ["latest"]);
            used[0] == compared && exists u :: u in used && u.timestamp > used[0].timestamp
  {
    assert Ids(db.reports) == [0, 1];
    assert "latest"[0] != "feature"[0];
    assert compared in db.reports && newer in db.reports;
    OrderedReports(db, IsFor(Evm, "feature"));
    var found := Ordered(db, IsFor(Evm, "feature"));
    assert compared in found && found[0] in found;
    assert InTags(Evm, ["latest"])(newer);
    ComparedIsNewest(db, 2, Evm, "feature", ["latest"]);
  }

  // ---------------------------------------------------------------- the method

  lemma FrameOrdered()
    ensures TotalPreorder(FrameOrder())
  {
    var before := FrameOrder();
    forall a: HistoryRow, b: HistoryRow
      ensures before(a, b) || before(b, a)
    {
      ActionNames.TextTotal(a.data.dappName, b.data.dappName);
      ActionNames.TextTotal(a.data.action, b.data.action);
    }
    forall a: HistoryRow, b: HistoryRow, c: HistoryRow | before(a, b) && before(b, c)
      ensures before(a, c)
    {
      ActionNames.NotLessTransitive(a.data.action, b.data.action, c.data.action);
      var (x, y, z) := (a.data.dappName, b.data.dappName, c.data.dappName);
      if ActionNames.TextLess(x, y) && ActionNames.TextLess(y, z) {
        ActionNames.TextTransitive(x, y, z);
      }
    }
  }

  lemma {:induction false} JoinedRows(used: seq<CostReport>, rows: seq<DappData>)
    requires forall k | 0 <= k < |rows| :: rows[k].costReportId in Ids(used)
    ensures |Joined(used, rows)| == |rows|
    ensures forall k | 0 <= k < |rows| :: IsRowOf(used, rows[k], Joined(used, rows)[k])
  {
    if rows != [] {
      var (init, x) := (rows[..|rows| - 1], rows[|rows| - 1]);
      var byId := ById(used);
      JoinedRows(used, init);
      assert x.costReportId in byId;
      var row := HistoryRow(byId[x.costReportId], TagOf(byId[x.costReportId]), x.data);
      assert Joined(used, rows) == Joined(used, init) + [row];
      assert IsRowOf(used, x, row);
    }
  }

  /** Fails exactly without depth or for a tag without reports; otherwise returns the sorted frame of exactly the
      wanted rows of the used reports, each with its own report and that report's tag. */
  method GetHistoricalData(db: Db, depth: int, repo: Repo, latestTag: string, previousTags: seq<string>)
    returns (frame: Result<seq<HistoryRow>, QueryError>)
    requires Consistent(db)
    ensures frame.Success? <==> depth > 0 && Ordered(db, IsFor(repo, latestTag)) != []
    ensures frame.Failure? ==> frame.error == if depth <= 0 then NegativeLimit else NoReportForTag
    ensures frame.Success? ==>
              IsFrame(UsedReports(db, depth, repo, latestTag, previousTags),
                      HistoryRows(db, depth, repo, latestTag, previousTags), frame.value)
  {
    if depth <= 0 {
      return Failure(NegativeLimit);
    }
    var previousReports := PreviousReports(db, depth, repo, latestTag, previousTags);
    var candidates := Ordered(db, IsFor(repo, latestTag));
    if candidates == [] {
      return Failure(NoReportForTag);
    }
    var lastReport := candidates[0];
    var costReportEntries := [lastReport] + previousReports;
    var ids := Ids(costReportEntries);
    var dappDataEntries := Filter(Wanted(db, lastReport.id, ids), db.rows);
    var dfData := JoinReports(costReportEntries, dappDataEntries);
    FilterSelects(Wanted(db, lastReport.id, ids), db.rows);
    assert forall k | 0 <= k < |dappDataEntries| :: dappDataEntries[k] in dappDataEntries;
    JoinedRows(costReportEntries, dappDataEntries);
    FrameOrdered();
    SortSorts(FrameOrder(), dfData);
    SortPermutes(FrameOrder(), dfData);
    frame := Success(SortBy(FrameOrder(), dfData));
  }

  method JoinReports(costReportEntries: seq<CostReport>, dappDataEntries: seq<DappData>)
    returns (dfData: seq<HistoryRow>)
    ensures dfData == Joined(costReportEntries, dappDataEntries)
  {
    dfData := [];
    var costReportDict := ById(costReportEntries);
    for k := 0 to |dappDataEntries|
      invariant dfData == Joined(costReportEntries, dappDataEntries[..k])
    {
      assert dappDataEntries[..k + 1][..k] == dappDataEntries[..k];
      var entry := dappDataEntries[k];
      if entry.costReportId in costReportDict {
        var costReport := costReportDict[entry.costReportId];
        dfData := dfData + [HistoryRow(costReport, TagOf(costReport), entry.data)];
      }
    }
    assert dappDataEntries[..|dappDataEntries|] == dappDataEntries;
  }

  // ---------------------------------------------------------------- pairs of dapp and action

  ghost predicate HasPair(rows: seq<DappData>, id: nat, dappName: string, action: string) {
    exists i :: 0 <= i < |rows| && rows[i].costReportId == id && rows[i].data.dappName == dappName
                && rows[i].data.action == action
  }

  /** Every dapp of the report has every action of the report. */
  ghost predicate IsProduct(rows: seq<DappData>, id: nat) {
    forall d, a | HasDapp(rows, id, d) && HasAction(rows, id, a) :: HasPair(rows, id, d, a)
  }

  /** `last` is the newest report of its repo and tag, and `rows` are its rows; the store may hold anything else. */
  ghost predicate HoldsLast(db: Db, last: CostReport, rows: seq<DappData>) {
    && Consistent(db)
    && Ordered(db, IsFor(last.repo, TagOf(last))) != [] && Ordered(db, IsFor(last.repo, TagOf(last)))[0] == last
    && Filter(RowsOf(last.id), db.rows) == rows
  }

  /** The pair of every row of the history occurs in the last report. */
  ghost predicate NoNewPair(db: Db, depth: int, last: CostReport, rows: seq<DappData>, previousTags: seq<string>)
    requires HoldsLast(db, last, rows)
  {
    forall x | x in HistoryRows(db, depth, last.repo, TagOf(last), previousTags) ::
      HasPair(rows, last.id, x.data.dappName, x.data.action)
  }

  /** Whatever the older reports hold, and whatever the depth and the previous tags, every returned row's dapp
      and action occur together in the last report, if and only if the last report has every action of its own
      for every dapp of its own. */
  lemma PairsOccurIff(last: CostReport, rows: seq<DappData>)
    requires forall k | 0 <= k < |rows| :: rows[k].costReportId == last.id
    ensures IsProduct(rows, last.id) <==>
            forall db, depth: int, previousTags |
              HoldsLast(db, last, rows) && depth >= 1 && Producible(TagOf(last), previousTags) ::
              NoNewPair(db, depth, last, rows, previousTags)
  {
    if IsProduct(rows, last.id) {
      forall db, depth: int, previousTags |
          HoldsLast(db, last, rows) && depth >= 1 && Producible(TagOf(last), previousTags)
        ensures NoNewPair(db, depth, last, rows, previousTags)
      {
        ProductHasPairs(db, depth, last, rows, previousTags);
      }
    } else {
      var db := StoreWithNewPair(last, rows);
    }
  }

  lemma StoreWithNewPair(last: CostReport, rows: seq<DappData>) returns (db: Db)
    requires forall k | 0 <= k < |rows| :: rows[k].costReportId == last.id
    requires !IsProduct(rows, last.id)
    ensures HoldsLast(db, last, rows) && !NoNewPair(db, 2, last, rows, [TagOf(last)])
  {
    var d, a :| HasDapp(rows, last.id, d) && HasAction(rows, last.id, a) && !HasPair(rows, last.id, d, a);
    var older := last.(id := last.id + 1, timestamp := last.timestamp - 1);
    var x := DappData(older.id, DataRow(d, a, rows[0].data.metrics));
    db := Db([older, last], rows + [x], last.id + 2);
    OlderRowReturned(db, last, rows, older, x);
    assert !HasPair(rows, last.id, x.data.dappName, x.data.action);
  }

  lemma SameNames(db: Db, last: CostReport, rows: seq<DappData>, dappName: string, action: string)
    requires Filter(RowsOf(last.id), db.rows) == rows
    ensures HasDapp(db.rows, last.id, dappName) <==> HasDapp(rows, last.id, dappName)
    ensures HasAction(db.rows, last.id, action) <==> HasAction(rows, last.id, action)
  {
    FilterSelects(RowsOf(last.id), db.rows);
    assert forall i | 0 <= i < |db.rows| :: db.rows[i] in db.rows;
    assert forall i | 0 <= i < |rows| :: rows[i] in rows;
  }

  lemma ProductHasPairs(db: Db, depth: int, last: CostReport, rows: seq<DappData>, previousTags: seq<string>)
    requires HoldsLast(db, last, rows) && IsProduct(rows, last.id)
    ensures NoNewPair(db, depth, last, rows, previousTags)
  {
    var used := UsedReports(db, depth, last.repo, TagOf(last), previousTags);
    FilterSelects(Wanted(db, last.id, Ids(used)), db.rows);
    forall x | x in HistoryRows(db, depth, last.repo, TagOf(last), previousTags)
      ensures HasPair(rows, last.id, x.data.dappName, x.data.action)
    {
      SameNames(db, last, rows, x.data.dappName, x.data.action);
    }
  }

  /** An older report of the same tag and one row in it, made of names of the last report, which is returned. */
  lemma OlderRowReturned(db: Db, last: CostReport, rows: seq<DappData>, older: CostReport, x: DappData)
    requires forall k | 0 <= k < |rows| :: rows[k].costReportId == last.id
    requires older.repo == last.repo && TagOf(older) == TagOf(last) && older.timestamp < last.timestamp
    requires db.reports == [older, last] && db.rows == rows + [x]
    requires older.id != last.id && older.id < db.nextId && last.id < db.nextId
    requires x.costReportId == older.id && HasDapp(rows, last.id, x.data.dappName)
    requires HasAction(rows, last.id, x.data.action)
    ensures HoldsLast(db, last, rows)
    ensures x in HistoryRows(db, 2, last.repo, TagOf(last), [TagOf(last)])
  {
    var tag := TagOf(last);
    var keep := IsFor(last.repo, tag);
    TwoReports(db, last, older);
    var found := Ordered(db, keep);
    FilterOne(RowsOf(last.id), rows, x);
    FilterTrivial(RowsOf(last.id), rows);
    SameNames(db, last, rows, x.data.dappName, x.data.action);
    SkipsTheLast(db, last.repo, tag);
    var used := UsedReports(db, 2, last.repo, tag, [tag]);
    assert used == [last, older];
    assert Ids(used)[1] == older.id;
    assert db.rows[|rows|] == x;
    FilterSelects(Wanted(db, last.id, Ids(used)), db.rows);
  }

  lemma TwoReports(db: Db, last: CostReport, older: CostReport)
    requires older.repo == last.repo && TagOf(older) == TagOf(last) && older.timestamp < last.timestamp
    requires db.reports == [older, last] && older.id != last.id && older.id < db.nextId && last.id < db.nextId
    requires forall row | row in db.rows :: row.costReportId == older.id || row.costReportId == last.id
    ensures Consistent(db) && Ordered(db, IsFor(last.repo, TagOf(last))) == [last, older]
  {
    var keep := IsFor(last.repo, TagOf(last));
    assert Ids(db.reports) == [older.id, last.id];
    assert Ids(db.reports)[0] == older.id && Ids(db.reports)[1] == last.id;
    FilterTrivial(keep, db.reports);
    OrderedReports(db, keep);
    var found := Ordered(db, keep);
    assert last in db.reports && older in db.reports;
    assert last in found && older in found && |found| == 2;
    assert NewestFirst()(found[0], found[1]);
  }

  /** A store in which a returned dapp and action occur in the last report, but not together. */
  lemma PairMayBeNew(db: Db, last: CostReport, older: CostReport, m: Metrics)
    requires last == CostReport(1, 20, Evm, "latest", "latest", None, "b2")
    requires older == CostReport(0, 10, Evm, "latest", "latest", None, "a1")
    requires db == Db([older, last], [DappData(1, DataRow("aave", "borrow", m)),
                                      DappData(1, DataRow("curve", "swap", m)),
                                      DappData(0, DataRow("aave", "swap", m))], 2)
    ensures Consistent(db) && Ordered(db, IsFor(Evm, "latest")) != []
    ensures db.rows[2] in HistoryRows(db, 2, Evm, "latest", ["latest"])
    ensures !HasPair(db.rows, 1, "aave", "swap")
  {
    var rows := db.rows[..2];
    assert db.rows == rows + [db.rows[2]];
    assert rows[0].data.dappName == "aave" && rows[1].data.action == "swap";
    OlderRowReturned(db, last, rows, older, db.rows[2]);
    DifferentNames();
  }

  /** And the query on that store does return the row. */
  method NewPairReturned(m: Metrics) returns (frame: seq<HistoryRow>)
    ensures exists k :: 0 <= k < |frame| && frame[k].data == DataRow("aave", "swap", m) && frame[k].report.id == 0
  {
    var last := CostReport(1, 20, Evm, "latest", "latest", None, "b2");
    var older := CostReport(0, 10, Evm, "latest", "latest", None, "a1");
    var x := DappData(0, DataRow("aave", "swap", m));
    var rows := [DappData(1, DataRow("aave", "borrow", m)), DappData(1, DataRow("curve", "swap", m)), x];
    var db := Db([older, last], rows, 2);
    PairMayBeNew(db, last, older, m);
    var r := GetHistoricalData(db, 2, Evm, "latest", ["latest"]);
    frame := r.value;
    ghost var k := RowIsReturned(UsedReports(db, 2, Evm, "latest", ["latest"]),
                                 HistoryRows(db, 2, Evm, "latest", ["latest"]), frame, x);
  }

  lemma RowIsReturned(used: seq<CostReport>, rows: seq<DappData>, frame: seq<HistoryRow>, x: DappData) returns (k: nat)
    requires IsFrame(used, rows, frame) && x in rows
    ensures k < |frame| && IsRowOf(used, x, frame[k])
  {
    var m :| 0 <= m < |rows| && rows[m] == x;
    var row := Joined(used, rows)[m];
    assert row in multiset(Joined(used, rows));
    assert row in frame;
    k :| 0 <= k < |frame| && frame[k] == row;
  }

  lemma DifferentNames()
    ensures "borrow" != "swap" && "curve" != "aave"
  {
    assert "borrow"[0] != "swap"[0] && "curve"[0] != "aave"[0];
  }

  // ---------------------------------------------------------------- the command

  /** The report is of the repo, and has the tag in the column that counts for the repo. */
  ghost predicate Carries(r: CostReport, repo: Repo, tag: string) {
    r.repo == repo && (if repo == Evm then r.neonEvmTag else r.proxyTag) == tag
  }

  /** distinct(tag_column) of a repo. */
  function StoredTags(reports: seq<CostReport>, repo: Repo): (tags: seq<string>)
    ensures Distinct(tags)
    ensures forall t :: t in tags <==> IsStored(reports, repo, t)
  {
    if reports == [] then []
    else
      var (init, last) := (reports[..|reports| - 1], reports[|reports| - 1]);
      var tags := StoredTags(init, repo);
      assert reports == init + [last];
      OneMoreTagged(init, last, repo);
      if last.repo == repo && TagOf(last) !in tags then tags + [TagOf(last)] else tags
  }

  ghost predicate IsStored(reports: seq<CostReport>, repo: Repo, tag: string) {
    exists r :: r in reports && Carries(r, repo, tag)
  }

  lemma OneMoreTagged(reports: seq<CostReport>, last: CostReport, repo: Repo)
    ensures forall t :: IsStored(reports + [last], repo, t) <==>
                        IsStored(reports, repo, t) || (last.repo == repo && TagOf(last) == t)
  {
    forall t
      ensures IsStored(reports + [last], repo, t) <==>
              IsStored(reports, repo, t) || (last.repo == repo && TagOf(last) == t)
    {
      assert last in reports + [last] && (Carries(last, repo, t) <==> last.repo == repo && TagOf(last) == t);
      if IsStored(reports, repo, t) {
        var r :| r in reports && Carries(r, repo, t);
        assert r in reports + [last];
      }
    }
  }

  /** What the command compares with: for a release the greatest stored releases below it, as many as the depth
      allows; for a branch its version branch, or "latest". */
  ghost predicate IsPreviousTags(db: Db, repo: Repo, comparedTag: string, versionBranch: string, depth: int,
                                 previousTags: seq<string>)
  {
    if Tags.IsWholeTag(comparedTag)
    then Tags.GreatestBelow(StoredTags(db.reports, repo), comparedTag, depth, previousTags)
    else previousTags == [if versionBranch != "" then versionBranch else "latest"]
  }

  method ChoosePreviousTags(db: Db, repo: Repo, comparedTag: string, versionBranch: string, limit: int)
    returns (previousTags: seq<string>)
    ensures IsPreviousTags(db, repo, comparedTag, versionBranch, limit, previousTags)
    ensures Producible(comparedTag, previousTags)
  {
    if Tags.IsWholeTag(comparedTag) {
      var found := Tags.GetPreviousTags(StoredTags(db.reports, repo), comparedTag, limit);
      previousTags := found.value;
      assert !Tags.Below(Tags.VersionOf(comparedTag))(comparedTag);
    } else if versionBranch != "" {
      previousTags := [versionBranch];
    } else {
      previousTags := ["latest"];
    }
  }

  ghost predicate CarriesOne(r: CostReport, repo: Repo, tags: seq<string>) {
    exists t :: t in tags && Carries(r, repo, t)
  }

  /** At most `depth` reports, each once, the first of which is the newest of the compared tag. */
  ghost predicate FirstSelected(db: Db, repo: Repo, comparedTag: string, depth: int, used: seq<CostReport>) {
    && 1 <= |used| <= depth && Distinct(used)
    && used[0] in db.reports && Carries(used[0], repo, comparedTag)
    && (forall r | r in db.reports && Carries(r, repo, comparedTag) :: r.timestamp <= used[0].timestamp)
  }

  /** The reports after the first carry previous tags, newest first; one that is left out is not newer than any of
      them; and without the depth being used up, none with a previous tag is left out. */
  ghost predicate RestSelected(db: Db, repo: Repo, depth: int, previousTags: seq<string>, used: seq<CostReport>) {
    && (forall i | 1 <= i < |used| :: used[i] in db.reports && CarriesOne(used[i], repo, previousTags))
    && (forall i, j | 1 <= i < j < |used| :: used[i].timestamp >= used[j].timestamp)
    && (forall r, i | r in db.reports && CarriesOne(r, repo, previousTags) && r !in used && 1 <= i < |used| ::
          r.timestamp <= used[i].timestamp)
    && (|used| < depth ==> forall r | r in db.reports && CarriesOne(r, repo, previousTags) :: r in used)
  }

  lemma CarriesIsFor(r: CostReport, repo: Repo, tag: string, tags: seq<string>)
    ensures Carries(r, repo, tag) <==> IsFor(repo, tag)(r)
    ensures CarriesOne(r, repo, tags) <==> InTags(repo, tags)(r)
  {
    if InTags(repo, tags)(r) {
      assert Carries(r, repo, TagOf(r));
    }
  }

  /** The reports the query uses, from the columns of the store. */
  lemma UsedIsSelection(db: Db, depth: int, repo: Repo, tag: string, previousTags: seq<string>)
    requires Consistent(db) && depth >= 1 && Producible(tag, previousTags)
    requires Ordered(db, IsFor(repo, tag)) != []
    ensures FirstSelected(db, repo, tag, depth, UsedReports(db, depth, repo, tag, previousTags))
    ensures RestSelected(db, repo, depth, previousTags, UsedReports(db, depth, repo, tag, previousTags))
  {
    var last := Ordered(db, IsFor(repo, tag))[0];
    var rest := PreviousReports(db, depth, repo, tag, previousTags);
    FirstIsSelected(db, depth, repo, tag, previousTags);
    HistoryUsesNewest(db, depth, repo, tag, previousTags);
    RestDescends(db, depth, repo, tag, previousTags);
    RestIsSelected(db, repo, depth, previousTags, last, rest);
  }

  lemma FirstIsSelected(db: Db, depth: int, repo: Repo, tag: string, previousTags: seq<string>)
    requires Consistent(db) && depth >= 1 && Producible(tag, previousTags)
    requires Ordered(db, IsFor(repo, tag)) != []
    ensures FirstSelected(db, repo, tag, depth, UsedReports(db, depth, repo, tag, previousTags))
  {
    forall r: CostReport
      ensures Carries(r, repo, tag) <==> IsFor(repo, tag)(r)
    {
      CarriesIsFor(r, repo, tag, previousTags);
    }
    HistoryUses(db, depth, repo, tag, previousTags);
  }

  lemma RestIsSelected(db: Db, repo: Repo, depth: int, previousTags: seq<string>, last: CostReport,
                       rest: seq<CostReport>)
    requires forall r | r in rest :: r in db.reports && InTags(repo, previousTags)(r)
    requires forall r, u | r in db.reports && InTags(repo, previousTags)(r) && u in rest && r !in [last] + rest ::
               r.timestamp <= u.timestamp
    requires forall i, j | 0 <= i < j < |rest| :: rest[i].timestamp >= rest[j].timestamp
    requires |rest| < depth - 1 ==> forall r | r in db.reports && InTags(repo, previousTags)(r) :: r in [last] + rest
    ensures RestSelected(db, repo, depth, previousTags, [last] + rest)
  {
    var used := [last] + rest;
    forall r: CostReport
      ensures CarriesOne(r, repo, previousTags) <==> InTags(repo, previousTags)(r)
    {
      CarriesIsFor(r, repo, "", previousTags);
    }
    assert forall i | 1 <= i < |used| :: used[i] == rest[i - 1] && used[i] in rest;
  }

  lemma RestDescends(db: Db, depth: int, repo: Repo, tag: string, previousTags: seq<string>)
    requires Consistent(db) && depth >= 1 && Producible(tag, previousTags)
    requires Ordered(db, IsFor(repo, tag)) != []
    ensures var rest := PreviousReports(db, depth, repo, tag, previousTags);
            && (forall i, j | 0 <= i < j < |rest| :: rest[i].timestamp >= rest[j].timestamp)
            && (|rest| < depth - 1 ==>
                 forall r | r in db.reports && InTags(repo, previousTags)(r) ::
                   r in UsedReports(db, depth, repo, tag, previousTags))
  {
    var found := Ordered(db, InTags(repo, previousTags));
    var offset := Offset(tag, previousTags);
    OrderedReports(db, InTags(repo, previousTags));
    if previousTags == [tag] {
      SkipsTheLast(db, repo, tag);
    }
    SliceOf(found, offset, depth - 1);
    SliceDescends(found, Ordered(db, IsFor(repo, tag))[0], offset, depth - 1);
  }

  lemma SliceDescends(found: seq<CostReport>, last: CostReport, offset: nat, limit: nat)
    requires Sorted(NewestFirst(), found) && offset <= |found| && offset <= 1 && (offset == 1 ==> found[0] == last)
    ensures var rest := Take(Drop(found, offset), limit);
            && (forall i, j | 0 <= i < j < |rest| :: rest[i].timestamp >= rest[j].timestamp)
            && (|rest| < limit ==> forall r | r in found :: r in [last] + rest)
  {
    var rest := Take(Drop(found, offset), limit);
    forall i, j | 0 <= i < j < |rest|
      ensures rest[i].timestamp >= rest[j].timestamp
    {
      assert rest[i] == found[offset + i] && rest[j] == found[offset + j];
      assert NewestFirst()(found[offset + i], found[offset + j]);
    }
    if |rest| < limit {
      assert rest == found[offset..];
      assert found == found[..offset] + rest;
    }
  }

  // ---------------------------------------------------------------- the rows of the command

  /** The row is of a used report, and both its names occur in the first of them, perhaps in different rows. */
  ghost predicate IsWanted(db: Db, used: seq<CostReport>, x: DappData)
    requires used != []
  {
    && (exists u :: u in used && u.id == x.costReportId)
    && (exists y :: y in db.rows && y.costReportId == used[0].id && y.data.dappName == x.data.dappName)
    && (exists y :: y in db.rows && y.costReportId == used[0].id && y.data.action == x.data.action)
  }

  ghost predicate IsReturned(frame: seq<HistoryRow>, x: DappData) {
    exists k :: 0 <= k < |frame| && frame[k].data == x.data && frame[k].report.id == x.costReportId
  }

  /** Of the stored rows exactly the wanted ones are returned, each with the report it belongs to and the tag in
      that report's column, by timestamp, then dapp, then action; and there are as many as there are wanted ones. */
  ghost predicate IsAnswer(db: Db, repo: Repo, used: seq<CostReport>, frame: seq<HistoryRow>)
    requires used != []
  {
    && (forall x | x in db.rows :: IsReturned(frame, x) <==> IsWanted(db, used, x))
    && |frame| == |Filter(Wanted(db, used[0].id, Ids(used)), db.rows)|
    && (forall k | 0 <= k < |frame| ::
          frame[k].report in used && Carries(frame[k].report, repo, frame[k].tag) &&
          DappData(frame[k].report.id, frame[k].data) in db.rows)
    && (forall i, j | 0 <= i < j < |frame| :: InOrder(frame[i], frame[j]))
  }

  ghost predicate InOrder(a: HistoryRow, b: HistoryRow) {
    && a.report.timestamp <= b.report.timestamp
    && (a.report.timestamp == b.report.timestamp ==>
          !ActionNames.TextLess(b.data.dappName, a.data.dappName) &&
          (a.data.dappName == b.data.dappName ==> !ActionNames.TextLess(b.data.action, a.data.action)))
  }

  lemma WantedMeans(db: Db, used: seq<CostReport>, x: DappData)
    requires used != []
    ensures Wanted(db, used[0].id, Ids(used))(x) <==> IsWanted(db, used, x)
  {
    forall u | u in used
      ensures u.id in Ids(used)
    {
      IdsMember(used, u);
    }
    if x.costReportId in Ids(used) {
      var u := IdsMemberOf(used, x.costReportId);
    }
    assert forall i | 0 <= i < |db.rows| :: db.rows[i] in db.rows;
  }

  lemma FrameRow(used: seq<CostReport>, rows: seq<DappData>, frame: seq<HistoryRow>, k: nat) returns (x: DappData)
    requires IsFrame(used, rows, frame) && k < |frame|
    ensures x in rows && IsRowOf(used, x, frame[k])
  {
    var joined := Joined(used, rows);
    assert frame[k] in multiset(frame);
    assert frame[k] in joined;
    var m :| 0 <= m < |joined| && joined[m] == frame[k];
    x := rows[m];
  }

  lemma FrameSize(used: seq<CostReport>, rows: seq<DappData>, frame: seq<HistoryRow>)
    requires IsFrame(used, rows, frame)
    ensures |frame| == |rows|
  {
    assert |multiset(frame)| == |multiset(Joined(used, rows))|;
  }

  lemma FrameInOrder(frame: seq<HistoryRow>)
    requires Sorted(FrameOrder(), frame)
    ensures forall i, j | 0 <= i < j < |frame| :: InOrder(frame[i], frame[j])
  {
    forall i, j | 0 <= i < j < |frame|
      ensures InOrder(frame[i], frame[j])
    {
      assert FrameOrder()(frame[i], frame[j]);
      ActionNames.TextTotal(frame[i].data.dappName, frame[j].data.dappName);
    }
  }

  lemma FrameIsAnswer(db: Db, repo: Repo, used: seq<CostReport>, frame: seq<HistoryRow>)
    requires used != [] && forall u | u in used :: u.repo == repo
    requires IsFrame(used, Filter(Wanted(db, used[0].id, Ids(used)), db.rows), frame)
    ensures IsAnswer(db, repo, used, frame)
  {
    var wanted := Wanted(db, used[0].id, Ids(used));
    var rows := Filter(wanted, db.rows);
    FilterSelects(wanted, db.rows);
    FrameSize(used, rows, frame);
    FrameInOrder(frame);
    forall k | 0 <= k < |frame|
      ensures frame[k].report in used && Carries(frame[k].report, repo, frame[k].tag)
      ensures DappData(frame[k].report.id, frame[k].data) in rows
    {
      var x := FrameRow(used, rows, frame, k);
      assert x == DappData(frame[k].report.id, frame[k].data);
    }
    forall x | x in db.rows
      ensures IsReturned(frame, x) <==> IsWanted(db, used, x)
    {
      WantedMeans(db, used, x);
      if x in rows {
        var k := RowIsReturned(used, rows, frame, x);
      }
      if IsReturned(frame, x) {
        var k :| 0 <= k < |frame| && frame[k].data == x.data && frame[k].report.id == x.costReportId;
        assert x == DappData(frame[k].report.id, frame[k].data);
      }
    }
  }

  /** The data of `compare_dapp_results`: it fails exactly without depth or without a report for the tag;
      otherwise it compares with the previous tags of its case, selects reports by them, and is exactly the answer
      from these reports. */
  method CompareDappResults(db: Db, repo: Repo, comparedTag: string, versionBranch: string, depth: int)
    returns (frame: Result<seq<HistoryRow>, QueryError>)
    requires Consistent(db)
    ensures frame.Success? <==> depth >= 1 && exists r :: r in db.reports && Carries(r, repo, comparedTag)
    ensures frame.Success? ==>
              exists previousTags: seq<string>, used: seq<CostReport> ::
                && IsPreviousTags(db, repo, comparedTag, versionBranch, depth, previousTags)
                && FirstSelected(db, repo, comparedTag, depth, used)
                && RestSelected(db, repo, depth, previousTags, used)
                && IsAnswer(db, repo, used, frame.value)
  {
    var previousTags := ChoosePreviousTags(db, repo, comparedTag, versionBranch, depth);
    frame := GetHistoricalData(db, depth, repo, comparedTag, previousTags);
    AnyCarries(db, repo, comparedTag);
    if frame.Success? {
      ghost var used := UsedReports(db, depth, repo, comparedTag, previousTags);
      UsedIsSelection(db, depth, repo, comparedTag, previousTags);
      assert forall u | u in used :: u.repo == repo;
      FrameIsAnswer(db, repo, used, frame.value);
    }
  }

  lemma AnyCarries(db: Db, repo: Repo, tag: string)
    requires Consistent(db)
    ensures Ordered(db, IsFor(repo, tag)) != [] <==> exists r :: r in db.reports && Carries(r, repo, tag)
  {
    OrderedReports(db, IsFor(repo, tag));
    var found := Ordered(db, IsFor(repo, tag));
    if found != [] {
      assert found[0] in found;
      assert Carries(found[0], repo, tag);
    }
  }
}
