/**
 The two-table store of cost reports: deploy/test_results_db/db_handler.py, and the commands of clickfile.py
 that save to it (`save_dapps_cost_report_to_db`) and read its history (`compare_dapp_results`).
 Every method of the store ends in a commit; a command may be stopped after any of them.
 Queries without an order return rows in the order in which they were stored.
 */
module ResultsDb {
  import opened Wrappers
  import opened Lists
  import Tags
  import ActionNames

  datatype Repo = Proxy | Evm | Tests

  datatype CostReport = CostReport(
    id: nat, timestamp: int, repo: Repo, neonEvmTag: string, proxyTag: string,
    evmCommitSha: Option<string>, proxyCommitSha: string)

  datatype Metrics = Metrics(accCount: int, trxCount: int, gasEstimated: int, gasUsed: int, computeUnits: int)

  /** A row of the prepared report data, and a stored row, which names its report. */
  datatype DataRow = DataRow(dappName: string, action: string, metrics: Metrics)
  datatype DappData = DappData(costReportId: nat, data: DataRow)

  datatype Db = Db(reports: seq<CostReport>, rows: seq<DappData>, nextId: nat)

  /** The tag column a repo's reports are looked up by. */
  function TagOf(report: CostReport): string {
    if report.repo.Evm? then report.neonEvmTag else report.proxyTag
  }

  /** `CostReport.repo == repo, tag_column == tag`. */
  function IsFor(repo: Repo, tag: string): CostReport -> bool {
    (r: CostReport) => r.repo == repo && TagOf(r) == tag
  }

  function Ids(reports: seq<CostReport>): (ids: seq<nat>)
    ensures |ids| == |reports|
  {
    seq(|reports|, i requires 0 <= i < |reports| => reports[i].id)
  }

  function RowsOf(id: nat): DappData -> bool {
    (row: DappData) => row.costReportId == id
  }

  // ---------------------------------------------------------------- effects of the statements

  function ReportIds(db: Db, repo: Repo, tag: string): seq<nat> {
    Ids(Filter(IsFor(repo, tag), db.reports))
  }

  function DeleteData(db: Db, ids: seq<nat>): Db {
    db.(rows := Filter((row: DappData) => row.costReportId !in ids, db.rows))
  }

  function DeleteReports(db: Db, ids: seq<nat>): Db {
    db.(reports := Filter((r: CostReport) => r.id !in ids, db.reports))
  }

  function AddReport(db: Db, report: CostReport): Db {
    db.(reports := db.reports + [report.(id := db.nextId)], nextId := db.nextId + 1)
  }

  /** groupby("dapp_name"): groups in ascending name order, each in its own order. */
  function Grouped(data: seq<DataRow>): seq<DataRow> {
    SortBy(ByDapp(), data)
  }

  function ByDapp(): (DataRow, DataRow) -> bool {
    (a: DataRow, b: DataRow) => !ActionNames.TextLess(b.dappName, a.dappName)
  }

  function OfDapp(dappName: string): DataRow -> bool {
    (row: DataRow) => row.dappName == dappName
  }

  /** `groups` holds the rows of `data` in ascending order of dapps, and those of one dapp in their order. */
  ghost predicate IsGrouping(groups: seq<DataRow>, data: seq<DataRow>) {
    && multiset(groups) == multiset(data)
    && (forall i, j | 0 <= i < j < |groups| :: !ActionNames.TextLess(groups[j].dappName, groups[i].dappName))
    && (forall d :: Filter(OfDapp(d), groups) == Filter(OfDapp(d), data))
  }

  lemma GroupedIsGrouping(data: seq<DataRow>)
    ensures IsGrouping(Grouped(data), data)
  {
    var before := ByDapp();
    forall a: DataRow, b: DataRow
      ensures before(a, b) || before(b, a)
    {
      ActionNames.TextTotal(a.dappName, b.dappName);
    }
    forall a: DataRow, b: DataRow, c: DataRow | before(a, b) && before(b, c)
      ensures before(a, c)
    {
      ActionNames.NotLessTransitive(a.dappName, b.dappName, c.dappName);
    }
    SortSorts(before, data);
    SortPermutes(before, data);
    forall i, j | 0 <= i < j < |Grouped(data)|
      ensures !ActionNames.TextLess(Grouped(data)[j].dappName, Grouped(data)[i].dappName)
    {
      assert before(Grouped(data)[i], Grouped(data)[j]);
    }
    forall d
      ensures Filter(OfDapp(d), Grouped(data)) == Filter(OfDapp(d), data)
    {
      ActionNames.TextLessIrreflexive(d);
      SortStable(before, OfDapp(d), data);
    }
  }

  function Labelled(data: seq<DataRow>, id: nat): (rows: seq<DappData>)
    ensures |rows| == |data|
  {
    seq(|data|, i requires 0 <= i < |data| => DappData(id, data[i]))
  }

  function AddData(db: Db, data: seq<DataRow>, id: nat): Db {
    db.(rows := db.rows + Labelled(Grouped(data), id))
  }

  // ---------------------------------------------------------------- the store

  class PostgresTestResultsHandler {
    var db: Db
    /** The states committed through this handler, oldest first. */
    ghost var commits: seq<Db>

    constructor (existing: Db)
      ensures db == existing && commits == []
    {
      db := existing;
      commits := [];
    }

    /** The ids of exactly the reports of the pair, in the order of the reports. */
    method GetCostReportIds(repo: Repo, tag: string) returns (ids: seq<nat>)
      ensures forall r | r in db.reports && IsFor(repo, tag)(r) :: r.id in ids
      ensures forall id | id in ids :: exists r :: r in db.reports && IsFor(repo, tag)(r) && r.id == id
      ensures Consistent(db) ==>
                forall r | r in db.reports ::
                  r.id in ids <==> r.repo == repo && (if repo == Evm then r.neonEvmTag else r.proxyTag) == tag
      ensures ids == ReportIds(db, repo, tag)
    {
      var found := Filter(IsFor(repo, tag), db.reports);
      ids := [];
      for i := 0 to |found|
        invariant ids == Ids(found[..i])
      {
        assert Ids(found[..i + 1]) == Ids(found[..i]) + [found[i].id];
        ids := ids + [found[i].id];
      }
      assert found[..|found|] == found;
      assert ids == ReportIds(db, repo, tag);
      IdsOfPair(db, repo, tag);
    }

    /** The rows of these reports are gone; the others stay, in their order, and so do all reports. */
    method DeleteDataByReportIds(ids: seq<nat>)
      modifies this
      ensures forall row :: row in db.rows <==> row in old(db).rows && row.costReportId !in ids
      ensures Selects((row: DappData) => row.costReportId !in ids, old(db).rows, db.rows)
      ensures db.reports == old(db).reports && db.nextId == old(db).nextId
      ensures db == DeleteData(old(db), ids) && commits == old(commits) + [db]
    {
      ghost var at := FilterPicks((row: DappData) => row.costReportId !in ids, db.rows);
      FilterSelects((row: DappData) => row.costReportId !in ids, db.rows);
      db := DeleteData(db, ids);
      commits := commits + [db];
    }

    /** The reports with these ids are gone; the others stay, in their order, and so do all rows. */
    method DeleteCostReports(ids: seq<nat>)
      modifies this
      ensures forall r :: r in db.reports <==> r in old(db).reports && r.id !in ids
      ensures Selects((r: CostReport) => r.id !in ids, old(db).reports, db.reports)
      ensures db.rows == old(db).rows && db.nextId == old(db).nextId
      ensures db == DeleteReports(old(db), ids) && commits == old(commits) + [db]
    {
      ghost var at := FilterPicks((r: CostReport) => r.id !in ids, db.reports);
      FilterSelects((r: CostReport) => r.id !in ids, db.reports);
      db := DeleteReports(db, ids);
      commits := commits + [db];
    }

    /** The report is stored last under a fresh id; everything else stays, and no row belongs to it yet. */
    method SaveCostReport(report: CostReport) returns (id: nat)
      modifies this
      ensures db.reports == old(db).reports + [report.(id := id)] && db.rows == old(db).rows
      ensures Consistent(old(db)) ==>
                && Consistent(db)
                && (forall r | r in old(db).reports :: r.id != id)
                && (forall row | row in db.rows :: row.costReportId != id)
      ensures db == AddReport(old(db), report) && id == old(db).nextId && commits == old(commits) + [db]
    {
      id := db.nextId;
      if Consistent(db) {
        FreshId(db, report);
      }
      db := AddReport(db, report);
      commits := commits + [db];
    }

    /** One commit for all rows. */
    method SaveCostReportData(data: seq<DataRow>, id: nat)
      modifies this
      ensures db == AddData(old(db), data, id) && commits == old(commits) + [db]
    {
      var groups := Grouped(data);
      for i := 0 to |groups|
        invariant db == old(db).(rows := old(db).rows + Labelled(groups[..i], id))
        invariant commits == old(commits)
      {
        assert Labelled(groups[..i + 1], id) == Labelled(groups[..i], id) + [DappData(id, groups[i])];
        db := db.(rows := db.rows + [DappData(id, groups[i])]);
      }
      assert groups[..|groups|] == groups;
      commits := commits + [db];
    }

    /** The command's deletion: earlier reports of the pair go, their rows first. */
    method DeleteEarlier(report: CostReport)
      modifies this
      ensures var ids := ReportIds(old(db), report.repo, TagOf(report));
              var db1 := DeleteData(old(db), ids);
              if DoDelete(report.neonEvmTag, report.proxyTag) && ids != []
              then db == DeleteReports(db1, ids) && commits == old(commits) + [db1, db]
              else db == old(db) && commits == old(commits)
    {
      if DoDelete(report.neonEvmTag, report.proxyTag) {
        var reportIdsOld := GetCostReportIds(report.repo, TagOf(report));
        if reportIdsOld != [] {
          DeleteDataByReportIds(reportIdsOld);
          DeleteCostReports(reportIdsOld);
        }
      }
    }

    /** The save command: its commits are those of the specification below. */
    method SaveDappsCostReportToDb(report: CostReport, data: seq<DataRow>)
      modifies this
      ensures commits == old(commits) + SaveCommits(old(db), report, data)
      ensures db == commits[|commits| - 1]
    {
      DeleteEarlier(report);
      var reportIdNew := SaveCostReport(report);
      SaveCostReportData(data, reportIdNew);
    }
  }

  /** Earlier reports stay only for a merge to develop or to one version branch of both services. */
  predicate DoDelete(evmTag: string, proxyTag: string) {
    !(evmTag == proxyTag && (evmTag == "latest" || Tags.IsVersionBranch(evmTag)))
  }

  /** The states the save command commits, in order. */
  function SaveCommits(db: Db, report: CostReport, data: seq<DataRow>): (commits: seq<Db>)
    ensures |commits| >= 2
  {
    var ids := ReportIds(db, report.repo, TagOf(report));
    if DoDelete(report.neonEvmTag, report.proxyTag) && ids != [] then
      var db1 := DeleteData(db, ids);
      var db2 := DeleteReports(db1, ids);
      var db3 := AddReport(db2, report);
      [db1, db2, db3, AddData(db3, data, db2.nextId)]
    else
      var db3 := AddReport(db, report);
      [db3, AddData(db3, data, db.nextId)]
  }

  // ---------------------------------------------------------------- what every run keeps

  /** Each data row refers to an existing report, and ids are never reused. */
  ghost predicate Consistent(db: Db) {
    && Distinct(Ids(db.reports))
    && (forall r | r in db.reports :: r.id < db.nextId)
    && (forall row | row in db.rows :: row.costReportId in Ids(db.reports))
  }

  /** A tag whose reports replace each other. */
  predicate IsOrdinary(tag: string) {
    tag != "latest" && !Tags.IsVersionBranch(tag)
  }

  ghost predicate AtMostOneEach(db: Db) {
    forall repo, tag | IsOrdinary(tag) :: |Filter(IsFor(repo, tag), db.reports)| <= 1
  }

  lemma IdsMember(reports: seq<CostReport>, r: CostReport)
    requires r in reports
    ensures r.id in Ids(reports)
  {
    var k :| 0 <= k < |reports| && reports[k] == r;
    assert Ids(reports)[k] == r.id;
  }

  lemma IdsMemberOf(reports: seq<CostReport>, id: nat) returns (r: CostReport)
    requires id in Ids(reports)
    ensures r in reports && r.id == id
  {
    var k :| 0 <= k < |reports| && Ids(reports)[k] == id;
    r := reports[k];
  }

  lemma {:induction false} DistinctIdsFilter(keep: CostReport -> bool, reports: seq<CostReport>)
    requires Distinct(Ids(reports))
    ensures Distinct(Ids(Filter(keep, reports)))
  {
    if reports != [] {
      var (init, last) := (reports[..|reports| - 1], reports[|reports| - 1]);
      var kept := Filter(keep, init);
      assert forall k | 0 <= k < |init| :: Ids(init)[k] == Ids(reports)[k];
      DistinctIdsFilter(keep, init);
      FilterSelects(keep, init);
      forall k | 0 <= k < |kept|
        ensures Ids(kept)[k] != last.id
      {
        assert kept[k] in init;
        var m :| 0 <= m < |init| && init[m] == kept[k];
        assert Ids(reports)[m] != Ids(reports)[|init|];
      }
      if keep(last) {
        assert Ids(Filter(keep, reports)) == Ids(kept) + [last.id];
      } else {
        assert Filter(keep, reports) == kept;
      }
    }
  }

  /** Distinct ids name distinct reports. */
  lemma SameReport(db: Db, r: CostReport, r': CostReport)
    requires Distinct(Ids(db.reports)) && r in db.reports && r' in db.reports && r.id == r'.id
    ensures r == r'
  {
    var k :| 0 <= k < |db.reports| && db.reports[k] == r;
    var m :| 0 <= m < |db.reports| && db.reports[m] == r';
    assert Ids(db.reports)[k] == Ids(db.reports)[m];
  }

  /** The old ids are exactly the ids of the reports of the pair. */
  lemma OldIds(db: Db, repo: Repo, tag: string, r: CostReport)
    requires Distinct(Ids(db.reports)) && r in db.reports
    ensures r.id in ReportIds(db, repo, tag) <==> IsFor(repo, tag)(r)
  {
    var earlier := Filter(IsFor(repo, tag), db.reports);
    FilterSelects(IsFor(repo, tag), db.reports);
    if r.id in Ids(earlier) {
      var r' := IdsMemberOf(earlier, r.id);
      SameReport(db, r, r');
    }
    if IsFor(repo, tag)(r) {
      IdsMember(earlier, r);
    }
  }

  lemma IdsOfPair(db: Db, repo: Repo, tag: string)
    ensures var ids := ReportIds(db, repo, tag);
            && (forall r | r in db.reports && IsFor(repo, tag)(r) :: r.id in ids)
            && (forall id | id in ids :: exists r :: r in db.reports && IsFor(repo, tag)(r) && r.id == id)
            && (Consistent(db) ==> forall r | r in db.reports :: r.id in ids <==> IsFor(repo, tag)(r))
  {
    var found := Filter(IsFor(repo, tag), db.reports);
    FilterSelects(IsFor(repo, tag), db.reports);
    forall r | r in found
      ensures r.id in Ids(found)
    {
      IdsMember(found, r);
    }
    forall id | id in Ids(found)
      ensures exists r :: r in db.reports && IsFor(repo, tag)(r) && r.id == id
    {
      var r := IdsMemberOf(found, id);
    }
    if Consistent(db) {
      forall r | r in db.reports
        ensures r.id in Ids(found) <==> IsFor(repo, tag)(r)
      {
        OldIds(db, repo, tag, r);
      }
    }
  }

  /** A new report's id is used by no report and no row. */
  lemma FreshId(db: Db, report: CostReport)
    requires Consistent(db)
    ensures Consistent(AddReport(db, report))
    ensures forall r | r in db.reports :: r.id != db.nextId
    ensures forall row | row in db.rows :: row.costReportId != db.nextId
  {
    var after := AddReport(db, report);
    assert Ids(after.reports) == Ids(db.reports) + [db.nextId];
    forall k | 0 <= k < |db.reports|
      ensures Ids(db.reports)[k] < db.nextId
    {
      assert db.reports[k] in db.reports;
    }
  }

  lemma DeletesKeep(db: Db, repo: Repo, tag: string)
    requires Consistent(db) && AtMostOneEach(db)
    ensures var ids := ReportIds(db, repo, tag);
            var (db1, db2) := (DeleteData(db, ids), DeleteReports(DeleteData(db, ids), ids));
            && Consistent(db1) && AtMostOneEach(db1)
            && Consistent(db2) && AtMostOneEach(db2)
            && Filter(IsFor(repo, tag), db2.reports) == []
  {
    var ids := ReportIds(db, repo, tag);
    var db1 := DeleteData(db, ids);
    var db2 := DeleteReports(db1, ids);
    FilterSelects((row: DappData) => row.costReportId !in ids, db.rows);
    FilterSelects((r: CostReport) => r.id !in ids, db.reports);
    DistinctIdsFilter((r: CostReport) => r.id !in ids, db.reports);
    forall row | row in db2.rows
      ensures row.costReportId in Ids(db2.reports)
    {
      var r := IdsMemberOf(db.reports, row.costReportId);
      IdsMember(db2.reports, r);
    }
    forall repo', tag' | IsOrdinary(tag')
      ensures |Filter(IsFor(repo', tag'), db2.reports)| <= 1
    {
      FilterShorter(IsFor(repo', tag'), (r: CostReport) => r.id !in ids, db.reports);
    }
    forall r | r in db2.reports
      ensures !IsFor(repo, tag)(r)
    {
      OldIds(db, repo, tag, r);
    }
    FilterTrivial(IsFor(repo, tag), db2.reports);
  }

  lemma AddsKeep(db: Db, report: CostReport, data: seq<DataRow>)
    requires Consistent(db) && AtMostOneEach(db)
    requires IsOrdinary(TagOf(report)) ==> Filter(IsFor(report.repo, TagOf(report)), db.reports) == []
    ensures var (db3, db4) := (AddReport(db, report), AddData(AddReport(db, report), data, db.nextId));
            Consistent(db3) && AtMostOneEach(db3) && Consistent(db4) && AtMostOneEach(db4)
  {
    var (db3, db4) := (AddReport(db, report), AddData(AddReport(db, report), data, db.nextId));
    var added := report.(id := db.nextId);
    assert Ids(db3.reports) == Ids(db.reports) + [db.nextId];
    forall k | 0 <= k < |db.reports|
      ensures Ids(db.reports)[k] < db.nextId
    {
      assert db.reports[k] in db.reports;
    }
    forall repo, tag | IsOrdinary(tag)
      ensures |Filter(IsFor(repo, tag), db3.reports)| <= 1
    {
      assert db3.reports[..|db.reports|] == db.reports;
    }
    var rows := Labelled(Grouped(data), db.nextId);
    assert forall row | row in rows :: row.costReportId == db.nextId;
  }

  /** Wherever a save is stopped, the store stays consistent and keeps at most one report for each repo and
      ordinary tag. */
  lemma SaveKeeps(db: Db, report: CostReport, data: seq<DataRow>)
    requires Consistent(db) && AtMostOneEach(db)
    ensures forall c | c in SaveCommits(db, report, data) :: Consistent(c) && AtMostOneEach(c)
  {
    var (repo, tag) := (report.repo, TagOf(report));
    var ids := ReportIds(db, repo, tag);
    var commits := SaveCommits(db, report, data);
    if DoDelete(report.neonEvmTag, report.proxyTag) && ids != [] {
      var db1 := DeleteData(db, ids);
      var db2 := DeleteReports(db1, ids);
      DeletesKeep(db, repo, tag);
      AddsKeep(db2, report, data);
      assert forall c | c in commits ::
          c == db1 || c == db2 || c == AddReport(db2, report) || c == AddData(AddReport(db2, report), data, db2.nextId);
    } else {
      if ids == [] {
        NoIdsNoReports(db, repo, tag);
      }
      AddsKeep(db, report, data);
    }
  }

  lemma NoIdsNoReports(db: Db, repo: Repo, tag: string)
    requires ReportIds(db, repo, tag) == []
    ensures Filter(IsFor(repo, tag), db.reports) == []
  {
  }

  // ---------------------------------------------------------------- runs of interrupted saves

  /** A save that is stopped after a number of commits (never, if that is more than it makes). */
  datatype Command = Save(report: CostReport, data: seq<DataRow>, stopAfter: nat)

  function AfterCommand(db: Db, c: Command): Db {
    var commits := SaveCommits(db, c.report, c.data);
    if c.stopAfter == 0 then db
    else if c.stopAfter < |commits| then commits[c.stopAfter - 1]
    else commits[|commits| - 1]
  }

  function AfterCommands(db: Db, commands: seq<Command>): Db {
    if commands == [] then db
    else AfterCommand(AfterCommands(db, commands[..|commands| - 1]), commands[|commands| - 1])
  }

  /** Over every run of saves, each stopped after any of its commits: every data row refers to an existing
      report, and each repo has at most one report for each ordinary tag. */
  lemma {:induction false} RunsKeep(db: Db, commands: seq<Command>)
    requires Consistent(db) && AtMostOneEach(db)
    ensures var after := AfterCommands(db, commands);
            Consistent(after) && AtMostOneEach(after)
  {
    if commands != [] {
      var before := AfterCommands(db, commands[..|commands| - 1]);
      var c := commands[|commands| - 1];
      RunsKeep(db, commands[..|commands| - 1]);
      SaveKeeps(before, c.report, c.data);
    }
  }

  // ---------------------------------------------------------------- what a save leaves alone

  /** Reports of other pairs, and their rows, are as before. */
  ghost predicate OthersUntouched(db: Db, c: Db, repo: Repo, tag: string) {
    var others := Filter(Not(IsFor(repo, tag)), db.reports);
    && Filter(Not(IsFor(repo, tag)), c.reports) == others
    && forall r | r in others :: Filter(RowsOf(r.id), c.rows) == Filter(RowsOf(r.id), db.rows)
  }

  lemma DeletesLeaveOthers(db: Db, repo: Repo, tag: string)
    requires Consistent(db)
    ensures var ids := ReportIds(db, repo, tag);
            && OthersUntouched(db, DeleteData(db, ids), repo, tag)
            && OthersUntouched(db, DeleteReports(DeleteData(db, ids), ids), repo, tag)
  {
    var ids := ReportIds(db, repo, tag);
    var (isOther, keep) := (Not(IsFor(repo, tag)), (r: CostReport) => r.id !in ids);
    forall r | r in db.reports && isOther(r)
      ensures keep(r)
    {
      OldIds(db, repo, tag, r);
    }
    FilterFilter(isOther, keep, db.reports);
    FilterSelects(isOther, db.reports);
    forall r | r in Filter(isOther, db.reports)
      ensures Filter(RowsOf(r.id), DeleteData(db, ids).rows) == Filter(RowsOf(r.id), db.rows)
    {
      OldIds(db, repo, tag, r);
      FilterFilter(RowsOf(r.id), (row: DappData) => row.costReportId !in ids, db.rows);
    }
  }

  lemma AddsLeaveOthers(db: Db, report: CostReport, data: seq<DataRow>)
    requires Consistent(db)
    ensures var (repo, tag) := (report.repo, TagOf(report));
            && OthersUntouched(db, AddReport(db, report), repo, tag)
            && OthersUntouched(db, AddData(AddReport(db, report), data, db.nextId), repo, tag)
  {
    var isOther := Not(IsFor(report.repo, TagOf(report)));
    assert (db.reports + [report.(id := db.nextId)])[..|db.reports|] == db.reports;
    FilterSelects(isOther, db.reports);
    var added := Labelled(Grouped(data), db.nextId);
    forall r | r in Filter(isOther, db.reports)
      ensures Filter(RowsOf(r.id), db.rows + added) == Filter(RowsOf(r.id), db.rows)
    {
      FilterAppend(RowsOf(r.id), db.rows, added);
      assert r.id != db.nextId;
      assert forall row | row in added :: row.costReportId == db.nextId;
      FilterTrivial(RowsOf(r.id), added);
    }
  }

  /** At every commit of a save, reports and rows of other pairs of repo and tag are exactly as before. */
  lemma SaveLeavesOthers(db: Db, report: CostReport, data: seq<DataRow>)
    requires Consistent(db) && AtMostOneEach(db)
    ensures forall c | c in SaveCommits(db, report, data) :: OthersUntouched(db, c, report.repo, TagOf(report))
  {
    var (repo, tag) := (report.repo, TagOf(report));
    var ids := ReportIds(db, repo, tag);
    if DoDelete(report.neonEvmTag, report.proxyTag) && ids != [] {
      var db1 := DeleteData(db, ids);
      var db2 := DeleteReports(db1, ids);
      var (db3, db4) := (AddReport(db2, report), AddData(AddReport(db2, report), data, db2.nextId));
      DeletesLeaveOthers(db, repo, tag);
      DeletesKeep(db, repo, tag);
      AddsLeaveOthers(db2, report, data);
      StillUntouched(db, db2, db3, repo, tag);
      StillUntouched(db, db2, db4, repo, tag);
      assert forall c | c in SaveCommits(db, report, data) :: c == db1 || c == db2 || c == db3 || c == db4;
    } else {
      AddsLeaveOthers(db, report, data);
    }
  }

  lemma StillUntouched(db: Db, c: Db, d: Db, repo: Repo, tag: string)
    requires OthersUntouched(db, c, repo, tag) && OthersUntouched(c, d, repo, tag)
    ensures OthersUntouched(db, d, repo, tag)
  {
  }

  /** The reports of one pair, and their rows, are as before. */
  ghost predicate PairUntouched(db: Db, c: Db, repo: Repo, tag: string) {
    var own := Filter(IsFor(repo, tag), db.reports);
    && Filter(IsFor(repo, tag), c.reports) == own
    && forall r | r in own :: Filter(RowsOf(r.id), c.rows) == Filter(RowsOf(r.id), db.rows)
  }

  lemma PairAmongOthers(db: Db, c: Db, repo: Repo, tag: string, repo': Repo, tag': string)
    requires OthersUntouched(db, c, repo, tag) && (repo' != repo || tag' != tag)
    ensures PairUntouched(db, c, repo', tag')
  {
    var (own, others) := (IsFor(repo', tag'), Not(IsFor(repo, tag)));
    FilterFilter(own, others, db.reports);
    FilterFilter(own, others, c.reports);
    FilterSelects(own, db.reports);
    FilterSelects(others, db.reports);
  }

  /** Over every run of interrupted saves for other pairs, a pair's reports and rows stay as they were. */
  lemma {:induction false} RunsLeavePair(db: Db, commands: seq<Command>, repo: Repo, tag: string)
    requires Consistent(db) && AtMostOneEach(db)
    requires forall i | 0 <= i < |commands| :: commands[i].report.repo != repo || TagOf(commands[i].report) != tag
    ensures PairUntouched(db, AfterCommands(db, commands), repo, tag)
  {
    if commands != [] {
      var (before, c) := (commands[..|commands| - 1], commands[|commands| - 1]);
      assert c == commands[|commands| - 1];
      var db0 := AfterCommands(db, before);
      RunsLeavePair(db, before, repo, tag);
      RunsKeep(db, before);
      SaveLeavesOthers(db0, c.report, c.data);
      var db1 := AfterCommand(db0, c);
      if db1 != db0 {
        assert db1 in SaveCommits(db0, c.report, c.data);
        PairAmongOthers(db0, db1, c.report.repo, TagOf(c.report), repo, tag);
      }
    }
  }

  function DataOf(rows: seq<DappData>): (data: seq<DataRow>)
    ensures |data| == |rows|
  {
    seq(|rows|, i requires 0 <= i < |rows| => rows[i].data)
  }

  /** The store before the new report is added: without the earlier reports of the pair, if they go. */
  function Base(db: Db, report: CostReport): Db {
    var ids := ReportIds(db, report.repo, TagOf(report));
    if DoDelete(report.neonEvmTag, report.proxyTag) && ids != [] then DeleteReports(DeleteData(db, ids), ids) else db
  }

  lemma FinalFromBase(db: Db, report: CostReport, data: seq<DataRow>)
    ensures var commits := SaveCommits(db, report, data);
            var (final, base) := (commits[|commits| - 1], Base(db, report));
            && final.reports == base.reports + [report.(id := db.nextId)]
            && final.rows == base.rows + Labelled(Grouped(data), db.nextId)
  {
  }

  lemma BaseRows(db: Db, report: CostReport)
    requires Consistent(db) && AtMostOneEach(db)
    ensures Filter(RowsOf(db.nextId), Base(db, report).rows) == []
  {
    var base := Base(db, report);
    DeletesKeep(db, report.repo, TagOf(report));
    forall row | row in base.rows
      ensures row.costReportId != db.nextId
    {
      var r := IdsMemberOf(base.reports, row.costReportId);
    }
    FilterTrivial(RowsOf(db.nextId), base.rows);
  }

  lemma NewRows(rows: seq<DappData>, data: seq<DataRow>, id: nat)
    requires Filter(RowsOf(id), rows) == []
    ensures DataOf(Filter(RowsOf(id), rows + Labelled(data, id))) == data
  {
    var added := Labelled(data, id);
    FilterAppend(RowsOf(id), rows, added);
    assert forall row | row in added :: row.costReportId == id;
    FilterTrivial(RowsOf(id), added);
    assert [] + added == added;
  }

  /** A completed save stores the report last, under a new id, with exactly its own data rows. */
  lemma SaveStores(db: Db, report: CostReport, data: seq<DataRow>)
    requires Consistent(db) && AtMostOneEach(db)
    ensures var commits := SaveCommits(db, report, data);
            var (final, id) := (commits[|commits| - 1], db.nextId);
            && final.reports != [] && final.reports[|final.reports| - 1] == report.(id := id)
            && IsGrouping(DataOf(Filter(RowsOf(id), final.rows)), data)
  {
    FinalFromBase(db, report, data);
    BaseRows(db, report);
    NewRows(Base(db, report).rows, Grouped(data), db.nextId);
    GroupedIsGrouping(data);
  }

  lemma BaseReports(db: Db, report: CostReport)
    requires Consistent(db)
    ensures var merge := report.neonEvmTag == report.proxyTag &&
                         (report.neonEvmTag == "latest" || Tags.IsVersionBranch(report.neonEvmTag));
            forall r | r in db.reports ::
              r in Base(db, report).reports <==>
              merge || r.repo != report.repo ||
              (if r.repo == Evm then r.neonEvmTag != report.neonEvmTag else r.proxyTag != report.proxyTag)
    ensures forall row | row in db.rows ::
              row in Base(db, report).rows <==>
              exists r :: r in db.reports && r in Base(db, report).reports && r.id == row.costReportId
  {
    var ids := ReportIds(db, report.repo, TagOf(report));
    IdsOfPair(db, report.repo, TagOf(report));
    FilterSelects((r: CostReport) => r.id !in ids, db.reports);
    FilterSelects((row: DappData) => row.costReportId !in ids, db.rows);
    forall row | row in db.rows
      ensures row in Base(db, report).rows <==>
              exists r :: r in db.reports && r in Base(db, report).reports && r.id == row.costReportId
    {
      var r := IdsMemberOf(db.reports, row.costReportId);
    }
  }

  /** Which earlier reports and rows a completed save removes, by the column of each repo: those of the same repo
      with the same EVM tag for the EVM, and with the same proxy tag for the others; and none for a merge of both
      services to develop or to one version branch. */
  lemma SaveRemoves(db: Db, report: CostReport, data: seq<DataRow>)
    requires Consistent(db) && AtMostOneEach(db)
    ensures var commits := SaveCommits(db, report, data);
            var final := commits[|commits| - 1];
            var merge := report.neonEvmTag == report.proxyTag &&
                         (report.neonEvmTag == "latest" || Tags.IsVersionBranch(report.neonEvmTag));
            && (forall r | r in db.reports ::
                  r in final.reports <==>
                  merge || r.repo != report.repo ||
                  (if r.repo == Evm then r.neonEvmTag != report.neonEvmTag else r.proxyTag != report.proxyTag))
            && (forall row | row in db.rows ::
                  row in final.rows <==> exists r :: r in db.reports && r in final.reports && r.id == row.costReportId)
  {
    FinalFromBase(db, report, data);
    BaseReports(db, report);
    FreshId(db, report);
    var added := Labelled(Grouped(data), db.nextId);
    assert forall row | row in added :: row.costReportId == db.nextId;
  }

  /** A save keeps all earlier reports exactly for a merge to develop or to one version branch of both services,
      or when the pair had none. In particular a report tagged "latest" for one service only replaces the whole
      history of "latest" of that repo. */
  lemma HistoryKept(db: Db, report: CostReport, data: seq<DataRow>)
    requires Consistent(db) && AtMostOneEach(db)
    ensures var commits := SaveCommits(db, report, data);
            (forall r | r in db.reports :: r in commits[|commits| - 1].reports)
            <==> (report.neonEvmTag == report.proxyTag && !IsOrdinary(report.proxyTag))
                 || (forall r | r in db.reports :: !IsFor(report.repo, TagOf(report))(r))
  {
    var (repo, tag) := (report.repo, TagOf(report));
    var ids := ReportIds(db, repo, tag);
    var earlier := Filter(IsFor(repo, tag), db.reports);
    FilterSelects(IsFor(repo, tag), db.reports);
    if ids != [] {
      var r := earlier[0];
      assert r in earlier;
      OldIds(db, repo, tag, r);
      FilterSelects((r: CostReport) => r.id !in ids, db.reports);
    } else {
      assert earlier == [];
    }
  }

  /** It does happen: one earlier "latest" report, and a save with "latest" for one service only. */
  lemma LatestForOneService(db: Db, earlier: CostReport, report: CostReport, data: seq<DataRow>)
    requires earlier.repo == Evm && earlier.neonEvmTag == "latest" && earlier.id < db.nextId
    requires db.reports == [earlier] && db.rows == []
    requires report.repo == Evm && report.neonEvmTag == "latest" && report.proxyTag == "feature"
    ensures Consistent(db) && AtMostOneEach(db)
    ensures var commits := SaveCommits(db, report, data); earlier !in commits[|commits| - 1].reports
  {
    assert Ids(db.reports) == [earlier.id];
    forall repo, tag
      ensures |Filter(IsFor(repo, tag), db.reports)| <= 1
    {
      assert db.reports[..0] == [];
      assert Filter(IsFor(repo, tag), db.reports[..0]) == [];
    }
    assert IsFor(Evm, "latest")(earlier) && earlier in db.reports;
    assert "latest"[0] != "feature"[0];
    HistoryKept(db, report, data);
  }

  // ---------------------------------------------------------------- one row per dapp and action

  ghost predicate SamePair(a: DataRow, b: DataRow) {
    a.dappName == b.dappName && a.action == b.action
  }

  ghost predicate PairsDiffer(data: seq<DataRow>) {
    forall i, j | 0 <= i < j < |data| :: !SamePair(data[i], data[j])
  }

  /** No report has two rows for one dapp and action. */
  ghost predicate OneRowPerPair(rows: seq<DappData>) {
    forall i, j | 0 <= i < j < |rows| ::
      rows[i].costReportId == rows[j].costReportId ==> !SamePair(rows[i].data, rows[j].data)
  }

  lemma PairsPermuted(a: seq<DataRow>, b: seq<DataRow>)
    requires PairsDiffer(a) && multiset(a) == multiset(b)
    ensures PairsDiffer(b)
  {
    PermutedDistinct(a, b);
    PermutedMembers(a, b);
    forall i, j | 0 <= i < j < |b|
      ensures !SamePair(b[i], b[j])
    {
      assert b[i] in b && b[j] in b;
    }
  }

  lemma OneRowFiltered(keep: DappData -> bool, rows: seq<DappData>)
    requires OneRowPerPair(rows)
    ensures OneRowPerPair(Filter(keep, rows))
  {
    var at := FilterPicks(keep, rows);
    var kept := Filter(keep, rows);
    forall i, j | 0 <= i < j < |kept|
      ensures kept[i].costReportId == kept[j].costReportId ==> !SamePair(kept[i].data, kept[j].data)
    {
      assert kept[i] == rows[at[i]] && kept[j] == rows[at[j]];
    }
  }

  lemma OneRowAdded(rows: seq<DappData>, data: seq<DataRow>, id: nat)
    requires OneRowPerPair(rows) && PairsDiffer(data) && forall k | 0 <= k < |rows| :: rows[k].costReportId != id
    ensures OneRowPerPair(rows + Labelled(data, id))
  {
  }

  /** Every commit of a save whose data has one row for each dapp and action keeps this for all reports. */
  lemma SaveKeepsPairs(db: Db, report: CostReport, data: seq<DataRow>)
    requires Consistent(db) && AtMostOneEach(db) && OneRowPerPair(db.rows) && PairsDiffer(data)
    ensures forall c | c in SaveCommits(db, report, data) :: OneRowPerPair(c.rows)
  {
    var ids := ReportIds(db, report.repo, TagOf(report));
    OneRowFiltered((row: DappData) => row.costReportId !in ids, db.rows);
    GroupedIsGrouping(data);
    PairsPermuted(data, Grouped(data));
    FreshId(db, report);
    FilterSelects((row: DappData) => row.costReportId !in ids, db.rows);
    var left := DeleteData(db, ids).rows;
    assert forall k | 0 <= k < |left| :: left[k] in left;
    OneRowAdded(left, Grouped(data), db.nextId);
    OneRowAdded(db.rows, Grouped(data), db.nextId);
  }

  lemma {:induction false} RunsKeepPairs(db: Db, commands: seq<Command>)
    requires Consistent(db) && AtMostOneEach(db) && OneRowPerPair(db.rows)
    requires forall i | 0 <= i < |commands| :: PairsDiffer(commands[i].data)
    ensures OneRowPerPair(AfterCommands(db, commands).rows)
  {
    if commands != [] {
      var (before, c) := (commands[..|commands| - 1], commands[|commands| - 1]);
      assert c == commands[|commands| - 1];
      RunsKeepPairs(db, before);
      RunsKeep(db, before);
      SaveKeepsPairs(AfterCommands(db, before), c.report, c.data);
    }
  }
}
