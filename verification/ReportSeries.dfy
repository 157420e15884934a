/**
 From recorded actions to plotted points, across files: the data of a report (`prepare_report_data`,
 deploy/cli/cost_report.py) is saved, selected (`get_historical_data`) and laid out as one series for each dapp and
 action (deploy/test_results_db/test_results_handler.py).
 */
module ReportSeries {
  import opened Wrappers
  import opened Lists
  import opened ResultsDb
  import opened History
  import ActionNames
  import Plots

  // ---------------------------------------------------------------- the data of a report

  datatype Action = Action(name: string, metrics: Metrics)

  /** One entry of the reports: an app's name and its actions, lower-cased and stripped. */
  datatype App = App(dappName: string, actions: seq<Action>)

  function Names(actions: seq<Action>): (names: seq<string>)
    ensures |names| == |actions|
  {
    seq(|actions|, i requires 0 <= i < |actions| => actions[i].name)
  }

  function AppRows(app: App): (rows: seq<DataRow>)
    ensures |rows| == |app.actions|
  {
    seq(|app.actions|, i requires 0 <= i < |app.actions| =>
      DataRow(app.dappName, ActionNames.UniqueName(Names(app.actions), i), app.actions[i].metrics))
  }

  function Prepared(apps: seq<App>): seq<DataRow> {
    if apps == [] then [] else Prepared(apps[..|apps| - 1]) + AppRows(apps[|apps| - 1])
  }

  /** The loops over apps and actions; None stands for the exception when nothing was reported. */
  method PrepareReportData(apps: seq<App>) returns (data: Option<seq<DataRow>>)
    ensures data.None? <==> forall i | 0 <= i < |apps| :: apps[i].actions == []
    ensures data.Some? ==> data.value == Prepared(apps)
  {
    var rows: seq<DataRow> := [];
    for a := 0 to |apps|
      invariant rows == Prepared(apps[..a])
      invariant rows == [] <==> forall i | 0 <= i < a :: apps[i].actions == []
    {
      assert apps[..a + 1][..a] == apps[..a];
      var appRows := PrepareApp(apps[a]);
      rows := rows + appRows;
    }
    assert apps[..|apps|] == apps;
    data := if rows == [] then None else Some(rows);
  }

  method PrepareApp(app: App) returns (rows: seq<DataRow>)
    ensures rows == AppRows(app)
  {
    rows := [];
    var uniqueActionNames := ActionNames.NumberActions(Names(app.actions));
    for i := 0 to |app.actions|
      invariant rows == AppRows(app)[..i]
    {
      rows := rows + [DataRow(app.dappName, uniqueActionNames[i], app.actions[i].metrics)];
    }
  }

  ghost predicate NoClash(names: seq<string>) {
    forall i, j, k | 0 <= i < |names| && 0 <= j < |names| && 1 <= k :: !ActionNames.Clash(names, i, j, k)
  }

  ghost predicate DistinctApps(apps: seq<App>) {
    forall i, j | 0 <= i < j < |apps| :: apps[i].dappName != apps[j].dappName
  }

  lemma AppRowsDiffer(app: App)
    ensures PairsDiffer(AppRows(app)) <==> NoClash(Names(app.actions))
  {
    var (names, rows) := (Names(app.actions), AppRows(app));
    ActionNames.DistinctUnlessClash(names);
    assert PairsDiffer(rows) <==>
        forall i, j | 0 <= i < j < |names| :: ActionNames.UniqueName(names, i) != ActionNames.UniqueName(names, j) by {
      assert forall i, j | 0 <= i < j < |rows| ::
          SamePair(rows[i], rows[j]) <==> ActionNames.UniqueName(names, i) == ActionNames.UniqueName(names, j);
    }
  }

  lemma {:induction false} PreparedFrom(apps: seq<App>)
    ensures forall row | row in Prepared(apps) :: exists i :: 0 <= i < |apps| && apps[i].dappName == row.dappName
  {
    if apps != [] {
      var init := apps[..|apps| - 1];
      PreparedFrom(init);
      forall row | row in Prepared(apps)
        ensures exists i :: 0 <= i < |apps| && apps[i].dappName == row.dappName
      {
        if row in Prepared(init) {
          var i :| 0 <= i < |init| && init[i].dappName == row.dappName;
          assert apps[i].dappName == row.dappName;
        } else {
          assert apps[|apps| - 1].dappName == row.dappName;
        }
      }
    }
  }

  lemma PairsOfTwo(a: seq<DataRow>, b: seq<DataRow>)
    requires forall i, j | 0 <= i < |a| && 0 <= j < |b| :: !SamePair(a[i], b[j])
    ensures PairsDiffer(a + b) <==> PairsDiffer(a) && PairsDiffer(b)
  {
    var both := a + b;
    assert forall i | 0 <= i < |a| :: both[i] == a[i];
    assert forall j | 0 <= j < |b| :: both[|a| + j] == b[j];
    if PairsDiffer(both) {
      forall i, j | 0 <= i < j < |b|
        ensures !SamePair(b[i], b[j])
      {
        assert !SamePair(both[|a| + i], both[|a| + j]);
      }
    }
  }

  /** A prepared report has one row for each dapp and action exactly when no app's action names clash. */
  lemma {:induction false} PreparedDiffer(apps: seq<App>)
    requires DistinctApps(apps)
    ensures PairsDiffer(Prepared(apps)) <==> forall i | 0 <= i < |apps| :: NoClash(Names(apps[i].actions))
  {
    if apps != [] {
      var (init, last) := (apps[..|apps| - 1], apps[|apps| - 1]);
      var (a, b) := (Prepared(init), AppRows(last));
      assert apps == init + [last];
      PreparedDiffer(init);
      AppRowsDiffer(last);
      PreparedFrom(init);
      forall i, j | 0 <= i < |a| && 0 <= j < |b|
        ensures !SamePair(a[i], b[j])
      {
        assert a[i] in a;
        var m :| 0 <= m < |init| && init[m].dappName == a[i].dappName;
        assert apps[m].dappName != last.dappName;
      }
      PairsOfTwo(a, b);
    }
  }

  // ---------------------------------------------------------------- the ticks of a plot

  datatype Tick = Tick(timestamp: int, tag: string)

  /** The timestamps in order of appearance, each with the tag of its first row. */
  function Ticks(frame: seq<HistoryRow>): seq<Tick> {
    if frame == [] then []
    else
      var (before, row) := (Ticks(frame[..|frame| - 1]), frame[|frame| - 1]);
      if exists i | 0 <= i < |before| :: before[i].timestamp == row.report.timestamp then before
      else before + [Tick(row.report.timestamp, row.tag)]
  }

  function TickStamps(ticks: seq<Tick>): (s: seq<int>)
    ensures |s| == |ticks|
  {
    seq(|ticks|, i requires 0 <= i < |ticks| => ticks[i].timestamp)
  }

  function TickLabels(ticks: seq<Tick>): (s: seq<string>)
    ensures |s| == |ticks|
  {
    seq(|ticks|, i requires 0 <= i < |ticks| => ticks[i].tag)
  }

  ghost predicate ByTimestamp(frame: seq<HistoryRow>) {
    forall i, j | 0 <= i < j < |frame| :: frame[i].report.timestamp <= frame[j].report.timestamp
  }

  ghost predicate HasTick(ticks: seq<Tick>, timestamp: int) {
    exists i :: 0 <= i < |ticks| && ticks[i].timestamp == timestamp
  }

  ghost predicate IsTickOf(tick: Tick, frame: seq<HistoryRow>) {
    exists k :: 0 <= k < |frame| && tick == Tick(frame[k].report.timestamp, frame[k].tag)
  }

  /** The ticks are ascending, one for each timestamp of the frame, and each is a row's own. */
  ghost predicate GoodTicks(ticks: seq<Tick>, frame: seq<HistoryRow>) {
    && Plots.Ascending(TickStamps(ticks))
    && (forall k | 0 <= k < |frame| :: HasTick(ticks, frame[k].report.timestamp))
    && (forall i | 0 <= i < |ticks| :: IsTickOf(ticks[i], frame))
  }

  lemma TicksStay(ticks: seq<Tick>, frame: seq<HistoryRow>, row: HistoryRow)
    requires GoodTicks(ticks, frame) && HasTick(ticks, row.report.timestamp)
    ensures GoodTicks(ticks, frame + [row])
  {
    forall i | 0 <= i < |ticks|
      ensures IsTickOf(ticks[i], frame + [row])
    {
      TickStays(ticks[i], frame, row);
    }
  }

  lemma TickStays(tick: Tick, frame: seq<HistoryRow>, row: HistoryRow)
    requires IsTickOf(tick, frame)
    ensures IsTickOf(tick, frame + [row])
  {
    var k :| 0 <= k < |frame| && tick == Tick(frame[k].report.timestamp, frame[k].tag);
    assert (frame + [row])[k] == frame[k];
  }

  lemma TickAdded(ticks: seq<Tick>, frame: seq<HistoryRow>, row: HistoryRow)
    requires GoodTicks(ticks, frame) && !HasTick(ticks, row.report.timestamp)
    requires forall k | 0 <= k < |frame| :: frame[k].report.timestamp <= row.report.timestamp
    ensures GoodTicks(ticks + [Tick(row.report.timestamp, row.tag)], frame + [row])
  {
    var (tick, frame') := (Tick(row.report.timestamp, row.tag), frame + [row]);
    var ticks' := ticks + [tick];
    assert ticks'[|ticks|] == tick && frame'[|frame|] == row;
    forall i | 0 <= i < |ticks|
      ensures ticks'[i] == ticks[i] && IsTickOf(ticks'[i], frame') && ticks[i].timestamp < row.report.timestamp
    {
      TickStays(ticks[i], frame, row);
      var k :| 0 <= k < |frame| && ticks[i] == Tick(frame[k].report.timestamp, frame[k].tag);
      assert ticks[i].timestamp != row.report.timestamp;
    }
    forall k | 0 <= k < |frame'|
      ensures HasTick(ticks', frame'[k].report.timestamp)
    {
      if k < |frame| {
        assert HasTick(ticks, frame[k].report.timestamp);
        var i :| 0 <= i < |ticks| && ticks[i].timestamp == frame[k].report.timestamp;
        assert ticks'[i].timestamp == frame'[k].report.timestamp;
      }
    }
    forall i, j | 0 <= i < j < |ticks'|
      ensures TickStamps(ticks')[i] < TickStamps(ticks')[j]
    {
      assert j < |ticks| ==> TickStamps(ticks)[i] < TickStamps(ticks)[j];
    }
  }

  lemma {:induction false} TicksOfFrame(frame: seq<HistoryRow>)
    requires ByTimestamp(frame)
    ensures GoodTicks(Ticks(frame), frame)
  {
    if frame != [] {
      var (init, row) := (frame[..|frame| - 1], frame[|frame| - 1]);
      assert frame == init + [row];
      TicksOfFrame(init);
      if HasTick(Ticks(init), row.report.timestamp) {
        TicksStay(Ticks(init), init, row);
      } else {
        TickAdded(Ticks(init), init, row);
      }
    }
  }

  // ---------------------------------------------------------------- one series

  function OfPair(dappName: string, action: string): HistoryRow -> bool {
    (row: HistoryRow) => row.data.dappName == dappName && row.data.action == action
  }

  function PlotRows(frame: seq<HistoryRow>, metric: DataRow -> Plots.Cell): (rows: seq<Plots.Row>)
    ensures |rows| == |frame|
  {
    seq(|frame|, k requires 0 <= k < |frame| =>
      Plots.Row(frame[k].report.timestamp, frame[k].tag, metric(frame[k].data)))
  }

  /** The data of one subplot, before padding. */
  function Series(frame: seq<HistoryRow>, dappName: string, action: string, metric: DataRow -> Plots.Cell)
    : seq<Plots.Row>
  {
    PlotRows(Filter(OfPair(dappName, action), frame), metric)
  }

  ghost predicate DistinctStamps(used: seq<CostReport>) {
    forall i, j | 0 <= i < j < |used| :: used[i].timestamp != used[j].timestamp
  }

  /** No report has two rows of the frame for one dapp and action. */
  ghost predicate OneEach(frame: seq<HistoryRow>) {
    forall i, j | 0 <= i < j < |frame| :: frame[i].report == frame[j].report ==> !SamePair(frame[i].data, frame[j].data)
  }

  ghost predicate RowsOfUsed(used: seq<CostReport>, frame: seq<HistoryRow>) {
    forall k | 0 <= k < |frame| :: frame[k].report in used && frame[k].tag == TagOf(frame[k].report)
  }

  lemma JoinedOneEach(used: seq<CostReport>, rows: seq<DappData>, frame: seq<HistoryRow>)
    requires IsFrame(used, rows, frame) && OneRowPerPair(rows)
    ensures OneEach(Joined(used, rows)) && RowsOfUsed(used, Joined(used, rows))
  {
    var joined := Joined(used, rows);
    assert forall k | 0 <= k < |rows| :: IsRowOf(used, rows[k], joined[k]);
    forall i, j | 0 <= i < j < |joined|
      ensures joined[i].report == joined[j].report ==> !SamePair(joined[i].data, joined[j].data)
    {
      assert IsRowOf(used, rows[i], joined[i]) && IsRowOf(used, rows[j], joined[j]);
    }
  }

  lemma OneEachPermuted(used: seq<CostReport>, a: seq<HistoryRow>, b: seq<HistoryRow>)
    requires OneEach(a) && RowsOfUsed(used, a) && multiset(a) == multiset(b)
    ensures OneEach(b) && RowsOfUsed(used, b)
  {
    assert forall i, j | 0 <= i < j < |a| :: a[i] != a[j];
    PermutedDistinct(a, b);
    PermutedMembers(a, b);
    forall k | 0 <= k < |b|
      ensures b[k].report in used && b[k].tag == TagOf(b[k].report)
    {
      assert b[k] in b;
    }
    forall i, j | 0 <= i < j < |b|
      ensures b[i].report == b[j].report ==> !SamePair(b[i].data, b[j].data)
    {
      assert b[i] in b && b[j] in b;
    }
  }

  /** Equal timestamps mean equal reports. */
  lemma SameStampSameReport(used: seq<CostReport>, r: CostReport, r': CostReport)
    requires DistinctStamps(used) && r in used && r' in used && r.timestamp == r'.timestamp
    ensures r == r'
  {
    var i :| 0 <= i < |used| && used[i] == r;
    var j :| 0 <= j < |used| && used[j] == r';
    assert i == j;
  }

  lemma SeriesOnce(used: seq<CostReport>, frame: seq<HistoryRow>, dappName: string, action: string,
                   metric: DataRow -> Plots.Cell)
    requires DistinctStamps(used) && OneEach(frame) && RowsOfUsed(used, frame)
    ensures Plots.OncePerStamp(Series(frame, dappName, action, metric))
  {
    var kept := Filter(OfPair(dappName, action), frame);
    var at := FilterPicks(OfPair(dappName, action), frame);
    forall i, j | 0 <= i < j < |kept|
      ensures kept[i].report.timestamp != kept[j].report.timestamp
    {
      assert kept[i] == frame[at[i]] && kept[j] == frame[at[j]];
      assert SamePair(kept[i].data, kept[j].data);
      if kept[i].report.timestamp == kept[j].report.timestamp {
        SameStampSameReport(used, kept[i].report, kept[j].report);
        assert false;
      }
    }
  }

  lemma SeriesFromReports(used: seq<CostReport>, frame: seq<HistoryRow>, dappName: string, action: string,
                          metric: DataRow -> Plots.Cell)
    requires DistinctStamps(used) && RowsOfUsed(used, frame) && ByTimestamp(frame)
    ensures var ticks := Ticks(frame);
            Plots.FromReports(Series(frame, dappName, action, metric), TickStamps(ticks), TickLabels(ticks))
  {
    var kept := Filter(OfPair(dappName, action), frame);
    var (ticks, rows) := (Ticks(frame), Series(frame, dappName, action, metric));
    var (stamps, labels) := (TickStamps(ticks), TickLabels(ticks));
    TicksOfFrame(frame);
    FilterSelects(OfPair(dappName, action), frame);
    forall m | 0 <= m < |rows|
      ensures Plots.FromReport(rows[m], stamps, labels)
    {
      assert kept[m] in kept;
      var k :| 0 <= k < |frame| && frame[k] == kept[m];
      assert HasTick(ticks, frame[k].report.timestamp);
      var i :| 0 <= i < |ticks| && ticks[i].timestamp == frame[k].report.timestamp;
      assert IsTickOf(ticks[i], frame);
      var j :| 0 <= j < |frame| && ticks[i] == Tick(frame[j].report.timestamp, frame[j].tag);
      SameStampSameReport(used, frame[k].report, frame[j].report);
      assert rows[m].timestamp == stamps[i] && rows[m].tag == labels[i];
    }
  }

  // ---------------------------------------------------------------- the whole way

  ghost predicate IsPoint(row: HistoryRow, dappName: string, action: string, timestamp: int) {
    row.data.dappName == dappName && row.data.action == action && row.report.timestamp == timestamp
  }

  /** The plotted row i of a series stands at tick i, for every tick, and shows the metric of the frame's row for
      this dapp, action and timestamp; or nothing, if the frame has no such row. */
  ghost predicate Aligned(frame: seq<HistoryRow>, dappName: string, action: string, metric: DataRow -> Plots.Cell) {
    var ticks := Ticks(frame);
    var rows := Series(frame, dappName, action, metric);
    var sorted := Plots.SortRows(Plots.Padded(rows, TickStamps(ticks), TickLabels(ticks)));
    && Plots.Stamps(sorted) == TickStamps(ticks) && |sorted| == |ticks|
    && (forall i | 0 <= i < |sorted| :: sorted[i].tag == ticks[i].tag)
    && Shows(frame, dappName, action, metric, sorted)
  }

  ghost predicate Shows(frame: seq<HistoryRow>, dappName: string, action: string, metric: DataRow -> Plots.Cell,
                        sorted: seq<Plots.Row>)
  {
    && (forall i, k | 0 <= i < |sorted| && 0 <= k < |frame| &&
                      IsPoint(frame[k], dappName, action, sorted[i].timestamp) ::
          sorted[i].value == metric(frame[k].data))
    && (forall i | 0 <= i < |sorted| ::
          (forall k | 0 <= k < |frame| :: !IsPoint(frame[k], dappName, action, sorted[i].timestamp)) ==>
          sorted[i].value == Plots.Missing)
  }

  lemma SeriesRow(frame: seq<HistoryRow>, dappName: string, action: string, metric: DataRow -> Plots.Cell, k: nat)
    returns (m: nat)
    requires k < |frame| && frame[k].data.dappName == dappName && frame[k].data.action == action
    ensures var rows := Series(frame, dappName, action, metric);
            m < |rows| && rows[m] == Plots.Row(frame[k].report.timestamp, frame[k].tag, metric(frame[k].data))
  {
    var kept := Filter(OfPair(dappName, action), frame);
    FilterSelects(OfPair(dappName, action), frame);
    assert frame[k] in kept;
    m :| 0 <= m < |kept| && kept[m] == frame[k];
  }

  lemma RowOfSeries(frame: seq<HistoryRow>, dappName: string, action: string, metric: DataRow -> Plots.Cell, m: nat)
    returns (k: nat)
    requires m < |Series(frame, dappName, action, metric)|
    ensures k < |frame| && IsPoint(frame[k], dappName, action, Series(frame, dappName, action, metric)[m].timestamp)
  {
    var kept := Filter(OfPair(dappName, action), frame);
    FilterSelects(OfPair(dappName, action), frame);
    assert kept[m] in kept;
    k :| 0 <= k < |frame| && frame[k] == kept[m];
  }

  lemma SeriesShows(frame: seq<HistoryRow>, dappName: string, action: string, metric: DataRow -> Plots.Cell,
                    stamps: seq<int>, labels: seq<string>)
    requires |stamps| == |labels| && Plots.Ascending(stamps)
    requires Plots.OncePerStamp(Series(frame, dappName, action, metric))
    ensures Shows(frame, dappName, action, metric,
                  Plots.SortRows(Plots.Padded(Series(frame, dappName, action, metric), stamps, labels)))
  {
    var rows := Series(frame, dappName, action, metric);
    var sorted := Plots.SortRows(Plots.Padded(rows, stamps, labels));
    Plots.OwnOrEmpty(rows, stamps, labels);
    forall i, k | 0 <= i < |sorted| && 0 <= k < |frame| && IsPoint(frame[k], dappName, action, sorted[i].timestamp)
      ensures sorted[i].value == metric(frame[k].data)
    {
      var m := SeriesRow(frame, dappName, action, metric, k);
      assert sorted[i] in sorted && rows[m].timestamp == sorted[i].timestamp;
      var n :| 0 <= n < |rows| && rows[n] == sorted[i];
      assert n == m;
    }
    forall i | 0 <= i < |sorted| &&
               forall k | 0 <= k < |frame| :: !IsPoint(frame[k], dappName, action, sorted[i].timestamp)
      ensures sorted[i].value == Plots.Missing
    {
      assert sorted[i] in sorted;
      if m :| 0 <= m < |rows| && rows[m] == sorted[i] {
        var k := RowOfSeries(frame, dappName, action, metric, m);
        assert false;
      }
    }
  }

  lemma FrameAligned(used: seq<CostReport>, rows: seq<DappData>, frame: seq<HistoryRow>, dappName: string,
                     action: string, metric: DataRow -> Plots.Cell)
    requires IsFrame(used, rows, frame) && OneRowPerPair(rows) && DistinctStamps(used)
    ensures Plots.OncePerStamp(Series(frame, dappName, action, metric))
    ensures Aligned(frame, dappName, action, metric)
  {
    var ticks := Ticks(frame);
    JoinedOneEach(used, rows, frame);
    OneEachPermuted(used, Joined(used, rows), frame);
    FrameByTimestamp(frame);
    SeriesOnce(used, frame, dappName, action, metric);
    SeriesFromReports(used, frame, dappName, action, metric);
    TicksOfFrame(frame);
    Plots.RowsAlignWithTicks(Series(frame, dappName, action, metric), TickStamps(ticks), TickLabels(ticks));
    SeriesShows(frame, dappName, action, metric, TickStamps(ticks), TickLabels(ticks));
  }

  lemma FrameByTimestamp(frame: seq<HistoryRow>)
    requires Sorted(FrameOrder(), frame)
    ensures ByTimestamp(frame)
  {
    forall i, j | 0 <= i < j < |frame|
      ensures frame[i].report.timestamp <= frame[j].report.timestamp
    {
      assert FrameOrder()(frame[i], frame[j]);
    }
  }

  /** After any run of interrupted saves of clash-free reports into a consistent store with one row for each
      report, dapp and action, every frame that the query can return, from reports with distinct timestamps, is
      plotted with every row of every series at its own tick. */
  lemma SavedReportsAlign(start: Db, commands: seq<Command>, apps: seq<seq<App>>, depth: int, repo: Repo, tag: string,
                          previousTags: seq<string>, frame: seq<HistoryRow>, dappName: string, action: string,
                          metric: DataRow -> Plots.Cell)
    requires Consistent(start) && AtMostOneEach(start) && OneRowPerPair(start.rows) && |apps| == |commands|
    requires forall i | 0 <= i < |commands| :: commands[i].data == Prepared(apps[i]) && DistinctApps(apps[i])
    requires forall i, k | 0 <= i < |apps| && 0 <= k < |apps[i]| :: NoClash(Names(apps[i][k].actions))
    requires var db := AfterCommands(start, commands);
             && Ordered(db, IsFor(repo, tag)) != []
             && DistinctStamps(UsedReports(db, depth, repo, tag, previousTags))
             && IsFrame(UsedReports(db, depth, repo, tag, previousTags),
                        HistoryRows(db, depth, repo, tag, previousTags), frame)
    ensures Aligned(frame, dappName, action, metric)
  {
    var db := AfterCommands(start, commands);
    var used := UsedReports(db, depth, repo, tag, previousTags);
    forall i | 0 <= i < |commands|
      ensures PairsDiffer(commands[i].data)
    {
      PreparedDiffer(apps[i]);
    }
    RunsKeepPairs(start, commands);
    OneRowFiltered(Wanted(db, used[0].id, Ids(used)), db.rows);
    FrameAligned(used, HistoryRows(db, depth, repo, tag, previousTags), frame, dappName, action, metric);
  }
}
