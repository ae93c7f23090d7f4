/**
 The query program's traceroute output from an SQL database, and the way there and back: what the
 importer stored as rows comes out as the runs it was read from, in the order of their keys.
 */
module TracerouteQuery {
  import opened Words
  import opened Addresses
  import opened Lexicographic
  import opened Sorting
  import opened TracerouteData
  import opened TracerouteImport

  /** Measurement IDs that are not stored are looked up by the source address. */
  function MapMeasurementID(id: uint32, known: map<Address, uint32>, address: Address): uint32 {
    if id == 0 && address in known then known[address] else id
  }

  /** The output so far. Printed lines are kept as the records that they print. */
  datatype Output = Output(
    lines: seq<Line>,
    lastTimeStamp: uint64,
    lastItem: seq<Header>,
    duplicate: bool,
    duplicatesRemoved: nat)

  function NoOutput(): Output { Output([], 0, [], false, 0) }

  /** None: the sorting order is violated, and the program aborts. */
  datatype Attempt = Continue(output: Output) | Abort

  /** A #T line, unless it repeats the last one and duplicates are to be removed. */
  function OutputHeader(o: Output, deduplication: bool, header: Header): Attempt {
    if !deduplication || o.lastTimeStamp != header.timeStamp || o.lastItem != [header] then
      var started := if |o.lines| == 0 then [FormatID] else o.lines;
      if header.timeStamp < o.lastTimeStamp then Abort
      else Continue(Output(started + [HeaderLine(header)], header.timeStamp,
                           if deduplication then [header] else o.lastItem, false, o.duplicatesRemoved))
    else Continue(o.(duplicate := true, duplicatesRemoved := o.duplicatesRemoved + 1))
  }

  function OutputHop(o: Output, hop: Hop): Output {
    if o.duplicate then o else o.(lines := o.lines + [HopLine(hop)])
  }

  /** A row is split again into flags and hop status. Hop number 1 starts a run. */
  function HeaderOf(row: Row, known: map<Address, uint32>): Header {
    row.header.(measurementID := MapMeasurementID(row.header.measurementID, known, row.header.source),
                statusFlags := FlagsPart(row.status))
  }

  function HopOf(row: Row): Hop { row.hop.(status := StatusPart(row.status)) }

  function OutputRow(o: Output, deduplication: bool, known: map<Address, uint32>, row: Row): Attempt {
    var started := if row.hop.hopNumber == 1 then OutputHeader(o, deduplication, HeaderOf(row, known)) else Continue(o);
    if started.Abort? then Abort else Continue(OutputHop(started.output, HopOf(row)))
  }

  function OutputRows(o: Output, deduplication: bool, known: map<Address, uint32>, rows: seq<Row>): Attempt
    decreases |rows|
  {
    if rows == [] then Continue(o)
    else
      match OutputRow(o, deduplication, known, rows[0])
      case Abort => Abort
      case Continue(next) => OutputRows(next, deduplication, known, rows[1..])
  }

  /** The fetch loop. */
  method Query(rows: seq<Row>, deduplication: bool, known: map<Address, uint32>) returns (result: Attempt)
    ensures result == OutputRows(NoOutput(), deduplication, known, rows)
  {
    hide HeaderOf, HopOf;
    var lines, lastTimeStamp, lastItem, duplicate, removed := [], 0, [], false, 0;
    var i := 0;
    while i < |rows|
      invariant 0 <= i <= |rows|
      invariant OutputRows(NoOutput(), deduplication, known, rows)
             == OutputRows(Output(lines, lastTimeStamp, lastItem, duplicate, removed), deduplication, known, rows[i..])
    {
      assert rows[i..][0] == rows[i] && rows[i..][1..] == rows[i + 1..];
      ghost var before := Output(lines, lastTimeStamp, lastItem, duplicate, removed);
      if rows[i].hop.hopNumber == 1 {
        var header := HeaderOf(rows[i], known);
        if !deduplication || lastTimeStamp != header.timeStamp || lastItem != [header] {
          if |lines| == 0 {
            lines := [FormatID];
          }
          lines := lines + [HeaderLine(header)];
          if header.timeStamp < lastTimeStamp {
            return Abort;
          }
          lastTimeStamp := header.timeStamp;
          if deduplication {
            lastItem := [header];
          }
          duplicate := false;
        } else {
          removed := removed + 1;
          duplicate := true;
        }
      }
      if !duplicate {
        lines := lines + [HopLine(HopOf(rows[i]))];
      }
      assert OutputRow(before, deduplication, known, rows[i])
          == Continue(Output(lines, lastTimeStamp, lastItem, duplicate, removed));
      i := i + 1;
    }
    result := Continue(Output(lines, lastTimeStamp, lastItem, duplicate, removed));
  }

  // ----- Storing and restoring a row -----

  /** The rows of a run whose fields survive the table: numbered hops, and status and flags apart. */
  ghost predicate Storable(run: Run) {
    && StatusPart(run.header.statusFlags) == 0
    && |run.hops| < 0x1_0000_0000
    && forall i :: 0 <= i < |run.hops| ==> run.hops[i].hopNumber == i + 1 && run.hops[i].status <= 0xff
  }

  /** The header as printed: a measurement ID that is not stored is the one known for the source, if there is one. */
  function Mapped(header: Header, known: map<Address, uint32>): Header {
    if header.measurementID != 0 || header.source !in known then header
    else header.(measurementID := known[header.source])
  }

  function MappedRuns(runs: seq<Run>, known: map<Address, uint32>): seq<Run> {
    if runs == [] then [] else [Run(Mapped(runs[0].header, known), runs[0].hops)] + MappedRuns(runs[1..], known)
  }

  /** With nothing known, the runs are printed as they are. */
  lemma {:induction false} NothingMapped(runs: seq<Run>)
    ensures MappedRuns(runs, map[]) == runs
  {
    if runs == [] {
    } else {
      NothingMapped(runs[1..]);
      assert runs == [runs[0]] + runs[1..] && Run(runs[0].header, runs[0].hops) == runs[0];
    }
  }

  lemma RowUnpacks(header: Header, hop: Hop, known: map<Address, uint32>)
    requires StatusPart(header.statusFlags) == 0 && hop.status <= 0xff
    ensures HeaderOf(RowOf(header, hop), known) == Mapped(header, known) && HopOf(RowOf(header, hop)) == hop
  {
    StatusUnpacks(hop.status, header.statusFlags);
  }

  // ----- The order of rows -----

  /** How the database orders addresses is its own matter, as long as different addresses differ. */
  ghost predicate IsRanking(rank: Address -> int) { forall a, b :: rank(a) == rank(b) ==> a == b }

  /** ORDER BY Timestamp, MeasurementID, SourceIP, DestinationIP, Protocol, TrafficClass, RoundNumber ... */
  function RunKey(header: Header, rank: Address -> int): (key: seq<int>)
    ensures |key| == 7
  {
    [header.timeStamp, header.measurementID, rank(header.source), rank(header.destination),
     header.protocol, header.trafficClass, header.roundNumber]
  }

  function ByRun(rank: Address -> int): Run -> seq<int> { (run: Run) => RunKey(run.header, rank) }

  /** ... HopNumber. */
  function ByRow(rank: Address -> int): Row -> seq<int> { (row: Row) => RunKey(row.header, rank) + [row.hop.hopNumber] }

  ghost predicate SameRun(a: Header, b: Header) {
    && a.timeStamp == b.timeStamp && a.measurementID == b.measurementID && a.source == b.source
    && a.destination == b.destination && a.protocol == b.protocol && a.trafficClass == b.trafficClass
    && a.roundNumber == b.roundNumber
  }

  ghost predicate RunsDistinct(runs: seq<Run>) {
    forall i, j :: 0 <= i < j < |runs| ==> !SameRun(runs[i].header, runs[j].header)
  }

  lemma KeysTellRuns(a: Header, b: Header, rank: Address -> int)
    requires IsRanking(rank) && RunKey(a, rank) == RunKey(b, rank)
    ensures SameRun(a, b)
  {
    var x, y := RunKey(a, rank), RunKey(b, rank);
    assert x[0] == y[0] && x[1] == y[1] && x[2] == y[2] && x[3] == y[3] && x[4] == y[4] && x[5] == y[5] && x[6] == y[6];
  }

  lemma DistinctRunsDistinctKeys(runs: seq<Run>, rank: Address -> int)
    requires IsRanking(rank) && RunsDistinct(runs)
    ensures DistinctKeys(runs, ByRun(rank))
  {
    forall i, j | 0 <= i < j < |runs| ensures ByRun(rank)(runs[i]) != ByRun(rank)(runs[j]) {
      if RunKey(runs[i].header, rank) == RunKey(runs[j].header, rank) {
        KeysTellRuns(runs[i].header, runs[j].header, rank);
      }
    }
  }

  // ----- The same runs in another order have the same rows -----

  lemma {:induction false} FlattenedAppend(a: seq<Run>, b: seq<Run>)
    ensures Flattened(a + b) == Flattened(a) + Flattened(b)
  {
    hide HopRows;
    if a == [] {
      assert a + b == b;
    } else {
      assert (a + b)[1..] == a[1..] + b;
      FlattenedAppend(a[1..], b);
    }
  }

  ghost function RowBag(runs: seq<Run>): multiset<Row> { multiset(Flattened(runs)) }

  lemma RowBagAppend(a: seq<Run>, b: seq<Run>)
    ensures RowBag(a + b) == RowBag(a) + RowBag(b)
  {
    hide Flattened;
    FlattenedAppend(a, b);
  }

  lemma RowBagSplit(runs: seq<Run>, i: nat)
    requires i < |runs|
    ensures RowBag(runs) == RowBag([runs[i]]) + RowBag(runs[..i] + runs[i + 1..])
  {
    hide RowBag;
    var before, after := runs[..i], runs[i + 1..];
    assert runs == before + ([runs[i]] + after);
    RowBagAppend(before, [runs[i]] + after);
    RowBagAppend([runs[i]], after);
    RowBagAppend(before, after);
  }

  lemma {:induction false} SameRowsInAnyOrder(a: seq<Run>, b: seq<Run>)
    requires multiset(a) == multiset(b)
    ensures RowBag(a) == RowBag(b)
  {
    hide RowBag;
    if a == [] {
      assert |b| == |multiset(b)| == |multiset(a)| == 0;
      assert a == b;
    } else {
      var i := FirstInPermutation(a, b);
      SameRowsInAnyOrder(a[1..], b[..i] + b[i + 1..]);
      RowBagSplit(b, i);
      RowBagSplit(a, 0);
      assert a[..0] + a[1..] == a[1..];
    }
  }

  // ----- The rows of sorted runs are sorted -----

  ghost predicate AllStorable(runs: seq<Run>) {
    forall i :: 0 <= i < |runs| ==> Storable(runs[i])
  }

  lemma {:induction false} RowsBelongToRuns(runs: seq<Run>, row: Row)
    requires row in Flattened(runs)
    ensures exists i :: 0 <= i < |runs| && row in HopRows(runs[i].header, runs[i].hops)
  {
    hide HopRows;
    if row in HopRows(runs[0].header, runs[0].hops) {
    } else {
      RowsBelongToRuns(runs[1..], row);
      var i :| 0 <= i < |runs[1..]| && row in HopRows(runs[1..][i].header, runs[1..][i].hops);
      assert row in HopRows(runs[i + 1].header, runs[i + 1].hops);
    }
  }

  lemma RowKeyOfHop(header: Header, hops: seq<Hop>, row: Row, rank: Address -> int)
    requires row in HopRows(header, hops)
    ensures ByRow(rank)(row) == RunKey(header, rank) + [row.hop.hopNumber]
  {
  }

  lemma HopRowsSorted(run: Run, rank: Address -> int)
    requires Storable(run)
    ensures StrictlySorted(HopRows(run.header, run.hops), ByRow(rank))
  {
    hide Combined;
    var rows := HopRows(run.header, run.hops);
    var key := RunKey(run.header, rank);
    forall i, j | 0 <= i < j < |rows| ensures Less(ByRow(rank)(rows[i]), ByRow(rank)(rows[j])) {
      assert rows[i] in rows && rows[j] in rows;
      RowKeyOfHop(run.header, run.hops, rows[i], rank);
      RowKeyOfHop(run.header, run.hops, rows[j], rank);
      Levels(key, [i + 1], key, [j + 1]);
      OneLevel(i + 1, j + 1);
    }
  }

  lemma AppendSorted(a: seq<Row>, b: seq<Row>, key: Row -> seq<int>)
    requires StrictlySorted(a, key) && StrictlySorted(b, key)
    requires forall x, y :: x in a && y in b ==> Less(key(x), key(y))
    ensures StrictlySorted(a + b, key)
  {
    hide Less;
  }

  lemma {:induction false} FlattenedSorted(runs: seq<Run>, rank: Address -> int)
    requires AllStorable(runs) && StrictlySorted(runs, ByRun(rank))
    ensures StrictlySorted(Flattened(runs), ByRow(rank))
  {
    hide HopRows, Storable, Less;
    if runs == [] {
    } else {
      var first, rest := HopRows(runs[0].header, runs[0].hops), Flattened(runs[1..]);
      FlattenedSorted(runs[1..], rank);
      HopRowsSorted(runs[0], rank);
      forall x, y | x in first && y in rest ensures Less(ByRow(rank)(x), ByRow(rank)(y)) {
        RowsBelongToRuns(runs[1..], y);
        var i :| 0 <= i < |runs[1..]| && y in HopRows(runs[1..][i].header, runs[1..][i].hops);
        RowKeyOfHop(runs[0].header, runs[0].hops, x, rank);
        RowKeyOfHop(runs[1..][i].header, runs[1..][i].hops, y, rank);
        assert Less(ByRun(rank)(runs[0]), ByRun(rank)(runs[i + 1]));
        Levels(RunKey(runs[0].header, rank), [x.hop.hopNumber], RunKey(runs[i + 1].header, rank), [y.hop.hopNumber]);
      }
      AppendSorted(first, rest, ByRow(rank));
    }
  }

  // ----- The output of sorted rows -----

  function WithHops(runs: seq<Run>): seq<Run> {
    if runs == [] then []
    else (if runs[0].hops == [] then [] else [runs[0]]) + WithHops(runs[1..])
  }

  /** A run without hops has no row, so it is the only thing that does not come back. */
  lemma {:induction false} NothingDropped(runs: seq<Run>)
    ensures |WithHops(runs)| <= |runs|
    ensures WithHops(runs) == runs <==> forall i :: 0 <= i < |runs| ==> runs[i].hops != []
  {
    if runs == [] {
    } else {
      NothingDropped(runs[1..]);
      assert runs == [runs[0]] + runs[1..];
      if forall i :: 0 <= i < |runs| ==> runs[i].hops != [] {
        assert forall i :: 0 <= i < |runs[1..]| ==> runs[1..][i] == runs[i + 1];
      }
      if WithHops(runs) == runs {
        assert WithHops(runs)[1..] == runs[1..];
      }
    }
  }

  /** Time stamps do not decrease; if duplicates are removed, no two #T lines are the same. */
  ghost predicate InOrder(runs: seq<Run>, deduplication: bool, known: map<Address, uint32>) {
    forall i, j :: 0 <= i < j < |runs| ==>
      && runs[i].header.timeStamp <= runs[j].header.timeStamp
      && (deduplication ==> Mapped(runs[i].header, known) != Mapped(runs[j].header, known))
  }

  /** The last line printed is from an earlier run. */
  ghost predicate Before(o: Output, runs: seq<Run>, deduplication: bool, known: map<Address, uint32>) {
    && (forall i :: 0 <= i < |runs| ==> o.lastTimeStamp <= runs[i].header.timeStamp)
    && (forall i :: 0 <= i < |runs| && deduplication ==> o.lastItem != [Mapped(runs[i].header, known)])
    && !o.duplicate && o.duplicatesRemoved == 0
  }

  /** Hops after the first only add lines. */
  lemma {:induction false} OutputLaterHops(o: Output, deduplication: bool, known: map<Address, uint32>, run: Run,
                                           n: nat, rest: seq<Row>)
    requires Storable(run) && 1 <= n <= |run.hops| && !o.duplicate
    ensures OutputRows(o, deduplication, known, HopRows(run.header, run.hops[n..]) + rest)
         == OutputRows(o.(lines := o.lines + HopLines(run.hops[n..])), deduplication, known, rest)
    decreases |run.hops| - n
  {
    hide HeaderOf, HopOf, OutputHeader, Mapped, Combined;
    var rows := HopRows(run.header, run.hops[n..]) + rest;
    if n == |run.hops| {
      assert rows == rest && o.lines + HopLines(run.hops[n..]) == o.lines;
    } else {
      var hop := run.hops[n];
      assert run.hops[n..] == [hop] + run.hops[n + 1..];
      assert rows[0] == RowOf(run.header, hop) && rows[1..] == HopRows(run.header, run.hops[n + 1..]) + rest;
      RowUnpacks(run.header, hop, known);
      OutputLaterHops(o.(lines := o.lines + [HopLine(hop)]), deduplication, known, run, n + 1, rest);
      assert o.lines + [HopLine(hop)] + HopLines(run.hops[n + 1..]) == o.lines + HopLines(run.hops[n..]);
    }
  }

  function Started(o: Output): seq<Line> { if |o.lines| == 0 then [FormatID] else o.lines }

  lemma OutputRun(o: Output, deduplication: bool, known: map<Address, uint32>, run: Run, rest: seq<Row>)
    requires Storable(run) && run.hops != [] && o.lastTimeStamp <= run.header.timeStamp
    requires deduplication ==> o.lastItem != [Mapped(run.header, known)]
    ensures OutputRows(o, deduplication, known, HopRows(run.header, run.hops) + rest)
         == OutputRows(AfterRun(o, deduplication, known, run), deduplication, known, rest)
  {
    hide HeaderOf, HopOf, Combined, Mapped;
    var rows := HopRows(run.header, run.hops) + rest;
    var hop := run.hops[0];
    assert rows[0] == RowOf(run.header, hop) && rows[1..] == HopRows(run.header, run.hops[1..]) + rest;
    RowUnpacks(run.header, hop, known);
    MappedTime(run.header, known);
    var next := OutputRow(o, deduplication, known, rows[0]).output;
    OutputLaterHops(next, deduplication, known, run, 1, rest);
    assert Started(o) + [HeaderLine(Mapped(run.header, known))] + [HopLine(hop)] + HopLines(run.hops[1..])
        == Started(o) + ([HeaderLine(Mapped(run.header, known))] + HopLines(run.hops));
  }

  lemma MappedTime(header: Header, known: map<Address, uint32>)
    ensures Mapped(header, known).timeStamp == header.timeStamp
  {
  }

  function AfterRun(o: Output, deduplication: bool, known: map<Address, uint32>, run: Run): Output {
    Output(Started(o) + ([HeaderLine(Mapped(run.header, known))] + HopLines(run.hops)), run.header.timeStamp,
           if deduplication then [Mapped(run.header, known)] else o.lastItem, false, o.duplicatesRemoved)
  }

  lemma LaterRuns(o: Output, runs: seq<Run>, deduplication: bool, known: map<Address, uint32>)
    requires runs != [] && InOrder(runs, deduplication, known) && Before(o, runs, deduplication, known)
    ensures Before(o, runs[1..], deduplication, known)
    ensures Before(AfterRun(o, deduplication, known, runs[0]), runs[1..], deduplication, known)
    ensures InOrder(runs[1..], deduplication, known)
  {
    hide Mapped, Started;
  }

  lemma {:induction false} OutputSorted(o: Output, deduplication: bool, known: map<Address, uint32>, runs: seq<Run>)
    requires AllStorable(runs) && InOrder(runs, deduplication, known) && Before(o, runs, deduplication, known)
    ensures var r := OutputRows(o, deduplication, known, Flattened(runs)); var printed := WithHops(runs);
      && r.Continue? && r.output.duplicatesRemoved == 0
      && r.output.lines == if printed == [] then o.lines else Started(o) + LinesOf(MappedRuns(printed, known))
    decreases |runs|
  {
    hide Storable, HopRows, HopLines, Before, InOrder, Mapped;
    if runs == [] {
      NoDuplicates(o, runs, deduplication, known);
    } else {
      assert Storable(runs[0]);
      LaterRuns(o, runs, deduplication, known);
      if runs[0].hops == [] {
        NoRows(runs[0], Flattened(runs[1..]));
        assert [] + WithHops(runs[1..]) == WithHops(runs[1..]);
        OutputSorted(o, deduplication, known, runs[1..]);
      } else {
        FirstIsBefore(o, runs, deduplication, known);
        OutputRun(o, deduplication, known, runs[0], Flattened(runs[1..]));
        OutputSorted(AfterRun(o, deduplication, known, runs[0]), deduplication, known, runs[1..]);
        LinesGrow(o, runs, known);
      }
    }
  }

  lemma NoDuplicates(o: Output, runs: seq<Run>, deduplication: bool, known: map<Address, uint32>)
    requires Before(o, runs, deduplication, known)
    ensures o.duplicatesRemoved == 0
  {
  }

  lemma FirstIsBefore(o: Output, runs: seq<Run>, deduplication: bool, known: map<Address, uint32>)
    requires Before(o, runs, deduplication, known) && runs != []
    ensures o.lastTimeStamp <= runs[0].header.timeStamp && o.duplicatesRemoved == 0
    ensures deduplication ==> o.lastItem != [Mapped(runs[0].header, known)]
  {
  }

  lemma NoRows(run: Run, rest: seq<Row>)
    requires run.hops == []
    ensures HopRows(run.header, run.hops) + rest == rest
  {
  }

  lemma LinesGrow(o: Output, runs: seq<Run>, known: map<Address, uint32>)
    requires runs != [] && runs[0].hops != []
    ensures var lines := Started(o) + ([HeaderLine(Mapped(runs[0].header, known))] + HopLines(runs[0].hops));
            var rest := WithHops(runs[1..]);
      && |lines| > 0
      && (if rest == [] then lines else lines + LinesOf(MappedRuns(rest, known)))
          == Started(o) + LinesOf(MappedRuns(WithHops(runs), known))
  {
    hide HopLines, LinesOf, Started, Mapped;
    var a, b, rest := [HeaderLine(Mapped(runs[0].header, known))], HopLines(runs[0].hops), WithHops(runs[1..]);
    assert ([runs[0]] + rest)[1..] == rest;
    LinesOfMore(Run(Mapped(runs[0].header, known), runs[0].hops), MappedRuns(rest, known));
    assert Started(o) + (a + b) + LinesOf(MappedRuns(rest, known)) == Started(o)
        + (a + (b + LinesOf(MappedRuns(rest, known))));
    if rest == [] {
      assert LinesOf(MappedRuns(rest, known)) == [] by { NoLines(); }
    }
  }

  lemma NoLines()
    ensures LinesOf([]) == []
  {
  }

  lemma LinesOfMore(run: Run, rest: seq<Run>)
    ensures LinesOf([run] + rest) == [HeaderLine(run.header)] + (HopLines(run.hops) + LinesOf(rest))
  {
    hide HopLines;
    assert ([run] + rest)[1..] == rest;
  }

  // ----- The sorting order -----

  /** Rows in the database's order, whatever they contain, never make the program abort. */
  lemma {:induction false} SortedRowsNeverAbort(o: Output, deduplication: bool, known: map<Address, uint32>,
                                                rows: seq<Row>, rank: Address -> int)
    requires Sorted(rows, ByRow(rank)) && (rows != [] ==> o.lastTimeStamp <= rows[0].header.timeStamp)
    ensures OutputRows(o, deduplication, known, rows).Continue?
    decreases |rows|
  {
    if rows == [] {
    } else {
      var next := OutputRow(o, deduplication, known, rows[0]).output;
      if |rows| > 1 {
        assert !Less(ByRow(rank)(rows[1]), ByRow(rank)(rows[0]));
        assert rows[0].header.timeStamp <= rows[1].header.timeStamp;
      }
      SortedRows(rows, ByRow(rank));
      SortedRowsNeverAbort(next, deduplication, known, rows[1..], rank);
    }
  }

  lemma SortedRows(rows: seq<Row>, key: Row -> seq<int>)
    requires Sorted(rows, key) && rows != []
    ensures Sorted(rows[1..], key)
  {
    hide Less;
  }

  // ----- Main result -----

  /** No two runs are printed with the same #T line. */
  ghost predicate MappedApart(runs: seq<Run>, known: map<Address, uint32>) {
    forall i, j :: 0 <= i < j < |runs| ==> Mapped(runs[i].header, known) != Mapped(runs[j].header, known)
  }

  /**
   The runs of imported files, stored as rows in any order, come out of the query as the same runs with
   the same headers, flags and hops, ordered by key, without a violation of the sorting order. Measurement IDs that are
   not stored are replaced by those known for the source. The removal of duplicates finds none, unless that replacement
   makes two headers equal.
   */
  lemma StoredRunsComeBack(runs: seq<Run>, none: Header, rows: seq<Row>, rank: Address -> int,
                           known: map<Address, uint32>, deduplication: bool)
    requires IsRanking(rank) && AllStorable(runs) && RunsDistinct(runs)
    requires deduplication ==> MappedApart(runs, known)
    requires multiset(rows) == multiset(RowsOf(LinesOf(runs), none)) && Sorted(rows, ByRow(rank))
    ensures var r := OutputRows(NoOutput(), deduplication, known, rows);
            var sorted := WithHops(Sort(runs, ByRun(rank)));
      && r.Continue? && r.output.duplicatesRemoved == 0
      && r.output.lines == (if sorted == [] then [] else [FormatID] + LinesOf(MappedRuns(sorted, known)))
  {
    var sorted := Sort(runs, ByRun(rank));
    SortPermutes(runs, ByRun(rank));
    DistinctRunsDistinctKeys(runs, rank);
    SortSorts(runs, ByRun(rank));
    StorableInAnyOrder(runs, sorted);
    hide *;
    if deduplication {
      ApartInAnyOrder(runs, sorted, known);
    }
    LinesAreRows(runs, none);
    SameRowsInAnyOrder(runs, sorted);
    RowBagIs(runs);
    RowBagIs(sorted);
    FlattenedSorted(sorted, rank);
    SortedIsUnique(Flattened(sorted), rows, ByRow(rank));
    SortedInOrder(sorted, rank, deduplication, known);
    NothingIsBefore(sorted, deduplication, known);
    OutputSorted(NoOutput(), deduplication, known, sorted);
  }

  lemma SortedInOrder(runs: seq<Run>, rank: Address -> int, deduplication: bool, known: map<Address, uint32>)
    requires StrictlySorted(runs, ByRun(rank)) && (deduplication ==> MappedApart(runs, known))
    ensures InOrder(runs, deduplication, known)
  {
    hide Mapped;
    forall i, j | 0 <= i < j < |runs| ensures runs[i].header.timeStamp <= runs[j].header.timeStamp {
      assert Less(ByRun(rank)(runs[i]), ByRun(rank)(runs[j]));
    }
  }

  lemma ApartInAnyOrder(runs: seq<Run>, sorted: seq<Run>, known: map<Address, uint32>)
    requires MappedApart(runs, known) && multiset(runs) == multiset(sorted)
    ensures MappedApart(sorted, known)
  {
    hide Mapped;
    forall i, j | 0 <= i < j < |sorted| ensures Mapped(sorted[i].header, known) != Mapped(sorted[j].header, known) {
      assert sorted[i] in multiset(sorted) && sorted[j] in multiset(sorted) && sorted[i] in runs && sorted[j] in runs;
      if Mapped(sorted[i].header, known) == Mapped(sorted[j].header, known) {
        var k :| 0 <= k < |runs| && runs[k] == sorted[i];
        var m :| 0 <= m < |runs| && runs[m] == sorted[j];
        assert k == m;
        OnceInEach(runs, k, known);
        TwiceInSorted(sorted, i, j);
      }
    }
  }

  lemma OnceInEach(runs: seq<Run>, k: nat, known: map<Address, uint32>)
    requires MappedApart(runs, known) && k < |runs|
    ensures multiset(runs)[runs[k]] <= 1
  {
    hide Mapped;
    var others := runs[..k] + runs[k + 1..];
    WithoutOne(runs, k);
    forall i | 0 <= i < |others| ensures others[i] != runs[k] {
      var m := if i < k then i else i + 1;
      assert others[i] == runs[m];
    }
    assert runs[k] !in multiset(others);
  }

  lemma TwiceInSorted(s: seq<Run>, i: nat, j: nat)
    requires i < j < |s| && s[i] == s[j]
    ensures multiset(s)[s[i]] >= 2
  {
    WithoutOne(s, j);
    assert (s[..j] + s[j + 1..])[i] == s[i];
    assert s[i] in multiset(s[..j] + s[j + 1..]);
  }

  lemma RowBagIs(runs: seq<Run>)
    ensures RowBag(runs) == multiset(Flattened(runs))
  {
  }

  lemma NothingIsBefore(runs: seq<Run>, deduplication: bool, known: map<Address, uint32>)
    ensures Before(NoOutput(), runs, deduplication, known) && NoOutput().lines == []
      && Started(NoOutput()) == [FormatID]
  {
  }

  lemma StorableInAnyOrder(runs: seq<Run>, sorted: seq<Run>)
    requires AllStorable(runs) && multiset(runs) == multiset(sorted)
    ensures AllStorable(sorted)
  {
    hide Storable;
    forall i | 0 <= i < |sorted| ensures Storable(sorted[i]) {
      assert sorted[i] in multiset(sorted) && sorted[i] in runs;
    }
  }

  // ----- Duplicates -----

  /** A run with the #T line that was printed last is removed as a whole, and counted once. */
  lemma RepeatedRunRemoved(o: Output, known: map<Address, uint32>, run: Run, rest: seq<Row>)
    requires Storable(run) && run.hops != [] && o.lastTimeStamp == run.header.timeStamp
    requires o.lastItem == [Mapped(run.header, known)]
    ensures OutputRows(o, true, known, HopRows(run.header, run.hops) + rest)
         == OutputRows(o.(duplicate := true, duplicatesRemoved := o.duplicatesRemoved + 1), true, known, rest)
  {
    hide HeaderOf, HopOf, Combined, Mapped;
    var rows := HopRows(run.header, run.hops) + rest;
    assert rows[0] == RowOf(run.header, run.hops[0]) && rows[1..] == HopRows(run.header, run.hops[1..]) + rest;
    RowUnpacks(run.header, run.hops[0], known);
    MappedTime(run.header, known);
    LaterHopsRemoved(o.(duplicate := true, duplicatesRemoved := o.duplicatesRemoved + 1), known, run, 1, rest);
  }

  lemma {:induction false} LaterHopsRemoved(o: Output, known: map<Address, uint32>, run: Run, n: nat, rest: seq<Row>)
    requires Storable(run) && 1 <= n <= |run.hops| && o.duplicate
    ensures OutputRows(o, true, known, HopRows(run.header, run.hops[n..]) + rest) == OutputRows(o, true, known, rest)
    decreases |run.hops| - n
  {
    hide HeaderOf, HopOf, OutputHeader;
    var rows := HopRows(run.header, run.hops[n..]) + rest;
    if n == |run.hops| {
      assert rows == rest;
    } else {
      assert run.hops[n..] == [run.hops[n]] + run.hops[n + 1..];
      assert rows[0] == RowOf(run.header, run.hops[n]) && rows[1..] == HopRows(run.header, run.hops[n + 1..]) + rest;
      LaterHopsRemoved(o, known, run, n + 1, rest);
    }
  }

  /** Each row twice, as a table without primary key could return them. */
  function Doubled(rows: seq<Row>): seq<Row> {
    if rows == [] then [] else [rows[0], rows[0]] + Doubled(rows[1..])
  }

  /**
   Of a run whose rows come twice, only the #T line and the first hop are printed: the removal takes the others
   along.
   */
  lemma DoubledRunLosesHops(o: Output, known: map<Address, uint32>, run: Run)
    requires Storable(run) && run.hops != [] && o.lastTimeStamp <= run.header.timeStamp
    requires o.lastItem != [Mapped(run.header, known)]
    ensures var r := OutputRows(o, true, known, Doubled(HopRows(run.header, run.hops)));
      && r.Continue? && r.output.duplicatesRemoved == o.duplicatesRemoved + 1
      && r.output.lines == Started(o) + [HeaderLine(Mapped(run.header, known)), HopLine(run.hops[0])]
  {
    hide HeaderOf, HopOf, Combined, Mapped;
    var rows := HopRows(run.header, run.hops);
    RowUnpacks(run.header, run.hops[0], known);
    MappedTime(run.header, known);
    var printed := OutputRow(o, true, known, rows[0]).output;
    assert printed.lines == Started(o) + [HeaderLine(Mapped(run.header, known))] + [HopLine(run.hops[0])];
    var removed := printed.(duplicate := true, duplicatesRemoved := o.duplicatesRemoved + 1);
    assert OutputRow(printed, true, known, rows[0]) == Continue(removed);
    var all := Doubled(rows);
    assert all[0] == rows[0] && all[1..][0] == rows[0] && all[1..][1..] == Doubled(rows[1..]);
    DoubledHopsRemoved(removed, known, run, 1);
  }

  lemma {:induction false} DoubledHopsRemoved(o: Output, known: map<Address, uint32>, run: Run, n: nat)
    requires Storable(run) && 1 <= n <= |run.hops| && o.duplicate
    ensures OutputRows(o, true, known, Doubled(HopRows(run.header, run.hops)[n..])) == Continue(o)
    decreases |run.hops| - n
  {
    hide HeaderOf, HopOf, OutputHeader;
    var rows := HopRows(run.header, run.hops);
    if n == |rows| {
      assert rows[n..] == [];
    } else {
      assert rows[n..] == [rows[n]] + rows[n + 1..];
      var all := Doubled(rows[n..]);
      assert all[0] == rows[n] && all[1..][0] == rows[n] && all[1..][1..] == Doubled(rows[n + 1..]);
      DoubledHopsRemoved(o, known, run, n + 1);
    }
  }
}
