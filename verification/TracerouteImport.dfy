/** What an import of whole files builds: the documents or rows of exactly the runs in the files. */
module TracerouteImport {
  import opened TracerouteData
  import opened TracerouteReader

  // ----- Which files are accepted -----

  /** Every hop line has a #T line before it, and no line is bad. */
  predicate Orderly(lines: seq<Line>, open: bool) {
    if lines == [] then true
    else
      match lines[0]
      case FormatID => Orderly(lines[1..], open)
      case HeaderLine(header) => Orderly(lines[1..], header.statusFlags != NO_HEADER)
      case HopLine(_) => open && Orderly(lines[1..], open)
      case Bad => false
  }

  /** No run has all status flags set: that value marks that there is no run. */
  predicate NoneMarked(lines: seq<Line>) {
    forall i :: 0 <= i < |lines| && lines[i].HeaderLine? ==> lines[i].header.statusFlags != NO_HEADER
  }

  // ----- The runs in a file -----

  /** Groups lines into runs; `current` is the run that is being read. */
  function Documents(lines: seq<Line>, current: seq<Run>): seq<Run>
    requires |current| <= 1
    decreases |lines|
  {
    if lines == [] then current
    else
      match lines[0]
      case HeaderLine(header) => current + Documents(lines[1..], [Run(header, [])])
      case HopLine(hop) =>
        Documents(lines[1..], if current == [] then [] else [current[0].(hops := current[0].hops + [hop])])
      case _ => Documents(lines[1..], current)
  }

  function AllDocuments(files: seq<seq<Line>>): seq<Run> {
    if files == [] then [] else Documents(files[0], []) + AllDocuments(files[1..])
  }

  lemma {:induction false} HopsGroup(header: Header, hops: seq<Hop>, more: seq<Hop>, rest: seq<Line>)
    ensures Documents(HopLines(more) + rest, [Run(header, hops)]) == Documents(rest, [Run(header, hops + more)])
    decreases |more|
  {
    if more == [] {
      assert HopLines(more) + rest == rest && hops + more == hops;
    } else {
      var lines := HopLines(more) + rest;
      assert lines[0] == HopLine(more[0]) && lines[1..] == HopLines(more[1..]) + rest;
      HopsGroup(header, hops + [more[0]], more[1..], rest);
      assert (hops + [more[0]]) + more[1..] == hops + more;
    }
  }

  lemma FirstLine(runs: seq<Run>)
    requires runs != []
    ensures LinesOf(runs) != [] && LinesOf(runs)[0] == HeaderLine(runs[0].header)
    ensures LinesOf(runs)[1..] == HopLines(runs[0].hops) + LinesOf(runs[1..])
  {
    hide HopLines;
  }

  lemma {:induction false} GroupAfter(runs: seq<Run>, current: seq<Run>)
    requires |current| <= 1
    ensures Documents(LinesOf(runs), current) == current + runs
    decreases |runs|
  {
    if runs == [] {
    } else {
      var run := runs[0];
      FirstLine(runs);
      hide HopLines;
      HopsGroup(run.header, [], run.hops, LinesOf(runs[1..]));
      assert [] + run.hops == run.hops && Run(run.header, run.hops) == run;
      GroupAfter(runs[1..], [run]);
      assert current + ([run] + runs[1..]) == current + runs;
    }
  }

  /** Grouping the lines of runs gives the runs. */
  lemma GroupingInverts(runs: seq<Run>)
    ensures Documents(LinesOf(runs), []) == runs
  {
    GroupAfter(runs, []);
  }

  lemma {:induction false} HopLinesAreOrderly(hops: seq<Hop>, rest: seq<Line>)
    ensures Orderly(HopLines(hops) + rest, true) == Orderly(rest, true)
  {
    if hops == [] {
      assert HopLines(hops) + rest == rest;
    } else {
      assert (HopLines(hops) + rest)[0] == HopLine(hops[0])
        && (HopLines(hops) + rest)[1..] == HopLines(hops[1..]) + rest;
      HopLinesAreOrderly(hops[1..], rest);
    }
  }

  /** The lines of unmarked runs are orderly. */
  lemma {:induction false} RunsAreOrderly(runs: seq<Run>, open: bool)
    requires forall i :: 0 <= i < |runs| ==> runs[i].header.statusFlags != NO_HEADER
    ensures Orderly(LinesOf(runs), open)
  {
    if runs == [] {
    } else {
      FirstLine(runs);
      HopLinesAreOrderly(runs[0].hops, LinesOf(runs[1..]));
      RunsAreOrderly(runs[1..], true);
    }
  }

  // ----- NoSQL: one document per run -----

  /** The hops of a document as the reader writes them. */
  function HopArray(hops: seq<Hop>): seq<Piece> {
    if hops == [] then [] else HopArray(hops[..|hops| - 1]) + HopPieces(hops[|hops| - 1])
  }

  function DocumentStart(run: Run, row: nat): seq<Piece> {
    [RowStart(NoSQL, row), DocumentHead(run.header)] + HopArray(run.hops)
  }

  /** The documents from row number `row` on. */
  function Rendered(runs: seq<Run>, row: nat): seq<Piece> {
    if runs == [] then []
    else DocumentStart(runs[0], row) + [Text("]"), RowEnd(NoSQL)] + Rendered(runs[1..], row + 1)
  }

  /** A #T line is open exactly if a row of the statement is. */
  ghost predicate Tidy(s: State) { s.inTuple <==> s.header.statusFlags != NO_HEADER }

  /** The state when `current` is being read, and base has been written before. */
  ghost predicate MidFile(s: State, current: seq<Run>, base: seq<Piece>) {
    && |current| <= 1 && Tidy(s) && (s.inTuple <==> current != [])
    && (current != [] ==> current[0].header == s.header)
    && s.contents == base + if current == [] then [] else DocumentStart(current[0], s.statementRows)
  }

  /** What the rest of a file adds. */
  ghost predicate Renders(r: Result, s: State, runs: seq<Run>, base: seq<Piece>) {
    && r.Done? && !r.state.inTuple
    && r.state.statementRows == s.statementRows + |runs| && r.state.rows == s.rows + |runs|
    && r.state.contents == base + Rendered(runs, s.statementRows)
  }

  function Closed(b: Backend, r: Result): Result { if r.Done? then CloseDocument(b, r.state) else r }

  lemma CloseFinishes(s: State, current: seq<Run>, base: seq<Piece>)
    requires MidFile(s, current, base)
    ensures Renders(CloseDocument(NoSQL, s), s, current, base)
  {
    if current != [] {
      var text := DocumentStart(current[0], s.statementRows);
      assert current[1..] == [];
      assert base + text + [Text("]")] + [RowEnd(NoSQL)] == base + (text + [Text("]"), RowEnd(NoSQL)] + []);
    }
  }

  lemma HeaderOpens(s: State, current: seq<Run>, base: seq<Piece>, header: Header)
    requires MidFile(s, current, base) && header.statusFlags != NO_HEADER
    ensures var r := TakeHeader(NoSQL, s, header);
      && r.Done? && MidFile(r.state, [Run(header, [])], base + Rendered(current, s.statementRows))
      && r.state.statementRows == s.statementRows + |current| && r.state.rows == s.rows + |current|
  {
    hide RowStart, RowEnd, DocumentStart, Rendered;
    CloseFinishes(s, current, base);
    StartOnly(header, s.statementRows + |current|);
    var before := base + Rendered(current, s.statementRows);
    var row := s.statementRows + |current|;
    assert before + [RowStart(NoSQL, row)] + [DocumentHead(header)] == before
        + [RowStart(NoSQL, row), DocumentHead(header)];
  }

  lemma StartOnly(header: Header, row: nat)
    ensures DocumentStart(Run(header, []), row) == [RowStart(NoSQL, row), DocumentHead(header)]
  {
    hide RowStart;
  }

  lemma StartExtends(run: Run, hop: Hop, row: nat)
    ensures DocumentStart(run.(hops := run.hops + [hop]), row) == DocumentStart(run, row) + HopPieces(hop)
  {
    hide RowStart, HopPieces;
    assert (run.hops + [hop])[..|run.hops|] == run.hops;
    var a := [RowStart(NoSQL, row), DocumentHead(run.header)];
    assert a + (HopArray(run.hops) + HopPieces(hop)) == a + HopArray(run.hops) + HopPieces(hop);
  }

  lemma HopExtends(s: State, current: seq<Run>, base: seq<Piece>, hop: Hop)
    requires MidFile(s, current, base) && current != []
    ensures var r := TakeHop(NoSQL, s, hop);
      && r.Done? && MidFile(r.state, [current[0].(hops := current[0].hops + [hop])], base)
      && r.state.statementRows == s.statementRows && r.state.rows == s.rows
  {
    hide DocumentStart, HopPieces;
    StartExtends(current[0], hop, s.statementRows);
    assert base + DocumentStart(current[0], s.statementRows) + HopPieces(hop)
        == base + (DocumentStart(current[0], s.statementRows) + HopPieces(hop));
  }

  lemma {:induction false} RestOfFile(s: State, lines: seq<Line>, current: seq<Run>, base: seq<Piece>)
    requires MidFile(s, current, base) && Orderly(lines, current != []) && NoneMarked(lines)
    ensures Renders(Closed(NoSQL, ParseLines(NoSQL, s, lines)), s, Documents(lines, current), base)
    decreases |lines|
  {
    hide MidFile, Rendered, DocumentStart, CloseDocument, TakeHop, TakeHeader;
    if lines == [] {
      CloseFinishes(s, current, base);
    } else {
      RestUnmarked(lines);
      match lines[0]
      case FormatID => RestOfFile(s, lines[1..], current, base);
      case HeaderLine(header) =>
        HeaderOpens(s, current, base, header);
        CurrentIsShort(s, current, base);
        var next := TakeHeader(NoSQL, s, header).state;
        RestOfFile(next, lines[1..], [Run(header, [])], base + Rendered(current, s.statementRows));
        RenderedAppend(current, Documents(lines[1..], [Run(header, [])]), s.statementRows);
        FinishedLater(Closed(NoSQL, ParseLines(NoSQL, s, lines)), s, next, current,
                      Documents(lines[1..], [Run(header, [])]), base);
      case HopLine(hop) =>
        HopExtends(s, current, base, hop);
        RestOfFile(TakeHop(NoSQL, s, hop).state, lines[1..], [current[0].(hops := current[0].hops + [hop])], base);
      case Bad =>
    }
  }

  lemma FinishedLater(r: Result, s: State, next: State, current: seq<Run>, rest: seq<Run>, base: seq<Piece>)
    requires next.statementRows == s.statementRows + |current| && next.rows == s.rows + |current|
    requires Rendered(current + rest, s.statementRows) == Rendered(current, s.statementRows)
        + Rendered(rest, s.statementRows + |current|)
    requires Renders(r, next, rest, base + Rendered(current, s.statementRows))
    ensures Renders(r, s, current + rest, base)
  {
    hide Rendered;
  }

  lemma CurrentIsShort(s: State, current: seq<Run>, base: seq<Piece>)
    requires MidFile(s, current, base)
    ensures |current| <= 1
  {
  }

  lemma RestUnmarked(lines: seq<Line>)
    requires NoneMarked(lines) && lines != []
    ensures NoneMarked(lines[1..]) && (lines[0].HeaderLine? ==> lines[0].header.statusFlags != NO_HEADER)
  {
  }

  lemma {:induction false} RenderedAppend(a: seq<Run>, b: seq<Run>, row: nat)
    ensures Rendered(a + b, row) == Rendered(a, row) + Rendered(b, row + |a|)
  {
    hide DocumentStart;
    if a == [] {
      assert a + b == b;
    } else {
      assert (a + b)[1..] == a[1..] + b;
      RenderedAppend(a[1..], b, row + 1);
    }
  }

  /**
   Importing any files into one NoSQL statement: afterwards no row is open, both row counters have counted
   one row per run, and the text is the rendering of exactly the runs, in order, as separated documents.
   */
  lemma {:induction false} ImportBuildsDocuments(s: State, none: Header, files: seq<seq<Line>>)
    requires none.statusFlags == NO_HEADER && !s.inTuple
    requires forall i :: 0 <= i < |files| ==> Orderly(files[i], false) && NoneMarked(files[i])
    ensures Renders(ParseFiles(NoSQL, s, none, files), s, AllDocuments(files), s.contents)
    decreases |files|
  {
    hide Orderly, NoneMarked, ParseLines, CloseDocument, Documents, Rendered;
    if files == [] {
      RenderedNothing(s.statementRows);
    } else {
      var start := s.(header := none);
      RestOfFile(start, files[0], [], s.contents);
      var next := ParseFile(NoSQL, s, none, files[0]).state;
      ImportBuildsDocuments(next, none, files[1..]);
      RenderedAppend(Documents(files[0], []), AllDocuments(files[1..]), s.statementRows);
    }
  }

  lemma RenderedNothing(row: nat)
    ensures Rendered([], row) == []
  {
  }

  // ----- Exactly which files are accepted -----

  /** A run with all flags set leaves the statement's row open for good. */
  ghost predicate Stuck(s: State) { s.inTuple && s.header.statusFlags == NO_HEADER }

  lemma {:induction false} StuckForever(s: State, lines: seq<Line>)
    requires Stuck(s)
    ensures var r := Closed(NoSQL, ParseLines(NoSQL, s, lines)); r.Done? ==> r.state.inTuple
    ensures ParseLines(NoSQL, s, lines).Done? ==> Stuck(ParseLines(NoSQL, s, lines).state)
    decreases |lines|
  {
    if lines == [] {
    } else {
      var r := ParseLine(NoSQL, s, lines[0]);
      if r.Done? {
        StuckForever(r.state, lines[1..]);
      }
    }
  }

  lemma {:induction false} OpenForever(s: State, none: Header, files: seq<seq<Line>>)
    requires none.statusFlags == NO_HEADER && s.inTuple
    ensures var r := ParseFiles(NoSQL, s, none, files); r.Done? ==> r.state.inTuple
    decreases |files|
  {
    hide ParseLines, CloseDocument;
    if files == [] {
    } else {
      StuckForever(s.(header := none), files[0]);
      var r := ParseFile(NoSQL, s, none, files[0]);
      if r.Done? {
        OpenForever(r.state, none, files[1..]);
      }
    }
  }

  lemma {:induction false} AcceptedFile(s: State, lines: seq<Line>)
    requires Tidy(s)
    requires var r := Closed(NoSQL, ParseLines(NoSQL, s, lines)); r.Done? && !r.state.inTuple
    ensures Orderly(lines, s.inTuple) && NoneMarked(lines)
    decreases |lines|
  {
    if lines == [] {
    } else {
      var r := ParseLine(NoSQL, s, lines[0]);
      if Stuck(r.state) {
        StuckForever(r.state, lines[1..]);
      }
      AcceptedFile(r.state, lines[1..]);
      FirstUnmarked(lines);
    }
  }

  lemma FirstUnmarked(lines: seq<Line>)
    requires lines != [] && NoneMarked(lines[1..])
      && (lines[0].HeaderLine? ==> lines[0].header.statusFlags != NO_HEADER)
    ensures NoneMarked(lines)
  {
    forall i | 0 <= i < |lines| && lines[i].HeaderLine? ensures lines[i].header.statusFlags != NO_HEADER {
      if i > 0 {
        assert lines[i] == lines[1..][i - 1];
      }
    }
  }

  lemma {:induction false} AcceptedFiles(s: State, none: Header, files: seq<seq<Line>>)
    requires none.statusFlags == NO_HEADER && !s.inTuple
    requires var r := ParseFiles(NoSQL, s, none, files); r.Done? && !r.state.inTuple
    ensures forall i :: 0 <= i < |files| ==> Orderly(files[i], false) && NoneMarked(files[i])
    decreases |files|
  {
    hide Orderly, NoneMarked, ParseLines, CloseDocument;
    if files == [] {
    } else {
      var next := ParseFile(NoSQL, s, none, files[0]).state;
      if next.inTuple {
        OpenForever(next, none, files[1..]);
      }
      AcceptedFile(s.(header := none), files[0]);
      AcceptedFiles(next, none, files[1..]);
    }
  }

  /**
   An import ends with a complete statement exactly if every hop line has its #T line, no line is bad,
   and no #T line has all status flags set.
   */
  lemma ImportSucceeds(s: State, none: Header, files: seq<seq<Line>>)
    requires none.statusFlags == NO_HEADER && !s.inTuple
    ensures (var r := ParseFiles(NoSQL, s, none, files); r.Done? && !r.state.inTuple)
       <==> forall i :: 0 <= i < |files| ==> Orderly(files[i], false) && NoneMarked(files[i])
  {
    if forall i :: 0 <= i < |files| ==> Orderly(files[i], false) && NoneMarked(files[i]) {
      ImportBuildsDocuments(s, none, files);
    }
    hide Orderly, NoneMarked, ParseFiles;
    var r := ParseFiles(NoSQL, s, none, files);
    if r.Done? && !r.state.inTuple {
      AcceptedFiles(s, none, files);
    }
  }

  // ----- Separators between hops -----

  /** The hops joined as a list: a comma before each but the first. */
  function Joined(hops: seq<Hop>): seq<Piece> {
    if hops == [] then []
    else
      Joined(hops[..|hops| - 1])
      + [Text(if |hops| > 1 then ", { " else " { "), HopFields(hops[|hops| - 1]), Text(" }")]
  }

  /** The reader's hop array is such a list exactly if only the first hop has a number up to 1. */
  lemma {:induction false} HopsAreJoined(hops: seq<Hop>)
    ensures HopArray(hops) == Joined(hops) <==> FromOne(hops)
  {
    if hops == [] {
    } else {
      var last := |hops| - 1;
      var joined := [Text(if |hops| > 1 then ", { " else " { "), HopFields(hops[last]), Text(" }")];
      SamePieces(hops[last], |hops|);
      LastFromOne(hops);
      HopsAreJoined(hops[..last]);
      hide FromOne, HopPieces;
      SameEnd(HopArray(hops[..last]), HopPieces(hops[last]), Joined(hops[..last]), joined);
    }
  }

  lemma SamePieces(hop: Hop, n: nat)
    ensures |HopPieces(hop)| == 3
    ensures HopPieces(hop) == [Text(if n > 1 then ", { " else " { "), HopFields(hop), Text(" }")]
       <==> (hop.hopNumber > 1 <==> n > 1)
  {
    assert ", { "[0] != " { "[0];
    assert HopPieces(hop)[0] == Text(if hop.hopNumber > 1 then ", { " else " { ");
  }

  lemma LastFromOne(hops: seq<Hop>)
    requires hops != []
    ensures var last := |hops| - 1; FromOne(hops) <==> FromOne(hops[..last]) && (hops[last].hopNumber > 1 <==> last > 0)
  {
    var last := |hops| - 1;
    assert forall i :: 0 <= i < last ==> hops[..last][i] == hops[i];
  }

  lemma SameEnd(a: seq<Piece>, x: seq<Piece>, b: seq<Piece>, y: seq<Piece>)
    requires |x| == |y|
    ensures a + x == b + y <==> a == b && x == y
  {
    if a + x == b + y {
      assert |a| == |b|;
      assert a == (a + x)[..|a|] && b == (b + y)[..|b|];
      assert x == (a + x)[|a|..] && y == (b + y)[|b|..];
    }
  }

  // ----- SQL: one row per hop -----

  function RowsOf(lines: seq<Line>, header: Header): seq<Row> {
    if lines == [] then []
    else
      match lines[0]
      case HeaderLine(next) => RowsOf(lines[1..], next)
      case HopLine(hop) => [RowOf(header, hop)] + RowsOf(lines[1..], header)
      case _ => RowsOf(lines[1..], header)
  }

  function RenderedRows(rows: seq<Row>, row: nat): seq<Piece> {
    if rows == [] then []
    else [RowStart(SQL, row), RowValues(rows[0]), RowEnd(SQL)] + RenderedRows(rows[1..], row + 1)
  }

  /** The SQL import of a file: one row per hop line, with the fields of the last #T line. */
  lemma {:induction false} ImportBuildsRows(s: State, lines: seq<Line>)
    requires !s.inTuple
    ensures ParseLines(SQL, s, lines).Done? <==> Orderly(lines, s.header.statusFlags != NO_HEADER)
    ensures var r := ParseLines(SQL, s, lines); r.Done? ==>
      && !r.state.inTuple
      && r.state.rows == s.rows + |RowsOf(lines, s.header)|
      && r.state.statementRows == s.statementRows + |RowsOf(lines, s.header)|
      && r.state.contents == s.contents + RenderedRows(RowsOf(lines, s.header), s.statementRows)
    decreases |lines|
  {
    hide RowStart, RowEnd, RowOf;
    if lines == [] {
    } else {
      var r := ParseLine(SQL, s, lines[0]);
      if r.Done? {
        ImportBuildsRows(r.state, lines[1..]);
      }
    }
  }

  /** The rows of all files; none is the header before the first #T line of each. */
  function AllRows(files: seq<seq<Line>>, none: Header): seq<Row> {
    if files == [] then [] else RowsOf(files[0], none) + AllRows(files[1..], none)
  }

  lemma {:induction false} RenderedRowsAppend(a: seq<Row>, b: seq<Row>, row: nat)
    ensures RenderedRows(a + b, row) == RenderedRows(a, row) + RenderedRows(b, row + |a|)
  {
    hide RowStart, RowEnd;
    if a == [] {
      assert a + b == b;
    } else {
      assert (a + b)[1..] == a[1..] + b;
      RenderedRowsAppend(a[1..], b, row + 1);
    }
  }

  lemma FileBuildsRows(s: State, none: Header, lines: seq<Line>)
    requires none.statusFlags == NO_HEADER && !s.inTuple
    ensures ParseFile(SQL, s, none, lines).Done? <==> Orderly(lines, false)
    ensures var r := ParseFile(SQL, s, none, lines); r.Done? ==> RowsAdded(s, r.state, RowsOf(lines, none))
  {
    hide ParseLines, RowsOf, Orderly, RenderedRows;
    ImportBuildsRows(s.(header := none), lines);
  }

  /** From s to s', the statement and both counters have gained these rows. */
  ghost predicate RowsAdded(s: State, s': State, rows: seq<Row>) {
    && !s'.inTuple && s'.rows == s.rows + |rows| && s'.statementRows == s.statementRows + |rows|
    && s'.contents == s.contents + RenderedRows(rows, s.statementRows)
  }

  lemma RowsAddedTwice(s: State, s1: State, s2: State, a: seq<Row>, b: seq<Row>)
    requires RowsAdded(s, s1, a) && RowsAdded(s1, s2, b)
    ensures RowsAdded(s, s2, a + b)
  {
    hide RenderedRows;
    RenderedRowsAppend(a, b, s.statementRows);
  }

  lemma NoRowsAdded(s: State)
    requires !s.inTuple
    ensures RowsAdded(s, s, [])
  {
  }

  /**
   Importing any files into one SQL statement: it succeeds exactly if every hop line has its #T line and no line
   is bad; then both counters have counted one row per hop line, and the text has gained exactly these rows.
   */
  lemma {:induction false} ImportBuildsAllRows(s: State, none: Header, files: seq<seq<Line>>)
    requires none.statusFlags == NO_HEADER && !s.inTuple
    ensures ParseFiles(SQL, s, none, files).Done? <==> forall i :: 0 <= i < |files| ==> Orderly(files[i], false)
    ensures var r := ParseFiles(SQL, s, none, files); r.Done? ==> RowsAdded(s, r.state, AllRows(files, none))
    decreases |files|
  {
    hide ParseFile, RowsOf, Orderly, RowsAdded;
    if files == [] {
      NoRowsAdded(s);
    } else {
      FileBuildsRows(s, none, files[0]);
      var r := ParseFile(SQL, s, none, files[0]);
      if r.Done? {
        StaysClosed(s, r.state, RowsOf(files[0], none));
        ImportBuildsAllRows(r.state, none, files[1..]);
        assert forall i :: 0 < i < |files| ==> files[i] == files[1..][i - 1];
        var all := ParseFiles(SQL, s, none, files);
        if all.Done? {
          RowsAddedTwice(s, r.state, all.state, RowsOf(files[0], none), AllRows(files[1..], none));
        }
      }
    }
  }

  lemma StaysClosed(s: State, s': State, rows: seq<Row>)
    requires RowsAdded(s, s', rows)
    ensures !s'.inTuple
  {
  }

  lemma {:induction false} LinesCountAlike(b: Backend, s: State, lines: seq<Line>)
    ensures var r := ParseLines(b, s, lines);
      r.Done? ==> r.state.rows - r.state.statementRows == s.rows - s.statementRows
    decreases |lines|
  {
    if lines == [] {
    } else {
      var r := ParseLine(b, s, lines[0]);
      if r.Done? {
        LinesCountAlike(b, r.state, lines[1..]);
      }
    }
  }

  /**
   The program's assert at the end of an import: both counters agree, for either kind of database, if they did
   before.
   */
  lemma {:induction false} CountersAgree(b: Backend, s: State, none: Header, files: seq<seq<Line>>)
    requires none.statusFlags == NO_HEADER
    ensures var r := ParseFiles(b, s, none, files);
      r.Done? ==> r.state.rows - r.state.statementRows == s.rows - s.statementRows
    decreases |files|
  {
    if files == [] {
    } else {
      LinesCountAlike(b, s.(header := none), files[0]);
      var r := ParseFile(b, s, none, files[0]);
      if r.Done? {
        CountersAgree(b, r.state, none, files[1..]);
      }
    }
  }

  /** The rows of runs. */
  function HopRows(header: Header, hops: seq<Hop>): (rows: seq<Row>)
    ensures |rows| == |hops|
  {
    seq(|hops|, i requires 0 <= i < |hops| => RowOf(header, hops[i]))
  }

  function Flattened(runs: seq<Run>): seq<Row> {
    if runs == [] then [] else HopRows(runs[0].header, runs[0].hops) + Flattened(runs[1..])
  }

  lemma {:induction false} HopLinesAreRows(hops: seq<Hop>, rest: seq<Line>, header: Header)
    ensures RowsOf(HopLines(hops) + rest, header) == HopRows(header, hops) + RowsOf(rest, header)
  {
    hide RowOf;
    if hops == [] {
      assert HopLines(hops) + rest == rest;
    } else {
      assert (HopLines(hops) + rest)[1..] == HopLines(hops[1..]) + rest;
      HopLinesAreRows(hops[1..], rest, header);
      assert HopRows(header, hops) == [RowOf(header, hops[0])] + HopRows(header, hops[1..]);
    }
  }

  /** Importing the lines of runs makes the rows of the runs. */
  lemma {:induction false} LinesAreRows(runs: seq<Run>, header: Header)
    ensures RowsOf(LinesOf(runs), header) == Flattened(runs)
  {
    hide RowOf, HopLines, HopRows;
    if runs == [] {
    } else {
      FirstLine(runs);
      HopLinesAreRows(runs[0].hops, LinesOf(runs[1..]), runs[0].header);
      LinesAreRows(runs[1..], runs[0].header);
    }
  }

  // ----- The whole statement -----

  /** Rows as a list: each in parentheses, with a comma before each but the first. */
  function JoinedRows(rows: seq<Row>): seq<Piece> {
    if rows == [] then []
    else
      JoinedRows(rows[..|rows| - 1])
      + [Text(if |rows| > 1 then ",\n(" else "\n("), RowValues(rows[|rows| - 1]), Text(")")]
  }

  /** Documents as a list: each in braces, with the list of its hops, and a comma before each but the first. */
  function JoinedDocuments(runs: seq<Run>): seq<Piece> {
    if runs == [] then []
    else
      var run := runs[|runs| - 1];
      JoinedDocuments(runs[..|runs| - 1])
      + ([Text(if |runs| > 1 then ",\n{" else "\n{"), DocumentHead(run.header)] + Joined(run.hops)
         + [Text("]"), Text("}")])
  }

  lemma {:induction false} RowsAreJoined(rows: seq<Row>)
    ensures RenderedRows(rows, 0) == JoinedRows(rows)
  {
    if rows == [] {
    } else {
      var last := |rows| - 1;
      RowsAreJoined(rows[..last]);
      assert rows == rows[..last] + [rows[last]];
      RenderedRowsAppend(rows[..last], [rows[last]], 0);
      OneRow(rows[last], last);
    }
  }

  lemma OneRow(row: Row, number: nat)
    ensures RenderedRows([row], number) == [Text(if number > 0 then ",\n(" else "\n("), RowValues(row), Text(")")]
  {
  }

  /** Only the first hop has a number up to 1. */
  ghost predicate FromOne(hops: seq<Hop>) { forall i :: 0 <= i < |hops| ==> (hops[i].hopNumber > 1 <==> i > 0) }

  ghost predicate HopsNumbered(runs: seq<Run>) { forall i :: 0 <= i < |runs| ==> FromOne(runs[i].hops) }

  lemma {:induction false} DocumentsAreJoined(runs: seq<Run>)
    requires HopsNumbered(runs)
    ensures Rendered(runs, 0) == JoinedDocuments(runs)
  {
    if runs == [] {
    } else {
      var last := |runs| - 1;
      FirstNumbered(runs);
      hide FromOne, HopsNumbered, HopArray, Joined, DocumentStart;
      DocumentsAreJoined(runs[..last]);
      assert runs == runs[..last] + [runs[last]];
      RenderedAppend(runs[..last], [runs[last]], 0);
      HopsAreJoined(runs[last].hops);
      OneDocument(runs[last], last);
    }
  }

  lemma FirstNumbered(runs: seq<Run>)
    requires HopsNumbered(runs) && runs != []
    ensures HopsNumbered(runs[..|runs| - 1]) && FromOne(runs[|runs| - 1].hops)
  {
    hide FromOne;
  }

  lemma OneDocument(run: Run, number: nat)
    requires HopArray(run.hops) == Joined(run.hops)
    ensures Rendered([run], number)
         == [Text(if number > 0 then ",\n{" else "\n{"), DocumentHead(run.header)] + Joined(run.hops)
             + [Text("]"), Text("}")]
  {
    hide HopArray, Joined;
  }

  /** A statement with nothing but its beginning. */
  function Begun(b: Backend, table: string, none: Header): State
  {
    State([StatementStart(b, table)], 0, false, 0, none)
  }

  /**
   The SQL statement that any files make: INSERT INTO, then one tuple for each hop, joined by commas. It is made exactly
   if every hop has its #T line and no line is bad.
   */
  lemma SQLStatement(table: string, none: Header, files: seq<seq<Line>>)
    requires none.statusFlags == NO_HEADER
    ensures var r := ParseFiles(SQL, Begun(SQL, table, none), none, files);
      && (r.Done? <==> forall i :: 0 <= i < |files| ==> Orderly(files[i], false))
      && (r.Done? ==>
            r.state.contents
            == [Text("INSERT INTO " + table + " (" + COLUMNS + ") VALUES")] + JoinedRows(AllRows(files, none)))
  {
    hide ParseFiles, Orderly, AllRows, RenderedRows, JoinedRows;
    ImportBuildsAllRows(Begun(SQL, table, none), none, files);
    RowsAreJoined(AllRows(files, none));
  }

  /** The NoSQL statement: one document for each run, joined by commas, with its hops joined by commas. */
  lemma NoSQLStatement(table: string, none: Header, files: seq<seq<Line>>)
    requires none.statusFlags == NO_HEADER
    requires forall i :: 0 <= i < |files| ==> Orderly(files[i], false) && NoneMarked(files[i])
    requires HopsNumbered(AllDocuments(files))
    ensures var r := ParseFiles(NoSQL, Begun(NoSQL, table, none), none, files);
      && r.Done? && !r.state.inTuple
      && r.state.contents == [Text("{ \"" + table + "\": [")] + JoinedDocuments(AllDocuments(files))
  {
    hide ParseFiles, Orderly, NoneMarked, AllDocuments, Rendered, JoinedDocuments, HopsNumbered;
    ImportBuildsDocuments(Begun(NoSQL, table, none), none, files);
    DocumentsAreJoined(AllDocuments(files));
  }
}
