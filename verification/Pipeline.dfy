/** From results files through the database and back to results lines, as text. */
module Pipeline {
  import opened Addresses
  import opened Sorting
  import opened ResultLines
  import opened Conversions
  import opened TracerouteData
  import opened TracerouteImport
  import opened TracerouteQuery

  // ----- The text of the output -----

  /** The first line of an output. */
  function FormatText(program: string): string { "#? HPCT Traceroute 2 " + program }

  /** The query prints no bad lines. */
  function LineText(line: Line, text: AddressText, program: string): string {
    match line
    case FormatID => FormatText(program)
    case HeaderLine(header) => PrintHeader(header, text)
    case HopLine(hop) => PrintHop(hop, text)
    case Bad => ""
  }

  function LineTexts(lines: seq<Line>, text: AddressText, program: string): (r: seq<string>)
    ensures |r| == |lines|
  {
    seq(|lines|, i requires 0 <= i < |lines| => LineText(lines[i], text, program))
  }

  lemma LineTextsAppend(a: seq<Line>, b: seq<Line>, text: AddressText, program: string)
    ensures LineTexts(a + b, text, program) == LineTexts(a, text, program) + LineTexts(b, text, program)
  {
    hide LineText;
  }

  lemma {:induction false} HopLineTexts(hops: seq<Hop>, text: AddressText, program: string)
    ensures LineTexts(HopLines(hops), text, program) == HopTexts(hops, text)
  {
    hide PrintHop;
    if hops == [] {
    } else {
      HopLineTexts(hops[1..], text, program);
      FirstHopLine(hops);
      LineTextsAppend([HopLine(hops[0])], HopLines(hops[1..]), text, program);
    }
  }

  lemma {:induction false} RunLineTexts(runs: seq<Run>, text: AddressText, program: string)
    ensures LineTexts(LinesOf(runs), text, program) == RunTexts(runs, text)
  {
    hide PrintHeader, HopTexts, HopLines;
    if runs == [] {
    } else {
      HopLineTexts(runs[0].hops, text, program);
      RunLineTexts(runs[1..], text, program);
      LineTextsAppend(HopLines(runs[0].hops), LinesOf(runs[1..]), text, program);
      LineTextsAppend([HeaderLine(runs[0].header)], HopLines(runs[0].hops) + LinesOf(runs[1..]), text, program);
    }
  }

  /** The query compares printed #T lines to find duplicates: equal texts are equal headers. */
  lemma SameTextSameHeader(a: Header, b: Header, text: AddressText, now: int)
    requires text.Valid() && HeaderPrintable(a, now) && HeaderPrintable(b, now)
    requires PrintHeader(a, text) == PrintHeader(b, text)
    ensures a == b
  {
    hide *;
    HeaderReadsBack(a, text, now);
    HeaderReadsBack(b, text, now);
  }

  // ----- Main result -----

  /**
   The lines printed for any runs are read, imported as rows, and queried: what is printed then is the
   format line and the text of the same runs, in the order of their keys. Only runs without hops are missing.
   */
  lemma FilesComeBack(runs: seq<Run>, text: AddressText, now: int, r: Reading, none: Header, rows: seq<Row>,
                      rank: Address -> int,
                      deduplication: bool, program: string)
    requires text.Valid() && !r.version1 && |r.tuple| == TRACEROUTE_COLUMNS == 14
    requires forall i :: 0 <= i < |runs| ==> RunPrintable(runs[i], now)
    requires IsRanking(rank) && AllStorable(runs) && RunsDistinct(runs)
    requires multiset(rows) == multiset(RowsOf(ReadFile(RunTexts(runs, text), r, text, now), none))
      && Sorted(rows, ByRow(rank))
    ensures var output := OutputRows(NoOutput(), deduplication, map[], rows);
            var sorted := WithHops(Sort(runs, ByRun(rank)));
      && output.Continue?
      && LineTexts(output.output.lines, text, program)
      == (if sorted == [] then [] else [FormatText(program)] + RunTexts(sorted, text))
  {
    hide *;
    PrintedRunsRead(runs, text, now, r);
    DistinctAreApart(runs);
    StoredRunsComeBack(runs, none, rows, rank, map[], deduplication);
    NothingMapped(WithHops(Sort(runs, ByRun(rank))));
    PrintedOutput(WithHops(Sort(runs, ByRun(rank))), text, program);
  }

  lemma DistinctAreApart(runs: seq<Run>)
    requires RunsDistinct(runs)
    ensures MappedApart(runs, map[])
  {
  }

  lemma PrintedOutput(runs: seq<Run>, text: AddressText, program: string)
    ensures LineTexts([FormatID] + LinesOf(runs), text, program) == [FormatText(program)] + RunTexts(runs, text)
    ensures LineTexts([], text, program) == []
  {
    hide PrintHeader, PrintHop, LinesOf, RunTexts;
    RunLineTexts(runs, text, program);
    LineTextsAppend([FormatID], LinesOf(runs), text, program);
  }
}
