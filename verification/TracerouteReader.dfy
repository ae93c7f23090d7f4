/**
 The importer's traceroute reader: lines of results files become one database statement, row by row for
 SQL, document by document for NoSQL. Values are pieces of the text; what matters is how they are joined.
 */
module TracerouteReader {
  import opened TracerouteData

  datatype Backend = SQL | NoSQL

  /** A piece of a statement's text. Values stands for the fields of one row, document or hop, with separators. */
  datatype Piece = Text(text: string) | RowValues(row: Row) | DocumentHead(header: Header) | HopFields(hop: Hop)

  /** Marks that no #T line has been read. */
  const NO_HEADER: bv32 := 0xffff_ffff

  function RowStart(backend: Backend, rows: nat): Piece {
    match backend
    case SQL => Text(if rows == 0 then "\n(" else ",\n(")
    case NoSQL => Text(if rows == 0 then "\n{" else ",\n{")
  }

  function RowEnd(backend: Backend): Piece { Text(if backend.SQL? then ")" else "}") }

  function StatementStart(backend: Backend, table: string): Piece {
    Text(if backend.SQL? then "INSERT INTO " + table + " (" + COLUMNS + ") VALUES" else "{ \"" + table + "\": [")
  }

  const COLUMNS := "Timestamp,MeasurementID,SourceIP,DestinationIP,Protocol,TrafficClass,RoundNumber,HopNumber,"
                 + "TotalHops,PacketSize,ResponseSize,Checksum,SourcePort,DestinationPort,Status,PathHash,"
                 + "SendTimestamp,HopIP,TimeSource,Delay_AppSend,Delay_Queuing,Delay_AppReceive,RTT_App,RTT_SW,RTT_HW"

  class Statement {
    const backend: Backend
    var contents: seq<Piece>
    var rows: nat
    var inTuple: bool

    constructor (backend: Backend)
      ensures this.backend == backend && contents == [] && rows == 0 && !inTuple
    {
      this.backend, contents, rows, inTuple := backend, [], 0, false;
    }

    method Clear()
      modifies this
      ensures contents == [] && rows == 0 && !inTuple
    {
      contents, rows, inTuple := [], 0, false;
    }

    method Append(piece: Piece)
      modifies this`contents
      ensures contents == old(contents) + [piece]
    {
      contents := contents + [piece];
    }

    /** The program's assert: no row is open. */
    method BeginRow()
      requires !inTuple
      modifies this`contents, this`inTuple
      ensures inTuple && contents == old(contents) + [RowStart(backend, rows)]
    {
      inTuple := true;
      Append(RowStart(backend, rows));
    }

    /** The program's assert: a row is open. */
    method EndRow()
      requires inTuple
      modifies this
      ensures !inTuple && rows == old(rows) + 1 && contents == old(contents) + [RowEnd(backend)]
    {
      inTuple := false;
      rows := rows + 1;
      Append(RowEnd(backend));
    }
  }

  // ----- The effect of a line, and of a file -----

  /** The statement, the row counter of the reader, and the last #T line. */
  datatype State = State(contents: seq<Piece>, statementRows: nat, inTuple: bool, rows: nat, header: Header)

  /** The end of an import: the state it reaches, bad data, or a failed assert of the statement. */
  datatype Result = Done(state: State) | DataError | AssertionFailed

  function BeginRow(b: Backend, s: State): Result {
    if s.inTuple then AssertionFailed
    else Done(s.(contents := s.contents + [RowStart(b, s.statementRows)], inTuple := true))
  }

  function EndRow(b: Backend, s: State): Result {
    if !s.inTuple then AssertionFailed
    else Done(s.(contents := s.contents + [RowEnd(b)], statementRows := s.statementRows + 1, inTuple := false,
                 rows := s.rows + 1))
  }

  /** NoSQL only: the hops' array and the document end where the next #T line or the end of file comes. */
  function CloseDocument(b: Backend, s: State): Result {
    if s.header.statusFlags != NO_HEADER && b.NoSQL? then EndRow(b, s.(contents := s.contents + [Text("]")]))
    else Done(s)
  }

  function TakeHeader(b: Backend, s: State, header: Header): Result {
    match CloseDocument(b, s)
    case DataError => DataError
    case AssertionFailed => AssertionFailed
    case Done(closed) =>
      if b.SQL? then Done(closed.(header := header))
      else
        match BeginRow(b, closed.(header := header))
        case Done(open) => Done(open.(contents := open.contents + [DocumentHead(header)]))
        case error => error
  }

  function TakeHop(b: Backend, s: State, hop: Hop): Result {
    if s.header.statusFlags == NO_HEADER then DataError
    else if b.SQL? then
      match BeginRow(b, s)
      case Done(open) => EndRow(b, open.(contents := open.contents + [RowValues(RowOf(s.header, hop))]))
      case error => error
    else Done(s.(contents := s.contents + HopPieces(hop)))
  }

  /** Whether a separator comes first depends on the hop's number. */
  function HopPieces(hop: Hop): seq<Piece> {
    [Text(if hop.hopNumber > 1 then ", { " else " { "), HopFields(hop), Text(" }")]
  }

  function ParseLine(b: Backend, s: State, line: Line): Result {
    match line
    case FormatID => Done(s)
    case HeaderLine(header) => TakeHeader(b, s, header)
    case HopLine(hop) => TakeHop(b, s, hop)
    case Bad => DataError
  }

  function ParseLines(b: Backend, s: State, lines: seq<Line>): Result
    decreases |lines|
  {
    if lines == [] then Done(s)
    else
      match ParseLine(b, s, lines[0])
      case Done(next) => ParseLines(b, next, lines[1..])
      case error => error
  }

  /** Each file starts without a #T line, and its last document is closed at its end. */
  function ParseFile(b: Backend, s: State, none: Header, lines: seq<Line>): Result
    requires none.statusFlags == NO_HEADER
  {
    match ParseLines(b, s.(header := none), lines)
    case Done(end) => CloseDocument(b, end)
    case error => error
  }

  function ParseFiles(b: Backend, s: State, none: Header, files: seq<seq<Line>>): Result
    requires none.statusFlags == NO_HEADER
    decreases |files|
  {
    if files == [] then Done(s)
    else
      match ParseFile(b, s, none, files[0])
      case Done(next) => ParseFiles(b, next, none, files[1..])
      case error => error
  }

  class TracerouteReader {
    const statement: Statement
    var rows: nat

    constructor (statement: Statement)
      ensures this.statement == statement && rows == 0
    {
      this.statement, rows := statement, 0;
    }

    ghost function Now(header: Header): State
      reads this, statement
    {
      State(statement.contents, statement.rows, statement.inTuple, rows, header)
    }

    /** Starts a new statement. */
    method BeginParsing(table: string)
      modifies this`rows, statement
      ensures rows == 0 && statement.rows == 0 && !statement.inTuple
        && statement.contents == [StatementStart(statement.backend, table)]
    {
      rows := 0;
      statement.Clear();
      statement.Append(StatementStart(statement.backend, table));
    }

    /** True: the statement is complete and can be executed. The program's assert: both counters agree. */
    method FinishParsing() returns (execute: bool)
      requires statement.rows == rows
      modifies statement`contents
      ensures execute <==> rows > 0
      ensures statement.contents == old(statement.contents) + if execute && statement.backend.NoSQL?
          then [Text(" \n] }")] else []
    {
      execute := false;
      if rows > 0 {
        if statement.backend.NoSQL? {
          statement.Append(Text(" \n] }"));
        }
        execute := true;
      }
    }

    /** Ends the open document, if there is one. False: the statement's assert fails. */
    method EndDocument(header: Header) returns (ok: bool)
      modifies this`rows, statement
      ensures var r := CloseDocument(statement.backend, old(Now(header)));
              if ok then r == Done(Now(header)) else r == AssertionFailed
    {
      ok := true;
      if header.statusFlags != NO_HEADER && statement.backend.NoSQL? {
        statement.Append(Text("]"));
        if !statement.inTuple {
          return false;
        }
        statement.EndRow();
        rows := rows + 1;
      }
    }

    method ReadHeader(previous: Header, header: Header) returns (ok: bool)
      modifies this`rows, statement
      ensures var r := TakeHeader(statement.backend, old(Now(previous)), header);
              if ok then r == Done(Now(header)) else r == AssertionFailed
    {
      ok := EndDocument(previous);
      if ok && statement.backend.NoSQL? {
        if statement.inTuple {
          return false;
        }
        statement.BeginRow();
        statement.Append(DocumentHead(header));
      }
    }

    method ReadHop(header: Header, hop: Hop) returns (ok: bool)
      requires header.statusFlags != NO_HEADER
      modifies this`rows, statement
      ensures var r := TakeHop(statement.backend, old(Now(header)), hop);
              if ok then r == Done(Now(header)) else r == AssertionFailed
    {
      ok := true;
      if statement.backend.SQL? {
        if statement.inTuple {
          return false;
        }
        statement.BeginRow();
        statement.Append(RowValues(RowOf(header, hop)));
        statement.EndRow();
        rows := rows + 1;
      } else {
        statement.Append(Text(if hop.hopNumber > 1 then ", { " else " { "));
        statement.Append(HopFields(hop));
        statement.Append(Text(" }"));
      }
    }

    /** Reads one file. `none` is the initial value of the header variables. */
    method ParseContents(none: Header, lines: seq<Line>) returns (result: Result)
      requires none.statusFlags == NO_HEADER
      modifies this`rows, statement
      ensures result.Done? ==> result.state == Now(result.state.header)
      ensures result == ParseFile(statement.backend, old(Now(none)), none, lines)
    {
      hide TakeHeader, TakeHop, CloseDocument;
      var b := statement.backend;
      var header := none;
      var i := 0;
      ghost var start := Now(none);
      while i < |lines|
        invariant 0 <= i <= |lines|
        invariant ParseLines(b, start, lines) == ParseLines(b, Now(header), lines[i..])
      {
        assert lines[i..][0] == lines[i] && lines[i..][1..] == lines[i + 1..];
        match lines[i] {
          case FormatID =>
          case HeaderLine(next) =>
            var ok := ReadHeader(header, next);
            if !ok {
              return AssertionFailed;
            }
            header := next;
          case HopLine(hop) =>
            if header.statusFlags == NO_HEADER {
              HopNeedsHeader(b, Now(header), hop);
              return DataError;
            }
            var ok := ReadHop(header, hop);
            if !ok {
              return AssertionFailed;
            }
          case Bad =>
            return DataError;
        }
        i := i + 1;
      }
      ghost var last := Now(header);
      var ok := EndDocument(header);
      if !ok {
        return AssertionFailed;
      }
      CloseKeepsHeader(b, last);
      result := Done(State(statement.contents, statement.rows, statement.inTuple, rows, header));
    }

    lemma HopNeedsHeader(b: Backend, s: State, hop: Hop)
      requires s.header.statusFlags == NO_HEADER
      ensures TakeHop(b, s, hop) == DataError
    {
    }

    lemma CloseKeepsHeader(b: Backend, s: State)
      ensures CloseDocument(b, s).Done? ==> CloseDocument(b, s).state.header == s.header
    {
    }
  }
}
