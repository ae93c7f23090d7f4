/**
 Reading lines of either version: records of version 1 are rewritten as lines of version 2 first. Proved:
 what a rewritten record means, and that printed results of version 2 come back line by line.
 */
module Conversions {
  import opened Wrappers
  import opened Words
  import opened Addresses
  import opened Numbers
  import opened Tokens
  import opened TracerouteData
  import opened ResultLines

  // ----- Columns of version 1: split at every single space -----

  const OLD_COLUMNS := 11

  /** A column, and the text from its start to the end of the line. */
  datatype Column = Column(text: string, onward: string)

  /** What follows the last of max columns is dropped. */
  function Columns(s: string, max: nat): seq<Column>
    decreases max
  {
    var n := Find(s, true);
    if n == |s| || max <= 1 then [Column(s[..n], s)]
    else [Column(s[..n], s)] + Columns(s[n + 1..], max - 1)
  }

  /** A number that must fill its column; the library reads on from the column's start. */
  function ColumnNumber(c: Column, base: nat): Option<uint64>
    requires IsBase(base)
  {
    match Stoull(c.onward, base)
    case None => None
    case Some((n, used)) => if used == |c.text| then Some(n) else None
  }

  /** Microseconds to nanoseconds, in 64 bits. */
  function Thousandfold(n: int): uint64 { Wrap64(1000 * n) }

  // ----- Conversion -----

  function NewPingColumns(c: seq<Column>, timeStamp: uint64, rtt: uint64): (columns: seq<string>)
    requires |c| >= 7
    ensures |columns| == 20
  {
    [c[0].text + "i", "0", c[1].text, c[2].text, Print(timeStamp, 16), "0",
     if |c| >= 8 then c[7].text else "0", if |c| >= 9 then c[8].text else "0",
     "0", c[4].text, "0", "0", c[5].text, if |c| >= 10 then c[9].text else "00000000",
     "-1", "-1", "-1", Print(rtt, 10), "-1", "-1"]
  }

  function ConvertOldPingLine(line: string): Option<string> {
    var c := Columns(line, OLD_COLUMNS);
    if |c| < 7 then None
    else
      var timeStamp := ColumnNumber(c[3], 16);
      var rtt := ColumnNumber(c[6], 10);
      if timeStamp.Some? && rtt.Some? then
        Some(Join(NewPingColumns(c, Thousandfold(timeStamp.value), Thousandfold(rtt.value))))
      else None
  }

  function NewHeaderColumns(c: seq<Column>, timeStamp: uint64): (columns: seq<string>)
    requires |c| >= 9
    ensures |columns| == 14
  {
    [c[0].text + "i", "0", c[1].text, c[2].text, Print(timeStamp, 16), c[4].text, c[6].text,
     if |c| >= 10 then c[9].text else "00000000", if |c| >= 11 then c[10].text else "0",
     c[5].text, "0", "0", c[7].text, c[8].text]
  }

  function NewHopColumns(c: seq<Column>, timeStamp: uint64, status: uint32, rtt: uint64): (columns: seq<string>)
    requires |c| >= 5
    ensures |columns| == 12
  {
    ["\t" + Print(timeStamp, 16), c[1].text, "0", Print(status, 10), if |c| >= 6 then c[5].text else "00000000",
     "-1", "-1", "-1", Print(rtt, 10), "-1", "-1", c[4].text]
  }

  /** The converted line, and the time stamp that following hop lines get. */
  function ConvertOldTracerouteLine(line: string, timeStamp: uint64): Option<(string, uint64)> {
    var c := Columns(line, OLD_COLUMNS);
    if line != [] && line[0] == '#' && |c| >= 9 then
      var stamp := ColumnNumber(c[3], 16);
      if stamp.None? then None
      else Some((Join(NewHeaderColumns(c, Thousandfold(stamp.value))), Thousandfold(stamp.value)))
    else if line != [] && line[0] == '\t' && |c| >= 5 then
      var status := ColumnNumber(c[2], 16);
      var rtt := ColumnNumber(c[3], 10);
      if status.None? || rtt.None? then None
      else Some((Join(NewHopColumns(c, timeStamp, Wrap32(status.value), Thousandfold(rtt.value))), timeStamp))
    else None
  }

  // ----- Reading lines -----

  predicate StartsWith(line: string, prefix: string) { |prefix| <= |line| && line[..|prefix|] == prefix }

  datatype PingLine = Skipped | Result(ping: PingResult) | Rejected

  function ReadPingLine(line: string, text: AddressText, now: int): PingLine {
    if StartsWith(line, "#?") then Skipped
    else if !StartsWith(line, "#P") then Rejected
    else
      var current := if StartsWith(line, "#P ") then ConvertOldPingLine(line) else Some(line);
      if current.None? then Rejected
      else
        var tuple := Split(current.value, PING_COLUMNS);
        if |tuple| < PING_COLUMNS || |tuple[0]| < 3 then Rejected
        else
          match ParsePing(tuple, text, now)
          case None => Rejected
          case Some(ping) => Result(ping)
  }

  /** What the traceroute reader keeps from line to line of a file. */
  datatype Reading = Reading(version1: bool, oldTimeStamp: uint64, tuple: seq<string>)

  function ReadColumns(line: string, r: Reading, text: AddressText, now: int): (Line, Reading)
    requires |r.tuple| == TRACEROUTE_COLUMNS
  {
    var columns := Split(line, TRACEROUTE_COLUMNS);
    if |columns| < 4 then (Bad, r)
    else
      var tuple := Overlaid(columns, r.tuple);
      (ParseTuple(tuple, text, now), r.(tuple := tuple))
  }

  /** A #T line without protocol makes all following lines of the file version 1. */
  function ReadTracerouteLine(line: string, r: Reading, text: AddressText, now: int): (Line, Reading)
    requires |r.tuple| == TRACEROUTE_COLUMNS
  {
    if StartsWith(line, "#?") then (FormatID, r)
    else
      var version1 := r.version1 || StartsWith(line, "#T ");
      if !version1 then ReadColumns(line, r, text, now)
      else
        match ConvertOldTracerouteLine(line, r.oldTimeStamp)
        case None => (Bad, r.(version1 := true))
        case Some((converted, stamp)) => ReadColumns(converted, r.(version1 := true, oldTimeStamp := stamp), text, now)
  }

  /** Reading a file's lines, as far as they are good. */
  function ReadFile(lines: seq<string>, r: Reading, text: AddressText, now: int): seq<Line>
    requires |r.tuple| == TRACEROUTE_COLUMNS
    decreases |lines|
  {
    if lines == [] then []
    else
      var (line, next) := ReadTracerouteLine(lines[0], r, text, now);
      if line.Bad? || |next.tuple| != TRACEROUTE_COLUMNS then [Bad] else [line] + ReadFile(lines[1..], next, text, now)
  }

  // ----- Columns of joined tokens -----

  function Onward(tokens: seq<string>): (columns: seq<Column>)
    ensures |columns| == |tokens|
  {
    if tokens == [] then [] else [Column(tokens[0], Join(tokens))] + Onward(tokens[1..])
  }

  lemma ColumnsFirst(t: string, rest: string, max: nat)
    requires ' ' !in t && (rest == [] || rest[0] == ' ') && max > 1
    ensures Columns(t + rest, max)
         == if rest == [] then [Column(t, t)] else [Column(t, t + rest)] + Columns(rest[1..], max - 1)
  {
    FindInToken(t, rest);
    var s := t + rest;
    assert s[..|t|] == t && (rest != [] ==> s[|t| + 1..] == rest[1..]) && (rest == [] ==> s == t);
  }

  lemma {:induction false} ColumnsOfJoined(tokens: seq<string>, max: nat)
    requires AreTokens(tokens) && tokens != [] && |tokens| <= max
    ensures Columns(Join(tokens), max) == Onward(tokens)
    decreases |tokens|
  {
    hide *;
    if max == 1 {
      LastColumn(tokens);
    } else {
      JoinFirst(tokens);
      TokenHasNoSpace(tokens[0]);
      OnwardFirst(tokens);
      ColumnsFirst(tokens[0], Later(tokens), max);
      if |tokens| == 1 {
        assert tokens[0] + [] == tokens[0];
      } else {
        assert Later(tokens)[1..] == Join(tokens[1..]);
        ColumnsOfJoined(tokens[1..], max - 1);
      }
    }
  }

  lemma OnwardFirst(tokens: seq<string>)
    requires tokens != []
    ensures Onward(tokens) == [Column(tokens[0], Join(tokens))] + Onward(tokens[1..])
    ensures |tokens| == 1 ==> Onward(tokens) == [Column(tokens[0], Join(tokens))]
  {
    hide Join;
  }

  lemma TokenHasNoSpace(t: string)
    requires IsToken(t)
    ensures ' ' !in t
  {
  }

  lemma LastColumn(tokens: seq<string>)
    requires AreTokens(tokens) && |tokens| == 1
    ensures Columns(Join(tokens), 1) == Onward(tokens)
  {
    FindInToken(tokens[0], []);
    assert tokens[0] + [] == tokens[0];
    assert IsToken(tokens[0]);
  }

  lemma {:induction false} OnwardAt(tokens: seq<string>, i: nat)
    requires AreTokens(tokens) && i < |tokens|
    ensures Onward(tokens)[i].text == tokens[i]
    ensures exists rest :: Onward(tokens)[i].onward == tokens[i] + rest && Ends(rest)
  {
    hide IsToken;
    if i == 0 {
      JoinFirst(tokens);
      assert Ends(Later(tokens));
    } else {
      assert tokens[1..][i - 1] == tokens[i];
      OnwardAt(tokens[1..], i - 1);
    }
  }

  /** A printed number in a column is read. */
  lemma NumberInColumn(c: Column, n: nat, base: nat)
    requires (base == 10 || base == 16) && n <= MAX64 && c.text == Print(n, base)
    requires exists rest :: c.onward == c.text + rest && Ends(rest)
    ensures ColumnNumber(c, base) == Some(n)
  {
    var rest :| c.onward == c.text + rest && Ends(rest);
    PrintValue(n, base);
    StoullDigits(c.text, rest, base);
  }

  lemma SignedInColumn(c: Column, n: int)
    requires IsInt64(n) && c.text == PrintSigned(n)
    requires exists rest :: c.onward == c.text + rest && Ends(rest)
    ensures ColumnNumber(c, 10) == Some(Wrap64(n))
  {
    var rest :| c.onward == c.text + rest && Ends(rest);
    SignedWraps(n);
    if n < 0 {
      var t := Print(-n, 10);
      PrintValue(-n, 10);
      assert c.onward == "-" + t + rest;
      StoullDigits(t, rest, 10);
    } else {
      PrintValue(n, 10);
      StoullDigits(c.text, rest, 10);
    }
  }

  lemma ThousandfoldSigned(n: int)
    ensures Thousandfold(Wrap64(n)) == Wrap64(1000 * n)
  {
    var q := n / 0x1_0000_0000_0000_0000;
    assert Wrap64(n) == n - q * 0x1_0000_0000_0000_0000;
    assert 1000 * Wrap64(n) == 1000 * n + (-1000 * q) * 0x1_0000_0000_0000_0000;
    WrapMultiple(1000 * n, -1000 * q);
  }

  lemma WrapMultiple(n: int, q: int)
    ensures Wrap64(n + q * 0x1_0000_0000_0000_0000) == Wrap64(n)
  {
  }

  // ----- Texts of constants -----

  lemma ConstantsRead()
    ensures IsToken("0") && ParseUnsigned("0", 10) == Some(0) && ParseTrafficClass("0") == Some(0)
      && ParsePort("0") == Some(0)
    ensures IsToken("00000000") && ParseUnsigned("00000000", 16) == Some(0) && ParseTrafficClass("00000000") == Some(0)
    ensures IsToken("-1") && ParseSigned("-1", 10) == Some(-1)
  {
    ZeroTexts();
    hide *;
    NumberField(0, 10);
    SmallFields(0, 0, 0);
    PaddedField(0);
    PaddedSmall();
    SignedField(-1);
  }

  lemma ZeroTexts()
    ensures Print(0, 10) == "0" == Print(0, 16) && PrintPadded(0, 16, 8) == "00000000" && PrintSigned(-1) == "-1"
    ensures IsInt64(-1)
  {
    assert Print(0, 10) == [DigitChar(0)] == "0" && Print(1, 10) == [DigitChar(1)] == "1"
      && Print(0, 16) == [DigitChar(0)];
    assert Zeros(7) + "0" == "00000000";
  }

  lemma PaddedSmall()
    ensures ParseTrafficClass(PrintPadded(0, 16, 8)) == Some(0)
  {
    hide PrintPadded, ParseWhole;
    ReadBackPadded(0, 16, 8);
  }

  lemma ParseTimesStep(t: string, n: int, rest: seq<string>, values: seq<int>)
    requires IsBase(10) && ParseSigned(t, 10) == Some(n) && ParseTimes(rest) == Some(values)
    ensures ParseTimes([t] + rest) == Some([n] + values)
  {
    hide ParseSigned;
    assert ([t] + rest)[1..] == rest;
  }

  /** Only the application's round-trip time is known. */
  lemma OneTimeKnown(t: string, n: int)
    requires IsToken(t) && ParseSigned(t, 10) == Some(n)
    ensures AreTokens(["-1", "-1", "-1", t, "-1", "-1"])
      && ParseTimes(["-1", "-1", "-1", t, "-1", "-1"]) == Some([-1, -1, -1, n, -1, -1])
  {
    ConstantsRead();
    TenOrSixteen();
    NoTimes();
    hide *;
    var t1, t2, t3, t4, t5 := ["-1"], ["-1", "-1"], [t, "-1", "-1"], ["-1", t, "-1", "-1"], ["-1", "-1", t, "-1", "-1"];
    var v1, v2, v3, v4, v5 := [-1], [-1, -1], [n, -1, -1], [-1, n, -1, -1], [-1, -1, n, -1, -1];
    ParseTimesStep("-1", -1, [], []);
    assert ["-1"] + [] == t1 && [-1] + [] == v1;
    ParseTimesStep("-1", -1, t1, v1);
    assert ["-1"] + t1 == t2 && [-1] + v1 == v2;
    ParseTimesStep(t, n, t2, v2);
    assert [t] + t2 == t3 && [n] + v2 == v3;
    ParseTimesStep("-1", -1, t3, v3);
    assert ["-1"] + t3 == t4 && [-1] + v3 == v4;
    ParseTimesStep("-1", -1, t4, v4);
    assert ["-1"] + t4 == t5 && [-1] + v4 == v5;
    ParseTimesStep("-1", -1, t5, v5);
    assert ["-1"] + t5 == ["-1", "-1", "-1", t, "-1", "-1"] && [-1] + v5 == [-1, -1, -1, n, -1, -1];
    SixTokens(["-1", "-1", "-1", t, "-1", "-1"]);
  }

  lemma NoTimes()
    ensures ParseTimes([]) == Some([])
  {
  }

  lemma SixTokens(t: seq<string>)
    requires |t| == 6 && IsToken(t[0]) && IsToken(t[1]) && IsToken(t[2]) && IsToken(t[3]) && IsToken(t[4])
      && IsToken(t[5])
    ensures AreTokens(t)
  {
    hide IsToken;
  }

  /** A round-trip time in microseconds, printed as signed, becomes nanoseconds, printed as unsigned. */
  lemma ConvertedTime(rtt: int)
    requires IsInt64(1000 * rtt)
    ensures IsInt64(rtt) && IsToken(Print(Thousandfold(Wrap64(rtt)), 10))
    ensures ParseSigned(Print(Thousandfold(Wrap64(rtt)), 10), 10) == Some(1000 * rtt)
  {
    ThousandfoldSigned(rtt);
    SignedWraps(1000 * rtt);
    hide Print, ParseWhole, Wrap64, Signed64, IsToken;
    NumberField(Thousandfold(Wrap64(rtt)), 10);
  }

  // ----- Ping, version 1 -----

  /**
   A record of version 1: the last three of at most ten columns came with later releases. Times are in microseconds.
   */
  datatype OldPing = OldPing(
    source: Address,
    destination: Address,
    timeStamp: uint64,
    checksum: uint16,
    status: uint32,
    rtt: int,
    columns: nat,
    trafficClass: byte,
    packetSize: uint32,
    timeSource: uint32)
  {
    ghost predicate Printable(now: int) {
      && 7 <= columns <= 10 && 1000 * timeStamp <= MAX64 && IsPlausible(Signed64(1000 * timeStamp), now)
      && IsInt64(1000 * rtt)
    }

    /** What it says in terms of version 2. */
    function Meaning(): PingResult
      requires 1000 * timeStamp <= MAX64
    {
      PingResult('i', 0, source, destination, 1000 * timeStamp, 0,
                 if columns >= 8 then trafficClass else 0, if columns >= 9 then packetSize else 0, 0,
                 checksum, 0, 0, status, if columns >= 10 then timeSource else 0, -1, -1, -1, 1000 * rtt, -1, -1)
    }
  }

  function OldPingTokens(o: OldPing, text: AddressText): (tokens: seq<string>)
    requires 7 <= o.columns <= 10
    ensures |tokens| == o.columns
  {
    ["#P", text.show(o.source), text.show(o.destination), Print(o.timeStamp, 16), Print(o.checksum, 16),
     Print(o.status, 10),
     PrintSigned(o.rtt), Print(o.trafficClass, 16), Print(o.packetSize, 10),
     PrintPadded(o.timeSource, 16, 2)][..o.columns]
  }

  lemma OldPingColumns(o: OldPing, text: AddressText, now: int)
    requires text.Valid() && o.Printable(now)
    ensures AreTokens(OldPingTokens(o, text))
  {
    OldPingNumbers(o);
    OldPingAddresses(o, text);
    hide Print, PrintPadded, PrintSigned, IsToken, Digits;
    assert IsToken("#P") by { TwoCharacters(); }
  }

  lemma TwoCharacters()
    ensures IsToken("#P") && IsToken("#T") && IsToken("\t") && IsToken("#Pi") && IsToken("#Ti")
  {
  }

  lemma OldPingNumbers(o: OldPing)
    ensures IsToken(Print(o.timeStamp, 16)) && IsToken(Print(o.checksum, 16)) && IsToken(Print(o.status, 10))
      && IsToken(PrintSigned(o.rtt))
    ensures IsToken(Print(o.trafficClass, 16)) && IsToken(Print(o.packetSize, 10))
      && IsToken(PrintPadded(o.timeSource, 16, 2))
  {
    hide Print, PrintPadded, PrintSigned, IsToken, Digits, ParseWhole, ParseUnsigned;
    NumberField(o.timeStamp, 16);
    NumberField(o.checksum, 16);
    NumberField(o.status, 10);
    SignedIsToken(o.rtt);
    NumberField(o.trafficClass, 16);
    NumberField(o.packetSize, 10);
    DigitsAreToken(PrintPadded(o.timeSource, 16, 2), 16);
  }

  lemma OldPingAddresses(o: OldPing, text: AddressText)
    requires text.Valid()
    ensures IsToken(text.show(o.source)) && IsToken(text.show(o.destination))
    ensures text.read(text.show(o.source)) == Some(o.source)
      && text.read(text.show(o.destination)) == Some(o.destination)
  {
    hide IsToken;
  }

  /** The two numbers that are converted are read from their columns. */
  lemma OldPingTimes(o: OldPing, text: AddressText, now: int)
    requires text.Valid() && o.Printable(now)
    ensures |Onward(OldPingTokens(o, text))| == o.columns
    ensures ColumnNumber(Onward(OldPingTokens(o, text))[3], 16) == Some(o.timeStamp)
    ensures ColumnNumber(Onward(OldPingTokens(o, text))[6], 10) == Some(Wrap64(o.rtt))
  {
    OldPingColumns(o, text, now);
    ConvertedTime(o.rtt);
    var tokens := OldPingTokens(o, text);
    assert tokens[3] == Print(o.timeStamp, 16) && tokens[6] == PrintSigned(o.rtt);
    hide OldPingTokens, Print, PrintSigned, Wrap64, ColumnNumber, AreTokens, Onward, IsPlausible;
    OnwardAt(tokens, 3);
    OnwardAt(tokens, 6);
    NumberInColumn(Onward(tokens)[3], o.timeStamp, 16);
    SignedInColumn(Onward(tokens)[6], o.rtt);
  }

  function ConvertedPing(o: OldPing, text: AddressText): (columns: seq<string>)
    requires 7 <= o.columns <= 10 && 1000 * o.timeStamp <= MAX64
    ensures |columns| == 20
  {
    ["#Pi", "0", text.show(o.source), text.show(o.destination), Print(1000 * o.timeStamp, 16), "0",
     if o.columns >= 8 then Print(o.trafficClass, 16) else "0", if o.columns >= 9 then Print(o.packetSize, 10) else "0",
     "0", Print(o.checksum, 16), "0", "0", Print(o.status, 10),
     if o.columns >= 10 then PrintPadded(o.timeSource, 16, 2) else "00000000",
     "-1", "-1", "-1", Print(Thousandfold(Wrap64(o.rtt)), 10), "-1", "-1"]
  }

  lemma OnwardTexts(tokens: seq<string>)
    requires AreTokens(tokens)
    ensures forall i :: 0 <= i < |tokens| ==> Onward(tokens)[i].text == tokens[i]
  {
    hide Onward, IsToken, Ends;
    forall i | 0 <= i < |tokens| ensures Onward(tokens)[i].text == tokens[i] {
      OnwardAt(tokens, i);
    }
  }

  lemma ThousandfoldFits(n: uint64)
    requires 1000 * n <= MAX64
    ensures Thousandfold(n) == 1000 * n
  {
  }

  lemma SamePingColumns(c: seq<Column>, o: OldPing, text: AddressText)
    requires 7 <= o.columns <= 10 && 1000 * o.timeStamp <= MAX64 && |c| == o.columns
    requires forall i :: 0 <= i < |c| ==> c[i].text == OldPingTokens(o, text)[i]
    ensures NewPingColumns(c, 1000 * o.timeStamp, Thousandfold(Wrap64(o.rtt))) == ConvertedPing(o, text)
  {
    hide Print, PrintSigned, PrintPadded, Digits, Thousandfold, Wrap64;
    assert c[0].text + "i" == "#Pi";
  }

  lemma ConversionOf(line: string, c: seq<Column>, timeStamp: uint64, rtt: uint64)
    requires c == Columns(line, OLD_COLUMNS) && |c| >= 7 && IsBase(10) && IsBase(16)
    requires ColumnNumber(c[3], 16) == Some(timeStamp) && ColumnNumber(c[6], 10) == Some(rtt)
    ensures ConvertOldPingLine(line) == Some(Join(NewPingColumns(c, Thousandfold(timeStamp), Thousandfold(rtt))))
  {
    hide Columns, ColumnNumber, NewPingColumns, Join, Thousandfold;
  }

  lemma OldPingSizes(o: OldPing, text: AddressText, now: int)
    requires text.Valid() && o.Printable(now)
    ensures 7 <= o.columns <= 10 && 1000 * o.timeStamp <= MAX64 && OLD_COLUMNS == 11 && OldPingTokens(o, text) != []
    ensures IsPlausible(Signed64(1000 * o.timeStamp), now) && IsInt64(1000 * o.rtt)
  {
  }

  lemma OldPingConverts(o: OldPing, text: AddressText, now: int)
    requires text.Valid() && o.Printable(now)
    ensures 7 <= o.columns <= 10 && 1000 * o.timeStamp <= MAX64
    ensures ConvertOldPingLine(Join(OldPingTokens(o, text))) == Some(Join(ConvertedPing(o, text)))
  {
    hide *;
    OldPingSizes(o, text, now);
    TenOrSixteen();
    var tokens := OldPingTokens(o, text);
    OldPingColumns(o, text, now);
    OldPingTimes(o, text, now);
    OnwardTexts(tokens);
    ThousandfoldFits(o.timeStamp);
    ColumnsOfJoined(tokens, OLD_COLUMNS);
    SamePingColumns(Onward(tokens), o, text);
    ConversionOf(Join(tokens), Onward(tokens), o.timeStamp, Wrap64(o.rtt));
  }

  lemma ConvertedPingAre(o: OldPing, text: AddressText)
    requires 7 <= o.columns <= 10 && 1000 * o.timeStamp <= MAX64
    ensures var t := ConvertedPing(o, text);
      && |t| == 20 && t[0] == "#Pi" && t[1] == "0" && t[2] == text.show(o.source) && t[3] == text.show(o.destination)
      && t[4] == Print(1000 * o.timeStamp, 16) && t[5] == "0"
      && t[6] == (if o.columns >= 8 then Print(o.trafficClass, 16) else "0")
      && t[7] == (if o.columns >= 9 then Print(o.packetSize, 10) else "0")
      && t[8] == "0" && t[9] == Print(o.checksum, 16) && t[10] == "0" && t[11] == "0" && t[12] == Print(o.status, 10)
      && t[13] == (if o.columns >= 10 then PrintPadded(o.timeSource, 16, 2) else "00000000")
      && t[14..20] == ["-1", "-1", "-1", Print(Thousandfold(Wrap64(o.rtt)), 10), "-1", "-1"]
      && t[14..] == t[14..20] && t[0..] == t
  {
    hide Print, PrintPadded, Digits, Thousandfold, Wrap64, IsBase;
    var t := ConvertedPing(o, text);
    assert t[14..20] == [t[14], t[15], t[16], t[17], t[18], t[19]];
  }

  /** The converted columns, one by one. */
  lemma ConvertedPingRead(o: OldPing)
    ensures ParseUnsigned(if o.columns >= 9 then Print(o.packetSize, 10) else "0", 10)
        == Some(if o.columns >= 9 then o.packetSize else 0)
    ensures ParseTrafficClass(if o.columns >= 8 then Print(o.trafficClass, 16) else "0")
        == Some(if o.columns >= 8 then o.trafficClass else 0)
    ensures ParseUnsigned(if o.columns >= 10 then PrintPadded(o.timeSource, 16, 2) else "00000000", 16)
         == Some(if o.columns >= 10 then o.timeSource else 0)
    ensures ParseChecksum(Print(o.checksum, 16)) == Some(o.checksum)
      && ParseUnsigned(Print(o.status, 10), 10) == Some(o.status)
  {
    hide Print, PrintPadded, ParseWhole, ParseUnsigned, ParseTrafficClass, ParseChecksum;
    NumberField(o.packetSize, 10);
    SmallFields(o.trafficClass, o.checksum, 0);
    NumberField(o.status, 10);
    PaddedTwo(o.timeSource);
    ConstantsRead();
  }

  lemma PaddedTwo(n: uint32)
    ensures ParseUnsigned(PrintPadded(n, 16, 2), 16) == Some(n)
  {
    hide PrintPadded, ParseWhole;
    ReadBackPadded(n, 16, 2);
  }

  lemma ConvertedPingTokens(o: OldPing, text: AddressText, now: int)
    requires text.Valid() && o.Printable(now)
    ensures 7 <= o.columns <= 10 && 1000 * o.timeStamp <= MAX64
    ensures AreTokens(ConvertedPing(o, text))
  {
    hide *;
    OldPingSizes(o, text, now);
    ThousandfoldFits(o.timeStamp);
    TimeStampToken(1000 * o.timeStamp);
    OldPingNumbers(o);
    OldPingAddresses(o, text);
    ConstantsRead();
    TwoCharacters();
    ConvertedTime(o.rtt);
    TenOrSixteen();
    OneTimeKnown(Print(Thousandfold(Wrap64(o.rtt)), 10), 1000 * o.rtt);
    ConvertedPingAre(o, text);
    SevenTokens(ConvertedPing(o, text), 7);
    SevenTokens(ConvertedPing(o, text), 0);
  }

  lemma TimeStampToken(n: nat)
    requires n <= MAX64
    ensures IsToken(Print(n, 16))
  {
    DigitsAreToken(Print(n, 16), 16);
  }

  lemma ConvertedPingMeans(o: OldPing, text: AddressText, now: int)
    requires text.Valid() && o.Printable(now)
    ensures 7 <= o.columns <= 10 && 1000 * o.timeStamp <= MAX64
    ensures ParsePing(ConvertedPing(o, text), text, now) == Some(o.Meaning())
  {
    hide *;
    OldPingSizes(o, text, now);
    OldPingAddresses(o, text);
    ConstantsRead();
    ConvertedTime(o.rtt);
    TenOrSixteen();
    OneTimeKnown(Print(Thousandfold(Wrap64(o.rtt)), 10), 1000 * o.rtt);
    TimeStampRead(1000 * o.timeStamp, now);
    ConvertedPingRead(o);
    ConvertedPingAre(o, text);
    MeaningIs(o);
    PingOfFields(ConvertedPing(o, text), o.Meaning(), text, now);
  }

  lemma TimeStampRead(n: nat, now: int)
    requires n <= MAX64 && IsPlausible(Signed64(n), now)
    ensures ParseTimeStamp(Print(n, 16), now) == Some(n)
  {
    hide Print, IsPlausible, Signed64, ParseTimeStamp;
    TimeStampField(n, now);
  }

  lemma MeaningIs(o: OldPing)
    requires 1000 * o.timeStamp <= MAX64
    ensures var p := o.Meaning();
      && "#Pi" == "#P" + [p.protocol] && p.measurementID == 0 && p.source == o.source && p.destination == o.destination
      && p.sendTimeStamp == 1000 * o.timeStamp && p.burstSeq == 0
      && p.trafficClass == (if o.columns >= 8 then o.trafficClass else 0)
      && p.packetSize == (if o.columns >= 9 then o.packetSize else 0)
      && p.responseSize == 0 && p.checksum == o.checksum && p.sourcePort == 0 && p.destinationPort == 0
      && p.status == o.status
      && p.timeSource == (if o.columns >= 10 then o.timeSource else 0)
      && TimesOf(p) == [-1, -1, -1, 1000 * o.rtt, -1, -1]
      && PING_COLUMNS == 20
  {
  }

  /**
   A Ping record of version 1 reads as its meaning in version 2: times in nanoseconds, columns that it
   does not have with their defaults.
   */
  lemma OldPingReads(o: OldPing, text: AddressText, now: int)
    requires text.Valid() && o.Printable(now)
    ensures 7 <= o.columns <= 10 && 1000 * o.timeStamp <= MAX64
    ensures ReadPingLine(Join(OldPingTokens(o, text)), text, now) == Result(o.Meaning())
  {
    hide *;
    OldPingSizes(o, text, now);
    OldPingStarts(o, text, now);
    OldPingConverts(o, text, now);
    ConvertedPingTokens(o, text, now);
    ConvertedPingMeans(o, text, now);
    ConvertedPingAre(o, text);
    MeaningIs(o);
    SplitJoined(ConvertedPing(o, text), "", 20);
    NothingBefore(Join(ConvertedPing(o, text)));
    ReadsConverted(Join(OldPingTokens(o, text)), Join(ConvertedPing(o, text)), ConvertedPing(o, text), o.Meaning(),
                   text, now);
  }

  lemma NothingBefore(s: string)
    ensures "" + s == s
  {
  }

  lemma OldPingStarts(o: OldPing, text: AddressText, now: int)
    requires text.Valid() && o.Printable(now)
    ensures var line := Join(OldPingTokens(o, text)); |line| >= 3 && line[..3] == "#P "
  {
    hide Print, PrintSigned, PrintPadded, Digits, IsPlausible, Join;
    OldPingColumns(o, text, now);
    var tokens := OldPingTokens(o, text);
    assert tokens[0] == "#P";
    hide OldPingTokens;
    JoinFirst(tokens);
    assert (tokens[0] + Later(tokens))[..3] == "#P ";
  }

  lemma ReadsConverted(line: string, converted: string, tuple: seq<string>, p: PingResult, text: AddressText, now: int)
    requires |line| >= 3 && line[..3] == "#P " && ConvertOldPingLine(line) == Some(converted)
    requires |tuple| == 20 && Split(converted, 20) == tuple && tuple[0] == "#Pi" && PING_COLUMNS == 20
    requires ParsePing(tuple, text, now) == Some(p)
    ensures ReadPingLine(line, text, now) == Result(p)
  {
    hide ConvertOldPingLine, Split, ParsePing;
    assert line[0] == line[..3][0] && line[1] == line[..3][1];
    assert line[..2] == "#P";
  }

  /** A printed Ping result of version 2 reads as the result. */
  lemma PingReads(p: PingResult, text: AddressText, now: int)
    requires text.Valid() && p.Printable(now)
    ensures ReadPingLine(PrintPing(p, text), text, now) == Result(p)
  {
    PingReadsBack(p, text, now);
    PingTokens(p, text, now);
    PrintedPingStarts(p, text);
    PingColumnsAre(p, text);
    hide PrintPing, PingColumns, ConvertOldPingLine, Split, ParsePing, Print, PrintPadded, Join, SignedColumns;
    var line := PrintPing(p, text);
    assert line[..2] == "#P" && line[2] != ' ';
  }

  lemma PrintedPingStarts(p: PingResult, text: AddressText)
    requires AreTokens(PingColumns(p, text))
    ensures var line := PrintPing(p, text); |line| >= 3 && line[..2] == "#P" && line[2] == p.protocol
  {
    hide Print, PrintPadded, SignedColumns, Digits;
    assert PingColumns(p, text)[0] == "#P" + [p.protocol];
    hide PingColumns, Join;
    JoinFirst(PingColumns(p, text));
  }

  // ----- Traceroute, version 1 -----

  /** A #T line of version 1; the last two of at most eleven columns came with later releases. */
  datatype OldHeader = OldHeader(
    source: Address,
    destination: Address,
    timeStamp: uint64,
    roundNumber: uint32,
    checksum: uint16,
    totalHops: nat,
    statusFlags: bv32,
    pathHash: int,
    columns: nat,
    trafficClass: byte,
    packetSize: uint32)
  {
    ghost predicate Printable(now: int) {
      && 9 <= columns <= 11 && 1000 * timeStamp <= MAX64 && IsPlausible(Signed64(1000 * timeStamp), now)
      && 1 <= totalHops <= 255 && IsInt64(pathHash)
    }

    function Meaning(): Header
      requires 1000 * timeStamp <= MAX64 && totalHops <= 255
    {
      Header('i' as int, 0, source, destination, 1000 * timeStamp, roundNumber, totalHops,
             if columns >= 10 then trafficClass else 0, if columns >= 11 then packetSize else 0, checksum, 0, 0,
             statusFlags, pathHash)
    }
  }

  function OldHeaderTokens(o: OldHeader, text: AddressText): (tokens: seq<string>)
    requires 9 <= o.columns <= 11
    ensures |tokens| == o.columns
  {
    ["#T", text.show(o.source), text.show(o.destination), Print(o.timeStamp, 16), Print(o.roundNumber, 10),
     Print(o.checksum, 16),
     Print(o.totalHops, 10), Print(WordNumber(o.statusFlags), 16), Print(Wrap64(o.pathHash), 16),
     Print(o.trafficClass, 16), Print(o.packetSize, 10)][..o.columns]
  }

  function ConvertedHeader(o: OldHeader, text: AddressText): (columns: seq<string>)
    requires 9 <= o.columns <= 11 && 1000 * o.timeStamp <= MAX64
    ensures |columns| == 14
  {
    ["#Ti", "0", text.show(o.source), text.show(o.destination), Print(1000 * o.timeStamp, 16), Print(o.roundNumber, 10),
     Print(o.totalHops, 10), if o.columns >= 10 then Print(o.trafficClass, 16) else "00000000",
     if o.columns >= 11 then Print(o.packetSize, 10) else "0", Print(o.checksum, 16), "0", "0",
     Print(WordNumber(o.statusFlags), 16), Print(Wrap64(o.pathHash), 16)]
  }

  lemma OldHeaderSizes(o: OldHeader, now: int)
    requires o.Printable(now)
    ensures 9 <= o.columns <= 11 && 1000 * o.timeStamp <= MAX64 && OLD_COLUMNS == 11 && TRACEROUTE_COLUMNS == 14
    ensures IsPlausible(Signed64(1000 * o.timeStamp), now) && 1 <= o.totalHops <= 255 && IsInt64(o.pathHash)
  {
  }

  lemma OldHeaderAddresses(o: OldHeader, text: AddressText)
    requires text.Valid()
    ensures IsToken(text.show(o.source)) && IsToken(text.show(o.destination))
    ensures text.read(text.show(o.source)) == Some(o.source)
      && text.read(text.show(o.destination)) == Some(o.destination)
  {
    hide IsToken;
  }

  lemma OldHeaderNumbers(o: OldHeader)
    requires 1 <= o.totalHops <= 255 && IsInt64(o.pathHash)
    ensures IsToken(Print(o.timeStamp, 16)) && IsToken(Print(o.roundNumber, 10)) && IsToken(Print(o.checksum, 16))
    ensures IsToken(Print(o.totalHops, 10)) && IsToken(Print(WordNumber(o.statusFlags), 16))
      && IsToken(Print(Wrap64(o.pathHash), 16))
    ensures IsToken(Print(o.trafficClass, 16)) && IsToken(Print(o.packetSize, 10))
  {
    hide Print, IsToken, Digits, ParseWhole, ParseUnsigned, WordNumber, Wrap64;
    NumberField(o.timeStamp, 16);
    NumberField(o.roundNumber, 10);
    NumberField(o.checksum, 16);
    HopsField(o.totalHops);
    WordField(o.statusFlags, 16);
    HashField(o.pathHash);
    NumberField(o.trafficClass, 16);
    NumberField(o.packetSize, 10);
  }

  lemma OldHeaderColumns(o: OldHeader, text: AddressText, now: int)
    requires text.Valid() && o.Printable(now)
    ensures AreTokens(OldHeaderTokens(o, text))
  {
    OldHeaderNumbers(o);
    OldHeaderAddresses(o, text);
    TwoCharacters();
    hide Print, IsToken, Digits, WordNumber, Wrap64;
  }

  lemma OldHeaderTime(o: OldHeader, text: AddressText, now: int)
    requires text.Valid() && o.Printable(now)
    ensures |Onward(OldHeaderTokens(o, text))| == o.columns
    ensures ColumnNumber(Onward(OldHeaderTokens(o, text))[3], 16) == Some(o.timeStamp)
  {
    OldHeaderColumns(o, text, now);
    var tokens := OldHeaderTokens(o, text);
    assert tokens[3] == Print(o.timeStamp, 16);
    hide OldHeaderTokens, Print, ColumnNumber, AreTokens, Onward, IsPlausible;
    OnwardAt(tokens, 3);
    NumberInColumn(Onward(tokens)[3], o.timeStamp, 16);
  }

  lemma SameHeaderColumns(c: seq<Column>, o: OldHeader, text: AddressText)
    requires 9 <= o.columns <= 11 && 1000 * o.timeStamp <= MAX64 && |c| == o.columns
    requires forall i :: 0 <= i < |c| ==> c[i].text == OldHeaderTokens(o, text)[i]
    ensures NewHeaderColumns(c, 1000 * o.timeStamp) == ConvertedHeader(o, text)
  {
    hide Print, Digits, WordNumber, Wrap64;
    assert c[0].text + "i" == "#Ti";
  }

  lemma HeaderConversionOf(line: string, c: seq<Column>, timeStamp: uint64, before: uint64)
    requires line != [] && line[0] == '#' && c == Columns(line, OLD_COLUMNS) && |c| >= 9 && IsBase(16)
    requires ColumnNumber(c[3], 16) == Some(timeStamp)
    ensures ConvertOldTracerouteLine(line, before)
        == Some((Join(NewHeaderColumns(c, Thousandfold(timeStamp))), Thousandfold(timeStamp)))
  {
    hide Columns, ColumnNumber, NewHeaderColumns, Join, Thousandfold;
  }

  lemma OldHeaderStarts(o: OldHeader, text: AddressText, now: int)
    requires text.Valid() && o.Printable(now)
    ensures var line := Join(OldHeaderTokens(o, text));
      |line| >= 3 && line[..3] == "#T " && line[0] == '#' && line[1] == 'T'
  {
    hide Print, Digits, IsPlausible, Join, WordNumber;
    OldHeaderColumns(o, text, now);
    var tokens := OldHeaderTokens(o, text);
    assert tokens[0] == "#T";
    hide OldHeaderTokens;
    JoinFirst(tokens);
    assert (tokens[0] + Later(tokens))[..3] == "#T ";
  }

  lemma OldHeaderConverts(o: OldHeader, text: AddressText, now: int, before: uint64)
    requires text.Valid() && o.Printable(now)
    ensures 9 <= o.columns <= 11 && 1000 * o.timeStamp <= MAX64
    ensures ConvertOldTracerouteLine(Join(OldHeaderTokens(o, text)), before)
        == Some((Join(ConvertedHeader(o, text)), 1000 * o.timeStamp))
  {
    hide *;
    OldHeaderSizes(o, now);
    TenOrSixteen();
    var tokens := OldHeaderTokens(o, text);
    OldHeaderColumns(o, text, now);
    OldHeaderTime(o, text, now);
    OldHeaderStarts(o, text, now);
    OnwardTexts(tokens);
    ThousandfoldFits(o.timeStamp);
    ColumnsOfJoined(tokens, OLD_COLUMNS);
    SameHeaderColumns(Onward(tokens), o, text);
    HeaderConversionOf(Join(tokens), Onward(tokens), o.timeStamp, before);
  }

  lemma ConvertedHeaderAre(o: OldHeader, text: AddressText)
    requires 9 <= o.columns <= 11 && 1000 * o.timeStamp <= MAX64
    ensures var t := ConvertedHeader(o, text);
      && |t| == 14 && t[0] == "#Ti" && t[1] == "0" && t[2] == text.show(o.source) && t[3] == text.show(o.destination)
      && t[4] == Print(1000 * o.timeStamp, 16) && t[5] == Print(o.roundNumber, 10) && t[6] == Print(o.totalHops, 10)
      && t[7] == (if o.columns >= 10 then Print(o.trafficClass, 16) else "00000000")
      && t[8] == (if o.columns >= 11 then Print(o.packetSize, 10) else "0") && t[9] == Print(o.checksum, 16)
      && t[10] == "0" && t[11] == "0" && t[12] == Print(WordNumber(o.statusFlags), 16)
      && t[13] == Print(Wrap64(o.pathHash), 16)
      && t[14..] == [] && t[0..] == t
  {
    hide Print, Digits, WordNumber, Wrap64;
  }

  lemma ConvertedHeaderTokens(o: OldHeader, text: AddressText, now: int)
    requires text.Valid() && o.Printable(now)
    ensures 9 <= o.columns <= 11 && 1000 * o.timeStamp <= MAX64 && AreTokens(ConvertedHeader(o, text))
  {
    hide *;
    OldHeaderSizes(o, now);
    ThousandfoldFits(o.timeStamp);
    TimeStampToken(1000 * o.timeStamp);
    OldHeaderNumbers(o);
    OldHeaderAddresses(o, text);
    ConstantsRead();
    TwoCharacters();
    NoTokens();
    ConvertedHeaderAre(o, text);
    SevenTokens(ConvertedHeader(o, text), 7);
    SevenTokens(ConvertedHeader(o, text), 0);
  }

  lemma ConvertedHeaderRead(o: OldHeader)
    requires 1 <= o.totalHops <= 255 && IsInt64(o.pathHash)
    ensures ParseUnsigned(Print(o.roundNumber, 10), 10) == Some(o.roundNumber)
      && ParseHops(Print(o.totalHops, 10)) == Some(o.totalHops)
    ensures ParseTrafficClass(if o.columns >= 10 then Print(o.trafficClass, 16) else "00000000")
         == Some(if o.columns >= 10 then o.trafficClass else 0)
    ensures ParseUnsigned(if o.columns >= 11 then Print(o.packetSize, 10) else "0", 10)
        == Some(if o.columns >= 11 then o.packetSize else 0)
    ensures ParseChecksum(Print(o.checksum, 16)) == Some(o.checksum)
    ensures ParseWord(Print(WordNumber(o.statusFlags), 16), 16) == Some(o.statusFlags)
    ensures ParseSigned(Print(Wrap64(o.pathHash), 16), 16) == Some(o.pathHash)
  {
    hide Print, ParseWhole, ParseUnsigned, ParseTrafficClass, ParseChecksum, ParseWord, ParseSigned, ParseHops,
        WordNumber, Wrap64, IsToken;
    NumberField(o.roundNumber, 10);
    HopsField(o.totalHops);
    NumberField(o.packetSize, 10);
    SmallFields(o.trafficClass, o.checksum, 0);
    WordField(o.statusFlags, 16);
    HashField(o.pathHash);
    ConstantsRead();
  }

  lemma HeaderMeaningIs(o: OldHeader)
    requires 1000 * o.timeStamp <= MAX64 && o.totalHops <= 255
    ensures var h := o.Meaning();
      && "#Ti" == "#T" + [h.protocol as char] && h.measurementID == 0 && h.source == o.source
      && h.destination == o.destination
      && h.timeStamp == 1000 * o.timeStamp && h.roundNumber == o.roundNumber && h.totalHops == o.totalHops
      && h.trafficClass == (if o.columns >= 10 then o.trafficClass else 0)
      && h.packetSize == (if o.columns >= 11 then o.packetSize else 0)
      && h.checksum == o.checksum && h.sourcePort == 0 && h.destinationPort == 0
      && h.statusFlags == o.statusFlags && h.pathHash == o.pathHash
  {
    assert ('i' as int) as char == 'i';
  }

  lemma ConvertedHeaderMeans(o: OldHeader, text: AddressText, now: int)
    requires text.Valid() && o.Printable(now)
    ensures 9 <= o.columns <= 11 && 1000 * o.timeStamp <= MAX64 && o.totalHops <= 255 && TRACEROUTE_COLUMNS == 14
    ensures ParseTuple(ConvertedHeader(o, text), text, now) == HeaderLine(o.Meaning())
  {
    hide *;
    OldHeaderSizes(o, now);
    OldHeaderAddresses(o, text);
    ConstantsRead();
    TimeStampRead(1000 * o.timeStamp, now);
    ConvertedHeaderRead(o);
    ConvertedHeaderAre(o, text);
    HeaderMeaningIs(o);
    HeaderOfFields(ConvertedHeader(o, text), o.Meaning(), text, now);
  }

  /** A #T line of version 1 reads as its meaning, and its time stamp is kept for the hop lines. */
  lemma OldHeaderReads(o: OldHeader, text: AddressText, now: int, r: Reading)
    requires text.Valid() && o.Printable(now) && |r.tuple| == TRACEROUTE_COLUMNS
    ensures 9 <= o.columns <= 11 && 1000 * o.timeStamp <= MAX64 && o.totalHops <= 255
    ensures ReadTracerouteLine(Join(OldHeaderTokens(o, text)), r, text, now)
         == (HeaderLine(o.Meaning()), Reading(true, 1000 * o.timeStamp, ConvertedHeader(o, text)))
  {
    hide *;
    OldHeaderSizes(o, now);
    OldHeaderStarts(o, text, now);
    OldHeaderConverts(o, text, now, r.oldTimeStamp);
    ConvertedHeaderTokens(o, text, now);
    ConvertedHeaderMeans(o, text, now);
    ConvertedHeaderAre(o, text);
    SplitJoined(ConvertedHeader(o, text), "", 14);
    NothingBefore(Join(ConvertedHeader(o, text)));
    FullOverlay(ConvertedHeader(o, text), r.tuple);
    ReadsConvertedLine(Join(OldHeaderTokens(o, text)), Join(ConvertedHeader(o, text)), ConvertedHeader(o, text),
                       1000 * o.timeStamp,
                       HeaderLine(o.Meaning()), r, text, now);
  }

  lemma FullOverlay(columns: seq<string>, tuple: seq<string>)
    requires |columns| == |tuple| == 14
    ensures Overlaid(columns, tuple) == columns
  {
  }

  lemma ReadsConvertedLine(line: string, converted: string, columns: seq<string>, stamp: uint64, result: Line,
                           r: Reading,
                           text: AddressText, now: int)
    requires TRACEROUTE_COLUMNS == 14 && |r.tuple| == 14 && 4 <= |columns| <= 14 && Split(converted, 14) == columns
    requires |line| >= 2 && (line[0] != '#' || line[1] == 'T') && (r.version1 || (|line| >= 3 && line[..3] == "#T "))
    requires ConvertOldTracerouteLine(line, r.oldTimeStamp) == Some((converted, stamp))
    requires ParseTuple(Overlaid(columns, r.tuple), text, now) == result
    ensures ReadTracerouteLine(line, r, text, now) == (result, Reading(true, stamp, Overlaid(columns, r.tuple)))
  {
    hide ConvertOldTracerouteLine, Split, ParseTuple, Overlaid;
    assert line[..2][0] == line[0] && line[..2][1] == line[1];
    assert !StartsWith(line, "#?");
  }

  // ----- Hop lines of version 1 -----

  /** A hop of version 1: status in hexadecimal, and no time stamp. The converter wants a space after the tab. */
  datatype OldHop = OldHop(
    hopNumber: nat,
    status: bv32,
    rtt: int,
    address: Address,
    hasTimeSource: bool,
    timeSource: uint32)
  {
    ghost predicate Printable() { 1 <= hopNumber <= 255 && IsInt64(1000 * rtt) }

    function Meaning(timeStamp: uint64): Hop
      requires hopNumber <= 255
    {
      Hop(timeStamp, hopNumber, 0, status, if hasTimeSource then timeSource else 0, -1, -1, -1, 1000 * rtt, -1, -1,
          address)
    }
  }

  function OldHopTokens(o: OldHop, text: AddressText): (tokens: seq<string>)
    ensures |tokens| == if o.hasTimeSource then 6 else 5
  {
    ["\t", Print(o.hopNumber, 10), Print(WordNumber(o.status), 16), PrintSigned(o.rtt), text.show(o.address)]
    + if o.hasTimeSource then [PrintPadded(o.timeSource, 16, 2)] else []
  }

  function ConvertedHop(o: OldHop, timeStamp: uint64, text: AddressText): (columns: seq<string>)
    ensures |columns| == 12
  {
    ["\t" + Print(timeStamp, 16), Print(o.hopNumber, 10), "0", Print(WordNumber(o.status), 10),
     if o.hasTimeSource then PrintPadded(o.timeSource, 16, 2) else "00000000",
     "-1", "-1", "-1", Print(Thousandfold(Wrap64(o.rtt)), 10), "-1", "-1", text.show(o.address)]
  }

  lemma OldHopNumbers(o: OldHop)
    requires 1 <= o.hopNumber <= 255
    ensures IsToken(Print(o.hopNumber, 10)) && IsToken(Print(WordNumber(o.status), 16)) && IsToken(PrintSigned(o.rtt))
    ensures IsToken(PrintPadded(o.timeSource, 16, 2)) && IsToken(Print(WordNumber(o.status), 10))
  {
    hide Print, PrintPadded, PrintSigned, IsToken, Digits, ParseWhole, ParseUnsigned, WordNumber;
    HopsField(o.hopNumber);
    WordField(o.status, 16);
    WordField(o.status, 10);
    SignedIsToken(o.rtt);
    DigitsAreToken(PrintPadded(o.timeSource, 16, 2), 16);
  }

  lemma OldHopAddress(o: OldHop, text: AddressText)
    requires text.Valid()
    ensures IsToken(text.show(o.address)) && text.read(text.show(o.address)) == Some(o.address)
  {
    hide IsToken;
  }

  lemma OldHopColumns(o: OldHop, text: AddressText)
    requires text.Valid() && o.Printable()
    ensures AreTokens(OldHopTokens(o, text))
  {
    OldHopNumbers(o);
    OldHopAddress(o, text);
    TwoCharacters();
    hide Print, PrintPadded, PrintSigned, IsToken, Digits, WordNumber;
  }

  lemma OldHopFields(o: OldHop, text: AddressText)
    requires text.Valid() && o.Printable()
    ensures |Onward(OldHopTokens(o, text))| == if o.hasTimeSource then 6 else 5
    ensures ColumnNumber(Onward(OldHopTokens(o, text))[2], 16) == Some(WordNumber(o.status))
    ensures ColumnNumber(Onward(OldHopTokens(o, text))[3], 10) == Some(Wrap64(o.rtt))
  {
    OldHopColumns(o, text);
    ConvertedTime(o.rtt);
    var tokens := OldHopTokens(o, text);
    assert tokens[2] == Print(WordNumber(o.status), 16) && tokens[3] == PrintSigned(o.rtt);
    hide OldHopTokens, Print, PrintSigned, Wrap64, ColumnNumber, AreTokens, Onward, WordNumber;
    OnwardAt(tokens, 2);
    OnwardAt(tokens, 3);
    NumberInColumn(Onward(tokens)[2], WordNumber(o.status), 16);
    SignedInColumn(Onward(tokens)[3], o.rtt);
  }

  lemma SameHopColumns(c: seq<Column>, o: OldHop, timeStamp: uint64, text: AddressText)
    requires |c| == if o.hasTimeSource then 6 else 5
    requires forall i :: 0 <= i < |c| ==> c[i].text == OldHopTokens(o, text)[i]
    ensures NewHopColumns(c, timeStamp, WordNumber(o.status), Thousandfold(Wrap64(o.rtt)))
        == ConvertedHop(o, timeStamp, text)
  {
    hide Print, PrintSigned, PrintPadded, Digits, Thousandfold, Wrap64, WordNumber;
  }

  lemma HopConversionOf(line: string, c: seq<Column>, status: uint32, rtt: uint64, before: uint64)
    requires line != [] && line[0] == '\t' && c == Columns(line, OLD_COLUMNS) && |c| >= 5 && IsBase(10) && IsBase(16)
    requires ColumnNumber(c[2], 16) == Some(status) && ColumnNumber(c[3], 10) == Some(rtt)
    ensures ConvertOldTracerouteLine(line, before)
        == Some((Join(NewHopColumns(c, before, status, Thousandfold(rtt))), before))
  {
    hide Columns, ColumnNumber, NewHopColumns, Join, Thousandfold;
  }

  lemma OldHopStarts(o: OldHop, text: AddressText)
    requires text.Valid() && o.Printable()
    ensures var line := Join(OldHopTokens(o, text));
      |line| >= 2 && line[0] == '\t' && OldHopTokens(o, text) != [] && OLD_COLUMNS == 11
  {
    hide Print, PrintSigned, PrintPadded, Digits, Join, WordNumber;
    OldHopColumns(o, text);
    var tokens := OldHopTokens(o, text);
    assert tokens[0] == "\t";
    hide OldHopTokens;
    JoinFirst(tokens);
  }

  lemma OldHopConverts(o: OldHop, text: AddressText, timeStamp: uint64)
    requires text.Valid() && o.Printable()
    ensures ConvertOldTracerouteLine(Join(OldHopTokens(o, text)), timeStamp)
        == Some((Join(ConvertedHop(o, timeStamp, text)), timeStamp))
  {
    hide *;
    TenOrSixteen();
    var tokens := OldHopTokens(o, text);
    OldHopColumns(o, text);
    OldHopFields(o, text);
    OldHopStarts(o, text);
    OnwardTexts(tokens);
    ColumnsOfJoined(tokens, OLD_COLUMNS);
    SameHopColumns(Onward(tokens), o, timeStamp, text);
    HopConversionOf(Join(tokens), Onward(tokens), WordNumber(o.status), Wrap64(o.rtt), timeStamp);
  }

  lemma ConvertedHopAre(o: OldHop, timeStamp: uint64, text: AddressText)
    ensures var t := ConvertedHop(o, timeStamp, text);
      && |t| == 12 && t[0] == "\t" + Print(timeStamp, 16) && t[1] == Print(o.hopNumber, 10) && t[2] == "0"
      && t[3] == Print(WordNumber(o.status), 10)
      && t[4] == (if o.hasTimeSource then PrintPadded(o.timeSource, 16, 2) else "00000000")
      && t[5..11] == ["-1", "-1", "-1", Print(Thousandfold(Wrap64(o.rtt)), 10), "-1", "-1"]
      && t[11] == text.show(o.address)
  {
    hide Print, PrintPadded, Digits, Thousandfold, Wrap64, WordNumber;
  }

  lemma ConvertedHopRead(o: OldHop)
    requires 1 <= o.hopNumber <= 255
    ensures ParseHops(Print(o.hopNumber, 10)) == Some(o.hopNumber)
    ensures ParseWord(Print(WordNumber(o.status), 10), 10) == Some(o.status)
    ensures ParseUnsigned(if o.hasTimeSource then PrintPadded(o.timeSource, 16, 2) else "00000000", 16)
         == Some(if o.hasTimeSource then o.timeSource else 0)
  {
    hide Print, PrintPadded, ParseWhole, ParseUnsigned, ParseWord, ParseHops, WordNumber, IsToken;
    HopsField(o.hopNumber);
    WordField(o.status, 10);
    PaddedTwo(o.timeSource);
    ConstantsRead();
  }

  lemma HopMeaningIs(o: OldHop, timeStamp: uint64)
    requires o.Printable()
    ensures 1 <= o.hopNumber <= 255 && IsInt64(1000 * o.rtt)
    ensures var h := o.Meaning(timeStamp);
      && h.sendTimeStamp == timeStamp && h.hopNumber == o.hopNumber && h.responseSize == 0 && h.status == o.status
      && h.timeSource == (if o.hasTimeSource then o.timeSource else 0)
      && HopTimes(h) == [-1, -1, -1, 1000 * o.rtt, -1, -1]
      && h.address == o.address
  {
  }

  /**
   A hop line of version 1 reads as its meaning: the status is decimal now, and the time stamp that of the #T line.
   */
  lemma OldHopReads(o: OldHop, text: AddressText, now: int, r: Reading)
    requires text.Valid() && o.Printable() && |r.tuple| == TRACEROUTE_COLUMNS == 14
    requires r.version1 && IsPlausible(Signed64(r.oldTimeStamp), now)
    ensures o.hopNumber <= 255
    ensures ReadTracerouteLine(Join(OldHopTokens(o, text)), r, text, now)
         == (HopLine(o.Meaning(r.oldTimeStamp)), r.(tuple := Overlaid(ConvertedHop(o, r.oldTimeStamp, text), r.tuple)))
  {
    hide *;
    HopMeaningIs(o, r.oldTimeStamp);
    OldHopStarts(o, text);
    OldHopConverts(o, text, r.oldTimeStamp);
    OldHopNumbers(o);
    OldHopAddress(o, text);
    ConstantsRead();
    ConvertedTime(o.rtt);
    TenOrSixteen();
    OneTimeKnown(Print(Thousandfold(Wrap64(o.rtt)), 10), 1000 * o.rtt);
    TabbedTimeStamp(r.oldTimeStamp, now);
    ConvertedHopRead(o);
    ConvertedHopAre(o, r.oldTimeStamp, text);
    var columns := ConvertedHop(o, r.oldTimeStamp, text);
    TokensAround(columns, 5, 11);
    OverlaidIs(columns, r.tuple);
    HopOfFields(Overlaid(columns, r.tuple), o.Meaning(r.oldTimeStamp), Print(r.oldTimeStamp, 16), text, now);
    SplitJoined(columns, "", 14);
    NothingBefore(Join(columns));
    ReadsConvertedLine(Join(OldHopTokens(o, text)), Join(columns), columns, r.oldTimeStamp,
                       HopLine(o.Meaning(r.oldTimeStamp)), r, text, now);
  }

  // ----- Whole files -----

  function OldHopTexts(hops: seq<OldHop>, text: AddressText): seq<string> {
    if hops == [] then [] else [Join(OldHopTokens(hops[0], text))] + OldHopTexts(hops[1..], text)
  }

  function HopMeanings(hops: seq<OldHop>, timeStamp: uint64): seq<Line>
    requires forall i :: 0 <= i < |hops| ==> hops[i].hopNumber <= 255
  {
    if hops == [] then [] else [HopLine(hops[0].Meaning(timeStamp))] + HopMeanings(hops[1..], timeStamp)
  }

  ghost predicate HopsPrintable(hops: seq<OldHop>) { forall i :: 0 <= i < |hops| ==> hops[i].Printable() }

  lemma HopsSmall(hops: seq<OldHop>)
    requires HopsPrintable(hops)
    ensures forall i :: 0 <= i < |hops| ==> hops[i].hopNumber <= 255
    ensures hops != [] ==> hops[0].Printable() && HopsPrintable(hops[1..])
  {
  }

  lemma ReadFirst(first: string, rest: seq<string>, r: Reading, text: AddressText, now: int, line: Line, next: Reading)
    requires |r.tuple| == TRACEROUTE_COLUMNS && |next.tuple| == TRACEROUTE_COLUMNS && !line.Bad?
    requires ReadTracerouteLine(first, r, text, now) == (line, next)
    ensures ReadFile([first] + rest, r, text, now) == [line] + ReadFile(rest, next, text, now)
  {
    hide ReadTracerouteLine;
    assert ([first] + rest)[1..] == rest;
  }

  lemma {:induction false} OldHopsRead(hops: seq<OldHop>, text: AddressText, now: int, r: Reading)
    requires text.Valid() && HopsPrintable(hops) && |r.tuple| == TRACEROUTE_COLUMNS
    requires r.version1 && IsPlausible(Signed64(r.oldTimeStamp), now)
    ensures forall i :: 0 <= i < |hops| ==> hops[i].hopNumber <= 255
    ensures ReadFile(OldHopTexts(hops, text), r, text, now) == HopMeanings(hops, r.oldTimeStamp)
    decreases |hops|
  {
    HopsSmall(hops);
    hide ReadTracerouteLine, IsPlausible, Signed64, Join, OldHopTokens, HopsPrintable;
    if hops == [] {
    } else {
      OldHopReads(hops[0], text, now, r);
      var next := r.(tuple := Overlaid(ConvertedHop(hops[0], r.oldTimeStamp, text), r.tuple));
      ReadFirst(Join(OldHopTokens(hops[0], text)), OldHopTexts(hops[1..], text), r, text, now,
                HopLine(hops[0].Meaning(r.oldTimeStamp)), next);
      OldHopsRead(hops[1..], text, now, next);
    }
  }

  /** A run of version 1 in a file reads as the #T line and hop lines that it means, all with the run's time stamp. */
  lemma OldRunReads(o: OldHeader, hops: seq<OldHop>, text: AddressText, now: int, r: Reading)
    requires text.Valid() && o.Printable(now) && HopsPrintable(hops) && |r.tuple| == TRACEROUTE_COLUMNS
    ensures 9 <= o.columns <= 11 && 1000 * o.timeStamp <= MAX64 && o.totalHops <= 255
    ensures forall i :: 0 <= i < |hops| ==> hops[i].hopNumber <= 255
    ensures ReadFile([Join(OldHeaderTokens(o, text))] + OldHopTexts(hops, text), r, text, now)
         == [HeaderLine(o.Meaning())] + HopMeanings(hops, 1000 * o.timeStamp)
  {
    OldHeaderSizes(o, now);
    HopsSmall(hops);
    OldHeaderReads(o, text, now, r);
    hide ReadTracerouteLine, ReadFile, Join, OldHeaderTokens, OldHopTexts, HopMeanings;
    var next := Reading(true, 1000 * o.timeStamp, ConvertedHeader(o, text));
    ReadFirst(Join(OldHeaderTokens(o, text)), OldHopTexts(hops, text), r, text, now, HeaderLine(o.Meaning()), next);
    OldHopsRead(hops, text, now, next);
  }

  /** The hop line that documentation and writer have: no space after the tab. */
  function DocumentedOldHop(o: OldHop, text: AddressText): (tokens: seq<string>)
    ensures |tokens| == if o.hasTimeSource then 5 else 4
  {
    ["\t" + Print(o.hopNumber, 10), Print(WordNumber(o.status), 16), PrintSigned(o.rtt), text.show(o.address)]
    + if o.hasTimeSource then [PrintPadded(o.timeSource, 16, 2)] else []
  }

  predicate NumberCharacter(c: char) { DigitValue(c) < 10 || IsSpace(c) || c == '-' || c == '+' }

  lemma {:induction false} NumbersHaveNumberCharacters(s: string, i: nat)
    requires Stoull(s, 10).Some? && i < Stoull(s, 10).value.1 <= |s|
    ensures NumberCharacter(s[i])
  {
    if IsSpace(s[0]) {
      if i > 0 {
        NumbersHaveNumberCharacters(s[1..], i - 1);
      }
    } else {
      var sign := s[0] == '-' || s[0] == '+';
      var body := if sign then s[1..] else s;
      assert body[0..] == body;
      var n := Scan(body, 10);
      if sign {
        if i > 0 {
          assert body[..n][i - 1] == s[i];
        }
      } else {
        assert body[..n][i] == s[i];
      }
    }
  }

  /** Such a line is rejected: with or without a time source, its columns are not where the converter looks. */
  lemma DocumentedOldHopRejected(o: OldHop, text: AddressText, timeStamp: uint64)
    requires text.Valid() && o.Printable() && ('.' in text.show(o.address) || ':' in text.show(o.address))
    ensures ConvertOldTracerouteLine(Join(DocumentedOldHop(o, text)), timeStamp) == None
  {
    OldHopNumbers(o);
    OldHopAddress(o, text);
    TabbedToken(Print(o.hopNumber, 10));
    var tokens := DocumentedOldHop(o, text);
    hide Print, PrintPadded, PrintSigned, WordNumber, Digits, IsToken, Join, Columns, ColumnNumber, Onward;
    assert AreTokens(tokens) && tokens[0][0] == '\t' && tokens[3] == text.show(o.address);
    hide DocumentedOldHop;
    ColumnsOfJoined(tokens, OLD_COLUMNS);
    JoinFirst(tokens);
    assert Join(tokens)[0] == '\t';
    if o.hasTimeSource {
      OnwardAt(tokens, 3);
      AddressIsNoNumber(Onward(tokens)[3]);
    }
  }

  lemma AddressIsNoNumber(c: Column)
    requires '.' in c.text || ':' in c.text
    requires exists rest :: c.onward == c.text + rest && Ends(rest)
    ensures ColumnNumber(c, 10) == None
  {
    var rest :| c.onward == c.text + rest && Ends(rest);
    var i :| 0 <= i < |c.text| && (c.text[i] == '.' || c.text[i] == ':');
    if ColumnNumber(c, 10).Some? {
      hide Stoull;
      assert c.onward[i] == c.text[i];
      NumbersHaveNumberCharacters(c.onward, i);
    }
  }

  // ----- Printed runs of version 2 -----

  function HopTexts(hops: seq<Hop>, text: AddressText): seq<string> {
    if hops == [] then [] else [PrintHop(hops[0], text)] + HopTexts(hops[1..], text)
  }

  function RunTexts(runs: seq<Run>, text: AddressText): seq<string> {
    if runs == [] then []
        else [PrintHeader(runs[0].header, text)] + (HopTexts(runs[0].hops, text) + RunTexts(runs[1..], text))
  }

  ghost predicate RunPrintable(run: Run, now: int) {
    HeaderPrintable(run.header, now) && forall i :: 0 <= i < |run.hops| ==> HopPrintable(run.hops[i], now)
  }

  lemma PrintedHeaderStarts(h: Header, text: AddressText, now: int)
    requires text.Valid() && HeaderPrintable(h, now)
    ensures var line := PrintHeader(h, text); |line| >= 3 && line[0] == '#' && line[1] == 'T' && line[2] != ' '
  {
    HeaderTokens(h, text, now);
    hide Print, Digits, WordNumber, Wrap64, IsPlausible;
    assert HeaderColumns(h, text)[0] == "#T" + [h.protocol as char];
    hide HeaderColumns, Join;
    JoinFirst(HeaderColumns(h, text));
  }

  lemma PrintedHopStarts(h: Hop, text: AddressText, now: int)
    requires text.Valid() && HopPrintable(h, now)
    ensures var line := PrintHop(h, text); line != [] && line[0] == '\t'
  {
    HopTokens(h, text, now);
    hide Print, PrintPadded, Digits, WordNumber, IsPlausible, SignedColumns;
    assert HopColumns(h, text)[0][0] == '\t';
    hide HopColumns, Join;
    JoinFirst(HopColumns(h, text));
  }

  lemma ReadsNewLine(line: string, columns: seq<string>, result: Line, r: Reading, text: AddressText, now: int)
    requires TRACEROUTE_COLUMNS == 14 && |r.tuple| == 14 && 4 <= |columns| <= 14 && Split(line, 14) == columns
    requires !r.version1 && line != [] && (line[0] == '#' ==> |line| >= 3 && line[1] == 'T' && line[2] != ' ')
    requires ParseTuple(Overlaid(columns, r.tuple), text, now) == result
    ensures ReadTracerouteLine(line, r, text, now) == (result, r.(tuple := Overlaid(columns, r.tuple)))
  {
    hide ConvertOldTracerouteLine, Split, ParseTuple, Overlaid;
    assert |line| >= 2 ==> line[..2][0] == line[0] && line[..2][1] == line[1];
    assert |line| >= 3 ==> line[..3][0] == line[0] && line[..3][2] == line[2];
    assert !StartsWith(line, "#?") && !StartsWith(line, "#T ");
  }

  lemma HeaderReads(h: Header, text: AddressText, now: int, r: Reading)
    requires text.Valid() && HeaderPrintable(h, now) && !r.version1 && |r.tuple| == TRACEROUTE_COLUMNS == 14
    ensures ReadTracerouteLine(PrintHeader(h, text), r, text, now)
        == (HeaderLine(h), r.(tuple := HeaderColumns(h, text)))
  {
    hide *;
    HeaderReadsBack(h, text, now);
    PrintedHeaderStarts(h, text, now);
    HeaderColumnsAre(h, text);
    FullOverlay(HeaderColumns(h, text), r.tuple);
    ReadsNewLine(PrintHeader(h, text), HeaderColumns(h, text), HeaderLine(h), r, text, now);
  }

  lemma HopReads(h: Hop, text: AddressText, now: int, r: Reading)
    requires text.Valid() && HopPrintable(h, now) && !r.version1 && |r.tuple| == TRACEROUTE_COLUMNS == 14
    ensures |HopColumns(h, text)| == 12
    ensures ReadTracerouteLine(PrintHop(h, text), r, text, now)
        == (HopLine(h), r.(tuple := Overlaid(HopColumns(h, text), r.tuple)))
  {
    hide *;
    HopReadsBack(h, text, now, r.tuple);
    PrintedHopStarts(h, text, now);
    ReadsNewLine(PrintHop(h, text), HopColumns(h, text), HopLine(h), r, text, now);
  }

  /** From any tuple, the rest of the file reads as the given lines. */
  ghost predicate ReadsAs(rest: seq<string>, r: Reading, text: AddressText, now: int, lines: seq<Line>) {
    forall tuple: seq<string> :: |tuple| == TRACEROUTE_COLUMNS ==>
        ReadFile(rest, Reading(r.version1, r.oldTimeStamp, tuple), text, now) == lines
  }

  lemma ReadsAsHere(rest: seq<string>, r: Reading, text: AddressText, now: int, lines: seq<Line>)
    requires ReadsAs(rest, r, text, now, lines) && |r.tuple| == TRACEROUTE_COLUMNS
    ensures ReadFile(rest, r, text, now) == lines
  {
    hide ReadFile;
    assert Reading(r.version1, r.oldTimeStamp, r.tuple) == r;
  }

  lemma ReadsAsLater(rest: seq<string>, r: Reading, tuple: seq<string>, text: AddressText, now: int, lines: seq<Line>)
    requires ReadsAs(rest, r, text, now, lines)
    ensures ReadsAs(rest, r.(tuple := tuple), text, now, lines)
  {
    hide ReadFile;
  }

  lemma {:induction false} HopsRead(hops: seq<Hop>, rest: seq<string>, text: AddressText, now: int, r: Reading,
                                    lines: seq<Line>)
    requires text.Valid() && (forall i :: 0 <= i < |hops| ==> HopPrintable(hops[i], now)) && !r.version1
    requires |r.tuple| == TRACEROUTE_COLUMNS == 14 && ReadsAs(rest, r, text, now, lines)
    ensures ReadFile(HopTexts(hops, text) + rest, r, text, now) == HopLines(hops) + lines
    decreases |hops|
  {
    hide *;
    if hops == [] {
      ReadsAsHere(rest, r, text, now, lines);
      NoHops(rest, text, lines);
    } else {
      HopReads(hops[0], text, now, r);
      var next := r.(tuple := Overlaid(HopColumns(hops[0], text), r.tuple));
      ReadsAsLater(rest, r, next.tuple, text, now, lines);
      HopsRead(hops[1..], rest, text, now, next, lines);
      ReadFirst(PrintHop(hops[0], text), HopTexts(hops[1..], text) + rest, r, text, now, HopLine(hops[0]), next);
      FirstHop(hops, rest, text, lines);
    }
  }

  lemma NoHops(rest: seq<string>, text: AddressText, lines: seq<Line>)
    ensures HopTexts([], text) + rest == rest && HopLines([]) + lines == lines
  {
  }

  lemma FirstHop(hops: seq<Hop>, rest: seq<string>, text: AddressText, lines: seq<Line>)
    requires hops != []
    ensures HopTexts(hops, text) + rest == [PrintHop(hops[0], text)] + (HopTexts(hops[1..], text) + rest)
    ensures HopLines(hops) + lines == [HopLine(hops[0])] + (HopLines(hops[1..]) + lines)
  {
    hide PrintHop;
    FirstHopLine(hops);
    hide HopLines;
    ConsAppend(PrintHop(hops[0], text), HopTexts(hops[1..], text), rest);
    ConsAppend(HopLine(hops[0]), HopLines(hops[1..]), lines);
  }

  lemma FirstHopLine(hops: seq<Hop>)
    requires hops != []
    ensures HopLines(hops) == [HopLine(hops[0])] + HopLines(hops[1..])
  {
  }

  lemma ConsAppend<T>(x: T, a: seq<T>, b: seq<T>)
    ensures ([x] + a) + b == [x] + (a + b)
  {
  }

  /** The printed lines of any runs are read back as the lines of the runs. */
  lemma {:induction false} PrintedRunsRead(runs: seq<Run>, text: AddressText, now: int, r: Reading)
    requires text.Valid() && (forall i :: 0 <= i < |runs| ==> RunPrintable(runs[i], now)) && !r.version1
    requires |r.tuple| == TRACEROUTE_COLUMNS == 14
    ensures ReadFile(RunTexts(runs, text), r, text, now) == LinesOf(runs)
    decreases |runs|
  {
    hide ReadTracerouteLine, PrintHeader, HeaderPrintable, HopPrintable, ReadFile, HopTexts, HopLines;
    if runs == [] {
      NothingRead(r, text, now);
    } else {
      assert RunPrintable(runs[0], now);
      HeaderReads(runs[0].header, text, now, r);
      var next := r.(tuple := HeaderColumns(runs[0].header, text));
      forall tuple: seq<string> | |tuple| == TRACEROUTE_COLUMNS
        ensures ReadFile(RunTexts(runs[1..], text), Reading(next.version1, next.oldTimeStamp, tuple), text, now)
            == LinesOf(runs[1..])
      {
        PrintedRunsRead(runs[1..], text, now, Reading(next.version1, next.oldTimeStamp, tuple));
      }
      HopsRead(runs[0].hops, RunTexts(runs[1..], text), text, now, next, LinesOf(runs[1..]));
      ReadFirst(PrintHeader(runs[0].header, text), HopTexts(runs[0].hops, text) + RunTexts(runs[1..], text), r, text,
                now,
                HeaderLine(runs[0].header), next);
    }
  }

  lemma NothingRead(r: Reading, text: AddressText, now: int)
    requires |r.tuple| == TRACEROUTE_COLUMNS
    ensures ReadFile([], r, text, now) == []
  {
  }
}
