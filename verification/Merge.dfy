/**
 The results tool: worker threads read files and insert their rows into one ordered set, under a mutex;
 when all have finished without error, the set is printed.
 */
module Merge {
  import opened Words
  import opened Addresses
  import opened Lexicographic
  import opened Sorting

  datatype OutputEntry = OutputEntry(
    measurementID: uint32,
    source: Address,
    destination: Address,
    timeStamp: uint64,
    roundNumber: uint32,
    seqNumber: uint32,
    line: string)

  // ----- The order of entries -----

  predicate AddressLess(a: Address, b: Address) { Less(SortKey(a), SortKey(b)) }

  predicate EntryLess(a: OutputEntry, b: OutputEntry) {
    if a.timeStamp < b.timeStamp then true
    else if a.timeStamp == b.timeStamp then
      if a.measurementID < b.measurementID then true
      else if a.measurementID == b.measurementID then
        if AddressLess(a.source, b.source) then true
        else if a.source == b.source then
          if AddressLess(a.destination, b.destination) then true
          else if a.destination == b.destination then
            if a.roundNumber < b.roundNumber then true
            else if a.roundNumber == b.roundNumber then a.seqNumber < b.seqNumber
            else false
          else false
        else false
      else false
    else false
  }

  function EntryKey(e: OutputEntry): seq<int> {
    [e.timeStamp, e.measurementID] + (SortKey(e.source) + (SortKey(e.destination) + [e.roundNumber, e.seqNumber]))
  }

  lemma AddressLevel(a: Address, x: seq<int>, b: Address, y: seq<int>)
    ensures Less(SortKey(a) + x, SortKey(b) + y) <==> AddressLess(a, b) || (a == b && Less(x, y))
  {
    KeyIsAddress(a, b);
    if a.V4? == b.V4? {
      Levels(SortKey(a), x, SortKey(b), y);
    } else {
      FirstDiffers(SortKey(a) + x, SortKey(b) + y);
      FirstDiffers(SortKey(a), SortKey(b));
    }
  }

  lemma TwoLevels(a: int, a': int, b: int, b': int)
    ensures Less([a, a'], [b, b']) <==> a < b || (a == b && a' < b')
  {
    assert [a, a'] == [a] + [a'] && [b, b'] == [b] + [b'];
    Levels([a], [a'], [b], [b']);
    OneLevel(a, b);
    OneLevel(a', b');
  }

  /** The six levels are the lexicographic order of the keys. */
  lemma EntryOrderIsKeyOrder(a: OutputEntry, b: OutputEntry)
    ensures EntryLess(a, b) <==> Less(EntryKey(a), EntryKey(b))
  {
    hide Less, SortKey;
    var ra, rb := [a.roundNumber as int, a.seqNumber], [b.roundNumber as int, b.seqNumber];
    TwoLevels(a.roundNumber, a.seqNumber, b.roundNumber, b.seqNumber);
    AddressLevel(a.destination, ra, b.destination, rb);
    AddressLevel(a.source, SortKey(a.destination) + ra, b.source, SortKey(b.destination) + rb);
    TwoLevels(a.timeStamp, a.measurementID, b.timeStamp, b.measurementID);
    AddressIrreflexive(a.source);
    AddressIrreflexive(a.destination);
    Levels([a.timeStamp, a.measurementID], SortKey(a.source) + (SortKey(a.destination) + ra),
           [b.timeStamp, b.measurementID], SortKey(b.source) + (SortKey(b.destination) + rb));
    assert [a.timeStamp, a.measurementID] == [b.timeStamp, b.measurementID]
        <==> a.timeStamp == b.timeStamp && a.measurementID == b.measurementID by {
      assert [a.timeStamp, a.measurementID][0] == a.timeStamp && [a.timeStamp, a.measurementID][1] == a.measurementID;
      assert [b.timeStamp, b.measurementID][0] == b.timeStamp && [b.timeStamp, b.measurementID][1] == b.measurementID;
    }
  }

  lemma AddressIrreflexive(a: Address)
    ensures !AddressLess(a, a)
  {
    Irreflexive(SortKey(a));
  }

  /** IPv4 comes before IPv6; within a family the first octet that differs decides. */
  lemma AddressOrder(a: Address, b: Address, i: nat)
    requires a.V4? == b.V4? ==> i < |a.octets| && a.octets[..i] == b.octets[..i] && a.octets[i] != b.octets[i]
    ensures AddressLess(a, b) <==> if a.V4? == b.V4? then a.octets[i] < b.octets[i] else a.V4?
  {
    var x, y := SortKey(a), SortKey(b);
    if a.V4? == b.V4? {
      assert x == x[..i + 1] + x[i + 1..] && y == y[..i + 1] + y[i + 1..];
      assert x[..i + 1] == [x[0]] + a.octets[..i] && y[..i + 1] == [y[0]] + b.octets[..i];
      Irreflexive(x[..i + 1]);
      Levels(x[..i + 1], x[i + 1..], y[..i + 1], y[i + 1..]);
      assert x[i + 1] == a.octets[i] && y[i + 1] == b.octets[i];
      FirstDiffers(x[i + 1..], y[i + 1..]);
    } else {
      FirstDiffers(x, y);
    }
  }

  function ByKey(): OutputEntry -> seq<int> { (e: OutputEntry) => EntryKey(e) }

  /** Entries have the same key exactly if neither is less, which is what the ordered set calls equivalent. */
  lemma SameKeyIsEquivalent(a: OutputEntry, b: OutputEntry)
    ensures EntryKey(a) == EntryKey(b) <==> !EntryLess(a, b) && !EntryLess(b, a)
  {
    EntryOrderIsKeyOrder(a, b);
    EntryOrderIsKeyOrder(b, a);
    hide EntryKey, EntryLess, Less;
    Irreflexive(EntryKey(a));
    Total(EntryKey(a), EntryKey(b));
  }

  // ----- What a worker does with its file -----

  /** A line as the worker sees it; Broken stands for all that makes it give up. */
  datatype InputLine =
    | Ignored
    | PlainRow(entry: OutputEntry)
    | HeaderRow(entry: OutputEntry)
    | TabRow(line: string)
    | Broken

  /** A step under the mutex, or an error. */
  datatype Action = Add(entry: OutputEntry) | Fail

  /** The hop rows of a header get numbers from 1 on; `header` is the last header row, if there is one. */
  function Actions(lines: seq<InputLine>, header: seq<OutputEntry>): seq<Action>
    requires |header| <= 1
  {
    if lines == [] then []
    else
      match lines[0]
      case Ignored => Actions(lines[1..], header)
      case PlainRow(entry) => [Add(entry)] + Actions(lines[1..], [])
      case HeaderRow(entry) => Actions(lines[1..], [entry])
      case TabRow(line) =>
        if header == [] then [Fail]
        else
          var numbered := header[0].(seqNumber := Wrap32(header[0].seqNumber + 1));
          [Add(numbered.(line := numbered.line + " ~ " + line))] + Actions(lines[1..], [numbered])
      case Broken => [Fail]
  }

  function TabRows(tabs: seq<string>): (lines: seq<InputLine>)
    ensures |lines| == |tabs|
  {
    seq(|tabs|, i requires 0 <= i < |tabs| => TabRow(tabs[i]))
  }

  /** The hop rows of one header: its key with the numbers that follow, its line with each hop's. */
  function NumberedRows(header: OutputEntry, tabs: seq<string>): (actions: seq<Action>)
    requires header.seqNumber + |tabs| < 0x1_0000_0000
    ensures |actions| == |tabs|
  {
    seq(|tabs|, i requires 0 <= i < |tabs| =>
          Add(header.(seqNumber := header.seqNumber + 1 + i, line := header.line + " ~ " + tabs[i])))
  }

  /** The worker numbers a header's hop rows from 1 on, so that their keys differ. */
  lemma {:induction false} HopRowsAreNumbered(header: OutputEntry, tabs: seq<string>, rest: seq<InputLine>)
    requires header.seqNumber + |tabs| < 0x1_0000_0000
    ensures Actions(TabRows(tabs) + rest, [header])
         == NumberedRows(header, tabs) + Actions(rest, [header.(seqNumber := header.seqNumber + |tabs|)])
    decreases |tabs|
  {
    hide *;
    if tabs == [] {
      NoTabs(header, tabs, rest);
    } else {
      var next := header.(seqNumber := header.seqNumber + 1);
      var first := Add(next.(line := header.line + " ~ " + tabs[0]));
      var more := TabRows(tabs[1..]) + rest;
      FirstTab(header, tabs, rest);
      TabTaken(header, tabs[0], more);
      HopRowsAreNumbered(next, tabs[1..], rest);
      SameTabs(header, next, |tabs|);
      var a, b := NumberedRows(next, tabs[1..]), Actions(rest, [header.(seqNumber := header.seqNumber + |tabs|)]);
      assert ([first] + a) + b == [first] + (a + b);
    }
  }

  lemma NoTabs(header: OutputEntry, tabs: seq<string>, rest: seq<InputLine>)
    requires tabs == []
    ensures TabRows(tabs) + rest == rest && NumberedRows(header, tabs) == []
    ensures NumberedRows(header, tabs) + Actions(rest, [header.(seqNumber := header.seqNumber + |tabs|)])
         == Actions(rest, [header])
  {
    hide Actions;
    assert header.(seqNumber := header.seqNumber + 0) == header;
  }

  lemma TabTaken(header: OutputEntry, tab: string, more: seq<InputLine>)
    requires header.seqNumber + 1 < 0x1_0000_0000
    ensures var next := header.(seqNumber := header.seqNumber + 1);
      Actions([TabRow(tab)] + more, [header]) == [Add(next.(line := header.line + " ~ " + tab))] + Actions(more, [next])
  {
    assert ([TabRow(tab)] + more)[1..] == more;
  }

  lemma SameTabs(header: OutputEntry, next: OutputEntry, n: nat)
    requires n > 0 && header.seqNumber + n < 0x1_0000_0000 && next == header.(seqNumber := header.seqNumber + 1)
    ensures next.(seqNumber := next.seqNumber + (n - 1)) == header.(seqNumber := header.seqNumber + n)
  {
  }

  lemma FirstTab(header: OutputEntry, tabs: seq<string>, rest: seq<InputLine>)
    requires tabs != [] && header.seqNumber + |tabs| < 0x1_0000_0000
    ensures TabRows(tabs) + rest == [TabRow(tabs[0])] + (TabRows(tabs[1..]) + rest)
    ensures var next := header.(seqNumber := header.seqNumber + 1);
      NumberedRows(header, tabs)
      == [Add(next.(line := header.line + " ~ " + tabs[0]))] + NumberedRows(next, tabs[1..])
  {
  }

  // ----- What a worker makes of a whole file -----

  /** A file's rows: single ones, and groups of a header with its hop rows. */
  datatype Block = Single(entry: OutputEntry) | Group(header: OutputEntry, tabs: seq<string>)

  function BlockLines(blocks: seq<Block>): seq<InputLine> {
    if blocks == [] then []
    else
      (match blocks[0]
       case Single(entry) => [PlainRow(entry)]
       case Group(header, tabs) => [HeaderRow(header)] + TabRows(tabs))
      + BlockLines(blocks[1..])
  }

  ghost predicate BlocksFit(blocks: seq<Block>) {
    forall i :: 0 <= i < |blocks| && blocks[i].Group? ==> blocks[i].header.seqNumber + |blocks[i].tabs| < 0x1_0000_0000
  }

  function BlockActions(blocks: seq<Block>): seq<Action>
    requires BlocksFit(blocks)
  {
    if blocks == [] then []
    else
      assert BlocksFit(blocks[1..]) by {
        assert forall i :: 0 <= i < |blocks[1..]| ==> blocks[1..][i] == blocks[i + 1];
      }
      (match blocks[0]
       case Single(entry) => [Add(entry)]
       case Group(header, tabs) => NumberedRows(header, tabs))
      + BlockActions(blocks[1..])
  }

  /** A worker adds each single row, and each hop row of a header with its number and the joined line; nothing else. */
  lemma {:induction false} FileAdds(blocks: seq<Block>, header: seq<OutputEntry>)
    requires BlocksFit(blocks) && |header| <= 1
    ensures Actions(BlockLines(blocks), header) == BlockActions(blocks)
    decreases |blocks|
  {
    hide NumberedRows, TabRows;
    if blocks == [] {
    } else {
      var more := BlockLines(blocks[1..]);
      assert BlocksFit(blocks[1..]) by {
        assert forall i :: 0 <= i < |blocks[1..]| ==> blocks[1..][i] == blocks[i + 1];
      }
      match blocks[0]
      case Single(entry) =>
        assert BlockLines(blocks)[1..] == more;
        FileAdds(blocks[1..], []);
      case Group(h, tabs) =>
        assert BlockLines(blocks) == [HeaderRow(h)] + (TabRows(tabs) + more);
        assert BlockLines(blocks)[1..] == TabRows(tabs) + more;
        HopRowsAreNumbered(h, tabs, more);
        FileAdds(blocks[1..], [h.(seqNumber := h.seqNumber + |tabs|)]);
    }
  }

  /** No line is broken, and each hop row has a header row before it, without a single row in between. */
  predicate InGroups(lines: seq<InputLine>, open: bool) {
    if lines == [] then true
    else
      match lines[0]
      case Ignored => InGroups(lines[1..], open)
      case PlainRow(_) => InGroups(lines[1..], false)
      case HeaderRow(_) => InGroups(lines[1..], true)
      case TabRow(_) => open && InGroups(lines[1..], open)
      case Broken => false
  }

  predicate OnlyAdds(actions: seq<Action>) { forall i :: 0 <= i < |actions| ==> actions[i].Add? }

  /** Exactly then a worker has no error of its own. */
  lemma {:induction false} WorkerFails(lines: seq<InputLine>, header: seq<OutputEntry>)
    requires |header| <= 1
    ensures InGroups(lines, header != []) <==> OnlyAdds(Actions(lines, header))
    decreases |lines|
  {
    if lines == [] {
    } else {
      match lines[0]
      case Ignored => WorkerFails(lines[1..], header);
      case PlainRow(entry) =>
        WorkerFails(lines[1..], []);
        AddFirst(Actions(lines, header), Actions(lines[1..], []));
      case HeaderRow(entry) => WorkerFails(lines[1..], [entry]);
      case TabRow(line) =>
        if header == [] {
          assert Actions(lines, header)[0] == Fail;
        } else {
          var numbered := header[0].(seqNumber := Wrap32(header[0].seqNumber + 1));
          WorkerFails(lines[1..], [numbered]);
          AddFirst(Actions(lines, header), Actions(lines[1..], [numbered]));
        }
      case Broken => assert Actions(lines, header)[0] == Fail;
    }
  }

  lemma AddFirst(all: seq<Action>, rest: seq<Action>)
    requires all != [] && all[0].Add? && all == [all[0]] + rest
    ensures OnlyAdds(all) <==> OnlyAdds(rest)
  {
    assert forall i :: 0 <= i < |rest| ==> rest[i] == all[i + 1];
  }

  // ----- All workers together -----

  /** What each worker has still to do, the ordered set, and the counters that they share. */
  datatype Pool = Pool(todo: seq<seq<Action>>, entries: seq<OutputEntry>, lastTimeStamp: uint64, errors: nat)

  function Max(a: uint64, b: uint64): uint64 { if a < b then b else a }

  predicate HasKey(entries: seq<OutputEntry>, e: OutputEntry) {
    exists i :: 0 <= i < |entries| && EntryKey(entries[i]) == EntryKey(e)
  }

  /** So the search for an entry with the same key is the set's own. */
  lemma SearchIsTheSets(entries: seq<OutputEntry>, e: OutputEntry)
    ensures HasKey(entries, e)
        <==> exists i :: 0 <= i < |entries| && !EntryLess(entries[i], e) && !EntryLess(e, entries[i])
  {
    hide EntryKey, EntryLess;
    forall i | 0 <= i < |entries|
      ensures EntryKey(entries[i]) == EntryKey(e) <==> !EntryLess(entries[i], e) && !EntryLess(e, entries[i])
    {
      SameKeyIsEquivalent(entries[i], e);
    }
  }

  /** One step of worker w. After an error a worker stops. */
  function Step(p: Pool, w: nat): Pool
    requires w < |p.todo| && p.todo[w] != []
  {
    match p.todo[w][0]
    case Fail => p.(todo := p.todo[w := []], errors := p.errors + 1)
    case Add(e) =>
      var seen := Max(p.lastTimeStamp, e.timeStamp);
      if HasKey(p.entries, e) then p.(todo := p.todo[w := []], lastTimeStamp := seen, errors := p.errors + 1)
      else p.(todo := p.todo[w := p.todo[w][1..]], lastTimeStamp := seen, entries := Insert(e, p.entries, ByKey()))
  }

  predicate Finished(p: Pool) { forall w :: 0 <= w < |p.todo| ==> p.todo[w] == [] }

  /** A schedule: which worker has the next step. */
  ghost predicate Runs(p: Pool, schedule: seq<nat>, p': Pool)
    decreases |schedule|
  {
    if schedule == [] then p' == p
    else schedule[0] < |p.todo| && p.todo[schedule[0]] != [] && Runs(Step(p, schedule[0]), schedule[1..], p')
  }

  // ----- All workers finish -----

  /** How many steps are left at most. */
  function StepsLeft(todo: seq<seq<Action>>): nat {
    if todo == [] then 0 else |todo[0]| + StepsLeft(todo[1..])
  }

  lemma {:induction false} StepsLeftOf(todo: seq<seq<Action>>, w: nat, program: seq<Action>)
    requires w < |todo|
    ensures StepsLeft(todo[w := program]) == StepsLeft(todo) - |todo[w]| + |program|
  {
    if w == 0 {
      assert todo[w := program][1..] == todo[1..];
    } else {
      assert todo[w := program][1..] == todo[1..][w - 1 := program];
      StepsLeftOf(todo[1..], w - 1, program);
    }
  }

  lemma StepLeavesFewer(p: Pool, w: nat)
    requires w < |p.todo| && p.todo[w] != []
    ensures StepsLeft(Step(p, w).todo) < StepsLeft(p.todo)
  {
    hide HasKey, Insert;
    StepsLeftOf(p.todo, w, []);
    StepsLeftOf(p.todo, w, p.todo[w][1..]);
  }

  /** No schedule has more steps than there are actions. */
  lemma {:induction false} SchedulesEnd(p: Pool, schedule: seq<nat>, p': Pool)
    requires Runs(p, schedule, p')
    ensures |schedule| + StepsLeft(p'.todo) <= StepsLeft(p.todo)
    decreases |schedule|
  {
    hide Step;
    if schedule == [] {
    } else {
      StepLeavesFewer(p, schedule[0]);
      SchedulesEnd(Step(p, schedule[0]), schedule[1..], p');
    }
  }

  /** As long as a worker has something to do, some step is possible; so every schedule can be completed. */
  lemma {:induction false} ScheduleCompletes(p: Pool) returns (rest: seq<nat>, end: Pool)
    ensures Runs(p, rest, end) && Finished(end)
    decreases StepsLeft(p.todo)
  {
    hide Step;
    if Finished(p) {
      rest, end := [], p;
    } else {
      var w: nat :| w < |p.todo| && p.todo[w] != [];
      StepLeavesFewer(p, w);
      rest, end := ScheduleCompletes(Step(p, w));
      assert ([w] + rest)[1..] == rest;
      rest := [w] + rest;
    }
  }

  function Begin(programs: seq<seq<Action>>): Pool { Pool(programs, [], 0, 0) }

  /** The rows are printed only if no worker had an error. */
  function Printed(p: Pool): seq<string> {
    if p.errors > 0 then [] else seq(|p.entries|, i requires 0 <= i < |p.entries| => p.entries[i].line)
  }

  // ----- All entries of all programs -----

  function AddedBy(program: seq<Action>): seq<OutputEntry> {
    if program == [] then []
    else if program[0].Add? then [program[0].entry] + AddedBy(program[1..])
    else AddedBy(program[1..])
  }

  function AllEntries(programs: seq<seq<Action>>): seq<OutputEntry> {
    if programs == [] then [] else AddedBy(programs[0]) + AllEntries(programs[1..])
  }

  predicate FailFree(programs: seq<seq<Action>>) {
    forall w, i :: 0 <= w < |programs| && 0 <= i < |programs[w]| ==> programs[w][i].Add?
  }

  lemma {:induction false} AllEntriesOfChange(programs: seq<seq<Action>>, w: nat, e: OutputEntry, program: seq<Action>)
    requires w < |programs| && programs[w] == [Add(e)] + program
    ensures multiset(AllEntries(programs)) == multiset{e} + multiset(AllEntries(programs[w := program]))
  {
    if w == 0 {
      assert programs[w := program][1..] == programs[1..];
      assert programs[0][1..] == program;
    } else {
      assert programs[w := program][1..] == programs[1..][w - 1 := program];
      AllEntriesOfChange(programs[1..], w - 1, e, program);
    }
  }

  lemma {:induction false} NoEntriesLeft(programs: seq<seq<Action>>)
    requires forall w :: 0 <= w < |programs| ==> programs[w] == []
    ensures AllEntries(programs) == []
  {
    if programs == [] {
    } else {
      NoEntriesLeft(programs[1..]);
    }
  }

  // ----- One step -----

  /** So far no error: what is in the set and what is to come are all entries, and the set is in order. */
  ghost predicate OnCourse(p: Pool, all: multiset<OutputEntry>) {
    && p.errors == 0 && multiset(p.entries) + multiset(AllEntries(p.todo)) == all
    && StrictlySorted(p.entries, ByKey())
  }

  ghost predicate KeysDiffer(all: multiset<OutputEntry>) {
    && (forall e :: all[e] <= 1)
    && (forall a, b :: a in all && b in all && EntryKey(a) == EntryKey(b) ==> a == b)
  }

  lemma AddStaysOnCourse(p: Pool, w: nat, all: multiset<OutputEntry>)
    requires w < |p.todo| && p.todo[w] != [] && p.todo[w][0].Add? && OnCourse(p, all)
      && !HasKey(p.entries, p.todo[w][0].entry)
    ensures OnCourse(Step(p, w), all) && Step(p, w).lastTimeStamp == Max(p.lastTimeStamp, p.todo[w][0].entry.timeStamp)
  {
    var e, rest := p.todo[w][0].entry, p.todo[w][1..];
    assert p.todo[w] == [Add(e)] + rest;
    AllEntriesOfChange(p.todo, w, e, rest);
    InsertPermutes(e, p.entries, ByKey());
    hide Less, EntryKey, AllEntries;
    forall i | 0 <= i < |p.entries| ensures ByKey()(p.entries[i]) != ByKey()(e) {
    }
    InsertSorts(e, p.entries, ByKey());
  }

  /** With different keys and no bad line there is no error. */
  lemma NoErrorStep(p: Pool, w: nat, all: multiset<OutputEntry>)
    requires w < |p.todo| && p.todo[w] != [] && OnCourse(p, all) && KeysDiffer(all) && FailFree(p.todo)
    ensures OnCourse(Step(p, w), all) && FailFree(Step(p, w).todo)
  {
    hide EntryKey, AllEntries, HasKey, Insert, StrictlySorted, KeysDiffer;
    var e, rest := p.todo[w][0].entry, p.todo[w][1..];
    assert p.todo[w] == [Add(e)] + rest;
    AllEntriesOfChange(p.todo, w, e, rest);
    assert e in multiset(AllEntries(p.todo));
    KeyIsNew(p.entries, AllEntries(p.todo), e, all);
    AddStaysOnCourse(p, w, all);
  }

  lemma KeyIsNew(entries: seq<OutputEntry>, rest: seq<OutputEntry>, e: OutputEntry, all: multiset<OutputEntry>)
    requires multiset(entries) + multiset(rest) == all && e in rest && KeysDiffer(all)
    ensures !HasKey(entries, e)
  {
    hide EntryKey;
    forall i | 0 <= i < |entries| ensures EntryKey(entries[i]) != EntryKey(e) {
      assert entries[i] in multiset(entries) && e in multiset(rest);
      if entries[i] == e {
        InBoth(entries, rest, e);
      }
    }
  }

  lemma InBoth(a: seq<OutputEntry>, b: seq<OutputEntry>, e: OutputEntry)
    requires e in a && e in b
    ensures (multiset(a) + multiset(b))[e] >= 2
  {
    assert e in multiset(a) && e in multiset(b);
  }

  lemma {:induction false} ErrorsOnlyGrow(p: Pool, schedule: seq<nat>, p': Pool)
    requires Runs(p, schedule, p')
    ensures p'.errors >= p.errors
    decreases |schedule|
  {
    if schedule == [] {
    } else {
      ErrorsOnlyGrow(Step(p, schedule[0]), schedule[1..], p');
    }
  }

  // ----- Whole runs -----

  ghost predicate IsMaximum(m: uint64, all: multiset<OutputEntry>) {
    && (forall e :: e in all ==> e.timeStamp <= m)
    && (m == 0 || exists e :: e in all && e.timeStamp == m)
  }

  /** A run without errors: nothing was bad, no two keys were equal. */
  lemma {:induction false} ErrorFreeRun(p: Pool, schedule: seq<nat>, p': Pool, all: multiset<OutputEntry>)
    requires Runs(p, schedule, p') && OnCourse(p, all) && p'.errors == 0
    requires IsMaximum(p.lastTimeStamp, multiset(p.entries))
    ensures OnCourse(p', all) && IsMaximum(p'.lastTimeStamp, multiset(p'.entries))
    ensures FailFree(p'.todo) ==> FailFree(p.todo)
    decreases |schedule|
  {
    hide OnCourse, HasKey, Insert, ByKey, IsMaximum;
    if schedule == [] {
    } else {
      var w := schedule[0];
      var next := Step(p, w);
      ErrorsOnlyGrow(next, schedule[1..], p');
      NoError(p, all);
      AddStaysOnCourse(p, w, all);
      AddKeepsMaximum(p, w);
      ErrorFreeRun(next, schedule[1..], p', all);
      if FailFree(next.todo) {
        FailFreeBefore(p.todo, w);
      }
    }
  }

  lemma NoError(p: Pool, all: multiset<OutputEntry>)
    requires OnCourse(p, all)
    ensures p.errors == 0
  {
  }

  lemma FailFreeBefore(todo: seq<seq<Action>>, w: nat)
    requires w < |todo| && todo[w] != [] && todo[w][0].Add? && FailFree(todo[w := todo[w][1..]])
    ensures FailFree(todo)
  {
    var next := todo[w := todo[w][1..]];
    forall v, i | 0 <= v < |todo| && 0 <= i < |todo[v]| ensures todo[v][i].Add? {
      if v == w {
        if i > 0 {
          assert next[w][i - 1] == todo[w][i];
        }
      } else {
        assert next[v][i] == todo[v][i];
      }
    }
  }

  lemma AddKeepsMaximum(p: Pool, w: nat)
    requires w < |p.todo| && p.todo[w] != [] && p.todo[w][0].Add? && !HasKey(p.entries, p.todo[w][0].entry)
    requires IsMaximum(p.lastTimeStamp, multiset(p.entries))
    ensures IsMaximum(Step(p, w).lastTimeStamp, multiset(Step(p, w).entries))
  {
    var e := p.todo[w][0].entry;
    InsertPermutes(e, p.entries, ByKey());
    hide Insert, ByKey;
    assert multiset([e]) == multiset{e};
    var all, all' := multiset(p.entries), multiset(Step(p, w).entries);
    assert all' == multiset{e} + all;
    if p.lastTimeStamp < e.timeStamp {
      assert e in all';
    }
  }

  lemma {:induction false} SafeRun(p: Pool, schedule: seq<nat>, p': Pool, all: multiset<OutputEntry>)
    requires Runs(p, schedule, p') && OnCourse(p, all) && KeysDiffer(all) && FailFree(p.todo)
    ensures p'.errors == 0
    decreases |schedule|
  {
    hide OnCourse, KeysDiffer, FailFree, Step;
    if schedule == [] {
      NoError(p, all);
    } else {
      NoErrorStep(p, schedule[0], all);
      SafeRun(Step(p, schedule[0]), schedule[1..], p', all);
    }
  }

  // ----- Main results -----

  lemma BeginOnCourse(programs: seq<seq<Action>>)
    ensures OnCourse(Begin(programs), multiset(AllEntries(programs))) && IsMaximum(0, multiset(Begin(programs).entries))
  {
    hide AllEntries;
  }

  lemma SortedKeysDiffer(entries: seq<OutputEntry>)
    requires StrictlySorted(entries, ByKey())
    ensures KeysDiffer(multiset(entries))
  {
    hide EntryKey, Less;
    forall i, j | 0 <= i < j < |entries| ensures EntryKey(entries[i]) != EntryKey(entries[j]) {
      assert Less(ByKey()(entries[i]), ByKey()(entries[j]));
      Irreflexive(ByKey()(entries[i]));
    }
    DifferentElements(entries);
    forall a, b | a in multiset(entries) && b in multiset(entries) && EntryKey(a) == EntryKey(b) ensures a == b {
      var i :| 0 <= i < |entries| && entries[i] == a;
      var j :| 0 <= j < |entries| && entries[j] == b;
    }
  }

  lemma {:induction false} DifferentElements(s: seq<OutputEntry>)
    requires forall i, j :: 0 <= i < j < |s| ==> EntryKey(s[i]) != EntryKey(s[j])
    ensures forall e :: multiset(s)[e] <= 1
  {
    hide EntryKey;
    if s == [] {
    } else {
      RestDiffers(s);
      DifferentElements(s[1..]);
      assert s == [s[0]] + s[1..];
    }
  }

  lemma RestDiffers(s: seq<OutputEntry>)
    requires s != [] && forall i, j :: 0 <= i < j < |s| ==> EntryKey(s[i]) != EntryKey(s[j])
    ensures forall i, j :: 0 <= i < j < |s[1..]| ==> EntryKey(s[1..][i]) != EntryKey(s[1..][j])
    ensures s[0] !in multiset(s[1..])
  {
    hide EntryKey;
    forall i | 0 <= i < |s[1..]| ensures s[1..][i] != s[0] {
      assert s[1..][i] == s[i + 1];
    }
    assert s[0] !in s[1..];
  }

  /**
   Under every schedule the same happens: there is no error exactly if no line is bad and all keys
   differ. Then the rows of all files are printed, each once, in strictly increasing order of their keys, and
   the last time stamp is the maximum. Otherwise nothing is printed.
   */
  lemma EveryScheduleMerges(programs: seq<seq<Action>>, schedule: seq<nat>, end: Pool)
    requires Runs(Begin(programs), schedule, end) && Finished(end)
    ensures end.errors == 0 <==> FailFree(programs) && KeysDiffer(multiset(AllEntries(programs)))
    ensures end.errors == 0 ==>
      && end.entries == Sort(AllEntries(programs), ByKey()) && StrictlySorted(end.entries, ByKey())
      && multiset(end.entries) == multiset(AllEntries(programs))
      && IsMaximum(end.lastTimeStamp, multiset(AllEntries(programs)))
    ensures end.errors == 0 ==>
      && |Printed(end)| == |end.entries|
      && forall i :: 0 <= i < |end.entries| ==> Printed(end)[i] == end.entries[i].line
    ensures end.errors > 0 ==> Printed(end) == []
  {
    var start, all := Begin(programs), multiset(AllEntries(programs));
    BeginOnCourse(programs);
    if FailFree(programs) && KeysDiffer(all) {
      SafeRun(start, schedule, end, all);
    }
    if end.errors == 0 {
      ErrorFreeRun(start, schedule, end, all);
      NoEntriesLeft(end.todo);
      SortedKeysDiffer(end.entries);
      SameAsSorted(end.entries, AllEntries(programs));
    }
  }

  lemma SameAsSorted(entries: seq<OutputEntry>, all: seq<OutputEntry>)
    requires StrictlySorted(entries, ByKey()) && multiset(entries) == multiset(all)
    ensures entries == Sort(all, ByKey())
  {
    SortedKeysDiffer(entries);
    DistinctInAnyOrder(all);
    SortPermutes(all, ByKey());
    SortSorts(all, ByKey());
    StrictIsSorted(entries);
    hide Less, EntryKey, Sort;
    SortedIsUnique(Sort(all, ByKey()), entries, ByKey());
  }

  lemma StrictIsSorted(entries: seq<OutputEntry>)
    requires StrictlySorted(entries, ByKey())
    ensures Sorted(entries, ByKey())
  {
    forall i, j | 0 <= i < j < |entries| ensures !Less(ByKey()(entries[j]), ByKey()(entries[i])) {
      Asymmetric(ByKey()(entries[i]), ByKey()(entries[j]));
    }
  }

  lemma DistinctInAnyOrder(s: seq<OutputEntry>)
    requires KeysDiffer(multiset(s))
    ensures DistinctKeys(s, ByKey())
  {
    hide EntryKey;
    forall i, j | 0 <= i < j < |s| ensures ByKey()(s[i]) != ByKey()(s[j]) {
      assert s[i] in multiset(s) && s[j] in multiset(s);
      if s[i] == s[j] {
        TwiceIn(s, i, j);
      }
    }
  }

  lemma TwiceIn(s: seq<OutputEntry>, i: nat, j: nat)
    requires i < j < |s| && s[i] == s[j]
    ensures multiset(s)[s[i]] >= 2
  {
    WithoutOne(s, j);
    assert (s[..j] + s[j + 1..])[i] == s[i];
    assert s[i] in multiset(s[..j] + s[j + 1..]);
  }
}
