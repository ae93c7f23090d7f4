/**
 Writing results files: each is written under a temporary name, and gets its final name only when it has
 been closed without error. The state, its steps, and what holds of the disk in every run.
 */
module ResultsFiles {
  import opened Wrappers

  /** The files of one writer differ by sequence number; `.tmp` marks the temporary name. */
  datatype Name = Final(number: nat) | Temporary(number: nat)

  /** What is on disk: a file that is being written, or all lines of a stream that was flushed. */
  datatype Content = Partial | Complete(lines: seq<string>)

  type Disk = map<Name, Content>

  /** `attached`: there is an open file. `failed`: a write or flush has failed since the file was opened. */
  datatype Stream = Stream(target: Option<nat>, attached: bool, failed: bool, written: seq<string>)

  function NoStream(): Stream { Stream(None, false, false, []) }

  // ----- OutputStream -----

  /** Everything written has arrived. */
  function Synchronised(stream: Stream, flushed: bool): bool { stream.attached && !stream.failed && flushed }

  /** `moved`: the rename or the removal of the temporary file works. */
  function CloseSucceeds(stream: Stream, flushed: bool, moved: bool): bool { Synchronised(stream, flushed) && moved }

  function WithoutTarget(disk: Disk, stream: Stream): Disk {
    if stream.target.Some? then disk - {Temporary(stream.target.value)} else disk
  }

  /** The temporary file gets its final name. */
  function Renamed(disk: Disk, stream: Stream): Disk {
    if stream.target.Some?
        then (disk - {Temporary(stream.target.value)})[Final(stream.target.value) := Complete(stream.written)]
    else disk
  }

  /** The rename fails: all is written, under the temporary name. */
  function NotRenamed(disk: Disk, stream: Stream): Disk {
    if stream.target.Some? then disk[Temporary(stream.target.value) := Complete(stream.written)] else disk
  }

  /** The file is closed, and its name is kept. */
  function Detached(stream: Stream): Stream { Stream(stream.target, false, false, []) }

  /**
   Disk and stream after closeStream(), and whether it throws: with sync, a failed synchronisation is thrown
   before anything else, and a failed rename or removal after the file is closed.
   */
  function CloseStream(disk: Disk, stream: Stream, sync: bool, flushed: bool, moved: bool): (Disk, Stream, bool) {
    if sync && !Synchronised(stream, flushed) then (disk, stream.(failed := stream.failed || stream.attached), true)
    else if stream.target.Some? && !moved then (if sync then NotRenamed(disk, stream) else disk, Detached(stream), true)
    else (if sync then Renamed(disk, stream) else WithoutTarget(disk, stream), NoStream(), false)
  }

  /**
   Disk and stream after openStream(). A stream that is open is closed without synchronisation first. `cleaned`:
   removing what it leaves works; `freed`: removing an existing output file works; `opens`: creating the file works.
   */
  function OpenStream(disk: Disk, stream: Stream, number: nat, cleaned: bool, freed: bool, opens: bool): (Disk, Stream,
      bool) {
    var (disk', stream', thrown) := CloseStream(disk, stream, false, false, cleaned);
    if thrown then (disk', stream', true)
    else if !freed then (disk', Stream(Some(number), false, false, []), true)
    else if !opens then (disk' - {Final(number)}, Stream(Some(number), false, false, []), true)
    else ((disk' - {Final(number)})[Temporary(number) := Partial], Stream(Some(number), true, false, []), false)
  }

  function Write(stream: Stream, lines: seq<string>, works: bool): Stream {
    if !stream.attached then stream
    else if stream.failed || !works then stream.(failed := true)
    else stream.(written := stream.written + lines)
  }

  // ----- ResultsWriter -----

  /** `history` are the tuples inserted under each sequence number, which the program does not keep. */
  datatype State = State(disk: Disk, stream: Stream, inserts: nat, seqNumber: nat, history: seq<seq<string>>)

  function Start(): State { State(map[], NoStream(), 0, 0, [[]]) }

  /** The lines of a file with these tuples. A header is written if an output format is set. */
  function FileLines(header: seq<string>, tuples: seq<string>): seq<string> {
    if tuples == [] then [] else header + tuples
  }

  function Inserted(s: State, header: seq<string>, tuple: string, works: bool): State
    requires s.history != []
  {
    var last := |s.history| - 1;
    s.(stream := Write(s.stream, (if s.inserts == 0 then header else []) + [tuple], works),
       inserts := s.inserts + 1,
       history := s.history[last := s.history[last] + [tuple]])
  }

  /** What the environment does in a change of files: for closing the old one, and for opening the new one. */
  datatype Change = Change(createNewFile: bool, flushed: bool, moved: bool, directoryExists: bool, cleaned: bool,
                           freed: bool, opens: bool)

  function Changed(s: State, c: Change): State {
    var (disk, stream, _) := CloseStream(s.disk, s.stream, s.inserts > 0, c.flushed, c.moved);
    var number := s.seqNumber + 1;
    if c.createNewFile && c.directoryExists then
      var (disk', stream', _) := OpenStream(disk, stream, number, c.cleaned, c.freed, c.opens);
      State(disk', stream', 0, number, s.history + [[]])
    else State(disk, stream, 0, number, s.history + [[]])
  }

  /** The writer's destructor closes the file and opens none. */
  function LastChange(flushed: bool, moved: bool): Change { Change(false, flushed, moved, true, true, true, true) }

  /** The destructors of writer and stream; the latter closes again. */
  function Destroyed(s: State, flushed: bool, moved: bool, removed: bool): State {
    var changed := Changed(s, LastChange(flushed, moved));
    var (disk, stream, _) := CloseStream(changed.disk, changed.stream, false, false, removed);
    changed.(disk := disk, stream := stream)
  }

  datatype Event = Insert(tuple: string, works: bool) | ChangeFile(change: Change) | Destroy(flushed: bool,
      moved: bool, removed: bool)

  function Step(s: State, header: seq<string>, event: Event): State
    requires s.history != []
  {
    match event
    case Insert(tuple, works) => Inserted(s, header, tuple, works)
    case ChangeFile(c) => Changed(s, c)
    case Destroy(flushed, moved, removed) => Destroyed(s, flushed, moved, removed)
  }

  // ----- Invariant -----

  /** A file with a final name is complete and has the tuples of its number, at least one. */
  ghost predicate FinalsComplete(disk: Disk, seqNumber: nat, history: seq<seq<string>>, header: seq<string>) {
    forall n: nat :: Final(n) in disk ==>
      n < seqNumber < |history| && history[n] != [] && disk[Final(n)] == Complete(FileLines(header, history[n]))
  }

  /** The only temporary file is the stream's. */
  ghost predicate TemporariesOwned(disk: Disk, stream: Stream) {
    forall n: nat :: Temporary(n) in disk ==> stream.target == Some(n)
  }

  /** A temporary file that is complete, since its rename failed, has the tuples of its number. */
  ghost predicate LeftoversComplete(disk: Disk, seqNumber: nat, history: seq<seq<string>>, header: seq<string>) {
    forall n: nat :: Temporary(n) in disk && disk[Temporary(n)].Complete? ==>
      n < seqNumber < |history| && history[n] != [] && disk[Temporary(n)] == Complete(FileLines(header, history[n]))
  }

  /** The stream's file is not published; unless something failed, it has the tuples inserted so far. */
  ghost predicate StreamCurrent(s: State, header: seq<string>) {
    && (s.stream.attached ==> s.stream.target.Some? && Temporary(s.stream.target.value) in s.disk)
    && (s.stream.target.Some? ==> s.stream.target.value <= s.seqNumber && Final(s.stream.target.value) !in s.disk)
    && (s.stream.attached && !s.stream.failed ==>
          s.seqNumber < |s.history| && s.stream.target == Some(s.seqNumber)
            && s.stream.written == FileLines(header, s.history[s.seqNumber]))
  }

  ghost predicate Invariant(s: State, header: seq<string>) {
    && |s.history| == s.seqNumber + 1 && s.inserts == |s.history[s.seqNumber]|
    && FinalsComplete(s.disk, s.seqNumber, s.history, header) && TemporariesOwned(s.disk, s.stream)
    && LeftoversComplete(s.disk, s.seqNumber, s.history, header) && StreamCurrent(s, header)
  }

  lemma InsertKeeps(s: State, header: seq<string>, tuple: string, works: bool)
    requires Invariant(s, header)
    ensures Invariant(Inserted(s, header, tuple, works), header)
  {
    var tuples := s.history[s.seqNumber];
    assert FileLines(header, tuples) + ((if s.inserts == 0 then header else []) + [tuple])
        == FileLines(header, tuples + [tuple]);
  }

  /** Where the close succeeds, the tuples of the current number are published; all else stays as it is. */
  lemma ClosePublishes(s: State, header: seq<string>, flushed: bool, moved: bool)
    requires Invariant(s, header)
    ensures var (disk, stream, thrown) := CloseStream(s.disk, s.stream, s.inserts > 0, flushed, moved);
      && (s.inserts > 0 && CloseSucceeds(s.stream, flushed, moved) ==>
            Final(s.seqNumber) in disk
              && disk[Final(s.seqNumber)] == Complete(FileLines(header, s.history[s.seqNumber])))
      && (!(s.inserts > 0 && CloseSucceeds(s.stream, flushed, moved)) ==> Final(s.seqNumber) !in disk)
      && (forall n: nat :: n != s.seqNumber ==> (Final(n) in disk <==> Final(n) in s.disk))
      && (forall n: nat :: n != s.seqNumber && Final(n) in disk ==> disk[Final(n)] == s.disk[Final(n)])
      && TemporariesOwned(disk, stream)
      && (stream.attached ==> stream.failed && stream.target.Some? && Temporary(stream.target.value) in disk)
      && (stream.target.Some? ==> stream.target.value <= s.seqNumber && Final(stream.target.value) !in disk)
      && (s.inserts > 0 ==> (thrown <==> !CloseSucceeds(s.stream, flushed, moved)))
  {
  }

  /** What a close leaves under a temporary name: what was there, or the whole file if its rename fails. */
  lemma CloseLeaves(s: State, header: seq<string>, flushed: bool, moved: bool)
    requires Invariant(s, header)
    ensures LeftoversComplete(CloseStream(s.disk, s.stream, s.inserts > 0, flushed, moved).0, s.seqNumber + 1,
                              s.history + [[]], header)
  {
    hide FileLines, FinalsComplete, TemporariesOwned;
  }

  lemma FinalsGrow(disk: Disk, disk': Disk, seqNumber: nat, history: seq<seq<string>>, header: seq<string>)
    requires |history| == seqNumber + 1 && FinalsComplete(disk, seqNumber, history, header)
    requires Final(seqNumber) in disk' ==>
        history[seqNumber] != [] && disk'[Final(seqNumber)] == Complete(FileLines(header, history[seqNumber]))
    requires forall n: nat :: n != seqNumber && Final(n) in disk' ==>
        Final(n) in disk && disk'[Final(n)] == disk[Final(n)]
    ensures FinalsComplete(disk', seqNumber + 1, history + [[]], header)
  {
    hide FileLines;
  }

  lemma ChangeKeeps(s: State, header: seq<string>, c: Change)
    requires Invariant(s, header)
    ensures Invariant(Changed(s, c), header)
  {
    ClosePublishes(s, header, c.flushed, c.moved);
    CloseLeaves(s, header, c.flushed, c.moved);
    var (disk, stream, _) := CloseStream(s.disk, s.stream, s.inserts > 0, c.flushed, c.moved);
    hide CloseSucceeds, CloseStream, OpenStream, FileLines, LeftoversComplete;
    FinalsGrow(s.disk, disk, s.seqNumber, s.history, header);
    if c.createNewFile && c.directoryExists {
      OpenKeeps(disk, stream, s.seqNumber + 1, c, s.history + [[]], header);
    }
  }

  lemma OpenKeeps(disk: Disk, stream: Stream, number: nat, c: Change, history: seq<seq<string>>, header: seq<string>)
    requires |history| == number + 1 && history[number] == []
    requires FinalsComplete(disk, number, history, header) && TemporariesOwned(disk, stream)
    requires LeftoversComplete(disk, number, history, header)
    requires stream.target.Some? ==> stream.target.value <= number && Final(stream.target.value) !in disk
    ensures var (disk', stream', _) := OpenStream(disk, stream, number, c.cleaned, c.freed, c.opens);
      Invariant(State(disk', stream', 0, number, history), header)
  {
    CleaningKeeps(disk, stream, number, c.cleaned, history, header);
    var (disk', stream', thrown) := CloseStream(disk, stream, false, false, c.cleaned);
    hide CloseStream;
  }

  lemma CleaningKeeps(disk: Disk, stream: Stream, number: nat, cleaned: bool, history: seq<seq<string>>,
                      header: seq<string>)
    requires FinalsComplete(disk, number, history, header) && TemporariesOwned(disk, stream)
    requires LeftoversComplete(disk, number, history, header)
    ensures var (disk', stream', thrown) := CloseStream(disk, stream, false, false, cleaned);
      && FinalsComplete(disk', number, history, header) && TemporariesOwned(disk', stream')
      && LeftoversComplete(disk', number, history, header)
      && stream' == (if thrown then Detached(stream) else NoStream()) && (thrown ==> disk' == disk)
      && (thrown <==> stream.target.Some? && !cleaned)
  {
    hide FileLines;
  }

  lemma DestroyKeeps(s: State, header: seq<string>, flushed: bool, moved: bool, removed: bool)
    requires Invariant(s, header)
    ensures Invariant(Destroyed(s, flushed, moved, removed), header)
    ensures removed ==> forall n: nat :: Temporary(n) !in Destroyed(s, flushed, moved, removed).disk
  {
    ChangeKeeps(s, header, LastChange(flushed, moved));
    hide Changed, FileLines;
    var changed := Changed(s, LastChange(flushed, moved));
    CleaningKeeps(changed.disk, changed.stream, changed.seqNumber, removed, changed.history, header);
  }

  lemma StepKeeps(s: State, header: seq<string>, event: Event)
    requires Invariant(s, header)
    ensures Invariant(Step(s, header, event), header)
  {
    hide Invariant;
    match event
    case Insert(tuple, works) => InsertKeeps(s, header, tuple, works);
    case ChangeFile(c) => ChangeKeeps(s, header, c);
    case Destroy(flushed, moved, removed) => DestroyKeeps(s, header, flushed, moved, removed);
  }

  // ----- Whole runs -----

  ghost function End(s: State, header: seq<string>, events: seq<Event>): State
    requires Invariant(s, header)
    decreases |events|
  {
    if events == [] then s
    else
      StepKeeps(s, header, events[0]);
      End(Step(s, header, events[0]), header, events[1..])
  }

  /** The tuples of the numbers whose close succeeds, in the order in which they are closed. */
  ghost function Delivered(s: State, header: seq<string>, events: seq<Event>): seq<string>
    requires Invariant(s, header)
    decreases |events|
  {
    if events == [] then []
    else
      StepKeeps(s, header, events[0]);
      DeliveredBy(s, events[0]) + Delivered(Step(s, header, events[0]), header, events[1..])
  }

  function DeliveredBy(s: State, event: Event): seq<string>
    requires s.history != []
  {
    var closed := match event
                  case Insert(_, _) => false
                  case ChangeFile(c) => s.inserts > 0 && CloseSucceeds(s.stream, c.flushed, c.moved)
                  case Destroy(flushed, moved, _) => s.inserts > 0 && CloseSucceeds(s.stream, flushed, moved);
    if closed then s.history[|s.history| - 1] else []
  }

  /** The tuples in the file with final name number n: all lines but the header. */
  function TuplesIn(disk: Disk, n: nat, header: seq<string>): seq<string> {
    if Final(n) in disk && disk[Final(n)].Complete? && |header| <= |disk[Final(n)].lines|
        then disk[Final(n)].lines[|header|..]
    else []
  }

  /** All published tuples, file after file. */
  function Published(disk: Disk, upTo: nat, header: seq<string>): seq<string> {
    if upTo == 0 then [] else Published(disk, upTo - 1, header) + TuplesIn(disk, upTo - 1, header)
  }

  lemma {:induction false} PublishedStays(disk: Disk, disk': Disk, upTo: nat, header: seq<string>)
    requires forall n: nat :: n < upTo ==> (Final(n) in disk <==> Final(n) in disk')
    requires forall n: nat :: n < upTo && Final(n) in disk ==> disk[Final(n)] == disk'[Final(n)]
    ensures Published(disk, upTo, header) == Published(disk', upTo, header)
  {
    if upTo == 0 {
    } else {
      PublishedStays(disk, disk', upTo - 1, header);
    }
  }

  lemma CloseDelivers(s: State, header: seq<string>, flushed: bool, moved: bool, disk': Disk)
    requires Invariant(s, header)
    requires var (disk, _, _) := CloseStream(s.disk, s.stream, s.inserts > 0, flushed, moved);
      && (forall n: nat :: n <= s.seqNumber ==> (Final(n) in disk <==> Final(n) in disk'))
      && (forall n: nat :: n <= s.seqNumber && Final(n) in disk ==> disk[Final(n)] == disk'[Final(n)])
    ensures Published(disk', s.seqNumber + 1, header)
         == Published(s.disk, s.seqNumber, header)
          + if s.inserts > 0 && CloseSucceeds(s.stream, flushed, moved) then s.history[s.seqNumber] else []
  {
    ClosePublishes(s, header, flushed, moved);
    hide CloseStream, CloseSucceeds, FinalsComplete, StreamCurrent, TemporariesOwned, LeftoversComplete;
    PublishedStays(s.disk, disk', s.seqNumber, header);
    assert (header + s.history[s.seqNumber])[|header|..] == s.history[s.seqNumber];
  }

  lemma ChangeDelivers(s: State, header: seq<string>, c: Change)
    requires Invariant(s, header)
    ensures Published(Changed(s, c).disk, s.seqNumber + 1, header)
         == Published(s.disk, s.seqNumber, header)
          + if s.inserts > 0 && CloseSucceeds(s.stream, c.flushed, c.moved) then s.history[s.seqNumber] else []
  {
    OpeningKeepsFinals(s, c);
    CloseDelivers(s, header, c.flushed, c.moved, Changed(s, c).disk);
  }

  /** Opening the next file does not touch any file with a final name and an earlier number. */
  lemma OpeningKeepsFinals(s: State, c: Change)
    ensures var disk := CloseStream(s.disk, s.stream, s.inserts > 0, c.flushed, c.moved).0;
      var disk' := Changed(s, c).disk;
      && (forall n: nat :: n <= s.seqNumber ==> (Final(n) in disk <==> Final(n) in disk'))
      && (forall n: nat :: n <= s.seqNumber && Final(n) in disk ==> disk[Final(n)] == disk'[Final(n)])
  {
  }

  lemma StepDelivers(s: State, header: seq<string>, event: Event)
    requires Invariant(s, header)
    ensures var s' := Step(s, header, event);
            Published(s'.disk, s'.seqNumber, header) == Published(s.disk, s.seqNumber, header) + DeliveredBy(s, event)
  {
    hide FinalsComplete, StreamCurrent, TemporariesOwned, LeftoversComplete, CloseSucceeds;
    match event
    case Insert(tuple, works) => assert Published(s.disk, s.seqNumber, header) + []
        == Published(s.disk, s.seqNumber, header);
    case ChangeFile(c) => ChangeDelivers(s, header, c);
    case Destroy(flushed, moved, removed) =>
      ChangeDelivers(s, header, LastChange(flushed, moved));
      hide Changed;
      var changed := Changed(s, LastChange(flushed, moved));
      PublishedStays(changed.disk, Destroyed(s, flushed, moved, removed).disk, s.seqNumber + 1, header);
  }

  lemma HasHistory(s: State, header: seq<string>)
    requires Invariant(s, header)
    ensures s.history != []
  {
  }

  /**
   After any run, the published files, in the order of their numbers, hold exactly the tuples inserted
   under the numbers whose close succeeded, in the order of insertion. Each is complete and has tuples.
   */
  lemma {:induction false} RunDelivers(s: State, header: seq<string>, events: seq<Event>)
    requires Invariant(s, header)
    ensures var s' := End(s, header, events);
      && Invariant(s', header)
      && Published(s'.disk, s'.seqNumber, header) == Published(s.disk, s.seqNumber, header)
          + Delivered(s, header, events)
    decreases |events|
  {
    HasHistory(s, header);
    hide Invariant, Published, DeliveredBy, Step;
    if events == [] {
      assert Published(s.disk, s.seqNumber, header) + [] == Published(s.disk, s.seqNumber, header);
    } else {
      StepKeeps(s, header, events[0]);
      StepDelivers(s, header, events[0]);
      RunDelivers(Step(s, header, events[0]), header, events[1..]);
    }
  }

  lemma StartKeeps(header: seq<string>)
    ensures Invariant(Start(), header) && Published(Start().disk, 0, header) == []
  {
  }

  /** A published file is never changed or removed. */
  lemma {:induction false} PublishedForever(s: State, header: seq<string>, events: seq<Event>, n: nat)
    requires Invariant(s, header) && Final(n) in s.disk
    ensures var s' := End(s, header, events); Final(n) in s'.disk && s'.disk[Final(n)] == s.disk[Final(n)]
    decreases |events|
  {
    if events == [] {
    } else {
      StepKeeps(s, header, events[0]);
      FileStays(s, header, events[0], n);
      HasHistory(s, header);
      hide Invariant, Step;
      PublishedForever(Step(s, header, events[0]), header, events[1..], n);
    }
  }

  lemma FileStays(s: State, header: seq<string>, event: Event, n: nat)
    requires Invariant(s, header) && Final(n) in s.disk
    ensures var s' := Step(s, header, event); Final(n) in s'.disk && s'.disk[Final(n)] == s.disk[Final(n)]
  {
  }

  /**
   A file whose close fails, the rename included, has no final name, and its temporary file goes with the
   next opening or the destruction, if the removal works.
   */
  lemma FailedFileDisappears(s: State, header: seq<string>, c: Change, removed: bool)
    requires Invariant(s, header) && s.inserts > 0 && !CloseSucceeds(s.stream, c.flushed, c.moved)
    ensures Final(s.seqNumber) !in Changed(s, c).disk
    ensures c.createNewFile && c.directoryExists && c.cleaned ==>
              forall n: nat :: Temporary(n) in Changed(s, c).disk ==> n == s.seqNumber + 1
    ensures removed ==> forall n: nat :: Temporary(n) !in Destroyed(s, c.flushed, c.moved, removed).disk
  {
    ChangeKeeps(s, header, c);
    ClosePublishes(s, header, c.flushed, c.moved);
    OpeningKeepsFinals(s, c);
    DestroyKeeps(s, header, c.flushed, c.moved, removed);
    hide FinalsComplete, FileLines, LeftoversComplete, Destroyed;
  }

  /**
   When everything is written but the rename fails, the whole file is there under its temporary name; it
   is lost in the same change of files exactly if that gets as far as removing it.
   */
  lemma FailedRenameLosesFile(s: State, header: seq<string>, c: Change)
    requires Invariant(s, header) && s.inserts > 0 && Synchronised(s.stream, c.flushed) && !c.moved
    ensures var disk := CloseStream(s.disk, s.stream, true, c.flushed, c.moved).0;
      Temporary(s.seqNumber) in disk
        && disk[Temporary(s.seqNumber)] == Complete(FileLines(header, s.history[s.seqNumber]))
    ensures Final(s.seqNumber) !in Changed(s, c).disk
    ensures Temporary(s.seqNumber) !in Changed(s, c).disk <==> c.createNewFile && c.directoryExists && c.cleaned
  {
    FailedFileDisappears(s, header, c, true);
    hide FileLines, FinalsComplete;
  }

  /** Numbers that have been passed without a file never get one. */
  lemma {:induction false} NeverPublishedLater(s: State, header: seq<string>, events: seq<Event>, n: nat)
    requires Invariant(s, header) && n < s.seqNumber && Final(n) !in s.disk
    ensures Final(n) !in End(s, header, events).disk
    decreases |events|
  {
    if events == [] {
    } else {
      StepKeeps(s, header, events[0]);
      NotPublishedNow(s, header, events[0], n);
      HasHistory(s, header);
      hide Invariant, Step;
      NeverPublishedLater(Step(s, header, events[0]), header, events[1..], n);
    }
  }

  lemma NotPublishedNow(s: State, header: seq<string>, event: Event, n: nat)
    requires Invariant(s, header) && n < s.seqNumber && Final(n) !in s.disk
    ensures Final(n) !in Step(s, header, event).disk && n < Step(s, header, event).seqNumber
  {
  }
}
