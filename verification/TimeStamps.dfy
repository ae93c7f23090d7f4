/** RTTs and delays computed from the time stamps of an entry, and the checks on them. */
module TimeStamps {
  import opened Words
  import opened ResultEntries

  /** What an obtain function delivers; `Aborted` is a failed assure. */
  datatype Interval = Unavailable | Available(from: int, to: int) | Aborted

  const INVALID := -1

  function Duration(i: Interval): int {
    if i.Available? then i.to - i.from else INVALID
  }

  function PackSources(high: TimeSource, low: TimeSource): byte {
    0x10 * SourceCode(high) + SourceCode(low)
  }

  function SendReceiveTime(e: Entry, layer: Layer): Interval
    requires !layer.Scheduler?
  {
    var rx, tx := e.received.At(layer), e.sent.At(layer);
    if rx.source == NoSource || tx.source == NoSource then Unavailable
    else if (rx.source == TimestampingHW || tx.source == TimestampingHW) && rx.source != tx.source then Unavailable
    else if rx.time == UNSET || tx.time == UNSET then Unavailable
    else if tx.time > rx.time then Unavailable
    else Available(tx.time, rx.time)
  }

  function SchedulingSendTime(e: Entry): Interval {
    if e.sent.scheduler.source == NoSource || e.sent.software.source == NoSource then Unavailable
    else if e.sent.scheduler.source != e.sent.software.source then Unavailable
    else if e.sent.scheduler.time == UNSET || e.sent.software.time == UNSET then Aborted
    else if e.sent.scheduler.time > e.sent.software.time then Unavailable
    else Available(e.sent.scheduler.time, e.sent.software.time)
  }

  function ApplicationSendSchedulingTime(e: Entry): Interval {
    if e.sent.application.source == NoSource || e.sent.scheduler.source == NoSource then Unavailable
    else if e.sent.application.source != SysClock || e.sent.scheduler.source != TimestampingSW then Unavailable
    else if e.sent.application.time == UNSET || e.sent.scheduler.time == UNSET then Aborted
    else if e.sent.scheduler.time < e.sent.application.time then Unavailable
    else Available(e.sent.application.time, e.sent.scheduler.time)
  }

  function ReceptionApplicationReceiveTime(e: Entry): Interval {
    if e.received.software.source == NoSource || e.received.application.source == NoSource then Unavailable
    else if e.received.software.source != TimestampingSW || e.received.application.source != SysClock then Unavailable
    else if e.received.software.time == UNSET || e.received.application.time == UNSET then Aborted
    else if e.received.application.time < e.received.software.time then Unavailable
    else Available(e.received.software.time, e.received.application.time)
  }

  function RTT(e: Entry, layer: Layer): int
    requires !layer.Scheduler?
  {
    Duration(SendReceiveTime(e, layer))
  }

  /** The consistency checks on the obtained values, in program order. */
  datatype Check =
    | AssureCheck
    | ApplicationCheck
    | SoftwareCheck
    | HardwareCheck
    | QueuingCheck
    | AppSendCheck
    | AppReceiveCheck

  datatype Results =
    | Values(timeSource: uint32, rttApplication: int, rttSoftware: int, rttHardware: int,
             delayQueuing: int, delayAppSend: int, delayAppReceive: int)
    | Abort(check: Check)

  function PackedTimeSource(e: Entry): uint32 {
    PackSources(e.received.application.source, e.sent.application.source) * 0x100_0000
    + PackSources(e.sent.software.source, e.sent.scheduler.source) * 0x1_0000
    + PackSources(e.received.software.source, e.sent.software.source) * 0x100
    + PackSources(e.received.hardware.source, e.sent.hardware.source)
  }

  function ResultsValues(e: Entry): Results {
    var appSend, queuing, appReceive :=
      ApplicationSendSchedulingTime(e), SchedulingSendTime(e), ReceptionApplicationReceiveTime(e);
    var rttA, rttS, rttH := RTT(e, Application), RTT(e, Software), RTT(e, Hardware);
    var dS, dQ, dR := Duration(appSend), Duration(queuing), Duration(appReceive);
    if appSend.Aborted? || appReceive.Aborted? || queuing.Aborted? then Abort(AssureCheck)
    else if e.sent.application.time + rttA != e.received.application.time then Abort(ApplicationCheck)
    else if rttS >= 0 && e.sent.software.time + rttS != e.received.software.time then Abort(SoftwareCheck)
    else if rttH >= 0 && e.sent.hardware.time + rttH != e.received.hardware.time then Abort(HardwareCheck)
    else if dQ >= 0 && e.sent.scheduler.time + dQ != e.sent.software.time then Abort(QueuingCheck)
    else if dS >= 0 && e.sent.application.time + dS != e.sent.scheduler.time then Abort(AppSendCheck)
    else if dR >= 0 && e.received.software.time + dR != e.received.application.time then Abort(AppReceiveCheck)
    else Values(PackedTimeSource(e), rttA, rttS, rttH, dQ, dS, dR)
  }

  // ----- Which time stamps an entry can have -----

  ghost predicate StampSet(s: TimeStamp) { s.source == NoSource || s.time != UNSET }

  /** A kernel time stamp is only taken over when set; the older interfaces promise nothing. */
  ghost predicate SoftwareStampSet(s: TimeStamp) {
    s.source != TimestampingHW && (s.source == TimestampingSW ==> s.time != UNSET)
  }

  ghost predicate SendStamped(s: SendStamps) {
    && s.application.source == SysClock && s.application.time > 0
    && (s.software.source == SysClock ==> s.software == s.application)
    && s.software.source in {SysClock, TimestampingSW} && StampSet(s.software)
    && s.hardware.source in {NoSource, TimestampingHW} && StampSet(s.hardware)
    && s.scheduler.source in {NoSource, TimestampingSW} && StampSet(s.scheduler)
  }

  ghost predicate ReceiveStamped(status: HopStatus, r: ReceiveStamps) {
    && (status == Unknown ==> r.application.source == NoSource)
    && (status != Unknown ==> r.application.source == SysClock && r.application.time > 0)
    && SoftwareStampSet(r.software)
    && r.hardware.source in {NoSource, TimestampingHW} && StampSet(r.hardware)
  }

  /**
   What every reachable entry satisfies. The life cycle keeps it: see LifeCycle.RunKeepsInvariant.
   */
  ghost predicate Stamped(e: Entry) { SendStamped(e.sent) && ReceiveStamped(e.status, e.received) }

  // ----- Main results -----

  /** The delays and the software RTT, if all available, add up to the application RTT. */
  lemma DelaysAddUp(e: Entry)
    requires Stamped(e)
    requires ApplicationSendSchedulingTime(e).Available? && SchedulingSendTime(e).Available?
    requires SendReceiveTime(e, Software).Available? && ReceptionApplicationReceiveTime(e).Available?
    ensures SendReceiveTime(e, Application).Available?
    ensures RTT(e, Application) == Duration(ApplicationSendSchedulingTime(e)) + Duration(SchedulingSendTime(e))
                                 + RTT(e, Software) + Duration(ReceptionApplicationReceiveTime(e))
    ensures 0 <= RTT(e, Software) <= RTT(e, Application)
  {
    assert e.sent.application.time <= e.sent.scheduler.time <= e.sent.software.time
        <= e.received.software.time <= e.received.application.time;
  }

  /**
   A completed entry passes all checks exactly if its receive time is not before its send time,
   except for a step back of one nanosecond, which the invalid duration happens to match; and no
   check but the application check can ever abort.
   */
  lemma ChecksPass(e: Entry)
    requires Stamped(e) && e.status != Unknown
    ensures ResultsValues(e).Values? <==> e.received.application.time >= e.sent.application.time - 1
    ensures ResultsValues(e).Abort? ==> ResultsValues(e).check == ApplicationCheck
  {
    assert !ApplicationSendSchedulingTime(e).Aborted?;
    assert !SchedulingSendTime(e).Aborted?;
    assert !ReceptionApplicationReceiveTime(e).Aborted?;
  }

  /** From one time stamp to a later one, or -1. */
  function Difference(available: bool, from: TimeStamp, to: TimeStamp): int {
    if available && from.time <= to.time then to.time - from.time else -1
  }

  /**
   The values delivered are the differences between the time stamps that they are named after; -1 if one is missing,
   they are not from the same clock, or the later one is before the earlier one. The packed word has all the sources.
   */
  lemma ValuesAre(e: Entry)
    requires Stamped(e) && ResultsValues(e).Values?
    ensures var v, sent, received := ResultsValues(e), e.sent, e.received;
      && v.delayAppSend == Difference(sent.scheduler.source == TimestampingSW, sent.application, sent.scheduler)
      && v.delayQueuing == Difference(sent.scheduler.source == TimestampingSW && sent.software.source == TimestampingSW,
                                      sent.scheduler, sent.software)
      && v.delayAppReceive
          == Difference(received.software.source == TimestampingSW && received.application.source == SysClock,
                                         received.software, received.application)
      && v.rttApplication == Difference(received.application.source == SysClock && received.application.time != 0,
                                        sent.application, received.application)
      && v.rttSoftware == Difference(received.software.source != NoSource && received.software.time != 0,
                                     sent.software, received.software)
      && v.rttHardware == Difference(sent.hardware.source == TimestampingHW
                                     && received.hardware.source == TimestampingHW,
                                     sent.hardware, received.hardware)
    ensures var n := ResultsValues(e).timeSource;
      && Nibble(n, 7) == SourceCode(e.received.application.source)
      && Nibble(n, 6) == SourceCode(e.sent.application.source)
      && Nibble(n, 5) == SourceCode(e.sent.software.source) && Nibble(n, 4) == SourceCode(e.sent.scheduler.source)
      && Nibble(n, 3) == SourceCode(e.received.software.source) && Nibble(n, 2) == SourceCode(e.sent.software.source)
      && Nibble(n, 1) == SourceCode(e.received.hardware.source) && Nibble(n, 0) == SourceCode(e.sent.hardware.source)
  {
    PackedTimeSourceDecodes(e);
    hide PackedTimeSource, Nibble, SourceCode;
  }

  /** If all four parts are delivered, they add up to the application's round-trip time. */
  lemma ValuesAddUp(e: Entry)
    requires Stamped(e) && ResultsValues(e).Values?
    requires var v := ResultsValues(e);
      v.delayAppSend >= 0 && v.delayQueuing >= 0 && v.rttSoftware >= 0 && v.delayAppReceive >= 0
    ensures var v := ResultsValues(e);
      && v.rttApplication == v.delayAppSend + v.delayQueuing + v.rttSoftware + v.delayAppReceive
  {
    ValuesAre(e);
    hide ResultsValues;
  }

  /** The four bits of each source. */
  lemma SourceCodes()
    ensures SourceCode(NoSource) == 0 && SourceCode(SysClock) == 1 && SourceCode(Timestamp) == 2
    ensures SourceCode(TimestampNS) == 3 && SourceCode(SIOCGStamp) == 4 && SourceCode(SIOCGStampNS) == 5
    ensures SourceCode(TimestampingSW) == 6 && SourceCode(TimestampingHW) == 10
  {
  }

  /** Time-outs and failed sends always pass. */
  lemma LocalCompletionsPass(e: Entry, expiration: nat, error: SendError)
    requires Stamped(e) && e.status == Unknown
    ensures ResultsValues(Expired(e, expiration)).Values?
      && RTT(Expired(e, expiration), Application) == NS_PER_MS * expiration
    ensures ResultsValues(FailedToSend(e, error)).Values? && RTT(FailedToSend(e, error), Application) == 0
  {
    assert SendErrorStatus(error) != Unknown;
    var expired, failed := Expired(e, expiration), FailedToSend(e, error);
    assert Stamped(expired);
    ChecksPass(expired);
    assert Stamped(failed);
    ChecksPass(failed);
  }

  /** An entry without a result fails the application check (unless it was sent in the first nanosecond). */
  lemma PendingEntryAborts(e: Entry)
    requires Stamped(e) && e.status == Unknown && e.received.application.time == UNSET
    ensures ResultsValues(e).Values? <==> e.sent.application.time == 1
  {
    assert !ApplicationSendSchedulingTime(e).Aborted?;
    assert !SchedulingSendTime(e).Aborted?;
    assert !ReceptionApplicationReceiveTime(e).Aborted?;
  }

  /** Digit i of n in base 16, counted from the right. */
  function Nibble(n: nat, i: nat): nat {
    if i == 0 then n % 0x10 else Nibble(n / 0x10, i - 1)
  }

  /** The packed word AAQQSSHH gives back all eight time sources. */
  lemma PackedTimeSourceDecodes(e: Entry)
    ensures var n := PackedTimeSource(e);
      && Nibble(n, 7) == SourceCode(e.received.application.source)
      && Nibble(n, 6) == SourceCode(e.sent.application.source)
      && Nibble(n, 5) == SourceCode(e.sent.software.source) && Nibble(n, 4) == SourceCode(e.sent.scheduler.source)
      && Nibble(n, 3) == SourceCode(e.received.software.source) && Nibble(n, 2) == SourceCode(e.sent.software.source)
      && Nibble(n, 1) == SourceCode(e.received.hardware.source) && Nibble(n, 0) == SourceCode(e.sent.hardware.source)
  {
    var digits := [
      SourceCode(e.sent.hardware.source), SourceCode(e.received.hardware.source),
      SourceCode(e.sent.software.source), SourceCode(e.received.software.source),
      SourceCode(e.sent.scheduler.source), SourceCode(e.sent.software.source),
      SourceCode(e.sent.application.source), SourceCode(e.received.application.source)];
    EightDigits(digits);
    forall i | 0 <= i < 8 ensures Nibble(PackedTimeSource(e), i) == digits[i] {
      NibbleOfDigits(digits, i);
    }
  }

  function FromDigits(digits: seq<int>): int {
    if digits == [] then 0 else digits[0] + 0x10 * FromDigits(digits[1..])
  }

  lemma LastDigit(n: nat, d: int, m: nat)
    requires 0 <= d < 0x10 && n == d + 0x10 * m
    ensures n % 0x10 == d && n / 0x10 == m
  {
  }

  lemma {:induction false} NibbleOfDigits(digits: seq<int>, i: nat)
    requires i < |digits| && forall j :: 0 <= j < |digits| ==> 0 <= digits[j] < 0x10
    ensures FromDigits(digits) >= 0 && Nibble(FromDigits(digits), i) == digits[i]
    decreases |digits|
  {
    if |digits| == 1 {
      assert FromDigits(digits[1..]) == 0;
    } else {
      NibbleOfDigits(digits[1..], if i == 0 then 0 else i - 1);
    }
    LastDigit(FromDigits(digits), digits[0], FromDigits(digits[1..]));
  }

  lemma EightDigits(d: seq<int>)
    requires |d| == 8
    ensures FromDigits(d)
         == (0x10 * d[7] + d[6]) * 0x100_0000 + (0x10 * d[5] + d[4]) * 0x1_0000 + (0x10 * d[3] + d[2]) * 0x100
             + (0x10 * d[1] + d[0])
  {
    TwoDigits(d);
    TwoDigits(d[2..]);
    TwoDigits(d[4..]);
    TwoDigits(d[6..]);
    assert d[2..][2..] == d[4..] && d[4..][2..] == d[6..] && d[6..][2..] == [];
  }

  lemma TwoDigits(d: seq<int>)
    requires |d| >= 2
    ensures FromDigits(d) == d[0] + 0x10 * d[1] + 0x100 * FromDigits(d[2..])
  {
    assert d[1..][1..] == d[2..];
    assert FromDigits(d[1..]) == d[1] + 0x10 * FromDigits(d[2..]);
  }
}
