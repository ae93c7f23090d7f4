/**
 Where results come from: every entry that was answered has the answer of the first message that was accepted for
 it.
 */
module Answers {
  import opened ResultEntries
  import opened LifeCycle
  import opened EntryHistory
  import opened Responses

  /** The message is accepted for the allocation, which has no status yet. */
  ghost predicate FirstAnswer(w: World, protocol: Protocol, r: Receiver, input: Input, id: nat) {
    && input.Received?
    && var response := ResponseOf(protocol, r, input.socket, input.bytes);
       && response.Some? && response.value.seqNumber in w.table && response.value.seqNumber in w.born
       && w.born[response.value.seqNumber] == id && w.table[response.value.seqNumber].status == Unknown
       && AddressesMatch(w.table[response.value.seqNumber], WithAddresses(input.data, response.value))
  }

  /** The entry has the message's sender, length, times and status. */
  ghost predicate AnsweredBy(e: Entry, protocol: Protocol, r: Receiver, input: Input) {
    && input.Received?
    && var response := ResponseOf(protocol, r, input.socket, input.bytes);
       && response.Some? && HasAnswer(e, input.data, response.value.length)
       && e.status == ReplyStatus(r.isV6, response.value.icmpType, response.value.icmpCode) != Unknown
  }

  lemma NotifiedByMessage(w: World, protocol: Protocol, r: Receiver, input: Input, id: nat)
    requires w.table.Keys == w.born.Keys && Possible(w, input)
    requires id in InputStep(w, protocol, r, input).notified && id !in w.notified
    ensures FirstAnswer(w, protocol, r, input, id)
  {
    hide ResponseOf, AddressesMatch, WithAddresses, Responded, HandleStep, InsertStep, UpdateSendTime, Enabled;
    if input.Other? {
      OthersNotifyNothing(w, input.event);
    }
  }

  lemma OthersNotifyNothing(w: World, event: Event)
    requires w.table.Keys == w.born.Keys && Enabled(w, event) && !event.Reply?
    ensures Step(w, event).notified == w.notified
  {
  }

  lemma AnswerRecorded(w: World, protocol: Protocol, r: Receiver, input: Input, id: nat) returns (e: Entry)
    requires w.table.Keys == w.born.Keys && Possible(w, input) && FirstAnswer(w, protocol, r, input, id)
    ensures IsEntry(InputStep(w, protocol, r, input), id, e) && AnsweredBy(e, protocol, r, input)
  {
    var s := ResponseOf(protocol, r, input.socket, input.bytes).value;
    var data := WithAddresses(input.data, s);
    ResponsesHandled(protocol, r, input.socket, input.bytes);
    KnownStatus(r.isV6, s.icmpType, s.icmpCode);
    ReplyFiled(w.table, r.isV6, data, s.icmpType, s.icmpCode, s.seqNumber, s.length);
    hide ResponseOf, LifeCycle.RecordResult, ReplyStatus, AddressesMatch;
    var w' := InputStep(w, protocol, r, input);
    e := w'.table[s.seqNumber];
    assert s.seqNumber in w'.born && w'.born[s.seqNumber] == id && w'.table[s.seqNumber] == e;
  }

  /**
   Over all inputs: each allocation for which the callback was called has, in the map or in its report, the answer of
   the first message that was accepted for it, and never that of a later one.
   */
  lemma {:induction false} AnswersFromMessages(w: World, protocol: Protocol, r: Receiver, inputs: seq<Input>,
                                               w': World, id: nat)
    returns (i: nat, before: World, e: Entry)
    requires InputRun(w, protocol, r, inputs, w') && id in w'.notified && id !in w.notified
    ensures i < |inputs| && InputRun(w, protocol, r, inputs[..i], before)
    ensures FirstAnswer(before, protocol, r, inputs[i], id)
    ensures IsEntry(w', id, e) && AnsweredBy(e, protocol, r, inputs[i])
    decreases |inputs|
  {
    hide InputStep, FirstAnswer, AnsweredBy, IsEntry, Possible;
    var next, rest := InputStep(w, protocol, r, inputs[0]), inputs[1..];
    if id in next.notified {
      NotifiedByMessage(w, protocol, r, inputs[0], id);
      var answered := AnswerRecorded(w, protocol, r, inputs[0], id);
      InputsAreRun(next, protocol, r, rest, w');
      i, before := 0, w;
      e := RunEntry(next, AllEvents(protocol, r, rest), w', id, answered);
      AnswerStays(answered, e, protocol, r, inputs[0]);
    } else {
      i, before, e := AnswersFromMessages(next, protocol, r, rest, w', id);
      assert inputs[..i + 1][1..] == rest[..i] && inputs[i + 1] == rest[i];
      i := i + 1;
    }
  }

  lemma AnswerStays(e: Entry, e': Entry, protocol: Protocol, r: Receiver, input: Input)
    requires AnsweredBy(e, protocol, r, input) && (e.status != Unknown ==> SameAnswer(e, e'))
    ensures AnsweredBy(e', protocol, r, input)
  {
    hide ResponseOf, ReplyStatus;
  }
}
