/**
 * The publisher of a node's sync messages (lib/cluster/publisher.js:317-383). A socket send is
 * asynchronous: `Completed` is the moment at which the outstanding one resolves and `bufferSend` resumes.
 */
module Publisher {
  import opened Wrappers
  import opened MessageOrder

  datatype Message = Message(id: nat, topic: string, data: string)

  /**
   * `wire` was sent, `flight` is being sent, `rest` is what remains of the batch taken from the
   * buffer, `buffer` holds what was accepted since.
   */
  datatype Line = Line(last: nat, wire: seq<Message>, flight: Option<Message>, rest: seq<Message>, buffer: seq<Message>,
                       sending: bool, open: bool)

  datatype Action =
    | Send(topic: string, known: bool, data: string)
    | Completed
    | PollDispose

  datatype Answer = Sent(id: nat) | Refused | Threw | Nothing

  const Start := Line(0, [], None, [], [], false, true)

  /** Hands the next message to the socket, if there is one. */
  function Pump(l: Line): Line
  {
    if l.rest != [] then l.(flight := Some(l.rest[0]), rest := l.rest[1..], sending := true)
    else if l.buffer != [] then l.(flight := Some(l.buffer[0]), rest := l.buffer[1..], buffer := [], sending := true)
    else l.(flight := None, sending := false)
  }

  function Enqueue(l: Line, m: Message): Line
  {
    var pushed := l.(buffer := l.buffer + [m]);
    if l.sending then pushed else Pump(pushed)
  }

  /** An unknown topic throws after the id has been taken. */
  function Act(l: Line, a: Action): Line
  {
    match a
    case Send(topic, known, data) =>
      if !l.open then l
      else if !known then l.(last := l.last + 1)
      else Enqueue(l.(last := l.last + 1), Message(l.last + 1, topic, data))
    case Completed => if l.flight.None? then l else Pump(l.(wire := l.wire + [l.flight.value]))
    case PollDispose => if l.sending then l else l.(open := false)
  }

  function AnswerOf(l: Line, a: Action): Answer
  {
    if !a.Send? then Nothing
    else if !l.open then Refused
    else if !a.known then Threw
    else Sent(l.last + 1)
  }

  function Exec(actions: seq<Action>): Line
  {
    if actions == [] then Start else Act(Exec(actions[..|actions| - 1]), actions[|actions| - 1])
  }

  /** The answer to the i-th action of a run. */
  function AnswerAt(actions: seq<Action>, i: nat): Answer
    requires i < |actions|
  {
    AnswerOf(Exec(actions[..i]), actions[i])
  }

  /** The messages whose sender was given an id, in the order of the calls. */
  function Accepted(actions: seq<Action>): seq<Message>
  {
    if actions == [] then []
    else
      var before := actions[..|actions| - 1];
      var a := actions[|actions| - 1];
      var answer := AnswerOf(Exec(before), a);
      Accepted(before) + if answer.Sent? then [Message(answer.id, a.topic, a.data)] else []
  }

  function FlightOf(l: Line): seq<Message>
  {
    if l.flight.Some? then [l.flight.value] else []
  }

  /** Nothing is pending when nothing is outstanding, and a closed socket has nothing outstanding. */
  predicate Tidy(l: Line)
  {
    && (l.sending <==> l.flight.Some?)
    && (!l.sending ==> l.rest == [] && l.buffer == [])
    && (!l.open ==> !l.sending)
  }

  lemma PumpKeepsOrder(l: Line)
    requires !l.open ==> l.rest == [] && l.buffer == []
    ensures Tidy(Pump(l)) && Pump(l).open == l.open && Pump(l).last == l.last && Pump(l).wire == l.wire
    ensures FlightOf(Pump(l)) + Pump(l).rest + Pump(l).buffer == l.rest + l.buffer
  {
  }

  /** All the messages of the line, oldest first. */
  function All(l: Line): seq<Message>
  {
    l.wire + (FlightOf(l) + l.rest + l.buffer)
  }

  lemma SendKeepsOrder(l: Line, topic: string, data: string)
    requires Tidy(l) && l.open
    ensures var m := Message(l.last + 1, topic, data);
            var t := Act(l, Send(topic, true, data));
            Tidy(t) && All(t) == All(l) + [m]
  {
    var m := Message(l.last + 1, topic, data);
    if l.sending {
      WaitsInLine(l.(last := l.last + 1), m);
    } else {
      FirstInLine(l.(last := l.last + 1), m);
      Regroup(l.wire, FlightOf(l) + l.rest + l.buffer, [m]);
    }
  }

  lemma WaitsInLine(l: Line, m: Message)
    requires Tidy(l) && l.open && l.sending
    ensures Tidy(Enqueue(l, m)) && All(Enqueue(l, m)) == All(l) + [m]
  {
    var ahead := FlightOf(l) + l.rest;
    Regroup(ahead, l.buffer, [m]);
    Regroup(l.wire, ahead + l.buffer, [m]);
  }

  lemma FirstInLine(l: Line, m: Message)
    requires Tidy(l) && l.open && !l.sending
    ensures var t := Enqueue(l, m);
            && Tidy(t) && t.wire == l.wire
            && FlightOf(t) + t.rest + t.buffer == [m] == (FlightOf(l) + l.rest + l.buffer) + [m]
  {
    var pushed := l.(buffer := l.buffer + [m]);
    assert pushed.buffer == [m] && pushed.rest + pushed.buffer == [m];
    PumpKeepsOrder(pushed);
    assert FlightOf(l) + l.rest + l.buffer == [];
  }

  lemma CompletionKeepsOrder(l: Line)
    requires Tidy(l) && l.flight.Some?
    ensures Tidy(Act(l, Completed)) && All(Act(l, Completed)) == All(l)
  {
    PumpKeepsOrder(l.(wire := l.wire + [l.flight.value]));
    Regroup([l.flight.value], l.rest, l.buffer);
    Regroup(l.wire, [l.flight.value], l.rest + l.buffer);
  }

  /**
   * In every run the messages sent, the one being sent, the rest of the batch and the buffer are, in
   * this order, all the accepted messages: none is lost, doubled or overtaken.
   */
  lemma {:induction false} NothingLostOrOvertaken(actions: seq<Action>)
    ensures var l := Exec(actions); Tidy(l) && All(l) == Accepted(actions)
  {
    if actions != [] {
      var before := Exec(actions[..|actions| - 1]);
      var a := actions[|actions| - 1];
      NothingLostOrOvertaken(actions[..|actions| - 1]);
      if a.Send? && before.open && a.known {
        SendKeepsOrder(before, a.topic, a.data);
      } else if a.Completed? && before.flight.Some? {
        CompletionKeepsOrder(before);
      }
    }
  }

  /** A ready publisher, in particular a closed one, has sent all it accepted. */
  lemma ReadyHasSentAll(actions: seq<Action>)
    ensures !Exec(actions).sending ==> Exec(actions).wire == Accepted(actions)
    ensures !Exec(actions).open ==> Exec(actions).wire == Accepted(actions)
  {
    NothingLostOrOvertaken(actions);
  }

  /** With no further call, as many completions as there are pending messages send them all. */
  lemma {:induction false} CompletionsDrain(actions: seq<Action>, pending: nat)
    requires pending == |Accepted(actions)| - |Exec(actions).wire|
    ensures var later := actions + seq(pending, i => Completed);
            Accepted(later) == Accepted(actions) == Exec(later).wire && !Exec(later).sending
    decreases pending
  {
    NothingLostOrOvertaken(actions);
    if pending == 0 {
      assert actions + seq(0, i => Completed) == actions;
    } else {
      var next := actions + [Completed];
      OneCompletion(actions);
      CompletionsDrain(next, pending - 1);
      assert next + seq(pending - 1, i => Completed) == actions + seq(pending, i => Completed);
    }
  }

  lemma OneCompletion(actions: seq<Action>)
    requires |Accepted(actions)| > |Exec(actions).wire|
    ensures var next := actions + [Completed];
            Accepted(next) == Accepted(actions) && |Exec(next).wire| == |Exec(actions).wire| + 1
  {
    var next := actions + [Completed];
    assert next[..|actions|] == actions;
    NothingLostOrOvertaken(actions);
    NothingLostOrOvertaken(next);
  }

  /** The calls made with a known topic, in order. */
  function KnownCalls(actions: seq<Action>): seq<(string, string)>
  {
    if actions == [] then []
    else
      var last := actions[|actions| - 1];
      KnownCalls(actions[..|actions| - 1]) + if last.Send? && last.known then [(last.topic, last.data)] else []
  }

  function Calls(actions: seq<Action>): nat
  {
    if actions == [] then 0 else Calls(actions[..|actions| - 1]) + if actions[|actions| - 1].Send? then 1 else 0
  }

  function Contents(messages: seq<Message>): (r: seq<(string, string)>)
    ensures |r| == |messages| && forall i :: 0 <= i < |r| ==> r[i] == (messages[i].topic, messages[i].data)
  {
    seq(|messages|, i requires 0 <= i < |messages| => (messages[i].topic, messages[i].data))
  }

  /** As long as the socket is open, every call with a known topic is accepted, and every call takes one id. */
  lemma {:induction false} OpenAcceptsAll(actions: seq<Action>)
    requires Exec(actions).open
    ensures Contents(Accepted(actions)) == KnownCalls(actions) && Exec(actions).last == Calls(actions)
  {
    if actions != [] {
      var before := actions[..|actions| - 1];
      ClosedStays(before, actions[|actions| - 1]);
      OpenAcceptsAll(before);
      AcceptedStep(actions);
    }
  }

  lemma ClosedStays(before: seq<Action>, a: Action)
    ensures !Exec(before).open ==> Act(Exec(before), a) == Exec(before)
    ensures Exec(before).open && !a.PollDispose? ==> Act(Exec(before), a).open
  {
    NothingLostOrOvertaken(before);
  }

  /**
   * Disposing waits while something is being sent. An idle publisher is closed by it, and from then on every call
   * is refused and nothing changes.
   */
  lemma {:induction false} DisposeCloses(actions: seq<Action>, more: seq<Action>)
    ensures var l := Exec(actions);
            var polled := Exec(actions + [PollDispose]);
            && (l.sending ==> polled == l)
            && (!l.sending ==>
                  && polled == l.(open := false) && Exec(actions + [PollDispose] + more) == polled
                  && forall a: Action :: a.Send? ==> AnswerOf(Exec(actions + [PollDispose] + more), a) == Refused)
    decreases |more|
  {
    var closed := actions + [PollDispose];
    assert closed[..|actions|] == actions;
    if more == [] {
      assert closed + more == closed;
    } else {
      var rest := more[..|more| - 1];
      DisposeCloses(actions, rest);
      assert (closed + more)[..|closed + more| - 1] == closed + rest;
      ClosedStays(closed + rest, more[|more| - 1]);
    }
  }

  function IdsOf(messages: seq<Message>): (ids: seq<int>)
    ensures |ids| == |messages| && forall i :: 0 <= i < |ids| ==> ids[i] == messages[i].id
  {
    seq(|messages|, i requires 0 <= i < |messages| => messages[i].id)
  }

  /** A longer list, and ids that stay above those before. */
  lemma IdsOfNext(before: seq<Message>, after: seq<Message>, last: nat)
    requires Increasing(IdsOf(before)) && forall m <- before :: 1 <= m.id <= last
    requires after == before
             || (|after| == |before| + 1 && after[..|before|] == before && after[|before|].id == last + 1)
    ensures Increasing(IdsOf(after))
    ensures forall i :: 0 <= i < |before| ==> IdsOf(after)[i] == IdsOf(before)[i]
    ensures forall m <- after :: 1 <= m.id <= last + 1
  {
    assert forall i :: 0 <= i < |before| ==> before[i] in before && after[i] == before[i];
  }

  /** Not a call with an unknown topic while the socket is open. */
  predicate TopicKnown(l: Line, a: Action)
  {
    l.open && a.Send? ==> a.known
  }

  predicate TopicsKnown(actions: seq<Action>)
  {
    forall i :: 0 <= i < |actions| ==> TopicKnown(Exec(actions[..i]), actions[i])
  }

  ghost predicate Gapless(actions: seq<Action>)
  {
    CountsUp(Accepted(actions), Exec(actions).last)
  }

  lemma TopicsKnownStep(actions: seq<Action>)
    requires actions != []
    ensures var n := |actions| - 1;
            TopicsKnown(actions) <==> TopicsKnown(actions[..n]) && AnswerAt(actions, n) != Threw
  {
    var n := |actions| - 1;
    var before := actions[..n];
    forall i | 0 <= i < n
      ensures TopicKnown(Exec(before[..i]), before[i]) <==> TopicKnown(Exec(actions[..i]), actions[i])
    {
      assert before[..i] == actions[..i];
    }
  }

  /** What one action does to the accepted messages and to the last id. */
  lemma AcceptedStep(actions: seq<Action>)
    requires actions != []
    ensures var n := |actions| - 1;
            var before, answer := actions[..n], AnswerAt(actions, n);
            && Exec(actions).last == Exec(before).last + (if answer.Sent? || answer.Threw? then 1 else 0)
            && if answer.Sent? then
                 && Accepted(actions) == Accepted(before) + [Message(answer.id, actions[n].topic, actions[n].data)]
                 && answer.id == Exec(before).last + 1
               else Accepted(actions) == Accepted(before)
  {
  }

  lemma BlockMore(ids: seq<int>, id: int)
    ensures BlockAfter(0, ids + [id]) <==> BlockAfter(0, ids) && id == |ids| + 1
  {
    var all := ids + [id];
    assert forall i :: 0 <= i < |ids| ==> all[i] == ids[i];
    if BlockAfter(0, all) {
      assert all[|ids|] == id;
    }
  }

  /** The ids of the accepted messages grow, from 1 to the last one at most. */
  lemma {:induction false} IdsGrow(actions: seq<Action>)
    ensures Increasing(IdsOf(Accepted(actions)))
    ensures forall m <- Accepted(actions) :: 1 <= m.id <= Exec(actions).last
    ensures |Accepted(actions)| <= Exec(actions).last
  {
    if actions != [] {
      var before := actions[..|actions| - 1];
      IdsGrow(before);
      AcceptedStep(actions);
      IdsOfNext(Accepted(before), Accepted(actions), Exec(before).last);
    }
  }

  lemma GaplessStep(actions: seq<Action>)
    requires actions != []
    ensures var n := |actions| - 1;
            Gapless(actions) <==> Gapless(actions[..n]) && AnswerAt(actions, n) != Threw
  {
    var n := |actions| - 1;
    var before := actions[..n];
    IdsGrow(before);
    AcceptedStep(actions);
    CountsMore(Accepted(before), Accepted(actions), Exec(before).last, Exec(actions).last, AnswerAt(actions, n));
  }

  predicate CountsUp(messages: seq<Message>, last: nat)
  {
    BlockAfter(0, IdsOf(messages)) && |messages| == last
  }

  lemma CountsMore(before: seq<Message>, after: seq<Message>, last0: nat, last1: nat, answer: Answer)
    requires |before| <= last0 && last1 == last0 + (if answer.Sent? || answer.Threw? then 1 else 0)
    requires if answer.Sent? then |after| == |before| + 1 && after[..|before|] == before && after[|before|].id == last1
             else after == before
    ensures CountsUp(after, last1) <==> CountsUp(before, last0) && answer != Threw
  {
    if answer.Sent? {
      assert IdsOf(after) == IdsOf(before) + [last1];
      BlockMore(IdsOf(before), last1);
    }
  }

  /** The ids are 1, 2, … up to the last one exactly when no call on the open socket had an unknown topic. */
  lemma {:induction false} NoHoleIffTopicsKnown(actions: seq<Action>)
    ensures Gapless(actions) <==> TopicsKnown(actions)
  {
    if actions != [] {
      NoHoleIffTopicsKnown(actions[..|actions| - 1]);
      TopicsKnownStep(actions);
      GaplessStep(actions);
    }
  }

  lemma {:induction false} LiveAcceptsAll(f: Fed, ids: seq<int>)
    requires !f.cursor.buffering
    ensures var r := Feed(f, ids); !r.cursor.buffering && (!r.gap ==> r.accepted == f.accepted + ids)
  {
    if ids == [] {
      assert f.accepted + ids == f.accepted;
    } else {
      LiveAcceptsAll(f, ids[..|ids| - 1]);
      Regroup(f.accepted, ids[..|ids| - 1], [ids[|ids| - 1]]);
      assert ids == ids[..|ids| - 1] + [ids[|ids| - 1]];
    }
  }

  /** A subscriber that was there from the start reports a gap exactly when the ids have a hole. */
  lemma HoleIsNoticed(ids: seq<int>)
    ensures var f := Feed(Fed(Cursor(false, 0), [], false), ids);
            (!f.gap <==> BlockAfter(0, ids)) && (!f.gap ==> f.accepted == ids)
  {
    var start := Fed(Cursor(false, 0), [], false);
    LiveAcceptsAll(start, ids);
    assert start.accepted + ids == ids;
    if !Feed(start, ids).gap {
      NoGapNoHole(0, start, ids);
    }
    if BlockAfter(0, ids) && ids != [] {
      LosslessLive(start, ids);
    }
  }

  /* ---------- the object ---------- */

  class ClusterPublisher {
    var lastMessageId: nat
    var socketOpen: bool
    var sending: bool
    var buffer: seq<Message>
    // the batch `bufferSend` goes through, and the message it waits for
    var batch: seq<Message>
    var index: nat
    // what the socket was given: what it has sent, and the send that has not resolved
    var wire: seq<Message>
    var outstanding: Option<Message>

    constructor ()
      ensures Valid() && View() == Start
    {
      lastMessageId, socketOpen, sending := 0, true, false;
      buffer, batch, index, wire, outstanding := [], [], 0, [], None;
    }

    ghost predicate Valid()
      reads this
    {
      && (if sending then index < |batch| && outstanding == Some(batch[index]) else outstanding == None && buffer == [])
      && (!socketOpen ==> !sending)
    }

    ghost function View(): Line
      reads this
      requires Valid()
    {
      Line(lastMessageId, wire, outstanding, if sending then batch[index + 1..] else [], buffer, sending, socketOpen)
    }

    method Send(topic: string, known: bool, data: string) returns (answer: Answer)
      requires Valid()
      modifies this
      ensures Valid() && View() == Act(old(View()), Action.Send(topic, known, data))
      ensures answer == AnswerOf(old(View()), Action.Send(topic, known, data))
    {
      if !socketOpen {
        return Refused;
      }
      lastMessageId := lastMessageId + 1;
      assert View() == old(View()).(last := old(lastMessageId) + 1);
      if !known {
        return Threw;
      }
      BufferSend(Message(lastMessageId, topic, data));
      return Sent(lastMessageId);
    }

    /** Up to the first wait of `bufferSend`. */
    method BufferSend(m: Message)
      requires Valid() && socketOpen
      modifies this
      ensures Valid() && View() == Enqueue(old(View()), m)
    {
      buffer := buffer + [m];
      if sending {
        return;
      }
      sending := true;
      NextBatch();
    }

    /** Takes the buffer as the batch to send, and sends its first message. */
    method NextBatch()
      requires buffer != [] && sending && socketOpen
      modifies this`batch, this`buffer, this`index, this`outstanding
      ensures Valid() && buffer == [] && batch == old(buffer) && index == 0
    {
      batch := buffer;
      buffer := [];
      index := 0;
      outstanding := Some(batch[0]);
    }

    /** From the moment the outstanding send resolves to the next wait, or to the end. */
    method Resume()
      requires Valid() && outstanding.Some?
      modifies this
      ensures Valid() && View() == Act(old(View()), Completed)
    {
      wire := wire + [outstanding.value];
      index := index + 1;
      if index < |batch| {
        outstanding := Some(batch[index]);
      } else if |buffer| > 0 {
        NextBatch();
      } else {
        outstanding := None;
        sending := false;
      }
    }

    /** One turn of the waiting loop of `dispose`; it ends the loop when it closes the socket. */
    method PollDispose() returns (closed: bool)
      requires Valid()
      modifies this`socketOpen
      ensures Valid() && View() == Act(old(View()), Action.PollDispose)
      ensures closed <==> !sending
    {
      if sending {
        return false;
      }
      socketOpen := false;
      return true;
    }
  }
}
