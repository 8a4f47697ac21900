/**
 * The subscriber object (lib/cluster/subscriber.js) and the part of the local node it acts on
 * (lib/cluster/node.js:313-366). Times are what `Date.now()` returned when a message was handled.
 */
module Subscriber {
  import opened RealtimeView
  import opened Replication
  import opened ClusterState
  import opened Heartbeat
  import opened Wrappers
  import Cluster
  import MessageOrder

  datatype Body =
    | Realtime(msg: Msg)
    | PreventEviction(prevented: bool)
    | NodeEvicted(nodeId: string)
    | NodeShutdown(nodeId: string)
    | Other(throws: bool)

  /** A received message: whether its topic is known, the id it carries if any, and when it is handled. */
  datatype Wire = Wire(knownTopic: bool, messageId: Option<int>, body: Body, at: real)

  /** The fields of a subscriber: also whether its socket is open, with its timer, and whether `listen` still runs. */
  datatype Sub = Sub(phase: Phase, last: int, buffer: seq<Wire>, prevented: bool, lastHeartbeat: real,
                     open: bool, listening: bool)

  /**
   * The local node as far as subscribers change it: its state and the nodes it knows, how often it asked
   * to leave, the evictions it announced, the nodes whose subscribers were told to dispose of themselves
   * (`Disposed` says what that does), whether it was told to shut down, and whether it was deactivated
   * for lack of nodes.
   */
  datatype Node = Node(view: View, remotes: set<string>, selfEvictions: nat, announced: seq<string>,
                       toldToDispose: set<string>, shutdown: bool, minimumNodes: nat, deactivated: bool)

  datatype Both = Both(sub: Sub, node: Node)

  /** An unknown node is not evicted; a known one leaves the state, and others are told if asked to. */
  function EvictFrom(node: Node, id: string, broadcast: bool): Node
  {
    if id !in node.remotes then node
    else
      var left := node.remotes - {id};
      node.(view := RemoveNode(node.view, id), remotes := left, toldToDispose := node.toldToDispose + {id},
            announced := if broadcast then node.announced + [id] else node.announced,
            deactivated := node.deactivated || |left| + 1 < node.minimumNodes)
  }

  /** What `dispose` does: nothing to a subscriber already EVICTED, whose socket and timer thus stay. */
  function Disposed(sub: Sub): Sub
  {
    if sub.phase == EVICTED then sub else sub.(phase := EVICTED, open := false)
  }

  /** The subscriber gives its node up: EVICTED comes first, so that being told to dispose frees nothing. */
  function EvictRemote(b: Both, remote: string): Both
  {
    var sub := b.sub.(phase := EVICTED);
    Both(if remote in b.node.remotes then Disposed(sub) else sub, EvictFrom(b.node, remote, true))
  }

  /** Evicting the subscriber's own node disposes of the subscriber. */
  function EvictOther(b: Both, remote: string, id: string): Both
  {
    Both(if id == remote && id in b.node.remotes then Disposed(b.sub) else b.sub, EvictFrom(b.node, id, false))
  }

  function HandleBody(b: Both, local: string, remote: string, id: int, body: Body): Both
  {
    match body
    case Realtime(msg) =>
      var step := Handle(b.node.view, remote, Entry(id, msg));
      b.(node := b.node.(view := step.view,
                         selfEvictions := b.node.selfEvictions + if step.outcome == Done then 0 else 1))
    case PreventEviction(prevented) => b.(sub := b.sub.(prevented := prevented))
    case NodeEvicted(nodeId) =>
      if nodeId == local then b.(node := b.node.(shutdown := true)) else EvictOther(b, remote, nodeId)
    case NodeShutdown(nodeId) => EvictOther(b, remote, nodeId)
    case Other(throws) => b.(node := b.node.(selfEvictions := b.node.selfEvictions + if throws then 1 else 0))
  }

  /** What the id check looks at. */
  function CursorOf(sub: Sub): MessageOrder.Cursor
  {
    MessageOrder.Cursor(sub.phase == BUFFERING, sub.last)
  }

  function ProcessWire(b: Both, local: string, remote: string, w: Wire): Both
  {
    if b.sub.phase == EVICTED then b
    else if !w.knownTopic || w.messageId.None? then EvictRemote(b, remote)
    else
      var id := w.messageId.value;
      var check := MessageOrder.Validate(CursorOf(b.sub), id);
      var moved := b.(sub := b.sub.(last := check.cursor.last));
      match check.verdict
      case Skip => moved
      case Gap => moved.(node := b.node.(selfEvictions := b.node.selfEvictions + 1))
      case Accept => HandleBody(moved.(sub := moved.sub.(lastHeartbeat := w.at)), local, remote, id, w.body)
  }

  function WatchOf(sub: Sub): Watch
  {
    Watch(sub.phase, sub.lastHeartbeat)
  }

  /** A heartbeat check that turns the watch to EVICTED also evicts the remote node. */
  function CheckAt(b: Both, remote: string, delay: real, now: real): Both
  {
    if b.sub.prevented then b.(sub := b.sub.(lastHeartbeat := now))
    else
      var watch := Check(WatchOf(b.sub), delay, now);
      var sub := b.sub.(phase := watch.phase);
      if watch.phase == EVICTED && b.sub.phase != EVICTED then Both(sub, EvictFrom(b.node, remote, true))
      else b.(sub := sub)
  }

  function ProcessAll(b: Both, local: string, remote: string, wires: seq<Wire>): Both
  {
    if wires == [] then b
    else ProcessWire(ProcessAll(b, local, remote, wires[..|wires| - 1]), local, remote, wires[|wires| - 1])
  }

  lemma {:induction false} EvictedProcessesNothing(b: Both, local: string, remote: string, wires: seq<Wire>)
    requires b.sub.phase == EVICTED
    ensures ProcessAll(b, local, remote, wires) == b
  {
    if wires != [] {
      EvictedProcessesNothing(b, local, remote, wires[..|wires| - 1]);
    }
  }

  /* ---------- the subscriber against the id check and the cluster model ---------- */

  /** Well-formed messages other than evictions. */
  predicate Plain(w: Wire)
  {
    w.knownTopic && w.messageId.Some? && (w.body.Realtime? || w.body.PreventEviction? || w.body.Other?)
  }

  /** Those whose handlers outside the realtime state do not throw. */
  predicate Smooth(w: Wire)
  {
    Plain(w) && (w.body.Other? ==> !w.body.throws)
  }

  function IdsOf(wires: seq<Wire>): seq<int>
    requires forall i :: 0 <= i < |wires| ==> Plain(wires[i])
  {
    if wires == [] then [] else
      var w := wires[|wires| - 1];
      assert Plain(w);
      IdsOf(wires[..|wires| - 1]) + [w.messageId.value]
  }

  /** What the subscriber handles follows the id check: same cursor, and a request to leave after a gap. */
  lemma {:induction false} ProcessFollowsFeed(b: Both, local: string, remote: string, wires: seq<Wire>)
    requires forall i :: 0 <= i < |wires| ==> Plain(wires[i])
    requires b.sub.phase != EVICTED
    ensures var f := MessageOrder.Feed(MessageOrder.Fed(CursorOf(b.sub), [], false), IdsOf(wires));
            var r := ProcessAll(b, local, remote, wires);
            && r.sub.phase == b.sub.phase
            && f.cursor.buffering == (b.sub.phase == BUFFERING)
            && r.sub.last == f.cursor.last
            && (f.gap ==> r.node.selfEvictions > b.node.selfEvictions)
            && r.node.selfEvictions >= b.node.selfEvictions
  {
    if wires != [] {
      var rest := wires[..|wires| - 1];
      ProcessFollowsFeed(b, local, remote, rest);
      var ids := IdsOf(wires);
      assert ids == IdsOf(rest) + [wires[|wires| - 1].messageId.value];
      assert ids[..|ids| - 1] == IdsOf(rest);
      ProcessOneFollows(ProcessAll(b, local, remote, rest), local, remote, wires[|wires| - 1]);
    }
  }

  lemma ProcessOneFollows(b: Both, local: string, remote: string, w: Wire)
    requires Plain(w) && b.sub.phase != EVICTED
    ensures var check := MessageOrder.Validate(CursorOf(b.sub), w.messageId.value);
            var r := ProcessWire(b, local, remote, w);
            && r.sub.phase == b.sub.phase && r.sub.last == check.cursor.last
            && (check.verdict.Gap? ==> r.node.selfEvictions > b.node.selfEvictions)
            && r.node.selfEvictions >= b.node.selfEvictions
  {
  }

  /** Processing a realtime message does to the node's state what the cluster model says. */
  lemma WireIsClusterProcess(b: Both, local: string, remote: string, e: Entry, at: real, m: Cluster.Member)
    requires remote in m.links && m.links[remote].last == b.sub.last && b.sub.phase != EVICTED
    requires m.links[remote].phase == Cluster.Draining <==> b.sub.phase == BUFFERING
    requires m.view == b.node.view
    ensures var b' := ProcessWire(b, local, remote, Wire(true, Some(e.id), Realtime(e.msg), at));
            var m' := Cluster.Process(m, remote, e);
            && m'.view == b'.node.view
            && m'.links[remote].last == b'.sub.last
            && (m'.doomed <==> m.doomed || b'.node.selfEvictions > b.node.selfEvictions)
  {
    var check := MessageOrder.Validate(CursorOf(b.sub), e.id);
    assert CursorOf(b.sub) == Cluster.CursorOf(m.links[remote]);
    RealtimeWire(b, local, remote, e, at);
    ClusterWire(m, remote, e);
  }

  lemma RealtimeWire(b: Both, local: string, remote: string, e: Entry, at: real)
    requires b.sub.phase != EVICTED
    ensures var check := MessageOrder.Validate(CursorOf(b.sub), e.id);
            var step := Handle(b.node.view, remote, e);
            var b' := ProcessWire(b, local, remote, Wire(true, Some(e.id), Realtime(e.msg), at));
            && b'.node.view == (if check.verdict.Accept? then step.view else b.node.view)
            && b'.sub.last == check.cursor.last
            && (b'.node.selfEvictions > b.node.selfEvictions <==>
                  check.verdict.Gap? || (check.verdict.Accept? && step.outcome != Done))
  {
    assert Entry(e.id, e.msg) == e;
  }

  lemma ClusterWire(m: Cluster.Member, remote: string, e: Entry)
    requires remote in m.links
    ensures var check := MessageOrder.Validate(Cluster.CursorOf(m.links[remote]), e.id);
            var step := Handle(m.view, remote, e);
            var m' := Cluster.Process(m, remote, e);
            && m'.view == (if check.verdict.Accept? then step.view else m.view)
            && remote in m'.links && m'.links[remote] == m.links[remote].(last := check.cursor.last)
            && (m'.doomed <==> m.doomed || check.verdict.Gap? || (check.verdict.Accept? && step.outcome != Done))
  {
  }

  /* ---------- what `listen` does with a received message ---------- */

  /** Whether `listen` still runs and can receive something. */
  predicate Hears(sub: Sub)
  {
    sub.open && sub.listening
  }

  function Listening(b: Both, listening: bool): Both
  {
    b.(sub := b.sub.(listening := listening))
  }

  /**
   * One turn of `listen`, if it still runs. `receive` fails when nothing is received, or when the socket
   * is closed; a failure ends the loop, and so does whatever arrives while the subscriber is EVICTED.
   */
  function Heard(b: Both, local: string, remote: string, received: Option<Wire>): Both
  {
    if !b.sub.listening then b
    else if received.None? || !b.sub.open then
      Listening(if b.sub.phase == EVICTED then b else EvictRemote(b, remote), false)
    else if b.sub.phase == EVICTED then Listening(b, false)
    else if b.sub.phase == BUFFERING then WithBuffer(b, b.sub.buffer + [received.value])
    else
      var r := ProcessWire(b, local, remote, received.value);
      Listening(r, r.sub.phase != EVICTED)
  }

  /* ---------- heartbeat checks during the buffering ---------- */

  predicate WellFormed(w: Wire)
  {
    w.knownTopic && w.messageId.Some?
  }

  /** The id check after the well-formed ones of some messages. */
  function CursorAfter(c: MessageOrder.Cursor, wires: seq<Wire>): MessageOrder.Cursor
  {
    if wires == [] then c
    else
      var rest, last := CursorAfter(c, wires[..|wires| - 1]), wires[|wires| - 1];
      if WellFormed(last) then MessageOrder.Validate(rest, last.messageId.value).cursor else rest
  }

  predicate Accepted(c: MessageOrder.Cursor, w: Wire)
  {
    WellFormed(w) && MessageOrder.Validate(c, w.messageId.value).verdict.Accept?
  }

  /**
   * A heartbeat check ends the buffering unless eviction is prevented: late or not, the next message
   * is then processed before `sync`, and the node asks to leave exactly when it does not have the next id.
   */
  lemma CheckEndsBuffering(b: Both, local: string, remote: string, delay: real, now: real, w: Wire)
    requires b.sub.phase == BUFFERING && Hears(b.sub) && Plain(w)
    ensures var checked := CheckAt(b, remote, delay, now);
            var next := Heard(checked, local, remote, Some(w));
            && (checked.sub.phase == BUFFERING <==> b.sub.prevented)
            && (!b.sub.prevented ==>
                  checked.sub.phase == if now - b.sub.lastHeartbeat > delay then MISSING_HEARTBEAT else SANE)
            && checked.node == b.node && checked.sub.last == b.sub.last
            && (b.sub.prevented ==> next.node == b.node && next.sub.buffer == b.sub.buffer + [w])
            && (!b.sub.prevented && w.messageId.value != b.sub.last + 1 ==>
                  next.node == b.node.(selfEvictions := b.node.selfEvictions + 1))
            && (!b.sub.prevented && w.messageId == Some(b.sub.last + 1) && w.body.Realtime? ==>
                  next.node.view == Handle(b.node.view, remote, Entry(b.sub.last + 1, w.body.msg)).view
                  && next.sub.lastHeartbeat == w.at)
  {
  }

  /** Two checks in a row evict the remote node of a buffering subscriber exactly when both find it late. */
  lemma TwoChecksEvictIff(b: Both, remote: string, delay: real, now: real, next: real)
    requires b.sub.phase == BUFFERING
    ensures var twice := CheckAt(CheckAt(b, remote, delay, now), remote, delay, next);
            && (twice.sub.phase == EVICTED <==>
                  !b.sub.prevented && now - b.sub.lastHeartbeat > delay && next - b.sub.lastHeartbeat > delay)
            && (twice.sub.phase == EVICTED ==> remote !in twice.node.remotes)
  {
  }

  function HeardAll(b: Both, local: string, remote: string, wires: seq<Wire>): Both
  {
    if wires == [] then b
    else Heard(HeardAll(b, local, remote, wires[..|wires| - 1]), local, remote, Some(wires[|wires| - 1]))
  }

  /** Messages put aside are no heartbeats. */
  lemma {:induction false} BufferedAreNoHeartbeats(b: Both, local: string, remote: string, wires: seq<Wire>)
    requires b.sub.phase == BUFFERING && Hears(b.sub)
    ensures HeardAll(b, local, remote, wires) == WithBuffer(b, b.sub.buffer + wires)
  {
    if wires != [] {
      BufferedAreNoHeartbeats(b, local, remote, wires[..|wires| - 1]);
      assert wires == wires[..|wires| - 1] + [wires[|wires| - 1]];
    } else {
      assert b.sub.buffer + wires == b.sub.buffer;
    }
  }

  /** Messages that are not accepted leave the heartbeat and the view as they were. */
  lemma {:induction false} RefusedAreNoHeartbeats(b: Both, local: string, remote: string, wires: seq<Wire>)
    requires forall i :: 0 <= i < |wires| ==> Plain(wires[i])
    requires b.sub.phase != EVICTED && b.sub.phase != BUFFERING && Hears(b.sub)
    requires MessageOrder.Feed(MessageOrder.Fed(MessageOrder.Cursor(false, b.sub.last), [], false),
             IdsOf(wires)).accepted == []
    ensures var r := HeardAll(b, local, remote, wires);
            && r == ProcessAll(b, local, remote, wires)
            && r.sub == b.sub.(last := r.sub.last) && r.node == b.node.(selfEvictions := r.node.selfEvictions)
  {
    if wires != [] {
      var rest := wires[..|wires| - 1];
      var ids := IdsOf(wires);
      assert ids[..|ids| - 1] == IdsOf(rest);
      RefusedAreNoHeartbeats(b, local, remote, rest);
      ProcessFollowsFeed(b, local, remote, rest);
    }
  }

  /** When the last message that the id check accepts was handled; `start` if it accepts none. */
  function LastBeat(c: MessageOrder.Cursor, wires: seq<Wire>, start: real): real
  {
    if wires == [] then start
    else
      var rest, last := wires[..|wires| - 1], wires[|wires| - 1];
      if Accepted(CursorAfter(c, rest), last) then last.at else LastBeat(c, rest, start)
  }

  /** What the last accepted message about it says of eviction prevention; `start` if there is none. */
  function PreventedAfter(c: MessageOrder.Cursor, wires: seq<Wire>, start: bool): bool
  {
    if wires == [] then start
    else
      var rest, last := wires[..|wires| - 1], wires[|wires| - 1];
      if Accepted(CursorAfter(c, rest), last) && last.body.PreventEviction? then last.body.prevented
      else PreventedAfter(c, rest, start)
  }

  /** Once live, each accepted message counts as a heartbeat, and the other ones do not. */
  lemma {:induction false} AcceptedAreHeartbeats(b: Both, local: string, remote: string, wires: seq<Wire>)
    requires forall i :: 0 <= i < |wires| ==> Plain(wires[i])
    requires b.sub.phase != EVICTED && b.sub.phase != BUFFERING && Hears(b.sub)
    ensures var r := HeardAll(b, local, remote, wires).sub;
            var c := CursorOf(b.sub);
            && r.phase == b.sub.phase && Hears(r) && CursorOf(r) == CursorAfter(c, wires)
            && r.lastHeartbeat == LastBeat(c, wires, b.sub.lastHeartbeat)
            && r.prevented == PreventedAfter(c, wires, b.sub.prevented)
  {
    if wires != [] {
      AcceptedAreHeartbeats(b, local, remote, wires[..|wires| - 1]);
      assert Plain(wires[|wires| - 1]);
    }
  }

  /**
   * A handshake that lasts for two checks: whatever was put aside before the first one and comes between
   * the two, the second evicts the remote node exactly when both find it late, the second with respect to
   * the last accepted message, and eviction is prevented at neither.
   */
  lemma SlowHandshakeEvictsIff(b: Both, local: string, remote: string, delay: real, before: seq<Wire>,
                               between: seq<Wire>, now: real, next: real)
    requires b.sub.phase == BUFFERING && Hears(b.sub) && forall i :: 0 <= i < |between| ==> Plain(between[i])
    ensures var checked := CheckAt(HeardAll(b, local, remote, before), remote, delay, now);
            var twice := CheckAt(HeardAll(checked, local, remote, between), remote, delay, next);
            var c := MessageOrder.Cursor(false, b.sub.last);
            && (twice.sub.phase == EVICTED <==>
                  && !b.sub.prevented && now - b.sub.lastHeartbeat > delay
                  && !PreventedAfter(c, between, false) && next - LastBeat(c, between, b.sub.lastHeartbeat) > delay)
            && (twice.sub.phase == EVICTED ==> remote !in twice.node.remotes)
  {
    BufferedAreNoHeartbeats(b, local, remote, before);
    var checked := CheckAt(HeardAll(b, local, remote, before), remote, delay, now);
    if b.sub.prevented {
      BufferedAreNoHeartbeats(checked, local, remote, between);
    } else {
      AcceptedAreHeartbeats(checked, local, remote, between);
    }
  }

  /**
   * A handshake slower than two checks: whatever was put aside before the first one, and whatever
   * comes between the two with ids beyond the next one, the remote node is evicted by the second.
   */
  lemma SlowHandshakeEvicts(b: Both, local: string, remote: string, delay: real, before: seq<Wire>, between: seq<Wire>,
                            now: real, next: real)
    requires b.sub.phase == BUFFERING && Hears(b.sub) && !b.sub.prevented
    requires now - b.sub.lastHeartbeat > delay && next >= now
    requires (forall i :: 0 <= i < |between| ==> Plain(between[i])) && MessageOrder.Increasing(IdsOf(between))
    requires between != [] ==> IdsOf(between)[0] > b.sub.last + 1
    ensures var checked := CheckAt(HeardAll(b, local, remote, before), remote, delay, now);
            var twice := CheckAt(HeardAll(checked, local, remote, between), remote, delay, next);
            twice.sub.phase == EVICTED && remote !in twice.node.remotes
  {
    BufferedAreNoHeartbeats(b, local, remote, before);
    var checked := CheckAt(HeardAll(b, local, remote, before), remote, delay, now);
    var start := MessageOrder.Fed(MessageOrder.Cursor(false, b.sub.last), [], false);
    var ids := IdsOf(between);
    if between == [] {
      assert ids == [];
    } else {
      assert [ids[0]] + ids[1..] == ids;
      MessageOrder.GapAheadIsFinal(start, ids[0], ids[1..]);
    }
    RefusedAreNoHeartbeats(checked, local, remote, between);
  }

  /* ---------- who is evicted, who is told, and when the node shuts down ---------- */

  /** What an accepted message about the departure of node `x` does; the local node itself is told to shut down. */
  lemma DepartureMeans(b: Both, local: string, remote: string, w: Wire, x: string)
    requires b.sub.phase != EVICTED && Accepted(CursorOf(b.sub), w)
    requires w.body == NodeEvicted(x) || w.body == NodeShutdown(x)
    ensures var r := ProcessWire(b, local, remote, w).node;
            if w.body == NodeEvicted(local) then r == b.node.(shutdown := true)
            else if x !in b.node.remotes then r == b.node
            else Departed(b.node, r, x) && r.announced == b.node.announced
  {
    RemoveNodeIsLocal(b.node.view, x);
  }

  /** Node `x`, and nothing else, is gone. */
  ghost predicate Departed(before: Node, after: Node, x: string)
  {
    && x in before.remotes && after.remotes == before.remotes - {x}
    && Share(after.view, x) == map[] && (forall n :: n != x ==> Share(after.view, n) == Share(before.view, n))
    && after.view.strategies == before.view.strategies
    && after.toldToDispose == before.toldToDispose + {x}
    && (after.deactivated <==> before.deactivated || |after.remotes| + 1 < before.minimumNodes)
    && after.selfEvictions == before.selfEvictions && after.shutdown == before.shutdown
    && after.minimumNodes == before.minimumNodes
  }

  /** The subscriber gives up its own node, which is announced, for a malformed message. */
  lemma MalformedMeans(b: Both, local: string, remote: string, w: Wire)
    requires b.sub.phase != EVICTED && !WellFormed(w)
    ensures var r := ProcessWire(b, local, remote, w);
            && r.sub == b.sub.(phase := EVICTED)
            && if remote !in b.node.remotes then r.node == b.node
               else Departed(b.node, r.node, remote) && r.node.announced == b.node.announced + [remote]
  {
    RemoveNodeIsLocal(b.node.view, remote);
  }

  /** It does so too when the socket fails, or when a check finds two heartbeats missing. */
  lemma SilenceMeans(b: Both, local: string, remote: string, delay: real, now: real)
    requires b.sub.phase != EVICTED && remote in b.node.remotes
    ensures var failed := Heard(b, local, remote, None);
            b.sub.listening ==>
              && failed.sub == b.sub.(phase := EVICTED, listening := false)
              && Departed(b.node, failed.node, remote) && failed.node.announced == b.node.announced + [remote]
    ensures var checked := CheckAt(b, remote, delay, now);
            if !b.sub.prevented && b.sub.phase == MISSING_HEARTBEAT && now - b.sub.lastHeartbeat > delay then
              && checked.sub == b.sub.(phase := EVICTED)
              && Departed(b.node, checked.node, remote) && checked.node.announced == b.node.announced + [remote]
            else checked.node == b.node && checked.sub.phase != EVICTED
  {
    RemoveNodeIsLocal(b.node.view, remote);
  }

  /** A message, processed in this state, makes the local node give `x` up. */
  predicate Drops(b: Both, local: string, remote: string, w: Wire, x: string)
  {
    && b.sub.phase != EVICTED
    && if !WellFormed(w) then x == remote
       else Accepted(CursorOf(b.sub), w) && (w.body == NodeShutdown(x) || (w.body == NodeEvicted(x) && x != local))
  }

  predicate Malformed(b: Both, w: Wire)
  {
    b.sub.phase != EVICTED && !WellFormed(w)
  }

  predicate ShutsDown(b: Both, local: string, w: Wire)
  {
    b.sub.phase != EVICTED && Accepted(CursorOf(b.sub), w) && w.body == NodeEvicted(local)
  }

  /** Some of the messages makes the local node give `x` up, in the state that it meets. */
  predicate DroppedIn(b: Both, local: string, remote: string, wires: seq<Wire>, x: string)
  {
    wires != [] &&
      (var rest := wires[..|wires| - 1];
       || DroppedIn(b, local, remote, rest, x)
       || Drops(ProcessAll(b, local, remote, rest), local, remote, wires[|rest|], x))
  }

  predicate MalformedIn(b: Both, local: string, remote: string, wires: seq<Wire>)
  {
    wires != [] &&
      (var rest := wires[..|wires| - 1];
       MalformedIn(b, local, remote, rest) || Malformed(ProcessAll(b, local, remote, rest), wires[|rest|]))
  }

  predicate ShutDownIn(b: Both, local: string, remote: string, wires: seq<Wire>)
  {
    wires != [] &&
      (var rest := wires[..|wires| - 1];
       ShutDownIn(b, local, remote, rest) || ShutsDown(ProcessAll(b, local, remote, rest), local, wires[|rest|]))
  }

  /**
   * Over any messages: the nodes that are left are those that no message gave up, the remote node is announced
   * exactly when it was given up for a malformed message, and the local node is told to shut down exactly
   * when some accepted message says that it was evicted.
   */
  lemma {:induction false} PlayedAccounts(b: Both, local: string, remote: string, wires: seq<Wire>)
    requires b.sub.phase != EVICTED
    ensures var r := ProcessAll(b, local, remote, wires);
            && Accounts(b, local, remote, wires, r)
            && (r.sub.phase != EVICTED ==>
                  !MalformedIn(b, local, remote, wires) && (remote in b.node.remotes ==> remote in r.node.remotes))
  {
    if wires != [] {
      var n := |wires| - 1;
      var rest := wires[..n];
      PlayedAccounts(b, local, remote, rest);
      AccountStep(ProcessAll(b, local, remote, rest), local, remote, wires[n]);
    } else {
      assert b.node.announced + [] == b.node.announced;
    }
  }

  ghost predicate Accounts(b: Both, local: string, remote: string, wires: seq<Wire>, r: Both)
  {
    && (forall x :: x in r.node.remotes <==> x in b.node.remotes && !DroppedIn(b, local, remote, wires, x))
    && r.node.announced == b.node.announced
       + (if remote in b.node.remotes && MalformedIn(b, local, remote, wires) then [remote] else [])
    && (r.node.shutdown <==> b.node.shutdown || ShutDownIn(b, local, remote, wires))
  }

  lemma AccountStep(b: Both, local: string, remote: string, w: Wire)
    ensures var r := ProcessWire(b, local, remote, w);
            && (forall x :: x in r.node.remotes <==> x in b.node.remotes && !Drops(b, local, remote, w, x))
            && r.node.announced ==
               (if remote in b.node.remotes && Malformed(b, w) then b.node.announced + [remote] else b.node.announced)
            && (r.node.shutdown <==> b.node.shutdown || ShutsDown(b, local, w))
            && (r.sub.phase != EVICTED ==>
                  b.sub.phase != EVICTED && !Malformed(b, w)
                  && (remote in b.node.remotes ==> remote in r.node.remotes))
  {
    if b.sub.phase != EVICTED && Accepted(CursorOf(b.sub), w) {
      var last := MessageOrder.Validate(CursorOf(b.sub), w.messageId.value).cursor.last;
      var moved := b.(sub := b.sub.(last := last, lastHeartbeat := w.at));
      assert ProcessWire(b, local, remote, w) == HandleBody(moved, local, remote, w.messageId.value, w.body);
      HandledAccounts(moved, local, remote, w.messageId.value, w.body);
    }
  }

  lemma HandledAccounts(b: Both, local: string, remote: string, id: int, body: Body)
    ensures var r := HandleBody(b, local, remote, id, body);
            && (forall x :: x in r.node.remotes <==>
                  x in b.node.remotes && body != NodeShutdown(x) && !(body == NodeEvicted(x) && x != local))
            && r.node.announced == b.node.announced
            && (r.node.shutdown <==> b.node.shutdown || body == NodeEvicted(local))
            && (r.sub.phase != EVICTED ==> (remote in b.node.remotes ==> remote in r.node.remotes))
  {
  }

  /** Once EVICTED, whatever `receive` gives only ends the loop. */
  lemma EvictedHearsNothing(b: Both, local: string, remote: string, received: Option<Wire>)
    requires b.sub.phase == EVICTED
    ensures Heard(b, local, remote, received) == Listening(b, false)
  {
  }

  /**
   * Under eviction prevention a check is a heartbeat: nothing else changes, and when prevention is over the
   * next check finds the node late only after another delay.
   */
  lemma PreventedCheckIsHeartbeat(b: Both, remote: string, delay: real, now: real, next: real)
    requires b.sub.prevented && b.sub.phase != EVICTED
    ensures var checked := CheckAt(b, remote, delay, now);
            var over := checked.(sub := checked.sub.(prevented := false));
            && checked == b.(sub := b.sub.(lastHeartbeat := now))
            && (CheckAt(over, remote, delay, next).sub.phase == SANE <==> next - now <= delay)
  {
  }

  /** The handler of an accepted message throws: another topic's does, or the message does not fit the counters. */
  predicate Fails(b: Both, remote: string, w: Wire)
    requires w.messageId.Some?
  {
    || w.body == Other(true)
    || (w.body.Realtime? && !LocalStep(Share(b.node.view, remote), Entry(w.messageId.value, w.body.msg)).ok)
  }

  /** The local node asks to leave, once, exactly for a gap and for an accepted message that cannot be handled. */
  lemma AsksToLeaveIff(b: Both, defs: string -> RoomDef, local: string, remote: string, w: Wire)
    requires b.sub.phase != EVICTED && WellFormed(w)
    requires Coherent(b.node.view, defs) && (w.body.Realtime? ==> Agrees(w.body.msg, defs))
    ensures var verdict := MessageOrder.Validate(CursorOf(b.sub), w.messageId.value).verdict;
            ProcessWire(b, local, remote, w).node.selfEvictions == b.node.selfEvictions
            + if verdict.Gap? || (verdict.Accept? && Fails(b, remote, w)) then 1 else 0
  {
    if w.body.Realtime? {
      HandleIsLocal(b.node.view, defs, remote, Entry(w.messageId.value, w.body.msg));
    }
  }

  /* ---------- evictions during `sync` ---------- */

  /** A message that makes the local node forget the publisher. */
  predicate Forgets(c: MessageOrder.Cursor, w: Wire, local: string, remote: string)
  {
    || !WellFormed(w)
    || (Accepted(c, w) && (w.body == NodeShutdown(remote) || (w.body == NodeEvicted(remote) && remote != local)))
  }

  /** Some message, the ones before it being well formed, is malformed or an accepted eviction of the publisher. */
  ghost predicate SomeForgets(c: MessageOrder.Cursor, wires: seq<Wire>, local: string, remote: string)
  {
    exists i :: 0 <= i < |wires| && ForgetsAt(c, wires, i, local, remote)
  }

  predicate ForgetsAt(c: MessageOrder.Cursor, wires: seq<Wire>, i: nat, local: string, remote: string)
    requires i < |wires|
  {
    (forall j :: 0 <= j < i ==> WellFormed(wires[j])) && Forgets(CursorAfter(c, wires[..i]), wires[i], local, remote)
  }

  /** The subscriber of a known publisher, buffering with an open socket. */
  predicate Kept(b: Both, remote: string)
  {
    b.sub.phase == BUFFERING && remote in b.node.remotes && b.sub.open
  }

  predicate Forgotten(b: Both, remote: string)
  {
    b.sub.phase == EVICTED && remote !in b.node.remotes && Share(b.node.view, remote) == map[]
  }

  lemma EvictedIsForgotten(node: Node, remote: string, broadcast: bool)
    requires remote in node.remotes
    ensures var r := EvictFrom(node, remote, broadcast); remote !in r.remotes && Share(r.view, remote) == map[]
  {
    RemoveNodeIsLocal(node.view, remote);
  }

  /** While it plays its buffer, the subscriber is evicted exactly when the local node forgets the publisher. */
  lemma PlayedForgets(b: Both, local: string, remote: string, w: Wire)
    requires Kept(b, remote)
    ensures var c := MessageOrder.Cursor(true, b.sub.last);
            var r := ProcessWire(b, local, remote, w);
            if Forgets(c, w, local, remote) then Forgotten(r, remote) && (r.sub.open <==> !WellFormed(w))
            else Kept(r, remote) && r.sub.last == MessageOrder.Validate(c, w.messageId.value).cursor.last
  {
    if WellFormed(w) {
      var c := MessageOrder.Cursor(true, b.sub.last);
      var check := MessageOrder.Validate(c, w.messageId.value);
      if check.verdict.Accept? {
        var moved := b.(sub := b.sub.(last := check.cursor.last, lastHeartbeat := w.at));
        assert ProcessWire(b, local, remote, w) == HandleBody(moved, local, remote, w.messageId.value, w.body);
        HandledForgets(moved, local, remote, w.messageId.value, w.body);
      }
    } else {
      EvictedIsForgotten(b.node, remote, true);
    }
  }

  lemma HandledForgets(b: Both, local: string, remote: string, id: int, body: Body)
    requires Kept(b, remote)
    ensures var r := HandleBody(b, local, remote, id, body);
            if body == NodeShutdown(remote) || (body == NodeEvicted(remote) && remote != local) then
              Forgotten(r, remote) && !r.sub.open
            else Kept(r, remote) && r.sub.last == b.sub.last
  {
    EvictedIsForgotten(b.node, remote, false);
  }

  /** The first message that makes the local node forget the publisher is a malformed one. */
  ghost predicate MalformedFirst(c: MessageOrder.Cursor, wires: seq<Wire>, local: string, remote: string)
  {
    exists i :: 0 <= i < |wires| && FirstForgets(c, wires, i, local, remote) && !WellFormed(wires[i])
  }

  ghost predicate FirstForgets(c: MessageOrder.Cursor, wires: seq<Wire>, i: nat, local: string, remote: string)
    requires i < |wires|
  {
    ForgetsAt(c, wires, i, local, remote) && forall j :: 0 <= j < i ==> !ForgetsAt(c, wires, j, local, remote)
  }

  /** What playing some messages has come to: forgotten, or kept with the cursor of the id check. */
  ghost predicate PlayedTo(c: MessageOrder.Cursor, wires: seq<Wire>, local: string, remote: string, r: Both)
  {
    if SomeForgets(c, wires, local, remote) then
      Forgotten(r, remote) && (r.sub.open <==> MalformedFirst(c, wires, local, remote))
    else
      && Kept(r, remote) && (forall i :: 0 <= i < |wires| ==> WellFormed(wires[i]))
      && MessageOrder.Cursor(true, r.sub.last) == CursorAfter(c, wires)
  }

  lemma {:induction false} PlayedForgetsIff(b: Both, local: string, remote: string, wires: seq<Wire>)
    requires Kept(b, remote)
    ensures PlayedTo(MessageOrder.Cursor(true, b.sub.last), wires, local, remote, ProcessAll(b, local, remote, wires))
  {
    if wires != [] {
      var n := |wires| - 1;
      PlayedForgetsIff(b, local, remote, wires[..n]);
      PlayedOneMore(MessageOrder.Cursor(true, b.sub.last), ProcessAll(b, local, remote, wires[..n]), local, remote,
          wires);
    }
  }

  lemma PlayedOneMore(c: MessageOrder.Cursor, before: Both, local: string, remote: string, wires: seq<Wire>)
    requires wires != [] && PlayedTo(c, wires[..|wires| - 1], local, remote, before)
    ensures PlayedTo(c, wires, local, remote, ProcessWire(before, local, remote, wires[|wires| - 1]))
  {
    var n := |wires| - 1;
    ForgetsMore(c, wires, local, remote);
    MalformedFirstMore(c, wires, wires[..n], local, remote);
    if !SomeForgets(c, wires[..n], local, remote) {
      PlayedForgets(before, local, remote, wires[n]);
      assert forall i :: 0 <= i < n ==> wires[..n][i] == wires[i];
      ForgetsLast(c, wires, local, remote);
    }
  }

  lemma ForgetsLast(c: MessageOrder.Cursor, wires: seq<Wire>, local: string, remote: string)
    requires wires != [] && forall i :: 0 <= i < |wires| - 1 ==> WellFormed(wires[i])
    ensures var n := |wires| - 1;
            ForgetsAt(c, wires, n, local, remote) <==> Forgets(CursorAfter(c, wires[..n]), wires[n], local, remote)
  {
  }

  lemma ForgetsMore(c: MessageOrder.Cursor, wires: seq<Wire>, local: string, remote: string)
    requires wires != []
    ensures var n := |wires| - 1;
            SomeForgets(c, wires, local, remote) <==>
              SomeForgets(c, wires[..n], local, remote) || ForgetsAt(c, wires, n, local, remote)
  {
    SameBefore(c, wires, wires[..|wires| - 1], local, remote);
  }

  lemma SameBefore(c: MessageOrder.Cursor, wires: seq<Wire>, rest: seq<Wire>, local: string, remote: string)
    requires wires != [] && rest == wires[..|wires| - 1]
    ensures forall i :: 0 <= i < |rest| ==>
              (ForgetsAt(c, rest, i, local, remote) <==> ForgetsAt(c, wires, i, local, remote))
  {
    forall i | 0 <= i < |rest| ensures ForgetsAt(c, rest, i, local, remote) <==> ForgetsAt(c, wires, i, local, remote) {
      assert rest[..i] == wires[..i];
    }
  }

  lemma MalformedFirstMore(c: MessageOrder.Cursor, wires: seq<Wire>, rest: seq<Wire>, local: string, remote: string)
    requires wires != [] && rest == wires[..|wires| - 1]
    ensures MalformedFirst(c, wires, local, remote) <==>
              if SomeForgets(c, rest, local, remote) then MalformedFirst(c, rest, local, remote)
              else ForgetsAt(c, wires, |rest|, local, remote) && !WellFormed(wires[|rest|])
  {
    SameBefore(c, wires, rest, local, remote);
    forall i | 0 <= i < |rest|
      ensures FirstForgets(c, rest, i, local, remote) <==> FirstForgets(c, wires, i, local, remote)
    {
    }
    if !SomeForgets(c, rest, local, remote) && ForgetsAt(c, wires, |rest|, local, remote) {
      assert FirstForgets(c, wires, |rest|, local, remote);
    }
  }

  /** The end of `sync`, after playing some messages: SANE, whether or not `listen` still runs. */
  function Synced(b: Both, local: string, remote: string, wires: seq<Wire>, listening: bool): Both
  {
    var played := ProcessAll(b, local, remote, wires);
    played.(sub := played.sub.(phase := SANE, listening := listening))
  }

  /**
   * `sync` ends with SANE whatever happened meanwhile. It ends so with the publisher forgotten exactly
   * when some message it played is malformed, or is an accepted eviction or shutdown of the publisher.
   * Its messages are then still received exactly when a malformed one came first, for an eviction
   * closes the socket, and nothing more arrived before the end of `sync`, for that ends `listen`.
   */
  lemma SyncRevivesIff(b: Both, local: string, remote: string, wires: seq<Wire>, listening: bool)
    requires Kept(b, remote)
    ensures var synced := Synced(b, local, remote, wires, listening);
            var c := MessageOrder.Cursor(true, b.sub.last);
            && (remote !in synced.node.remotes <==> SomeForgets(c, wires, local, remote))
            && (remote !in synced.node.remotes ==> Share(synced.node.view, remote) == map[])
            && (Hears(synced.sub) <==>
                  listening && (SomeForgets(c, wires, local, remote) ==> MalformedFirst(c, wires, local, remote)))
  {
    PlayedForgetsIff(b, local, remote, wires);
  }

  /** The messages as entries of the publisher's log. */
  function EntryOf(w: Wire): Entry
    requires Smooth(w)
  {
    Entry(w.messageId.value, if w.body.Realtime? then w.body.msg else Inert)
  }

  function EntriesOf(wires: seq<Wire>): (entries: seq<Entry>)
    requires forall i :: 0 <= i < |wires| ==> Smooth(wires[i])
    ensures |entries| == |wires| && forall i :: 0 <= i < |wires| ==> entries[i] == EntryOf(wires[i])
  {
    if wires == [] then []
    else
      assert Smooth(wires[|wires| - 1]);
      EntriesOf(wires[..|wires| - 1]) + [EntryOf(wires[|wires| - 1])]
  }

  /** Whether all realtime messages speak of the rooms as they are defined. */
  predicate AllAgree(wires: seq<Wire>, defs: string -> RoomDef)
  {
    forall i :: 0 <= i < |wires| ==> wires[i].body.Realtime? ==> Agrees(wires[i].body.msg, defs)
  }

  lemma {:induction false} PlayedKeepsCoherent(b: Both, defs: string -> RoomDef, local: string, remote: string,
                                               wires: seq<Wire>)
    requires Coherent(b.node.view, defs) && AllAgree(wires, defs)
    ensures Coherent(ProcessAll(b, local, remote, wires).node.view, defs)
  {
    if wires != [] {
      var n := |wires| - 1;
      PlayedKeepsCoherent(b, defs, local, remote, wires[..n]);
      WireKeepsCoherent(ProcessAll(b, local, remote, wires[..n]), defs, local, remote, wires[n]);
    }
  }

  lemma WireKeepsCoherent(b: Both, defs: string -> RoomDef, local: string, remote: string, w: Wire)
    requires Coherent(b.node.view, defs) && (w.body.Realtime? ==> Agrees(w.body.msg, defs))
    ensures Coherent(ProcessWire(b, local, remote, w).node.view, defs)
  {
    RemoveNodeErases(b.node.view, defs, remote);
    if w.messageId.Some? {
      match w.body
      case Realtime(msg) => HandleIsLocal(b.node.view, defs, remote, Entry(w.messageId.value, msg));
      case NodeEvicted(id) => RemoveNodeErases(b.node.view, defs, id);
      case NodeShutdown(id) => RemoveNodeErases(b.node.view, defs, id);
      case _ =>
    }
  }

  /** Messages with the ids that follow `last`, without a hole. */
  predicate Follow(last: int, later: seq<Wire>)
  {
    forall i :: 0 <= i < |later| ==> Smooth(later[i]) && later[i].messageId == Some(last + 1 + i)
  }

  /**
   * What comes of a publisher forgotten during `sync`. If its messages are still received, those that
   * follow with the next ids give it counters again, as if its log started there, until one of them does
   * not fit and the node asks to leave. Otherwise nothing it sends changes the node.
   */
  lemma ForgottenComesBack(b: Both, defs: string -> RoomDef, local: string, remote: string, wires: seq<Wire>,
                           listening: bool, later: seq<Wire>)
    requires Kept(b, remote) && SomeForgets(MessageOrder.Cursor(true, b.sub.last), wires, local, remote)
    requires Coherent(b.node.view, defs) && AllAgree(wires, defs) && AllAgree(later, defs)
    requires Follow(Synced(b, local, remote, wires, listening).sub.last, later)
    ensures ComesBackIf(Synced(b, local, remote, wires, listening), defs, local, remote, later,
                        listening && MalformedFirst(MessageOrder.Cursor(true, b.sub.last), wires, local, remote))
  {
    ForgottenAfterSync(b, defs, local, remote, wires, listening);
    AfterSync(Synced(b, local, remote, wires, listening), defs, local, remote, later);
  }

  /** The publisher comes back with these messages if they are heard, and they change nothing otherwise. */
  ghost predicate ComesBackIf(b: Both, defs: string -> RoomDef, local: string, remote: string, later: seq<Wire>,
                              heard: bool)
    requires Follow(b.sub.last, later)
  {
    var r := HeardAll(b, local, remote, later);
    if heard then ComesBack(b, r, defs, remote, EntriesOf(later))
    else r.node == b.node && Share(r.node.view, remote) == map[]
  }

  lemma ForgottenAfterSync(b: Both, defs: string -> RoomDef, local: string, remote: string, wires: seq<Wire>,
                           listening: bool)
    requires Kept(b, remote) && SomeForgets(MessageOrder.Cursor(true, b.sub.last), wires, local, remote)
    requires Coherent(b.node.view, defs) && AllAgree(wires, defs)
    ensures var synced := Synced(b, local, remote, wires, listening);
            && synced.sub.phase == SANE && remote !in synced.node.remotes && Share(synced.node.view, remote) == map[]
            && Coherent(synced.node.view, defs)
            && (Hears(synced.sub) <==>
                  listening && MalformedFirst(MessageOrder.Cursor(true, b.sub.last), wires, local, remote))
  {
    SyncRevivesIff(b, local, remote, wires, listening);
    PlayedKeepsCoherent(b, defs, local, remote, wires);
  }

  lemma AfterSync(b: Both, defs: string -> RoomDef, local: string, remote: string, later: seq<Wire>)
    requires b.sub.phase == SANE && remote !in b.node.remotes && Share(b.node.view, remote) == map[]
    requires Coherent(b.node.view, defs) && AllAgree(later, defs) && Follow(b.sub.last, later)
    ensures ComesBackIf(b, defs, local, remote, later, Hears(b.sub))
  {
    if Hears(b.sub) {
      HeardComesBack(b, defs, local, remote, later);
    } else {
      DeafChangesNothing(b, local, remote, later);
    }
  }

  lemma {:induction false} DeafChangesNothing(b: Both, local: string, remote: string, later: seq<Wire>)
    requires !Hears(b.sub) && remote !in b.node.remotes
    ensures var r := HeardAll(b, local, remote, later); r.node == b.node && !Hears(r.sub)
  {
    if later != [] {
      DeafChangesNothing(b, local, remote, later[..|later| - 1]);
    }
  }

  /** A forgotten publisher has the counters of the entries heard since, unless the node has asked to leave. */
  ghost predicate ComesBack(b: Both, r: Both, defs: string -> RoomDef, remote: string, entries: seq<Entry>)
  {
    && remote !in r.node.remotes && r.sub.phase == SANE && Hears(r.sub) && r.sub.last == b.sub.last + |entries|
    && Coherent(r.node.view, defs) && r.node.selfEvictions >= b.node.selfEvictions
    && (Fold(entries).ok <==> r.node.selfEvictions == b.node.selfEvictions)
    && (Fold(entries).ok ==> Share(r.node.view, remote) == Fold(entries).cells)
  }

  lemma {:induction false} HeardComesBack(b: Both, defs: string -> RoomDef, local: string, remote: string,
                                          later: seq<Wire>)
    requires b.sub.phase == SANE && Hears(b.sub) && remote !in b.node.remotes && Share(b.node.view, remote) == map[]
    requires Coherent(b.node.view, defs) && AllAgree(later, defs) && Follow(b.sub.last, later)
    ensures ComesBack(b, HeardAll(b, local, remote, later), defs, remote, EntriesOf(later))
  {
    if later != [] {
      var n := |later| - 1;
      var rest, w := later[..n], later[n];
      HeardComesBack(b, defs, local, remote, rest);
      assert Smooth(w) && w.messageId == Some(b.sub.last + 1 + n) && Agrees(EntryOf(w).msg, defs);
      OneMoreComesBack(b, HeardAll(b, local, remote, rest), defs, local, remote, EntriesOf(rest), w);
      assert EntriesOf(later) == EntriesOf(rest) + [EntryOf(w)];
    }
  }

  lemma OneMoreComesBack(b: Both, r: Both, defs: string -> RoomDef, local: string, remote: string, entries: seq<Entry>,
                         w: Wire)
    requires ComesBack(b, r, defs, remote, entries)
    requires Smooth(w) && w.messageId.value == r.sub.last + 1 && Agrees(EntryOf(w).msg, defs)
    ensures ComesBack(b, Heard(r, local, remote, Some(w)), defs, remote, entries + [EntryOf(w)])
  {
    FoldAppended(entries, EntryOf(w));
    HandleIsLocal(r.node.view, defs, remote, EntryOf(w));
    SmoothIsHandled(r, local, remote, w);
  }

  /** An accepted message other than an eviction does to the state what its entry says. */
  lemma SmoothIsHandled(b: Both, local: string, remote: string, w: Wire)
    requires Smooth(w) && b.sub.phase == SANE && Hears(b.sub) && w.messageId.value == b.sub.last + 1
    ensures var step := Handle(b.node.view, remote, EntryOf(w));
            var r := Heard(b, local, remote, Some(w));
            && r.node.view == step.view && r.node.remotes == b.node.remotes && r.sub.phase == SANE && Hears(r.sub)
            && r.sub.last == b.sub.last + 1
            && r.node.selfEvictions == b.node.selfEvictions + if step.outcome == Done then 0 else 1
  {
  }

  /** A malformed message with an id already seen, last in the buffer: the next message brings the publisher back. */
  lemma StaleMalformedComesBack(b: Both, local: string, remote: string, malformed: Wire, w: Wire, room: string,
                                kindex: string, filters: string)
    requires Kept(b, remote) && Hears(b.sub) && room !in b.node.view.rooms
    requires !malformed.knownTopic && malformed.messageId == Some(b.sub.last)
    requires w == Wire(true, Some(b.sub.last + 1), Realtime(NewRoom(room, kindex, filters)), w.at)
    ensures var synced := Synced(b, local, remote, [malformed], true);
            var r := Heard(synced, local, remote, Some(w));
            && remote !in r.node.remotes && r.node.selfEvictions == b.node.selfEvictions
            && room in Share(r.node.view, remote)
  {
    var c := MessageOrder.Cursor(true, b.sub.last);
    assert ProcessAll(b, local, remote, [malformed][..0]) == b;
    RemoveNodeIsLocal(b.node.view, remote);
  }

  /** If that message carried the next id, the one after it is a gap, and the node asks to leave. */
  lemma MalformedNextIsGap(b: Both, local: string, remote: string, malformed: Wire, w: Wire)
    requires Kept(b, remote) && Hears(b.sub) && Plain(w)
    requires !malformed.knownTopic && malformed.messageId == Some(b.sub.last + 1)
    requires w.messageId == Some(b.sub.last + 2)
    ensures var synced := Synced(b, local, remote, [malformed], true);
            Heard(synced, local, remote, Some(w)).node ==
              synced.node.(selfEvictions := b.node.selfEvictions + 1)
  {
    assert ProcessAll(b, local, remote, [malformed][..0]) == b;
  }

  /* ---------- `sync` as actions of the cluster model ---------- */

  lemma {:induction false} ProcessAllFromFront(b: Both, local: string, remote: string, wires: seq<Wire>)
    requires wires != []
    ensures ProcessAll(b, local, remote, wires) ==
            ProcessAll(ProcessWire(b, local, remote, wires[0]), local, remote, wires[1..])
  {
    var n := |wires| - 1;
    if n == 0 {
      assert wires[..0] == [] && wires[1..] == [];
    } else {
      ProcessAllFromFront(b, local, remote, wires[..n]);
      assert wires[..n][1..] == wires[1..][..n - 1] && wires[1..][n - 1] == wires[n];
    }
  }

  /** The subscriber and a member of the cluster model that say the same of a publisher. */
  predicate Alike(b: Both, remote: string, m: Cluster.Member, doomed: bool, evictions: nat)
    requires remote in m.links
  {
    && m.view == b.node.view && m.links[remote].last == b.sub.last
    && b.node.selfEvictions >= evictions
    && (m.doomed <==> doomed || b.node.selfEvictions > evictions)
  }

  /** What is put aside is what the member has in its queue. */
  ghost predicate SameQueue(b: Both, remote: string, m: Cluster.Member)
    requires remote in m.links
  {
    && (forall i :: 0 <= i < |b.sub.buffer| ==> Smooth(b.sub.buffer[i]))
    && m.links[remote].queue == EntriesOf(b.sub.buffer)
  }

  /** A turn of `listen` is `Deliver`, for all that is not an eviction: put aside, or processed once live. */
  lemma ListeningIsDelivering(b: Both, local: string, remote: string, w: Wire, m: Cluster.Member, doomed: bool,
                              evictions: nat)
    requires Smooth(w) && Hears(b.sub) && b.sub.phase != EVICTED && remote in m.links
    requires m.links[remote].phase == Cluster.Live <==> b.sub.phase != BUFFERING
    requires Alike(b, remote, m, doomed, evictions) && SameQueue(b, remote, m)
    ensures var h := Heard(b, local, remote, Some(w));
            var r := Cluster.Receive(m, remote, EntryOf(w));
            remote in r.links && Alike(h, remote, r, doomed, evictions) && SameQueue(h, remote, r)
  {
    if b.sub.phase == BUFFERING {
      var buffer := b.sub.buffer + [w];
      assert buffer[..|buffer| - 1] == b.sub.buffer;
    } else {
      SmoothWire(b, local, remote, w);
      ClusterWire(m, remote, EntryOf(w));
      assert CursorOf(b.sub) == Cluster.CursorOf(m.links[remote]);
    }
  }

  lemma SmoothWire(b: Both, local: string, remote: string, w: Wire)
    requires Smooth(w) && b.sub.phase != EVICTED
    ensures var check := MessageOrder.Validate(CursorOf(b.sub), w.messageId.value);
            var step := Handle(b.node.view, remote, EntryOf(w));
            var r := ProcessWire(b, local, remote, w);
            && r.node.view == (if check.verdict.Accept? then step.view else b.node.view)
            && r.sub.last == check.cursor.last && r.sub.buffer == b.sub.buffer
            && r.node.selfEvictions == b.node.selfEvictions
               + if check.verdict.Gap? || (check.verdict.Accept? && step.outcome != Done) then 1 else 0
  {
  }

  /** Playing buffered messages is `DrainOne` as often as there are messages, for all that is not an eviction. */
  lemma {:induction false} PlayingIsDraining(b: Both, local: string, remote: string, wires: seq<Wire>,
                                             m: Cluster.Member,
                                             doomed: bool, evictions: nat)
    requires (forall i :: 0 <= i < |wires| ==> Smooth(wires[i])) && b.sub.phase == BUFFERING
    requires remote in m.links && m.links[remote].phase == Cluster.Draining && m.links[remote].queue == EntriesOf(wires)
    requires Alike(b, remote, m, doomed, evictions)
    ensures var r := ProcessAll(b, local, remote, wires);
            var drained := Cluster.DrainAll(m, remote);
            && remote in drained.links && drained.links[remote].phase == Cluster.Draining
              && drained.links[remote].queue == []
            && r.sub.phase == BUFFERING && Alike(r, remote, drained, doomed, evictions)
    decreases |wires|
  {
    if wires != [] {
      var w := wires[0];
      var entries := EntriesOf(wires);
      ProcessAllFromFront(b, local, remote, wires);
      assert entries[1..] == EntriesOf(wires[1..]);
      PlayingOneIsDraining(b, local, remote, w, m, doomed, evictions);
      PlayingIsDraining(ProcessWire(b, local, remote, w), local, remote, wires[1..], Cluster.Drain(m, remote), doomed,
          evictions);
    }
  }

  lemma PlayingOneIsDraining(b: Both, local: string, remote: string, w: Wire, m: Cluster.Member, doomed: bool,
                             evictions: nat)
    requires Smooth(w) && b.sub.phase == BUFFERING
    requires remote in m.links && m.links[remote].phase == Cluster.Draining
    requires m.links[remote].queue != [] && m.links[remote].queue[0] == EntryOf(w)
    requires Alike(b, remote, m, doomed, evictions)
    ensures var r := ProcessWire(b, local, remote, w);
            var drained := Cluster.Drain(m, remote);
            && remote in drained.links && drained.links[remote].phase == Cluster.Draining
            && drained.links[remote].queue == m.links[remote].queue[1..]
            && r.sub.phase == BUFFERING && Alike(r, remote, drained, doomed, evictions)
  {
  }

  /**
   * A whole `sync` is `BeginSync`, `DrainOne` for each message, `EndSync`: from a system in which the
   * member agrees with the objects, it does to the member what it does to them.
   */
  lemma SyncIsActions(sys: Cluster.System, defs: string -> RoomDef, local: string, remote: string, b: Both,
                      wires: seq<Wire>, listening: bool)
    requires Cluster.Enabled(sys, Cluster.BeginSync(local, remote), defs)
    requires forall i :: 0 <= i < |wires| ==> Smooth(wires[i])
    requires b.sub.phase == BUFFERING && b.sub.last == sys[local].listed.value[remote].last
             && b.node.view == sys[local].view
    requires sys[local].links[remote].queue == EntriesOf(wires)
    ensures var synced := Synced(b, local, remote, wires, listening);
            var after := Cluster.ActAll(sys, Cluster.SyncActions(local, remote, |wires|), defs);
            && local in after && remote in after[local].links
            && after[local].links[remote].phase == Cluster.Live && after[local].links[remote].queue == []
            && Alike(synced, remote, after[local], sys[local].doomed, b.node.selfEvictions)
            && forall n :: n != local ==> (n in after <==> n in sys) && (n in sys ==> after[n] == sys[n])
  {
    var begun := Cluster.StartFrom(sys[local], remote, sys[local].listed.value[remote]);
    PlayingIsDraining(b, local, remote, wires, begun, sys[local].doomed, b.node.selfEvictions);
    Cluster.SyncActionsDrain(sys, defs, local, remote);
  }

  class LocalNode {
    const nodeId: string
    const fullState: State
    const minimumNodes: nat
    var remotes: set<string>
    var selfEvictions: nat
    var announced: seq<string>
    var toldToDispose: set<string>
    var shutdown: bool
    var deactivated: bool

    constructor (nodeId: string, fullState: State, minimumNodes: nat)
      requires fullState.Valid()
      ensures this.nodeId == nodeId && this.fullState == fullState
      ensures Valid() && Value() == Node(fullState.view, {}, 0, [], {}, false, minimumNodes, false)
    {
      this.nodeId, this.fullState, this.minimumNodes := nodeId, fullState, minimumNodes;
      remotes, selfEvictions, announced, toldToDispose, shutdown, deactivated := {}, 0, [], {}, false, false;
    }

    ghost predicate Valid()
      reads this, fullState, fullState.repr
    {
      fullState.Valid() && this !in fullState.repr
    }

    ghost function Value(): Node
      reads this, fullState
    {
      Node(fullState.view, remotes, selfEvictions, announced, toldToDispose, shutdown, minimumNodes, deactivated)
    }

    method EvictSelf()
      requires Valid()
      modifies this`selfEvictions
      ensures Valid()
      ensures Value() == old(Value()).(selfEvictions := old(selfEvictions) + 1)
    {
      selfEvictions := selfEvictions + 1;
    }

    /**
     * The node leaves the list and the state, its subscriber is disposed of, and few enough nodes left deactivate
     * this one.
     */
    method EvictNode(id: string, broadcast: bool)
      requires Valid()
      modifies this, fullState.repr
      ensures Valid() && fullState.repr == old(fullState.repr)
      ensures Value() == EvictFrom(old(Value()), id, broadcast)
    {
      if id !in remotes {
        return;
      }
      Forget(id);
      if broadcast {
        announced := announced + [id];
      }
      CheckMinimum();
    }

    method Forget(id: string)
      requires Valid()
      modifies this`remotes, this`toldToDispose, fullState.repr
      ensures Valid() && fullState.repr == old(fullState.repr)
      ensures Value() == old(Value()).(view := RemoveNode(old(fullState.view), id), remotes := old(remotes) - {id},
                                       toldToDispose := old(toldToDispose) + {id})
    {
      remotes := remotes - {id};
      fullState.RemoveNode(id);
      toldToDispose := toldToDispose + {id};
    }

    method CheckMinimum()
      modifies this`deactivated
      ensures deactivated == (old(deactivated) || |remotes| + 1 < minimumNodes)
    {
      if |remotes| + 1 < minimumNodes {
        deactivated := true;
      }
    }
  }

  class ClusterSubscriber {
    const localNode: LocalNode
    const remoteNodeId: string
    const heartbeatDelay: real
    var phase: Phase
    var lastMessageId: int
    var buffer: seq<Wire>
    var remoteNodeEvictionPrevented: bool
    var lastHeartbeat: real
    var open: bool
    var listening: bool

    constructor (localNode: LocalNode, remoteNodeId: string, heartbeatDelay: real, now: real)
      ensures this.localNode == localNode && this.remoteNodeId == remoteNodeId
      ensures this.heartbeatDelay == heartbeatDelay
      ensures Value() == Sub(BUFFERING, 0, [], false, now, true, true)
    {
      this.localNode := localNode;
      this.remoteNodeId := remoteNodeId;
      this.heartbeatDelay := heartbeatDelay;
      this.phase := BUFFERING;
      this.lastMessageId := 0;
      this.buffer := [];
      this.remoteNodeEvictionPrevented := false;
      this.lastHeartbeat := now;
      this.open, this.listening := true, true;
    }

    ghost predicate Valid()
      reads this, localNode, localNode.fullState, localNode.fullState.repr
    {
      localNode.Valid() && this !in localNode.fullState.repr
    }

    ghost function Frame(): set<object>
      reads localNode.fullState
    {
      {this, localNode} + localNode.fullState.repr
    }

    function Value(): Sub
      reads this
    {
      Sub(phase, lastMessageId, buffer, remoteNodeEvictionPrevented, lastHeartbeat, open, listening)
    }

    ghost function State(): Both
      reads this, localNode, localNode.fullState
    {
      Both(Value(), localNode.Value())
    }

    /**
     * One turn of the `listen` loop, once `receive` has returned, or has thrown when nothing was received or
     * the socket is closed. The loop has ended when `listening` is false.
     */
    method Listen(received: Option<Wire>)
      requires Valid()
      modifies Frame()
      ensures Valid() && fresh(localNode.fullState.repr - old(localNode.fullState.repr))
      ensures State() == Heard(old(State()), localNode.nodeId, remoteNodeId, received)
    {
      if !listening {
        return;
      }
      if received.None? || !open {
        if phase != EVICTED {
          EvictNode();
        }
        listening := false;
        return;
      }
      if phase == EVICTED {
        listening := false;
        return;
      }
      if phase != BUFFERING {
        ProcessData(received.value);
        listening := phase != EVICTED;
      } else {
        buffer := buffer + [received.value];
      }
    }

    method EvictNode()
      requires Valid()
      modifies Frame()
      ensures Valid() && localNode.fullState.repr == old(localNode.fullState.repr)
      ensures State() == EvictRemote(old(State()), remoteNodeId)
    {
      phase := EVICTED;
      if remoteNodeId in localNode.remotes {
        Dispose();
      }
      localNode.EvictNode(remoteNodeId, true);
    }

    method ProcessData(w: Wire)
      requires Valid()
      modifies Frame()
      ensures Valid() && fresh(localNode.fullState.repr - old(localNode.fullState.repr))
      ensures State() == ProcessWire(old(State()), localNode.nodeId, remoteNodeId, w)
    {
      if phase == EVICTED {
        return;
      }
      if !w.knownTopic {
        EvictNode();
        return;
      }
      var valid := ValidateMessage(w);
      if !valid {
        return;
      }
      lastHeartbeat := w.at;
      HandleMessage(w.messageId.value, w.body);
    }

    /** True when the message is the expected one; the cursor has moved, the node may have asked to leave. */
    method ValidateMessage(w: Wire) returns (valid: bool)
      requires Valid()
      modifies Frame()
      ensures Valid() && localNode.fullState.repr == old(localNode.fullState.repr)
      ensures w.messageId.None? ==> !valid && State() == EvictRemote(old(State()), remoteNodeId)
      ensures w.messageId.Some? ==>
                var check := MessageOrder.Validate(CursorOf(old(Value())), w.messageId.value);
                && (valid <==> check.verdict.Accept?)
                && Value() == old(Value()).(last := check.cursor.last)
                && localNode.Value() == old(localNode.Value()).(selfEvictions :=
                     old(localNode.selfEvictions) + if check.verdict.Gap? then 1 else 0)
    {
      if w.messageId.None? {
        EvictNode();
        return false;
      }
      if phase == BUFFERING && lastMessageId >= w.messageId.value {
        return false;
      }
      lastMessageId := lastMessageId + 1;
      if lastMessageId != w.messageId.value {
        localNode.EvictSelf();
        return false;
      }
      return true;
    }

    /** Runs the handler of the message's topic; an error makes the local node evict itself. */
    method HandleMessage(id: int, body: Body)
      requires Valid()
      modifies Frame()
      ensures Valid() && fresh(localNode.fullState.repr - old(localNode.fullState.repr))
      ensures State() == HandleBody(old(State()), localNode.nodeId, remoteNodeId, id, body)
    {
      match body
      case Realtime(msg) =>
        var outcome := HandleRealtime(id, msg);
        if outcome != Done {
          localNode.EvictSelf();
        }
      case PreventEviction(prevented) => remoteNodeEvictionPrevented := prevented;
      case NodeEvicted(nodeId) =>
        if nodeId == localNode.nodeId {
          localNode.shutdown := true;
        } else {
          EvictOtherNode(nodeId);
        }
      case NodeShutdown(nodeId) => EvictOtherNode(nodeId);
      case Other(throws) =>
        if throws {
          localNode.EvictSelf();
        }
    }

    method EvictOtherNode(nodeId: string)
      requires Valid()
      modifies Frame()
      ensures Valid() && localNode.fullState.repr == old(localNode.fullState.repr)
      ensures State() == EvictOther(old(State()), remoteNodeId, nodeId)
    {
      if nodeId in localNode.remotes && nodeId == remoteNodeId {
        Dispose();
      }
      localNode.EvictNode(nodeId, false);
    }

    method HandleRealtime(id: int, msg: Msg) returns (outcome: Outcome)
      requires Valid()
      modifies localNode.fullState.repr
      ensures Valid() && fresh(localNode.fullState.repr - old(localNode.fullState.repr))
      ensures Step(localNode.fullState.view, outcome) ==
              Handle(old(localNode.fullState.view), remoteNodeId, Entry(id, msg))
    {
      var state := localNode.fullState;
      match msg
      case NewRoom(room, kindex, filters) =>
        var def := DefOf(kindex, filters);
        outcome := state.AddRealtimeRoom(room, def.index, def.collection, def.filters,
            SerializedCell(remoteNodeId, id, 0));
      case Subscribe(room) => outcome := state.AddRealtimeSubscription(room, remoteNodeId, id);
      case Unsubscribe(room) => outcome := state.RemoveRealtimeSubscription(room, remoteNodeId, id);
      case DropRoom(room) =>
        state.RemoveRealtimeRoom(room, remoteNodeId);
        outcome := Done;
      case Inert => outcome := Done;
    }

    /** The periodic check; under eviction prevention it only fakes a heartbeat. */
    method CheckHeartbeat(now: real)
      requires Valid()
      modifies Frame()
      ensures Valid() && localNode.fullState.repr == old(localNode.fullState.repr)
      ensures State() == CheckAt(old(State()), remoteNodeId, heartbeatDelay, now)
    {
      if remoteNodeEvictionPrevented {
        lastHeartbeat := now;
        return;
      }
      if phase == EVICTED {
        return;
      }
      if now - lastHeartbeat > heartbeatDelay {
        if phase == MISSING_HEARTBEAT {
          EvictNode();
        } else {
          phase := MISSING_HEARTBEAT;
        }
      } else {
        phase := SANE;
      }
    }

    /** Closes the socket and stops the timer, unless the subscriber is already EVICTED. */
    method Dispose()
      modifies this`phase, this`open
      ensures Value() == Disposed(old(Value()))
    {
      if phase == EVICTED {
        return;
      }
      phase := EVICTED;
      open := false;
    }

    /**
     * Plays the buffer until it is empty, then goes live. `stream` is what the socket delivers next:
     * up to `pace(i)` of its messages reach `listen` while the i-th message of a batch is processed.
     * `taken` tells how many of them were put aside or processed before the end, and `played` in which
     * order all were processed: one after the other while the subscriber is buffering, and interleaved
     * with those of the buffer when a heartbeat check has ended the buffering before. `listen` ends if
     * one more arrives once the subscriber is EVICTED. If it never ends and gets a turn for each message,
     * as many are received as are played, so that a buffering subscriber catches up with the stream.
     */
    method Sync(lastMessageId: int, stream: seq<Wire>, pace: nat -> nat) returns (taken: nat, ghost played: seq<Wire>)
      requires Valid()
      modifies Frame()
      ensures Valid() && fresh(localNode.fullState.repr - old(localNode.fullState.repr)) && taken <= |stream|
      ensures old(phase) == BUFFERING ==> played == old(buffer) + stream[..taken]
      ensures Interleaving(played, old(buffer), stream[..taken])
      ensures SyncedFrom(SyncStart(old(State()), lastMessageId), localNode.nodeId, remoteNodeId, played, State(),
                         |stream| - taken)
      ensures KeepsPace(old(Value()), Value(), pace, taken, |stream|)
    {
      ghost var start := SyncStart(State(), lastMessageId);
      this.lastMessageId := lastMessageId;
      taken, played := PlayBuffer(stream, pace, start);
      ghost var before := State();
      phase := SANE;
      EndOfSync(start, localNode.nodeId, remoteNodeId, played, before, |stream| - taken);
    }

    method PlayBuffer(stream: seq<Wire>, pace: nat -> nat, ghost start: Both)
      returns (taken: nat, ghost played: seq<Wire>)
      requires Valid() && Played(start, [], |stream|)
      modifies Frame()
      ensures Valid() && fresh(localNode.fullState.repr - old(localNode.fullState.repr)) && taken <= |stream|
      ensures buffer == [] && Played(start, played, |stream| - taken)
      ensures old(phase) == BUFFERING ==> played == old(buffer) + stream[..taken]
      ensures Interleaving(played, old(buffer), stream[..taken])
      ensures KeepsPace(old(Value()), Value(), pace, taken, |stream|)
    {
      if phase == BUFFERING {
        taken, played := PlayAll(stream, pace, start);
        OneAfterTheOther(old(buffer), stream[..taken]);
      } else {
        ghost var more;
        taken, played, more := PlayBatch(stream, pace, 0, start, []);
        assert [] + more == more && stream[..taken] == stream[0..taken];
      }
    }

    /** The loop of `sync` while the subscriber is buffering: new messages are put aside as old ones are played. */
    method PlayAll(stream: seq<Wire>, pace: nat -> nat, ghost start: Both) returns (taken: nat, ghost played: seq<Wire>)
      requires Valid() && phase == BUFFERING && Played(start, [], |stream|)
      modifies Frame()
      ensures Valid() && fresh(localNode.fullState.repr - old(localNode.fullState.repr)) && taken <= |stream|
      ensures buffer == [] && Played(start, played, |stream| - taken)
      ensures played == old(buffer) + stream[..taken]
      ensures InTurn(old(Value()), Value(), pace, |played|, taken, |stream|)
    {
      taken, played := 0, [];
      while |buffer| > 0
        invariant Valid() && fresh(localNode.fullState.repr - old(localNode.fullState.repr)) && taken <= |stream|
        invariant phase == BUFFERING || phase == EVICTED
        invariant played + buffer == old(buffer) + stream[..taken] && Played(start, played, |stream| - taken)
        invariant InTurn(old(Value()), Value(), pace, |played|, taken, |stream|)
        decreases |stream| - taken, |buffer|
      {
        ghost var before := taken;
        taken, played := PlayCopy(stream, pace, taken, start, played);
        ReceivedMore(old(buffer), stream, before, taken);
      }
      assert played + [] == played;
    }

    /** One turn of that loop: what was in the buffer is played, what was received meanwhile is put aside. */
    method PlayCopy(stream: seq<Wire>, pace: nat -> nat, taken: nat, ghost start: Both, ghost done: seq<Wire>)
      returns (taken': nat, ghost done': seq<Wire>)
      requires Valid() && taken <= |stream| && Played(start, done, |stream| - taken)
      requires phase == BUFFERING || phase == EVICTED
      modifies Frame()
      ensures Valid() && fresh(localNode.fullState.repr - old(localNode.fullState.repr))
      ensures phase == BUFFERING || phase == EVICTED
      ensures taken <= taken' <= |stream| && Played(start, done', |stream| - taken')
      ensures done' + buffer == (done + old(buffer)) + stream[taken..taken']
      ensures InTurn(old(Value()), Value(), pace, |done'| - |done|, taken' - taken, |stream| - taken)
      ensures taken' > taken || |buffer| == 0
    {
      ghost var batch, phase0, more := buffer, phase, [];
      taken', done', more := PlayBatch(stream, pace, taken, start, done);
      PlayedBatch(phase0, phase, buffer, stream[taken..taken'], batch, more);
    }

    /** Plays a copy of the buffer; the loop of `sync` does this once if the subscriber is not buffering. */
    method PlayBatch(stream: seq<Wire>, pace: nat -> nat, taken: nat, ghost start: Both, ghost done: seq<Wire>)
      returns (taken': nat, ghost done': seq<Wire>, ghost more: seq<Wire>)
      requires Valid() && taken <= |stream| && Played(start, done, |stream| - taken)
      modifies Frame()
      ensures Valid() && fresh(localNode.fullState.repr - old(localNode.fullState.repr))
      ensures taken <= taken' <= |stream| && done' == done + more && Played(start, done', |stream| - taken')
      ensures Account(old(phase), phase, buffer, stream[taken..taken'], old(buffer), more)
      ensures InTurn(old(Value()), Value(), pace, |old(buffer)|, taken' - taken, |stream| - taken)
    {
      var batch := buffer;
      buffer := [];
      taken', done', more := taken, done, [];
      ghost var received, part: seq<Wire> := [], [];
      for i := 0 to |batch|
        invariant Valid() && fresh(localNode.fullState.repr - old(localNode.fullState.repr))
        invariant taken <= taken' <= |stream| && done' == done + more && Played(start, done', |stream| - taken')
        invariant received == stream[taken..taken'] && part == batch[0..i]
        invariant Account(old(phase), phase, buffer, received, part, more)
        invariant InTurn(old(Value()), Value(), pace, i, taken' - taken, |stream| - taken)
      {
        ghost var next := taken';
        taken', done', more := PlayStep(batch[i], stream, taken', pace(i), start, done', old(phase), done, part, more,
                                        received);
        SliceMore(stream, taken, next, taken');
        SliceMore(batch, 0, i, i + 1);
        received, part := received + stream[next..taken'], part + [batch[i]];
      }
      assert part == batch;
    }

    /** Plays one message of the batch and keeps the account; `received` came before it. */
    method PlayStep(w: Wire, stream: seq<Wire>, next: nat, count: nat, ghost start: Both, ghost done: seq<Wire>,
                    ghost phase0: Phase, ghost done0: seq<Wire>, ghost batch: seq<Wire>, ghost more: seq<Wire>,
                    ghost received: seq<Wire>)
      returns (upTo: nat, ghost done': seq<Wire>, ghost more': seq<Wire>)
      requires Valid() && next <= |stream| && done == done0 + more && Played(start, done, |stream| - next)
      requires Account(phase0, phase, buffer, received, batch, more)
      modifies Frame()
      ensures Valid() && fresh(localNode.fullState.repr - old(localNode.fullState.repr))
      ensures next <= upTo <= |stream| && done' == done0 + more' && Played(start, done', |stream| - upTo)
      ensures Account(phase0, phase, buffer, received + stream[next..upTo], batch + [w], more')
      ensures Turns(old(Value()), Value(), count, upTo - next, |stream| - next)
    {
      ghost var heard;
      upTo, done', heard := PlayNext(w, stream, next, count, start, done);
      more' := more + ([w] + heard);
      Regroup(done, [w], heard);
      AccountMore(phase0, old(phase), phase, old(buffer), buffer, received, stream[next..upTo], batch, more, w, heard);
      Regroup(done0, more, [w] + heard);
    }

    /** Plays one message of the batch; `listen` goes on meanwhile. `heard` are those it has processed at once. */
    method PlayNext(w: Wire, stream: seq<Wire>, next: nat, count: nat, ghost start: Both, ghost done: seq<Wire>)
      returns (upTo: nat, ghost done': seq<Wire>, ghost heard: seq<Wire>)
      requires Valid() && next <= |stream| && Played(start, done, |stream| - next)
      modifies Frame()
      ensures Valid() && fresh(localNode.fullState.repr - old(localNode.fullState.repr))
      ensures next <= upTo <= |stream| && done' == done + [w] + heard && Played(start, done', |stream| - upTo)
      ensures Onward(old(phase), phase, old(buffer), buffer, stream[next..upTo], heard)
      ensures Turns(old(Value()), Value(), count, upTo - next, |stream| - next)
    {
      ghost var v0 := Value();
      ghost var done1 := PlayOne(w, start, done, |stream| - next);
      ghost var v1 := Value();
      upTo, done', heard := HearMore(stream, next, count, start, done1);
      PlayedNext(v0, v1, Value(), stream[next..upTo], heard, count, |stream| - next);
    }

    /** Up to `count` turns of `listen`; the last one ends the loop if the subscriber is EVICTED. */
    method HearMore(stream: seq<Wire>, next: nat, count: nat, ghost start: Both, ghost done: seq<Wire>)
      returns (upTo: nat, ghost done': seq<Wire>, ghost heard: seq<Wire>)
      requires Valid() && next <= |stream| && Played(start, done, |stream| - next)
      modifies Frame()
      ensures Valid() && fresh(localNode.fullState.repr - old(localNode.fullState.repr))
      ensures next <= upTo <= |stream| && done' == done + heard && Played(start, done', |stream| - upTo)
      ensures Onward(old(phase), phase, old(buffer), buffer, stream[next..upTo], heard)
      ensures Turns(old(Value()), Value(), count, upTo - next, |stream| - next)
    {
      upTo, done', heard := next, done, [];
      OnwardAfter(phase, phase, buffer);
      ghost var received: seq<Wire> := [];
      while upTo < |stream| && upTo - next < count && open && listening && phase != EVICTED
        invariant Valid() && fresh(localNode.fullState.repr - old(localNode.fullState.repr))
        invariant next <= upTo <= |stream| && done' == done + heard && Played(start, done', |stream| - upTo)
        invariant received == stream[next..upTo] && Onward(old(phase), phase, old(buffer), buffer, received, heard)
        invariant upTo - next <= count && (Hears(Value()) ==> old(Hears(Value())))
        invariant upTo == next ==> listening == old(listening)
        decreases |stream| - upTo
      {
        done', heard := HearOne(stream[upTo], |stream| - (upTo + 1), start, done', old(phase), old(buffer), done,
                                received, heard);
        SliceMore(stream, next, upTo, upTo + 1);
        received, upTo := received + [stream[upTo]], upTo + 1;
      }
      if upTo < |stream| && upTo - next < count && open && listening {
        HearLast(stream[upTo], start, done', |stream| - upTo);
      }
    }

    /** Whatever arrives once the subscriber is EVICTED is dropped and ends `listen`. */
    method HearLast(w: Wire, ghost start: Both, ghost done: seq<Wire>, ghost left: nat)
      requires Valid() && phase == EVICTED && Hears(Value()) && Played(start, done, left) && left > 0
      modifies Frame()
      ensures Valid() && fresh(localNode.fullState.repr - old(localNode.fullState.repr))
      ensures phase == old(phase) && buffer == old(buffer) && !listening && Played(start, done, left)
    {
      Listen(Some(w));
    }

    /** One turn of `listen` before that. */
    method HearOne(w: Wire, ghost left: nat, ghost start: Both, ghost done: seq<Wire>, ghost phase0: Phase,
                   ghost buffer0: seq<Wire>, ghost done0: seq<Wire>, ghost received: seq<Wire>,
                   ghost heard: seq<Wire>)
      returns (ghost done': seq<Wire>, ghost heard': seq<Wire>)
      requires Valid() && done == done0 + heard && Played(start, done, left + 1) && phase != EVICTED && Hears(Value())
      requires Onward(phase0, phase, buffer0, buffer, received, heard)
      modifies Frame()
      ensures Valid() && fresh(localNode.fullState.repr - old(localNode.fullState.repr))
      ensures done' == done0 + heard' && Played(start, done', left)
      ensures Onward(phase0, phase, buffer0, buffer, received + [w], heard')
      ensures Hears(Value()) ==> old(Hears(Value()))
    {
      done', heard' := done, heard;
      if phase == BUFFERING {
        PutAside(w, start, done, left);
      } else {
        done' := HearLive(w, start, done, left);
        heard' := heard + [w];
        Regroup(done0, heard, [w]);
      }
    }

    /** `listen` while the subscriber is buffering. */
    method PutAside(w: Wire, ghost start: Both, ghost done: seq<Wire>, ghost left: nat)
      requires Valid() && phase == BUFFERING && Hears(Value()) && Played(start, done, left + 1)
      modifies Frame()
      ensures Valid() && fresh(localNode.fullState.repr - old(localNode.fullState.repr))
      ensures phase == BUFFERING && buffer == old(buffer) + [w] && Played(start, done, left)
    {
      Listen(Some(w));
    }

    /** `listen` once a heartbeat check has ended the buffering. */
    method HearLive(w: Wire, ghost start: Both, ghost done: seq<Wire>, ghost left: nat)
      returns (ghost done': seq<Wire>)
      requires Valid() && phase != BUFFERING && phase != EVICTED && Hears(Value()) && Played(start, done, left + 1)
      modifies Frame()
      ensures Valid() && fresh(localNode.fullState.repr - old(localNode.fullState.repr))
      ensures buffer == old(buffer) && done' == done + [w] && Played(start, done', left) && Later(old(phase), phase)
    {
      ghost var before := State();
      Listen(Some(w));
      done' := done + [w];
      PlayedOne(start, localNode.nodeId, remoteNodeId, done, w, before, done');
    }

    /**
     * The messages `done` have been played from `start`, with `left` more to come from the socket; the
     * buffer is what has been put aside meanwhile.
     */
    ghost predicate Played(start: Both, done: seq<Wire>, left: nat)
      reads this, localNode, localNode.fullState
    {
      && State() == Aside(ProcessAll(start, localNode.nodeId, remoteNodeId, done), buffer, listening)
      && StillListens(start.sub, phase, listening, left)
    }

    method PlayOne(w: Wire, ghost start: Both, ghost done: seq<Wire>, ghost left: nat) returns (ghost done': seq<Wire>)
      requires Valid() && Played(start, done, left)
      modifies Frame()
      ensures Valid() && fresh(localNode.fullState.repr - old(localNode.fullState.repr))
      ensures buffer == old(buffer) && done' == done + [w] && Played(start, done', left) && Later(old(phase), phase)
      ensures listening == old(listening) && (open ==> old(open))
    {
      ghost var before := State();
      ProcessData(w);
      done' := done + [w];
      PlayedOne(start, localNode.nodeId, remoteNodeId, done, w, before, done');
    }
  }

  /**
   * If `listen` goes on and gets a turn for each message played, a buffering subscriber has received all that
   * there was; without any turn it has received nothing.
   */
  ghost predicate KeepsPace(before: Sub, after: Sub, pace: nat -> nat, taken: nat, size: nat)
  {
    && (Hears(after) && (forall i :: pace(i) > 0) && before.phase == BUFFERING && before.buffer != [] ==> taken == size)
    && ((forall i :: pace(i) == 0) ==> taken == 0 && after.listening == before.listening)
  }

  /** `listen` had up to `count` turns: if it goes on, all were used or `left` messages, all there were, have come. */
  predicate Turns(before: Sub, after: Sub, count: nat, received: int, left: int)
  {
    && 0 <= received <= count
    && (Hears(after) ==> Hears(before) && (received == left || received == count))
    && (count == 0 ==> after.listening == before.listening)
  }

  /** The same for the turns given while `played` messages were played. */
  ghost predicate InTurn(before: Sub, after: Sub, pace: nat -> nat, played: int, received: int, left: int)
  {
    && (Hears(after) ==> Hears(before))
    && (Hears(after) && (forall i :: pace(i) > 0) ==> received == left || received >= played)
    && ((forall i :: pace(i) == 0) ==> received == 0 && after.listening == before.listening)
  }

  /**
   * `listen` has ended meanwhile only because the subscriber is EVICTED: while buffering, because one
   * of the messages left arrived then.
   */
  predicate StillListens(start: Sub, phase: Phase, listening: bool, left: nat)
  {
    && (listening ==> start.listening)
    && (start.listening && !listening ==> phase == EVICTED && (start.phase == BUFFERING ==> left > 0))
    && (start.phase == BUFFERING ==> phase == BUFFERING || phase == EVICTED)
  }

  /** Processing a message leaves the phase, or turns it to EVICTED. */
  predicate Later(before: Phase, after: Phase)
  {
    after == before || after == EVICTED
  }

  /**
   * What happened since a phase and a buffer, `received` having come: put aside, processed at once, or nothing
   * received.
   */
  predicate Onward(phase0: Phase, phase: Phase, buffer0: seq<Wire>, buffer: seq<Wire>, received: seq<Wire>,
                   heard: seq<Wire>)
  {
    && Later(phase0, phase)
    && (if phase0 == BUFFERING then heard == [] && buffer == buffer0 + received
        else heard == received && buffer == buffer0)
    && (phase0 == EVICTED ==> received == [])
  }

  lemma OnwardAfter(phase0: Phase, phase1: Phase, buffer: seq<Wire>)
    requires Later(phase0, phase1)
    ensures Onward(phase0, phase1, buffer, buffer, [], [])
  {
    assert buffer + [] == buffer;
  }

  /** A message was played, from `v0` to `v1`, before `listen` had its turns. */
  lemma PlayedNext(v0: Sub, v1: Sub, v2: Sub, received: seq<Wire>, heard: seq<Wire>, count: nat, left: int)
    requires v1.buffer == v0.buffer && v1.listening == v0.listening && (v1.open ==> v0.open)
    requires Later(v0.phase, v1.phase)
    requires Onward(v1.phase, v2.phase, v1.buffer, v2.buffer, received, heard)
    requires Turns(v1, v2, count, |received|, left)
    ensures Onward(v0.phase, v2.phase, v0.buffer, v2.buffer, received, heard)
    ensures Turns(v0, v2, count, |received|, left)
  {
    OnwardFrom(v0.phase, v1.phase, v2.phase, v0.buffer, v2.buffer, received, heard);
  }

  lemma OnwardFrom(phase0: Phase, phase1: Phase, phase2: Phase, buffer0: seq<Wire>, buffer2: seq<Wire>,
                   received: seq<Wire>,
                   heard: seq<Wire>)
    requires Later(phase0, phase1) && Onward(phase1, phase2, buffer0, buffer2, received, heard)
    ensures Onward(phase0, phase2, buffer0, buffer2, received, heard)
  {
    assert buffer0 + [] == buffer0;
  }

  /** One of the ways to merge two sequences, each in its own order. */
  predicate Interleaving(p: seq<Wire>, a: seq<Wire>, b: seq<Wire>)
    decreases |p|
  {
    if p == [] then a == [] && b == []
    else
      var n := |p| - 1;
      || (a != [] && p[n] == a[|a| - 1] && Interleaving(p[..n], a[..|a| - 1], b))
      || (b != [] && p[n] == b[|b| - 1] && Interleaving(p[..n], a, b[..|b| - 1]))
  }

  lemma InterleavingMore(p: seq<Wire>, a: seq<Wire>, b: seq<Wire>, w: Wire)
    requires Interleaving(p, a, b)
    ensures Interleaving(p + [w], a + [w], b) && Interleaving(p + [w], a, b + [w])
  {
    assert (p + [w])[..|p|] == p && (a + [w])[..|a|] == a && (b + [w])[..|b|] == b;
  }

  lemma {:induction false} InterleavingAll(p: seq<Wire>, a: seq<Wire>, b: seq<Wire>, more: seq<Wire>)
    requires Interleaving(p, a, b)
    ensures Interleaving(p + more, a, b + more)
  {
    if more == [] {
      assert p + more == p && b + more == b;
    } else {
      var before, last := more[..|more| - 1], more[|more| - 1];
      InterleavingAll(p, a, b, before);
      InterleavingMore(p + before, a, b + before, last);
      assert p + more == p + before + [last] && b + more == b + before + [last];
    }
  }

  lemma {:induction false} OneAfterTheOther(a: seq<Wire>, b: seq<Wire>)
    ensures Interleaving(a + b, a, b)
  {
    AllOfOne(a);
    InterleavingAll(a, a, [], b);
    assert [] + b == b;
  }

  lemma {:induction false} AllOfOne(a: seq<Wire>)
    ensures Interleaving(a, a, [])
  {
    if a != [] {
      AllOfOne(a[..|a| - 1]);
    }
  }

  /** The part of a batch that was played, what was received meanwhile, and what came of it. */
  predicate Account(phase0: Phase, phase: Phase, buffer: seq<Wire>, received: seq<Wire>, batch: seq<Wire>,
                    played: seq<Wire>)
  {
    && Later(phase0, phase)
    && (if phase0 == BUFFERING then played == batch && buffer == received
        else buffer == [] && Interleaving(played, batch, received))
    && (phase0 == EVICTED ==> received == [])
  }

  lemma SliceMore(s: seq<Wire>, a: nat, b: nat, c: nat)
    requires a <= b <= c <= |s|
    ensures s[a..b] + s[b..c] == s[a..c]
    ensures c == b + 1 ==> s[a..b] + [s[b]] == s[a..c]
  {
  }

  lemma ReceivedMore(buffer: seq<Wire>, stream: seq<Wire>, before: nat, taken: nat)
    requires before <= taken <= |stream|
    ensures (buffer + stream[..before]) + stream[before..taken] == buffer + stream[..taken]
  {
    assert stream[..before] + stream[before..taken] == stream[..taken];
  }

  lemma PlayedBatch(phase0: Phase, phase: Phase, buffer: seq<Wire>, received: seq<Wire>, batch: seq<Wire>,
                    played: seq<Wire>)
    requires Account(phase0, phase, buffer, received, batch, played) && (phase0 == BUFFERING || phase0 == EVICTED)
    ensures played == batch && buffer == received
  {
    if phase0 == EVICTED {
      InterleavingNone(played, batch);
    }
  }

  lemma {:induction false} InterleavingNone(p: seq<Wire>, a: seq<Wire>)
    requires Interleaving(p, a, [])
    ensures p == a
  {
    if p != [] {
      InterleavingNone(p[..|p| - 1], a[..|a| - 1]);
      assert p == p[..|p| - 1] + [p[|p| - 1]] && a == a[..|a| - 1] + [a[|a| - 1]];
    }
  }

  lemma AccountMore(phase0: Phase, phase1: Phase, phase2: Phase, buffer1: seq<Wire>, buffer2: seq<Wire>,
                    received: seq<Wire>,
                    next: seq<Wire>, batch: seq<Wire>, played: seq<Wire>, w: Wire, heard: seq<Wire>)
    requires Account(phase0, phase1, buffer1, received, batch, played)
    requires Onward(phase1, phase2, buffer1, buffer2, next, heard)
    ensures Account(phase0, phase2, buffer2, received + next, batch + [w], played + ([w] + heard))
  {
    if phase0 != BUFFERING {
      InterleavingMore(played, batch, received, w);
      InterleavingAll(played + [w], batch + [w], received, heard);
      Regroup(played, [w], heard);
    } else {
      assert played + ([w] + []) == played + [w];
    }
  }

  /** One more message played, apart from what was put aside. */
  lemma PlayedOne(start: Both, local: string, remote: string, done: seq<Wire>, w: Wire, b: Both, done': seq<Wire>)
    requires b == Aside(ProcessAll(start, local, remote, done), b.sub.buffer, b.sub.listening)
    requires done' == done + [w]
    ensures var r := ProcessWire(b, local, remote, w);
            && r == Aside(ProcessAll(start, local, remote, done'), b.sub.buffer, b.sub.listening)
            && r.sub.buffer == b.sub.buffer && r.sub.listening == b.sub.listening && (r.sub.open ==> b.sub.open)
            && Later(b.sub.phase, r.sub.phase)
  {
    var p := ProcessAll(start, local, remote, done);
    assert done'[..|done|] == done && done'[|done|] == w;
    BufferIsAside(p, local, remote, w, b.sub.buffer, b.sub.listening);
    OpenLater(b, local, remote, w);
  }

  lemma OpenLater(b: Both, local: string, remote: string, w: Wire)
    ensures var r := ProcessWire(b, local, remote, w);
            (r.sub.open ==> b.sub.open) && Later(b.sub.phase, r.sub.phase)
            && (b.sub.phase == EVICTED ==> r == b)
  {
  }

  /** Processing never looks at the buffer or whether `listen` runs, nor changes them. */
  lemma BufferIsAside(b: Both, local: string, remote: string, w: Wire, buffer: seq<Wire>, listening: bool)
    ensures ProcessWire(Aside(b, buffer, listening), local, remote, w)
            == Aside(ProcessWire(b, local, remote, w), buffer, listening)
  {
    if Accepted(CursorOf(b.sub), w) {
      var last := MessageOrder.Validate(CursorOf(b.sub), w.messageId.value).cursor.last;
      var moved := b.(sub := b.sub.(last := last, lastHeartbeat := w.at));
      HandlingIsAside(moved, local, remote, w.messageId.value, w.body, buffer, listening);
    }
  }

  lemma HandlingIsAside(b: Both, local: string, remote: string, id: int, body: Body, buffer: seq<Wire>, listening: bool)
    ensures HandleBody(Aside(b, buffer, listening), local, remote, id, body)
            == Aside(HandleBody(b, local, remote, id, body), buffer, listening)
  {
  }

  lemma {:induction false} BufferOfPlayed(b: Both, local: string, remote: string, wires: seq<Wire>)
    ensures ProcessAll(b, local, remote, wires).sub.buffer == b.sub.buffer
  {
    if wires != [] {
      BufferOfPlayed(b, local, remote, wires[..|wires| - 1]);
    }
  }

  /** The buffer is copied, and the ids go on from the given one. */
  function SyncStart(b: Both, lastMessageId: int): Both
  {
    b.(sub := b.sub.(last := lastMessageId, buffer := []))
  }

  /** The end of `sync`: these messages were played from the start, and `left` are still to come from the socket. */
  ghost predicate SyncedFrom(start: Both, local: string, remote: string, played: seq<Wire>, after: Both, left: int)
  {
    && after == Synced(start, local, remote, played, after.sub.listening)
    && left >= 0
    && StillListens(start.sub, ProcessAll(start, local, remote, played).sub.phase, after.sub.listening, left)
  }

  lemma EndOfSync(start: Both, local: string, remote: string, played: seq<Wire>, r: Both, left: nat)
    requires start.sub.buffer == [] && r == Aside(ProcessAll(start, local, remote, played), [], r.sub.listening)
    requires StillListens(start.sub, r.sub.phase, r.sub.listening, left)
    ensures SyncedFrom(start, local, remote, played, r.(sub := r.sub.(phase := SANE)), left)
  {
    BufferOfPlayed(start, local, remote, played);
  }

  function Aside(b: Both, buffer: seq<Wire>, listening: bool): Both
  {
    Listening(WithBuffer(b, buffer), listening)
  }

  function WithBuffer(b: Both, buffer: seq<Wire>): Both
  {
    b.(sub := b.sub.(buffer := buffer))
  }
}
