/**
 * The cluster as a state machine: publishing, delivery, the join handshake with its snapshot, and
 * evictions (lib/cluster/node.js, subscriber.js, command.js).
 *
 * One action is one atomic step of one node. Channels are arbitrary: `Deliver` may lose, repeat or
 * reorder a publisher's messages, it only cannot invent them.
 */
module Cluster {
  import opened RealtimeView
  import opened Replication
  import opened Wrappers
  import MessageOrder

  /** BUFFERING before `sync`, BUFFERING while `sync` plays the buffer, and afterwards. */
  datatype Phase = Buffering | Draining | Live

  /**
   * What a node keeps about one publisher: its last message id and the messages put aside. `known` is
   * no field of the source: it records whether the replay started from the counters that belong to
   * the id it started from.
   */
  datatype Link = Link(phase: Phase, last: int, known: bool, queue: seq<Entry>)

  /** A message id listed in a snapshot, with what is recorded of the link it was taken from. */
  datatype Mark = Mark(last: int, known: bool)

  datatype Member = Member(
    log: seq<Entry>,                      // what this node has published
    view: View,                           // its full state
    links: map<string, Link>,             // its subscribers
    listed: Option<map<string, Mark>>,    // the message ids that came with its snapshot, once loaded
    joined: bool,                         // its handshake is over
    doomed: bool)                         // it asked for its own eviction, or loaded the state of a node that did

  type System = map<string, Member>

  datatype Action =
    | Join(node: string, peers: set<string>)
    | Snapshot(node: string, source: string, state: SerializedState)
    | BeginSync(node: string, peer: string)
    | BeginSyncUnlisted(node: string, peer: string, lastId: nat)
    | DrainOne(node: string, peer: string)
    | EndSync(node: string, peer: string)
    | Abandon(node: string, peer: string)
    | Finish(node: string)
    | Greet(node: string, newcomer: string, lastId: nat)
    | Publish(node: string, msg: Msg)
    | Deliver(node: string, peer: string, index: nat)
    | Evict(node: string, peer: string)

  predicate NoneBuffering(links: map<string, Link>)
  {
    forall a | a in links :: links[a].phase != Buffering
  }

  predicate AllInert(log: seq<Entry>)
  {
    forall i | 0 <= i < |log| :: log[i].msg.Inert?
  }

  predicate HasLink(sys: System, node: string, peer: string, phase: Phase)
  {
    node in sys && peer in sys[node].links && sys[node].links[peer].phase == phase
  }

  ghost predicate Enabled(sys: System, a: Action, defs: string -> RoomDef)
  {
    match a
    case Join(n, peers) => n !in sys && peers <= sys.Keys
    case Snapshot(n, p, s) =>
      // the source has finished its own handshake, and gives all that it knows
      && n in sys && p in sys && n != p
      && !sys[n].joined && sys[n].listed.None?
      && sys[p].joined && NoneBuffering(sys[p].links)
      && Encodes(s, sys[p].view)
    case BeginSync(n, p) =>
      HasLink(sys, n, p, Buffering) && sys[n].listed.Some? && p in sys[n].listed.value
    case BeginSyncUnlisted(n, p, k) =>
      // a peer that answers the handshake without being in the snapshot's list: `k` is the id in its answer
      HasLink(sys, n, p, Buffering) && sys[n].listed.Some? && p !in sys[n].listed.value
      && p in sys && k <= |sys[p].log|
    case DrainOne(n, p) => HasLink(sys, n, p, Draining) && sys[n].links[p].queue != []
    case EndSync(n, p) => HasLink(sys, n, p, Draining) && sys[n].links[p].queue == []
    case Abandon(n, p) => HasLink(sys, n, p, Buffering) && !sys[n].joined
    case Finish(n) => n in sys && !sys[n].joined && sys[n].listed.Some? && NoneBuffering(sys[n].links)
    case Greet(n, j, k) =>
      // `k` is the id in the request, sent before the newcomer had joined, and possibly handled afterwards
      && n in sys && j in sys && n != j && sys[n].joined
      && j !in sys[n].links && k <= |sys[j].log| && AllInert(sys[j].log[..k])
    case Publish(n, msg) =>
      // before the end of its handshake a node only sends heartbeats; it publishes what it could do itself
      && n in sys && (sys[n].joined || msg.Inert?) && Agrees(msg, defs)
      && Handle(sys[n].view, n, Entry(|sys[n].log| + 1, msg)).outcome == Done
    case Deliver(n, p, i) => n in sys && p in sys[n].links && p in sys && i < |sys[p].log|
    case Evict(n, p) => n in sys && p in sys[n].links
  }

  /** What the id check looks at. */
  function CursorOf(link: Link): MessageOrder.Cursor
  {
    MessageOrder.Cursor(link.phase == Draining, link.last)
  }

  /** `processData` of one message from `peer`. */
  function Process(m: Member, peer: string, e: Entry): Member
    requires peer in m.links
  {
    var link := m.links[peer];
    var check := MessageOrder.Validate(CursorOf(link), e.id);
    var moved := m.(links := m.links[peer := link.(last := check.cursor.last)]);
    match check.verdict
    case Skip => moved
    case Gap => moved.(doomed := true)
    case Accept =>
      var step := Handle(m.view, peer, e);
      moved.(view := step.view, doomed := m.doomed || step.outcome != Done)
  }

  /** A live subscriber processes a message at once; before that it puts it aside. */
  function Receive(m: Member, peer: string, e: Entry): Member
    requires peer in m.links
  {
    var link := m.links[peer];
    if link.phase == Live then Process(m, peer, e)
    else m.(links := m.links[peer := link.(queue := link.queue + [e])])
  }

  function Drain(m: Member, peer: string): Member
    requires peer in m.links && m.links[peer].queue != []
  {
    var link := m.links[peer];
    Process(m.(links := m.links[peer := link.(queue := link.queue[1..])]), peer, link.queue[0])
  }

  /** The message ids that go with a snapshot: those of the source's subscribers, and its own. */
  function ListedBy(source: string, m: Member): map<string, Mark>
  {
    (map a | a in m.links :: Mark(m.links[a].last, m.links[a].known))[source := Mark(|m.log|, true)]
  }

  function SetPhase(m: Member, peer: string, phase: Phase): Member
    requires peer in m.links
  {
    m.(links := m.links[peer := m.links[peer].(phase := phase)])
  }

  /** The id of a peer's answer or of its request, and whether the node has the counters that belong to it. */
  function UnlistedMark(sys: System, node: string, peer: string, lastId: nat): Mark
    requires node in sys && peer in sys && lastId <= |sys[peer].log|
  {
    Mark(lastId, Share(sys[node].view, peer) == Fold(sys[peer].log[..lastId]).cells)
  }

  function Greeted(m: Member, newcomer: string, mark: Mark): Member
  {
    m.(links := m.links[newcomer := Link(Live, mark.last, mark.known, [])])
  }

  function StartFrom(m: Member, peer: string, mark: Mark): Member
    requires peer in m.links
  {
    m.(links := m.links[peer := m.links[peer].(phase := Draining, last := mark.last, known := mark.known)])
  }

  /** The member that an enabled action changes, after the action. */
  ghost function Changed(sys: System, a: Action, defs: string -> RoomDef): Member
    requires Enabled(sys, a, defs)
  {
    match a
    case Join(n, peers) =>
      Member([], EMPTY, map p | p in peers :: Link(Buffering, 0, false, []),
             if peers == {} then Some(map[]) else None, peers == {}, false)
    case Snapshot(n, p, s) =>
      sys[n].(view := Load(EMPTY, s).view, listed := Some(ListedBy(p, sys[p])), doomed := sys[p].doomed)
    case BeginSync(n, p) =>
      StartFrom(sys[n], p, sys[n].listed.value[p])
    case BeginSyncUnlisted(n, p, k) =>
      StartFrom(sys[n], p, UnlistedMark(sys, n, p, k))
    case DrainOne(n, p) => Drain(sys[n], p)
    case EndSync(n, p) => SetPhase(sys[n], p, Live)
    case Abandon(n, p) => sys[n].(links := sys[n].links - {p})
    case Finish(n) => sys[n].(joined := true)
    case Greet(n, j, k) => Greeted(sys[n], j, UnlistedMark(sys, n, j, k))
    case Publish(n, msg) =>
      var e := Entry(|sys[n].log| + 1, msg);
      sys[n].(log := sys[n].log + [e], view := Handle(sys[n].view, n, e).view)
    case Deliver(n, p, i) => Receive(sys[n], p, sys[p].log[i])
    case Evict(n, p) => sys[n].(links := sys[n].links - {p}, view := RemoveNode(sys[n].view, p))
  }

  /** An action that is not enabled changes nothing. */
  ghost function Act(sys: System, a: Action, defs: string -> RoomDef): System
  {
    if Enabled(sys, a, defs) then sys[a.node := Changed(sys, a, defs)] else sys
  }

  /** The system after any sequence of actions: every run of the cluster. */
  ghost function Exec(actions: seq<Action>, defs: string -> RoomDef): System
  {
    if actions == [] then map[]
    else Act(Exec(actions[..|actions| - 1], defs), actions[|actions| - 1], defs)
  }

  /* ---------- the invariant ---------- */

  type Logs = map<string, seq<Entry>>

  function LogsOf(sys: System): Logs
  {
    map n | n in sys :: sys[n].log
  }

  /** Ids count from 1, rooms have one definition, and the log is well formed. */
  ghost predicate LogOk(log: seq<Entry>, defs: string -> RoomDef)
  {
    && (forall i | 0 <= i < |log| :: log[i].id == i + 1 && Agrees(log[i].msg, defs))
    && Fold(log).ok
  }

  predicate Creates(log: seq<Entry>, room: string)
  {
    exists i | 0 <= i < |log| :: log[i].msg.NewRoom? && log[i].msg.room == room
  }

  /** Every counter of `v` belongs to a node that has published the creation of its room. */
  ghost predicate Grounded(v: View, logs: Logs)
  {
    forall a, r | r in Share(v, a) :: a in logs && Creates(logs[a], r)
  }

  predicate Genuine(e: Entry, log: seq<Entry>)
  {
    1 <= e.id <= |log| && log[e.id - 1] == e
  }

  /** Unless the node is doomed, its counters for the publisher are those of the first `k` messages. */
  ghost predicate Synced(m: Member, peer: string, log: seq<Entry>, k: int)
  {
    !m.doomed ==> 0 <= k <= |log| && Share(m.view, peer) == Fold(log[..k]).cells
  }

  ghost predicate LinkOk(m: Member, peer: string, log: seq<Entry>)
    requires peer in m.links
  {
    var link := m.links[peer];
    && (forall e | e in link.queue :: Genuine(e, log))
    && (link.phase != Buffering && link.known ==> Synced(m, peer, log, link.last))
    && (link.phase == Buffering && m.listed.Some? && peer in m.listed.value && m.listed.value[peer].known ==>
          Synced(m, peer, log, m.listed.value[peer].last))
  }

  ghost predicate LinksOk(name: string, m: Member, logs: Logs)
  {
    forall a | a in m.links :: a in logs && a != name && LinkOk(m, a, logs[a])
  }

  /** A node without a snapshot has nothing yet; a joined node has a snapshot and no pending subscriber. */
  ghost predicate StageOk(m: Member)
  {
    && (m.listed.None? ==>
        m.view == EMPTY && !m.joined && !m.doomed && forall a | a in m.links :: m.links[a].phase == Buffering)
    && (m.joined ==> m.listed.Some? && NoneBuffering(m.links))
    && (!m.joined ==> AllInert(m.log))
  }

  ghost predicate MemberOk(name: string, m: Member, logs: Logs, defs: string -> RoomDef)
  {
    && name in logs && logs[name] == m.log
    && LogOk(m.log, defs)
    && Coherent(m.view, defs)
    && Share(m.view, name) == Fold(m.log).cells
    && Grounded(m.view, logs)
    && LinksOk(name, m, logs)
    && StageOk(m)
  }

  ghost predicate Inv(sys: System, defs: string -> RoomDef)
  {
    forall n | n in sys :: MemberOk(n, sys[n], LogsOf(sys), defs)
  }

  /* ---------- logs ---------- */

  lemma {:induction false} FoldPrefix(log: seq<Entry>, k: nat)
    requires Fold(log).ok && k <= |log|
    ensures Fold(log[..k]).ok
    decreases |log|
  {
    if k == |log| {
      assert log[..k] == log;
    } else {
      var rest := log[..|log| - 1];
      FoldPrefix(rest, k);
      assert rest[..k] == log[..k];
    }
  }

  lemma {:induction false} FoldOfInert(log: seq<Entry>)
    requires AllInert(log)
    ensures Fold(log) == Local(map[], true)
  {
    if log != [] {
      FoldOfInert(log[..|log| - 1]);
    }
  }

  lemma CreatesMore(log: seq<Entry>, more: seq<Entry>, room: string)
    requires log <= more && Creates(log, room)
    ensures Creates(more, room)
  {
    var i :| 0 <= i < |log| && log[i].msg.NewRoom? && log[i].msg.room == room;
    assert more[i] == log[i];
  }

  /** The invariant of a member survives when other nodes appear or publish more. */
  lemma MemberOkMore(name: string, m: Member, logs: Logs, more: Logs, defs: string -> RoomDef)
    requires MemberOk(name, m, logs, defs)
    requires forall a | a in logs :: a in more && logs[a] <= more[a]
    requires name in more && more[name] == m.log
    ensures MemberOk(name, m, more, defs)
  {
    forall a, r | r in Share(m.view, a)
      ensures a in more && Creates(more[a], r)
    {
      CreatesMore(logs[a], more[a], r);
    }
    forall a | a in m.links
      ensures a in more && LinkOk(m, a, more[a])
    {
      LinkOkMore(m, a, logs[a], more[a]);
    }
  }

  lemma LinkOkMore(m: Member, peer: string, log: seq<Entry>, more: seq<Entry>)
    requires peer in m.links && LinkOk(m, peer, log) && log <= more
    ensures LinkOk(m, peer, more)
  {
    forall k | 0 <= k <= |log|
      ensures log[..k] == more[..k]
    {
    }
  }

  /* ---------- the invariant is kept: one lemma per kind of action ---------- */

  /** A change that only concerns one publisher keeps what the member knows about everyone else. */
  lemma OnlyPeerChanged(name: string, m: Member, m': Member, peer: string, logs: Logs, defs: string -> RoomDef)
    requires MemberOk(name, m, logs, defs) && peer != name
    requires m'.log == m.log && m'.joined == m.joined && m'.listed == m.listed && (m.doomed ==> m'.doomed)
    requires Coherent(m'.view, defs) && Grounded(m'.view, logs)
    requires forall a | a != peer :: Share(m'.view, a) == Share(m.view, a)
    requires m'.links - {peer} == m.links - {peer}
    requires peer in m'.links ==> peer in logs && LinkOk(m', peer, logs[peer])
    requires StageOk(m')
    ensures MemberOk(name, m', logs, defs)
  {
    forall a | a in m'.links
      ensures a in logs && a != name && LinkOk(m', a, logs[a])
    {
      if a != peer {
        assert a in m'.links - {peer};
        assert m'.links[a] == (m'.links - {peer})[a] == (m.links - {peer})[a] == m.links[a];
      }
    }
  }

  /** A genuine message never makes an undoomed node fail: its handler meets no desync error. */
  lemma AcceptedIsHandled(m: Member, peer: string, e: Entry, log: seq<Entry>, defs: string -> RoomDef)
    requires Coherent(m.view, defs) && LogOk(log, defs) && Genuine(e, log)
    requires 0 <= e.id - 1 && Share(m.view, peer) == Fold(log[..e.id - 1]).cells
    ensures Handle(m.view, peer, e).outcome == Done
    ensures Share(Handle(m.view, peer, e).view, peer) == Fold(log[..e.id]).cells
  {
    assert Agrees(e.msg, defs);
    HandleIsLocal(m.view, defs, peer, e);
    FoldPrefix(log, e.id);
    FoldPrefix(log, e.id - 1);
    assert log[..e.id - 1] + [e] == log[..e.id];
    FoldAppended(log[..e.id - 1], e);
  }

  lemma HandleGrounded(v: View, peer: string, e: Entry, logs: Logs, defs: string -> RoomDef)
    requires Coherent(v, defs) && Grounded(v, logs) && peer in logs
    requires Genuine(e, logs[peer]) && Agrees(e.msg, defs)
    ensures Grounded(Handle(v, peer, e).view, logs)
  {
    HandleIsLocal(v, defs, peer, e);
    var w := Handle(v, peer, e).view;
    forall a, r | r in Share(w, a)
      ensures a in logs && Creates(logs[a], r)
    {
      if a == peer && r !in Share(v, peer) {
        assert e.msg.NewRoom? && e.msg.room == r;
        assert logs[peer][e.id - 1] == e;
      } else {
        assert r in Share(v, a);
      }
    }
  }

  lemma ProcessKeeps(name: string, m: Member, peer: string, e: Entry, logs: Logs, defs: string -> RoomDef)
    requires MemberOk(name, m, logs, defs)
    requires peer in m.links && m.links[peer].phase != Buffering
    requires Genuine(e, logs[peer]) && LogOk(logs[peer], defs)
    ensures MemberOk(name, Process(m, peer, e), logs, defs)
  {
    var m' := Process(m, peer, e);
    assert LinkOk(m, peer, logs[peer]);
    ProcessView(m, peer, e, logs, defs);
    assert m'.links - {peer} == m.links - {peer};
    ProcessLinkOk(m, peer, e, logs[peer], defs);
    OnlyPeerChanged(name, m, m', peer, logs, defs);
  }

  lemma ProcessView(m: Member, peer: string, e: Entry, logs: Logs, defs: string -> RoomDef)
    requires Coherent(m.view, defs) && Grounded(m.view, logs)
    requires peer in m.links && peer in logs && Genuine(e, logs[peer]) && LogOk(logs[peer], defs)
    ensures var v := Process(m, peer, e).view;
            Coherent(v, defs) && Grounded(v, logs) && forall a | a != peer :: Share(v, a) == Share(m.view, a)
  {
    assert Agrees(e.msg, defs);
    HandleIsLocal(m.view, defs, peer, e);
    HandleGrounded(m.view, peer, e, logs, defs);
  }

  lemma ProcessLinkOk(m: Member, peer: string, e: Entry, log: seq<Entry>, defs: string -> RoomDef)
    requires peer in m.links && m.links[peer].phase != Buffering && LinkOk(m, peer, log)
    requires Coherent(m.view, defs) && Genuine(e, log) && LogOk(log, defs)
    ensures LinkOk(Process(m, peer, e), peer, log)
  {
    var link := m.links[peer];
    var check := MessageOrder.Validate(CursorOf(link), e.id);
    if check.verdict.Accept? && !m.doomed && link.known {
      AcceptedIsHandled(m, peer, e, log, defs);
    }
  }

  lemma QueueKeeps(name: string, m: Member, peer: string, queue: seq<Entry>, logs: Logs, defs: string -> RoomDef)
    requires MemberOk(name, m, logs, defs) && peer in m.links
    requires forall e | e in queue :: Genuine(e, logs[peer])
    ensures MemberOk(name, m.(links := m.links[peer := m.links[peer].(queue := queue)]), logs, defs)
  {
    var m' := m.(links := m.links[peer := m.links[peer].(queue := queue)]);
    assert LinkOk(m, peer, logs[peer]);
    assert m'.links - {peer} == m.links - {peer};
    OnlyPeerChanged(name, m, m', peer, logs, defs);
  }

  lemma ReceiveKeeps(name: string, m: Member, peer: string, e: Entry, logs: Logs, defs: string -> RoomDef)
    requires MemberOk(name, m, logs, defs) && peer in m.links
    requires Genuine(e, logs[peer]) && LogOk(logs[peer], defs)
    ensures MemberOk(name, Receive(m, peer, e), logs, defs)
  {
    if m.links[peer].phase == Live {
      ProcessKeeps(name, m, peer, e, logs, defs);
    } else {
      assert LinkOk(m, peer, logs[peer]);
      QueueKeeps(name, m, peer, m.links[peer].queue + [e], logs, defs);
    }
  }

  lemma DrainKeeps(name: string, m: Member, peer: string, logs: Logs, defs: string -> RoomDef)
    requires MemberOk(name, m, logs, defs)
    requires peer in m.links && m.links[peer].phase == Draining && m.links[peer].queue != []
    requires peer in logs && LogOk(logs[peer], defs)
    ensures MemberOk(name, Drain(m, peer), logs, defs)
  {
    var queue := m.links[peer].queue;
    assert LinkOk(m, peer, logs[peer]);
    assert queue[0] in queue;
    QueueKeeps(name, m, peer, queue[1..], logs, defs);
    ProcessKeeps(name, m.(links := m.links[peer := m.links[peer].(queue := queue[1..])]), peer, queue[0], logs, defs);
  }

  lemma StartFromKeeps(name: string, m: Member, peer: string, mark: Mark, logs: Logs, defs: string -> RoomDef)
    requires MemberOk(name, m, logs, defs) && peer in m.links && m.links[peer].phase == Buffering && m.listed.Some?
    requires mark.known ==> Synced(m, peer, logs[peer], mark.last)
    ensures MemberOk(name, StartFrom(m, peer, mark), logs, defs)
  {
    var m' := StartFrom(m, peer, mark);
    assert LinkOk(m, peer, logs[peer]);
    assert m'.links - {peer} == m.links - {peer};
    OnlyPeerChanged(name, m, m', peer, logs, defs);
  }

  lemma EndSyncKeeps(name: string, m: Member, peer: string, logs: Logs, defs: string -> RoomDef)
    requires MemberOk(name, m, logs, defs) && peer in m.links && m.links[peer].phase == Draining
    ensures MemberOk(name, SetPhase(m, peer, Live), logs, defs)
  {
    var m' := SetPhase(m, peer, Live);
    assert LinkOk(m, peer, logs[peer]);
    assert m'.links - {peer} == m.links - {peer};
    OnlyPeerChanged(name, m, m', peer, logs, defs);
  }

  lemma AbandonKeeps(name: string, m: Member, peer: string, logs: Logs, defs: string -> RoomDef)
    requires MemberOk(name, m, logs, defs) && peer in m.links
    ensures MemberOk(name, m.(links := m.links - {peer}), logs, defs)
  {
    var m' := m.(links := m.links - {peer});
    OnlyPeerChanged(name, m, m', peer, logs, defs);
  }

  lemma EvictKeeps(name: string, m: Member, peer: string, logs: Logs, defs: string -> RoomDef)
    requires MemberOk(name, m, logs, defs) && peer in m.links
    ensures MemberOk(name, m.(links := m.links - {peer}, view := RemoveNode(m.view, peer)), logs, defs)
  {
    var m' := m.(links := m.links - {peer}, view := RemoveNode(m.view, peer));
    RemoveNodeErases(m.view, defs, peer);
    RemoveNodeIsLocal(m.view, peer);
    forall a, r | r in Share(m'.view, a)
      ensures a in logs && Creates(logs[a], r)
    {
      assert a != peer;
      assert r in Share(m.view, a);
    }
    if m.listed.None? {
      assert m'.view == EMPTY;
    }
    OnlyPeerChanged(name, m, m', peer, logs, defs);
  }

  lemma InertCreatesNothing(log: seq<Entry>, r: string)
    requires AllInert(log)
    ensures !Creates(log, r)
  {
  }

  /** Nobody has counters for a node that has published nothing but heartbeats. */
  lemma NothingFromInert(v: View, logs: Logs, a: string)
    requires Grounded(v, logs) && (a in logs ==> AllInert(logs[a]))
    ensures Share(v, a) == map[]
  {
    forall r ensures r !in Share(v, a) {
      if a in logs {
        InertCreatesNothing(logs[a], r);
      }
    }
    assert Share(v, a).Keys == {};
  }

  lemma GreetKeeps(name: string, m: Member, newcomer: string, mark: Mark, logs: Logs, defs: string -> RoomDef)
    requires MemberOk(name, m, logs, defs) && m.joined
    requires newcomer in logs && newcomer != name && newcomer !in m.links
    requires mark.known ==> Synced(m, newcomer, logs[newcomer], mark.last)
    ensures MemberOk(name, Greeted(m, newcomer, mark), logs, defs)
  {
    var m' := Greeted(m, newcomer, mark);
    assert m'.links - {newcomer} == m.links - {newcomer};
    OnlyPeerChanged(name, m, m', newcomer, logs, defs);
  }

  lemma JoinKeeps(name: string, peers: set<string>, logs: Logs, defs: string -> RoomDef)
    requires peers <= logs.Keys && name !in logs
    ensures MemberOk(name,
                     Member([], EMPTY, map p | p in peers :: Link(Buffering, 0, false, []),
                            if peers == {} then Some(map[]) else None, peers == {}, false),
                     logs[name := []], defs)
  {
    assert Share(EMPTY, name) == map[];
    var links := map p | p in peers :: Link(Buffering, 0, false, []);
    if peers == {} {
      assert links == map[];
    }
  }

  lemma SnapshotKeeps(name: string, m: Member, source: string, p: Member, s: SerializedState, logs: Logs,
                      defs: string -> RoomDef)
    requires MemberOk(name, m, logs, defs) && MemberOk(source, p, logs, defs) && name != source
    requires !m.joined && m.listed.None? && p.joined && NoneBuffering(p.links) && Encodes(s, p.view)
    ensures MemberOk(name, m.(view := Load(EMPTY, s).view, listed := Some(ListedBy(source, p)), doomed := p.doomed),
                     logs, defs)
  {
    var m' := m.(view := Load(EMPTY, s).view, listed := Some(ListedBy(source, p)), doomed := p.doomed);
    CoherentStateRoundTrip(p.view, defs, s);
    assert m'.view == p.view;
    NothingFromInert(p.view, logs, name);
    FoldOfInert(m.log);
    forall a | a in m'.links
      ensures a in logs && a != name && LinkOk(m', a, logs[a])
    {
      assert LinkOk(m, a, logs[a]);
      if a in ListedBy(source, p) {
        if a == source {
          assert p.log[..|p.log|] == p.log;
        } else {
          assert LinkOk(p, a, logs[a]);
        }
      }
    }
  }

  lemma PublishKeeps(name: string, m: Member, msg: Msg, logs: Logs, more: Logs, defs: string -> RoomDef)
    requires MemberOk(name, m, logs, defs)
    requires (m.joined || msg.Inert?) && Agrees(msg, defs)
    requires Handle(m.view, name, Entry(|m.log| + 1, msg)).outcome == Done
    requires more == logs[name := m.log + [Entry(|m.log| + 1, msg)]]
    ensures MemberOk(name, m.(log := more[name], view := Handle(m.view, name, Entry(|m.log| + 1, msg)).view), more,
            defs)
  {
    var e := Entry(|m.log| + 1, msg);
    var log := m.log + [e];
    var m' := m.(log := log, view := Handle(m.view, name, e).view);
    HandleIsLocal(m.view, defs, name, e);
    FoldAppended(m.log, e);
    GroundedMore(m.view, logs, more, name);
    assert log[e.id - 1] == e;
    HandleGrounded(m.view, name, e, more, defs);
    PublishLinks(name, m, m', logs, more);
  }

  /** Publishing leaves the subscribers of the publisher, and what it knows about others, alone. */
  lemma PublishLinks(name: string, m: Member, m': Member, logs: Logs, more: Logs)
    requires LinksOk(name, m, logs) && name in more && more == logs[name := more[name]]
    requires m' == m.(log := m'.log, view := m'.view)
    requires forall a | a != name :: Share(m'.view, a) == Share(m.view, a)
    ensures LinksOk(name, m', more)
  {
    forall a | a in m'.links
      ensures a in more && a != name && LinkOk(m', a, more[a])
    {
      assert LinkOk(m, a, logs[a]);
    }
  }

  lemma GroundedMore(v: View, logs: Logs, more: Logs, name: string)
    requires Grounded(v, logs) && name in logs && name in more && logs[name] <= more[name]
             && more == logs[name := more[name]]
    ensures Grounded(v, more)
  {
    forall a, r | r in Share(v, a)
      ensures a in more && Creates(more[a], r)
    {
      CreatesMore(logs[a], more[a], r);
    }
  }

  /* ---------- every run keeps the invariant ---------- */

  lemma OthersKeep(sys: System, node: string, m': Member, defs: string -> RoomDef)
    requires Inv(sys, defs)
    requires MemberOk(node, m', LogsOf(sys)[node := m'.log], defs)
    requires node in sys ==> sys[node].log <= m'.log
    ensures Inv(sys[node := m'], defs)
  {
    var sys' := sys[node := m'];
    assert LogsOf(sys') == LogsOf(sys)[node := m'.log];
    forall n | n in sys'
      ensures MemberOk(n, sys'[n], LogsOf(sys'), defs)
    {
      if n != node {
        MemberOkMore(n, sys[n], LogsOf(sys), LogsOf(sys'), defs);
      }
    }
  }

  lemma ActKeeps(sys: System, a: Action, defs: string -> RoomDef)
    requires Inv(sys, defs)
    ensures Inv(Act(sys, a, defs), defs)
  {
    if Enabled(sys, a, defs) {
      if a.Join? || a.Publish? {
        ChangedLogKeeps(sys, a, defs);
        OthersKeep(sys, a.node, Changed(sys, a, defs), defs);
      } else {
        SameLogActKeeps(sys, a, defs);
        SameLogKeeps(sys, a.node, Changed(sys, a, defs), defs);
      }
    }
  }

  lemma SameLogKeeps(sys: System, node: string, m': Member, defs: string -> RoomDef)
    requires Inv(sys, defs) && node in sys && m'.log == sys[node].log
    requires MemberOk(node, m', LogsOf(sys), defs)
    ensures Inv(sys[node := m'], defs)
  {
    var sys' := sys[node := m'];
    LogsUnchanged(sys, node, m');
    forall n | n in sys'
      ensures MemberOk(n, sys'[n], LogsOf(sys'), defs)
    {
      if n != node {
        assert sys'[n] == sys[n] && MemberOk(n, sys[n], LogsOf(sys), defs);
      }
    }
  }

  lemma LogsUnchanged(sys: System, node: string, m': Member)
    requires node in sys && m'.log == sys[node].log
    ensures LogsOf(sys[node := m']) == LogsOf(sys)
  {
  }

  lemma SameLogActKeeps(sys: System, a: Action, defs: string -> RoomDef)
    requires Inv(sys, defs) && Enabled(sys, a, defs) && !a.Join? && !a.Publish?
    ensures a.node in sys && MemberOk(a.node, Changed(sys, a, defs), LogsOf(sys), defs)
    ensures Changed(sys, a, defs).log == sys[a.node].log
  {
    if a.Snapshot? {
      SnapshotActKeeps(sys, a, defs);
    } else if a.BeginSync? || a.BeginSyncUnlisted? {
      BeginActKeeps(sys, a, defs);
    } else if a.DrainOne? {
      DrainActKeeps(sys, a, defs);
    } else if a.EndSync? || a.Abandon? || a.Finish? {
      EndActKeeps(sys, a, defs);
    } else if a.Greet? {
      GreetActKeeps(sys, a, defs);
    } else if a.Deliver? {
      DeliverActKeeps(sys, a, defs);
    } else {
      EvictActKeeps(sys, a, defs);
    }
  }

  lemma ChangedLogKeeps(sys: System, a: Action, defs: string -> RoomDef)
    requires Inv(sys, defs) && Enabled(sys, a, defs) && (a.Join? || a.Publish?)
    ensures MemberOk(a.node, Changed(sys, a, defs), LogsOf(sys)[a.node := Changed(sys, a, defs).log], defs)
    ensures a.node in sys ==> sys[a.node].log <= Changed(sys, a, defs).log
  {
    var logs := LogsOf(sys);
    if a.Join? {
      JoinKeeps(a.node, a.peers, logs, defs);
    } else {
      var m := sys[a.node];
      assert MemberOk(a.node, m, logs, defs);
      PublishKeeps(a.node, m, a.msg, logs, logs[a.node := m.log + [Entry(|m.log| + 1, a.msg)]], defs);
    }
  }

  lemma SnapshotActKeeps(sys: System, a: Action, defs: string -> RoomDef)
    requires Inv(sys, defs) && Enabled(sys, a, defs) && a.Snapshot?
    ensures MemberOk(a.node, Changed(sys, a, defs), LogsOf(sys), defs)
    ensures Changed(sys, a, defs).log == sys[a.node].log
  {
    var logs := LogsOf(sys);
    assert MemberOk(a.node, sys[a.node], logs, defs);
    match a
    case Snapshot(n, p, s) =>
      assert MemberOk(p, sys[p], logs, defs);
      SnapshotKeeps(n, sys[n], p, sys[p], s, logs, defs);
  }

  lemma DrainActKeeps(sys: System, a: Action, defs: string -> RoomDef)
    requires Inv(sys, defs) && Enabled(sys, a, defs) && a.DrainOne?
    ensures MemberOk(a.node, Changed(sys, a, defs), LogsOf(sys), defs)
    ensures Changed(sys, a, defs).log == sys[a.node].log
  {
    var logs := LogsOf(sys);
    assert MemberOk(a.node, sys[a.node], logs, defs);
    assert a.peer in logs && MemberOk(a.peer, sys[a.peer], logs, defs);
    DrainKeeps(a.node, sys[a.node], a.peer, logs, defs);
  }

  lemma BeginActKeeps(sys: System, a: Action, defs: string -> RoomDef)
    requires Inv(sys, defs) && Enabled(sys, a, defs) && (a.BeginSync? || a.BeginSyncUnlisted?)
    ensures MemberOk(a.node, Changed(sys, a, defs), LogsOf(sys), defs)
    ensures Changed(sys, a, defs).log == sys[a.node].log
  {
    var logs := LogsOf(sys);
    var m := sys[a.node];
    assert MemberOk(a.node, m, logs, defs);
    if a.BeginSync? {
      assert LinkOk(m, a.peer, logs[a.peer]);
      StartFromKeeps(a.node, m, a.peer, m.listed.value[a.peer], logs, defs);
    } else {
      StartFromKeeps(a.node, m, a.peer, UnlistedMark(sys, a.node, a.peer, a.lastId), logs, defs);
    }
  }

  lemma EndActKeeps(sys: System, a: Action, defs: string -> RoomDef)
    requires Inv(sys, defs) && Enabled(sys, a, defs) && (a.EndSync? || a.Abandon? || a.Finish?)
    ensures MemberOk(a.node, Changed(sys, a, defs), LogsOf(sys), defs)
    ensures Changed(sys, a, defs).log == sys[a.node].log
  {
    var logs := LogsOf(sys);
    assert MemberOk(a.node, sys[a.node], logs, defs);
    if a.EndSync? {
      EndSyncKeeps(a.node, sys[a.node], a.peer, logs, defs);
    } else if a.Abandon? {
      AbandonKeeps(a.node, sys[a.node], a.peer, logs, defs);
    }
  }

  lemma GreetActKeeps(sys: System, a: Action, defs: string -> RoomDef)
    requires Inv(sys, defs) && Enabled(sys, a, defs) && a.Greet?
    ensures MemberOk(a.node, Changed(sys, a, defs), LogsOf(sys), defs)
    ensures Changed(sys, a, defs).log == sys[a.node].log
  {
    var logs := LogsOf(sys);
    assert MemberOk(a.node, sys[a.node], logs, defs);
    match a
    case Greet(n, j, k) =>
      GreetKeeps(n, sys[n], j, UnlistedMark(sys, n, j, k), logs, defs);
  }

  lemma DeliverActKeeps(sys: System, a: Action, defs: string -> RoomDef)
    requires Inv(sys, defs) && Enabled(sys, a, defs) && a.Deliver?
    ensures MemberOk(a.node, Changed(sys, a, defs), LogsOf(sys), defs)
    ensures Changed(sys, a, defs).log == sys[a.node].log
  {
    DeliverKeeps(sys, a.node, a.peer, a.index, defs);
  }

  lemma DeliverKeeps(sys: System, node: string, peer: string, index: nat, defs: string -> RoomDef)
    requires Inv(sys, defs) && node in sys && peer in sys[node].links && peer in sys && index < |sys[peer].log|
    ensures var m := Receive(sys[node], peer, sys[peer].log[index]);
            MemberOk(node, m, LogsOf(sys), defs) && m.log == sys[node].log
  {
    var logs := LogsOf(sys);
    assert MemberOk(node, sys[node], logs, defs) && MemberOk(peer, sys[peer], logs, defs);
    ReceiveKeeps(node, sys[node], peer, sys[peer].log[index], logs, defs);
  }

  lemma EvictActKeeps(sys: System, a: Action, defs: string -> RoomDef)
    requires Inv(sys, defs) && Enabled(sys, a, defs) && a.Evict?
    ensures MemberOk(a.node, Changed(sys, a, defs), LogsOf(sys), defs)
    ensures Changed(sys, a, defs).log == sys[a.node].log
  {
    assert MemberOk(a.node, sys[a.node], LogsOf(sys), defs);
    EvictKeeps(a.node, sys[a.node], a.peer, LogsOf(sys), defs);
  }

  lemma {:induction false} ExecKeeps(actions: seq<Action>, defs: string -> RoomDef)
    ensures Inv(Exec(actions, defs), defs)
  {
    if actions != [] {
      ExecKeeps(actions[..|actions| - 1], defs);
      ActKeeps(Exec(actions[..|actions| - 1], defs), actions[|actions| - 1], defs);
    }
  }

  /* ---------- main results ---------- */

  /**
   * Snapshot plus replay equals whole-log replay, in every run and for any channel behaviour: a node
   * that has begun to play a publisher's messages, from counters it knew, either is doomed, or holds
   * for that publisher exactly the counters of the publisher's first `last` messages.
   */
  lemma SnapshotPlusReplay(actions: seq<Action>, defs: string -> RoomDef, node: string, peer: string)
    requires node in Exec(actions, defs) && !Exec(actions, defs)[node].doomed
    requires peer in Exec(actions, defs)[node].links && Exec(actions, defs)[node].links[peer].phase != Buffering
    requires Exec(actions, defs)[node].links[peer].known
    ensures peer in Exec(actions, defs)
    ensures var sys := Exec(actions, defs);
            var last := sys[node].links[peer].last;
            0 <= last <= |sys[peer].log| && Share(sys[node].view, peer) == Fold(sys[peer].log[..last]).cells
  {
    var sys := Exec(actions, defs);
    ExecKeeps(actions, defs);
    assert MemberOk(node, sys[node], LogsOf(sys), defs);
    assert LinkOk(sys[node], peer, LogsOf(sys)[peer]);
  }

  predicate KnowsAll(m: Member)
  {
    && (forall p <- m.links :: m.links[p].phase != Buffering ==> m.links[p].known)
    && (m.listed.Some? ==> forall p <- m.listed.value :: m.listed.value[p].known)
  }

  ghost predicate AllKnown(sys: System)
  {
    forall n <- sys :: KnowsAll(sys[n])
  }

  /** A handshake request handled once the newcomer has joined, without waiting for the answer. */
  predicate Late(sys: System, a: Action)
  {
    a.Greet? && a.newcomer in sys && sys[a.newcomer].joined
  }

  /**
   * Only a peer that the snapshot does not list, or a newcomer whose request is handled late, can be played
   * from unknown counters.
   */
  lemma {:induction false} ListedIsKnown(actions: seq<Action>, defs: string -> RoomDef)
    requires forall i :: 0 <= i < |actions| ==>
             !actions[i].BeginSyncUnlisted? && !Late(Exec(actions[..i], defs), actions[i])
    ensures AllKnown(Exec(actions, defs))
  {
    if actions != [] {
      var before := actions[..|actions| - 1];
      assert forall i :: 0 <= i < |before| ==> before[..i] == actions[..i];
      ListedIsKnown(before, defs);
      ExecKeeps(before, defs);
      var sys, a := Exec(before, defs), actions[|actions| - 1];
      if Enabled(sys, a, defs) {
        StepKeepsKnown(sys, a, defs);
      }
    }
  }

  lemma StepKeepsKnown(sys: System, a: Action, defs: string -> RoomDef)
    requires AllKnown(sys) && Inv(sys, defs) && Enabled(sys, a, defs) && !a.BeginSyncUnlisted? && !Late(sys, a)
    ensures AllKnown(Act(sys, a, defs))
  {
    if a.Snapshot? {
      SnapshotKnowsAll(sys[a.node], a.source, sys[a.source], a.state);
    } else if a.Greet? {
      GreetKnownIff(sys, a.node, a.newcomer, a.lastId, defs);
      GreetedKnowsAll(sys[a.node], a.newcomer, UnlistedMark(sys, a.node, a.newcomer, a.lastId));
    } else {
      ChangedKnowsAll(sys, a, defs);
    }
    OneKnowsAll(sys, a.node, Changed(sys, a, defs));
  }

  lemma OneKnowsAll(sys: System, node: string, m: Member)
    requires AllKnown(sys) && KnowsAll(m)
    ensures AllKnown(sys[node := m])
  {
  }

  lemma GreetedKnowsAll(m: Member, newcomer: string, mark: Mark)
    requires KnowsAll(m) && mark.known
    ensures KnowsAll(Greeted(m, newcomer, mark))
  {
  }

  /** A newcomer is played from known counters exactly when the node has none of it. */
  lemma GreetKnownIff(sys: System, node: string, newcomer: string, lastId: nat, defs: string -> RoomDef)
    requires Inv(sys, defs) && Enabled(sys, Greet(node, newcomer, lastId), defs)
    ensures UnlistedMark(sys, node, newcomer, lastId).known <==> Share(sys[node].view, newcomer) == map[]
    ensures !sys[newcomer].joined ==> Share(sys[node].view, newcomer) == map[]
  {
    var logs := LogsOf(sys);
    assert MemberOk(node, sys[node], logs, defs) && MemberOk(newcomer, sys[newcomer], logs, defs);
    FoldOfInert(sys[newcomer].log[..lastId]);
    if !sys[newcomer].joined {
      NothingFromInert(sys[node].view, logs, newcomer);
    }
  }

  lemma SnapshotKnowsAll(m: Member, source: string, p: Member, s: SerializedState)
    requires KnowsAll(m) && KnowsAll(p) && NoneBuffering(p.links)
    ensures KnowsAll(m.(view := Load(EMPTY, s).view, listed := Some(ListedBy(source, p)), doomed := p.doomed))
  {
    var listed := ListedBy(source, p);
    forall q | q in listed ensures listed[q].known {
      assert q == source || (q in p.links && p.links[q].phase != Buffering);
    }
  }

  lemma ChangedKnowsAll(sys: System, a: Action, defs: string -> RoomDef)
    requires AllKnown(sys) && Enabled(sys, a, defs) && !a.BeginSyncUnlisted? && !a.Snapshot? && !a.Greet?
    ensures KnowsAll(Changed(sys, a, defs))
  {
    if a.DrainOne? {
      DrainKnowsAll(sys[a.node], a.peer);
    } else if a.Deliver? {
      ReceiveKnowsAll(sys[a.node], a.peer, sys[a.peer].log[a.index]);
    }
  }

  lemma DrainKnowsAll(m: Member, peer: string)
    requires KnowsAll(m) && peer in m.links && m.links[peer].phase == Draining && m.links[peer].queue != []
    ensures KnowsAll(Drain(m, peer))
  {
  }

  lemma ReceiveKnowsAll(m: Member, peer: string, e: Entry)
    requires KnowsAll(m) && peer in m.links
    ensures KnowsAll(Receive(m, peer, e))
  {
  }

  /**
   * A peer that answers the handshake without being listed: its counters are right from there on exactly
   * when the node happens to have those of its messages up to the id of the answer; with none of its
   * counters in the snapshot, exactly when these messages leave none.
   */
  lemma UnlistedSyncIff(actions: seq<Action>, defs: string -> RoomDef, node: string, peer: string, lastId: nat)
    requires Enabled(Exec(actions, defs), BeginSyncUnlisted(node, peer, lastId), defs)
    requires !Exec(actions, defs)[node].doomed
    ensures var sys := Exec(actions, defs);
            var after := Exec(actions + [BeginSyncUnlisted(node, peer, lastId)], defs);
            var owed := Fold(sys[peer].log[..lastId]).cells;
            && after[node].links[peer].last == lastId
            && (after[node].links[peer].known <==> Synced(after[node], peer, after[peer].log, lastId))
            && (after[node].links[peer].known <==> Share(sys[node].view, peer) == owed)
            && (Share(sys[node].view, peer) == map[] ==> (after[node].links[peer].known <==> owed == map[]))
  {
    var a := BeginSyncUnlisted(node, peer, lastId);
    assert (actions + [a])[..|actions|] == actions;
    ExecKeeps(actions, defs);
    var sys := Exec(actions, defs);
    assert MemberOk(node, sys[node], LogsOf(sys), defs);
  }

  /**
   * The counters of a newcomer are right from its request on exactly when the node had none of them before,
   * which is so unless the request is handled late.
   */
  lemma GreetIff(actions: seq<Action>, defs: string -> RoomDef, node: string, newcomer: string, lastId: nat)
    requires Enabled(Exec(actions, defs), Greet(node, newcomer, lastId), defs)
    requires !Exec(actions, defs)[node].doomed
    ensures var sys := Exec(actions, defs);
            var after := Exec(actions + [Greet(node, newcomer, lastId)], defs);
            && (after[node].links[newcomer].known <==> Synced(after[node], newcomer, after[newcomer].log, lastId))
            && (after[node].links[newcomer].known <==> Share(sys[node].view, newcomer) == map[])
            && (!Late(sys, Greet(node, newcomer, lastId)) ==> after[node].links[newcomer].known)
  {
    var a := Greet(node, newcomer, lastId);
    assert (actions + [a])[..|actions|] == actions;
    ExecKeeps(actions, defs);
    GreetKnownIff(Exec(actions, defs), node, newcomer, lastId, defs);
  }

  /** How far a node has followed another one: the whole log for itself, the last message id for a peer. */
  function Position(m: Member, name: string, other: string): Option<int>
  {
    if other == name then Some(|m.log|)
    else if other in m.links && m.links[other].phase != Buffering && m.links[other].known then Some(m.links[other].last)
    else None
  }

  /**
   * Two undoomed nodes that have followed every node equally far have the same rooms, counters and
   * filters; for a node that they do not follow, it suffices that neither has counters of it.
   */
  lemma NodesAgree(actions: seq<Action>, defs: string -> RoomDef, b: string, c: string)
    requires b in Exec(actions, defs) && c in Exec(actions, defs)
    requires var sys := Exec(actions, defs);
             && !sys[b].doomed && !sys[c].doomed
             && forall n :: Position(sys[b], b, n) == Position(sys[c], c, n)
                            && (Position(sys[b], b, n).None? ==>
                                Share(sys[b].view, n) == Share(sys[c].view, n) == map[])
    ensures Exec(actions, defs)[b].view.rooms == Exec(actions, defs)[c].view.rooms
    ensures Exec(actions, defs)[b].view.filters == Exec(actions, defs)[c].view.filters
  {
    var sys := Exec(actions, defs);
    ExecKeeps(actions, defs);
    var v := sys[b].view.(strategies := map[]);
    var w := sys[c].view.(strategies := map[]);
    forall n
      ensures Share(v, n) == Share(w, n)
    {
      if Position(sys[b], b, n).Some? {
        ShareAtPosition(sys, defs, b, n);
        ShareAtPosition(sys, defs, c, n);
      }
      assert Share(v, n) == Share(sys[b].view, n) && Share(w, n) == Share(sys[c].view, n);
    }
    assert MemberOk(b, sys[b], LogsOf(sys), defs) && MemberOk(c, sys[c], LogsOf(sys), defs);
    SharesDetermine(v, w, defs);
  }

  lemma ShareAtPosition(sys: System, defs: string -> RoomDef, b: string, n: string)
    requires Inv(sys, defs) && b in sys && !sys[b].doomed
    requires Position(sys[b], b, n).Some?
    ensures n in sys && 0 <= Position(sys[b], b, n).value <= |sys[n].log|
    ensures Share(sys[b].view, n) == Fold(sys[n].log[..Position(sys[b], b, n).value]).cells
  {
    assert MemberOk(b, sys[b], LogsOf(sys), defs);
    if n == b {
      assert sys[b].log[..|sys[b].log|] == sys[b].log;
    } else {
      assert LinkOk(sys[b], n, LogsOf(sys)[n]);
    }
  }

  /** In every run, every node's rooms and Koncorde filters agree, even for doomed nodes. */
  lemma AlwaysCoherent(actions: seq<Action>, defs: string -> RoomDef, node: string)
    requires node in Exec(actions, defs)
    ensures Coherent(Exec(actions, defs)[node].view, defs)
  {
    ExecKeeps(actions, defs);
    assert MemberOk(node, Exec(actions, defs)[node], LogsOf(Exec(actions, defs)), defs);
  }

  /**
   * An undoomed node is doomed by a genuine message exactly when its id is not the next one, or when it
   * does not fit the counters; the latter only if the replay did not start from known counters.
   */
  lemma OnlyGapsDoom(actions: seq<Action>, defs: string -> RoomDef, node: string, peer: string, e: Entry)
    requires node in Exec(actions, defs) && peer in Exec(actions, defs)
    requires var sys := Exec(actions, defs);
             && !sys[node].doomed && peer in sys[node].links && sys[node].links[peer].phase != Buffering
             && Genuine(e, sys[peer].log)
    ensures var sys := Exec(actions, defs);
            var link := sys[node].links[peer];
            var verdict := MessageOrder.Validate(CursorOf(link), e.id).verdict;
            && (Process(sys[node], peer, e).doomed <==>
                  verdict.Gap? || (verdict.Accept? && !LocalStep(Share(sys[node].view, peer), e).ok))
            && (link.known ==> (Process(sys[node], peer, e).doomed <==> verdict.Gap?))
  {
    var sys := Exec(actions, defs);
    ExecKeeps(actions, defs);
    var m := sys[node];
    var log := sys[peer].log;
    assert MemberOk(node, m, LogsOf(sys), defs) && MemberOk(peer, sys[peer], LogsOf(sys), defs);
    assert LinkOk(m, peer, LogsOf(sys)[peer]);
    DoomedIff(m, peer, e, log, defs);
    if m.links[peer].known {
      DoomedByGap(m, peer, e, log, defs);
    }
  }

  lemma DoomedIff(m: Member, peer: string, e: Entry, log: seq<Entry>, defs: string -> RoomDef)
    requires Coherent(m.view, defs) && LogOk(log, defs) && Genuine(e, log) && !m.doomed && peer in m.links
    ensures var verdict := MessageOrder.Validate(CursorOf(m.links[peer]), e.id).verdict;
            Process(m, peer, e).doomed <==>
            verdict.Gap? || (verdict.Accept? && !LocalStep(Share(m.view, peer), e).ok)
  {
    assert Agrees(e.msg, defs);
    HandleIsLocal(m.view, defs, peer, e);
  }

  lemma DoomedByGap(m: Member, peer: string, e: Entry, log: seq<Entry>, defs: string -> RoomDef)
    requires Coherent(m.view, defs) && LogOk(log, defs) && Genuine(e, log) && !m.doomed
    requires peer in m.links && Synced(m, peer, log, m.links[peer].last)
    ensures Process(m, peer, e).doomed
            <==> MessageOrder.Validate(CursorOf(m.links[peer]), e.id).verdict.Gap?
  {
    var link := m.links[peer];
    if MessageOrder.Validate(CursorOf(link), e.id).verdict.Accept? {
      AcceptedIsHandled(m, peer, e, log, defs);
    }
  }

  /* ---------- a whole `sync` as a run of actions ---------- */

  /** The member once all the messages put aside were played. */
  function DrainAll(m: Member, peer: string): Member
    requires peer in m.links
    decreases |m.links[peer].queue|
  {
    if m.links[peer].queue == [] then m else DrainAll(Drain(m, peer), peer)
  }

  ghost function ActAll(sys: System, actions: seq<Action>, defs: string -> RoomDef): System
    decreases |actions|
  {
    if actions == [] then sys else ActAll(Act(sys, actions[0], defs), actions[1..], defs)
  }

  function Drains(node: string, peer: string, count: nat): seq<Action>
  {
    if count == 0 then [EndSync(node, peer)] else [DrainOne(node, peer)] + Drains(node, peer, count - 1)
  }

  function SyncActions(node: string, peer: string, count: nat): seq<Action>
  {
    [BeginSync(node, peer)] + Drains(node, peer, count)
  }

  lemma {:induction false} DrainsDrain(sys: System, defs: string -> RoomDef, node: string, peer: string)
    requires HasLink(sys, node, peer, Draining)
    ensures var drained := DrainAll(sys[node], peer);
            && peer in drained.links && drained.links[peer].phase == Draining && drained.links[peer].queue == []
            && ActAll(sys, Drains(node, peer, |sys[node].links[peer].queue|), defs) ==
              sys[node := SetPhase(drained, peer, Live)]
    decreases |sys[node].links[peer].queue|
  {
    var queue := sys[node].links[peer].queue;
    var actions := Drains(node, peer, |queue|);
    if queue == [] {
      assert actions[1..] == [];
      EndAct(sys, defs, node, peer);
    } else {
      var next := sys[node := Drain(sys[node], peer)];
      assert actions[0] == DrainOne(node, peer) && actions[1..] == Drains(node, peer, |queue| - 1);
      DrainAct(sys, defs, node, peer);
      DrainsDrain(next, defs, node, peer);
      var last := SetPhase(DrainAll(next[node], peer), peer, Live);
      assert next[node := last] == sys[node := last];
    }
  }

  lemma EndAct(sys: System, defs: string -> RoomDef, node: string, peer: string)
    requires HasLink(sys, node, peer, Draining) && sys[node].links[peer].queue == []
    ensures Act(sys, EndSync(node, peer), defs) == sys[node := SetPhase(sys[node], peer, Live)]
  {
  }

  lemma DrainAct(sys: System, defs: string -> RoomDef, node: string, peer: string)
    requires HasLink(sys, node, peer, Draining) && sys[node].links[peer].queue != []
    ensures var next := sys[node := Drain(sys[node], peer)];
            && Act(sys, DrainOne(node, peer), defs) == next && HasLink(next, node, peer, Draining)
            && next[node].links[peer].queue == sys[node].links[peer].queue[1..]
  {
  }

  lemma SyncActionsDrain(sys: System, defs: string -> RoomDef, node: string, peer: string)
    requires Enabled(sys, BeginSync(node, peer), defs)
    ensures var begun := StartFrom(sys[node], peer, sys[node].listed.value[peer]);
            var drained := DrainAll(begun, peer);
            && peer in drained.links
            && ActAll(sys, SyncActions(node, peer, |sys[node].links[peer].queue|), defs) ==
              sys[node := SetPhase(drained, peer, Live)]
  {
    var begun := sys[node := StartFrom(sys[node], peer, sys[node].listed.value[peer])];
    var actions := SyncActions(node, peer, |sys[node].links[peer].queue|);
    assert Act(sys, BeginSync(node, peer), defs) == begun;
    assert actions[0] == BeginSync(node, peer) && actions[1..] == Drains(node, peer, |sys[node].links[peer].queue|);
    DrainsDrain(begun, defs, node, peer);
  }
}
