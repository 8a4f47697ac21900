/**
 * Joining the cluster (lib/cluster/node.js:495-625): what comes of the messages put aside on channels
 * that lose nothing, and of the peers that a snapshot does not list.
 */
module Joining {
  import opened RealtimeView
  import opened Replication
  import opened Wrappers
  import opened Cluster
  import MessageOrder

  /* ---------- a channel that loses nothing ---------- */

  function ProcessEach(m: Member, peer: string, entries: seq<Entry>): Member
    requires peer in m.links
    decreases |entries|
  {
    if entries == [] then m else ProcessEach(Process(m, peer, entries[0]), peer, entries[1..])
  }

  lemma {:induction false} DrainAllProcesses(m: Member, peer: string)
    requires peer in m.links
    ensures DrainAll(m, peer) == ProcessEach(WithQueue(m, peer, []), peer, m.links[peer].queue)
    decreases |m.links[peer].queue|
  {
    var queue := m.links[peer].queue;
    if queue == [] {
      assert WithQueue(m, peer, []) == m;
    } else {
      QueueIsAside(WithQueue(m, peer, queue[1..]), peer, queue[0], []);
      assert WithQueue(WithQueue(m, peer, queue[1..]), peer, []) == WithQueue(m, peer, []);
      DrainAllProcesses(Drain(m, peer), peer);
    }
  }

  function WithQueue(m: Member, peer: string, queue: seq<Entry>): Member
    requires peer in m.links
  {
    m.(links := m.links[peer := m.links[peer].(queue := queue)])
  }

  /** Processing never looks at the queue nor changes it. */
  lemma QueueIsAside(m: Member, peer: string, e: Entry, queue: seq<Entry>)
    requires peer in m.links
    ensures WithQueue(Process(m, peer, e), peer, queue) == Process(WithQueue(m, peer, queue), peer, e)
    ensures Process(m, peer, e).links[peer].queue == m.links[peer].queue
  {
    var last := MessageOrder.Validate(CursorOf(m.links[peer]), e.id).cursor.last;
    MovedLinks(m.links, peer, last, queue);
    assert CursorOf(WithQueue(m, peer, queue).links[peer]) == CursorOf(m.links[peer]);
  }

  lemma MovedLinks(links: map<string, Link>, peer: string, last: int, queue: seq<Entry>)
    requires peer in links
    ensures var moved := links[peer := links[peer].(last := last)];
            var other := links[peer := links[peer].(queue := queue)];
            moved[peer := moved[peer].(queue := queue)] == other[peer := other[peer].(last := last)]
  {
  }

  lemma {:induction false} DoomedStays(m: Member, peer: string, entries: seq<Entry>)
    requires peer in m.links && m.doomed
    ensures ProcessEach(m, peer, entries).doomed
    decreases |entries|
  {
    if entries != [] {
      DoomedStays(Process(m, peer, entries[0]), peer, entries[1..]);
    }
  }

  /** Whether a cursor at `k` can go on with the message after the first `a`; while draining, it skips what it knows. */
  predicate Fits(phase: Phase, k: int, a: nat)
  {
    if phase == Draining then a <= k else a == k
  }

  /** The messages a+1, …, b: the member follows them all if its cursor fits, and is doomed otherwise. */
  ghost predicate Followed(m: Member, r: Member, peer: string, log: seq<Entry>, a: nat, b: nat, defs: string -> RoomDef)
    requires peer in m.links
  {
    var k := m.links[peer].last;
    if a < b && !Fits(m.links[peer].phase, k, a) then r.doomed
    else
      && !r.doomed && Coherent(r.view, defs)
      && peer in r.links && r.links[peer] == m.links[peer].(last := if a < b && k < b then b else k)
      && Synced(r, peer, log, r.links[peer].last)
  }

  lemma {:induction false} RunFollows(m: Member, peer: string, log: seq<Entry>, a: nat, b: nat,
                                      defs: string -> RoomDef)
    requires peer in m.links && m.links[peer].phase != Buffering && !m.doomed && Coherent(m.view, defs)
    requires LogOk(log, defs) && a <= b <= |log| && Synced(m, peer, log, m.links[peer].last)
    ensures Followed(m, ProcessEach(m, peer, log[a..b]), peer, log, a, b, defs)
    decreases b - a
  {
    if a < b {
      var e := log[a];
      var next := Process(m, peer, e);
      assert log[a..b][0] == e && log[a..b][1..] == log[a + 1..b];
      OneFollows(m, peer, log, a, defs);
      if next.doomed {
        DoomedStays(next, peer, log[a + 1..b]);
      } else {
        RunFollows(next, peer, log, a + 1, b, defs);
      }
    }
  }

  lemma OneFollows(m: Member, peer: string, log: seq<Entry>, a: nat, defs: string -> RoomDef)
    requires peer in m.links && m.links[peer].phase != Buffering && !m.doomed && Coherent(m.view, defs)
    requires LogOk(log, defs) && a < |log| && Synced(m, peer, log, m.links[peer].last)
    ensures Followed(m, Process(m, peer, log[a]), peer, log, a, a + 1, defs)
  {
    assert log[a].id == a + 1 && Agrees(log[a].msg, defs);
    HandleIsLocal(m.view, defs, peer, log[a]);
    if m.links[peer].last == a {
      AcceptedIsHandled(m, peer, log[a], log, defs);
    }
  }

  /** The messages of the peer's log from the b-th on reach the node in order. */
  function Deliveries(node: string, peer: string, b: nat, c: nat): seq<Action>
    decreases c - b
  {
    if b >= c then [] else [Deliver(node, peer, b)] + Deliveries(node, peer, b + 1, c)
  }

  lemma {:induction false} DeliveriesProcess(sys: System, defs: string -> RoomDef, node: string, peer: string, b: nat,
                                             c: nat)
    requires HasLink(sys, node, peer, Live) && peer in sys && peer != node && b <= c <= |sys[peer].log|
    ensures ActAll(sys, Deliveries(node, peer, b, c), defs)
            == sys[node := ProcessEach(sys[node], peer, sys[peer].log[b..c])]
    decreases c - b
  {
    if b < c {
      var log := sys[peer].log;
      var next := sys[node := Process(sys[node], peer, log[b])];
      assert log[b..c][0] == log[b] && log[b..c][1..] == log[b + 1..c];
      assert Act(sys, Deliver(node, peer, b), defs) == next;
      assert Deliveries(node, peer, b, c)[1..] == Deliveries(node, peer, b + 1, c);
      DeliveriesProcess(next, defs, node, peer, b + 1, c);
    } else {
      assert sys[node := sys[node]] == sys;
    }
  }

  lemma {:induction false} ActAllOfBoth(sys: System, first: seq<Action>, more: seq<Action>, defs: string -> RoomDef)
    ensures ActAll(sys, first + more, defs) == ActAll(ActAll(sys, first, defs), more, defs)
    decreases |first|
  {
    if first == [] {
      assert first + more == more;
    } else {
      assert (first + more)[1..] == first[1..] + more;
      ActAllOfBoth(Act(sys, first[0], defs), first[1..], more, defs);
    }
  }

  /** Messages a+1, …, b were put aside, the snapshot stands at `k`, and messages b+1, …, c follow live. */
  predicate JoinFits(k: int, a: nat, b: nat, c: nat)
  {
    && (a < b ==> a <= k)
    && (b < c ==> if a < b then k <= b else k == b)
  }

  /** Doomed unless the three fit; otherwise the counters are those of all the messages, the snapshot's included. */
  ghost predicate JoinOutcome(r: Member, peer: string, k: int, log: seq<Entry>, a: nat, b: nat, c: nat)
  {
    && (!r.doomed <==> JoinFits(k, a, b, c))
    && (!r.doomed ==> peer in r.links && Synced(r, peer, log, r.links[peer].last)
                      && r.links[peer].last == if a < c && k < c then c else k)
  }

  lemma JoinFollows(m: Member, peer: string, mark: Mark, log: seq<Entry>, a: nat, b: nat, c: nat,
                    defs: string -> RoomDef)
    requires peer in m.links && !m.doomed && Coherent(m.view, defs) && LogOk(log, defs)
    requires a <= b <= c <= |log| && m.links[peer].queue == log[a..b] && Synced(m, peer, log, mark.last)
    ensures var drained := DrainAll(StartFrom(m, peer, mark), peer);
            && peer in drained.links
            && JoinOutcome(ProcessEach(SetPhase(drained, peer, Live), peer, log[b..c]), peer, mark.last, log, a, b, c)
  {
    var begun := StartFrom(m, peer, mark);
    var start := WithQueue(begun, peer, []);
    DrainAllProcesses(begun, peer);
    RunFollows(start, peer, log, a, b, defs);
    KeepsLink(start, peer, log[a..b]);
    var live := SetPhase(DrainAll(begun, peer), peer, Live);
    if live.doomed {
      DoomedStays(live, peer, log[b..c]);
    } else {
      RunFollows(live, peer, log, b, c, defs);
    }
  }

  lemma {:induction false} KeepsLink(m: Member, peer: string, entries: seq<Entry>)
    requires peer in m.links
    ensures peer in ProcessEach(m, peer, entries).links
    decreases |entries|
  {
    if entries != [] {
      KeepsLink(Process(m, peer, entries[0]), peer, entries[1..]);
    }
  }

  /**
   * On a channel that loses nothing: messages a+1, …, b of the peer were put aside, `sync` plays them on
   * the snapshot, and messages b+1, …, c are then received live. The joiner asks to leave exactly when
   * the snapshot was behind what was put aside, or ahead of the first live message. Otherwise it ends
   * with the counters of all the messages, those of the snapshot included.
   */
  lemma LosslessJoin(actions: seq<Action>, defs: string -> RoomDef, node: string, peer: string, a: nat, b: nat, c: nat)
    requires Enabled(Exec(actions, defs), BeginSync(node, peer), defs)
    requires var m := Exec(actions, defs)[node]; !m.doomed && m.listed.value[peer].known
    requires peer in Exec(actions, defs) && a <= b <= c <= |Exec(actions, defs)[peer].log|
    requires var sys := Exec(actions, defs); sys[node].links[peer].queue == sys[peer].log[a..b]
    ensures var sys := Exec(actions, defs);
            var after := Exec(actions + (SyncActions(node, peer, b - a) + Deliveries(node, peer, b, c)), defs);
            && node in after
            && JoinOutcome(after[node], peer, sys[node].listed.value[peer].last, sys[peer].log, a, b, c)
  {
    ExecKeeps(actions, defs);
    ExecMore(actions, SyncActions(node, peer, b - a) + Deliveries(node, peer, b, c), defs);
    JoinOfSystem(Exec(actions, defs), defs, node, peer, a, b, c);
  }

  lemma JoinOfSystem(sys: System, defs: string -> RoomDef, node: string, peer: string, a: nat, b: nat, c: nat)
    requires Inv(sys, defs) && Enabled(sys, BeginSync(node, peer), defs)
    requires !sys[node].doomed && sys[node].listed.value[peer].known
    requires peer in sys && a <= b <= c <= |sys[peer].log| && sys[node].links[peer].queue == sys[peer].log[a..b]
    ensures var after := ActAll(sys, SyncActions(node, peer, b - a) + Deliveries(node, peer, b, c), defs);
            && node in after
            && JoinOutcome(after[node], peer, sys[node].listed.value[peer].last, sys[peer].log, a, b, c)
  {
    var mark, log := sys[node].listed.value[peer], sys[peer].log;
    SyncedAtMark(sys, defs, node, peer);
    JoinFollows(sys[node], peer, mark, log, a, b, c, defs);
    assert |sys[node].links[peer].queue| == b - a;
    JoinActions(sys, defs, node, peer, b, c);
  }

  lemma SyncedAtMark(sys: System, defs: string -> RoomDef, node: string, peer: string)
    requires Inv(sys, defs) && Enabled(sys, BeginSync(node, peer), defs)
    requires peer in sys && sys[node].listed.value[peer].known
    ensures peer != node && Coherent(sys[node].view, defs) && LogOk(sys[peer].log, defs)
    ensures Synced(sys[node], peer, sys[peer].log, sys[node].listed.value[peer].last)
  {
    assert MemberOk(node, sys[node], LogsOf(sys), defs) && MemberOk(peer, sys[peer], LogsOf(sys), defs);
    assert LinkOk(sys[node], peer, LogsOf(sys)[peer]);
  }

  lemma {:induction false} ExecMore(actions: seq<Action>, more: seq<Action>, defs: string -> RoomDef)
    ensures Exec(actions + more, defs) == ActAll(Exec(actions, defs), more, defs)
    decreases |more|
  {
    if more == [] {
      assert actions + more == actions;
    } else {
      var next := actions + [more[0]];
      assert next[..|actions|] == actions && next + more[1..] == actions + more;
      ExecMore(next, more[1..], defs);
    }
  }

  lemma JoinActions(sys: System, defs: string -> RoomDef, node: string, peer: string, b: nat, c: nat)
    requires Enabled(sys, BeginSync(node, peer), defs) && peer in sys && peer != node && b <= c <= |sys[peer].log|
    ensures var sync := SyncActions(node, peer, |sys[node].links[peer].queue|);
            var drained := DrainAll(StartFrom(sys[node], peer, sys[node].listed.value[peer]), peer);
            && peer in drained.links
            && ActAll(sys, sync + Deliveries(node, peer, b, c), defs)
               == sys[node := ProcessEach(SetPhase(drained, peer, Live), peer, sys[peer].log[b..c])]
  {
    var sync := SyncActions(node, peer, |sys[node].links[peer].queue|);
    var drained := DrainAll(StartFrom(sys[node], peer, sys[node].listed.value[peer]), peer);
    SyncActionsDrain(sys, defs, node, peer);
    ActAllOfBoth(sys, sync, Deliveries(node, peer, b, c), defs);
    var synced := sys[node := SetPhase(drained, peer, Live)];
    DeliveriesProcess(synced, defs, node, peer, b, c);
    assert synced[node := ProcessEach(synced[node], peer, sys[peer].log[b..c])]
        == sys[node := ProcessEach(synced[node], peer, sys[peer].log[b..c])];
  }

  /** The node follows every other one, from known counters, up to its last message. */
  predicate CaughtUp(sys: System, node: string)
    requires node in sys
  {
    var links := sys[node].links;
    && !sys[node].doomed
    && forall p | p in sys && p != node ::
         p in links && links[p].phase != Buffering && links[p].known && links[p].last == |sys[p].log|
  }

  /** Two nodes that have caught up have the same rooms, counters and filters. */
  lemma CaughtUpAgree(actions: seq<Action>, defs: string -> RoomDef, b: string, c: string)
    requires b in Exec(actions, defs) && c in Exec(actions, defs)
    requires CaughtUp(Exec(actions, defs), b) && CaughtUp(Exec(actions, defs), c)
    ensures Exec(actions, defs)[b].view.rooms == Exec(actions, defs)[c].view.rooms
    ensures Exec(actions, defs)[b].view.filters == Exec(actions, defs)[c].view.filters
  {
    var sys := Exec(actions, defs);
    ExecKeeps(actions, defs);
    forall n ensures Position(sys[b], b, n) == Position(sys[c], c, n)
                     && (Position(sys[b], b, n).None? ==> Share(sys[b].view, n) == Share(sys[c].view, n) == map[]) {
      PositionOfCaughtUp(sys, defs, b, n);
      PositionOfCaughtUp(sys, defs, c, n);
    }
    NodesAgree(actions, defs, b, c);
  }

  lemma PositionOfCaughtUp(sys: System, defs: string -> RoomDef, b: string, n: string)
    requires Inv(sys, defs) && b in sys && CaughtUp(sys, b)
    ensures Position(sys[b], b, n) == if n in sys then Some(|sys[n].log|) else None
    ensures n !in sys ==> Share(sys[b].view, n) == map[]
  {
    assert MemberOk(b, sys[b], LogsOf(sys), defs);
    if n !in sys {
      NothingFromInert(sys[b].view, LogsOf(sys), n);
    }
  }

  /* ---------- peers that the snapshot does not list ---------- */

  /** All counters in the state of a node belong to itself, to a peer it plays, or to one that it is about to play. */
  ghost predicate Covered(name: string, m: Member)
  {
    forall p :: Share(m.view, p) != map[] ==>
                  p == name || (p in m.links && (m.links[p].phase != Buffering || Lists(m, p)))
  }

  predicate Lists(m: Member, p: string)
  {
    m.listed.Some? && p in m.listed.value
  }

  /** Nobody is given up, and a snapshot lists nobody that the joiner has not subscribed to. */
  predicate Thorough(sys: System, a: Action)
  {
    && !a.Abandon?
    && (a.Snapshot? && a.node in sys && a.source in sys ==>
          ListedBy(a.source, sys[a.source]).Keys <= sys[a.node].links.Keys + {a.node})
  }

  ghost predicate AllCovered(sys: System)
  {
    forall n <- sys :: Covered(n, sys[n])
  }

  /** A change of one peer's link keeps the others covered. */
  lemma CoveredStill(name: string, m: Member, m': Member, peer: string)
    requires Covered(name, m) && (forall a | a != peer :: Share(m'.view, a) == Share(m.view, a))
    requires m'.links - {peer} == m.links - {peer} && m'.listed == m.listed
    requires Share(m'.view, peer) == map[] || peer == name || (peer in m'.links && m'.links[peer].phase != Buffering)
    ensures Covered(name, m')
  {
    forall p | Share(m'.view, p) != map[] && p != peer
      ensures p == name || (p in m'.links && (m'.links[p].phase != Buffering || Lists(m', p)))
    {
      assert Share(m.view, p) != map[];
      if p != name {
        assert p in m.links - {peer} && (m'.links - {peer})[p] == (m.links - {peer})[p];
      }
    }
  }

  lemma ProcessCovered(name: string, m: Member, peer: string, e: Entry, defs: string -> RoomDef)
    requires Covered(name, m) && Coherent(m.view, defs) && Agrees(e.msg, defs)
    requires peer in m.links && m.links[peer].phase != Buffering
    ensures Covered(name, Process(m, peer, e))
  {
    HandleIsLocal(m.view, defs, peer, e);
    CoveredStill(name, m, Process(m, peer, e), peer);
  }

  lemma SnapshotCovered(name: string, m: Member, source: string, p: Member, s: SerializedState, defs: string -> RoomDef)
    requires Covered(source, p) && NoneBuffering(p.links) && Coherent(p.view, defs) && Encodes(s, p.view)
    requires ListedBy(source, p).Keys <= m.links.Keys + {name}
    ensures Covered(name, m.(view := Load(EMPTY, s).view, listed := Some(ListedBy(source, p)), doomed := p.doomed))
  {
    CoherentStateRoundTrip(p.view, defs, s);
    forall a | Share(p.view, a) != map[] ensures a in ListedBy(source, p) {
      assert a == source || a in p.links;
    }
  }

  lemma QueueCovered(name: string, m: Member, peer: string, queue: seq<Entry>)
    requires Covered(name, m) && peer in m.links
    ensures Covered(name, WithQueue(m, peer, queue))
  {
    var m' := WithQueue(m, peer, queue);
    assert forall p | p in m.links :: p in m'.links && m'.links[p].phase == m.links[p].phase;
  }

  lemma MessageCovered(sys: System, a: Action, defs: string -> RoomDef)
    requires AllCovered(sys) && Inv(sys, defs) && Enabled(sys, a, defs) && (a.Deliver? || a.DrainOne?)
    ensures Covered(a.node, Changed(sys, a, defs))
  {
    var m, peer := sys[a.node], a.peer;
    assert MemberOk(a.node, m, LogsOf(sys), defs) && MemberOk(peer, sys[peer], LogsOf(sys), defs);
    assert LinkOk(m, peer, sys[peer].log);
    var queue := m.links[peer].queue;
    if a.DrainOne? {
      assert queue[0] in queue;
      QueueCovered(a.node, m, peer, queue[1..]);
      ProcessCovered(a.node, WithQueue(m, peer, queue[1..]), peer, queue[0], defs);
    } else if m.links[peer].phase == Live {
      ProcessCovered(a.node, m, peer, sys[peer].log[a.index], defs);
    } else {
      QueueCovered(a.node, m, peer, queue + [sys[peer].log[a.index]]);
    }
  }

  lemma PlayedCovered(name: string, m: Member, peer: string, link: Link)
    requires Covered(name, m) && link.phase != Buffering
    ensures Covered(name, m.(links := m.links[peer := link]))
  {
    var m' := m.(links := m.links[peer := link]);
    assert forall p | p in m.links && p != peer :: p in m'.links && m'.links[p] == m.links[p];
  }

  lemma EvictCovered(name: string, m: Member, peer: string)
    requires Covered(name, m)
    ensures Covered(name, m.(links := m.links - {peer}, view := RemoveNode(m.view, peer)))
  {
    var m' := m.(links := m.links - {peer}, view := RemoveNode(m.view, peer));
    RemoveNodeIsLocal(m.view, peer);
    CoveredStill(name, m, m', peer);
  }

  lemma LinkCovered(sys: System, a: Action, defs: string -> RoomDef)
    requires AllCovered(sys) && Enabled(sys, a, defs)
    requires a.BeginSync? || a.BeginSyncUnlisted? || a.EndSync? || a.Finish? || a.Greet?
    ensures Covered(a.node, Changed(sys, a, defs))
  {
    var m, m' := sys[a.node], Changed(sys, a, defs);
    if a.Finish? {
      assert m'.links == m.links;
    } else {
      var peer := if a.Greet? then a.newcomer else a.peer;
      assert m' == m.(links := m.links[peer := m'.links[peer]]);
      PlayedCovered(a.node, m, peer, m'.links[peer]);
    }
  }

  lemma StepCovered(sys: System, a: Action, defs: string -> RoomDef)
    requires AllCovered(sys) && Inv(sys, defs) && Enabled(sys, a, defs) && Thorough(sys, a)
    ensures Covered(a.node, Changed(sys, a, defs))
  {
    if a.Deliver? || a.DrainOne? {
      MessageCovered(sys, a, defs);
    } else if a.Join? {
      assert forall p :: Share(EMPTY, p) == map[];
    } else if a.Publish? {
      assert MemberOk(a.node, sys[a.node], LogsOf(sys), defs);
      HandleIsLocal(sys[a.node].view, defs, a.node, Entry(|sys[a.node].log| + 1, a.msg));
      CoveredStill(a.node, sys[a.node], Changed(sys, a, defs), a.node);
    } else if a.Snapshot? {
      assert MemberOk(a.source, sys[a.source], LogsOf(sys), defs);
      SnapshotCovered(a.node, sys[a.node], a.source, sys[a.source], a.state, defs);
    } else if a.Evict? {
      EvictCovered(a.node, sys[a.node], a.peer);
    } else {
      LinkCovered(sys, a, defs);
    }
  }

  lemma {:induction false} RunsCover(actions: seq<Action>, defs: string -> RoomDef)
    requires forall i :: 0 <= i < |actions| ==> Thorough(Exec(actions[..i], defs), actions[i])
    ensures AllCovered(Exec(actions, defs))
  {
    if actions != [] {
      var n := |actions| - 1;
      var before := actions[..n];
      assert forall i :: 0 <= i < |before| ==> before[..i] == actions[..i];
      RunsCover(before, defs);
      ExecKeeps(before, defs);
      if Enabled(Exec(before, defs), actions[n], defs) {
        StepCovered(Exec(before, defs), actions[n], defs);
      }
    }
  }

  /**
   * In runs that give nobody up and whose snapshots list no stranger, a node has no counters of a peer that
   * its snapshot does not list: playing that peer from the id of its answer is then right exactly when its
   * messages up to there leave no counter.
   */
  lemma UnlistedHasNone(actions: seq<Action>, defs: string -> RoomDef, node: string, peer: string, lastId: nat)
    requires forall i :: 0 <= i < |actions| ==> Thorough(Exec(actions[..i], defs), actions[i])
    requires Enabled(Exec(actions, defs), BeginSyncUnlisted(node, peer, lastId), defs)
    requires !Exec(actions, defs)[node].doomed
    ensures var sys := Exec(actions, defs);
            var after := Exec(actions + [BeginSyncUnlisted(node, peer, lastId)], defs);
            && Share(sys[node].view, peer) == map[]
            && (after[node].links[peer].known <==> Fold(sys[peer].log[..lastId]).cells == map[])
  {
    RunsCover(actions, defs);
    var m := Exec(actions, defs)[node];
    ExecKeeps(actions, defs);
    assert MemberOk(node, m, LogsOf(Exec(actions, defs)), defs);
    assert Covered(node, m);
    UnlistedSyncIff(actions, defs, node, peer, lastId);
  }

  /* ---------- a peer that the source of the snapshot does not know ---------- */

  const NO_STATE := SerializedState([], [])

  const ALONE := Member([], EMPTY, map[], Some(map[]), true, false)

  /** Nodes a and p started alone, p has created a room; n subscribes to both and asks a for its state. */
  function Strangers(a: string, p: string, n: string, room: Msg): seq<Action>
  {
    [Join(a, {}), Join(p, {}), Publish(p, room), Join(n, {a, p}), Snapshot(n, a, NO_STATE)]
  }

  lemma StartsAlone(sys: System, a: string, defs: string -> RoomDef)
    requires a !in sys
    ensures Act(sys, Join(a, {}), defs) == sys[a := ALONE]
  {
    assert Changed(sys, Join(a, {}), defs).links == map[];
  }

  /** What n has after the snapshot. */
  predicate KnowsOnly(m: Member, a: string, p: string)
  {
    && m.listed == Some(map[a := Mark(0, true)]) && m.view == EMPTY && !m.doomed
    && p in m.links && m.links[p].phase == Buffering
  }

  lemma Subscribes(sys: System, n: string, a: string, p: string, defs: string -> RoomDef)
    requires n !in sys && a in sys && p in sys
    ensures var next := Act(sys, Join(n, {a, p}), defs);
            n in next && next == sys[n := next[n]] && next[n].view == EMPTY && !next[n].joined && next[n].listed.None?
            && p in next[n].links && next[n].links[p].phase == Buffering
  {
    assert p in {a, p} && {a, p} <= sys.Keys;
  }

  lemma AsksAlone(sys: System, n: string, a: string, p: string, defs: string -> RoomDef)
    requires n in sys && a in sys && n != a && sys[a] == ALONE && !sys[n].joined && sys[n].listed.None?
    requires p in sys[n].links && sys[n].links[p].phase == Buffering
    ensures var next := Act(sys, Snapshot(n, a, NO_STATE), defs);
            n in next && next == sys[n := next[n]] && KnowsOnly(next[n], a, p)
  {
    CoherentStateRoundTrip(EMPTY, defs, NO_STATE);
    assert ListedBy(a, ALONE) == map[a := Mark(0, true)];
  }

  lemma PublishesRoom(sys: System, p: string, room: Msg, defs: string -> RoomDef)
    requires p in sys && sys[p] == ALONE && room.NewRoom? && Agrees(room, defs)
    ensures var next := Act(sys, Publish(p, room), defs);
            p in next && next == sys[p := next[p]] && next[p].log == [Entry(1, room)]
  {
  }

  lemma ExecOne(actions: seq<Action>, a: Action, defs: string -> RoomDef)
    ensures Exec(actions + [a], defs) == Act(Exec(actions, defs), a, defs)
  {
    assert (actions + [a])[..|actions|] == actions;
  }

  lemma TwoAlone(a: string, p: string, defs: string -> RoomDef)
    requires a != p
    ensures Exec([Join(a, {}), Join(p, {})], defs) == map[a := ALONE, p := ALONE]
  {
    assert [] + [Join(a, {})] == [Join(a, {})];
    assert [Join(a, {})] + [Join(p, {})] == [Join(a, {}), Join(p, {})];
    ExecOne([], Join(a, {}), defs);
    ExecOne([Join(a, {})], Join(p, {}), defs);
    StartsAlone(map[], a, defs);
    StartsAlone(map[a := ALONE], p, defs);
  }

  lemma RoomOfStranger(a: string, p: string, room: Msg, defs: string -> RoomDef)
    requires a != p && room.NewRoom? && Agrees(room, defs)
    ensures var sys := Exec([Join(a, {}), Join(p, {}), Publish(p, room)], defs);
            sys.Keys == {a, p} && sys[a] == ALONE && sys[p].log == [Entry(1, room)]
  {
    var before := [Join(a, {}), Join(p, {})];
    assert before + [Publish(p, room)] == [Join(a, {}), Join(p, {}), Publish(p, room)];
    TwoAlone(a, p, defs);
    ExecOne(before, Publish(p, room), defs);
    PublishesRoom(map[a := ALONE, p := ALONE], p, room, defs);
  }

  lemma StrangersRun(a: string, p: string, n: string, room: Msg, defs: string -> RoomDef)
    requires a != p && n != a && n != p && room.NewRoom? && Agrees(room, defs)
    ensures var sys := Exec(Strangers(a, p, n, room), defs);
            n in sys && p in sys && KnowsOnly(sys[n], a, p) && sys[p].log == [Entry(1, room)]
  {
    var before := [Join(a, {}), Join(p, {}), Publish(p, room)];
    var next := before + [Join(n, {a, p})];
    assert next + [Snapshot(n, a, NO_STATE)] == Strangers(a, p, n, room);
    RoomOfStranger(a, p, room, defs);
    ExecOne(before, Join(n, {a, p}), defs);
    Subscribes(Exec(before, defs), n, a, p, defs);
    ExecOne(next, Snapshot(n, a, NO_STATE), defs);
    AsksAlone(Exec(next, defs), n, a, p, defs);
  }

  /** In that run n plays p from the id of its answer, and lacks the counter of the room. */
  lemma StrangerIsWrong(a: string, p: string, n: string, room: Msg, defs: string -> RoomDef)
    requires a != p && n != a && n != p && room.NewRoom? && Agrees(room, defs)
    ensures var actions := Strangers(a, p, n, room);
            var step := BeginSyncUnlisted(n, p, 1);
            && Enabled(Exec(actions, defs), step, defs)
            && var m := Exec(actions + [step], defs)[n];
            !m.doomed && m.links[p].last == 1 && !m.links[p].known
            && room.room in Fold([Entry(1, room)]).cells && Share(m.view, p) == map[]
  {
    StrangersRun(a, p, n, room, defs);
    var sys := Exec(Strangers(a, p, n, room), defs);
    assert sys[p].log[..1] == [Entry(1, room)];
    assert [Entry(1, room)][..0] == [];
    assert room.room in Fold([Entry(1, room)]).cells;
    assert Share(EMPTY, p) == map[];
    UnlistedSyncIff(Strangers(a, p, n, room), defs, n, p, 1);
    ExecOne(Strangers(a, p, n, room), BeginSyncUnlisted(n, p, 1), defs);
  }

  /* ---------- a handshake can always be completed ---------- */

  function BufferingLinks(links: map<string, Link>): set<string>
  {
    set p | p in links && links[p].phase == Buffering
  }

  /** The member once it has given up the peers that did not answer, and finished. */
  function Completed(m: Member): Member
  {
    m.(links := m.links - BufferingLinks(m.links), joined := true)
  }

  /** A joiner that has loaded a snapshot can end its handshake, giving up the peers that it does not play yet. */
  lemma {:induction false} HandshakeCanEnd(sys: System, n: string, defs: string -> RoomDef)
    returns (actions: seq<Action>)
    requires n in sys && !sys[n].joined && sys[n].listed.Some?
    ensures ActAll(sys, actions, defs) == sys[n := Completed(sys[n])]
    decreases |BufferingLinks(sys[n].links)|
  {
    var m := sys[n];
    var waiting := BufferingLinks(m.links);
    if p :| p in waiting {
      var next := sys[n := m.(links := m.links - {p})];
      assert Act(sys, Abandon(n, p), defs) == next;
      FewerBuffering(m.links, p);
      var rest := HandshakeCanEnd(next, n, defs);
      actions := [Abandon(n, p)] + rest;
      assert actions[1..] == rest;
      assert next[n := Completed(next[n])] == sys[n := Completed(m)];
    } else {
      actions := [Finish(n)];
      assert m.links - waiting == m.links;
      assert actions[1..] == [];
      assert Act(sys, Finish(n), defs) == sys[n := Completed(m)];
    }
  }

  lemma FewerBuffering(links: map<string, Link>, p: string)
    requires p in BufferingLinks(links)
    ensures BufferingLinks(links - {p}) == BufferingLinks(links) - {p}
    ensures (links - {p}) - BufferingLinks(links - {p}) == links - BufferingLinks(links)
  {
  }

  /* ---------- what a node can always do ---------- */

  /** A node can publish exactly what keeps its log well formed; before it has joined, only heartbeats. */
  lemma CanPublishIff(actions: seq<Action>, defs: string -> RoomDef, n: string, msg: Msg)
    requires n in Exec(actions, defs) && Agrees(msg, defs)
    ensures var m := Exec(actions, defs)[n];
            Enabled(Exec(actions, defs), Publish(n, msg), defs) <==>
            (m.joined || msg.Inert?) && Fold(m.log + [Entry(|m.log| + 1, msg)]).ok
  {
    ExecKeeps(actions, defs);
    PublishIff(Exec(actions, defs), defs, n, msg);
  }

  lemma PublishIff(sys: System, defs: string -> RoomDef, n: string, msg: Msg)
    requires Inv(sys, defs) && n in sys && Agrees(msg, defs)
    ensures Enabled(sys, Publish(n, msg), defs) <==>
            (sys[n].joined || msg.Inert?) && Fold(sys[n].log + [Entry(|sys[n].log| + 1, msg)]).ok
  {
    assert MemberOk(n, sys[n], LogsOf(sys), defs);
    FitsOwnLog(n, sys[n], Entry(|sys[n].log| + 1, msg), defs);
  }

  lemma FitsOwnLog(n: string, m: Member, e: Entry, defs: string -> RoomDef)
    requires Coherent(m.view, defs) && Share(m.view, n) == Fold(m.log).cells && Fold(m.log).ok && Agrees(e.msg, defs)
    ensures Handle(m.view, n, e).outcome == Done <==> Fold(m.log + [e]).ok
  {
    HandleIsLocal(m.view, defs, n, e);
    FoldAppended(m.log, e);
  }

  /** Any peer that is followed can be evicted: the node then follows it no more and has none of its counters. */
  lemma EvictionForgets(sys: System, n: string, p: string, defs: string -> RoomDef)
    requires n in sys && p in sys[n].links
    ensures var after := Act(sys, Evict(n, p), defs);
            && n in after && after == sys[n := after[n]]
            && after[n].links == sys[n].links - {p} && Share(after[n].view, p) == map[]
            && (forall a | a != p :: Share(after[n].view, a) == Share(sys[n].view, a))
            && after[n].log == sys[n].log && after[n].joined == sys[n].joined && after[n].doomed == sys[n].doomed
  {
    RemoveNodeIsLocal(sys[n].view, p);
  }

  /** Any newcomer can be greeted by a joined node: it is followed live from then on, and nothing else changes. */
  lemma GreetingFollows(sys: System, n: string, newcomer: string, lastId: nat, defs: string -> RoomDef)
    requires n in sys && sys[n].joined && newcomer in sys && newcomer != n && newcomer !in sys[n].links
    requires lastId <= |sys[newcomer].log| && AllInert(sys[newcomer].log[..lastId])
    ensures var after := Act(sys, Greet(n, newcomer, lastId), defs);
            && n in after && after == sys[n := sys[n].(links := after[n].links)]
            && newcomer in after[n].links && after[n].links - {newcomer} == sys[n].links
            && after[n].links[newcomer].phase == Live && after[n].links[newcomer].last == lastId
            && after[n].links[newcomer].queue == []
  {
    var after := Act(sys, Greet(n, newcomer, lastId), defs);
    assert after[n].links - {newcomer} == sys[n].links;
  }

  /** Any peer that the snapshot lists can be played, from the id listed, and becomes live. */
  lemma ListedCanBePlayed(sys: System, n: string, p: string, defs: string -> RoomDef)
    requires n in sys && sys[n].listed.Some? && p in sys[n].listed.value
    requires p in sys[n].links && sys[n].links[p].phase == Buffering
    ensures var begun := Act(sys, BeginSync(n, p), defs);
            && n in begun && begun == sys[n := sys[n].(links := begun[n].links)]
            && p in begun[n].links && begun[n].links - {p} == sys[n].links - {p}
            && begun[n].links[p].phase == Draining && begun[n].links[p].last == sys[n].listed.value[p].last
            && begun[n].links[p].queue == sys[n].links[p].queue
    ensures var live := ActAll(sys, SyncActions(n, p, |sys[n].links[p].queue|), defs);
            n in live && p in live[n].links && live[n].links[p].phase == Live
  {
    var begun := Act(sys, BeginSync(n, p), defs);
    assert begun[n].links - {p} == sys[n].links - {p};
    SyncActionsDrain(sys, defs, n, p);
  }
}
