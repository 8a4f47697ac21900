/**
 * Replaying the numbered logs of the cluster's nodes into a replicated state
 * (lib/cluster/subscriber.js, handlers at 290-376; lib/cluster/state.ts).
 *
 * The central fact is that a node's messages touch that node's own counters and nothing else.
 * From it follow the convergence of all interleavings and the meaning of every counter.
 */
module Replication {
  import opened KoncordeCompat
  import opened RealtimeView

  /** The sync messages that change realtime rooms; every other topic leaves them alone. */
  datatype Msg =
    | NewRoom(room: string, kindex: string, filters: string)
    | Subscribe(room: string)
    | Unsubscribe(room: string)
    | DropRoom(room: string)
    | Inert

  datatype Entry = Entry(id: int, msg: Msg)

  datatype Event = Event(node: string, entry: Entry)

  /** A template literal prints a missing collection as "undefined". */
  function DefOf(kindex: string, filters: string): RoomDef
  {
    var pair := FromKoncordeIndex(kindex);
    RoomDef(pair.index, pair.collection.GetOr("undefined"), filters)
  }

  lemma DefOfEncoded(index: string, collection: string, filters: string)
    requires SEPARATOR !in index && SEPARATOR !in collection
    ensures DefOf(ToKoncordeIndex(index, collection), filters) == RoomDef(index, collection, filters)
    ensures Kindex(DefOf(ToKoncordeIndex(index, collection), filters)) == ToKoncordeIndex(index, collection)
  {
    CodecRoundTrip(index, collection);
  }

  /** What a message from `node` does to the state of whoever handles it. */
  function Handle(v: View, node: string, e: Entry): Step
  {
    match e.msg
    case NewRoom(room, kindex, filters) => AddRoom(v, room, DefOf(kindex, filters), node, Cell(0, e.id))
    case Subscribe(room) => AddSubscription(v, room, node, e.id)
    case Unsubscribe(room) => RemoveSubscription(v, room, node, e.id)
    case DropRoom(room) => Step(RemoveRoom(v, room, node), Done)
    case Inert => Step(v, Done)
  }

  /** A room id always stands for the same index, collection and filters. */
  predicate Agrees(msg: Msg, defs: string -> RoomDef)
  {
    msg.NewRoom? ==> DefOf(msg.kindex, msg.filters) == defs(msg.room)
  }

  /* ---------- one node's share of the state ---------- */

  /** The counters that `node` has in `v`, room by room. */
  function Share(v: View, node: string): map<string, Cell>
  {
    map r | r in v.rooms && node in v.rooms[r].nodes :: v.rooms[r].nodes[node]
  }

  datatype Local = Local(cells: map<string, Cell>, ok: bool)

  function LocalStep(cells: map<string, Cell>, e: Entry): Local
  {
    match e.msg
    case NewRoom(room, _, _) =>
      if room in cells then Local(cells, false) else Local(cells[room := Cell(0, e.id)], true)
    case Subscribe(room) =>
      if room !in cells then Local(cells, false) else Local(cells[room := Incr(cells[room], e.id)], true)
    case Unsubscribe(room) =>
      if room !in cells then Local(cells, false)
      else
        var cell := Decr(cells[room], e.id);
        Local(cells[room := cell], cell.subscribers >= 0)
    case DropRoom(room) => Local(cells - {room}, true)
    case Inert => Local(cells, true)
  }

  /** The counters a node ends up with after its own log, or a failure at the first ill-formed message. */
  function Fold(log: seq<Entry>): Local
  {
    if log == [] then Local(map[], true)
    else
      var before := Fold(log[..|log| - 1]);
      if !before.ok then before else LocalStep(before.cells, log[|log| - 1])
  }

  /** A message from `node` acts on that node's share as on a state of its own, and on nothing else. */
  lemma HandleIsLocal(v: View, defs: string -> RoomDef, node: string, e: Entry)
    requires Coherent(v, defs) && Agrees(e.msg, defs)
    ensures Coherent(Handle(v, node, e).view, defs)
    ensures Handle(v, node, e).outcome == Done <==> LocalStep(Share(v, node), e).ok
    ensures Share(Handle(v, node, e).view, node) == LocalStep(Share(v, node), e).cells
    ensures forall n | n != node :: Share(Handle(v, node, e).view, n) == Share(v, n)
    ensures Handle(v, node, e).view.strategies == v.strategies
  {
    match e.msg
    case NewRoom(room, kindex, filters) =>
      AddRoomKeepsCoherent(v, defs, room, node, Cell(0, e.id));
      AddRoomIsLocal(v, room, defs(room), node, Cell(0, e.id));
    case Subscribe(room) =>
      SubscriptionsKeepCoherent(v, defs, room, node, e.id);
      if room in v.rooms && node in v.rooms[room].nodes {
        PutCellIsLocal(v, room, node, Incr(v.rooms[room].nodes[node], e.id));
      }
    case Unsubscribe(room) =>
      SubscriptionsKeepCoherent(v, defs, room, node, e.id);
      if room in v.rooms && node in v.rooms[room].nodes {
        PutCellIsLocal(v, room, node, Decr(v.rooms[room].nodes[node], e.id));
      }
    case DropRoom(room) =>
      RemoveRoomKeepsCoherent(v, defs, room, node);
      RemoveRoomIsLocal(v, room, node);
    case Inert =>
  }

  lemma PutCellIsLocal(v: View, room: string, node: string, cell: Cell)
    requires room in v.rooms
    ensures Share(PutCell(v, room, node, cell), node) == Share(v, node)[room := cell]
    ensures forall n | n != node :: Share(PutCell(v, room, node, cell), n) == Share(v, n)
  {
    forall n | n != node
      ensures Share(PutCell(v, room, node, cell), n) == Share(v, n)
    {
    }
  }

  lemma AddRoomIsLocal(v: View, room: string, def: RoomDef, node: string, cell: Cell)
    ensures AddRoom(v, room, def, node, cell).outcome == Done <==> room !in Share(v, node)
    ensures Share(AddRoom(v, room, def, node, cell).view, node)
            == if room in Share(v, node) then Share(v, node) else Share(v, node)[room := cell]
    ensures forall n | n != node :: Share(AddRoom(v, room, def, node, cell).view, n) == Share(v, n)
  {
    var created := if room in v.rooms then v.rooms else v.rooms[room := RoomView(def, map[])];
    var v' := View(created, v.strategies, v.filters + {Filter(room, Kindex(def))});
    forall n
      ensures Share(v', n) == Share(v, n)
    {
    }
    PutCellIsLocal(v', room, node, cell);
  }

  lemma RemoveRoomIsLocal(v: View, room: string, node: string)
    ensures Share(RemoveRoom(v, room, node), node) == Share(v, node) - {room}
    ensures forall n | n != node :: Share(RemoveRoom(v, room, node), n) == Share(v, n)
  {
    if room in v.rooms {
      var left := v.rooms[room].nodes - {node};
      forall n | n != node
        ensures Share(RemoveRoom(v, room, node), n) == Share(v, n)
      {
        if left == map[] {
          assert n !in v.rooms[room].nodes by {
            assert n !in left;
          }
        }
      }
    }
  }

  /** Evicting a node empties its share and leaves every other share alone. */
  lemma RemoveNodeIsLocal(v: View, node: string)
    ensures Share(RemoveNode(v, node), node) == map[]
    ensures forall n | n != node :: Share(RemoveNode(v, node), n) == Share(v, n)
  {
    var w := RemoveNode(v, node);
    forall n | n != node
      ensures Share(w, n) == Share(v, n)
    {
      forall r | r in v.rooms && n in v.rooms[r].nodes
        ensures r in w.rooms
      {
        assert n in v.rooms[r].nodes - {node};
      }
    }
  }

  /** Coherent states are determined by their nodes' shares. */
  lemma SharesDetermine(v: View, w: View, defs: string -> RoomDef)
    requires Coherent(v, defs) && Coherent(w, defs) && v.strategies == w.strategies
    requires forall n :: Share(v, n) == Share(w, n)
    ensures v == w
  {
    SharesDetermineRooms(v, w, defs);
    SharesDetermineRooms(w, v, defs);
    forall r | r in v.rooms
      ensures v.rooms[r] == w.rooms[r]
    {
      assert v.rooms[r].nodes == w.rooms[r].nodes;
    }
    assert v.rooms == w.rooms;
  }

  lemma SharesDetermineRooms(v: View, w: View, defs: string -> RoomDef)
    requires Coherent(v, defs) && Coherent(w, defs)
    requires forall n :: Share(v, n) == Share(w, n)
    ensures forall r | r in v.rooms :: r in w.rooms
    ensures forall r, n | r in v.rooms && n in v.rooms[r].nodes ::
              r in w.rooms && n in w.rooms[r].nodes && w.rooms[r].nodes[n] == v.rooms[r].nodes[n]
  {
    forall r, n | r in v.rooms && n in v.rooms[r].nodes
      ensures r in w.rooms && n in w.rooms[r].nodes && w.rooms[r].nodes[n] == v.rooms[r].nodes[n]
    {
      assert r in Share(v, n);
      assert r in Share(w, n);
    }
    forall r | r in v.rooms
      ensures r in w.rooms
    {
      var n :| n in v.rooms[r].nodes;
    }
  }

  /* ---------- whole runs ---------- */

  /** Handles the events in order and stops at the first desync error. */
  function Run(v: View, events: seq<Event>): Step
  {
    if events == [] then Step(v, Done)
    else
      var before := Run(v, events[..|events| - 1]);
      var last := events[|events| - 1];
      if before.outcome != Done then before else Handle(before.view, last.node, last.entry)
  }

  /** The messages of one node, in the order in which they are handled. */
  function LogOf(events: seq<Event>, node: string): seq<Entry>
  {
    if events == [] then []
    else
      var before := LogOf(events[..|events| - 1], node);
      var last := events[|events| - 1];
      if last.node == node then before + [last.entry] else before
  }

  predicate AllAgree(events: seq<Event>, defs: string -> RoomDef)
  {
    forall e | e in events :: Agrees(e.entry.msg, defs)
  }

  lemma FoldAppended(log: seq<Entry>, e: Entry)
    ensures Fold(log + [e]) == if !Fold(log).ok then Fold(log) else LocalStep(Fold(log).cells, e)
  {
    assert (log + [e])[..|log|] == log;
  }

  /** Every node's own log is well formed. */
  ghost predicate WellFormedLogs(events: seq<Event>)
  {
    forall n :: Fold(LogOf(events, n)).ok
  }

  /** Every node's share of `v` is the result of that node's log alone. */
  ghost predicate SharesAreFolds(v: View, events: seq<Event>)
  {
    forall n :: Share(v, n) == Fold(LogOf(events, n)).cells
  }

  /** One more event continues one log and leaves the others alone. */
  lemma FoldOfMoreEvents(events: seq<Event>, n: string)
    requires events != []
    ensures var rest := events[..|events| - 1];
            var last := events[|events| - 1];
            Fold(LogOf(events, n)) ==
            if n != last.node || !Fold(LogOf(rest, n)).ok then Fold(LogOf(rest, n))
            else LocalStep(Fold(LogOf(rest, n)).cells, last.entry)
  {
    FoldAppended(LogOf(events[..|events| - 1], n), events[|events| - 1].entry);
  }

  /**
   * A run meets no desync error exactly when every node's own log is well formed, and then
   * each node's share is the result of that log alone.
   */
  lemma {:induction false} RunIsSharewise(events: seq<Event>, defs: string -> RoomDef)
    requires AllAgree(events, defs)
    ensures Coherent(Run(EMPTY, events).view, defs)
    ensures Run(EMPTY, events).view.strategies == map[]
    ensures Run(EMPTY, events).outcome == Done <==> WellFormedLogs(events)
    ensures Run(EMPTY, events).outcome == Done ==> SharesAreFolds(Run(EMPTY, events).view, events)
  {
    if events == [] {
      forall n
        ensures LogOf(events, n) == [] && Share(EMPTY, n) == map[]
      {
      }
    } else {
      var rest := events[..|events| - 1];
      var last := events[|events| - 1];
      assert last in events;
      RunIsSharewise(rest, defs);
      forall n {
        FoldOfMoreEvents(events, n);
      }
      var before := Run(EMPTY, rest);
      if before.outcome == Done {
        HandleIsLocal(before.view, defs, last.node, last.entry);
        if Run(EMPTY, events).outcome != Done {
          assert !Fold(LogOf(events, last.node)).ok;
        }
      } else {
        var n :| !Fold(LogOf(rest, n)).ok;
        assert !Fold(LogOf(events, n)).ok;
      }
    }
  }

  /** Any two interleavings of the same logs agree: both fail, or both succeed with the same state. */
  lemma Convergence(e1: seq<Event>, e2: seq<Event>, defs: string -> RoomDef)
    requires AllAgree(e1, defs) && AllAgree(e2, defs)
    requires forall n :: LogOf(e1, n) == LogOf(e2, n)
    ensures Run(EMPTY, e1).outcome == Done <==> Run(EMPTY, e2).outcome == Done
    ensures Run(EMPTY, e1).outcome == Done ==> Run(EMPTY, e1) == Run(EMPTY, e2)
  {
    RunIsSharewise(e1, defs);
    RunIsSharewise(e2, defs);
    SameLogsSameFolds(e1, e2, Run(EMPTY, e1).view, Run(EMPTY, e2).view);
    if Run(EMPTY, e1).outcome == Done {
      SharesDetermine(Run(EMPTY, e1).view, Run(EMPTY, e2).view, defs);
    }
  }

  lemma SameLogsSameFolds(e1: seq<Event>, e2: seq<Event>, v: View, w: View)
    requires forall n :: LogOf(e1, n) == LogOf(e2, n)
    ensures WellFormedLogs(e1) <==> WellFormedLogs(e2)
    ensures SharesAreFolds(v, e1) && SharesAreFolds(w, e2) ==> forall n :: Share(v, n) == Share(w, n)
  {
    if WellFormedLogs(e1) {
      forall n
        ensures Fold(LogOf(e2, n)).ok
      {
        assert LogOf(e1, n) == LogOf(e2, n);
      }
    }
    if WellFormedLogs(e2) {
      forall n
        ensures Fold(LogOf(e1, n)).ok
      {
        assert LogOf(e1, n) == LogOf(e2, n);
      }
    }
    if SharesAreFolds(v, e1) && SharesAreFolds(w, e2) {
      forall n
        ensures Share(v, n) == Share(w, n)
      {
        assert LogOf(e1, n) == LogOf(e2, n);
      }
    }
  }

  /* ---------- what a counter counts ---------- */

  ghost predicate Increasing(log: seq<Entry>)
  {
    forall i, j | 0 <= i < j < |log| :: log[i].id < log[j].id
  }

  /** Position `i` holds the creation that the room is still living from. */
  ghost predicate CreatedAt(log: seq<Entry>, room: string, i: int)
  {
    && 0 <= i < |log|
    && log[i].msg.NewRoom? && log[i].msg.room == room
    && forall j | i < j < |log| ::
         !(log[j].msg.NewRoom? && log[j].msg.room == room) && !(log[j].msg.DropRoom? && log[j].msg.room == room)
  }

  /** Subscriptions minus unsubscriptions to the room. */
  function Balance(log: seq<Entry>, room: string): int
  {
    if log == [] then 0
    else
      var last := log[|log| - 1].msg;
      Balance(log[..|log| - 1], room)
      + (if last == Subscribe(room) then 1 else if last == Unsubscribe(room) then -1 else 0)
  }

  /**
   * After a well-formed log with increasing ids, a node has a counter for a room exactly when it
   * created the room and did not drop it since, and the counter is the balance since then.
   */
  lemma {:induction false} CounterIsBalance(log: seq<Entry>, room: string)
    requires Increasing(log) && Fold(log).ok
    ensures room in Fold(log).cells <==> exists i :: CreatedAt(log, room, i)
    ensures forall i | CreatedAt(log, room, i) ::
              room in Fold(log).cells && Fold(log).cells[room].subscribers == Balance(log[i + 1..], room)
  {
    if log != [] {
      var n := |log| - 1;
      CounterIsBalance(log[..n], room);
      CounterStep(log[..n], log[n], room);
      assert log[..n] + [log[n]] == log;
    }
  }

  /** A counter for the room exists exactly when its creation does, with the balance since then. */
  ghost predicate CountsBalance(log: seq<Entry>, room: string)
  {
    && (room in Fold(log).cells <==> exists i :: CreatedAt(log, room, i))
    && forall i | CreatedAt(log, room, i) ::
         room in Fold(log).cells && Fold(log).cells[room].subscribers == Balance(log[i + 1..], room)
  }

  lemma CounterStep(rest: seq<Entry>, last: Entry, room: string)
    requires Increasing(rest + [last]) && Fold(rest + [last]).ok && CountsBalance(rest, room)
    ensures CountsBalance(rest + [last], room)
  {
    FoldAppended(rest, last);
    CreatedAtAppended(rest, last, room);
    forall i | CreatedAt(rest + [last], room, i)
      ensures room in Fold(rest + [last]).cells
      ensures Fold(rest + [last]).cells[room].subscribers == Balance((rest + [last])[i + 1..], room)
    {
      CounterFollows(rest, last, room, i);
    }
  }

  lemma CounterFollows(rest: seq<Entry>, last: Entry, room: string, i: int)
    requires Increasing(rest + [last]) && Fold(rest + [last]).ok
    requires CreatedAt(rest + [last], room, i)
    requires CreatedAt(rest, room, i) ==>
               room in Fold(rest).cells && Fold(rest).cells[room].subscribers == Balance(rest[i + 1..], room)
    ensures room in Fold(rest + [last]).cells
    ensures Fold(rest + [last]).cells[room].subscribers == Balance((rest + [last])[i + 1..], room)
  {
    FoldAppended(rest, last);
    BalanceAppended(rest, last, room, i);
    assert (rest + [last])[|rest|] == last;
    if i < |rest| {
      CounterIsRecent(rest, room);
      forall j | 0 <= j < |rest|
        ensures rest[j].id < last.id
      {
        assert (rest + [last])[j].id < (rest + [last])[|rest|].id;
      }
    }
  }

  /** The last message id of a counter is the id of some message of the log. */
  lemma {:induction false} CounterIsRecent(log: seq<Entry>, room: string)
    requires Fold(log).ok && room in Fold(log).cells
    ensures exists j :: 0 <= j < |log| && log[j].id == Fold(log).cells[room].messageId
  {
    var n := |log| - 1;
    var rest := log[..n];
    if room in Fold(rest).cells && Fold(rest).cells[room].messageId == Fold(log).cells[room].messageId {
      CounterIsRecent(rest, room);
      var j :| 0 <= j < |rest| && rest[j].id == Fold(rest).cells[room].messageId;
      assert log[j] == rest[j];
    } else {
      assert log[n].id == Fold(log).cells[room].messageId;
    }
  }

  lemma BalanceAppended(rest: seq<Entry>, last: Entry, room: string, i: int)
    requires CreatedAt(rest + [last], room, i)
    ensures i < |rest| ==> CreatedAt(rest, room, i)
    ensures Balance((rest + [last])[i + 1..], room) ==
            if i == |rest| then 0
            else Balance(rest[i + 1..], room)
                 + (if last.msg == Subscribe(room) then 1 else if last.msg == Unsubscribe(room) then -1 else 0)
  {
    var log := rest + [last];
    if i < |rest| {
      assert log[i + 1..][..|rest| - i - 1] == rest[i + 1..];
      assert log[i + 1..][|rest| - i - 1] == last;
      assert log[i] == rest[i];
      forall j | i < j < |rest|
        ensures log[j] == rest[j]
      {
      }
    } else {
      assert log[i + 1..] == [];
    }
  }

  lemma CreatedAtAppended(log: seq<Entry>, e: Entry, room: string)
    ensures (exists i :: CreatedAt(log + [e], room, i)) <==>
            (e.msg.NewRoom? && e.msg.room == room)
            || (!(e.msg.DropRoom? && e.msg.room == room) && exists i :: CreatedAt(log, room, i))
  {
    var all := log + [e];
    if e.msg.NewRoom? && e.msg.room == room {
      assert CreatedAt(all, room, |log|);
    } else {
      if exists i :: CreatedAt(all, room, i) {
        var i :| CreatedAt(all, room, i);
        assert all[|log|] == e;
        BalanceAppended(log, e, room, i);
      }
      if !(e.msg.DropRoom? && e.msg.room == room) && exists i :: CreatedAt(log, room, i) {
        var i :| CreatedAt(log, room, i);
        forall j | i < j < |all|
          ensures all[j] == if j == |log| then e else log[j]
        {
        }
        assert CreatedAt(all, room, i);
      }
    }
  }

  /** In a run without desync error, every counter of every room is its node's balance since the room's creation. */
  lemma RunCounts(events: seq<Event>, defs: string -> RoomDef, room: string, node: string)
    requires AllAgree(events, defs) && Run(EMPTY, events).outcome == Done
    requires Increasing(LogOf(events, node))
    ensures var v := Run(EMPTY, events).view;
            var log := LogOf(events, node);
            && (room in v.rooms && node in v.rooms[room].nodes <==> exists i :: CreatedAt(log, room, i))
            && forall i | CreatedAt(log, room, i) ::
                 v.rooms[room].nodes[node].subscribers == Balance(log[i + 1..], room)
  {
    RunIsSharewise(events, defs);
    var v := Run(EMPTY, events).view;
    var log := LogOf(events, node);
    assert Fold(LogOf(events, node)).ok;
    CounterIsBalance(log, room);
    assert Share(v, node) == Fold(LogOf(events, node)).cells;
    assert room in Share(v, node) <==> room in v.rooms && node in v.rooms[room].nodes;
  }

  /** The balance of a room since its creation by the node, if it was not dropped since. */
  ghost function Standing(log: seq<Entry>, room: string): int
  {
    if exists i :: CreatedAt(log, room, i) then
      var i :| CreatedAt(log, room, i);
      Balance(log[i + 1..], room)
    else 0
  }

  ghost function Standings(events: seq<Event>, room: string, nodes: seq<string>): int
  {
    if nodes == [] then 0
    else
      Standings(events, room, nodes[..|nodes| - 1]) + Standing(LogOf(events, nodes[|nodes| - 1]), room)
  }

  /**
   * In a run without desync error, the total of a room is the sum, over the nodes, of their subscriptions
   * minus their unsubscriptions since they created it.
   */
  lemma RunTotals(events: seq<Event>, defs: string -> RoomDef, room: string, nodes: seq<string>)
    requires AllAgree(events, defs) && Run(EMPTY, events).outcome == Done
    requires NoRepeats(nodes) && forall n :: Increasing(LogOf(events, n))
    requires forall n :: (exists i :: CreatedAt(LogOf(events, n), room, i)) ==> n in nodes
    ensures CountOf(Run(EMPTY, events).view, room) == Standings(events, room, nodes)
  {
    var v := Run(EMPTY, events).view;
    forall n ensures room in v.rooms && n in v.rooms[room].nodes ==> n in nodes {
      RunCounts(events, defs, room, n);
    }
    CountIsTotal(v, room, nodes);
    TotalIsStandings(events, defs, room, nodes);
  }

  lemma {:induction false} TotalIsStandings(events: seq<Event>, defs: string -> RoomDef, room: string,
                                            nodes: seq<string>)
    requires AllAgree(events, defs) && Run(EMPTY, events).outcome == Done
    requires forall n :: Increasing(LogOf(events, n))
    ensures Total(Run(EMPTY, events).view, room, nodes) == Standings(events, room, nodes)
  {
    if nodes != [] {
      TotalIsStandings(events, defs, room, nodes[..|nodes| - 1]);
      StandingIsCount(events, defs, room, nodes[|nodes| - 1]);
    }
  }

  lemma StandingIsCount(events: seq<Event>, defs: string -> RoomDef, room: string, node: string)
    requires AllAgree(events, defs) && Run(EMPTY, events).outcome == Done && Increasing(LogOf(events, node))
    ensures CountAt(Run(EMPTY, events).view, room, node) == Standing(LogOf(events, node), room)
  {
    RunCounts(events, defs, room, node);
    var log := LogOf(events, node);
    if exists i :: CreatedAt(log, room, i) {
      var i :| CreatedAt(log, room, i) && Standing(log, room) == Balance(log[i + 1..], room);
    }
  }
}
