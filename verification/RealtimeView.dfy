/**
 * Value view of the replicated cluster state (lib/cluster/state.ts): which rooms exist, which
 * nodes subscribe to them and how often, and which filters Koncorde holds for them.
 * The classes of module ClusterState are proved against the functions below.
 */
module RealtimeView {
  import opened KoncordeCompat
  import opened Wrappers

  datatype RoomDef = RoomDef(index: string, collection: string, filters: string)

  /** One node's subscriptions to one room, and the id of the last message that changed them. */
  datatype Cell = Cell(subscribers: int, messageId: int)

  datatype RoomView = RoomView(def: RoomDef, nodes: map<string, Cell>)

  /** A filter stored in Koncorde: its id (the room id) and the Koncorde index it is stored under. */
  datatype Filter = Filter(id: string, kindex: string)

  datatype Strategy = Strategy(strategyName: string, pluginName: string, definition: string)

  datatype View = View(rooms: map<string, RoomView>, strategies: map<string, Strategy>, filters: set<Filter>)

  datatype Outcome = Done | DuplicateNode | UnknownRoom | UnknownNode | NegativeCount

  datatype Step = Step(view: View, outcome: Outcome)

  const EMPTY := View(map[], map[], {})

  function Kindex(def: RoomDef): string
  {
    ToKoncordeIndex(def.index, def.collection)
  }

  /** Messages already seen by a counter are ignored. */
  function Incr(cell: Cell, messageId: int): Cell
  {
    if messageId > cell.messageId then Cell(cell.subscribers + 1, messageId) else cell
  }

  function Decr(cell: Cell, messageId: int): Cell
  {
    if messageId > cell.messageId then Cell(cell.subscribers - 1, messageId) else cell
  }

  function PutCell(v: View, room: string, node: string, cell: Cell): View
    requires room in v.rooms
  {
    v.(rooms := v.rooms[room := v.rooms[room].(nodes := v.rooms[room].nodes[node := cell])])
  }

  /** The filter goes under the index encoded from the arguments, even when the room already exists. */
  function AddRoom(v: View, room: string, def: RoomDef, node: string, cell: Cell): Step
  {
    var created := if room in v.rooms then v.rooms else v.rooms[room := RoomView(def, map[])];
    var v' := View(created, v.strategies, v.filters + {Filter(room, Kindex(def))});
    if node in created[room].nodes then Step(v', DuplicateNode)
    else Step(PutCell(v', room, node, cell), Done)
  }

  function RemoveRoom(v: View, room: string, node: string): View
  {
    if room !in v.rooms then v
    else
      var left := v.rooms[room].nodes - {node};
      if left == map[] then
        View(v.rooms - {room}, v.strategies, v.filters - {Filter(room, Kindex(v.rooms[room].def))})
      else v.(rooms := v.rooms[room := v.rooms[room].(nodes := left)])
  }

  function AddSubscription(v: View, room: string, node: string, messageId: int): Step
  {
    if room !in v.rooms then Step(v, UnknownRoom)
    else if node !in v.rooms[room].nodes then Step(v, UnknownNode)
    else Step(PutCell(v, room, node, Incr(v.rooms[room].nodes[node], messageId)), Done)
  }

  /** A count that falls below zero is reported after the counter has been changed. */
  function RemoveSubscription(v: View, room: string, node: string, messageId: int): Step
  {
    if room !in v.rooms then Step(v, UnknownRoom)
    else if node !in v.rooms[room].nodes then Step(v, UnknownNode)
    else
      var cell := Decr(v.rooms[room].nodes[node], messageId);
      Step(PutCell(v, room, node, cell), if cell.subscribers < 0 then NegativeCount else Done)
  }

  /** The rooms that lose their last node when `node` leaves. */
  function Orphans(v: View, node: string): set<string>
  {
    set r | r in v.rooms && v.rooms[r].nodes - {node} == map[]
  }

  function RemoveNode(v: View, node: string): View
  {
    View(map r | r in v.rooms && r !in Orphans(v, node) :: v.rooms[r].(nodes := v.rooms[r].nodes - {node}),
         v.strategies,
         v.filters - set r | r in Orphans(v, node) :: Filter(r, Kindex(v.rooms[r].def)))
  }

  /** The view once the rooms in `done` have been told that `node` left. */
  function RemoveNodeFrom(v: View, node: string, done: set<string>): View
  {
    View(map r | r in v.rooms && !(r in done && r in Orphans(v, node)) ::
           if r in done then v.rooms[r].(nodes := v.rooms[r].nodes - {node}) else v.rooms[r],
         v.strategies,
         v.filters - set r | r in Orphans(v, node) && r in done :: Filter(r, Kindex(v.rooms[r].def)))
  }

  lemma RemoveNodeOneMore(v: View, node: string, done: set<string>, room: string)
    requires room in v.rooms && room !in done
    ensures RemoveRoom(RemoveNodeFrom(v, node, done), room, node) == RemoveNodeFrom(v, node, done + {room})
  {
    var v' := RemoveNodeFrom(v, node, done);
    var w := RemoveNodeFrom(v, node, done + {room});
    assert v'.rooms[room] == v.rooms[room];
    assert RemoveRoom(v', room, node).rooms == w.rooms;
    assert RemoveRoom(v', room, node).filters == w.filters;
  }

  lemma RemoveNodeFromNone(v: View, node: string)
    ensures RemoveNodeFrom(v, node, {}) == v
  {
    assert RemoveNodeFrom(v, node, {}).rooms == v.rooms;
  }

  lemma RemoveNodeFromAll(v: View, node: string)
    ensures RemoveNodeFrom(v, node, v.rooms.Keys) == RemoveNode(v, node)
  {
    assert RemoveNodeFrom(v, node, v.rooms.Keys).rooms == RemoveNode(v, node).rooms;
    assert RemoveNodeFrom(v, node, v.rooms.Keys).filters == RemoveNode(v, node).filters;
  }

  ghost function SumOver(nodes: map<string, Cell>, keys: set<string>): int
    requires keys <= nodes.Keys
  {
    if keys == {} then 0
    else
      var k :| k in keys;
      nodes[k].subscribers + SumOver(nodes, keys - {k})
  }

  /** Any key can be taken out first: the sum does not depend on the iteration order. */
  lemma {:induction false} SumOverRemove(nodes: map<string, Cell>, keys: set<string>, k: string)
    requires k in keys && keys <= nodes.Keys
    ensures SumOver(nodes, keys) == nodes[k].subscribers + SumOver(nodes, keys - {k})
    decreases |keys|
  {
    var p :| p in keys && SumOver(nodes, keys) == nodes[p].subscribers + SumOver(nodes, keys - {p});
    if p != k {
      SumOverRemove(nodes, keys - {p}, k);
      SumOverRemove(nodes, keys - {k}, p);
      assert keys - {p} - {k} == keys - {k} - {p};
    }
  }

  /** The number of subscriptions to a room, over all its nodes; no room counts for none. */
  ghost function CountOf(v: View, room: string): int
  {
    if room in v.rooms then SumOver(v.rooms[room].nodes, v.rooms[room].nodes.Keys) else 0
  }

  /** The subscriptions of one node to a room. */
  function CountAt(v: View, room: string, node: string): int
  {
    if room in v.rooms && node in v.rooms[room].nodes then v.rooms[room].nodes[node].subscribers else 0
  }

  /** The subscriptions to a room of the nodes in a list. */
  function Total(v: View, room: string, nodes: seq<string>): int
  {
    if nodes == [] then 0 else Total(v, room, nodes[..|nodes| - 1]) + CountAt(v, room, nodes[|nodes| - 1])
  }

  predicate NoRepeats(nodes: seq<string>)
  {
    forall i, j :: 0 <= i < j < |nodes| ==> nodes[i] != nodes[j]
  }

  lemma {:induction false} SumOverSame(a: map<string, Cell>, b: map<string, Cell>, keys: set<string>)
    requires keys <= a.Keys && keys <= b.Keys && forall k <- keys :: a[k].subscribers == b[k].subscribers
    ensures SumOver(a, keys) == SumOver(b, keys)
    decreases |keys|
  {
    if k :| k in keys {
      SumOverRemove(a, keys, k);
      SumOverRemove(b, keys, k);
      SumOverSame(a, b, keys - {k});
    }
  }

  lemma {:induction false} SumOverList(v: View, room: string, keys: set<string>, nodes: seq<string>)
    requires room in v.rooms && NoRepeats(nodes)
    requires keys <= v.rooms[room].nodes.Keys
    requires forall n :: n in keys <==> n in nodes && n in v.rooms[room].nodes
    ensures SumOver(v.rooms[room].nodes, keys) == Total(v, room, nodes)
    decreases |nodes|
  {
    if nodes == [] {
      assert keys == {};
    } else {
      var rest, last := nodes[..|nodes| - 1], nodes[|nodes| - 1];
      assert nodes == rest + [last] && last !in rest;
      SumOverList(v, room, keys - {last}, rest);
      if last in keys {
        SumOverRemove(v.rooms[room].nodes, keys, last);
      } else {
        assert keys - {last} == keys;
      }
    }
  }

  /** The total of a room is the sum over any list of the nodes that have a counter, each once, in any order. */
  lemma CountIsTotal(v: View, room: string, nodes: seq<string>)
    requires NoRepeats(nodes) && (room in v.rooms ==> forall n <- v.rooms[room].nodes :: n in nodes)
    ensures CountOf(v, room) == Total(v, room, nodes)
  {
    if room in v.rooms {
      SumOverList(v, room, v.rooms[room].nodes.Keys, nodes);
    } else {
      NothingToCount(v, room, nodes);
    }
  }

  lemma {:induction false} NothingToCount(v: View, room: string, nodes: seq<string>)
    requires room !in v.rooms
    ensures Total(v, room, nodes) == 0
  {
    if nodes != [] {
      NothingToCount(v, room, nodes[..|nodes| - 1]);
    }
  }

  /** Changing the counter of one node changes the total by as much. */
  lemma CountOfChanged(v: View, w: View, room: string, node: string)
    requires forall n | n != node :: CountAt(w, room, n) == CountAt(v, room, n)
    requires forall n | n != node ::
               (room in v.rooms && n in v.rooms[room].nodes <==> room in w.rooms && n in w.rooms[room].nodes)
    ensures CountOf(w, room) - CountAt(w, room, node) == CountOf(v, room) - CountAt(v, room, node)
  {
    CountWithout(v, room, node);
    CountWithout(w, room, node);
    var a := if room in v.rooms then v.rooms[room].nodes else map[];
    var b := if room in w.rooms then w.rooms[room].nodes else map[];
    assert a.Keys - {node} == b.Keys - {node};
    forall k | k in a.Keys - {node} ensures a[k].subscribers == b[k].subscribers {
      assert CountAt(w, room, k) == CountAt(v, room, k);
    }
    SumOverSame(a, b, a.Keys - {node});
  }

  lemma CountWithout(v: View, room: string, node: string)
    ensures var nodes := if room in v.rooms then v.rooms[room].nodes else map[];
            CountOf(v, room) - CountAt(v, room, node) == SumOver(nodes, nodes.Keys - {node})
  {
    if room in v.rooms {
      var nodes := v.rooms[room].nodes;
      if node in nodes {
        SumOverRemove(nodes, nodes.Keys, node);
      } else {
        assert nodes.Keys - {node} == nodes.Keys;
      }
    }
  }

  /** A room counts the first subscribers of each node that is added to it, and no other room is concerned. */
  lemma AddRoomCounts(v: View, room: string, def: RoomDef, node: string, cell: Cell, r: string)
    ensures CountOf(AddRoom(v, room, def, node, cell).view, r) ==
            if r != room || (room in v.rooms && node in v.rooms[room].nodes) then CountOf(v, r)
            else CountOf(v, r) + cell.subscribers
  {
    CountOfChanged(v, AddRoom(v, room, def, node, cell).view, r, node);
  }

  /**
   * A message newer than those that the counter has seen adds or takes away one subscription and is the last one
   * seen; one already seen changes nothing.
   */
  lemma SubscriptionCounts(v: View, room: string, node: string, messageId: int, r: string)
    requires room in v.rooms && node in v.rooms[room].nodes
    ensures var cell := v.rooms[room].nodes[node];
            var more := AddSubscription(v, room, node, messageId);
            var less := RemoveSubscription(v, room, node, messageId);
            if messageId <= cell.messageId then
              more.view == less.view == v && more.outcome == Done
              && (less.outcome == Done <==> cell.subscribers >= 0)
            else
              && CountOf(more.view, r) == CountOf(v, r) + (if r == room then 1 else 0)
              && CountOf(less.view, r) == CountOf(v, r) - (if r == room then 1 else 0)
              && more.view.rooms[room].nodes[node].messageId == messageId
              && less.view.rooms[room].nodes[node].messageId == messageId
              && more.outcome == Done && (less.outcome == Done <==> cell.subscribers > 0)
  {
    var cell := v.rooms[room].nodes[node];
    assert v.rooms[room].nodes[node := cell] == v.rooms[room].nodes;
    assert PutCell(v, room, node, cell).rooms == v.rooms;
    CountOfChanged(v, AddSubscription(v, room, node, messageId).view, r, node);
    CountOfChanged(v, RemoveSubscription(v, room, node, messageId).view, r, node);
  }

  /** A node that leaves a room, or all of them, takes its own subscriptions with it. */
  lemma RemovalCounts(v: View, room: string, node: string, r: string)
    ensures CountOf(RemoveRoom(v, room, node), r) ==
            if r == room then CountOf(v, r) - CountAt(v, r, node) else CountOf(v, r)
    ensures CountOf(RemoveNode(v, node), r) == CountOf(v, r) - CountAt(v, r, node)
  {
    var w, u := RemoveRoom(v, room, node), RemoveNode(v, node);
    forall n | n != node && r in v.rooms && n in v.rooms[r].nodes
      ensures r in w.rooms && n in w.rooms[r].nodes && r in u.rooms && n in u.rooms[r].nodes
    {
      assert n in v.rooms[r].nodes - {node};
    }
    CountOfChanged(v, w, r, node);
    CountOfChanged(v, u, r, node);
  }

  /** Rooms by index, then by collection, with their number of subscriptions. */
  type RoomList = map<string, map<string, map<string, int>>>

  function Listed(list: RoomList, index: string, collection: string, room: string): Option<int>
  {
    if index in list && collection in list[index] && room in list[index][collection]
    then Some(list[index][collection][room])
    else None
  }

  function AddToList(list: RoomList, index: string, collection: string, room: string, count: int): RoomList
  {
    var collections := if index in list then list[index] else map[];
    var rooms := if collection in collections then collections[collection] else map[];
    list[index := collections[collection := rooms[room := count]]]
  }

  lemma AddToListAdds(list: RoomList, index: string, collection: string, room: string, count: int,
                      i: string, c: string, r: string)
    ensures Listed(AddToList(list, index, collection, room, count), i, c, r)
            == if i == index && c == collection && r == room then Some(count) else Listed(list, i, c, r)
  {
  }

  /** The list tells, for each of the given rooms, its total under its own index and collection, and nothing else. */
  ghost predicate ListsRooms(list: RoomList, v: View, rooms: set<string>)
  {
    forall i, c, r :: Listed(list, i, c, r) ==
      if r in rooms && r in v.rooms && v.rooms[r].def.index == i && v.rooms[r].def.collection == c
      then Some(CountOf(v, r)) else None
  }

  lemma ListsOneMore(list: RoomList, v: View, rooms: set<string>, room: string, count: int)
    requires ListsRooms(list, v, rooms) && room in v.rooms && count == CountOf(v, room)
    ensures ListsRooms(AddToList(list, v.rooms[room].def.index, v.rooms[room].def.collection, room, count), v,
            rooms + {room})
  {
    var def := v.rooms[room].def;
    forall i, c, r {
      AddToListAdds(list, def.index, def.collection, room, count, i, c, r);
    }
  }

  /* ---------- agreement between the rooms and Koncorde ---------- */

  /** `defs` gives the one definition that each room id stands for. */
  ghost predicate Coherent(v: View, defs: string -> RoomDef)
  {
    && (forall r | r in v.rooms :: v.rooms[r].def == defs(r) && v.rooms[r].nodes != map[])
    && v.filters == set r | r in v.rooms :: Filter(r, Kindex(defs(r)))
  }

  lemma AddRoomKeepsCoherent(v: View, defs: string -> RoomDef, room: string, node: string, cell: Cell)
    requires Coherent(v, defs)
    ensures Coherent(AddRoom(v, room, defs(room), node, cell).view, defs)
  {
    var v' := AddRoom(v, room, defs(room), node, cell).view;
    assert v'.rooms.Keys == v.rooms.Keys + {room};
    assert node in v'.rooms[room].nodes;
    assert v'.filters == set r | r in v'.rooms :: Filter(r, Kindex(defs(r)));
  }

  lemma RemoveRoomKeepsCoherent(v: View, defs: string -> RoomDef, room: string, node: string)
    requires Coherent(v, defs)
    ensures Coherent(RemoveRoom(v, room, node), defs)
  {
    var v' := RemoveRoom(v, room, node);
    assert v'.filters == set r | r in v'.rooms :: Filter(r, Kindex(defs(r)));
  }

  lemma SubscriptionsKeepCoherent(v: View, defs: string -> RoomDef, room: string, node: string, messageId: int)
    requires Coherent(v, defs)
    ensures Coherent(AddSubscription(v, room, node, messageId).view, defs)
    ensures Coherent(RemoveSubscription(v, room, node, messageId).view, defs)
  {
    if room in v.rooms && node in v.rooms[room].nodes {
      var a := AddSubscription(v, room, node, messageId).view;
      var b := RemoveSubscription(v, room, node, messageId).view;
      assert a.rooms.Keys == v.rooms.Keys == b.rooms.Keys;
      assert node in a.rooms[room].nodes && node in b.rooms[room].nodes;
    }
  }

  /** Evicting a node erases it from every room, leaves all other counts alone and keeps the agreement. */
  lemma RemoveNodeErases(v: View, defs: string -> RoomDef, node: string)
    requires Coherent(v, defs)
    ensures Coherent(RemoveNode(v, node), defs)
    ensures forall r | r in RemoveNode(v, node).rooms :: node !in RemoveNode(v, node).rooms[r].nodes
    ensures forall r, n | n != node ::
              (r in v.rooms && n in v.rooms[r].nodes
               <==> r in RemoveNode(v, node).rooms && n in RemoveNode(v, node).rooms[r].nodes)
              && (r in v.rooms && n in v.rooms[r].nodes ==>
                    RemoveNode(v, node).rooms[r].nodes[n] == v.rooms[r].nodes[n])
  {
    var v' := RemoveNode(v, node);
    assert v'.filters == set r | r in v'.rooms :: Filter(r, Kindex(defs(r)));
    forall r, n | n != node && r in v.rooms && n in v.rooms[r].nodes
      ensures r in v'.rooms && n in v'.rooms[r].nodes
    {
      assert n in v.rooms[r].nodes - {node};
    }
  }

  /* ---------- serialization ---------- */

  datatype SerializedCell = SerializedCell(nodeId: string, messageId: int, subscribers: int)

  datatype SerializedRoom =
    SerializedRoom(roomId: string, index: string, collection: string, filters: string, nodes: seq<SerializedCell>)

  datatype SerializedState = SerializedState(rooms: seq<SerializedRoom>, authStrategies: seq<Strategy>)

  function AddAll(v: View, room: SerializedRoom, nodes: seq<SerializedCell>): Step
    decreases nodes
  {
    if nodes == [] then Step(v, Done)
    else
      var step := AddRoom(v, room.roomId, RoomDef(room.index, room.collection, room.filters),
                          nodes[0].nodeId, Cell(nodes[0].subscribers, nodes[0].messageId));
      if step.outcome != Done then step else AddAll(step.view, room, nodes[1..])
  }

  function LoadRooms(v: View, rooms: seq<SerializedRoom>): Step
    decreases rooms
  {
    if rooms == [] then Step(v, Done)
    else
      var step := AddAll(v, rooms[0], rooms[0].nodes);
      if step.outcome != Done then step else LoadRooms(step.view, rooms[1..])
  }

  function LoadStrategies(v: View, strategies: seq<Strategy>): View
    decreases strategies
  {
    if strategies == [] then v
    else
      LoadStrategies(v.(strategies := v.strategies[strategies[0].strategyName := strategies[0]]), strategies[1..])
  }

  /** Rooms first; a desync error in a room keeps the strategies from being loaded. */
  function Load(v: View, s: SerializedState): Step
  {
    var step := LoadRooms(v, s.rooms);
    if step.outcome != Done then step else Step(LoadStrategies(step.view, s.authStrategies), Done)
  }

  ghost predicate DistinctNodes(cells: seq<SerializedCell>)
  {
    forall i, j | 0 <= i < j < |cells| :: cells[i].nodeId != cells[j].nodeId
  }

  ghost predicate DistinctRooms(rooms: seq<SerializedRoom>)
  {
    forall i, j | 0 <= i < j < |rooms| :: rooms[i].roomId != rooms[j].roomId
  }

  function CellsOf(cells: seq<SerializedCell>): map<string, Cell>
  {
    if cells == [] then map[]
    else map[cells[0].nodeId := Cell(cells[0].subscribers, cells[0].messageId)] + CellsOf(cells[1..])
  }

  function RoomOf(room: SerializedRoom): RoomView
  {
    RoomView(RoomDef(room.index, room.collection, room.filters), CellsOf(room.nodes))
  }

  function RoomsOf(rooms: seq<SerializedRoom>): map<string, RoomView>
  {
    if rooms == [] then map[] else map[rooms[0].roomId := RoomOf(rooms[0])] + RoomsOf(rooms[1..])
  }

  function StrategiesOf(strategies: seq<Strategy>): map<string, Strategy>
  {
    if strategies == [] then map[]
    else map[strategies[0].strategyName := strategies[0]] + StrategiesOf(strategies[1..])
  }

  function FiltersOf(rooms: map<string, RoomView>): set<Filter>
  {
    set r | r in rooms :: Filter(r, Kindex(rooms[r].def))
  }

  /** `s` lists the rooms, their cells and the strategies of `v`, each once, in any order. */
  ghost predicate Encodes(s: SerializedState, v: View)
  {
    && DistinctRooms(s.rooms)
    && (forall r | r in s.rooms :: DistinctNodes(r.nodes))
    && RoomsOf(s.rooms) == v.rooms
    && (forall i, j | 0 <= i < j < |s.authStrategies| ::
          s.authStrategies[i].strategyName != s.authStrategies[j].strategyName)
    && StrategiesOf(s.authStrategies) == v.strategies
  }

  lemma {:induction false} RoomsOfKeys(rooms: seq<SerializedRoom>, r: string)
    ensures r in RoomsOf(rooms) <==> exists i :: 0 <= i < |rooms| && rooms[i].roomId == r
  {
    if rooms != [] {
      RoomsOfKeys(rooms[1..], r);
      if exists i :: 0 <= i < |rooms| && rooms[i].roomId == r {
        var i :| 0 <= i < |rooms| && rooms[i].roomId == r;
        if i > 0 {
          assert rooms[1..][i - 1].roomId == r;
        }
      } else {
        assert rooms[0].roomId != r;
        forall i | 0 <= i < |rooms[1..]|
          ensures rooms[1..][i].roomId != r
        {
          assert rooms[1..][i] == rooms[i + 1];
        }
      }
    }
  }

  function NodesIn(v: View, room: string): map<string, Cell>
  {
    if room in v.rooms then v.rooms[room].nodes else map[]
  }

  /** `v` with more entries in one room, which is created if needed. */
  function Merge(v: View, room: SerializedRoom, cells: map<string, Cell>): View
  {
    View(v.rooms[room.roomId := RoomView(RoomOf(room).def, NodesIn(v, room.roomId) + cells)],
         v.strategies, v.filters + {Filter(room.roomId, Kindex(RoomOf(room).def))})
  }

  lemma MergeTwice(v: View, room: SerializedRoom, a: map<string, Cell>, b: map<string, Cell>)
    ensures Merge(Merge(v, room, a), room, b) == Merge(v, room, a + b)
  {
    UnionAssociates(NodesIn(v, room.roomId), a, b);
    assert Merge(Merge(v, room, a), room, b).rooms == Merge(v, room, a + b).rooms;
  }

  lemma {:induction false} AddAllAdds(v: View, room: SerializedRoom, cells: seq<SerializedCell>)
    requires DistinctNodes(cells) && cells != []
    requires forall c | c in cells :: c.nodeId !in NodesIn(v, room.roomId)
    requires room.roomId in v.rooms ==> v.rooms[room.roomId].def == RoomOf(room).def
    ensures AddAll(v, room, cells) == Step(Merge(v, room, CellsOf(cells)), Done)
    decreases cells
  {
    var rest := cells[1..];
    AddFirstCell(v, room, cells);
    var v' := Merge(v, room, CellsOf([cells[0]]));
    if rest == [] {
      assert cells == [cells[0]];
    } else {
      AddAllAdds(v', room, rest);
      MergeTwice(v, room, CellsOf([cells[0]]), CellsOf(rest));
      CellsOfFirst(cells);
    }
  }

  lemma CellsOfFirst(cells: seq<SerializedCell>)
    requires cells != [] && DistinctNodes(cells)
    ensures CellsOf([cells[0]]) + CellsOf(cells[1..]) == CellsOf(cells)
  {
    assert [cells[0]][1..] == [];
  }

  lemma CellsOfOne(c: SerializedCell)
    ensures CellsOf([c]) == map[c.nodeId := Cell(c.subscribers, c.messageId)]
  {
    assert CellsOf([c][1..]) == map[];
  }

  lemma AddRoomMerges(v: View, room: SerializedRoom, c: SerializedCell)
    requires c.nodeId !in NodesIn(v, room.roomId)
    requires room.roomId in v.rooms ==> v.rooms[room.roomId].def == RoomOf(room).def
    ensures AddRoom(v, room.roomId, RoomOf(room).def, c.nodeId, Cell(c.subscribers, c.messageId))
            == Step(Merge(v, room, CellsOf([c])), Done)
  {
    CellsOfOne(c);
    var step := AddRoom(v, room.roomId, RoomOf(room).def, c.nodeId, Cell(c.subscribers, c.messageId));
    assert NodesIn(v, room.roomId) + CellsOf([c])
        == NodesIn(v, room.roomId)[c.nodeId := Cell(c.subscribers, c.messageId)];
    assert step.view.rooms == Merge(v, room, CellsOf([c])).rooms;
  }

  lemma AddFirstCell(v: View, room: SerializedRoom, cells: seq<SerializedCell>)
    requires DistinctNodes(cells) && cells != []
    requires forall c | c in cells :: c.nodeId !in NodesIn(v, room.roomId)
    requires room.roomId in v.rooms ==> v.rooms[room.roomId].def == RoomOf(room).def
    ensures AddAll(v, room, cells) == AddAll(Merge(v, room, CellsOf([cells[0]])), room, cells[1..])
    ensures forall d | d in cells[1..] :: d.nodeId !in NodesIn(Merge(v, room, CellsOf([cells[0]])), room.roomId)
  {
    assert cells[0] in cells;
    AddRoomMerges(v, room, cells[0]);
    CellsOfOne(cells[0]);
    forall d | d in cells[1..]
      ensures d.nodeId !in NodesIn(v, room.roomId) && d.nodeId != cells[0].nodeId
    {
      var i :| 0 <= i < |cells[1..]| && cells[1..][i] == d;
      assert cells[i + 1] == d;
    }
  }

  lemma UnionAssociates<X, Y>(a: map<X, Y>, b: map<X, Y>, c: map<X, Y>)
    ensures (a + b) + c == a + (b + c)
  {
  }

  /** A room without nodes leaves no trace in a load, since rooms are only created along with a node. */
  function WithNodes(rooms: map<string, RoomView>): map<string, RoomView>
  {
    map r | r in rooms && rooms[r].nodes != map[] :: rooms[r]
  }

  lemma {:induction false} LoadRoomsLoads(v: View, rooms: seq<SerializedRoom>)
    requires DistinctRooms(rooms)
    requires forall r | r in rooms :: DistinctNodes(r.nodes) && r.roomId !in v.rooms
    ensures LoadRooms(v, rooms) ==
            Step(View(v.rooms + WithNodes(RoomsOf(rooms)), v.strategies,
                      v.filters + FiltersOf(WithNodes(RoomsOf(rooms)))), Done)
    decreases rooms
  {
    if rooms == [] {
      assert v.rooms + WithNodes(RoomsOf(rooms)) == v.rooms;
    } else {
      var room := rooms[0];
      var rest := rooms[1..];
      assert room in rooms;
      var step := LoadFirstRoom(v, room);
      forall r | r in rest
        ensures r.roomId !in step.view.rooms
      {
        var i :| 0 <= i < |rest| && rest[i] == r;
        assert rooms[i + 1] == r;
      }
      LoadRoomsLoads(step.view, rest);
      NotAmongTheRest(rooms);
      RoomsJoin(v, room, RoomsOf(rest), step.view);
    }
  }

  lemma LoadFirstRoom(v: View, room: SerializedRoom) returns (step: Step)
    requires DistinctNodes(room.nodes) && room.roomId !in v.rooms
    ensures step == AddAll(v, room, room.nodes)
    ensures step == Step(View(v.rooms + WithNodes(map[room.roomId := RoomOf(room)]), v.strategies,
                              v.filters + FiltersOf(WithNodes(map[room.roomId := RoomOf(room)]))), Done)
  {
    step := AddAll(v, room, room.nodes);
    var one := map[room.roomId := RoomOf(room)];
    if room.nodes == [] {
      assert WithNodes(one) == map[];
      assert v.rooms + map[] == v.rooms;
    } else {
      AddAllAdds(v, room, room.nodes);
      assert step.view == Merge(v, room, CellsOf(room.nodes));
      assert NodesIn(v, room.roomId) + CellsOf(room.nodes) == CellsOf(room.nodes);
      assert room.nodes[0].nodeId in CellsOf(room.nodes);
      assert WithNodes(one) == one;
      assert v.rooms[room.roomId := RoomOf(room)] == v.rooms + one;
      assert FiltersOf(one) == {Filter(room.roomId, Kindex(RoomOf(room).def))};
    }
  }

  lemma NotAmongTheRest(rooms: seq<SerializedRoom>)
    requires rooms != [] && DistinctRooms(rooms)
    ensures rooms[0].roomId !in RoomsOf(rooms[1..])
  {
    var rest := rooms[1..];
    RoomsOfKeys(rest, rooms[0].roomId);
    forall i | 0 <= i < |rest|
      ensures rest[i].roomId != rooms[0].roomId
    {
      assert rest[i] == rooms[i + 1];
    }
  }

  lemma RoomsJoin(v: View, room: SerializedRoom, rest: map<string, RoomView>, v': View)
    requires room.roomId !in rest
    requires var one := WithNodes(map[room.roomId := RoomOf(room)]);
             v'.rooms == v.rooms + one && v'.filters == v.filters + FiltersOf(one)
    ensures v'.rooms + WithNodes(rest) == v.rooms + WithNodes(map[room.roomId := RoomOf(room)] + rest)
    ensures v'.filters + FiltersOf(WithNodes(rest))
            == v.filters + FiltersOf(WithNodes(map[room.roomId := RoomOf(room)] + rest))
  {
    var one := map[room.roomId := RoomOf(room)];
    WithNodesOfUnion(one, rest);
    UnionAssociates(v.rooms, WithNodes(one), WithNodes(rest));
  }

  lemma WithNodesOfUnion(a: map<string, RoomView>, b: map<string, RoomView>)
    requires a.Keys !! b.Keys
    ensures WithNodes(a + b) == WithNodes(a) + WithNodes(b)
    ensures FiltersOf(WithNodes(a + b)) == FiltersOf(WithNodes(a)) + FiltersOf(WithNodes(b))
  {
    var u := WithNodes(a) + WithNodes(b);
    assert WithNodes(a + b) == u;
    assert FiltersOf(u) == FiltersOf(WithNodes(a)) + FiltersOf(WithNodes(b)) by {
      forall r | r in u
        ensures (r in WithNodes(a) && u[r] == WithNodes(a)[r]) || (r in WithNodes(b) && u[r] == WithNodes(b)[r])
      {
      }
      forall r | r in WithNodes(a)
        ensures r in u && u[r] == WithNodes(a)[r]
      {
      }
      forall r | r in WithNodes(b)
        ensures r in u && u[r] == WithNodes(b)[r]
      {
      }
    }
  }

  lemma {:induction false} LoadStrategiesLoads(v: View, strategies: seq<Strategy>)
    requires forall i, j | 0 <= i < j < |strategies| :: strategies[i].strategyName != strategies[j].strategyName
    ensures LoadStrategies(v, strategies) == v.(strategies := v.strategies + StrategiesOf(strategies))
    decreases strategies
  {
    if strategies == [] {
      assert v.strategies + StrategiesOf(strategies) == v.strategies;
    } else {
      var one := map[strategies[0].strategyName := strategies[0]];
      LoadStrategiesLoads(v.(strategies := v.strategies + one), strategies[1..]);
      assert v.strategies[strategies[0].strategyName := strategies[0]] == v.strategies + one;
      assert v.strategies + one + StrategiesOf(strategies[1..]) == v.strategies + StrategiesOf(strategies);
    }
  }

  /** A load of any serialization of `v` into an empty state keeps exactly the rooms that have a node. */
  lemma LoadOfSerialized(v: View, s: SerializedState)
    requires Encodes(s, v)
    ensures Load(EMPTY, s) == Step(View(WithNodes(v.rooms), v.strategies, FiltersOf(WithNodes(v.rooms))), Done)
  {
    LoadRoomsLoads(EMPTY, s.rooms);
    var rooms := WithNodes(v.rooms);
    var loaded := View(rooms, map[], FiltersOf(rooms));
    assert map[] + rooms == rooms;
    assert {} + FiltersOf(rooms) == FiltersOf(rooms);
    assert LoadRooms(EMPTY, s.rooms) == Step(loaded, Done);
    LoadStrategiesLoads(loaded, s.authStrategies);
    assert map[] + v.strategies == v.strategies;
  }

  /**
   * The full state round trip: it restores rooms, counts, message ids, strategies and filters exactly
   * when no room is without nodes and the filters are those of the rooms.
   */
  lemma FullStateRoundTrip(v: View, s: SerializedState)
    requires Encodes(s, v)
    ensures Load(EMPTY, s) == Step(v, Done) <==>
            (forall r | r in v.rooms :: v.rooms[r].nodes != map[]) && v.filters == FiltersOf(v.rooms)
  {
    LoadOfSerialized(v, s);
    if forall r | r in v.rooms :: v.rooms[r].nodes != map[] {
      assert WithNodes(v.rooms) == v.rooms;
    } else {
      var r :| r in v.rooms && v.rooms[r].nodes == map[];
      assert r !in WithNodes(v.rooms);
    }
  }

  lemma CoherentStateRoundTrip(v: View, defs: string -> RoomDef, s: SerializedState)
    requires Coherent(v, defs) && Encodes(s, v)
    ensures Load(EMPTY, s) == Step(v, Done)
  {
    assert FiltersOf(v.rooms) == v.filters;
    FullStateRoundTrip(v, s);
  }

  /* ---------- when a state cannot be loaded ---------- */

  /** The counters of a view, by room and node. */
  function Counters(v: View): set<(string, string)>
  {
    set r, n | r in v.rooms && n in v.rooms[r].nodes :: (r, n)
  }

  /** The counters that some nodes of a room stand for, in the order of the list. */
  function CountersOf(room: string, nodes: seq<SerializedCell>): seq<(string, string)>
  {
    if nodes == [] then [] else [(room, nodes[0].nodeId)] + CountersOf(room, nodes[1..])
  }

  function AllCountersOf(rooms: seq<SerializedRoom>): seq<(string, string)>
  {
    if rooms == [] then [] else CountersOf(rooms[0].roomId, rooms[0].nodes) + AllCountersOf(rooms[1..])
  }

  /** None of the listed counters is known, or listed twice. */
  predicate New(known: set<(string, string)>, listed: seq<(string, string)>)
  {
    && (forall i :: 0 <= i < |listed| ==> listed[i] !in known)
    && (forall i, j :: 0 <= i < j < |listed| ==> listed[i] != listed[j])
  }

  lemma NewOfConcat(known: set<(string, string)>, a: seq<(string, string)>, b: seq<(string, string)>)
    ensures New(known, a + b) <==> New(known, a) && New(known + (set c | c in a), b)
  {
    var all := a + b;
    if New(known, all) {
      assert forall i :: 0 <= i < |a| ==> all[i] == a[i];
      assert forall j :: 0 <= j < |b| ==> all[|a| + j] == b[j];
    }
  }

  lemma CountersOfAdded(v: View, room: string, def: RoomDef, node: string, cell: Cell)
    ensures AddRoom(v, room, def, node, cell).outcome == Done <==> (room, node) !in Counters(v)
    ensures Counters(AddRoom(v, room, def, node, cell).view) == Counters(v) + {(room, node)}
  {
  }

  lemma {:induction false} AddAllSucceedsIff(v: View, room: SerializedRoom, nodes: seq<SerializedCell>)
    ensures var listed := CountersOf(room.roomId, nodes);
            && (AddAll(v, room, nodes).outcome == Done <==> New(Counters(v), listed))
            && (AddAll(v, room, nodes).outcome == Done ==>
                  Counters(AddAll(v, room, nodes).view) == Counters(v) + set c | c in listed)
    decreases nodes
  {
    if nodes != [] {
      var first := (room.roomId, nodes[0].nodeId);
      var def := RoomDef(room.index, room.collection, room.filters);
      var cell := Cell(nodes[0].subscribers, nodes[0].messageId);
      var step := AddRoom(v, room.roomId, def, nodes[0].nodeId, cell);
      CountersOfAdded(v, room.roomId, def, nodes[0].nodeId, cell);
      AddAllSucceedsIff(step.view, room, nodes[1..]);
      NewOfConcat(Counters(v), [first], CountersOf(room.roomId, nodes[1..]));
      assert (set c | c in [first]) == {first};
    }
  }

  lemma {:induction false} LoadRoomsSucceedsIff(v: View, rooms: seq<SerializedRoom>)
    ensures LoadRooms(v, rooms).outcome == Done <==> New(Counters(v), AllCountersOf(rooms))
    decreases rooms
  {
    if rooms != [] {
      var listed := CountersOf(rooms[0].roomId, rooms[0].nodes);
      AddAllSucceedsIff(v, rooms[0], rooms[0].nodes);
      NewOfConcat(Counters(v), listed, AllCountersOf(rooms[1..]));
      if New(Counters(v), listed) {
        LoadRoomsSucceedsIff(AddAll(v, rooms[0], rooms[0].nodes).view, rooms[1..]);
      }
    }
  }

  /** Loading meets a desync error exactly when some node is listed twice in a room, or has a counter there already. */
  lemma LoadSucceedsIff(v: View, s: SerializedState)
    ensures Load(v, s).outcome == Done <==> New(Counters(v), AllCountersOf(s.rooms))
  {
    LoadRoomsSucceedsIff(v, s.rooms);
  }
}
