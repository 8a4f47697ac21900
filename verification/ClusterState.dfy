/**
 * The replicated state as the objects of lib/cluster/state.ts: counters inside rooms inside the
 * full state, all changed in place, next to the Koncorde engine that holds the rooms' filters.
 */
module ClusterState {
  import opened KoncordeCompat
  import opened RealtimeView
  import opened Wrappers

  /** The part of the Koncorde engine that the cluster state relies on: a set of stored filters. */
  class Koncorde {
    var stored: set<Filter>

    constructor ()
      ensures stored == {}
    {
      stored := {};
    }

    predicate HasFilterId(id: string, kindex: string)
      reads this
    {
      Filter(id, kindex) in stored
    }

    method Store(id: string, kindex: string)
      modifies this
      ensures stored == old(stored) + {Filter(id, kindex)}
    {
      stored := stored + {Filter(id, kindex)};
    }

    method Remove(id: string, kindex: string)
      modifies this
      ensures stored == old(stored) - {Filter(id, kindex)}
    {
      stored := stored - {Filter(id, kindex)};
    }
  }

  /** One node's counter in one room. */
  class RoomSubscriptions {
    const nodeId: string
    /** The room this counter belongs to: two rooms never share a counter. */
    ghost const home: RoomState
    var subscribers: int
    var messageId: int

    constructor (ghost home: RoomState, nodeId: string, messageId: int, subscribers: int)
      ensures this.home == home && this.nodeId == nodeId
      ensures Value() == Cell(subscribers, messageId)
    {
      this.home := home;
      this.nodeId := nodeId;
      this.subscribers := subscribers;
      this.messageId := messageId;
    }

    function Value(): Cell
      reads this
    {
      Cell(subscribers, messageId)
    }

    method Increment(messageId: int) returns (count: int)
      modifies this
      ensures Value() == Incr(old(Value()), messageId)
      ensures count == subscribers
    {
      if messageId > this.messageId {
        subscribers := subscribers + 1;
        this.messageId := messageId;
      }
      count := subscribers;
    }

    method Decrement(messageId: int) returns (count: int)
      modifies this
      ensures Value() == Decr(old(Value()), messageId)
      ensures count == subscribers
    {
      if messageId > this.messageId {
        subscribers := subscribers - 1;
        this.messageId := messageId;
      }
      count := subscribers;
    }
  }

  class RoomState {
    const id: string
    const index: string
    const collection: string
    const filters: string
    var nodes: map<string, RoomSubscriptions>

    constructor (roomId: string, index: string, collection: string, filters: string)
      ensures id == roomId && Def() == RoomDef(index, collection, filters)
      ensures nodes == map[]
    {
      this.id := roomId;
      this.index := index;
      this.collection := collection;
      this.filters := filters;
      this.nodes := map[];
    }

    function Def(): RoomDef
    {
      RoomDef(index, collection, filters)
    }

    /** The counters are this room's own, and they hold `cells`. */
    ghost predicate Holds(cells: map<string, Cell>)
      reads this, set n | n in nodes :: nodes[n]
    {
      && cells.Keys == nodes.Keys
      && forall n | n in nodes :: nodes[n].home == this && nodes[n].nodeId == n && nodes[n].Value() == cells[n]
    }

    ghost predicate Is(id: string, room: RoomView)
      reads this, set n | n in nodes :: nodes[n]
    {
      this.id == id && Def() == room.def && Holds(room.nodes)
    }

    /** The room and its counters belong to `repr`, and its value is the given one. */
    ghost predicate Housed(repr: set<object>, id: string, room: RoomView)
      reads this, set n | n in nodes :: nodes[n]
    {
      this in repr && (forall n | n in nodes :: nodes[n] in repr) && Is(id, room)
    }

    method AddNode(nodeId: string, messageId: int, subscribers: int, ghost cells: map<string, Cell>)
      returns (outcome: Outcome)
      requires Holds(cells)
      modifies this
      ensures outcome == (if nodeId in cells then DuplicateNode else Done)
      ensures nodeId in cells ==> nodes == old(nodes) && Holds(cells)
      ensures nodeId !in cells ==> Holds(cells[nodeId := Cell(subscribers, messageId)])
      ensures nodeId !in cells ==>
              nodeId in nodes && fresh(nodes[nodeId]) && nodes == old(nodes)[nodeId := nodes[nodeId]]
    {
      if nodeId in nodes {
        return DuplicateNode;
      }
      var counter := new RoomSubscriptions(this, nodeId, messageId, subscribers);
      nodes := nodes[nodeId := counter];
      return Done;
    }

    method RemoveNode(nodeId: string, ghost cells: map<string, Cell>)
      requires Holds(cells)
      modifies this
      ensures nodes == old(nodes) - {nodeId} && Holds(cells - {nodeId})
    {
      nodes := nodes - {nodeId};
    }

    method Increment(nodeId: string, messageId: int, ghost cells: map<string, Cell>) returns (outcome: Outcome)
      requires Holds(cells)
      modifies if nodeId in nodes then {nodes[nodeId]} else {}
      ensures outcome == (if nodeId in cells then Done else UnknownNode)
      ensures nodeId !in cells ==> Holds(cells)
      ensures nodeId in cells ==> Holds(cells[nodeId := Incr(cells[nodeId], messageId)])
    {
      if nodeId !in nodes {
        return UnknownNode;
      }
      var counter := nodes[nodeId];
      var count := counter.Increment(messageId);
      return Done;
    }

    method Decrement(nodeId: string, messageId: int, ghost cells: map<string, Cell>) returns (outcome: Outcome)
      requires Holds(cells)
      modifies if nodeId in nodes then {nodes[nodeId]} else {}
      ensures outcome == if nodeId !in cells then UnknownNode
                         else if Decr(cells[nodeId], messageId).subscribers < 0 then NegativeCount
                         else Done
      ensures nodeId !in cells ==> Holds(cells)
      ensures nodeId in cells ==> Holds(cells[nodeId := Decr(cells[nodeId], messageId)])
    {
      if nodeId !in nodes {
        return UnknownNode;
      }
      var counter := nodes[nodeId];
      var count := counter.Decrement(messageId);
      if count < 0 {
        return NegativeCount;
      }
      return Done;
    }

    predicate HasNodes()
      reads this
    {
      |nodes| > 0
    }

    method CountSubscriptions(ghost cells: map<string, Cell>) returns (result: int)
      requires Holds(cells)
      ensures result == SumOver(cells, cells.Keys)
    {
      result := 0;
      var todo := nodes.Keys;
      while todo != {}
        invariant todo <= nodes.Keys
        invariant result + SumOver(cells, todo) == SumOver(cells, cells.Keys)
        decreases |todo|
      {
        var n :| n in todo;
        SumOverRemove(cells, todo, n);
        result := result + nodes[n].subscribers;
        todo := todo - {n};
      }
    }

    method Serialize(ghost cells: map<string, Cell>) returns (result: SerializedRoom)
      requires Holds(cells)
      ensures result.roomId == id && RoomOf(result) == RoomView(Def(), cells) && DistinctNodes(result.nodes)
    {
      var list: seq<SerializedCell> := [];
      var todo := nodes.Keys;
      assert cells - todo == map[];
      while todo != {}
        invariant todo <= nodes.Keys
        invariant DistinctNodes(list)
        invariant forall c | c in list :: c.nodeId !in todo
        invariant CellsOf(list) == cells - todo
        decreases |todo|
      {
        var n :| n in todo;
        var c := SerializedCell(nodes[n].nodeId, nodes[n].messageId, nodes[n].subscribers);
        CellsOfAppended(list, c);
        DistinctAppended(list, c);
        Readd(cells, todo, n);
        list := list + [c];
        todo := todo - {n};
      }
      assert cells - {} == cells;
      result := SerializedRoom(id, index, collection, filters, list);
    }
  }

  lemma DistinctAppended(cells: seq<SerializedCell>, c: SerializedCell)
    requires DistinctNodes(cells) && forall x | x in cells :: x.nodeId != c.nodeId
    ensures DistinctNodes(cells + [c])
  {
  }

  lemma DistinctRoomAppended(rooms: seq<SerializedRoom>, r: SerializedRoom)
    requires DistinctRooms(rooms) && forall x | x in rooms :: x.roomId != r.roomId
    ensures DistinctRooms(rooms + [r])
  {
  }

  lemma Readd<X, Y>(m: map<X, Y>, todo: set<X>, k: X)
    requires k in todo && k in m
    ensures m - (todo - {k}) == (m - todo)[k := m[k]]
  {
  }

  lemma {:induction false} CellsOfAppended(cells: seq<SerializedCell>, c: SerializedCell)
    ensures CellsOf(cells + [c]) == CellsOf(cells)[c.nodeId := Cell(c.subscribers, c.messageId)]
  {
    if cells == [] {
      CellsOfOne(c);
    } else {
      CellsOfAppended(cells[1..], c);
      assert (cells + [c])[1..] == cells[1..] + [c];
    }
  }

  lemma {:induction false} RoomsOfAppended(rooms: seq<SerializedRoom>, r: SerializedRoom)
    ensures RoomsOf(rooms + [r]) == RoomsOf(rooms)[r.roomId := RoomOf(r)]
  {
    if rooms == [] {
      assert [r][1..] == [];
    } else {
      RoomsOfAppended(rooms[1..], r);
      assert (rooms + [r])[1..] == rooms[1..] + [r];
    }
  }

  lemma {:induction false} StrategiesOfAppended(strategies: seq<Strategy>, x: Strategy)
    ensures StrategiesOf(strategies + [x]) == StrategiesOf(strategies)[x.strategyName := x]
  {
    if strategies == [] {
      assert [x][1..] == [];
    } else {
      StrategiesOfAppended(strategies[1..], x);
      assert (strategies + [x])[1..] == strategies[1..] + [x];
    }
  }

  lemma RemoveRoomInTwoSteps(v: View, roomId: string, nodeId: string)
    requires roomId in v.rooms
    ensures var left := v.rooms[roomId].nodes - {nodeId};
            var v' := v.(rooms := v.rooms[roomId := v.rooms[roomId].(nodes := left)]);
            RemoveRoom(v, roomId, nodeId) ==
            if left == map[] then
              View(v'.rooms - {roomId}, v.strategies, v.filters - {Filter(roomId, Kindex(v.rooms[roomId].def))})
            else v'
  {
  }

  class State {
    var realtime: map<string, RoomState>
    var strategies: map<string, Strategy>
    const koncorde: Koncorde
    /** The value this object stands for, and the objects it is made of. */
    ghost var view: View
    ghost var repr: set<object>

    constructor (koncorde: Koncorde)
      ensures this.koncorde == koncorde && Valid() && fresh(repr - {koncorde})
      ensures view == View(map[], map[], koncorde.stored)
    {
      this.koncorde := koncorde;
      this.realtime := map[];
      this.strategies := map[];
      this.view := View(map[], map[], koncorde.stored);
      this.repr := {this, koncorde};
    }

    ghost predicate Owned(r: string)
      requires r in realtime
      reads this, repr
    {
      realtime[r] in repr
      && (forall n | n in realtime[r].nodes :: realtime[r].nodes[n] in repr)
      && r in view.rooms
      && realtime[r].Housed(repr, r, view.rooms[r])
    }

    ghost predicate Valid()
      reads this, repr
      ensures Valid() ==> this in repr
    {
      && this in repr
      && koncorde in repr
      && view.rooms.Keys == realtime.Keys
      && view.strategies == strategies
      && view.filters == koncorde.stored
      && (forall r | r in realtime :: Owned(r))
      && (forall n | n in strategies :: strategies[n].strategyName == n)
    }

    method AddRealtimeRoom(roomId: string, index: string, collection: string, filters: string, node: SerializedCell)
      returns (outcome: Outcome)
      requires Valid()
      modifies repr
      ensures Valid() && fresh(repr - old(repr))
      ensures Step(view, outcome) ==
              AddRoom(old(view), roomId, RoomDef(index, collection, filters), node.nodeId,
                      Cell(node.subscribers, node.messageId))
    {
      EnsureRoom(roomId, index, collection, filters);
      StoreFilter(roomId, ToKoncordeIndex(index, collection));
      outcome := AddNodeToRoom(roomId, node);
    }

    /** The room of that id, created without nodes when it does not exist yet. */
    method EnsureRoom(roomId: string, index: string, collection: string, filters: string)
      requires Valid()
      modifies this
      ensures Valid() && fresh(repr - old(repr))
      ensures roomId in realtime
      ensures view == if roomId in old(view).rooms then old(view)
                      else old(view).(rooms := old(view).rooms[roomId := RoomView(RoomDef(index, collection, filters),
                          map[])])
    {
      if roomId !in realtime {
        AddEmptyRoom(roomId, index, collection, filters);
        Settle(roomId, map[]);
      }
    }

    method AddEmptyRoom(roomId: string, index: string, collection: string, filters: string)
      requires Valid() && roomId !in realtime
      modifies this`realtime, this`repr, this`view
      ensures ValidBut(roomId) && fresh(repr - old(repr)) && roomId in realtime
      ensures realtime[roomId] in repr && realtime[roomId].id == roomId && realtime[roomId].nodes == map[]
      ensures realtime[roomId].Def() == RoomDef(index, collection, filters) && realtime[roomId].Holds(map[])
      ensures view ==
              old(view).(rooms := old(view).rooms[roomId := RoomView(RoomDef(index, collection, filters), map[])])
    {
      var room := new RoomState(roomId, index, collection, filters);
      realtime := realtime[roomId := room];
      repr := repr + {room};
      view := view.(rooms := view.rooms[roomId := RoomView(room.Def(), map[])]);
    }

    method StoreFilter(roomId: string, kindex: string)
      requires Valid()
      modifies this`view, koncorde
      ensures Valid()
      ensures view == old(view).(filters := old(view).filters + {Filter(roomId, kindex)})
    {
      if !koncorde.HasFilterId(roomId, kindex) {
        koncorde.Store(roomId, kindex);
      }
      view := view.(filters := view.filters + {Filter(roomId, kindex)});
    }

    method AddNodeToRoom(roomId: string, node: SerializedCell) returns (outcome: Outcome)
      requires Valid() && roomId in realtime
      modifies this`view, this`repr, realtime[roomId]
      ensures Valid() && fresh(repr - old(repr))
      ensures outcome == if node.nodeId in old(view).rooms[roomId].nodes then DuplicateNode else Done
      ensures view == if node.nodeId in old(view).rooms[roomId].nodes then old(view)
                      else PutCell(old(view), roomId, node.nodeId, Cell(node.subscribers, node.messageId))
    {
      ghost var cells := view.rooms[roomId].nodes;
      outcome := AddCounter(roomId, node);
      if outcome == Done {
        SettleNewCounter(roomId, node.nodeId, cells[node.nodeId := Cell(node.subscribers, node.messageId)]);
      }
    }

    method AddCounter(roomId: string, node: SerializedCell) returns (outcome: Outcome)
      requires Valid() && roomId in realtime
      modifies realtime[roomId]
      ensures ValidBut(roomId) && realtime[roomId] in repr
      ensures var cells := view.rooms[roomId].nodes;
              var room := realtime[roomId];
              if node.nodeId in cells then outcome == DuplicateNode && Valid()
              else
                && outcome == Done && node.nodeId in room.nodes && fresh(room.nodes[node.nodeId])
                && (forall n | n in room.nodes && n != node.nodeId :: room.nodes[n] in repr)
                && room.Is(roomId,
                    view.rooms[roomId].(nodes := cells[node.nodeId := Cell(node.subscribers, node.messageId)]))
    {
      var room := realtime[roomId];
      assert Owned(roomId);
      outcome := room.AddNode(node.nodeId, node.messageId, node.subscribers, view.rooms[roomId].nodes);
    }

    ghost method SettleNewCounter(roomId: string, nodeId: string, cells: map<string, Cell>)
      requires ValidBut(roomId) && roomId in realtime
      requires realtime[roomId] in repr && nodeId in realtime[roomId].nodes
      requires forall n | n in realtime[roomId].nodes && n != nodeId :: realtime[roomId].nodes[n] in repr
      requires realtime[roomId].Is(roomId, view.rooms[roomId].(nodes := cells))
      modifies this`view, this`repr
      ensures Valid() && repr == old(repr) + {realtime[roomId].nodes[nodeId]}
      ensures view == old(view).(rooms := old(view).rooms[roomId := old(view).rooms[roomId].(nodes := cells)])
    {
      Adopt(roomId, realtime[roomId].nodes[nodeId]);
      Settle(roomId, cells);
    }

    method RemoveRealtimeRoom(roomId: string, nodeId: string)
      requires Valid()
      modifies repr
      ensures Valid() && repr == old(repr)
      ensures realtime.Keys <= old(realtime.Keys)
      ensures view == RemoveRoom(old(view), roomId, nodeId)
    {
      if roomId !in realtime {
        return;
      }
      ghost var before := view;
      RemoveNodeFromRoom(roomId, nodeId);
      RemoveRoomInTwoSteps(before, roomId, nodeId);
      var hasNodes := RoomHasNodes(roomId);
      if !hasNodes {
        DropRoom(roomId);
      }
    }

    method RoomHasNodes(roomId: string) returns (hasNodes: bool)
      requires Valid() && roomId in realtime
      ensures hasNodes <==> view.rooms[roomId].nodes != map[]
    {
      assert Owned(roomId);
      hasNodes := realtime[roomId].HasNodes();
    }

    method RemoveNodeFromRoom(roomId: string, nodeId: string)
      requires Valid() && roomId in realtime
      modifies this`view, realtime[roomId]
      ensures Valid() && repr == old(repr)
      ensures view == old(view).(rooms := old(view).rooms[roomId :=
                        old(view).rooms[roomId].(nodes := old(view).rooms[roomId].nodes - {nodeId})])
    {
      var room := realtime[roomId];
      ghost var cells := view.rooms[roomId].nodes;
      assert Owned(roomId);
      room.RemoveNode(nodeId, cells);
      assert ValidBut(roomId);
      Settle(roomId, cells - {nodeId});
    }

    method DropRoom(roomId: string)
      requires Valid() && roomId in realtime
      modifies this`realtime, this`view, koncorde
      ensures Valid() && repr == old(repr)
      ensures realtime.Keys == old(realtime.Keys) - {roomId}
      ensures view == View(old(view).rooms - {roomId}, old(view).strategies,
                           old(view).filters - {Filter(roomId, Kindex(old(view).rooms[roomId].def))})
    {
      RemoveFilter(roomId);
      ForgetRoom(roomId);
    }

    method ForgetRoom(roomId: string)
      requires Valid() && roomId in realtime
      modifies this`realtime, this`view
      ensures Valid() && realtime.Keys == old(realtime.Keys) - {roomId}
      ensures view == old(view).(rooms := old(view).rooms - {roomId})
    {
      ghost var rooms, before := realtime, view;
      assert forall q | q in rooms :: Owned(q);
      realtime := realtime - {roomId};
      view := view.(rooms := view.rooms - {roomId});
      forall q | q in realtime
        ensures Owned(q)
      {
        assert realtime[q] == rooms[q] && view.rooms[q] == before.rooms[q];
        assert rooms[q].Housed(repr, q, before.rooms[q]);
      }
    }

    method RemoveFilter(roomId: string)
      requires Valid() && roomId in realtime
      modifies this`view, koncorde
      ensures Valid()
      ensures view == old(view).(filters := old(view).filters - {Filter(roomId, Kindex(old(view).rooms[roomId].def))})
    {
      var room := realtime[roomId];
      assert Owned(roomId);
      koncorde.Remove(roomId, ToKoncordeIndex(room.index, room.collection));
      view := View(view.rooms, view.strategies, koncorde.stored);
    }

    /** Valid for every room but one, which may hold anything. */
    ghost predicate ValidBut(roomId: string)
      reads this, repr
    {
      && this in repr
      && koncorde in repr
      && view.rooms.Keys == realtime.Keys
      && view.strategies == strategies
      && view.filters == koncorde.stored
      && (forall r | r in realtime && r != roomId :: Owned(r))
      && (forall n | n in strategies :: strategies[n].strategyName == n)
    }

    ghost method Adopt(roomId: string, counter: RoomSubscriptions)
      requires ValidBut(roomId)
      modifies this`repr
      ensures ValidBut(roomId) && repr == old(repr) + {counter}
    {
      repr := repr + {counter};
    }

    ghost method Settle(roomId: string, cells: map<string, Cell>)
      requires ValidBut(roomId) && roomId in realtime
      requires realtime[roomId] in repr && realtime[roomId].id == roomId
      requires forall n | n in realtime[roomId].nodes :: realtime[roomId].nodes[n] in repr
      requires view.rooms[roomId].def == realtime[roomId].Def()
      requires realtime[roomId].Holds(cells)
      modifies this`view
      ensures Valid()
      ensures view == old(view).(rooms := old(view).rooms[roomId := old(view).rooms[roomId].(nodes := cells)])
    {
      view := view.(rooms := view.rooms[roomId := view.rooms[roomId].(nodes := cells)]);
      assert Owned(roomId);
    }

    method AddRealtimeSubscription(roomId: string, nodeId: string, messageId: int) returns (outcome: Outcome)
      requires Valid()
      modifies this`view, if roomId in realtime && nodeId in realtime[roomId].nodes then
        {realtime[roomId].nodes[nodeId]} else {}
      ensures Valid() && repr == old(repr)
      ensures Step(view, outcome) == AddSubscription(old(view), roomId, nodeId, messageId)
    {
      if roomId !in realtime {
        return UnknownRoom;
      }
      ghost var cells := view.rooms[roomId].nodes;
      outcome := IncrementIn(roomId, nodeId, messageId);
      if outcome == Done {
        Settle(roomId, cells[nodeId := Incr(cells[nodeId], messageId)]);
      }
    }

    method IncrementIn(roomId: string, nodeId: string, messageId: int) returns (outcome: Outcome)
      requires Valid() && roomId in realtime
      modifies if nodeId in realtime[roomId].nodes then {realtime[roomId].nodes[nodeId]} else {}
      ensures ValidBut(roomId) && realtime[roomId] in repr && realtime[roomId].id == roomId
      ensures forall n | n in realtime[roomId].nodes :: realtime[roomId].nodes[n] in repr
      ensures realtime[roomId].Def() == view.rooms[roomId].def
      ensures outcome == if nodeId in old(view).rooms[roomId].nodes then Done else UnknownNode
      ensures var cells := view.rooms[roomId].nodes;
              if nodeId in cells then realtime[roomId].Holds(cells[nodeId := Incr(cells[nodeId], messageId)])
              else Valid()
    {
      var room := realtime[roomId];
      assert Owned(roomId);
      outcome := room.Increment(nodeId, messageId, view.rooms[roomId].nodes);
    }

    method RemoveRealtimeSubscription(roomId: string, nodeId: string, messageId: int) returns (outcome: Outcome)
      requires Valid()
      modifies this`view, if roomId in realtime && nodeId in realtime[roomId].nodes then
        {realtime[roomId].nodes[nodeId]} else {}
      ensures Valid() && repr == old(repr)
      ensures Step(view, outcome) == RemoveSubscription(old(view), roomId, nodeId, messageId)
    {
      if roomId !in realtime {
        return UnknownRoom;
      }
      ghost var cells := view.rooms[roomId].nodes;
      outcome := DecrementIn(roomId, nodeId, messageId);
      if outcome != UnknownNode {
        Settle(roomId, cells[nodeId := Decr(cells[nodeId], messageId)]);
      }
    }

    method DecrementIn(roomId: string, nodeId: string, messageId: int) returns (outcome: Outcome)
      requires Valid() && roomId in realtime
      modifies if nodeId in realtime[roomId].nodes then {realtime[roomId].nodes[nodeId]} else {}
      ensures ValidBut(roomId) && realtime[roomId] in repr && realtime[roomId].id == roomId
      ensures forall n | n in realtime[roomId].nodes :: realtime[roomId].nodes[n] in repr
      ensures realtime[roomId].Def() == view.rooms[roomId].def
      ensures outcome == if nodeId !in old(view).rooms[roomId].nodes then UnknownNode
                         else if Decr(old(view).rooms[roomId].nodes[nodeId], messageId).subscribers < 0 then
                           NegativeCount
                         else Done
      ensures var cells := view.rooms[roomId].nodes;
              if nodeId in cells then realtime[roomId].Holds(cells[nodeId := Decr(cells[nodeId], messageId)])
              else Valid()
    {
      var room := realtime[roomId];
      assert Owned(roomId);
      outcome := room.Decrement(nodeId, messageId, view.rooms[roomId].nodes);
    }

    method RemoveNode(nodeId: string)
      requires Valid()
      modifies repr
      ensures Valid() && repr == old(repr)
      ensures view == RealtimeView.RemoveNode(old(view), nodeId)
    {
      ghost var all := view;
      RemoveNodeFromNone(all, nodeId);
      RemoveNodeFromRooms(nodeId, all);
      RemoveNodeFromAll(all, nodeId);
    }

    method RemoveNodeFromRooms(nodeId: string, ghost all: View)
      requires Valid() && view == RemoveNodeFrom(all, nodeId, {})
      requires all.rooms.Keys == realtime.Keys
      modifies repr
      ensures Valid() && repr == old(repr)
      ensures view == RemoveNodeFrom(all, nodeId, all.rooms.Keys)
    {
      var todo := realtime.Keys;
      ghost var keys := todo;
      ghost var done := keys - todo;
      assert done == {};
      while todo != {}
        invariant Valid() && repr == old(repr)
        invariant todo <= keys && done == keys - todo
        invariant view == RemoveNodeFrom(all, nodeId, done)
        decreases todo
      {
        var roomId :| roomId in todo;
        RemoveNodeFromOneRoom(roomId, nodeId, all, done);
        assert keys - (todo - {roomId}) == done + {roomId};
        todo := todo - {roomId};
        done := keys - todo;
      }
      assert done == keys == all.rooms.Keys;
    }

    method RemoveNodeFromOneRoom(roomId: string, nodeId: string, ghost all: View, ghost done: set<string>)
      requires Valid() && view == RemoveNodeFrom(all, nodeId, done)
      requires roomId in all.rooms && roomId !in done
      modifies repr
      ensures Valid() && repr == old(repr)
      ensures view == RemoveNodeFrom(all, nodeId, done + {roomId})
    {
      RemoveRealtimeRoom(roomId, nodeId);
      RemoveNodeOneMore(all, nodeId, done, roomId);
    }

    method GetNormalizedFilters(roomId: string) returns (filter: Option<(string, Filter)>)
      requires Valid()
      ensures filter == if roomId !in view.rooms then None
                        else Some((view.rooms[roomId].def.filters, Filter(roomId, Kindex(view.rooms[roomId].def))))
    {
      if roomId !in realtime {
        return None;
      }
      var room := realtime[roomId];
      assert Owned(roomId);
      return Some((room.filters, Filter(roomId, ToKoncordeIndex(room.index, room.collection))));
    }

    method CountRealtimeSubscriptions(roomId: string) returns (count: int)
      requires Valid()
      ensures count == CountOf(view, roomId)
    {
      if roomId !in realtime {
        return 0;
      }
      assert Owned(roomId);
      count := realtime[roomId].CountSubscriptions(view.rooms[roomId].nodes);
    }

    method ListRealtimeRooms() returns (list: RoomList)
      requires Valid()
      ensures ListsRooms(list, view, view.rooms.Keys)
    {
      list := map[];
      var todo := realtime.Keys;
      while todo != {}
        invariant todo <= realtime.Keys
        invariant ListsRooms(list, view, view.rooms.Keys - todo)
        decreases |todo|
      {
        var roomId :| roomId in todo;
        var room := realtime[roomId];
        assert Owned(roomId);
        var count := room.CountSubscriptions(view.rooms[roomId].nodes);
        ListsOneMore(list, view, view.rooms.Keys - todo, roomId, count);
        list := AddToList(list, room.index, room.collection, room.id, count);
        assert view.rooms.Keys - (todo - {roomId}) == (view.rooms.Keys - todo) + {roomId};
        todo := todo - {roomId};
      }
      assert view.rooms.Keys - {} == view.rooms.Keys;
    }

    method AddAuthStrategy(strategy: Strategy)
      requires Valid()
      modifies this`strategies, this`view
      ensures Valid() && repr == old(repr)
      ensures view == old(view).(strategies := old(view).strategies[strategy.strategyName := strategy])
    {
      strategies := strategies[strategy.strategyName := strategy];
      view := view.(strategies := strategies);
    }

    method RemoveAuthStrategy(strategyName: string)
      requires Valid()
      modifies this`strategies, this`view
      ensures Valid() && repr == old(repr)
      ensures view == old(view).(strategies := old(view).strategies - {strategyName})
    {
      strategies := strategies - {strategyName};
      view := view.(strategies := strategies);
    }

    method Serialize() returns (s: SerializedState)
      requires Valid()
      ensures Encodes(s, view)
    {
      var rooms := SerializeRooms();
      var list := SerializeStrategies();
      s := SerializedState(rooms, list);
    }

    method SerializeRooms() returns (list: seq<SerializedRoom>)
      requires Valid()
      ensures DistinctRooms(list) && RoomsOf(list) == view.rooms
      ensures forall r | r in list :: DistinctNodes(r.nodes)
    {
      list := [];
      var todo := realtime.Keys;
      assert view.rooms - todo == map[];
      while todo != {}
        invariant todo <= realtime.Keys
        invariant DistinctRooms(list)
        invariant forall r | r in list :: r.roomId !in todo && DistinctNodes(r.nodes)
        invariant RoomsOf(list) == view.rooms - todo
        decreases |todo|
      {
        var roomId :| roomId in todo;
        assert Owned(roomId);
        var room := realtime[roomId].Serialize(view.rooms[roomId].nodes);
        RoomsOfAppended(list, room);
        Readd(view.rooms, todo, roomId);
        DistinctRoomAppended(list, room);
        list := list + [room];
        todo := todo - {roomId};
      }
      assert view.rooms - {} == view.rooms;
    }

    method SerializeStrategies() returns (list: seq<Strategy>)
      requires Valid()
      ensures forall i, j | 0 <= i < j < |list| :: list[i].strategyName != list[j].strategyName
      ensures StrategiesOf(list) == view.strategies
    {
      list := [];
      var todo := strategies.Keys;
      assert strategies - todo == map[];
      while todo != {}
        invariant todo <= strategies.Keys
        invariant forall i, j | 0 <= i < j < |list| :: list[i].strategyName != list[j].strategyName
        invariant forall x | x in list :: x.strategyName !in todo
        invariant StrategiesOf(list) == strategies - todo
        decreases |todo|
      {
        var name :| name in todo;
        StrategiesOfAppended(list, strategies[name]);
        Readd(strategies, todo, name);
        list := list + [strategies[name]];
        todo := todo - {name};
      }
      assert strategies - {} == strategies;
    }

    method LoadFullState(s: SerializedState) returns (outcome: Outcome)
      requires Valid()
      modifies repr
      ensures Valid() && fresh(repr - old(repr))
      ensures Step(view, outcome) == Load(old(view), s)
    {
      for i := 0 to |s.rooms|
        invariant Valid() && fresh(repr - old(repr))
        invariant LoadRooms(view, s.rooms[i..]) == LoadRooms(old(view), s.rooms)
      {
        assert s.rooms[i..][0] == s.rooms[i] && s.rooms[i..][1..] == s.rooms[i + 1..];
        outcome := LoadRoom(s.rooms[i]);
        if outcome != Done {
          return;
        }
      }
      assert s.rooms[|s.rooms|..] == [];
      ghost var loaded := view;
      for i := 0 to |s.authStrategies|
        invariant Valid() && fresh(repr - old(repr))
        invariant LoadStrategies(view, s.authStrategies[i..]) == LoadStrategies(loaded, s.authStrategies)
      {
        assert s.authStrategies[i..][0] == s.authStrategies[i];
        assert s.authStrategies[i..][1..] == s.authStrategies[i + 1..];
        AddAuthStrategy(s.authStrategies[i]);
      }
      assert s.authStrategies[|s.authStrategies|..] == [];
      outcome := Done;
    }

    method LoadRoom(room: SerializedRoom) returns (outcome: Outcome)
      requires Valid()
      modifies repr
      ensures Valid() && fresh(repr - old(repr))
      ensures Step(view, outcome) == AddAll(old(view), room, room.nodes)
    {
      for i := 0 to |room.nodes|
        invariant Valid() && fresh(repr - old(repr))
        invariant AddAll(view, room, room.nodes[i..]) == AddAll(old(view), room, room.nodes)
      {
        assert room.nodes[i..][0] == room.nodes[i] && room.nodes[i..][1..] == room.nodes[i + 1..];
        outcome := AddRealtimeRoom(room.roomId, room.index, room.collection, room.filters, room.nodes[i]);
        if outcome != Done {
          return;
        }
      }
      assert room.nodes[|room.nodes|..] == [];
      outcome := Done;
    }
  }

  /** A node that joins and loads another node's serialized state ends up with the same state. */
  method Transfer(from: State) returns (to: State)
    requires from.Valid() && WithNodes(from.view.rooms) == from.view.rooms
    requires from.view.filters == FiltersOf(from.view.rooms)
    ensures to.Valid() && fresh(to.repr) && to.view == from.view
  {
    var s := from.Serialize();
    LoadOfSerialized(from.view, s);
    var koncorde := new Koncorde();
    to := new State(koncorde);
    var outcome := to.LoadFullState(s);
  }
}
