/** What every reachable state of the publish/subscribe server satisfies. */
module BrokerInvariant {
  import opened Broker

  /** Nothing is stored for a connected client; what is stored lies in allocated queues. */
  ghost predicate SlotOk(s: Slot, connected: bool) {
    && (connected ==> s.stored == [])
    && (s.sf != 1 ==> s.stored == [])
    && (forall i :: 0 <= i < |s.stored| ==> s.stored[i].topic == s.topic)
    && (!connected && s.sf == 1 ==> s.capacity >= 10 && |s.stored| <= s.capacity)
  }

  /** Among several store-and-forward slots for one topic only the first holds packets. */
  ghost predicate FirstHoldsAll(slots: seq<Slot>) {
    forall i, j :: 0 <= i < j < |slots| && slots[i].sf == 1 && slots[i].topic == slots[j].topic ==>
                     slots[j].stored == []
  }

  ghost predicate RecordOk(r: Record) {
    && (forall j :: 0 <= j < |r.slots| ==> SlotOk(r.slots[j], r.connected))
    && FirstHoldsAll(r.slots)
  }

  ghost predicate AllOk(records: seq<Record>) {
    forall i :: 0 <= i < |records| ==> RecordOk(records[i])
  }

  ghost predicate DistinctIds(records: seq<Record>) {
    forall i, j :: 0 <= i < j < |records| ==> records[i].id != records[j].id
  }

  /** The descriptor of a connected client is stored in no record before it, and behind it only in harmless ones. */
  ghost predicate SocketsOk(records: seq<Record>) {
    forall i, j :: 0 <= i < |records| && 0 <= j < |records| && i != j && records[i].connected
                   && records[j].socket == records[i].socket ==>
                     i < j && !records[j].connected && Blank(records[j])
  }

  function Reserved(st: State): set<int> {
    {0, st.tcp, st.udp}
  }

  predicate Live(records: seq<Record>, s: int) {
    exists i :: 0 <= i < |records| && records[i].connected && records[i].socket == s
  }

  /** select watches the reserved descriptors and exactly the sockets of the connected clients. */
  ghost predicate WatchOk(st: State) {
    && 2 < st.tcp && 2 < st.udp && st.tcp != st.udp
    && Reserved(st) <= st.watched
    && (forall i :: 0 <= i < |st.records| && st.records[i].connected ==>
          st.records[i].socket in st.watched - Reserved(st))
    && (forall s :: s in st.watched - Reserved(st) ==> Live(st.records, s))
    && (forall s :: s in st.watched ==> s >= 0)
    && (forall s :: s in st.watched && s != st.udp ==> s <= st.fdmax)
    && st.fdmax in st.watched
  }

  ghost predicate Inv(st: State) {
    DistinctIds(st.records) && SocketsOk(st.records) && AllOk(st.records) && WatchOk(st)
  }

  // ---------- The records keep their invariant ----------

  lemma OfferedOk(r: Record, p: Packet)
    requires RecordOk(r)
    ensures RecordOk(Offered(r, p))
  {
    var j := FirstTaker(r.slots, r.connected, p.topic);
    if j < |r.slots| && !r.connected {
      var r' := Offered(r, p);
      assert SlotOk(r.slots[j], false);
      assert r'.slots[j] == Stored(r.slots[j], p);
      forall i | 0 <= i < |r.slots|
        ensures SlotOk(r'.slots[i], false)
      {
        assert SlotOk(r.slots[i], false);
      }
      forall a, b | 0 <= a < b < |r.slots| && r'.slots[a].sf == 1 && r'.slots[a].topic == r'.slots[b].topic
        ensures r'.slots[b].stored == []
      {
        assert b == j ==> !Takes(r.slots[a], false, p.topic);
      }
    }
  }

  lemma DisconnectedOk(r: Record)
    requires RecordOk(r)
    ensures RecordOk(Disconnected(r))
  {
    var r' := Disconnected(r);
    forall i | 0 <= i < |r.slots|
      ensures SlotOk(r'.slots[i], false)
    {
      assert SlotOk(r.slots[i], r.connected);
    }
  }

  lemma UnsubscribedOk(r: Record, topic: string)
    requires RecordOk(r) && r.connected
    ensures RecordOk(Unsubscribed(r, topic))
  {
    var r' := Unsubscribed(r, topic);
    forall i | 0 <= i < |r.slots|
      ensures SlotOk(r'.slots[i], true)
    {
      assert SlotOk(r.slots[i], true);
    }
    forall b | 0 <= b < |r.slots|
      ensures r'.slots[b].stored == []
    {
      assert SlotOk(r'.slots[b], true);
    }
  }

  lemma SubscribedOk(r: Record, topic: string, sf: int)
    requires RecordOk(r) && r.connected
    ensures RecordOk(Subscribed(r, topic, sf))
  {
    var r' := Subscribed(r, topic, sf);
    forall i | 0 <= i < |r'.slots|
      ensures SlotOk(r'.slots[i], true)
    {
      assert i < |r.slots| ==> SlotOk(r.slots[i], true);
    }
    forall b | 0 <= b < |r'.slots|
      ensures r'.slots[b].stored == []
    {
      assert SlotOk(r'.slots[b], true);
    }
  }

  // ---------- Every step keeps the invariant ----------

  lemma InitInv(tcp: int, udp: int)
    requires 2 < tcp && 2 < udp && tcp != udp
    ensures Inv(Init(tcp, udp))
  {
  }

  /** An action on a live socket finds its own client. */
  lemma LiveOwner(st: State, socket: int) returns (k: nat)
    requires Inv(st) && socket in st.watched - Reserved(st)
    ensures k == FirstBySocket(st.records, socket) && k < |st.records|
    ensures st.records[k].connected && st.records[k].socket == socket
  {
    assert Live(st.records, socket);
    k :| k < |st.records| && st.records[k].connected && st.records[k].socket == socket;
  }

  lemma StillLive(records: seq<Record>, k: nat, r: Record, s: int)
    requires Live(records, s) && k < |records| && (records[k].socket != s || (r.connected && r.socket == s))
    ensures Live(records[k := r], s)
  {
    var i :| 0 <= i < |records| && records[i].connected && records[i].socket == s;
    assert records[k := r][i].connected && records[k := r][i].socket == s;
  }

  lemma Unnamed(r: Record)
    ensures Unsubscribed(r, "") == r
  {
  }

  /** An unsubscription reaches the client that sends it, if it changes anything. */
  lemma OwnerHolds(records: seq<Record>, k: nat, topic: string)
    requires SocketsOk(records) && k < |records| && records[k].connected
    ensures UnsubscribedBy(records, records[k].socket, topic) == records[k := Unsubscribed(records[k], topic)]
  {
    var h := FirstHolder(records, records[k].socket, topic);
    if topic == "" {
      Unnamed(records[k]);
      if h < |records| {
        Unnamed(records[h]);
      }
    } else if h < |records| {
      var j := FirstByTopic(records[h].slots, topic);
      assert !Blank(records[h]);
    } else {
      assert !Holds(records[k], records[k].socket, topic);
    }
  }

  /** Replacing the record at k by one that is still there under the same id and socket. */
  lemma ReplacedInv(st: State, st': State, k: nat, r: Record)
    requires Inv(st) && k < |st.records|
    requires st' == st.(records := st.records[k := r])
    requires r.id == st.records[k].id && r.socket == st.records[k].socket
    requires r.connected && st.records[k].connected && RecordOk(r)
    ensures Inv(st')
  {
    forall s | s in st'.watched - Reserved(st')
      ensures Live(st'.records, s)
    {
      StillLive(st.records, k, r, s);
    }
  }

  lemma ActionInv(st: State, e: Event)
    requires Inv(st) && Enabled(st, e) && e.Action?
    ensures Inv(Step(st, e))
  {
    var k := LiveOwner(st, e.socket);
    var r := st.records[k];
    assert RecordOk(r);
    if e.kind == UNSUBSCRIBE {
      UnsubscribedOk(r, e.topic);
      OwnerHolds(st.records, k, e.topic);
      ReplacedInv(st, Step(st, e), k, Unsubscribed(r, e.topic));
    } else {
      SubscribedOk(r, e.topic, e.sf);
      ReplacedInv(st, Step(st, e), k, Subscribed(r, e.topic, e.sf));
    }
  }

  lemma OfferedBlank(r: Record, p: Packet)
    requires Blank(r)
    ensures Blank(Offered(r, p))
  {
  }

  lemma OfferedSockets(records: seq<Record>, p: Packet)
    requires SocketsOk(records)
    ensures SocketsOk(OfferedAll(records, p))
  {
    var records' := OfferedAll(records, p);
    forall i, j | 0 <= i < |records| && 0 <= j < |records| && i != j && records'[i].connected
                  && records'[j].socket == records'[i].socket
      ensures i < j && !records'[j].connected && Blank(records'[j])
    {
      assert records[i].connected && records[j].socket == records[i].socket;
      OfferedBlank(records[j], p);
    }
  }

  lemma OfferedLive(records: seq<Record>, p: Packet, s: int)
    ensures Live(OfferedAll(records, p), s) <==> Live(records, s)
  {
    var records' := OfferedAll(records, p);
    if i :| 0 <= i < |records| && records[i].connected && records[i].socket == s {
      assert records'[i].connected && records'[i].socket == s;
    }
    if i :| 0 <= i < |records| && records'[i].connected && records'[i].socket == s {
      assert records[i].connected && records[i].socket == s;
    }
  }

  lemma DatagramInv(st: State, e: Event)
    requires Inv(st) && Enabled(st, e) && e.Datagram?
    ensures Inv(Step(st, e))
  {
    var st' := Step(st, e);
    OfferedSockets(st.records, e.packet);
    forall i | 0 <= i < |st.records|
      ensures RecordOk(st'.records[i])
    {
      OfferedOk(st.records[i], e.packet);
    }
    forall s | s in st'.watched - Reserved(st')
      ensures Live(st'.records, s)
    {
      OfferedLive(st.records, e.packet, s);
    }
  }

  /** Recomputing fdmax loses no watched descriptor. */
  lemma HighestKeeps(watched: set<int>, fdmax: int, tcp: int)
    requires tcp in watched && 2 < tcp <= fdmax
    ensures tcp <= Highest(watched, fdmax, fdmax) <= fdmax
    ensures forall s :: s in watched && s <= fdmax ==> s <= Highest(watched, fdmax, fdmax)
  {
  }

  lemma HangUpSockets(records: seq<Record>, k: nat)
    requires SocketsOk(records) && k < |records| && records[k].connected
    ensures SocketsOk(records[k := Disconnected(records[k])])
  {
  }

  lemma HangUpInv(st: State, e: Event)
    requires Inv(st) && Enabled(st, e) && e.HangUp?
    ensures Inv(Step(st, e))
  {
    var st' := Step(st, e);
    var k := LiveOwner(st, e.socket);
    assert RecordOk(st.records[k]);
    DisconnectedOk(st.records[k]);
    HangUpSockets(st.records, k);
    forall s | s in st'.watched - Reserved(st')
      ensures Live(st'.records, s)
    {
      StillLive(st.records, k, Disconnected(st.records[k]), s);
    }
    HighestKeeps(st.watched - {e.socket}, st.fdmax, st.tcp);
  }

  /** The part of AcceptInv that concerns the descriptors; k is the record that is now connected. */
  lemma AcceptWatch(st: State, st': State, socket: int, k: nat)
    requires WatchOk(st) && socket > 2 && socket !in st.watched
    requires k < |st'.records| && |st.records| <= |st'.records| <= |st.records| + 1
    requires st'.tcp == st.tcp && st'.udp == st.udp && st'.watched == st.watched + {socket}
    requires st'.fdmax == if socket > st.fdmax then socket else st.fdmax
    requires st'.records[k].connected && st'.records[k].socket == socket
    requires k < |st.records| ==> !st.records[k].connected
    requires forall i :: 0 <= i < |st'.records| && i != k ==> i < |st.records| && st'.records[i] == st.records[i]
    ensures WatchOk(st')
  {
    forall s | s in st'.watched - Reserved(st')
      ensures Live(st'.records, s)
    {
      if s == socket {
        assert st'.records[k].connected && st'.records[k].socket == s;
      } else {
        assert Live(st.records, s);
        var i :| 0 <= i < |st.records| && st.records[i].connected && st.records[i].socket == s;
        assert st'.records[i].connected && st'.records[i].socket == s;
      }
    }
  }

  /** The part that concerns the sockets. */
  lemma AcceptSockets(st: State, e: Event, r: Record)
    requires Inv(st) && Enabled(st, e) && Harmless(st, e) && e.Accept? && r.connected && r.socket == e.socket
    requires var k := FirstById(st.records, e.id); k < |st.records| ==> !st.records[k].connected
    ensures var k := FirstById(st.records, e.id);
            SocketsOk(if k == |st.records| then st.records + [r] else st.records[k := r])
  {
    var k := FirstById(st.records, e.id);
    var records' := if k == |st.records| then st.records + [r] else st.records[k := r];
    forall i, j | 0 <= i < |records'| && 0 <= j < |records'| && i != j && records'[i].connected
                  && records'[j].socket == records'[i].socket
      ensures i < j && !records'[j].connected && Blank(records'[j])
    {
      assert i == k ==> st.records[j].socket == e.socket;
    }
  }

  lemma AcceptInv(st: State, e: Event)
    requires Inv(st) && Enabled(st, e) && Harmless(st, e) && e.Accept?
    ensures Inv(Step(st, e))
  {
    var st' := Step(st, e);
    var k := FirstById(st.records, e.id);
    if k < |st.records| && st.records[k].connected {
      assert st.watched - {e.socket} == st.watched;
      HighestKeeps(st.watched, if e.socket > st.fdmax then e.socket else st.fdmax, st.tcp);
    } else {
      AcceptSockets(st, e, st'.records[k]);
      AcceptWatch(st, st', e.socket, k);
      assert forall i :: 0 <= i < |st'.records| && i != k ==> st'.records[i] == st.records[i];
      assert RecordOk(st'.records[k]);
    }
  }

  lemma StepInv(st: State, e: Event)
    requires Inv(st) && Enabled(st, e) && Harmless(st, e)
    ensures Inv(Step(st, e))
  {
    match e
    case Accept(_, _) => AcceptInv(st, e);
    case HangUp(_) => HangUpInv(st, e);
    case Action(_, _, _, _) => ActionInv(st, e);
    case Datagram(_) => DatagramInv(st, e);
  }

  /**
   In every reachable state ids and sockets are distinct, a connected client has nothing
   stored, and a disconnected client's store-and-forward queues are allocated.
   */
  lemma {:induction false} ReachableInv(tcp: int, udp: int, run: seq<Event>)
    requires Possible(tcp, udp, run) && HarmlessRun(tcp, udp, run)
    ensures Inv(After(tcp, udp, run))
  {
    if run == [] {
      InitInv(tcp, udp);
    } else {
      var init := run[..|run| - 1];
      ReachableInv(tcp, udp, init);
      StepInv(After(tcp, udp, init), run[|run| - 1]);
    }
  }

  // ---------- How much is allocated ----------

  /** The capacities of a queue that is allocated with ten cells and doubled when it is full. */
  predicate Doubled(capacity: nat) {
    capacity == 10 || (capacity > 10 && capacity % 2 == 0 && Doubled(capacity / 2))
  }

  /** Queues exist for store-and-forward slots of clients that are away, no larger than doubling makes them. */
  predicate QueueOk(s: Slot, connected: bool) {
    if connected || s.sf != 1 then s.capacity == 0
    else Doubled(s.capacity) && (s.capacity == 10 || s.capacity < 2 * |s.stored|)
  }

  ghost predicate QueuesOk(r: Record) {
    forall j :: 0 <= j < |r.slots| ==> QueueOk(r.slots[j], r.connected)
  }

  ghost predicate AllQueuesOk(records: seq<Record>) {
    forall i :: 0 <= i < |records| ==> QueuesOk(records[i])
  }

  lemma StoredQueue(s: Slot, p: Packet)
    requires QueueOk(s, false) && s.sf == 1 && |s.stored| <= s.capacity
    ensures QueueOk(Stored(s, p), false)
  {
    assert 2 * s.capacity / 2 == s.capacity;
  }

  lemma OfferedQueues(r: Record, p: Packet)
    requires RecordOk(r) && QueuesOk(r)
    ensures QueuesOk(Offered(r, p))
  {
    var j := FirstTaker(r.slots, r.connected, p.topic);
    var r' := Offered(r, p);
    if j < |r.slots| && !r.connected {
      assert SlotOk(r.slots[j], false) && QueueOk(r.slots[j], false);
      StoredQueue(r.slots[j], p);
    }
    forall i | 0 <= i < |r'.slots|
      ensures QueueOk(r'.slots[i], r'.connected)
    {
      assert QueueOk(r.slots[i], r.connected);
    }
  }

  lemma DisconnectedQueues(r: Record)
    requires QueuesOk(r)
    ensures QueuesOk(Disconnected(r))
  {
    forall j | 0 <= j < |r.slots|
      ensures QueueOk(Disconnected(r).slots[j], false)
    {
      assert QueueOk(r.slots[j], r.connected);
    }
  }

  lemma UnsubscribedQueues(r: Record, topic: string)
    requires QueuesOk(r)
    ensures QueuesOk(Unsubscribed(r, topic))
  {
    forall j | 0 <= j < |r.slots|
      ensures QueueOk(Unsubscribed(r, topic).slots[j], r.connected)
    {
      assert QueueOk(r.slots[j], r.connected);
    }
  }

  lemma SubscribedQueues(r: Record, topic: string, sf: int)
    requires QueuesOk(r) && r.connected
    ensures QueuesOk(Subscribed(r, topic, sf))
  {
    forall j | 0 <= j < |r.slots|
      ensures QueueOk(Subscribed(r, topic, sf).slots[j], true)
    {
      assert QueueOk(r.slots[j], r.connected);
    }
  }

  lemma ActionQueues(st: State, e: Event)
    requires Inv(st) && Enabled(st, e) && e.Action? && AllQueuesOk(st.records)
    ensures AllQueuesOk(Step(st, e).records)
  {
    var k := LiveOwner(st, e.socket);
    assert QueuesOk(st.records[k]);
    if e.kind == UNSUBSCRIBE {
      OwnerHolds(st.records, k, e.topic);
      UnsubscribedQueues(st.records[k], e.topic);
    } else {
      SubscribedQueues(st.records[k], e.topic, e.sf);
    }
  }

  lemma StepQueues(st: State, e: Event)
    requires Inv(st) && Enabled(st, e) && AllQueuesOk(st.records)
    ensures AllQueuesOk(Step(st, e).records)
  {
    match e
    case Accept(_, _) =>
    case HangUp(socket) =>
      var k := LiveOwner(st, socket);
      DisconnectedQueues(st.records[k]);
    case Action(_, _, _, _) => ActionQueues(st, e);
    case Datagram(p) =>
      forall i | 0 <= i < |st.records|
        ensures QueuesOk(Step(st, e).records[i])
      {
        assert RecordOk(st.records[i]) && QueuesOk(st.records[i]);
        OfferedQueues(st.records[i], p);
      }
  }

  /** After every run: ten cells, or ten doubled so often that more than half of them are in use. */
  lemma {:induction false} ReachableQueues(tcp: int, udp: int, run: seq<Event>)
    requires Possible(tcp, udp, run) && HarmlessRun(tcp, udp, run)
    ensures AllQueuesOk(After(tcp, udp, run).records)
  {
    if run != [] {
      var init := run[..|run| - 1];
      ReachableQueues(tcp, udp, init);
      ReachableInv(tcp, udp, init);
      StepQueues(After(tcp, udp, init), run[|run| - 1]);
    }
  }
}
