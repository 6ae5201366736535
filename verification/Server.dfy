/**
 The publish/subscribe server in place: client records and subscription slots are objects,
 the arrays of slots and stored packets grow by doubling, and each event handler changes
 the state exactly as Broker.Step says.
 */
module Server {
  import opened Broker
  import opened BrokerInvariant

  /** A freshly allocated cell of a packet array. */
  const NO_PACKET := Packet("", "")

  function Cells(n: nat): (cells: seq<Packet>)
    ensures |cells| == n
  {
    seq(n, _ => NO_PACKET)
  }

  /** One subscription of a client; tcps are the allocated cells, the first tcpNo of them in use. */
  class Topic {
    var sf: int
    var topic: string
    var tcps: seq<Packet>
    var tcpNo: nat
    var tcpCapacity: nat
    ghost const owner: Client
    ghost const index: nat

    ghost predicate Shape()
      reads this
    {
      tcpNo <= |tcps| == tcpCapacity
    }

    ghost function View(): Slot
      requires Shape()
      reads this
    {
      Slot(sf, topic, tcps[..tcpNo], tcpCapacity)
    }

    constructor (topic: string, sf: int, ghost owner: Client, ghost index: nat)
      ensures Shape() && View() == Slot(sf, topic, [], 0)
      ensures this.owner == owner && this.index == index
    {
      this.sf, this.topic := sf, topic;
      this.tcps, this.tcpNo, this.tcpCapacity := [], 0, 0;
      this.owner, this.index := owner, index;
    }

    /** Appending a packet; the store is in bounds because a full array has been doubled. */
    method Store(p: Packet)
      requires Shape() && 0 < tcpCapacity
      modifies this
      ensures Shape() && View() == Stored(old(View()), p)
    {
      if tcpNo == tcpCapacity {
        tcpCapacity := 2 * tcpCapacity;
        tcps := tcps + Cells(tcpCapacity - |tcps|);
      }
      tcps := tcps[tcpNo := p];
      tcpNo := tcpNo + 1;
    }

    method Allocate()
      requires Shape()
      modifies this
      ensures Shape() && View() == Allocated(old(View()))
    {
      if sf == 1 {
        tcps, tcpNo, tcpCapacity := Cells(10), 0, 10;
      }
    }

    method Empty()
      requires Shape()
      modifies this
      ensures Shape() && View() == old(View()).(stored := [], capacity := 0)
    {
      tcps, tcpNo, tcpCapacity := [], 0, 0;
    }
  }

  class Client {
    const id: string
    var connected: bool
    var socket: int
    var topics: seq<Topic>
    var topicCapacity: nat

    ghost predicate Valid()
      reads this`topics, this`topicCapacity, topics
    {
      && |topics| <= topicCapacity && 0 < topicCapacity
      && forall j :: 0 <= j < |topics| ==> topics[j].owner == this && topics[j].index == j && topics[j].Shape()
    }

    ghost function Slots(): (slots: seq<Slot>)
      requires Valid()
      reads this`topics, this`topicCapacity, topics
      ensures |slots| == |topics|
      ensures forall j :: 0 <= j < |topics| ==> slots[j] == topics[j].View()
    {
      var ts := topics;
      seq(|ts|, j requires 0 <= j < |ts| && ts[j].Shape() reads ts => ts[j].View())
    }

    ghost function View(): Record
      requires Valid()
      reads this, topics
    {
      Record(id, connected, socket, Slots())
    }

    constructor (id: string, socket: int)
      ensures Valid() && View() == NewRecord(id, socket)
      ensures topics == []
    {
      this.id, this.connected, this.socket := id, true, socket;
      this.topics, this.topicCapacity := [], 20;
    }

    /** The inner loop of send_tcp: whether the packet must be sent to this client now. */
    method Offer(p: Packet) returns (send: bool)
      requires Valid()
      requires !connected ==> forall j :: 0 <= j < |topics| && topics[j].sf == 1 ==> 0 < topics[j].tcpCapacity
      modifies topics
      ensures Valid() && View() == Offered(old(View()), p)
      ensures send <==> SentNow(old(View()), p) != []
    {
      send := false;
      var k := 0;
      while k < |topics|
        invariant 0 <= k <= |topics| && !send
        invariant Valid() && View() == old(View())
        invariant forall j :: 0 <= j < k ==> !Takes(View().slots[j], connected, p.topic)
        invariant !connected ==> forall j :: 0 <= j < |topics| && topics[j].sf == 1 ==> 0 < topics[j].tcpCapacity
      {
        if topics[k].topic == p.topic {
          if !connected && topics[k].sf == 1 {
            FirstTakerIs(View().slots, false, p.topic, k);
            topics[k].Store(p);
            assert View().slots == Offered(old(View()), p).slots;
            return;
          } else if connected {
            FirstTakerIs(View().slots, true, p.topic, k);
            send := true;
            return;
          }
        }
        k := k + 1;
      }
    }

    method AllocateQueues()
      requires Valid()
      modifies topics
      ensures Valid()
      ensures forall i :: 0 <= i < |topics| ==> topics[i].View() == Allocated(old(topics[i].View()))
    {
      var j := 0;
      while j < |topics|
        invariant 0 <= j <= |topics|
        invariant Valid()
        invariant forall i :: 0 <= i < j ==> topics[i].View() == Allocated(old(topics[i].View()))
        invariant forall i :: j <= i < |topics| ==> topics[i].View() == old(topics[i].View())
      {
        topics[j].Allocate();
        j := j + 1;
      }
    }

    /** The client is gone: queues for the packets that it asked to keep. */
    method Disconnect()
      requires Valid()
      modifies this, topics
      ensures Valid() && View() == Disconnected(old(View())) && topics == old(topics)
    {
      connected := false;
      AllocateQueues();
      assert View().slots == Disconnected(old(View())).slots;
    }

    /** The first loop of reconnect_an_old_client. */
    method Flush(ghost slots: seq<Slot>) returns (flushed: seq<Packet>)
      requires Valid() && slots == View().slots
      ensures flushed == Backlog(slots)
    {
      flushed := [];
      var t := 0;
      while t < |topics|
        invariant 0 <= t <= |topics|
        invariant flushed == Backlog(slots[..t])
      {
        var p := 0;
        ghost var before := flushed;
        while p < topics[t].tcpNo
          invariant p <= topics[t].tcpNo
          invariant flushed == before + topics[t].tcps[..p]
        {
          flushed := flushed + [topics[t].tcps[p]];
          p := p + 1;
        }
        assert slots[..t + 1][..t] == slots[..t];
        assert slots[t] == topics[t].View();
        t := t + 1;
      }
      assert slots[..t] == slots;
    }

    method FreeQueues(ghost slots: seq<Slot>)
      requires Valid() && slots == View().slots
      modifies topics
      ensures Valid() && View().slots == Emptied(slots)
    {
      var t := 0;
      while t < |topics|
        invariant 0 <= t <= |topics|
        invariant Valid()
        invariant forall i :: 0 <= i < t ==> topics[i].View() == slots[i].(stored := [], capacity := 0)
        invariant forall i :: t <= i < |topics| ==> topics[i].View() == slots[i]
      {
        topics[t].Empty();
        t := t + 1;
      }
    }

    /** reconnect_an_old_client: what was stored, in the order in which it is sent. */
    method Reconnect(newSocket: int) returns (flushed: seq<Packet>)
      requires Valid()
      modifies this, topics
      ensures Valid() && View() == Reconnected(old(View()), newSocket) && topics == old(topics)
      ensures flushed == Backlog(old(View()).slots)
    {
      ghost var before := View();
      socket := newSocket;
      assert View().slots == before.slots;
      flushed := Flush(before.slots);
      connected := true;
      assert View().slots == before.slots;
      FreeQueues(before.slots);
    }

    /** subscribe_to_topic, for the client that was found. */
    method Subscribe(topic: string, sf: int)
      requires Valid()
      modifies this
      ensures Valid() && View() == Subscribed(old(View()), topic, sf)
      ensures |topics| == |old(topics)| + 1 && topics[..|old(topics)|] == old(topics)
      ensures fresh(topics[|topics| - 1])
    {
      var newTopic := new Topic(topic, sf, this, |topics|);
      if topicCapacity == |topics| {
        topicCapacity := 2 * topicCapacity;
      }
      assert |topics| < topicCapacity;
      topics := topics + [newTopic];
      assert View().slots == Subscribed(old(View()), topic, sf).slots;
    }

    /** The inner loop of the inline unsubscribe: the first slot for topic loses its name. */
    method Unsubscribe(topic: string) returns (ok: bool)
      requires Valid()
      modifies topics
      ensures Valid() && View() == Unsubscribed(old(View()), topic)
      ensures ok <==> FirstByTopic(old(View()).slots, topic) < |old(View()).slots|
    {
      var j := 0;
      while j < |topics| && topics[j].topic != topic
        invariant 0 <= j <= |topics|
        invariant forall i :: 0 <= i < j ==> View().slots[i].topic != topic
      {
        j := j + 1;
      }
      ok := j < |topics|;
      if ok {
        FirstByTopicIs(View().slots, topic, j);
        topics[j].topic := "";
        assert View().slots == Unsubscribed(old(View()), topic).slots;
      }
    }
  }

  ghost predicate RecordReady(r: Record) {
    !r.connected ==> forall j :: 0 <= j < |r.slots| && r.slots[j].sf == 1 ==> 0 < r.slots[j].capacity
  }

  /** Every packet that has to be stored finds an allocated queue. */
  ghost predicate Ready(records: seq<Record>) {
    forall i :: 0 <= i < |records| ==> RecordReady(records[i])
  }

  /** In a reachable state no store is out of bounds. */
  lemma InvIsReady(st: State)
    requires Inv(st)
    ensures Ready(st.records)
  {
    forall i | 0 <= i < |st.records|
      ensures RecordReady(st.records[i])
    {
      assert RecordOk(st.records[i]);
      assert forall j :: 0 <= j < |st.records[i].slots| ==> SlotOk(st.records[i].slots[j], st.records[i].connected);
    }
  }

  /** The records once the first j clients have been offered the packet. */
  ghost function HalfOffered(records: seq<Record>, j: nat, p: Packet): (rs: seq<Record>)
    requires j <= |records|
    ensures |rs| == |records|
  {
    if j == 0 then records else HalfOffered(records, j - 1, p)[j - 1 := Offered(records[j - 1], p)]
  }

  lemma {:induction false} HalfOfferedAt(records: seq<Record>, j: nat, p: Packet)
    requires j <= |records|
    ensures forall i :: 0 <= i < |records| ==>
                          HalfOffered(records, j, p)[i] == if i < j then Offered(records[i], p) else records[i]
  {
    if j > 0 {
      HalfOfferedAt(records, j - 1, p);
    }
  }

  /** What the first j clients have been sent. */
  ghost function HalfSent(records: seq<Record>, j: nat, p: Packet): seq<Send>
    requires j <= |records|
  {
    if j == 0 then [] else HalfSent(records, j - 1, p) + SentNow(records[j - 1], p)
  }

  lemma {:induction false} HalfSentIs(records: seq<Record>, j: nat, p: Packet)
    requires j <= |records|
    ensures HalfSent(records, j, p) == SentNowAll(records[..j], p)
  {
    if j > 0 {
      HalfSentIs(records, j - 1, p);
      assert records[..j][..j - 1] == records[..j - 1];
    }
  }

  lemma FullyOffered(records: seq<Record>, p: Packet)
    ensures HalfOffered(records, |records|, p) == OfferedAll(records, p)
    ensures HalfSent(records, |records|, p) == SentNowAll(records, p)
  {
    HalfOfferedAt(records, |records|, p);
    HalfSentIs(records, |records|, p);
    assert records[..|records|] == records;
  }

  /** What happens to a known client whose new socket is already watched. */
  ghost function Known(st: State, k: nat, socket: int): State
    requires k < |st.records|
  {
    if st.records[k].connected then
      var watched := st.watched - {socket};
      st.(watched := watched, fdmax := Highest(watched, st.fdmax, st.fdmax))
    else
      st.(records := st.records[k := Reconnected(st.records[k], socket)],
      sent := st.sent + ToSends(st.records[k].id, socket, Backlog(st.records[k].slots)))
  }

  lemma AcceptedKnown(st: State, id: string, socket: int)
    ensures var k := FirstById(st.records, id);
            var st1 := st.(watched := st.watched + {socket}, fdmax := if socket > st.fdmax then socket else st.fdmax);
            Accepted(st, id, socket)
            == if k == |st.records| then st1.(records := st.records + [NewRecord(id, socket)]) else Known(st1, k, socket)
  {
    assert st.watched + {socket} - {socket} == st.watched - {socket};
  }

  /** A client whose topics are among those of the server. */
  ghost predicate Owned(c: Client, slots: set<Topic>)
    reads c, slots
  {
    (forall t :: t in c.topics ==> t in slots) && c.Valid()
  }

  ghost predicate AllOwned(clients: seq<Client>, slots: set<Topic>)
    reads clients, slots
  {
    clients == [] || (AllOwned(clients[..|clients| - 1], slots) && Owned(clients[|clients| - 1], slots))
  }

  ghost function RecordsOf(clients: seq<Client>, slots: set<Topic>): (records: seq<Record>)
    requires AllOwned(clients, slots)
    reads clients, slots
    ensures |records| == |clients|
  {
    if clients == [] then []
    else RecordsOf(clients[..|clients| - 1], slots) + [clients[|clients| - 1].View()]
  }

  lemma {:induction false} OwnedAt(clients: seq<Client>, slots: set<Topic>)
    requires AllOwned(clients, slots)
    ensures forall i :: 0 <= i < |clients| ==> Owned(clients[i], slots) && RecordsOf(clients, slots)[i] == clients[i].View()
  {
    if clients != [] {
      OwnedAt(clients[..|clients| - 1], slots);
    }
  }

  lemma OwnedPush(clients: seq<Client>, c: Client, slots: set<Topic>)
    requires AllOwned(clients, slots) && Owned(c, slots)
    ensures AllOwned(clients + [c], slots)
    ensures RecordsOf(clients + [c], slots) == RecordsOf(clients, slots) + [c.View()]
  {
    assert (clients + [c])[..|clients|] == clients;
  }

  lemma {:induction false} Rebuild(clients: seq<Client>, slots: set<Topic>, records: seq<Record>)
    requires |records| == |clients|
    requires forall i :: 0 <= i < |clients| ==> Owned(clients[i], slots) && clients[i].View() == records[i]
    ensures AllOwned(clients, slots) && RecordsOf(clients, slots) == records
  {
    if clients != [] {
      Rebuild(clients[..|clients| - 1], slots, records[..|clients| - 1]);
    }
  }

  lemma NextEvent(tcp: int, udp: int, run: seq<Event>, n: nat)
    requires Possible(tcp, udp, run) && HarmlessRun(tcp, udp, run) && n < |run|
    ensures var st := After(tcp, udp, run[..n]);
            && Inv(st) && Enabled(st, run[n]) && Harmless(st, run[n])
            && After(tcp, udp, run[..n + 1]) == Step(st, run[n])
  {
    PrefixPossible(tcp, udp, run, n + 1);
    assert run[..n + 1][..n] == run[..n];
    ReachableInv(tcp, udp, run[..n]);
  }

  /** The server: the subscribers, the watched descriptors and the history of what was sent. */
  class PubSub {
    const tcpSocket: int
    const udpSocket: int
    var clients: seq<Client>
    var capacity: nat
    var readFds: set<int>
    var fdmax: int
    ghost var sent: seq<Send>
    ghost var slots: set<Topic>  // all topics of all clients

    ghost predicate Valid()
      reads this, clients, slots
    {
      && |clients| <= capacity && 0 < capacity
      && (forall i, j :: 0 <= i < j < |clients| ==> clients[i] != clients[j])
      && AllOwned(clients, slots)
    }

    ghost function Records(): (records: seq<Record>)
      requires Valid()
      reads this, clients, slots
      ensures |records| == |clients|
    {
      RecordsOf(clients, slots)
    }

    ghost function State(): State
      requires Valid()
      reads this, clients, slots
    {
      Broker.State(tcpSocket, udpSocket, Records(), readFds, fdmax, sent)
    }

    constructor (tcpSocket: int, udpSocket: int)
      ensures Valid() && State() == Init(tcpSocket, udpSocket)
      ensures clients == [] && slots == {} && this.tcpSocket == tcpSocket && this.udpSocket == udpSocket
    {
      this.tcpSocket, this.udpSocket := tcpSocket, udpSocket;
      clients, capacity := [], 10;
      readFds, fdmax := {STDIN, tcpSocket, udpSocket}, tcpSocket;
      sent, slots := [], {};
    }

    method OfferClient(k: nat, p: Packet, ghost records: seq<Record>) returns (send: bool)
      requires Valid() && records == Records() && k < |clients| && RecordReady(records[k])
      modifies slots
      ensures Valid() && Records() == records[k := Offered(records[k], p)]
      ensures send <==> SentNow(records[k], p) != []
      ensures clients[k].id == records[k].id && clients[k].socket == records[k].socket
    {
      OwnedAt(clients, slots);
      send := clients[k].Offer(p);
      forall i | 0 <= i < |clients| && i != k
        ensures Owned(clients[i], slots) && clients[i].View() == records[i]
      {
        assert clients[i].View().slots == records[i].slots;
      }
      Rebuild(clients, slots, records[k := clients[k].View()]);
    }

    /** The client at k is offered the packet; a connected client that takes it is sent it. */
    method OfferTo(k: nat, p: Packet, ghost records: seq<Record>)
      requires Valid() && records == Records() && k < |clients| && RecordReady(records[k])
      modifies this`sent, slots
      ensures Valid() && Records() == records[k := Offered(records[k], p)]
      ensures sent == old(sent) + SentNow(records[k], p)
    {
      var send := OfferClient(k, p, records);
      if send {
        sent := sent + [Send(clients[k].id, clients[k].socket, p)];
      }
    }

    method DisconnectClient(k: nat)
      requires Valid() && k < |clients|
      modifies clients[k], slots
      ensures Valid() && Records() == old(Records())[k := Disconnected(old(Records())[k])]
    {
      ghost var records := Records();
      OwnedAt(clients, slots);
      clients[k].Disconnect();
      forall i | 0 <= i < |clients| && i != k
        ensures Owned(clients[i], slots) && clients[i].View() == records[i]
      {
        assert clients[i].View().slots == records[i].slots;
      }
      Rebuild(clients, slots, records[k := clients[k].View()]);
    }

    method ReconnectClient(k: nat, newTcpSocket: int) returns (flushed: seq<Packet>)
      requires Valid() && k < |clients|
      modifies clients[k], slots
      ensures Valid() && Records() == old(Records())[k := Reconnected(old(Records())[k], newTcpSocket)]
      ensures flushed == Backlog(old(Records())[k].slots)
    {
      ghost var records := Records();
      OwnedAt(clients, slots);
      flushed := clients[k].Reconnect(newTcpSocket);
      forall i | 0 <= i < |clients| && i != k
        ensures Owned(clients[i], slots) && clients[i].View() == records[i]
      {
        assert clients[i].View().slots == records[i].slots;
      }
      Rebuild(clients, slots, records[k := clients[k].View()]);
    }

    method UnsubscribeClient(k: nat, topic: string) returns (ok: bool)
      requires Valid() && k < |clients|
      modifies slots
      ensures Valid() && Records() == old(Records())[k := Unsubscribed(old(Records())[k], topic)]
      ensures ok <==> FirstByTopic(old(Records())[k].slots, topic) < |old(Records())[k].slots|
    {
      ghost var records := Records();
      OwnedAt(clients, slots);
      ok := clients[k].Unsubscribe(topic);
      forall i | 0 <= i < |clients| && i != k
        ensures Owned(clients[i], slots) && clients[i].View() == records[i]
      {
        assert clients[i].View().slots == records[i].slots;
      }
      Rebuild(clients, slots, records[k := clients[k].View()]);
    }

    /** get_client: the index of the client with this id, or the number of clients. */
    method GetClient(id: string) returns (j: nat)
      requires Valid()
      ensures j == FirstById(Records(), id)
    {
      OwnedAt(clients, slots);
      j := 0;
      while j < |clients| && clients[j].id != id
        invariant j <= |clients|
        invariant forall i :: 0 <= i < j ==> Records()[i].id != id
      {
        j := j + 1;
      }
      FirstByIdIs(Records(), id, j);
    }

    method FindSocket(socket: int) returns (k: nat)
      requires Valid()
      ensures k == FirstBySocket(Records(), socket)
    {
      OwnedAt(clients, slots);
      k := 0;
      while k < |clients| && clients[k].socket != socket
        invariant k <= |clients|
        invariant forall i :: 0 <= i < k ==> Records()[i].socket != socket
      {
        k := k + 1;
      }
      FirstBySocketIs(Records(), socket, k);
    }

    /** One round of the outer loop of send_tcp. */
    method Round(j: nat, p: Packet, ghost records: seq<Record>, ghost before: seq<Send>)
      requires Valid() && j < |clients| == |records| && Ready(records)
      requires Records() == HalfOffered(records, j, p) && sent == before + HalfSent(records, j, p)
      modifies this`sent, slots
      ensures Valid() && Records() == HalfOffered(records, j + 1, p)
      ensures sent == before + HalfSent(records, j + 1, p)
    {
      HalfOfferedAt(records, j, p);
      assert RecordReady(records[j]);
      OfferTo(j, p, HalfOffered(records, j, p));
      assert sent == before + (HalfSent(records, j, p) + SentNow(records[j], p));
    }

    /** send_tcp. */
    method SendTcp(p: Packet, ghost records: seq<Record>)
      requires Valid() && records == Records() && Ready(records)
      modifies this`sent, slots
      ensures Valid() && Records() == HalfOffered(records, |records|, p)
      ensures sent == old(sent) + HalfSent(records, |records|, p)
    {
      var j := 0;
      ghost var before := sent;
      while j < |clients|
        invariant 0 <= j <= |clients| == |records|
        invariant Valid() && Records() == HalfOffered(records, j, p)
        invariant sent == before + HalfSent(records, j, p)
      {
        Round(j, p, records, before);
        j := j + 1;
      }
    }

    /** A datagram is offered to every client. */
    method OnDatagram(p: Packet)
      requires Valid() && Ready(Records())
      modifies this`sent, slots
      ensures Valid()
      ensures State() == Step(old(State()), Datagram(p))
    {
      ghost var records := Records();
      SendTcp(p, records);
      FullyOffered(records, p);
    }

    /** fdmax becomes the highest watched descriptor. */
    method LowerFdmax()
      modifies this`fdmax
      ensures fdmax == Highest(readFds, old(fdmax), old(fdmax))
    {
      var j := fdmax;
      while j > 2 && j !in readFds
        invariant Highest(readFds, fdmax, fdmax) == Highest(readFds, fdmax, j)
      {
        j := j - 1;
      }
      if j > 2 {
        fdmax := j;
      }
    }

    /** A socket is closed: it is no longer watched. */
    method Unwatch(socket: int)
      requires Valid()
      modifies this`readFds, this`fdmax
      ensures Valid()
      ensures State() == var watched := old(readFds) - {socket};
                         old(State()).(watched := watched, fdmax := Highest(watched, old(fdmax), old(fdmax)))
    {
      readFds := readFds - {socket};
      LowerFdmax();
    }

    /** disconnect_subscriber, and the update of the watched descriptors around it. */
    method OnHangUp(socket: int)
      requires Valid()
      modifies this`readFds, this`fdmax, clients, slots
      ensures Valid()
      ensures State() == Step(old(State()), HangUp(socket))
    {
      var k := FindSocket(socket);
      if k < |clients| {
        DisconnectClient(k);
      }
      Unwatch(socket);
    }

    /** The inline unsubscribe: every client with the socket is tried until one held the topic. */
    method UnsubscribeFromTopic(socket: int, topic: string)
      requires Valid()
      modifies slots
      ensures Valid()
      ensures Records() == UnsubscribedBy(old(Records()), socket, topic)
    {
      ghost var records := Records();
      var k := 0;
      while k < |clients|
        invariant 0 <= k <= |clients|
        invariant Valid() && Records() == records
        invariant forall i :: 0 <= i < k ==> !Holds(records[i], socket, topic)
      {
        OwnedAt(clients, slots);
        if clients[k].socket == socket {
          var ok := UnsubscribeClient(k, topic);
          if ok {
            FirstHolderIs(records, socket, topic, k);
            return;
          }
          assert Records() == records;
        }
        k := k + 1;
      }
      FirstHolderIs(records, socket, topic, k);
    }

    /** subscribe_to_topic for the client at k, and what it leaves of every client. */
    method SubscribeAt(k: nat, topic: string, sf: int, ghost records: seq<Record>)
      requires Valid() && k < |clients| && records == Records()
      modifies this`slots, clients[k]
      ensures forall i :: 0 <= i < |clients| ==>
                            && Owned(clients[i], slots)
                            && clients[i].View() == if i == k then Subscribed(records[k], topic, sf) else records[i]
      ensures fresh(slots - old(slots))
    {
      OwnedAt(clients, slots);
      clients[k].Subscribe(topic, sf);
      slots := slots + {clients[k].topics[|clients[k].topics| - 1]};
      forall i | 0 <= i < |clients| && i != k
        ensures Owned(clients[i], slots) && clients[i].View() == records[i]
      {
        assert clients[i].View().slots == records[i].slots;
      }
    }

    method SubscribeToTopic(k: nat, topic: string, sf: int)
      requires Valid() && k < |clients|
      modifies this`slots, clients[k]
      ensures Valid()
      ensures Records() == old(Records())[k := Subscribed(old(Records())[k], topic, sf)]
      ensures fresh(slots - old(slots))
    {
      ghost var records := Records();
      SubscribeAt(k, topic, sf, records);
      Rebuild(clients, slots, records[k := Subscribed(records[k], topic, sf)]);
    }

    /** An action on a client's socket: anything that is not an unsubscription is a subscription. */
    method OnAction(socket: int, kind: string, topic: string, sf: int)
      requires Valid()
      modifies this`slots, clients, slots
      ensures Valid()
      ensures State() == Step(old(State()), Action(socket, kind, topic, sf))
      ensures fresh(slots - old(slots))
    {
      if kind == UNSUBSCRIBE {
        UnsubscribeFromTopic(socket, topic);
      } else {
        var k := FindSocket(socket);
        if k < |clients| {
          SubscribeToTopic(k, topic, sf);
        }
        assert Records() == SubscribedBy(old(Records()), socket, topic, sf);
      }
    }

    /** add_new_client. */
    method AddNewClient(id: string, socket: int)
      requires Valid()
      modifies this`clients, this`capacity
      ensures Valid()
      ensures Records() == old(Records()) + [NewRecord(id, socket)]
      ensures forall c :: c in clients && c !in old(clients) ==> fresh(c)
    {
      ghost var was := clients;
      var newSubscriber := new Client(id, socket);
      assert newSubscriber !in was;
      OwnedPush(was, newSubscriber, slots);
      if capacity == |clients| {
        capacity := 2 * capacity;
      }
      clients := clients + [newSubscriber];
    }

    method Watch(newTcpSocket: int)
      requires Valid()
      modifies this`readFds, this`fdmax
      ensures Valid()
      ensures State() == old(State()).(watched := old(readFds) + {newTcpSocket},
                                       fdmax := if newTcpSocket > old(fdmax) then newTcpSocket else old(fdmax))
    {
      readFds := readFds + {newTcpSocket};
      if newTcpSocket > fdmax {
        fdmax := newTcpSocket;
      }
    }

    /** An old client returns: it is sent what was stored. */
    method WelcomeBack(k: nat, newTcpSocket: int)
      requires Valid() && k < |clients|
      modifies this`sent, clients[k], slots
      ensures Valid()
      ensures State() == old(State()).(records := old(Records())[k := Reconnected(old(Records())[k], newTcpSocket)],
                                       sent := old(sent) + ToSends(clients[k].id, newTcpSocket,
                                                                        Backlog(old(Records())[k].slots)))
    {
      var flushed := ReconnectClient(k, newTcpSocket);
      sent := sent + ToSends(clients[k].id, newTcpSocket, flushed);
    }

    /** The client at k connects again. */
    method KnownClient(k: nat, newTcpSocket: int)
      requires Valid() && k < |clients|
      modifies this`readFds, this`fdmax, this`sent, clients, slots
      ensures Valid() && State() == Known(old(State()), k, newTcpSocket)
    {
      OwnedAt(clients, slots);
      if clients[k].connected {
        Unwatch(newTcpSocket);  // a duplicate is rejected
      } else {
        WelcomeBack(k, newTcpSocket);
      }
    }

    /** A connection on the listening socket: a new client, a duplicate, or an old client. */
    method OnAccept(id: string, newTcpSocket: int)
      requires Valid()
      modifies this`clients, this`capacity, this`readFds, this`fdmax, this`sent, clients, slots
      ensures Valid()
      ensures State() == Step(old(State()), Accept(id, newTcpSocket))
      ensures forall c :: c in clients && c !in old(clients) ==> fresh(c)
    {
      ghost var st := State();
      Watch(newTcpSocket);
      var k := GetClient(id);
      if k == |clients| {
        AddNewClient(id, newTcpSocket);
      } else {
        KnownClient(k, newTcpSocket);
      }
      AcceptedKnown(st, id, newTcpSocket);
    }

    /** One turn of the dispatch loop. */
    method Handle(e: Event)
      requires Valid() && Ready(Records())
      modifies this, clients, slots
      ensures Valid() && State() == Step(old(State()), e)
      ensures forall c :: c in clients && c !in old(clients) ==> fresh(c)
      ensures fresh(slots - old(slots))
    {
      match e
      case Accept(id, socket) => OnAccept(id, socket);
      case HangUp(socket) => OnHangUp(socket);
      case Action(socket, kind, topic, sf) => OnAction(socket, kind, topic, sf);
      case Datagram(p) => OnDatagram(p);
    }

    /** In reachable states it keeps the invariant, so every store stays in bounds. */
    method Dispatch(e: Event)
      requires Valid() && Inv(State()) && Enabled(State(), e) && Harmless(State(), e)
      modifies this, clients, slots
      ensures Valid() && State() == Step(old(State()), e) && Inv(State())
      ensures forall c :: c in clients && c !in old(clients) ==> fresh(c)
      ensures fresh(slots - old(slots))
    {
      StepInv(State(), e);
      InvIsReady(State());
      Handle(e);
    }

    /** The server and everything that it refers to lie in made. */
    ghost predicate Within(made: set<object>)
      reads this
    {
      this in made && (forall c :: c in clients ==> c in made) && (forall t :: t in slots ==> t in made)
    }

    /** The state of the objects is the state after the run. */
    ghost predicate Serving(run: seq<Event>)
      reads this, clients, slots
    {
      Valid() && State() == After(tcpSocket, udpSocket, run)
    }

    /** The next event of a run; made collects the objects. */
    method DispatchNth(run: seq<Event>, n: nat, ghost made: set<object>) returns (ghost more: set<object>)
      requires Possible(tcpSocket, udpSocket, run) && HarmlessRun(tcpSocket, udpSocket, run)
      requires n < |run| && Serving(run[..n]) && Within(made)
      modifies made
      ensures Serving(run[..n + 1]) && Within(more) && fresh(more - made)
    {
      NextEvent(tcpSocket, udpSocket, run, n);
      Dispatch(run[n]);
      more := made + slots + set c | c in clients;
    }
  }

  /** The server from its start: whatever happens to it, its objects are in the state after the run. */
  method Serve(tcpSocket: int, udpSocket: int, run: seq<Event>) returns (server: PubSub, ghost made: set<object>)
    requires Possible(tcpSocket, udpSocket, run) && HarmlessRun(tcpSocket, udpSocket, run)
    ensures server.tcpSocket == tcpSocket && server.udpSocket == udpSocket && server.Serving(run)
    ensures fresh(made) && server.Within(made)
  {
    server := new PubSub(tcpSocket, udpSocket);
    made := {server};
    for n := 0 to |run|
      invariant server.Serving(run[..n])
      invariant fresh(made) && server.Within(made)
    {
      made := server.DispatchNth(run, n, made);
    }
    assert run[..|run|] == run;
  }
}
