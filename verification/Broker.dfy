/**
 The state and the transitions of the publish/subscribe server, as values.

 A run is a sequence of events, one for each descriptor that the dispatch loop serves.
 Sending is recorded in a history; the network delivers what is sent.
 */
module Broker {

  datatype Packet = Packet(topic: string, payload: string)

  /** A subscription: sf is a byte of the client's choosing, 1 asks for store-and-forward. */
  datatype Slot = Slot(sf: int, topic: string, stored: seq<Packet>, capacity: nat)

  /** A client record; a disconnected record keeps its last socket number. */
  datatype Record = Record(id: string, connected: bool, socket: int, slots: seq<Slot>)

  datatype Send = Send(id: string, socket: int, packet: Packet)

  datatype State = State(tcp: int, udp: int, records: seq<Record>, watched: set<int>, fdmax: int,
                         sent: seq<Send>)

  datatype Event =
    | Accept(id: string, socket: int)
    | HangUp(socket: int)
    | Action(socket: int, kind: string, topic: string, sf: int)
    | Datagram(packet: Packet)

  const UNSUBSCRIBE := "unsubscribe"
  const STDIN := 0

  // ---------- Lookups: the first record or slot that fits ----------

  function FirstBySocket(records: seq<Record>, socket: int): (k: nat)
    ensures k <= |records|
    ensures forall i :: 0 <= i < k ==> records[i].socket != socket
    ensures k < |records| ==> records[k].socket == socket
  {
    if records == [] || records[0].socket == socket then 0
    else FirstBySocket(records[1..], socket) + 1
  }

  function FirstById(records: seq<Record>, id: string): (k: nat)
    ensures k <= |records|
    ensures forall i :: 0 <= i < k ==> records[i].id != id
    ensures k < |records| ==> records[k].id == id
  {
    if records == [] || records[0].id == id then 0
    else FirstById(records[1..], id) + 1
  }

  function FirstByTopic(slots: seq<Slot>, topic: string): (j: nat)
    ensures j <= |slots|
    ensures forall i :: 0 <= i < j ==> slots[i].topic != topic
    ensures j < |slots| ==> slots[j].topic == topic
  {
    if slots == [] || slots[0].topic == topic then 0
    else FirstByTopic(slots[1..], topic) + 1
  }

  /** Whether a packet on topic is sent or stored because of this slot. */
  predicate Takes(slot: Slot, connected: bool, topic: string) {
    slot.topic == topic && (connected || slot.sf == 1)
  }

  function FirstTaker(slots: seq<Slot>, connected: bool, topic: string): (j: nat)
    ensures j <= |slots|
    ensures forall i :: 0 <= i < j ==> !Takes(slots[i], connected, topic)
    ensures j < |slots| ==> Takes(slots[j], connected, topic)
  {
    if slots == [] || Takes(slots[0], connected, topic) then 0
    else FirstTaker(slots[1..], connected, topic) + 1
  }

  /** The client with this socket that loses a subscription to topic. */
  predicate Holds(r: Record, socket: int, topic: string) {
    r.socket == socket && FirstByTopic(r.slots, topic) < |r.slots|
  }

  function FirstHolder(records: seq<Record>, socket: int, topic: string): (k: nat)
    ensures k <= |records|
    ensures forall i :: 0 <= i < k ==> !Holds(records[i], socket, topic)
    ensures k < |records| ==> Holds(records[k], socket, topic)
  {
    if records == [] || Holds(records[0], socket, topic) then 0
    else FirstHolder(records[1..], socket, topic) + 1
  }

  // These properties determine the results.

  lemma FirstByIdIs(records: seq<Record>, id: string, k: nat)
    requires k <= |records| && (k < |records| ==> records[k].id == id)
    requires forall i :: 0 <= i < k ==> records[i].id != id
    ensures FirstById(records, id) == k
  {
  }

  lemma FirstBySocketIs(records: seq<Record>, socket: int, k: nat)
    requires k <= |records| && (k < |records| ==> records[k].socket == socket)
    requires forall i :: 0 <= i < k ==> records[i].socket != socket
    ensures FirstBySocket(records, socket) == k
  {
  }

  lemma FirstHolderIs(records: seq<Record>, socket: int, topic: string, k: nat)
    requires k <= |records| && (k < |records| ==> Holds(records[k], socket, topic))
    requires forall i :: 0 <= i < k ==> !Holds(records[i], socket, topic)
    ensures FirstHolder(records, socket, topic) == k
  {
  }

  lemma FirstTakerIs(slots: seq<Slot>, connected: bool, topic: string, k: nat)
    requires k < |slots| && Takes(slots[k], connected, topic)
    requires forall i :: 0 <= i < k ==> !Takes(slots[i], connected, topic)
    ensures FirstTaker(slots, connected, topic) == k
  {
  }

  lemma FirstByTopicIs(slots: seq<Slot>, topic: string, k: nat)
    requires k < |slots| && slots[k].topic == topic
    requires forall i :: 0 <= i < k ==> slots[i].topic != topic
    ensures FirstByTopic(slots, topic) == k
  {
  }

  // ---------- send_tcp ----------

  /** A slot with one more stored packet; a full array doubles first. */
  function Stored(slot: Slot, p: Packet): Slot {
    slot.(stored := slot.stored + [p],
    capacity := if |slot.stored| == slot.capacity then 2 * slot.capacity else slot.capacity)
  }

  function Offered(r: Record, p: Packet): (r': Record)
    ensures |r'.slots| == |r.slots|
  {
    var j := FirstTaker(r.slots, r.connected, p.topic);
    if j < |r.slots| && !r.connected then r.(slots := r.slots[j := Stored(r.slots[j], p)]) else r
  }

  function OfferedAll(records: seq<Record>, p: Packet): (rs: seq<Record>)
    ensures |rs| == |records|
    ensures forall i :: 0 <= i < |rs| ==> rs[i] == Offered(records[i], p)
  {
    seq(|records|, i requires 0 <= i < |records| => Offered(records[i], p))
  }

  function SentNow(r: Record, p: Packet): seq<Send> {
    if r.connected && FirstTaker(r.slots, true, p.topic) < |r.slots| then [Send(r.id, r.socket, p)] else []
  }

  function SentNowAll(records: seq<Record>, p: Packet): seq<Send> {
    if records == [] then [] else SentNowAll(records[..|records| - 1], p) + SentNow(records[|records| - 1], p)
  }

  // ---------- Connections ----------

  function NewRecord(id: string, socket: int): Record {
    Record(id, true, socket, [])
  }

  /** Everything that was stored, slot by slot. */
  function Backlog(slots: seq<Slot>): seq<Packet> {
    if slots == [] then [] else Backlog(slots[..|slots| - 1]) + slots[|slots| - 1].stored
  }

  function ToSends(id: string, socket: int, packets: seq<Packet>): (ds: seq<Send>)
    ensures |ds| == |packets|
    ensures forall i :: 0 <= i < |ds| ==> ds[i] == Send(id, socket, packets[i])
  {
    seq(|packets|, i requires 0 <= i < |packets| => Send(id, socket, packets[i]))
  }

  function Emptied(slots: seq<Slot>): (ss: seq<Slot>)
    ensures |ss| == |slots|
    ensures forall i :: 0 <= i < |ss| ==> ss[i] == slots[i].(stored := [], capacity := 0)
  {
    seq(|slots|, i requires 0 <= i < |slots| => slots[i].(stored := [], capacity := 0))
  }

  function Reconnected(r: Record, socket: int): Record {
    r.(connected := true, socket := socket, slots := Emptied(r.slots))
  }

  function Allocated(slot: Slot): Slot {
    if slot.sf == 1 then slot.(stored := [], capacity := 10) else slot
  }

  function AllocatedAll(slots: seq<Slot>): (ss: seq<Slot>)
    ensures |ss| == |slots|
    ensures forall i :: 0 <= i < |ss| ==> ss[i] == Allocated(slots[i])
  {
    seq(|slots|, i requires 0 <= i < |slots| => Allocated(slots[i]))
  }

  function Disconnected(r: Record): Record {
    r.(connected := false, slots := AllocatedAll(r.slots))
  }

  function DisconnectedBy(records: seq<Record>, socket: int): (rs: seq<Record>)
    ensures |rs| == |records|
  {
    var k := FirstBySocket(records, socket);
    if k < |records| then records[k := Disconnected(records[k])] else records
  }

  // ---------- Subscriptions ----------

  function Subscribed(r: Record, topic: string, sf: int): Record {
    r.(slots := r.slots + [Slot(sf, topic, [], 0)])
  }

  function SubscribedBy(records: seq<Record>, socket: int, topic: string, sf: int): (rs: seq<Record>)
    ensures |rs| == |records|
  {
    var k := FirstBySocket(records, socket);
    if k < |records| then records[k := Subscribed(records[k], topic, sf)] else records
  }

  /** The first subscription to topic is renamed to the empty topic. */
  function Unsubscribed(r: Record, topic: string): Record {
    var j := FirstByTopic(r.slots, topic);
    if j < |r.slots| then r.(slots := r.slots[j := r.slots[j].(topic := "")]) else r
  }

  function UnsubscribedBy(records: seq<Record>, socket: int, topic: string): (rs: seq<Record>)
    ensures |rs| == |records|
  {
    var k := FirstHolder(records, socket, topic);
    if k < |records| then records[k := Unsubscribed(records[k], topic)] else records
  }

  // ---------- The descriptor set ----------

  /** The highest watched descriptor above 2 and at most fdmax, or else fdmax itself. */
  function Highest(watched: set<int>, fdmax: int, k: int): (m: int)
    ensures m == fdmax || (2 < m <= k && m in watched)
    ensures (exists s :: s in watched && 2 < s <= k) ==>
              m in watched && 2 < m <= k && forall s :: s in watched && s <= k ==> s <= m
    decreases k
  {
    if k <= 2 then fdmax else if k in watched then k else Highest(watched, fdmax, k - 1)
  }

  // ---------- One event ----------

  function Init(tcp: int, udp: int): State {
    State(tcp, udp, [], {STDIN, tcp, udp}, tcp, [])
  }

  function Accepted(st: State, id: string, socket: int): State {
    var k := FirstById(st.records, id);
    var fdmax := if socket > st.fdmax then socket else st.fdmax;
    if k == |st.records| then
      st.(records := st.records + [NewRecord(id, socket)], watched := st.watched + {socket}, fdmax := fdmax)
    else if st.records[k].connected then
      var watched := st.watched - {socket};
      st.(watched := watched, fdmax := Highest(watched, fdmax, fdmax))
    else
      st.(records := st.records[k := Reconnected(st.records[k], socket)],
      watched := st.watched + {socket},
      fdmax := fdmax,
      sent := st.sent + ToSends(id, socket, Backlog(st.records[k].slots)))
  }

  function Step(st: State, e: Event): State {
    match e
    case Accept(id, socket) => Accepted(st, id, socket)
    case HangUp(socket) =>
      var watched := st.watched - {socket};
      st.(records := DisconnectedBy(st.records, socket), watched := watched,
      fdmax := Highest(watched, st.fdmax, st.fdmax))
    case Action(socket, kind, topic, sf) =>
      if kind == UNSUBSCRIBE then st.(records := UnsubscribedBy(st.records, socket, topic))
      else st.(records := SubscribedBy(st.records, socket, topic, sf))
    case Datagram(p) =>
      st.(records := OfferedAll(st.records, p), sent := st.sent + SentNowAll(st.records, p))
  }

  /** select reports only watched descriptors up to fdmax; accept returns one that is not open. */
  predicate Enabled(st: State, e: Event) {
    match e
    case Accept(_, socket) => st.tcp <= st.fdmax && socket > 2 && socket !in st.watched
    case HangUp(socket) => socket in st.watched - {STDIN, st.tcp, st.udp} && socket <= st.fdmax
    case Action(socket, _, _, sf) =>
      socket in st.watched - {STDIN, st.tcp, st.udp} && socket <= st.fdmax && 0 <= sf < 256
    case Datagram(_) => st.udp <= st.fdmax
  }

  /** No slot has a topic. */
  predicate Blank(r: Record) {
    forall j :: 0 <= j < |r.slots| ==> r.slots[j].topic == ""
  }

  /**
   The environment assumption.  Records of disconnected clients keep their descriptor, so accept
   may return one that is stored in other records.  They must come after the record of the client
   that connects, and hold no topic; a duplicate may use any descriptor.
   */
  predicate Harmless(st: State, e: Event) {
    e.Accept? ==>
      var k := FirstById(st.records, e.id);
      || (k < |st.records| && st.records[k].connected)
      || forall i :: 0 <= i < |st.records| && i != k && st.records[i].socket == e.socket ==>
           k < i && Blank(st.records[i])
  }

  // ---------- Runs ----------

  function After(tcp: int, udp: int, run: seq<Event>): State {
    if run == [] then Init(tcp, udp)
    else Step(After(tcp, udp, run[..|run| - 1]), run[|run| - 1])
  }

  /** The runs that can happen on a machine: the two listening sockets are distinct and above 2. */
  predicate Possible(tcp: int, udp: int, run: seq<Event>) {
    if run == [] then 2 < tcp && 2 < udp && tcp != udp
    else
      && Possible(tcp, udp, run[..|run| - 1])
      && Enabled(After(tcp, udp, run[..|run| - 1]), run[|run| - 1])
  }

  /** The runs in which descriptors are reused harmlessly, if at all. */
  predicate HarmlessRun(tcp: int, udp: int, run: seq<Event>) {
    run == [] ||
    (HarmlessRun(tcp, udp, run[..|run| - 1]) && Harmless(After(tcp, udp, run[..|run| - 1]), run[|run| - 1]))
  }

  lemma {:induction false} PrefixPossible(tcp: int, udp: int, run: seq<Event>, n: nat)
    requires n <= |run| && Possible(tcp, udp, run) && HarmlessRun(tcp, udp, run)
    ensures Possible(tcp, udp, run[..n]) && HarmlessRun(tcp, udp, run[..n])
  {
    if n == |run| {
      assert run[..n] == run;
    } else {
      PrefixPossible(tcp, udp, run[..|run| - 1], n);
      assert run[..|run| - 1][..n] == run[..n];
    }
  }
}
