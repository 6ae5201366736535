/**
 The environment assumption of the delivery theorem is exact.  If accept returns a descriptor
 that is stored in another record in any other way than Broker.Harmless allows, a continuation
 follows in which nothing else goes wrong and a packet that is owed is not delivered.
 */
module DescriptorReuse {
  import opened Broker
  import opened BrokerInvariant
  import opened Delivery
  import opened DeliveryLimits

  // ---------- What the theorem promises of every continuation ----------

  /** The events from this one on are harmless. */
  predicate HarmlessSince(tcp: int, udp: int, run: seq<Event>, since: nat) {
    |run| <= since ||
    (HarmlessSince(tcp, udp, run[..|run| - 1], since)
     && Harmless(After(tcp, udp, run[..|run| - 1]), run[|run| - 1]))
  }

  /** Whatever follows, as long as it is harmless: sent followed by stored is what is owed. */
  ghost predicate KeepsDelivering(tcp: int, udp: int, start: seq<Event>) {
    forall run, id, topic ::
      start <= run && Possible(tcp, udp, run) && HarmlessSince(tcp, udp, run, |start|) && topic != "" ==>
        Delivered(After(tcp, udp, run), id, topic) == LedgerAfter(run, id, topic).owed
  }

  lemma {:induction false} HarmlessAltogether(tcp: int, udp: int, run: seq<Event>, since: nat)
    requires since <= |run| && HarmlessRun(tcp, udp, run[..since]) && HarmlessSince(tcp, udp, run, since)
    ensures HarmlessRun(tcp, udp, run)
  {
    if since == |run| {
      assert run[..since] == run;
    } else {
      var init := run[..|run| - 1];
      assert init[..since] == run[..since];
      HarmlessAltogether(tcp, udp, init, since);
    }
  }

  /** One more event of a continuation. */
  lemma Continue(tcp: int, udp: int, run: seq<Event>, since: nat, e: Event)
    requires since <= |run| && Possible(tcp, udp, run) && HarmlessSince(tcp, udp, run, since)
    requires Enabled(After(tcp, udp, run), e) && Harmless(After(tcp, udp, run), e)
    ensures Possible(tcp, udp, run + [e]) && HarmlessSince(tcp, udp, run + [e], since)
    ensures After(tcp, udp, run + [e]) == Step(After(tcp, udp, run), e)
  {
    assert (run + [e])[..|run + [e]| - 1] == run;
  }

  lemma LedgerNext(run: seq<Event>, e: Event, id: string, topic: string)
    ensures LedgerAfter(run + [e], id, topic) == LedgerStep(LedgerAfter(run, id, topic), e, id, topic)
  {
    assert (run + [e])[..|run + [e]| - 1] == run;
  }

  // ---------- Names and numbers that are not in use ----------

  function NewTopic(slots: seq<Slot>): (topic: string)
    ensures topic != "" && forall j :: 0 <= j < |slots| ==> |slots[j].topic| < |topic|
  {
    if slots == [] then "x"
    else
      var topic, last := NewTopic(slots[..|slots| - 1]), slots[|slots| - 1].topic;
      if |last| < |topic| then topic else last + "x"
  }

  /** A descriptor above all those that are watched or stored. */
  function Beyond(st: State, records: seq<Record>): (s: int)
    ensures s > 2 && s > st.fdmax && s > st.udp && forall i :: 0 <= i < |records| ==> records[i].socket < s
  {
    if records == [] then
      var high := if st.fdmax > st.udp then st.fdmax else st.udp;
      if high > 2 then high + 1 else 3
    else
      var s, last := Beyond(st, records[..|records| - 1]), records[|records| - 1].socket;
      if last < s then s else last + 1
  }

  lemma BeyondIsUnwatched(st: State)
    requires WatchOk(st)
    ensures Beyond(st, st.records) !in st.watched
  {
  }

  // ---------- After the client has connected ----------

  /** The client called id has just connected on socket and is found at k. */
  ghost predicate Connects(st: State, id: string, socket: int, k: nat) {
    && WatchOk(st) && DistinctIds(st.records)
    && k < |st.records| && st.records[k].id == id && st.records[k].connected && st.records[k].socket == socket
    && socket in st.watched - Reserved(st) && socket <= st.fdmax
  }

  lemma AcceptConnects(st: State, e: Event, id: string, topic: string, l: Ledger)
    requires Inv(st) && Enabled(st, e) && e.Accept? && Agrees(st, l, id, topic)
    requires var k := FirstById(st.records, e.id); k < |st.records| ==> !st.records[k].connected
    ensures Connects(Step(st, e), e.id, e.socket, FirstById(st.records, e.id))
    ensures Agrees(Step(st, e), LedgerStep(l, e, id, topic), id, topic)
  {
    var st' := Step(st, e);
    var k := FirstById(st.records, e.id);
    AcceptWatch(st, st', e.socket, k);
    AcceptAgrees(st, l, e, id, topic);
  }

  // ---------- A record before the client's has its descriptor ----------

  /** A duplicate connection on a high descriptor makes select watch everything again. */
  lemma DuplicateRaises(st: State, id: string, socket: int, k: nat)
    requires Connects(st, id, socket, k)
    ensures var e := Accept(id, Beyond(st, st.records));
            && Enabled(st, e) && Harmless(st, e)
            && Step(st, e) == st.(fdmax := Step(st, e).fdmax)
            && st.udp <= Step(st, e).fdmax && socket <= Step(st, e).fdmax
  {
    var big := Beyond(st, st.records);
    BeyondIsUnwatched(st);
    FirstByIdIs(st.records, id, k);
    assert st.watched - {big} == st.watched;
    assert st.udp in st.watched && 2 < st.udp <= big;
  }

  lemma NothingSent(st: State, id: string, k: nat, p: Packet)
    requires DistinctIds(st.records) && k == FirstById(st.records, id) && k < |st.records|
    requires FirstTaker(st.records[k].slots, true, p.topic) == |st.records[k].slots|
    ensures SentTo(st.sent + SentNowAll(st.records, p), id, p.topic) == SentTo(st.sent, id, p.topic)
  {
    SentNowTo(st.records, p, id, p.topic);
    SentToAppend(st.sent, SentNowAll(st.records, p), id, p.topic);
  }

  /** A publish on a topic that the connected client has no slot for does not concern it. */
  lemma PublishPassesBy(st: State, id: string, k: nat, p: Packet)
    requires DistinctIds(st.records) && k < |st.records| && st.records[k].id == id && st.records[k].connected
    requires forall j :: 0 <= j < |st.records[k].slots| ==> st.records[k].slots[j].topic != p.topic
    ensures Delivered(Step(st, Datagram(p)), id, p.topic) == Delivered(st, id, p.topic)
  {
    var records' := OfferedAll(st.records, p);
    FirstByIdIs(st.records, id, k);
    SameIds(st.records, records', id);
    assert records'[k] == st.records[k];
    assert FirstTaker(st.records[k].slots, true, p.topic) == |st.records[k].slots|;
    NothingSent(st, id, k, p);
  }

  /** The subscription lands in another record. */
  lemma SubscriptionAstray(st: State, id: string, socket: int, k: nat, topic: string)
    requires DistinctIds(st.records) && k < |st.records| && st.records[k].id == id
    requires FirstBySocket(st.records, socket) < k
    ensures var records' := SubscribedBy(st.records, socket, topic, 1);
            && Step(st, Action(socket, "subscribe", topic, 1)) == st.(records := records')
            && records'[k] == st.records[k] && DistinctIds(records')
            && FirstById(records', id) == k == FirstById(st.records, id)
  {
    assert |"subscribe"| != |UNSUBSCRIBE|;
    FirstByIdIs(st.records, id, k);
    SameIds(st.records, SubscribedBy(st.records, socket, topic, 1), id);
  }

  /** So a packet on the topic is neither sent to the client nor stored for it. */
  lemma PacketAstray(st: State, id: string, socket: int, k: nat, p: Packet)
    requires DistinctIds(st.records) && k < |st.records| && st.records[k].id == id && st.records[k].connected
    requires FirstBySocket(st.records, socket) < k
    requires forall j :: 0 <= j < |st.records[k].slots| ==> st.records[k].slots[j].topic != p.topic
    ensures var st1 := Step(st, Action(socket, "subscribe", p.topic, 1));
            Delivered(Step(st1, Datagram(p)), id, p.topic) == Delivered(st, id, p.topic)
  {
    SubscriptionAstray(st, id, socket, k, p.topic);
    var st1 := st.(records := SubscribedBy(st.records, socket, p.topic, 1));
    PublishPassesBy(st1, id, k, p);
    assert Delivered(st1, id, p.topic) == Delivered(st, id, p.topic);
  }

  lemma OwedAstray(l: Ledger, e1: Event, e2: Event, e3: Event, id: string, topic: string)
    requires l.known && l.online && e1.Accept? && e1.id == id && e3.Datagram? && e3.packet.topic == topic
    requires e2 == Action(l.socket, "subscribe", topic, 1)
    ensures LedgerStep(LedgerStep(LedgerStep(l, e1, id, topic), e2, id, topic), e3, id, topic).owed != l.owed
  {
    assert |"subscribe"| != |UNSUBSCRIBE|;
  }

  /** Three more events. */
  lemma ContinueThrice(tcp: int, udp: int, run: seq<Event>, e1: Event, e2: Event, e3: Event)
      returns (full: seq<Event>)
    requires Possible(tcp, udp, run)
    requires var st := After(tcp, udp, run);
             && Enabled(st, e1) && Harmless(st, e1)
             && Enabled(Step(st, e1), e2) && Harmless(Step(st, e1), e2)
             && Enabled(Step(Step(st, e1), e2), e3) && Harmless(Step(Step(st, e1), e2), e3)
    ensures run <= full && Possible(tcp, udp, full) && HarmlessSince(tcp, udp, full, |run|)
    ensures After(tcp, udp, full) == Step(Step(Step(After(tcp, udp, run), e1), e2), e3)
    ensures forall id, topic ::
              LedgerAfter(full, id, topic)
              == LedgerStep(LedgerStep(LedgerStep(LedgerAfter(run, id, topic), e1, id, topic), e2, id, topic), e3, id, topic)
  {
    Continue(tcp, udp, run, |run|, e1);
    Continue(tcp, udp, run + [e1], |run|, e2);
    Continue(tcp, udp, run + [e1] + [e2], |run|, e3);
    full := run + [e1] + [e2] + [e3];
    forall id, topic
      ensures LedgerAfter(full, id, topic)
           == LedgerStep(LedgerStep(LedgerStep(LedgerAfter(run, id, topic), e1, id, topic), e2, id, topic), e3, id, topic)
    {
      LedgerNext(run, e1, id, topic);
      LedgerNext(run + [e1], e2, id, topic);
      LedgerNext(run + [e1] + [e2], e3, id, topic);
    }
  }

  lemma EarlierRecordHarms(tcp: int, udp: int, run: seq<Event>, id: string, socket: int, k: nat, topic: string)
      returns (full: seq<Event>)
    requires Possible(tcp, udp, run) && Connects(After(tcp, udp, run), id, socket, k)
    requires FirstBySocket(After(tcp, udp, run).records, socket) < k
    requires topic == NewTopic(After(tcp, udp, run).records[k].slots)
    requires Agrees(After(tcp, udp, run), LedgerAfter(run, id, topic), id, topic)
    ensures run <= full && Possible(tcp, udp, full) && HarmlessSince(tcp, udp, full, |run|)
    ensures Delivered(After(tcp, udp, full), id, topic) != LedgerAfter(full, id, topic).owed
  {
    var st := After(tcp, udp, run);
    var p := Packet(topic, "");
    var e1, e2, e3 := Accept(id, Beyond(st, st.records)), Action(socket, "subscribe", topic, 1), Datagram(p);
    DuplicateRaises(st, id, socket, k);
    var raised := Step(st, e1);
    SubscriptionAstray(raised, id, socket, k, topic);
    PacketAstray(raised, id, socket, k, p);
    full := ContinueThrice(tcp, udp, run, e1, e2, e3);
    FirstByIdIs(st.records, id, k);
    OwedAstray(LedgerAfter(run, id, topic), e1, e2, e3, id, topic);
  }

  // ---------- Another record has its descriptor, and a topic ----------

  /** Only slots have been renamed, and the record at j has stored what it had. */
  ghost predicate Renamed(st: State, st': State, j: nat) {
    && st' == st.(records := st'.records) && |st'.records| == |st.records| && j < |st.records|
    && (forall i :: 0 <= i < |st.records| ==>
          && st'.records[i].id == st.records[i].id
          && st'.records[i].connected == st.records[i].connected
          && st'.records[i].socket == st.records[i].socket)
    && Backlog(st'.records[j].slots) == Backlog(st.records[j].slots)
  }

  lemma {:induction false} BacklogRenamed(slots: seq<Slot>, n: nat)
    requires n < |slots|
    ensures Backlog(slots[n := slots[n].(topic := "")]) == Backlog(slots)
  {
    var last := |slots| - 1;
    var slots' := slots[n := slots[n].(topic := "")];
    if n == last {
      assert slots'[..last] == slots[..last];
    } else {
      BacklogRenamed(slots[..last], n);
      assert slots'[..last] == slots[..last][n := slots[n].(topic := "")];
    }
  }

  lemma UnsubscribeRenames(st: State, socket: int, topic: string, j: nat)
    requires j < |st.records|
    ensures var st' := Step(st, Action(socket, UNSUBSCRIBE, topic, 0));
            Renamed(st, st', j) && st'.records == UnsubscribedBy(st.records, socket, topic)
  {
    var r := st.records[j];
    var n := FirstByTopic(r.slots, topic);
    if n < |r.slots| {
      BacklogRenamed(r.slots, n);
    }
  }

  /** An unsubscription gets on: the holder that it finds has one slot less, or is not found again. */
  lemma UnsubscribeAdvances(records: seq<Record>, socket: int, topic: string)
    requires topic != "" && FirstHolder(records, socket, topic) < |records|
    ensures var h := FirstHolder(records, socket, topic);
            var records' := UnsubscribedBy(records, socket, topic);
            && h <= FirstHolder(records', socket, topic)
            && |Flags(records'[h].slots, topic)| < |Flags(records[h].slots, topic)|
  {
    var h := FirstHolder(records, socket, topic);
    var records' := UnsubscribedBy(records, socket, topic);
    FlagsRenamed(records[h].slots, FirstByTopic(records[h].slots, topic), topic);
    assert forall i :: 0 <= i < h ==> records'[i] == records[i];
  }

  /** How many slots for topic the first holder has. */
  function Holding(records: seq<Record>, socket: int, topic: string): nat {
    var h := FirstHolder(records, socket, topic);
    if h < |records| then |Flags(records[h].slots, topic)| else 0
  }

  lemma DropOne(st: State, socket: int, topic: string, j: nat)
    requires topic != "" && j < |st.records| && FirstHolder(st.records, socket, topic) < |st.records|
    requires Enabled(st, Action(socket, UNSUBSCRIBE, topic, 0))
    ensures var st' := Step(st, Action(socket, UNSUBSCRIBE, topic, 0));
            var h, h' := FirstHolder(st.records, socket, topic), FirstHolder(st'.records, socket, topic);
            && Enabled(st', Action(socket, UNSUBSCRIBE, topic, 0)) && Renamed(st, st', j)
            && (h < h' || (h == h' && Holding(st'.records, socket, topic) < Holding(st.records, socket, topic)))
  {
    UnsubscribeRenames(st, socket, topic, j);
    UnsubscribeAdvances(st.records, socket, topic);
  }

  lemma RenamedTwice(a: State, b: State, c: State, j: nat)
    requires Renamed(a, b, j) && Renamed(b, c, j)
    ensures Renamed(a, c, j)
  {
  }

  /** The client unsubscribes until no record with its descriptor has a slot for the topic. */
  lemma {:induction false} DropAll(tcp: int, udp: int, run: seq<Event>, since: nat, socket: int, topic: string,
                                   id: string, j: nat)
      returns (full: seq<Event>)
    requires since <= |run| && Possible(tcp, udp, run) && HarmlessSince(tcp, udp, run, since) && topic != ""
    requires Enabled(After(tcp, udp, run), Action(socket, UNSUBSCRIBE, topic, 0))
    requires j < |After(tcp, udp, run).records| && !LedgerAfter(run, id, topic).online
    ensures run <= full && Possible(tcp, udp, full) && HarmlessSince(tcp, udp, full, since)
    ensures Renamed(After(tcp, udp, run), After(tcp, udp, full), j)
    ensures LedgerAfter(full, id, topic) == LedgerAfter(run, id, topic)
    ensures var records := After(tcp, udp, full).records; FirstHolder(records, socket, topic) == |records|
    decreases |After(tcp, udp, run).records| - FirstHolder(After(tcp, udp, run).records, socket, topic),
              Holding(After(tcp, udp, run).records, socket, topic)
  {
    var st := After(tcp, udp, run);
    if FirstHolder(st.records, socket, topic) == |st.records| {
      return run;
    }
    var e := Action(socket, UNSUBSCRIBE, topic, 0);
    DropOne(st, socket, topic, j);
    Continue(tcp, udp, run, since, e);
    LedgerNext(run, e, id, topic);
    full := DropAll(tcp, udp, run + [e], since, socket, topic, id, j);
    RenamedTwice(st, Step(st, e), After(tcp, udp, full), j);
  }

  /** The client at j returns on an unused descriptor: it is sent all that was stored, whatever the slots are called. */
  lemma ReturnsWithoutTopic(before: State, st: State, j: nat, id: string, socket: int, topic: string)
    requires Renamed(before, st, j) && DistinctIds(before.records) && before.records[j].id == id
    requires !before.records[j].connected && RecordOk(before.records[j])
    ensures var st' := Step(st, Accept(id, socket));
            && FirstById(st.records, id) == j
            && st'.records == st.records[j := Reconnected(st.records[j], socket)]
            && Delivered(st', id, topic) == Delivered(before, id, topic)
  {
    var r := st.records[j];
    var st' := Step(st, Accept(id, socket));
    var flush := ToSends(id, socket, Backlog(r.slots));
    FirstByIdIs(before.records, id, j);
    FirstByIdIs(st.records, id, j);
    FirstByIdIs(st'.records, id, j);
    SentToAppend(st.sent, flush, id, topic);
    FlushMoves(before.records[j], id, socket, id, topic);
    NothingWaits(Emptied(r.slots), topic);
  }

  lemma OwedAfterReturn(l: Ledger, e1: Event, e2: Event, id: string, topic: string)
    requires l.known && !l.online && l.flags != [] && e1.Accept? && e1.id == id
    requires e2.Datagram? && e2.packet.topic == topic
    ensures LedgerStep(LedgerStep(l, e1, id, topic), e2, id, topic).owed != l.owed
  {
  }

  /** The client at j returns and misses a packet. */
  lemma PacketMissed(before: State, st: State, j: nat, id: string, socket: int, topic: string)
    requires Renamed(before, st, j) && DistinctIds(before.records) && before.records[j].id == id
    requires !before.records[j].connected && RecordOk(before.records[j]) && before.records[j].socket == socket
    requires WatchOk(before) && FirstHolder(st.records, socket, topic) == |st.records|
    ensures var e1, e2 := Accept(id, Beyond(st, st.records)), Datagram(Packet(topic, ""));
            && Enabled(st, e1) && Harmless(st, e1) && Enabled(Step(st, e1), e2)
            && Delivered(Step(Step(st, e1), e2), id, topic) == Delivered(before, id, topic)
  {
    var big := Beyond(st, st.records);
    var st' := Step(st, Accept(id, big));
    ReturnsWithoutTopic(before, st, j, id, big, topic);
    assert !Holds(st.records[j], socket, topic);
    assert DistinctIds(st'.records);
    PublishPassesBy(st', id, j, Packet(topic, ""));
  }

  lemma ContinueTwice(tcp: int, udp: int, run: seq<Event>, since: nat, e1: Event, e2: Event) returns (full: seq<Event>)
    requires since <= |run| && Possible(tcp, udp, run) && HarmlessSince(tcp, udp, run, since)
    requires var st := After(tcp, udp, run);
             && Enabled(st, e1) && Harmless(st, e1)
             && Enabled(Step(st, e1), e2) && Harmless(Step(st, e1), e2)
    ensures run <= full && Possible(tcp, udp, full) && HarmlessSince(tcp, udp, full, since)
    ensures After(tcp, udp, full) == Step(Step(After(tcp, udp, run), e1), e2)
    ensures forall id, topic ::
              LedgerAfter(full, id, topic) == LedgerStep(LedgerStep(LedgerAfter(run, id, topic), e1, id, topic), e2, id, topic)
  {
    Continue(tcp, udp, run, since, e1);
    Continue(tcp, udp, run + [e1], since, e2);
    full := run + [e1] + [e2];
    forall id, topic
      ensures LedgerAfter(full, id, topic)
           == LedgerStep(LedgerStep(LedgerAfter(run, id, topic), e1, id, topic), e2, id, topic)
    {
      LedgerNext(run, e1, id, topic);
      LedgerNext(run + [e1], e2, id, topic);
    }
  }

  /** The client called id is away; the one with its descriptor takes its subscriptions to topic away from it. */
  lemma TopicRecordHarms(tcp: int, udp: int, run: seq<Event>, owner: string, socket: int, k: nat,
                         id: string, j: nat, topic: string)
      returns (full: seq<Event>)
    requires Possible(tcp, udp, run) && Connects(After(tcp, udp, run), owner, socket, k) && topic != ""
    requires var st := After(tcp, udp, run);
             && j < |st.records| && st.records[j].id == id && st.records[j].socket == socket
             && !st.records[j].connected && RecordOk(st.records[j])
    requires Agrees(After(tcp, udp, run), LedgerAfter(run, id, topic), id, topic)
    requires Flags(After(tcp, udp, run).records[j].slots, topic) != []
    ensures run <= full && Possible(tcp, udp, full) && HarmlessSince(tcp, udp, full, |run|)
    ensures Delivered(After(tcp, udp, full), id, topic) != LedgerAfter(full, id, topic).owed
  {
    var before := After(tcp, udp, run);
    FirstByIdIs(before.records, id, j);
    var dropped := DropAll(tcp, udp, run, |run|, socket, topic, id, j);
    var st := After(tcp, udp, dropped);
    PacketMissed(before, st, j, id, socket, topic);
    var e1, e2 := Accept(id, Beyond(st, st.records)), Datagram(Packet(topic, ""));
    full := ContinueTwice(tcp, udp, dropped, |run|, e1, e2);
    OwedAfterReturn(LedgerAfter(run, id, topic), e1, e2, id, topic);
  }

  // ---------- The exact condition ----------

  /** A record, other than the client's own, in which the descriptor does harm. */
  ghost predicate Harms(records: seq<Record>, k: nat, i: nat, socket: int) {
    i < |records| && i != k && records[i].socket == socket && (i < k || !Blank(records[i]))
  }

  lemma HarmfulState(tcp: int, udp: int, run: seq<Event>, e: Event, i: nat, id: string, topic: string)
    requires Possible(tcp, udp, run + [e]) && HarmlessRun(tcp, udp, run) && e.Accept? && topic != ""
    requires var records := After(tcp, udp, run).records;
             var k := FirstById(records, e.id);
             (k < |records| ==> !records[k].connected) && Harms(records, k, i, e.socket)
    ensures var st, st' := After(tcp, udp, run), After(tcp, udp, run + [e]);
            && Connects(st', e.id, e.socket, FirstById(st.records, e.id))
            && i < |st'.records| && st'.records[i] == st.records[i]
            && RecordOk(st.records[i]) && !st.records[i].connected
            && Agrees(st', LedgerAfter(run + [e], id, topic), id, topic)
  {
    assert (run + [e])[..|run + [e]| - 1] == run;
    ReachableInv(tcp, udp, run);
    RunAgrees(tcp, udp, run, id, topic);
    LedgerNext(run, e, id, topic);
    AcceptConnects(After(tcp, udp, run), e, id, topic, LedgerAfter(run, id, topic));
  }

  lemma Fails(tcp: int, udp: int, start: seq<Event>, full: seq<Event>, id: string, topic: string)
    requires start <= full && Possible(tcp, udp, full) && HarmlessSince(tcp, udp, full, |start|) && topic != ""
    requires Delivered(After(tcp, udp, full), id, topic) != LedgerAfter(full, id, topic).owed
    ensures !KeepsDelivering(tcp, udp, start)
  {
  }

  lemma TopicOf(r: Record) returns (topic: string)
    requires !Blank(r)
    ensures topic != "" && Flags(r.slots, topic) != []
  {
    var j :| 0 <= j < |r.slots| && r.slots[j].topic != "";
    topic := r.slots[j].topic;
    FlagsEmpty(r.slots, topic);
  }

  /** If a record before the client's own has the descriptor, a packet can be lost. */
  lemma EarlierIsHarmful(tcp: int, udp: int, run: seq<Event>, e: Event, i: nat)
    requires Possible(tcp, udp, run + [e]) && HarmlessRun(tcp, udp, run) && e.Accept?
    requires var records := After(tcp, udp, run).records;
             var k := FirstById(records, e.id);
             (k < |records| ==> !records[k].connected) && Harms(records, k, i, e.socket) && i < k
    ensures !KeepsDelivering(tcp, udp, run + [e])
  {
    var k := FirstById(After(tcp, udp, run).records, e.id);
    HarmfulState(tcp, udp, run, e, i, e.id, "x");
    var topic := NewTopic(After(tcp, udp, run + [e]).records[k].slots);
    HarmfulState(tcp, udp, run, e, i, e.id, topic);
    var full := EarlierRecordHarms(tcp, udp, run + [e], e.id, e.socket, k, topic);
    Fails(tcp, udp, run + [e], full, e.id, topic);
  }

  /** If another record with the descriptor has a topic, one can be lost as well. */
  lemma TopicIsHarmful(tcp: int, udp: int, run: seq<Event>, e: Event, i: nat)
    requires Possible(tcp, udp, run + [e]) && HarmlessRun(tcp, udp, run) && e.Accept?
    requires var records := After(tcp, udp, run).records;
             var k := FirstById(records, e.id);
             (k < |records| ==> !records[k].connected) && Harms(records, k, i, e.socket) && !Blank(records[i])
    ensures !KeepsDelivering(tcp, udp, run + [e])
  {
    var records := After(tcp, udp, run).records;
    var k := FirstById(records, e.id);
    var id := records[i].id;
    var topic := TopicOf(records[i]);
    HarmfulState(tcp, udp, run, e, i, id, topic);
    var full := TopicRecordHarms(tcp, udp, run + [e], e.id, e.socket, k, id, i, topic);
    Fails(tcp, udp, run + [e], full, id, topic);
  }

  lemma HarmlessKeeps(tcp: int, udp: int, start: seq<Event>)
    requires HarmlessRun(tcp, udp, start)
    ensures KeepsDelivering(tcp, udp, start)
  {
    forall full, id, topic | start <= full && Possible(tcp, udp, full) && HarmlessSince(tcp, udp, full, |start|)
                             && topic != ""
      ensures Delivered(After(tcp, udp, full), id, topic) == LedgerAfter(full, id, topic).owed
    {
      assert full[..|start|] == start;
      HarmlessAltogether(tcp, udp, full, |start|);
      DeliveredIsOwed(tcp, udp, full, id, topic);
    }
  }

  lemma Harmer(st: State, e: Event) returns (i: nat)
    requires !Harmless(st, e)
    ensures e.Accept?
    ensures var k := FirstById(st.records, e.id);
            (k < |st.records| ==> !st.records[k].connected) && Harms(st.records, k, i, e.socket)
  {
    var k := FirstById(st.records, e.id);
    i :| 0 <= i < |st.records| && i != k && st.records[i].socket == e.socket && !(k < i && Blank(st.records[i]));
  }

  /**
   After a harmless run, an event is harmless exactly when it keeps the delivery theorem:
   whatever happens after it, as long as that is harmless, what is owed is delivered.
   */
  lemma HarmlessIff(tcp: int, udp: int, run: seq<Event>, e: Event)
    requires Possible(tcp, udp, run + [e]) && HarmlessRun(tcp, udp, run)
    ensures Harmless(After(tcp, udp, run), e) <==> KeepsDelivering(tcp, udp, run + [e])
  {
    assert (run + [e])[..|run + [e]| - 1] == run;
    if Harmless(After(tcp, udp, run), e) {
      HarmlessKeeps(tcp, udp, run + [e]);
    } else {
      var records := After(tcp, udp, run).records;
      var i := Harmer(After(tcp, udp, run), e);
      if Blank(records[i]) {
        EarlierIsHarmful(tcp, udp, run, e, i);
      } else {
        TopicIsHarmful(tcp, udp, run, e, i);
      }
    }
  }
}
