/**
 Exactly-once, in-order delivery.

 For one client id and one topic the ledger is a far simpler machine: no sockets of other
 clients, no queues, no slots, only the flags of the client's subscriptions to the topic
 and the list of packets that are owed to it.  In every run of the server, what was sent to
 the client on the topic, followed by what is stored for it, is exactly what is owed.
 */
module Delivery {
  import opened Broker
  import opened BrokerInvariant

  // ---------- The reference ----------

  datatype Ledger = Ledger(known: bool, online: bool, socket: int, flags: seq<int>, owed: seq<Packet>)

  function LedgerStep(l: Ledger, e: Event, id: string, topic: string): Ledger {
    match e
    case Accept(i, socket) =>
      if i != id || (l.known && l.online) then l
      else l.(known := true, online := true, socket := socket)
    case HangUp(socket) =>
      if l.known && l.online && socket == l.socket then l.(online := false) else l
    case Action(socket, kind, t, sf) =>
      if !(l.known && l.online && socket == l.socket && t == topic) then l
      else if kind != "unsubscribe" then l.(flags := l.flags + [sf])
      else l.(flags := if l.flags == [] then [] else l.flags[1..])
    case Datagram(p) =>
      if p.topic == topic && l.known && (if l.online then l.flags != [] else 1 in l.flags)
      then l.(owed := l.owed + [p]) else l
  }

  function LedgerAfter(run: seq<Event>, id: string, topic: string): Ledger {
    if run == [] then Ledger(false, false, 0, [], [])
    else LedgerStep(LedgerAfter(run[..|run| - 1], id, topic), run[|run| - 1], id, topic)
  }

  // ---------- What the server did ----------

  /** The packets on topic that were sent to the client called id, in order. */
  function SentTo(sent: seq<Send>, id: string, topic: string): seq<Packet> {
    if sent == [] then []
    else
      var d := sent[|sent| - 1];
      SentTo(sent[..|sent| - 1], id, topic) + if d.id == id && d.packet.topic == topic then [d.packet] else []
  }

  /** The packets on topic that wait in the slots, slot by slot. */
  function Waiting(slots: seq<Slot>, topic: string): seq<Packet> {
    if slots == [] then []
    else
      var s := slots[|slots| - 1];
      Waiting(slots[..|slots| - 1], topic) + if s.topic == topic then s.stored else []
  }

  function StoredFor(records: seq<Record>, id: string, topic: string): seq<Packet> {
    var k := FirstById(records, id);
    if k < |records| then Waiting(records[k].slots, topic) else []
  }

  /** Sent followed by stored. */
  function Delivered(st: State, id: string, topic: string): seq<Packet> {
    SentTo(st.sent, id, topic) + StoredFor(st.records, id, topic)
  }

  /** The flags of the slots for topic. */
  function Flags(slots: seq<Slot>, topic: string): seq<int> {
    if slots == [] then []
    else
      var s := slots[|slots| - 1];
      Flags(slots[..|slots| - 1], topic) + if s.topic == topic then [s.sf] else []
  }

  // ---------- Lemmas about flags ----------

  lemma {:induction false} FlagsMember(slots: seq<Slot>, topic: string, f: int)
    ensures f in Flags(slots, topic) <==> exists i :: 0 <= i < |slots| && slots[i].topic == topic && slots[i].sf == f
  {
    if slots != [] {
      var n := |slots| - 1;
      FlagsMember(slots[..n], topic, f);
      if slots[n].topic == topic && slots[n].sf == f {
        assert f in Flags(slots, topic);
      }
      if i :| 0 <= i < n && slots[i].topic == topic && slots[i].sf == f {
        assert slots[..n][i] == slots[i];
      }
    }
  }

  lemma {:induction false} FlagsEmpty(slots: seq<Slot>, topic: string)
    ensures Flags(slots, topic) == [] <==> forall i :: 0 <= i < |slots| ==> slots[i].topic != topic
  {
    if slots != [] {
      var n := |slots| - 1;
      FlagsEmpty(slots[..n], topic);
      assert forall i :: 0 <= i < n ==> slots[..n][i] == slots[i];
    }
  }

  /** Connected: someone takes a packet iff there is a flag; disconnected: iff some flag is 1. */
  lemma TakerIff(slots: seq<Slot>, connected: bool, topic: string)
    ensures FirstTaker(slots, connected, topic) < |slots|
            <==> if connected then Flags(slots, topic) != [] else 1 in Flags(slots, topic)
  {
    FlagsEmpty(slots, topic);
    FlagsMember(slots, topic, 1);
    var j := FirstTaker(slots, connected, topic);
    if j < |slots| {
      assert slots[j].topic == topic;
    } else {
      assert forall i :: 0 <= i < |slots| ==> !Takes(slots[i], connected, topic);
    }
  }

  ghost predicate SameLabels(slots: seq<Slot>, slots': seq<Slot>) {
    |slots| == |slots'| &&
    forall i :: 0 <= i < |slots| ==> slots'[i].topic == slots[i].topic && slots'[i].sf == slots[i].sf
  }

  lemma {:induction false} FlagsSame(slots: seq<Slot>, slots': seq<Slot>, topic: string)
    requires SameLabels(slots, slots')
    ensures Flags(slots', topic) == Flags(slots, topic)
  {
    if slots != [] {
      FlagsSame(slots[..|slots| - 1], slots'[..|slots| - 1], topic);
    }
  }

  /** Renaming the first slot for topic to the empty topic drops the first flag. */
  lemma {:induction false} FlagsRenamed(slots: seq<Slot>, j: nat, topic: string)
    requires topic != "" && j < |slots| && slots[j].topic == topic
    requires forall i :: 0 <= i < j ==> slots[i].topic != topic
    ensures Flags(slots, topic) != []
    ensures Flags(slots[j := slots[j].(topic := "")], topic) == Flags(slots, topic)[1..]
  {
    var n := |slots| - 1;
    var renamed := slots[j := slots[j].(topic := "")];
    if j == n {
      FlagsEmpty(slots[..n], topic);
      assert renamed[..n] == slots[..n];
    } else {
      FlagsRenamed(slots[..n], j, topic);
      assert renamed[..n] == slots[..n][j := slots[j].(topic := "")];
    }
  }

  lemma {:induction false} FlagsOther(slots: seq<Slot>, j: nat, topic: string, other: string)
    requires other != "" && other != topic && j < |slots| && slots[j].topic == topic
    ensures Flags(slots[j := slots[j].(topic := "")], other) == Flags(slots, other)
  {
    var n := |slots| - 1;
    var renamed := slots[j := slots[j].(topic := "")];
    if j == n {
      assert renamed[..n] == slots[..n];
    } else {
      FlagsOther(slots[..n], j, topic, other);
      assert renamed[..n] == slots[..n][j := slots[j].(topic := "")];
    }
  }

  // ---------- Lemmas about what waits ----------

  lemma {:induction false} NothingWaits(slots: seq<Slot>, topic: string)
    requires forall i :: 0 <= i < |slots| && slots[i].topic == topic ==> slots[i].stored == []
    ensures Waiting(slots, topic) == []
  {
    if slots != [] {
      NothingWaits(slots[..|slots| - 1], topic);
    }
  }

  lemma {:induction false} WaitingSame(slots: seq<Slot>, slots': seq<Slot>, topic: string)
    requires |slots| == |slots'|
    requires forall i :: 0 <= i < |slots| ==> slots'[i].topic == slots[i].topic
    requires forall i :: 0 <= i < |slots| && slots[i].topic == topic ==> slots'[i].stored == slots[i].stored
    ensures Waiting(slots', topic) == Waiting(slots, topic)
  {
    if slots != [] {
      WaitingSame(slots[..|slots| - 1], slots'[..|slots| - 1], topic);
    }
  }

  /** A packet stored in slot j is appended to what waits, if nothing waits in later slots. */
  lemma {:induction false} WaitingStored(slots: seq<Slot>, j: nat, p: Packet)
    requires j < |slots| && slots[j].topic == p.topic
    requires forall i :: j < i < |slots| && slots[i].topic == p.topic ==> slots[i].stored == []
    ensures Waiting(slots[j := Stored(slots[j], p)], p.topic) == Waiting(slots, p.topic) + [p]
  {
    var n := |slots| - 1;
    var slots' := slots[j := Stored(slots[j], p)];
    if j == n {
      assert slots'[..n] == slots[..n];
      assert slots'[n].stored == slots[n].stored + [p];
    } else {
      WaitingStored(slots[..n], j, p);
      assert slots'[..n] == slots[..n][j := Stored(slots[j], p)];
      assert slots'[n] == slots[n];
    }
  }

  // ---------- Lemmas about what was sent ----------

  lemma {:induction false} SentToAppend(a: seq<Send>, b: seq<Send>, id: string, topic: string)
    ensures SentTo(a + b, id, topic) == SentTo(a, id, topic) + SentTo(b, id, topic)
  {
    if b == [] {
      assert a + b == a;
    } else {
      SentToAppend(a, b[..|b| - 1], id, topic);
      assert (a + b)[..|a + b| - 1] == a + b[..|b| - 1];
    }
  }

  lemma {:induction false} SentToOther(ds: seq<Send>, id: string, topic: string)
    requires forall i :: 0 <= i < |ds| ==> ds[i].id != id || ds[i].packet.topic != topic
    ensures SentTo(ds, id, topic) == []
  {
    if ds != [] {
      SentToOther(ds[..|ds| - 1], id, topic);
    }
  }

  /** A flushed slot: all or nothing is on the topic. */
  lemma {:induction false} SentToAll(id: string, socket: int, packets: seq<Packet>, topic: string)
    requires forall i :: 0 <= i < |packets| ==> packets[i].topic == topic
    ensures SentTo(ToSends(id, socket, packets), id, topic) == packets
  {
    if packets != [] {
      var n := |packets| - 1;
      SentToAll(id, socket, packets[..n], topic);
      assert ToSends(id, socket, packets)[..n] == ToSends(id, socket, packets[..n]);
    }
  }

  /** Reconnecting sends exactly what waited on the topic, in order. */
  lemma {:induction false} FlushIsWaiting(id: string, socket: int, slots: seq<Slot>, topic: string)
    requires forall j :: 0 <= j < |slots| ==> SlotOk(slots[j], false)
    ensures SentTo(ToSends(id, socket, Backlog(slots)), id, topic) == Waiting(slots, topic)
  {
    if slots != [] {
      var n := |slots| - 1;
      var s := slots[n];
      assert SlotOk(s, false);
      FlushIsWaiting(id, socket, slots[..n], topic);
      assert ToSends(id, socket, Backlog(slots))
          == ToSends(id, socket, Backlog(slots[..n])) + ToSends(id, socket, s.stored);
      SentToAppend(ToSends(id, socket, Backlog(slots[..n])), ToSends(id, socket, s.stored), id, topic);
      if s.topic == topic {
        SentToAll(id, socket, s.stored, topic);
      } else {
        SentToOther(ToSends(id, socket, s.stored), id, topic);
      }
    }
  }

  lemma SameIds(records: seq<Record>, records': seq<Record>, id: string)
    requires |records'| == |records|
    requires forall i :: 0 <= i < |records| ==> records'[i].id == records[i].id
    ensures FirstById(records', id) == FirstById(records, id)
  {
    FirstByIdIs(records', id, FirstById(records, id));
  }

  /** The last record contributes its own copy. */
  lemma SentNowLast(r: Record, p: Packet, id: string, topic: string)
    ensures SentTo(SentNow(r, p), id, topic)
            == if r.id == id && topic == p.topic && SentNow(r, p) != [] then [p] else []
  {
    var now := SentNow(r, p);
    if now != [] {
      assert now[..0] == [];
    }
  }

  /** The copy that a publish sends to the client at k, if it sends one. */
  function CopyFor(records: seq<Record>, k: nat, p: Packet, topic: string): seq<Packet> {
    if k < |records| && topic == p.topic && SentNow(records[k], p) != [] then [p] else []
  }

  lemma FirstByIdInit(records: seq<Record>, id: string)
    requires records != []
    ensures var n, k := |records| - 1, FirstById(records, id);
            FirstById(records[..n], id) == if k < n then k else n
  {
    var n, k := |records| - 1, FirstById(records, id);
    FirstByIdIs(records[..n], id, if k < n then k else n);
  }

  lemma CopyForPrefix(records: seq<Record>, p: Packet, id: string, topic: string)
    requires DistinctIds(records) && records != []
    ensures var n := |records| - 1;
            CopyFor(records, FirstById(records, id), p, topic)
            == CopyFor(records[..n], FirstById(records[..n], id), p, topic) +
               if records[n].id == id && topic == p.topic && SentNow(records[n], p) != [] then [p] else []
  {
    FirstByIdInit(records, id);
  }

  /** A publish sends one copy to each client it reaches, whatever the others do. */
  lemma {:induction false} SentNowTo(records: seq<Record>, p: Packet, id: string, topic: string)
    requires DistinctIds(records)
    ensures SentTo(SentNowAll(records, p), id, topic) == CopyFor(records, FirstById(records, id), p, topic)
  {
    if records != [] {
      var n := |records| - 1;
      var init := records[..n];
      SentNowTo(init, p, id, topic);
      SentToAppend(SentNowAll(init, p), SentNow(records[n], p), id, topic);
      SentNowLast(records[n], p, id, topic);
      CopyForPrefix(records, p, id, topic);
    }
  }

  // ---------- The simulation ----------

  /** The ledger agrees with the server about one client and topic. */
  ghost predicate Agrees(st: State, l: Ledger, id: string, topic: string) {
    var k := FirstById(st.records, id);
    && (l.known <==> k < |st.records|)
    && (l.known ==>
          && l.online == st.records[k].connected
          && (l.online ==> l.socket == st.records[k].socket)
          && l.flags == Flags(st.records[k].slots, topic))
    && (!l.known ==> l.flags == [])
    && Delivered(st, id, topic) == l.owed
  }

  /** Only the record at k changes, and neither its id nor what waits in it. */
  lemma OnlyRecord(st: State, st': State, k: nat, id: string, topic: string)
    requires Inv(st) && k < |st.records| && |st'.records| == |st.records| && st'.sent == st.sent
    requires st'.records == st.records[k := st'.records[k]]
    requires st'.records[k].id == st.records[k].id
    requires Waiting(st'.records[k].slots, topic) == Waiting(st.records[k].slots, topic)
    ensures FirstById(st'.records, id) == FirstById(st.records, id)
    ensures Delivered(st', id, topic) == Delivered(st, id, topic)
  {
    var m := FirstById(st.records, id);
    SameIds(st.records, st'.records, id);
  }

  lemma FlushMoves(r: Record, rid: string, socket: int, id: string, topic: string)
    requires RecordOk(r) && !r.connected
    ensures Waiting(Emptied(r.slots), topic) == []
    ensures SentTo(ToSends(rid, socket, Backlog(r.slots)), id, topic)
            == if id == rid then Waiting(r.slots, topic) else []
  {
    NothingWaits(Emptied(r.slots), topic);
    if id == rid {
      FlushIsWaiting(id, socket, r.slots, topic);
    } else {
      SentToOther(ToSends(rid, socket, Backlog(r.slots)), id, topic);
    }
  }

  lemma ReconnectStored(records: seq<Record>, k: nat, socket: int, id: string, topic: string)
    requires k < |records| && AllOk(records) && !records[k].connected && k == FirstById(records, records[k].id)
    ensures var records' := records[k := Reconnected(records[k], socket)];
            && FirstById(records', id) == FirstById(records, id)
            && SentTo(ToSends(records[k].id, socket, Backlog(records[k].slots)), id, topic)
               + StoredFor(records', id, topic) == StoredFor(records, id, topic)
  {
    SameIds(records, records[k := Reconnected(records[k], socket)], id);
    FlushMoves(records[k], records[k].id, socket, id, topic);
  }

  lemma Regroup<T>(a: seq<T>, b: seq<T>, c: seq<T>, d: seq<T>, e: seq<T>)
    requires b + c == d + e
    ensures a + b + c == a + d + e
  {
    assert a + b + c == a + (b + c);
  }

  /** Reconnecting moves what waits to what was sent. */
  lemma ReconnectAgrees(st: State, e: Event, id: string, topic: string, k: nat)
    requires Inv(st) && e.Accept? && k == FirstById(st.records, e.id)
    requires k < |st.records| && !st.records[k].connected
    ensures FirstById(Step(st, e).records, id) == FirstById(st.records, id)
    ensures Delivered(Step(st, e), id, topic) == Delivered(st, id, topic)
  {
    var r := st.records[k];
    var flush := ToSends(e.id, e.socket, Backlog(r.slots));
    SentToAppend(st.sent, flush, id, topic);
    ReconnectStored(st.records, k, e.socket, id, topic);
    Regroup(SentTo(st.sent, id, topic), SentTo(flush, id, topic), StoredFor(Step(st, e).records, id, topic),
            StoredFor(st.records, id, topic), []);
  }

  lemma AcceptAgrees(st: State, l: Ledger, e: Event, id: string, topic: string)
    requires Inv(st) && e.Accept?
    requires Agrees(st, l, id, topic)
    ensures Agrees(Step(st, e), LedgerStep(l, e, id, topic), id, topic)
  {
    var st' := Step(st, e);
    var k := FirstById(st.records, e.id);
    var m := FirstById(st.records, id);
    if k == |st.records| {
      FirstByIdIs(st'.records, id, if id == e.id then k else if m < k then m else k + 1);
    } else if !st.records[k].connected {
      ReconnectAgrees(st, e, id, topic, k);
      assert RecordOk(st.records[k]);
      FlagsSame(st.records[k].slots, Emptied(st.records[k].slots), topic);
    }
  }

  lemma ConnectedWaits(r: Record, topic: string)
    requires RecordOk(r) && r.connected
    ensures Waiting(r.slots, topic) == []
    ensures forall j :: 0 <= j < |r.slots| ==> r.slots[j].stored == []
  {
    assert forall j :: 0 <= j < |r.slots| ==> SlotOk(r.slots[j], true);
    NothingWaits(r.slots, topic);
  }

  /** A live socket is the ledger's socket iff it belongs to the ledger's client. */
  lemma SocketNamesClient(st: State, l: Ledger, k: nat, id: string, topic: string)
    requires Inv(st) && Agrees(st, l, id, topic) && k < |st.records| && st.records[k].connected
    ensures (l.known && l.online && st.records[k].socket == l.socket) <==> k == FirstById(st.records, id)
    ensures FirstById(st.records, id) == k <==> st.records[k].id == id
  {
  }

  lemma HangUpAgrees(st: State, l: Ledger, e: Event, id: string, topic: string)
    requires Inv(st) && Enabled(st, e) && e.HangUp?
    requires Agrees(st, l, id, topic)
    ensures Agrees(Step(st, e), LedgerStep(l, e, id, topic), id, topic)
  {
    var k := LiveOwner(st, e.socket);
    var r := st.records[k];
    ConnectedWaits(r, topic);
    NothingWaits(AllocatedAll(r.slots), topic);
    FlagsSame(r.slots, AllocatedAll(r.slots), topic);
    OnlyRecord(st, Step(st, e), k, id, topic);
    SocketNamesClient(st, l, k, id, topic);
  }

  /** What an action does to the record of the client that sent it. */
  function ActedOn(r: Record, e: Event): Record
    requires e.Action?
  {
    if e.kind == UNSUBSCRIBE then Unsubscribed(r, e.topic) else Subscribed(r, e.topic, e.sf)
  }

  lemma SubscribeFlags(r: Record, added: string, sf: int, topic: string)
    ensures Flags(Subscribed(r, added, sf).slots, topic)
            == Flags(r.slots, topic) + if added == topic then [sf] else []
  {
    var slots' := Subscribed(r, added, sf).slots;
    assert slots'[..|slots'| - 1] == r.slots;
  }

  lemma UnsubscribeFlags(slots: seq<Slot>, gone: string, topic: string)
    requires topic != "" && FirstByTopic(slots, gone) < |slots|
    ensures var j := FirstByTopic(slots, gone);
            Flags(slots[j := slots[j].(topic := "")], topic)
            == if gone == topic && Flags(slots, topic) != [] then Flags(slots, topic)[1..] else Flags(slots, topic)
  {
    var j := FirstByTopic(slots, gone);
    if gone == topic {
      FlagsRenamed(slots, j, topic);
    } else {
      FlagsOther(slots, j, gone, topic);
    }
  }

  lemma ActedOnSlots(r: Record, e: Event, topic: string)
    requires RecordOk(r) && r.connected && e.Action? && topic != ""
    ensures Waiting(ActedOn(r, e).slots, topic) == []
    ensures Flags(ActedOn(r, e).slots, topic)
            == if e.topic != topic then Flags(r.slots, topic)
               else if e.kind != UNSUBSCRIBE then Flags(r.slots, topic) + [e.sf]
               else if Flags(r.slots, topic) == [] then [] else Flags(r.slots, topic)[1..]
  {
    ConnectedWaits(r, topic);
    NothingWaits(ActedOn(r, e).slots, topic);
    if e.kind != UNSUBSCRIBE {
      SubscribeFlags(r, e.topic, e.sf, topic);
    } else if FirstByTopic(r.slots, e.topic) < |r.slots| {
      UnsubscribeFlags(r.slots, e.topic, topic);
    } else {
      FlagsEmpty(r.slots, e.topic);
    }
  }

  lemma ActionAgrees(st: State, l: Ledger, e: Event, id: string, topic: string)
    requires Inv(st) && Enabled(st, e) && e.Action? && topic != ""
    requires Agrees(st, l, id, topic)
    ensures Agrees(Step(st, e), LedgerStep(l, e, id, topic), id, topic)
  {
    var k := LiveOwner(st, e.socket);
    var r := st.records[k];
    var r' := ActedOn(r, e);
    ConnectedWaits(r, topic);
    ActedOnSlots(r, e, topic);
    SocketNamesClient(st, l, k, id, topic);
    if e.kind == UNSUBSCRIBE {
      OwnerHolds(st.records, k, e.topic);
    }
    assert Step(st, e).records == st.records[k := r'];
    OnlyRecord(st, Step(st, e), k, id, topic);
  }

  /** The packet, if the client at k has a slot that takes it. */
  function Taken(records: seq<Record>, k: nat, p: Packet, topic: string): seq<Packet> {
    if k < |records| && topic == p.topic && FirstTaker(records[k].slots, records[k].connected, topic) < |records[k].slots|
    then [p] else []
  }

  /** Offering a packet to a record keeps its flags and appends the packet iff it is to be stored. */
  lemma OfferedSlots(r: Record, p: Packet, topic: string)
    requires RecordOk(r)
    ensures Flags(Offered(r, p).slots, topic) == Flags(r.slots, topic)
    ensures Waiting(Offered(r, p).slots, topic)
            == Waiting(r.slots, topic) +
               if topic == p.topic && !r.connected && FirstTaker(r.slots, false, topic) < |r.slots| then [p] else []
  {
    var j := FirstTaker(r.slots, r.connected, p.topic);
    var slots' := Offered(r, p).slots;
    FlagsSame(r.slots, slots', topic);
    if j < |r.slots| && !r.connected && topic == p.topic {
      assert SlotOk(r.slots[j], false);
      forall i | j < i < |r.slots| && r.slots[i].topic == topic
        ensures r.slots[i].stored == []
      {
        assert SlotOk(r.slots[i], false);
      }
      WaitingStored(r.slots, j, p);
    } else {
      WaitingSame(r.slots, slots', topic);
    }
  }

  /** A record that takes a packet either sends it or stores it behind everything else. */
  lemma SentOrStored(r: Record, p: Packet, topic: string)
    requires RecordOk(r)
    ensures (if topic == p.topic && SentNow(r, p) != [] then [p] else []) + Waiting(Offered(r, p).slots, topic)
            == Waiting(r.slots, topic) +
               if topic == p.topic && FirstTaker(r.slots, r.connected, topic) < |r.slots| then [p] else []
  {
    OfferedSlots(r, p, topic);
    if r.connected {
      ConnectedWaits(r, topic);
    }
  }

  lemma StoredAfterOffer(records: seq<Record>, p: Packet, id: string, topic: string)
    requires AllOk(records)
    ensures var k := FirstById(records, id);
            CopyFor(records, k, p, topic) + StoredFor(OfferedAll(records, p), id, topic)
            == StoredFor(records, id, topic) + Taken(records, k, p, topic)
  {
    var k := FirstById(records, id);
    SameIds(records, OfferedAll(records, p), id);
    if k < |records| {
      SentOrStored(records[k], p, topic);
    }
  }

  /** One publish: one packet more for a client that takes it, nothing for the others. */
  lemma DatagramDelivered(st: State, p: Packet, id: string, topic: string)
    requires Inv(st)
    ensures Delivered(Step(st, Datagram(p)), id, topic)
            == Delivered(st, id, topic) + Taken(st.records, FirstById(st.records, id), p, topic)
  {
    var k := FirstById(st.records, id);
    SentToAppend(st.sent, SentNowAll(st.records, p), id, topic);
    SentNowTo(st.records, p, id, topic);
    StoredAfterOffer(st.records, p, id, topic);
    Regroup(SentTo(st.sent, id, topic), CopyFor(st.records, k, p, topic),
            StoredFor(OfferedAll(st.records, p), id, topic),
            StoredFor(st.records, id, topic), Taken(st.records, k, p, topic));
  }

  /** The ledger owes the packet iff the client takes it. */
  lemma LedgerTakes(st: State, l: Ledger, p: Packet, id: string, topic: string)
    requires Agrees(st, l, id, topic)
    ensures LedgerStep(l, Datagram(p), id, topic)
            == l.(owed := l.owed + Taken(st.records, FirstById(st.records, id), p, topic))
  {
    var k := FirstById(st.records, id);
    if k < |st.records| {
      TakerIff(st.records[k].slots, st.records[k].connected, topic);
    }
  }

  lemma DatagramAgrees(st: State, l: Ledger, e: Event, id: string, topic: string)
    requires Inv(st) && Enabled(st, e) && e.Datagram?
    requires Agrees(st, l, id, topic)
    ensures Agrees(Step(st, e), LedgerStep(l, e, id, topic), id, topic)
  {
    var k := FirstById(st.records, id);
    DatagramDelivered(st, e.packet, id, topic);
    SameIds(st.records, OfferedAll(st.records, e.packet), id);
    LedgerTakes(st, l, e.packet, id, topic);
    if k < |st.records| {
      assert Flags(Offered(st.records[k], e.packet).slots, topic) == Flags(st.records[k].slots, topic) by {
        OfferedSlots(st.records[k], e.packet, topic);
      }
    }
  }

  // ---------- The theorem ----------

  lemma {:induction false} RunAgrees(tcp: int, udp: int, run: seq<Event>, id: string, topic: string)
    requires Possible(tcp, udp, run) && HarmlessRun(tcp, udp, run) && topic != ""
    ensures Agrees(After(tcp, udp, run), LedgerAfter(run, id, topic), id, topic)
  {
    if run != [] {
      var init, e := run[..|run| - 1], run[|run| - 1];
      var st, l := After(tcp, udp, init), LedgerAfter(init, id, topic);
      RunAgrees(tcp, udp, init, id, topic);
      ReachableInv(tcp, udp, init);
      match e
      case Accept(_, _) => AcceptAgrees(st, l, e, id, topic);
      case HangUp(_) => HangUpAgrees(st, l, e, id, topic);
      case Action(_, _, _, _) => ActionAgrees(st, l, e, id, topic);
      case Datagram(_) => DatagramAgrees(st, l, e, id, topic);
    }
  }

  /** In every run, sent followed by stored is what the ledger owes: no loss, no copy, in order. */
  lemma DeliveredIsOwed(tcp: int, udp: int, run: seq<Event>, id: string, topic: string)
    requires Possible(tcp, udp, run) && HarmlessRun(tcp, udp, run) && topic != ""
    ensures Delivered(After(tcp, udp, run), id, topic) == LedgerAfter(run, id, topic).owed
  {
    RunAgrees(tcp, udp, run, id, topic);
  }

  // ---------- Which socket is used ----------

  /** Some record is connected under this id and socket. */
  predicate Reached(records: seq<Record>, d: Send) {
    exists i :: 0 <= i < |records| && records[i].id == d.id && records[i].connected && records[i].socket == d.socket
  }

  lemma {:induction false} SentNowReached(records: seq<Record>, p: Packet)
    ensures forall d :: d in SentNowAll(records, p) ==> Reached(records, d) && d.packet == p
  {
    if records != [] {
      var n := |records| - 1;
      SentNowReached(records[..n], p);
      forall d | d in SentNowAll(records[..n], p)
        ensures Reached(records, d)
      {
        var i :| 0 <= i < n && records[..n][i].id == d.id && records[..n][i].connected && records[..n][i].socket == d.socket;
        assert records[i] == records[..n][i];
      }
      forall d | d in SentNow(records[n], p)
        ensures Reached(records, d)
      {
        assert records[n].id == d.id;
      }
    }
  }

  lemma PublishReached(records: seq<Record>, p: Packet, d: Send)
    requires d in SentNowAll(records, p)
    ensures Reached(OfferedAll(records, p), d)
  {
    SentNowReached(records, p);
    var i :| 0 <= i < |records| && records[i].id == d.id && records[i].connected && records[i].socket == d.socket;
    assert OfferedAll(records, p)[i] == records[i];
  }

  /** Whatever an event sends goes to a client that is connected when the event is over, on its socket. */
  lemma SentOnLiveSocket(st: State, e: Event)
    requires Inv(st) && Enabled(st, e)
    ensures st.sent <= Step(st, e).sent
    ensures forall d :: d in Step(st, e).sent[|st.sent|..] ==> Reached(Step(st, e).records, d)
  {
    var st' := Step(st, e);
    var added := st'.sent[|st.sent|..];
    match e
    case Datagram(p) =>
      assert added == SentNowAll(st.records, p);
      forall d | d in added
        ensures Reached(st'.records, d)
      {
        PublishReached(st.records, p, d);
      }
    case Accept(id, socket) =>
      var k := FirstById(st.records, id);
      if k < |st.records| && !st.records[k].connected {
        assert added == ToSends(id, socket, Backlog(st.records[k].slots));
        assert st'.records[k].id == id && st'.records[k].connected && st'.records[k].socket == socket;
      }
    case _ =>
  }
}
