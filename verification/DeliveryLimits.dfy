/** What the delivery theorem gives a subscriber, and exactly where the server stops keeping it. */
module DeliveryLimits {
  import opened Broker
  import opened BrokerInvariant
  import opened Delivery

  // ---------- Exactly once while subscribed ----------

  /** The packets published on a topic. */
  function Published(run: seq<Event>, topic: string): seq<Packet> {
    if run == [] then []
    else
      var e := run[|run| - 1];
      Published(run[..|run| - 1], topic) + if e.Datagram? && e.packet.topic == topic then [e.packet] else []
  }

  /** The ledger's client gives up a subscription to topic. */
  predicate Unsubscribes(l: Ledger, e: Event, topic: string) {
    e.Action? && e.kind == UNSUBSCRIBE && e.topic == topic && l.known && l.online && e.socket == l.socket
  }

  ghost predicate StaysSubscribed(run: seq<Event>, since: nat, id: string, topic: string)
    requires since <= |run|
  {
    forall n :: since <= n < |run| ==> !Unsubscribes(LedgerAfter(run[..n], id, topic), run[n], topic)
  }

  lemma OwedStep(l: Ledger, e: Event, id: string, topic: string)
    requires l.known && 1 in l.flags && !Unsubscribes(l, e, topic)
    ensures var l' := LedgerStep(l, e, id, topic);
            && l'.known && 1 in l'.flags
            && l'.owed == l.owed + if e.Datagram? && e.packet.topic == topic then [e.packet] else []
  {
  }

  lemma StaysPrefix(run: seq<Event>, since: nat, id: string, topic: string)
    requires since < |run| && StaysSubscribed(run, since, id, topic)
    ensures StaysSubscribed(run[..|run| - 1], since, id, topic)
  {
    var init := run[..|run| - 1];
    forall m | since <= m < |init|
      ensures !Unsubscribes(LedgerAfter(init[..m], id, topic), init[m], topic)
    {
      assert init[..m] == run[..m];
    }
  }

  lemma PublishedLast(run: seq<Event>, since: nat, topic: string)
    requires since < |run|
    ensures var e := run[|run| - 1];
            Published(run[since..], topic)
            == Published(run[..|run| - 1][since..], topic) +
               if e.Datagram? && e.packet.topic == topic then [e.packet] else []
  {
    var tail := run[since..];
    assert tail[..|tail| - 1] == run[..|run| - 1][since..];
  }

  lemma Append<T>(a: seq<T>, b: seq<T>, c: seq<T>)
    ensures a + b + c == a + (b + c)
  {
  }

  lemma {:induction false} OwedSince(run: seq<Event>, since: nat, id: string, topic: string)
    requires since <= |run| && StaysSubscribed(run, since, id, topic)
    requires LedgerAfter(run[..since], id, topic).known && 1 in LedgerAfter(run[..since], id, topic).flags
    ensures LedgerAfter(run, id, topic).known && 1 in LedgerAfter(run, id, topic).flags
    ensures LedgerAfter(run, id, topic).owed
            == LedgerAfter(run[..since], id, topic).owed + Published(run[since..], topic)
  {
    if since == |run| {
      assert run[..since] == run;
    } else {
      var n := |run| - 1;
      var init := run[..n];
      assert init[..since] == run[..since];
      StaysPrefix(run, since, id, topic);
      OwedSince(init, since, id, topic);
      assert !Unsubscribes(LedgerAfter(run[..n], id, topic), run[n], topic);
      OwedStep(LedgerAfter(init, id, topic), run[n], id, topic);
      PublishedLast(run, since, topic);
      var e := run[n];
      Append(LedgerAfter(run[..since], id, topic).owed, Published(init[since..], topic),
             if e.Datagram? && e.packet.topic == topic then [e.packet] else []);
    }
  }

  /** The client called id has a store-and-forward subscription to topic. */
  ghost predicate StoresAndForwards(st: State, id: string, topic: string) {
    exists k, j :: 0 <= k < |st.records| && 0 <= j < |st.records[k].slots| && st.records[k].id == id
                   && st.records[k].slots[j].topic == topic && st.records[k].slots[j].sf == 1
  }

  /**
   Once a client holds a store-and-forward subscription and does not give it up, every
   packet published on the topic is sent to it or stored for it exactly once and in order,
   through any number of disconnections and reconnections.
   */
  lemma ExactlyOnceInOrder(tcp: int, udp: int, run: seq<Event>, since: nat, id: string, topic: string)
    requires Possible(tcp, udp, run) && HarmlessRun(tcp, udp, run) && topic != ""
    requires since <= |run| && StaysSubscribed(run, since, id, topic)
    requires StoresAndForwards(After(tcp, udp, run[..since]), id, topic)
    ensures Delivered(After(tcp, udp, run), id, topic)
            == Delivered(After(tcp, udp, run[..since]), id, topic) + Published(run[since..], topic)
  {
    PrefixPossible(tcp, udp, run, since);
    var st := After(tcp, udp, run[..since]);
    RunAgrees(tcp, udp, run[..since], id, topic);
    ReachableInv(tcp, udp, run[..since]);
    var k, j :| 0 <= k < |st.records| && 0 <= j < |st.records[k].slots| && st.records[k].id == id
      && st.records[k].slots[j].topic == topic && st.records[k].slots[j].sf == 1;
    assert FirstById(st.records, id) == k;
    FlagsMember(st.records[k].slots, topic, 1);
    OwedSince(run, since, id, topic);
    DeliveredIsOwed(tcp, udp, run, id, topic);
  }

  // ---------- Runs written out ----------

  lemma Extend(tcp: int, udp: int, run: seq<Event>, e: Event)
    requires Possible(tcp, udp, run) && Enabled(After(tcp, udp, run), e)
    ensures Possible(tcp, udp, run + [e]) && After(tcp, udp, run + [e]) == Step(After(tcp, udp, run), e)
    ensures HarmlessRun(tcp, udp, run + [e]) <==> HarmlessRun(tcp, udp, run) && Harmless(After(tcp, udp, run), e)
    ensures forall id, topic ::
              LedgerAfter(run + [e], id, topic) == LedgerStep(LedgerAfter(run, id, topic), e, id, topic)
  {
    assert (run + [e])[..|run + [e]| - 1] == run;
  }

  lemma SubscribeOne(st: State, r: Record, rest: seq<Record>, socket: int, topic: string, sf: int)
    requires st.records == [r] + rest && r.socket == socket
    ensures Step(st, Action(socket, "subscribe", topic, sf))
            == st.(records := [r.(slots := r.slots + [Slot(sf, topic, [], 0)])] + rest)
  {
    assert |"subscribe"| != |UNSUBSCRIBE|;
    assert FirstBySocket(st.records, socket) == 0;
  }

  lemma UnsubscribeOne(st: State, r: Record, s: Slot)
    requires st.records == [r] && r.slots == [s]
    ensures Step(st, Action(r.socket, UNSUBSCRIBE, s.topic, 0)).records == [r.(slots := [s.(topic := "")])]
    ensures Step(st, Action(r.socket, UNSUBSCRIBE, s.topic, 0)).sent == st.sent
  {
    assert FirstByTopic(r.slots, s.topic) == 0;
    assert Holds(r, r.socket, s.topic);
    assert FirstHolder(st.records, r.socket, s.topic) == 0;
    assert [s][0 := s.(topic := "")] == [s.(topic := "")];
  }

  lemma HangUpOne(st: State, r: Record)
    requires st.records == [r]
    ensures Step(st, HangUp(r.socket)).records == [Disconnected(r)] && Step(st, HangUp(r.socket)).sent == st.sent
  {
    assert FirstBySocket(st.records, r.socket) == 0;
  }

  lemma DatagramOne(st: State, r: Record, p: Packet)
    requires st.records == [r]
    ensures Step(st, Datagram(p)) == st.(records := [Offered(r, p)], sent := st.sent + SentNow(r, p))
  {
    assert OfferedAll([r], p) == [Offered(r, p)];
    assert [r][..0] == [];
    assert SentNowAll([r], p) == SentNow(r, p);
  }

  lemma {:induction false} FirstIsAccept(tcp: int, udp: int, run: seq<Event>)
    requires Possible(tcp, udp, run) && run != [] && tcp < udp
    ensures run[0].Accept?
  {
    if |run| == 1 {
      assert run[..0] == [];
    } else {
      FirstIsAccept(tcp, udp, run[..|run| - 1]);
    }
  }

  /**
   The loop starts with fdmax at the TCP socket.  If the UDP socket is the higher of the two,
   every run starts with a connection: no datagram is read before the first subscriber comes.
   Otherwise datagrams are read at once.
   */
  lemma {:induction false} FirstEventIff(tcp: int, udp: int)
    requires 2 < tcp && 2 < udp && tcp != udp
    ensures (forall run: seq<Event> :: Possible(tcp, udp, run) && run != [] ==> run[0].Accept?) <==> tcp < udp
    ensures udp < tcp ==> forall p :: Possible(tcp, udp, [Datagram(p)])
  {
    forall p
      ensures Possible(tcp, udp, [Datagram(p)]) <==> udp < tcp
    {
      assert [Datagram(p)][..0] == [];
    }
    if tcp < udp {
      forall run: seq<Event> | Possible(tcp, udp, run) && run != []
        ensures run[0].Accept?
      {
        FirstIsAccept(tcp, udp, run);
      }
    } else {
      assert Possible(tcp, udp, [Datagram(Packet("", ""))]);
    }
  }

  /**
   A client that unsubscribes from its only topic is sent packets published on the empty
   topic, which it never asked for: the slot was renamed, not removed.
   */
  lemma EmptyTopicLeaks() returns (run: seq<Event>)
    ensures Possible(3, 4, run) && HarmlessRun(3, 4, run)
    ensures Delivered(After(3, 4, run), "a", "") != LedgerAfter(run, "a", "").owed
  {
    var e1, e2, e3 := Accept("a", 5), Action(5, "subscribe", "x", 0), Action(5, UNSUBSCRIBE, "x", 0);
    var p := Packet("", "");
    var r1, r2, r3 := [] + [e1], [] + [e1] + [e2], [] + [e1] + [e2] + [e3];
    Extend(3, 4, [], e1);
    var a := Record("a", true, 5, []);
    assert After(3, 4, r1).records == [a] + [];
    Extend(3, 4, r1, e2);
    SubscribeOne(After(3, 4, r1), a, [], 5, "x", 0);
    var slot := Slot(0, "x", [], 0);
    assert [] + [slot] == [slot];
    a := a.(slots := [slot]);
    assert After(3, 4, r2).records == [a];
    Extend(3, 4, r2, e3);
    UnsubscribeOne(After(3, 4, r2), a, slot);
    a := a.(slots := [slot.(topic := "")]);
    assert After(3, 4, r3).records == [a];
    run := r3 + [Datagram(p)];
    Extend(3, 4, r3, Datagram(p));
    DatagramOne(After(3, 4, r3), a, p);
    assert After(3, 4, run).sent == [] + [Send("a", 5, p)];
    SentToAppend([], [Send("a", 5, p)], "a", "");
    assert [Send("a", 5, p)][..0] == [];
    assert |SentTo([Send("a", 5, p)], "a", "")| == 1;
    assert LedgerAfter(run, "a", "").owed == [] by {
      assert |"subscribe"| != |UNSUBSCRIBE|;
      assert LedgerAfter(r2, "a", "").flags == [] && LedgerAfter(r3, "a", "").flags == [];
    }
  }

  /** Sent followed by stored is what is owed, in all runs: true of every topic but the empty one. */
  lemma DeliveryIff(topic: string)
    ensures (forall tcp, udp, run, id :: Possible(tcp, udp, run) && HarmlessRun(tcp, udp, run) ==>
               Delivered(After(tcp, udp, run), id, topic) == LedgerAfter(run, id, topic).owed)
            <==> topic != ""
  {
    if topic == "" {
      var run := EmptyTopicLeaks();
    } else {
      forall tcp, udp, run, id | Possible(tcp, udp, run) && HarmlessRun(tcp, udp, run)
        ensures Delivered(After(tcp, udp, run), id, topic) == LedgerAfter(run, id, topic).owed
      {
        DeliveredIsOwed(tcp, udp, run, id, topic);
      }
    }
  }

  lemma LostCopy(st: State, a: Record, b: Record, p: Packet)
    requires st.records == [a] + [b] && st.sent == [] && !a.connected && b.slots == [] && a.id != b.id
    requires a.slots == [Slot(1, p.topic, [], 0)]
    ensures var st' := Step(st, Datagram(p));
            && Delivered(st', b.id, p.topic) == []
            && st'.records[0].slots[0] == Slot(1, p.topic, [p], 0)
  {
    var st' := Step(st, Datagram(p));
    assert FirstTaker(a.slots, false, p.topic) == 0;
    assert SentNow(a, p) == [] && SentNow(b, p) == [];
    assert [a][..0] == [] && SentNowAll([a], p) == [];
    assert st.records[..|st.records| - 1] == [a] && SentNowAll(st.records, p) == [];
    assert st'.records[1] == b;
    FirstByIdIs(st'.records, b.id, 1);
  }

  /**
   Without the environment assumption packets are lost.  Descriptor 5 is closed and handed
   out again; the subscription of b lands in the record of a, with no queue allocated.
   */
  lemma ReusedDescriptorMisroutes() returns (run: seq<Event>)
    ensures Possible(3, 4, run) && !HarmlessRun(3, 4, run)
    ensures Delivered(After(3, 4, run), "b", "x") == [] && LedgerAfter(run, "b", "x").owed != []
    ensures exists k, j :: 0 <= k < |After(3, 4, run).records| && 0 <= j < |After(3, 4, run).records[k].slots|
                           && After(3, 4, run).records[k].slots[j].capacity < |After(3, 4, run).records[k].slots[j].stored|
  {
    var e1, e2, e3, e4 := Accept("a", 5), HangUp(5), Accept("b", 5), Action(5, "subscribe", "x", 1);
    var p := Packet("x", "");
    var a, b := Record("a", true, 5, []), Record("b", true, 5, []);
    var r1, r2, r3 := [] + [e1], [] + [e1] + [e2], [] + [e1] + [e2] + [e3];
    Extend(3, 4, [], e1);
    assert After(3, 4, r1).records == [a];
    Extend(3, 4, r1, e2);
    HangUpOne(After(3, 4, r1), a);
    a := a.(connected := false);
    assert After(3, 4, r2).records == [a];
    Extend(3, 4, r2, e3);
    assert FirstById([a], "b") == 1;
    assert After(3, 4, r3).records == [a] + [b];
    Extend(3, 4, r3, e4);
    SubscribeOne(After(3, 4, r3), a, [b], 5, "x", 1);
    var slot := Slot(1, "x", [], 0);
    assert [] + [slot] == [slot];
    a := a.(slots := [slot]);
    var r4 := r3 + [e4];
    assert After(3, 4, r4).records == [a] + [b];
    run := r4 + [Datagram(p)];
    Extend(3, 4, r4, Datagram(p));
    LostCopy(After(3, 4, r4), a, b, p);
    assert |"subscribe"| != |UNSUBSCRIBE|;
    assert LedgerAfter(r1, "b", "x") == LedgerAfter([], "b", "x");
    assert LedgerAfter(r2, "b", "x") == LedgerAfter([], "b", "x");
    assert LedgerAfter(r3, "b", "x") == Ledger(true, true, 5, [], []);
    assert LedgerAfter(r4, "b", "x") == Ledger(true, true, 5, [] + [1], []);
  }

  // ---------- Order across topics ----------

  /** Where a packet for this record, while it is offline, is stored; past the end: nowhere. */
  function Place(r: Record, p: Packet): nat {
    FirstTaker(r.slots, false, p.topic)
  }

  predicate Kept(r: Record, p: Packet) {
    Place(r, p) < |r.slots|
  }

  /** The packets that an offline record keeps, in the order in which they are published. */
  function KeptOf(r: Record, ps: seq<Packet>): seq<Packet> {
    if ps == [] then []
    else KeptOf(r, ps[..|ps| - 1]) + if Kept(r, ps[|ps| - 1]) then [ps[|ps| - 1]] else []
  }

  function OfferedMany(r: Record, ps: seq<Packet>): Record {
    if ps == [] then r else Offered(OfferedMany(r, ps[..|ps| - 1]), ps[|ps| - 1])
  }

  /** The packets are published in the order of the subscriptions that keep them. */
  ghost predicate InSlotOrder(r: Record, ps: seq<Packet>) {
    forall i, j :: 0 <= i < j < |ps| && Kept(r, ps[i]) && Kept(r, ps[j]) ==> Place(r, ps[i]) <= Place(r, ps[j])
  }

  /** Each stored packet is in its place. */
  ghost predicate Filed(slots: seq<Slot>, r: Record) {
    forall m, i :: 0 <= m < |slots| && 0 <= i < |slots[m].stored| ==> Place(r, slots[m].stored[i]) == m
  }

  predicate EmptyAndOffline(r: Record) {
    !r.connected && forall m :: 0 <= m < |r.slots| ==> r.slots[m].stored == []
  }

  lemma {:induction false} SamePlaces(slots: seq<Slot>, slots': seq<Slot>, topic: string)
    requires SameLabels(slots, slots')
    ensures FirstTaker(slots', false, topic) == FirstTaker(slots, false, topic)
  {
    if slots != [] {
      SamePlaces(slots[1..], slots'[1..], topic);
    }
  }

  /** Some packet has its place in slot m. */
  ghost predicate UsedBy(r: Record, ps: seq<Packet>, m: nat) {
    exists i :: 0 <= i < |ps| && Place(r, ps[i]) == m
  }

  /** The slots in use are exactly the places of the packets. */
  ghost predicate InUse(r: Record, ps: seq<Packet>, slots: seq<Slot>) {
    forall m :: 0 <= m < |slots| ==> (slots[m].stored != [] <==> UsedBy(r, ps, m))
  }

  lemma UsedByOneMore(r: Record, ps: seq<Packet>, m: nat)
    requires ps != []
    ensures UsedBy(r, ps, m) <==> UsedBy(r, ps[..|ps| - 1], m) || Place(r, ps[|ps| - 1]) == m
  {
    var init := ps[..|ps| - 1];
    if UsedBy(r, init, m) {
      var i :| 0 <= i < |init| && Place(r, init[i]) == m;
      assert Place(r, ps[i]) == m;
    }
    if i :| 0 <= i < |init| && Place(r, ps[i]) == m {
      assert Place(r, init[i]) == m;
    }
  }

  /** What offering packets to an offline record leaves as it is, and how they are filed. */
  ghost predicate Files(r: Record, ps: seq<Packet>, r': Record) {
    !r'.connected && SameLabels(r.slots, r'.slots) && Filed(r'.slots, r) && InUse(r, ps, r'.slots)
  }

  lemma FiledOneMore(r: Record, before: Record, p: Packet)
    requires !before.connected && SameLabels(r.slots, before.slots) && Filed(before.slots, r)
    ensures Filed(Offered(before, p).slots, r) && SameLabels(r.slots, Offered(before, p).slots)
  {
    SamePlaces(r.slots, before.slots, p.topic);
  }

  lemma FilesOneMore(r: Record, ps: seq<Packet>, before: Record)
    requires ps != [] && Files(r, ps[..|ps| - 1], before)
    ensures Files(r, ps, Offered(before, ps[|ps| - 1]))
  {
    var p := ps[|ps| - 1];
    var after := Offered(before, p);
    FiledOneMore(r, before, p);
    SamePlaces(r.slots, before.slots, p.topic);
    forall m | 0 <= m < |after.slots|
      ensures after.slots[m].stored != [] <==> UsedBy(r, ps, m)
    {
      assert after.slots[m].stored != [] <==> before.slots[m].stored != [] || m == Place(r, p);
      UsedByOneMore(r, ps, m);
    }
  }

  lemma {:induction false} OfferedManyFiles(r: Record, ps: seq<Packet>)
    requires EmptyAndOffline(r)
    ensures Files(r, ps, OfferedMany(r, ps))
  {
    if ps != [] {
      OfferedManyFiles(r, ps[..|ps| - 1]);
      FilesOneMore(r, ps, OfferedMany(r, ps[..|ps| - 1]));
    }
  }

  /** Storing a packet behind empty slots appends it to the backlog. */
  lemma {:induction false} StoredLast(slots: seq<Slot>, k: nat, p: Packet)
    requires k < |slots| && forall m :: k < m < |slots| ==> slots[m].stored == []
    ensures Backlog(slots[k := Stored(slots[k], p)]) == Backlog(slots) + [p]
  {
    var n := |slots| - 1;
    var slots' := slots[k := Stored(slots[k], p)];
    if k == n {
      assert slots'[..n] == slots[..n];
      Append(Backlog(slots[..n]), slots[n].stored, [p]);
    } else {
      StoredLast(slots[..n], k, p);
      assert slots'[..n] == slots[..n][k := Stored(slots[k], p)];
    }
  }

  lemma LastOfBoth<T>(a: seq<T>, b: seq<T>)
    requires b != []
    ensures a + b != [] && (a + b)[|a + b| - 1] == b[|b| - 1]
  {
  }

  /** If a slot behind k is in use, the backlog ends with a packet whose place is behind k. */
  lemma {:induction false} EndsLate(slots: seq<Slot>, r: Record, k: nat, m: nat)
    requires Filed(slots, r) && k < m < |slots| && slots[m].stored != []
    ensures Backlog(slots) != [] && Place(r, Backlog(slots)[|Backlog(slots)| - 1]) > k
  {
    var n := |slots| - 1;
    if slots[n].stored == [] {
      EndsLate(slots[..n], r, k, m);
    } else {
      var q := slots[n].stored;
      LastOfBoth(Backlog(slots[..n]), q);
      assert Place(r, q[|q| - 1]) == n;
    }
  }

  /** No packet so far has its place behind this one's. */
  ghost predicate Latest(r: Record, ps: seq<Packet>, p: Packet) {
    forall i :: 0 <= i < |ps| && Kept(r, ps[i]) ==> Place(r, ps[i]) <= Place(r, p)
  }

  lemma InSlotOrderLast(r: Record, ps: seq<Packet>)
    requires ps != []
    ensures var p, init := ps[|ps| - 1], ps[..|ps| - 1];
            InSlotOrder(r, ps) <==> InSlotOrder(r, init) && (Kept(r, p) ==> Latest(r, init, p))
  {
    var init := ps[..|ps| - 1];
    assert forall i :: 0 <= i < |init| ==> init[i] == ps[i];
  }

  /** Some slot behind k is in use. */
  predicate Behind(slots: seq<Slot>, k: nat) {
    exists m :: k < m < |slots| && slots[m].stored != []
  }

  lemma LatestIff(r: Record, ps: seq<Packet>, p: Packet, slots: seq<Slot>)
    requires InUse(r, ps, slots) && |slots| == |r.slots| && Kept(r, p)
    ensures Latest(r, ps, p) <==> !Behind(slots, Place(r, p))
  {
    if m :| Place(r, p) < m < |slots| && slots[m].stored != [] {
      assert UsedBy(r, ps, m);
      var i :| 0 <= i < |ps| && Place(r, ps[i]) == m;
      assert Kept(r, ps[i]);
    } else {
      forall i | 0 <= i < |ps| && Kept(r, ps[i])
        ensures Place(r, ps[i]) <= Place(r, p)
      {
        assert UsedBy(r, ps, Place(r, ps[i]));
      }
    }
  }

  lemma OutOfOrder(r: Record, p: Packet, before: Record, kept: seq<Packet>)
    requires !before.connected && SameLabels(r.slots, before.slots) && Behind(before.slots, Place(r, p))
    requires Filed(Offered(before, p).slots, r)
    ensures Backlog(Offered(before, p).slots) != kept + [p]
  {
    var k := Place(r, p);
    var m :| k < m < |before.slots| && before.slots[m].stored != [];
    SamePlaces(r.slots, before.slots, p.topic);
    var after := Offered(before, p).slots;
    assert after[m] == before.slots[m];
    EndsLate(after, r, k, m);
    assert (kept + [p])[|kept|] == p;
  }

  lemma SameEnd<T>(a: seq<T>, b: seq<T>, x: T)
    ensures a + [x] == b + [x] <==> a == b
  {
    assert (a + [x])[..|a + [x]| - 1] == a && (b + [x])[..|b + [x]| - 1] == b;
  }

  /** One packet more: the order is kept iff it was kept and no slot behind the packet's place is in use. */
  lemma OneMoreInOrder(r: Record, ps: seq<Packet>, before: Record)
    requires ps != [] && Files(r, ps[..|ps| - 1], before)
    requires Backlog(before.slots) == KeptOf(r, ps[..|ps| - 1]) <==> InSlotOrder(r, ps[..|ps| - 1])
    ensures Backlog(Offered(before, ps[|ps| - 1]).slots) == KeptOf(r, ps) <==> InSlotOrder(r, ps)
  {
    var p, init := ps[|ps| - 1], ps[..|ps| - 1];
    InSlotOrderLast(r, ps);
    if !Kept(r, p) {
      SamePlaces(r.slots, before.slots, p.topic);
    } else {
      LatestIff(r, init, p, before.slots);
      if Behind(before.slots, Place(r, p)) {
        FilesOneMore(r, ps, before);
        OutOfOrder(r, p, before, KeptOf(r, init));
      } else {
        SamePlaces(r.slots, before.slots, p.topic);
        StoredLast(before.slots, Place(r, p), p);
        SameEnd(Backlog(before.slots), KeptOf(r, init), p);
      }
    }
  }

  lemma {:induction false} EmptyBacklog(slots: seq<Slot>)
    requires forall m :: 0 <= m < |slots| ==> slots[m].stored == []
    ensures Backlog(slots) == []
  {
    if slots != [] {
      EmptyBacklog(slots[..|slots| - 1]);
    }
  }

  /**
   What an offline client with empty queues is sent when it returns: the packets published
   meanwhile that it keeps, in their order, exactly when they were published in the order
   of the subscriptions that keep them.  A backlog is flushed subscription by subscription.
   */
  lemma {:induction false} BacklogInOrderIff(r: Record, ps: seq<Packet>)
    requires EmptyAndOffline(r)
    ensures Backlog(OfferedMany(r, ps).slots) == KeptOf(r, ps) <==> InSlotOrder(r, ps)
  {
    if ps == [] {
      EmptyBacklog(r.slots);
    } else {
      var init := ps[..|ps| - 1];
      BacklogInOrderIff(r, init);
      OfferedManyFiles(r, init);
      OneMoreInOrder(r, ps, OfferedMany(r, init));
    }
  }

  /** The server after it has been sent these packets. */
  function PublishedAll(st: State, ps: seq<Packet>): State {
    if ps == [] then st else Step(PublishedAll(st, ps[..|ps| - 1]), Datagram(ps[|ps| - 1]))
  }

  lemma {:induction false} PublishedAllOffers(st: State, ps: seq<Packet>, k: nat)
    requires k < |st.records| && k == FirstById(st.records, st.records[k].id)
    ensures var st' := PublishedAll(st, ps);
            && |st'.records| == |st.records| && st'.records[k] == OfferedMany(st.records[k], ps)
            && k == FirstById(st'.records, st.records[k].id) && st'.records[k].id == st.records[k].id
  {
    if ps != [] {
      PublishedAllOffers(st, ps[..|ps| - 1], k);
      var before := PublishedAll(st, ps[..|ps| - 1]);
      SameIds(before.records, PublishedAll(st, ps).records, st.records[k].id);
    }
  }

  lemma HangUpEmpties(st: State, k: nat)
    requires Inv(st) && k < |st.records| && st.records[k].connected
    ensures var gone := Step(st, HangUp(st.records[k].socket));
            && gone.records == st.records[k := Disconnected(st.records[k])] && EmptyAndOffline(gone.records[k])
            && k == FirstById(gone.records, st.records[k].id)
  {
    var r := st.records[k];
    assert FirstBySocket(st.records, r.socket) == k;
    assert RecordOk(r);
    ConnectedWaits(r, "");
    FirstByIdIs(st.records[k := Disconnected(r)], r.id, k);
  }

  lemma SameSent(sent: seq<Send>, id: string, socket: int, a: seq<Packet>, b: seq<Packet>)
    ensures sent + ToSends(id, socket, a) == sent + ToSends(id, socket, b) <==> a == b
  {
    var da, db := ToSends(id, socket, a), ToSends(id, socket, b);
    if sent + da == sent + db {
      assert da == (sent + da)[|sent|..] && db == (sent + db)[|sent|..];
      assert forall i :: 0 <= i < |a| ==> da[i].packet == a[i];
      assert forall i :: 0 <= i < |b| ==> db[i].packet == b[i];
    }
  }

  /**
   A client of a reachable state hangs up, packets are published, and it returns: it is sent
   those that it keeps, in the order in which they were published, exactly when that is the
   order of its subscriptions.
   */
  lemma FlushInOrderIff(st: State, k: nat, ps: seq<Packet>, socket: int)
    requires Inv(st) && k < |st.records| && st.records[k].connected
    ensures var r := st.records[k];
            var away := PublishedAll(Step(st, HangUp(r.socket)), ps);
            Step(away, Accept(r.id, socket)).sent == away.sent + ToSends(r.id, socket, KeptOf(Disconnected(r), ps))
            <==> InSlotOrder(Disconnected(r), ps)
  {
    var r := st.records[k];
    var gone := Step(st, HangUp(r.socket));
    var away := PublishedAll(gone, ps);
    HangUpEmpties(st, k);
    PublishedAllOffers(gone, ps, k);
    OfferedManyFiles(Disconnected(r), ps);
    BacklogInOrderIff(Disconnected(r), ps);
    var flushed := Backlog(away.records[k].slots);
    assert Step(away, Accept(r.id, socket)).sent == away.sent + ToSends(r.id, socket, flushed);
    SameSent(away.sent, r.id, socket, flushed, KeptOf(Disconnected(r), ps));
  }

  /** A client with store-and-forward subscriptions to x and then y that has gone away. */
  lemma AwayFromTwo() returns (run: seq<Event>)
    ensures Possible(3, 4, run) && HarmlessRun(3, 4, run)
    ensures var st := After(3, 4, run);
            && st.records == [Record("a", false, 5, [Slot(1, "x", [], 10), Slot(1, "y", [], 10)])]
            && st.sent == [] && st.tcp == 3 && st.udp == 4 && st.fdmax == 4 && 5 !in st.watched
  {
    var e1, e2, e3 := Accept("a", 5), Action(5, "subscribe", "x", 1), Action(5, "subscribe", "y", 1);
    var r1, r2, r3 := [] + [e1], [] + [e1] + [e2], [] + [e1] + [e2] + [e3];
    var x, y := Slot(1, "x", [], 0), Slot(1, "y", [], 0);
    Extend(3, 4, [], e1);
    var a := Record("a", true, 5, []);
    assert After(3, 4, r1).records == [a] + [];
    Extend(3, 4, r1, e2);
    SubscribeOne(After(3, 4, r1), a, [], 5, "x", 1);
    assert [] + [x] == [x];
    a := a.(slots := [x]);
    assert After(3, 4, r2).records == [a] + [];
    Extend(3, 4, r2, e3);
    SubscribeOne(After(3, 4, r2), a, [], 5, "y", 1);
    assert [x] + [y] == [x, y];
    a := a.(slots := [x, y]);
    assert After(3, 4, r3).records == [a];
    run := r3 + [HangUp(5)];
    Extend(3, 4, r3, HangUp(5));
    HangUpOne(After(3, 4, r3), a);
    assert AllocatedAll(a.slots) == [x.(capacity := 10), y.(capacity := 10)];
  }

  lemma ExtendPublish(tcp: int, udp: int, run: seq<Event>, p: Packet)
    requires Possible(tcp, udp, run) && HarmlessRun(tcp, udp, run)
    requires After(tcp, udp, run).udp <= After(tcp, udp, run).fdmax
    ensures var st, st' := After(tcp, udp, run), After(tcp, udp, run + [Datagram(p)]);
            && Possible(tcp, udp, run + [Datagram(p)]) && HarmlessRun(tcp, udp, run + [Datagram(p)])
            && st' == Step(st, Datagram(p)) && |st'.records| == |st.records|
            && st'.tcp == st.tcp && st'.udp == st.udp && st'.fdmax == st.fdmax && st'.watched == st.watched
            && forall i :: 0 <= i < |st.records| ==> st'.records[i].id == st.records[i].id
  {
    Extend(tcp, udp, run, Datagram(p));
  }

  lemma BacklogOfTwo(s: Slot, t: Slot)
    ensures Backlog([s, t]) == s.stored + t.stored
  {
    assert [s, t][..1] == [s] && [s][..0] == [];
    assert Backlog([s]) == s.stored;
  }

  lemma FlushedReordered(st: State, x: Packet, y: Packet, sx: Slot, sy: Slot, socket: int)
    requires sx == Slot(1, x.topic, [], 10) && sy == Slot(1, y.topic, [], 10) && x.topic != y.topic
    requires |st.records| == 1 && !st.records[0].connected && st.records[0].slots == [sx, sy]
    ensures var id := st.records[0].id;
            Step(Step(Step(st, Datagram(y)), Datagram(x)), Accept(id, socket)).sent
            == st.sent + [Send(id, socket, x), Send(id, socket, y)]
  {
    var a := st.records[0];
    var st1, st2 := Step(st, Datagram(y)), Step(Step(st, Datagram(y)), Datagram(x));
    var sx', sy' := sx.(stored := [x]), sy.(stored := [y]);
    assert [] + [x] == [x] && [] + [y] == [y];
    DatagramOne(st, a, y);
    assert FirstTaker(a.slots, false, y.topic) == 1;
    assert Offered(a, y).slots == [sx, sy'];
    DatagramOne(st1, Offered(a, y), x);
    assert FirstTaker([sx, sy'], false, x.topic) == 0;
    assert Offered(Offered(a, y), x).slots == [sx', sy'];
    assert FirstById(st2.records, a.id) == 0;
    BacklogOfTwo(sx', sy');
  }

  /** The only client there is returns. */
  lemma ExtendReturn(tcp: int, udp: int, run: seq<Event>, id: string, socket: int)
    requires Possible(tcp, udp, run) && HarmlessRun(tcp, udp, run) && socket > 2
    requires After(tcp, udp, run).tcp <= After(tcp, udp, run).fdmax && socket !in After(tcp, udp, run).watched
    requires |After(tcp, udp, run).records| == 1 && After(tcp, udp, run).records[0].id == id
    ensures Possible(tcp, udp, run + [Accept(id, socket)]) && HarmlessRun(tcp, udp, run + [Accept(id, socket)])
    ensures After(tcp, udp, run + [Accept(id, socket)]) == Step(After(tcp, udp, run), Accept(id, socket))
  {
    Extend(tcp, udp, run, Accept(id, socket));
  }

  lemma LastThree<T>(s: seq<T>, a: T, b: T, c: T)
    ensures var t := s + [a] + [b] + [c]; |t| == |s| + 3 && t[|t| - 3..] == [a, b, c]
  {
  }

  /** A run in which packets are published first on y and then on x, and sent first on x and then on y. */
  lemma TopicsReordered(x: Packet, y: Packet) returns (run: seq<Event>)
    requires x.topic == "x" && y.topic == "y"
    ensures Possible(3, 4, run) && HarmlessRun(3, 4, run) && |run| >= 3
    ensures run[|run| - 3..] == [Datagram(y), Datagram(x), Accept("a", 5)]
    ensures After(3, 4, run).sent == [Send("a", 5, x), Send("a", 5, y)]
  {
    var r0 := AwayFromTwo();
    var r1 := r0 + [Datagram(y)];
    ExtendPublish(3, 4, r0, y);
    ExtendPublish(3, 4, r1, x);
    var st := After(3, 4, r0);
    FlushedReordered(st, x, y, Slot(1, "x", [], 10), Slot(1, "y", [], 10), 5);
    ExtendReturn(3, 4, r1 + [Datagram(x)], "a", 5);
    run := r1 + [Datagram(x)] + [Accept("a", 5)];
    LastThree(r0, Datagram(y), Datagram(x), Accept("a", 5));
  }

  // ---------- Which record an action reaches ----------

  /** A subscription reaches the client that sent it, and only it, iff no earlier record has its socket. */
  lemma SubscribeReachesOwnerIff(records: seq<Record>, k: nat, topic: string, sf: int)
    requires k < |records|
    ensures SubscribedBy(records, records[k].socket, topic, sf) == records[k := Subscribed(records[k], topic, sf)]
            <==> forall j :: 0 <= j < k ==> records[j].socket != records[k].socket
  {
    var j := FirstBySocket(records, records[k].socket);
    if j < k {
      assert |SubscribedBy(records, records[k].socket, topic, sf)[j].slots| == |records[j].slots| + 1;
    }
  }

  /** The same for a client that hangs up. */
  lemma HangUpReachesOwnerIff(records: seq<Record>, k: nat)
    requires k < |records| && records[k].connected
    ensures DisconnectedBy(records, records[k].socket) == records[k := Disconnected(records[k])]
            <==> forall j :: 0 <= j < k ==> records[j].socket != records[k].socket
  {
    var j := FirstBySocket(records, records[k].socket);
    if j < k {
      assert DisconnectedBy(records, records[k].socket)[k].connected;
    }
  }

  /** Unsubscribing scans on past the owner: later records with the same socket matter as well. */
  lemma UnsubscribeReachesOwnerIff(records: seq<Record>, k: nat, topic: string)
    requires k < |records| && topic != ""
    ensures UnsubscribedBy(records, records[k].socket, topic) == records[k := Unsubscribed(records[k], topic)]
            <==> forall j :: 0 <= j < |records| && Holds(records[j], records[k].socket, topic) ==>
                               j == k || (k < j && Holds(records[k], records[k].socket, topic))
  {
    var s := records[k].socket;
    var h := FirstHolder(records, s, topic);
    if h < |records| && h != k {
      var t := FirstByTopic(records[h].slots, topic);
      assert UnsubscribedBy(records, s, topic)[h].slots[t].topic == "";
      assert records[h].slots[t].topic == topic;
    }
    if h == |records| {
      assert !Holds(records[k], s, topic);
    }
  }
}
