/**
 The windowed file transfer: send_file and receive_file over a lossless FIFO channel in
 each direction.  Every send, receive and loop test is a step; any schedule of the two
 processes is a run.
 */
module FileTransfer {
  import opened Bits
  import opened Message
  import opened Decimal

  datatype Packet =
    | Name(name: string)
    | Size(text: string)
    | Chunk(data: seq<byte>)

  datatype Sender =
    | SendName
    | NameCheck
    | SendSize
    | SizeCheck
    | Window(i: nat)
    | Loop
    | LoopCheck(n: nat)  // n bytes were read and sent
    | Final(i: nat)
    | SenderDone

  datatype Receiver =
    | GetName
    | NameAck
    | GetSize
    | SizeAck
    | GetChunk
    | ChunkAck
    | ReceiverDone

  /**
   offset is the file position, target the name under which the copy is opened; sent, got and acked count chunks sent, chunks received and
   acknowledgements of chunks consumed.
   */
  datatype State = State(snd: Sender, offset: nat, sentSize: nat,
                         rcv: Receiver, target: string, size: int, written: seq<byte>,
                         toReceiver: seq<Packet>, toSender: nat,
                         sent: nat, got: nat, acked: nat)

  /** The name of the file, its contents and the window size. */
  datatype Job = Job(name: string, file: seq<byte>, window: int)

  /** C's division, which truncates toward zero. */
  function Quotient(a: int, b: int): int
    requires b > 0
  {
    if a >= 0 then a / b else -(-a / b)
  }

  /** window_size, computed from the bandwidth-delay product on the command line. */
  function WindowSize(count: int, size: int): int
    requires size > 0
  {
    Quotient(count * 100, 8 * size)
  }

  function Init(): State {
    State(SendName, 0, 0, GetName, [], 0, [], [], 0, 0, 0, 0)
  }

  /** The file position after k full reads. */
  function Offset(job: Job, k: nat): (o: nat)
    ensures o <= |job.file|
  {
    if k * MSGSIZE < |job.file| then k * MSGSIZE else |job.file|
  }

  /** What read returns at a file position: nothing at the end of the file. */
  function Read(job: Job, offset: nat): seq<byte>
    requires offset <= |job.file|
  {
    if offset + MSGSIZE < |job.file| then job.file[offset..offset + MSGSIZE] else job.file[offset..]
  }

  datatype Who = TheSender | TheReceiver

  predicate Enabled(job: Job, s: State, who: Who) {
    match who
    case TheSender =>
      (match s.snd
       case SendName => true
       case NameCheck => s.toSender > 0
       case SendSize => true
       case SizeCheck => s.toSender > 0
       case Window(i) => s.offset <= |job.file|
       case Loop => s.offset <= |job.file|
       case LoopCheck(_) => s.toSender > 0
       case Final(i) => i < job.window ==> s.toSender > 0
       case SenderDone => false)
    case TheReceiver =>
      match s.rcv
      case GetName => s.toReceiver != [] && s.toReceiver[0].Name?
      case NameAck => true
      case GetSize => s.toReceiver != [] && s.toReceiver[0].Size?
      case SizeAck => true
      case GetChunk => |s.written| < s.size ==> s.toReceiver != [] && s.toReceiver[0].Chunk?
      case ChunkAck => true
      case ReceiverDone => false
  }

  function SentChunk(job: Job, s: State): State
    requires s.offset <= |job.file|
  {
    var data := Read(job, s.offset);
    s.(offset := s.offset + |data|, toReceiver := s.toReceiver + [Chunk(data)], sent := s.sent + 1)
  }

  function SenderNext(job: Job, s: State): State
    requires Enabled(job, s, TheSender)
  {
    match s.snd
    case SendName => s.(snd := NameCheck, toReceiver := s.toReceiver + [Name(job.name + "_copy")])
    case NameCheck => s.(snd := SendSize, toSender := s.toSender - 1)
    case SendSize => s.(snd := SizeCheck, toReceiver := s.toReceiver + [Size(ToText(|job.file|))])
    case SizeCheck => s.(snd := Window(0), toSender := s.toSender - 1)
    case Window(i) =>
      if i < job.window then
        SentChunk(job, s).(snd := Window(i + 1), sentSize := s.sentSize + |Read(job, s.offset)|)
      else s.(snd := Loop)
    case Loop =>
      if s.sentSize < |job.file| then SentChunk(job, s).(snd := LoopCheck(|Read(job, s.offset)|))
      else s.(snd := Final(0))
    case LoopCheck(n) => s.(snd := Loop, sentSize := s.sentSize + n, toSender := s.toSender - 1, acked := s.acked + 1)
    case Final(i) =>
      if i < job.window then s.(snd := Final(i + 1), toSender := s.toSender - 1, acked := s.acked + 1)
      else s.(snd := SenderDone)
  }

  function ReceiverNext(job: Job, s: State): State
    requires Enabled(job, s, TheReceiver)
  {
    match s.rcv
    case GetName => s.(rcv := NameAck, toReceiver := s.toReceiver[1..], target := s.toReceiver[0].name)
    case NameAck => s.(rcv := GetSize, toSender := s.toSender + 1)
    case GetSize => s.(rcv := SizeAck, toReceiver := s.toReceiver[1..], size := ToInt32(Strtol(s.toReceiver[0].text, 0)))
    case SizeAck => s.(rcv := GetChunk, toSender := s.toSender + 1)
    case GetChunk =>
      if |s.written| < s.size then
        s.(rcv := ChunkAck, toReceiver := s.toReceiver[1..], written := s.written + s.toReceiver[0].data, got := s.got + 1)
      else s.(rcv := ReceiverDone)
    case ChunkAck => s.(rcv := GetChunk, toSender := s.toSender + 1)
  }

  function Next(job: Job, s: State, who: Who): State
    requires Enabled(job, s, who)
  {
    if who.TheSender? then SenderNext(job, s) else ReceiverNext(job, s)
  }

  // ---------- Runs ----------

  function After(job: Job, run: seq<Who>): State
    requires Possible(job, run)
    decreases |run|, 1
  {
    if run == [] then Init() else Next(job, After(job, run[..|run| - 1]), run[|run| - 1])
  }

  predicate Possible(job: Job, run: seq<Who>)
    decreases |run|, 0
  {
    run == [] || (Possible(job, run[..|run| - 1]) && Enabled(job, After(job, run[..|run| - 1]), run[|run| - 1]))
  }

  /** No process can move: both have ended, or they wait for each other. */
  predicate Stuck(job: Job, s: State) {
    !Enabled(job, s, TheSender) && !Enabled(job, s, TheReceiver)
  }

  /** Both have ended, the copy is the file, and no message or acknowledgement is left over. */
  predicate Complete(job: Job, s: State) {
    && s.snd.SenderDone? && s.rcv.ReceiverDone? && s.toReceiver == [] && s.toSender == 0
    && s.target == job.name + "_copy" && s.written == job.file
  }

  function ChunksOf(n: nat): nat {
    if n == 0 then 0 else if n <= MSGSIZE then 1 else 1 + ChunksOf(n - MSGSIZE)
  }

  /** The number of chunks of the file. */
  function Chunks(job: Job): nat {
    ChunksOf(|job.file|)
  }

  lemma {:induction false} ChunksIff(n: nat, k: nat)
    ensures k * 1396 < n <==> k < ChunksOf(n)
    decreases k
  {
    if k > 0 && n > MSGSIZE {
      ChunksIff(n - MSGSIZE, k - 1);
    }
  }

  predicate Sensible(job: Job) {
    0 < |job.file| < 0x8000_0000
  }

  function W(job: Job): nat {
    if job.window > 0 then job.window else 0
  }

  // ---------- The invariant ----------

  /** The chunks from a to b, as they travel. */
  function Travelling(job: Job, a: nat, b: nat): (q: seq<Packet>)
    requires a <= b
    ensures |q| == b - a
    decreases b - a
  {
    if a == b then [] else Travelling(job, a, b - 1) + [Chunk(Read(job, Offset(job, b - 1)))]
  }

  /** The part of the sender's state that follows from its position. */
  predicate SenderOk(job: Job, s: State) {
    && s.offset == Offset(job, s.sent)
    && (s.sent <= W(job) || s.sent <= Chunks(job))
    && match s.snd
       case Window(i) => s.sent == i && i <= W(job) && s.acked == 0 && s.sentSize == s.offset
       case Loop => s.sent == s.acked + W(job) && s.sentSize == s.offset
       case LoopCheck(n) => s.sent == s.acked + W(job) + 1 && s.sentSize + n == s.offset && n > 0
       case Final(i) => s.sent + i == s.acked + W(job) && i <= W(job) <= s.sent && s.offset == |job.file|
       case SenderDone => s.sent == s.acked && W(job) <= s.sent && s.offset == |job.file|
       case _ => true
  }

  predicate DataPhase(s: State) {
    !(s.snd.SendName? || s.snd.NameCheck? || s.snd.SendSize? || s.snd.SizeCheck?)
  }

  predicate ReceiverOk(job: Job, s: State) {
    && s.size == |job.file|
    && s.got <= s.sent && s.got <= Chunks(job)
    && s.written == job.file[..Offset(job, s.got)]
    && s.toReceiver == Travelling(job, s.got, s.sent)
    && match s.rcv
       case GetChunk => s.toSender + s.acked == s.got
       case ChunkAck => s.toSender + s.acked + 1 == s.got
       case ReceiverDone => s.toSender + s.acked == s.got && |s.written| == |job.file|
       case _ => false
  }

  predicate Fresh(s: State) {
    s.offset == 0 && s.sentSize == 0 && s.written == [] && s.sent == 0 && s.got == 0 && s.acked == 0
  }

  /** Before the data: one message or one acknowledgement is on its way. */
  predicate HandshakeOk(job: Job, s: State) {
    && Fresh(s)
    && match s.snd
       case SendName => s.rcv.GetName? && s.toReceiver == [] && s.toSender == 0
       case NameCheck =>
         || (s.rcv.GetName? && s.toReceiver == [Name(job.name + "_copy")] && s.toSender == 0)
         || (s.rcv.NameAck? && s.toReceiver == [] && s.toSender == 0)
         || (s.rcv.GetSize? && s.toReceiver == [] && s.toSender == 1)
       case SendSize => s.rcv.GetSize? && s.toReceiver == [] && s.toSender == 0
       case SizeCheck =>
         || (s.rcv.GetSize? && s.toReceiver == [Size(ToText(|job.file|))] && s.toSender == 0)
         || (s.rcv.SizeAck? && s.toReceiver == [] && s.toSender == 0 && s.size == |job.file|)
         || (s.rcv.GetChunk? && s.toReceiver == [] && s.toSender == 1 && s.size == |job.file|)
       case _ => false
  }

  predicate Inv(job: Job, s: State) {
    && (!s.rcv.GetName? ==> s.target == job.name + "_copy")
    && if DataPhase(s) then SenderOk(job, s) && ReceiverOk(job, s) else HandshakeOk(job, s)
  }

  lemma OffsetStep(job: Job, k: nat)
    requires Sensible(job)
    ensures Offset(job, k) + |Read(job, Offset(job, k))| == Offset(job, k + 1)
    ensures Offset(job, k) < |job.file| <==> k < Chunks(job)
    ensures Offset(job, k) < |job.file| ==> Read(job, Offset(job, k)) != []
    ensures job.file[..Offset(job, k)] + Read(job, Offset(job, k)) == job.file[..Offset(job, k + 1)]
  {
    ChunksIff(|job.file|, k);
  }

  lemma TravellingPush(job: Job, a: nat, b: nat)
    requires a <= b
    ensures Travelling(job, a, b + 1) == Travelling(job, a, b) + [Chunk(Read(job, Offset(job, b)))]
  {
  }

  lemma {:induction false} TravellingPop(job: Job, a: nat, b: nat)
    requires a < b
    ensures Travelling(job, a, b)[0] == Chunk(Read(job, Offset(job, a)))
    ensures Travelling(job, a, b)[1..] == Travelling(job, a + 1, b)
    decreases b - a
  {
    if a + 1 < b {
      TravellingPop(job, a, b - 1);
    }
  }

  /** Sending the next chunk. */
  lemma ChunkSent(job: Job, s: State)
    requires Sensible(job) && s.offset == Offset(job, s.sent) && ReceiverOk(job, s)
    ensures var s' := SentChunk(job, s);
            && s'.offset == Offset(job, s.sent + 1) && s'.sent == s.sent + 1
            && s'.toReceiver == Travelling(job, s.got, s.sent + 1)
  {
    OffsetStep(job, s.sent);
    TravellingPush(job, s.got, s.sent);
  }

  lemma SendingInv(job: Job, s: State)
    requires Sensible(job) && DataPhase(s) && Inv(job, s) && Enabled(job, s, TheSender)
    requires (s.snd.Window? && s.snd.i < job.window) || (s.snd.Loop? && s.sentSize < |job.file|)
    ensures Inv(job, SenderNext(job, s))
  {
    OffsetStep(job, s.sent);
    ChunkSent(job, s);
  }

  lemma SenderDataInv(job: Job, s: State)
    requires Sensible(job) && DataPhase(s) && Inv(job, s) && Enabled(job, s, TheSender)
    ensures Inv(job, SenderNext(job, s))
  {
    if (s.snd.Window? && s.snd.i < job.window) || (s.snd.Loop? && s.sentSize < |job.file|) {
      SendingInv(job, s);
    } else {
      assert SenderNext(job, s).toReceiver == s.toReceiver;
    }
  }

  lemma SenderInv(job: Job, s: State)
    requires Sensible(job) && Inv(job, s) && Enabled(job, s, TheSender)
    ensures Inv(job, SenderNext(job, s))
  {
    if DataPhase(s) {
      SenderDataInv(job, s);
    } else if s.snd.SizeCheck? {
      assert job.file[..0] == [];
      assert Offset(job, 0) == 0;
    }
  }

  lemma SizeIsRead(job: Job)
    requires Sensible(job)
    ensures ToInt32(Strtol(ToText(|job.file|), 0)) == |job.file|
  {
    ReadBack([], |job.file|, []);
    assert [] + ToText(|job.file|) + [] == ToText(|job.file|);
  }

  /** Writing the next chunk. */
  lemma ChunkWritten(job: Job, s: State)
    requires Sensible(job) && ReceiverOk(job, s) && s.rcv.GetChunk? && |s.written| < s.size
    requires Enabled(job, s, TheReceiver)
    ensures var s' := ReceiverNext(job, s);
            && s.got < s.sent && s.got < Chunks(job)
            && s'.written == job.file[..Offset(job, s.got + 1)] && |s'.written| > |s.written|
            && s'.toReceiver == Travelling(job, s.got + 1, s.sent)
  {
    OffsetStep(job, s.got);
    TravellingPop(job, s.got, s.sent);
  }

  lemma ReceiverInv(job: Job, s: State)
    requires Sensible(job) && Inv(job, s) && Enabled(job, s, TheReceiver)
    ensures Inv(job, ReceiverNext(job, s))
  {
    if DataPhase(s) && s.rcv.GetChunk? && |s.written| < s.size {
      ChunkWritten(job, s);
    } else if s.rcv.GetSize? {
      SizeIsRead(job);
    }
  }

  lemma {:induction false} ReachableInv(job: Job, run: seq<Who>)
    requires Sensible(job) && Possible(job, run)
    ensures Inv(job, After(job, run))
  {
    if run != [] {
      var init := run[..|run| - 1];
      ReachableInv(job, init);
      if run[|run| - 1].TheSender? {
        SenderInv(job, After(job, init));
      } else {
        ReceiverInv(job, After(job, init));
      }
    }
  }

  // ---------- Termination ----------

  function Remaining(job: Job, n: nat): nat {
    if n < |job.file| then |job.file| - n else 0
  }

  function SenderRank(job: Job, s: State): int {
    match s.snd
    case SendName => 2 * W(job) + 2 * |job.file| + 7
    case NameCheck => 2 * W(job) + 2 * |job.file| + 6
    case SendSize => 2 * W(job) + 2 * |job.file| + 5
    case SizeCheck => 2 * W(job) + 2 * |job.file| + 4
    case Window(i) => 2 * W(job) - i + 2 * |job.file| + 3
    case Loop => W(job) + 2 * Remaining(job, s.sentSize) + 2
    case LoopCheck(_) => W(job) + 2 * Remaining(job, s.sentSize) + 1
    case Final(i) => W(job) - i + 1
    case SenderDone => 0
  }

  function ReceiverRank(job: Job, s: State): int {
    match s.rcv
    case GetName => 2 * |job.file| + 5
    case NameAck => 2 * |job.file| + 4
    case GetSize => 2 * |job.file| + 3
    case SizeAck => 2 * |job.file| + 2
    case GetChunk => 2 * Remaining(job, |s.written|) + 1
    case ChunkAck => 2 * Remaining(job, |s.written|) + 2
    case ReceiverDone => 0
  }

  function Rank(job: Job, s: State): int {
    SenderRank(job, s) + ReceiverRank(job, s)
  }

  lemma SenderRankDecreases(job: Job, s: State)
    requires Sensible(job) && Inv(job, s) && Enabled(job, s, TheSender)
    ensures 0 <= SenderRank(job, SenderNext(job, s)) < SenderRank(job, s)
  {
    match s.snd
    case LoopCheck(n) =>
      assert s.sentSize + n <= |job.file|;
    case Window(i) =>
      assert i <= W(job);
    case Final(i) =>
      assert i <= W(job);
    case _ =>
  }

  lemma ReceiverRankDecreases(job: Job, s: State)
    requires Sensible(job) && Inv(job, s) && Enabled(job, s, TheReceiver)
    ensures 0 <= ReceiverRank(job, ReceiverNext(job, s)) < ReceiverRank(job, s)
  {
    if DataPhase(s) && s.rcv.GetChunk? && |s.written| < s.size {
      ChunkWritten(job, s);
    }
  }

  /** Every step brings the end closer. */
  lemma RankDecreases(job: Job, s: State, who: Who)
    requires Sensible(job) && Inv(job, s) && Enabled(job, s, who)
    ensures 0 <= Rank(job, Next(job, s, who)) < Rank(job, s)
  {
    if who.TheSender? {
      SenderRankDecreases(job, s);
      assert ReceiverRank(job, Next(job, s, who)) == ReceiverRank(job, s);
    } else {
      ReceiverRankDecreases(job, s);
      assert SenderRank(job, Next(job, s, who)) == SenderRank(job, s);
    }
  }

  /** Every schedule ends after a bounded number of steps. */
  lemma {:induction false} RunsEnd(job: Job, run: seq<Who>)
    requires Sensible(job) && Possible(job, run)
    ensures |run| + Rank(job, After(job, run)) <= Rank(job, Init())
  {
    if run != [] {
      var init := run[..|run| - 1];
      RunsEnd(job, init);
      ReachableInv(job, init);
      RankDecreases(job, After(job, init), run[|run| - 1]);
    }
  }

  // ---------- The theorems ----------

  /** At most window_size + 1 chunks are unacknowledged at any time. */
  lemma FewUnacknowledged(job: Job, run: seq<Who>)
    requires Sensible(job) && Possible(job, run)
    ensures var s := After(job, run); s.acked <= s.sent <= s.acked + W(job) + 1
  {
    ReachableInv(job, run);
  }

  /** With a window that fits the file, processes that cannot move have finished the copy. */
  lemma StuckIsComplete(job: Job, s: State)
    requires Sensible(job) && Inv(job, s) && Stuck(job, s) && job.window <= Chunks(job)
    ensures Complete(job, s)
  {
    OffsetStep(job, s.sent);
    OffsetStep(job, s.got);
    if s.rcv.GetChunk? && DataPhase(s) && s.got < s.sent {
      TravellingPop(job, s.got, s.sent);
    }
    assert job.file[..|job.file|] == job.file;
  }

  /** With a larger window the sender waits for acknowledgements that never come. */
  lemma LargeWindowNeverEnds(job: Job, s: State)
    requires Sensible(job) && Inv(job, s) && job.window > Chunks(job)
    ensures !s.snd.SenderDone?
  {
  }

  /** Any run can be continued until nobody can move. */
  lemma {:induction false} RunToEnd(job: Job, run: seq<Who>) returns (full: seq<Who>)
    requires Sensible(job) && Possible(job, run)
    ensures run <= full && Possible(job, full) && Stuck(job, After(job, full))
    decreases Rank(job, Init()) - |run|
  {
    var s := After(job, run);
    if Stuck(job, s) {
      return run;
    }
    var who := if Enabled(job, s, TheSender) then TheSender else TheReceiver;
    var longer := run + [who];
    assert longer[..|longer| - 1] == run;
    ReachableInv(job, run);
    RankDecreases(job, s, who);
    RunsEnd(job, longer);
    full := RunToEnd(job, longer);
  }

  /**
   Every schedule that cannot go on has copied the file completely, with every
   acknowledgement consumed, exactly when the window is no larger than the file: otherwise
   every schedule ends in a deadlock.
   */
  lemma TransferCompletesIff(job: Job)
    requires Sensible(job)
    ensures (forall run :: Possible(job, run) && Stuck(job, After(job, run)) ==> Complete(job, After(job, run)))
            <==> job.window <= Chunks(job)
    ensures job.window > Chunks(job) ==>
              forall run :: Possible(job, run) ==> !After(job, run).snd.SenderDone?
  {
    forall run | Possible(job, run)
      ensures job.window <= Chunks(job) && Stuck(job, After(job, run)) ==> Complete(job, After(job, run))
      ensures job.window > Chunks(job) ==> !After(job, run).snd.SenderDone?
    {
      ReachableInv(job, run);
      if job.window > Chunks(job) {
        LargeWindowNeverEnds(job, After(job, run));
      } else if Stuck(job, After(job, run)) {
        StuckIsComplete(job, After(job, run));
      }
    }
    if job.window > Chunks(job) {
      var full := RunToEnd(job, []);
      assert !Complete(job, After(job, full));
    }
  }

  lemma QuotientAtMost(a: int, b: int, c: nat)
    requires b > 0
    ensures Quotient(a, b) <= c <==> a < b * c + b
  {
    if a >= 0 {
      var q, r := a / b, a % b;
      assert a == b * q + r;
      if q <= c {
        assert b * q <= b * c;
      } else {
        assert b * q >= b * (c + 1);
        assert b * (c + 1) == b * c + b;
      }
    } else {
      assert -a / b >= 0;
      assert b * c >= 0;
    }
  }

  /** The condition on the command line argument: the window fits the file iff the product is small. */
  lemma WindowFitsIff(job: Job, count: int)
    requires Sensible(job) && job.window == WindowSize(count, |job.file|)
    ensures job.window <= Chunks(job) <==> count * 100 < 8 * |job.file| * Chunks(job) + 8 * |job.file|
  {
    QuotientAtMost(count * 100, 8 * |job.file|, Chunks(job));
  }
}
