/**
 The link emulator: the thread that accepts messages from side 1 and the scheduler that
 delays them and sends them to side 2, sharing a buffer under a mutex.

 Each region between lock and unlock, and each local step, is one atomic step; a message
 in a thread's local variable is part of the state.  Queues are sequences, oldest first.
 The clock may return anything.
 */
module Link {
  import opened Message
  const BUFFER_SIZE: nat := 1000

  /** The settings given on the command line, in microseconds and percent. */
  datatype Config = Config(serialization: int, delay: int, loss: int, corrupt: int) {
    predicate Ok() {
      serialization > 0 && delay >= 0
    }
  }

  datatype InFlight = InFlight(m: Msg, finish: int)

  datatype Forwarder =
    | Receiving
    | Checking(m: Msg)
    | Deciding(m: Msg, overflow: bool)
    | Putting(m: Msg)

  datatype Scheduler =
    | Starting
    | Draining(crt: int)
    | Sending(crt: int, mif: InFlight)
    | Peeking(crt: int)
    | Testing(crt: int, stuff: bool)
    | Taking(crt: int)
    | Launching(crt: int, m: Msg)
    | Resting(crt: int)
    | Sleeping(crt: int, wait: int)
    | Blocked(signalled: bool)
    | Aborted  // an assertion failed: the process is gone

  /** What became of an arrival; full says that the buffer had no room when it was checked. */
  datatype Fate = Dropped(full: bool) | Accepted(m: Msg)

  /**
   From arrived on the fields are histories; news counts the messages put since the scheduler
   last peeked, started and left are the clock readings at which the messages entered and left
   the channel.
   */
  datatype State = State(fw: Forwarder, sch: Scheduler, buffer: seq<Msg>, inFlight: seq<InFlight>, idleTime: int,
                         arrived: seq<Msg>, fates: seq<Fate>, delivered: seq<Msg>, news: nat,
                         started: seq<int>, left: seq<int>)

  function Init(): State {
    State(Receiving, Starting, [], [], 0, [], [], [], 0, [], [])
  }

  datatype Step =
    // run_forwarding
    | Arrive(m: Msg)
    | CheckSpace
    | Decide(r1: int, r2: int, i: nat, j: nat)  // the four random draws
    | Put
    // link_scheduler
    | ReadClock(now: int)
    | Drain
    | Send
    | Peek
    | Test
    | Take
    | Launch
    | Rest
    | Wake

  predicate Corrupts(cfg: Config, r2: int) {
    r2 < cfg.corrupt
  }

  /** A remainder modulo the length is below this, as rand returns no negative numbers. */
  function Magnitude(len: int): nat {
    if len < 0 then -len else len
  }

  /** The draws say that a byte of the message is picked, modulo its length, and changed. */
  predicate Damages(cfg: Config, fw: Forwarder, r1: int, r2: int)
    requires fw.Deciding?
  {
    !fw.overflow && r1 >= cfg.loss && Corrupts(cfg, r2)
  }

  predicate Enabled(cfg: Config, s: State, t: Step) {
    s.sch != Aborted &&
    match t
    case Arrive(m) => s.fw.Receiving? && |m.payload| == MSGSIZE
    case CheckSpace => s.fw.Checking?
    case Decide(r1, r2, i, j) =>
      && s.fw.Deciding? && 0 <= r1 < 100 && 0 <= r2 < 100 && j < 8 && |s.fw.m.payload| == MSGSIZE
      && (Damages(cfg, s.fw, r1, r2) ==> i < Magnitude(s.fw.m.len) && i < MSGSIZE)
    case Put => s.fw.Putting?
    case ReadClock(_) => s.sch.Starting?
    case Drain => s.sch.Draining?
    case Send => s.sch.Sending?
    case Peek => s.sch.Peeking?
    case Test => s.sch.Testing?
    case Take => s.sch.Taking?
    case Launch => s.sch.Launching?
    case Rest => s.sch.Resting?
    case Wake => s.sch.Sleeping? || s.sch.Blocked?  // the wait on the condition may also end spuriously
  }

  /** wait_time, given the times until the channel is idle and until the oldest message is due. */
  function WaitTime(idle: int, send: int): int {
    var wait := if idle > 0 then idle else 0;
    if send > 0 && send < wait then send else wait
  }

  function IdleWait(s: State, crt: int): int {
    s.idleTime - crt
  }

  function SendWait(s: State, crt: int): int {
    if s.inFlight != [] then s.inFlight[0].finish - crt else 0
  }

  /** Lines 253-278: sleep, or wait for the forwarder once the buffer is seen to be empty. */
  function Rested(s: State, crt: int): Scheduler {
    if IdleWait(s, crt) > 0 || SendWait(s, crt) > 0 then Sleeping(crt, WaitTime(IdleWait(s, crt), SendWait(s, crt)))
    else if s.buffer != [] then Aborted
    else Blocked(false)
  }

  function Next(cfg: Config, s: State, t: Step): State
    requires Enabled(cfg, s, t)
  {
    match t
    case Arrive(m) => s.(fw := Checking(m), arrived := s.arrived + [m])
    case CheckSpace => s.(fw := Deciding(s.fw.m, |s.buffer| >= BUFFER_SIZE))
    case Decide(r1, r2, i, j) =>
      if s.fw.overflow || r1 < cfg.loss then s.(fw := Receiving, fates := s.fates + [Dropped(s.fw.overflow)])
      else s.(fw := Putting(if Corrupts(cfg, r2) then Flip(s.fw.m, i, j) else s.fw.m))
    case Put =>
      s.(fw := Receiving, buffer := s.buffer + [s.fw.m], fates := s.fates + [Accepted(s.fw.m)], news := s.news + 1,
      sch := if s.sch.Blocked? then Blocked(true) else s.sch)
    case ReadClock(now) => s.(sch := Draining(now))
    case Drain =>
      if s.inFlight != [] && s.sch.crt >= s.inFlight[0].finish then
        s.(inFlight := s.inFlight[1..], sch := Sending(s.sch.crt, s.inFlight[0]))
      else s.(sch := Peeking(s.sch.crt))
    case Send => 
      s.(sch := Draining(s.sch.crt), delivered := s.delivered + [s.sch.mif.m], left := s.left + [s.sch.crt])
    case Peek => s.(sch := Testing(s.sch.crt, |s.buffer| > 0), news := 0)
    case Test =>
      if s.sch.stuff && s.sch.crt >= s.idleTime then
        s.(idleTime := s.sch.crt + cfg.serialization, sch := Taking(s.sch.crt), started := s.started + [s.sch.crt])
      else s.(sch := Resting(s.sch.crt))
    case Take =>
      // dequeue returns NULL on an empty queue, and the assertion on line 242 fails
      if s.buffer == [] then s.(sch := Aborted)
      else s.(buffer := s.buffer[1..], sch := Launching(s.sch.crt, s.buffer[0]))
    case Launch =>
      s.(sch := Resting(s.sch.crt),
      inFlight := s.inFlight + [InFlight(s.sch.m, s.sch.crt + cfg.serialization + cfg.delay)])
    case Rest => s.(sch := Rested(s, s.sch.crt))
    case Wake => s.(sch := Starting)
  }

  // ---------- Runs: any interleaving of the two threads ----------

  function After(cfg: Config, run: seq<Step>): State
    requires Possible(cfg, run)
    decreases |run|, 1
  {
    if run == [] then Init() else Next(cfg, After(cfg, run[..|run| - 1]), run[|run| - 1])
  }

  predicate Possible(cfg: Config, run: seq<Step>)
    decreases |run|, 0
  {
    run == [] || (Possible(cfg, run[..|run| - 1]) && Enabled(cfg, After(cfg, run[..|run| - 1]), run[|run| - 1]))
  }

  // ---------- Where the messages are ----------

  /** The accepted messages, in order. */
  function AcceptedOf(fates: seq<Fate>): seq<Msg> {
    if fates == [] then []
    else
      var f := fates[|fates| - 1];
      AcceptedOf(fates[..|fates| - 1]) + if f.Accepted? then [f.m] else []
  }

  function Messages(q: seq<InFlight>): (ms: seq<Msg>)
    ensures |ms| == |q|
    ensures forall i :: 0 <= i < |q| ==> ms[i] == q[i].m
  {
    seq(|q|, i requires 0 <= i < |q| => q[i].m)
  }

  /** Taken out of the in-flight queue and not yet sent. */
  function Leaving(s: State): seq<Msg> {
    if s.sch.Sending? then [s.sch.mif.m] else []
  }

  /** Taken out of the buffer and not yet in flight. */
  function Entering(s: State): seq<Msg> {
    if s.sch.Launching? then [s.sch.m] else []
  }

  /** Every accepted message is in exactly one place, and none overtakes another. */
  ghost predicate Conserved(s: State) {
    AcceptedOf(s.fates) == s.delivered + (Leaving(s) + Messages(s.inFlight) + Entering(s)) + s.buffer
  }

  /** What the forwarder may make of an arrival that it accepts. */
  ghost predicate MayBecome(cfg: Config, a: Msg, m: Msg) {
    (cfg.corrupt < 100 && m == a) ||
    (cfg.corrupt > 0 && exists i, j :: 0 <= i < |a.payload| && i < Magnitude(a.len) && 0 <= j < 8 && m == Flip(a, i, j))
  }

  /**
   Each arrival is decided once: dropped for lack of room or by the loss rate, or accepted
   as it is or with one bit flipped.
   */
  ghost predicate Decided(cfg: Config, s: State) {
    && |s.arrived| == |s.fates| + (if s.fw.Receiving? then 0 else 1)
    && (forall i :: 0 <= i < |s.fates| && s.fates[i].Accepted? ==> MayBecome(cfg, s.arrived[i], s.fates[i].m))
    && (forall i :: 0 <= i < |s.fates| ==> if s.fates[i].Dropped? then s.fates[i].full || cfg.loss > 0 else cfg.loss < 100)
    && match s.fw
       case Receiving => true
       case Checking(m) => m == s.arrived[|s.fates|]
       case Deciding(m, _) => m == s.arrived[|s.fates|]
       case Putting(m) => MayBecome(cfg, s.arrived[|s.fates|], m) && cfg.loss < 100
  }

  /** The tests made in one critical section still hold in the next. */
  predicate Bounded(s: State) {
    && |s.buffer| <= BUFFER_SIZE
    && (s.fw.Deciding? && !s.fw.overflow ==> |s.buffer| < BUFFER_SIZE)
    && (s.fw.Putting? ==> |s.buffer| < BUFFER_SIZE)
    && (s.sch.Testing? && s.sch.stuff ==> s.buffer != [])
    && (s.sch.Taking? ==> s.buffer != [])
  }

  // ---------- Time ----------

  ghost predicate Spaced(cfg: Config, q: seq<InFlight>) {
    forall i {:trigger q[i]} :: 0 < i < |q| ==> q[i].finish - q[i - 1].finish >= cfg.serialization
  }

  /** No message in flight is due at the time at which the scheduler works. */
  predicate NoneDue(s: State, crt: int) {
    s.inFlight != [] ==> crt < s.inFlight[0].finish
  }

  function LastFinish(s: State): int
    requires s.inFlight != []
  {
    s.inFlight[|s.inFlight| - 1].finish
  }

  ghost predicate Paced(cfg: Config, s: State) {
    && Spaced(cfg, s.inFlight)
    && (s.inFlight != [] ==> LastFinish(s) - s.inFlight[0].finish < cfg.serialization + cfg.delay)
    && (if s.sch.Taking? || s.sch.Launching?
        then s.idleTime == s.sch.crt + cfg.serialization && (s.inFlight != [] ==> LastFinish(s) <= s.sch.crt + cfg.delay)
        else s.inFlight != [] ==> LastFinish(s) <= s.idleTime + cfg.delay)
    && (s.sch.Peeking? || s.sch.Testing? || s.sch.Taking? || s.sch.Launching? || s.sch.Resting? || s.sch.Sleeping?
        ==> NoneDue(s, s.sch.crt))
    && (s.sch.Sending? ==> s.sch.mif.finish <= s.sch.crt)
  }

  /** When the channel is busy: the earlier of its end and the time of the oldest message; now, when it is idle. */
  predicate SleepsUntil(s: State, crt: int, end: int) {
    if s.idleTime <= crt then end == crt
    else if s.inFlight == [] then end == s.idleTime
    else end <= s.idleTime && end <= s.inFlight[0].finish && (end == s.idleTime || end == s.inFlight[0].finish)
  }

  /** What the scheduler knows when it stops working. */
  ghost predicate Waits(s: State) {
    && (s.sch.Testing? && !s.sch.stuff ==> |s.buffer| == s.news)
    && (s.sch.Resting? ==> s.idleTime > s.sch.crt || |s.buffer| == s.news)
    && (s.sch.Sleeping? ==> SleepsUntil(s, s.sch.crt, s.sch.crt + s.sch.wait))
    && (s.sch.Sleeping? && s.inFlight != [] ==> s.sch.crt < s.inFlight[0].finish)
    && (s.sch.Blocked? ==> s.inFlight == [])
    && (s.sch.Blocked? && !s.sch.signalled ==> s.buffer == [])
  }

  // ---------- Every step keeps the invariants ----------

  lemma PutConserved(cfg: Config, s: State)
    requires Enabled(cfg, s, Put) && Conserved(s)
    ensures Conserved(Next(cfg, s, Put))
  {
    var s' := Next(cfg, s, Put);
    assert s'.fates[..|s'.fates| - 1] == s.fates;
    var path := Leaving(s) + Messages(s.inFlight) + Entering(s);
    assert Leaving(s') + Messages(s'.inFlight) + Entering(s') == path;
    assert s.delivered + path + s.buffer + [s.fw.m] == s.delivered + path + (s.buffer + [s.fw.m]);
  }

  lemma DecideConserved(cfg: Config, s: State, t: Step)
    requires t.Decide? && Enabled(cfg, s, t) && Conserved(s)
    ensures Conserved(Next(cfg, s, t))
  {
    var s' := Next(cfg, s, t);
    if s'.fw.Receiving? {
      assert s'.fates[..|s'.fates| - 1] == s.fates;
    }
  }

  lemma MessagesHead(q: seq<InFlight>)
    requires q != []
    ensures Messages(q) == [q[0].m] + Messages(q[1..])
  {
  }

  lemma NoneEntering<T>(path: seq<T>, leaving: seq<T>, rest: seq<T>)
    requires path == leaving + rest
    ensures [] + path + [] == leaving + rest + []
  {
  }

  lemma DrainConserved(cfg: Config, s: State)
    requires Enabled(cfg, s, Drain) && Conserved(s)
    ensures Conserved(Next(cfg, s, Drain))
  {
    var s' := Next(cfg, s, Drain);
    if s'.sch.Sending? {
      MessagesHead(s.inFlight);
    }
    NoneEntering(Messages(s.inFlight), Leaving(s'), Messages(s'.inFlight));
  }

  lemma MoveAcross<T>(a: seq<T>, x: T, b: seq<T>)
    ensures a + ([x] + b) == a + [x] + b
  {
  }

  lemma SendConserved(cfg: Config, s: State)
    requires Enabled(cfg, s, Send) && Conserved(s)
    ensures Conserved(Next(cfg, s, Send))
  {
    var s' := Next(cfg, s, Send);
    var rest := Messages(s.inFlight);
    assert Leaving(s) + rest + Entering(s) == [s.sch.mif.m] + rest;
    assert Leaving(s') + rest + Entering(s') == rest;
    MoveAcross(s.delivered, s.sch.mif.m, rest);
  }

  lemma TakeHead<T>(a: seq<T>, b: seq<T>, c: seq<T>)
    requires c != []
    ensures a + b + c == a + (b + [c[0]]) + c[1..]
  {
  }

  lemma TakeConserved(cfg: Config, s: State)
    requires Enabled(cfg, s, Take) && Conserved(s)
    ensures Conserved(Next(cfg, s, Take))
  {
    var s' := Next(cfg, s, Take);
    var path := Messages(s.inFlight);
    assert Leaving(s) + path + Entering(s) == path;
    if s.buffer != [] {
      assert Leaving(s') + path + Entering(s') == path + [s.buffer[0]];
      TakeHead(s.delivered, path, s.buffer);
    }
  }

  lemma LaunchConserved(cfg: Config, s: State)
    requires Enabled(cfg, s, Launch) && Conserved(s)
    ensures Conserved(Next(cfg, s, Launch))
  {
    var s' := Next(cfg, s, Launch);
    assert Messages(s'.inFlight) == Messages(s.inFlight) + [s.sch.m];
    assert Leaving(s') + Messages(s'.inFlight) + Entering(s') == Leaving(s) + Messages(s.inFlight) + Entering(s);
  }

  lemma ConservedStep(cfg: Config, s: State, t: Step)
    requires Enabled(cfg, s, t) && Conserved(s)
    ensures Conserved(Next(cfg, s, t))
  {
    match t
    case Put => PutConserved(cfg, s);
    case Decide(_, _, _, _) => DecideConserved(cfg, s, t);
    case Drain => DrainConserved(cfg, s);
    case Send => SendConserved(cfg, s);
    case Take => TakeConserved(cfg, s);
    case Launch => LaunchConserved(cfg, s);
    case _ =>
      var s' := Next(cfg, s, t);
      assert Leaving(s') == Leaving(s) && Entering(s') == Entering(s);
  }

  lemma DecidedStep(cfg: Config, s: State, t: Step)
    requires Enabled(cfg, s, t) && Decided(cfg, s)
    ensures Decided(cfg, Next(cfg, s, t))
  {
    var s' := Next(cfg, s, t);
    assert forall i :: 0 <= i < |s.fates| ==> s'.fates[i] == s.fates[i];
    assert forall i :: 0 <= i < |s.arrived| ==> s'.arrived[i] == s.arrived[i];
  }

  lemma BoundedStep(cfg: Config, s: State, t: Step)
    requires Enabled(cfg, s, t) && Bounded(s)
    ensures Bounded(Next(cfg, s, t))
  {
  }

  lemma SpacedTail(cfg: Config, q: seq<InFlight>)
    requires cfg.Ok() && Spaced(cfg, q) && q != []
    ensures Spaced(cfg, q[1..])
    ensures |q| > 1 ==> q[1..][0].finish > q[0].finish && q[1..][|q| - 2] == q[|q| - 1]
  {
    var r := q[1..];
    forall i {:trigger r[i]} | 0 < i < |r|
      ensures r[i].finish - r[i - 1].finish >= cfg.serialization
    {
      assert q[i + 1].finish - q[i].finish >= cfg.serialization;
    }
    assert |q| > 1 ==> q[1].finish - q[0].finish >= cfg.serialization;
  }

  lemma DrainPaced(cfg: Config, s: State)
    requires cfg.Ok() && Enabled(cfg, s, Drain) && Paced(cfg, s)
    ensures Paced(cfg, Next(cfg, s, Drain))
  {
    if Next(cfg, s, Drain).sch.Sending? {
      SpacedTail(cfg, s.inFlight);
    }
  }

  lemma LaunchPaced(cfg: Config, s: State)
    requires cfg.Ok() && Enabled(cfg, s, Launch) && Paced(cfg, s)
    ensures Paced(cfg, Next(cfg, s, Launch))
  {
    var s' := Next(cfg, s, Launch);
    var n := |s.inFlight|;
    assert forall i :: 0 <= i < n ==> s'.inFlight[i] == s.inFlight[i];
    assert LastFinish(s') == s.sch.crt + cfg.serialization + cfg.delay;
  }

  lemma PacedStep(cfg: Config, s: State, t: Step)
    requires cfg.Ok() && Enabled(cfg, s, t) && Paced(cfg, s)
    ensures Paced(cfg, Next(cfg, s, t))
  {
    match t
    case Drain => DrainPaced(cfg, s);
    case Launch => LaunchPaced(cfg, s);
    case _ => assert Next(cfg, s, t).inFlight == s.inFlight;
  }

  lemma WaitsStep(cfg: Config, s: State, t: Step)
    requires cfg.Ok() && Enabled(cfg, s, t) && Paced(cfg, s) && Waits(s)
    ensures Waits(Next(cfg, s, t))
  {
  }

  // ---------- The delay of each message ----------

  predicate Busy(sch: Scheduler) {
    sch.Taking? || sch.Launching?
  }

  /** When a message that enters the channel at this time has been serialized and has travelled. */
  function Due(cfg: Config, start: int): int {
    start + cfg.serialization + cfg.delay
  }

  /** The messages in flight are due a serialization and a delay after they entered the channel. */
  ghost predicate DueInFlight(cfg: Config, q: seq<InFlight>, starts: seq<int>) {
    |q| <= |starts| && forall i :: 0 <= i < |q| ==> q[i].finish == Due(cfg, starts[i])
  }

  /** No message has left before it was due. */
  ghost predicate NoneEarly(cfg: Config, started: seq<int>, left: seq<int>) {
    |left| <= |started| && forall k :: 0 <= k < |left| ==> Due(cfg, started[k]) <= left[k]
  }

  /** No two messages have been on the channel at the same time. */
  ghost predicate OneAtATime(cfg: Config, started: seq<int>) {
    forall k {:trigger started[k]} :: 0 < k < |started| ==> started[k - 1] + cfg.serialization <= started[k]
  }

  /** How many messages have been taken out of the in-flight queue, of which n have been sent. */
  function Gone(sch: Scheduler, n: nat): nat {
    if sch.Sending? then n + 1 else n
  }

  /** The scheduler, the queue and its idle time after n messages have been sent, and the history. */
  ghost predicate Clocked(cfg: Config, sch: Scheduler, q: seq<InFlight>, idleTime: int, n: nat,
                          started: seq<int>, left: seq<int>) {
    && |left| == n && |started| == Gone(sch, n) + |q| + (if Busy(sch) then 1 else 0)
    && DueInFlight(cfg, q, started[Gone(sch, n)..])
    && NoneEarly(cfg, started, left)
    && OneAtATime(cfg, started)
    && (sch.Sending? ==> sch.mif.finish == Due(cfg, started[n]))
    && (if started == [] then idleTime == 0 else idleTime == started[|started| - 1] + cfg.serialization)
    && (Busy(sch) ==> idleTime == sch.crt + cfg.serialization)
  }

  ghost predicate Timed(cfg: Config, s: State) {
    Clocked(cfg, s.sch, s.inFlight, s.idleTime, |s.delivered|, s.started, s.left)
  }

  lemma DrainClocked(cfg: Config, crt: int, q: seq<InFlight>, idleTime: int, n: nat, started: seq<int>, left: seq<int>)
    requires Clocked(cfg, Draining(crt), q, idleTime, n, started, left) && q != []
    ensures Clocked(cfg, Sending(crt, q[0]), q[1..], idleTime, n, started, left)
  {
    assert started[n..][0] == started[n] && started[n..][1..] == started[n + 1..];
    assert q[0].finish == Due(cfg, started[n..][0]);
  }

  lemma SendClocked(cfg: Config, crt: int, mif: InFlight, q: seq<InFlight>, idleTime: int, n: nat,
                    started: seq<int>, left: seq<int>)
    requires Clocked(cfg, Sending(crt, mif), q, idleTime, n, started, left) && mif.finish <= crt
    ensures Clocked(cfg, Draining(crt), q, idleTime, n + 1, started, left + [crt])
  {
  }

  lemma TestClocked(cfg: Config, crt: int, q: seq<InFlight>, idleTime: int, n: nat, started: seq<int>, left: seq<int>)
    requires Clocked(cfg, Testing(crt, true), q, idleTime, n, started, left) && idleTime <= crt
    ensures Clocked(cfg, Taking(crt), q, crt + cfg.serialization, n, started + [crt], left)
  {
    var started' := started + [crt];
    assert started'[n..] == started[n..] + [crt];
    assert forall k :: 0 <= k < |started| ==> started'[k] == started[k];
  }

  lemma LaunchClocked(cfg: Config, crt: int, m: Msg, q: seq<InFlight>, idleTime: int, n: nat,
                      started: seq<int>, left: seq<int>)
    requires Clocked(cfg, Launching(crt, m), q, idleTime, n, started, left)
    ensures Clocked(cfg, Resting(crt), q + [InFlight(m, Due(cfg, crt))], idleTime, n, started, left)
  {
    assert started[n..][|q|] == started[|started| - 1] == crt;
  }

  /** The clock and the channel are as before. */
  predicate Quiet(s: State, s': State) {
    && s'.inFlight == s.inFlight && s'.idleTime == s.idleTime && s'.started == s.started
    && s'.delivered == s.delivered && s'.left == s.left
    && (s'.sch == s.sch || (!s.sch.Sending? && !s'.sch.Sending? && Busy(s'.sch) == Busy(s.sch)
                            && (Busy(s.sch) ==> s'.sch.crt == s.sch.crt)))
  }

  lemma QuietStep(cfg: Config, s: State, t: Step)
    requires Enabled(cfg, s, t) && !t.Drain? && !t.Send? && !t.Test? && !t.Launch?
    requires s.sch.Taking? ==> s.buffer != []
    ensures Quiet(s, Next(cfg, s, t))
  {
  }

  lemma SameClock(cfg: Config, s: State, s': State)
    requires Timed(cfg, s) && Quiet(s, s')
    ensures Timed(cfg, s')
  {
  }

  lemma DrainTimed(cfg: Config, s: State)
    requires Enabled(cfg, s, Drain) && Timed(cfg, s)
    ensures Timed(cfg, Next(cfg, s, Drain))
  {
    if s.inFlight != [] && s.sch.crt >= s.inFlight[0].finish {
      DrainClocked(cfg, s.sch.crt, s.inFlight, s.idleTime, |s.delivered|, s.started, s.left);
    } else {
      SameClock(cfg, s, Next(cfg, s, Drain));
    }
  }

  lemma TestTimed(cfg: Config, s: State)
    requires Enabled(cfg, s, Test) && Timed(cfg, s)
    ensures Timed(cfg, Next(cfg, s, Test))
  {
    if s.sch.stuff && s.sch.crt >= s.idleTime {
      TestClocked(cfg, s.sch.crt, s.inFlight, s.idleTime, |s.delivered|, s.started, s.left);
    } else {
      SameClock(cfg, s, Next(cfg, s, Test));
    }
  }

  lemma TimedStep(cfg: Config, s: State, t: Step)
    requires Enabled(cfg, s, t) && Timed(cfg, s) && (s.sch.Sending? ==> s.sch.mif.finish <= s.sch.crt)
    requires s.sch.Taking? ==> s.buffer != []
    ensures Timed(cfg, Next(cfg, s, t))
  {
    match t
    case Drain => DrainTimed(cfg, s);
    case Send => SendClocked(cfg, s.sch.crt, s.sch.mif, s.inFlight, s.idleTime, |s.delivered|, s.started, s.left);
    case Test => TestTimed(cfg, s);
    case Launch => LaunchClocked(cfg, s.sch.crt, s.sch.m, s.inFlight, s.idleTime, |s.delivered|, s.started, s.left);
    case _ =>
      QuietStep(cfg, s, t);
      SameClock(cfg, s, Next(cfg, s, t));
  }

  ghost predicate Inv(cfg: Config, s: State) {
    Conserved(s) && Decided(cfg, s) && Bounded(s) && Paced(cfg, s) && Waits(s) && Timed(cfg, s)
  }

  /** In every interleaving, every reachable state satisfies all the invariants. */
  lemma {:induction false} ReachableInv(cfg: Config, run: seq<Step>)
    requires cfg.Ok() && Possible(cfg, run)
    ensures Inv(cfg, After(cfg, run))
  {
    if run != [] {
      var init, t := run[..|run| - 1], run[|run| - 1];
      var s := After(cfg, init);
      ReachableInv(cfg, init);
      ConservedStep(cfg, s, t);
      DecidedStep(cfg, s, t);
      BoundedStep(cfg, s, t);
      PacedStep(cfg, s, t);
      WaitsStep(cfg, s, t);
      TimedStep(cfg, s, t);
    }
  }

  // ---------- What the invariants say ----------

  lemma PrefixOf<T>(all: seq<T>, a: seq<T>, b: seq<T>, c: seq<T>)
    requires all == a + b + c
    ensures a <= all
  {
  }

  /** Each arrival meets its fate once; nothing is lost, doubled or reordered after acceptance. */
  lemma FifoDelivery(cfg: Config, run: seq<Step>)
    requires cfg.Ok() && Possible(cfg, run)
    ensures var s := After(cfg, run);
            s.delivered <= AcceptedOf(s.fates) && Conserved(s) && Decided(cfg, s)
  {
    ReachableInv(cfg, run);
    var s := After(cfg, run);
    PrefixOf(AcceptedOf(s.fates), s.delivered, Leaving(s) + Messages(s.inFlight) + Entering(s), s.buffer);
  }

  lemma OneMore(n: nat, x: int)
    ensures (n + 1) * x == n * x + x
  {
  }

  lemma {:induction false} SpacedSum(cfg: Config, q: seq<InFlight>)
    requires Spaced(cfg, q) && q != []
    ensures q[|q| - 1].finish - q[0].finish >= (|q| - 1) * cfg.serialization
  {
    var n := |q| - 1;
    if n > 0 {
      assert q[n].finish - q[n - 1].finish >= cfg.serialization;
      SpacedSum(cfg, q[..n]);
      OneMore(n - 1, cfg.serialization);
    }
  }

  /**
   Whatever the clock does, messages in flight are due at least a serialization delay apart,
   none leaves early, and the link holds no more than its bandwidth-delay product.
   */
  lemma BandwidthDelay(cfg: Config, run: seq<Step>)
    requires cfg.Ok() && Possible(cfg, run)
    ensures var s := After(cfg, run);
            && Spaced(cfg, s.inFlight)
            && (s.sch.Sending? ==> s.sch.mif.finish <= s.sch.crt)
            && (s.inFlight != [] ==> (|s.inFlight| - 1) * cfg.serialization < cfg.serialization + cfg.delay)
  {
    ReachableInv(cfg, run);
    var q := After(cfg, run).inFlight;
    if q != [] {
      SpacedSum(cfg, q);
    }
  }

  lemma LastIsDue(cfg: Config, sch: Scheduler, q: seq<InFlight>, idleTime: int, n: nat, started: seq<int>, left: seq<int>)
    requires Clocked(cfg, sch, q, idleTime, n, started, left)
    ensures forall k :: 0 <= k < n ==> started[k] + cfg.serialization + cfg.delay <= left[k]
    ensures q != [] && !Busy(sch) ==> q[|q| - 1].finish == idleTime + cfg.delay
  {
    assert forall k :: 0 <= k < n ==> Due(cfg, started[k]) <= left[k];
    if q != [] && !Busy(sch) {
      assert started[Gone(sch, n)..][|q| - 1] == started[|started| - 1];
    }
  }

  /**
   What the link promises, for any clock: message k is the k-th one accepted; it enters the
   channel when the channel is idle, and leaves no earlier than the serialization delay and
   the propagation delay after that.  What is in flight is due exactly then.
   */
  lemma EachIsDelayed(cfg: Config, run: seq<Step>)
    requires cfg.Ok() && Possible(cfg, run)
    ensures var s := After(cfg, run);
            && |s.left| == |s.delivered| <= |s.started| && s.delivered <= AcceptedOf(s.fates)
            && (forall k :: 0 <= k < |s.left| ==> s.started[k] + cfg.serialization + cfg.delay <= s.left[k])
            && OneAtATime(cfg, s.started)
            && (s.inFlight != [] && !Busy(s.sch) ==> LastFinish(s) == s.idleTime + cfg.delay)
  {
    var s := After(cfg, run);
    FifoDelivery(cfg, run);
    assert Timed(cfg, s) by {
      ReachableInv(cfg, run);
    }
    LastIsDue(cfg, s.sch, s.inFlight, s.idleTime, |s.delivered|, s.started, s.left);
  }

  /**
   dequeue never returns NULL, the buffer never grows past its bound, and a message is turned
   away for lack of room only when the buffer holds a thousand.
   */
  lemma BufferIsSafe(cfg: Config, run: seq<Step>)
    requires cfg.Ok() && Possible(cfg, run)
    ensures var s := After(cfg, run);
            && |s.buffer| <= 1000
            && (Enabled(cfg, s, CheckSpace) ==> (Next(cfg, s, CheckSpace).fw.overflow <==> |s.buffer| == 1000))
            && (Enabled(cfg, s, Take) ==> !Next(cfg, s, Take).sch.Aborted?)
  {
    assert Bounded(After(cfg, run)) by {
      ReachableInv(cfg, run);
    }
  }

  /**
   Waiting: the scheduler blocks only with nothing in flight, no wake-up is lost, no sleep
   goes past the finish time of the oldest message, the scheduler sleeps exactly when the
   channel is busy or messages are in flight, and for no time exactly when it is idle then.
   */
  lemma SchedulerWaits(cfg: Config, run: seq<Step>)
    requires cfg.Ok() && Possible(cfg, run)
    ensures var s := After(cfg, run);
            && (s.sch.Blocked? ==> s.inFlight == [] && (s.buffer != [] ==> s.sch.signalled))
            && (s.sch.Sleeping? ==> SleepsUntil(s, s.sch.crt, s.sch.crt + s.sch.wait))
            && (s.sch.Sleeping? && s.inFlight != [] ==> s.sch.crt + s.sch.wait <= s.inFlight[0].finish)
            && (Enabled(cfg, s, Rest) ==>
                  (Next(cfg, s, Rest).sch.Sleeping? <==> s.idleTime > s.sch.crt || s.inFlight != []))
            && (Enabled(cfg, s, Rest) && Next(cfg, s, Rest).sch.Sleeping? ==>
                  (Next(cfg, s, Rest).sch.wait == 0 <==> s.idleTime <= s.sch.crt))
  {
    ReachableInv(cfg, run);
  }

  /** The assertion on line 272 fails iff a message was put after the scheduler last looked at the buffer. */
  lemma RestAbortsIff(cfg: Config, run: seq<Step>)
    requires cfg.Ok() && Possible(cfg, run) && Enabled(cfg, After(cfg, run), Rest)
    ensures var s := After(cfg, run);
            Next(cfg, s, Rest).sch.Aborted? <==> s.news > 0 && s.idleTime <= s.sch.crt && s.inFlight == []
  {
    ReachableInv(cfg, run);
  }

  lemma Extend(cfg: Config, run: seq<Step>, t: Step)
    requires Possible(cfg, run) && Enabled(cfg, After(cfg, run), t)
    ensures Possible(cfg, run + [t]) && After(cfg, run + [t]) == Next(cfg, After(cfg, run), t)
  {
    assert (run + [t])[..|run + [t]| - 1] == run;
  }

  /** It can fail: a message arrives between the peek and the assertion on a quiet link. */
  lemma AssertionCanFail(cfg: Config, m: Msg) returns (run: seq<Step>)
    requires cfg.Ok() && |m.payload| == MSGSIZE && cfg.loss < 100 && (cfg.corrupt < 100 || m.len != 0)
    ensures Possible(cfg, run) && After(cfg, run).sch.Aborted?
  {
    run := [];
    Extend(cfg, run, ReadClock(0));
    run := run + [ReadClock(0)];
    Extend(cfg, run, Drain);
    run := run + [Drain];
    Extend(cfg, run, Peek);
    run := run + [Peek];
    Extend(cfg, run, Arrive(m));
    run := run + [Arrive(m)];
    Extend(cfg, run, CheckSpace);
    run := run + [CheckSpace];
    Extend(cfg, run, Decide(99, 99, 0, 0));
    run := run + [Decide(99, 99, 0, 0)];
    Extend(cfg, run, Put);
    run := run + [Put];
    Extend(cfg, run, Test);
    run := run + [Test];
    Extend(cfg, run, Rest);
    run := run + [Rest];
  }

  // ---------- The random draws ----------

  lemma {:induction false} Below(n: nat) returns (numbers: set<int>)
    ensures (forall r :: r in numbers <==> 0 <= r < n) && |numbers| == n
  {
    if n == 0 {
      numbers := {};
    } else {
      numbers := Below(n - 1);
      numbers := numbers + {n - 1};
    }
  }

  /** With room in the buffer, exactly loss of the hundred first draws drop the message. */
  lemma LossRate(cfg: Config, s: State, r2: int, i: nat, j: nat)
    requires s.fw.Deciding? && !s.fw.overflow && 0 <= cfg.loss <= 100
    requires forall r1 :: 0 <= r1 < 100 ==> Enabled(cfg, s, Decide(r1, r2, i, j))
    ensures |set r1 | 0 <= r1 < 100 && Next(cfg, s, Decide(r1, r2, i, j)).fw == Receiving| == cfg.loss
  {
    var draws := set r1 | 0 <= r1 < 100 && Next(cfg, s, Decide(r1, r2, i, j)).fw == Receiving;
    var numbers := Below(cfg.loss);
    assert draws == numbers;
  }

  /** If it is not dropped, exactly corrupt of the hundred second draws change it. */
  lemma DamageRate(cfg: Config, s: State, r1: int, i: nat, j: nat)
    requires s.fw.Deciding? && !s.fw.overflow && cfg.loss <= r1 && 0 <= cfg.corrupt <= 100
    requires i < MSGSIZE && j < 8
    requires forall r2 :: 0 <= r2 < 100 ==> Enabled(cfg, s, Decide(r1, r2, i, j))
    ensures |s.fw.m.payload| == MSGSIZE
    ensures |set r2 | 0 <= r2 < 100 && Next(cfg, s, Decide(r1, r2, i, j)).fw == Putting(Flip(s.fw.m, i, j))| == cfg.corrupt
    ensures |set r2 | 0 <= r2 < 100 && Next(cfg, s, Decide(r1, r2, i, j)).fw == Putting(s.fw.m)| == 100 - cfg.corrupt
  {
    assert Enabled(cfg, s, Decide(r1, 0, i, j));
    FlipIsOneBit(s.fw.m, i, j);
    var changed := set r2 | 0 <= r2 < 100 && Next(cfg, s, Decide(r1, r2, i, j)).fw == Putting(Flip(s.fw.m, i, j));
    var kept := set r2 | 0 <= r2 < 100 && Next(cfg, s, Decide(r1, r2, i, j)).fw == Putting(s.fw.m);
    var numbers := Below(cfg.corrupt);
    var all := Below(100);
    assert changed == numbers;
    assert kept == all - numbers;
  }

  /**
   The receiver's checksum test on whatever the link delivers: if every arrival carried a
   correct checksum, an accepted message passes exactly when the link did not touch it.
   */
  lemma DamageIsNoticed(cfg: Config, run: seq<Step>, k: nat)
    requires cfg.Ok() && Possible(cfg, run) && k < |After(cfg, run).fates| && After(cfg, run).fates[k].Accepted?
    requires forall i :: 0 <= i < |After(cfg, run).arrived| ==> Passes(After(cfg, run).arrived[i])
    ensures var s := After(cfg, run);
            k < |s.arrived| && (Passes(s.fates[k].m) <==> s.fates[k].m == s.arrived[k])
  {
    ReachableInv(cfg, run);
    var a, m := After(cfg, run).arrived[k], After(cfg, run).fates[k].m;
    assert MayBecome(cfg, a, m);
    if m != a {
      var i, j :| 0 <= i < |a.payload| && i < Magnitude(a.len) && 0 <= j < 8 && m == Flip(a, i, j);
      FlipIsNoticed(a, i, j);
    }
  }
}
