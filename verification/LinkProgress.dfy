/**
 Can everything that the link accepted still be delivered?  From every reachable state it
 can, unless the scheduler has missed a message and is about to run into its assertion.
 */
module LinkProgress {
  import opened Message
  import opened Link

  /** The scheduler did not see the messages in the buffer and has no reason left to sleep. */
  predicate Doomed(s: State) {
    s.buffer != [] &&
    match s.sch
    case Aborted => true
    case Testing(crt, stuff) => !stuff && s.idleTime <= crt && s.inFlight == []
    case Resting(crt) => s.idleTime <= crt && s.inFlight == []
    case _ => false
  }

  /** There is no way back: whatever the threads do, the messages stay in the buffer. */
  lemma DoomedStays(cfg: Config, s: State, t: Step)
    requires Enabled(cfg, s, t) && Doomed(s)
    ensures Doomed(Next(cfg, s, t))
  {
  }

  lemma {:induction false} DoomedForever(cfg: Config, run: seq<Step>, full: seq<Step>)
    requires Possible(cfg, full) && Possible(cfg, run) && run <= full && Doomed(After(cfg, run))
    ensures Doomed(After(cfg, full))
    decreases |full|
  {
    if run == full {
    } else {
      var init := full[..|full| - 1];
      assert run <= init;
      DoomedForever(cfg, run, init);
      DoomedStays(cfg, After(cfg, init), full[|full| - 1]);
    }
  }

  predicate AllDelivered(s: State) {
    s.delivered == AcceptedOf(s.fates)
  }

  /** The accepted messages that are on their way, weighted by how far they still have to go. */
  function Pending(s: State): nat {
    8 * |s.buffer| + 6 * |Entering(s)| + 4 * |s.inFlight| + 2 * |Leaving(s)|
  }

  lemma NothingPending(s: State)
    requires Conserved(s) && Pending(s) == 0
    ensures AllDelivered(s)
  {
  }

  lemma StillPending(s: State)
    requires Conserved(s) && s.buffer != []
    ensures !AllDelivered(s)
  {
  }

  /** A clock value by which the channel is idle and all messages in flight are due. */
  function LateEnough(s: State): int {
    if s.inFlight != [] && LastFinish(s) > s.idleTime then LastFinish(s) else s.idleTime
  }

  /** In this turn of its loop the scheduler may have read the clock too early. */
  predicate TooEarly(s: State) {
    match s.sch
    case Draining(crt) => crt < LateEnough(s)
    case Sending(crt, _) => crt < LateEnough(s)
    case Peeking(crt) => crt < LateEnough(s) || s.inFlight != []
    case Testing(crt, _) => crt < LateEnough(s) || s.inFlight != []
    case _ => false
  }

  function Position(s: State): nat {
    match s.sch
    case Resting(_) => 9
    case Sleeping(_, _) => 8
    case Blocked(_) => 8
    case Starting => 7
    case Draining(_) => 6
    case Sending(_, _) => 6
    case Peeking(_) => 5
    case Testing(_, _) => 4
    case Taking(_) => 3
    case Launching(_, _) => 2
    case Aborted => 0
  }

  /** The scheduler's next step; it reads the clock late enough. */
  function SchedulerStep(s: State): Step
    requires !s.sch.Aborted?
  {
    match s.sch
    case Starting => ReadClock(LateEnough(s))
    case Draining(_) => Drain
    case Sending(_, _) => Send
    case Peeking(_) => Peek
    case Testing(_, _) => Test
    case Taking(_) => Take
    case Launching(_, _) => Launch
    case Resting(_) => Rest
    case Sleeping(_, _) => Wake
    case Blocked(_) => Wake
  }

  /** What a step of the scheduler must do: leave a turn that is too early, or bring a message forward. */
  predicate Advances(s: State, s': State) {
    && !Doomed(s') && !s'.sch.Aborted?
    && (TooEarly(s') ==> TooEarly(s))
    && ((TooEarly(s) && !TooEarly(s')) || Pending(s') < Pending(s)
        || (Pending(s') == Pending(s) && Position(s') < Position(s)))
  }

  lemma {:induction false} OldestIsFirst(cfg: Config, q: seq<InFlight>)
    requires cfg.Ok() && Spaced(cfg, q) && q != []
    ensures q[0].finish <= q[|q| - 1].finish
  {
    var n := |q| - 1;
    if n > 0 {
      assert q[n].finish - q[n - 1].finish >= cfg.serialization;
      OldestIsFirst(cfg, q[..n]);
    }
  }

  lemma DrainAdvances(cfg: Config, s: State)
    requires cfg.Ok() && Spaced(cfg, s.inFlight) && !Doomed(s) && Enabled(cfg, s, Drain)
    ensures Advances(s, Next(cfg, s, Drain))
  {
    if s.inFlight != [] {
      OldestIsFirst(cfg, s.inFlight);
      var s' := Next(cfg, s, Drain);
      if s'.sch.Sending? && s'.inFlight != [] {
        assert LastFinish(s') == LastFinish(s);
      }
    }
  }

  /** At the end of a turn the scheduler has a reason to sleep, or there is nothing left to deliver. */
  lemma RestAdvances(cfg: Config, s: State)
    requires Paced(cfg, s) && !Doomed(s) && Pending(s) > 0 && s.sch.Resting?
    ensures Advances(s, Next(cfg, s, Rest))
  {
    assert Leaving(s) == [] && Entering(s) == [];
    assert s.inFlight != [] ==> SendWait(s, s.sch.crt) > 0;
  }

  /** Between turns. */
  lemma TurnAdvances(cfg: Config, s: State)
    requires !Doomed(s) && (s.sch.Sleeping? || s.sch.Blocked? || s.sch.Starting?)
    ensures Advances(s, Next(cfg, s, SchedulerStep(s)))
  {
  }

  /** The scheduler looks at the buffer. */
  lemma PeekAdvances(cfg: Config, s: State)
    requires !Doomed(s) && s.sch.Peeking?
    ensures Advances(s, Next(cfg, s, Peek))
  {
  }

  /** It tests whether the channel is idle. */
  lemma TestAdvances(cfg: Config, s: State)
    requires Bounded(s) && !Doomed(s) && Pending(s) > 0 && s.sch.Testing?
    ensures Advances(s, Next(cfg, s, Test))
  {
  }

  /** A message changes hands. */
  lemma HandAdvances(cfg: Config, s: State)
    requires Bounded(s) && (s.sch.Sending? || s.sch.Taking? || s.sch.Launching?)
    ensures Advances(s, Next(cfg, s, SchedulerStep(s)))
  {
  }

  /** Each step of the scheduler on its own brings some message forward. */
  lemma Progress(cfg: Config, s: State)
    requires cfg.Ok() && Inv(cfg, s) && !Doomed(s) && !s.sch.Aborted? && Pending(s) > 0
    ensures Enabled(cfg, s, SchedulerStep(s)) && Advances(s, Next(cfg, s, SchedulerStep(s)))
  {
    match s.sch
    case Draining(_) => DrainAdvances(cfg, s);
    case Peeking(_) => PeekAdvances(cfg, s);
    case Testing(_, _) => TestAdvances(cfg, s);
    case Sending(_, _) => HandAdvances(cfg, s);
    case Taking(_) => HandAdvances(cfg, s);
    case Launching(_, _) => HandAdvances(cfg, s);
    case Resting(_) => RestAdvances(cfg, s);
    case _ => TurnAdvances(cfg, s);
  }

  /** The scheduler alone can deliver everything from a state that is not doomed. */
  lemma {:induction false} DeliverAll(cfg: Config, run: seq<Step>) returns (full: seq<Step>)
    requires cfg.Ok() && Possible(cfg, run) && !Doomed(After(cfg, run)) && !After(cfg, run).sch.Aborted?
    ensures run <= full && Possible(cfg, full) && AllDelivered(After(cfg, full))
    decreases TooEarly(After(cfg, run)), Pending(After(cfg, run)), Position(After(cfg, run))
  {
    var s := After(cfg, run);
    ReachableInv(cfg, run);
    if Pending(s) == 0 {
      NothingPending(s);
      return run;
    }
    Progress(cfg, s);
    Extend(cfg, run, SchedulerStep(s));
    full := DeliverAll(cfg, run + [SchedulerStep(s)]);
  }

  /** The process is only ever aborted with messages in the buffer. */
  lemma {:induction false} AbortedIsDoomed(cfg: Config, run: seq<Step>)
    requires cfg.Ok() && Possible(cfg, run) && After(cfg, run).sch.Aborted?
    ensures Doomed(After(cfg, run))
  {
    if run != [] {
      var init := run[..|run| - 1];
      assert Bounded(After(cfg, init)) by {
        ReachableInv(cfg, init);
      }
    }
  }

  /** full continues run and ends with everything delivered. */
  predicate Completes(cfg: Config, run: seq<Step>, full: seq<Step>) {
    run <= full && Possible(cfg, full) && AllDelivered(After(cfg, full))
  }

  lemma DoomedNeverCompletes(cfg: Config, run: seq<Step>, full: seq<Step>)
    requires cfg.Ok() && Possible(cfg, run) && Doomed(After(cfg, run))
    ensures !Completes(cfg, run, full)
  {
    if run <= full && Possible(cfg, full) {
      DoomedForever(cfg, run, full);
      assert Conserved(After(cfg, full)) by {
        ReachableInv(cfg, full);
      }
      StillPending(After(cfg, full));
    }
  }

  /**
   From a reachable state there is a continuation after which every accepted message has
   been delivered exactly when the state is not doomed; a doomed state loses its buffer.
   */
  lemma DeliverableIff(cfg: Config, run: seq<Step>)
    requires cfg.Ok() && Possible(cfg, run)
    ensures (exists full :: Completes(cfg, run, full)) <==> !Doomed(After(cfg, run))
  {
    if Doomed(After(cfg, run)) {
      forall full
        ensures !Completes(cfg, run, full)
      {
        DoomedNeverCompletes(cfg, run, full);
      }
    } else {
      if After(cfg, run).sch.Aborted? {
        AbortedIsDoomed(cfg, run);
      }
      var full := DeliverAll(cfg, run);
      assert Completes(cfg, run, full);
    }
  }
}
