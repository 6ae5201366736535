/**
 The critical sections and local steps of the two threads of the link emulator, on the
 linked queues.  Each method does what one step of the state machine in Link says; the
 ghost field state is the state of that machine.
 */
module LinkThreads {
  import opened Wrappers
  import opened Message
  import opened Link
  import opened LinkQueue

  lemma {:induction false} PrefixPossible(cfg: Config, run: seq<Step>, n: nat)
    requires n <= |run| && Possible(cfg, run)
    ensures Possible(cfg, run[..n])
  {
    if n == |run| {
      assert run[..n] == run;
    } else {
      PrefixPossible(cfg, run[..|run| - 1], n);
      assert run[..|run| - 1][..n] == run[..n];
    }
  }

  lemma NextStep(cfg: Config, run: seq<Step>, n: nat)
    requires cfg.Ok() && Possible(cfg, run) && n < |run|
    ensures Possible(cfg, run[..n]) && Possible(cfg, run[..n + 1])
    ensures var s := After(cfg, run[..n]);
            Enabled(cfg, s, run[n]) && Bounded(s) && After(cfg, run[..n + 1]) == Next(cfg, s, run[n])
  {
    PrefixPossible(cfg, run, n + 1);
    assert run[..n + 1][..n] == run[..n];
    ReachableInv(cfg, run[..n]);
  }

  class Emulator {
    ghost const cfg: Config
    const serializationDelay: int
    const delay: int
    const loss: int
    const corrupt: int
    const buffer: Queue<Msg>
    const inFlight: Queue<InFlight>
    var idleTime: int
    var forwarder: Forwarder  // the local variables of the two threads
    var scheduler: Scheduler
    ghost var state: State

    ghost predicate Valid()
      reads this, buffer, inFlight, buffer.nodes, inFlight.nodes
    {
      && serializationDelay == cfg.serialization && delay == cfg.delay && loss == cfg.loss && corrupt == cfg.corrupt
      && buffer.Valid() && inFlight.Valid()
      && (forall a, b :: a in buffer.nodes && b in inFlight.nodes ==> (a as object) != b)
      && state.buffer == buffer.Contents() && state.inFlight == inFlight.Contents() && state.idleTime == idleTime
    }

    /** The threads are where the state machine says. */
    ghost predicate InStep()
      reads this, buffer, inFlight, buffer.nodes, inFlight.nodes
    {
      Valid() && forwarder == state.fw && scheduler == state.sch
    }

    constructor (cfg: Config)
      ensures InStep() && this.cfg == cfg && state == Init()
      ensures fresh(buffer) && fresh(inFlight) && buffer.nodes == [] && inFlight.nodes == []
    {
      this.cfg, serializationDelay, delay, loss, corrupt := cfg, cfg.serialization, cfg.delay, cfg.loss, cfg.corrupt;
      buffer := new Queue();
      inFlight := new Queue();
      idleTime, forwarder, scheduler, state := 0, Receiving, Starting, Init();
    }

    // ---------- run_forwarding ----------

    /** The first critical section of the forwarder. */
    method CheckSpace() returns (overflow: bool)
      requires Valid() && Enabled(cfg, state, Step.CheckSpace)
      modifies this`state
      ensures Valid() && state == Next(cfg, old(state), Step.CheckSpace)
      ensures overflow == state.fw.overflow
    {
      overflow := buffer.size >= BUFFER_SIZE;
      state := Next(cfg, state, Step.CheckSpace);
    }

    /** The second critical section of the forwarder. */
    method PutMessage(m: Msg)
      requires Valid() && Enabled(cfg, state, Put) && m == state.fw.m
      modifies this`state, buffer, buffer.nodes
      ensures Valid() && state == Next(cfg, old(state), Put)
      ensures forall n :: n in buffer.nodes ==> n in old(buffer.nodes) || fresh(n)
    {
      buffer.Enqueue(m);
      state := Next(cfg, state, Put);
    }

    // ---------- link_scheduler ----------

    /** One turn of the loop that sends what is due: the message to send, or nothing. */
    method DrainOne(crt: int) returns (mif: Option<InFlight>)
      requires Valid() && Enabled(cfg, state, Drain) && state.sch.crt == crt
      modifies this`state, inFlight
      ensures Valid() && state == Next(cfg, old(state), Drain)
      ensures mif == if state.sch.Sending? then Some(state.sch.mif) else None
      ensures forall n :: n in inFlight.nodes ==> n in old(inFlight.nodes)
    {
      mif := None;
      if inFlight.size > 0 {
        assert inFlight.Contents()[0] == inFlight.last.crt;
        if crt >= inFlight.last.crt.finish {
          mif := inFlight.Dequeue();
        }
      }
      state := Next(cfg, state, Drain);
    }

    /** The first critical section of the scheduler. */
    method PeekBuffer() returns (stuff: bool)
      requires Valid() && Enabled(cfg, state, Peek)
      modifies this`state
      ensures Valid() && state == Next(cfg, old(state), Peek) && stuff == state.sch.stuff
    {
      stuff := buffer.size > 0;
      state := Next(cfg, state, Peek);
    }

    /** Whether a message may be put in flight now; if so the channel is busy for a while. */
    method TestIdle(crt: int, stuff: bool) returns (take: bool)
      requires Valid() && Enabled(cfg, state, Test) && state.sch == Testing(crt, stuff)
      modifies this`state, this`idleTime
      ensures Valid() && state == Next(cfg, old(state), Test) && take == state.sch.Taking?
    {
      take := stuff && crt >= idleTime;
      if take {
        idleTime := crt + serializationDelay;
      }
      state := Next(cfg, state, Test);
    }

    /** The second critical section of the scheduler; in reachable states it finds a message. */
    method TakeMessage() returns (m: Msg)
      requires Valid() && Enabled(cfg, state, Take) && Bounded(state)
      modifies this`state, buffer
      ensures Valid() && state == Next(cfg, old(state), Take)
      ensures state.sch.Launching? && m == state.sch.m
      ensures forall n :: n in buffer.nodes ==> n in old(buffer.nodes)
    {
      var taken := buffer.Dequeue();
      assert taken.Some?;
      m := taken.value;
      state := Next(cfg, state, Take);
    }

    method PutInFlight(crt: int, m: Msg)
      requires Valid() && Enabled(cfg, state, Launch) && state.sch == Launching(crt, m)
      modifies this`state, inFlight, inFlight.nodes
      ensures Valid() && state == Next(cfg, old(state), Launch)
      ensures forall n :: n in inFlight.nodes ==> n in old(inFlight.nodes) || fresh(n)
    {
      inFlight.Enqueue(InFlight(m, crt + serializationDelay + delay));
      state := Next(cfg, state, Launch);
    }

    /** The end of the scheduler's loop: the time to sleep, or nothing when it is to wait for a message. */
    method Rest(crt: int) returns (sleep: Option<int>)
      requires Valid() && Enabled(cfg, state, Step.Rest) && state.sch.crt == crt
      modifies this`state
      ensures Valid() && state == Next(cfg, old(state), Step.Rest)
      ensures match sleep case Some(t) => state.sch == Sleeping(crt, t) case None => state.sch.Blocked? || state.sch.Aborted?
    {
      var waitTimeIdle, waitTimeSend := idleTime - crt, 0;
      if inFlight.size > 0 {
        assert inFlight.Contents()[0] == inFlight.last.crt;
        waitTimeSend := inFlight.last.crt.finish - crt;
      }
      if waitTimeIdle > 0 || waitTimeSend > 0 {
        var waitTime := 0;
        if waitTimeIdle > 0 {
          waitTime := waitTimeIdle;
        }
        if waitTimeSend > 0 && waitTimeSend < waitTime {
          waitTime := waitTimeSend;
        }
        sleep := Some(waitTime);
      } else {
        sleep := None;
      }
      state := Next(cfg, state, Step.Rest);
    }

    // ---------- Any interleaving ----------

    predicate Local(t: Step) {
      t.Arrive? || t.Decide? || t.ReadClock? || t.Send? || t.Wake?
    }

    /** A step that touches no queue. */
    method PerformLocal(t: Step)
      requires InStep() && Enabled(cfg, state, t) && Local(t)
      modifies this`forwarder, this`scheduler, this`state
      ensures InStep() && state == Next(cfg, old(state), t)
    {
      match t {
        case Arrive(m) => forwarder := Checking(m);
        case Decide(r1, r2, i, j) =>
          if forwarder.overflow || r1 < loss {
            forwarder := Receiving;
          } else if r2 < corrupt {
            forwarder := Putting(Flip(forwarder.m, i, j));
          } else {
            forwarder := Putting(forwarder.m);
          }
        case ReadClock(now) => scheduler := Draining(now);
        case Send => scheduler := Draining(scheduler.crt);
        case Wake => scheduler := Starting;
      }
      state := Next(cfg, state, t);
    }

    /** A critical section of the forwarding thread. */
    method Forward(t: Step)
      requires InStep() && Enabled(cfg, state, t) && (t.CheckSpace? || t.Put?)
      modifies this`forwarder, this`scheduler, this`state, buffer, buffer.nodes
      ensures InStep() && state == Next(cfg, old(state), t)
      ensures forall n :: n in buffer.nodes ==> n in old(buffer.nodes) || fresh(n)
    {
      if t.CheckSpace? {
        var overflow := CheckSpace();
        forwarder := Deciding(forwarder.m, overflow);
      } else {
        PutMessage(forwarder.m);
        forwarder := Receiving;
        if scheduler.Blocked? {
          scheduler := Blocked(true);
        }
      }
    }

    /** A step of the scheduling thread that concerns the messages in flight. */
    method Schedule(t: Step)
      requires InStep() && Enabled(cfg, state, t) && (t.Drain? || t.Launch? || t.Rest?)
      modifies this`scheduler, this`state, inFlight, inFlight.nodes
      ensures InStep() && state == Next(cfg, old(state), t)
      ensures forall n :: n in inFlight.nodes ==> n in old(inFlight.nodes) || fresh(n)
    {
      if t.Drain? {
        var mif := DrainOne(scheduler.crt);
        scheduler := if mif.Some? then Sending(scheduler.crt, mif.value) else Peeking(scheduler.crt);
      } else if t.Launch? {
        PutInFlight(scheduler.crt, scheduler.m);
        scheduler := Resting(scheduler.crt);
      } else {
        var sleep := Rest(scheduler.crt);
        scheduler :=
          if sleep.Some? then Sleeping(scheduler.crt, sleep.value)
          else if buffer.size != 0 then Aborted
          else Blocked(false);
      }
    }

    /** A step of the scheduling thread that concerns the buffer. */
    method Fetch(t: Step)
      requires InStep() && Enabled(cfg, state, t) && Bounded(state) && (t.Peek? || t.Test? || t.Take?)
      modifies this`scheduler, this`idleTime, this`state, buffer
      ensures InStep() && state == Next(cfg, old(state), t)
      ensures forall n :: n in buffer.nodes ==> n in old(buffer.nodes)
    {
      if t.Peek? {
        var stuff := PeekBuffer();
        scheduler := Testing(scheduler.crt, stuff);
      } else if t.Test? {
        var take := TestIdle(scheduler.crt, scheduler.stuff);
        scheduler := if take then Taking(scheduler.crt) else Resting(scheduler.crt);
      } else {
        var m := TakeMessage();
        scheduler := Launching(scheduler.crt, m);
      }
    }

    /** Any step. */
    method Perform(t: Step)
      requires InStep() && Enabled(cfg, state, t) && Bounded(state)
      modifies this, buffer, inFlight, buffer.nodes, inFlight.nodes
      ensures InStep() && state == Next(cfg, old(state), t)
      ensures forall n :: n in buffer.nodes ==> n in old(buffer.nodes) || fresh(n)
      ensures forall n :: n in inFlight.nodes ==> n in old(inFlight.nodes) || fresh(n)
    {
      if Local(t) {
        PerformLocal(t);
      } else if t.CheckSpace? || t.Put? {
        Forward(t);
      } else if t.Peek? || t.Test? || t.Take? {
        Fetch(t);
      } else {
        Schedule(t);
      }
    }

    /** The emulator and everything that it refers to lie in made. */
    ghost predicate Within(made: set<object>)
      reads this, buffer, inFlight
    {
      && this in made && buffer in made && inFlight in made
      && (forall n :: n in buffer.nodes ==> n in made) && (forall n :: n in inFlight.nodes ==> n in made)
    }

    /** The next step of a run; made collects the objects. */
    method PerformNth(run: seq<Step>, n: nat, ghost made: set<object>) returns (ghost more: set<object>)
      requires cfg.Ok() && Possible(cfg, run) && n < |run|
      requires InStep() && Possible(cfg, run[..n]) && state == After(cfg, run[..n]) && Within(made)
      modifies made
      ensures InStep() && Possible(cfg, run[..n + 1]) && state == After(cfg, run[..n + 1])
      ensures Within(more) && fresh(more - made)
    {
      NextStep(cfg, run, n);
      Perform(run[n]);
      more := made + (set n | n in buffer.nodes) + (set n | n in inFlight.nodes);
    }
  }

  /** The emulator from its start: under any interleaving its queues hold what the state machine says. */
  method Emulate(cfg: Config, run: seq<Step>) returns (emulator: Emulator, ghost made: set<object>)
    requires cfg.Ok() && Possible(cfg, run)
    ensures emulator.cfg == cfg && emulator.InStep() && emulator.state == After(cfg, run)
    ensures fresh(made) && emulator.Within(made)
  {
    emulator := new Emulator(cfg);
    made := {emulator, emulator.buffer, emulator.inFlight};
    for n := 0 to |run|
      invariant emulator.cfg == cfg && emulator.InStep()
      invariant Possible(cfg, run[..n]) && emulator.state == After(cfg, run[..n])
      invariant fresh(made) && emulator.Within(made)
    {
      made := emulator.PerformNth(run, n, made);
    }
    assert run[..|run|] == run;
  }
}
