/**
 The bootstrap pass interleaved with the bootstrap units it launches.

 The agent owns one token pool for its whole life; units launched by one
 pass may still be running during the next. A step is either a step of
 the pass (a script step, or the send-and-launch that follows a successful
 one) or the completion of one running unit. The send blocks while the
 pool is full: a schedule that asks for it then leaves the agent as it is.
 Any sequence of steps is a schedule, so the results below hold for every
 interleaving the runtime may choose.
 */
module BootstrapSchedule {
  import opened Containers
  import opened TokenPool
  import opened BootstrapAgent

  /** Where the pass is. */
  datatype Phase =
      /** no pass has run yet */
    | Idle
      /** next: the script step for `pending[0]`, or return true when empty */
    | Scripting(pending: seq<Container>)
      /** the script step for `pc` succeeded; next: take a token and launch */
    | Sending(pc: Container, pending: seq<Container>)
      /** the pass has returned `ok` */
    | Returned(ok: bool)

  /** The agent: its pool, the units holding a token, the state of the
      current pass, the events of that pass and the events of its life. */
  datatype Agent = Agent(
    node: string,
    pool: Pool,
    running: seq<Container>,
    phase: Phase,
    passLog: seq<Event>,
    log: seq<Event>)

  datatype Step = PassStep | UnitStep(index: nat)

  /** Token accounting: every running unit holds one token, the pool never
      holds more than its capacity, and the tokens in flight are exactly
      the takes minus the gives recorded in the agent's life. */
  predicate Inv(a: Agent)
  {
    && a.pool.Valid()
    && a.pool.inFlight == |a.running|
    && Count(a.log, TokenAcquired) == Count(a.log, TokenReleased) + a.pool.inFlight
  }

  predicate InPass(a: Agent)
  {
    a.phase.Scripting? || a.phase.Sending?
  }

  /** A freshly constructed agent with a pool of the configured size. */
  function NewAgent(node: string, capacity: nat): (a: Agent)
    requires 0 < capacity
    ensures Inv(a) && !InPass(a)
    ensures a.running == [] && a.pool.capacity == capacity
  {
    Agent(node, New(capacity), [], Idle, [], [])
  }

  /** Begin a pass with the result of the fetch. A failed fetch returns
      false at once, with no event. */
  function StartPass(a: Agent, fetched: Option<seq<Container>>): (b: Agent)
    requires Inv(a) && !InPass(a)
    ensures Inv(b)
    ensures b.pool == a.pool && b.running == a.running && b.log == a.log && b.passLog == []
    ensures fetched.None? <==> b.phase == Returned(false)
  {
    match fetched
    case None => a.(phase := Returned(false), passLog := [])
    case Some(pcs) => a.(phase := Scripting(pcs), passLog := [])
  }

  /** The step can be taken now: the pass is not blocked on a full pool,
      or the unit exists. */
  predicate Enabled(a: Agent, step: Step)
  {
    match step
    case PassStep => a.phase.Scripting? || (a.phase.Sending? && a.pool.CanAcquire())
    case UnitStep(i) => i < |a.running|
  }

  lemma CountAppend(t: seq<Event>, u: seq<Event>, e: Event)
    ensures Count(t + u, e) == Count(t, e) + Count(u, e)
  {
    assert multiset(t + u) == multiset(t) + multiset(u);
  }

  /** Events without a token take or give leave the accounting alone. */
  lemma CountNoTokens(t: seq<Event>, u: seq<Event>)
    requires forall i :: 0 <= i < |u| ==> u[i] != TokenAcquired && u[i] != TokenReleased
    ensures Count(t + u, TokenAcquired) == Count(t, TokenAcquired)
    ensures Count(t + u, TokenReleased) == Count(t, TokenReleased)
  {
    CountAppend(t, u, TokenAcquired);
    CountAppend(t, u, TokenReleased);
    assert TokenAcquired !in u && TokenReleased !in u;
  }

  /** The script step of the pass. */
  function ScriptStep(a: Agent, script: ScriptOracle): (b: Agent)
    requires a.phase.Scripting?
    ensures Inv(a) ==> Inv(b)
    ensures b.pool == a.pool && b.running == a.running
  {
    var pending := a.phase.pending;
    if |pending| == 0 then a.(phase := Returned(true))
    else
      var s := CreateScript(a.node, pending[0], script);
      CountNoTokens(a.log, s.events);
      a.(phase := if s.ok then Sending(pending[0], pending[1..]) else Returned(false),
         passLog := a.passLog + s.events,
         log := a.log + s.events)
  }

  /** The send on the pool followed by the launch of the unit. */
  function SendStep(a: Agent): (b: Agent)
    requires Inv(a) && a.phase.Sending? && a.pool.CanAcquire()
    ensures Inv(b)
    ensures b.pool.inFlight == a.pool.inFlight + 1 && b.running == a.running + [a.phase.pc]
  {
    var pc := a.phase.pc;
    var ev := [TokenAcquired, Launched(pc.hostname)];
    CountAppend(a.log, ev, TokenAcquired);
    CountAppend(a.log, ev, TokenReleased);
    a.(pool := Acquire(a.pool),
       running := a.running + [pc],
       phase := Scripting(a.phase.pending),
       passLog := a.passLog + ev,
       log := a.log + ev)
  }

  /** Completion of the running unit at `i`: it runs to the end and gives
      its token back. */
  function UnitDone(a: Agent, i: nat, boot: BootOracle): (b: Agent)
    requires Inv(a) && i < |a.running|
    ensures Inv(b)
    ensures b.pool.inFlight + 1 == a.pool.inFlight
    ensures multiset(b.running) + multiset{a.running[i]} == multiset(a.running)
    ensures b.phase == a.phase && b.passLog == a.passLog
  {
    var ev := BootstrapUnit(a.node, a.running[i], boot);
    CountAppend(a.log, ev, TokenAcquired);
    CountAppend(a.log, ev, TokenReleased);
    assert a.running == a.running[..i] + [a.running[i]] + a.running[i + 1..];
    a.(pool := Release(a.pool),
       running := a.running[..i] + a.running[i + 1..],
       log := a.log + ev)
  }

  /** One step of a schedule; a step that is not enabled changes nothing. */
  function Next(a: Agent, step: Step, script: ScriptOracle, boot: BootOracle): (b: Agent)
    requires Inv(a)
    ensures Inv(b)
    ensures !Enabled(a, step) ==> b == a
    ensures b.node == a.node && b.pool.capacity == a.pool.capacity
    ensures |a.log| <= |b.log| && b.log[..|a.log|] == a.log
  {
    if !Enabled(a, step) then a
    else match step
      case PassStep =>
        if a.phase.Scripting? then ScriptStep(a, script) else SendStep(a)
      case UnitStep(i) => UnitDone(a, i, boot)
  }

  /** A whole schedule. */
  function Execute(a: Agent, steps: seq<Step>, script: ScriptOracle, boot: BootOracle): (b: Agent)
    requires Inv(a)
    ensures Inv(b)
    ensures b.node == a.node && b.pool.capacity == a.pool.capacity
    ensures |a.log| <= |b.log| && b.log[..|a.log|] == a.log
    decreases |steps|
  {
    if |steps| == 0 then a
    else Execute(Next(a, steps[0], script, boot), steps[1..], script, boot)
  }

  /** Within a pass, something can always move: either the pass itself, or
      a running unit that will free a token the blocked send waits for. */
  lemma NoDeadlock(a: Agent)
    requires Inv(a) && InPass(a)
    ensures Enabled(a, PassStep) || Enabled(a, UnitStep(0))
  {
    if a.phase.Sending? && !a.pool.CanAcquire() {
      FullPoolHasHolder(a.pool);
    }
  }

  /** `n` completions of the oldest running unit. */
  function Completions(n: nat): (steps: seq<Step>)
    ensures |steps| == n && forall i :: 0 <= i < n ==> steps[i] == UnitStep(0)
  {
    seq(n, _ => UnitStep(0))
  }

  /** No token leaks: once every running unit has completed, on success or
      failure, the pool is empty and every take has been matched by a give. */
  lemma {:induction false} DrainReturnsAllTokens(a: Agent, script: ScriptOracle, boot: BootOracle)
    requires Inv(a)
    ensures var b := Execute(a, Completions(|a.running|), script, boot);
      && b.running == [] && b.pool.inFlight == 0
      && Count(b.log, TokenAcquired) == Count(b.log, TokenReleased)
    decreases |a.running|
  {
    if |a.running| > 0 {
      var steps := Completions(|a.running|);
      var a' := Next(a, steps[0], script, boot);
      assert |a'.running| == |a.running| - 1;
      assert steps[1..] == Completions(|a'.running|);
      DrainReturnsAllTokens(a', script, boot);
    }
  }

  /** The pass inside the agent agrees with the sequential pass `want`:
      what it has emitted so far, followed by what the remaining loop will
      emit, is the sequential trace, and the result it returns is the
      sequential result. */
  predicate Agrees(a: Agent, want: StepResult, script: ScriptOracle)
  {
    match a.phase
    case Idle => false
    case Scripting(pending) =>
      var rest := Loop(a.node, pending, script);
      want.events == a.passLog + rest.events && want.ok == rest.ok
    case Sending(pc, pending) =>
      var rest := Loop(a.node, pending, script);
      want.events == a.passLog + [TokenAcquired, Launched(pc.hostname)] + rest.events && want.ok == rest.ok
    case Returned(ok) =>
      a.passLog == want.events && ok == want.ok
  }

  lemma StartAgrees(a: Agent, fetched: Option<seq<Container>>, script: ScriptOracle)
    requires Inv(a) && !InPass(a)
    ensures Agrees(StartPass(a, fetched), Process(a.node, fetched, script), script)
  {
  }

  lemma ScriptStepAgrees(a: Agent, want: StepResult, script: ScriptOracle)
    requires a.phase.Scripting? && Agrees(a, want, script)
    ensures Agrees(ScriptStep(a, script), want, script)
  {
    var pending := a.phase.pending;
    if |pending| > 0 {
      if ScriptSucceeds(pending[0], script) {
        ScriptOkAgrees(a, want, script);
      } else {
        ScriptFailAgrees(a, want, script);
      }
    }
  }

  lemma ScriptOkAgrees(a: Agent, want: StepResult, script: ScriptOracle)
    requires a.phase.Scripting? && Agrees(a, want, script)
    requires 0 < |a.phase.pending| && ScriptSucceeds(a.phase.pending[0], script)
    ensures Agrees(ScriptStep(a, script), want, script)
  {
    var pending := a.phase.pending;
    var s := CreateScript(a.node, pending[0], script);
    var b := ScriptStep(a, script);
    assert b.phase == Sending(pending[0], pending[1..]);
    assert b.passLog == a.passLog + s.events;
    LoopStep(a.node, pending, script);
    var rest := Loop(a.node, pending[1..], script);
    var launch := [TokenAcquired, Launched(pending[0].hostname)];
    assert Segment(a.node, pending[0]) == s.events + launch;
    Regroup(a.passLog, s.events, launch, rest.events);
  }

  lemma ScriptFailAgrees(a: Agent, want: StepResult, script: ScriptOracle)
    requires a.phase.Scripting? && Agrees(a, want, script)
    requires 0 < |a.phase.pending| && !ScriptSucceeds(a.phase.pending[0], script)
    ensures Agrees(ScriptStep(a, script), want, script)
  {
    var pending := a.phase.pending;
    var s := CreateScript(a.node, pending[0], script);
    var b := ScriptStep(a, script);
    assert b.phase == Returned(false);
    assert b.passLog == a.passLog + s.events;
    LoopStops(a.node, pending, script);
  }

  lemma Regroup(t: seq<Event>, u: seq<Event>, v: seq<Event>, w: seq<Event>)
    ensures t + ((u + v) + w) == (t + u) + v + w
  {
  }

  lemma SendStepAgrees(a: Agent, want: StepResult, script: ScriptOracle)
    requires Inv(a) && a.phase.Sending? && a.pool.CanAcquire() && Agrees(a, want, script)
    ensures Agrees(SendStep(a), want, script)
  {
  }

  /** Every step of a schedule keeps the pass in agreement. */
  lemma NextAgrees(a: Agent, step: Step, want: StepResult, script: ScriptOracle, boot: BootOracle)
    requires Inv(a) && Agrees(a, want, script)
    ensures Agrees(Next(a, step, script, boot), want, script)
  {
    if Enabled(a, step) && step.PassStep? {
      if a.phase.Scripting? {
        ScriptStepAgrees(a, want, script);
      } else {
        SendStepAgrees(a, want, script);
      }
    }
  }

  lemma {:induction false} ExecuteAgrees(a: Agent, steps: seq<Step>, want: StepResult, script: ScriptOracle, boot: BootOracle)
    requires Inv(a) && Agrees(a, want, script)
    ensures Agrees(Execute(a, steps, script, boot), want, script)
    decreases |steps|
  {
    if |steps| > 0 {
      NextAgrees(a, steps[0], want, script, boot);
      ExecuteAgrees(Next(a, steps[0], script, boot), steps[1..], want, script, boot);
    }
  }

  /** Whatever the interleaving with running units, a pass that returns
      emitted exactly the sequential trace and returned the sequential
      result; units never change what the pass does. */
  lemma ScheduledPassIsSequential(a: Agent, fetched: Option<seq<Container>>, steps: seq<Step>, script: ScriptOracle, boot: BootOracle)
    requires Inv(a) && !InPass(a)
    requires Execute(StartPass(a, fetched), steps, script, boot).phase.Returned?
    ensures var b := Execute(StartPass(a, fetched), steps, script, boot);
      && b.passLog == Process(a.node, fetched, script).events
      && b.phase.ok == Process(a.node, fetched, script).ok
  {
    StartAgrees(a, fetched, script);
    ExecuteAgrees(StartPass(a, fetched), steps, Process(a.node, fetched, script), script, boot);
  }
}
