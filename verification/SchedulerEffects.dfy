/** What the scheduler does with a coroutine, read off the queue, the pending list, the wheels
    and the deletions of a run: where each request takes its caller, and in which order jobs
    and sleepers come through. */
module SchedulerEffects {
  import opened Basics
  import opened Scheduler
  import opened SchedulerProof

  // ----- what a step publishes -----

  function Grown(l: seq<nat>, l': seq<nat>): seq<nat> {
    if |l'| > |l| then l'[|l|..] else []
  }

  function Pushed(s: State, s': State): seq<nat> {
    Grown(s.queue, s'.queue)
  }

  function Slept(s: State, s': State): seq<nat> {
    Grown(s.pending, s'.pending)
  }

  function Deleted(s: State, s': State): set<nat> {
    s'.destroyed - s.destroyed
  }

  predicate IsBy(step: Step, i: nat) {
    step.Work? && step.i == i
  }

  /** Pushed to the queue, put on the pending list, deleted. */
  datatype Effects = Effects(pushed: seq<nat>, slept: seq<nat>, deleted: set<nat>)

  function EffectsOf(s: State, s': State): Effects {
    Effects(Pushed(s, s'), Slept(s, s'), Deleted(s, s'))
  }

  function Join(e: Effects, f: Effects): Effects {
    Effects(e.pushed + f.pushed, e.slept + f.slept, e.deleted + f.deleted)
  }

  const NOTHING := Effects([], [], {})

  /** What worker i publishes in the steps from a to b. */
  function DoneBy(ss: seq<State>, steps: seq<Step>, i: nat, a: nat, b: nat): Effects
    requires a <= b <= |steps| < |ss|
  {
    if b == a then NOTHING
    else
      var done := DoneBy(ss, steps, i, a, b - 1);
      if IsBy(steps[b - 1], i) then Join(done, EffectsOf(ss[b - 1], ss[b])) else done
  }

  lemma JoinAssoc(e: Effects, f: Effects, g: Effects)
    ensures Join(Join(e, f), g) == Join(e, Join(f, g))
  {
    assert (e.pushed + f.pushed) + g.pushed == e.pushed + (f.pushed + g.pushed);
    assert (e.slept + f.slept) + g.slept == e.slept + (f.slept + g.slept);
    assert (e.deleted + f.deleted) + g.deleted == e.deleted + (f.deleted + g.deleted);
  }

  lemma JoinNothing(e: Effects)
    ensures Join(e, NOTHING) == e == Join(NOTHING, e)
  {
    assert e.pushed + [] == e.pushed == [] + e.pushed;
    assert e.slept + [] == e.slept == [] + e.slept;
    assert e.deleted + {} == e.deleted == {} + e.deleted;
  }

  // ----- from a request to the loop -----

  predicate OnTheWay(pc: Pc) {
    pc.Leave? || pc.SwitchOut? || (!InLoop(pc) && !InCoroutine(pc))
  }

  function AsSeq(o: Option<nat>): seq<nat> {
    if o.Some? then [o.value] else []
  }

  function AsSet(o: Option<nat>): set<nat> {
    if o.Some? then {o.value} else {}
  }

  /** What a worker on its way back to the loop has still to publish. */
  function ToDo(w: Worker): Effects {
    var early := w.pc.Leave? || w.pc.SwitchOut? || w.pc.SetFlag? || w.pc.FlushPush?;
    Effects(if early then AsSeq(w.push) else [],
            if OnTheWay(w.pc) && !w.pc.ClearAdd? then AsSeq(w.add) else [],
            if early || w.pc.ClearPush? || w.pc.FlushDestroy? then AsSet(w.destroy) else {})
  }

  /** What a coroutine c asks for. */
  function Asked(call: Call, c: nat): Effects {
    match call
    case Create => NOTHING
    case Yield => Effects([c], [], {})
    case Sleep => Effects([], [c], {})
    case Return => Effects([], [], {c})
  }

  lemma {:induction false} LeavingPushes(w: Worker, s: State, call: Call)
    requires WorkerOk(w) && (w.pc.Leave? || w.pc.SwitchOut?)
    ensures var e := CoroutineStep(w, s, call);
            e.Effect? && Pushed(s, e.s) == [] && ToDo(e.w).pushed == ToDo(w).pushed && OnTheWay(e.w.pc)
  {
  }

  lemma {:induction false} FlushPushes(w: Worker, s: State)
    requires WorkerOk(w) && !InLoop(w.pc) && !InCoroutine(w.pc)
    ensures var e := FlushStep(w, s);
            e.Effect? && Pushed(s, e.s) + ToDo(e.w).pushed == ToDo(w).pushed && (OnTheWay(e.w.pc) || e.w.pc.Head?)
  {
  }

  lemma WayPushes(w: Worker, s: State, call: Call)
    requires WorkerOk(w) && OnTheWay(w.pc)
    ensures var e := WorkerStep(w, s, call);
            && e.Effect? && Pushed(s, e.s) + ToDo(e.w).pushed == ToDo(w).pushed
            && (OnTheWay(e.w.pc) || e.w.pc.Head?)
  {
    if InCoroutine(w.pc) {
      LeavingPushes(w, s, call);
    } else {
      FlushPushes(w, s);
    }
  }

  lemma {:induction false} WaySleeps(w: Worker, s: State, call: Call)
    requires WorkerOk(w) && OnTheWay(w.pc) && WorkerStep(w, s, call).Effect?
    ensures var e := WorkerStep(w, s, call); Slept(s, e.s) + ToDo(e.w).slept == ToDo(w).slept
  {
  }

  lemma {:induction false} WayDeletes(w: Worker, s: State, call: Call)
    requires WorkerOk(w) && OnTheWay(w.pc) && WorkerStep(w, s, call).Effect?
    requires Hand(w).Some? ==> Hand(w).value !in s.destroyed
    ensures var e := WorkerStep(w, s, call); Deleted(s, e.s) + ToDo(e.w).deleted == ToDo(w).deleted
  {
  }

  /** Each step publishes what is no longer to be published afterwards. */
  lemma WayStep(w: Worker, s: State, call: Call)
    requires WorkerOk(w) && OnTheWay(w.pc) && WorkerStep(w, s, call).Effect?
    requires Hand(w).Some? ==> Hand(w).value !in s.destroyed
    ensures var e := WorkerStep(w, s, call);
            Join(EffectsOf(s, e.s), ToDo(e.w)) == ToDo(w) && (OnTheWay(e.w.pc) || e.w.pc.Head?)
  {
    WayPushes(w, s, call);
    WaySleeps(w, s, call);
    WayDeletes(w, s, call);
  }

  /** A request is noted for the coroutine that makes it, and for nothing else. */
  lemma {:induction false} RequestStep(w: Worker, s: State, call: Call)
    requires WorkerOk(w) && w.pc.Run? && !call.Create?
    ensures var e := WorkerStep(w, s, call);
            && e.Effect? && OnTheWay(e.w.pc)
            && EffectsOf(s, e.s) == NOTHING && ToDo(e.w) == Asked(call, w.stack.c)
  {
  }

  /** Steps of others leave a worker alone. */
  lemma OthersLeave(s: State, s': State, step: Step, i: nat)
    requires Next(s, s', step) && !IsBy(step, i) && i < |s.workers|
    ensures |s'.workers| == |s.workers| && s'.workers[i] == s.workers[i]
  {
    if step.Work? {
      WorkerStepKeepsWorkers(s.workers[step.i], s, step.call);
    }
  }

  lemma WorkerStepKeepsWorkers(w: Worker, s: State, call: Call)
    requires WorkerStep(w, s, call).Effect?
    ensures WorkerStep(w, s, call).s.workers == s.workers
  {
  }

  lemma RunStep(ss: seq<State>, steps: seq<Step>, k: nat)
    requires IsRun(ss, steps) && k < |steps|
    ensures Next(ss[k], ss[k + 1], steps[k]) && Inv(ss[k]) && Inv(ss[k + 1])
  {
    RunKeepsInv(ss, steps, k);
    RunKeepsInv(ss, steps, k + 1);
  }

  lemma WorkerCount(s: State, s': State, step: Step)
    requires Next(s, s', step)
    ensures |s'.workers| == |s.workers|
  {
    if step.Work? {
      WorkerStepKeepsWorkers(s.workers[step.i], s, step.call);
    }
  }

  /** What worker i has published since a and has still to publish is what was asked. */
  predicate Settles(ss: seq<State>, steps: seq<Step>, i: nat, a: nat, b: nat, asked: Effects)
    requires a <= b <= |steps| < |ss|
  {
    i < |ss[b].workers| && Join(DoneBy(ss, steps, i, a, b), ToDo(ss[b].workers[i])) == asked
  }

  predicate IsOnTheWay(s: State, i: nat) {
    i < |s.workers| && OnTheWay(s.workers[i].pc)
  }

  predicate IsAtHead(s: State, i: nat) {
    i < |s.workers| && s.workers[i].pc.Head?
  }

  /** On the way or arrived, with the account settled. */
  predicate IsServed(ss: seq<State>, steps: seq<Step>, i: nat, a: nat, b: nat, asked: Effects)
    requires a <= b <= |steps| < |ss|
  {
    (IsOnTheWay(ss[b], i) || IsAtHead(ss[b], i)) && Settles(ss, steps, i, a, b, asked)
  }

  lemma SettlesFirst(ss: seq<State>, steps: seq<Step>, i: nat, a: nat)
    requires IsRun(ss, steps) && a < |steps| && IsBy(steps[a], i) && !steps[a].call.Create?
    requires i < |ss[a].workers| && ss[a].workers[i].pc.Run?
    ensures ss[a].workers[i].stack.Co?
    ensures IsServed(ss, steps, i, a, a + 1, Asked(steps[a].call, ss[a].workers[i].stack.c))
  {
    RunStep(ss, steps, a);
    assert WorkerOk(ss[a].workers[i]);
    RequestStep(ss[a].workers[i], ss[a], steps[a].call);
    WorkerStepKeepsWorkers(ss[a].workers[i], ss[a], steps[a].call);
    assert DoneBy(ss, steps, i, a, a) == NOTHING;
    JoinNothing(NOTHING);
    JoinNothing(ToDo(ss[a + 1].workers[i]));
  }

  lemma OwnStep(ss: seq<State>, steps: seq<Step>, i: nat, b: nat)
    requires IsRun(ss, steps) && b < |steps| && IsBy(steps[b], i) && IsOnTheWay(ss[b], i)
    ensures IsOnTheWay(ss[b + 1], i) || IsAtHead(ss[b + 1], i)
    ensures Join(EffectsOf(ss[b], ss[b + 1]), ToDo(ss[b + 1].workers[i])) == ToDo(ss[b].workers[i])
  {
    RunStep(ss, steps, b);
    var w := ss[b].workers[i];
    assert WorkerOk(w);
    if Hand(w).Some? {
      OnlyInHand(ss[b], i, Hand(w).value);
    }
    WayStep(w, ss[b], steps[b].call);
    WorkerStepKeepsWorkers(w, ss[b], steps[b].call);
  }

  lemma SettlesNext(ss: seq<State>, steps: seq<Step>, i: nat, a: nat, b: nat, asked: Effects)
    requires IsRun(ss, steps) && a <= b < |steps| && !IsAtHead(ss[b], i) && IsServed(ss, steps, i, a, b, asked)
    ensures IsServed(ss, steps, i, a, b + 1, asked)
  {
    if IsBy(steps[b], i) {
      OwnStep(ss, steps, i, b);
      JoinAssoc(DoneBy(ss, steps, i, a, b), EffectsOf(ss[b], ss[b + 1]), ToDo(ss[b + 1].workers[i]));
    } else {
      OthersLeave(ss[b], ss[b + 1], steps[b], i);
    }
  }

  lemma {:induction false} SettlesThroughout(ss: seq<State>, steps: seq<Step>, i: nat, a: nat, b: nat, asked: Effects)
    requires a < b <= |steps| < |ss| && IsServed(ss, steps, i, a, a + 1, asked)
    requires forall k | a < k < b :: IsServed(ss, steps, i, a, k, asked) ==> IsServed(ss, steps, i, a, k + 1, asked)
    ensures IsServed(ss, steps, i, a, b, asked)
    decreases b
  {
    if b > a + 1 {
      SettlesThroughout(ss, steps, i, a, b - 1, asked);
    }
  }

  /** A coroutine c that asks worker i to yield, to sleep or to end is, by the time the worker
      is back at the head of its loop: for a yield, pushed to the queue once and nothing else;
      for a sleep, put on the pending list once and nothing else; at its end, deleted and
      nothing else. */
  lemma RequestsAreServed(ss: seq<State>, steps: seq<Step>, i: nat, a: nat, b: nat)
    requires IsRun(ss, steps) && a < b <= |steps| && IsBy(steps[a], i) && !steps[a].call.Create?
    requires i < |ss[a].workers| && ss[a].workers[i].pc.Run?
    requires (forall k | a < k < b :: !IsAtHead(ss[k], i)) && IsAtHead(ss[b], i)
    ensures ss[a].workers[i].stack.Co? && DoneBy(ss, steps, i, a, b) == Asked(steps[a].call, ss[a].workers[i].stack.c)
  {
    SettlesFirst(ss, steps, i, a);
    var asked := Asked(steps[a].call, ss[a].workers[i].stack.c);
    forall k | a < k < b && IsServed(ss, steps, i, a, k, asked) ensures IsServed(ss, steps, i, a, k + 1, asked) {
      SettlesNext(ss, steps, i, a, k, asked);
    }
    SettlesThroughout(ss, steps, i, a, b, asked);
    JoinNothing(DoneBy(ss, steps, i, a, b));
  }

  // ----- a worker comes round -----

  /** How many steps of its own a worker is away from running a coroutine. */
  function StepsToRun(pc: Pc): nat {
    match pc
    case Leave(_) => 14
    case SwitchOut(_, _) => 13
    case SetFlag => 12
    case FlushPush => 11
    case ClearPush => 10
    case FlushDestroy => 9
    case ClearDestroy => 8
    case FlushAdd => 7
    case ClearAdd => 6
    case Head => 5
    case Wait => 4
    case Pop => 3
    case Enter(_) => 2
    case SwitchIn(_, _) => 1
    case _ => 0
  }

  function OwnSteps(steps: seq<Step>, i: nat, a: nat, b: nat): nat
    requires a <= b <= |steps|
  {
    if b == a then 0 else OwnSteps(steps, i, a, b - 1) + if IsBy(steps[b - 1], i) then 1 else 0
  }

  predicate InCoroutineAt(s: State, i: nat) {
    i < |s.workers| && (s.workers[i].pc.Run? || s.workers[i].pc.Post?)
  }

  lemma {:induction false} CloserToRun(w: Worker, s: State, call: Call)
    requires WorkerStep(w, s, call).Effect? && !w.pc.Run? && !w.pc.Post? && (w.pc.Pop? ==> s.queue != [])
    ensures StepsToRun(WorkerStep(w, s, call).w.pc) < StepsToRun(w.pc)
  {
  }

  /** Steps made since a and steps to go are within one round of the loop. */
  predicate ComesRound(ss: seq<State>, steps: seq<Step>, i: nat, a: nat, b: nat)
    requires a <= b <= |steps| < |ss|
  {
    i < |ss[b].workers| && OwnSteps(steps, i, a, b) + StepsToRun(ss[b].workers[i].pc) <= 14
  }

  lemma RoundNext(ss: seq<State>, steps: seq<Step>, i: nat, a: nat, b: nat)
    requires IsRun(ss, steps) && a <= b < |steps| && !InCoroutineAt(ss[b], i) && ComesRound(ss, steps, i, a, b)
    ensures ComesRound(ss, steps, i, a, b + 1)
  {
    RunStep(ss, steps, b);
    if IsBy(steps[b], i) {
      if ss[b].workers[i].pc.Pop? {
        PopFindsAJob(ss[b], i);
      }
      CloserToRun(ss[b].workers[i], ss[b], steps[b].call);
      WorkerStepKeepsWorkers(ss[b].workers[i], ss[b], steps[b].call);
    } else {
      OthersLeave(ss[b], ss[b + 1], steps[b], i);
    }
  }

  lemma {:induction false} RoundThroughout(ss: seq<State>, steps: seq<Step>, i: nat, a: nat, b: nat)
    requires a <= b <= |steps| < |ss| && ComesRound(ss, steps, i, a, a)
    requires forall k | a <= k < b :: ComesRound(ss, steps, i, a, k) ==> ComesRound(ss, steps, i, a, k + 1)
    ensures ComesRound(ss, steps, i, a, b)
    decreases b
  {
    if a < b {
      RoundThroughout(ss, steps, i, a, b - 1);
      assert ComesRound(ss, steps, i, a, b - 1 + 1);
    }
  }

  /** Wherever a worker stands, after 14 steps of its own it runs a coroutine: nothing but an
      empty semaphore keeps it from it. */
  lemma WorkerComesRound(ss: seq<State>, steps: seq<Step>, i: nat, a: nat, b: nat)
    requires IsRun(ss, steps) && a <= b <= |steps| && i < |ss[a].workers|
    requires forall k | a <= k < b :: !InCoroutineAt(ss[k], i)
    ensures OwnSteps(steps, i, a, b) <= 14
  {
    forall k | a <= k < b && ComesRound(ss, steps, i, a, k) ensures ComesRound(ss, steps, i, a, k + 1) {
      RoundNext(ss, steps, i, a, k);
    }
    RoundThroughout(ss, steps, i, a, b);
  }

  // ----- order -----

  /** All pushes to the queue so far, and the jobs popped. */
  function AllPushed(ss: seq<State>, i: nat): seq<nat>
    requires i < |ss|
  {
    if i == 0 then [] else AllPushed(ss, i - 1) + Pushed(ss[i - 1], ss[i])
  }

  /** The job worker step `step` takes, if it takes one. */
  function Taken(s: State, s': State, step: Step): seq<nat> {
    if step.Work? && step.i < |s.workers| && step.i < |s'.workers|
       && s.workers[step.i].pc.Pop? && s'.workers[step.i].pc.Enter?
    then [s'.workers[step.i].pc.job] else []
  }

  function AllTaken(ss: seq<State>, steps: seq<Step>, i: nat): seq<nat>
    requires i <= |steps| < |ss|
  {
    if i == 0 then [] else AllTaken(ss, steps, i - 1) + Taken(ss[i - 1], ss[i], steps[i - 1])
  }

  lemma {:induction false} WorkerQueue(w: Worker, s: State, call: Call)
    requires WorkerStep(w, s, call).Effect?
    ensures var e := WorkerStep(w, s, call);
            s.queue + Grown(s.queue, e.s.queue) == (if w.pc.Pop? && e.w.pc.Enter? then [e.w.pc.job] else []) + e.s.queue
  {
  }

  lemma QueueStep(s: State, s': State, step: Step)
    requires Next(s, s', step)
    ensures s.queue + Pushed(s, s') == Taken(s, s', step) + s'.queue
  {
    if step.Work? {
      WorkerQueue(s.workers[step.i], s, step.call);
    }
  }

  predicate QueueOk(ss: seq<State>, steps: seq<Step>, i: nat)
    requires i <= |steps| < |ss|
  {
    AllPushed(ss, i) == AllTaken(ss, steps, i) + ss[i].queue
  }

  lemma QueueAdvances(ss: seq<State>, steps: seq<Step>, i: nat)
    requires i < |steps| < |ss| && Next(ss[i], ss[i + 1], steps[i]) && QueueOk(ss, steps, i)
    ensures QueueOk(ss, steps, i + 1)
  {
    QueueStep(ss[i], ss[i + 1], steps[i]);
    Shift(AllPushed(ss, i), Pushed(ss[i], ss[i + 1]), AllTaken(ss, steps, i), ss[i].queue,
          Taken(ss[i], ss[i + 1], steps[i]), ss[i + 1].queue);
  }

  lemma {:induction false} QueueThroughout(ss: seq<State>, steps: seq<Step>, i: nat)
    requires i <= |steps| < |ss| && QueueOk(ss, steps, 0)
    requires forall k | 0 <= k < i :: QueueOk(ss, steps, k) ==> QueueOk(ss, steps, k + 1)
    ensures QueueOk(ss, steps, i)
  {
    if i > 0 {
      QueueThroughout(ss, steps, i - 1);
      assert QueueOk(ss, steps, i - 1 + 1);
    }
  }

  /** Jobs are taken in the order in which they were pushed. */
  lemma JobsInOrder(ss: seq<State>, steps: seq<Step>, i: nat)
    requires IsRun(ss, steps) && i < |ss|
    ensures AllPushed(ss, i) == AllTaken(ss, steps, i) + ss[i].queue
  {
    forall k | 0 <= k < i && QueueOk(ss, steps, k) ensures QueueOk(ss, steps, k + 1) {
      QueueAdvances(ss, steps, k);
    }
    QueueThroughout(ss, steps, i);
  }

  lemma Shift(all: seq<nat>, more: seq<nat>, gone: seq<nat>, left: seq<nat>, going: seq<nat>, left': seq<nat>)
    requires all == gone + left && left + more == going + left'
    ensures all + more == gone + going + left'
  {
    assert all + more == gone + (left + more);
  }

  // ----- the way through the timer -----

  /** What has joined the pending list, what the timer has taken from there, put into a
      wheel, let out of one, and pushed to the queue. */
  datatype Flow = Flow(slept: seq<nat>, taken: seq<nat>, stored: seq<nat>, out: seq<nat>, delivered: seq<nat>)

  function FlowOf(s: State, s': State, step: Step): Flow {
    Flow(Slept(s, s'),
         if s.timer.Idle? && s'.timer.Taking? then [s'.timer.c] else [],
         Grown(s.wheels, s'.wheels),
         if s.timer.Idle? && s'.timer.Firing? then [s'.timer.c] else [],
         if step.Tick? then Pushed(s, s') else [])
  }

  function FlowAt(ss: seq<State>, steps: seq<Step>, i: nat): Flow
    requires i <= |steps| < |ss|
  {
    if i == 0 then Flow([], [], [], [], [])
    else
      var f, g := FlowAt(ss, steps, i - 1), FlowOf(ss[i - 1], ss[i], steps[i - 1]);
      Flow(f.slept + g.slept, f.taken + g.taken, f.stored + g.stored, f.out + g.out, f.delivered + g.delivered)
  }

  predicate Flows(s: State, f: Flow) {
    && f.slept == f.taken + s.pending
    && f.taken == f.stored + (if s.timer.Taking? then [s.timer.c] else [])
    && multiset(f.stored) == multiset(f.out) + multiset(s.wheels)
    && f.out == f.delivered + (if s.timer.Firing? then [s.timer.c] else [])
  }

  lemma {:induction false} WorkerPending(w: Worker, s: State, call: Call)
    requires WorkerStep(w, s, call).Effect?
    ensures var e := WorkerStep(w, s, call);
            && e.s.wheels == s.wheels && e.s.timer == s.timer && e.s.pending == s.pending + Grown(s.pending, e.s.pending)
  {
  }

  lemma OthersPending(s: State, s': State, step: Step)
    requires Next(s, s', step) && !step.Tick?
    ensures s'.timer == s.timer && s'.wheels == s.wheels && s'.pending == s.pending + Slept(s, s')
  {
    if step.Work? {
      WorkerPending(s.workers[step.i], s, step.call);
    }
  }

  lemma FlowWork(s: State, s': State, step: Step, f: Flow, f': Flow)
    requires Next(s, s', step) && !step.Tick? && Flows(s, f)
    requires f' == f.(slept := f.slept + Slept(s, s'))
    ensures Flows(s', f')
  {
    OthersPending(s, s', step);
    assert f.taken + s.pending + Slept(s, s') == f.taken + (s.pending + Slept(s, s'));
  }

  lemma FlowTakes(s: State, s': State, k: nat, f: Flow)
    requires TimerStep(s, s', k) && s.timer.Idle? && s'.timer.Taking? && Flows(s, f)
    ensures Slept(s, s') == [] && Pushed(s, s') == [] && s'.wheels == s.wheels
    ensures Flows(s', f.(taken := f.taken + [s'.timer.c]))
  {
    assert s.pending == [s'.timer.c] + s'.pending;
  }

  lemma FlowFires(s: State, s': State, k: nat, f: Flow)
    requires TimerStep(s, s', k) && s.timer.Idle? && s'.timer.Firing? && Flows(s, f)
    ensures Slept(s, s') == [] && Pushed(s, s') == [] && Grown(s.wheels, s'.wheels) == []
    ensures Flows(s', f.(out := f.out + [s'.timer.c]))
  {
    Removed(s.wheels, k);
  }

  lemma FlowStores(s: State, s': State, k: nat, f: Flow)
    requires TimerStep(s, s', k) && !s.timer.Idle? && Flows(s, f)
    ensures Slept(s, s') == [] && s'.timer != s.timer && !s'.timer.Taking? && !s'.timer.Firing?
    ensures Flows(s', f.(stored := f.stored + Grown(s.wheels, s'.wheels), delivered := f.delivered + Pushed(s, s')))
  {
  }

  lemma FlowNext(s: State, s': State, step: Step, f: Flow, f': Flow)
    requires Next(s, s', step) && Flows(s, f)
    requires var g := FlowOf(s, s', step);
             f' == Flow(f.slept + g.slept, f.taken + g.taken, f.stored + g.stored, f.out + g.out, f.delivered + g.delivered)
    ensures Flows(s', f')
  {
    Unchanged(f);
    if !step.Tick? {
      OthersPending(s, s', step);
      FlowWork(s, s', step, f, f');
    } else if s.timer.Idle? {
      if s'.timer.Taking? {
        FlowTakes(s, s', step.k, f);
      } else {
        FlowFires(s, s', step.k, f);
      }
    } else {
      FlowStores(s, s', step.k, f);
    }
  }

  lemma Unchanged(f: Flow)
    ensures f.slept + [] == f.slept && f.taken + [] == f.taken && f.stored + [] == f.stored
    ensures f.out + [] == f.out && f.delivered + [] == f.delivered
  {
  }

  lemma FlowAdvances(ss: seq<State>, steps: seq<Step>, i: nat)
    requires IsRun(ss, steps) && i < |steps| && Flows(ss[i], FlowAt(ss, steps, i))
    ensures Flows(ss[i + 1], FlowAt(ss, steps, i + 1))
  {
    RunStep(ss, steps, i);
    FlowNext(ss[i], ss[i + 1], steps[i], FlowAt(ss, steps, i), FlowAt(ss, steps, i + 1));
  }

  lemma {:induction false} FlowsThroughout(ss: seq<State>, steps: seq<Step>, i: nat)
    requires i <= |steps| < |ss| && Flows(ss[0], FlowAt(ss, steps, 0))
    requires forall k | 0 <= k < i :: Flows(ss[k], FlowAt(ss, steps, k)) ==> Flows(ss[k + 1], FlowAt(ss, steps, k + 1))
    ensures Flows(ss[i], FlowAt(ss, steps, i))
  {
    if i > 0 {
      FlowsThroughout(ss, steps, i - 1);
      assert Flows(ss[i - 1 + 1], FlowAt(ss, steps, i - 1 + 1));
    }
  }

  /** Every sleeping coroutine goes through the pending list, in order, into a wheel, and from
      there to the queue, each stage losing and adding none. */
  lemma SleepersComeThrough(ss: seq<State>, steps: seq<Step>, i: nat)
    requires IsRun(ss, steps) && i < |ss|
    ensures Flows(ss[i], FlowAt(ss, steps, i))
  {
    forall k | 0 <= k < i && Flows(ss[k], FlowAt(ss, steps, k)) ensures Flows(ss[k + 1], FlowAt(ss, steps, k + 1)) {
      FlowAdvances(ss, steps, k);
    }
    FlowsThroughout(ss, steps, i);
  }
}
