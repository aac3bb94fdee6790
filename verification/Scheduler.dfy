/** The workers of src/scheduler/scheduler.cpp and src/scheduler/tl_scheduler.cpp as a step
    system: any number of workers, the timer thread, and other threads that create
    coroutines. A step is one queue operation, one semaphore operation, one context switch
    or one write to a thread's own fields. */
module Scheduler {
  import opened Basics

  /** Whose stack or context: the worker's event loop or a coroutine. */
  datatype Who = Main | Co(c: nat)

  /** What a running coroutine asks for. */
  datatype Call = Create | Yield | Sleep | Return

  /** Where a worker stands; `save` tells coroutine_swap from coroutine_exit_swap. */
  datatype Pc =
    | Head                              // the loop test, and the choice whether to wait
    | Wait                              // sem_wait
    | Pop                               // pop_front
    | Enter(job: nat)                   // coroutine_swap(job) sets cur_coroutine_
    | SwitchIn(job: nat, from: Who)     // ctx_swap or ctx_entry_swap
    | Run                               // in the coroutine
    | Post                              // in coroutine_create, pushed but not yet posted
    | Leave(save: bool)                 // the swap to the event loop sets cur_coroutine_
    | SwitchOut(save: bool, from: Who)  // ctx_swap or ctx_exit_swap
    | SetFlag                           // yield_from_coroutine = pending_push_ != nullptr
    | FlushPush | ClearPush
    | FlushDestroy | ClearDestroy
    | FlushAdd | ClearAdd

  /** The thread-local state; `stack` is the stack the thread executes on, which no field of
      the source records, and `mainSaved` whether main_coroutine_ holds a saved context. */
  datatype Worker = Worker(pc: Pc, flag: bool, cur: Who, stack: Who, mainSaved: bool,
                           push: Option<nat>, destroy: Option<nat>, add: Option<nat>)

  /** The timer thread: it takes a pending event over, or lets one out of the lowest wheel
      and pushes and posts its coroutine. */
  datatype Timer = Idle | Taking(c: nat) | Firing(c: nat) | Posting

  datatype State = State(workers: seq<Worker>, queue: seq<nat>, sem: nat, outside: nat, timer: Timer,
                         pending: seq<nat>, wheels: seq<nat>, created: nat,
                         started: set<nat>, saved: set<nat>, destroyed: set<nat>)

  datatype Step = Work(i: nat, call: Call) | OutsidePush | OutsidePost | Tick(k: nat)

  function NewWorker(): Worker {
    Worker(Head, false, Main, Main, false, None, None, None)
  }

  predicate Init(s: State) {
    && (forall i | 0 <= i < |s.workers| :: s.workers[i] == NewWorker())
    && s.queue == [] && s.sem == 0 && s.outside == 0 && s.timer == Idle
    && s.pending == [] && s.wheels == [] && s.created == 0
    && s.started == {} && s.saved == {} && s.destroyed == {}
  }

  // ----- what a worker does -----

  /** The state after worker w has moved on; `workers` is set by the caller. */
  datatype Effect = Effect(w: Worker, s: State) | Blocked

  /** The event loop, from its head to the switch into a coroutine. */
  function LoopStep(w: Worker, s: State): Effect {
    match w.pc
    case Head =>
      Effect(w.(pc := if w.flag then Pop else Wait), s)
    case Wait =>
      if s.sem > 0 then Effect(w.(pc := Pop), s.(sem := s.sem - 1)) else Blocked
    case Pop =>
      if s.queue == [] then Effect(w.(pc := Head), s)
      else Effect(w.(pc := Enter(s.queue[0])), s.(queue := s.queue[1..]))
    case Enter(job) =>
      Effect(w.(pc := SwitchIn(job, w.cur), cur := Co(job)), s)
    case SwitchIn(job, from) =>
      // saves into `from`; a coroutine that never started gets a fresh context instead of a saved one
      Switch(w.(pc := Run), s.(started := s.started + {job}), from, true, Co(job))
    case _ => Blocked
  }

  /** A context switch: what runs now is saved into `from`, then `to` continues from its
      saved context, which is used up. */
  function Switch(w: Worker, s: State, from: Who, save: bool, to: Who): Effect {
    var w1 := if save && from == Main then w.(mainSaved := true) else w;
    var s1 := if save && from.Co? then s.(saved := s.saved + {from.c}) else s;
    if to == Main then Effect(w1.(stack := Main, mainSaved := false), s1)
    else Effect(w1.(stack := to), s1.(saved := s1.saved - {to.c}))
  }

  /** A coroutine's own code, up to the switch back. */
  function CoroutineStep(w: Worker, s: State, call: Call): Effect {
    match w.pc
    case Run =>
      (match call
       case Create =>
         Effect(w.(pc := Post), s.(queue := s.queue + [s.created], created := s.created + 1))
       case Yield =>
         if w.cur.Co? then Effect(w.(pc := Leave(true), push := Some(w.cur.c)), s) else Blocked
       case Sleep =>
         if w.cur.Co? then Effect(w.(pc := Leave(true), add := Some(w.cur.c)), s) else Blocked
       case Return =>
         if w.stack.Co? then Effect(w.(pc := Leave(false), destroy := Some(w.stack.c)), s) else Blocked)
    case Post =>
      Effect(w.(pc := Run), s.(sem := s.sem + 1))
    case Leave(save) =>
      Effect(w.(pc := SwitchOut(save, w.cur), cur := Main), s)
    case SwitchOut(save, from) =>
      Switch(w.(pc := SetFlag), s, from, save, Main)
    case _ => Blocked
  }

  /** The event loop after the switch back: the three flush functions in their order. */
  function FlushStep(w: Worker, s: State): Effect {
    match w.pc
    case SetFlag => Effect(w.(pc := FlushPush, flag := w.push.Some?), s)
    case FlushPush =>
      if w.push.Some? then Effect(w.(pc := ClearPush), s.(queue := s.queue + [w.push.value]))
      else Effect(w.(pc := FlushDestroy), s)
    case ClearPush => Effect(w.(pc := FlushDestroy, push := None), s)
    case FlushDestroy =>
      if w.destroy.Some? then Effect(w.(pc := ClearDestroy), s.(destroyed := s.destroyed + {w.destroy.value}))
      else Effect(w.(pc := FlushAdd), s)
    case ClearDestroy => Effect(w.(pc := FlushAdd, destroy := None), s)
    case FlushAdd =>
      if w.add.Some? then Effect(w.(pc := ClearAdd), s.(pending := s.pending + [w.add.value]))
      else Effect(w.(pc := Head), s)
    case ClearAdd => Effect(w.(pc := Head, add := None), s)
    case _ => Blocked
  }

  predicate InLoop(pc: Pc) {
    pc.Head? || pc.Wait? || pc.Pop? || pc.Enter? || pc.SwitchIn?
  }

  predicate InCoroutine(pc: Pc) {
    pc.Run? || pc.Post? || pc.Leave? || pc.SwitchOut?
  }

  function WorkerStep(w: Worker, s: State, call: Call): Effect {
    if InLoop(w.pc) then LoopStep(w, s)
    else if InCoroutine(w.pc) then CoroutineStep(w, s, call)
    else FlushStep(w, s)
  }

  // ----- the other threads -----

  /** The timer thread: takes the first pending event over, or lets out event k of those in
      the wheels; each job it pushes it posts in its next step. */
  predicate TimerStep(s: State, s': State, k: nat) {
    match s.timer
    case Idle =>
      || (s.pending != [] && s' == s.(timer := Taking(s.pending[0]), pending := s.pending[1..]))
      || (k < |s.wheels| && s' == s.(timer := Firing(s.wheels[k]), wheels := s.wheels[..k] + s.wheels[k + 1..]))
    case Taking(c) => s' == s.(timer := Idle, wheels := s.wheels + [c])
    case Firing(c) => s' == s.(timer := Posting, queue := s.queue + [c])
    case Posting => s' == s.(timer := Idle, sem := s.sem + 1)
  }

  predicate Next(s: State, s': State, step: Step) {
    match step
    case Work(i, call) =>
      && i < |s.workers|
      && var e := WorkerStep(s.workers[i], s, call);
         e.Effect? && s' == e.s.(workers := s.workers[i := e.w])
    case OutsidePush =>
      s' == s.(queue := s.queue + [s.created], created := s.created + 1, outside := s.outside + 1)
    case OutsidePost =>
      s.outside > 0 && s' == s.(outside := s.outside - 1, sem := s.sem + 1)
    case Tick(k) => TimerStep(s, s', k)
  }

  // ----- ownership -----

  function First(a: Option<nat>, b: Option<nat>): Option<nat> {
    if a.Some? then a else b
  }

  /** The coroutine a worker has in its hands. */
  function Hand(w: Worker): Option<nat> {
    match w.pc
    case Enter(job) => Some(job)
    case SwitchIn(job, _) => Some(job)
    case SetFlag => First(w.push, First(w.destroy, w.add))
    case FlushPush => First(w.push, First(w.destroy, w.add))
    case FlushDestroy => First(w.destroy, w.add)
    case FlushAdd => w.add
    case _ => if InCoroutine(w.pc) && w.stack.Co? then Some(w.stack.c) else None
  }

  function HandOf(w: Worker, c: nat): nat {
    if Hand(w) == Some(c) then 1 else 0
  }

  function Hands(ws: seq<Worker>, c: nat): nat {
    if ws == [] then 0 else Hands(ws[..|ws| - 1], c) + HandOf(ws[|ws| - 1], c)
  }

  function TimerHand(t: Timer, c: nat): nat {
    if (t.Taking? || t.Firing?) && t.c == c then 1 else 0
  }

  /** In how many places coroutine c is. */
  function Places(s: State, c: nat): nat {
    multiset(s.queue)[c] + multiset(s.pending)[c] + multiset(s.wheels)[c] + TimerHand(s.timer, c) + Hands(s.workers, c)
    + if c in s.destroyed then 1 else 0
  }

  // ----- tokens -----

  /** A worker that may pop: it has waited, or has pushed a yielded coroutine without posting. */
  predicate Owns(w: Worker) {
    w.pc.Pop? || (w.flag && (w.pc.ClearPush? || w.pc.FlushDestroy? || w.pc.FlushAdd? || w.pc.Head?))
  }

  function TokensOf(w: Worker): nat {
    (if Owns(w) then 1 else 0) + if w.pc.Post? then 1 else 0
  }

  /** Tokens held and posts still to come, over all workers. */
  function Tokens(ws: seq<Worker>): nat {
    if ws == [] then 0 else Tokens(ws[..|ws| - 1]) + TokensOf(ws[|ws| - 1])
  }

  predicate TokensBalance(s: State) {
    |s.queue| == s.sem + s.outside + (if s.timer.Posting? then 1 else 0) + Tokens(s.workers)
  }

  // ----- the invariant -----

  /** Exactly one of the pending fields is set, to c. */
  predicate OnePending(w: Worker, c: nat) {
    || (w.push == Some(c) && w.destroy == None && w.add == None)
    || (w.push == None && w.destroy == Some(c) && w.add == None)
    || (w.push == None && w.destroy == None && w.add == Some(c))
  }

  predicate NonePending(w: Worker) {
    w.push == None && w.destroy == None && w.add == None
  }

  /** The fields of a worker match where it stands. */
  predicate WorkerOk(w: Worker) {
    match w.pc
    case Head => OnMain(w) && NonePending(w)
    case Wait => OnMain(w) && NonePending(w) && !w.flag
    case Pop => OnMain(w) && NonePending(w)
    case Enter(_) => OnMain(w) && NonePending(w)
    case SwitchIn(job, from) => w.stack == from == Main && w.cur == Co(job) && NonePending(w)
    case Run => OnCoroutine(w) && w.cur == w.stack && NonePending(w)
    case Post => OnCoroutine(w) && w.cur == w.stack && NonePending(w)
    case Leave(save) =>
      OnCoroutine(w) && w.cur == w.stack && OnePending(w, w.stack.c) && (save <==> w.destroy == None)
    case SwitchOut(save, from) =>
      OnCoroutine(w) && w.cur == Main && from == w.stack && OnePending(w, w.stack.c) && (save <==> w.destroy == None)
    case SetFlag => OnMain(w) && Hand(w).Some? && OnePending(w, Hand(w).value)
    case FlushPush => OnMain(w) && Hand(w).Some? && OnePending(w, Hand(w).value) && (w.flag <==> w.push.Some?)
    case ClearPush => OnMain(w) && w.push.Some? && OnePending(w, w.push.value) && w.flag
    case FlushDestroy =>
      OnMain(w) && w.push == None && if w.flag then NonePending(w) else Hand(w).Some? && OnePending(w, Hand(w).value)
    case ClearDestroy => OnMain(w) && !w.flag && w.destroy.Some? && OnePending(w, w.destroy.value)
    case FlushAdd => OnMain(w) && w.push == None && w.destroy == None && (w.flag ==> w.add == None)
    case ClearAdd => OnMain(w) && !w.flag && w.add.Some? && OnePending(w, w.add.value)
  }

  predicate OnMain(w: Worker) {
    w.cur == w.stack == Main
  }

  predicate OnCoroutine(w: Worker) {
    w.stack.Co? && w.mainSaved
  }

  /** A coroutine that may be run: never started, or with its context saved. */
  predicate Resumable(s: State, c: nat) {
    c in s.started ==> c in s.saved
  }

  /** A worker's coroutine runs, is on its way to being deleted, or may be run. */
  predicate HandOk(s: State, w: Worker) {
    Hand(w).Some? ==>
      var c := Hand(w).value;
      if InCoroutine(w.pc) then c in s.started && c !in s.saved
      else w.destroy == None ==> Resumable(s, c)
  }

  predicate AllResumable(s: State, l: seq<nat>) {
    forall c | c in l :: Resumable(s, c)
  }

  predicate ContextsOk(s: State) {
    && AllResumable(s, s.queue) && AllResumable(s, s.pending) && AllResumable(s, s.wheels)
    && (s.timer.Taking? || s.timer.Firing? ==> Resumable(s, s.timer.c))
    && forall i | 0 <= i < |s.workers| :: HandOk(s, s.workers[i])
  }

  ghost predicate OnePlace(s: State) {
    forall c: nat :: Places(s, c) == if c < s.created then 1 else 0
  }

  ghost predicate Inv(s: State) {
    && (forall i | 0 <= i < |s.workers| :: WorkerOk(s.workers[i]))
    && OnePlace(s) && TokensBalance(s) && ContextsOk(s)
    && s.saved <= s.started && forall c | c in s.started :: c < s.created
  }
}
