/** Every step of the workers, the timer and the other threads keeps the invariant of module
    Scheduler, and what follows from it. */
module SchedulerProof {
  import opened Basics
  import opened Scheduler

  // ----- counting -----

  lemma Removed(l: seq<nat>, k: nat)
    requires k < |l|
    ensures multiset(l) == multiset(l[..k] + l[k + 1..]) + multiset{l[k]}
  {
    assert l == l[..k] + [l[k]] + l[k + 1..];
  }

  lemma Popped(l: seq<nat>)
    requires l != []
    ensures multiset(l) == multiset(l[1..]) + multiset{l[0]}
  {
    assert l == [l[0]] + l[1..];
  }

  lemma {:induction false} HandsChanged(ws: seq<Worker>, i: nat, w: Worker, c: nat)
    requires i < |ws|
    ensures Hands(ws[i := w], c) + HandOf(ws[i], c) == Hands(ws, c) + HandOf(w, c)
    decreases |ws|
  {
    var n := |ws| - 1;
    if i < n {
      HandsChanged(ws[..n], i, w, c);
      assert ws[i := w][..n] == ws[..n][i := w];
    } else {
      assert ws[i := w][..n] == ws[..n];
    }
  }

  lemma {:induction false} TokensChanged(ws: seq<Worker>, i: nat, w: Worker)
    requires i < |ws|
    ensures Tokens(ws[i := w]) + TokensOf(ws[i]) == Tokens(ws) + TokensOf(w)
    decreases |ws|
  {
    var n := |ws| - 1;
    if i < n {
      TokensChanged(ws[..n], i, w);
      assert ws[i := w][..n] == ws[..n][i := w];
    } else {
      assert ws[i := w][..n] == ws[..n];
    }
  }

  lemma {:induction false} HandsAtLeast(ws: seq<Worker>, i: nat, c: nat)
    requires i < |ws|
    ensures Hands(ws, c) >= HandOf(ws[i], c)
    decreases |ws|
  {
    if i < |ws| - 1 {
      HandsAtLeast(ws[..|ws| - 1], i, c);
    }
  }

  lemma TwoHands(ws: seq<Worker>, i: nat, j: nat, c: nat)
    requires i < |ws| && j < |ws| && i != j
    ensures Hands(ws, c) >= HandOf(ws[i], c) + HandOf(ws[j], c)
  {
    var idle := NewWorker();
    HandsChanged(ws, i, idle, c);
    HandsAtLeast(ws[i := idle], j, c);
  }

  lemma {:induction false} TokensAtLeast(ws: seq<Worker>, i: nat)
    requires i < |ws|
    ensures Tokens(ws) >= TokensOf(ws[i])
    decreases |ws|
  {
    if i < |ws| - 1 {
      TokensAtLeast(ws[..|ws| - 1], i);
    }
  }

  // ----- one place -----

  /** What worker i has in its hands is nowhere else. */
  lemma OnlyInHand(s: State, i: nat, c: nat)
    requires OnePlace(s) && i < |s.workers| && Hand(s.workers[i]) == Some(c)
    ensures c < s.created && c !in s.queue && c !in s.pending && c !in s.wheels && c !in s.destroyed
    ensures TimerHand(s.timer, c) == 0
    ensures forall j | 0 <= j < |s.workers| && j != i :: Hand(s.workers[j]) != Some(c)
  {
    HandsAtLeast(s.workers, i, c);
    assert Places(s, c) == 1;
    forall j | 0 <= j < |s.workers| && j != i ensures Hand(s.workers[j]) != Some(c) {
      TwoHands(s.workers, i, j, c);
    }
  }

  /** What a queue holds has been created and is in nobody's hands. */
  lemma OnlyInQueue(s: State, c: nat)
    requires OnePlace(s) && (c in s.queue || c in s.pending || c in s.wheels)
    ensures c < s.created && forall i | 0 <= i < |s.workers| :: Hand(s.workers[i]) != Some(c)
  {
    assert Places(s, c) == 1;
    forall i | 0 <= i < |s.workers| ensures Hand(s.workers[i]) != Some(c) {
      HandsAtLeast(s.workers, i, c);
    }
  }

  lemma OnlyInTimer(s: State)
    requires OnePlace(s) && (s.timer.Taking? || s.timer.Firing?)
    ensures s.timer.c < s.created && forall i | 0 <= i < |s.workers| :: Hand(s.workers[i]) != Some(s.timer.c)
  {
    assert Places(s, s.timer.c) == 1;
    forall i | 0 <= i < |s.workers| ensures Hand(s.workers[i]) != Some(s.timer.c) {
      HandsAtLeast(s.workers, i, s.timer.c);
    }
  }

  // ----- worker steps -----

  lemma {:induction false} LoopKeepsWorkerOk(w: Worker, s: State)
    requires WorkerOk(w) && InLoop(w.pc) && LoopStep(w, s).Effect?
    ensures WorkerOk(LoopStep(w, s).w)
  {
  }

  lemma {:induction false} CoroutineKeepsWorkerOk(w: Worker, s: State, call: Call)
    requires WorkerOk(w) && InCoroutine(w.pc) && CoroutineStep(w, s, call).Effect?
    ensures WorkerOk(CoroutineStep(w, s, call).w)
  {
  }

  lemma {:induction false} FlushKeepsWorkerOk(w: Worker, s: State)
    requires WorkerOk(w) && FlushStep(w, s).Effect?
    ensures WorkerOk(FlushStep(w, s).w)
  {
  }

  lemma StepKeepsWorkerOk(w: Worker, s: State, call: Call)
    requires WorkerOk(w) && WorkerStep(w, s, call).Effect?
    ensures WorkerOk(WorkerStep(w, s, call).w)
  {
    if InLoop(w.pc) {
      LoopKeepsWorkerOk(w, s);
    } else if InCoroutine(w.pc) {
      CoroutineKeepsWorkerOk(w, s, call);
    } else {
      FlushKeepsWorkerOk(w, s);
    }
  }

  /** The places of one coroutine as far as a worker step can change them. */
  function Seen(s: State, w: Worker, c: nat): nat {
    multiset(s.queue)[c] + multiset(s.pending)[c] + HandOf(w, c) + if c in s.destroyed then 1 else 0
  }

  /** Nothing is lost or duplicated between states s, w and s', w'; at most one coroutine
      is new. */
  predicate Moved(s: State, w: Worker, s': State, w': Worker, c: nat) {
    && Seen(s', w', c) == Seen(s, w, c) + (if s.created <= c < s'.created then 1 else 0)
    && s.created <= s'.created <= s.created + 1
    && s'.wheels == s.wheels && s'.timer == s.timer && s'.outside == s.outside && s'.workers == s.workers
  }

  lemma {:induction false} LoopMoves(w: Worker, s: State, c: nat)
    requires WorkerOk(w) && InLoop(w.pc) && LoopStep(w, s).Effect?
    ensures Moved(s, w, LoopStep(w, s).s, LoopStep(w, s).w, c)
  {
    if w.pc.Pop? && s.queue != [] {
      Popped(s.queue);
    }
  }

  lemma {:induction false} CoroutineKeepsHand(w: Worker, s: State, call: Call)
    requires WorkerOk(w) && InCoroutine(w.pc) && CoroutineStep(w, s, call).Effect?
    ensures Hand(CoroutineStep(w, s, call).w) == Hand(w)
  {
  }

  /** A coroutine's code changes at most the queue, and only by creating. */
  lemma {:induction false} CoroutineQueues(w: Worker, s: State, call: Call)
    requires CoroutineStep(w, s, call).Effect?
    ensures var s' := CoroutineStep(w, s, call).s;
            && s'.pending == s.pending && s'.destroyed == s.destroyed
            && s'.wheels == s.wheels && s'.timer == s.timer && s'.outside == s.outside && s'.workers == s.workers
            && (if w.pc.Run? && call.Create? then s'.queue == s.queue + [s.created] && s'.created == s.created + 1
                else s'.queue == s.queue && s'.created == s.created)
  {
  }

  lemma {:induction false} CoroutineMoves(w: Worker, s: State, call: Call, c: nat)
    requires WorkerOk(w) && InCoroutine(w.pc) && CoroutineStep(w, s, call).Effect?
    ensures Moved(s, w, CoroutineStep(w, s, call).s, CoroutineStep(w, s, call).w, c)
  {
    CoroutineKeepsHand(w, s, call);
    CoroutineQueues(w, s, call);
    assert multiset(s.queue + [s.created]) == multiset(s.queue) + multiset{s.created};
  }

  predicate Publishes(w: Worker) {
    (w.pc.FlushPush? && w.push.Some?) || (w.pc.FlushDestroy? && w.destroy.Some?) || (w.pc.FlushAdd? && w.add.Some?)
  }

  lemma {:induction false} FlushHand(w: Worker, s: State)
    requires WorkerOk(w) && FlushStep(w, s).Effect?
    ensures Hand(FlushStep(w, s).w) == if Publishes(w) then None else Hand(w)
    ensures w.pc.FlushPush? && w.push.Some? ==> Hand(w) == w.push
    ensures w.pc.FlushDestroy? && w.destroy.Some? ==> Hand(w) == w.destroy
    ensures w.pc.FlushAdd? && w.add.Some? ==> Hand(w) == w.add
  {
  }

  lemma {:induction false} FlushMoves(w: Worker, s: State, c: nat)
    requires WorkerOk(w) && FlushStep(w, s).Effect? && (Hand(w).Some? ==> Hand(w).value !in s.destroyed)
    ensures Moved(s, w, FlushStep(w, s).s, FlushStep(w, s).w, c)
  {
    FlushHand(w, s);
    if w.pc.FlushPush? && w.push.Some? {
      assert multiset(s.queue + [w.push.value]) == multiset(s.queue) + multiset{w.push.value};
    } else if w.pc.FlushAdd? && w.add.Some? {
      assert multiset(s.pending + [w.add.value]) == multiset(s.pending) + multiset{w.add.value};
    }
  }

  lemma {:induction false} StepMoves(w: Worker, s: State, call: Call, c: nat)
    requires WorkerOk(w) && WorkerStep(w, s, call).Effect? && (Hand(w).Some? ==> Hand(w).value !in s.destroyed)
    ensures Moved(s, w, WorkerStep(w, s, call).s, WorkerStep(w, s, call).w, c)
  {
    if InLoop(w.pc) {
      LoopMoves(w, s, c);
    } else if InCoroutine(w.pc) {
      CoroutineMoves(w, s, call, c);
    } else {
      FlushMoves(w, s, c);
    }
  }

  lemma {:induction false} StepPaysTokens(w: Worker, s: State, call: Call)
    requires WorkerOk(w) && WorkerStep(w, s, call).Effect? && (w.pc.Pop? ==> s.queue != [])
    ensures var e := WorkerStep(w, s, call);
            |e.s.queue| + s.sem + TokensOf(w) == |s.queue| + e.s.sem + TokensOf(e.w)
  {
  }

  predicate SameFor(s: State, s': State, c: nat) {
    (c in s.started <==> c in s'.started) && (c in s.saved <==> c in s'.saved)
  }

  /** A worker touches only the context of the coroutine in its hands. */
  lemma {:induction false} StepTouchesOwn(w: Worker, s: State, call: Call, c: nat)
    requires WorkerOk(w) && WorkerStep(w, s, call).Effect? && Hand(w) != Some(c)
    ensures SameFor(s, WorkerStep(w, s, call).s, c)
  {
  }

  lemma {:induction false} StepKeepsHandOk(w: Worker, s: State, call: Call)
    requires WorkerOk(w) && WorkerStep(w, s, call).Effect? && HandOk(s, w) && AllResumable(s, s.queue)
    ensures HandOk(WorkerStep(w, s, call).s, WorkerStep(w, s, call).w)
  {
    match w.pc
    case Pop => assert s.queue != [] ==> s.queue[0] in s.queue;
    case _ =>
  }

  /** What a worker publishes may be run; the contexts stay in order. */
  lemma {:induction false} StepPublishes(w: Worker, s: State, call: Call)
    requires WorkerOk(w) && WorkerStep(w, s, call).Effect? && HandOk(s, w)
    ensures var s' := WorkerStep(w, s, call).s;
            && (forall c | c in s'.queue && c !in s.queue :: c == s.created < s'.created || Resumable(s', c))
            && (forall c | c in s'.pending && c !in s.pending :: Resumable(s', c))
            && s'.started <= s.started + (if Hand(w).Some? then {Hand(w).value} else {})
            && (s.saved <= s.started ==> s'.saved <= s'.started)
  {
  }

  lemma WorkKeepsPlaces(s: State, s': State, i: nat, call: Call)
    requires Inv(s) && Next(s, s', Work(i, call))
    ensures OnePlace(s')
  {
    var w := s.workers[i];
    var e := WorkerStep(w, s, call);
    if Hand(w).Some? {
      OnlyInHand(s, i, Hand(w).value);
    }
    forall c: nat ensures Places(s', c) == if c < s'.created then 1 else 0 {
      assert Places(s, c) == if c < s.created then 1 else 0;
      StepMoves(w, s, call, c);
      HandsChanged(s.workers, i, e.w, c);
    }
  }

  lemma WorkKeepsTokens(s: State, s': State, i: nat, call: Call)
    requires Inv(s) && Next(s, s', Work(i, call))
    ensures TokensBalance(s')
  {
    var w := s.workers[i];
    if w.pc.Pop? {
      PopFindsAJob(s, i);
    }
    if Hand(w).Some? {
      OnlyInHand(s, i, Hand(w).value);
    }
    StepPaysTokens(w, s, call);
    StepMoves(w, s, call, 0);
    TokensChanged(s.workers, i, WorkerStep(w, s, call).w);
  }

  lemma WorkKeepsHands(s: State, s': State, i: nat, call: Call, j: nat)
    requires Inv(s) && Next(s, s', Work(i, call)) && j < |s.workers|
    ensures HandOk(s', s'.workers[j])
  {
    var w := s.workers[i];
    StepKeepsHandOk(w, s, call);
    if j != i && Hand(s.workers[j]).Some? {
      var c := Hand(s.workers[j]).value;
      OnlyInHand(s, j, c);
      StepTouchesOwn(w, s, call, c);
      assert HandOk(s, s.workers[j]);
    }
  }

  lemma WorkKeepsQueues(s: State, s': State, i: nat, call: Call)
    requires Inv(s) && Next(s, s', Work(i, call))
    ensures AllResumable(s', s'.queue) && AllResumable(s', s'.pending) && AllResumable(s', s'.wheels)
    ensures s'.timer.Taking? || s'.timer.Firing? ==> Resumable(s', s'.timer.c)
    ensures s'.saved <= s'.started && forall c | c in s'.started :: c < s'.created
  {
    var w := s.workers[i];
    var e := WorkerStep(w, s, call);
    StepPublishes(w, s, call);
    if Hand(w).Some? {
      OnlyInHand(s, i, Hand(w).value);
    }
    StepMoves(w, s, call, 0);
    forall c | c in s.queue || c in s.pending || c in s.wheels ensures Resumable(s', c) {
      OnlyInQueue(s, c);
      StepTouchesOwn(w, s, call, c);
    }
    if s.timer.Taking? || s.timer.Firing? {
      OnlyInTimer(s);
      StepTouchesOwn(w, s, call, s.timer.c);
    }
    if Hand(w) != Some(s.created) {
      StepTouchesOwn(w, s, call, s.created);
    }
  }

  lemma WorkKeepsInv(s: State, s': State, i: nat, call: Call)
    requires Inv(s) && Next(s, s', Work(i, call))
    ensures Inv(s')
  {
    WorkKeepsPlaces(s, s', i, call);
    WorkKeepsTokens(s, s', i, call);
    WorkKeepsQueues(s, s', i, call);
    StepKeepsWorkerOk(s.workers[i], s, call);
    forall j | 0 <= j < |s'.workers| ensures HandOk(s', s'.workers[j]) {
      WorkKeepsHands(s, s', i, call, j);
    }
  }

  // ----- the other threads -----

  lemma OutsideKeepsInv(s: State, s': State, step: Step)
    requires Inv(s) && (step.OutsidePush? || step.OutsidePost?) && Next(s, s', step)
    ensures Inv(s')
  {
    forall c: nat ensures Places(s', c) == if c < s'.created then 1 else 0 {
      assert Places(s, c) == if c < s.created then 1 else 0;
      assert multiset(s.queue + [s.created]) == multiset(s.queue) + multiset{s.created};
    }
    forall i | 0 <= i < |s'.workers| ensures HandOk(s', s'.workers[i]) {
      assert HandOk(s, s.workers[i]);
    }
  }

  lemma {:induction false} TimerMoves(s: State, s': State, k: nat, c: nat)
    requires TimerStep(s, s', k)
    ensures multiset(s'.queue)[c] + multiset(s'.pending)[c] + multiset(s'.wheels)[c] + TimerHand(s'.timer, c)
            == multiset(s.queue)[c] + multiset(s.pending)[c] + multiset(s.wheels)[c] + TimerHand(s.timer, c)
  {
    match s.timer
    case Idle =>
      if s.pending != [] { Popped(s.pending); }
      if k < |s.wheels| { Removed(s.wheels, k); }
    case Taking(x) => assert multiset(s.wheels + [x]) == multiset(s.wheels) + multiset{x};
    case Firing(x) => assert multiset(s.queue + [x]) == multiset(s.queue) + multiset{x};
    case Posting =>
  }

  lemma TimerKeepsContexts(s: State, s': State, k: nat)
    requires Inv(s) && TimerStep(s, s', k)
    ensures ContextsOk(s')
  {
    assert s'.started == s.started && s'.saved == s.saved && s'.workers == s.workers;
    if s.timer.Idle? && s'.timer.Firing? {
      assert s'.timer.c in s.wheels;
    } else if s.timer.Idle? {
      assert s'.timer.c in s.pending;
    }
    assert forall c | c in s'.queue || c in s'.pending || c in s'.wheels :: Resumable(s, c);
    forall i | 0 <= i < |s'.workers| ensures HandOk(s', s'.workers[i]) {
      assert HandOk(s, s.workers[i]);
    }
  }

  lemma TimerKeepsInv(s: State, s': State, k: nat)
    requires Inv(s) && Next(s, s', Tick(k))
    ensures Inv(s')
  {
    TimerKeepsContexts(s, s', k);
    forall c: nat ensures Places(s', c) == if c < s'.created then 1 else 0 {
      assert Places(s, c) == if c < s.created then 1 else 0;
      TimerMoves(s, s', k, c);
    }
  }

  lemma NextKeepsInv(s: State, s': State, step: Step)
    requires Inv(s) && Next(s, s', step)
    ensures Inv(s')
  {
    match step
    case Work(i, call) => WorkKeepsInv(s, s', i, call);
    case Tick(k) => TimerKeepsInv(s, s', k);
    case _ => OutsideKeepsInv(s, s', step);
  }

  lemma {:induction false} IdleWorkers(ws: seq<Worker>, c: nat)
    requires forall i | 0 <= i < |ws| :: ws[i] == NewWorker()
    ensures Hands(ws, c) == 0 && Tokens(ws) == 0
    decreases |ws|
  {
    if ws != [] {
      IdleWorkers(ws[..|ws| - 1], c);
    }
  }

  lemma InitInv(s: State)
    requires Init(s)
    ensures Inv(s)
  {
    forall c: nat ensures Places(s, c) == 0 {
      IdleWorkers(s.workers, c);
    }
    IdleWorkers(s.workers, 0);
  }

  predicate IsRun(ss: seq<State>, steps: seq<Step>) {
    && |ss| == |steps| + 1 && Init(ss[0])
    && forall i | 0 <= i < |steps| :: Next(ss[i], ss[i + 1], steps[i])
  }

  /** Every state of every run meets the invariant. */
  lemma {:induction false} RunKeepsInv(ss: seq<State>, steps: seq<Step>, i: nat)
    requires IsRun(ss, steps) && i < |ss|
    ensures Inv(ss[i])
  {
    if i == 0 {
      InitInv(ss[0]);
    } else {
      RunKeepsInv(ss, steps, i - 1);
      NextKeepsInv(ss[i - 1], ss[i], steps[i - 1]);
    }
  }

  // ----- what follows -----

  /** A worker that pops, with or without having waited, finds a job: job_pop never returns
      null while the scheduler runs. */
  lemma PopFindsAJob(s: State, i: nat)
    requires Inv(s) && i < |s.workers| && s.workers[i].pc.Pop?
    ensures s.queue != []
  {
    TokensAtLeast(s.workers, i);
  }

  lemma {:induction false} WaitingHoldNothing(ws: seq<Worker>)
    requires forall i | 0 <= i < |ws| :: ws[i].pc.Wait?
    ensures Tokens(ws) == 0
    decreases |ws|
  {
    if ws != [] {
      WaitingHoldNothing(ws[..|ws| - 1]);
    }
  }

  /** No lost wake-up: when all workers are blocked although there are jobs, somebody has
      pushed and is about to post. */
  lemma NoLostWakeup(s: State)
    requires Inv(s) && s.queue != [] && s.sem == 0 && forall i | 0 <= i < |s.workers| :: s.workers[i].pc.Wait?
    ensures s.outside > 0 || s.timer.Posting?
  {
    WaitingHoldNothing(s.workers);
  }

  /** No two workers hold the same coroutine, let alone run on its stack. */
  lemma RunsOnOneWorker(s: State, i: nat, j: nat)
    requires Inv(s) && i < |s.workers| && j < |s.workers| && i != j && s.workers[i].stack.Co?
    ensures s.workers[j].stack != s.workers[i].stack
    ensures Hand(s.workers[j]) != Some(s.workers[i].stack.c)
  {
    var c := s.workers[i].stack.c;
    assert WorkerOk(s.workers[i]) && WorkerOk(s.workers[j]);
    assert Hand(s.workers[i]) == Some(c);
    OnlyInHand(s, i, c);
  }

  /** What others can see has left its stack: whatever is in the queue, the pending list or
      a wheel has never started or has its context saved, and no worker executes on it. */
  lemma PublishedIsOffStack(s: State, c: nat, i: nat)
    requires Inv(s) && (c in s.queue || c in s.pending || c in s.wheels) && i < |s.workers|
    ensures Resumable(s, c) && s.workers[i].stack != Co(c) && c !in s.destroyed
  {
    assert WorkerOk(s.workers[i]);
    OnlyInQueue(s, c);
    assert Places(s, c) == 1;
  }

  /** A worker switches only to a context that is there, and saves into the coroutine whose
      stack it is leaving. */
  lemma SwitchesAreSound(s: State, i: nat)
    requires Inv(s) && i < |s.workers|
    ensures var w := s.workers[i];
            && (w.pc.SwitchIn? ==> w.pc.from == w.stack && Resumable(s, w.pc.job) && w.pc.job !in s.destroyed)
            && (w.pc.SwitchOut? ==> w.mainSaved && (w.pc.save ==> w.pc.from == w.stack))
  {
    var w := s.workers[i];
    assert WorkerOk(w) && HandOk(s, w);
    if w.pc.SwitchIn? {
      OnlyInHand(s, i, w.pc.job);
    }
  }

  /** Deleting a coroutine happens on the event loop's stack, when nobody else has it, and
      only once. */
  lemma DeletedOffStack(s: State, i: nat, j: nat)
    requires Inv(s) && i < |s.workers| && j < |s.workers| && s.workers[i].pc.FlushDestroy? && s.workers[i].destroy.Some?
    ensures var c := s.workers[i].destroy.value;
            && s.workers[i].stack == Main && s.workers[j].stack != Co(c) && c !in s.destroyed
            && c !in s.queue && c !in s.pending && c !in s.wheels && TimerHand(s.timer, c) == 0
  {
    assert WorkerOk(s.workers[i]) && WorkerOk(s.workers[j]);
    OnlyInHand(s, i, s.workers[i].destroy.value);
  }

  /** The only place where a worker can be stuck is the semaphore. */
  lemma OnlyWaitingBlocks(s: State, i: nat, call: Call)
    requires Inv(s) && i < |s.workers|
    ensures WorkerStep(s.workers[i], s, call).Blocked? <==> s.workers[i].pc.Wait? && s.sem == 0
  {
    assert WorkerOk(s.workers[i]);
  }

  // ----- pops are covered by pushes -----

  function AtPop(ws: seq<Worker>): nat {
    if ws == [] then 0 else AtPop(ws[..|ws| - 1]) + if ws[|ws| - 1].pc.Pop? then 1 else 0
  }

  /** How many jobs the first i steps have pushed, and how many pops they have begun. */
  function Pushes(ss: seq<State>, i: nat): nat
    requires i < |ss|
  {
    if i == 0 then 0 else Pushes(ss, i - 1) + if |ss[i].queue| > |ss[i - 1].queue| then 1 else 0
  }

  function PopsBegun(ss: seq<State>, i: nat): nat
    requires i < |ss|
  {
    if i == 0 then 0 else PopsBegun(ss, i - 1) + if AtPop(ss[i].workers) > AtPop(ss[i - 1].workers) then 1 else 0
  }

  lemma {:induction false} AtPopChanged(ws: seq<Worker>, i: nat, w: Worker)
    requires i < |ws|
    ensures AtPop(ws[i := w]) + (if ws[i].pc.Pop? then 1 else 0) == AtPop(ws) + if w.pc.Pop? then 1 else 0
    decreases |ws|
  {
    var n := |ws| - 1;
    if i < n {
      AtPopChanged(ws[..n], i, w);
      assert ws[i := w][..n] == ws[..n][i := w];
    } else {
      assert ws[i := w][..n] == ws[..n];
    }
  }

  lemma {:induction false} AtPopOwns(ws: seq<Worker>)
    ensures AtPop(ws) <= Tokens(ws)
    decreases |ws|
  {
    if ws != [] {
      AtPopOwns(ws[..|ws| - 1]);
    }
  }

  /** A worker begins a pop, takes a job and so ends one, pushes a job, or does neither. */
  lemma {:induction false} PopOrPush(w: Worker, s: State, call: Call)
    requires WorkerStep(w, s, call).Effect? && (w.pc.Pop? ==> s.queue != [])
    ensures var e := WorkerStep(w, s, call);
            if w.pc.Pop? then !e.w.pc.Pop? && |e.s.queue| == |s.queue| - 1
            else if e.w.pc.Pop? then |e.s.queue| == |s.queue|
            else |s.queue| <= |e.s.queue| <= |s.queue| + 1
  {
  }

  lemma PopsStep(s: State, s': State, step: Step)
    requires Inv(s) && Next(s, s', step)
    ensures |s'.queue| - AtPop(s'.workers) - (|s.queue| - AtPop(s.workers))
            == (if |s'.queue| > |s.queue| then 1 else 0) - (if AtPop(s'.workers) > AtPop(s.workers) then 1 else 0)
  {
    if step.Work? {
      var w := s.workers[step.i];
      if w.pc.Pop? {
        PopFindsAJob(s, step.i);
      }
      PopOrPush(w, s, step.call);
      AtPopChanged(s.workers, step.i, WorkerStep(w, s, step.call).w);
    }
  }

  lemma {:induction false} NoneAtPop(ws: seq<Worker>)
    requires forall i | 0 <= i < |ws| :: ws[i].pc.Head?
    ensures AtPop(ws) == 0
    decreases |ws|
  {
    if ws != [] {
      NoneAtPop(ws[..|ws| - 1]);
    }
  }

  lemma {:induction false} PopsBalance(ss: seq<State>, steps: seq<Step>, i: nat)
    requires IsRun(ss, steps) && i < |ss|
    ensures |ss[i].queue| + PopsBegun(ss, i) == Pushes(ss, i) + AtPop(ss[i].workers)
  {
    if i == 0 {
      NoneAtPop(ss[0].workers);
    } else {
      PopsBalance(ss, steps, i - 1);
      PopsOneMore(ss, steps, i);
    }
  }

  lemma PopsOneMore(ss: seq<State>, steps: seq<Step>, i: nat)
    requires IsRun(ss, steps) && 0 < i < |ss|
    ensures |ss[i].queue| - AtPop(ss[i].workers) - (|ss[i - 1].queue| - AtPop(ss[i - 1].workers))
            == Pushes(ss, i) - Pushes(ss, i - 1) - (PopsBegun(ss, i) - PopsBegun(ss, i - 1))
  {
    RunKeepsInv(ss, steps, i - 1);
    PopsStep(ss[i - 1], ss[i], steps[i - 1]);
  }

  /** At every moment the pops begun are at most the pushes done, so the workers use the
      queue as QueueCalls.Covered asks; there, no pop that takes many steps answers empty. */
  lemma PopsAreCovered(ss: seq<State>, steps: seq<Step>, i: nat)
    requires IsRun(ss, steps) && i < |ss|
    ensures PopsBegun(ss, i) <= Pushes(ss, i)
  {
    PopsBalance(ss, steps, i);
    RunKeepsInv(ss, steps, i);
    AtPopOwns(ss[i].workers);
  }
}
