/** A thread that runs alone: from any reachable state it finishes its call, within a bound,
    and its answer is the first value of the queue. */
module QueueAlone {
  import opened Basics
  import opened QueueMachine
  import opened QueueInvariant
  import opened QueueFlow
  import opened QueueProof
  import opened QueueSafety
  import opened QueueCalls
  import opened QueueProgress
  import Ebr

  /** tail_ is behind the last node. */
  predicate Behind(s: State) {
    Load(s, s.tail).next.Ptr?
  }

  function Lag(s: State): nat {
    if Behind(s) then 1 else 0
  }

  // ----- what a call may still cost -----

  /** Attempts to be started, and steps to be taken. */
  datatype Cost = Cost(attempts: nat, steps: nat)

  const RECORD := 67      // to release one record and empty half the cache
  const HELP := 20        // to move tail_ and try again
  const ATTEMPT := 77     // from the first load of an attempt to its answer
  const STALE := 106      // to give up an attempt that came too late and try again

  function EnterLeft(ebr: Ebr.State, t: nat): nat
    requires t < |ebr.slots|
  {
    var slot := ebr.slots[t];
    match slot.pc
    case Outside => if t in ebr.order then 3 else 4
    case EnterLoaded(word) => if word == slot.status then 2 else 4
    case EnterSnapshot(word, _) => if word == slot.status then 1 else 3
    case _ => 0
  }

  function ExitLeft(ebr: Ebr.State, t: nat): nat
    requires t < |ebr.slots|
  {
    if ebr.slots[t].pc.Inside? then 2 else if ebr.slots[t].pc.ExitLoaded? then 1 else 0
  }

  function Retry(lag: nat, steps: nat): Cost {
    Cost(1 + lag, steps + HELP * lag)
  }

  function AfterCost(after: After, lag: nat, steps: nat): Cost {
    if after.Again? then Retry(lag, ATTEMPT + 4 + steps) else Cost(0, steps)
  }

  /** An attempt at work on pointers that are still current, or not. */
  function AttemptCost(current: bool, lag: nat, steps: nat, stale: nat): Cost {
    if current then Cost(lag, steps + HELP * lag) else Cost(1 + lag, STALE + stale)
  }

  function HelpCost(current: bool, lag: nat): Cost {
    if current then Cost(1, ATTEMPT + 9) else Retry(lag, ATTEMPT + 9)
  }

  function CasCost(current: bool, lag: nat, steps: nat): Cost {
    if current then Cost(0, steps) else Retry(lag, ATTEMPT + 9)
  }

  function PcCost(s: State, t: nat): Cost
    requires t < |s.threads| == |s.ebr.slots|
  {
    var lag := Lag(s);
    match s.threads[t].pc
    case Idle(_) => Cost(0, 0)
    case Allocating(_) => Retry(lag, ATTEMPT + 5)
    case Entering(_) => Retry(lag, ATTEMPT + EnterLeft(s.ebr, t))
    case PopHead => Retry(lag, ATTEMPT)
    case PopTail(first) => AttemptCost(first == s.head, lag, 76, 4)
    case PopNext(first, last) => AttemptCost(first == s.head && last == s.tail, lag, 75, 3)
    case PopHelp(last, _) => HelpCost(last == s.tail, lag)
    case PopValue(first, _) => if first == s.head then Cost(0, 74) else Cost(1 + lag, STALE + 2)
    case PopSwing(first, _, _) => CasCost(first == s.head, lag, 73)
    case PopRetire(_, _) => Cost(0, 72)
    case PushTail(_, _) => Retry(lag, ATTEMPT)
    case PushNext(_, _, last) => AttemptCost(last == s.tail, lag, 75, 3)
    case PushLink(_, _, last) => CasCost(Load(s, last).next.Null?, lag, 74)
    case PushHelp(_, _, last, _) => HelpCost(last == s.tail, lag)
    case PushSwing(_, _) => Cost(0, 5)
    case Exiting(after) => AfterCost(after, lag, 2 + ExitLeft(s.ebr, t))
    case LoadGc(after) => AfterCost(after, lag, 2)
    case Reclaim(after, _) => AfterCost(after, lag, 1)
    case Batch(after, _, left) => AfterCost(after, lag, left + 2)
  }

  function CostLeft(s: State, t: nat): Cost
    requires t < |s.threads| == |s.ebr.slots|
  {
    PcCost(s, t).(steps := PcCost(s, t).steps + RECORD * |s.threads[t].retired|)
  }

  predicate StartsAttempt(pc: Pc) {
    pc.PopHead? || pc.PushTail?
  }

  /** A step is paid for, and so is the attempt it may start. */
  predicate Pays(c: Cost, c': Cost, starts: bool) {
    c'.steps < c.steps && c'.attempts + (if starts then 1 else 0) <= c.attempts
  }

  // ----- tail_ and the last node -----

  lemma TailCell(s: State, h: History)
    requires Sized(s, h) && ChainOk(s, h) && AddrsOk(s, h)
    ensures Behind(s) <==> h.chain.tail + 1 < |h.chain.nodes|
  {
    assert AddrOk(s, h, s.tail.addr);
    assert h.loc[s.tail.addr] == Linked(h.chain.tail);
  }

  lemma BehindIs(s: State, h: History)
    requires Inv(s, h)
    ensures Behind(s) <==> h.chain.tail + 1 < |h.chain.nodes|
  {
    TailCell(s, h);
  }

  lemma ObserveEnd(s: State, h: History, t: nat, s': State)
    requires Sized(s, h) && t < |s.threads| == |s'.threads| == |s'.ebr.slots|
    requires !s.threads[t].pc.PushLink? && s'.tail == s.tail
    ensures Observe(s, h, t, s').chain.tail == h.chain.tail && Observe(s, h, t, s').chain.nodes == h.chain.nodes
  {
  }

  /** Only linking a node and moving tail_ change whether tail_ is behind. */
  lemma BehindKept(s: State, h: History, a: Action)
    requires Inv(s, h) && Enabled(s, a) && a.Step? && !s.threads[a.t].pc.PushLink? && Next(s, a).tail == s.tail
    ensures Behind(Next(s, a)) == Behind(s)
  {
    BehindIs(s, h);
    NextKeepsInv(s, h, a);
    BehindIs(Next(s, a), Extend(s, h, a));
    ThreadCountKept(s, a);
    ObserveEnd(s, h, a.t, Next(s, a));
  }

  // ----- what each step pays -----

  predicate Counted(s: State, t: nat) {
    t < |s.threads| == |s.ebr.slots|
  }

  lemma PopLoadPays(s: State, t: nat)
    requires Counted(s, t) && (s.threads[t].pc.PopHead? || s.threads[t].pc.PopTail? || s.threads[t].pc.PopValue?)
    ensures Pays(CostLeft(s, t), CostLeft(SetPc(s, t, AfterLoad(s, s.threads[t].pc)), t), StartsAttempt(s.threads[t].pc))
  {
  }

  lemma NextOfFirst(s: State, h: History, t: nat)
    requires Inv(s, h) && t < |s.threads| && s.threads[t].pc.PopNext?
    ensures var PopNext(first, last) := s.threads[t].pc;
            first.Ptr? && last.Ptr? && (first.addr != last.addr ==> Load(s, first).next.Ptr?)
  {
    InsideIsActive(s, h, t);
    assert ThreadOk(s, h, t);
    NextHeld(s, h, t, s.threads[t].pc.first);
    SamePosition(h.chain, h.loc, h.entry[t], s.threads[t].pc.first, s.threads[t].pc.last);
  }

  lemma PopNextPays(s: State, t: nat)
    requires Counted(s, t) && s.threads[t].pc.PopNext?
    requires var PopNext(first, last) := s.threads[t].pc;
             first.Ptr? && last.Ptr? && (first.addr != last.addr ==> Load(s, first).next.Ptr?)
    ensures Pays(CostLeft(s, t), CostLeft(SetPc(s, t, AfterLoad(s, s.threads[t].pc)), t), false)
  {
  }

  lemma PushLoadPays(s: State, t: nat)
    requires Counted(s, t) && (s.threads[t].pc.PushTail? || s.threads[t].pc.PushNext?)
    ensures Pays(CostLeft(s, t), CostLeft(SetPc(s, t, AfterLoad(s, s.threads[t].pc)), t), StartsAttempt(s.threads[t].pc))
  {
  }

  lemma LoadGcPays(s: State, t: nat)
    requires Counted(s, t) && s.threads[t].pc.LoadGc?
    ensures Pays(CostLeft(s, t), CostLeft(SetPc(s, t, AfterLoad(s, s.threads[t].pc)), t), false)
  {
  }

  /** Moving tail_ is done with once it points to the last node. */
  lemma TailCasBehind(s: State, h: History, t: nat)
    requires Inv(s, h) && t < |s.threads| && IsTailCas(s.threads[t].pc)
    ensures Behind(TailCas(s, t, false)) <==> Behind(s) && s.threads[t].pc.last != s.tail
  {
    var s' := TailCas(s, t, false);
    TailCasStep(s, h, t, false);
    BehindIs(s, h);
    BehindIs(s', Observe(s, h, t, s'));
    ObserveTailCas(s, h, t, s');
    if s.threads[t].pc.last == s.tail {
      TailCasTargets(s, h, t);
    }
  }

  lemma TailCasPays(s: State, t: nat)
    requires Counted(s, t) && IsTailCas(s.threads[t].pc) && s.ebr.slots[t].pc.Inside?
    requires Behind(TailCas(s, t, false)) <==> Behind(s) && s.threads[t].pc.last != s.tail
    ensures Pays(CostLeft(s, t), CostLeft(TailCas(s, t, false), t), false)
  {
  }

  lemma LinkCasPays(s: State, t: nat)
    requires Counted(s, t) && s.threads[t].pc.PushLink? && s.ebr.slots[t].pc.Inside?
    requires s.threads[t].pc.last.Ptr? && s.threads[t].pc.last.addr in s.heap
    ensures Pays(CostLeft(s, t), CostLeft(LinkCas(s, t, false), t), false)
  {
  }

  lemma HeadCasPays(s: State, t: nat)
    requires Counted(s, t) && s.threads[t].pc.PopSwing? && s.ebr.slots[t].pc.Inside?
    ensures Pays(CostLeft(s, t), CostLeft(HeadCas(s, t), t), false)
  {
  }

  lemma RetirePays(s: State, t: nat)
    requires Counted(s, t) && s.threads[t].pc.PopRetire? && s.ebr.slots[t].pc.Inside?
    ensures Pays(CostLeft(s, t), CostLeft(Retire(s, t), t), false)
  {
  }

  lemma AllocatePays(s: State, t: nat, spare: nat)
    requires Counted(s, t) && CanAllocate(s, t, spare) && Behind(Allocate(s, t, spare)) == Behind(s)
    ensures Pays(CostLeft(s, t), CostLeft(Allocate(s, t, spare), t), false)
  {
  }

  lemma EnterPays(s: State, t: nat)
    requires Counted(s, t) && s.threads[t].pc.Entering? && Ebr.CanEnter(s.ebr, t)
    requires Ebr.SlotOk(s.ebr, s.ebr.slots[t])
    ensures Counted(EnterStep(s, t, false), t) && Pays(CostLeft(s, t), CostLeft(EnterStep(s, t, false), t), false)
  {
  }

  lemma ExitPays(s: State, t: nat)
    requires Counted(s, t) && s.threads[t].pc.Exiting? && Ebr.CanExit(s.ebr, t)
    requires Ebr.SlotOk(s.ebr, s.ebr.slots[t])
    ensures Counted(ExitStep(s, t, false), t) && Pays(CostLeft(s, t), CostLeft(ExitStep(s, t, false), t), false)
  {
  }

  lemma ReclaimPays(s: State, t: nat)
    requires Counted(s, t) && s.threads[t].pc.Reclaim? && Behind(ReclaimStep(s, t)) == Behind(s)
    ensures Pays(CostLeft(s, t), CostLeft(ReclaimStep(s, t), t), false)
  {
  }

  lemma BatchPays(s: State, t: nat)
    requires Counted(s, t) && s.threads[t].pc.Batch? && Behind(BatchStep(s, t)) == Behind(s)
    ensures Pays(CostLeft(s, t), CostLeft(BatchStep(s, t), t), false)
  {
  }

  lemma InvFacts(s: State, h: History, t: nat)
    requires Inv(s, h) && t < |s.threads|
    ensures Counted(s, t) && Ebr.SlotOk(s.ebr, s.ebr.slots[t])
    ensures InAttempt(s.threads[t].pc) ==> s.ebr.slots[t].pc.Inside?
  {
    assert ThreadOk(s, h, t);
  }

  /** The steps that read shared memory only. */
  lemma LoadPays(s: State, h: History, t: nat)
    requires Inv(s, h) && Counted(s, t) && IsLoad(s.threads[t].pc)
    ensures Pays(CostLeft(s, t), CostLeft(SetPc(s, t, AfterLoad(s, s.threads[t].pc)), t), StartsAttempt(s.threads[t].pc))
  {
    match s.threads[t].pc
    case PopNext(_, _) =>
      NextOfFirst(s, h, t);
      PopNextPays(s, t);
    case PushTail(_, _) => PushLoadPays(s, t);
    case PushNext(_, _, _) => PushLoadPays(s, t);
    case LoadGc(_) => LoadGcPays(s, t);
    case _ => PopLoadPays(s, t);
  }

  lemma AllocateBehind(s: State, h: History, t: nat, spare: nat)
    requires Inv(s, h) && CanAllocate(s, t, spare)
    ensures Behind(Allocate(s, t, spare)) == Behind(s)
  {
    BehindKept(s, h, Step(t, false, spare));
  }

  lemma ReclaimBehind(s: State, h: History, t: nat)
    requires Inv(s, h) && t < |s.threads| && s.threads[t].pc.Reclaim?
    ensures Behind(ReclaimStep(s, t)) == Behind(s)
  {
    BehindKept(s, h, Step(t, false, 0));
  }

  lemma BatchBehind(s: State, h: History, t: nat)
    requires Inv(s, h) && t < |s.threads| && s.threads[t].pc.Batch?
    ensures Behind(BatchStep(s, t)) == Behind(s)
  {
    BehindKept(s, h, Step(t, false, 0));
  }

  /** Every step of a thread that nobody disturbs brings it closer to its answer. */
  lemma StepPays(s: State, h: History, t: nat, spare: nat)
    requires Inv(s, h) && Enabled(s, Step(t, false, spare))
    ensures var s' := Next(s, Step(t, false, spare));
            Counted(s, t) && Counted(s', t) && Pays(CostLeft(s, t), CostLeft(s', t), StartsAttempt(s.threads[t].pc))
  {
    InvFacts(s, h, t);
    ThreadCountKept(s, Step(t, false, spare));
    NextKeepsInv(s, h, Step(t, false, spare));
    var pc := s.threads[t].pc;
    if IsLoad(pc) {
      LoadPays(s, h, t);
    } else if IsTailCas(pc) {
      TailCasBehind(s, h, t);
      TailCasPays(s, t);
    } else {
      match pc
      case Allocating(_) =>
        AllocateBehind(s, h, t, spare);
        AllocatePays(s, t, spare);
      case Reclaim(_, _) =>
        ReclaimBehind(s, h, t);
        ReclaimPays(s, t);
      case Batch(_, _, _) =>
        BatchBehind(s, h, t);
        BatchPays(s, t);
      case Entering(_) => EnterPays(s, t);
      case Exiting(_) => ExitPays(s, t);
      case PushLink(_, _, _) =>
        HeldLast(s, h, t);
        LinkCasPays(s, t);
      case PopSwing(_, _, _) => HeadCasPays(s, t);
      case PopRetire(_, _) => RetirePays(s, t);
    }
  }

  // ----- a thread alone -----

  /** In the steps from i to j thread t runs alone, and no weak CAS fails spuriously. */
  predicate Alone(acts: seq<Action>, t: nat, i: nat, j: nat)
    requires i <= j <= |acts|
  {
    forall k | i <= k < j :: IsStepOf(acts[k], t) && !acts[k].spurious
  }

  function Started(run: seq<State>, t: nat, i: nat, j: nat): nat
    requires i <= j < |run|
  {
    if i == j then 0 else Started(run, t, i, j - 1) + if StartsAttempt(PcAt(run[j - 1], t)) then 1 else 0
  }

  /** Attempts and steps since i have been paid for out of c. */
  predicate WithinCost(run: seq<State>, t: nat, i: nat, j: nat, c: Cost)
    requires i <= j < |run|
  {
    && Counted(run[j], t)
    && Started(run, t, i, j) + CostLeft(run[j], t).attempts <= c.attempts
    && (j - i) + CostLeft(run[j], t).steps <= c.steps
  }

  lemma CostStarts(threads: nat, run: seq<State>, acts: seq<Action>, t: nat, i: nat)
    requires IsRun(threads, run, acts) && i < |run| && t < |run[i].threads|
    ensures Counted(run[i], t) && WithinCost(run, t, i, i, CostLeft(run[i], t))
  {
    RunKeepsInv(threads, run, acts, i);
  }

  lemma CostGoesOn(threads: nat, run: seq<State>, acts: seq<Action>, t: nat, i: nat, k: nat, c: Cost)
    requires IsRun(threads, run, acts) && i <= k < |acts| && WithinCost(run, t, i, k, c)
    requires IsStepOf(acts[k], t) && !acts[k].spurious
    ensures WithinCost(run, t, i, k + 1, c)
  {
    RunStep(threads, run, acts, k);
    RunKeepsInv(threads, run, acts, k);
    assert acts[k] == Step(t, false, acts[k].spare);
    StepPays(run[k], HistoryAt(threads, run, acts, k), t, acts[k].spare);
  }

  lemma {:induction false} CostThroughout(run: seq<State>, t: nat, i: nat, j: nat, c: Cost)
    requires i <= j < |run| && WithinCost(run, t, i, i, c)
    requires forall k | i <= k < j :: WithinCost(run, t, i, k, c) ==> WithinCost(run, t, i, k + 1, c)
    ensures WithinCost(run, t, i, j, c)
  {
    if i < j {
      CostThroughout(run, t, i, j - 1, c);
      assert WithinCost(run, t, i, j - 1 + 1, c);
    }
  }

  lemma AloneIsPaid(threads: nat, run: seq<State>, acts: seq<Action>, t: nat, i: nat, j: nat)
    requires IsRun(threads, run, acts) && i <= j <= |acts| && t < |run[i].threads| && Alone(acts, t, i, j)
    ensures Counted(run[i], t) && WithinCost(run, t, i, j, CostLeft(run[i], t))
  {
    CostStarts(threads, run, acts, t, i);
    forall k | i <= k < j && WithinCost(run, t, i, k, CostLeft(run[i], t)) ensures WithinCost(run, t, i, k + 1, CostLeft(run[i], t)) {
      CostGoesOn(threads, run, acts, t, i, k, CostLeft(run[i], t));
    }
    CostThroughout(run, t, i, j, CostLeft(run[i], t));
  }

  lemma CostBound(s: State, t: nat)
    requires Counted(s, t) && (s.threads[t].pc.Batch? ==> s.threads[t].pc.left <= BATCH_RELEASE_COUNT)
    ensures CostLeft(s, t).attempts <= 2 && CostLeft(s, t).steps <= RECORD * |s.threads[t].retired| + 170
  {
  }

  lemma BatchLeft(threads: nat, run: seq<State>, acts: seq<Action>, i: nat, t: nat)
    requires IsRun(threads, run, acts) && i < |run| && t < |run[i].threads| && run[i].threads[t].pc.Batch?
    ensures run[i].threads[t].pc.left <= BATCH_RELEASE_COUNT
  {
    ThreadFacts(threads, run, acts, i, t);
  }

  /** However the other threads have stopped, a thread that runs alone from a reachable state i
      on, in the middle of a call or not, starts at most two attempts and takes no more steps
      than this until it is idle. */
  lemma AloneEnds(threads: nat, run: seq<State>, acts: seq<Action>, t: nat, i: nat, j: nat)
    requires IsRun(threads, run, acts) && i <= j <= |acts| && t < |run[i].threads| && Alone(acts, t, i, j)
    ensures Started(run, t, i, j) <= 2
    ensures j - i <= 67 * |run[i].threads[t].retired| + 170
  {
    AloneIsPaid(threads, run, acts, t, i, j);
    if run[i].threads[t].pc.Batch? {
      BatchLeft(threads, run, acts, i, t);
    }
    CostBound(run[i], t);
  }

  lemma {:induction false} FreshAddress(used: set<nat>) returns (a: nat)
    ensures a !in used && forall b | b in used :: b < a
    decreases used
  {
    if used == {} {
      a := 0;
    } else {
      var b :| b in used;
      a := FreshAddress(used - {b});
      if a <= b {
        a := b + 1;
      }
      assert forall c | c in used :: c in used - {b} || c == b;
    }
  }

  function StepsLeft(s: State, t: nat): nat {
    if Counted(s, t) then CostLeft(s, t).steps else 0
  }

  lemma OneMoreStep(threads: nat, run: seq<State>, acts: seq<Action>, t: nat) returns (run': seq<State>, acts': seq<Action>)
    requires IsRun(threads, run, acts) && !PcAt(run[|acts|], t).Idle?
    ensures IsRun(threads, run', acts') && run <= run' && acts <= acts' && |acts'| == |acts| + 1
    ensures IsStepOf(acts'[|acts|], t) && !acts'[|acts|].spurious
    ensures t < |run'[|acts'|].threads| && StepsLeft(run'[|acts'|], t) < StepsLeft(run[|acts|], t)
  {
    var s := run[|acts|];
    var spare := FreshAddress(s.heap.Keys);
    ThreadNeverStuck(threads, run, acts, |acts|, t, false, spare);
    RunKeepsInv(threads, run, acts, |acts|);
    StepPays(s, HistoryAt(threads, run, acts, |acts|), t, spare);
    run', acts' := run + [Next(s, Step(t, false, spare))], acts + [Step(t, false, spare)];
  }

  /** From every reachable state every thread can finish its call alone: every run goes on to
      one in which thread t is idle and nobody else has moved. */
  lemma {:induction false} CanFinishAlone(threads: nat, run: seq<State>, acts: seq<Action>, t: nat)
    returns (run': seq<State>, acts': seq<Action>)
    requires IsRun(threads, run, acts) && t < |run[|acts|].threads|
    ensures IsRun(threads, run', acts') && run <= run' && acts <= acts'
    ensures Alone(acts', t, |acts|, |acts'|) && PcAt(run'[|acts'|], t).Idle?
    decreases StepsLeft(run[|acts|], t)
  {
    run', acts' := run, acts;
    if !PcAt(run[|acts|], t).Idle? {
      run', acts' := OneMoreStep(threads, run, acts, t);
      var more := acts';
      run', acts' := CanFinishAlone(threads, run', acts', t);
      assert acts'[|acts|] == more[|acts|];
    }
  }
}
