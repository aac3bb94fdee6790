/** The calls of push_back and pop_front over whole runs: what each of them does and answers. */
module QueueCalls {
  import opened Basics
  import opened QueueMachine
  import opened QueueInvariant
  import opened QueueFlow
  import opened QueueSafety

  /** A value that thread's call has still to append, and one it has removed and not yet
      returned. */
  function ToAppend(pc: Pc): seq<nat> {
    if pc.Allocating? then [pc.value]
    else match Carried(pc)
         case Popping => []
         case Pushing(_, value) => [value]
  }

  function ToAnswer(pc: Pc): seq<nat> {
    match pc
    case PopRetire(_, value) => [value]
    case Exiting(Finish(Got(value))) => [value]
    case LoadGc(Finish(Got(value))) => [value]
    case Reclaim(Finish(Got(value)), _) => [value]
    case Batch(Finish(Got(value)), _, _) => [value]
    case _ => []
  }

  function AppendsOf(pc: Pc, pc': Pc): seq<nat> {
    if pc.PushLink? && pc'.PushSwing? then [pc.value] else []
  }

  function RemovesOf(pc: Pc, pc': Pc): seq<nat> {
    if pc.PopSwing? && pc'.PopRetire? then [pc'.value] else []
  }

  function AnswersOf(pc: Pc, pc': Pc): seq<nat> {
    if !pc.Idle? && pc'.Idle? && pc'.result.Got? then [pc'.result.value] else []
  }

  /** One step of a thread settles its accounts. */
  predicate Balanced(pc: Pc, pc': Pc) {
    && ToAppend(pc) == AppendsOf(pc, pc') + ToAppend(pc')
    && ToAnswer(pc) + RemovesOf(pc, pc') == AnswersOf(pc, pc') + ToAnswer(pc')
  }

  lemma LeadsBalanced(pc: Pc, pc': Pc)
    requires Leads(pc, pc')
    ensures Balanced(pc, pc')
  {
    match pc
    case Reclaim(after, _) => assert after.Finish? ==> Continue(after) == Idle(after.result);
    case _ =>
  }

  /** The arguments of thread t's push_back calls in the first i steps... */
  function PushCalls(acts: seq<Action>, t: nat, i: nat): seq<nat>
    requires i <= |acts|
  {
    if i == 0 then []
    else PushCalls(acts, t, i - 1) + (if acts[i - 1].CallPush? && acts[i - 1].t == t then [acts[i - 1].value] else [])
  }

  /** ... the values its linking CASes appended, those its head CASes removed, and the
      answers of its pop_front calls. */
  function AppendedBy(run: seq<State>, t: nat, i: nat): seq<nat>
    requires i < |run|
  {
    if i == 0 then [] else AppendedBy(run, t, i - 1) + AppendsOf(PcAt(run[i - 1], t), PcAt(run[i], t))
  }

  function RemovedBy(run: seq<State>, t: nat, i: nat): seq<nat>
    requires i < |run|
  {
    if i == 0 then [] else RemovedBy(run, t, i - 1) + RemovesOf(PcAt(run[i - 1], t), PcAt(run[i], t))
  }

  function Answers(run: seq<State>, t: nat, i: nat): seq<nat>
    requires i < |run|
  {
    if i == 0 then [] else Answers(run, t, i - 1) + AnswersOf(PcAt(run[i - 1], t), PcAt(run[i], t))
  }

  lemma AccountStep(s: State, a: Action, t: nat)
    requires Enabled(s, a)
    ensures var pc, pc' := PcAt(s, t), PcAt(Next(s, a), t);
            && ToAppend(pc) + (if a.CallPush? && a.t == t then [a.value] else []) == AppendsOf(pc, pc') + ToAppend(pc')
            && ToAnswer(pc) + RemovesOf(pc, pc') == AnswersOf(pc, pc') + ToAnswer(pc')
  {
    ActionLeads(s, a, t);
    if a.Step? && a.t == t {
      LeadsBalanced(PcAt(s, t), PcAt(Next(s, a), t));
    }
  }

  lemma Regroup(total: seq<nat>, part: seq<nat>, rest: seq<nat>, more: seq<nat>, moved: seq<nat>, rest': seq<nat>)
    requires total == part + rest && rest + more == moved + rest'
    ensures total + more == part + moved + rest'
  {
    assert total + more == part + (rest + more);
  }

  /** Every push_back appends its argument exactly once, and every value pop_front answers
      is one its own head CAS removed: the accounts differ only by the call in progress, and
      agree whenever the thread is idle. */
  lemma {:induction false} CallsTakeEffectOnce(threads: nat, run: seq<State>, acts: seq<Action>, t: nat, i: nat)
    requires IsRun(threads, run, acts) && i < |run|
    ensures PushCalls(acts, t, i) == AppendedBy(run, t, i) + ToAppend(PcAt(run[i], t))
    ensures RemovedBy(run, t, i) == Answers(run, t, i) + ToAnswer(PcAt(run[i], t))
  {
    if i > 0 {
      CallsTakeEffectOnce(threads, run, acts, t, i - 1);
      AccountStep(run[i - 1], acts[i - 1], t);
      var pc, pc' := PcAt(run[i - 1], t), PcAt(run[i], t);
      var called := if acts[i - 1].CallPush? && acts[i - 1].t == t then [acts[i - 1].value] else [];
      Regroup(PushCalls(acts, t, i - 1), AppendedBy(run, t, i - 1), ToAppend(pc), called, AppendsOf(pc, pc'), ToAppend(pc'));
      Regroup(RemovedBy(run, t, i - 1), Answers(run, t, i - 1), ToAnswer(pc), RemovesOf(pc, pc'), AnswersOf(pc, pc'), ToAnswer(pc'));
    }
  }

  // ----- empty answers -----

  function After(pc: Pc): Option<After> {
    match pc
    case Exiting(after) => Some(after)
    case LoadGc(after) => Some(after)
    case Reclaim(after, _) => Some(after)
    case Batch(after, _, _) => Some(after)
    case _ => None
  }

  /** In a call of pop_front that has neither removed a value nor found the queue empty. */
  predicate InPop(pc: Pc) {
    || pc == Entering(Popping) || After(pc) == Some(Again(Popping))
    || pc.PopHead? || pc.PopTail? || pc.PopNext? || pc.PopHelp? || pc.PopValue? || pc.PopSwing?
  }

  /** About to answer, or having answered, that the queue is empty. */
  predicate SaysEmpty(pc: Pc) {
    pc == Idle(Empty) || After(pc) == Some(Finish(Empty))
  }

  lemma LeadsBack(pc: Pc, pc': Pc)
    requires Leads(pc, pc')
    ensures InPop(pc') ==> InPop(pc)
    ensures SaysEmpty(pc') ==> SaysEmpty(pc) || (pc.PopNext? && pc' == Exiting(Finish(Empty)))
    ensures pc.PopSwing? && pc'.PopRetire? ==> InPop(pc) && !InPop(pc')
  {
  }

  predicate NoCall(acts: seq<Action>, t: nat, from: nat, to: nat)
    requires from <= to <= |acts|
  {
    forall k | from <= k < to :: (acts[k].CallPop? || acts[k].CallPush?) ==> acts[k].t != t
  }

  lemma NoCallJoin(acts: seq<Action>, t: nat, i: nat, j: nat, k: nat)
    requires i <= j <= k <= |acts| && NoCall(acts, t, i, j) && NoCall(acts, t, j, k)
    ensures NoCall(acts, t, i, k)
  {
  }

  /** Inside pop_front, the last action was the call, or the thread was inside before it. */
  lemma CallBefore(threads: nat, run: seq<State>, acts: seq<Action>, t: nat, i: nat)
    requires IsRun(threads, run, acts) && 0 < i < |run| && InPop(PcAt(run[i], t))
    ensures acts[i - 1] == CallPop(t) || (InPop(PcAt(run[i - 1], t)) && NoCall(acts, t, i - 1, i))
  {
    ActionLeads(run[i - 1], acts[i - 1], t);
    if acts[i - 1].Step? && acts[i - 1].t == t {
      LeadsBack(PcAt(run[i - 1], t), PcAt(run[i], t));
    }
  }

  lemma NotAtStart(threads: nat, run: seq<State>, acts: seq<Action>, t: nat)
    requires IsRun(threads, run, acts)
    ensures PcAt(run[0], t) == Idle(NoResult)
  {
  }

  /** A thread inside pop_front has called it. */
  lemma {:induction false} CallOf(threads: nat, run: seq<State>, acts: seq<Action>, t: nat, i: nat) returns (c: nat)
    requires IsRun(threads, run, acts) && i < |run| && InPop(PcAt(run[i], t))
    ensures c < i && acts[c] == CallPop(t) && NoCall(acts, t, c + 1, i)
  {
    if i == 0 {
      NotAtStart(threads, run, acts, t);
    } else {
      CallBefore(threads, run, acts, t, i);
      if acts[i - 1] == CallPop(t) {
        return i - 1;
      }
      c := CallOf(threads, run, acts, t, i - 1);
      NoCallJoin(acts, t, c + 1, i - 1, i);
    }
  }

  /** The step that decides on the empty answer reads an empty queue. */
  lemma DecidesEmpty(threads: nat, run: seq<State>, acts: seq<Action>, t: nat, i: nat)
    requires IsRun(threads, run, acts) && 0 < i < |run|
    requires SaysEmpty(PcAt(run[i], t)) && !SaysEmpty(PcAt(run[i - 1], t))
    ensures PcAt(run[i - 1], t).PopNext? && acts[i - 1].Step? && acts[i - 1].t == t
    ensures IsList(run[i - 1].heap, run[i - 1].head, [])
  {
    var s, a := run[i - 1], acts[i - 1];
    ActionLeads(s, a, t);
    LeadsBack(PcAt(s, t), PcAt(run[i], t));
    EmptyAnswerIsTrue(threads, run, acts, i - 1, t);
  }

  lemma NoCallWhenEmpty(threads: nat, run: seq<State>, acts: seq<Action>, t: nat, i: nat)
    requires IsRun(threads, run, acts) && 0 < i < |run| && SaysEmpty(PcAt(run[i], t))
    ensures NoCall(acts, t, i - 1, i)
  {
    ActionLeads(run[i - 1], acts[i - 1], t);
  }

  /** Whenever pop_front answers that the queue is empty, it was empty at a moment between
      this call and its answer: in state j, when the thread read next_. */
  lemma {:induction false} EmptyAnswerGoesBack(threads: nat, run: seq<State>, acts: seq<Action>, t: nat, i: nat)
    returns (c: nat, j: nat)
    requires IsRun(threads, run, acts) && i < |run| && SaysEmpty(PcAt(run[i], t))
    ensures c < j < i && acts[c] == CallPop(t) && NoCall(acts, t, c + 1, i)
    ensures PcAt(run[j], t).PopNext? && acts[j].Step? && acts[j].t == t
    ensures IsList(run[j].heap, run[j].head, [])
  {
    if i == 0 {
      NotAtStart(threads, run, acts, t);
    } else {
      NoCallWhenEmpty(threads, run, acts, t, i);
      if SaysEmpty(PcAt(run[i - 1], t)) {
        c, j := EmptyAnswerGoesBack(threads, run, acts, t, i - 1);
        NoCallJoin(acts, t, c + 1, i - 1, i);
      } else {
        DecidesEmpty(threads, run, acts, t, i);
        c := CallOf(threads, run, acts, t, i - 1);
        j := i - 1;
        NoCallJoin(acts, t, c + 1, i - 1, i);
      }
    }
  }

  // ----- pops that are covered -----

  /** How many calls of pop_front the first i actions make. */
  function PopCalls(acts: seq<Action>, i: nat): nat
    requires i <= |acts|
  {
    if i == 0 then 0 else PopCalls(acts, i - 1) + if acts[i - 1].CallPop? then 1 else 0
  }

  /** How many of them have no outcome yet. */
  function OpenPops(threads: seq<Thread>): nat {
    if threads == [] then 0
    else OpenPops(threads[..|threads| - 1]) + if InPop(threads[|threads| - 1].pc) then 1 else 0
  }

  lemma {:induction false} OpenPopsChanged(threads: seq<Thread>, t: nat, thread: Thread)
    requires t < |threads|
    ensures OpenPops(threads[t := thread]) + (if InPop(threads[t].pc) then 1 else 0)
            == OpenPops(threads) + if InPop(thread.pc) then 1 else 0
    decreases |threads|
  {
    var n := |threads| - 1;
    if t < n {
      OpenPopsChanged(threads[..n], t, thread);
      assert threads[t := thread][..n] == threads[..n][t := thread];
    } else {
      assert threads[t := thread][..n] == threads[..n];
    }
  }

  lemma {:induction false} OpenPopsAtLeast(threads: seq<Thread>, t: nat)
    requires t < |threads| && InPop(threads[t].pc)
    ensures OpenPops(threads) > 0
    decreases |threads|
  {
    if t < |threads| - 1 {
      OpenPopsAtLeast(threads[..|threads| - 1], t);
    }
  }

  lemma ActionThreads(s: State, a: Action)
    requires Enabled(s, a)
    ensures |Next(s, a).threads| == |s.threads|
    ensures if a.Maintain? then Next(s, a).threads == s.threads
            else a.t < |s.threads| && Next(s, a).threads == s.threads[a.t := Next(s, a).threads[a.t]]
  {
    ThreadCountKept(s, a);
    forall u | 0 <= u < |s.threads| && (a.Maintain? || a.t != u) ensures Next(s, a).threads[u] == s.threads[u] {
      OthersUntouched(s, a, u);
    }
  }

  /** An action opens a pop, closes one by removing a value, or may close one otherwise. */
  lemma OpenPopsStep(s: State, a: Action)
    requires Enabled(s, a)
    ensures OpenPops(Next(s, a).threads) + (if Removes(s, Next(s, a), a) then 1 else 0)
            <= OpenPops(s.threads) + if a.CallPop? then 1 else 0
  {
    ActionThreads(s, a);
    if !a.Maintain? {
      ActionLeads(s, a, a.t);
      OpenPopsChanged(s.threads, a.t, Next(s, a).threads[a.t]);
      if a.Step? {
        LeadsBack(PcAt(s, a.t), PcAt(Next(s, a), a.t));
      }
    }
  }

  lemma {:induction false} NoOpenPops(threads: seq<Thread>)
    requires forall t | 0 <= t < |threads| :: threads[t].pc.Idle?
    ensures OpenPops(threads) == 0
    decreases |threads|
  {
    if threads != [] {
      NoOpenPops(threads[..|threads| - 1]);
    }
  }

  lemma {:induction false} PopsAccounted(threads: nat, run: seq<State>, acts: seq<Action>, i: nat)
    requires IsRun(threads, run, acts) && i < |run|
    ensures |Removed(run, acts, i)| + OpenPops(run[i].threads) <= PopCalls(acts, i)
  {
    if i == 0 {
      NoOpenPops(run[0].threads);
    } else {
      PopsAccounted(threads, run, acts, i - 1);
      OpenPopsStep(run[i - 1], acts[i - 1]);
    }
  }

  /** Every pop_front is called after a push_back that has linked its value and that no
      other pop_front relies on: what the semaphore and the yield shortcut see to. */
  ghost predicate Covered(run: seq<State>, acts: seq<Action>)
    requires |acts| < |run|
  {
    forall i | 0 <= i < |acts| && acts[i].CallPop? :: PopCalls(acts, i + 1) <= |Appended(run, acts, i)|
  }

  lemma {:induction false} CoveredThroughout(run: seq<State>, acts: seq<Action>, i: nat)
    requires |acts| < |run| && Covered(run, acts) && i <= |acts|
    ensures PopCalls(acts, i) <= |Appended(run, acts, i)|
  {
    if i > 0 {
      CoveredThroughout(run, acts, i - 1);
    }
  }

  /** In a run whose pops are covered none of them ever answers that the queue is empty. */
  lemma CoveredPopsSucceed(threads: nat, run: seq<State>, acts: seq<Action>, t: nat, i: nat)
    requires IsRun(threads, run, acts) && Covered(run, acts) && i < |run|
    ensures !SaysEmpty(PcAt(run[i], t))
  {
    if SaysEmpty(PcAt(run[i], t)) {
      var c, j := EmptyAnswerGoesBack(threads, run, acts, t, i);
      FifoOrder(threads, run, acts, j, []);
      PopsAccounted(threads, run, acts, j);
      OpenPopsAtLeast(run[j].threads, t);
      CoveredThroughout(run, acts, j);
      assert false;
    }
  }
}
