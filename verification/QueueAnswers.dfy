/** What a call answers whose thread runs alone from the call to the answer. */
module QueueAnswers {
  import opened Basics
  import opened QueueMachine
  import opened QueueInvariant
  import opened QueueFlow
  import opened QueueProof
  import opened QueueSafety
  import opened QueueCalls
  import opened QueueProgress
  import opened QueueAlone

  // ----- pop_front -----

  /** The value a call of pop_front has removed, up to and including its answer. */
  function Answered(pc: Pc): seq<nat> {
    if pc.Idle? && pc.result.Got? then [pc.result.value] else ToAnswer(pc)
  }

  predicate InPopCall(pc: Pc) {
    || (InPop(pc) && Answered(pc) == [])
    || (SaysEmpty(pc) && Answered(pc) == [])
    || |Answered(pc)| == 1
  }

  /** What the call has removed is all that was removed, and it says "empty" only of an empty
      queue. */
  predicate PopSoFar(pc: Pc, removed0: seq<nat>, appended0: seq<nat>, removed: seq<nat>, appended: seq<nat>) {
    && InPopCall(pc) && appended == appended0 && removed == removed0 + Answered(pc)
    && (SaysEmpty(pc) ==> removed0 == appended0)
  }

  lemma PopLeads(pc: Pc, pc': Pc)
    requires Leads(pc, pc') && InPopCall(pc)
    ensures InPopCall(pc') && Answered(pc') == Answered(pc) + RemovesOf(pc, pc') && AppendsOf(pc, pc') == []
    ensures SaysEmpty(pc') ==> SaysEmpty(pc) || (pc.PopNext? && pc' == Exiting(Finish(Empty)))
  {
    match pc
    case Reclaim(after, _) => assert after.Finish? ==> Continue(after) == Idle(after.result);
    case _ =>
  }

  lemma TracesOf(threads: nat, run: seq<State>, acts: seq<Action>, t: nat, k: nat)
    requires IsRun(threads, run, acts) && k < |acts| && IsStepOf(acts[k], t)
    ensures Leads(PcAt(run[k], t), PcAt(run[k + 1], t))
    ensures Removed(run, acts, k + 1) == Removed(run, acts, k) + RemovesOf(PcAt(run[k], t), PcAt(run[k + 1], t))
    ensures Appended(run, acts, k + 1) == Appended(run, acts, k) + AppendsOf(PcAt(run[k], t), PcAt(run[k + 1], t))
  {
    RunStep(threads, run, acts, k);
    ThreadCountKept(run[k], acts[k]);
    ActionLeads(run[k], acts[k], t);
  }

  lemma EmptyThen(threads: nat, run: seq<State>, acts: seq<Action>, t: nat, k: nat)
    requires IsRun(threads, run, acts) && k < |acts| && IsStepOf(acts[k], t)
    requires PcAt(run[k], t).PopNext? && PcAt(run[k + 1], t) == Exiting(Finish(Empty))
    ensures Removed(run, acts, k) == Appended(run, acts, k)
  {
    RunStep(threads, run, acts, k);
    EmptyAnswerIsTrue(threads, run, acts, k, t);
    FifoOrder(threads, run, acts, k, []);
  }

  ghost predicate PopIsAt(run: seq<State>, acts: seq<Action>, t: nat, i: nat, k: nat)
    requires i <= k <= |acts| < |run|
  {
    PopSoFar(PcAt(run[k], t), Removed(run, acts, i), Appended(run, acts, i), Removed(run, acts, k), Appended(run, acts, k))
  }

  lemma PopGoesOn(threads: nat, run: seq<State>, acts: seq<Action>, t: nat, i: nat, k: nat)
    requires IsRun(threads, run, acts) && i <= k < |acts| && PopIsAt(run, acts, t, i, k) && IsStepOf(acts[k], t)
    ensures PopIsAt(run, acts, t, i, k + 1)
  {
    var pc, pc' := PcAt(run[k], t), PcAt(run[k + 1], t);
    TracesOf(threads, run, acts, t, k);
    PopLeads(pc, pc');
    if SaysEmpty(pc') && !SaysEmpty(pc) {
      EmptyThen(threads, run, acts, t, k);
    }
  }

  lemma {:induction false} PopThroughout(run: seq<State>, acts: seq<Action>, t: nat, i: nat, l: nat, j: nat)
    requires i <= l <= j <= |acts| < |run| && PopIsAt(run, acts, t, i, l)
    requires forall k | l <= k < j :: PopIsAt(run, acts, t, i, k) ==> PopIsAt(run, acts, t, i, k + 1)
    ensures PopIsAt(run, acts, t, i, j)
    decreases j
  {
    if l < j {
      PopThroughout(run, acts, t, i, l, j - 1);
      assert PopIsAt(run, acts, t, i, j - 1 + 1);
    }
  }

  lemma CallStarts(threads: nat, run: seq<State>, acts: seq<Action>, t: nat, i: nat)
    requires IsRun(threads, run, acts) && i < |acts| && (acts[i].CallPop? || acts[i].CallPush?) && acts[i].t == t
    ensures t < |run[i].threads| && t < |run[i + 1].threads|
    ensures PcAt(run[i + 1], t) == if acts[i].CallPop? then Entering(Popping) else Allocating(acts[i].value)
    ensures Removed(run, acts, i + 1) == Removed(run, acts, i) && Appended(run, acts, i + 1) == Appended(run, acts, i)
  {
    RunStep(threads, run, acts, i);
    ActionLeads(run[i], acts[i], t);
    ThreadCountKept(run[i], acts[i]);
  }

  /** The values in the queue. */
  ghost predicate HasContents(s: State, contents: seq<nat>) {
    IsList(s.heap, s.head, contents)
  }

  lemma SomeContents(threads: nat, run: seq<State>, acts: seq<Action>, i: nat) returns (contents: seq<nat>)
    requires IsRun(threads, run, acts) && i < |run|
    ensures HasContents(run[i], contents)
  {
    RunKeepsInv(threads, run, acts, i);
    ChainFacts(run[i], HistoryAt(threads, run, acts, i));
    contents := Contents(HistoryAt(threads, run, acts, i).chain);
  }

  lemma Cancel(p: seq<nat>, v: seq<nat>, rest: seq<nat>, all: seq<nat>)
    requires p + v + rest == p + all
    ensures all == v + rest
  {
    assert p + v + rest == p + (v + rest);
    assert (p + all)[|p|..] == all && (p + (v + rest))[|p|..] == v + rest;
  }

  lemma PopOutcome(threads: nat, run: seq<State>, acts: seq<Action>, t: nat, i: nat, j: nat, contents: seq<nat>)
    requires IsRun(threads, run, acts) && i < j <= |acts| && PopIsAt(run, acts, t, i, j) && PcAt(run[j], t).Idle?
    requires HasContents(run[i], contents)
    ensures PcAt(run[j], t).result == if contents == [] then Empty else Got(contents[0])
    ensures HasContents(run[j], if contents == [] then [] else contents[1..])
  {
    var rest := SomeContents(threads, run, acts, j);
    FifoOrder(threads, run, acts, i, contents);
    FifoOrder(threads, run, acts, j, rest);
    Cancel(Removed(run, acts, i), Answered(PcAt(run[j], t)), rest, contents);
  }

  /** pop_front, when its thread runs alone from the call in step i to its end in state j,
      takes the first value out of the queue and returns it, and answers "empty" exactly when
      the queue is empty. */
  lemma PopAlone(threads: nat, run: seq<State>, acts: seq<Action>, t: nat, i: nat, j: nat, contents: seq<nat>)
    requires IsRun(threads, run, acts) && i < j <= |acts| && acts[i] == CallPop(t) && Alone(acts, t, i + 1, j)
    requires PcAt(run[j], t).Idle? && HasContents(run[i], contents)
    ensures PcAt(run[j], t).result == if contents == [] then Empty else Got(contents[0])
    ensures HasContents(run[j], if contents == [] then [] else contents[1..])
  {
    CallStarts(threads, run, acts, t, i);
    forall k | i + 1 <= k < j && PopIsAt(run, acts, t, i, k) ensures PopIsAt(run, acts, t, i, k + 1) {
      PopGoesOn(threads, run, acts, t, i, k);
    }
    PopThroughout(run, acts, t, i, i + 1, j);
    PopOutcome(threads, run, acts, t, i, j, contents);
  }

  // ----- push_back -----

  /** push_back has linked its node. */
  predicate IsLinked(pc: Pc) {
    pc.PushSwing? || pc == Idle(Pushed) || QueueCalls.After(pc) == Some(Finish(Pushed))
  }

  predicate PushSoFar(pc: Pc, value: nat, removed0: seq<nat>, appended0: seq<nat>, removed: seq<nat>, appended: seq<nat>) {
    && removed == removed0
    && if IsLinked(pc) then appended == appended0 + [value] else ToAppend(pc) == [value] && appended == appended0
  }

  lemma PushLeads(pc: Pc, pc': Pc, value: nat)
    requires Leads(pc, pc') && (IsLinked(pc) || ToAppend(pc) == [value])
    ensures RemovesOf(pc, pc') == []
    ensures IsLinked(pc) ==> IsLinked(pc') && AppendsOf(pc, pc') == []
    ensures !IsLinked(pc) && IsLinked(pc') ==> AppendsOf(pc, pc') == [value]
    ensures !IsLinked(pc) && !IsLinked(pc') ==> AppendsOf(pc, pc') == [] && ToAppend(pc') == [value]
  {
    match pc
    case Reclaim(after, _) => assert after.Finish? ==> Continue(after) == Idle(after.result);
    case _ =>
  }

  ghost predicate PushIsAt(run: seq<State>, acts: seq<Action>, t: nat, value: nat, i: nat, k: nat)
    requires i <= k <= |acts| < |run|
  {
    && PushSoFar(PcAt(run[k], t), value, Removed(run, acts, i), Appended(run, acts, i), Removed(run, acts, k), Appended(run, acts, k))
    && TailOk(run[k], PcAt(run[k], t))
  }

  lemma PushGoesOn(threads: nat, run: seq<State>, acts: seq<Action>, t: nat, value: nat, i: nat, k: nat)
    requires IsRun(threads, run, acts) && i <= k < |acts| && PushIsAt(run, acts, t, value, i, k)
    requires IsStepOf(acts[k], t) && !acts[k].spurious
    ensures PushIsAt(run, acts, t, value, i, k + 1)
  {
    TracesOf(threads, run, acts, t, k);
    PushLeads(PcAt(run[k], t), PcAt(run[k + 1], t), value);
    RunStep(threads, run, acts, k);
    RunKeepsInv(threads, run, acts, k);
    assert acts[k] == Step(t, false, acts[k].spare);
    TailStays(run[k], HistoryAt(threads, run, acts, k), t, acts[k].spare);
  }

  lemma {:induction false} PushThroughout(run: seq<State>, acts: seq<Action>, t: nat, value: nat, i: nat, l: nat, j: nat)
    requires i <= l <= j <= |acts| < |run| && PushIsAt(run, acts, t, value, i, l)
    requires forall k | l <= k < j :: PushIsAt(run, acts, t, value, i, k) ==> PushIsAt(run, acts, t, value, i, k + 1)
    ensures PushIsAt(run, acts, t, value, i, j)
    decreases j
  {
    if l < j {
      PushThroughout(run, acts, t, value, i, l, j - 1);
      assert PushIsAt(run, acts, t, value, i, j - 1 + 1);
    }
  }

  /** The attempt of push_back works on the current tail_, and leaves it at the last node. */
  predicate TailOk(s: State, pc: Pc) {
    && (pc.PushNext? || pc.PushLink? || pc.PushHelp? || pc.PushSwing? ==> pc.last == s.tail)
    && (IsLinked(pc) && !pc.PushSwing? ==> !Behind(s))
  }

  lemma LocalTail(s: State, h: History, t: nat, spare: nat)
    requires Inv(s, h) && Enabled(s, Step(t, false, spare)) && !IsTailCas(s.threads[t].pc) && !s.threads[t].pc.PushLink?
    ensures Next(s, Step(t, false, spare)).tail == s.tail && Behind(Next(s, Step(t, false, spare))) == Behind(s)
  {
    TailOnlyByCas(s, t, spare);
    BehindKept(s, h, Step(t, false, spare));
  }

  lemma TailOnlyByCas(s: State, t: nat, spare: nat)
    requires Enabled(s, Step(t, false, spare)) && !IsTailCas(s.threads[t].pc)
    ensures Next(s, Step(t, false, spare)).tail == s.tail
  {
  }

  lemma FreshTail(s: State, t: nat, spare: nat)
    requires Enabled(s, Step(t, false, spare)) && s.threads[t].pc.PushTail?
    ensures PcAt(Next(s, Step(t, false, spare)), t).last == s.tail
  {
  }

  lemma TailLeads(s: State, s': State, pc: Pc, pc': Pc)
    requires Leads(pc, pc') && TailOk(s, pc) && s'.tail == s.tail
    requires pc.PushTail? ==> pc'.PushNext? && pc'.last == s.tail
    requires !IsTailCas(pc) && (pc.PushLink? || Behind(s') == Behind(s))
    ensures TailOk(s', pc')
  {
  }

  lemma TailStays(s: State, h: History, t: nat, spare: nat)
    requires Inv(s, h) && Enabled(s, Step(t, false, spare)) && TailOk(s, PcAt(s, t))
    ensures TailOk(Next(s, Step(t, false, spare)), PcAt(Next(s, Step(t, false, spare)), t))
  {
    var pc, s' := PcAt(s, t), Next(s, Step(t, false, spare));
    StepLeads(s, t, false, spare);
    ThreadCountKept(s, Step(t, false, spare));
    if IsTailCas(pc) {
      TailCasBehind(s, h, t);
    } else {
      TailOnlyByCas(s, t, spare);
      if pc.PushTail? {
        FreshTail(s, t, spare);
      }
      if !pc.PushLink? {
        LocalTail(s, h, t, spare);
      }
      TailLeads(s, s', pc, PcAt(s', t));
    }
  }

  lemma PushOutcome(threads: nat, run: seq<State>, acts: seq<Action>, t: nat, value: nat, i: nat, j: nat, contents: seq<nat>)
    requires IsRun(threads, run, acts) && i < j <= |acts| && PushIsAt(run, acts, t, value, i, j) && PcAt(run[j], t).Idle?
    requires HasContents(run[i], contents)
    ensures PcAt(run[j], t).result == Pushed && HasContents(run[j], contents + [value]) && !Behind(run[j])
  {
    FifoOrder(threads, run, acts, i, contents);
    FifoOrder(threads, run, acts, j, contents + [value]);
    assert Removed(run, acts, i) + (contents + [value]) == Removed(run, acts, i) + contents + [value];
  }

  /** push_back, when its thread runs alone from the call in step i to its end in state j, puts
      its value behind the others and leaves tail_ at the last node. */
  lemma PushAlone(threads: nat, run: seq<State>, acts: seq<Action>, t: nat, value: nat, i: nat, j: nat, contents: seq<nat>)
    requires IsRun(threads, run, acts) && i < j <= |acts| && acts[i] == CallPush(t, value) && Alone(acts, t, i + 1, j)
    requires PcAt(run[j], t).Idle? && HasContents(run[i], contents)
    ensures PcAt(run[j], t).result == Pushed && HasContents(run[j], contents + [value]) && !Behind(run[j])
  {
    CallStarts(threads, run, acts, t, i);
    forall k | i + 1 <= k < j && PushIsAt(run, acts, t, value, i, k) ensures PushIsAt(run, acts, t, value, i, k + 1) {
      PushGoesOn(threads, run, acts, t, value, i, k);
    }
    PushThroughout(run, acts, t, value, i, i + 1, j);
    PushOutcome(threads, run, acts, t, value, i, j, contents);
  }
}
