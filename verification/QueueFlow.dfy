/** The control flow of the queue machine: where each step of a thread leads, whatever the
    shared memory holds. */
module QueueFlow {
  import opened QueueMachine
  import Ebr

  predicate Leads(pc: Pc, pc': Pc) {
    match pc
    case Idle(_) => false
    case Allocating(value) => pc'.Entering? && pc'.job.Pushing? && pc'.job.value == value
    case Entering(job) => pc' == pc || pc' == (if job.Popping? then PopHead else PushTail(job.node, job.value))
    case PopHead => pc'.PopTail?
    case PopTail(first) => pc'.PopNext? && pc'.first == first
    case PopNext(first, last) =>
      || pc' == Exiting(Finish(Empty)) || pc' == Exiting(Again(Popping))
      || (pc'.PopHelp? && pc'.last == last) || (pc'.PopValue? && pc'.first == first)
    case PopHelp(_, _) => pc' == Exiting(Again(Popping))
    case PopValue(first, next) => pc'.PopSwing? && pc'.first == first && pc'.next == next
    case PopSwing(first, _, value) => pc' == PopRetire(first, value) || pc' == Exiting(Again(Popping))
    case PopRetire(_, value) => pc' == Exiting(Finish(Got(value)))
    case PushTail(node, value) => pc'.PushNext? && pc'.node == node && pc'.value == value
    case PushNext(node, value, last) => (pc'.PushLink? || pc'.PushHelp?) && pc'.node == node && pc'.value == value && pc'.last == last
    case PushLink(node, value, last) => pc' == PushSwing(node, last) || pc' == Exiting(Again(Pushing(node, value)))
    case PushHelp(node, value, _, _) => pc' == Exiting(Again(Pushing(node, value)))
    case PushSwing(_, _) => pc' == Exiting(Finish(Pushed))
    case Exiting(after) => pc' == pc || pc' == LoadGc(after)
    case LoadGc(after) => pc'.Reclaim? && pc'.after == after
    case Reclaim(after, gc) => pc' == pc || (pc'.Batch? && pc'.after == after && pc'.gc == gc) || pc' == Continue(after)
    case Batch(after, gc, _) => (pc'.Batch? || pc'.Reclaim?) && pc'.after == after && pc'.gc == gc
  }

  lemma LoadLeads(s: State, pc: Pc)
    requires IsLoad(pc)
    ensures Leads(pc, AfterLoad(s, pc))
  {
  }

  lemma TailCasLeads(pc: Pc)
    requires IsTailCas(pc)
    ensures Leads(pc, AfterTailCas(pc))
  {
  }

  lemma AllocateLeads(s: State, t: nat, spare: nat)
    requires CanAllocate(s, t, spare)
    ensures Leads(s.threads[t].pc, Allocate(s, t, spare).threads[t].pc)
  {
  }

  lemma EnterLeads(s: State, t: nat, spurious: bool)
    requires t < |s.threads| && s.threads[t].pc.Entering? && Ebr.CanEnter(s.ebr, t)
    ensures Leads(s.threads[t].pc, EnterStep(s, t, spurious).threads[t].pc)
  {
  }

  lemma ExitLeads(s: State, t: nat, spurious: bool)
    requires t < |s.threads| && s.threads[t].pc.Exiting? && Ebr.CanExit(s.ebr, t)
    ensures Leads(s.threads[t].pc, ExitStep(s, t, spurious).threads[t].pc)
  {
  }

  lemma ReclaimLeads(s: State, t: nat)
    requires t < |s.threads| && s.threads[t].pc.Reclaim?
    ensures Leads(s.threads[t].pc, ReclaimStep(s, t).threads[t].pc)
  {
  }

  lemma BatchLeads(s: State, t: nat)
    requires t < |s.threads| && s.threads[t].pc.Batch?
    ensures Leads(s.threads[t].pc, BatchStep(s, t).threads[t].pc)
  {
  }

  lemma LinkLeads(s: State, t: nat, spurious: bool)
    requires t < |s.threads| && s.threads[t].pc.PushLink?
    ensures Leads(s.threads[t].pc, LinkCas(s, t, spurious).threads[t].pc)
  {
  }

  lemma HeadLeads(s: State, t: nat)
    requires t < |s.threads| && s.threads[t].pc.PopSwing?
    ensures Leads(s.threads[t].pc, HeadCas(s, t).threads[t].pc)
  {
  }

  lemma StepLeads(s: State, t: nat, spurious: bool, spare: nat)
    requires Enabled(s, Step(t, spurious, spare))
    ensures Leads(s.threads[t].pc, Next(s, Step(t, spurious, spare)).threads[t].pc)
  {
    var pc := s.threads[t].pc;
    if IsLoad(pc) {
      LoadLeads(s, pc);
    } else if IsTailCas(pc) {
      TailCasLeads(pc);
    } else {
      match pc
      case Allocating(_) => AllocateLeads(s, t, spare);
      case Entering(_) => EnterLeads(s, t, spurious);
      case Exiting(_) => ExitLeads(s, t, spurious);
      case PushLink(_, _, _) => LinkLeads(s, t, spurious);
      case PopSwing(_, _, _) => HeadLeads(s, t);
      case PopRetire(_, _) =>
      case Reclaim(_, _) => ReclaimLeads(s, t);
      case Batch(_, _, _) => BatchLeads(s, t);
    }
  }

  lemma ThreadCountKept(s: State, a: Action)
    requires Enabled(s, a)
    ensures |Next(s, a).threads| == |s.threads|
  {
  }

  lemma OthersUntouched(s: State, a: Action, u: nat)
    requires Enabled(s, a) && u < |s.threads| && (a.Maintain? || a.t != u)
    ensures |Next(s, a).threads| == |s.threads| && Next(s, a).threads[u] == s.threads[u]
  {
  }

  function PcAt(s: State, t: nat): Pc {
    if t < |s.threads| then s.threads[t].pc else Idle(NoResult)
  }

  /** What action a does to thread t's program counter. */
  lemma ActionLeads(s: State, a: Action, t: nat)
    requires Enabled(s, a)
    ensures var pc, pc' := PcAt(s, t), PcAt(Next(s, a), t);
            match a
            case Maintain => pc' == pc
            case CallPop(u) => pc' == if u == t then Entering(Popping) else pc
            case CallPush(u, value) => pc' == if u == t then Allocating(value) else pc
            case Step(u, _, _) => if u == t then Leads(pc, pc') else pc' == pc
    ensures a.CallPop? || a.CallPush? ==> PcAt(s, a.t).Idle?
  {
    ThreadCountKept(s, a);
    if t < |s.threads| {
      if a.Maintain? || a.t != t {
        OthersUntouched(s, a, t);
      } else if a.Step? {
        StepLeads(s, t, a.spurious, a.spare);
      }
    }
  }
}
