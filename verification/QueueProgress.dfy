/** Progress of the queue: what a failed compare-and-swap means, and what a thread that runs
    alone achieves. */
module QueueProgress {
  import opened Basics
  import opened QueueMachine
  import opened QueueInvariant
  import opened QueueFlow
  import opened QueueProof
  import opened QueueSafety

  lemma RunStep(threads: nat, run: seq<State>, acts: seq<Action>, k: nat)
    requires IsRun(threads, run, acts) && k < |acts|
    ensures Enabled(run[k], acts[k]) && run[k + 1] == Next(run[k], acts[k])
  {
  }

  predicate IsStepOf(a: Action, t: nat) {
    a.Step? && a.t == t
  }

  // ----- values only ever come on top -----

  lemma {:induction false} TracesGrow(run: seq<State>, acts: seq<Action>, l: nat, i: nat)
    requires l <= i <= |acts| < |run|
    ensures Appended(run, acts, l) <= Appended(run, acts, i) && Removed(run, acts, l) <= Removed(run, acts, i)
  {
    if l < i {
      TracesGrow(run, acts, l, i - 1);
    }
  }

  lemma ObserveNodes(s: State, h: History, t: nat, s': State)
    requires Sized(s, h) && t < |s.threads| == |s'.threads| == |s'.ebr.slots|
    ensures h.chain.nodes <= Observe(s, h, t, s').chain.nodes
  {
  }

  ghost function NodesAt(threads: nat, run: seq<State>, acts: seq<Action>, i: nat): seq<Ptr>
    requires i <= |acts| < |run|
  {
    HistoryAt(threads, run, acts, i).chain.nodes
  }

  lemma NodesStep(threads: nat, run: seq<State>, acts: seq<Action>, i: nat)
    requires IsRun(threads, run, acts) && i < |acts|
    ensures NodesAt(threads, run, acts, i) <= NodesAt(threads, run, acts, i + 1)
  {
    RunStep(threads, run, acts, i);
    assert Sized(run[i], HistoryAt(threads, run, acts, i)) by { RunKeepsInv(threads, run, acts, i); }
    assert Sized(run[i + 1], HistoryAt(threads, run, acts, i + 1)) by { RunKeepsInv(threads, run, acts, i + 1); }
    ThreadCountKept(run[i], acts[i]);
    if acts[i].Step? {
      ObserveNodes(run[i], HistoryAt(threads, run, acts, i), acts[i].t, run[i + 1]);
    }
  }

  lemma {:induction false} NodesGrow(threads: nat, run: seq<State>, acts: seq<Action>, l: nat, i: nat)
    requires l <= i <= |acts| < |run|
    requires forall k | l <= k < i :: NodesAt(threads, run, acts, k) <= NodesAt(threads, run, acts, k + 1)
    ensures NodesAt(threads, run, acts, l) <= NodesAt(threads, run, acts, i)
  {
    if l < i {
      NodesGrow(threads, run, acts, l, i - 1);
      assert NodesAt(threads, run, acts, i - 1) <= NodesAt(threads, run, acts, i - 1 + 1);
    }
  }

  lemma HeadPosition(s: State, h: History)
    requires ChainOk(s, h)
    ensures |h.chain.nodes| == |h.chain.values| && |h.delivered| == h.chain.head < |h.chain.nodes|
    ensures s.head == h.chain.nodes[|h.delivered|]
  {
  }

  lemma NodesKept(threads: nat, run: seq<State>, acts: seq<Action>, l: nat, i: nat)
    requires IsRun(threads, run, acts) && l <= i < |run|
    ensures NodesAt(threads, run, acts, l) <= NodesAt(threads, run, acts, i)
  {
    forall k | l <= k < i ensures NodesAt(threads, run, acts, k) <= NodesAt(threads, run, acts, k + 1) {
      NodesStep(threads, run, acts, k);
    }
    NodesGrow(threads, run, acts, l, i);
  }

  /** The counts of values appended and removed give the positions of the last node and of
      head_. */
  lemma ChainCounts(threads: nat, run: seq<State>, acts: seq<Action>, i: nat)
    requires IsRun(threads, run, acts) && i < |run|
    ensures var nodes := NodesAt(threads, run, acts, i);
            && |nodes| == |Appended(run, acts, i)| + 1 && |Removed(run, acts, i)| < |nodes|
            && run[i].head == nodes[|Removed(run, acts, i)|]
  {
    var h := HistoryAt(threads, run, acts, i);
    assert ChainOk(run[i], h) by { RunKeepsInv(threads, run, acts, i); }
    HeadPosition(run[i], h);
    TracesMatch(threads, run, acts, i);
  }

  lemma CountMoves(nodes: seq<Ptr>, nodes': seq<Ptr>, removed: seq<nat>, removed': seq<nat>)
    requires nodes <= nodes' && removed <= removed' && |removed| < |nodes| && |removed'| < |nodes'|
    requires nodes[|removed|] != nodes'[|removed'|]
    ensures |removed| < |removed'|
  {
  }

  /** head_ moves only with a removal. */
  lemma HeadMoves(threads: nat, run: seq<State>, acts: seq<Action>, l: nat, i: nat)
    requires IsRun(threads, run, acts) && l <= i < |run| && run[l].head != run[i].head
    ensures |Removed(run, acts, l)| < |Removed(run, acts, i)|
  {
    ChainCounts(threads, run, acts, l);
    ChainCounts(threads, run, acts, i);
    NodesKept(threads, run, acts, l, i);
    TracesGrow(run, acts, l, i);
    CountMoves(NodesAt(threads, run, acts, l), NodesAt(threads, run, acts, i), Removed(run, acts, l), Removed(run, acts, i));
  }

  // ----- a failed head CAS -----

  /** What an attempt of pop_front has loaded from head_. */
  function FirstOf(pc: Pc): Option<Ptr> {
    if pc.PopTail? || pc.PopNext? || pc.PopValue? || pc.PopSwing? then Some(pc.first) else None
  }

  lemma FirstKept(s: State, a: Action, t: nat)
    requires Enabled(s, a) && !(IsStepOf(a, t) && PcAt(s, t).PopHead?)
    ensures FirstOf(PcAt(Next(s, a), t)).Some? ==> FirstOf(PcAt(Next(s, a), t)) == FirstOf(PcAt(s, t))
  {
    ActionLeads(s, a, t);
  }

  lemma FirstLoaded(s: State, a: Action, t: nat)
    requires Enabled(s, a) && IsStepOf(a, t) && PcAt(s, t).PopHead?
    ensures PcAt(Next(s, a), t) == PopTail(s.head)
  {
  }

  predicate LoadsHead(run: seq<State>, acts: seq<Action>, t: nat, k: nat)
    requires k < |acts| < |run|
  {
    IsStepOf(acts[k], t) && PcAt(run[k], t).PopHead?
  }

  predicate SameAttempt(run: seq<State>, acts: seq<Action>, t: nat, l: nat, i: nat)
    requires l <= i <= |acts| < |run|
  {
    forall k | l < k < i :: !LoadsHead(run, acts, t, k)
  }

  /** The attempt of thread t, if it is in one, works with p. */
  predicate HasFirst(s: State, t: nat, p: Ptr) {
    FirstOf(PcAt(s, t)).Some? ==> FirstOf(PcAt(s, t)) == Some(p)
  }

  lemma FirstStarts(threads: nat, run: seq<State>, acts: seq<Action>, t: nat, l: nat)
    requires IsRun(threads, run, acts) && l < |acts| && LoadsHead(run, acts, t, l)
    ensures HasFirst(run[l + 1], t, run[l].head)
  {
    RunStep(threads, run, acts, l);
    FirstLoaded(run[l], acts[l], t);
  }

  lemma FirstStays(threads: nat, run: seq<State>, acts: seq<Action>, t: nat, k: nat, p: Ptr)
    requires IsRun(threads, run, acts) && k < |acts| && HasFirst(run[k], t, p)
    requires !LoadsHead(run, acts, t, k)
    ensures HasFirst(run[k + 1], t, p)
  {
    RunStep(threads, run, acts, k);
    FirstKept(run[k], acts[k], t);
  }

  lemma {:induction false} FirstIsHead(run: seq<State>, acts: seq<Action>, t: nat, l: nat, i: nat, p: Ptr)
    requires l < i <= |acts| < |run| && HasFirst(run[l + 1], t, p)
    requires forall k | l < k < i :: HasFirst(run[k], t, p) ==> HasFirst(run[k + 1], t, p)
    ensures HasFirst(run[i], t, p)
  {
    if i > l + 1 {
      FirstIsHead(run, acts, t, l, i - 1, p);
      assert HasFirst(run[i - 1 + 1], t, p);
    }
  }

  lemma AttemptBefore(threads: nat, run: seq<State>, acts: seq<Action>, t: nat, k: nat)
    requires IsRun(threads, run, acts) && k < |acts| && FirstOf(PcAt(run[k + 1], t)).Some? && !LoadsHead(run, acts, t, k)
    ensures FirstOf(PcAt(run[k], t)).Some?
  {
    RunStep(threads, run, acts, k);
    FirstKept(run[k], acts[k], t);
  }

  /** Every attempt has a step that loaded head_. */
  lemma {:induction false} PopAttempt(run: seq<State>, acts: seq<Action>, t: nat, i: nat) returns (l: nat)
    requires i <= |acts| < |run| && FirstOf(PcAt(run[i], t)).Some? && FirstOf(PcAt(run[0], t)).None?
    requires forall k | 0 <= k < i ::
               FirstOf(PcAt(run[k + 1], t)).Some? && !LoadsHead(run, acts, t, k) ==> FirstOf(PcAt(run[k], t)).Some?
    ensures l < i && SameAttempt(run, acts, t, l, i) && LoadsHead(run, acts, t, l)
  {
    l := i - 1;
    if !LoadsHead(run, acts, t, l) {
      assert FirstOf(PcAt(run[l + 1], t)).Some?;
      l := PopAttempt(run, acts, t, l);
    }
  }

  lemma HeadCasFails(s: State, a: Action, t: nat)
    requires Enabled(s, a) && PcAt(s, t).PopSwing? && PcAt(Next(s, a), t) == Exiting(Again(Popping))
    ensures s.head != PcAt(s, t).first
  {
    ActionLeads(s, a, t);
  }

  /** When the head CAS of an attempt fails in step i, another pop_front has removed a value
      since this attempt loaded head_, which was in step l. */
  lemma FailedPopWasOvertaken(threads: nat, run: seq<State>, acts: seq<Action>, t: nat, i: nat) returns (l: nat)
    requires IsRun(threads, run, acts) && i < |acts|
    requires PcAt(run[i], t).PopSwing? && PcAt(run[i + 1], t) == Exiting(Again(Popping))
    ensures l < i && SameAttempt(run, acts, t, l, i) && LoadsHead(run, acts, t, l)
    ensures |Removed(run, acts, l)| < |Removed(run, acts, i)|
  {
    forall k | 0 <= k < i && FirstOf(PcAt(run[k + 1], t)).Some? && !LoadsHead(run, acts, t, k)
      ensures FirstOf(PcAt(run[k], t)).Some?
    {
      AttemptBefore(threads, run, acts, t, k);
    }
    l := PopAttempt(run, acts, t, i);
    FirstStarts(threads, run, acts, t, l);
    forall k | l < k < i && HasFirst(run[k], t, run[l].head) ensures HasFirst(run[k + 1], t, run[l].head) {
      FirstStays(threads, run, acts, t, k, run[l].head);
    }
    FirstIsHead(run, acts, t, l, i, run[l].head);
    RunStep(threads, run, acts, i);
    HeadCasFails(run[i], acts[i], t);
    HeadMoves(threads, run, acts, l, i);
  }

  // ----- a failed linking CAS -----

  /** What an attempt of push_back has seen without a successor. */
  function LastOf(pc: Pc): Option<Ptr> {
    if pc.PushLink? then Some(pc.last) else None
  }

  predicate StartsLink(run: seq<State>, acts: seq<Action>, t: nat, k: nat)
    requires k < |acts| < |run|
  {
    IsStepOf(acts[k], t) && PcAt(run[k], t).PushNext?
  }

  predicate SameLink(run: seq<State>, acts: seq<Action>, t: nat, l: nat, i: nat)
    requires l <= i <= |acts| < |run|
  {
    forall k | l < k < i :: !StartsLink(run, acts, t, k)
  }

  lemma LastKept(s: State, a: Action, t: nat)
    requires Enabled(s, a) && !(IsStepOf(a, t) && PcAt(s, t).PushNext?)
    ensures LastOf(PcAt(Next(s, a), t)).Some? ==> LastOf(PcAt(Next(s, a), t)) == LastOf(PcAt(s, t))
  {
    ActionLeads(s, a, t);
  }

  predicate HasLast(s: State, t: nat, o: Option<Ptr>) {
    LastOf(PcAt(s, t)).Some? ==> LastOf(PcAt(s, t)) == o
  }

  lemma LastStays(threads: nat, run: seq<State>, acts: seq<Action>, t: nat, k: nat, o: Option<Ptr>)
    requires IsRun(threads, run, acts) && k < |acts| && HasLast(run[k], t, o)
    requires !StartsLink(run, acts, t, k)
    ensures HasLast(run[k + 1], t, o)
  {
    RunStep(threads, run, acts, k);
    LastKept(run[k], acts[k], t);
  }

  lemma {:induction false} LastIsSeen(run: seq<State>, acts: seq<Action>, t: nat, l: nat, i: nat, o: Option<Ptr>)
    requires l < i <= |acts| < |run| && HasLast(run[l + 1], t, o)
    requires forall k | l < k < i :: HasLast(run[k], t, o) ==> HasLast(run[k + 1], t, o)
    ensures HasLast(run[i], t, o)
  {
    if i > l + 1 {
      LastIsSeen(run, acts, t, l, i - 1, o);
      assert HasLast(run[i - 1 + 1], t, o);
    }
  }

  lemma LinkBefore(threads: nat, run: seq<State>, acts: seq<Action>, t: nat, k: nat)
    requires IsRun(threads, run, acts) && k < |acts| && PcAt(run[k + 1], t).PushLink?
    requires !StartsLink(run, acts, t, k)
    ensures PcAt(run[k], t).PushLink?
  {
    RunStep(threads, run, acts, k);
    LastKept(run[k], acts[k], t);
  }

  /** Every attempt to link has a step that read next_. */
  lemma {:induction false} PushAttempt(run: seq<State>, acts: seq<Action>, t: nat, i: nat) returns (l: nat)
    requires i <= |acts| < |run| && PcAt(run[i], t).PushLink? && !PcAt(run[0], t).PushLink?
    requires forall k | 0 <= k < i :: PcAt(run[k + 1], t).PushLink? && !StartsLink(run, acts, t, k) ==> PcAt(run[k], t).PushLink?
    ensures l < i && SameLink(run, acts, t, l, i) && StartsLink(run, acts, t, l) && PcAt(run[l + 1], t).PushLink?
  {
    l := i - 1;
    if !StartsLink(run, acts, t, l) {
      assert PcAt(run[l + 1], t).PushLink?;
      l := PushAttempt(run, acts, t, l);
    }
  }

  lemma LastPosition(s: State, h: History, entry: nat, p: Ptr)
    requires Sized(s, h) && ChainOk(s, h) && AddrsOk(s, h) && Holds(h.chain, h.loc, entry, p)
    ensures Position(h.loc, p) == |h.chain.nodes| - 1 <==> p == h.chain.nodes[|h.chain.nodes| - 1]
  {
    assert h.loc[h.chain.nodes[|h.chain.nodes| - 1].addr] == Linked(|h.chain.nodes| - 1);
  }

  /** A held node without a successor is the last of the chain, and conversely. */
  lemma LastNode(s: State, h: History, t: nat, p: Ptr)
    requires Inv(s, h) && t < |s.threads| && InAttempt(s.threads[t].pc) && Holds(h.chain, h.loc, h.entry[t], p)
    ensures p.Ptr? && p.addr in s.heap
    ensures s.heap[p.addr].next.Null? <==> p == h.chain.nodes[|h.chain.nodes| - 1]
  {
    assert s.ebr.slots[t].status.active by { InsideIsActive(s, h, t); }
    LastPosition(s, h, h.entry[t], p);
    assert p.addr in s.heap by { HeldNode(s, h, h.entry[t], p); }
    NextHeld(s, h, t, p);
  }

  lemma HeldLast(s: State, h: History, t: nat)
    requires Inv(s, h) && t < |s.threads| && (s.threads[t].pc.PushNext? || s.threads[t].pc.PushLink?)
    ensures var last := s.threads[t].pc.last;
            && last.Ptr? && last.addr in s.heap
            && (s.heap[last.addr].next.Null? <==> last == h.chain.nodes[|h.chain.nodes| - 1])
  {
    assert ThreadOk(s, h, t);
    LastNode(s, h, t, s.threads[t].pc.last);
  }

  lemma NextWasNull(s: State, a: Action, t: nat)
    requires Enabled(s, a) && IsStepOf(a, t) && PcAt(s, t).PushNext? && PcAt(Next(s, a), t).PushLink?
    requires PcAt(s, t).last.Ptr? && PcAt(s, t).last.addr in s.heap
    ensures s.heap[PcAt(s, t).last.addr].next.Null? && PcAt(Next(s, a), t).last == PcAt(s, t).last
  {
  }

  lemma LinkCasFails(s: State, a: Action, t: nat)
    requires Enabled(s, a) && IsStepOf(a, t) && !a.spurious && PcAt(s, t).PushLink? && !PcAt(Next(s, a), t).PushSwing?
    requires PcAt(s, t).last.Ptr? && PcAt(s, t).last.addr in s.heap
    ensures !s.heap[PcAt(s, t).last.addr].next.Null?
  {
  }

  function Newest(nodes: seq<Ptr>): Ptr {
    if nodes == [] then Null else nodes[|nodes| - 1]
  }

  lemma SawNewest(threads: nat, run: seq<State>, acts: seq<Action>, t: nat, l: nat)
    requires IsRun(threads, run, acts) && l < |acts|
    requires StartsLink(run, acts, t, l) && PcAt(run[l + 1], t).PushLink?
    ensures PcAt(run[l + 1], t).last == Newest(NodesAt(threads, run, acts, l))
  {
    RunKeepsInv(threads, run, acts, l);
    HeldLast(run[l], HistoryAt(threads, run, acts, l), t);
    RunStep(threads, run, acts, l);
    NextWasNull(run[l], acts[l], t);
  }

  lemma NotNewestNow(threads: nat, run: seq<State>, acts: seq<Action>, t: nat, i: nat)
    requires IsRun(threads, run, acts) && i < |acts|
    requires PcAt(run[i], t).PushLink? && IsStepOf(acts[i], t) && !acts[i].spurious && !PcAt(run[i + 1], t).PushSwing?
    ensures PcAt(run[i], t).last != Newest(NodesAt(threads, run, acts, i))
  {
    RunKeepsInv(threads, run, acts, i);
    HeldLast(run[i], HistoryAt(threads, run, acts, i), t);
    RunStep(threads, run, acts, i);
    LinkCasFails(run[i], acts[i], t);
  }

  lemma NewestOfPrefix(nodes: seq<Ptr>, nodes': seq<Ptr>)
    requires nodes <= nodes' && Newest(nodes) != Newest(nodes')
    ensures |nodes| < |nodes'|
  {
  }

  lemma NewestMoves(threads: nat, run: seq<State>, acts: seq<Action>, l: nat, i: nat)
    requires IsRun(threads, run, acts) && l <= i < |run|
    requires Newest(NodesAt(threads, run, acts, l)) != Newest(NodesAt(threads, run, acts, i))
    ensures |Appended(run, acts, l)| < |Appended(run, acts, i)|
  {
    ChainCounts(threads, run, acts, l);
    ChainCounts(threads, run, acts, i);
    NodesKept(threads, run, acts, l, i);
    NewestOfPrefix(NodesAt(threads, run, acts, l), NodesAt(threads, run, acts, i));
  }

  /** When the linking CAS of an attempt fails in step i, and not spuriously, another
      push_back has appended a value since this attempt read next_, which was in step l. */
  lemma FailedPushWasOvertaken(threads: nat, run: seq<State>, acts: seq<Action>, t: nat, i: nat) returns (l: nat)
    requires IsRun(threads, run, acts) && i < |acts|
    requires PcAt(run[i], t).PushLink? && IsStepOf(acts[i], t) && !acts[i].spurious && !PcAt(run[i + 1], t).PushSwing?
    ensures l < i && SameLink(run, acts, t, l, i) && StartsLink(run, acts, t, l)
    ensures |Appended(run, acts, l)| < |Appended(run, acts, i)|
  {
    forall k | 0 <= k < i && PcAt(run[k + 1], t).PushLink? && !StartsLink(run, acts, t, k) ensures PcAt(run[k], t).PushLink? {
      LinkBefore(threads, run, acts, t, k);
    }
    l := PushAttempt(run, acts, t, i);
    SawNewest(threads, run, acts, t, l);
    var seen := LastOf(PcAt(run[l + 1], t));
    forall k | l < k < i && HasLast(run[k], t, seen) ensures HasLast(run[k + 1], t, seen) {
      LastStays(threads, run, acts, t, k, seen);
    }
    LastIsSeen(run, acts, t, l, i, seen);
    NotNewestNow(threads, run, acts, t, i);
    NewestMoves(threads, run, acts, l, i);
  }
}
