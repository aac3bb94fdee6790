/** What holds in every reachable state of the queue machine: no use after release, FIFO
    order of the values, conservation of nodes, and progress of the machine itself. */
module QueueSafety {
  import opened Basics
  import opened QueueMachine
  import opened QueueInvariant
  import opened QueueProof
  import opened QueueMemoryProof
  import opened QueueFlow
  import Ebr

  // ----- the invariant holds in every reachable state -----

  lemma InitInv(threads: nat)
    ensures Inv(Init(threads), InitHistory(threads))
  {
  }

  lemma NextKeepsInv(s: State, h: History, a: Action)
    requires Inv(s, h) && Enabled(s, a)
    ensures Inv(Next(s, a), Extend(s, h, a))
  {
    match a
    case Maintain => MaintainKeepsInv(s, h);
    case CallPop(t) => CallStep(s, h, t, Entering(Popping));
    case CallPush(t, value) => CallStep(s, h, t, Allocating(value));
    case Step(t, spurious, spare) =>
      var pc := s.threads[t].pc;
      if IsLoad(pc) {
        LoadStep(s, h, t);
        ObserveLoad(s, h, t, SetPc(s, t, AfterLoad(s, pc)));
      } else if IsTailCas(pc) {
        TailCasStep(s, h, t, spurious);
      } else {
        match pc
        case Allocating(_) => AllocateStep(s, h, t, spare);
        case Entering(_) => EnterKeepsInv(s, h, t, spurious);
        case Exiting(_) => ExitKeepsInv(s, h, t, spurious);
        case PushLink(_, _, _) => LinkCasStep(s, h, t, spurious);
        case PopSwing(_, _, _) => HeadCasStep(s, h, t);
        case PopRetire(_, _) => RetireStep(s, h, t);
        case Reclaim(_, _) => ReclaimKeepsInv(s, h, t);
        case Batch(_, _, _) => BatchKeepsInv(s, h, t);
      }
  }

  lemma CallStep(s: State, h: History, t: nat, pc: Pc)
    requires Inv(s, h) && t < |s.threads| && s.threads[t].pc.Idle?
    requires pc == Entering(Popping) || pc.Allocating?
    ensures Inv(SetPc(s, t, pc), h)
  {
    var thread := s.threads[t];
    assert ThreadOk(s, h, t);
    CacheUntouched(thread.pc, pc, thread.cacheHead, thread.cacheCount, h.cache[t], t, h.loc);
    LocalStep(s, h, t, pc);
  }

  lemma ObserveLoad(s: State, h: History, t: nat, s': State)
    requires Sized(s, h) && t < |s.threads| == |s'.threads| == |s'.ebr.slots|
    requires IsLoad(s.threads[t].pc) && s'.tail == s.tail
    ensures Observe(s, h, t, s') == h
  {
  }

  /** The history recorded along a run, up to state i. */
  ghost function HistoryAt(threads: nat, run: seq<State>, acts: seq<Action>, i: nat): History
    requires i <= |acts| < |run|
  {
    if i == 0 then InitHistory(threads)
    else
      var h := HistoryAt(threads, run, acts, i - 1);
      if Sized(run[i - 1], h) && Enabled(run[i - 1], acts[i - 1]) then Extend(run[i - 1], h, acts[i - 1]) else h
  }

  lemma {:induction false} RunKeepsInv(threads: nat, run: seq<State>, acts: seq<Action>, i: nat)
    requires IsRun(threads, run, acts) && i < |run|
    ensures Inv(run[i], HistoryAt(threads, run, acts, i))
  {
    if i == 0 {
      InitInv(threads);
    } else {
      RunKeepsInv(threads, run, acts, i - 1);
      NextKeepsInv(run[i - 1], HistoryAt(threads, run, acts, i - 1), acts[i - 1]);
    }
  }

  // ----- no use after release -----

  /** The part of the invariant that speaks of one thread and of the nodes. */
  lemma ThreadFacts(threads: nat, run: seq<State>, acts: seq<Action>, i: nat, t: nat)
    requires IsRun(threads, run, acts) && i < |run| && t < |run[i].threads|
    ensures var s, h := run[i], HistoryAt(threads, run, acts, i);
            Sized(s, h) && AddrsOk(s, h) && ThreadOk(s, h, t)
  {
    RunKeepsInv(threads, run, acts, i);
  }

  lemma ReferencesHeld(s: State, h: History, t: nat, k: nat)
    requires Sized(s, h) && t < |s.threads| && ThreadOk(s, h, t) && k < |References(s.threads[t].pc)|
    ensures Holds(h.chain, h.loc, h.entry[t], References(s.threads[t].pc)[k])
  {
  }

  /** In every reachable state every node a thread may still dereference as `first`, `last`
      or `next` is allocated and has not been released. */
  lemma NoUseAfterRelease(threads: nat, run: seq<State>, acts: seq<Action>, i: nat, t: nat, k: nat)
    requires IsRun(threads, run, acts) && i < |run|
    requires t < |run[i].threads| && k < |References(run[i].threads[t].pc)|
    ensures var p := References(run[i].threads[t].pc)[k];
            p.Ptr? && p.addr in run[i].heap && !run[i].heap[p.addr].released
  {
    var s, h := run[i], HistoryAt(threads, run, acts, i);
    ThreadFacts(threads, run, acts, i, t);
    ReferencesHeld(s, h, t, k);
    HeldNode(s, h, h.entry[t], References(s.threads[t].pc)[k]);
  }

  lemma NotItself(s: State, h: History, t: nat)
    requires Sized(s, h) && t < |s.threads| && ThreadOk(s, h, t)
    ensures var pc := s.threads[t].pc;
            && (pc.PopSwing? ==> pc.first.Ptr? && pc.next.Ptr? && pc.first.addr != pc.next.addr)
            && (pc.PushSwing? ==> pc.last.Ptr? && pc.node.Ptr? && pc.last.addr != pc.node.addr)
            && (pc.PopRetire? ==> s.ebr.slots[t].pc.Inside?)
  {
  }

  /** The other asserts hold too: no node is linked behind itself, and retire is called inside
      an epoch only. */
  lemma AssertsHold(threads: nat, run: seq<State>, acts: seq<Action>, i: nat, t: nat)
    requires IsRun(threads, run, acts) && i < |run| && t < |run[i].threads| == |run[i].ebr.slots|
    ensures var pc := run[i].threads[t].pc;
            && (pc.PopSwing? ==> pc.first.Ptr? && pc.next.Ptr? && pc.first.addr != pc.next.addr)
            && (pc.PushSwing? ==> pc.last.Ptr? && pc.node.Ptr? && pc.last.addr != pc.node.addr)
            && (pc.PopRetire? ==> run[i].ebr.slots[t].status.active)
  {
    var s, h := run[i], HistoryAt(threads, run, acts, i);
    ThreadFacts(threads, run, acts, i, t);
    NotItself(s, h, t);
    assert Ebr.SlotOk(s.ebr, s.ebr.slots[t]) by { RunKeepsInv(threads, run, acts, i); }
  }

  /** A thread that is not idle can always make its next step. */
  lemma ThreadNeverStuck(threads: nat, run: seq<State>, acts: seq<Action>, i: nat, t: nat, spurious: bool, spare: nat)
    requires IsRun(threads, run, acts) && i < |run|
    requires t < |run[i].threads| && !run[i].threads[t].pc.Idle? && spare !in run[i].heap
    ensures Enabled(run[i], Step(t, spurious, spare))
  {
    RunKeepsInv(threads, run, acts, i);
    assert ThreadOk(run[i], HistoryAt(threads, run, acts, i), t);
  }

  // ----- the queue in memory -----

  /** Following `next` from the dummy node p yields exactly the values q, then null. */
  predicate IsList(heap: map<nat, Node>, p: Ptr, q: seq<nat>)
    decreases |q|
  {
    && p.Ptr? && p.addr in heap
    && var next := heap[p.addr].next;
       if q == [] then next.Null?
       else next.Ptr? && next.addr in heap && heap[next.addr].value == q[0] && IsList(heap, next, q[1..])
  }

  /** Memory determines the contents. */
  lemma {:induction false} ListIsUnique(heap: map<nat, Node>, p: Ptr, q: seq<nat>, r: seq<nat>)
    requires IsList(heap, p, q) && IsList(heap, p, r)
    ensures q == r
    decreases |q|
  {
    if q != [] && r != [] {
      ListIsUnique(heap, heap[p.addr].next, q[1..], r[1..]);
    }
  }

  lemma {:induction false} ChainIsList(s: State, h: History, k: nat)
    requires Inv(s, h) && h.chain.head <= k < |h.chain.nodes|
    ensures IsList(s.heap, h.chain.nodes[k], h.chain.values[k + 1..])
    decreases |h.chain.nodes| - k
  {
    assert AddrOk(s, h, h.chain.nodes[k].addr);
    if k + 1 < |h.chain.nodes| {
      assert AddrOk(s, h, h.chain.nodes[k + 1].addr);
      ChainIsList(s, h, k + 1);
      assert h.chain.values[k + 1..][1..] == h.chain.values[k + 2..];
    }
  }

  // ----- linearisation points -----

  /** The values appended by successful linking CASes in the first i steps. */
  ghost function Appended(run: seq<State>, acts: seq<Action>, i: nat): seq<nat>
    requires i <= |acts| < |run|
  {
    if i == 0 then []
    else
      Appended(run, acts, i - 1) + (if Appends(run[i - 1], run[i], acts[i - 1]) then [run[i - 1].threads[acts[i - 1].t].pc.value] else [])
  }

  predicate Appends(s: State, s': State, a: Action) {
    a.Step? && a.t < |s.threads| && a.t < |s'.threads| && s.threads[a.t].pc.PushLink? && s'.threads[a.t].pc.PushSwing?
  }

  /** The values removed by successful head CASes in the first i steps. */
  ghost function Removed(run: seq<State>, acts: seq<Action>, i: nat): seq<nat>
    requires i <= |acts| < |run|
  {
    if i == 0 then []
    else
      Removed(run, acts, i - 1) + (if Removes(run[i - 1], run[i], acts[i - 1]) then [run[i].threads[acts[i - 1].t].pc.value] else [])
  }

  predicate Removes(s: State, s': State, a: Action) {
    a.Step? && a.t < |s.threads| && a.t < |s'.threads| && s.threads[a.t].pc.PopSwing? && s'.threads[a.t].pc.PopRetire?
  }

  lemma HeadCasValue(s: State, a: Action)
    requires Enabled(s, a) && a.Step? && s.threads[a.t].pc.PopSwing? && Next(s, a).threads[a.t].pc.PopRetire?
    ensures Next(s, a).threads[a.t].pc.value == s.threads[a.t].pc.value
  {
  }

  lemma StepChain(s: State, h: History, t: nat, s': State)
    requires Sized(s, h) && t < |s.threads| == |s'.threads| == |s'.ebr.slots| && ThreadOk(s, h, t)
    ensures var h', pc, pc' := Observe(s, h, t, s'), s.threads[t].pc, s'.threads[t].pc;
            && h'.chain.values == h.chain.values + (if pc.PushLink? && pc'.PushSwing? then [pc.value] else [])
            && h'.delivered == h.delivered + (if pc.PopSwing? && pc'.PopRetire? then [pc.value] else [])
  {
    match s.threads[t].pc
    case PushLink(_, _, _) =>
    case PopSwing(_, _, _) =>
    case _ =>
  }

  /** How one step changes the values ever linked and the values ever taken. */
  lemma StepRefines(s: State, h: History, a: Action)
    requires Sized(s, h) && Enabled(s, a) && ThreadsOk(s, h) && Sized(Next(s, a), Extend(s, h, a))
    requires |Next(s, a).threads| == |s.threads|
    ensures var s', h' := Next(s, a), Extend(s, h, a);
            && h'.chain.values == h.chain.values + (if Appends(s, s', a) then [s.threads[a.t].pc.value] else [])
            && h'.delivered == h.delivered + (if Removes(s, s', a) then [s'.threads[a.t].pc.value] else [])
  {
    if a.Step? {
      assert ThreadOk(s, h, a.t);
      StepChain(s, h, a.t, Next(s, a));
      if Removes(s, Next(s, a), a) {
        HeadCasValue(s, a);
      }
    }
  }

  /** What the invariant says about the chain alone. */
  lemma ChainFacts(s: State, h: History)
    requires Inv(s, h)
    ensures IsChain(h.chain) && h.delivered == h.chain.values[1..h.chain.head + 1]
    ensures s.head == h.chain.nodes[h.chain.head] && s.tail == h.chain.nodes[h.chain.tail]
    ensures IsList(s.heap, s.head, Contents(h.chain))
    ensures IsList(s.heap, s.tail, h.chain.values[h.chain.tail + 1..])
  {
    ChainIsList(s, h, h.chain.head);
    ChainIsList(s, h, h.chain.tail);
  }

  lemma TraceStep(threads: nat, run: seq<State>, acts: seq<Action>, i: nat)
    requires IsRun(threads, run, acts) && 0 < i < |run|
    ensures var h, h' := HistoryAt(threads, run, acts, i - 1), HistoryAt(threads, run, acts, i);
            var s, s', a := run[i - 1], run[i], acts[i - 1];
            && h'.chain.values == h.chain.values + (if Appends(s, s', a) then [s.threads[a.t].pc.value] else [])
            && h'.delivered == h.delivered + (if Removes(s, s', a) then [s'.threads[a.t].pc.value] else [])
  {
    var h := HistoryAt(threads, run, acts, i - 1);
    assert Sized(run[i - 1], h) && ThreadsOk(run[i - 1], h) by { RunKeepsInv(threads, run, acts, i - 1); }
    assert Sized(run[i], HistoryAt(threads, run, acts, i)) by { RunKeepsInv(threads, run, acts, i); }
    ThreadCountKept(run[i - 1], acts[i - 1]);
    StepRefines(run[i - 1], h, acts[i - 1]);
  }

  lemma {:induction false} TracesMatch(threads: nat, run: seq<State>, acts: seq<Action>, i: nat)
    requires IsRun(threads, run, acts) && i < |run|
    ensures var h := HistoryAt(threads, run, acts, i);
            h.chain.values == [0] + Appended(run, acts, i) && h.delivered == Removed(run, acts, i)
  {
    if i > 0 {
      TracesMatch(threads, run, acts, i - 1);
      TraceStep(threads, run, acts, i);
    }
  }

  lemma Split(c: Chain)
    requires IsChain(c)
    ensures c.values[1..] == c.values[1..c.head + 1] + Contents(c)
  {
  }

  lemma SuffixIsUnique(p: seq<nat>, q: seq<nat>, r: seq<nat>)
    ensures p + q == p + r <==> q == r
  {
    assert (p + q)[|p|..] == q && (p + r)[|p|..] == r;
  }

  lemma ContentsAre(heap: map<nat, Node>, head: Ptr, c: Chain, removed: seq<nat>, appended: seq<nat>, contents: seq<nat>)
    requires IsChain(c) && IsList(heap, head, Contents(c))
    requires removed == c.values[1..c.head + 1] && c.values == [0] + appended
    ensures IsList(heap, head, contents) <==> removed + contents == appended
  {
    Split(c);
    assert appended == c.values[1..];
    if IsList(heap, head, contents) {
      ListIsUnique(heap, head, contents, Contents(c));
    }
    SuffixIsUnique(removed, contents, Contents(c));
  }

  /** FIFO order and conservation of values. In every reachable state the list that starts
      at head_ holds exactly the values appended so far minus those removed so far, and the
      removed ones are the oldest, in the order in which they were appended. */
  lemma FifoOrder(threads: nat, run: seq<State>, acts: seq<Action>, i: nat, contents: seq<nat>)
    requires IsRun(threads, run, acts) && i < |run|
    ensures IsList(run[i].heap, run[i].head, contents)
       <==> Removed(run, acts, i) + contents == Appended(run, acts, i)
  {
    var h := HistoryAt(threads, run, acts, i);
    assert IsChain(h.chain) && h.delivered == h.chain.values[1..h.chain.head + 1]
        && IsList(run[i].heap, run[i].head, Contents(h.chain)) by {
      RunKeepsInv(threads, run, acts, i);
      ChainFacts(run[i], h);
    }
    TracesMatch(threads, run, acts, i);
    ContentsAre(run[i].heap, run[i].head, h.chain, Removed(run, acts, i), Appended(run, acts, i), contents);
  }

  /** tail_ points into the list that starts at head_, to its last or second last node. */
  lemma TailNearEnd(threads: nat, run: seq<State>, acts: seq<Action>, i: nat, contents: seq<nat>)
    requires IsRun(threads, run, acts) && i < |run| && IsList(run[i].heap, run[i].head, contents)
    ensures exists skip: nat | skip <= |contents| <= skip + 1 :: IsList(run[i].heap, run[i].tail, contents[skip..])
  {
    var h := HistoryAt(threads, run, acts, i);
    assert IsChain(h.chain) && IsList(run[i].heap, run[i].head, Contents(h.chain))
        && IsList(run[i].heap, run[i].tail, h.chain.values[h.chain.tail + 1..]) by {
      RunKeepsInv(threads, run, acts, i);
      ChainFacts(run[i], h);
    }
    ListIsUnique(run[i].heap, run[i].head, contents, Contents(h.chain));
    var skip := h.chain.tail - h.chain.head;
    assert contents[skip..] == h.chain.values[h.chain.tail + 1..];
  }

  /** pop_front answers "empty" only on the strength of a load of next_ in a state in which
      the queue is empty. */
  lemma EmptyAnswerIsTrue(threads: nat, run: seq<State>, acts: seq<Action>, i: nat, t: nat)
    requires IsRun(threads, run, acts) && i < |run|
    requires t < |run[i].threads| && run[i].threads[t].pc.PopNext?
    ensures AfterLoad(run[i], run[i].threads[t].pc) == Exiting(Finish(Empty)) ==> IsList(run[i].heap, run[i].head, [])
  {
    var s, h := run[i], HistoryAt(threads, run, acts, i);
    RunKeepsInv(threads, run, acts, i);
    assert ThreadOk(s, h, t);
    InsideIsActive(s, h, t);
    NextHeld(s, h, t, s.threads[t].pc.first);
    if AfterLoad(s, s.threads[t].pc) == Exiting(Finish(Empty)) {
      assert h.chain.head == |h.chain.nodes| - 1;
      ChainIsList(s, h, h.chain.head);
      assert Contents(h.chain) == [];
    }
  }

  // ----- conservation of nodes -----

  datatype Place =
    | InChain(p: nat)
    | InHand(t: nat)              // carried by a push, not linked yet
    | BeingRetired(t: nat)        // unlinked, about to be retired
    | InRetireList(t: nat, i: nat)
    | InCache(t: nat, i: nat)

  /** Node a is at the given place. */
  predicate At(s: State, h: History, a: nat, place: Place)
    requires Sized(s, h)
  {
    match place
    case InChain(p) => h.chain.head <= p < |h.chain.nodes| && h.chain.nodes[p].Ptr? && h.chain.nodes[p].addr == a
    case InHand(t) => t < |s.threads| && Carries(s.threads[t].pc, a)
    case BeingRetired(t) =>
      t < |s.threads| && s.threads[t].pc.PopRetire? && s.threads[t].pc.first.Ptr? && s.threads[t].pc.first.addr == a
    case InRetireList(t, i) =>
      && t < |s.threads| && i < |s.threads[t].retired|
      && s.threads[t].retired[i].ptr.Ptr? && s.threads[t].retired[i].ptr.addr == a
    case InCache(t, i) => t < |s.threads| && i < |h.cache[t]| && h.cache[t][i].Ptr? && h.cache[t][i].addr == a
  }

  function PlaceOf(s: State, h: History, a: nat): Place
    requires Sized(s, h) && AddrsOk(s, h) && a in h.loc
  {
    assert AddrOk(s, h, a);
    match h.loc[a]
    case Private(t) => InHand(t)
    case Linked(p) => InChain(p)
    case Popped(t, p) =>
      if p in h.retired[t] then InRetireList(t, IndexOf(h.retired[t], p)) else BeingRetired(t)
    case Cached(t, i) => InCache(t, i)
  }

  function IndexOf(s: seq<nat>, x: nat): (i: nat)
    requires x in s
    ensures i < |s| && s[i] == x
  {
    if s[0] == x then 0 else 1 + IndexOf(s[1..], x)
  }

  lemma PlaceIsReal(s: State, h: History, a: nat)
    requires Inv(s, h) && a in s.heap
    ensures At(s, h, a, PlaceOf(s, h, a))
  {
    assert AddrOk(s, h, a);
    match h.loc[a]
    case Popped(t, p) =>
      assert ThreadOk(s, h, t);
      if p in h.retired[t] {
        var i := IndexOf(h.retired[t], p);
        assert RecordOk(s.threads[t].retired[i], h.retired[t][i], t, h.chain, h.loc, s.ebr.global);
      }
    case _ =>
  }

  lemma PlaceInRetireList(s: State, h: History, a: nat, t: nat, i: nat)
    requires Inv(s, h) && At(s, h, a, InRetireList(t, i))
    ensures a in s.heap && InRetireList(t, i) == PlaceOf(s, h, a)
  {
    assert ThreadOk(s, h, t);
    assert RecordOk(s.threads[t].retired[i], h.retired[t][i], t, h.chain, h.loc, s.ebr.global);
    var j := IndexOf(h.retired[t], h.retired[t][i]);
    assert i < j || j < i || i == j;
  }

  lemma PlaceInChain(s: State, h: History, a: nat, p: nat)
    requires Sized(s, h) && AddrsOk(s, h) && ChainOk(s, h) && At(s, h, a, InChain(p))
    ensures a in s.heap && InChain(p) == PlaceOf(s, h, a)
  {
  }

  lemma PlaceWithThread(s: State, h: History, a: nat, t: nat, place: Place)
    requires Sized(s, h) && AddrsOk(s, h) && t < |s.threads| && ThreadOk(s, h, t) && At(s, h, a, place)
    requires place == InHand(t) || place == BeingRetired(t) || (place.InCache? && place.t == t)
    ensures a in s.heap && place == PlaceOf(s, h, a)
  {
  }

  lemma PlaceIsOnlyOne(s: State, h: History, a: nat, place: Place)
    requires Inv(s, h) && At(s, h, a, place)
    ensures a in s.heap && place == PlaceOf(s, h, a)
  {
    match place
    case InChain(p) => PlaceInChain(s, h, a, p);
    case InHand(t) => PlaceWithThread(s, h, a, t, place);
    case BeingRetired(t) => PlaceWithThread(s, h, a, t, place);
    case InRetireList(t, i) => PlaceInRetireList(s, h, a, t, i);
    case InCache(t, i) => PlaceWithThread(s, h, a, t, place);
  }

  /** In every reachable state every allocated node is at exactly one place, so no node is
      retired twice, freed twice or lost, and nothing that is not allocated is at any place. */
  lemma NodesAreConserved(threads: nat, run: seq<State>, acts: seq<Action>, i: nat, a: nat)
    requires IsRun(threads, run, acts) && i < |run|
    ensures var s, h := run[i], HistoryAt(threads, run, acts, i);
            && Sized(s, h)
            && (a in s.heap <==> exists place :: At(s, h, a, place))
            && (forall place, other :: At(s, h, a, place) && At(s, h, a, other) ==> place == other)
  {
    var s, h := run[i], HistoryAt(threads, run, acts, i);
    RunKeepsInv(threads, run, acts, i);
    if a in s.heap {
      PlaceIsReal(s, h, a);
    }
    forall place | At(s, h, a, place) ensures a in s.heap && place == PlaceOf(s, h, a) {
      PlaceIsOnlyOne(s, h, a, place);
    }
  }

  /** The cache list that starts at p, following next_, has the n nodes of `cells`. */
  predicate IsStack(heap: map<nat, Node>, p: Ptr, cells: seq<Ptr>)
    decreases |cells|
  {
    if cells == [] then p.Null?
    else
      && p == cells[|cells| - 1] && p.Ptr? && p.addr in heap && heap[p.addr].released
      && IsStack(heap, heap[p.addr].next, cells[..|cells| - 1])
  }

  lemma CellIs(s: State, h: History, t: nat, i: nat)
    requires Sized(s, h) && t < |s.threads| && i < |h.cache[t]|
    requires var p := h.cache[t][i]; p.Ptr? && p.addr in h.loc && h.loc[p.addr] == Cached(t, i) && AddrOk(s, h, p.addr)
    ensures var p := h.cache[t][i];
            && p.addr in s.heap && s.heap[p.addr].released
            && s.heap[p.addr].next == if i == 0 then Null else h.cache[t][i - 1]
  {
  }

  lemma CellInCache(s: State, h: History, t: nat, i: nat)
    requires Sized(s, h) && t < |s.threads| && ThreadOk(s, h, t) && i < |h.cache[t]|
    ensures var p := h.cache[t][i]; p.Ptr? && p.addr in h.loc && h.loc[p.addr] == Cached(t, i)
  {
  }

  lemma {:induction false} CellsAreStack(s: State, h: History, t: nat, n: nat)
    requires Sized(s, h) && AddrsOk(s, h) && t < |s.threads| && ThreadOk(s, h, t) && n <= |h.cache[t]|
    ensures IsStack(s.heap, if n == 0 then Null else h.cache[t][n - 1], h.cache[t][..n])
  {
    if n > 0 {
      CellInCache(s, h, t, n - 1);
      CellIs(s, h, t, n - 1);
      CellsAreStack(s, h, t, n - 1);
      assert h.cache[t][..n][..n - 1] == h.cache[t][..n - 1];
    }
  }

  lemma CacheShape(s: State, h: History, t: nat)
    requires Sized(s, h) && t < |s.threads| && ThreadOk(s, h, t)
    ensures s.threads[t].cacheHead == if h.cache[t] == [] then Null else h.cache[t][|h.cache[t]| - 1]
    ensures s.threads[t].cacheCount == |h.cache[t]| <= CACHE_COUNT
    ensures !s.threads[t].pc.Batch? ==> s.threads[t].cacheCount < CACHE_COUNT
  {
  }

  lemma CacheIsList(s: State, h: History, t: nat)
    requires Sized(s, h) && AddrsOk(s, h) && t < |s.threads| && ThreadOk(s, h, t)
    ensures IsStack(s.heap, s.threads[t].cacheHead, h.cache[t])
    ensures s.threads[t].cacheCount == |h.cache[t]| <= CACHE_COUNT
    ensures !s.threads[t].pc.Batch? ==> s.threads[t].cacheCount < CACHE_COUNT
  {
    CacheShape(s, h, t);
    CellsAreStack(s, h, t, |h.cache[t]|);
    assert h.cache[t][..|h.cache[t]|] == h.cache[t];
  }

  /** A thread's cache is the list its head points to, count_ is its length, and outside
      batch_release it is below the limit. */
  lemma CachesAreLists(threads: nat, run: seq<State>, acts: seq<Action>, i: nat, t: nat)
    requires IsRun(threads, run, acts) && i < |run| && t < |run[i].threads|
    ensures var s, h := run[i], HistoryAt(threads, run, acts, i);
            && t < |h.cache| && IsStack(s.heap, s.threads[t].cacheHead, h.cache[t])
            && s.threads[t].cacheCount == |h.cache[t]| <= CACHE_COUNT
            && (!s.threads[t].pc.Batch? ==> s.threads[t].cacheCount < CACHE_COUNT)
  {
    ThreadFacts(threads, run, acts, i, t);
    CacheIsList(run[i], HistoryAt(threads, run, acts, i), t);
  }

  // ----- reclamation -----

  /** Retire lists are sorted by epoch, so when the front-only loop of exit_epoch stops, no
      record at or below the loaded gc_epoch_ is left anywhere in the list. */
  lemma ReclaimIsComplete(threads: nat, run: seq<State>, acts: seq<Action>, i: nat, t: nat)
    requires IsRun(threads, run, acts) && i < |run|
    requires t < |run[i].threads| && run[i].threads[t].pc.Reclaim? && !CanRelease(run[i].threads[t])
    ensures forall k | 0 <= k < |run[i].threads[t].retired| ::
              run[i].threads[t].retired[k].epoch > run[i].threads[t].pc.gc
  {
    var s, h := run[i], HistoryAt(threads, run, acts, i);
    RunKeepsInv(threads, run, acts, i);
    assert ThreadOk(s, h, t);
    forall k | 0 <= k < |s.threads[t].retired| ensures s.threads[t].retired[k].epoch > s.threads[t].pc.gc {
      assert s.threads[t].retired[0].epoch <= s.threads[t].retired[k].epoch;
    }
  }

}
