/** Whole calls of exit_epoch: which retired nodes they hand to the cache, and how nodes come
    back from there. */
module QueueReclaim {
  import opened Basics
  import opened QueueMachine
  import opened QueueInvariant
  import opened QueueFlow
  import opened QueueSafety

  function RetiredAt(s: State, t: nat): seq<Record> {
    if t < |s.threads| then s.threads[t].retired else []
  }

  predicate InLoop(pc: Pc) {
    pc.Reclaim? || pc.Batch?
  }

  predicate AllUpTo(records: seq<Record>, gc: int) {
    forall r | r in records :: r.epoch <= gc
  }

  predicate AllAbove(records: seq<Record>, gc: int) {
    forall r | r in records :: r.epoch > gc
  }

  /** `now` is `before` without a front part, all of it at or below gc. */
  predicate FrontIsGone(before: seq<Record>, now: seq<Record>, gc: int) {
    && |now| <= |before|
    && now == before[|before| - |now|..]
    && AllUpTo(before[..|before| - |now|], gc)
  }

  lemma RunStep(threads: nat, run: seq<State>, acts: seq<Action>, k: nat)
    requires IsRun(threads, run, acts) && k < |acts|
    ensures Enabled(run[k], acts[k]) && run[k + 1] == Next(run[k], acts[k])
  {
  }

  predicate IsStepOf(a: Action, t: nat) {
    a.Step? && a.t == t
  }

  /** A thread in the loop is only changed by its own steps. */
  lemma LoopStays(s: State, a: Action, t: nat)
    requires Enabled(s, a) && InLoop(PcAt(s, t)) && !IsStepOf(a, t)
    ensures PcAt(Next(s, a), t) == PcAt(s, t) && RetiredAt(Next(s, a), t) == RetiredAt(s, t)
  {
    ActionLeads(s, a, t);
    OthersUntouched(s, a, t);
  }

  /** A step of the loop keeps the list, or drops a first record at or below gc. */
  lemma LoopStep(s: State, a: Action, t: nat)
    requires Enabled(s, a) && InLoop(PcAt(s, t)) && IsStepOf(a, t)
    ensures var pc, now, now' := PcAt(s, t), RetiredAt(s, t), RetiredAt(Next(s, a), t);
            now' == now || (now != [] && now' == now[1..] && now[0].epoch <= pc.gc)
    ensures InLoop(PcAt(Next(s, a), t)) ==> PcAt(Next(s, a), t).gc == PcAt(s, t).gc
  {
  }

  /** The step that leaves the loop finds no first record at or below gc. */
  lemma LoopExit(s: State, a: Action, t: nat)
    requires Enabled(s, a) && InLoop(PcAt(s, t)) && !InLoop(PcAt(Next(s, a), t))
    ensures RetiredAt(Next(s, a), t) == RetiredAt(s, t) && PcAt(s, t).Reclaim?
    ensures RetiredAt(s, t) != [] ==> RetiredAt(s, t)[0].epoch > PcAt(s, t).gc
  {
    if !IsStepOf(a, t) {
      LoopStays(s, a, t);
    }
  }

  /** When exit_epoch is done, no record at or below the gc_epoch_ it read is left anywhere in
      the retire list. */
  lemma ReclaimLeavesNone(threads: nat, run: seq<State>, acts: seq<Action>, i: nat, t: nat)
    requires IsRun(threads, run, acts) && i < |acts|
    requires PcAt(run[i], t).Reclaim? && !InLoop(PcAt(run[i + 1], t))
    ensures AllAbove(RetiredAt(run[i + 1], t), PcAt(run[i], t).gc)
  {
    RunStep(threads, run, acts, i);
    LoopExit(run[i], acts[i], t);
    ReclaimIsComplete(threads, run, acts, i, t);
  }

  // ----- from the load of gc_epoch_ to the end of the loop -----

  lemma FrontGrows(before: seq<Record>, now: seq<Record>, gc: int)
    requires FrontIsGone(before, now, gc) && now != [] && now[0].epoch <= gc
    ensures FrontIsGone(before, now[1..], gc)
  {
    var n := |before| - |now|;
    assert before[..n + 1] == before[..n] + [now[0]];
  }

  /** In the loop with the gc_epoch_ that was loaded, records gone from the front only. */
  predicate Reclaiming(s: State, t: nat, before: seq<Record>, gc: int) {
    InLoop(PcAt(s, t)) && PcAt(s, t).gc == gc && FrontIsGone(before, RetiredAt(s, t), gc)
  }

  lemma ReclaimStarts(threads: nat, run: seq<State>, acts: seq<Action>, l: nat, t: nat)
    requires IsRun(threads, run, acts) && l < |acts|
    requires PcAt(run[l], t).LoadGc? && InLoop(PcAt(run[l + 1], t))
    ensures Reclaiming(run[l + 1], t, RetiredAt(run[l], t), run[l].ebr.gc)
  {
    RunStep(threads, run, acts, l);
    ActionLeads(run[l], acts[l], t);
    assert RetiredAt(run[l], t)[0..] == RetiredAt(run[l], t);
  }

  lemma ReclaimGoesOn(threads: nat, run: seq<State>, acts: seq<Action>, k: nat, t: nat, before: seq<Record>, gc: int)
    requires IsRun(threads, run, acts) && k < |acts| && Reclaiming(run[k], t, before, gc)
    requires InLoop(PcAt(run[k + 1], t))
    ensures Reclaiming(run[k + 1], t, before, gc)
  {
    RunStep(threads, run, acts, k);
    if IsStepOf(acts[k], t) {
      LoopStep(run[k], acts[k], t);
      if RetiredAt(run[k + 1], t) != RetiredAt(run[k], t) {
        FrontGrows(before, RetiredAt(run[k], t), gc);
      }
    } else {
      LoopStays(run[k], acts[k], t);
    }
  }

  lemma {:induction false} ReclaimsFront(threads: nat, run: seq<State>, acts: seq<Action>, l: nat, k: nat, t: nat)
    requires IsRun(threads, run, acts) && l < k < |run| && PcAt(run[l], t).LoadGc?
    requires forall m | l < m <= k :: InLoop(PcAt(run[m], t))
    ensures Reclaiming(run[k], t, RetiredAt(run[l], t), run[l].ebr.gc)
  {
    if k == l + 1 {
      ReclaimStarts(threads, run, acts, l, t);
    } else {
      ReclaimsFront(threads, run, acts, l, k - 1, t);
      ReclaimGoesOn(threads, run, acts, k - 1, t, RetiredAt(run[l], t), run[l].ebr.gc);
    }
  }

  /** From the load of gc_epoch_ in step l to the end of the loop in step i, exit_epoch takes
      exactly the records at or below the epoch it read out of the retire list: they are a
      front part of it, and the rest is left as it was. */
  lemma ReclaimTakesPrefix(threads: nat, run: seq<State>, acts: seq<Action>, l: nat, i: nat, t: nat)
    requires IsRun(threads, run, acts) && l < i < |acts|
    requires PcAt(run[l], t).LoadGc? && (forall m | l < m <= i :: InLoop(PcAt(run[m], t)))
    requires !InLoop(PcAt(run[i + 1], t))
    ensures FrontIsGone(RetiredAt(run[l], t), RetiredAt(run[i + 1], t), run[l].ebr.gc)
    ensures AllAbove(RetiredAt(run[i + 1], t), run[l].ebr.gc)
  {
    ReclaimsFront(threads, run, acts, l, i, t);
    RunStep(threads, run, acts, i);
    LoopExit(run[i], acts[i], t);
    ReclaimLeavesNone(threads, run, acts, i, t);
  }

  // ----- emptying half the cache -----

  function CacheCountAt(s: State, t: nat): int {
    if t < |s.threads| then s.threads[t].cacheCount else 0
  }

  lemma BatchCount(s: State, h: History, t: nat)
    requires Sized(s, h) && t < |s.threads| && ThreadOk(s, h, t) && s.threads[t].pc.Batch?
    ensures s.threads[t].cacheCount == CACHE_COUNT - BATCH_RELEASE_COUNT + s.threads[t].pc.left
    ensures s.threads[t].cacheHead.Null? ==> s.threads[t].cacheCount == 0
  {
  }

  lemma BatchExit(s: State, a: Action, t: nat)
    requires Enabled(s, a) && PcAt(s, t).Batch? && !PcAt(Next(s, a), t).Batch?
    ensures CacheCountAt(Next(s, a), t) == CacheCountAt(s, t) && (PcAt(s, t).left == 0 || s.threads[t].cacheHead.Null?)
  {
    if !IsStepOf(a, t) {
      LoopStays(s, a, t);
    }
  }

  lemma BatchEntry(s: State, a: Action, t: nat)
    requires Enabled(s, a) && !PcAt(s, t).Batch? && PcAt(Next(s, a), t).Batch?
    ensures PcAt(s, t).Reclaim? && CacheCountAt(Next(s, a), t) >= CACHE_COUNT
  {
    ActionLeads(s, a, t);
  }

  /** batch_release starts at a full cache, and when it is done exactly as many nodes are gone
      as it is to release. */
  lemma BatchEmptiesHalf(threads: nat, run: seq<State>, acts: seq<Action>, i: nat, t: nat)
    requires IsRun(threads, run, acts) && i < |acts|
    ensures !PcAt(run[i], t).Batch? && PcAt(run[i + 1], t).Batch? ==> CacheCountAt(run[i + 1], t) == CACHE_COUNT
    ensures PcAt(run[i], t).Batch? && !PcAt(run[i + 1], t).Batch? ==>
              CacheCountAt(run[i + 1], t) == CACHE_COUNT - BATCH_RELEASE_COUNT
  {
    RunStep(threads, run, acts, i);
    if PcAt(run[i], t).Batch? && !PcAt(run[i + 1], t).Batch? {
      BatchExit(run[i], acts[i], t);
      ThreadFacts(threads, run, acts, i, t);
      BatchCount(run[i], HistoryAt(threads, run, acts, i), t);
    } else if !PcAt(run[i], t).Batch? && PcAt(run[i + 1], t).Batch? {
      BatchEntry(run[i], acts[i], t);
      CachesAreLists(threads, run, acts, i + 1, t);
    }
  }

  // ----- where nodes come from -----

  function Top(cells: seq<Ptr>): Ptr {
    if cells == [] then Null else cells[|cells| - 1]
  }

  /** The node is the top of the cache, which loses it, and with an empty cache a new one. Its
      tag is one above the tag the node had. */
  predicate Takes(node: Ptr, cells: seq<Ptr>, cells': seq<Ptr>, addrs: set<nat>, addrs': set<nat>) {
    match Top(cells)
    case Ptr(addr, tag) => node == Ptr(addr, (tag + 1) % TAG_LIMIT) && cells == cells' + [Ptr(addr, tag)] && addrs' == addrs
    case Null => node.Ptr? && node.addr !in addrs && node.tag == 1 && cells' == cells && addrs' == addrs + {node.addr}
  }

  lemma AllocateTakes(s: State, t: nat, spare: nat)
    requires CanAllocate(s, t, spare)
    requires s.threads[t].cacheHead.Ptr? ==> s.threads[t].cacheHead.addr in s.heap
    ensures var s', top := Allocate(s, t, spare), s.threads[t].cacheHead;
            && s'.threads[t].pc.Entering? && s'.threads[t].pc.job.Pushing?
            && s'.threads[t].pc.job.node == (if top.Ptr? then Ptr(top.addr, (top.tag + 1) % TAG_LIMIT) else Ptr(spare, 1))
            && s'.heap.Keys == s.heap.Keys + (if top.Ptr? then {} else {spare})
            && |s'.threads| == |s.threads| && |s'.ebr.slots| == |s.ebr.slots|
  {
  }

  lemma ObserveAllocate(s: State, h: History, t: nat, s': State)
    requires Sized(s, h) && t < |s.threads| == |s'.threads| == |s'.ebr.slots|
    requires s.threads[t].pc.Allocating? && s'.threads[t].pc.Entering? && s'.threads[t].pc.job.Pushing?
    requires s'.threads[t].pc.job.node.Ptr?
    ensures |Observe(s, h, t, s').cache| == |h.cache|
    ensures Observe(s, h, t, s').cache[t] == if s.threads[t].cacheHead.Null? then h.cache[t] else DropLast(h.cache[t])
  {
  }

  lemma CacheTop(s: State, h: History, t: nat)
    requires Sized(s, h) && AddrsOk(s, h) && t < |s.threads| && ThreadOk(s, h, t)
    ensures s.threads[t].cacheHead == Top(h.cache[t])
    ensures h.cache[t] != [] ==> Top(h.cache[t]).Ptr? && Top(h.cache[t]).addr in s.heap
  {
    CacheShape(s, h, t);
    if h.cache[t] != [] {
      CellInCache(s, h, t, |h.cache[t]| - 1);
    }
  }

  lemma TakesTop(cells: seq<Ptr>, addrs: set<nat>, spare: nat)
    requires cells != [] ==> Top(cells).Ptr?
    requires cells == [] ==> spare !in addrs
    ensures var top := Top(cells);
            if top.Ptr? then Takes(Ptr(top.addr, (top.tag + 1) % TAG_LIMIT), cells, DropLast(cells), addrs, addrs + {})
            else Takes(Ptr(spare, 1), cells, cells, addrs, addrs + {spare})
  {
    if cells != [] {
      assert cells == cells[..|cells| - 1] + [Top(cells)];
    }
  }

  lemma AllocationIs(s: State, h: History, a: Action)
    requires Sized(s, h) && Enabled(s, a) && a.Step? && s.threads[a.t].pc.Allocating?
    requires s.threads[a.t].cacheHead == Top(h.cache[a.t])
    requires h.cache[a.t] != [] ==> Top(h.cache[a.t]).Ptr? && Top(h.cache[a.t]).addr in s.heap
    ensures var s', h' := Next(s, a), Extend(s, h, a);
            && PcAt(s', a.t).Entering? && PcAt(s', a.t).job.Pushing? && a.t < |h'.cache|
            && Takes(PcAt(s', a.t).job.node, h.cache[a.t], h'.cache[a.t], s.heap.Keys, s'.heap.Keys)
  {
    AllocateTakes(s, a.t, a.spare);
    ObserveAllocate(s, h, a.t, Next(s, a));
    TakesTop(h.cache[a.t], s.heap.Keys, a.spare);
  }

  /** push_back takes the node that its thread released last, if the cache has one, and a new
      one otherwise. */
  lemma NodesAreReused(threads: nat, run: seq<State>, acts: seq<Action>, i: nat, t: nat)
    requires IsRun(threads, run, acts) && i < |acts| && PcAt(run[i], t).Allocating? && IsStepOf(acts[i], t)
    ensures var cells, cells' := HistoryAt(threads, run, acts, i).cache, HistoryAt(threads, run, acts, i + 1).cache;
            && t < |cells| && t < |cells'| && PcAt(run[i + 1], t).Entering? && PcAt(run[i + 1], t).job.Pushing?
            && Takes(PcAt(run[i + 1], t).job.node, cells[t], cells'[t], run[i].heap.Keys, run[i + 1].heap.Keys)
  {
    RunStep(threads, run, acts, i);
    ThreadFacts(threads, run, acts, i, t);
    CacheTop(run[i], HistoryAt(threads, run, acts, i), t);
    AllocationIs(run[i], HistoryAt(threads, run, acts, i), acts[i]);
  }
}
