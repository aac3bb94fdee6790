/** The memory management and epoch steps of the queue machine keep the invariant. */
module QueueMemoryProof {
  import opened Basics
  import opened QueueMachine
  import opened QueueInvariant
  import opened QueueProof
  import Ebr

  // ----- retire -----

  function RetiredHistory(h: History, t: nat, p: nat): History
    requires t < |h.retired|
  {
    h.(retired := h.retired[t := h.retired[t] + [p]])
  }

  predicate Retiring(s: State, h: History, t: nat)
    requires Sized(s, h)
  {
    && t < |s.threads| && s.threads[t].pc.PopRetire?
    && LocalsOk(s.threads[t].pc, t, h.entry[t], h.chain, h.loc, h.retired[t], s.ebr.gc)
  }

  lemma RetireAddrs(s: State, h: History, t: nat)
    requires Sized(s, h) && AddrsOk(s, h) && Retiring(s, h, t)
    ensures AddrsOk(Retire(s, t), RetiredHistory(h, t, Position(h.loc, s.threads[t].pc.first)))
  {
    var first := s.threads[t].pc.first;
    var pos := Position(h.loc, first);
    var s', h' := Retire(s, t), RetiredHistory(h, t, pos);
    assert pos in h'.retired[t] by { assert h'.retired[t][|h.retired[t]|] == pos; }
    forall a | a in h'.loc ensures AddrOk(s', h', a) {
      assert AddrOk(s, h, a);
      if h.loc[a].Popped? && h.loc[a].t == t {
        var p := h.loc[a].pos;
        if p in h.retired[t] {
          var i :| 0 <= i < |h.retired[t]| && h.retired[t][i] == p;
          assert h'.retired[t][i] == p;
        }
      }
    }
  }

  lemma RetireSelf(s: State, h: History, t: nat)
    requires Sized(s, h) && Retiring(s, h, t) && ThreadOk(s, h, t)
    ensures ThreadOk(Retire(s, t), RetiredHistory(h, t, Position(h.loc, s.threads[t].pc.first)), t)
  {
    var thread := s.threads[t];
    var s' := Retire(s, t);
    var positions := h.retired[t] + [Position(h.loc, thread.pc.first)];
    CacheUntouched(thread.pc, s'.threads[t].pc, thread.cacheHead, thread.cacheCount, h.cache[t], t, h.loc);
    forall i | 0 <= i < |positions|
      ensures RecordOk(s'.threads[t].retired[i], positions[i], t, h.chain, h.loc, s.ebr.global)
    {
      if i < |h.retired[t]| {
        assert RecordOk(thread.retired[i], h.retired[t][i], t, h.chain, h.loc, s.ebr.global);
      }
    }
    forall i, j | 0 <= i < j < |positions|
      ensures positions[i] < positions[j] && s'.threads[t].retired[i].epoch <= s'.threads[t].retired[j].epoch
    {
      assert RecordOk(thread.retired[i], h.retired[t][i], t, h.chain, h.loc, s.ebr.global);
    }
  }

  lemma RetirePairs(s: State, h: History, t: nat)
    requires Sized(s, h) && Ebr.Inv(s.ebr) && PairsOk(s, h) && Retiring(s, h, t)
    requires |h.retired[t]| == |s.threads[t].retired|
    ensures PairsOk(Retire(s, t), RetiredHistory(h, t, Position(h.loc, s.threads[t].pc.first)))
  {
    var s', h' := Retire(s, t), RetiredHistory(h, t, Position(h.loc, s.threads[t].pc.first));
    forall u, v | 0 <= u < |s.threads| && 0 <= v < |s.threads| ensures PairOk(s', h', u, v) {
      assert PairOk(s, h, u, v);
      assert Ebr.SlotOk(s.ebr, s.ebr.slots[u]);
    }
  }

  lemma ObserveRetire(s: State, h: History, t: nat, s': State)
    requires Sized(s, h) && t < |s.threads| == |s'.threads| == |s'.ebr.slots| && s.threads[t].pc.PopRetire?
    ensures Observe(s, h, t, s') == RetiredHistory(h, t, Position(h.loc, s.threads[t].pc.first))
  {
  }

  lemma RetireStep(s: State, h: History, t: nat)
    requires Inv(s, h) && t < |s.threads| && s.threads[t].pc.PopRetire?
    ensures Inv(Retire(s, t), Observe(s, h, t, Retire(s, t)))
  {
    var s', h' := Retire(s, t), RetiredHistory(h, t, Position(h.loc, s.threads[t].pc.first));
    assert ThreadOk(s, h, t);
    ObserveRetire(s, h, t, s');
    RetireAddrs(s, h, t);
    RetirePairs(s, h, t);
    forall u | 0 <= u < |s.threads| ensures ThreadOk(s', h', u) {
      if u == t {
        RetireSelf(s, h, t);
      } else {
        assert ThreadOk(s, h, u);
      }
    }
  }

  // ----- releasing a retired node into the cache -----

  /** A thread inside an attempt is active. */
  lemma EngagedIsActive(s: State, h: History, u: nat)
    requires Sized(s, h) && Ebr.Inv(s.ebr) && u < |s.threads| && ThreadOk(s, h, u) && Engaged(s, u)
    ensures s.ebr.slots[u].status.active && s.ebr.slots[u].status.epoch > s.ebr.gc
  {
    assert Ebr.SlotOk(s.ebr, s.ebr.slots[u]);
  }

  predicate Releasing(s: State, h: History, t: nat)
    requires Sized(s, h)
  {
    && t < |s.threads| && CanRelease(s.threads[t])
    && s.threads[t].pc.gc <= s.ebr.gc
    && |h.retired[t]| == |s.threads[t].retired|
    && RecordOk(s.threads[t].retired[0], h.retired[t][0], t, h.chain, h.loc, s.ebr.global)
    && (forall i | 0 < i < |h.retired[t]| :: h.retired[t][i] > h.retired[t][0])
  }

  function ReleasedHistory(h: History, t: nat, p: Ptr): History
    requires t < |h.retired| == |h.cache| && h.retired[t] != [] && p.Ptr?
  {
    h.(loc := h.loc[p.addr := Cached(t, |h.cache[t]|)],
       cache := h.cache[t := h.cache[t] + [p]],
       retired := h.retired[t := h.retired[t][1..]])
  }

  /** The heart of the matter: a record that may be released belongs to a position unlinked
      before any thread that is still inside an epoch entered it. */
  lemma ReleasedBeforeEntry(s: State, h: History, t: nat, u: nat)
    requires Sized(s, h) && Ebr.Inv(s.ebr) && ThreadsOk(s, h) && PairsOk(s, h) && Releasing(s, h, t)
    requires u < |s.threads| && Engaged(s, u)
    ensures h.retired[t][0] < h.entry[u]
  {
    assert ThreadOk(s, h, u);
    EngagedIsActive(s, h, u);
    assert PairOk(s, h, u, t);
  }

  lemma ReleaseAddr(s: State, h: History, t: nat, a: nat)
    requires Sized(s, h) && Releasing(s, h, t)
    requires a in h.loc && AddrOk(s, h, a) && a != s.threads[t].retired[0].ptr.addr
    ensures AddrOk(ReclaimStep(s, t), ReleasedHistory(h, t, s.threads[t].retired[0].ptr), a)
  {
    if h.loc[a].Popped? && h.loc[a].t == t {
      var i :| 0 <= i < |h.retired[t]| && h.retired[t][i] == h.loc[a].pos;
      assert i > 0 && h.retired[t][1..][i - 1] == h.loc[a].pos;
    }
  }

  lemma ReleaseAddrs(s: State, h: History, t: nat)
    requires Sized(s, h) && AddrsOk(s, h) && Releasing(s, h, t)
    requires s.threads[t].cacheHead == (if h.cache[t] == [] then Null else h.cache[t][|h.cache[t]| - 1])
    ensures AddrsOk(ReclaimStep(s, t), ReleasedHistory(h, t, s.threads[t].retired[0].ptr))
  {
    var p := s.threads[t].retired[0].ptr;
    var s', h' := ReclaimStep(s, t), ReleasedHistory(h, t, p);
    forall a | a in h'.loc ensures AddrOk(s', h', a) {
      assert AddrOk(s, h, a);
      if a != p.addr {
        ReleaseAddr(s, h, t, a);
      }
    }
  }

  lemma ReleaseRespects(s: State, h: History, t: nat, u: nat)
    requires Sized(s, h) && Releasing(s, h, t) && u < |s.threads| && u != t
    requires Engaged(s, u) ==> h.retired[t][0] < h.entry[u]
    requires s.threads[t].retired[0].ptr.addr in s.heap
    ensures Respects(s, h, ReclaimStep(s, t), ReleasedHistory(h, t, s.threads[t].retired[0].ptr), u)
  {
  }

  lemma ReleaseSelf(s: State, h: History, t: nat)
    requires Sized(s, h) && Releasing(s, h, t) && ThreadOk(s, h, t) && !Engaged(s, t)
    requires s.threads[t].retired[0].ptr.addr in s.heap
    ensures ThreadOk(ReclaimStep(s, t), ReleasedHistory(h, t, s.threads[t].retired[0].ptr), t)
  {
    var p := s.threads[t].retired[0].ptr;
    var s', h' := ReclaimStep(s, t), ReleasedHistory(h, t, p);
    var thread, thread' := s.threads[t], s'.threads[t];
    forall i | 0 <= i < |h'.retired[t]|
      ensures RecordOk(thread'.retired[i], h'.retired[t][i], t, h'.chain, h'.loc, s.ebr.global)
    {
      assert RecordOk(thread.retired[i + 1], h.retired[t][i + 1], t, h.chain, h.loc, s.ebr.global);
      assert h.retired[t][i + 1] > h.retired[t][0];
    }
    ReleaseCache(thread, t, h.cache[t], h.loc, p);
  }

  lemma ReleaseCache(thread: Thread, t: nat, cells: seq<Ptr>, loc: map<nat, Loc>, p: Ptr)
    requires CanRelease(thread) && CacheOk(thread.pc, thread.cacheHead, thread.cacheCount, cells, t, loc)
    requires p.Ptr? && p.addr in loc && loc[p.addr].Popped?
    ensures CacheOk(if thread.cacheCount + 1 >= CACHE_COUNT then Batch(thread.pc.after, thread.pc.gc, BATCH_RELEASE_COUNT) else thread.pc,
                    p, thread.cacheCount + 1, cells + [p], t, loc[p.addr := Cached(t, |cells|)])
  {
  }

  lemma ReleasePairs(s: State, h: History, t: nat)
    requires Sized(s, h) && PairsOk(s, h) && Releasing(s, h, t)
    ensures PairsOk(ReclaimStep(s, t), ReleasedHistory(h, t, s.threads[t].retired[0].ptr))
  {
    var s', h' := ReclaimStep(s, t), ReleasedHistory(h, t, s.threads[t].retired[0].ptr);
    forall u, v | 0 <= u < |s.threads| && 0 <= v < |s.threads| ensures PairOk(s', h', u, v) {
      assert PairOk(s, h, u, v);
    }
  }

  lemma ReleaseChain(s: State, h: History, t: nat)
    requires Sized(s, h) && ChainOk(s, h) && Releasing(s, h, t)
    ensures ChainOk(ReclaimStep(s, t), ReleasedHistory(h, t, s.threads[t].retired[0].ptr))
  {
  }

  lemma ReleaseThreads(s: State, h: History, t: nat)
    requires Sized(s, h) && Ebr.Inv(s.ebr) && ThreadsOk(s, h) && PairsOk(s, h) && Releasing(s, h, t)
    requires s.threads[t].retired[0].ptr.addr in s.heap
    ensures ThreadsOk(ReclaimStep(s, t), ReleasedHistory(h, t, s.threads[t].retired[0].ptr))
  {
    var s', h' := ReclaimStep(s, t), ReleasedHistory(h, t, s.threads[t].retired[0].ptr);
    forall u | 0 <= u < |s.threads| ensures ThreadOk(s', h', u) {
      assert ThreadOk(s, h, u);
      if Engaged(s, u) {
        ReleasedBeforeEntry(s, h, t, u);
        EngagedIsActive(s, h, u);
      }
      if u == t {
        ReleaseSelf(s, h, t);
      } else {
        ReleaseRespects(s, h, t, u);
        OtherThread(s, h, s', h', u);
      }
    }
  }

  lemma ReleaseInv(s: State, h: History, t: nat)
    requires Inv(s, h) && Releasing(s, h, t)
    ensures Inv(ReclaimStep(s, t), ReleasedHistory(h, t, s.threads[t].retired[0].ptr))
  {
    assert ThreadOk(s, h, t);
    assert AddrOk(s, h, s.threads[t].retired[0].ptr.addr);
    ReleaseAddrs(s, h, t);
    ReleaseThreads(s, h, t);
    ReleaseChain(s, h, t);
    ReleasePairs(s, h, t);
  }

  lemma ReleaseFacts(s: State, h: History, t: nat)
    requires Sized(s, h) && t < |s.threads| && ThreadOk(s, h, t) && CanRelease(s.threads[t])
    ensures Releasing(s, h, t)
  {
  }

  lemma ObserveRelease(s: State, h: History, t: nat, s': State)
    requires Sized(s, h) && t < |s.threads| == |s'.threads| == |s'.ebr.slots| && s.threads[t].pc.Reclaim?
    ensures Observe(s, h, t, s') ==
            if |s'.threads[t].retired| < |s.threads[t].retired| && s.threads[t].retired[0].ptr.Ptr? && h.retired[t] != [] then
              ReleasedHistory(h, t, s.threads[t].retired[0].ptr)
            else h
  {
  }

  lemma ReclaimEnds(s: State, h: History, t: nat)
    requires Inv(s, h) && t < |s.threads| && s.threads[t].pc.Reclaim?
    ensures Inv(SetPc(s, t, Continue(s.threads[t].pc.after)), h)
  {
    var thread := s.threads[t];
    var pc' := Continue(thread.pc.after);
    assert ThreadOk(s, h, t);
    CacheUntouched(thread.pc, pc', thread.cacheHead, thread.cacheCount, h.cache[t], t, h.loc);
    LocalStep(s, h, t, pc');
  }

  lemma ReclaimKeepsInv(s: State, h: History, t: nat)
    requires Inv(s, h) && t < |s.threads| && s.threads[t].pc.Reclaim?
    ensures Inv(ReclaimStep(s, t), Observe(s, h, t, ReclaimStep(s, t)))
  {
    ObserveRelease(s, h, t, ReclaimStep(s, t));
    if CanRelease(s.threads[t]) {
      assert ThreadOk(s, h, t);
      ReleaseFacts(s, h, t);
      ReleaseInv(s, h, t);
    } else {
      ReclaimEnds(s, h, t);
    }
  }

  // ----- deleting a cached node -----

  predicate Uncaching(s: State, h: History, t: nat)
    requires Sized(s, h)
  {
    && t < |s.threads| && s.threads[t].cacheHead.Ptr? && h.cache[t] != []
    && s.threads[t].cacheHead == h.cache[t][|h.cache[t]| - 1]
    && s.threads[t].cacheHead.addr in h.loc && h.loc[s.threads[t].cacheHead.addr] == Cached(t, |h.cache[t]| - 1)
  }

  lemma UncacheFacts(s: State, h: History, t: nat)
    requires Sized(s, h) && AddrsOk(s, h) && t < |s.threads| && ThreadOk(s, h, t) && s.threads[t].cacheHead.Ptr?
    ensures Uncaching(s, h, t)
    ensures Load(s, s.threads[t].cacheHead).next ==
            (if |h.cache[t]| == 1 then Null else h.cache[t][|h.cache[t]| - 2])
  {
    assert h.loc[h.cache[t][|h.cache[t]| - 1].addr] == Cached(t, |h.cache[t]| - 1);
    assert AddrOk(s, h, s.threads[t].cacheHead.addr);
  }

  function DeletedHistory(s: State, h: History, t: nat): History
    requires Sized(s, h) && Uncaching(s, h, t)
  {
    h.(loc := h.loc - {s.threads[t].cacheHead.addr}, cache := h.cache[t := DropLast(h.cache[t])])
  }

  predicate Deleting(s: State, h: History, t: nat)
    requires Sized(s, h)
  {
    && Uncaching(s, h, t) && s.threads[t].pc.Batch? && s.threads[t].pc.left > 0
    && Load(s, s.threads[t].cacheHead).next == (if |h.cache[t]| == 1 then Null else h.cache[t][|h.cache[t]| - 2])
  }

  lemma DeleteAddr(s: State, h: History, t: nat, a: nat)
    requires Sized(s, h) && Deleting(s, h, t)
    requires a in h.loc && AddrOk(s, h, a) && a != s.threads[t].cacheHead.addr
    ensures AddrOk(BatchStep(s, t), DeletedHistory(s, h, t), a)
  {
  }

  lemma DeleteAddrs(s: State, h: History, t: nat)
    requires Sized(s, h) && AddrsOk(s, h) && Deleting(s, h, t)
    ensures AddrsOk(BatchStep(s, t), DeletedHistory(s, h, t))
  {
    forall a | a in h.loc && a != s.threads[t].cacheHead.addr
      ensures AddrOk(BatchStep(s, t), DeletedHistory(s, h, t), a)
    {
      assert AddrOk(s, h, a);
      DeleteAddr(s, h, t, a);
    }
  }

  lemma DeleteThreads(s: State, h: History, t: nat)
    requires Sized(s, h) && ThreadsOk(s, h) && Deleting(s, h, t)
    ensures ThreadsOk(BatchStep(s, t), DeletedHistory(s, h, t))
  {
    var s', h' := BatchStep(s, t), DeletedHistory(s, h, t);
    forall u | 0 <= u < |s.threads| ensures ThreadOk(s', h', u) {
      assert ThreadOk(s, h, u);
      if u != t {
        assert Respects(s, h, s', h', u);
        OtherThread(s, h, s', h', u);
      } else {
        DeleteSelf(s, h, t);
      }
    }
  }

  lemma DeleteSelf(s: State, h: History, t: nat)
    requires Sized(s, h) && Deleting(s, h, t) && ThreadOk(s, h, t)
    ensures ThreadOk(BatchStep(s, t), DeletedHistory(s, h, t), t)
  {
    var thread := s.threads[t];
    var h' := DeletedHistory(s, h, t);
    RetiredKept(thread.retired, h.retired[t], t, h.chain, h.loc, s.ebr.global, h.chain, h'.loc, s.ebr.global);
    ProtectedKept(s.ebr.slots[t].status, h.entry[t], h.chain, h.loc, h.chain, h'.loc);
  }

  lemma DeleteInv(s: State, h: History, t: nat)
    requires Inv(s, h) && Deleting(s, h, t)
    ensures Inv(BatchStep(s, t), DeletedHistory(s, h, t))
  {
    DeleteAddrs(s, h, t);
    DeleteThreads(s, h, t);
    PairsKept(s, h, BatchStep(s, t), DeletedHistory(s, h, t));
  }

  lemma ObserveBatch(s: State, h: History, t: nat, s': State)
    requires Sized(s, h) && t < |s.threads| == |s'.threads| == |s'.ebr.slots| && s.threads[t].pc.Batch?
    ensures Observe(s, h, t, s') ==
            if s'.threads[t].pc.Batch? && s.threads[t].cacheHead.Ptr? then
              h.(loc := h.loc - {s.threads[t].cacheHead.addr}, cache := h.cache[t := DropLast(h.cache[t])])
            else h
  {
  }

  lemma BatchLeavesRoom(pc: Pc, head: Ptr, count: int, cells: seq<Ptr>, t: nat, loc: map<nat, Loc>)
    requires CacheOk(pc, head, count, cells, t, loc) && pc.Batch? && (pc.left == 0 || head.Null?)
    ensures CacheOk(Reclaim(pc.after, pc.gc), head, count, cells, t, loc)
  {
  }

  lemma BatchShape(pc: Pc, slot: Ebr.SlotPc)
    requires pc.Batch? && EpochPcOk(pc, slot)
    ensures Carried(Reclaim(pc.after, pc.gc)) == Carried(pc) && EpochPcOk(Reclaim(pc.after, pc.gc), slot)
  {
  }

  lemma BatchEnds(s: State, h: History, t: nat)
    requires Inv(s, h) && t < |s.threads| && s.threads[t].pc.Batch?
    requires s.threads[t].pc.left == 0 || s.threads[t].cacheHead.Null?
    ensures Inv(SetPc(s, t, Reclaim(s.threads[t].pc.after, s.threads[t].pc.gc)), h)
  {
    var thread := s.threads[t];
    assert ThreadOk(s, h, t);
    BatchShape(thread.pc, s.ebr.slots[t].pc);
    BatchLeavesRoom(thread.pc, thread.cacheHead, thread.cacheCount, h.cache[t], t, h.loc);
    LocalStep(s, h, t, Reclaim(thread.pc.after, thread.pc.gc));
  }

  lemma BatchKeepsInv(s: State, h: History, t: nat)
    requires Inv(s, h) && t < |s.threads| && s.threads[t].pc.Batch?
    ensures Inv(BatchStep(s, t), Observe(s, h, t, BatchStep(s, t)))
  {
    ObserveBatch(s, h, t, BatchStep(s, t));
    if s.threads[t].pc.left == 0 || s.threads[t].cacheHead.Null? {
      BatchEnds(s, h, t);
    } else {
      assert ThreadOk(s, h, t);
      UncacheFacts(s, h, t);
      DeleteInv(s, h, t);
    }
  }

  // ----- allocating a node -----

  predicate Allocatable(s: State, h: History, t: nat, spare: nat)
    requires Sized(s, h)
  {
    && t < |s.threads| && s.threads[t].pc.Allocating? && h.loc.Keys == s.heap.Keys
    && if s.threads[t].cacheHead.Null? then spare !in s.heap
       else
         && Uncaching(s, h, t)
         && Load(s, s.threads[t].cacheHead).next == (if |h.cache[t]| == 1 then Null else h.cache[t][|h.cache[t]| - 2])
  }

  function AllocatedHistory(s: State, h: History, t: nat, spare: nat): History
    requires Sized(s, h) && t < |s.threads|
  {
    var cached := s.threads[t].cacheHead.Ptr?;
    h.(loc := h.loc[(if cached then s.threads[t].cacheHead.addr else spare) := Private(t)],
       cache := if cached then h.cache[t := DropLast(h.cache[t])] else h.cache)
  }

  lemma AllocateAddrs(s: State, h: History, t: nat, spare: nat)
    requires Sized(s, h) && AddrsOk(s, h) && Allocatable(s, h, t, spare)
    ensures AddrsOk(Allocate(s, t, spare), AllocatedHistory(s, h, t, spare))
  {
    var s', h' := Allocate(s, t, spare), AllocatedHistory(s, h, t, spare);
    forall a | a in h'.loc ensures AddrOk(s', h', a) {
      assert a in h.loc ==> AddrOk(s, h, a);
    }
  }

  lemma AllocateSelf(s: State, h: History, t: nat, spare: nat)
    requires Sized(s, h) && Allocatable(s, h, t, spare) && ThreadOk(s, h, t)
    requires !Engaged(s, t)
    ensures ThreadOk(Allocate(s, t, spare), AllocatedHistory(s, h, t, spare), t)
  {
    var thread := s.threads[t];
    var h' := AllocatedHistory(s, h, t, spare);
    RetiredKept(thread.retired, h.retired[t], t, h.chain, h.loc, s.ebr.global, h.chain, h'.loc, s.ebr.global);
    ProtectedKept(s.ebr.slots[t].status, h.entry[t], h.chain, h.loc, h.chain, h'.loc);
  }

  lemma AllocateRespects(s: State, h: History, t: nat, spare: nat, u: nat)
    requires Sized(s, h) && Allocatable(s, h, t, spare) && u < |s.threads| && u != t
    ensures Respects(s, h, Allocate(s, t, spare), AllocatedHistory(s, h, t, spare), u)
  {
  }

  lemma AllocateThreads(s: State, h: History, t: nat, spare: nat)
    requires Sized(s, h) && Ebr.Inv(s.ebr) && ThreadsOk(s, h) && Allocatable(s, h, t, spare)
    ensures ThreadsOk(Allocate(s, t, spare), AllocatedHistory(s, h, t, spare))
  {
    var s', h' := Allocate(s, t, spare), AllocatedHistory(s, h, t, spare);
    forall u | 0 <= u < |s.threads| ensures ThreadOk(s', h', u) {
      assert ThreadOk(s, h, u);
      if u != t {
        AllocateRespects(s, h, t, spare, u);
        OtherThread(s, h, s', h', u);
      } else {
        assert Ebr.SlotOk(s.ebr, s.ebr.slots[t]);
        AllocateSelf(s, h, t, spare);
      }
    }
  }

  lemma AllocateChain(s: State, h: History, t: nat, spare: nat)
    requires Sized(s, h) && ChainOk(s, h) && Allocatable(s, h, t, spare)
    ensures ChainOk(Allocate(s, t, spare), AllocatedHistory(s, h, t, spare))
  {
  }

  lemma ObserveAllocate(s: State, h: History, t: nat, spare: nat)
    requires Sized(s, h) && CanAllocate(s, t, spare)
    ensures Observe(s, h, t, Allocate(s, t, spare)) == AllocatedHistory(s, h, t, spare)
  {
  }

  lemma AllocateStep(s: State, h: History, t: nat, spare: nat)
    requires Inv(s, h) && CanAllocate(s, t, spare)
    ensures Inv(Allocate(s, t, spare), Observe(s, h, t, Allocate(s, t, spare)))
  {
    assert ThreadOk(s, h, t);
    ObserveAllocate(s, h, t, spare);
    if s.threads[t].cacheHead.Ptr? {
      UncacheFacts(s, h, t);
    }
    AllocateAddrs(s, h, t, spare);
    AllocateThreads(s, h, t, spare);
    AllocateChain(s, h, t, spare);
    PairsKept(s, h, Allocate(s, t, spare), AllocatedHistory(s, h, t, spare));
  }

  // ----- epochs -----

  /** The epochs moved in a way that starts no thread's epoch and ends at most thread t's. */
  predicate EpochsMoved(ebr: Ebr.State, ebr': Ebr.State) {
    && |ebr'.slots| == |ebr.slots| && ebr.gc <= ebr'.gc && ebr.global <= ebr'.global
    && forall u | 0 <= u < |ebr.slots| ::
         ebr'.slots[u].status.active ==> ebr'.slots[u].status == ebr.slots[u].status
  }

  lemma EpochThreads(s: State, h: History, ebr: Ebr.State, t: nat, pc: Pc)
    requires Sized(s, h) && ThreadsOk(s, h) && EpochsMoved(s.ebr, ebr) && t < |s.threads|
    requires pc == s.threads[t].pc || (pc.LoadGc? && s.threads[t].pc == Exiting(pc.after))
    requires forall u | 0 <= u < |s.threads| && u != t :: EpochPcOk(s.threads[u].pc, ebr.slots[u].pc)
    requires EpochPcOk(pc, ebr.slots[t].pc)
    ensures ThreadsOk(SetPc(s.(ebr := ebr), t, pc), h)
  {
    var s' := SetPc(s.(ebr := ebr), t, pc);
    forall u | 0 <= u < |s.threads| ensures ThreadOk(s', h, u) {
      assert ThreadOk(s, h, u);
      var thread := s.threads[u];
      if u == t {
        CacheUntouchedOrSame(thread.pc, pc, thread.cacheHead, thread.cacheCount, h.cache[t], t, h.loc);
      }
      RetiredKept(thread.retired, h.retired[u], u, h.chain, h.loc, s.ebr.global, h.chain, h.loc, ebr.global);
      LocalsKept(thread.pc, u, h.entry[u], h.chain, h.loc, h.chain, h.loc, h.retired[u], s.ebr.gc, ebr.gc);
    }
  }

  lemma CacheUntouchedOrSame(pc: Pc, pc': Pc, head: Ptr, count: int, cells: seq<Ptr>, t: nat, loc: map<nat, Loc>)
    requires CacheOk(pc, head, count, cells, t, loc) && (pc == pc' || (!pc.Batch? && !pc'.Batch?))
    ensures CacheOk(pc', head, count, cells, t, loc)
  {
  }

  lemma EpochInv(s: State, h: History, ebr: Ebr.State, t: nat, pc: Pc)
    requires Inv(s, h) && Ebr.Inv(ebr) && EpochsMoved(s.ebr, ebr) && t < |s.threads|
    requires pc == s.threads[t].pc || (pc.LoadGc? && s.threads[t].pc == Exiting(pc.after))
    requires forall u | 0 <= u < |s.threads| && u != t :: EpochPcOk(s.threads[u].pc, ebr.slots[u].pc)
    requires EpochPcOk(pc, ebr.slots[t].pc)
    ensures Inv(SetPc(s.(ebr := ebr), t, pc), h)
  {
    var s' := SetPc(s.(ebr := ebr), t, pc);
    EpochThreads(s, h, ebr, t, pc);
    EpochAddrs(s, h, ebr, t, pc);
    PairsKept(s, h, s', h);
  }

  lemma EpochAddrs(s: State, h: History, ebr: Ebr.State, t: nat, pc: Pc)
    requires Sized(s, h) && AddrsOk(s, h) && |ebr.slots| == |s.ebr.slots| && t < |s.threads|
    requires pc == s.threads[t].pc || (pc.LoadGc? && s.threads[t].pc == Exiting(pc.after))
    ensures AddrsOk(SetPc(s.(ebr := ebr), t, pc), h)
  {
    var s' := SetPc(s.(ebr := ebr), t, pc);
    forall a | a in h.loc ensures AddrOk(s', h, a) {
      assert AddrOk(s, h, a);
    }
  }

  lemma MaintainFrame(ebr: Ebr.State)
    requires Ebr.Inv(ebr) && Ebr.CanMaintain(ebr)
    ensures EpochsMoved(ebr, Ebr.MaintainerStep(ebr))
    ensures forall u | 0 <= u < |ebr.slots| :: Ebr.MaintainerStep(ebr).slots[u].pc == ebr.slots[u].pc
  {
  }

  lemma MaintainKeepsInv(s: State, h: History)
    requires Inv(s, h) && Ebr.CanMaintain(s.ebr)
    ensures Inv(s.(ebr := Ebr.MaintainerStep(s.ebr)), h)
  {
    var ebr := Ebr.MaintainerStep(s.ebr);
    Ebr.MaintainKeepsInv(s.ebr);
    MaintainFrame(s.ebr);
    if |s.threads| > 0 {
      forall u | 0 <= u < |s.threads| ensures EpochPcOk(s.threads[u].pc, ebr.slots[u].pc) {
        assert ThreadOk(s, h, u);
      }
      EpochInv(s, h, ebr, 0, s.threads[0].pc);
      assert SetPc(s.(ebr := ebr), 0, s.threads[0].pc) == s.(ebr := ebr);
    } else {
      assert forall a | a in h.loc :: AddrOk(s, h, a) ==> AddrOk(s.(ebr := ebr), h, a);
    }
  }

  lemma ExitFrame(ebr: Ebr.State, t: nat, spurious: bool)
    requires Ebr.Inv(ebr) && Ebr.CanExit(ebr, t)
    ensures var ebr' := Ebr.ExitStep(ebr, t, spurious);
            && EpochsMoved(ebr, ebr')
            && (forall u | 0 <= u < |ebr.slots| && u != t :: ebr'.slots[u] == ebr.slots[u])
            && (ebr'.slots[t].pc.Outside? || ebr'.slots[t].pc.ExitLoaded?)
  {
    assert Ebr.SlotOk(ebr, ebr.slots[t]);
  }

  lemma ObserveExit(s: State, h: History, t: nat, s': State)
    requires Sized(s, h) && t < |s.threads| == |s'.threads| == |s'.ebr.slots| && s.threads[t].pc.Exiting?
    requires s'.tail == s.tail
    ensures Observe(s, h, t, s') == h
  {
  }

  lemma ExitKeepsInv(s: State, h: History, t: nat, spurious: bool)
    requires Inv(s, h) && t < |s.threads| && s.threads[t].pc.Exiting? && Ebr.CanExit(s.ebr, t)
    ensures Inv(ExitStep(s, t, spurious), Observe(s, h, t, ExitStep(s, t, spurious)))
  {
    var ebr := Ebr.ExitStep(s.ebr, t, spurious);
    Ebr.ExitKeepsInv(s.ebr, t, spurious);
    ExitFrame(s.ebr, t, spurious);
    ObserveExit(s, h, t, ExitStep(s, t, spurious));
    forall u | 0 <= u < |s.threads| && u != t ensures EpochPcOk(s.threads[u].pc, ebr.slots[u].pc) {
      assert ThreadOk(s, h, u);
    }
    var pc' := if ebr.slots[t].pc.Outside? then LoadGc(s.threads[t].pc.after) else s.threads[t].pc;
    EpochInv(s, h, ebr, t, pc');
    assert SetPc(s.(ebr := ebr), t, pc') == ExitStep(s, t, spurious);
  }

  lemma EnterFrame(ebr: Ebr.State, t: nat, spurious: bool)
    requires Ebr.Inv(ebr) && Ebr.CanEnter(ebr, t)
    ensures var ebr' := Ebr.EnterStep(ebr, t, spurious);
            && |ebr'.slots| == |ebr.slots| && ebr'.gc == ebr.gc && ebr'.global == ebr.global
            && (forall u | 0 <= u < |ebr.slots| && u != t :: ebr'.slots[u] == ebr.slots[u])
            && !ebr.slots[t].status.active
            && (ebr'.slots[t].status.active <==> ebr'.slots[t].pc.Inside?)
            && (ebr'.slots[t].pc.Inside? || Ebr.CanEnter(ebr', t))
  {
    assert Ebr.SlotOk(ebr, ebr.slots[t]);
  }

  /** The state and history after thread t entered its epoch. */
  function EnteredState(s: State, ebr: Ebr.State, t: nat): State
    requires t < |s.threads| && s.threads[t].pc.Entering?
  {
    SetPc(s.(ebr := ebr), t,
      match s.threads[t].pc.job
      case Popping => PopHead
      case Pushing(node, value) => PushTail(node, value))
  }

  function EnteredHistory(h: History, t: nat): History
    requires t < |h.entry|
  {
    h.(entry := h.entry[t := h.chain.head])
  }

  predicate HasEntered(s: State, h: History, ebr: Ebr.State, t: nat)
    requires Sized(s, h)
  {
    && t < |s.threads| && s.threads[t].pc.Entering?
    && |ebr.slots| == |s.ebr.slots| && ebr.gc == s.ebr.gc && ebr.global == s.ebr.global
    && (forall u | 0 <= u < |ebr.slots| && u != t :: ebr.slots[u] == s.ebr.slots[u])
    && ebr.slots[t].pc.Inside?
  }

  lemma EnteredThreads(s: State, h: History, ebr: Ebr.State, t: nat)
    requires Sized(s, h) && ThreadsOk(s, h) && ChainOk(s, h) && HasEntered(s, h, ebr, t)
    ensures ThreadsOk(EnteredState(s, ebr, t), EnteredHistory(h, t))
  {
    var s', h' := EnteredState(s, ebr, t), EnteredHistory(h, t);
    forall u | 0 <= u < |s.threads| ensures ThreadOk(s', h', u) {
      assert ThreadOk(s, h, u);
      if u == t {
        CacheUntouched(s.threads[t].pc, s'.threads[t].pc, s.threads[t].cacheHead, s.threads[t].cacheCount, h.cache[t], t, h.loc);
        assert forall p | h.chain.head <= p < |h.chain.nodes| :: Unreleased(h.chain, h.loc, p);
      }
    }
  }

  lemma EnteredAddrs(s: State, h: History, ebr: Ebr.State, t: nat)
    requires Sized(s, h) && AddrsOk(s, h) && HasEntered(s, h, ebr, t)
    ensures AddrsOk(EnteredState(s, ebr, t), EnteredHistory(h, t))
  {
    forall a | a in h.loc ensures AddrOk(EnteredState(s, ebr, t), EnteredHistory(h, t), a) {
      assert AddrOk(s, h, a);
    }
  }

  /** Records of positions unlinked before the entry need not be held back. */
  lemma EnteredPairs(s: State, h: History, ebr: Ebr.State, t: nat)
    requires Sized(s, h) && ThreadsOk(s, h) && PairsOk(s, h) && HasEntered(s, h, ebr, t)
    ensures PairsOk(EnteredState(s, ebr, t), EnteredHistory(h, t))
  {
    var s', h' := EnteredState(s, ebr, t), EnteredHistory(h, t);
    forall u, v | 0 <= u < |s.threads| && 0 <= v < |s.threads| ensures PairOk(s', h', u, v) {
      assert PairOk(s, h, u, v);
      assert ThreadOk(s, h, v);
      forall i | 0 <= i < |h.retired[v]| ensures h.retired[v][i] < h.chain.head {
        assert RecordOk(s.threads[v].retired[i], h.retired[v][i], v, h.chain, h.loc, s.ebr.global);
      }
    }
  }

  lemma EnteredInv(s: State, h: History, ebr: Ebr.State, t: nat)
    requires Inv(s, h) && Ebr.Inv(ebr) && HasEntered(s, h, ebr, t)
    ensures Inv(EnteredState(s, ebr, t), EnteredHistory(h, t))
  {
    EnteredThreads(s, h, ebr, t);
    EnteredAddrs(s, h, ebr, t);
    EnteredPairs(s, h, ebr, t);
  }

  lemma ObserveEnter(s: State, h: History, t: nat, s': State)
    requires Sized(s, h) && t < |s.threads| == |s'.threads| == |s'.ebr.slots| && s.threads[t].pc.Entering?
    ensures Observe(s, h, t, s') == if s'.ebr.slots[t].pc.Inside? then EnteredHistory(h, t) else h
  {
  }

  lemma EnterPending(s: State, h: History, ebr: Ebr.State, t: nat)
    requires Inv(s, h) && Ebr.Inv(ebr) && EpochsMoved(s.ebr, ebr) && t < |s.threads| && s.threads[t].pc.Entering?
    requires forall u | 0 <= u < |ebr.slots| && u != t :: ebr.slots[u] == s.ebr.slots[u]
    requires Ebr.CanEnter(ebr, t)
    ensures Inv(SetPc(s.(ebr := ebr), t, s.threads[t].pc), h)
  {
    forall u | 0 <= u < |s.threads| && u != t ensures EpochPcOk(s.threads[u].pc, ebr.slots[u].pc) {
      assert ThreadOk(s, h, u);
    }
    EpochInv(s, h, ebr, t, s.threads[t].pc);
  }

  lemma EnterKeepsInv(s: State, h: History, t: nat, spurious: bool)
    requires Inv(s, h) && t < |s.threads| && s.threads[t].pc.Entering? && Ebr.CanEnter(s.ebr, t)
    ensures Inv(EnterStep(s, t, spurious), Observe(s, h, t, EnterStep(s, t, spurious)))
  {
    var ebr := Ebr.EnterStep(s.ebr, t, spurious);
    Ebr.EnterKeepsInv(s.ebr, t, spurious);
    EnterFrame(s.ebr, t, spurious);
    ObserveEnter(s, h, t, EnterStep(s, t, spurious));
    if ebr.slots[t].pc.Inside? {
      EnteredInv(s, h, ebr, t);
    } else {
      EnterPending(s, h, ebr, t);
      assert SetPc(s.(ebr := ebr), t, s.threads[t].pc) == EnterStep(s, t, spurious);
    }
  }
}
