/** Every step of the queue machine keeps the invariant of QueueInvariant. */
module QueueProof {
  import opened QueueMachine
  import opened QueueInvariant
  import Ebr

  // ----- steps that change one thread's program counter only -----

  lemma LocalAddrs(s: State, h: History, t: nat, pc: Pc)
    requires Sized(s, h) && AddrsOk(s, h) && t < |s.threads|
    requires Carried(pc) == Carried(s.threads[t].pc) && !s.threads[t].pc.PopRetire?
    ensures AddrsOk(SetPc(s, t, pc), h)
  {
    forall a | a in h.loc ensures AddrOk(SetPc(s, t, pc), h, a) {
      assert AddrOk(s, h, a);
    }
  }

  lemma LocalThreads(s: State, h: History, t: nat, pc: Pc)
    requires Sized(s, h) && ThreadsOk(s, h) && t < |s.threads|
    requires Carried(pc) == Carried(s.threads[t].pc)
    requires EpochPcOk(pc, s.ebr.slots[t].pc)
    requires CacheOk(pc, s.threads[t].cacheHead, s.threads[t].cacheCount, h.cache[t], t, h.loc)
    requires LocalsOk(pc, t, h.entry[t], h.chain, h.loc, h.retired[t], s.ebr.gc)
    ensures ThreadsOk(SetPc(s, t, pc), h)
  {
    var s' := SetPc(s, t, pc);
    forall u | 0 <= u < |s'.threads| ensures ThreadOk(s', h, u) {
      assert ThreadOk(s, h, u);
    }
  }

  lemma LocalStep(s: State, h: History, t: nat, pc: Pc)
    requires Inv(s, h) && t < |s.threads|
    requires Carried(pc) == Carried(s.threads[t].pc) && !s.threads[t].pc.PopRetire?
    requires EpochPcOk(pc, s.ebr.slots[t].pc)
    requires CacheOk(pc, s.threads[t].cacheHead, s.threads[t].cacheCount, h.cache[t], t, h.loc)
    requires LocalsOk(pc, t, h.entry[t], h.chain, h.loc, h.retired[t], s.ebr.gc)
    ensures Inv(SetPc(s, t, pc), h)
  {
    LocalAddrs(s, h, t, pc);
    LocalThreads(s, h, t, pc);
    assert forall u, v | 0 <= u < |s.threads| && 0 <= v < |s.threads| :: PairOk(s, h, u, v) ==> PairOk(SetPc(s, t, pc), h, u, v);
  }

  /** Giving up an attempt: the thread leaves its epoch and will try again. */
  lemma RetryShape(pc: Pc, slot: Ebr.SlotPc)
    requires InAttempt(pc) && EpochPcOk(pc, slot)
    ensures Carried(Exiting(Again(Carried(pc)))) == Carried(pc) && EpochPcOk(Exiting(Again(Carried(pc))), slot)
  {
  }

  lemma RetryStep(s: State, h: History, t: nat)
    requires Inv(s, h) && t < |s.threads| && InAttempt(s.threads[t].pc) && !s.threads[t].pc.PopRetire?
    ensures Inv(SetPc(s, t, Exiting(Again(Carried(s.threads[t].pc)))), h)
  {
    var thread := s.threads[t];
    var pc' := Exiting(Again(Carried(thread.pc)));
    assert ThreadOk(s, h, t);
    RetryShape(thread.pc, s.ebr.slots[t].pc);
    CacheUntouched(thread.pc, pc', thread.cacheHead, thread.cacheCount, h.cache[t], t, h.loc);
    LocalStep(s, h, t, pc');
  }

  lemma CacheUntouched(pc: Pc, pc': Pc, head: Ptr, count: int, cells: seq<Ptr>, t: nat, loc: map<nat, Loc>)
    requires CacheOk(pc, head, count, cells, t, loc) && !pc.Batch? && !pc'.Batch?
    ensures CacheOk(pc', head, count, cells, t, loc)
  {
  }

  lemma CacheKept(pc: Pc, head: Ptr, count: int, cells: seq<Ptr>, t: nat, loc: map<nat, Loc>, loc': map<nat, Loc>)
    requires CacheOk(pc, head, count, cells, t, loc)
    requires forall a | a in loc && loc[a].Cached? && loc[a].t == t :: a in loc' && loc'[a] == loc[a]
    ensures CacheOk(pc, head, count, cells, t, loc')
  {
  }

  lemma RetiredKept(records: seq<Record>, positions: seq<nat>, t: nat,
                    c: Chain, loc: map<nat, Loc>, epoch: nat, c': Chain, loc': map<nat, Loc>, epoch': nat)
    requires RetiredOk(records, positions, t, c, loc, epoch)
    requires c.nodes <= c'.nodes && c.head <= c'.head && epoch <= epoch'
    requires forall a | a in loc && loc[a].Popped? && loc[a].t == t :: a in loc' && loc'[a] == loc[a]
    ensures RetiredOk(records, positions, t, c', loc', epoch')
  {
    forall i | 0 <= i < |positions| ensures RecordOk(records[i], positions[i], t, c', loc', epoch') {
      assert RecordOk(records[i], positions[i], t, c, loc, epoch);
    }
  }

  lemma PairsKept(s: State, h: History, s': State, h': History)
    requires Sized(s, h) && Sized(s', h') && |s.threads| == |s'.threads| && PairsOk(s, h)
    requires h'.entry == h.entry && h'.retired == h.retired
    requires forall u | 0 <= u < |s.threads| :: s'.threads[u].retired == s.threads[u].retired
    requires forall u | 0 <= u < |s.threads| ::
               s'.ebr.slots[u].status.active ==> s'.ebr.slots[u].status == s.ebr.slots[u].status
    ensures PairsOk(s', h')
  {
    forall u, v | 0 <= u < |s.threads| && 0 <= v < |s.threads| ensures PairOk(s', h', u, v) {
      assert PairOk(s, h, u, v);
    }
  }

  /** A node a thread holds is allocated, unreleased and has the fields of its position. */
  lemma HeldNode(s: State, h: History, entry: nat, p: Ptr)
    requires Sized(s, h) && AddrsOk(s, h) && Holds(h.chain, h.loc, entry, p)
    ensures p.addr in s.heap && NodeOk(h.chain, s.heap[p.addr], p.addr, Position(h.loc, p))
  {
    assert AddrOk(s, h, p.addr);
  }

  lemma InsideIsActive(s: State, h: History, t: nat)
    requires Inv(s, h) && t < |s.threads| && InAttempt(s.threads[t].pc)
    ensures s.ebr.slots[t].pc.Inside? && s.ebr.slots[t].status.active
    ensures h.entry[t] <= h.chain.head
  {
    assert ThreadOk(s, h, t);
    assert Ebr.SlotOk(s.ebr, s.ebr.slots[t]);
  }

  /** A thread inside an epoch is entitled to every position from its entry on. */
  lemma Entitled(s: State, h: History, t: nat, k: nat)
    requires Sized(s, h) && ThreadsOk(s, h) && t < |s.threads|
    requires s.ebr.slots[t].status.active && h.entry[t] <= k < |h.chain.nodes|
    ensures Holds(h.chain, h.loc, h.entry[t], h.chain.nodes[k]) && Position(h.loc, h.chain.nodes[k]) == k
  {
    assert ThreadOk(s, h, t);
    assert Unreleased(h.chain, h.loc, k);
  }

  lemma NextHeld(s: State, h: History, t: nat, p: Ptr)
    requires Sized(s, h) && AddrsOk(s, h) && ThreadsOk(s, h) && t < |s.threads| && s.ebr.slots[t].status.active
    requires Holds(h.chain, h.loc, h.entry[t], p)
    ensures Load(s, p).next.Null? <==> Position(h.loc, p) == |h.chain.nodes| - 1
    ensures Load(s, p).next.Ptr? ==>
              Holds(h.chain, h.loc, h.entry[t], Load(s, p).next) && Follows(h.loc, p, Load(s, p).next)
  {
    HeldNode(s, h, h.entry[t], p);
    var k := Position(h.loc, p);
    if k + 1 < |h.chain.nodes| {
      Entitled(s, h, t, k + 1);
    }
  }

  /** Two held pointers to one address are at one position. */
  lemma SamePosition(c: Chain, loc: map<nat, Loc>, entry: nat, p: Ptr, q: Ptr)
    requires Holds(c, loc, entry, p) && Holds(c, loc, entry, q) 
    ensures p.addr == q.addr <==> Position(loc, p) == Position(loc, q)
  {
  }

  lemma PopLoadLocals(s: State, h: History, t: nat)
    requires Inv(s, h) && t < |s.threads|
    requires var pc := s.threads[t].pc; pc.PopHead? || pc.PopTail? || pc.PopNext? || pc.PopValue?
    ensures LocalsOk(AfterLoad(s, s.threads[t].pc), t, h.entry[t], h.chain, h.loc, h.retired[t], s.ebr.gc)
  {
    InsideIsActive(s, h, t);
    assert ThreadOk(s, h, t);
    match s.threads[t].pc
    case PopHead => Entitled(s, h, t, h.chain.head);
    case PopTail(first) => Entitled(s, h, t, h.chain.tail);
    case PopNext(first, last) =>
      NextHeld(s, h, t, first);
      SamePosition(h.chain, h.loc, h.entry[t], first, last);
    case PopValue(first, next) => HeldNode(s, h, h.entry[t], next);
  }

  lemma PushLoadLocals(s: State, h: History, t: nat)
    requires Inv(s, h) && t < |s.threads|
    requires var pc := s.threads[t].pc; pc.PushTail? || pc.PushNext?
    ensures LocalsOk(AfterLoad(s, s.threads[t].pc), t, h.entry[t], h.chain, h.loc, h.retired[t], s.ebr.gc)
  {
    InsideIsActive(s, h, t);
    assert ThreadOk(s, h, t);
    match s.threads[t].pc
    case PushTail(node, value) => Entitled(s, h, t, h.chain.tail);
    case PushNext(node, value, last) => NextHeld(s, h, t, last);
  }

  lemma AfterLoadShape(s: State, pc: Pc, slot: Ebr.SlotPc)
    requires IsLoad(pc) && EpochPcOk(pc, slot)
    ensures Carried(AfterLoad(s, pc)) == Carried(pc) && EpochPcOk(AfterLoad(s, pc), slot)
    ensures !AfterLoad(s, pc).Batch?
  {
  }

  lemma LoadStep(s: State, h: History, t: nat)
    requires Inv(s, h) && t < |s.threads| && IsLoad(s.threads[t].pc)
    ensures Inv(SetPc(s, t, AfterLoad(s, s.threads[t].pc)), h)
  {
    var thread := s.threads[t];
    if thread.pc.PushTail? || thread.pc.PushNext? {
      PushLoadLocals(s, h, t);
    } else if !thread.pc.LoadGc? {
      PopLoadLocals(s, h, t);
    }
    assert ThreadOk(s, h, t);
    AfterLoadShape(s, thread.pc, s.ebr.slots[t].pc);
    CacheUntouched(thread.pc, AfterLoad(s, thread.pc), thread.cacheHead, thread.cacheCount, h.cache[t], t, h.loc);
    LocalStep(s, h, t, AfterLoad(s, thread.pc));
  }

  // ----- how locals of a thread survive other threads' steps -----

  predicate OnChain(l: Loc) {
    l.Linked? || l.Popped?
  }

  /** The chain only grew, and no position from `entry` on was released. */
  predicate Keeps(c: Chain, loc: map<nat, Loc>, c': Chain, loc': map<nat, Loc>, entry: nat) {
    && c.nodes <= c'.nodes && c.values <= c'.values && c.head <= c'.head && c.tail <= c'.tail
    && forall a | a in loc && OnChain(loc[a]) && loc[a].pos >= entry ::
         a in loc' && OnChain(loc'[a]) && loc'[a].pos == loc[a].pos
  }

  lemma HoldsKept(c: Chain, loc: map<nat, Loc>, c': Chain, loc': map<nat, Loc>, entry: nat, p: Ptr)
    requires Keeps(c, loc, c', loc', entry) && Holds(c, loc, entry, p)
    ensures Holds(c', loc', entry, p) && Position(loc', p) == Position(loc, p)
  {
    assert loc[p.addr].pos >= entry;
  }

  lemma LocalsKept(pc: Pc, t: nat, entry: nat, c: Chain, loc: map<nat, Loc>, c': Chain, loc': map<nat, Loc>,
                   retired: seq<nat>, gc: int, gc': int)
    requires LocalsOk(pc, t, entry, c, loc, retired, gc) && gc <= gc'
    requires InAttempt(pc) ==> Keeps(c, loc, c', loc', entry)
    requires pc.PopRetire? && pc.first.Ptr? && pc.first.addr in loc ==>
               pc.first.addr in loc' && loc'[pc.first.addr] == loc[pc.first.addr]
    ensures LocalsOk(pc, t, entry, c', loc', retired, gc')
  {
    if InAttempt(pc) {
      forall p | Holds(c, loc, entry, p)
        ensures Holds(c', loc', entry, p) && Position(loc', p) == Position(loc, p)
      {
        HoldsKept(c, loc, c', loc', entry, p);
      }
    }
  }

  lemma ProtectedKept(status: Ebr.Status, entry: nat, c: Chain, loc: map<nat, Loc>, c': Chain, loc': map<nat, Loc>)
    requires ProtectedOk(status, entry, c, loc)
    requires status.active ==> Keeps(c, loc, c', loc', entry)
    requires forall p | |c.nodes| <= p < |c'.nodes| :: Unreleased(c', loc', p)
    ensures ProtectedOk(status, entry, c', loc')
  {
    if status.active {
      forall p | entry <= p < |c'.nodes| ensures Unreleased(c', loc', p) {
        if p < |c.nodes| {
          assert Unreleased(c, loc, p);
        }
      }
    }
  }

  // ----- tail_ -----

  lemma TailAddrs(s: State, h: History, c: Chain)
    requires Sized(s, h) && AddrsOk(s, h)
    requires c == h.chain.(tail := c.tail)
    ensures AddrsOk(s, h.(chain := c))
  {
    forall a | a in h.loc ensures AddrOk(s, h.(chain := c), a) {
      assert AddrOk(s, h, a);
    }
  }

  lemma TailThreads(s: State, h: History, c: Chain)
    requires Sized(s, h) && ThreadsOk(s, h)
    requires c == h.chain.(tail := c.tail) && h.chain.tail <= c.tail
    ensures ThreadsOk(s, h.(chain := c))
  {
    forall u | 0 <= u < |s.threads| ensures ThreadOk(s, h.(chain := c), u) {
      assert ThreadOk(s, h, u);
      LocalsKept(s.threads[u].pc, u, h.entry[u], h.chain, h.loc, c, h.loc, h.retired[u], s.ebr.gc, s.ebr.gc);
      ProtectedKept(s.ebr.slots[u].status, h.entry[u], h.chain, h.loc, c, h.loc);
    }
  }

  lemma TailAdvance(s: State, h: History)
    requires Inv(s, h) && h.chain.tail + 1 < |h.chain.nodes|
    ensures Inv(s.(tail := h.chain.nodes[h.chain.tail + 1]), h.(chain := h.chain.(tail := h.chain.tail + 1)))
  {
    var h' := h.(chain := h.chain.(tail := h.chain.tail + 1));
    TailAddrs(s, h, h'.chain);
    TailThreads(s, h, h'.chain);
    TailPointer(s, h', h.chain.nodes[h.chain.tail + 1]);
    assert forall u, v | 0 <= u < |s.threads| && 0 <= v < |s.threads| :: PairOk(s, h, u, v) ==> PairOk(s, h', u, v);
  }

  /** Only ChainOk looks at tail_. */
  lemma TailPointer(s: State, h: History, p: Ptr)
    requires Sized(s, h)
    ensures AddrsOk(s, h) ==> AddrsOk(s.(tail := p), h)
    ensures ThreadsOk(s, h) ==> ThreadsOk(s.(tail := p), h)
    ensures PairsOk(s, h) ==> PairsOk(s.(tail := p), h)
  {
    var s' := s.(tail := p);
    assert forall a | a in h.loc :: AddrOk(s, h, a) ==> AddrOk(s', h, a);
    assert forall u | 0 <= u < |s.threads| :: ThreadOk(s, h, u) ==> ThreadOk(s', h, u);
    assert forall u, v | 0 <= u < |s.threads| && 0 <= v < |s.threads| :: PairOk(s, h, u, v) ==> PairOk(s', h, u, v);
  }

  lemma TailCasTargets(s: State, h: History, t: nat)
    requires Sized(s, h) && ChainOk(s, h) && ThreadsOk(s, h) && t < |s.threads| && IsTailCas(s.threads[t].pc)
    requires s.tail == s.threads[t].pc.last
    ensures h.chain.tail + 1 < |h.chain.nodes|
    ensures TailCasTarget(s.threads[t].pc) == h.chain.nodes[h.chain.tail + 1] != s.tail
  {
    assert ThreadOk(s, h, t);
    assert h.loc[s.tail.addr] == Linked(h.chain.tail);
  }

  lemma AfterTailCasShape(pc: Pc, slot: Ebr.SlotPc)
    requires IsTailCas(pc) && EpochPcOk(pc, slot)
    ensures Carried(AfterTailCas(pc)) == Carried(pc) && EpochPcOk(AfterTailCas(pc), slot)
    ensures !AfterTailCas(pc).Batch?
  {
  }

  lemma TailCasLocal(s: State, h: History, t: nat)
    requires Inv(s, h) && t < |s.threads| && IsTailCas(s.threads[t].pc)
    ensures Inv(SetPc(s, t, AfterTailCas(s.threads[t].pc)), h)
  {
    var thread := s.threads[t];
    var pc' := AfterTailCas(thread.pc);
    assert ThreadOk(s, h, t);
    AfterTailCasShape(thread.pc, s.ebr.slots[t].pc);
    CacheUntouched(thread.pc, pc', thread.cacheHead, thread.cacheCount, h.cache[t], t, h.loc);
    LocalStep(s, h, t, pc');
  }

  lemma ObserveTailCas(s: State, h: History, t: nat, s': State)
    requires Sized(s, h) && t < |s.threads| == |s'.threads| == |s'.ebr.slots| && IsTailCas(s.threads[t].pc)
    ensures Observe(s, h, t, s') ==
            if s'.tail != s.tail then h.(chain := h.chain.(tail := h.chain.tail + 1)) else h
  {
  }

  lemma TailCasStep(s: State, h: History, t: nat, spurious: bool)
    requires Inv(s, h) && t < |s.threads| && IsTailCas(s.threads[t].pc)
    ensures Inv(TailCas(s, t, spurious), Observe(s, h, t, TailCas(s, t, spurious)))
  {
    var s1 := SetPc(s, t, AfterTailCas(s.threads[t].pc));
    TailCasLocal(s, h, t);
    ObserveTailCas(s, h, t, TailCas(s, t, spurious));
    if s.tail == s.threads[t].pc.last && !spurious {
      TailCasTargets(s, h, t);
      TailAdvance(s1, h);
    }
  }

  // ----- what a step of one thread must respect about another -----

  predicate OwnedBy(l: Loc, u: nat) {
    !l.Linked? && l.t == u
  }

  predicate Engaged(s: State, u: nat)
    requires u < |s.threads| == |s.ebr.slots|
  {
    InAttempt(s.threads[u].pc) || s.ebr.slots[u].status.active
  }

  /** The step from (s, h) to (s', h') leaves alone what belongs to thread u. */
  predicate Respects(s: State, h: History, s': State, h': History, u: nat)
    requires Sized(s, h) && Sized(s', h') && u < |s.threads| == |s'.threads|
  {
    && s'.threads[u] == s.threads[u] && s'.ebr.slots[u] == s.ebr.slots[u]
    && s.ebr.gc <= s'.ebr.gc && s.ebr.global <= s'.ebr.global
    && h'.entry[u] == h.entry[u] && h'.retired[u] == h.retired[u] && h'.cache[u] == h.cache[u]
    && h.chain.nodes <= h'.chain.nodes && h.chain.head <= h'.chain.head
    && (Engaged(s, u) ==> Keeps(h.chain, h.loc, h'.chain, h'.loc, h.entry[u]))
    && (forall a | a in h.loc && OwnedBy(h.loc[a], u) :: a in h'.loc && h'.loc[a] == h.loc[a])
    && (forall a | a in h.loc && h.loc[a] == Private(u) && a in s.heap :: a in s'.heap && s'.heap[a] == s.heap[a])
  }

  lemma OtherThread(s: State, h: History, s': State, h': History, u: nat)
    requires Sized(s, h) && Sized(s', h') && u < |s.threads| == |s'.threads|
    requires ThreadOk(s, h, u) && Respects(s, h, s', h', u)
    requires forall p | |h.chain.nodes| <= p < |h'.chain.nodes| :: Unreleased(h'.chain, h'.loc, p)
    ensures ThreadOk(s', h', u)
  {
    var thread, status := s.threads[u], s.ebr.slots[u].status;
    ProtectedKept(status, h.entry[u], h.chain, h.loc, h'.chain, h'.loc);
    LocalsKept(thread.pc, u, h.entry[u], h.chain, h.loc, h'.chain, h'.loc, h.retired[u], s.ebr.gc, s'.ebr.gc);
    RetiredKept(thread.retired, h.retired[u], u, h.chain, h.loc, s.ebr.global, h'.chain, h'.loc, s'.ebr.global);
  }

  // ----- linking a new node -----

  lemma LinkFacts(s: State, h: History, t: nat)
    requires Sized(s, h) && IsChain(h.chain) && AddrsOk(s, h) && ThreadsOk(s, h)
    requires t < |s.threads| && s.threads[t].pc.PushLink? && s.ebr.slots[t].status.active
    ensures var PushLink(node, value, last) := s.threads[t].pc;
            && node.Ptr? && node.addr in h.loc && h.loc[node.addr] == Private(t)
            && node.addr in s.heap && s.heap[node.addr] == Node(Null, value, false)
            && Holds(h.chain, h.loc, h.entry[t], last) && last.addr in s.heap
            && Position(h.loc, last) <= h.chain.tail
            && (s.heap[last.addr].next == Null ==> Position(h.loc, last) == |h.chain.nodes| - 1 == h.chain.tail)
  {
    var PushLink(node, value, last) := s.threads[t].pc;
    assert ThreadOk(s, h, t);
    assert AddrOk(s, h, node.addr);
    HeldNode(s, h, h.entry[t], last);
    NextHeld(s, h, t, last);
  }

  /** The state and history after the linking CAS succeeded. */
  function LinkedState(s: State, t: nat, node: Ptr, last: Ptr): State
    requires t < |s.threads| && last.Ptr? && last.addr in s.heap
  {
    SetPc(s, t, PushSwing(node, last)).(heap := s.heap[last.addr := s.heap[last.addr].(next := node)])
  }

  function LinkedHistory(h: History, node: Ptr, value: nat): History
    requires node.Ptr?
  {
    h.(chain := Link(h.chain, node, value), loc := h.loc[node.addr := Linked(|h.chain.nodes|)])
  }

  /** The CAS of thread t is about to link `node` behind the last node `last`. */
  predicate Linking(s: State, h: History, t: nat, node: Ptr, value: nat, last: Ptr)
    requires Sized(s, h)
  {
    && t < |s.threads| && s.threads[t].pc == PushLink(node, value, last)
    && IsChain(h.chain)
    && node.Ptr? && node.addr in h.loc && h.loc[node.addr] == Private(t)
    && node.addr in s.heap && s.heap[node.addr] == Node(Null, value, false)
    && Holds(h.chain, h.loc, h.entry[t], last) && last.addr in s.heap
    && Position(h.loc, last) == |h.chain.nodes| - 1 == h.chain.tail
  }

  lemma LinkAddrs(s: State, h: History, t: nat, node: Ptr, value: nat, last: Ptr)
    requires Sized(s, h) && AddrsOk(s, h) && Linking(s, h, t, node, value, last)
    ensures AddrsOk(LinkedState(s, t, node, last), LinkedHistory(h, node, value))
  {
    var s', h' := LinkedState(s, t, node, last), LinkedHistory(h, node, value);
    forall a | a in h'.loc ensures AddrOk(s', h', a) {
      assert AddrOk(s, h, a);
      if a == node.addr {
        assert NodeOk(h'.chain, s'.heap[a], a, |h.chain.nodes|);
      } else if a == last.addr {
        assert NodeOk(h'.chain, s'.heap[a], a, |h.chain.nodes| - 1);
      } else if OnChain(h.loc[a]) {
        assert h.loc[a].pos < |h.chain.nodes| - 1;
        assert NodeOk(h'.chain, s'.heap[a], a, h.loc[a].pos);
      }
    }
  }

  lemma LinkRespects(s: State, h: History, t: nat, node: Ptr, value: nat, last: Ptr, u: nat)
    requires Sized(s, h) && Linking(s, h, t, node, value, last) && u < |s.threads| && u != t
    ensures Respects(s, h, LinkedState(s, t, node, last), LinkedHistory(h, node, value), u)
    ensures Unreleased(LinkedHistory(h, node, value).chain, LinkedHistory(h, node, value).loc, |h.chain.nodes|)
  {
  }

  lemma LinkSelf(s: State, h: History, t: nat, node: Ptr, value: nat, last: Ptr)
    requires Sized(s, h) && Linking(s, h, t, node, value, last)
    requires ThreadOk(s, h, t) && s.ebr.slots[t].status.active
    ensures ThreadOk(LinkedState(s, t, node, last), LinkedHistory(h, node, value), t)
  {
    var h' := LinkedHistory(h, node, value);
    var thread := s.threads[t];
    assert Keeps(h.chain, h.loc, h'.chain, h'.loc, h.entry[t]);
    assert Unreleased(h'.chain, h'.loc, |h.chain.nodes|);
    ProtectedKept(s.ebr.slots[t].status, h.entry[t], h.chain, h.loc, h'.chain, h'.loc);
    RetiredKept(thread.retired, h.retired[t], t, h.chain, h.loc, s.ebr.global, h'.chain, h'.loc, s.ebr.global);
    CacheKept(thread.pc, thread.cacheHead, thread.cacheCount, h.cache[t], t, h.loc, h'.loc);
    CacheUntouched(thread.pc, PushSwing(node, last), thread.cacheHead, thread.cacheCount, h.cache[t], t, h'.loc);
    HoldsKept(h.chain, h.loc, h'.chain, h'.loc, h.entry[t], last);
  }

  lemma LinkThreads(s: State, h: History, t: nat, node: Ptr, value: nat, last: Ptr)
    requires Sized(s, h) && ThreadsOk(s, h) && Linking(s, h, t, node, value, last)
    requires s.ebr.slots[t].status.active
    ensures ThreadsOk(LinkedState(s, t, node, last), LinkedHistory(h, node, value))
  {
    var s', h' := LinkedState(s, t, node, last), LinkedHistory(h, node, value);
    forall u | 0 <= u < |s.threads| ensures ThreadOk(s', h', u) {
      assert ThreadOk(s, h, u);
      if u != t {
        LinkRespects(s, h, t, node, value, last, u);
        OtherThread(s, h, s', h', u);
      } else {
        LinkSelf(s, h, t, node, value, last);
      }
    }
  }

  lemma LinkChain(s: State, h: History, t: nat, node: Ptr, value: nat, last: Ptr)
    requires Sized(s, h) && ChainOk(s, h) && Linking(s, h, t, node, value, last)
    ensures ChainOk(LinkedState(s, t, node, last), LinkedHistory(h, node, value))
  {
  }

  lemma LinkInv(s: State, h: History, t: nat, node: Ptr, value: nat, last: Ptr)
    requires Inv(s, h) && Linking(s, h, t, node, value, last) && s.ebr.slots[t].status.active
    ensures Inv(LinkedState(s, t, node, last), LinkedHistory(h, node, value))
  {
    LinkAddrs(s, h, t, node, value, last);
    LinkThreads(s, h, t, node, value, last);
    LinkChain(s, h, t, node, value, last);
    PairsKept(s, h, LinkedState(s, t, node, last), LinkedHistory(h, node, value));
  }

  lemma ObserveLink(s: State, h: History, t: nat, s': State)
    requires Sized(s, h) && t < |s.threads| == |s'.threads| == |s'.ebr.slots|
    requires s.threads[t].pc.PushLink? && s.threads[t].pc.node.Ptr?
    ensures Observe(s, h, t, s') ==
            if s'.threads[t].pc.PushSwing? then LinkedHistory(h, s.threads[t].pc.node, s.threads[t].pc.value) else h
  {
  }

  lemma LinkCasStep(s: State, h: History, t: nat, spurious: bool)
    requires Inv(s, h) && t < |s.threads| && s.threads[t].pc.PushLink?
    ensures Inv(LinkCas(s, t, spurious), Observe(s, h, t, LinkCas(s, t, spurious)))
  {
    var PushLink(node, value, last) := s.threads[t].pc;
    InsideIsActive(s, h, t);
    LinkFacts(s, h, t);
    ObserveLink(s, h, t, LinkCas(s, t, spurious));
    if s.heap[last.addr].next == Null && !spurious {
      LinkInv(s, h, t, node, value, last);
    } else {
      RetryStep(s, h, t);
    }
  }

  // ----- removing the first element -----

  function UnlinkedState(s: State, t: nat, first: Ptr, next: Ptr, value: nat): State
    requires t < |s.threads|
  {
    SetPc(s, t, PopRetire(first, value)).(head := next)
  }

  function UnlinkedHistory(h: History, t: nat, first: Ptr, value: nat): History
    requires first.Ptr?
  {
    h.(chain := h.chain.(head := h.chain.head + 1),
       loc := h.loc[first.addr := Popped(t, h.chain.head)],
       delivered := h.delivered + [value])
  }

  /** The CAS of thread t is about to move head_ from `first` to `next`. */
  predicate Unlinking(s: State, h: History, t: nat, first: Ptr, next: Ptr, value: nat)
    requires Sized(s, h)
  {
    && t < |s.threads| && s.threads[t].pc == PopSwing(first, next, value)
    && IsChain(h.chain) && h.chain.head < h.chain.tail
    && first.Ptr? && first.addr in h.loc && h.loc[first.addr] == Linked(h.chain.head)
    && h.entry[t] <= h.chain.head && h.chain.nodes[h.chain.head] == first
    && h.chain.nodes[h.chain.head + 1] == next && h.chain.values[h.chain.head + 1] == value
  }

  lemma HeadFacts(s: State, h: History, t: nat)
    requires Sized(s, h) && ChainOk(s, h) && ThreadsOk(s, h)
    requires t < |s.threads| && s.threads[t].pc.PopSwing? && s.head == s.threads[t].pc.first
    ensures var PopSwing(first, next, value) := s.threads[t].pc; Unlinking(s, h, t, first, next, value)
  {
    assert ThreadOk(s, h, t);
    assert h.loc[s.head.addr] == Linked(h.chain.head);
  }

  lemma UnlinkAddrs(s: State, h: History, t: nat, first: Ptr, next: Ptr, value: nat)
    requires Sized(s, h) && AddrsOk(s, h) && Unlinking(s, h, t, first, next, value)
    ensures AddrsOk(UnlinkedState(s, t, first, next, value), UnlinkedHistory(h, t, first, value))
  {
    var s', h' := UnlinkedState(s, t, first, next, value), UnlinkedHistory(h, t, first, value);
    forall a | a in h'.loc ensures AddrOk(s', h', a) {
      assert AddrOk(s, h, a);
      if OnChain(h.loc[a]) {
        assert NodeOk(h.chain, s.heap[a], a, h.loc[a].pos);
        assert NodeOk(h'.chain, s'.heap[a], a, h'.loc[a].pos);
      }
    }
  }

  lemma UnlinkRespects(s: State, h: History, t: nat, first: Ptr, next: Ptr, value: nat, u: nat)
    requires Sized(s, h) && Unlinking(s, h, t, first, next, value) && u < |s.threads| && u != t
    ensures Respects(s, h, UnlinkedState(s, t, first, next, value), UnlinkedHistory(h, t, first, value), u)
  {
  }

  lemma UnlinkSelf(s: State, h: History, t: nat, first: Ptr, next: Ptr, value: nat)
    requires Sized(s, h) && Unlinking(s, h, t, first, next, value) && ThreadOk(s, h, t)
    ensures ThreadOk(UnlinkedState(s, t, first, next, value), UnlinkedHistory(h, t, first, value), t)
  {
    var h' := UnlinkedHistory(h, t, first, value);
    var thread := s.threads[t];
    assert Keeps(h.chain, h.loc, h'.chain, h'.loc, h.entry[t]);
    ProtectedKept(s.ebr.slots[t].status, h.entry[t], h.chain, h.loc, h'.chain, h'.loc);
    RetiredKept(thread.retired, h.retired[t], t, h.chain, h.loc, s.ebr.global, h'.chain, h'.loc, s.ebr.global);
    CacheKept(thread.pc, thread.cacheHead, thread.cacheCount, h.cache[t], t, h.loc, h'.loc);
    CacheUntouched(thread.pc, PopRetire(first, value), thread.cacheHead, thread.cacheCount, h.cache[t], t, h'.loc);
    forall i | 0 <= i < |h.retired[t]| ensures h.retired[t][i] < h.chain.head {
      assert RecordOk(thread.retired[i], h.retired[t][i], t, h.chain, h.loc, s.ebr.global);
    }
  }

  lemma UnlinkThreads(s: State, h: History, t: nat, first: Ptr, next: Ptr, value: nat)
    requires Sized(s, h) && ThreadsOk(s, h) && Unlinking(s, h, t, first, next, value)
    ensures ThreadsOk(UnlinkedState(s, t, first, next, value), UnlinkedHistory(h, t, first, value))
  {
    var s', h' := UnlinkedState(s, t, first, next, value), UnlinkedHistory(h, t, first, value);
    forall u | 0 <= u < |s.threads| ensures ThreadOk(s', h', u) {
      assert ThreadOk(s, h, u);
      if u != t {
        UnlinkRespects(s, h, t, first, next, value, u);
        OtherThread(s, h, s', h', u);
      } else {
        UnlinkSelf(s, h, t, first, next, value);
      }
    }
  }

  lemma UnlinkChain(s: State, h: History, t: nat, first: Ptr, next: Ptr, value: nat)
    requires Sized(s, h) && ChainOk(s, h) && Unlinking(s, h, t, first, next, value)
    ensures ChainOk(UnlinkedState(s, t, first, next, value), UnlinkedHistory(h, t, first, value))
  {
  }

  lemma UnlinkInv(s: State, h: History, t: nat, first: Ptr, next: Ptr, value: nat)
    requires Inv(s, h) && Unlinking(s, h, t, first, next, value)
    ensures Inv(UnlinkedState(s, t, first, next, value), UnlinkedHistory(h, t, first, value))
  {
    UnlinkAddrs(s, h, t, first, next, value);
    UnlinkThreads(s, h, t, first, next, value);
    UnlinkChain(s, h, t, first, next, value);
    PairsKept(s, h, UnlinkedState(s, t, first, next, value), UnlinkedHistory(h, t, first, value));
  }

  lemma ObserveUnlink(s: State, h: History, t: nat, s': State)
    requires Sized(s, h) && t < |s.threads| == |s'.threads| == |s'.ebr.slots|
    requires s.threads[t].pc.PopSwing?
    ensures Observe(s, h, t, s') ==
            if s'.threads[t].pc.PopRetire? && s.threads[t].pc.first.Ptr? then
              UnlinkedHistory(h, t, s.threads[t].pc.first, s.threads[t].pc.value)
            else h
  {
  }

  lemma HeadCasStep(s: State, h: History, t: nat)
    requires Inv(s, h) && t < |s.threads| && s.threads[t].pc.PopSwing?
    ensures Inv(HeadCas(s, t), Observe(s, h, t, HeadCas(s, t)))
  {
    var PopSwing(first, next, value) := s.threads[t].pc;
    ObserveUnlink(s, h, t, HeadCas(s, t));
    if s.head == first {
      HeadFacts(s, h, t);
      UnlinkInv(s, h, t, first, next, value);
    } else {
      RetryStep(s, h, t);
    }
  }
}
