/** The invariant of the queue machine. It speaks about a history that is recorded beside
    the machine; the machine's own steps (QueueMachine) cannot read it. */
module QueueInvariant {
  import opened Basics
  import opened QueueMachine
  import Ebr

  /** Where an allocated node is: held by a thread that has not linked it yet, at a position
      of the chain, unlinked from that position by a thread, or in a thread's cache. */
  datatype Loc =
    | Private(t: nat)
    | Linked(pos: nat)
    | Popped(t: nat, pos: nat)
    | Cached(t: nat, i: nat)

  /** `nodes` and `values` list everything ever linked, oldest first; `head` and `tail` are
      the positions head_ and tail_ point to. */
  datatype Chain = Chain(nodes: seq<Ptr>, values: seq<nat>, head: nat, tail: nat)

  /** `entry[t]` is the head position when thread t last entered an epoch, `retired[t]` the
      positions in t's retire list, `cache[t]` t's cache from the bottom up, and `delivered`
      the values taken by successful pops. */
  datatype History = History(
    chain: Chain,
    loc: map<nat, Loc>,
    entry: seq<nat>,
    retired: seq<seq<nat>>,
    cache: seq<seq<Ptr>>,
    delivered: seq<nat>)

  function InitHistory(threads: nat): History {
    History(Chain([Ptr(0, 0)], [0], 0, 0), map[0 := Linked(0)],
            seq(threads, _ => 0), seq(threads, _ => []), seq(threads, _ => []), [])
  }

  // ----- recording -----

  function DropLast<T>(s: seq<T>): seq<T> {
    if s == [] then [] else s[..|s| - 1]
  }

  function Position(loc: map<nat, Loc>, p: Ptr): nat {
    if p.Ptr? && p.addr in loc && (loc[p.addr].Linked? || loc[p.addr].Popped?) then loc[p.addr].pos else 0
  }

  predicate Sized(s: State, h: History) {
    |h.entry| == |h.retired| == |h.cache| == |s.threads| == |s.ebr.slots|
  }

  function Link(c: Chain, node: Ptr, value: nat): Chain {
    c.(nodes := c.nodes + [node], values := c.values + [value])
  }

  /** The history after thread t made the step from s to s'. */
  function Observe(s: State, h: History, t: nat, s': State): History
    requires Sized(s, h) && t < |s.threads| == |s'.threads| == |s'.ebr.slots|
  {
    var thread, thread' := s.threads[t], s'.threads[t];
    match thread.pc
    case Allocating(_) =>
      (match thread'.pc
       case Entering(Pushing(Ptr(a, _), _)) =>
         h.(loc := h.loc[a := Private(t)],
            cache := if thread.cacheHead.Null? then h.cache else h.cache[t := DropLast(h.cache[t])])
       case _ => h)
    case Entering(_) =>
      if s'.ebr.slots[t].pc.Inside? then h.(entry := h.entry[t := h.chain.head]) else h
    case PushLink(node, value, _) =>
      if thread'.pc.PushSwing? && node.Ptr? then
        h.(chain := Link(h.chain, node, value), loc := h.loc[node.addr := Linked(|h.chain.nodes|)])
      else h
    case PopSwing(first, _, value) =>
      if thread'.pc.PopRetire? && first.Ptr? then
        h.(chain := h.chain.(head := h.chain.head + 1),
           loc := h.loc[first.addr := Popped(t, h.chain.head)],
           delivered := h.delivered + [value])
      else h
    case PopRetire(first, _) =>
      h.(retired := h.retired[t := h.retired[t] + [Position(h.loc, first)]])
    case Reclaim(_, _) =>
      if |thread'.retired| < |thread.retired| && thread.retired[0].ptr.Ptr? && h.retired[t] != [] then
        var p := thread.retired[0].ptr;
        h.(loc := h.loc[p.addr := Cached(t, |h.cache[t]|)],
           cache := h.cache[t := h.cache[t] + [p]],
           retired := h.retired[t := h.retired[t][1..]])
      else h
    case Batch(_, _, _) =>
      if thread'.pc.Batch? && thread.cacheHead.Ptr? then
        h.(loc := h.loc - {thread.cacheHead.addr}, cache := h.cache[t := DropLast(h.cache[t])])
      else h
    case _ =>
      if s'.tail != s.tail then h.(chain := h.chain.(tail := h.chain.tail + 1)) else h
  }

  function Extend(s: State, h: History, a: Action): History
    requires Sized(s, h) && Enabled(s, a)
  {
    match a
    case Step(t, _, _) => Observe(s, h, t, Next(s, a))
    case _ => h
  }

  // ----- the invariant, component by component -----

  predicate IsChain(c: Chain) {
    c.head <= c.tail < |c.nodes| == |c.values| <= c.tail + 2
  }

  /** The sequence of values the queue holds. */
  function Contents(c: Chain): seq<nat>
    requires c.head < |c.values|
  {
    c.values[c.head + 1..]
  }

  predicate ChainOk(s: State, h: History) {
    var c := h.chain;
    && IsChain(c)
    && s.head == c.nodes[c.head]
    && s.tail == c.nodes[c.tail]
    && h.delivered == c.values[1..c.head + 1]
    && forall p | c.head <= p < |c.nodes| ::
         c.nodes[p].Ptr? && c.nodes[p].addr in h.loc && h.loc[c.nodes[p].addr] == Linked(p)
  }

  /** The chain node at position p, as its fields must be while nobody released it. */
  predicate NodeOk(c: Chain, cell: Node, a: nat, p: nat) {
    && p < |c.nodes| == |c.values|
    && c.nodes[p].Ptr? && c.nodes[p].addr == a
    && cell == Node(if p + 1 < |c.nodes| then c.nodes[p + 1] else Null, c.values[p], false)
  }

  /** What a thread still has to push, if anything. */
  function Carried(pc: Pc): Job {
    match pc
    case Entering(job) => job
    case PushTail(node, value) => Pushing(node, value)
    case PushNext(node, value, _) => Pushing(node, value)
    case PushLink(node, value, _) => Pushing(node, value)
    case PushHelp(node, value, _, _) => Pushing(node, value)
    case Exiting(Again(job)) => job
    case LoadGc(Again(job)) => job
    case Reclaim(Again(job), _) => job
    case Batch(Again(job), _, _) => job
    case _ => Popping
  }

  predicate Carries(pc: Pc, a: nat) {
    Carried(pc).Pushing? && Carried(pc).node.Ptr? && Carried(pc).node.addr == a
  }

  predicate Unlinked(pc: Pc, p: Ptr) {
    pc.PopRetire? && pc.first == p
  }

  /** The node at address a, given where the history says it is. */
  predicate CellOk(cell: Node, l: Loc, a: nat, c: Chain) {
    match l
    case Private(t) => cell.next.Null? && !cell.released
    case Linked(p) => c.head <= p && NodeOk(c, cell, a, p)
    case Popped(t, p) => p < c.head && NodeOk(c, cell, a, p)
    case Cached(t, i) => cell.released
  }

  /** The thread that the history says is responsible for address a really is. */
  predicate OwnedOk(l: Loc, a: nat, c: Chain, retired: seq<seq<nat>>, cache: seq<seq<Ptr>>, threads: seq<Thread>, cell: Node)
    requires |retired| == |cache| == |threads|
  {
    match l
    case Linked(_) => true
    case Private(t) => t < |threads| && Carries(threads[t].pc, a)
    case Popped(t, p) =>
      t < |threads| && p < |c.nodes| && (p in retired[t] || Unlinked(threads[t].pc, c.nodes[p]))
    case Cached(t, i) =>
      && t < |threads| && i < |cache[t]|
      && cache[t][i].Ptr? && cache[t][i].addr == a
      && cell.next == (if i == 0 then Null else cache[t][i - 1])
  }

  /** The retire list of thread t: one record per position, oldest first. */
  predicate RetiredOk(records: seq<Record>, positions: seq<nat>, t: nat, c: Chain, loc: map<nat, Loc>, epoch: nat) {
    && |positions| == |records|
    && (forall i | 0 <= i < |positions| :: RecordOk(records[i], positions[i], t, c, loc, epoch))
    && (forall i, j | 0 <= i < j < |positions| ::
          positions[i] < positions[j] && records[i].epoch <= records[j].epoch)
  }

  predicate RecordOk(r: Record, p: nat, t: nat, c: Chain, loc: map<nat, Loc>, epoch: nat) {
    && p < c.head && p < |c.nodes|
    && r.ptr == c.nodes[p]
    && r.ptr.Ptr? && r.ptr.addr in loc && loc[r.ptr.addr] == Popped(t, p)
    && r.epoch <= epoch
  }

  predicate CacheOk(pc: Pc, head: Ptr, count: int, cells: seq<Ptr>, t: nat, loc: map<nat, Loc>) {
    && count == |cells|
    && head == (if cells == [] then Null else cells[|cells| - 1])
    && (forall i | 0 <= i < |cells| :: cells[i].Ptr? && cells[i].addr in loc && loc[cells[i].addr] == Cached(t, i))
    && match pc
       case Batch(_, _, left) => left <= BATCH_RELEASE_COUNT && |cells| == CACHE_COUNT - BATCH_RELEASE_COUNT + left
       case _ => |cells| < CACHE_COUNT
  }

  /** Position p of the chain has not been released. */
  predicate Unreleased(c: Chain, loc: map<nat, Loc>, p: nat) {
    && p < |c.nodes|
    && c.nodes[p].Ptr? && c.nodes[p].addr in loc
    && (loc[c.nodes[p].addr].Linked? || loc[c.nodes[p].addr].Popped?)
    && loc[c.nodes[p].addr].pos == p
  }

  /** While a thread is inside an epoch, no position from its entry on is released... */
  predicate ProtectedOk(status: Ebr.Status, entry: nat, c: Chain, loc: map<nat, Loc>) {
    status.active ==>
      entry <= c.head && (forall p | entry <= p < |c.nodes| :: Unreleased(c, loc, p))
  }

  /** ... because every retire record of such a position carries an epoch that holds it back. */
  predicate HeldBack(status: Ebr.Status, entry: nat, records: seq<Record>, positions: seq<nat>)
  {
    status.active ==>
      forall i | 0 <= i < |positions| && i < |records| ::
        positions[i] >= entry ==> records[i].epoch >= status.epoch
  }

  /** p is the node at an unreleased position not before `entry`. */
  predicate Holds(c: Chain, loc: map<nat, Loc>, entry: nat, p: Ptr) {
    && p.Ptr? && p.addr in loc
    && (loc[p.addr].Linked? || loc[p.addr].Popped?)
    && entry <= Position(loc, p) < |c.nodes|
    && c.nodes[Position(loc, p)] == p
  }

  predicate Follows(loc: map<nat, Loc>, p: Ptr, q: Ptr) {
    Position(loc, q) == Position(loc, p) + 1
  }

  /** What the local variables of a thread satisfy at each program point. */
  predicate LocalsOk(pc: Pc, t: nat, entry: nat, c: Chain, loc: map<nat, Loc>, retired: seq<nat>, gc: int) {
    match pc
    case PopTail(first) => Holds(c, loc, entry, first) && Position(loc, first) <= c.head
    case PopNext(first, last) =>
      && Holds(c, loc, entry, first) && Holds(c, loc, entry, last)
      && Position(loc, first) <= c.head && Position(loc, first) <= Position(loc, last) <= c.tail
    case PopHelp(last, next) =>
      Holds(c, loc, entry, last) && Holds(c, loc, entry, next) && Follows(loc, last, next)
    case PopValue(first, next) =>
      && Holds(c, loc, entry, first) && Holds(c, loc, entry, next) && Follows(loc, first, next)
      && Position(loc, first) < c.tail
    case PopSwing(first, next, value) =>
      && Holds(c, loc, entry, first) && Holds(c, loc, entry, next) && Follows(loc, first, next)
      && Position(loc, first) < c.tail
      && Position(loc, next) < |c.values| && value == c.values[Position(loc, next)]
    case PopRetire(first, value) =>
      && Holds(c, loc, entry, first) && loc[first.addr] == Popped(t, Position(loc, first))
      && Position(loc, first) < c.head
      && Position(loc, first) + 1 < |c.values| && value == c.values[Position(loc, first) + 1]
      && (forall i | 0 <= i < |retired| :: retired[i] < Position(loc, first))
    case PushNext(_, _, last) => Holds(c, loc, entry, last) && Position(loc, last) <= c.tail
    case PushLink(_, _, last) => Holds(c, loc, entry, last) && Position(loc, last) <= c.tail
    case PushHelp(_, _, last, next) =>
      Holds(c, loc, entry, last) && Holds(c, loc, entry, next) && Follows(loc, last, next)
    case PushSwing(node, last) =>
      Holds(c, loc, entry, last) && Holds(c, loc, entry, node) && Follows(loc, last, node)
    case Reclaim(_, seen) => seen <= gc
    case Batch(_, seen, _) => seen <= gc
    case _ => true
  }

  predicate CarriedOk(job: Job, t: nat, loc: map<nat, Loc>, heap: map<nat, Node>) {
    match job
    case Popping => true
    case Pushing(node, value) =>
      && node.Ptr? && node.addr in loc && loc[node.addr] == Private(t)
      && node.addr in heap && heap[node.addr].value == value
  }

  predicate InAttempt(pc: Pc) {
    !pc.Idle? && !pc.Allocating? && !pc.Entering? && !pc.Exiting? && !pc.LoadGc? && !pc.Reclaim? && !pc.Batch?
  }

  predicate EpochPcOk(pc: Pc, slot: Ebr.SlotPc) {
    if InAttempt(pc) then slot.Inside?
    else if pc.Entering? then slot.Outside? || slot.EnterLoaded? || slot.EnterSnapshot?
    else if pc.Exiting? then slot.Inside? || slot.ExitLoaded?
    else slot.Outside?
  }

  predicate AddrOk(s: State, h: History, a: nat)
    requires Sized(s, h) && a in h.loc
  {
    && a in s.heap
    && CellOk(s.heap[a], h.loc[a], a, h.chain)
    && OwnedOk(h.loc[a], a, h.chain, h.retired, h.cache, s.threads, s.heap[a])
  }

  predicate ThreadOk(s: State, h: History, t: nat)
    requires Sized(s, h) && t < |s.threads|
  {
    var thread, slot := s.threads[t], s.ebr.slots[t];
    && EpochPcOk(thread.pc, slot.pc)
    && RetiredOk(thread.retired, h.retired[t], t, h.chain, h.loc, s.ebr.global)
    && CacheOk(thread.pc, thread.cacheHead, thread.cacheCount, h.cache[t], t, h.loc)
    && ProtectedOk(slot.status, h.entry[t], h.chain, h.loc)
    && LocalsOk(thread.pc, t, h.entry[t], h.chain, h.loc, h.retired[t], s.ebr.gc)
    && CarriedOk(Carried(thread.pc), t, h.loc, s.heap)
  }

  predicate PairOk(s: State, h: History, t: nat, u: nat)
    requires Sized(s, h) && t < |s.threads| && u < |s.threads|
  {
    HeldBack(s.ebr.slots[t].status, h.entry[t], s.threads[u].retired, h.retired[u])
  }

  predicate AddrsOk(s: State, h: History)
    requires Sized(s, h)
  {
    h.loc.Keys == s.heap.Keys && forall a | a in h.loc :: AddrOk(s, h, a)
  }

  predicate ThreadsOk(s: State, h: History)
    requires Sized(s, h)
  {
    forall t | 0 <= t < |s.threads| :: ThreadOk(s, h, t)
  }

  predicate PairsOk(s: State, h: History)
    requires Sized(s, h)
  {
    forall t, u | 0 <= t < |s.threads| && 0 <= u < |s.threads| :: PairOk(s, h, t, u)
  }

  predicate Inv(s: State, h: History) {
    Sized(s, h) && Ebr.Inv(s.ebr) && ChainOk(s, h) && AddrsOk(s, h) && ThreadsOk(s, h) && PairsOk(s, h)
  }
}
