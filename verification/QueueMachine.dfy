/** The lock-free job queue of src/memory/ts_linked_list.h together with the per-thread
    node caches of src/memory/ts_linked_list.cpp and epoch-based reclamation, as a step
    system: one step per atomic load, store or CAS on shared memory. Work a thread does on
    memory of its own (its cache, its retire list, a node nobody else can reach) is folded
    into the step before or after it. */
module QueueMachine {
  import opened Basics
  import Ebr

  const TAG_LIMIT := 0x1_0000

  /** A tagged pointer: 48 bits of address and a 16 bit tag. */
  datatype Ptr = Null | Ptr(addr: nat, tag: nat)

  datatype Node = Node(next: Ptr, value: nat, released: bool)

  datatype Record = Record(ptr: Ptr, epoch: nat)

  datatype Result = NoResult | Empty | Got(value: nat) | Pushed

  /** The call a thread is in the middle of. */
  datatype Job = Popping | Pushing(node: Ptr, value: nat)

  /** What follows exit_epoch: another round of the retry loop, or the return. */
  datatype After = Again(job: Job) | Finish(result: Result)

  /** Program counter and live local variables of one thread. */
  datatype Pc =
    | Idle(result: Result)
    | Allocating(value: nat)
    | Entering(job: Job)
    // pop_front
    | PopHead
    | PopTail(first: Ptr)
    | PopNext(first: Ptr, last: Ptr)
    | PopHelp(last: Ptr, next: Ptr)
    | PopValue(first: Ptr, next: Ptr)
    | PopSwing(first: Ptr, next: Ptr, value: nat)
    | PopRetire(first: Ptr, value: nat)
    // push_back
    | PushTail(node: Ptr, value: nat)
    | PushNext(node: Ptr, value: nat, last: Ptr)
    | PushLink(node: Ptr, value: nat, last: Ptr)
    | PushHelp(node: Ptr, value: nat, last: Ptr, next: Ptr)
    | PushSwing(node: Ptr, last: Ptr)
    // exit_epoch
    | Exiting(after: After)
    | LoadGc(after: After)
    | Reclaim(after: After, gc: int)
    | Batch(after: After, gc: int, left: nat)

  datatype Thread = Thread(pc: Pc, retired: seq<Record>, cacheHead: Ptr, cacheCount: int)

  datatype State = State(
    ebr: Ebr.State,
    heap: map<nat, Node>,
    head: Ptr,
    tail: Ptr,
    threads: seq<Thread>)

  /** The queue after its one call of init: a single dummy node. */
  function Init(threads: nat): State {
    State(
      Ebr.Init(threads),
      map[0 := Node(Null, 0, false)],
      Ptr(0, 0),
      Ptr(0, 0),
      seq(threads, _ => Thread(Idle(NoResult), [], Null, 0)))
  }

  /** A dereference. What a dangling pointer yields does not matter: it is proved never
      to be followed. */
  function Load(s: State, p: Ptr): Node {
    if p.Ptr? && p.addr in s.heap then s.heap[p.addr] else Node(Null, 0, true)
  }

  function SetThread(s: State, t: nat, thread: Thread): State
    requires t < |s.threads|
  {
    s.(threads := s.threads[t := thread])
  }

  function SetPc(s: State, t: nat, pc: Pc): State
    requires t < |s.threads|
  {
    SetThread(s, t, s.threads[t].(pc := pc))
  }

  // ----- steps that only read shared memory -----

  predicate IsLoad(pc: Pc) {
    pc.PopHead? || pc.PopTail? || pc.PopNext? || pc.PopValue? || pc.PushTail? || pc.PushNext? || pc.LoadGc?
  }

  function AfterLoad(s: State, pc: Pc): Pc
    requires IsLoad(pc)
  {
    match pc
    case PopHead => PopTail(s.head)
    case PopTail(first) => PopNext(first, s.tail)
    case PopNext(first, last) =>
      var next := Load(s, first).next;
      if first.Ptr? && last.Ptr? && first.addr == last.addr then
        if next.Null? then Exiting(Finish(Empty)) else PopHelp(last, next)
      else
        if next.Null? then Exiting(Again(Popping)) else PopValue(first, next)
    case PopValue(first, next) => PopSwing(first, next, Load(s, next).value)
    case PushTail(node, value) => PushNext(node, value, s.tail)
    case PushNext(node, value, last) =>
      var next := Load(s, last).next;
      if next.Null? then PushLink(node, value, last) else PushHelp(node, value, last, next)
    case LoadGc(after) => Reclaim(after, s.ebr.gc)
  }

  // ----- compare-and-swap steps -----

  predicate IsTailCas(pc: Pc) {
    pc.PopHelp? || pc.PushHelp? || pc.PushSwing?
  }

  function TailCasTarget(pc: Pc): Ptr
    requires IsTailCas(pc)
  {
    if pc.PushSwing? then pc.node else pc.next
  }

  function AfterTailCas(pc: Pc): Pc
    requires IsTailCas(pc)
  {
    match pc
    case PopHelp(_, _) => Exiting(Again(Popping))
    case PushHelp(node, value, _, _) => Exiting(Again(Pushing(node, value)))
    case PushSwing(_, _) => Exiting(Finish(Pushed))
  }

  /** The weak CAS that moves tail_ from `last` to its successor; its outcome is ignored. */
  function TailCas(s: State, t: nat, spurious: bool): State
    requires t < |s.threads| && IsTailCas(s.threads[t].pc)
  {
    var pc := s.threads[t].pc;
    var s1 := SetPc(s, t, AfterTailCas(pc));
    if s.tail == pc.last && !spurious then s1.(tail := TailCasTarget(pc)) else s1
  }

  /** The weak CAS that links a new node behind `last`. */
  function LinkCas(s: State, t: nat, spurious: bool): State
    requires t < |s.threads| && s.threads[t].pc.PushLink?
  {
    var PushLink(node, value, last) := s.threads[t].pc;
    if last.Ptr? && last.addr in s.heap && s.heap[last.addr].next == Null && !spurious then
      SetPc(s, t, PushSwing(node, last)).(heap := s.heap[last.addr := s.heap[last.addr].(next := node)])
    else
      SetPc(s, t, Exiting(Again(Pushing(node, value))))
  }

  /** The strong CAS that removes the first element. */
  function HeadCas(s: State, t: nat): State
    requires t < |s.threads| && s.threads[t].pc.PopSwing?
  {
    var PopSwing(first, next, value) := s.threads[t].pc;
    if s.head == first then
      SetPc(s, t, PopRetire(first, value)).(head := next)
    else
      SetPc(s, t, Exiting(Again(Popping)))
  }

  // ----- memory management -----

  predicate CanAllocate(s: State, t: nat, spare: nat) {
    t < |s.threads| && s.threads[t].pc.Allocating? && (s.threads[t].cacheHead.Null? ==> spare !in s.heap)
  }

  /** TSLinkedListNodeAllocator::get and the initialisation of the node by push_back. */
  function Allocate(s: State, t: nat, spare: nat): State
    requires CanAllocate(s, t, spare)
  {
    var thread := s.threads[t];
    var value := thread.pc.value;
    var cached := thread.cacheHead.Ptr?;
    var got := if cached then thread.cacheHead else Ptr(spare, 0);
    var node := Ptr(got.addr, (got.tag + 1) % TAG_LIMIT);
    var thread' :=
      if cached then
        thread.(cacheHead := Load(s, got).next, cacheCount := thread.cacheCount - 1)
      else
        thread;
    SetThread(s, t, thread'.(pc := Entering(Pushing(node, value))))
      .(heap := s.heap[node.addr := Node(Null, value, false)])
  }

  /** EpochBasedReclamation::retire: global_epoch_ is loaded and the record appended. */
  function Retire(s: State, t: nat): State
    requires t < |s.threads| && s.threads[t].pc.PopRetire?
  {
    var PopRetire(first, value) := s.threads[t].pc;
    SetThread(s, t, s.threads[t].(
      pc := Exiting(Finish(Got(value))),
      retired := s.threads[t].retired + [Record(first, s.ebr.global)]))
  }

  function Continue(after: After): Pc {
    match after
    case Again(job) => Entering(job)
    case Finish(result) => Idle(result)
  }

  predicate CanRelease(thread: Thread) {
    thread.pc.Reclaim? && thread.retired != [] && thread.retired[0].epoch <= thread.pc.gc
  }

  /** One round of the loop of exit_epoch that hands retired nodes to the cache. */
  function ReclaimStep(s: State, t: nat): State
    requires t < |s.threads| && s.threads[t].pc.Reclaim?
  {
    var thread := s.threads[t];
    var Reclaim(after, gc) := thread.pc;
    if CanRelease(thread) then
      var p := thread.retired[0].ptr;
      var count := thread.cacheCount + 1;
      var s1 := SetThread(s, t, Thread(
        if count >= CACHE_COUNT then Batch(after, gc, BATCH_RELEASE_COUNT) else thread.pc,
        thread.retired[1..],
        p,
        count));
      if p.Ptr? then
        s1.(heap := s.heap[p.addr := Load(s, p).(released := true, next := thread.cacheHead)])
      else
        s1
    else
      SetPc(s, t, Continue(after))
  }

  /** One round of the loop of batch_release: pop a cached node and delete it. */
  function BatchStep(s: State, t: nat): State
    requires t < |s.threads| && s.threads[t].pc.Batch?
  {
    var thread := s.threads[t];
    var Batch(after, gc, left) := thread.pc;
    if left == 0 || thread.cacheHead.Null? then
      SetPc(s, t, Reclaim(after, gc))
    else
      var p := thread.cacheHead;
      SetThread(s, t, thread.(
        pc := Batch(after, gc, left - 1),
        cacheHead := Load(s, p).next,
        cacheCount := thread.cacheCount - 1)).(heap := s.heap - {p.addr})
  }

  // ----- epochs -----

  /** One atomic step of enter_epoch; when it succeeds the thread starts its attempt. */
  function EnterStep(s: State, t: nat, spurious: bool): State
    requires t < |s.threads| && s.threads[t].pc.Entering? && Ebr.CanEnter(s.ebr, t)
  {
    var ebr := Ebr.EnterStep(s.ebr, t, spurious);
    var s1 := s.(ebr := ebr);
    if ebr.slots[t].pc.Inside? then
      match s.threads[t].pc.job
      case Popping => SetPc(s1, t, PopHead)
      case Pushing(node, value) => SetPc(s1, t, PushTail(node, value))
    else
      s1
  }

  /** One atomic step of exit_epoch up to its CAS. */
  function ExitStep(s: State, t: nat, spurious: bool): State
    requires t < |s.threads| && s.threads[t].pc.Exiting? && Ebr.CanExit(s.ebr, t)
  {
    var ebr := Ebr.ExitStep(s.ebr, t, spurious);
    var s1 := s.(ebr := ebr);
    if ebr.slots[t].pc.Outside? then
      SetPc(s1, t, LoadGc(s.threads[t].pc.after))
    else
      s1
  }

  // ----- the machine -----

  datatype Action =
    | CallPop(t: nat)
    | CallPush(t: nat, value: nat)
    | Step(t: nat, spurious: bool, spare: nat)
    | Maintain

  predicate Enabled(s: State, a: Action) {
    match a
    case CallPop(t) => t < |s.threads| && s.threads[t].pc.Idle?
    case CallPush(t, _) => t < |s.threads| && s.threads[t].pc.Idle?
    case Maintain => Ebr.CanMaintain(s.ebr)
    case Step(t, _, spare) =>
      && t < |s.threads|
      && match s.threads[t].pc
         case Idle(_) => false
         case Allocating(_) => CanAllocate(s, t, spare)
         case Entering(_) => Ebr.CanEnter(s.ebr, t)
         case Exiting(_) => Ebr.CanExit(s.ebr, t)
         case _ => true
  }

  function Next(s: State, a: Action): State
    requires Enabled(s, a)
  {
    match a
    case CallPop(t) => SetPc(s, t, Entering(Popping))
    case CallPush(t, value) => SetPc(s, t, Allocating(value))
    case Maintain => s.(ebr := Ebr.MaintainerStep(s.ebr))
    case Step(t, spurious, spare) =>
      var pc := s.threads[t].pc;
      if IsLoad(pc) then SetPc(s, t, AfterLoad(s, pc))
      else if IsTailCas(pc) then TailCas(s, t, spurious)
      else match pc
           case Allocating(_) => Allocate(s, t, spare)
           case Entering(_) => EnterStep(s, t, spurious)
           case Exiting(_) => ExitStep(s, t, spurious)
           case PushLink(_, _, _) => LinkCas(s, t, spurious)
           case PopSwing(_, _, _) => HeadCas(s, t)
           case PopRetire(_, _) => Retire(s, t)
           case Reclaim(_, _) => ReclaimStep(s, t)
           case Batch(_, _, _) => BatchStep(s, t)
  }

  ghost predicate IsRun(threads: nat, run: seq<State>, acts: seq<Action>) {
    && |run| == |acts| + 1
    && run[0] == Init(threads)
    && forall i | 0 <= i < |acts| :: Enabled(run[i], acts[i]) && run[i + 1] == Next(run[i], acts[i])
  }

  /** The queue node pointers a thread holds as `first`, `last` or `next`. */
  function References(pc: Pc): seq<Ptr> {
    match pc
    case PopTail(first) => [first]
    case PopNext(first, last) => [first, last]
    case PopHelp(last, next) => [last, next]
    case PopValue(first, next) => [first, next]
    case PopSwing(first, next, _) => [first, next]
    case PopRetire(first, _) => [first]
    case PushNext(_, _, last) => [last]
    case PushLink(_, _, last) => [last]
    case PushHelp(_, _, last, next) => [last, next]
    case PushSwing(node, last) => [node, last]
    case _ => []
  }
}
