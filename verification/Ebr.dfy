/** Epoch-based reclamation as a step system: one step per atomic load, store or
    CAS of src/memory/epoch_based_reclamation.cpp. Any number of threads run
    enter_epoch and exit_epoch while one maintainer runs advance_epoch. */
module Ebr {

  /** The packed status word: 63 bits of epoch and the active bit. */
  datatype Status = Status(epoch: nat, active: bool)

  /** Where a thread stands inside enter_epoch and exit_epoch. */
  datatype SlotPc =
    | Outside                              // not between enter and exit
    | EnterLoaded(word: Status)             // own status word loaded
    | EnterSnapshot(word: Status, e: nat)   // global epoch loaded, CAS still to come
    | Inside                               // the entering CAS succeeded
    | ExitLoaded(word: Status)              // own status word loaded by exit_epoch

  datatype Slot = Slot(status: Status, pc: SlotPc)

  /** Where the maintainer stands inside advance_epoch. Slots are visited from the
      highest registered index down; `next` slots are still to be visited. */
  datatype Maintainer =
    | Resting
    | GlobalRead(min: int)
    | GlobalBumped(min: int)
    | CurrentRead(min: int, cur: nat)
    | Scanning(min: int, cur: nat, next: nat)
    | Visiting(min: int, cur: nat, next: nat, seen: nat)  // status of slot `next - 1` loaded

  /** `order[i]` is the thread that owns thread_epochs_[i]. */
  datatype State = State(
    global: nat,
    gc: int,
    order: seq<nat>,
    slots: seq<Slot>,
    maintainer: Maintainer)

  function Init(threads: nat): State {
    State(1, 0, [], seq(threads, _ => Slot(Status(0, false), Outside)), Resting)
  }

  // ----- thread steps -----

  function SetSlot(s: State, t: nat, slot: Slot): State
    requires t < |s.slots|
  {
    s.(slots := s.slots[t := slot])
  }

  predicate CanEnter(s: State, t: nat) {
    t < |s.slots| && (s.slots[t].pc.Outside? || s.slots[t].pc.EnterLoaded? || s.slots[t].pc.EnterSnapshot?)
  }

  /** One atomic step of enter_epoch. A weak CAS fails when `spurious`. */
  function EnterStep(s: State, t: nat, spurious: bool): State
    requires CanEnter(s, t)
  {
    var slot := s.slots[t];
    match slot.pc
    case EnterLoaded(word) =>
      SetSlot(s, t, slot.(pc := EnterSnapshot(word, s.global)))
    case EnterSnapshot(word, e) =>
      if slot.status == word && !spurious then
        SetSlot(s, t, Slot(Status(e, true), Inside))
      else
        SetSlot(s, t, slot.(pc := EnterLoaded(slot.status)))
    case _ =>
      if t !in s.order then
        s.(order := s.order + [t])          // init_thread_epoch: fetch_add of the thread count
      else if slot.status.active then
        SetSlot(s, t, slot.(pc := Inside))  // duplicate call returns at once
      else
        SetSlot(s, t, slot.(pc := EnterLoaded(slot.status)))
  }

  predicate CanExit(s: State, t: nat) {
    t < |s.slots| && (s.slots[t].pc.Inside? || s.slots[t].pc.ExitLoaded?)
  }

  /** One atomic step of exit_epoch, up to and including its CAS. */
  function ExitStep(s: State, t: nat, spurious: bool): State
    requires CanExit(s, t)
  {
    var slot := s.slots[t];
    match slot.pc
    case ExitLoaded(word) =>
      if slot.status == word && !spurious then
        SetSlot(s, t, Slot(Status(word.epoch, false), Outside))
      else
        SetSlot(s, t, slot.(pc := ExitLoaded(slot.status)))
    case _ =>
      if slot.status.active then
        SetSlot(s, t, slot.(pc := ExitLoaded(slot.status)))
      else
        SetSlot(s, t, slot.(pc := Outside)) // duplicate call returns at once
  }

  // ----- maintainer steps -----

  predicate CanMaintain(s: State) {
    match s.maintainer
    case Scanning(_, _, next) => next <= |s.order| && (next > 0 ==> s.order[next - 1] < |s.slots|)
    case Visiting(_, _, next, _) => 0 < next <= |s.order| && s.order[next - 1] < |s.slots|
    case _ => true
  }

  function MaintainerStep(s: State): State
    requires CanMaintain(s)
  {
    match s.maintainer
    case Resting => s.(maintainer := GlobalRead(s.global))
    case GlobalRead(min) => s.(global := s.global + 1, maintainer := GlobalBumped(min))
    case GlobalBumped(min) => s.(maintainer := CurrentRead(min, s.global))
    case CurrentRead(min, cur) => s.(maintainer := Scanning(min, cur, |s.order|))
    case Scanning(min, cur, next) =>
      if next == 0 then
        s.(gc := min - 1, maintainer := Resting)
      else
        s.(maintainer := Visiting(min, cur, next, s.slots[s.order[next - 1]].status.epoch))
    case Visiting(min, cur, next, seen) =>
      var t := s.order[next - 1];
      var actual := s.slots[t].status;
      if actual == Status(seen, false) then
        SetSlot(s, t, s.slots[t].(status := Status(cur, false)))
          .(maintainer := Scanning(min, cur, next - 1))
      else
        s.(maintainer := Scanning(if min > actual.epoch then actual.epoch else min, cur, next - 1))
  }

  // ----- runs -----

  datatype Action = Enter(t: nat, spurious: bool) | Exit(t: nat, spurious: bool) | Maintain

  predicate Enabled(s: State, a: Action) {
    match a
    case Enter(t, _) => CanEnter(s, t)
    case Exit(t, _) => CanExit(s, t)
    case Maintain => CanMaintain(s)
  }

  function Next(s: State, a: Action): State
    requires Enabled(s, a)
  {
    match a
    case Enter(t, spurious) => EnterStep(s, t, spurious)
    case Exit(t, spurious) => ExitStep(s, t, spurious)
    case Maintain => MaintainerStep(s)
  }

  /** `run` is the sequence of states produced by `acts` from the initial state. */
  ghost predicate IsRun(threads: nat, run: seq<State>, acts: seq<Action>) {
    && |run| == |acts| + 1
    && run[0] == Init(threads)
    && forall i | 0 <= i < |acts| :: Enabled(run[i], acts[i]) && run[i + 1] == Next(run[i], acts[i])
  }

  // ----- invariant -----

  /** A slot can no longer make a thread active at an epoch below `m`: it is not active
      below `m`, and a pending snapshot whose CAS could still succeed is not below `m`. */
  predicate AtLeast(slot: Slot, m: int) {
    && (slot.status.active ==> slot.status.epoch >= m)
    && (slot.pc.EnterSnapshot? && slot.pc.word == slot.status ==> slot.pc.e >= m)
  }

  predicate SlotOk(s: State, slot: Slot) {
    && slot.status.epoch <= s.global
    && AtLeast(slot, s.gc + 1)
    && match slot.pc
       case Outside => !slot.status.active
       case EnterLoaded(word) => !slot.status.active && !word.active && word.epoch <= s.global
       case EnterSnapshot(word, e) => !slot.status.active && !word.active && word.epoch <= e <= s.global
       case Inside => slot.status.active
       case ExitLoaded(word) => slot.status.active && word == slot.status
  }

  predicate OrderOk(s: State) {
    && (forall i | 0 <= i < |s.order| :: s.order[i] < |s.slots|)
    && (forall i, j | 0 <= i < j < |s.order| :: s.order[i] != s.order[j])
    && (forall t | 0 <= t < |s.slots| && t !in s.order :: s.slots[t] == Slot(Status(0, false), Outside))
  }

  /** Every thread outside the first `next` registered ones has been accounted for in
      `min`; a thread registered after the count was read is among them. */
  predicate Visited(s: State, min: int, next: nat)
    requires next <= |s.order|
  {
    forall t | 0 <= t < |s.slots| && t !in s.order[..next] :: AtLeast(s.slots[t], min)
  }

  predicate MaintainerOk(s: State) {
    match s.maintainer
    case Resting => true
    case GlobalRead(min) => min == s.global
    case GlobalBumped(min) => s.gc < min == s.global - 1
    case CurrentRead(min, cur) => s.gc < min == s.global - 1 && cur == s.global
    case Scanning(min, cur, next) =>
      s.gc < min < s.global == cur && next <= |s.order| && Visited(s, min, next)
    case Visiting(min, cur, next, seen) =>
      && s.gc < min < s.global == cur && 0 < next <= |s.order| && Visited(s, min, next)
      && s.order[next - 1] < |s.slots|
      && var status := s.slots[s.order[next - 1]].status;
         status == Status(seen, false) || status.epoch > s.gc
  }

  predicate Inv(s: State) {
    && 0 <= s.gc < s.global
    && OrderOk(s)
    && (forall t | 0 <= t < |s.slots| :: SlotOk(s, s.slots[t]))
    && MaintainerOk(s)
  }

  /** What a thread may do to its own slot in the middle of a maintainer round. */
  lemma SlotChangeKeepsInv(s: State, t: nat, slot: Slot)
    requires Inv(s) && t < |s.slots| && t in s.order
    requires SlotOk(s, slot)
    requires forall m: int | m <= s.global && AtLeast(s.slots[t], m) :: AtLeast(slot, m)
    requires slot.status == s.slots[t].status || slot.status.epoch > s.gc
    ensures Inv(SetSlot(s, t, slot))
  {
    var s' := SetSlot(s, t, slot);
    assert OrderOk(s');
    assert MaintainerOk(s');
  }

  lemma RegistrationVisited(s: State, t: nat, min: int, next: nat)
    requires next <= |s.order| && Visited(s, min, next)
    ensures Visited(s.(order := s.order + [t]), min, next)
  {
    assert (s.order + [t])[..next] == s.order[..next];
  }

  lemma RegistrationKeepsInv(s: State, t: nat)
    requires Inv(s) && t < |s.slots| && t !in s.order
    ensures Inv(s.(order := s.order + [t]))
  {
    var s' := s.(order := s.order + [t]);
    assert OrderOk(s');
    if s.maintainer.Scanning? || s.maintainer.Visiting? {
      RegistrationVisited(s, t, s.maintainer.min, s.maintainer.next);
    }
    forall u | 0 <= u < |s'.slots| ensures SlotOk(s', s'.slots[u]) {
      assert SlotOk(s, s.slots[u]);
    }
  }

  lemma EnterKeepsInv(s: State, t: nat, spurious: bool)
    requires Inv(s) && CanEnter(s, t)
    ensures Inv(EnterStep(s, t, spurious))
  {
    if t !in s.order {
      RegistrationKeepsInv(s, t);
    } else {
      SlotChangeKeepsInv(s, t, EnterStep(s, t, spurious).slots[t]);
    }
  }

  lemma ExitKeepsInv(s: State, t: nat, spurious: bool)
    requires Inv(s) && CanExit(s, t)
    ensures Inv(ExitStep(s, t, spurious))
  {
    SlotChangeKeepsInv(s, t, ExitStep(s, t, spurious).slots[t]);
  }

  lemma VisitSlots(s: State)
    requires Inv(s) && s.maintainer.Visiting? && CanMaintain(s)
    ensures forall u | 0 <= u < |s.slots| :: SlotOk(MaintainerStep(s), MaintainerStep(s).slots[u])
  {
    forall u | 0 <= u < |s.slots| ensures SlotOk(MaintainerStep(s), MaintainerStep(s).slots[u]) {
      assert SlotOk(s, s.slots[u]);
    }
  }

  lemma VisitVisited(s: State)
    requires Inv(s) && s.maintainer.Visiting? && CanMaintain(s)
    ensures Visited(MaintainerStep(s), MaintainerStep(s).maintainer.min, s.maintainer.next - 1)
  {
    var s', next := MaintainerStep(s), s.maintainer.next;
    var t := s.order[next - 1];
    assert s.order[..next] == s.order[..next - 1] + [t];
    forall u | 0 <= u < |s'.slots| && u !in s'.order[..next - 1]
      ensures AtLeast(s'.slots[u], s'.maintainer.min)
    {
      assert SlotOk(s, s.slots[u]);
      if u != t {
        assert u !in s.order[..next];
      }
    }
  }

  /** The delicate step: a visit either moves an inactive slot forward, which makes every
      pending snapshot taken before the round useless, or folds the slot's epoch into `min`. */
  lemma VisitKeepsInv(s: State)
    requires Inv(s) && s.maintainer.Visiting? && CanMaintain(s)
    ensures Inv(MaintainerStep(s))
  {
    var t := s.order[s.maintainer.next - 1];
    assert SlotOk(s, s.slots[t]);
    VisitSlots(s);
    VisitVisited(s);
    assert OrderOk(MaintainerStep(s));
  }

  /** A round has been scanned: whatever is active is at or above the minimum. */
  lemma ScanKeepsInv(s: State)
    requires Inv(s) && s.maintainer.Scanning? && CanMaintain(s)
    ensures Inv(MaintainerStep(s))
  {
    var s' := MaintainerStep(s);
    assert s.order[..0] == [];
    forall u | 0 <= u < |s.slots| ensures SlotOk(s', s'.slots[u]) {
      assert SlotOk(s, s.slots[u]);
    }
    assert OrderOk(s');
  }

  lemma StartKeepsInv(s: State)
    requires Inv(s) && !s.maintainer.Scanning? && !s.maintainer.Visiting?
    ensures Inv(MaintainerStep(s))
  {
    var s' := MaintainerStep(s);
    assert s.order[..|s.order|] == s.order;
    forall u | 0 <= u < |s.slots| ensures SlotOk(s', s'.slots[u]) {
      assert SlotOk(s, s.slots[u]);
    }
    assert OrderOk(s');
  }

  lemma MaintainKeepsInv(s: State)
    requires Inv(s) && CanMaintain(s)
    ensures Inv(MaintainerStep(s))
  {
    if s.maintainer.Visiting? {
      VisitKeepsInv(s);
    } else if s.maintainer.Scanning? {
      ScanKeepsInv(s);
    } else {
      StartKeepsInv(s);
    }
  }

  /** The invariant makes every maintainer step possible. */
  lemma MaintainerNeverStuck(s: State)
    requires Inv(s)
    ensures CanMaintain(s)
  {
  }

  lemma NextKeepsInv(s: State, a: Action)
    requires Inv(s) && Enabled(s, a)
    ensures Inv(Next(s, a))
  {
    match a
    case Enter(t, spurious) => EnterKeepsInv(s, t, spurious);
    case Exit(t, spurious) => ExitKeepsInv(s, t, spurious);
    case Maintain => MaintainKeepsInv(s);
  }

  lemma {:induction false} RunKeepsInv(threads: nat, run: seq<State>, acts: seq<Action>, i: nat)
    requires IsRun(threads, run, acts) && i < |run|
    ensures Inv(run[i])
  {
    if i > 0 {
      RunKeepsInv(threads, run, acts, i - 1);
      NextKeepsInv(run[i - 1], acts[i - 1]);
    }
  }

  // ----- main results -----

  /** In every reachable state, also in the middle of a round, an active thread's epoch is
      above gc_epoch_, and gc_epoch_ is below global_epoch_. */
  lemma ActiveEpochsAboveGc(threads: nat, run: seq<State>, acts: seq<Action>, i: nat, t: nat)
    requires IsRun(threads, run, acts) && i < |run| && t < |run[i].slots|
    ensures run[i].slots[t].status.active ==> run[i].gc < run[i].slots[t].status.epoch <= run[i].global
    ensures 0 <= run[i].gc < run[i].global
  {
    RunKeepsInv(threads, run, acts, i);
  }

  lemma EpochsGrow(s: State, a: Action)
    requires Inv(s) && Enabled(s, a)
    ensures s.gc <= Next(s, a).gc && s.global <= Next(s, a).global
  {
  }

  /** gc_epoch_ and global_epoch_ never decrease over a run. */
  lemma {:induction false} EpochsNeverDecrease(threads: nat, run: seq<State>, acts: seq<Action>, i: nat, j: nat)
    requires IsRun(threads, run, acts) && i <= j < |run|
    ensures run[i].gc <= run[j].gc && run[i].global <= run[j].global
  {
    if i < j {
      EpochsNeverDecrease(threads, run, acts, i, j - 1);
      RunKeepsInv(threads, run, acts, j - 1);
      EpochsGrow(run[j - 1], acts[j - 1]);
    }
  }

  /** The debug asserts hold: enter_epoch and exit_epoch are never called twice in a row,
      and `min_epoch > 0` when the maintainer is about to store gc_epoch_. */
  lemma DebugAssertsHold(threads: nat, run: seq<State>, acts: seq<Action>, i: nat)
    requires IsRun(threads, run, acts) && i < |run|
    ensures forall t | 0 <= t < |run[i].slots| ::
              (run[i].slots[t].pc.Outside? ==> !run[i].slots[t].status.active)
              && (run[i].slots[t].pc.Inside? ==> run[i].slots[t].status.active)
    ensures run[i].maintainer.Scanning? && run[i].maintainer.next == 0 ==> run[i].maintainer.min > 0
  {
    RunKeepsInv(threads, run, acts, i);
  }
}
