/** What a whole round of the maintainer computes: gc_epoch_ moves up as far as the statuses
    met on the way allow, and no further. */
module EbrRounds {
  import opened Ebr

  /** advance_epoch runs from state i to state j. */
  predicate Round(run: seq<State>, acts: seq<Action>, i: nat, j: nat) {
    && i < j < |run| == |acts| + 1
    && run[i].maintainer.Resting? && acts[i].Maintain? && run[j].maintainer.Resting?
    && forall k | i < k < j :: !run[k].maintainer.Resting?
  }

  /** The thread the maintainer is visiting and its status. */
  predicate Visits(s: State) {
    && s.maintainer.Visiting? && 0 < s.maintainer.next <= |s.order|
    && s.order[s.maintainer.next - 1] < |s.slots|
  }

  function VisitedStatus(s: State): Status
    requires Visits(s)
  {
    s.slots[s.order[s.maintainer.next - 1]].status
  }

  /** In step k the maintainer's CAS fails: the status is not the one it loaded, or active. */
  predicate CasFails(run: seq<State>, acts: seq<Action>, k: nat)
    requires k < |acts| < |run|
  {
    acts[k].Maintain? && Visits(run[k]) && VisitedStatus(run[k]) != Status(run[k].maintainer.seen, false)
  }

  /** The least of global_epoch_ in state i and the epochs of the statuses on which a CAS
      failed in steps i to k. */
  function LeastMet(run: seq<State>, acts: seq<Action>, i: nat, k: nat): int
    requires i <= k <= |acts| < |run|
  {
    if k == i then run[i].global
    else
      var least := LeastMet(run, acts, i, k - 1);
      if CasFails(run, acts, k - 1) && VisitedStatus(run[k - 1]).epoch < least then VisitedStatus(run[k - 1]).epoch
      else least
  }

  lemma {:induction false} LeastIsLeast(run: seq<State>, acts: seq<Action>, i: nat, k: nat)
    requires i <= k <= |acts| < |run|
    ensures LeastMet(run, acts, i, k) <= run[i].global
    ensures forall m | i <= m < k && CasFails(run, acts, m) :: LeastMet(run, acts, i, k) <= VisitedStatus(run[m]).epoch
    ensures LeastMet(run, acts, i, k) == run[i].global
         || exists m :: i <= m < k && CasFails(run, acts, m) && VisitedStatus(run[m]).epoch == LeastMet(run, acts, i, k)
  {
    if k > i {
      LeastIsLeast(run, acts, i, k - 1);
    }
  }

  // ----- the maintainer's own variables -----

  lemma ThreadsLeaveMaintainer(s: State, a: Action)
    requires Enabled(s, a) && !a.Maintain?
    ensures Next(s, a).maintainer == s.maintainer && Next(s, a).global == s.global && Next(s, a).gc == s.gc
  {
  }

  function MinOf(m: Maintainer): int
    requires !m.Resting?
  {
    m.min
  }

  lemma RunStep(threads: nat, run: seq<State>, acts: seq<Action>, k: nat)
    requires IsRun(threads, run, acts) && k < |acts|
    ensures Enabled(run[k], acts[k]) && run[k + 1] == Next(run[k], acts[k])
    ensures Inv(run[k]) && Inv(run[k + 1])
  {
    RunKeepsInv(threads, run, acts, k);
    RunKeepsInv(threads, run, acts, k + 1);
  }

  predicate MinMatches(s: State, least: int) {
    if s.maintainer.Resting? then s.gc == least - 1 else MinOf(s.maintainer) == least
  }

  lemma MinFirst(threads: nat, run: seq<State>, acts: seq<Action>, i: nat)
    requires IsRun(threads, run, acts) && i < |acts| && run[i].maintainer.Resting? && acts[i].Maintain?
    ensures MinMatches(run[i + 1], LeastMet(run, acts, i, i + 1))
  {
    RunStep(threads, run, acts, i);
  }

  lemma MinNext(threads: nat, run: seq<State>, acts: seq<Action>, i: nat, k: nat)
    requires IsRun(threads, run, acts) && i <= k < |acts| && !run[k].maintainer.Resting?
    requires MinMatches(run[k], LeastMet(run, acts, i, k))
    ensures MinMatches(run[k + 1], LeastMet(run, acts, i, k + 1))
  {
    RunStep(threads, run, acts, k);
    MinStep(run[k], acts[k]);
  }

  predicate MinKept(run: seq<State>, acts: seq<Action>, i: nat, k: nat)
    requires i <= k <= |acts| < |run|
  {
    MinMatches(run[k], LeastMet(run, acts, i, k))
  }

  lemma {:induction false} MinThroughout(run: seq<State>, acts: seq<Action>, i: nat, k: nat)
    requires i < k <= |acts| < |run| && MinKept(run, acts, i, i + 1)
    requires forall m | i < m < k :: MinKept(run, acts, i, m) ==> MinKept(run, acts, i, m + 1)
    ensures MinKept(run, acts, i, k)
  {
    if k > i + 1 {
      MinThroughout(run, acts, i, k - 1);
      assert MinKept(run, acts, i, k - 1 + 1);
    }
  }

  lemma MinIsLeastMet(threads: nat, run: seq<State>, acts: seq<Action>, i: nat, k: nat)
    requires IsRun(threads, run, acts) && i < k < |run| && run[i].maintainer.Resting? && acts[i].Maintain?
    requires forall m | i < m < k :: !run[m].maintainer.Resting?
    ensures MinMatches(run[k], LeastMet(run, acts, i, k))
  {
    MinFirst(threads, run, acts, i);
    forall m | i < m < k && MinKept(run, acts, i, m) ensures MinKept(run, acts, i, m + 1) {
      MinNext(threads, run, acts, i, m);
    }
    MinThroughout(run, acts, i, k);
  }

  lemma MinStep(s: State, a: Action)
    requires Inv(s) && Enabled(s, a) && !s.maintainer.Resting?
    ensures var s', least := Next(s, a),
                if a.Maintain? && Visits(s) && VisitedStatus(s) != Status(s.maintainer.seen, false)
                   && VisitedStatus(s).epoch < MinOf(s.maintainer)
                then VisitedStatus(s).epoch else MinOf(s.maintainer);
            if s'.maintainer.Resting? then s'.gc == least - 1 else MinOf(s'.maintainer) == least
  {
    if !a.Maintain? {
      ThreadsLeaveMaintainer(s, a);
    }
  }

  /** What the maintainer compares with is what it loaded from the same slot, in the step m
      before. */
  lemma {:induction false} SeenWasLoaded(threads: nat, run: seq<State>, acts: seq<Action>, k: nat) returns (m: nat)
    requires IsRun(threads, run, acts) && k < |run| && run[k].maintainer.Visiting?
    ensures m < k && acts[m].Maintain? && run[m].maintainer.Scanning?
    ensures var next := run[k].maintainer.next;
            && run[m].maintainer.next == next && 0 < next <= |run[m].order| && run[m].order[next - 1] < |run[m].slots|
            && run[k].maintainer.seen == run[m].slots[run[m].order[next - 1]].status.epoch
    ensures forall x | m < x < k :: !acts[x].Maintain?
  {
    if k > 0 {
      if acts[k - 1].Maintain? {
        m := k - 1;
      } else {
        ThreadsLeaveMaintainer(run[k - 1], acts[k - 1]);
        m := SeenWasLoaded(threads, run, acts, k - 1);
      }
    }
  }

  // ----- quiet rounds -----

  predicate NoneActive(s: State) {
    forall t | 0 <= t < |s.slots| :: !s.slots[t].status.active
  }

  /** A thread that neither was active nor becomes so leaves all statuses alone. */
  lemma QuietStep(s: State, a: Action, t: nat)
    requires Inv(s) && Enabled(s, a) && !a.Maintain? && t < |s.slots|
    requires NoneActive(s) && NoneActive(Next(s, a)) && |Next(s, a).slots| == |s.slots|
    ensures Next(s, a).slots[t].status == s.slots[t].status
  {
    assert Next(s, a).slots[t].status.active == false;
  }

  lemma SlotsKept(s: State, a: Action)
    requires Enabled(s, a)
    ensures |Next(s, a).slots| == |s.slots|
  {
  }

  lemma OrderKept(s: State, a: Action)
    requires Enabled(s, a)
    ensures s.order <= Next(s, a).order
  {
  }

  lemma QuietVisit(s: State, a: Action)
    requires Inv(s) && Enabled(s, a) && NoneActive(s) && NoneActive(Next(s, a)) && Inv(Next(s, a))
    requires Visits(s) ==> VisitedStatus(s) == Status(s.maintainer.seen, false)
    requires Next(s, a).maintainer.Visiting?
    ensures Visits(Next(s, a)) && VisitedStatus(Next(s, a)) == Status(Next(s, a).maintainer.seen, false)
  {
    SlotsKept(s, a);
    OrderKept(s, a);
    if !a.Maintain? {
      ThreadsLeaveMaintainer(s, a);
      QuietStep(s, a, s.order[s.maintainer.next - 1]);
    }
  }

  predicate SeenHolds(s: State) {
    s.maintainer.Visiting? ==> Visits(s) && VisitedStatus(s) == Status(s.maintainer.seen, false)
  }

  lemma QuietNext(threads: nat, run: seq<State>, acts: seq<Action>, k: nat)
    requires IsRun(threads, run, acts) && k < |acts| && NoneActive(run[k]) && NoneActive(run[k + 1])
    requires SeenHolds(run[k])
    ensures SeenHolds(run[k + 1]) && !CasFails(run, acts, k)
  {
    RunStep(threads, run, acts, k);
    if run[k + 1].maintainer.Visiting? {
      QuietVisit(run[k], acts[k]);
    }
  }

  lemma {:induction false} SeenThroughout(run: seq<State>, i: nat, k: nat)
    requires i <= k < |run| && SeenHolds(run[i])
    requires forall m | i <= m < k :: SeenHolds(run[m]) ==> SeenHolds(run[m + 1])
    ensures forall m | i <= m <= k :: SeenHolds(run[m])
  {
    if k > i {
      SeenThroughout(run, i, k - 1);
      assert SeenHolds(run[k - 1]) && SeenHolds(run[k]);
    }
  }

  lemma QuietMeetsNone(threads: nat, run: seq<State>, acts: seq<Action>, i: nat, k: nat)
    requires IsRun(threads, run, acts) && i <= k < |run| && run[i].maintainer.Resting?
    requires forall m | i <= m <= k :: NoneActive(run[m])
    ensures forall m | i <= m < k :: !CasFails(run, acts, m)
  {
    forall m | i <= m < k && SeenHolds(run[m]) ensures SeenHolds(run[m + 1]) {
      QuietNext(threads, run, acts, m);
    }
    SeenThroughout(run, i, k);
    forall m | i <= m < k ensures !CasFails(run, acts, m) {
      QuietNext(threads, run, acts, m);
    }
  }

  // ----- the length of a round -----

  function MaintainSteps(acts: seq<Action>, i: nat, k: nat): nat
    requires i <= k <= |acts|
  {
    if k == i then 0 else MaintainSteps(acts, i, k - 1) + if acts[k - 1].Maintain? then 1 else 0
  }

  /** How many steps the maintainer has left in its round. */
  function StepsLeft(s: State): nat {
    match s.maintainer
    case Resting => 0
    case GlobalRead(_) => 4 + 2 * |s.order|
    case GlobalBumped(_) => 3 + 2 * |s.order|
    case CurrentRead(_, _) => 2 + 2 * |s.order|
    case Scanning(_, _, next) => 1 + 2 * next
    case Visiting(_, _, next, _) => 2 * next
  }

  lemma StepsGoDown(s: State, a: Action)
    requires Inv(s) && Enabled(s, a) && (a.Maintain? ==> !s.maintainer.Resting?)
    ensures var s' := Next(s, a);
            StepsLeft(s') - 2 * |s'.order| + (if a.Maintain? then 1 else 0) <= StepsLeft(s) - 2 * |s.order|
  {
    OrderKept(s, a);
  }

  /** Steps taken and steps left are within the budget of a round. */
  predicate InBudget(taken: nat, s: State) {
    taken + StepsLeft(s) <= 5 + 2 * |s.order|
  }

  lemma BudgetFirst(threads: nat, run: seq<State>, acts: seq<Action>, i: nat)
    requires IsRun(threads, run, acts) && i < |acts| && run[i].maintainer.Resting? && acts[i].Maintain?
    ensures InBudget(1, run[i + 1])
  {
    RunStep(threads, run, acts, i);
  }

  lemma BudgetNext(threads: nat, run: seq<State>, acts: seq<Action>, k: nat, taken: nat)
    requires IsRun(threads, run, acts) && k < |acts| && !run[k].maintainer.Resting? && InBudget(taken, run[k])
    ensures InBudget(taken + if acts[k].Maintain? then 1 else 0, run[k + 1])
  {
    RunStep(threads, run, acts, k);
    StepsGoDown(run[k], acts[k]);
  }

  predicate BudgetKept(run: seq<State>, acts: seq<Action>, i: nat, k: nat)
    requires i <= k <= |acts| < |run|
  {
    InBudget(MaintainSteps(acts, i, k), run[k])
  }

  lemma {:induction false} StepsCounted(run: seq<State>, acts: seq<Action>, i: nat, k: nat)
    requires i < k <= |acts| < |run| && BudgetKept(run, acts, i, i + 1)
    requires forall m | i < m < k :: BudgetKept(run, acts, i, m) ==> BudgetKept(run, acts, i, m + 1)
    ensures BudgetKept(run, acts, i, k)
  {
    if k > i + 1 {
      StepsCounted(run, acts, i, k - 1);
      assert BudgetKept(run, acts, i, k - 1 + 1);
    }
  }

  // ----- main results -----

  /** A round that starts when global_epoch_ is g ends with gc_epoch_ one below the least of
      g and the epochs of the statuses on which its CAS failed. */
  lemma RoundResult(threads: nat, run: seq<State>, acts: seq<Action>, i: nat, j: nat)
    requires IsRun(threads, run, acts) && Round(run, acts, i, j)
    ensures run[j].gc + 1 <= run[i].global
    ensures forall m | i <= m < j && CasFails(run, acts, m) :: run[j].gc + 1 <= VisitedStatus(run[m]).epoch
    ensures run[j].gc + 1 == run[i].global
         || exists m :: i <= m < j && CasFails(run, acts, m) && VisitedStatus(run[m]).epoch == run[j].gc + 1
  {
    MinIsLeastMet(threads, run, acts, i, j);
    LeastIsLeast(run, acts, i, j);
  }

  /** A round during which no thread is inside an epoch frees everything retired before it:
      gc_epoch_ ends just below the epoch at its start. */
  lemma QuietRound(threads: nat, run: seq<State>, acts: seq<Action>, i: nat, j: nat)
    requires IsRun(threads, run, acts) && Round(run, acts, i, j)
    requires forall m | i <= m <= j :: NoneActive(run[m])
    ensures run[j].gc == run[i].global - 1
  {
    QuietMeetsNone(threads, run, acts, i, j);
    RoundResult(threads, run, acts, i, j);
  }

  lemma LocalEpochStep(s: State, a: Action, t: nat)
    requires Inv(s) && Enabled(s, a) && t < |s.slots|
    ensures |Next(s, a).slots| == |s.slots| && s.slots[t].status.epoch <= Next(s, a).slots[t].status.epoch
  {
    assert SlotOk(s, s.slots[t]);
  }

  /** A thread's epoch never goes back either, in particular not when it leaves one. */
  lemma {:induction false} LocalEpochsNeverDecrease(threads: nat, run: seq<State>, acts: seq<Action>, i: nat, j: nat, t: nat)
    requires IsRun(threads, run, acts) && i <= j < |run| && t < threads
    ensures t < |run[i].slots| && t < |run[j].slots|
    ensures run[i].slots[t].status.epoch <= run[j].slots[t].status.epoch
  {
    if i < j {
      LocalEpochsNeverDecrease(threads, run, acts, i, j - 1, t);
      RunKeepsInv(threads, run, acts, j - 1);
      LocalEpochStep(run[j - 1], acts[j - 1], t);
    } else {
      SlotCount(threads, run, acts, i);
    }
  }

  lemma {:induction false} SlotCount(threads: nat, run: seq<State>, acts: seq<Action>, i: nat)
    requires IsRun(threads, run, acts) && i < |run|
    ensures |run[i].slots| == threads
  {
    if i > 0 {
      SlotCount(threads, run, acts, i - 1);
      SlotsKept(run[i - 1], acts[i - 1]);
    }
  }

  /** A round is over after at most five steps of the maintainer and two for each registered
      thread, whatever the threads do meanwhile. */
  lemma RoundEnds(threads: nat, run: seq<State>, acts: seq<Action>, i: nat, k: nat)
    requires IsRun(threads, run, acts) && i < k < |run| && run[i].maintainer.Resting? && acts[i].Maintain?
    requires forall m | i < m < k :: !run[m].maintainer.Resting?
    ensures MaintainSteps(acts, i, k) <= 5 + 2 * |run[k].order|
  {
    BudgetFirst(threads, run, acts, i);
    assert MaintainSteps(acts, i, i + 1) == 1;
    forall m | i < m < k && BudgetKept(run, acts, i, m) ensures BudgetKept(run, acts, i, m + 1) {
      BudgetNext(threads, run, acts, m, MaintainSteps(acts, i, m));
    }
    StepsCounted(run, acts, i, k);
  }

  // ----- what a status word may become -----

  function PcOf(s: State, t: nat): SlotPc {
    if t < |s.slots| then s.slots[t].pc else Outside
  }

  function StatusOf(s: State, t: nat): Status {
    if t < |s.slots| then s.slots[t].status else Status(0, false)
  }

  predicate EntersBy(a: Action, t: nat) {
    a.Enter? && a.t == t
  }

  /** In step l thread t loads global_epoch_ to enter. */
  predicate Snapshots(run: seq<State>, acts: seq<Action>, t: nat, l: nat)
    requires l < |acts| < |run|
  {
    EntersBy(acts[l], t) && PcOf(run[l], t).EnterLoaded?
  }

  lemma SnapshotStep(s: State, a: Action, t: nat)
    requires Enabled(s, a) && PcOf(Next(s, a), t).EnterSnapshot?
    ensures PcOf(s, t) == PcOf(Next(s, a), t)
         || (EntersBy(a, t) && PcOf(s, t).EnterLoaded? && PcOf(Next(s, a), t).e == s.global)
  {
  }

  predicate SnapshotGoesBack(run: seq<State>, acts: seq<Action>, t: nat, k: nat)
    requires k < |acts| < |run|
  {
    PcOf(run[k + 1], t).EnterSnapshot? ==>
      || PcOf(run[k], t) == PcOf(run[k + 1], t)
      || (Snapshots(run, acts, t, k) && PcOf(run[k + 1], t).e == run[k].global)
  }

  lemma {:induction false} SnapshotOf(run: seq<State>, acts: seq<Action>, t: nat, k: nat) returns (l: nat)
    requires k <= |acts| < |run| && PcOf(run[k], t).EnterSnapshot? && PcOf(run[0], t).Outside?
    requires forall m | 0 <= m < k :: SnapshotGoesBack(run, acts, t, m)
    ensures l < k && Snapshots(run, acts, t, l) && PcOf(run[k], t).e == run[l].global
    ensures forall m | l < m <= k :: PcOf(run[m], t).EnterSnapshot?
  {
    assert SnapshotGoesBack(run, acts, t, k - 1);
    l := k - 1;
    if PcOf(run[k - 1], t) == PcOf(run[k], t) {
      l := SnapshotOf(run, acts, t, k - 1);
    }
  }

  /** In step l the maintainer loads global_epoch_ after having raised it. */
  predicate Rereads(run: seq<State>, acts: seq<Action>, l: nat)
    requires l < |acts| < |run|
  {
    acts[l].Maintain? && run[l].maintainer.GlobalBumped?
  }

  function CurOf(s: State): int {
    match s.maintainer
    case CurrentRead(_, cur) => cur
    case Scanning(_, cur, _) => cur
    case Visiting(_, cur, _, _) => cur
    case _ => -1
  }

  lemma CurStep(s: State, a: Action)
    requires Enabled(s, a) && CurOf(Next(s, a)) >= 0
    ensures CurOf(s) == CurOf(Next(s, a))
         || (a.Maintain? && s.maintainer.GlobalBumped? && CurOf(Next(s, a)) == s.global)
  {
    if !a.Maintain? {
      ThreadsLeaveMaintainer(s, a);
    }
  }

  predicate CurGoesBack(run: seq<State>, acts: seq<Action>, k: nat)
    requires k < |acts| < |run|
  {
    CurOf(run[k + 1]) >= 0 ==>
      CurOf(run[k]) == CurOf(run[k + 1]) || (Rereads(run, acts, k) && CurOf(run[k + 1]) == run[k].global)
  }

  lemma {:induction false} CurReadAt(run: seq<State>, acts: seq<Action>, k: nat) returns (l: nat)
    requires k <= |acts| < |run| && CurOf(run[k]) >= 0 && CurOf(run[0]) < 0
    requires forall m | 0 <= m < k :: CurGoesBack(run, acts, m)
    ensures l < k && Rereads(run, acts, l) && CurOf(run[k]) == run[l].global
    ensures forall m | l < m <= k :: CurOf(run[m]) >= 0
  {
    assert CurGoesBack(run, acts, k - 1);
    l := k - 1;
    if CurOf(run[k - 1]) == CurOf(run[k]) {
      l := CurReadAt(run, acts, k - 1);
    }
  }

  /** How one step may change the status of thread t. */
  lemma StatusStep(s: State, a: Action, t: nat)
    requires Inv(s) && Enabled(s, a) && StatusOf(Next(s, a), t) != StatusOf(s, t)
    ensures var was, now := StatusOf(s, t), StatusOf(Next(s, a), t);
            || (EntersBy(a, t) && !was.active && PcOf(s, t).EnterSnapshot? && now == Status(PcOf(s, t).e, true))
            || (a.Exit? && a.t == t && was.active && now == Status(was.epoch, false))
            || (a.Maintain? && !was.active && CurOf(s) >= 0 && now == Status(CurOf(s), false))
  {
  }

  lemma StartsOutside(threads: nat, run: seq<State>, acts: seq<Action>, t: nat)
    requires IsRun(threads, run, acts)
    ensures PcOf(run[0], t).Outside? && CurOf(run[0]) < 0
  {
  }

  /** A status word changes in three ways only. A thread that enters becomes active at the
      global_epoch_ it loaded in an earlier step l of enter_epoch; one that exits only drops
      the active bit; and the maintainer moves an inactive thread up to the global_epoch_ it
      loaded in an earlier step l of the same round. */
  lemma StatusChanges(threads: nat, run: seq<State>, acts: seq<Action>, k: nat, t: nat) returns (l: nat)
    requires IsRun(threads, run, acts) && k < |acts| && StatusOf(run[k + 1], t) != StatusOf(run[k], t)
    ensures var was, now := StatusOf(run[k], t), StatusOf(run[k + 1], t);
            || (acts[k].Exit? && acts[k].t == t && was.active && now == Status(was.epoch, false))
            || (l < k && !was.active && EntersBy(acts[k], t) && Snapshots(run, acts, t, l) && now == Status(run[l].global, true)
                && forall m | l < m <= k :: PcOf(run[m], t).EnterSnapshot?)
            || (l < k && !was.active && acts[k].Maintain? && Rereads(run, acts, l) && now == Status(run[l].global, false)
                && forall m | l < m <= k :: !run[m].maintainer.Resting?)
  {
    l := k;
    RunStep(threads, run, acts, k);
    StatusStep(run[k], acts[k], t);
    StartsOutside(threads, run, acts, t);
    if acts[k].Enter? {
      forall m | 0 <= m < k ensures SnapshotGoesBack(run, acts, t, m) {
        RunStep(threads, run, acts, m);
        if PcOf(run[m + 1], t).EnterSnapshot? {
          SnapshotStep(run[m], acts[m], t);
        }
      }
      l := SnapshotOf(run, acts, t, k);
    } else if acts[k].Maintain? {
      forall m | 0 <= m < k ensures CurGoesBack(run, acts, m) {
        RunStep(threads, run, acts, m);
        if CurOf(run[m + 1]) >= 0 {
          CurStep(run[m], acts[m]);
        }
      }
      l := CurReadAt(run, acts, k);
    }
  }
}
