/** What the timer promises to each call of coroutine_sleep, stated from the steps of a run:
    the delay it was called with and the tick in which the timer thread took it over. */
module TimerCalls {
  import opened Basics
  import opened WheelModel
  import opened WheelProof
  import opened WheelBags
  import opened TimerRun

  /** The delays of the calls among the first i steps. */
  function SleepDelays(steps: seq<Step>, i: nat): seq<nat>
    requires i <= |steps|
  {
    if i == 0 then []
    else SleepDelays(steps, i - 1) + if steps[i - 1].Sleep? then [steps[i - 1].delay] else []
  }

  function TickCount(steps: seq<Step>, i: nat): nat
    requires i <= |steps|
  {
    if i == 0 then 0 else TickCount(steps, i - 1) + if steps[i - 1].TickAll? then 1 else 0
  }

  /** How many ticks had passed at each takeover. */
  function TakeTicks(steps: seq<Step>, i: nat): seq<nat>
    requires i <= |steps|
  {
    if i == 0 then []
    else TakeTicks(steps, i - 1) + if steps[i - 1].TakeOver? then [TickCount(steps, i - 1)] else []
  }

  /** The state agrees with the steps so far: the calls have the delays they were made with,
      and the timer thread has taken the first |takes| of them over, in order. */
  ghost predicate Matches(w: World, delays: seq<nat>, ticks: nat, takes: seq<nat>) {
    && w.calls == delays && w.ticks == ticks && |takes| <= |delays|
    && |w.pending| == |delays| - |takes|
    && (forall j | 0 <= j < |w.pending| :: w.pending[j] == Event(|takes| + j, delays[|takes| + j]))
    && (forall c :: c in w.joined <==> 0 <= c < |takes|)
    && (forall c | 0 <= c < |takes| :: w.joined[c] == takes[c])
  }

  lemma MatchesNext(s: Pos, n: nat, w: World, w': World, step: Step, delays: seq<nat>, ticks: nat, takes: seq<nat>)
    requires n > 0 && Shaped(s, w.ws) && |w.ws| == n && Next(s, n, w, w', step) && Matches(w, delays, ticks, takes)
    ensures Matches(w', delays + (if step.Sleep? then [step.delay] else []),
                    ticks + (if step.TickAll? then 1 else 0),
                    takes + if step.TakeOver? then [ticks] else [])
  {
  }

  lemma {:induction false} RunMatches(s: Pos, n: nat, ws: seq<World>, steps: seq<Step>, i: nat)
    requires Run(s, n, ws, steps) && i < |ws|
    ensures Matches(ws[i], SleepDelays(steps, i), TickCount(steps, i), TakeTicks(steps, i))
  {
    if i > 0 {
      RunMatches(s, n, ws, steps, i - 1);
      RunMatchesNext(s, n, ws, steps, i - 1);
    }
  }

  lemma RunMatchesNext(s: Pos, n: nat, ws: seq<World>, steps: seq<Step>, i: nat)
    requires Run(s, n, ws, steps) && i < |steps|
    requires Matches(ws[i], SleepDelays(steps, i), TickCount(steps, i), TakeTicks(steps, i))
    ensures Matches(ws[i + 1], SleepDelays(steps, i + 1), TickCount(steps, i + 1), TakeTicks(steps, i + 1))
  {
    MatchesNext(s, n, ws[i], ws[i + 1], steps[i], SleepDelays(steps, i), TickCount(steps, i), TakeTicks(steps, i));
  }

  /** The c-th call of a run, made with delay d and taken over after t ticks, has come out
      exactly once if its tick has passed and not at all before, and always in exactly that
      tick, computed from d and t. A call not taken over yet has not come out. */
  lemma SleeperWakes(s: Pos, n: nat, ws: seq<World>, steps: seq<Step>, i: nat, c: nat)
    requires Run(s, n, ws, steps) && i < |ws| && c < |SleepDelays(steps, i)|
    ensures |TakeTicks(steps, i)| <= |SleepDelays(steps, i)|
    ensures c < |TakeTicks(steps, i)| ==>
              var d, t := SleepDelays(steps, i)[c], TakeTicks(steps, i)[c];
              var f := FireTime(s, Level(s, n, d), t, d);
              && InLog(ws[i].log, c) == (if f < TickCount(steps, i) then 1 else 0)
              && forall x | x in ws[i].log && x.id == c :: x.tick == f
    ensures c >= |TakeTicks(steps, i)| ==> InLog(ws[i].log, c) == 0
  {
    RunMatches(s, n, ws, steps, i);
    RunKeepsInv(s, n, ws, steps, i);
    if c < |TakeTicks(steps, i)| {
      FiresExactlyOnce(s, n, ws[i], c);
    } else {
      NotTakenNotOut(s, n, ws[i], c);
    }
  }

  lemma NotTakenNotOut(s: Pos, n: nat, w: World, c: nat)
    requires Inv(s, n, w) && c !in w.joined
    ensures InLog(w.log, c) == 0
  {
    if InLog(w.log, c) > 0 {
      var i := LogFind(w.log, c);
      assert false;
    }
  }

  // ----- no call is left behind -----

  predicate LooksEmpty(steps: seq<Step>, i: nat)
    requires i <= |steps|
  {
    i > 0 && (steps[i - 1].SeeEmpty? || (steps[i - 1].Sleep? && LooksEmpty(steps, i - 1)))
  }

  lemma SeenNext(s: Pos, n: nat, w: World, w': World, step: Step)
    requires n > 0 && Shaped(s, w.ws) && |w.ws| == n && Next(s, n, w, w', step)
    ensures w'.seenEmpty <==> step.SeeEmpty? || (step.Sleep? && w.seenEmpty)
    ensures step.TickAll? ==> w.seenEmpty
  {
  }

  lemma {:induction false} SeenMatches(s: Pos, n: nat, ws: seq<World>, steps: seq<Step>, i: nat)
    requires Run(s, n, ws, steps) && i < |ws|
    ensures ws[i].seenEmpty <==> LooksEmpty(steps, i)
  {
    if i > 0 {
      SeenMatches(s, n, ws, steps, i - 1);
      SeenNext(s, n, ws[i - 1], ws[i], steps[i - 1]);
    }
  }

  lemma {:induction false} LastLook(steps: seq<Step>, i: nat) returns (e: nat)
    requires i <= |steps| && LooksEmpty(steps, i)
    ensures e < i && steps[e].SeeEmpty? && forall m | e < m < i :: steps[m].Sleep?
  {
    if steps[i - 1].SeeEmpty? {
      e := i - 1;
    } else {
      e := LastLook(steps, i - 1);
    }
  }

  /** Before a tick the timer thread has found the pending list empty, with nothing but new
      calls since: every call made before that has been taken over by the tick. */
  lemma NoneLeftBehind(s: Pos, n: nat, ws: seq<World>, steps: seq<Step>, i: nat) returns (e: nat)
    requires Run(s, n, ws, steps) && i < |steps| && steps[i].TickAll?
    ensures e < i && steps[e].SeeEmpty? && forall m | e < m < i :: steps[m].Sleep?
    ensures |TakeTicks(steps, e)| == |SleepDelays(steps, e)|
  {
    SeenMatches(s, n, ws, steps, i);
    SeenNext(s, n, ws[i], ws[i + 1], steps[i]);
    e := LastLook(steps, i);
    RunMatches(s, n, ws, steps, e);
    assert Next(s, n, ws[e], ws[e + 1], steps[e]);
  }
}
