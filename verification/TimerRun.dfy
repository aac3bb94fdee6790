/** The timer over whole runs: coroutines call coroutine_sleep at any moment while the
    timer thread takes pending events over, one at a time, and ticks when it has seen the
    pending list empty. */
module TimerRun {
  import opened Basics
  import opened WheelModel
  import opened WheelProof
  import opened WheelBags

  datatype Firing = Firing(id: nat, tick: nat)

  /** `calls` are the delays of all calls so far, `joined` the tick count at which the timer
      thread took each one over, `log` what came out of the lowest wheel, and when. */
  datatype World = World(calls: seq<nat>, joined: map<nat, nat>, pending: seq<Event>, ws: Wheels,
                         ticks: nat, seenEmpty: bool, log: seq<Firing>)

  datatype Step = Sleep(delay: nat) | TakeOver | SeeEmpty | TickAll

  function Fresh(s: Pos, n: nat): Wheels {
    seq(n, _ => Wheel(seq(s, _ => []), 0))
  }

  predicate Init(s: Pos, n: nat, w: World) {
    w == World([], map[], [], Fresh(s, n), 0, false, [])
  }

  function Logged(l: seq<Event>, tick: nat): seq<Firing> {
    seq(|l|, i requires 0 <= i < |l| => Firing(l[i].id, tick))
  }

  predicate Next(s: Pos, n: nat, w: World, w': World, step: Step)
    requires n > 0 && Shaped(s, w.ws) && |w.ws| == n
  {
    match step
    case Sleep(d) =>
      && d < Pow(s, n)
      && w' == w.(calls := w.calls + [d], pending := w.pending + [Event(|w.calls|, d)])
    case TakeOver =>
      && !w.seenEmpty && w.pending != []
      && var e := w.pending[0];
         var k := Level(s, n, e.delay);
         k < n && w' == w.(pending := w.pending[1..], joined := w.joined[e.id := w.ticks], ws := Put(s, w.ws, k, e))
    case SeeEmpty =>
      !w.seenEmpty && w.pending == [] && w' == w.(seenEmpty := true)
    case TickAll =>
      && w.seenEmpty
      && w' == w.(seenEmpty := false, ws := Tick(s, w.ws, 0), ticks := w.ticks + 1,
                  log := w.log + Logged(Current(s, w.ws, 0), w.ticks))
  }

  // ----- the invariant -----

  /** The tick in which call c comes out. */
  function DueOf(s: Pos, n: nat, w: World, c: nat): nat
    requires c in w.joined && c < |w.calls|
  {
    FireTime(s, Level(s, n, w.calls[c]), w.joined[c], w.calls[c])
  }

  function DueMap(s: Pos, n: nat, w: World): Dues
    requires forall c | c in w.joined :: c < |w.calls|
  {
    map c | c in w.joined :: DueOf(s, n, w, c)
  }

  function LogIds(log: seq<Firing>): seq<nat> {
    seq(|log|, i requires 0 <= i < |log| => log[i].id)
  }

  /** How often call c has come out. */
  function InLog(log: seq<Firing>, c: nat): nat {
    multiset(LogIds(log))[c]
  }

  /** How often call c is in the timer or has come out of it. */
  function Copies(w: World, c: nat): nat {
    InList(w.pending, c) + Held(w.ws, c) + InLog(w.log, c)
  }

  predicate Known(s: Pos, n: nat, w: World) {
    && (forall c | c in w.joined :: c < |w.calls|)
    && (forall c | 0 <= c < |w.calls| :: w.calls[c] < Pow(s, n))
    && forall e | e in w.pending :: e.id < |w.calls| && e.delay == w.calls[e.id] && e.id !in w.joined
  }

  ghost predicate Conserved(w: World) {
    forall c: nat :: Copies(w, c) == if c < |w.calls| then 1 else 0
  }

  predicate JoinedOrPending(w: World) {
    forall c | 0 <= c < |w.calls| :: c in w.joined || InList(w.pending, c) > 0
  }

  predicate LogOk(s: Pos, n: nat, w: World)
    requires Known(s, n, w)
  {
    forall f | f in w.log :: f.id in w.joined && f.tick == DueOf(s, n, w, f.id) < w.ticks
  }

  ghost predicate Inv(s: Pos, n: nat, w: World) {
    && n > 0 && |w.ws| == n && Known(s, n, w) && Conserved(w) && JoinedOrPending(w) && LogOk(s, n, w)
    && Timed(s, w.ws, Counts(s, n, w.ticks, 0), DueMap(s, n, w))
  }

  // ----- small lemmas -----

  lemma LogMore(log: seq<Firing>, l: seq<Event>, tick: nat, c: nat)
    ensures InLog(log + Logged(l, tick), c) == InLog(log, c) + InList(l, c)
  {
    assert LogIds(log + Logged(l, tick)) == LogIds(log) + Ids(l);
  }

  lemma LogFind(log: seq<Firing>, c: nat) returns (i: nat)
    requires InLog(log, c) > 0
    ensures i < |log| && log[i].id == c
  {
    assert c in LogIds(log);
    i :| i < |log| && LogIds(log)[i] == c;
  }

  lemma LogHas(log: seq<Firing>, i: nat)
    requires i < |log|
    ensures InLog(log, log[i].id) > 0
  {
    assert LogIds(log)[i] in LogIds(log);
  }

  lemma ListFind(l: seq<Event>, c: nat) returns (e: Event)
    requires InList(l, c) > 0
    ensures e in l && e.id == c
  {
    assert c in Ids(l);
    var i: nat :| i < |l| && Ids(l)[i] == c;
    e := l[i];
  }

  lemma ListHas(l: seq<Event>, e: Event)
    requires e in l
    ensures InList(l, e.id) > 0
  {
    var i: nat :| i < |l| && l[i] == e;
    assert Ids(l)[i] in Ids(l);
  }

  lemma {:induction false} SlotFind(slots: seq<seq<Event>>, c: nat) returns (j: nat, e: Event)
    requires InSlots(slots, c) > 0
    ensures j < |slots| && e in slots[j] && e.id == c
    decreases |slots|
  {
    j := |slots| - 1;
    if InList(slots[j], c) > 0 {
      e := ListFind(slots[j], c);
    } else {
      j, e := SlotFind(slots[..j], c);
    }
  }

  lemma {:induction false} HeldFind(ws: Wheels, c: nat) returns (k: nat, j: nat, e: Event)
    requires Held(ws, c) > 0
    ensures k < |ws| && j < |ws[k].slots| && e in ws[k].slots[j] && e.id == c
    decreases |ws|
  {
    k := |ws| - 1;
    if InSlots(ws[k].slots, c) > 0 {
      j, e := SlotFind(ws[k].slots, c);
    } else {
      k, j, e := HeldFind(ws[..k], c);
    }
  }

  lemma TimedMore(s: Pos, ws: Wheels, n: seq<nat>, due: Dues, due': Dues)
    requires Timed(s, ws, n, due) && forall c | c in due :: c in due' && due'[c] == due[c]
    ensures Timed(s, ws, n, due')
  {
    forall k | 0 <= k < |ws| ensures WheelOnTime(s, k, n[k], ws[k], due') {
      forall j | 0 <= j < |ws[k].slots| ensures SlotOnTime(s, k, n[k], j, ws[k].slots[j], due') {
        assert SlotOnTime(s, k, n[k], j, ws[k].slots[j], due);
      }
    }
  }

  // ----- the level -----

  lemma {:induction false} PowMono(s: Pos, i: nat, j: nat)
    requires i <= j
    ensures Pow(s, i) <= Pow(s, j)
    decreases j
  {
    if i < j {
      PowMono(s, i, j - 1);
      MulFar(s, Pow(s, j - 1));
      assert s * Pow(s, j - 1) >= Pow(s, j - 1);
    }
  }

  /** internal_add_event throws exactly for delays of s^n and more; otherwise it takes the
      wheel k with s^k <= d < s^(k+1), or the lowest. */
  lemma LevelRange(s: Pos, n: nat, d: nat)
    requires n > 0
    ensures var k := Level(s, n, d);
            && (k == n <==> d >= Pow(s, n))
            && (k < n ==> d < Pow(s, k + 1))
            && (k > 0 ==> d >= Pow(s, k))
  {
    var k := Level(s, n, d);
    LevelIsLeast(s, n, d, 0);
    if k > 0 {
      assert !Fits(s, k - 1, d) && Pow(s, k) == s * Pow(s, k - 1);
    }
    if k < n {
      assert Fits(s, k, d) && Pow(s, k + 1) == s * Pow(s, k);
      PowMono(s, k + 1, n);
    }
  }

  // ----- every step keeps the invariant -----

  lemma FreshTimed(s: Pos, n: nat)
    ensures Timed(s, Fresh(s, n), Counts(s, n, 0, 0), map[])
  {
    forall k | 0 <= k < n ensures WheelOnTime(s, k, Counts(s, n, 0, 0)[k], Fresh(s, n)[k], map[]) {
      ModUnique(0, Pow(s, k), 0, 0);
      ModUnique(0, s, 0, 0);
    }
  }

  lemma {:induction false} EmptySlots(slots: seq<seq<Event>>, c: nat)
    requires forall j | 0 <= j < |slots| :: slots[j] == []
    ensures InSlots(slots, c) == 0
    decreases |slots|
  {
    if slots != [] {
      EmptySlots(slots[..|slots| - 1], c);
    }
  }

  lemma {:induction false} EmptyWheels(ws: Wheels, c: nat)
    requires forall k, j | 0 <= k < |ws| && 0 <= j < |ws[k].slots| :: ws[k].slots[j] == []
    ensures Held(ws, c) == 0
    decreases |ws|
  {
    if ws != [] {
      EmptySlots(ws[|ws| - 1].slots, c);
      EmptyWheels(ws[..|ws| - 1], c);
    }
  }

  lemma InitInv(s: Pos, n: nat, w: World)
    requires n > 0 && Init(s, n, w)
    ensures Inv(s, n, w)
  {
    FreshTimed(s, n);
    assert DueMap(s, n, w) == map[];
    forall c: nat ensures Copies(w, c) == 0 {
      EmptyWheels(w.ws, c);
    }
  }

  lemma SleepInv(s: Pos, n: nat, w: World, w': World, d: nat)
    requires Inv(s, n, w) && Next(s, n, w, w', Sleep(d))
    ensures Inv(s, n, w')
  {
    SleepCounts(s, n, w, w', d);
    assert DueMap(s, n, w') == DueMap(s, n, w);
  }

  lemma SleepCounts(s: Pos, n: nat, w: World, w': World, d: nat)
    requires Inv(s, n, w) && Next(s, n, w, w', Sleep(d))
    ensures Conserved(w') && JoinedOrPending(w')
  {
    forall c: nat
      ensures InList(w'.pending, c) == InList(w.pending, c) + (if c == |w.calls| then 1 else 0)
      ensures Copies(w', c) == Copies(w, c) + if c == |w.calls| then 1 else 0
    {
      ListPush(w.pending, Event(|w.calls|, d), c);
    }
  }

  lemma TakeOverTimed(s: Pos, n: nat, w: World, w': World)
    requires Inv(s, n, w) && Next(s, n, w, w', TakeOver) && Known(s, n, w')
    ensures Timed(s, w'.ws, Counts(s, n, w'.ticks, 0), DueMap(s, n, w'))
  {
    var e := w.pending[0];
    var k := Level(s, n, e.delay);
    var due, due', m := DueMap(s, n, w), DueMap(s, n, w'), Counts(s, n, w.ticks, 0);
    assert forall c | c in due :: c in due' && due'[c] == due[c];
    TimedMore(s, w.ws, m, due, due');
    LevelIsLeast(s, n, e.delay, 0);
    FireDirect(s, k, w.ticks, e.delay);
    PutOnTime(s, w.ws, m, due', k, e);
  }

  lemma TakeOverKnown(s: Pos, n: nat, w: World, w': World)
    requires Inv(s, n, w) && Next(s, n, w, w', TakeOver)
    ensures Known(s, n, w') && LogOk(s, n, w')
  {
    var e := w.pending[0];
    ListPop(w.pending, e.id);
    assert Copies(w, e.id) == 1;
    forall f | f in w'.pending ensures f.id != e.id {
      ListHas(w'.pending, f);
    }
    assert forall f | f in w'.pending :: f in w.pending;
    forall f | f in w.log ensures f.id != e.id {
      var i :| 0 <= i < |w.log| && w.log[i] == f;
      LogHas(w.log, i);
    }
  }

  lemma TakeOverInv(s: Pos, n: nat, w: World, w': World)
    requires Inv(s, n, w) && Next(s, n, w, w', TakeOver)
    ensures Inv(s, n, w')
  {
    TakeOverKnown(s, n, w, w');
    TakeOverTimed(s, n, w, w');
    var e := w.pending[0];
    forall c: nat ensures Copies(w', c) == Copies(w, c)
        && InList(w'.pending, c) == InList(w.pending, c) - (if c == e.id then 1 else 0)
    {
      ListPop(w.pending, c);
      PutHeld(s, w.ws, Level(s, n, e.delay), e, c);
    }
  }

  lemma TickAllTimed(s: Pos, n: nat, w: World, w': World)
    requires Inv(s, n, w) && Next(s, n, w, w', TickAll)
    ensures Timed(s, w'.ws, Counts(s, n, w'.ticks, 0), DueMap(s, n, w'))
  {
    assert DueMap(s, n, w') == DueMap(s, n, w);
    MultipleOf(w.ticks + 1, 1, w.ticks + 1);
    TickOnTime(s, w.ws, DueMap(s, n, w), w.ticks, 0);
  }

  lemma FiringsOnTime(s: Pos, n: nat, w: World, f: Firing)
    requires Inv(s, n, w) && f in Logged(Current(s, w.ws, 0), w.ticks)
    ensures f.id in w.joined && f.tick == w.ticks == DueOf(s, n, w, f.id)
  {
    var l := Current(s, w.ws, 0);
    var i :| 0 <= i < |l| && f == Firing(l[i].id, w.ticks);
    CurrentIsDue(s, w.ws, Counts(s, n, w.ticks, 0), DueMap(s, n, w), 0, l[i]);
  }

  lemma TickAllLog(s: Pos, n: nat, w: World, w': World)
    requires Inv(s, n, w) && Next(s, n, w, w', TickAll)
    ensures LogOk(s, n, w')
  {
    forall f | f in w'.log ensures f.id in w'.joined && f.tick == DueOf(s, n, w', f.id) < w'.ticks {
      if f !in w.log {
        FiringsOnTime(s, n, w, f);
      }
    }
  }

  lemma TickAllInv(s: Pos, n: nat, w: World, w': World)
    requires Inv(s, n, w) && Next(s, n, w, w', TickAll)
    ensures Inv(s, n, w')
  {
    TickAllTimed(s, n, w, w');
    TickAllLog(s, n, w, w');
    forall c: nat ensures Copies(w', c) == Copies(w, c) {
      var l := Current(s, w.ws, 0);
      TickHeld(s, w.ws, 0, c);
      LogMore(w.log, l, w.ticks, c);
    }
  }

  lemma NextKeepsInv(s: Pos, n: nat, w: World, w': World, step: Step)
    requires Inv(s, n, w) && Next(s, n, w, w', step)
    ensures Inv(s, n, w')
  {
    match step
    case Sleep(d) => SleepInv(s, n, w, w', d);
    case TakeOver => TakeOverInv(s, n, w, w');
    case SeeEmpty =>
      assert DueMap(s, n, w') == DueMap(s, n, w);
      assert forall c: nat :: Copies(w', c) == Copies(w, c);
    case TickAll => TickAllInv(s, n, w, w');
  }

  /** The steps lead from the first of the worlds through the others. */
  ghost predicate Path(s: Pos, n: nat, ws: seq<World>, steps: seq<Step>) {
    && |ws| == |steps| + 1 && Inv(s, n, ws[0])
    && (steps != [] ==> Next(s, n, ws[0], ws[1], steps[0]) && Path(s, n, ws[1..], steps[1..]))
  }

  predicate Run(s: Pos, n: nat, ws: seq<World>, steps: seq<Step>) {
    && n > 0 && |ws| == |steps| + 1 && Init(s, n, ws[0])
    && (forall i | 0 <= i < |ws| :: Shaped(s, ws[i].ws) && |ws[i].ws| == n)
    && forall i | 0 <= i < |steps| :: Next(s, n, ws[i], ws[i + 1], steps[i])
  }

  lemma {:induction false} RunKeepsInv(s: Pos, n: nat, ws: seq<World>, steps: seq<Step>, i: nat)
    requires Run(s, n, ws, steps) && i < |ws|
    ensures Inv(s, n, ws[i])
  {
    if i == 0 {
      InitInv(s, n, ws[0]);
    } else {
      RunKeepsInv(s, n, ws, steps, i - 1);
      NextKeepsInv(s, n, ws[i - 1], ws[i], steps[i - 1]);
    }
  }

  /** A round of the timer thread, as computed by TimerManager.Round, is a run of its steps. */
  lemma {:induction false} RoundIsARun(s: Pos, n: nat, w: World) returns (run: seq<World>, steps: seq<Step>)
    requires Inv(s, n, w) && !w.seenEmpty
    ensures Path(s, n, run, steps) && run[0] == w
    ensures var ws, end := EnterAll(s, w.ws, w.pending), run[|steps|];
            && end.pending == [] && !end.seenEmpty && end.ticks == w.ticks + 1
            && end.ws == Tick(s, ws, 0) && end.log == w.log + Logged(Current(s, ws, 0), w.ticks)
    decreases |w.pending|
  {
    if w.pending == [] {
      var seen := w.(seenEmpty := true);
      var end := seen.(seenEmpty := false, ws := Tick(s, w.ws, 0), ticks := w.ticks + 1,
                       log := w.log + Logged(Current(s, w.ws, 0), w.ticks));
      NextKeepsInv(s, n, w, seen, SeeEmpty);
      NextKeepsInv(s, n, seen, end, TickAll);
      assert Path(s, n, [end], []);
      assert [seen, end][1..] == [end] && [w, seen, end][1..] == [seen, end] && [SeeEmpty, TickAll][1..] == [TickAll];
      assert Path(s, n, [seen, end], [TickAll]);
      run, steps := [w, seen, end], [SeeEmpty, TickAll];
    } else {
      NeverThrows(s, n, w);
      var e := w.pending[0];
      var next := w.(pending := w.pending[1..], joined := w.joined[e.id := w.ticks], ws := Enter(s, w.ws, e));
      NextKeepsInv(s, n, w, next, TakeOver);
      var rest, more := RoundIsARun(s, n, next);
      run, steps := [w] + rest, [TakeOver] + more;
      assert run[1..] == rest && steps[1..] == more;
    }
  }

  // ----- what the timer promises -----

  /** No pending event makes internal_add_event throw, so the timer thread can always go on. */
  lemma NeverThrows(s: Pos, n: nat, w: World)
    requires Inv(s, n, w)
    ensures forall e | e in w.pending :: Level(s, n, e.delay) < n
  {
    forall e | e in w.pending ensures Level(s, n, e.delay) < n {
      LevelRange(s, n, e.delay);
    }
  }

  /** After t ticks wheel k points at slot (t / s^k) mod s. */
  lemma Odometer(s: Pos, n: nat, w: World, k: nat)
    requires Inv(s, n, w) && k < n
    ensures w.ws[k].cur == w.ticks / Pow(s, k) % s
  {
    assert WheelOnTime(s, k, Counts(s, n, w.ticks, 0)[k], w.ws[k], DueMap(s, n, w));
  }

  /** An event still in a wheel is not overdue. */
  lemma NotOverdue(s: Pos, n: nat, w: World, c: nat)
    requires Inv(s, n, w) && Held(w.ws, c) > 0
    ensures c in w.joined && DueOf(s, n, w, c) >= w.ticks
  {
    var k, j, e := HeldFind(w.ws, c);
    var m := Counts(s, n, w.ticks, 0);
    assert WheelOnTime(s, k, m[k], w.ws[k], DueMap(s, n, w));
    assert SlotOnTime(s, k, m[k], j, w.ws[k].slots[j], DueMap(s, n, w));
    NotBefore(s, k, w.ticks, j, e.delay);
  }

  lemma NextRevolution(p: Pos, t: nat)
    ensures t < (t / p + 1) * p <= t + p
  {
    DivMod(t, p);
    Distribute(t / p, 1, 0, p);
  }

  lemma NotBefore(s: Pos, k: nat, t: nat, j: nat, r: nat)
    ensures Fire(s, k, NextTick(s, t / Pow(s, k), j), r) >= t
  {
    var p, n := Pow(s, k), t / Pow(s, k);
    var m := NextTick(s, n, j);
    NextRevolution(p, t);
    MulMore(m + 1, n + 1, p);
  }

  lemma MulMore(a: nat, b: nat, p: Pos)
    requires a >= b
    ensures a * p >= b * p
  {
    Distribute(b, a - b, 0, p);
  }

  /** In every reachable state, a call taken over after t ticks has come out exactly once if
      its tick has passed and not at all before, and always in exactly that tick. */
  lemma FiresExactlyOnce(s: Pos, n: nat, w: World, c: nat)
    requires Inv(s, n, w) && c in w.joined
    ensures InLog(w.log, c) == if DueOf(s, n, w, c) < w.ticks then 1 else 0
    ensures forall f | f in w.log && f.id == c :: f.tick == DueOf(s, n, w, c)
  {
    assert Copies(w, c) == 1;
    if InList(w.pending, c) > 0 {
      var e := ListFind(w.pending, c);
      assert false;
    }
    if Held(w.ws, c) > 0 {
      NotOverdue(s, n, w, c);
    } else {
      var i := LogFind(w.log, c);
      assert w.log[i] in w.log;
    }
  }

  /** Never early; late by nothing on the lowest wheel and by a bounded amount above. */
  lemma Lateness(s: Pos, k: nat, t: nat, d: nat)
    ensures k == 0 ==> FireTime(s, k, t, d) == t + d
    ensures k > 0 ==> t + d < FireTime(s, k, t, d) - Lag(s, k) <= t + d + Pow(s, k)
  {
    NextRevolution(Pow(s, k), t);
  }

  /** The closed form for the constants of the source: 3 wheels of 60 slots. */
  lemma SixtySlots(t: nat, d: nat)
    requires d < 60 * 60 * 60
    ensures var k := Level(60, 3, d);
            FireTime(60, k, t, d) == if d < 60 then t + d
                                     else if d < 3600 then 60 * (t / 60 + 1) + d
                                     else 3600 * (t / 3600 + 1) + 60 + d
    ensures var f := FireTime(60, Level(60, 3, d), t, d);
            t + d <= f <= t + d + (if d < 60 then 0 else if d < 3600 then 60 else 3660)
  {
    assert Pow(60, 1) == 60 && Pow(60, 2) == 3600 && Pow(60, 3) == 216000;
    LevelRange(60, 3, d);
    Lateness(60, Level(60, 3, d), t, d);
    assert Lag(60, 2) == 60;
  }

  /** tests/test_timewheel.cpp expects a coroutine to wake exactly its delay after the timer
      took its call over. The code does that when the delay is below one revolution of the
      lowest wheel, and only then. */
  lemma ExactlyOnTime(s: Pos, n: nat, t: nat, d: nat)
    requires n > 0 && d < Pow(s, n)
    ensures FireTime(s, Level(s, n, d), t, d) == t + d <==> d < s
  {
    var k := Level(s, n, d);
    LevelRange(s, n, d);
    Lateness(s, k, t, d);
    assert Pow(s, 1) == s;
    if k > 0 {
      PowMono(s, 1, k);
    }
  }

  /** An input on which it does not: a delay of 60 ticks from the start takes 120. */
  lemma SixtyTakesTwice()
    ensures FireTime(60, Level(60, 3, 60), 0, 60) == 120
  {
    SixtySlots(0, 60);
  }
}
