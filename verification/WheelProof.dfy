/** Why the time wheels keep their promises: every event waits in a slot from which it will
    come out in the tick it was promised, and ticking keeps it so. */
module WheelProof {
  import opened Basics
  import opened WheelModel

  // ----- when a slot is due -----

  /** The next tick of a wheel that empties slot j, after n ticks of that wheel. */
  function NextTick(s: Pos, n: nat, j: nat): nat {
    n + (j - n) % s
  }

  /** s + s^2 + ... + s^(k-1). */
  function Lag(s: Pos, k: nat): nat {
    if k <= 1 then 0 else Pow(s, k - 1) + Lag(s, k - 1)
  }

  /** The tick in which an event comes out that wheel k hands down in its tick m: tick m of
      wheel k > 0 happens at the end of timer tick (m + 1) * s^k - 1. */
  function Fire(s: Pos, k: nat, m: nat, r: nat): nat {
    if k == 0 then m else Comes(m, Pow(s, k), Lag(s, k), r % Pow(s, k))
  }

  function Comes(m: nat, p: nat, lag: nat, x: nat): nat {
    (m + 1) * p + lag + x
  }

  /** The tick in which an event with delay d comes out that wheel k takes after t ticks. */
  function FireTime(s: Pos, k: nat, t: nat, d: nat): nat {
    if k == 0 then t + d else (t / Pow(s, k) + 1) * Pow(s, k) + Lag(s, k) + d
  }

  lemma DivMod(x: int, p: Pos)
    ensures x == x / p * p + x % p && 0 <= x % p < p
  {
  }

  lemma Distribute(a: nat, b: nat, c: nat, p: nat)
    ensures (a + b + c) * p == a * p + b * p + c * p
  {
  }

  lemma MulAssoc(a: nat, b: nat, c: nat)
    ensures a * b * c == a * (b * c)
  {
  }

  lemma FireDirect(s: Pos, k: nat, t: nat, d: nat)
    ensures Fire(s, k, t / Pow(s, k) + d / Pow(s, k), d) == FireTime(s, k, t, d)
  {
    var p := Pow(s, k);
    DivMod(d, p);
    Distribute(t / p, d / p, 1, p);
    Distribute(t / p, 1, 0, p);
  }

  /** Handing an event down does not change when it comes out: m' is the number of ticks
      the wheel below has made by then, x the delay it gets and y the slots x spans there. */
  lemma FireLower(s: Pos, k: nat, m: nat, m': nat, r: nat, x: nat, y: nat)
    requires k > 0 && m' == (m + 1) * s && x == r % Pow(s, k) && y == x / Pow(s, k - 1)
    ensures Fire(s, k, m, r) == Fire(s, k - 1, m' + y, x)
  {
    if k == 1 {
      LowestSum(m, s, Pow(s, 1), x);
    } else {
      LowerSum(m, s, m', Pow(s, k - 1), Pow(s, k), x, Lag(s, k - 1));
    }
  }

  lemma LowestSum(m: nat, s: Pos, p: Pos, x: nat)
    requires p == s
    ensures Comes(m, p, 0, x) == (m + 1) * s + x / 1
  {
  }

  lemma LowerSum(m: nat, s: Pos, m': nat, p: Pos, big: nat, x: nat, lag: nat)
    requires big == s * p && m' == (m + 1) * s
    ensures Comes(m, big, p + lag, x) == Comes(m' + x / p, p, lag, x % p)
  {
    DivMod(x, p);
    Distribute(m', x / p, 1, p);
    MulAssoc(m + 1, s, p);
  }

  lemma MulFar(a: int, p: Pos)
    ensures (a >= 1 ==> a * p >= p) && (a <= -1 ==> a * p <= 0 - p)
  {
  }

  lemma Cancel(a: int, b: int, p: Pos, r: int)
    requires a * p == b * p + r && 0 - p < r < p
    ensures a == b && r == 0
  {
    MulFar(a - b, p);
    assert (a - b) * p == a * p - b * p;
  }

  lemma ModUnique(x: int, s: Pos, q: nat, z: int)
    requires x == z * s + q && q < s
    ensures x % s == q && x / s == z
  {
    var y, r := x / s, x % s;
    DivMod(x, s);
    assert x == y * s + r;
    Cancel(y, z, s, q - r);
  }

  /** The slot for a delay of q slots is emptied q ticks later. */
  lemma NextFor(s: Pos, n: nat, q: nat)
    requires q < s
    ensures NextTick(s, n, (n % s + q) % s) == n + q
  {
    var a := n % s + q;
    DivMod(n, s);
    DivMod(a, s);
    var z := -(n / s) - a / s;
    assert a % s - n == z * s + q by {
      assert z * s == -(n / s * s) - a / s * s;
    }
    ModUnique(a % s - n, s, q, z);
  }

  lemma NextNow(s: Pos, n: nat)
    ensures NextTick(s, n, n % s) == n
  {
    DivMod(n, s);
    ModUnique(n % s - n, s, 0, -(n / s));
  }

  /** A tick does not change when the other slots are due. */
  lemma NextLater(s: Pos, n: nat, j: nat)
    requires j < s && j != n % s
    ensures NextTick(s, n + 1, j) == NextTick(s, n, j)
  {
    var q := (j - n) % s;
    var z := (j - n) / s;
    assert j - n == z * s + q;
    if q == 0 {
      ModUnique(n, s, j, -z);
      assert false;
    }
    ModUnique(j - (n + 1), s, q - 1, z);
  }

  // ----- the invariant -----

  type Dues = map<nat, nat>

  predicate OnTime(s: Pos, k: nat, n: nat, j: nat, e: Event, due: Dues) {
    e.id in due && Fits(s, k, e.delay) && due[e.id] == Fire(s, k, NextTick(s, n, j), e.delay)
  }

  predicate SlotOnTime(s: Pos, k: nat, n: nat, j: nat, l: seq<Event>, due: Dues) {
    forall e | e in l :: OnTime(s, k, n, j, e, due)
  }

  predicate WheelOnTime(s: Pos, k: nat, n: nat, w: Wheel, due: Dues) {
    w.cur == n % s && forall j | 0 <= j < |w.slots| :: SlotOnTime(s, k, n, j, w.slots[j], due)
  }

  /** After n[k] ticks of each wheel k, all events will come out when due. */
  predicate Timed(s: Pos, ws: Wheels, n: seq<nat>, due: Dues) {
    && Shaped(s, ws) && |n| == |ws|
    && forall k | 0 <= k < |ws| :: WheelOnTime(s, k, n[k], ws[k], due)
  }

  lemma WheelChanged(s: Pos, ws: Wheels, n: seq<nat>, due: Dues, k: nat, w: Wheel, m: nat)
    requires Timed(s, ws, n, due) && k < |ws| && |w.slots| == s && WheelOnTime(s, k, m, w, due)
    ensures Timed(s, ws[k := w], n[k := m], due)
  {
  }

  /** An event put into slot j, where it will come out when promised. */
  lemma PutAtOnTime(s: Pos, ws: Wheels, n: seq<nat>, due: Dues, k: nat, j: nat, e: Event)
    requires Timed(s, ws, n, due) && k < |ws| && j < s && OnTime(s, k, n[k], j, e, due)
    ensures Timed(s, PutAt(s, ws, k, j, e), n, due)
  {
    var w := ws[k];
    assert SlotOnTime(s, k, n[k], j, w.slots[j], due);
    assert SlotOnTime(s, k, n[k], j, w.slots[j] + [e], due);
    WheelChanged(s, ws, n, due, k, w.(slots := w.slots[j := w.slots[j] + [e]]), n[k]);
    assert n[k := n[k]] == n;
  }

  /** The slot add_event chooses is such a slot. */
  lemma SlotIsOnTime(s: Pos, k: nat, n: nat, cur: nat, e: Event, due: Dues)
    requires cur == n % s && Fits(s, k, e.delay) && e.id in due
    requires due[e.id] == Fire(s, k, n + e.delay / Pow(s, k), e.delay)
    ensures OnTime(s, k, n, (cur + e.delay / Pow(s, k)) % s, e, due)
  {
    Quotient(e.delay, Pow(s, k), s);
    NextFor(s, n, e.delay / Pow(s, k));
  }

  /** Adding an event with the right promise. */
  lemma PutOnTime(s: Pos, ws: Wheels, n: seq<nat>, due: Dues, k: nat, e: Event)
    requires Timed(s, ws, n, due) && k < |ws| && Fits(s, k, e.delay) && e.id in due
    requires due[e.id] == Fire(s, k, n[k] + e.delay / Pow(s, k), e.delay)
    ensures Timed(s, Put(s, ws, k, e), n, due)
  {
    assert WheelOnTime(s, k, n[k], ws[k], due);
    SlotIsOnTime(s, k, n[k], ws[k].cur, e, due);
    PutAtOnTime(s, ws, n, due, k, SlotFor(s, ws, k, e.delay), e);
  }

  lemma Quotient(d: nat, p: Pos, s: Pos)
    requires d < p * s
    ensures d / p < s
  {
    DivMod(d, p);
    MulFar(d / p - s + 1, p);
    assert (d / p - s + 1) * p == d / p * p - s * p + p;
  }

  lemma DropOnTime(s: Pos, ws: Wheels, n: seq<nat>, due: Dues, k: nat, l: seq<Event>)
    requires Timed(s, ws, n, due) && k < |ws| && forall e | e in l :: e in Current(s, ws, k)
    ensures Timed(s, SetCurrent(s, ws, k, l), n, due)
  {
    var w := ws[k];
    assert SlotOnTime(s, k, n[k], w.cur, w.slots[w.cur], due);
    assert SlotOnTime(s, k, n[k], w.cur, l, due);
    WheelChanged(s, ws, n, due, k, w.(slots := w.slots[w.cur := l]), n[k]);
    assert n[k := n[k]] == n;
  }

  /** What is in the current slot of a wheel is due in this tick of the wheel. */
  lemma CurrentIsDue(s: Pos, ws: Wheels, n: seq<nat>, due: Dues, k: nat, e: Event)
    requires Timed(s, ws, n, due) && k < |ws| && e in Current(s, ws, k)
    ensures e.id in due && Fits(s, k, e.delay) && due[e.id] == Fire(s, k, n[k], e.delay)
  {
    assert WheelOnTime(s, k, n[k], ws[k], due);
    assert SlotOnTime(s, k, n[k], ws[k].cur, Current(s, ws, k), due);
    NextNow(s, n[k]);
  }

  lemma HandDownOnTime(s: Pos, ws: Wheels, n: seq<nat>, due: Dues, k: nat)
    requires Timed(s, ws, n, due) && 0 < k < |ws| && n[k - 1] == (n[k] + 1) * s && Current(s, ws, k) != []
    ensures Timed(s, HandDown(s, ws, k), n, due)
  {
    var l := Current(s, ws, k);
    var e := l[0];
    CurrentIsDue(s, ws, n, due, k, e);
    var x := Lowered(s, k, e).delay;
    FireLower(s, k, n[k], n[k - 1], e.delay, x, x / Pow(s, k - 1));
    LoweredFits(s, k, e);
    DropOnTime(s, ws, n, due, k, l[1..]);
    PutOnTime(s, SetCurrent(s, ws, k, l[1..]), n, due, k - 1, Lowered(s, k, e));
  }

  /** The cascade empties the current slot of wheel k and keeps all promises. */
  lemma {:induction false} CascadeOnTime(s: Pos, ws: Wheels, n: seq<nat>, due: Dues, k: nat)
    requires Timed(s, ws, n, due) && 0 < k < |ws| && n[k - 1] == (n[k] + 1) * s
    ensures Timed(s, Cascade(s, ws, k), n, due) && Current(s, Cascade(s, ws, k), k) == []
    decreases |Current(s, ws, k)|
  {
    if Current(s, ws, k) != [] {
      HandDownOnTime(s, ws, n, due, k);
      CascadeOnTime(s, HandDown(s, ws, k), n, due, k);
    }
  }

  lemma ModStep(s: Pos, n: nat)
    ensures (n + 1) % s == if n % s + 1 >= s then 0 else n % s + 1
  {
    DivMod(n, s);
    if n % s + 1 >= s {
      ModUnique(n + 1, s, 0, n / s + 1);
    } else {
      ModUnique(n + 1, s, n % s + 1, n / s);
    }
  }

  lemma AdvanceOnTime(s: Pos, ws: Wheels, n: seq<nat>, due: Dues, k: nat)
    requires Timed(s, ws, n, due) && k < |ws| && Current(s, ws, k) == []
    ensures Timed(s, Advance(s, ws, k), n[k := n[k] + 1], due)
  {
    var w := ws[k];
    ModStep(s, n[k]);
    forall j | 0 <= j < |w.slots| ensures SlotOnTime(s, k, n[k] + 1, j, w.slots[j], due) {
      assert SlotOnTime(s, k, n[k], j, w.slots[j], due);
      if j != w.cur {
        NextLater(s, n[k], j);
      }
    }
    WheelChanged(s, ws, n, due, k, Advance(s, ws, k)[k], n[k] + 1);
  }

  // ----- the odometer -----

  /** How often each of `len` wheels has ticked, halfway through timer tick t: wheels below k
      have had their share of it. */
  function Counts(s: Pos, len: nat, t: nat, k: nat): (n: seq<nat>)
    ensures |n| == len
  {
    seq(len, i requires 0 <= i < len => (if i < k then t + 1 else t) / Pow(s, i))
  }

  lemma DivStep(t: nat, p: Pos)
    ensures (t + 1) / p == if (t + 1) % p == 0 then t / p + 1 else t / p
  {
    DivMod(t, p);
    ModStep(p, t);
    DivMod(t + 1, p);
    if (t + 1) % p == 0 {
      assert (t + 1) / p * p == (t / p + 1) * p;
    } else {
      assert (t + 1) / p * p == t / p * p;
    }
    Cancel((t + 1) / p, if (t + 1) % p == 0 then t / p + 1 else t / p, p, 0);
  }

  lemma MultipleOf(x: nat, p: Pos, c: nat)
    requires x == c * p
    ensures x % p == 0 && x / p == c
  {
    ModUnique(x, p, 0, c);
  }

  /** When wheel k ticks, the wheel below has just come full circle. */
  lemma BelowIsFull(s: Pos, t: nat, k: nat)
    requires k > 0 && (t + 1) % Pow(s, k) == 0
    ensures (t + 1) / Pow(s, k - 1) == (t / Pow(s, k) + 1) * s
  {
    var p := Pow(s, k);
    DivMod(t + 1, p);
    DivStep(t, p);
    MulAssoc((t + 1) / p, s, Pow(s, k - 1));
    MultipleOf(t + 1, Pow(s, k - 1), (t + 1) / p * s);
  }

  /** Wheel k comes full circle exactly when the next power divides the number of ticks. */
  lemma FullCircle(s: Pos, t: nat, k: nat)
    requires t % Pow(s, k) == 0
    ensures t / Pow(s, k) % s == 0 <==> t % Pow(s, k + 1) == 0
  {
    var p, c := Pow(s, k), t / Pow(s, k);
    DivMod(t, p);
    if c % s == 0 {
      DivMod(c, s);
      MulAssoc(c / s, s, p);
      MultipleOf(t, Pow(s, k + 1), c / s);
    }
    if t % Pow(s, k + 1) == 0 {
      var z := t / Pow(s, k + 1);
      DivMod(t, Pow(s, k + 1));
      MulAssoc(z, s, p);
      Cancel(c, z * s, p, 0);
      MultipleOf(c, s, z);
    }
  }

  /** Divisible by a power, divisible by the smaller ones. */
  lemma {:induction false} SmallerPower(s: Pos, t: nat, k: nat, i: nat)
    requires k <= i && t % Pow(s, i) == 0
    ensures t % Pow(s, k) == 0
    decreases i
  {
    if k < i {
      DivMod(t, Pow(s, i));
      MulAssoc(t / Pow(s, i), s, Pow(s, i - 1));
      MultipleOf(t, Pow(s, i - 1), t / Pow(s, i) * s);
      SmallerPower(s, t, k, i - 1);
    }
  }

  /** Wheels above one that has not come full circle do not tick. */
  lemma RestStill(s: Pos, len: nat, t: nat, k: nat)
    requires k < len && (k + 1 == len || (t + 1) % Pow(s, k + 1) != 0)
    ensures Counts(s, len, t, k + 1) == Counts(s, len, t + 1, 0)
  {
    forall i | k < i < len ensures (t + 1) / Pow(s, i) == t / Pow(s, i) {
      if (t + 1) % Pow(s, i) == 0 {
        SmallerPower(s, t + 1, k + 1, i);
      }
      DivStep(t, Pow(s, i));
    }
  }

  /** The odometer and the promises, through a tick and the ticks it causes above: wheel k
      ticks within timer tick t. */
  lemma {:induction false} TickOnTime(s: Pos, ws: Wheels, due: Dues, t: nat, k: nat)
    requires k < |ws| && (t + 1) % Pow(s, k) == 0 && Timed(s, ws, Counts(s, |ws|, t, k), due)
    ensures Timed(s, Tick(s, ws, k), Counts(s, |ws|, t + 1, 0), due)
    decreases |ws| - k
  {
    StepOnTime(s, ws, due, t, k);
    FullCircle(s, t + 1, k);
    var w := Stepped(s, ws, k);
    if w[k].cur == 0 && k + 1 < |ws| {
      TickOnTime(s, w, due, t, k + 1);
    } else {
      RestStill(s, |ws|, t, k);
    }
  }

  /** The wheel's own part of it. */
  lemma StepOnTime(s: Pos, ws: Wheels, due: Dues, t: nat, k: nat)
    requires k < |ws| && (t + 1) % Pow(s, k) == 0 && Timed(s, ws, Counts(s, |ws|, t, k), due)
    ensures Timed(s, Stepped(s, ws, k), Counts(s, |ws|, t, k + 1), due)
    ensures Stepped(s, ws, k)[k].cur == (t + 1) / Pow(s, k) % s
  {
    var n := Counts(s, |ws|, t, k);
    EmptyOnTime(s, ws, due, t, k);
    AdvanceOnTime(s, EmptyCurrent(s, ws, k), n, due, k);
    DivStep(t, Pow(s, k));
    assert n[k := n[k] + 1] == Counts(s, |ws|, t, k + 1);
    assert WheelOnTime(s, k, (t + 1) / Pow(s, k), Stepped(s, ws, k)[k], due);
  }

  lemma EmptyOnTime(s: Pos, ws: Wheels, due: Dues, t: nat, k: nat)
    requires k < |ws| && (t + 1) % Pow(s, k) == 0 && Timed(s, ws, Counts(s, |ws|, t, k), due)
    ensures Timed(s, EmptyCurrent(s, ws, k), Counts(s, |ws|, t, k), due)
    ensures Current(s, EmptyCurrent(s, ws, k), k) == []
  {
    var n := Counts(s, |ws|, t, k);
    if k == 0 {
      DropOnTime(s, ws, n, due, 0, []);
    } else {
      BelowIsFull(s, t, k);
      CascadeOnTime(s, ws, n, due, k);
    }
  }

  lemma PowNext(s: Pos, i: nat, p: nat)
    requires i > 0 && p == Pow(s, i - 1)
    ensures p * s == Pow(s, i)
  {
  }

  lemma DivDiv(d: nat, p: Pos, s: Pos)
    ensures d / p / s == d / (s * p)
  {
    var y := d / p;
    DivMod(d, p);
    DivMod(y, s);
    MulAssoc(y / s, s, p);
    Distribute(y / s * s, y % s, 0, p);
    Within(y % s, d % p, s, p);
    ModUnique(d, s * p, y % s * p + d % p, y / s);
  }

  lemma DivPositive(d: nat, p: Pos)
    ensures d / p > 0 <==> d >= p
  {
    DivMod(d, p);
    MulFar(d / p, p);
  }

  /** The loop test of internal_add_event. */
  lemma LevelTest(s: Pos, k: nat, d: nat)
    ensures d / Pow(s, k) / s == d / Pow(s, k + 1)
    ensures d / Pow(s, k) / s > 0 <==> !Fits(s, k, d)
  {
    DivDiv(d, Pow(s, k), s);
    DivPositive(d, Pow(s, k + 1));
  }

  lemma Within(a: nat, b: nat, s: Pos, p: Pos)
    requires a < s && b < p
    ensures a * p + b < s * p
  {
    MulFar(s - a, p);
    assert (s - a) * p == s * p - a * p;
  }
}
