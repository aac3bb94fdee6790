/** What src/timer/timewheel.cpp computes, as functions on values: a stack of wheels with s
    slots each, lowest wheel first. One slot of wheel k spans s^k ticks. */
module WheelModel {
  import opened Basics

  /** One call of coroutine_sleep, with the delay field of its node. */
  datatype Event = Event(id: nat, delay: nat)

  datatype Wheel = Wheel(slots: seq<seq<Event>>, cur: nat)

  type Wheels = seq<Wheel>

  function Pow(s: Pos, k: nat): Pos {
    if k == 0 then 1 else s * Pow(s, k - 1)
  }

  predicate Shaped(s: Pos, ws: Wheels) {
    forall k | 0 <= k < |ws| :: |ws[k].slots| == s && ws[k].cur < s
  }

  /** The slot of wheel k for delay d: so many slots after the current one. */
  function SlotFor(s: Pos, ws: Wheels, k: nat, d: nat): nat
    requires k < |ws|
  {
    (ws[k].cur + d / Pow(s, k)) % s
  }

  /** TimeWheel::add_event throws for delays beyond one revolution of the wheel. */
  predicate Fits(s: Pos, k: nat, d: nat) {
    d < Pow(s, k) * s
  }

  function PutAt(s: Pos, ws: Wheels, k: nat, j: nat, e: Event): (ws': Wheels)
    requires Shaped(s, ws) && k < |ws| && j < s
    ensures Shaped(s, ws') && |ws'| == |ws|
  {
    ws[k := ws[k].(slots := ws[k].slots[j := ws[k].slots[j] + [e]])]
  }

  function Put(s: Pos, ws: Wheels, k: nat, e: Event): (ws': Wheels)
    requires Shaped(s, ws) && k < |ws|
    ensures Shaped(s, ws') && |ws'| == |ws|
  {
    PutAt(s, ws, k, SlotFor(s, ws, k, e.delay), e)
  }

  function Current(s: Pos, ws: Wheels, k: nat): seq<Event>
    requires Shaped(s, ws) && k < |ws|
  {
    ws[k].slots[ws[k].cur]
  }

  function SetCurrent(s: Pos, ws: Wheels, k: nat, l: seq<Event>): (ws': Wheels)
    requires Shaped(s, ws) && k < |ws|
    ensures Shaped(s, ws') && |ws'| == |ws| && Current(s, ws', k) == l
  {
    ws[k := ws[k].(slots := ws[k].slots[ws[k].cur := l])]
  }

  lemma SetTwice(s: Pos, ws: Wheels, k: nat, l: seq<Event>, l': seq<Event>)
    requires Shaped(s, ws) && k < |ws|
    ensures SetCurrent(s, SetCurrent(s, ws, k, l), k, l') == SetCurrent(s, ws, k, l')
  {
    assert ws[k].slots[ws[k].cur := l][ws[k].cur := l'] == ws[k].slots[ws[k].cur := l'];
  }

  lemma SetSame(s: Pos, ws: Wheels, k: nat)
    requires Shaped(s, ws) && k < |ws|
    ensures SetCurrent(s, ws, k, Current(s, ws, k)) == ws
  {
    assert ws[k].slots[ws[k].cur := Current(s, ws, k)] == ws[k].slots;
  }

  lemma OneChanged(ws: Wheels, ws': Wheels, k: nat)
    requires |ws| == |ws'| && k < |ws| && forall i | 0 <= i < |ws| && i != k :: ws'[i] == ws[i]
    ensures ws' == ws[k := ws'[k]]
  {
  }

  /** The event handed down by wheel k. */
  function Lowered(s: Pos, k: nat, e: Event): Event {
    e.(delay := e.delay % Pow(s, k))
  }

  /** What wheel k hands down fits on the wheel below. */
  lemma LoweredFits(s: Pos, k: nat, e: Event)
    requires k > 0
    ensures Fits(s, k - 1, Lowered(s, k, e).delay)
  {
    assert Pow(s, k - 1) * s == Pow(s, k);
  }

  /** One round of the cascade loop of wheel k. */
  function HandDown(s: Pos, ws: Wheels, k: nat): (ws': Wheels)
    requires Shaped(s, ws) && 0 < k < |ws| && Current(s, ws, k) != []
    ensures Shaped(s, ws') && |ws'| == |ws| && Current(s, ws', k) == Current(s, ws, k)[1..]
  {
    var l := Current(s, ws, k);
    Put(s, SetCurrent(s, ws, k, l[1..]), k - 1, Lowered(s, k, l[0]))
  }

  /** The whole loop: the current slot of wheel k empties into wheel k - 1. */
  function Cascade(s: Pos, ws: Wheels, k: nat): (ws': Wheels)
    requires Shaped(s, ws) && 0 < k < |ws|
    ensures Shaped(s, ws') && |ws'| == |ws|
    decreases |Current(s, ws, k)|
  {
    if Current(s, ws, k) == [] then ws else Cascade(s, HandDown(s, ws, k), k)
  }

  /** The lowest wheel hands its current slot to the job queue instead. */
  function EmptyCurrent(s: Pos, ws: Wheels, k: nat): (ws': Wheels)
    requires Shaped(s, ws) && k < |ws|
    ensures Shaped(s, ws') && |ws'| == |ws|
  {
    if k == 0 then SetCurrent(s, ws, 0, []) else Cascade(s, ws, k)
  }

  function Advance(s: Pos, ws: Wheels, k: nat): (ws': Wheels)
    requires Shaped(s, ws) && k < |ws|
    ensures Shaped(s, ws') && |ws'| == |ws|
  {
    ws[k := ws[k].(cur := if ws[k].cur + 1 >= s then 0 else ws[k].cur + 1)]
  }

  function Stepped(s: Pos, ws: Wheels, k: nat): (ws': Wheels)
    requires Shaped(s, ws) && k < |ws|
    ensures Shaped(s, ws') && |ws'| == |ws|
  {
    Advance(s, EmptyCurrent(s, ws, k), k)
  }

  /** TimeWheel::tick of wheel k, which ticks the wheel above when it comes full circle. */
  function Tick(s: Pos, ws: Wheels, k: nat): (ws': Wheels)
    requires Shaped(s, ws) && k < |ws|
    ensures Shaped(s, ws') && |ws'| == |ws|
    decreases |ws| - k
  {
    var w := Stepped(s, ws, k);
    if w[k].cur == 0 && k + 1 < |ws| then Tick(s, w, k + 1) else w
  }

  lemma TickIs(s: Pos, ws: Wheels, w: Wheels, ws': Wheels, k: nat)
    requires Shaped(s, ws) && k < |ws| && w == Stepped(s, ws, k)
    requires w[k].cur == 0 && k + 1 < |ws| ==> ws' == Tick(s, w, k + 1)
    requires !(w[k].cur == 0 && k + 1 < |ws|) ==> ws' == w
    ensures ws' == Tick(s, ws, k)
  {
  }

  /** The wheel internal_add_event chooses among n: the first on which d fits, n if none. */
  function Level(s: Pos, n: nat, d: nat, k: nat := 0): (l: nat)
    requires k <= n
    ensures k <= l <= n
    decreases n - k
  {
    if k == n || Fits(s, k, d) then k else Level(s, n, d, k + 1)
  }

  lemma {:induction false} LevelIsLeast(s: Pos, n: nat, d: nat, k: nat)
    requires k <= n
    ensures var l := Level(s, n, d, k);
            (l < n ==> Fits(s, l, d)) && forall i | k <= i < l :: !Fits(s, i, d)
    decreases n - k
  {
    if k < n && !Fits(s, k, d) {
      LevelIsLeast(s, n, d, k + 1);
    }
  }

  /** An event enters the wheel chosen for it; with too long a delay it enters none. */
  function Enter(s: Pos, ws: Wheels, e: Event): (ws': Wheels)
    requires Shaped(s, ws) && |ws| > 0
    ensures Shaped(s, ws') && |ws'| == |ws|
  {
    var k := Level(s, |ws|, e.delay);
    if k < |ws| then Put(s, ws, k, e) else ws
  }

  /** The loop of the timer thread over its pending list, as a function. */
  function EnterAll(s: Pos, ws: Wheels, l: seq<Event>): (ws': Wheels)
    requires Shaped(s, ws) && |ws| > 0
    ensures Shaped(s, ws') && |ws'| == |ws|
    decreases |l|
  {
    if l == [] then ws else EnterAll(s, Enter(s, ws, l[0]), l[1..])
  }
}
