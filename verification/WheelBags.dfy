/** Which events the wheels hold: ticking neither loses nor duplicates nor reorders any. */
module WheelBags {
  import opened Basics
  import opened WheelModel

  function Ids(l: seq<Event>): seq<nat> {
    seq(|l|, i requires 0 <= i < |l| => l[i].id)
  }

  /** How often the event of call c is in a list, in the slots of a wheel, in all wheels. */
  function InList(l: seq<Event>, c: nat): nat {
    multiset(Ids(l))[c]
  }

  function InSlots(slots: seq<seq<Event>>, c: nat): nat {
    if slots == [] then 0 else InSlots(slots[..|slots| - 1], c) + InList(slots[|slots| - 1], c)
  }

  function Held(ws: Wheels, c: nat): nat {
    if ws == [] then 0 else Held(ws[..|ws| - 1], c) + InSlots(ws[|ws| - 1].slots, c)
  }

  lemma ListPush(l: seq<Event>, e: Event, c: nat)
    ensures InList(l + [e], c) == InList(l, c) + if e.id == c then 1 else 0
  {
    assert Ids(l + [e]) == Ids(l) + [e.id];
  }

  lemma ListPop(l: seq<Event>, c: nat)
    requires l != []
    ensures InList(l, c) == InList(l[1..], c) + if l[0].id == c then 1 else 0
  {
    assert Ids(l) == [l[0].id] + Ids(l[1..]);
  }

  lemma {:induction false} SlotChanged(slots: seq<seq<Event>>, j: nat, l: seq<Event>, c: nat)
    requires j < |slots|
    ensures InSlots(slots[j := l], c) + InList(slots[j], c) == InSlots(slots, c) + InList(l, c)
    decreases |slots|
  {
    var n := |slots| - 1;
    if j < n {
      SlotChanged(slots[..n], j, l, c);
      assert slots[j := l][..n] == slots[..n][j := l];
    } else {
      assert slots[j := l][..n] == slots[..n];
    }
  }

  lemma {:induction false} WheelChanged(ws: Wheels, k: nat, w: Wheel, c: nat)
    requires k < |ws|
    ensures Held(ws[k := w], c) + InSlots(ws[k].slots, c) == Held(ws, c) + InSlots(w.slots, c)
    decreases |ws|
  {
    var n := |ws| - 1;
    if k < n {
      WheelChanged(ws[..n], k, w, c);
      assert ws[k := w][..n] == ws[..n][k := w];
    } else {
      assert ws[k := w][..n] == ws[..n];
    }
  }

  lemma PutHeld(s: Pos, ws: Wheels, k: nat, e: Event, c: nat)
    requires Shaped(s, ws) && k < |ws|
    ensures Held(Put(s, ws, k, e), c) == Held(ws, c) + if e.id == c then 1 else 0
  {
    var j := SlotFor(s, ws, k, e.delay);
    var l := ws[k].slots[j];
    ListPush(l, e, c);
    SlotChanged(ws[k].slots, j, l + [e], c);
    WheelChanged(ws, k, Put(s, ws, k, e)[k], c);
  }

  lemma SetHeld(s: Pos, ws: Wheels, k: nat, l: seq<Event>, c: nat)
    requires Shaped(s, ws) && k < |ws|
    ensures Held(SetCurrent(s, ws, k, l), c) + InList(Current(s, ws, k), c) == Held(ws, c) + InList(l, c)
  {
    SlotChanged(ws[k].slots, ws[k].cur, l, c);
    WheelChanged(ws, k, SetCurrent(s, ws, k, l)[k], c);
  }

  lemma HandDownHeld(s: Pos, ws: Wheels, k: nat, c: nat)
    requires Shaped(s, ws) && 0 < k < |ws| && Current(s, ws, k) != []
    ensures Held(HandDown(s, ws, k), c) == Held(ws, c)
  {
    var l := Current(s, ws, k);
    ListPop(l, c);
    SetHeld(s, ws, k, l[1..], c);
    PutHeld(s, SetCurrent(s, ws, k, l[1..]), k - 1, Lowered(s, k, l[0]), c);
  }

  lemma {:induction false} CascadeHeld(s: Pos, ws: Wheels, k: nat, c: nat)
    requires Shaped(s, ws) && 0 < k < |ws|
    ensures Held(Cascade(s, ws, k), c) == Held(ws, c)
    decreases |Current(s, ws, k)|
  {
    if Current(s, ws, k) != [] {
      HandDownHeld(s, ws, k, c);
      CascadeHeld(s, HandDown(s, ws, k), k, c);
    }
  }

  lemma AdvanceHeld(s: Pos, ws: Wheels, k: nat, c: nat)
    requires Shaped(s, ws) && k < |ws|
    ensures Held(Advance(s, ws, k), c) == Held(ws, c)
  {
    WheelChanged(ws, k, Advance(s, ws, k)[k], c);
  }

  /** What leaves the wheels when wheel k ticks: only the lowest hands anything over. */
  function Leaving(s: Pos, ws: Wheels, k: nat, c: nat): nat
    requires Shaped(s, ws) && k < |ws|
  {
    if k == 0 then InList(Current(s, ws, 0), c) else 0
  }

  lemma StepHeld(s: Pos, ws: Wheels, k: nat, c: nat)
    requires Shaped(s, ws) && k < |ws|
    ensures Held(Stepped(s, ws, k), c) + Leaving(s, ws, k, c) == Held(ws, c)
  {
    AdvanceHeld(s, EmptyCurrent(s, ws, k), k, c);
    if k == 0 {
      SetHeld(s, ws, 0, [], c);
    } else {
      CascadeHeld(s, ws, k, c);
    }
  }

  /** A tick of an upper wheel moves events without losing or duplicating any; the tick of
      the lowest one lets go of exactly its current slot. */
  lemma {:induction false} TickHeld(s: Pos, ws: Wheels, k: nat, c: nat)
    requires Shaped(s, ws) && k < |ws|
    ensures Held(Tick(s, ws, k), c) + Leaving(s, ws, k, c) == Held(ws, c)
    decreases |ws| - k
  {
    StepHeld(s, ws, k, c);
    var w := Stepped(s, ws, k);
    if w[k].cur == 0 && k + 1 < |ws| {
      TickHeld(s, w, k + 1, c);
    }
  }

  // ----- order -----

  /** Where wheel k - 1 puts an event from wheel k. */
  function Target(s: Pos, ws: Wheels, k: nat, e: Event): nat
    requires 0 < k < |ws|
  {
    SlotFor(s, ws, k - 1, Lowered(s, k, e).delay)
  }

  /** Those events of a list of wheel k that go to slot j of wheel k - 1, in the same order. */
  function Going(s: Pos, ws: Wheels, k: nat, l: seq<Event>, j: nat): seq<Event>
    requires 0 < k < |ws|
  {
    if l == [] then []
    else (if Target(s, ws, k, l[0]) == j then [Lowered(s, k, l[0])] else []) + Going(s, ws, k, l[1..], j)
  }

  lemma {:induction false} GoingSame(s: Pos, ws: Wheels, ws': Wheels, k: nat, l: seq<Event>, j: nat)
    requires 0 < k < |ws| == |ws'| && ws'[k - 1].cur == ws[k - 1].cur
    ensures Going(s, ws', k, l, j) == Going(s, ws, k, l, j)
  {
    if l != [] {
      GoingSame(s, ws, ws', k, l[1..], j);
    }
  }

  /** The cascade appends to each slot of the wheel below the events going there, in the order
      they had, and touches no other wheel. */
  lemma {:induction false} CascadeInOrder(s: Pos, ws: Wheels, k: nat)
    requires Shaped(s, ws) && 0 < k < |ws|
    ensures var ws' := Cascade(s, ws, k);
            && (forall j | 0 <= j < s ::
                  ws'[k - 1].slots[j] == ws[k - 1].slots[j] + Going(s, ws, k, Current(s, ws, k), j))
            && ws'[k] == ws[k].(slots := ws[k].slots[ws[k].cur := []])
            && ws'[k - 1].cur == ws[k - 1].cur
            && forall i | 0 <= i < |ws| && i != k && i != k - 1 :: ws'[i] == ws[i]
    decreases |Current(s, ws, k)|
  {
    var l := Current(s, ws, k);
    if l == [] {
      SetSame(s, ws, k);
    } else {
      var w := HandDown(s, ws, k);
      CascadeInOrder(s, w, k);
      SetTwice(s, ws, k, l[1..], []);
      forall j | 0 <= j < s
        ensures Cascade(s, w, k)[k - 1].slots[j] == ws[k - 1].slots[j] + Going(s, ws, k, l, j)
      {
        GoingSame(s, ws, w, k, l[1..], j);
      }
    }
  }
}
