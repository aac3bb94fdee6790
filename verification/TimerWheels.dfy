/** The timer of src/timer/timewheel.cpp as the objects it is made of. Each method computes
    the function of the same name of WheelModel on the values of its wheels. */
module TimerWheels {
  import opened Basics
  import opened WheelModel
  import opened WheelProof
  import opened TimerRun
  import opened TimerList

  /** How a call ends: adding an event can throw. */
  datatype Outcome = Done | Thrown

  /** The objects around a wheel: all wheels, all lists and all nodes that may be in one. */
  datatype Stack = Stack(wheels: seq<TimeWheel>, lists: set<LinkedList>, nodes: set<ListNode>)

  class TimeWheel {
    const s: Pos
    const slots: seq<LinkedList>
    ghost const level: nat   // 0 for the lowest wheel
    var cur: nat
    var interval: nat
    var lower: TimeWheel?
    var upper: TimeWheel?

    constructor (s: Pos, ghost level: nat)
      ensures this.s == s && this.level == level && cur == 0 && lower == null && upper == null
      ensures |slots| == s && fresh(slots) && NewSlots(slots, level)
    {
      var ls: seq<LinkedList> := [];
      while |ls| < s
        invariant |ls| <= s && fresh(ls) && NewSlots(ls, level)
      {
        var l := new LinkedList(Slot(level, |ls|));
        ls := ls + [l];
      }
      this.s, this.level := s, level;
      slots := ls;
      cur, interval := 0, 0;
      lower, upper := null, null;
    }

    ghost function Value(): Wheel
      reads this, slots
    {
      Wheel(seq(|slots|, j requires 0 <= j < |slots| reads slots => slots[j].events), cur)
    }

    /** slots[j].push_back. */
    method PushSlot(j: nat, node: ListNode, ghost g: Stack, ghost k: nat)
      requires Stacked(s, g) && k < |g.wheels| && g.wheels[k] == this && j < |slots|
      requires node in g.nodes && node.home == null
      modifies slots[j], g.nodes`next, node`home
      ensures Stacked(s, g) && node.home == slots[j]
      ensures View(g) == PutAt(s, old(View(g)), k, j, Event(node.call, node.delay))
    {
      ghost var before := View(g);
      slots[j].PushBack(node, g.lists, g.nodes);
      ListChanged(before, g, k, j);
    }

    /** pop_front of the current slot. */
    method PopCurrent(ghost g: Stack, ghost k: nat) returns (node: ListNode?)
      requires Stacked(s, g) && k < |g.wheels| && g.wheels[k] == this
      modifies slots[cur], g.nodes`home
      ensures Linked(s, g.wheels) && AllValid(g.lists, g.nodes)
      ensures node == null <==> old(Current(s, View(g), k)) == []
      ensures node == null ==> View(g) == old(View(g))
      ensures node != null ==>
                && View(g) == SetCurrent(s, old(View(g)), k, old(Current(s, View(g), k))[1..])
                && node == old(slots[cur].nodes)[0] && slots[cur].nodes == old(slots[cur].nodes)[1..]
                && node in g.nodes && node.home == null
                && old(Current(s, View(g), k))[0] == Event(node.call, node.delay)
      ensures forall n | n in g.nodes && n != node :: n.home == old(n.home)
    {
      ghost var before := View(g);
      assert slots[cur].Valid(g.nodes);
      node := slots[cur].PopFront(g.lists, g.nodes);
      ListChanged(before, g, k, cur);
      if node == null {
        SetSame(s, before, k);
      }
    }

    method Step()
      modifies this`cur
      ensures cur == if old(cur) + 1 >= s then 0 else old(cur) + 1
    {
      cur := cur + 1;
      if cur >= s {
        cur := 0;
      }
    }

    method StepOn(ghost g: Stack, ghost k: nat)
      requires Stacked(s, g) && k < |g.wheels| && g.wheels[k] == this
      modifies this`cur
      ensures Stacked(s, g) && View(g) == Advance(s, old(View(g)), k)
    {
      ghost var before := View(g);
      Step();
      CurChanged(before, g, k);
    }

    method AddEvent(node: ListNode, ghost g: Stack, ghost k: nat) returns (o: Outcome)
      requires Stacked(s, g) && k < |g.wheels| && g.wheels[k] == this && node in g.nodes && node.home == null
      modifies slots, g.nodes`next, node`home
      ensures Stacked(s, g) && (o.Thrown? <==> !Fits(s, k, node.delay))
      ensures o.Done? ==> View(g) == Put(s, old(View(g)), k, Event(node.call, node.delay))
      ensures o.Thrown? ==> View(g) == old(View(g))
    {
      ghost var before := View(g);
      var fits, j := Locate(Event(node.call, node.delay), node.delay, g, k);
      assert Stacked(s, g) && View(g) == before;
      if !fits {
        return Thrown;
      }
      PushSlot(j, node, g, k);
      o := Done;
    }

    /** The test and the slot of add_event. */
    method Locate(ghost e: Event, delay: nat, ghost g: Stack, ghost k: nat) returns (fits: bool, j: nat)
      requires Stacked(s, g) && k < |g.wheels| && g.wheels[k] == this && delay == e.delay
      ensures fits <==> Fits(s, k, delay)
      ensures fits ==> j < s && PutAt(s, View(g), k, j, e) == Put(s, View(g), k, e)
    {
      fits, j := true, 0;
      if delay >= interval * s {
        return false, 0;
      }
      j := (cur + delay / interval) % s;
    }

    /** tick; `fired` are the nodes whose coroutines it pushes to the job queue, those of the
        current slot. They are in no list afterwards. No event it hands down is refused by the
        wheel below. */
    method Tick(ghost g: Stack, ghost k: nat) returns (o: Outcome, fired: seq<ListNode>)
      requires Stacked(s, g) && k < |g.wheels| && g.wheels[k] == this
      modifies g.lists, g.nodes`next, g.nodes`home, g.nodes`delay, g.wheels`cur
      ensures Stacked(s, g) && o.Done?
      ensures View(g) == WheelModel.Tick(s, old(View(g)), k)
      ensures k == 0 ==> StandFor(fired, old(Current(s, View(g), 0)))
      ensures k == 0 ==> fired == old(slots[cur].nodes)
      ensures k > 0 ==> fired == []
      ensures Among(fired, Outside(g.nodes))
      ensures old(Outside(g.nodes)) <= Outside(g.nodes)
      decreases |g.wheels| - k, 2
    {
      ghost var before := View(g);
      fired := EmptyAndStep(g, k);
      ghost var out := Outside(g.nodes);
      o := TickRest(before, g, k);
      AmongMore(fired, out, Outside(g.nodes));
    }

    /** What tick does once its own slot is empty: the ticks above push no job. */
    method TickRest(ghost before: Wheels, ghost g: Stack, ghost k: nat) returns (o: Outcome)
      requires Stacked(s, g) && k < |g.wheels| && g.wheels[k] == this
      requires Shaped(s, before) && |before| == |g.wheels| && View(g) == Stepped(s, before, k)
      modifies g.lists, g.nodes`next, g.nodes`home, g.nodes`delay, g.wheels`cur
      ensures Stacked(s, g) && o.Done?
      ensures View(g) == WheelModel.Tick(s, before, k)
      ensures old(Outside(g.nodes)) <= Outside(g.nodes)
      decreases |g.wheels| - k, 1
    {
      ghost var w := View(g);
      o := TickAbove(g, k);
      TickIs(s, before, w, View(g), k);
    }

    method EmptyAndStep(ghost g: Stack, ghost k: nat) returns (fired: seq<ListNode>)
      requires Stacked(s, g) && k < |g.wheels| && g.wheels[k] == this
      modifies g.lists, g.nodes`next, g.nodes`home, g.nodes`delay, this`cur
      ensures Stacked(s, g) && View(g) == Stepped(s, old(View(g)), k)
      ensures k == 0 ==> StandFor(fired, old(Current(s, View(g), 0)))
      ensures k == 0 ==> fired == old(slots[cur].nodes)
      ensures k > 0 ==> fired == []
      ensures Among(fired, Outside(g.nodes))
      ensures old(Outside(g.nodes)) <= Outside(g.nodes)
    {
      fired := EmptySlot(g, k);
      StepOn(g, k);
    }

    lemma Standing(g: Stack, k: nat)
      requires Stacked(s, g) && k < |g.wheels| && g.wheels[k] == this
      ensures StandFor(slots[cur].nodes, Current(s, View(g), k))
    {
      assert slots[cur].Valid(g.nodes);
    }

    /** The end of tick: after a full circle the wheel above ticks, if there is one. */
    method TickAbove(ghost g: Stack, ghost k: nat) returns (o: Outcome)
      requires Stacked(s, g) && k < |g.wheels| && g.wheels[k] == this
      modifies g.lists, g.nodes`next, g.nodes`home, g.nodes`delay, g.wheels`cur
      ensures Stacked(s, g) && o.Done?
      ensures old(View(g)[k].cur) == 0 && k + 1 < |g.wheels| ==> View(g) == WheelModel.Tick(s, old(View(g)), k + 1)
      ensures !(old(View(g)[k].cur) == 0 && k + 1 < |g.wheels|) ==> View(g) == old(View(g))
      ensures old(Outside(g.nodes)) <= Outside(g.nodes)
      decreases |g.wheels| - k, 0
    {
      o := Done;
      Neighbours(s, g.wheels, k);
      ghost var w := View(g);
      assert w[k].cur == cur;
      assert upper != null <==> k + 1 < |g.wheels|;
      if cur == 0 && upper != null {
        ghost var after := WheelModel.Tick(s, w, k + 1);
        var fired;
        o, fired := upper.Tick(g, k + 1);
        assert View(g) == after;
      } else {
        assert View(g) == w;
      }
    }

    method EmptySlot(ghost g: Stack, ghost k: nat) returns (fired: seq<ListNode>)
      requires Stacked(s, g) && k < |g.wheels| && g.wheels[k] == this
      modifies g.lists, g.nodes`next, g.nodes`home, g.nodes`delay
      ensures Stacked(s, g) && View(g) == EmptyCurrent(s, old(View(g)), k)
      ensures k == 0 ==> StandFor(fired, old(Current(s, View(g), 0)))
      ensures k == 0 ==> fired == old(slots[cur].nodes)
      ensures k > 0 ==> fired == []
      ensures Among(fired, Outside(g.nodes))
      ensures old(Outside(g.nodes)) <= Outside(g.nodes)
    {
      fired := [];
      Standing(g, k);
      Neighbours(s, g.wheels, k);
      if lower != null {
        HandAllDown(g, k);
      } else {
        fired := HandOver(g);
      }
    }

    /** The cascade loop of tick: the current slot empties into the wheel below, which never
        throws. */
    method HandAllDown(ghost g: Stack, ghost k: nat)
      requires Stacked(s, g) && 0 < k < |g.wheels| && g.wheels[k] == this
      modifies g.lists, g.nodes`next, g.nodes`home, g.nodes`delay
      ensures Stacked(s, g) && View(g) == Cascade(s, old(View(g)), k)
      ensures old(Outside(g.nodes)) <= Outside(g.nodes)
    {
      var more := true;
      while more
        invariant Stacked(s, g)
        invariant Cascade(s, View(g), k) == Cascade(s, old(View(g)), k)
        invariant !more ==> Current(s, View(g), k) == []
        invariant old(Outside(g.nodes)) <= Outside(g.nodes)
        decreases more, |Current(s, View(g), k)|
      {
        more := HandOne(g, k);
      }
    }

    /** One round of it: pop, reduce the delay, add below. */
    method HandOne(ghost g: Stack, ghost k: nat) returns (more: bool)
      requires Stacked(s, g) && 0 < k < |g.wheels| && g.wheels[k] == this
      modifies g.lists, g.nodes`next, g.nodes`home, g.nodes`delay
      ensures Stacked(s, g) && (more <==> old(Current(s, View(g), k)) != [])
      ensures more ==> View(g) == HandDown(s, old(View(g)), k)
      ensures !more ==> View(g) == old(View(g))
      ensures old(Outside(g.nodes)) <= Outside(g.nodes)
    {
      var node := PopCurrent(g, k);
      if node == null {
        return false;
      }
      SendDown(node, g, k);
      more := true;
    }

    method SendDown(node: ListNode, ghost g: Stack, ghost k: nat)
      requires Stacked(s, g) && 0 < k < |g.wheels| && g.wheels[k] == this && node in g.nodes && node.home == null
      modifies g.lists, g.nodes`next, node`delay, node`home
      ensures Stacked(s, g)
      ensures View(g) == Put(s, old(View(g)), k - 1, Lowered(s, k, old(Event(node.call, node.delay))))
    {
      ghost var before, e := View(g), Event(node.call, node.delay);
      LoweredFits(s, k, e);
      Neighbours(s, g.wheels, k);
      SetDelay(node, node.delay % interval, g.lists, g.nodes);
      assert View(g) == before && Event(node.call, node.delay) == Lowered(s, k, e);
      var o := lower.AddEvent(node, g, k - 1);
      assert o.Done?;
    }

    /** The loop of the lowest wheel. */
    method HandOver(ghost g: Stack) returns (fired: seq<ListNode>)
      requires Stacked(s, g) && |g.wheels| > 0 && g.wheels[0] == this
      modifies slots[cur], g.nodes`home
      ensures Stacked(s, g) && View(g) == SetCurrent(s, old(View(g)), 0, [])
      ensures fired == old(slots[cur].nodes)
      ensures Among(fired, Outside(g.nodes))
      ensures old(Outside(g.nodes)) <= Outside(g.nodes)
    {
      fired := [];
      var more := true;
      while more
        invariant Stacked(s, g) && SetCurrent(s, View(g), 0, []) == SetCurrent(s, old(View(g)), 0, [])
        invariant fired + slots[cur].nodes == old(slots[cur].nodes) && Among(fired, Outside(g.nodes))
        invariant !more ==> Current(s, View(g), 0) == [] && slots[cur].nodes == []
        invariant old(Outside(g.nodes)) <= Outside(g.nodes)
        decreases more, |slots[cur].nodes|
      {
        fired, more := FireOne(fired, g);
      }
      SetSame(s, View(g), 0);
    }

    /** One round of it. */
    method FireOne(sofar: seq<ListNode>, ghost g: Stack) returns (fired: seq<ListNode>, more: bool)
      requires Stacked(s, g) && |g.wheels| > 0 && g.wheels[0] == this && Among(sofar, Outside(g.nodes))
      modifies slots[cur], g.nodes`home
      ensures Stacked(s, g) && SetCurrent(s, View(g), 0, []) == SetCurrent(s, old(View(g)), 0, [])
      ensures fired + slots[cur].nodes == sofar + old(slots[cur].nodes) && Among(fired, Outside(g.nodes))
      ensures if more then |slots[cur].nodes| < |old(slots[cur].nodes)|
              else Current(s, View(g), 0) == [] && slots[cur].nodes == old(slots[cur].nodes) == []
      ensures old(Outside(g.nodes)) <= Outside(g.nodes)
    {
      var node := TakeOne(g);
      more := node != null;
      fired := sofar;
      if more {
        fired := sofar + [node];
        Regroup(sofar, node, slots[cur].nodes);
      }
    }

    method TakeOne(ghost g: Stack) returns (node: ListNode?)
      requires Stacked(s, g) && |g.wheels| > 0 && g.wheels[0] == this
      modifies slots[cur], g.nodes`home
      ensures Stacked(s, g) && SetCurrent(s, View(g), 0, []) == SetCurrent(s, old(View(g)), 0, [])
      ensures node == null ==> slots[cur].nodes == old(slots[cur].nodes) == [] && Current(s, View(g), 0) == []
      ensures node != null ==> [node] + slots[cur].nodes == old(slots[cur].nodes) && node in g.nodes && node.home == null
      ensures forall n | n in g.nodes && n != node :: n.home == old(n.home)
    {
      assert slots[cur].Valid(g.nodes);
      ghost var before := View(g);
      node := PopCurrent(g, 0);
      if node != null {
        SetTwice(s, before, 0, Current(s, before, 0)[1..], []);
      }
    }
  }

  class TimerManager {
    const s: Pos
    const wheels: seq<TimeWheel>
    const pending: LinkedList
    ghost const lists: set<LinkedList>
    ghost var nodes: set<ListNode>   // of all coroutines
    ghost var calls: nat             // of coroutine_sleep so far

    ghost function Objects(): Stack
      reads this`nodes
    {
      Stack(wheels, lists, nodes)
    }

    /** The state between any two calls. A coroutine's node is in at most one list, once. */
    ghost predicate Valid()
      reads this`nodes, wheels, lists, nodes
    {
      |wheels| > 0 && pending in lists && pending.place == Pending && Stacked(s, Objects())
    }

    constructor (s: Pos, n: nat)
      requires n > 0
      ensures this.s == s && |wheels| == n && fresh(wheels) && fresh(lists) && nodes == {} && calls == 0
      ensures Unlinked(s, wheels, lists) && pending in lists && pending.place == Pending && pending.events == []
    {
      var p := new LinkedList(Pending);
      ghost var all;
      var ws;
      ws, all := NewWheels(s, n);
      this.s, wheels, pending, lists := s, ws, p, all + {p};
      nodes, calls := {}, 0;
    }

    /** init: wheel by wheel, each interval s times the one below. */
    method Init()
      requires |wheels| > 0 && Unlinked(s, wheels, lists) && pending in lists && pending.place == Pending && nodes == {}
      modifies wheels`lower, wheels`upper, wheels`interval
      ensures Valid() && View(Objects()) == Fresh(s, |wheels|)
    {
      LinkAll();
      AllFresh(s, Objects());
    }

    method LinkAll()
      requires |wheels| > 0 && Levelled(s, wheels) && forall k | 0 <= k < |wheels| :: wheels[k].upper == null
      modifies wheels`lower, wheels`upper, wheels`interval
      ensures Linked(s, wheels)
    {
      wheels[0].lower, wheels[0].interval := null, 1;
      var i := 1;
      while i < |wheels|
        invariant 1 <= i <= |wheels| && Levelled(s, wheels)
        invariant Intervals(s, wheels, i) && Lowers(wheels, i) && Uppers(wheels, i)
        invariant forall k | i - 1 <= k < |wheels| :: wheels[k].upper == null
      {
        SetUpper(i);
        SetLower(i);
        SetInterval(i);
        i := i + 1;
      }
    }

    method SetUpper(i: nat)
      requires 1 <= i < |wheels| && Levelled(s, wheels) && Uppers(wheels, i)
      modifies wheels`upper
      ensures Uppers(wheels, i + 1)
      ensures forall k | i <= k < |wheels| :: wheels[k].upper == old(wheels[k].upper)
    {
      wheels[i - 1].upper := wheels[i];
    }

    method SetLower(i: nat)
      requires 1 <= i < |wheels| && Levelled(s, wheels) && Lowers(wheels, i)
      modifies wheels`lower
      ensures Lowers(wheels, i + 1)
    {
      wheels[i].lower := wheels[i - 1];
    }

    method SetInterval(i: nat)
      requires 1 <= i < |wheels| && Levelled(s, wheels) && Intervals(s, wheels, i)
      modifies wheels`interval
      ensures Intervals(s, wheels, i + 1)
    {
      PowNext(s, i, wheels[i - 1].interval);
      wheels[i].interval := wheels[i - 1].interval * s;
    }

    /** A new coroutine; its node is in no list. */
    ghost method Register(node: ListNode)
      requires Valid() && node.home == null && node !in nodes
      modifies this`nodes
      ensures Valid() && nodes == old(nodes) + {node} && View(Objects()) == old(View(Objects()))
    {
      AllValidMore(lists, nodes, node);
      nodes := nodes + {node};
      SameView(old(Objects()), Objects());
    }

    /** add_event with push_pending_event: a call of a coroutine that is in no list joins the
        end of the pending list, and only there, with its delay. */
    method AddEvent(node: ListNode, delay: nat)
      requires Valid() && node in nodes && node.home == null
      modifies pending, nodes`next, node, this`calls
      ensures Valid() && node.home == pending && calls == old(calls) + 1
      ensures pending.events == old(pending.events) + [Event(old(calls), delay)]
      ensures View(Objects()) == old(View(Objects()))
    {
      Prepare(node, delay);
      PushPending(node);
    }

    method Prepare(node: ListNode, delay: nat)
      requires Valid() && node in nodes && node.home == null
      modifies node`delay, node`call, this`calls
      ensures Valid() && calls == old(calls) + 1 && node.delay == delay && node.call == old(calls)
    {
      ghost var before := View(Objects());
      SetCall(node, delay, calls, lists, nodes);
      calls := calls + 1;
      assert Linked(s, wheels) && View(Objects()) == before;
    }

    method PushPending(node: ListNode)
      requires Valid() && node in nodes && node.home == null
      modifies pending, nodes`next, node`home
      ensures Valid() && node.home == pending && View(Objects()) == old(View(Objects()))
      ensures pending.events == old(pending.events) + [Event(node.call, node.delay)]
    {
      ghost var before := View(Objects());
      pending.PushBack(node, lists, nodes);
      PendingChanged(before, Objects(), pending);
    }

    /** pop_pending_event. */
    method PopPending() returns (node: ListNode?)
      requires Valid()
      modifies pending, nodes`home
      ensures Valid() && View(Objects()) == old(View(Objects()))
      ensures node == null ==> old(pending.events) == pending.events == []
      ensures node != null ==>
                && node in nodes && node.home == null
                && old(pending.events) == [Event(node.call, node.delay)] + pending.events
    {
      ghost var before := View(Objects());
      assert pending.Valid(nodes);
      node := pending.PopFront(lists, nodes);
      PendingChanged(before, Objects(), pending);
    }

    /** The loop of internal_add_event. */
    method ChooseWheel(d0: nat) returns (k: nat)
      ensures k == Level(s, |wheels|, d0)
    {
      var d := d0;
      k := 0;
      while k < |wheels|
        invariant k <= |wheels| && d == d0 / Pow(s, k)
        invariant Level(s, |wheels|, d0, k) == Level(s, |wheels|, d0)
        decreases |wheels| - k
      {
        LevelTest(s, k, d0);
        d := d / s;
        if d > 0 {
          k := k + 1;
        } else {
          break;
        }
      }
    }

    /** internal_add_event: throws exactly for delays of s^n and more, and never because the
        chosen wheel refuses. */
    method InternalAddEvent(node: ListNode) returns (o: Outcome)
      requires Valid() && node in nodes && node.home == null
      modifies lists - {pending}, nodes`next, node`home
      ensures Valid() && (o.Thrown? <==> node.delay >= Pow(s, |wheels|))
      ensures View(Objects()) == Enter(s, old(View(Objects())), Event(node.call, node.delay))
    {
      ghost var before := View(Objects());
      var k := ChooseWheel(node.delay);
      assert Valid() && View(Objects()) == before;
      EnterLevel(s, before, Event(node.call, node.delay));
      if k >= |wheels| {
        return Thrown;
      }
      o := AddTo(k, node);
    }

    method AddTo(k: nat, node: ListNode) returns (o: Outcome)
      requires Valid() && node in nodes && node.home == null && k < |wheels| && Fits(s, k, node.delay)
      modifies lists - {pending}, nodes`next, node`home
      ensures Valid() && o.Done?
      ensures View(Objects()) == Put(s, old(View(Objects())), k, Event(node.call, node.delay))
    {
      o := wheels[k].AddEvent(node, Objects(), k);
    }

    /** The loop over the pending list: in order, up to the first event with too long a
        delay. */
    method EnterPending() returns (o: Outcome)
      requires Valid()
      modifies lists, nodes`next, nodes`home
      ensures Valid() && (o.Done? <==> AllShort(Pow(s, |wheels|), old(pending.events)))
      ensures o.Done? ==> View(Objects()) == EnterAll(s, old(View(Objects())), old(pending.events)) && pending.events == []
    {
      var more := true;
      o := Done;
      while more
        invariant Valid() && o.Done? && (!more ==> pending.events == [])
        invariant EnterAll(s, View(Objects()), pending.events) == EnterAll(s, old(View(Objects())), old(pending.events))
        invariant AllShort(Pow(s, |wheels|), old(pending.events)) <==> AllShort(Pow(s, |wheels|), pending.events)
        decreases more, |pending.events|
      {
        o, more := EnterOne();
        if o.Thrown? {
          return;
        }
      }
    }

    /** One round of it. */
    method EnterOne() returns (o: Outcome, more: bool)
      requires Valid()
      modifies lists, nodes`next, nodes`home
      ensures Valid() && (more <==> old(pending.events) != [])
      ensures !more ==> o.Done? && pending.events == [] && View(Objects()) == old(View(Objects()))
      ensures more ==>
                && pending.events == old(pending.events)[1..]
                && View(Objects()) == Enter(s, old(View(Objects())), old(pending.events)[0])
                && (o.Thrown? <==> old(pending.events)[0].delay >= Pow(s, |wheels|))
    {
      var node := PopPending();
      if node == null {
        return Done, false;
      }
      more := true;
      o := InternalAddEvent(node);
    }

    /** One round of the timer thread: all pending events, then one tick. */
    method Round() returns (o: Outcome, fired: seq<ListNode>)
      requires Valid()
      modifies lists, nodes`next, nodes`home, nodes`delay, wheels`cur
      ensures Valid() && (o.Done? <==> AllShort(Pow(s, |wheels|), old(pending.events)))
      ensures o.Done? ==> View(Objects()) == WheelModel.Tick(s, EnterAll(s, old(View(Objects())), old(pending.events)), 0)
      ensures o.Done? ==> StandFor(fired, Current(s, EnterAll(s, old(View(Objects())), old(pending.events)), 0))
      ensures Among(fired, Outside(nodes))
    {
      fired := [];
      o := EnterPending();
      if o.Thrown? {
        return;
      }
      o, fired := wheels[0].Tick(Objects(), 0);
    }
  }

  /** What the wheel chosen means for the call. */
  lemma EnterLevel(s: Pos, ws: Wheels, e: Event)
    requires Shaped(s, ws) && |ws| > 0
    ensures var k := Level(s, |ws|, e.delay);
            && (k == |ws| <==> e.delay >= Pow(s, |ws|))
            && (k < |ws| ==> Enter(s, ws, e) == Put(s, ws, k, e) && Fits(s, k, e.delay))
            && (k == |ws| ==> Enter(s, ws, e) == ws)
  {
    LevelRange(s, |ws|, e.delay);
    LevelIsLeast(s, |ws|, e.delay, 0);
  }

  lemma SameView(g: Stack, g': Stack)
    requires Placed(g) && g.wheels == g'.wheels && g.lists == g'.lists
    ensures Placed(g') && View(g) == View(g')
  {
    assert forall k | 0 <= k < |g.wheels| :: View(g)[k] == View(g')[k];
  }

  /** Changing the pending list does not change the wheels. */
  lemma PendingChanged(before: Wheels, g: Stack, pending: LinkedList)
    requires Placed(g) && |before| == |g.wheels| && pending.place == Pending
    requires forall i | 0 <= i < |before| :: before[i].cur == g.wheels[i].cur && |before[i].slots| == |g.wheels[i].slots|
    requires forall i, h | 0 <= i < |before| && 0 <= h < |before[i].slots| && g.wheels[i].slots[h] != pending ::
               g.wheels[i].slots[h].events == before[i].slots[h]
    ensures View(g) == before
  {
    forall i | 0 <= i < |before| ensures View(g)[i].slots == before[i].slots {
    }
  }

  predicate AllShort(limit: nat, l: seq<Event>) {
    l != [] ==> l[0].delay < limit && AllShort(limit, l[1..])
  }

  method NewWheels(s: Pos, n: nat) returns (ws: seq<TimeWheel>, ghost lists: set<LinkedList>)
    ensures |ws| == n && fresh(ws) && fresh(lists) && Unlinked(s, ws, lists)
  {
    ws, lists := [], {};
    while |ws| < n
      invariant |ws| <= n && fresh(ws) && fresh(lists) && Unlinked(s, ws, lists)
    {
      var w := new TimeWheel(s, |ws|);
      OneMore(s, ws, lists, w);
      ws := ws + [w];
      lists := lists + set l | l in w.slots;
    }
  }

  /** The wheels and lists as their constructors leave them. */
  ghost predicate Unlinked(s: Pos, all: seq<TimeWheel>, lists: set<LinkedList>)
    reads all, lists
  {
    Unused(s, all, lists) && forall k | 0 <= k < |all| :: all[k].upper == null
  }

  ghost predicate Unused(s: Pos, all: seq<TimeWheel>, lists: set<LinkedList>)
    reads all`cur, lists
  {
    && Levelled(s, all) && AllValid(lists, {})
    && (forall k | 0 <= k < |all| :: all[k].cur == 0 && |all[k].slots| == s)
    && (forall k, j | 0 <= k < |all| && 0 <= j < |all[k].slots| ::
          all[k].slots[j] in lists && all[k].slots[j].place == Slot(k, j) && all[k].slots[j].events == [])
  }

  lemma OneMore(s: Pos, all: seq<TimeWheel>, lists: set<LinkedList>, w: TimeWheel)
    requires Unlinked(s, all, lists)
    requires w.s == s && w.level == |all| && w.cur == 0 && w.upper == null && |w.slots| == s && NewSlots(w.slots, |all|)
    ensures Unlinked(s, all + [w], lists + set l | l in w.slots)
  {
  }

  lemma AllFresh(s: Pos, g: Stack)
    requires Unused(s, g.wheels, g.lists) && g.nodes == {}
    ensures Placed(g) && AllValid(g.lists, g.nodes) && View(g) == Fresh(s, |g.wheels|)
  {
    forall k | 0 <= k < |g.wheels| ensures View(g)[k] == Fresh(s, |g.wheels|)[k] {
      assert View(g)[k].slots == Fresh(s, |g.wheels|)[k].slots;
    }
  }

  /** The nodes stand for the calls of the events. */
  ghost predicate StandFor(l: seq<ListNode>, es: seq<Event>)
    reads l`call
  {
    |l| == |es| && forall i | 0 <= i < |l| :: l[i].call == es[i].id
  }

  /** The nodes that are in no list. */
  ghost function Outside(nodes: set<ListNode>): set<ListNode>
    reads nodes
  {
    set n | n in nodes && n.home == null
  }

  /** All of the given nodes. */
  ghost predicate Among(l: seq<ListNode>, out: set<ListNode>) {
    forall i | 0 <= i < |l| :: l[i] in out
  }

  lemma AmongMore(l: seq<ListNode>, out: set<ListNode>, more: set<ListNode>)
    requires Among(l, out) && out <= more
    ensures Among(l, more)
  {
  }

  lemma Regroup<T>(a: seq<T>, x: T, b: seq<T>)
    ensures a + [x] + b == a + ([x] + b)
  {
  }

  ghost predicate NewSlots(ls: seq<LinkedList>, level: nat)
    reads ls
  {
    forall j | 0 <= j < |ls| :: ls[j].place == Slot(level, j) && ls[j].nodes == [] && ls[j].events == [] && ls[j].Valid({})
  }

  // The steps of init, field by field.

  ghost predicate Levelled(s: Pos, all: seq<TimeWheel>) {
    forall k | 0 <= k < |all| :: all[k].s == s && all[k].level == k
  }

  ghost predicate Intervals(s: Pos, all: seq<TimeWheel>, i: nat)
    requires i <= |all|
    reads all`interval
  {
    forall k | 0 <= k < i :: all[k].interval == Pow(s, k)
  }

  ghost predicate Lowers(all: seq<TimeWheel>, i: nat)
    requires i <= |all|
    reads all`lower
  {
    forall k {:trigger all[k].lower} | 0 <= k < i :: all[k].lower == if k == 0 then null else all[k - 1]
  }

  /** The wheels below i - 1 know the one above. */
  ghost predicate Uppers(all: seq<TimeWheel>, i: nat)
    requires i <= |all|
    reads all`upper
  {
    forall k {:trigger all[k].upper} | 0 <= k < i - 1 :: all[k].upper == all[k + 1]
  }

  /** The wheels are linked up, each with its interval. */
  ghost predicate Linked(s: Pos, all: seq<TimeWheel>)
    reads all`interval, all`lower, all`upper
  {
    && Levelled(s, all) && Intervals(s, all, |all|) && Lowers(all, |all|) && Uppers(all, |all|)
    && (|all| > 0 ==> all[|all| - 1].upper == null)
  }

  lemma Neighbours(s: Pos, all: seq<TimeWheel>, k: nat)
    requires Linked(s, all) && k < |all|
    ensures all[k].upper == if k + 1 < |all| then all[k + 1] else null
    ensures all[k].lower == if k == 0 then null else all[k - 1]
    ensures k + 1 < |all| ==> all[k + 1].s == s
  {
  }

  /** The slots are lists of the timer, each in a place of its own. */
  ghost predicate Placed(g: Stack) {
    forall k, j | 0 <= k < |g.wheels| && 0 <= j < |g.wheels[k].slots| ::
      g.wheels[k].slots[j] in g.lists && g.wheels[k].slots[j].place == Slot(k, j)
  }

  ghost function View(g: Stack): (ws: Wheels)
    requires Placed(g)
    reads g.wheels, g.lists
    ensures |ws| == |g.wheels| && forall k | 0 <= k < |ws| :: ws[k] == g.wheels[k].Value()
  {
    seq(|g.wheels|, k requires 0 <= k < |g.wheels| && Placed(g) reads g.wheels, g.lists => g.wheels[k].Value())
  }

  ghost predicate Stacked(s: Pos, g: Stack)
    reads g.wheels, g.lists, g.nodes
  {
    Linked(s, g.wheels) && Placed(g) && AllValid(g.lists, g.nodes) && Shaped(s, View(g))
  }

  lemma CurChanged(before: Wheels, g: Stack, k: nat)
    requires Placed(g) && k < |g.wheels| && |before| == |g.wheels|
    requires forall i | 0 <= i < |before| && i != k :: before[i].cur == g.wheels[i].cur
    requires forall i | 0 <= i < |before| :: |before[i].slots| == |g.wheels[i].slots|
    requires forall i, h | 0 <= i < |before| && 0 <= h < |before[i].slots| :: g.wheels[i].slots[h].events == before[i].slots[h]
    ensures View(g) == before[k := before[k].(cur := g.wheels[k].cur)]
  {
    forall i | 0 <= i < |before| ensures View(g)[i].slots == before[i].slots {
    }
  }

  /** When one list has changed, the view differs in the slot it stands for. */
  lemma ListChanged(before: Wheels, g: Stack, k: nat, j: nat)
    requires Placed(g) && k < |g.wheels| && j < |g.wheels[k].slots| && |before| == |g.wheels|
    requires forall i | 0 <= i < |before| :: before[i].cur == g.wheels[i].cur && |before[i].slots| == |g.wheels[i].slots|
    requires forall i, h | 0 <= i < |before| && 0 <= h < |before[i].slots| && !(i == k && h == j) ::
               g.wheels[i].slots[h].events == before[i].slots[h]
    ensures View(g) == before[k := before[k].(slots := before[k].slots[j := g.wheels[k].slots[j].events])]
  {
    forall i | 0 <= i < |before| && i != k ensures View(g)[i] == before[i] {
      assert View(g)[i].slots == before[i].slots;
    }
    assert View(g)[k].slots == before[k].slots[j := g.wheels[k].slots[j].events];
  }
}
