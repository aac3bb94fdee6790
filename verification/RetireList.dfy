/** The ring buffer of src/basic_struct/deque.h, and the loop of exit_epoch over the retired
    nodes it holds (src/memory/epoch_based_reclamation.cpp). */
module RetireList {

  /** Position (head + i) % capacity, for a head inside the buffer and i up to the capacity. */
  function Physical(cap: nat, head: nat, i: nat): nat
    requires head < cap
  {
    (head + i) % cap
  }

  lemma PhysicalIs(cap: nat, head: nat, i: nat)
    requires head < cap && i <= cap
    ensures Physical(cap, head, i) == if head + i < cap then head + i else head + i - cap
  {
  }

  /** The elements in logical order. */
  ghost function Logical<T>(data: seq<T>, head: nat, size: nat): (s: seq<T>)
    requires size <= |data| && (|data| > 0 ==> head < |data|)
    ensures |s| == size
  {
    seq(size, i requires 0 <= i < size => data[Physical(|data|, head, i)])
  }

  lemma LogicalPush<T>(data: seq<T>, head: nat, size: nat, v: T)
    requires size < |data| && head < |data|
    ensures Logical(data[Physical(|data|, head, size) := v], head, size + 1) == Logical(data, head, size) + [v]
  {
    PhysicalIs(|data|, head, size);
    forall i | 0 <= i < size ensures Physical(|data|, head, i) != Physical(|data|, head, size) {
      PhysicalIs(|data|, head, i);
    }
  }

  lemma LogicalPop<T>(data: seq<T>, head: nat, size: nat)
    requires 0 < size <= |data| && head < |data|
    ensures Logical(data, (head + 1) % |data|, size - 1) == Logical(data, head, size)[1..]
  {
    PhysicalIs(|data|, head, 1);
    var rest := Logical(data, (head + 1) % |data|, size - 1);
    forall i | 0 <= i < size - 1 ensures rest[i] == Logical(data, head, size)[1..][i] {
      PhysicalIs(|data|, (head + 1) % |data|, i);
      PhysicalIs(|data|, head, i + 1);
    }
  }

  /** Twice the capacity, or one more than none, and no less than what is needed. */
  function LargerCapacity(cap: nat, minCap: nat): (r: nat)
    requires minCap > cap
    ensures r >= minCap && r > cap
  {
    var twice := if cap == 0 then 1 else cap * 2;
    if twice < minCap then minCap else twice
  }

  class Deque<T(0)> {
    var data: array<T>
    var size: nat
    var head: nat

    ghost predicate Valid()
      reads this
    {
      size <= data.Length && (data.Length > 0 ==> head < data.Length)
    }

    ghost function Contents(): (s: seq<T>)
      reads this, data
      requires Valid()
    {
      Logical(data[..], head, size)
    }

    constructor (capacity: nat)
      ensures Valid() && fresh(data) && data.Length == capacity && Contents() == []
    {
      data := new T[capacity];
      size, head := 0, 0;
    }

    /** ensure_capacity: a larger buffer gets the elements in logical order, starting at 0. */
    method EnsureCapacity(minCap: nat)
      requires Valid()
      modifies this
      ensures Valid() && data.Length >= minCap && Contents() == old(Contents()) && size == old(size)
      ensures if minCap <= old(data.Length) then data == old(data) && head == old(head)
              else fresh(data) && data.Length == LargerCapacity(old(data.Length), minCap)
    {
      if minCap <= data.Length {
        return;
      }
      var newCap := if data.Length == 0 then 1 else data.Length * 2;
      if newCap < minCap {
        newCap := minCap;
      }
      var newData := new T[newCap];
      var i := 0;
      while i < size
        invariant i <= size && Valid() && data == old(data) && size == old(size) && head == old(head)
        invariant Contents() == old(Contents())
        invariant forall j | 0 <= j < i :: newData[j] == Contents()[j]
      {
        newData[i] := data[Physical(data.Length, head, i)];
        i := i + 1;
      }
      data, head := newData, 0;
      forall j | 0 <= j < size ensures Physical(newCap, 0, j) == j {
        PhysicalIs(newCap, 0, j);
      }
    }

    method PushBack(value: T)
      requires Valid()
      modifies this, data
      ensures Valid() && Contents() == old(Contents()) + [value]
      ensures data == old(data) || fresh(data)
    {
      EnsureCapacity(size + 1);
      var idx := Physical(data.Length, head, size);
      LogicalPush(data[..], head, size, value);
      ghost var was := data[..];
      data[idx] := value;
      assert data[..] == was[idx := value];
      size := size + 1;
    }

    method Front() returns (value: T)
      requires Valid() && size > 0
      ensures value == Contents()[0]
    {
      value := data[head];
      PhysicalIs(data.Length, head, 0);
    }

    method PopFront()
      requires Valid() && size > 0
      modifies this`head, this`size
      ensures Valid() && Contents() == old(Contents())[1..]
    {
      LogicalPop(data[..], head, size);
      head := (head + 1) % data.Length;
      size := size - 1;
    }
  }

  // ----- reclaiming -----

  datatype Retired = Retired(node: nat, epoch: nat)

  predicate SortedByEpoch(s: seq<Retired>) {
    forall i, j | 0 <= i < j < |s| :: s[i].epoch <= s[j].epoch
  }

  /** The records that may go, in order. */
  function UpTo(s: seq<Retired>, gc: nat): seq<Retired> {
    if s == [] then [] else (if s[0].epoch <= gc then [s[0]] else []) + UpTo(s[1..], gc)
  }

  function After(s: seq<Retired>, gc: nat): seq<Retired> {
    if s == [] then [] else (if s[0].epoch > gc then [s[0]] else []) + After(s[1..], gc)
  }

  /** Nothing may go once the front may not. */
  lemma FrontStays(s: seq<Retired>, gc: nat)
    requires SortedByEpoch(s) && (s != [] ==> s[0].epoch > gc)
    ensures UpTo(s, gc) == [] && After(s, gc) == s
  {
    forall r | r in s ensures r.epoch > gc {
      var i :| 0 <= i < |s| && s[i] == r;
    }
    NoneUpTo(s, gc);
  }

  lemma {:induction false} NoneUpTo(s: seq<Retired>, gc: nat)
    requires forall r | r in s :: r.epoch > gc
    ensures UpTo(s, gc) == [] && After(s, gc) == s
  {
    if s != [] {
      assert s == [s[0]] + s[1..];
      NoneUpTo(s[1..], gc);
    }
  }

  /** retire keeps the list sorted, since epochs only grow. */
  method Retire(list: Deque<Retired>, node: nat, globalEpoch: nat)
    requires list.Valid() && SortedByEpoch(list.Contents())
    requires forall r | r in list.Contents() :: r.epoch <= globalEpoch
    modifies list, list.data
    ensures list.Valid() && SortedByEpoch(list.Contents())
    ensures list.Contents() == old(list.Contents()) + [Retired(node, globalEpoch)]
    ensures forall r | r in list.Contents() :: r.epoch <= globalEpoch
  {
    list.PushBack(Retired(node, globalEpoch));
  }

  /** The loop at the end of exit_epoch looks at the front only, yet releases every record at
      or below the epoch it has read, once and in order, and keeps every other. */
  method Reclaim(list: Deque<Retired>, gc: nat) returns (released: seq<nat>)
    requires list.Valid() && SortedByEpoch(list.Contents())
    modifies list`head, list`size
    ensures list.Valid() && SortedByEpoch(list.Contents())
    ensures list.Contents() == After(old(list.Contents()), gc)
    ensures released == Nodes(UpTo(old(list.Contents()), gc))
  {
    released := [];
    ghost var s := list.Contents();
    while list.size > 0
      invariant list.Valid() && SortedByEpoch(list.Contents())
      invariant released + Nodes(UpTo(list.Contents(), gc)) == Nodes(UpTo(s, gc))
      invariant After(list.Contents(), gc) == After(s, gc)
      decreases list.size
    {
      var front := list.Front();
      if front.epoch > gc {
        break;
      }
      ghost var c := list.Contents();
      ReleaseFront(released, c, gc);
      released := released + [front.node];
      list.PopFront();
    }
    FrontStays(list.Contents(), gc);
  }

  lemma ReleaseFront(released: seq<nat>, c: seq<Retired>, gc: nat)
    requires c != [] && c[0].epoch <= gc && SortedByEpoch(c)
    ensures released + [c[0].node] + Nodes(UpTo(c[1..], gc)) == released + Nodes(UpTo(c, gc))
    ensures After(c[1..], gc) == After(c, gc) && SortedByEpoch(c[1..])
  {
    var rest := UpTo(c[1..], gc);
    assert Nodes([c[0]] + rest) == [c[0].node] + Nodes(rest);
  }

  function Nodes(s: seq<Retired>): seq<nat> {
    seq(|s|, i requires 0 <= i < |s| => s[i].node)
  }
}
