/** `nvwa::fc_queue`: a ring of capacity() + 1 slots.  Slots are raw memory:
    an element is constructed in a raw slot and destroyed in a full one. */
module FcQueue {

  datatype Slot<T> = Raw | Live(value: T)

  /** `increment` and `decrement` on indices into [_M_begin, _M_end). */
  function Increment(i: nat, n: nat): nat {
    if i + 1 >= n then 0 else i + 1
  }

  function Decrement(i: nat, n: nat): (r: nat)
    requires 0 < n && i < n
    ensures r < n && Increment(r, n) == i
  {
    if i == 0 then n - 1 else i - 1
  }

  /** The number of increments that lead from slot `from` to slot `to`. */
  function Distance(from: nat, to: nat, n: nat): (d: nat)
    requires from < n && to < n
    ensures d < n && At(from, d, n) == to
  {
    if to < from then to + n - from else to - from
  }

  function At(head: nat, k: nat, n: nat): (i: nat)
    requires head < n && k < n
    ensures i < n
  {
    if head + k < n then head + k else head + k - n
  }

  /** Exactly the slots between head and tail hold an element.  A default
      constructed queue owns no slot at all. */
  ghost predicate Shape<T(!new)>(s: seq<Slot<T>>, head: nat, tail: nat) {
    if s == [] then head == 0 && tail == 0
    else
      |s| >= 2 && head < |s| && tail < |s| &&
      forall i :: 0 <= i < |s| ==> (s[i].Live? <==> Distance(head, i, |s|) < Distance(head, tail, |s|))
  }

  /** The queue a ring denotes, front first. */
  ghost function Elements<T(!new)>(s: seq<Slot<T>>, head: nat, tail: nat): (q: seq<T>)
    requires Shape(s, head, tail)
    ensures s == [] ==> q == []
    ensures s != [] ==> |q| == Distance(head, tail, |s|)
    ensures s != [] ==> forall k :: 0 <= k < |q| ==> s[At(head, k, |s|)] == Live(q[k])
  {
    if s == [] then []
    else
      var n := Distance(head, tail, |s|);
      assert forall k {:trigger At(head, k, |s|)} :: 0 <= k < n ==> Distance(head, At(head, k, |s|), |s|) == k;
      seq(n, k requires 0 <= k < n => s[At(head, k, |s|)].value)
  }

  lemma ElementsAre<T(!new)>(s: seq<Slot<T>>, head: nat, tail: nat, q: seq<T>)
    requires Shape(s, head, tail) && s != [] && |q| == Distance(head, tail, |s|)
    requires forall k :: 0 <= k < |q| ==> s[At(head, k, |s|)] == Live(q[k])
    ensures Elements(s, head, tail) == q
  {
    var e := Elements(s, head, tail);
    forall k | 0 <= k < |q| ensures e[k] == q[k] {
      assert s[At(head, k, |s|)] == Live(e[k]);
    }
  }

  /** Constructing at the tail and advancing it appends, if a slot is spare. */
  lemma Append<T(!new)>(s: seq<Slot<T>>, head: nat, tail: nat, x: T)
    requires Shape(s, head, tail) && s != [] && Increment(tail, |s|) != head
    ensures Shape(s[tail := Live(x)], head, Increment(tail, |s|))
    ensures Elements(s[tail := Live(x)], head, Increment(tail, |s|)) == Elements(s, head, tail) + [x]
  {
    hide Elements;
    ElementsAre(s[tail := Live(x)], head, Increment(tail, |s|), Elements(s, head, tail) + [x]);
  }

  /** Destroying at the head and advancing it drops the first element. */
  lemma DropFirst<T(!new)>(s: seq<Slot<T>>, head: nat, tail: nat)
    requires Shape(s, head, tail) && head != tail
    ensures s[head].Live? && Shape(s[head := Raw], Increment(head, |s|), tail)
    ensures Elements(s, head, tail) == [s[head].value] + Elements(s[head := Raw], Increment(head, |s|), tail)
  {
    hide Elements;
    var q := Elements(s, head, tail);
    assert s[At(head, 0, |s|)] == Live(q[0]);
    var next := Increment(head, |s|);
    forall k | 0 <= k < |q| - 1 ensures s[head := Raw][At(next, k, |s|)] == Live(q[1..][k]) {
      assert At(next, k, |s|) == At(head, k + 1, |s|);
    }
    ElementsAre(s[head := Raw], next, tail, q[1..]);
  }

  class Queue<T(!new)> {
    var slots: array<Slot<T>>
    var head: nat
    var tail: nat

    ghost predicate Valid()
      reads this, slots
    {
      slots.Length <= 0xFFFF_FFFF_FFFF_FFFF && Shape(slots[..], head, tail)
    }

    ghost function Contents(): seq<T>
      reads this, slots
      requires Valid()
    {
      Elements(slots[..], head, tail)
    }

    predicate Empty()
      reads this
      requires Valid()
      reads slots
      ensures Empty() <==> Contents() == []
    {
      head == tail
    }

    /** `full()` is also true of a queue without slots, which is never at its
        (nonsensical) capacity. */
    predicate Full()
      reads this, slots
      requires Valid()
      ensures slots.Length > 0 ==> (Full() <==> |Contents()| == Capacity())
      ensures slots.Length == 0 ==> Full() && |Contents()| != Capacity()
    {
      head == Increment(tail, slots.Length)
    }

    /** `_M_end - _M_begin - 1` as a 64-bit `size_type`. */
    function Capacity(): nat
      reads this
    {
      if slots.Length == 0 then 0xFFFF_FFFF_FFFF_FFFF else slots.Length - 1
    }

    function Size(): (r: nat)
      reads this, slots
      requires Valid()
      ensures r == |Contents()| <= Capacity()
    {
      if tail < head then tail + slots.Length - head else tail - head
    }

    /** `fc_queue()` */
    constructor Default()
      ensures Valid() && fresh(slots) && slots.Length == 0 && Contents() == []
    {
      slots := new Slot[0];
      head, tail := 0, 0;
    }

    /** `fc_queue(max_size)` */
    constructor (maxSize: nat)
      requires 0 < maxSize < 0xFFFF_FFFF_FFFF_FFFF
      ensures Valid() && fresh(slots)
      ensures Contents() == [] && Capacity() == maxSize && !Full()
    {
      slots := new Slot[maxSize + 1](_ => Raw);
      head, tail := 0, 0;
    }

    method Front() returns (x: T)
      requires Valid() && Contents() != []
      ensures x == Contents()[0]
    {
      DropFirst(slots[..], head, tail);
      x := slots[head].value;
    }

    method Back() returns (x: T)
      requires Valid() && Contents() != []
      ensures x == Contents()[|Contents()| - 1]
    {
      var last := Decrement(tail, slots.Length);
      assert last == At(head, |Contents()| - 1, slots.Length);
      assert slots[..][last] == Live(Contents()[|Contents()| - 1]);
      x := slots[last].value;
    }

    /** `push`: the element is constructed in the spare slot before the first
        one is discarded. */
    method Push(x: T)
      requires Valid() && slots.Length > 0
      modifies this, slots
      ensures Valid() && slots == old(slots)
      ensures Contents() == (if old(Full()) then old(Contents())[1..] else old(Contents())) + [x]
    {
      assert slots[tail] == Raw;
      ghost var s := slots[..];
      slots[tail] := Live(x);
      if head == Increment(tail, slots.Length) {
        DropFirst(s, head, tail);
        Append(s[head := Raw], Increment(head, |s|), tail, x);
        assert s[tail := Live(x)][head := Raw] == s[head := Raw][tail := Live(x)];
        Pop();
      } else {
        Append(s, head, tail, x);
      }
      tail := Increment(tail, slots.Length);
    }

    /** `pop`.  `push` calls it while the slot at the tail is full as well. */
    method Pop()
      requires head < slots.Length && head != tail && slots[head].Live?
      modifies this`head, slots
      ensures slots[..] == old(slots[..][head := Raw]) && head == Increment(old(head), slots.Length)
      ensures old(Valid()) ==> Valid() && Contents() == old(Contents())[1..]
    {
      if Valid() {
        DropFirst(slots[..], head, tail);
      }
      slots[head] := Raw;
      head := Increment(head, slots.Length);
    }

    method Write(x: T) returns (ok: bool)
      requires Valid()
      modifies this, slots
      ensures Valid() && slots == old(slots)
      ensures ok == !old(Full())
      ensures Contents() == old(Contents()) + if ok then [x] else []
    {
      var newTail := Increment(tail, slots.Length);
      if newTail == head {
        return false;
      }
      assert slots[tail] == Raw;
      Append(slots[..], head, tail, x);
      slots[tail] := Live(x);
      tail := newTail;
      return true;
    }

    method Read(dest: T) returns (ok: bool, x: T)
      requires Valid()
      modifies this, slots
      ensures Valid() && slots == old(slots)
      ensures ok == (old(Contents()) != [])
      ensures old(Contents()) == (if ok then [x] else []) + Contents()
      ensures !ok ==> x == dest
    {
      if head == tail {
        return false, dest;
      }
      DropFirst(slots[..], head, tail);
      x := slots[head].value;
      slots[head] := Raw;
      head := Increment(head, slots.Length);
      ok := true;
    }

    /** `clear`: every element is destroyed once, and nothing else. */
    method Clear()
      requires Valid()
      modifies this, slots
      ensures Valid() && slots == old(slots) && Contents() == []
      ensures head == tail == 0
    {
      var ptr := head;
      while ptr != tail
        invariant Shape(slots[..], ptr, tail)
        invariant unchanged(this)
        decreases |Elements(slots[..], ptr, tail)|
      {
        DropFirst(slots[..], ptr, tail);
        assert slots[ptr].Live?;
        slots[ptr] := Raw;
        ptr := Increment(ptr, slots.Length);
      }
      head, tail := 0, 0;
    }

    /** Copy assignment; allocators are not modelled.  The copy denotes the same
        sequence although its elements may sit in other slots.  From a source
        without slots, whose capacity is the largest `size_type`, it succeeds
        only if this queue has no slots either; otherwise allocation throws
        (`ok` is false), and this queue has lost its elements and slots.  Its
        head and tail, which then point into freed memory, are left at zero. */
    method Assign(rhs: Queue<T>) returns (ok: bool)
      requires Valid() && rhs.Valid()
      requires rhs != this ==> rhs.slots != slots
      modifies this, slots
      ensures ok <==> this == rhs || rhs.slots.Length > 0 || old(slots).Length == 0
      ensures rhs != this ==> rhs.Valid() && rhs.Contents() == old(rhs.Contents())
      ensures ok ==> Valid() && Contents() == old(rhs.Contents()) && Capacity() == rhs.Capacity()
      ensures !ok ==> slots.Length == 0 && head == tail
    {
      hide Elements;
      if this == rhs {
        return true;
      }
      Clear();
      if Capacity() != rhs.Capacity() {
        slots := new Slot[0];
        if rhs.Capacity() + 1 == 0x1_0000_0000_0000_0000 {
          return false;
        }
        slots := new Slot[rhs.Capacity() + 1](_ => Raw);
        head, tail := 0, 0;
      }
      CopyElements(rhs);
      ok := true;
    }

    method CopyElements(rhs: Queue<T>)
      requires Valid() && rhs.Valid() && rhs != this && rhs.slots != slots
      requires rhs.slots.Length == slots.Length && Contents() == []
      modifies this, slots
      ensures Valid() && slots == old(slots)
      ensures Contents() == rhs.Contents()
    {
      hide Elements;
      ghost var source, n := rhs.Contents(), rhs.slots.Length;
      ghost var cells := rhs.slots[..];
      assert n > 0 ==> forall k :: 0 <= k < |source| ==> cells[At(rhs.head, k, n)] == Live(source[k]);
      var ptr: nat := rhs.head;
      ghost var k: nat := 0;
      while ptr != rhs.tail
        invariant Valid() && slots == old(slots) && rhs.slots[..] == cells
        invariant k <= |source| && if n == 0 then ptr == rhs.tail else ptr < n && k == Distance(rhs.head, ptr, n)
        invariant Contents() == source[..k]
        decreases |source| - k
      {
        assert cells[ptr] == Live(source[k]);
        CopyOne(rhs.slots[ptr].value, source, k);
        ptr := Increment(ptr, rhs.slots.Length);
        k := k + 1;
      }
    }

    method CopyOne(x: T, ghost source: seq<T>, ghost k: nat)
      requires Valid() && slots.Length > 0
      requires k < |source| < slots.Length && x == source[k] && Contents() == source[..k]
      modifies this, slots
      ensures Valid() && slots == old(slots)
      ensures Contents() == source[..k + 1]
    {
      Push(x);
    }
  }

  method Contains<T(==, !new)>(q: Queue<T>, value: T) returns (found: bool)
    requires q.Valid()
    ensures found <==> value in q.Contents()
  {
    var ptr: nat := q.head;
    ghost var k: nat := 0;
    while ptr != q.tail
      invariant q.slots.Length > 0 ==> ptr < q.slots.Length && k == Distance(q.head, ptr, q.slots.Length)
      invariant q.slots.Length == 0 ==> ptr == q.tail
      invariant k <= |q.Contents()| && value !in q.Contents()[..k]
      invariant ptr == q.tail ==> k == |q.Contents()|
      decreases |q.Contents()| - k
    {
      assert q.slots[..][At(q.head, k, q.slots.Length)] == Live(q.Contents()[k]);
      if q.slots[ptr].value == value {
        return true;
      }
      ptr := Increment(ptr, q.slots.Length);
      k := k + 1;
    }
    return false;
  }
}
