/** `fc_queue::write` and `fc_queue::read` with atomic indices, called by one
    producer and one consumer thread.  Every atomic load or store and every
    element access is one step; a run is any interleaving of such steps. */
module FcQueueProtocol {
  import opened FcQueue

  /** Element memory.  `Torn` is an element whose constructor is running. */
  datatype Cell<T> = Blank | Torn | Whole(value: T)

  datatype Producer<T> =
    | NotWriting
    | TailLoaded(x: T, tail: nat)
    | HasRoom(x: T, tail: nat)
    | Constructing(x: T, tail: nat)
    | Constructed(x: T, tail: nat)

  datatype Consumer<T> =
    | NotReading
    | HeadLoaded(head: nat)
    | HasElement(head: nat)
    | MovedOut(head: nat, got: Cell<T>)
    | Destroyed(head: nat, got: Cell<T>)

  /** The shared ring, both threads, and the history of completed calls. */
  datatype State<T> = State(
    cells: seq<Cell<T>>, head: nat, tail: nat,
    producer: Producer<T>, consumer: Consumer<T>,
    written: seq<T>, received: seq<Cell<T>>)

  datatype Action<T> =
    | LoadTail(x: T) | WriteFails | WriteProceeds | BeginConstruct | EndConstruct | StoreTail
    | LoadHead | ReadFails | ReadProceeds | MoveOut | Destroy | StoreHead

  predicate Enabled<T(==)>(s: State<T>, a: Action<T>) {
    match a
    case LoadTail(_) => s.producer.NotWriting?
    case WriteFails => s.producer.TailLoaded? && Increment(s.producer.tail, |s.cells|) == s.head
    case WriteProceeds => s.producer.TailLoaded? && Increment(s.producer.tail, |s.cells|) != s.head
    case BeginConstruct => s.producer.HasRoom? && s.producer.tail < |s.cells|
    case EndConstruct => s.producer.Constructing? && s.producer.tail < |s.cells|
    case StoreTail => s.producer.Constructed?
    case LoadHead => s.consumer.NotReading?
    case ReadFails => s.consumer.HeadLoaded? && s.consumer.head == s.tail
    case ReadProceeds => s.consumer.HeadLoaded? && s.consumer.head != s.tail
    case MoveOut => s.consumer.HasElement? && s.consumer.head < |s.cells|
    case Destroy => s.consumer.MovedOut? && s.consumer.head < |s.cells|
    case StoreHead => s.consumer.Destroyed?
  }

  function Apply<T(==)>(s: State<T>, a: Action<T>): State<T>
    requires Enabled(s, a)
  {
    match a
    case LoadTail(x) => s.(producer := TailLoaded(x, s.tail))
    case WriteFails => s.(producer := NotWriting)
    case WriteProceeds => s.(producer := HasRoom(s.producer.x, s.producer.tail))
    case BeginConstruct =>
      s.(cells := s.cells[s.producer.tail := Torn],
         producer := Constructing(s.producer.x, s.producer.tail))
    case EndConstruct =>
      s.(cells := s.cells[s.producer.tail := Whole(s.producer.x)],
         producer := Constructed(s.producer.x, s.producer.tail))
    case StoreTail =>
      s.(tail := Increment(s.producer.tail, |s.cells|),
         producer := NotWriting, written := s.written + [s.producer.x])
    case LoadHead => s.(consumer := HeadLoaded(s.head))
    case ReadFails => s.(consumer := NotReading)
    case ReadProceeds => s.(consumer := HasElement(s.consumer.head))
    case MoveOut => s.(consumer := MovedOut(s.consumer.head, s.cells[s.consumer.head]))
    case Destroy =>
      s.(cells := s.cells[s.consumer.head := Blank],
         consumer := Destroyed(s.consumer.head, s.consumer.got))
    case StoreHead =>
      s.(head := Increment(s.consumer.head, |s.cells|),
         consumer := NotReading, received := s.received + [s.consumer.got])
  }

  /** A queue of `capacity` elements before either thread has started. */
  function Initial<T>(capacity: nat): State<T> {
    State(seq(capacity + 1, _ => Blank), 0, 0, NotWriting, NotReading, [], [])
  }

  ghost predicate IsRun<T(!new)>(s: State<T>, actions: seq<Action<T>>)
    decreases |actions|
  {
    actions != [] ==> Enabled(s, actions[0]) && IsRun(Apply(s, actions[0]), actions[1..])
  }

  ghost function After<T(!new)>(s: State<T>, actions: seq<Action<T>>): State<T>
    requires IsRun(s, actions)
    decreases |actions|
  {
    if actions == [] then s else After(Apply(s, actions[0]), actions[1..])
  }

  // ----- The invariant, in terms of positions counted from the first write -----

  /** The slot of position `k`: `k` increments from the first slot. */
  ghost function Slot(k: nat, n: nat): (i: nat)
    requires n > 0
    ensures i < n
  {
    if k == 0 then 0 else Increment(Slot(k - 1, n), n)
  }

  lemma {:induction false} SlotAhead(k: nat, d: nat, n: nat)
    requires d < n
    ensures Slot(k + d, n) == At(Slot(k, n), d, n)
  {
    if d > 0 {
      SlotAhead(k, d - 1, n);
    }
  }

  lemma SlotPeriod(k: nat, n: nat)
    requires n > 0
    ensures Slot(k + n, n) == Slot(k, n)
  {
    SlotAhead(k, n - 1, n);
  }

  lemma SlotsDiffer(a: nat, b: nat, n: nat)
    requires n > 0 && a < b < a + n
    ensures Slot(a, n) != Slot(b, n)
  {
    SlotAhead(a, b - a, n);
  }

  ghost predicate InUse<T(!new)>(s: State<T>) {
    s.producer.HasRoom? || s.producer.Constructing? || s.producer.Constructed?
  }

  ghost predicate Taking<T(!new)>(s: State<T>) {
    s.consumer.HasElement? || s.consumer.MovedOut? || s.consumer.Destroyed?
  }

  /** What the cell of position `k` holds. */
  ghost function Expected<T(!new)>(s: State<T>, k: nat): Cell<T>
    requires |s.received| <= k
  {
    if k < |s.written| then
      if k == |s.received| && s.consumer.Destroyed? then Blank else Whole(s.written[k])
    else if k == |s.written| && s.producer.Constructing? then Torn
    else if k == |s.written| && s.producer.Constructed? then Whole(s.producer.x)
    else Blank
  }

  ghost predicate Counters<T(!new)>(s: State<T>) {
    var n := |s.cells|;
    n >= 2 && |s.received| <= |s.written| <= |s.received| + n - 1 &&
    s.head == Slot(|s.received|, n) && s.tail == Slot(|s.written|, n) &&
    (!s.producer.NotWriting? ==> s.producer.tail == s.tail) &&
    (!s.consumer.NotReading? ==> s.consumer.head == s.head) &&
    (InUse(s) ==> |s.written| < |s.received| + n - 1) &&
    (Taking(s) ==> |s.received| < |s.written|)
  }

  ghost predicate Inv<T(!new)>(s: State<T>) {
    Counters(s) &&
    (forall k :: |s.received| <= k < |s.received| + |s.cells| ==>
      s.cells[Slot(k, |s.cells|)] == Expected(s, k)) &&
    (s.consumer.MovedOut? || s.consumer.Destroyed? ==> s.consumer.got == Whole(s.written[|s.received|])) &&
    (forall i :: 0 <= i < |s.received| ==> s.received[i] == Whole(s.written[i]))
  }

  lemma CellUpdate<T(!new)>(s: State<T>, t: State<T>, p: nat, c: Cell<T>)
    requires Inv(s) && |s.received| <= p < |s.received| + |s.cells|
    requires t.received == s.received && t.written == s.written
    requires t.cells == s.cells[Slot(p, |s.cells|) := c] && Expected(t, p) == c
    requires forall k :: |s.received| <= k < |s.received| + |s.cells| && k != p ==> Expected(t, k) == Expected(s, k)
    ensures forall k :: |s.received| <= k < |s.received| + |s.cells| ==>
      t.cells[Slot(k, |t.cells|)] == Expected(t, k)
  {
    forall k | |s.received| <= k < |s.received| + |s.cells|
      ensures t.cells[Slot(k, |t.cells|)] == Expected(t, k)
    {
      if k < p {
        SlotsDiffer(k, p, |s.cells|);
      } else if p < k {
        SlotsDiffer(p, k, |s.cells|);
      }
    }
  }

  /** The full and the empty test mean what they say. */
  lemma IndexTests<T(!new)>(s: State<T>)
    requires Inv(s)
    ensures Increment(s.tail, |s.cells|) == s.head <==> |s.written| - |s.received| == |s.cells| - 1
    ensures s.head == s.tail <==> |s.written| == |s.received|
  {
    var n, r, w := |s.cells|, |s.received|, |s.written|;
    assert Increment(s.tail, n) == Slot(w + 1, n);
    if w == r + n - 1 {
      SlotPeriod(r, n);
    } else {
      SlotsDiffer(r, w + 1, n);
    }
    if r < w {
      SlotsDiffer(r, w, n);
    }
  }

  lemma ProducerStep<T(!new)>(s: State<T>, a: Action<T>)
    requires Inv(s) && Enabled(s, a)
    requires a.LoadTail? || a.WriteFails? || a.WriteProceeds? || a.BeginConstruct? || a.EndConstruct? || a.StoreTail?
    ensures Inv(Apply(s, a))
  {
    var t := Apply(s, a);
    match a {
      case BeginConstruct => CellUpdate(s, t, |s.written|, Torn);
      case EndConstruct => CellUpdate(s, t, |s.written|, Whole(s.producer.x));
      case StoreTail =>
        assert forall k :: |s.received| <= k < |s.received| + |s.cells| ==> Expected(t, k) == Expected(s, k);
      case WriteProceeds => IndexTests(s);
      case _ =>
    }
  }

  lemma HeadStored<T(!new)>(s: State<T>)
    requires Inv(s) && s.consumer.Destroyed?
    ensures Inv(Apply(s, StoreHead))
  {
    var t := Apply(s, StoreHead);
    var n, r := |s.cells|, |s.received|;
    assert t.head == Slot(r + 1, n);
    hide Slot;
    forall k | r + 1 <= k < r + 1 + n ensures t.cells[Slot(k, n)] == Expected(t, k) {
      if k == r + n {
        SlotPeriod(r, n);
        assert s.cells[Slot(r, n)] == Expected(s, r);
      } else {
        assert s.cells[Slot(k, n)] == Expected(s, k);
      }
    }
  }

  lemma ConsumerStep<T(!new)>(s: State<T>, a: Action<T>)
    requires Inv(s) && Enabled(s, a)
    requires a.LoadHead? || a.ReadFails? || a.ReadProceeds? || a.MoveOut? || a.Destroy? || a.StoreHead?
    ensures Inv(Apply(s, a))
  {
    var t := Apply(s, a);
    match a {
      case ReadProceeds => IndexTests(s);
      case MoveOut => assert s.cells[Slot(|s.received|, |s.cells|)] == Expected(s, |s.received|);
      case Destroy => CellUpdate(s, t, |s.received|, Blank);
      case StoreHead => HeadStored(s);
      case _ =>
    }
  }

  lemma InitialInv<T(!new)>(capacity: nat)
    requires capacity > 0
    ensures Inv(Initial<T>(capacity))
  {
  }

  lemma {:induction false} RunInv<T(!new)>(s: State<T>, actions: seq<Action<T>>)
    requires Inv(s) && IsRun(s, actions)
    ensures Inv(After(s, actions)) && |After(s, actions).cells| == |s.cells|
    decreases |actions|
  {
    if actions != [] {
      var a := actions[0];
      if a.LoadTail? || a.WriteFails? || a.WriteProceeds? || a.BeginConstruct? || a.EndConstruct? || a.StoreTail? {
        ProducerStep(s, a);
      } else {
        ConsumerStep(s, a);
      }
      RunInv(Apply(s, a), actions[1..]);
    }
  }

  // ----- What was written and read, from the actions alone -----

  /** The arguments of the `write` calls that found room, in order; `pending`
      is the argument of the call under way. */
  ghost function AcceptedFrom<T(!new)>(actions: seq<Action<T>>, pending: seq<T>): seq<T>
    decreases |actions|
  {
    if actions == [] then []
    else if actions[0].LoadTail? then AcceptedFrom(actions[1..], [actions[0].x])
    else (if actions[0].WriteProceeds? then pending else []) + AcceptedFrom(actions[1..], pending)
  }

  ghost function Accepted<T(!new)>(actions: seq<Action<T>>): seq<T> {
    AcceptedFrom(actions, [])
  }

  /** How many `write` calls, and how many `read` calls, have taken effect. */
  ghost function Stores<T(!new)>(actions: seq<Action<T>>, tail: bool): nat
    decreases |actions|
  {
    if actions == [] then 0
    else (if (if tail then actions[0].StoreTail? else actions[0].StoreHead?) then 1 else 0) + Stores(actions[1..], tail)
  }

  /** The history, and the element whose slot is not yet published. */
  ghost function Taken<T(!new)>(s: State<T>): seq<T> {
    s.written + if InUse(s) then [s.producer.x] else []
  }

  lemma {:induction false} RunTakes<T(!new)>(s: State<T>, actions: seq<Action<T>>, pending: seq<T>)
    requires IsRun(s, actions) && (s.producer.NotWriting? || pending == [s.producer.x])
    ensures Taken(After(s, actions)) == Taken(s) + AcceptedFrom(actions, pending)
    ensures |After(s, actions).written| == |s.written| + Stores(actions, true)
    ensures |After(s, actions).received| == |s.received| + Stores(actions, false)
    decreases |actions|
  {
    if actions != [] {
      var a := actions[0];
      RunTakes(Apply(s, a), actions[1..], if a.LoadTail? then [a.x] else pending);
    }
  }

  /** The history holds exactly the arguments of the calls that found room. */
  lemma WrittenAreAccepted<T(!new)>(capacity: nat, actions: seq<Action<T>>)
    requires IsRun(Initial<T>(capacity), actions)
    ensures var s := After(Initial<T>(capacity), actions);
      s.written + (if InUse(s) then [s.producer.x] else []) == Accepted(actions) &&
      |s.written| == Stores(actions, true) && |s.received| == Stores(actions, false)
  {
    RunTakes(Initial<T>(capacity), actions, []);
    assert Taken(Initial<T>(capacity)) == [];
  }

  // ----- The theorems about all interleavings -----

  /** What the consumer received is always a prefix of what was passed to the
      accepted calls, whole, in order, each element once; at most `capacity`
      elements are in transit. */
  lemma ReadsArePrefixOfWrites<T(!new)>(capacity: nat, actions: seq<Action<T>>)
    requires capacity > 0 && IsRun(Initial<T>(capacity), actions)
    ensures var s := After(Initial<T>(capacity), actions);
      |s.received| == Stores(actions, false) && |s.written| == Stores(actions, true) &&
      |s.received| <= |s.written| <= |s.received| + capacity &&
      s.written <= Accepted(actions) && |Accepted(actions)| <= |s.written| + 1 &&
      forall i :: 0 <= i < |s.received| ==> s.received[i] == Whole(Accepted(actions)[i])
  {
    InitialInv<T>(capacity);
    RunInv(Initial<T>(capacity), actions);
    WrittenAreAccepted(capacity, actions);
  }

  /** While an element is being constructed its slot is neither the one the
      consumer is working on nor anywhere in the consumer's live range, and
      construction starts on a blank cell. */
  lemma NoSharedSlot<T(!new)>(capacity: nat, actions: seq<Action<T>>)
    requires capacity > 0 && IsRun(Initial<T>(capacity), actions)
    ensures var s := After(Initial<T>(capacity), actions);
      InUse(s) ==>
        s.producer.tail < |s.cells| && s.head < |s.cells| && s.tail < |s.cells| &&
        Distance(s.head, s.producer.tail, |s.cells|) >= Distance(s.head, s.tail, |s.cells|) &&
        (Taking(s) ==> s.producer.tail != s.consumer.head) &&
        (s.producer.HasRoom? ==> s.cells[s.producer.tail] == Blank)
  {
    InitialInv<T>(capacity);
    RunInv(Initial<T>(capacity), actions);
    var s := After(Initial<T>(capacity), actions);
    if InUse(s) {
      IndexTests(s);
      assert s.cells[Slot(|s.written|, |s.cells|)] == Expected(s, |s.written|);
    }
  }

  /** The abstract queue: written but not yet released by the consumer. */
  ghost function Abstract<T(!new)>(s: State<T>): seq<T>
    requires |s.received| <= |s.written|
  {
    s.written[|s.received|..]
  }

  /** Every step of every run is a step of a bounded FIFO queue: publishing the
      tail enqueues, publishing the head dequeues the front, a failing call
      happens exactly at a full or an empty queue, all else changes nothing. */
  lemma StepsRefineQueue<T(!new)>(capacity: nat, actions: seq<Action<T>>, a: Action<T>)
    requires capacity > 0 && IsRun(Initial<T>(capacity), actions)
    requires Enabled(After(Initial<T>(capacity), actions), a)
    ensures var s := After(Initial<T>(capacity), actions);
      var t := Apply(s, a);
      |s.received| <= |s.written| && |t.received| <= |t.written| &&
      (a.StoreTail? ==>
        |Abstract(s)| < capacity && |s.written| < |Accepted(actions)| &&
        Abstract(t) == Abstract(s) + [Accepted(actions)[|s.written|]]) &&
      (a.StoreHead? ==>
        Abstract(s) != [] && s.consumer.got == Whole(Abstract(s)[0]) && Abstract(t) == Abstract(s)[1..]) &&
      (a.WriteFails? ==> |Abstract(s)| == capacity) &&
      (a.WriteProceeds? ==> |Abstract(s)| < capacity) &&
      (a.ReadFails? ==> Abstract(s) == []) &&
      (a.ReadProceeds? ==> Abstract(s) != []) &&
      (!a.StoreTail? && !a.StoreHead? ==> Abstract(t) == Abstract(s))
  {
    InitialInv<T>(capacity);
    RunInv(Initial<T>(capacity), actions);
    WrittenAreAccepted(capacity, actions);
    IndexTests(After(Initial<T>(capacity), actions));
  }

  /** Neither thread ever waits for the other. */
  lemma NeverBlocked<T(!new)>(capacity: nat, actions: seq<Action<T>>)
    requires capacity > 0 && IsRun(Initial<T>(capacity), actions)
    ensures var s := After(Initial<T>(capacity), actions);
      (!s.producer.NotWriting? ==>
        Enabled(s, WriteFails) || Enabled(s, WriteProceeds) || Enabled(s, BeginConstruct) ||
        Enabled(s, EndConstruct) || Enabled(s, StoreTail)) &&
      (!s.consumer.NotReading? ==>
        Enabled(s, ReadFails) || Enabled(s, ReadProceeds) || Enabled(s, MoveOut) ||
        Enabled(s, Destroy) || Enabled(s, StoreHead))
  {
    InitialInv<T>(capacity);
    RunInv(Initial<T>(capacity), actions);
  }
}
