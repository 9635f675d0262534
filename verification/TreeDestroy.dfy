/** `tree::destroy`: deletion of a whole tree by rotation, without recursion. */
module TreeDestroy {
  import opened Trees
  import opened TreeOrders

  /** The two owning locals of the loop. */
  datatype Cursor = Cursor(current: Ptr, parent: Ptr)

  /** One iteration: the locals afterwards and the pointers dropped, in order. */
  datatype Outcome = Outcome(next: Cursor, dropped: seq<Ptr>)

  function AvoidSole(kids: seq<Ptr>): seq<Ptr> {
    if |kids| == 1 then kids + [Null] else kids
  }

  function NonNull(kids: seq<Ptr>): (r: seq<Ptr>)
    ensures forall i :: 0 <= i < |r| ==> r[i] != Null && r[i] in kids
    ensures r == [] <==> forall i :: 0 <= i < |kids| ==> kids[i] == Null
  {
    if kids == [] then []
    else if kids[0] == Null then NonNull(kids[1..])
    else [kids[0]] + NonNull(kids[1..])
  }

  predicate SecondIsNull(kids: seq<Ptr>) {
    |kids| < 2 || kids[1] == Null
  }

  /** The asserted loop property: a parent's first slot was moved into
      `current`.  With no current node there is no parent either. */
  predicate Good(c: Cursor) {
    (c.current == Null ==> c.parent == Null) &&
    (c.parent.Node? ==> c.parent.kids != [] && c.parent.kids[0] == Null)
  }

  /** The third and later children, which are moved to another node ... */
  function Late(kids: seq<Ptr>): seq<Ptr> {
    if |kids| > 2 then kids[2..] else []
  }

  /** ... and what the move leaves behind. */
  function Early(kids: seq<Ptr>): (r: seq<Ptr>)
    ensures |r| == |kids|
    ensures forall i :: 0 <= i < |kids| ==> r[i] == if i < 2 then kids[i] else Null
  {
    if |kids| > 2 then kids[..2] + seq(|kids| - 2, _ => Null) else kids
  }

  function Kept(kids: seq<Ptr>): (r: seq<Ptr>)
    requires kids != []
    ensures |r| >= 2 && r[0] == kids[0]
    ensures r[1] == if |kids| > 1 then kids[1] else Null
    ensures forall i :: 2 <= i < |r| ==> r[i] == Null
  {
    AvoidSole(Early(kids))
  }

  /** The old parent: its free first slot takes the displaced second child of
      `kids` and its tail takes the third and later ones. */
  function Demoted(kids: seq<Ptr>, parent: Ptr): (r: Ptr)
    requires kids != [] && parent.Node? && parent.kids != []
  {
    Node(parent.value, (parent.kids + Late(kids))[0 := Kept(kids)[1]])
  }

  /** The rotation: `parent` becomes the second child of `current`. */
  function Rotated(current: Ptr, parent: Ptr): (r: Ptr)
    requires current.Node? && current.kids != []
    requires parent.Node? && parent.kids != []
  {
    Node(current.value, Kept(current.kids)[1 := Demoted(current.kids, parent)])
  }

  /** The tail of an iteration, where the parent is null. */
  function Below(current: Ptr): (r: Outcome)
    requires current.Node? && current.kids != []
    ensures Good(r.next)
  {
    var kids := current.kids;
    if kids[0] != Null then
      Outcome(Cursor(kids[0], current.(kids := kids[0 := Null])), [])
    else if |kids| == 2 then
      Outcome(Cursor(kids[1], Null), [current.(kids := kids[1 := Null])])
    else
      Outcome(Cursor(current.(kids := AvoidSole(NonNull(kids))), Null), [])
  }

  function Step(c: Cursor): (r: Outcome)
    requires Good(c) && c.current.Node?
    ensures Good(r.next)
  {
    if c.current.kids == [] then
      Outcome(Cursor(c.parent, Null), [c.current])
    else if c.parent == Null then
      Below(c.current)
    else if SecondIsNull(c.parent.kids) then
      var r := Below(c.current);
      Outcome(r.next, [c.parent] + r.dropped)
    else
      Below(Rotated(c.current, c.parent))
  }

  // ----- Conservation: an iteration loses no node and duplicates none -----

  ghost function Live(c: Cursor): multiset<int> {
    Values(c.current) + Values(c.parent)
  }

  lemma {:induction false} NonNullValues(kids: seq<Ptr>)
    ensures ValuesAll(NonNull(kids)) == ValuesAll(kids)
  {
    if kids != [] {
      NonNullValues(kids[1..]);
      if kids[0] != Null {
        assert NonNull(kids)[1..] == NonNull(kids[1..]);
      }
    }
  }

  lemma AvoidSoleValues(kids: seq<Ptr>)
    ensures ValuesAll(AvoidSole(kids)) == ValuesAll(kids)
  {
    ValuesConcat(kids, [Null]);
    ValuesSingle(Null);
  }

  lemma EarlyLateValues(kids: seq<Ptr>)
    ensures ValuesAll(Early(kids)) + ValuesAll(Late(kids)) == ValuesAll(kids)
  {
    if |kids| > 2 {
      var blanks := seq(|kids| - 2, _ => Null);
      ValuesAllNull(blanks);
      ValuesConcat(kids[..2], blanks);
      ValuesConcat(kids[..2], kids[2..]);
      assert kids == kids[..2] + kids[2..];
    }
  }

  lemma KeptValues(kids: seq<Ptr>)
    requires kids != []
    ensures ValuesAll(Kept(kids)) + ValuesAll(Late(kids)) == ValuesAll(kids)
  {
    EarlyLateValues(kids);
    AvoidSoleValues(Early(kids));
  }

  lemma DemotedValues(kids: seq<Ptr>, parent: Ptr)
    requires kids != [] && parent.Node? && parent.kids != [] && parent.kids[0] == Null
    ensures Values(Demoted(kids, parent)) == Values(parent) + ValuesAll(Late(kids)) + Values(Kept(kids)[1])
  {
    var pool := parent.kids + Late(kids);
    ValuesConcat(parent.kids, Late(kids));
    ValuesUpdate(pool, 0, Kept(kids)[1]);
    assert pool[0] == Null;
    assert ValuesAll(Demoted(kids, parent).kids) == ValuesAll(pool) + Values(Kept(kids)[1]);
  }

  lemma RotatedValues(current: Ptr, parent: Ptr)
    requires current.Node? && current.kids != []
    requires parent.Node? && parent.kids != [] && parent.kids[0] == Null
    ensures Values(Rotated(current, parent)) == Values(current) + Values(parent)
  {
    hide Kept, Demoted, Late;
    KeptValues(current.kids);
    DemotedValues(current.kids, parent);
    ValuesUpdate(Kept(current.kids), 1, Demoted(current.kids, parent));
  }

  lemma NodeValues(v: int, kids: seq<Ptr>)
    ensures Values(Node(v, kids)) == multiset{v} + ValuesAll(kids)
    ensures Values(Null) == ValuesAll([]) == multiset{}
  {
  }

  /** A child slot emptied: its nodes and the rest. */
  lemma SlotEmptied(v: int, kids: seq<Ptr>, i: nat)
    requires i < |kids|
    ensures Values(Node(v, kids)) == Values(kids[i]) + Values(Node(v, kids[i := Null]))
  {
    hide Values, ValuesAll;
    NodeValues(v, kids);
    NodeValues(v, kids[i := Null]);
    ValuesUpdate(kids, i, Null);
    assert ValuesAll(kids) == ValuesAll(kids[i := Null]) + Values(kids[i]);
  }

  lemma BelowConserves(current: Ptr)
    requires current.Node? && current.kids != []
    ensures Values(current) == Live(Below(current).next) + ValuesAll(Below(current).dropped)
  {
    hide Values, ValuesAll, NonNull, AvoidSole;
    var v, kids := current.value, current.kids;
    NodeValues(v, kids);
    if kids[0] != Null {
      SlotEmptied(v, kids, 0);
    } else if |kids| == 2 {
      SlotEmptied(v, kids, 1);
      ValuesSingle(current.(kids := kids[1 := Null]));
    } else {
      NodeValues(v, AvoidSole(NonNull(kids)));
      NonNullValues(kids);
      AvoidSoleValues(NonNull(kids));
    }
  }

  lemma StepConserves(c: Cursor)
    requires Good(c) && c.current.Node?
    ensures Live(c) == Live(Step(c).next) + ValuesAll(Step(c).dropped)
  {
    if c.current.kids == [] {
      ValuesSingle(c.current);
    } else {
      BelowConserves(c.current);
      if c.parent.Node? {
        if SecondIsNull(c.parent.kids) {
          ValuesConcat([c.parent], Below(c.current).dropped);
          ValuesSingle(c.parent);
        } else {
          RotatedValues(c.current, c.parent);
          BelowConserves(Rotated(c.current, c.parent));
        }
      }
    }
  }

  // ----- Termination -----

  /** Length of the chain of first children. */
  ghost function Spine(p: Ptr): nat {
    if p == Null then 0 else if p.kids == [] then 1 else 1 + Spine(p.kids[0])
  }

  /** The phase reached since the last deletion; see `StepDecreases`. */
  ghost function Phase(c: Cursor): nat {
    if c.current == Null || c.current.kids == [] then 0
    else if c.parent != Null then
      if c.parent.kids != [] && SecondIsNull(c.parent.kids) then 0 else 2
    else if c.current.kids[0] == Null then 4
    else if SecondIsNull(c.current.kids) && c.current.kids[0].kids != [] then 1
    else 3
  }

  lemma DroppingShrinks(c: Cursor)
    requires Good(c) && c.current.Node? && Step(c).dropped != []
    ensures |Live(Step(c).next)| < |Live(c)|
  {
    StepConserves(c);
    var d := Step(c).dropped;
    assert d[0].Node?;
    hide Step;
    assert Values(d[0]) <= ValuesAll(d);
    assert d[0].value in Values(d[0]);
  }

  lemma BelowLowers(current: Ptr)
    requires current.Node? && current.kids != [] && Below(current).dropped == []
    ensures var n := Below(current).next;
      Phase(n) < Phase(Cursor(current, Null))
  {
    var kids := current.kids;
    if kids[0] == Null {
      var few := AvoidSole(NonNull(kids));
      assert few == [] || few[0] != Null;
    }
  }

  lemma VineLowers(v: int, kids: seq<Ptr>)
    requires |kids| >= 2 && kids[1].Node? && kids[1].kids != []
    requires forall i :: 2 <= i < |kids| ==> kids[i] == Null
    requires Below(Node(v, kids)).dropped == []
    ensures var n := Below(Node(v, kids)).next;
      Phase(n) < 2 || (Phase(n) == 2 && Spine(n.current) < Spine(Node(v, kids)))
  {
    if kids[0] == Null {
      NonNullOnly(kids, 1);
      assert AvoidSole(NonNull(kids)) == [kids[1], Null];
    }
  }

  /** Every iteration lowers (live nodes, phase, spine) lexicographically. */
  lemma StepDecreases(c: Cursor)
    requires Good(c) && c.current.Node?
    ensures var n := Step(c).next;
      |Live(n)| < |Live(c)| ||
      (|Live(n)| == |Live(c)| && Phase(n) < Phase(c)) ||
      (|Live(n)| == |Live(c)| && Phase(n) == Phase(c) && Spine(n.current) < Spine(c.current))
  {
    if Step(c).dropped != [] {
      DroppingShrinks(c);
    } else {
      StepConserves(c);
      assert ValuesAll(Step(c).dropped) == multiset{};
      if c.parent == Null {
        BelowLowers(c.current);
      } else {
        var rot := Rotated(c.current, c.parent);
        VineLowers(rot.value, rot.kids);
        assert Spine(rot) == Spine(c.current);
      }
    }
  }

  lemma {:induction false} NonNullOnly(kids: seq<Ptr>, k: nat)
    requires k < |kids| && kids[k] != Null
    requires forall i :: 0 <= i < |kids| && i != k ==> kids[i] == Null
    ensures NonNull(kids) == [kids[k]]
  {
    if k > 0 {
      NonNullOnly(kids[1..], k - 1);
    } else {
      assert NonNull(kids[1..]) == [];
    }
  }

  /** Everything dropped from a cursor to the end of the loop, in order. */
  ghost function Run(c: Cursor): seq<Ptr>
    requires Good(c)
    decreases |Live(c)|, Phase(c), Spine(c.current)
  {
    if c.current == Null then []
    else
      var r := Step(c);
      StepDecreases(c);
      r.dropped + Run(r.next)
  }

  /** `destroy` deletes each node of the input exactly once. */
  lemma {:induction false} RunDropsEachNodeOnce(c: Cursor)
    requires Good(c)
    ensures ValuesAll(Run(c)) == Live(c)
    decreases |Live(c)|, Phase(c), Spine(c.current)
  {
    if c.current.Node? {
      StepDecreases(c);
      StepConserves(c);
      RunDropsEachNodeOnce(Step(c).next);
      ValuesConcat(Step(c).dropped, Run(Step(c).next));
    }
  }

  // ----- What is deleted early, on any tree -----

  /** A dropped pointer: a node without a first and a second child. */
  predicate NoEarlyChild(p: Ptr) {
    p.Node? && forall i :: 0 <= i < |p.kids| && i < 2 ==> p.kids[i] == Null
  }

  lemma StepKeepsEarlyChildren(c: Cursor)
    requires Good(c) && c.current.Node?
    ensures forall i :: 0 <= i < |Step(c).dropped| ==> NoEarlyChild(Step(c).dropped[i])
  {
    hide Rotated;
  }

  /** Whatever the tree, only third and later children can be deleted with their
      parent. */
  lemma {:induction false} RunKeepsEarlyChildren(c: Cursor)
    requires Good(c)
    ensures forall i :: 0 <= i < |Run(c)| ==> NoEarlyChild(Run(c)[i])
    decreases |Live(c)|, Phase(c), Spine(c.current)
  {
    if c.current.Node? {
      StepDecreases(c);
      StepKeepsEarlyChildren(c);
      RunKeepsEarlyChildren(Step(c).next);
    }
  }

  // ----- The order of deletion of binary trees -----

  ghost predicate Binary(p: Ptr) {
    p.Node? ==> |p.kids| <= 2 && forall i :: 0 <= i < |p.kids| ==> Binary(p.kids[i])
  }

  function Kid(kids: seq<Ptr>, i: nat): Ptr { if i < |kids| then kids[i] else Null }

  /** The order while nothing else is waiting: as long as there are two children,
      the first one, the node, the second one.  A node with an only child goes
      before it, unless the child is the first one and has no child slots. */
  ghost function DropOrder(p: Ptr): seq<int>
    requires Binary(p)
  {
    if p == Null then []
    else
      var first, second := Kid(p.kids, 0), Kid(p.kids, 1);
      if first == Null then [p.value] + if second == Null then [] else DropOrder(second)
      else if second != Null then InOrder(first) + [p.value] + DropOrder(second)
      else if first.kids == [] then [first.value, p.value]
      else [p.value] + DropOrder(first)
  }

  /** What a cursor will still drop. */
  ghost function CursorOrder(c: Cursor): seq<int>
    requires Good(c) && Binary(c.current) && Binary(c.parent)
  {
    if c.current == Null then []
    else if c.parent == Null then DropOrder(c.current)
    else
      var second := Kid(c.parent.kids, 1);
      if second != Null then InOrder(c.current) + [c.parent.value] + DropOrder(second)
      else if c.current.kids == [] then [c.current.value, c.parent.value]
      else [c.parent.value] + DropOrder(c.current)
  }

  lemma InOrderOfBinary(p: Ptr)
    requires Binary(p) && p.Node?
    ensures InOrder(p) == InOrder(Kid(p.kids, 0)) + [p.value] + InOrder(Kid(p.kids, 1))
  {
    if |p.kids| == 1 {
      assert p.kids[1..] == [];
    } else if |p.kids| == 2 {
      assert InOrderAll(p.kids[1..]) == InOrder(p.kids[1]) + InOrderAll(p.kids[1..][1..]);
    }
  }

  lemma BelowOrder(current: Ptr)
    requires current.Node? && current.kids != [] && Binary(current)
    ensures var n := Below(current).next;
      Binary(n.current) && Binary(n.parent) &&
      DropOrder(current) == Labels(Below(current).dropped) + CursorOrder(n)
  {
    var kids := current.kids;
    if kids[0] == Null && |kids| == 2 {
      LabelOfOne(current.(kids := kids[1 := Null]));
    } else if kids[0] == Null {
      assert NonNull(kids) == [];
    }
  }

  lemma LabelOfOne(p: Ptr)
    requires p.Node?
    ensures Labels([p]) == [p.value]
  {
    assert [p][1..] == [];
  }

  lemma TwoChildrenOrder(v: int, first: Ptr, second: Ptr)
    requires Binary(first) && Binary(second) && second != Null
    ensures Binary(Node(v, [first, second]))
    ensures DropOrder(Node(v, [first, second])) == InOrder(first) + [v] + DropOrder(second)
  {
    assert InOrder(Null) == [];
  }

  lemma KidsAreBinary(p: Ptr)
    requires Binary(p) && p.Node?
    ensures |p.kids| <= 2 && Binary(Kid(p.kids, 0)) && Binary(Kid(p.kids, 1))
    ensures p.kids != [] ==> Kid(p.kids, 0) == p.kids[0]
    ensures |p.kids| == 2 ==> Kid(p.kids, 1) == p.kids[1]
  {
  }

  lemma RotatedShape(current: Ptr, parent: Ptr)
    requires current.Node? && 0 < |current.kids| <= 2
    requires parent.Node? && |parent.kids| == 2
    ensures var below := Demoted(current.kids, parent);
      below == Node(parent.value, [Kid(current.kids, 1), parent.kids[1]]) &&
      Rotated(current, parent) == Node(current.value, [current.kids[0], below])
  {
  }

  lemma RotatedOrder(current: Ptr, parent: Ptr)
    requires current.Node? && current.kids != [] && Binary(current)
    requires parent.Node? && parent.kids != [] && parent.kids[0] == Null && Binary(parent)
    requires !SecondIsNull(parent.kids)
    ensures Binary(Rotated(current, parent))
    ensures DropOrder(Rotated(current, parent)) ==
      InOrder(current) + [parent.value] + DropOrder(parent.kids[1])
  {
    InOrderOfBinary(current);
    var kids, below := current.kids, Demoted(current.kids, parent);
    RotatedShape(current, parent);
    KidsAreBinary(current);
    KidsAreBinary(parent);
    hide Binary, DropOrder, InOrder, Rotated, Demoted, Kid;
    TwoChildrenOrder(parent.value, Kid(kids, 1), parent.kids[1]);
    TwoChildrenOrder(current.value, kids[0], below);
  }

  lemma LeafOrder(c: Cursor)
    requires Good(c) && c.current.Node? && Binary(c.current) && Binary(c.parent) && c.current.kids == []
    ensures CursorOrder(c) == [c.current.value] + DropOrder(c.parent)
  {
    assert InOrder(c.current) == [c.current.value];
    if c.parent.Node? {
      assert Kid(c.parent.kids, 0) == Null;
    }
  }

  lemma StepOrder(c: Cursor)
    requires Good(c) && c.current.Node? && Binary(c.current) && Binary(c.parent)
    ensures var n := Step(c).next;
      Binary(n.current) && Binary(n.parent) &&
      CursorOrder(c) == Labels(Step(c).dropped) + CursorOrder(n)
  {
    if c.current.kids == [] {
      LabelOfOne(c.current);
      LeafOrder(c);
    } else if c.parent == Null {
      BelowOrder(c.current);
    } else if SecondIsNull(c.parent.kids) {
      BelowOrder(c.current);
      LabelsConcat([c.parent], Below(c.current).dropped);
      LabelOfOne(c.parent);
    } else {
      RotatedOrder(c.current, c.parent);
      BelowOrder(Rotated(c.current, c.parent));
    }
  }

  lemma {:induction false} RunOrder(c: Cursor)
    requires Good(c) && Binary(c.current) && Binary(c.parent)
    ensures Labels(Run(c)) == CursorOrder(c)
    decreases |Live(c)|, Phase(c), Spine(c.current)
  {
    if c.current.Node? {
      StepDecreases(c);
      StepOrder(c);
      RunOrder(Step(c).next);
      LabelsConcat(Step(c).dropped, Run(Step(c).next));
    }
  }

  /** The whole order for a binary tree. */
  lemma BinaryDropOrder(p: Ptr)
    requires Binary(p)
    ensures Labels(Run(Cursor(p, Null))) == DropOrder(p)
  {
    RunOrder(Cursor(p, Null));
  }

  /** Every node has no child or two. */
  ghost predicate FullBinary(p: Ptr) {
    p.Node? ==>
      (p.kids == [] || (|p.kids| == 2 && p.kids[0] != Null && p.kids[1] != Null)) &&
      forall i :: 0 <= i < |p.kids| ==> FullBinary(p.kids[i])
  }

  /** If no node has an only child, it is the in-order. */
  lemma {:induction false} FullBinaryInOrder(p: Ptr)
    requires FullBinary(p)
    ensures Binary(p) && DropOrder(p) == InOrder(p)
  {
    if p.Node? && p.kids != [] {
      FullBinaryInOrder(p.kids[0]);
      FullBinaryInOrder(p.kids[1]);
      InOrderOfBinary(p);
    }
  }

  // ----- No deletion of a node that still owns a child -----

  predicate Childless(p: Ptr) {
    p.Node? && forall i :: 0 <= i < |p.kids| ==> p.kids[i] == Null
  }

  ghost predicate AllChildless(ps: seq<Ptr>) {
    forall i :: 0 <= i < |ps| ==> Childless(ps[i])
  }

  predicate TailIsNull(kids: seq<Ptr>) {
    forall i :: 2 <= i < |kids| ==> kids[i] == Null
  }

  /** The shape on which the early deletion of a parent takes live
      grandchildren with it: an inner first child, no second child, and some
      later child. */
  predicate LosesTail(kids: seq<Ptr>) {
    kids != [] && kids[0].Node? && kids[0].kids != [] && SecondIsNull(kids) && !TailIsNull(kids)
  }

  /** No node has that shape; in particular, if a null or missing second child
      means everywhere that no later child is present. */
  ghost predicate Safe(p: Ptr) {
    p.Node? ==> !LosesTail(p.kids) && forall i :: 0 <= i < |p.kids| ==> Safe(p.kids[i])
  }

  ghost predicate SafeCursor(c: Cursor) {
    Safe(c.current) && Safe(c.parent) &&
    (c.current.Node? && c.current.kids != [] && c.parent.Node? && SecondIsNull(c.parent.kids) ==>
      TailIsNull(c.parent.kids))
  }

  lemma SafeNode(v: int, kids: seq<Ptr>)
    ensures Safe(Node(v, kids)) <==> !LosesTail(kids) && forall i :: 0 <= i < |kids| ==> Safe(kids[i])
    ensures Safe(Null)
  {
  }

  lemma CompactedIsSafe(v: int, kids: seq<Ptr>)
    requires forall i :: 0 <= i < |kids| ==> Safe(kids[i])
    ensures Safe(Node(v, AvoidSole(NonNull(kids))))
  {
    hide Safe;
    var few := NonNull(kids);
    forall i | 0 <= i < |few| ensures Safe(few[i]) {
      assert few[i] in kids;
    }
    hide NonNull;
    SafeNode(v, AvoidSole(few));
  }

  lemma EmptiedIsSafe(v: int, kids: seq<Ptr>)
    requires kids != [] && forall i :: 0 <= i < |kids| ==> Safe(kids[i])
    ensures Safe(Node(v, kids[0 := Null]))
  {
    hide Safe;
    SafeNode(v, kids[0 := Null]);
  }

  lemma BelowKeepsSafe(current: Ptr)
    requires current.Node? && current.kids != [] && Safe(current)
    ensures SafeCursor(Below(current).next) && AllChildless(Below(current).dropped)
  {
    hide Safe;
    var kids := current.kids;
    SafeNode(current.value, kids);
    if kids[0] != Null {
      EmptiedIsSafe(current.value, kids);
      assert LosesTail(kids) || !SecondIsNull(kids) || kids[0].kids == [] || TailIsNull(kids[0 := Null]);
    } else if |kids| != 2 {
      CompactedIsSafe(current.value, kids);
    }
  }

  lemma RotatedIsSafe(current: Ptr, parent: Ptr)
    requires current.Node? && current.kids != [] && Safe(current)
    requires parent.Node? && parent.kids != [] && !SecondIsNull(parent.kids) && Safe(parent)
    ensures Safe(Rotated(current, parent))
  {
    hide Safe;
    SafeNode(current.value, current.kids);
    SafeNode(parent.value, parent.kids);
    var below := Demoted(current.kids, parent);
    assert below.kids[1] == parent.kids[1];
    SafeNode(below.value, below.kids);
    SafeNode(current.value, Rotated(current, parent).kids);
  }

  lemma StepKeepsSafe(c: Cursor)
    requires Good(c) && c.current.Node? && SafeCursor(c)
    ensures SafeCursor(Step(c).next) && AllChildless(Step(c).dropped)
  {
    if c.current.kids != [] {
      if c.parent == Null || SecondIsNull(c.parent.kids) {
        BelowKeepsSafe(c.current);
      } else {
        RotatedIsSafe(c.current, c.parent);
        BelowKeepsSafe(Rotated(c.current, c.parent));
      }
    }
  }

  lemma {:induction false} SafeCursorNeverRecurses(c: Cursor)
    requires Good(c) && SafeCursor(c)
    ensures AllChildless(Run(c))
    decreases |Live(c)|, Phase(c), Spine(c.current)
  {
    if c.current.Node? {
      StepDecreases(c);
      StepKeepsSafe(c);
      SafeCursorNeverRecurses(Step(c).next);
    }
  }

  /** On safe trees every deleted node has lost all its children before. */
  lemma SafeRunNeverRecurses(p: Ptr)
    requires Safe(p)
    ensures AllChildless(Run(Cursor(p, Null)))
  {
    SafeCursorNeverRecurses(Cursor(p, Null));
  }

  lemma LosesTailRecurses(p: Ptr)
    requires p.Node? && LosesTail(p.kids)
    ensures !AllChildless(Run(Cursor(p, Null)))
  {
    var down := Cursor(p.kids[0], p.(kids := p.kids[0 := Null]));
    var i :| 2 <= i < |p.kids| && p.kids[i] != Null;
    assert down.parent.kids[i] != Null;
    assert Run(Cursor(p, Null)) == Run(down) by {
      StepDecreases(Cursor(p, Null));
    }
    assert Run(down)[0] == down.parent by {
      StepDecreases(down);
      assert Step(down).dropped[0] == down.parent;
    }
  }

  ghost predicate Within(q: Ptr, p: Ptr) {
    q == p || (p.Node? && exists i :: 0 <= i < |p.kids| && Within(q, p.kids[i]))
  }

  ghost predicate NeverRecursesBelow(p: Ptr) {
    forall q :: Within(q, p) ==> AllChildless(Run(Cursor(q, Null)))
  }

  lemma {:induction false} PartsAreSafe(q: Ptr, p: Ptr)
    requires Safe(p) && Within(q, p)
    ensures Safe(q)
    decreases p
  {
    if q != p {
      var i :| 0 <= i < |p.kids| && Within(q, p.kids[i]);
      PartsAreSafe(q, p.kids[i]);
    }
  }

  /** `destroy` deletes childless nodes only, on a tree and on all its subtrees,
      exactly if no node of the tree has the losing shape. */
  lemma {:induction false} ChildlessExactly(p: Ptr)
    ensures NeverRecursesBelow(p) <==> Safe(p)
  {
    if Safe(p) {
      forall q | Within(q, p) ensures AllChildless(Run(Cursor(q, Null))) {
        PartsAreSafe(q, p);
        SafeRunNeverRecurses(q);
      }
    } else if LosesTail(p.kids) {
      LosesTailRecurses(p);
      assert Within(p, p);
    } else {
      var i :| 0 <= i < |p.kids| && !Safe(p.kids[i]);
      ChildlessExactly(p.kids[i]);
      var q :| Within(q, p.kids[i]) && !AllChildless(Run(Cursor(q, Null)));
      assert Within(q, p);
    }
  }

  /** For one tree: given safe subtrees, it depends on the root alone. */
  lemma RootDecides(p: Ptr)
    requires p.Node? && forall i :: 0 <= i < |p.kids| ==> Safe(p.kids[i])
    ensures AllChildless(Run(Cursor(p, Null))) <==> !LosesTail(p.kids)
  {
    if LosesTail(p.kids) {
      LosesTailRecurses(p);
    } else {
      SafeRunNeverRecurses(p);
    }
  }

  /** A tree on which the comment "its children are nullptr" is wrong. */
  lemma LiveTailIsDropped()
    ensures var leaf := Node(4, []);
      !AllChildless(Run(Cursor(Node(1, [Node(2, [Node(3, [])]), Null, leaf]), Null)))
  {
    var p := Node(1, [Node(2, [Node(3, [])]), Null, Node(4, [])]);
    assert p.kids[2] != Null;
    LosesTailRecurses(p);
  }

  /** The rotating branch of the loop body, on the two child vectors. */
  method Rotate(current: Ptr, parent: Ptr) returns (r: Ptr)
    requires current.Node? && current.kids != []
    requires parent.Node? && |parent.kids| > 1 && parent.kids[0] == Null && parent.kids[1] != Null
    ensures r == Rotated(current, parent) && r.Node? && r.kids != []
  {
    var kids, pkids := current.kids, parent.kids;
    if |kids| > 2 {
      pkids := pkids + kids[2..];
      kids := kids[..2] + seq(|kids| - 2, _ => Null);
    }
    assert pkids == parent.kids + Late(current.kids);
    assert kids == Early(current.kids);
    kids := AvoidSole(kids);
    pkids := pkids[0 := kids[1]];
    kids := kids[1 := Node(parent.value, pkids)];
    r := Node(current.value, kids);
  }

  /** The rest of the loop body, entered with a null parent. */
  method GoDown(node: Ptr, dropped: seq<Ptr>) returns (current: Ptr, parent: Ptr, log: seq<Ptr>)
    requires node.Node? && node.kids != []
    ensures Cursor(current, parent) == Below(node).next
    ensures log == dropped + Below(node).dropped
  {
    current, parent, log := node, Null, dropped;
    if current.kids[0] != Null {
      parent := current.(kids := current.kids[0 := Null]);
      current := node.kids[0];
    } else if |current.kids| == 2 {
      log := log + [current.(kids := current.kids[1 := Null])];
      current := current.kids[1];
    } else {
      current := current.(kids := AvoidSole(NonNull(current.kids)));
    }
  }

  /** `destroy`; `log` records the pointers dropped.  The two `assert`s of the
      source hold in every iteration. */
  method Destroy(ptr: Ptr) returns (log: seq<Ptr>)
    ensures log == Run(Cursor(ptr, Null))
    ensures ValuesAll(log) == Values(ptr)
    ensures Safe(ptr) ==> AllChildless(log)
  {
    hide Values, ValuesAll, Phase, Spine, Safe, Childless, Rotated, NonNull;
    var current, parent := ptr, Null;
    log := [];
    while current.Node?
      invariant Good(Cursor(current, parent))
      invariant log + Run(Cursor(current, parent)) == Run(Cursor(ptr, Null))
      decreases |Live(Cursor(current, parent))|, Phase(Cursor(current, parent)), Spine(current)
    {
      ghost var before, log0 := Cursor(current, parent), log;
      StepDecreases(before);
      if current.kids == [] {
        log := log + [current];
        current, parent := parent, Null;
      } else {
        if parent.Node? {
          assert |parent.kids| > 0 && parent.kids[0] == Null;
          if |parent.kids| > 1 && parent.kids[1] != Null {
            current := Rotate(current, parent);
            parent := Null;
          } else {
            log := log + [parent];
            parent := Null;
          }
        }
        assert parent == Null;
        current, parent, log := GoDown(current, log);
      }
      Resume(before, log0, Cursor(current, parent), log);
    }
    assert Live(Cursor(ptr, Null)) == Values(ptr) by {
      NullOwnsNothing();
    }
    RunDropsEachNodeOnce(Cursor(ptr, Null));
    if Safe(ptr) {
      SafeRunNeverRecurses(ptr);
    }
  }

  lemma NullOwnsNothing()
    ensures Values(Null) == multiset{}
  {
  }

  lemma Resume(before: Cursor, log0: seq<Ptr>, after: Cursor, log: seq<Ptr>)
    requires Good(before) && before.current.Node?
    requires after == Step(before).next && log == log0 + Step(before).dropped
    ensures log + Run(after) == log0 + Run(before)
  {
    StepDecreases(before);
    assert Run(before) == Step(before).dropped + Run(after);
  }
}
