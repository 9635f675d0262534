/** The three tree iterators.  `Pending` is the sequence of labels still to be
    visited after the current node; every `++` consumes exactly its head. */
module TreeIterators {
  import opened Trees
  import opened TreeOrders

  // ----- in_order_iteration -----

  /** A stack entry: the node itself while it is still to be visited, and the
      range [next, end) of its remaining children. */
  datatype Frame = Frame(curr: Ptr, kids: seq<Ptr>, next: nat)

  ghost predicate FramesOk(stack: seq<Frame>) {
    forall i :: 0 <= i < |stack| ==> stack[i].next <= |stack[i].kids|
  }

  ghost function FrameOrder(f: Frame): seq<int>
    requires f.next <= |f.kids|
  {
    (if f.curr == Null then [] else [f.curr.value]) + InOrderAll(f.kids[f.next..])
  }

  /** What the stack denotes, from its top (the last entry) to its bottom. */
  ghost function StackOrder(stack: seq<Frame>): seq<int>
    requires FramesOk(stack)
  {
    if stack == [] then []
    else FrameOrder(stack[|stack| - 1]) + StackOrder(stack[..|stack| - 1])
  }

  lemma LabelsOfOne(p: Ptr)
    ensures Labels([p]) == if p == Null then [] else [p.value]
  {
    assert [p][1..] == [];
  }

  lemma StackPush(stack: seq<Frame>, f: Frame)
    requires FramesOk(stack) && f.next <= |f.kids|
    ensures StackOrder(stack + [f]) == FrameOrder(f) + StackOrder(stack)
  {
    assert (stack + [f])[..|stack|] == stack;
  }

  lemma PushWithNode(stack: seq<Frame>, p: Ptr)
    requires FramesOk(stack) && p.Node? && p.kids != []
    ensures InOrder(p) + StackOrder(stack) == InOrder(p.kids[0]) + StackOrder(stack + [Frame(p, p.kids, 1)])
  {
    StackPush(stack, Frame(p, p.kids, 1));
    hide StackOrder, InOrderAll;
  }

  lemma PushRest(stack: seq<Frame>, p: Ptr)
    requires FramesOk(stack) && p.Node? && p.kids != [] && p.kids[0] == Null
    ensures InOrder(p) + StackOrder(stack) == [p.value] + StackOrder(stack + [Frame(Null, p.kids, 1)])
  {
    StackPush(stack, Frame(Null, p.kids, 1));
    hide StackOrder, InOrderAll;
    assert InOrder(Null) == [];
  }

  lemma VisitTop(below: seq<Frame>, f: Frame)
    requires FramesOk(below) && f.next <= |f.kids| && f.curr.Node?
    ensures StackOrder(below + [f]) == [f.curr.value] + StackOrder(below + [f.(curr := Null)])
  {
    StackPush(below, f);
    StackPush(below, f.(curr := Null));
    FrameParts(f);
    FrameParts(f.(curr := Null));
    hide StackOrder, FrameOrder, InOrderAll, FramesOk;
    Regroup([f.curr.value], InOrderAll(f.kids[f.next..]), StackOrder(below));
  }

  lemma FrameParts(f: Frame)
    requires f.next <= |f.kids|
    ensures f.curr == Null ==> FrameOrder(f) == InOrderAll(f.kids[f.next..])
    ensures f.curr.Node? ==> FrameOrder(f) == [f.curr.value] + InOrderAll(f.kids[f.next..])
  {
    hide InOrderAll;
  }

  lemma RestOrder(kids: seq<Ptr>, next: nat)
    requires next < |kids|
    ensures InOrderAll(kids[next..]) == InOrder(kids[next]) + InOrderAll(kids[next + 1..])
  {
    hide InOrder;
    assert kids[next..][1..] == kids[next + 1..];
  }

  lemma TakeChild(below: seq<Frame>, f: Frame)
    requires FramesOk(below) && f.next < |f.kids| && f.curr == Null
    ensures StackOrder(below + [f]) == InOrder(f.kids[f.next]) + StackOrder(below + [f.(next := f.next + 1)])
  {
    var g := f.(next := f.next + 1);
    StackPush(below, f);
    StackPush(below, g);
    FrameParts(f);
    FrameParts(g);
    RestOrder(f.kids, f.next);
    hide StackOrder, FrameOrder, InOrderAll, InOrder, FramesOk;
    Regroup(InOrder(f.kids[f.next]), InOrderAll(f.kids[g.next..]), StackOrder(below));
  }

  lemma Regroup(a: seq<int>, b: seq<int>, c: seq<int>)
    ensures (a + b) + c == a + (b + c)
  {
  }

  lemma NothingLeft()
    ensures StackOrder([]) == [] && InOrder(Null) == []
  {
  }

  lemma LeafInOrder(p: Ptr)
    requires p.Node? && p.kids == []
    ensures InOrder(p) == [p.value]
  {
  }

  lemma DropTop(below: seq<Frame>, f: Frame)
    requires FramesOk(below) && f.next == |f.kids| && f.curr == Null
    ensures StackOrder(below + [f]) == StackOrder(below)
  {
    StackPush(below, f);
  }

  class InOrderIterator {
    var stack: seq<Frame>
    var current: Ptr

    ghost predicate Valid()
      reads this
    {
      FramesOk(stack)
    }

    /** The labels to be visited after the current node. */
    ghost function Pending(): seq<int>
      reads this
      requires Valid()
    {
      StackOrder(stack)
    }

    constructor (root: Ptr)
      requires root.Node?
      ensures Valid() && current.Node?
      ensures [current.value] + Pending() == InOrder(root)
    {
      stack, current := [], root;
      new;
      current := FindLeftmostChild(root);
    }

    method FindLeftmostChild(root: Ptr) returns (curr: Ptr)
      requires Valid() && root.Node?
      modifies this`stack
      ensures Valid() && curr.Node?
      ensures [curr.value] + Pending() == InOrder(root) + old(Pending())
    {
      hide InOrder, StackOrder;
      curr := root;
      while true
        invariant Valid() && curr.Node?
        invariant InOrder(curr) + Pending() == InOrder(root) + old(Pending())
        decreases curr
      {
        if curr.kids == [] {
          LeafInOrder(curr);
          break;
        }
        var leftChild := curr.kids[0];
        if leftChild.Node? {
          PushWithNode(stack, curr);
          stack := stack + [Frame(curr, curr.kids, 1)];
          curr := leftChild;
        } else {
          PushRest(stack, curr);
          stack := stack + [Frame(Null, curr.kids, 1)];
          break;
        }
      }
    }

    /** `operator++` */
    method Next()
      requires Valid() && current.Node?
      modifies this
      ensures Valid()
      ensures old(Pending()) == [] ==> current == Null && Pending() == []
      ensures old(Pending()) != [] ==>
        current.Node? && old(Pending()) == [current.value] + Pending()
    {
      NothingLeft();
      hide StackOrder, InOrder;
      while true
        invariant Valid() && Pending() == old(Pending())
        decreases |stack|
      {
        if stack == [] {
          current := Null;
          return;
        }
        var below, top := stack[..|stack| - 1], stack[|stack| - 1];
        assert stack == below + [top];
        if top.curr.Node? {
          VisitTop(below, top);
          current := top.curr;
          stack := below + [top.(curr := Null)];
          return;
        }
        while top.next != |top.kids|
          invariant Valid() && top.next <= |top.kids| && top.curr == Null
          invariant stack == below + [top]
          invariant Pending() == old(Pending())
          decreases |top.kids| - top.next
        {
          var child := top.kids[top.next];
          TakeChild(below, top);
          top := top.(next := top.next + 1);
          stack := below + [top];
          if child.Node? {
            current := FindLeftmostChild(child);
            return;
          }
        }
        DropTop(below, top);
        stack := below;
      }
    }
  }

  /** The loop `for (auto& node : traverse<in_order_iteration>(root))`. */
  method TraverseInOrder(root: Ptr) returns (visited: seq<int>)
    requires root.Node?
    ensures visited == InOrder(root)
  {
    NothingLeft();
    hide InOrder, StackOrder;
    var it := new InOrderIterator(root);
    visited := [];
    while it.current.Node?
      invariant it.Valid() && fresh(it)
      invariant it.current.Node? ==> visited + [it.current.value] + it.Pending() == InOrder(root)
      invariant it.current == Null ==> visited == InOrder(root)
      decreases if it.current == Null then 0 else 1 + |it.Pending()|
    {
      visited := visited + [it.current.value];
      it.Next();
    }
  }

  // ----- depth_first_iteration -----

  datatype Range = Range(kids: seq<Ptr>, next: nat)

  ghost predicate RangesOk(stack: seq<Range>) {
    forall i :: 0 <= i < |stack| ==> stack[i].next <= |stack[i].kids|
  }

  ghost function RangeOrder(stack: seq<Range>): seq<int>
    requires RangesOk(stack)
  {
    if stack == [] then []
    else
      var top := stack[|stack| - 1];
      PreOrderAll(top.kids[top.next..]) + RangeOrder(stack[..|stack| - 1])
  }

  lemma RangePush(below: seq<Range>, r: Range)
    requires RangesOk(below) && r.next <= |r.kids|
    ensures RangeOrder(below + [r]) == PreOrderAll(r.kids[r.next..]) + RangeOrder(below)
  {
    assert (below + [r])[..|below|] == below;
  }

  lemma RestPreOrder(kids: seq<Ptr>, next: nat)
    requires next < |kids|
    ensures PreOrderAll(kids[next..]) == PreOrder(kids[next]) + PreOrderAll(kids[next + 1..])
  {
    hide PreOrder;
    assert kids[next..][1..] == kids[next + 1..];
  }

  lemma RangeStep(below: seq<Range>, r: Range)
    requires RangesOk(below) && r.next < |r.kids|
    ensures RangeOrder(below + [r]) == PreOrder(r.kids[r.next]) + RangeOrder(below + [r.(next := r.next + 1)])
  {
    RangePush(below, r);
    RangePush(below, r.(next := r.next + 1));
    RestPreOrder(r.kids, r.next);
    hide RangeOrder, PreOrderAll, PreOrder, RangesOk;
    Regroup(PreOrder(r.kids[r.next]), PreOrderAll(r.kids[r.next + 1..]), RangeOrder(below));
  }

  lemma NodeFirst(p: Ptr)
    requires p.Node?
    ensures PreOrder(p) == [p.value] + PreOrderAll(p.kids)
    ensures PreOrder(Null) == [] && RangeOrder([]) == []
  {
  }

  class DepthFirstIterator {
    var current: Ptr
    var stack: seq<Range>

    ghost predicate Valid()
      reads this
    {
      RangesOk(stack) && (current == Null ==> stack == [])
    }

    /** The labels still to be visited, the current node's included. */
    ghost function Remaining(): seq<int>
      reads this
      requires Valid()
    {
      PreOrder(current) + RangeOrder(stack)
    }

    constructor (root: Ptr)
      requires root.Node?
      ensures Valid() && current == root
      ensures Remaining() == PreOrder(root)
    {
      current, stack := root, [];
    }

    /** `operator++` */
    method Next()
      requires Valid() && current.Node?
      modifies this
      ensures Valid()
      ensures old(Remaining()) == [old(current.value)] + Remaining()
      ensures current == Null ==> Remaining() == []
    {
      hide PreOrder, RangeOrder;
      ghost var node, below := current, stack;
      NodeFirst(node);
      if current.kids != [] {
        stack := stack + [Range(current.kids, 0)];
      }
      assert RangeOrder(stack) == PreOrderAll(node.kids) + RangeOrder(below) by {
        RangePush(below, Range(node.kids, 0));
        assert node.kids[0..] == node.kids;
      }
      FindNext();
    }

    /** The `for (;;)` of `operator++`. */
    method FindNext()
      requires RangesOk(stack)
      modifies this
      ensures Valid()
      ensures Remaining() == old(RangeOrder(stack))
    {
      while true
        invariant RangesOk(stack) && RangeOrder(stack) == old(RangeOrder(stack))
        decreases |stack|, if stack == [] then 0 else |stack[|stack| - 1].kids| - stack[|stack| - 1].next
      {
        if stack == [] {
          current := Null;
          break;
        }
        var below, top := stack[..|stack| - 1], stack[|stack| - 1];
        assert stack == below + [top];
        if top.next != |top.kids| {
          TakeNext(below, top);
          if current.Node? {
            break;
          }
        } else {
          RangePush(below, top);
          stack := below;
        }
      }
    }

    /** The child at `next` becomes current, null or not. */
    method TakeNext(ghost below: seq<Range>, top: Range)
      requires RangesOk(below) && top.next < |top.kids| && stack == below + [top]
      modifies this
      ensures current == top.kids[top.next] && stack == below + [top.(next := top.next + 1)]
      ensures RangesOk(stack) && PreOrder(current) + RangeOrder(stack) == old(RangeOrder(stack))
    {
      RangeStep(below, top);
      current := top.kids[top.next];
      stack := stack[..|stack| - 1] + [top.(next := top.next + 1)];
    }
  }

  method TraverseDepthFirst(root: Ptr) returns (visited: seq<int>)
    requires root.Node?
    ensures visited == PreOrder(root)
  {
    NodeFirst(root);
    hide PreOrder, RangeOrder;
    var it := new DepthFirstIterator(root);
    visited := [];
    while it.current.Node?
      invariant it.Valid() && fresh(it)
      invariant visited + it.Remaining() == PreOrder(root)
      decreases |it.Remaining()|
    {
      visited := visited + [it.current.value];
      it.Next();
    }
    assert it.Remaining() == [];
  }

  // ----- breadth_first_iteration -----

  ghost function NonNullOf(ps: seq<Ptr>): (r: seq<Ptr>)
    ensures forall i :: 0 <= i < |r| ==> r[i].Node?
  {
    if ps == [] then [] else (if ps[0] == Null then [] else [ps[0]]) + NonNullOf(ps[1..])
  }

  ghost predicate AllNodes(ps: seq<Ptr>) {
    forall i :: 0 <= i < |ps| ==> ps[i].Node?
  }

  ghost function ChildrenOf(level: seq<Ptr>): (r: seq<Ptr>)
    requires AllNodes(level)
    ensures AllNodes(r)
  {
    if level == [] then [] else NonNullOf(level[0].kids) + ChildrenOf(level[1..])
  }

  lemma {:induction false} ChildrenConcat(a: seq<Ptr>, b: seq<Ptr>)
    requires AllNodes(a) && AllNodes(b)
    ensures ChildrenOf(a + b) == ChildrenOf(a) + ChildrenOf(b)
  {
    if a == [] {
      assert a + b == b;
    } else {
      assert (a + b)[1..] == a[1..] + b;
      ChildrenConcat(a[1..], b);
    }
  }

  lemma {:induction false} DepthZero(ps: seq<Ptr>)
    ensures AtDepthAll(ps, 0) == NonNullOf(ps)
  {
    if ps != [] {
      DepthZero(ps[1..]);
    }
  }

  /** Each level is made of the children of the level above, in order. */
  lemma {:induction false} NextDepth(p: Ptr, d: nat)
    ensures AtDepth(p, d + 1) == ChildrenOf(AtDepth(p, d))
    decreases p, 1
  {
    if p.Node? {
      if d == 0 {
        DepthZero(p.kids);
        assert ChildrenOf([p][1..]) == [];
      } else {
        NextDepthAll(p.kids, d - 1);
      }
    }
  }

  lemma {:induction false} NextDepthAll(ps: seq<Ptr>, d: nat)
    ensures AtDepthAll(ps, d + 1) == ChildrenOf(AtDepthAll(ps, d))
    decreases ps, 0
  {
    if ps != [] {
      NextDepth(ps[0], d);
      NextDepthAll(ps[1..], d);
      ChildrenConcat(AtDepth(ps[0], d), AtDepthAll(ps[1..], d));
    }
  }

  ghost function Height(p: Ptr): nat
    decreases p, 1
  {
    if p == Null then 0 else 1 + HeightAll(p.kids)
  }

  ghost function HeightAll(ps: seq<Ptr>): nat
    decreases ps, 0
  {
    if ps == [] then 0
    else if Height(ps[0]) > HeightAll(ps[1..]) then Height(ps[0]) else HeightAll(ps[1..])
  }

  lemma {:induction false} LevelsEndAtHeight(p: Ptr, d: nat)
    ensures AtDepth(p, d) != [] <==> d < Height(p)
    decreases p, 1
  {
    if p.Node? && d > 0 {
      LevelsEndAtHeightAll(p.kids, d - 1);
    }
  }

  lemma {:induction false} LevelsEndAtHeightAll(ps: seq<Ptr>, d: nat)
    ensures AtDepthAll(ps, d) != [] <==> d < HeightAll(ps)
    decreases ps, 0
  {
    if ps != [] {
      LevelsEndAtHeight(ps[0], d);
      LevelsEndAtHeightAll(ps[1..], d);
    }
  }

  /** The levels from depth `d` downwards, one after the other. */
  ghost function LevelsFrom(root: Ptr, d: nat): seq<int>
    decreases Height(root) - d
  {
    if d >= Height(root) then [] else Labels(AtDepth(root, d)) + LevelsFrom(root, d + 1)
  }

  /** The labels at the first `n` depths of a tree, and of a forest. */
  ghost function Upper(p: Ptr, n: nat): multiset<int> {
    if n == 0 then multiset{} else Upper(p, n - 1) + multiset(Labels(AtDepth(p, n - 1)))
  }

  ghost function UpperAll(ps: seq<Ptr>, n: nat): multiset<int> {
    if n == 0 then multiset{} else UpperAll(ps, n - 1) + multiset(Labels(AtDepthAll(ps, n - 1)))
  }

  lemma AtDepthSplits(ps: seq<Ptr>, d: nat)
    requires ps != []
    ensures AtDepthAll(ps, d) == AtDepth(ps[0], d) + AtDepthAll(ps[1..], d)
  {
  }

  lemma UpperUnfolds(p: Ptr, ps: seq<Ptr>, n: nat)
    ensures Upper(p, n + 1) == Upper(p, n) + multiset(Labels(AtDepth(p, n)))
    ensures UpperAll(ps, n + 1) == UpperAll(ps, n) + multiset(Labels(AtDepthAll(ps, n)))
    ensures Upper(p, 0) == UpperAll(ps, 0) == multiset{}
  {
    hide AtDepth, AtDepthAll, Labels;
  }

  lemma {:induction false} UpperSplits(ps: seq<Ptr>, n: nat)
    requires ps != []
    ensures UpperAll(ps, n) == Upper(ps[0], n) + UpperAll(ps[1..], n)
    decreases n
  {
    hide AtDepth, AtDepthAll, Labels, Upper, UpperAll;
    UpperUnfolds(ps[0], ps, 0);
    UpperUnfolds(ps[0], ps[1..], 0);
    if n > 0 {
      UpperSplits(ps, n - 1);
      UpperUnfolds(ps[0], ps, n - 1);
      UpperUnfolds(ps[0], ps[1..], n - 1);
      AtDepthSplits(ps, n - 1);
      LabelsConcat(AtDepth(ps[0], n - 1), AtDepthAll(ps[1..], n - 1));
    }
  }

  lemma RootFirst(p: Ptr)
    requires p.Node?
    ensures Labels(AtDepth(p, 0)) == [p.value]
    ensures forall n: nat :: AtDepth(p, n + 1) == AtDepthAll(p.kids, n)
  {
    LabelsOfOne(p);
  }

  lemma {:induction false} UpperBelowRoot(p: Ptr, n: nat)
    requires p.Node?
    ensures Upper(p, n + 1) == multiset{p.value} + UpperAll(p.kids, n)
    decreases n
  {
    hide AtDepth, AtDepthAll, Labels, Upper, UpperAll;
    RootFirst(p);
    UpperUnfolds(p, p.kids, n);
    if n == 0 {
      UpperUnfolds(p, p.kids, 0);
    } else {
      UpperUnfolds(p, p.kids, n - 1);
      assert AtDepth(p, (n - 1) + 1) == AtDepthAll(p.kids, n - 1);
      UpperBelowRoot(p, n - 1);
    }
  }

  lemma {:induction false} NothingOfNull(n: nat)
    ensures Upper(Null, n) == multiset{} && UpperAll([], n) == multiset{}
    decreases n
  {
    if n > 0 {
      NothingOfNull(n - 1);
    }
  }

  lemma {:induction false} UpperIsAll(p: Ptr, n: nat)
    requires Height(p) <= n
    ensures Upper(p, n) == Values(p)
    decreases p, 1
  {
    hide Upper, UpperAll;
    if p == Null {
      NothingOfNull(n);
    } else {
      UpperBelowRoot(p, n - 1);
      UpperAllIsAll(p.kids, n - 1);
    }
  }

  lemma {:induction false} UpperAllIsAll(ps: seq<Ptr>, n: nat)
    requires HeightAll(ps) <= n
    ensures UpperAll(ps, n) == ValuesAll(ps)
    decreases ps, 0
  {
    if ps == [] {
      NothingOfNull(n);
    } else {
      UpperSplits(ps, n);
      UpperIsAll(ps[0], n);
      UpperAllIsAll(ps[1..], n);
    }
  }

  lemma OneLevelMore(root: Ptr, d: nat)
    requires d < Height(root)
    ensures Upper(root, d + 1) == Upper(root, d) + multiset(Labels(AtDepth(root, d)))
    ensures multiset(LevelsFrom(root, d)) ==
      multiset(Labels(AtDepth(root, d))) + multiset(LevelsFrom(root, d + 1))
  {
    hide AtDepth, Labels, Height;
  }

  lemma {:induction false} UpperAndRest(root: Ptr, d: nat)
    requires d <= Height(root)
    ensures Upper(root, d) + multiset(LevelsFrom(root, d)) == Upper(root, Height(root))
    decreases Height(root) - d
  {
    hide AtDepth, Labels, Height, Upper;
    if d == Height(root) {
      assert LevelsFrom(root, d) == [];
    } else {
      hide LevelsFrom;
      OneLevelMore(root, d);
      UpperAndRest(root, d + 1);
    }
  }

  /** The breadth-first order lists every node exactly once. */
  lemma LevelsListAll(root: Ptr)
    ensures multiset(LevelsFrom(root, 0)) == Values(root)
  {
    UpperAndRest(root, 0);
    UpperIsAll(root, Height(root));
  }

  lemma NextLevel(root: Ptr, d: nat)
    ensures var next := ChildrenOf(AtDepth(root, d));
      next == AtDepth(root, d + 1) &&
      LevelsFrom(root, d + 1) == Labels(next) + LevelsFrom(root, d + 2) &&
      (next == [] ==> LevelsFrom(root, d + 1) == []) && ChildrenOf([]) == []
  {
    hide AtDepth;
    NextDepth(root, d);
    LevelsEndAtHeight(root, d + 1);
  }

  class BreadthFirstIterator {
    var thisLevel: seq<Ptr>
    var nextLevel: seq<Ptr>
    var current: nat

    ghost const root: Ptr
    ghost var depth: nat

    ghost predicate Valid()
      reads this
    {
      thisLevel == AtDepth(root, depth) &&
      (thisLevel == [] ==> current == 0) &&
      (thisLevel != [] ==> current < |thisLevel|) &&
      nextLevel == ChildrenOf(thisLevel[..current])
    }

    /** The labels still to be visited, the current node's included. */
    ghost function Remaining(): seq<int>
      reads this
      requires Valid()
    {
      Labels(thisLevel[current..]) + LevelsFrom(root, depth + 1)
    }

    predicate Empty()
      reads this
    {
      current == |thisLevel|
    }

    constructor (root: Ptr)
      requires root.Node?
      ensures Valid() && !Empty()
      ensures Remaining() == LevelsFrom(root, 0)
    {
      this.root := root;
      thisLevel, nextLevel, current, depth := [root], [], 0, 0;
    }

    /** `operator++` */
    method Next()
      requires Valid() && !Empty()
      modifies this
      ensures Valid()
      ensures old(Remaining()) == [old(thisLevel[current].value)] + Remaining()
      ensures Empty() ==> Remaining() == []
    {
      hide LevelsFrom, AtDepth, ChildrenOf, NonNullOf, Labels;
      assert ChildrenOf(thisLevel[..current]) == nextLevel;
      var node := thisLevel[current];
      PushChildren(node);
      CurrentLeaves(thisLevel, current);
      current := current + 1;
      ghost var rest := Labels(thisLevel[current..]);
      assert old(Remaining()) == [node.value] + (rest + LevelsFrom(root, depth + 1));
      assert nextLevel == ChildrenOf(thisLevel[..current]);
      if current == |thisLevel| {
        assert rest == [];
        StartLevel();
      } else {
        assert Remaining() == rest + LevelsFrom(root, depth + 1);
      }
    }

    method StartLevel()
      requires thisLevel == AtDepth(root, depth) && nextLevel == ChildrenOf(thisLevel)
      modifies this
      ensures Valid()
      ensures Remaining() == LevelsFrom(root, old(depth) + 1)
      ensures Empty() ==> Remaining() == []
    {
      NextLevel(root, depth);
      hide AtDepth, LevelsFrom, ChildrenOf, Labels;
      thisLevel, nextLevel, current := nextLevel, [], 0;
      depth := depth + 1;
      assert thisLevel[0..] == thisLevel;
      assert thisLevel[..0] == [];
    }

    /** Appends the non-null children of the current node to the next level. */
    method PushChildren(node: Ptr)
      requires node.Node?
      modifies this`nextLevel
      ensures nextLevel == old(nextLevel) + NonNullOf(node.kids)
    {
      var i := 0;
      while i < |node.kids|
        invariant i <= |node.kids|
        invariant nextLevel == old(nextLevel) + NonNullOf(node.kids[..i])
      {
        NonNullSnoc(node.kids[..i], node.kids[i]);
        assert node.kids[..i + 1] == node.kids[..i] + [node.kids[i]];
        if node.kids[i] != Null {
          nextLevel := nextLevel + [node.kids[i]];
        }
        i := i + 1;
      }
      assert node.kids[..i] == node.kids;
    }
  }

  lemma CurrentLeaves(level: seq<Ptr>, i: nat)
    requires AllNodes(level) && i < |level|
    ensures ChildrenOf(level[..i + 1]) == ChildrenOf(level[..i]) + NonNullOf(level[i].kids)
    ensures Labels(level[i..]) == [level[i].value] + Labels(level[i + 1..])
    ensures i + 1 == |level| ==> level[..i + 1] == level && Labels(level[i + 1..]) == []
  {
    assert level[..i + 1] == level[..i] + [level[i]];
    assert ChildrenOf([level[i]]) == NonNullOf(level[i].kids) + ChildrenOf([level[i]][1..]);
    ChildrenConcat(level[..i], [level[i]]);
    assert level[i..][1..] == level[i + 1..];
  }

  lemma {:induction false} NonNullSnoc(ps: seq<Ptr>, p: Ptr)
    ensures NonNullOf(ps + [p]) == NonNullOf(ps) + if p == Null then [] else [p]
  {
    if ps != [] {
      assert (ps + [p])[1..] == ps[1..] + [p];
      NonNullSnoc(ps[1..], p);
    }
  }

  method TraverseBreadthFirst(root: Ptr) returns (visited: seq<int>)
    requires root.Node?
    ensures visited == LevelsFrom(root, 0)
  {
    hide LevelsFrom, AtDepth, ChildrenOf, Labels;
    var it := new BreadthFirstIterator(root);
    visited := [];
    while !it.Empty()
      invariant it.Valid() && fresh(it)
      invariant visited + it.Remaining() == LevelsFrom(root, 0)
      invariant it.Empty() ==> it.Remaining() == []
      decreases |it.Remaining()|
    {
      visited := visited + [it.thisLevel[it.current].value];
      it.Next();
    }
  }
}
