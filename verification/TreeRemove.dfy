/** `tree::remove_children`: deletion of all descendants of a node through one
    pointer into the tree, without recursion and without extra space. */
module TreeRemove {
  import opened Trees
  import opened TreeOrders

  /** `children_ptr` always lies on the chain of last children of the root; it
      is represented by its depth on that chain. */
  predicate OnChain(kids: seq<Ptr>, depth: nat) {
    depth == 0 || (kids != [] && kids[|kids| - 1].Node? && OnChain(kids[|kids| - 1].kids, depth - 1))
  }

  /** `*children_ptr` */
  function At(kids: seq<Ptr>, depth: nat): seq<Ptr>
    requires OnChain(kids, depth)
  {
    if depth == 0 then kids else At(kids[|kids| - 1].kids, depth - 1)
  }

  /** The tree after `children_ptr->pop_back()`. */
  function PopAt(kids: seq<Ptr>, depth: nat): seq<Ptr>
    requires OnChain(kids, depth) && At(kids, depth) != []
  {
    var n := |kids| - 1;
    if depth == 0 then kids[..n]
    else kids[n := Node(kids[n].value, PopAt(kids[n].kids, depth - 1))]
  }

  /** The number of child slots, null or not. */
  ghost function Slots(kids: seq<Ptr>): nat {
    if kids == [] then 0
    else 1 + (if kids[0] == Null then 0 else Slots(kids[0].kids)) + Slots(kids[1..])
  }

  lemma {:induction false} SlotsSnoc(kids: seq<Ptr>, p: Ptr)
    ensures Slots(kids + [p]) == Slots(kids) + 1 + if p == Null then 0 else Slots(p.kids)
  {
    if kids != [] {
      assert (kids + [p])[1..] == kids[1..] + [p];
      SlotsSnoc(kids[1..], p);
    }
  }

  lemma {:induction false} PreOrderSnoc(kids: seq<Ptr>, p: Ptr)
    ensures PreOrderAll(kids + [p]) == PreOrderAll(kids) + PreOrder(p)
  {
    PreOrderConcat(kids, [p]);
    assert PreOrderAll([p]) == PreOrder(p) + PreOrderAll([p][1..]);
  }

  /** Popping a childless entry removes exactly the end of the pre-order. */
  lemma {:induction false} PopRemovesLast(kids: seq<Ptr>, depth: nat)
    requires OnChain(kids, depth) && At(kids, depth) != []
    requires var last := At(kids, depth)[|At(kids, depth)| - 1]; last == Null || last.kids == []
    ensures var last := At(kids, depth)[|At(kids, depth)| - 1];
      PreOrderAll(kids) == PreOrderAll(PopAt(kids, depth)) + PreOrder(last)
    ensures OnChain(PopAt(kids, depth), depth)
    ensures Slots(kids) == Slots(PopAt(kids, depth)) + 1
    decreases depth
  {
    var n := |kids| - 1;
    assert kids == kids[..n] + [kids[n]];
    PreOrderSnoc(kids[..n], kids[n]);
    SlotsSnoc(kids[..n], kids[n]);
    if depth > 0 {
      PopRemovesLast(kids[n].kids, depth - 1);
      var p := Node(kids[n].value, PopAt(kids[n].kids, depth - 1));
      assert PopAt(kids, depth) == kids[..n] + [p];
      PreOrderSnoc(kids[..n], p);
      SlotsSnoc(kids[..n], p);
    }
  }

  lemma {:induction false} ChainExtends(kids: seq<Ptr>, depth: nat)
    requires OnChain(kids, depth) && At(kids, depth) != []
    requires At(kids, depth)[|At(kids, depth)| - 1].Node?
    ensures OnChain(kids, depth + 1)
    ensures At(kids, depth + 1) == At(kids, depth)[|At(kids, depth)| - 1].kids
  {
    if depth > 0 {
      ChainExtends(kids[|kids| - 1].kids, depth - 1);
    }
  }

  ghost function Reversed(s: seq<int>): seq<int> {
    if s == [] then [] else Reversed(s[1..]) + [s[0]]
  }

  lemma {:induction false} ReversedConcat(a: seq<int>, b: seq<int>)
    ensures Reversed(a + b) == Reversed(b) + Reversed(a)
  {
    if a == [] {
      assert a + b == b;
    } else {
      assert (a + b)[1..] == a[1..] + b;
      ReversedConcat(a[1..], b);
    }
  }

  function Last(ps: seq<Ptr>): Ptr
    requires ps != []
  {
    ps[|ps| - 1]
  }

  /** What holds between two pops: `popped` took the end of the pre-order of
      `p`, childless entry by childless entry, and `kids` is what is left. */
  ghost predicate Progress(p: Ptr, kids: seq<Ptr>, popped: seq<Ptr>)
    requires p.Node?
  {
    (forall i :: 0 <= i < |popped| ==> popped[i] == Null || popped[i].kids == []) &&
    |popped| + Slots(kids) == Slots(p.kids) &&
    Labels(popped) + Reversed(PreOrderAll(kids)) == Reversed(PreOrderAll(p.kids))
  }

  lemma LeafOrder(p: Ptr)
    requires p == Null || p.kids == []
    ensures Labels([p]) == Reversed(PreOrder(p))
  {
    assert [p][1..] == [];
    if p.Node? {
      assert PreOrder(p) == [p.value];
    }
  }

  lemma PopProgresses(p: Ptr, kids: seq<Ptr>, depth: nat, popped: seq<Ptr>)
    requires p.Node? && Progress(p, kids, popped)
    requires OnChain(kids, depth) && At(kids, depth) != []
    requires Last(At(kids, depth)) == Null || Last(At(kids, depth)).kids == []
    ensures Progress(p, PopAt(kids, depth), popped + [Last(At(kids, depth))])
  {
    var last, rest := Last(At(kids, depth)), PopAt(kids, depth);
    PopRemovesLast(kids, depth);
    hide At, PopAt, OnChain, Slots, PreOrderAll, PreOrder, Labels, Reversed;
    calc {
      Labels(popped + [last]) + Reversed(PreOrderAll(rest));
      { LabelsConcat(popped, [last]); LeafOrder(last); }
      Labels(popped) + Reversed(PreOrder(last)) + Reversed(PreOrderAll(rest));
      { ReversedConcat(PreOrderAll(rest), PreOrder(last)); }
      Labels(popped) + Reversed(PreOrderAll(kids));
    }
  }

  /** `remove_children`; `popped` records the pointers popped.  None of them
      owns a child at that moment, so no destructor recurses.  Every slot is
      popped once, and the nodes go in reverse pre-order. */
  method RemoveChildren(p: Ptr) returns (r: Ptr, popped: seq<Ptr>)
    requires p.Node?
    ensures r == Node(p.value, [])
    ensures forall i :: 0 <= i < |popped| ==> popped[i] == Null || popped[i].kids == []
    ensures |popped| == Slots(p.kids)
    ensures Labels(popped) == Reversed(PreOrderAll(p.kids))
  {
    var kids := p.kids;
    popped := [];
    while kids != []
      invariant Progress(p, kids, popped)
      decreases Slots(kids)
    {
      var depth := 0;
      ghost var kids0 := kids;
      while At(kids, depth) != []
        invariant OnChain(kids, depth)
        invariant (kids == kids0 && depth == 0) || Slots(kids) < Slots(kids0)
        invariant Progress(p, kids, popped)
        decreases Slots(kids)
      {
        while Last(At(kids, depth)).Node? && Last(At(kids, depth)).kids != []
          invariant OnChain(kids, depth) && At(kids, depth) != []
          decreases At(kids, depth)
        {
          ChainExtends(kids, depth);
          depth := depth + 1;
        }
        PopProgresses(p, kids, depth, popped);
        PopRemovesLast(kids, depth);
        popped := popped + [Last(At(kids, depth))];
        kids := PopAt(kids, depth);
      }
    }
    r := Node(p.value, kids);
  }
}
