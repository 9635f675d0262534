/** Recursive definitions of the traversal orders, all skipping null children,
    and the fact that each of them lists every node exactly once. */
module TreeOrders {
  import opened Trees

  ghost function PreOrder(p: Ptr): seq<int>
    decreases p, 1
  {
    match p
    case Null => []
    case Node(v, kids) => [v] + PreOrderAll(kids)
  }

  ghost function PreOrderAll(ps: seq<Ptr>): seq<int>
    decreases ps, 0
  {
    if ps == [] then [] else PreOrder(ps[0]) + PreOrderAll(ps[1..])
  }

  ghost function InOrder(p: Ptr): seq<int>
    decreases p, 1
  {
    match p
    case Null => []
    case Node(v, kids) =>
      if kids == [] then [v] else InOrder(kids[0]) + [v] + InOrderAll(kids[1..])
  }

  ghost function InOrderAll(ps: seq<Ptr>): seq<int>
    decreases ps, 0
  {
    if ps == [] then [] else InOrder(ps[0]) + InOrderAll(ps[1..])
  }

  /** The nodes exactly `d` edges below `p`, left to right. */
  ghost function AtDepth(p: Ptr, d: nat): (r: seq<Ptr>)
    ensures forall i :: 0 <= i < |r| ==> r[i].Node?
    decreases p, 1
  {
    if p == Null then [] else if d == 0 then [p] else AtDepthAll(p.kids, d - 1)
  }

  ghost function AtDepthAll(ps: seq<Ptr>, d: nat): (r: seq<Ptr>)
    ensures forall i :: 0 <= i < |r| ==> r[i].Node?
    decreases ps, 0
  {
    if ps == [] then [] else AtDepth(ps[0], d) + AtDepthAll(ps[1..], d)
  }

  ghost function Labels(ps: seq<Ptr>): seq<int> {
    if ps == [] then []
    else (if ps[0] == Null then [] else [ps[0].value]) + Labels(ps[1..])
  }

  lemma {:induction false} LabelsConcat(a: seq<Ptr>, b: seq<Ptr>)
    ensures Labels(a + b) == Labels(a) + Labels(b)
  {
    if a == [] {
      assert a + b == b;
    } else {
      assert (a + b)[1..] == a[1..] + b;
      LabelsConcat(a[1..], b);
    }
  }

  lemma {:induction false} PreOrderListsAll(p: Ptr)
    ensures multiset(PreOrder(p)) == Values(p)
    decreases p, 1
  {
    if p.Node? {
      PreOrderAllListsAll(p.kids);
    }
  }

  lemma {:induction false} PreOrderAllListsAll(ps: seq<Ptr>)
    ensures multiset(PreOrderAll(ps)) == ValuesAll(ps)
    decreases ps, 0
  {
    if ps != [] {
      PreOrderListsAll(ps[0]);
      PreOrderAllListsAll(ps[1..]);
    }
  }

  lemma {:induction false} InOrderListsAll(p: Ptr)
    ensures multiset(InOrder(p)) == Values(p)
    decreases p, 1
  {
    if p.Node? && p.kids != [] {
      InOrderListsAll(p.kids[0]);
      InOrderAllListsAll(p.kids[1..]);
    }
  }

  lemma {:induction false} InOrderAllListsAll(ps: seq<Ptr>)
    ensures multiset(InOrderAll(ps)) == ValuesAll(ps)
    decreases ps, 0
  {
    if ps != [] {
      InOrderListsAll(ps[0]);
      InOrderAllListsAll(ps[1..]);
    }
  }

  lemma {:induction false} PreOrderConcat(a: seq<Ptr>, b: seq<Ptr>)
    ensures PreOrderAll(a + b) == PreOrderAll(a) + PreOrderAll(b)
  {
    if a == [] {
      assert a + b == b;
    } else {
      assert (a + b)[1..] == a[1..] + b;
      PreOrderConcat(a[1..], b);
    }
  }
}
