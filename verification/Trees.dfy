/** Uniquely owned n-ary trees: `tree<_Tp, storage_policy::unique>` and its
    `tree_ptr`.  A `Ptr` is an owning pointer; moving out of a child slot
    leaves `Null` in that slot, and dropping a `Ptr` deletes everything it
    still owns. */
module Trees {

  datatype Ptr = Null | Node(value: int, kids: seq<Ptr>)

  /** The labels of all nodes owned by `p`, with multiplicity. */
  ghost function Values(p: Ptr): multiset<int>
    decreases p, 1
  {
    match p
    case Null => multiset{}
    case Node(v, kids) => multiset{v} + ValuesAll(kids)
  }

  ghost function ValuesAll(ps: seq<Ptr>): multiset<int>
    decreases ps, 0
  {
    if ps == [] then multiset{} else Values(ps[0]) + ValuesAll(ps[1..])
  }

  lemma {:induction false} ValuesConcat(a: seq<Ptr>, b: seq<Ptr>)
    ensures ValuesAll(a + b) == ValuesAll(a) + ValuesAll(b)
  {
    if a == [] {
      assert a + b == b;
    } else {
      assert (a + b)[1..] == a[1..] + b;
      ValuesConcat(a[1..], b);
    }
  }

  lemma ValuesSingle(p: Ptr)
    ensures ValuesAll([p]) == Values(p)
  {
    assert [p][1..] == [];
  }

  lemma ValuesUpdate(ps: seq<Ptr>, i: nat, p: Ptr)
    requires i < |ps|
    ensures ValuesAll(ps[i := p]) + Values(ps[i]) == ValuesAll(ps) + Values(p)
  {
    assert ps == ps[..i] + [ps[i]] + ps[i + 1..];
    assert ps[i := p] == ps[..i] + [p] + ps[i + 1..];
    ValuesConcat(ps[..i] + [ps[i]], ps[i + 1..]);
    ValuesConcat(ps[..i], [ps[i]]);
    ValuesConcat(ps[..i] + [p], ps[i + 1..]);
    ValuesConcat(ps[..i], [p]);
    ValuesSingle(p);
    ValuesSingle(ps[i]);
  }

  lemma {:induction false} ValuesAllNull(ps: seq<Ptr>)
    requires forall i :: 0 <= i < |ps| ==> ps[i] == Null
    ensures ValuesAll(ps) == multiset{}
  {
    if ps != [] {
      ValuesAllNull(ps[1..]);
    }
  }
}
