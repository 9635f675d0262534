/** The member array of an object together with its optional index
    (`RAPIDJSON_USE_MEMBERSMAP`): a multimap from names to positions and an
    array of map iterators, one for each position. */
module JsonMembers {
  import opened JsonValue

  datatype Entry = Entry(name: string, value: Value)

  /** A map iterator names a map node; a destroyed one must not be used. */
  datatype MapIterator = Dead | Node(id: nat)

  /** A node of the multimap: its key and its mapped position. */
  datatype MapPair = MapPair(key: string, pos: nat)

  /** Positions `i` below `size` outside the hole [a, b) are indexed: `mit[i]`
      is the only node whose position is `i`, and its key is the name at `i`.
      All other iterators are dead. */
  ghost predicate Indexed(nodes: map<nat, MapPair>, mit: seq<MapIterator>, ms: seq<Entry>, size: nat, a: nat, b: nat) {
    a <= b <= size <= |ms| == |mit| &&
    (forall i :: 0 <= i < |mit| && (i < a || b <= i < size) ==>
      mit[i].Node? && mit[i].id in nodes && nodes[mit[i].id] == MapPair(ms[i].name, i)) &&
    (forall i :: 0 <= i < |mit| && (a <= i < b || size <= i) ==> mit[i] == Dead) &&
    (forall k :: k in nodes ==>
      (nodes[k].pos < a || b <= nodes[k].pos < size) && mit[nodes[k].pos] == Node(k))
  }

  /** `map->erase(DropMapIterator(mit[b]))` widens the hole. */
  lemma EraseWidensHole(nodes: map<nat, MapPair>, mit: seq<MapIterator>, ms: seq<Entry>, size: nat, a: nat, b: nat)
    requires Indexed(nodes, mit, ms, size, a, b) && b < size
    ensures mit[b].Node? && mit[b].id in nodes
    ensures Indexed(nodes - {mit[b].id}, mit[b := Dead], ms, size, a, b + 1)
  {
  }

  /** Moving the entry behind the hole to its front shifts the hole. */
  lemma MoveShiftsHole(nodes: map<nat, MapPair>, mit: seq<MapIterator>, ms: seq<Entry>, size: nat, a: nat, b: nat)
    requires Indexed(nodes, mit, ms, size, a, b) && a < b < size
    ensures mit[b].Node? && mit[b].id in nodes
    ensures var k := mit[b].id;
      Indexed(nodes[k := nodes[k].(pos := a)], mit[b := Dead][a := mit[b]], ms[a := ms[b]], size, a + 1, b + 1)
  {
  }

  /** Moving the last entry into a hole of one closes it. */
  lemma MoveLastClosesHole(nodes: map<nat, MapPair>, mit: seq<MapIterator>, ms: seq<Entry>, size: nat, a: nat)
    requires Indexed(nodes, mit, ms, size, a, a + 1) && a + 1 < size
    ensures mit[size - 1].Node? && mit[size - 1].id in nodes
    ensures var k := mit[size - 1].id;
      Indexed(nodes[k := nodes[k].(pos := a)], mit[size - 1 := Dead][a := mit[size - 1]],
              ms[a := ms[size - 1]], size - 1, 0, 0)
  {
  }

  /** A hole that reaches the end can be cut off. */
  lemma CutHole(nodes: map<nat, MapPair>, mit: seq<MapIterator>, ms: seq<Entry>, size: nat, a: nat)
    requires Indexed(nodes, mit, ms, size, a, size)
    ensures Indexed(nodes, mit, ms, a, 0, 0)
  {
  }

  lemma NoHole(nodes: map<nat, MapPair>, mit: seq<MapIterator>, ms: seq<Entry>, size: nat, a: nat)
    requires a <= size
    ensures Indexed(nodes, mit, ms, size, 0, 0) <==> Indexed(nodes, mit, ms, size, a, a)
  {
  }

  /** `map->insert` of a new node for the next position. */
  lemma InsertExtends(nodes: map<nat, MapPair>, mit: seq<MapIterator>, ms: seq<Entry>, size: nat, k: nat, e: Entry)
    requires Indexed(nodes, mit, ms, size, 0, 0) && size < |ms| && k !in nodes
    ensures Indexed(nodes[k := MapPair(e.name, size)], mit[size := Node(k)], ms[size := e], size + 1, 0, 0)
  {
  }

  lemma DropLastNode(nodes: map<nat, MapPair>, mit: seq<MapIterator>, ms: seq<Entry>, size: nat)
    requires Indexed(nodes, mit, ms, size, 0, 0) && size > 0
    ensures mit[size - 1].Node? && mit[size - 1].id in nodes
    ensures Indexed(nodes - {mit[size - 1].id}, mit[size - 1 := Dead], ms, size - 1, 0, 0)
  {
  }

  /** The map has as many nodes as there are members; reallocation takes the
      number of members to copy from it. */
  lemma {:induction false} NodeCount(nodes: map<nat, MapPair>, mit: seq<MapIterator>, ms: seq<Entry>, size: nat)
    requires Indexed(nodes, mit, ms, size, 0, 0)
    ensures |nodes| == size
  {
    if size == 0 {
      assert nodes.Keys == {};
    } else {
      DropLastNode(nodes, mit, ms, size);
      hide Indexed;
      var k := mit[size - 1].id;
      NodeCount(nodes - {k}, mit[size - 1 := Dead], ms, size - 1);
      assert nodes.Keys == (nodes - {k}).Keys + {k};
    }
  }

  // ----- Lookup -----

  /** What `map->find` may return: any node with that key, or the end. */
  ghost predicate MapFinds(nodes: map<nat, MapPair>, name: string, r: MapIterator) {
    match r
    case Dead => forall k :: k in nodes ==> nodes[k].key != name
    case Node(k) => k in nodes && nodes[k].key == name
  }

  function FirstOf(ms: seq<Entry>, name: string): (i: nat)
    ensures i <= |ms|
    ensures i < |ms| ==> ms[i].name == name
    ensures forall j :: 0 <= j < i ==> ms[j].name != name
  {
    if ms == [] || ms[0].name == name then 0 else 1 + FirstOf(ms[1..], name)
  }

  ghost predicate AtMostOnce(ms: seq<Entry>, name: string) {
    forall i, j :: 0 <= i < j < |ms| && ms[i].name == name ==> ms[j].name != name
  }

  /** The position behind a map lookup: `members + it->second`, or the end. */
  ghost function Found(nodes: map<nat, MapPair>, size: nat, r: MapIterator): nat
    requires r.Node? ==> r.id in nodes
  {
    if r.Dead? then size else nodes[r.id].pos
  }

  /** The map succeeds exactly when the linear scan does, whichever of several
      equal keys it picks. */
  lemma LookupsAgree(nodes: map<nat, MapPair>, mit: seq<MapIterator>, ms: seq<Entry>, name: string, r: MapIterator)
    requires Indexed(nodes, mit, ms, |ms|, 0, 0) && MapFinds(nodes, name, r)
    ensures r.Node? <==> FirstOf(ms, name) < |ms|
    ensures r.Node? ==> Found(nodes, |ms|, r) < |ms| && ms[Found(nodes, |ms|, r)].name == name
  {
    var i := FirstOf(ms, name);
    if i < |ms| {
      assert nodes[mit[i].id].key == name;
    }
  }

  /** They are sure to agree on the position exactly for names that occur at
      most once. */
  lemma SamePositionExactly(nodes: map<nat, MapPair>, mit: seq<MapIterator>, ms: seq<Entry>, name: string)
    requires Indexed(nodes, mit, ms, |ms|, 0, 0)
    ensures AtMostOnce(ms, name) <==>
      forall r: MapIterator :: MapFinds(nodes, name, r) ==> Found(nodes, |ms|, r) == FirstOf(ms, name)
  {
    if AtMostOnce(ms, name) {
      forall r: MapIterator | MapFinds(nodes, name, r)
        ensures Found(nodes, |ms|, r) == FirstOf(ms, name)
      {
        LookupsAgree(nodes, mit, ms, name, r);
        if r.Node? {
          var p, q := Found(nodes, |ms|, r), FirstOf(ms, name);
          assert ms[p].name == name && ms[q].name == name;
        }
      }
    } else {
      var i, j :| 0 <= i < j < |ms| && ms[i].name == name && ms[j].name == name;
      assert MapFinds(nodes, name, mit[i]) && MapFinds(nodes, name, mit[j]);
      assert Found(nodes, |ms|, mit[i]) == i && Found(nodes, |ms|, mit[j]) == j;
    }
  }

  /** All nodes were made before the next one. */
  ghost predicate Numbered(nodes: map<nat, MapPair>, nextNode: nat) {
    forall k :: k in nodes ==> k < nextNode
  }

  // ----- The operations -----

  const DEFAULT_OBJECT_CAPACITY: nat := 16

  method MoveIterators(from: array<MapIterator>, to: array<MapIterator>, count: nat)
    requires from != to && count <= from.Length && count <= to.Length
    requires forall j :: 0 <= j < to.Length ==> to[j] == Dead
    modifies to
    ensures forall j :: 0 <= j < to.Length ==> to[j] == if j < count then from[j] else Dead
  {
    var i := count;
    while i > 0
      invariant i <= count
      invariant forall j :: 0 <= j < to.Length ==> to[j] == if i <= j < count then from[j] else Dead
    {
      i := i - 1;
      to[i] := from[i];
    }
  }

  lemma Regrown(nodes: map<nat, MapPair>, mit: seq<MapIterator>, ms: seq<Entry>, size: nat,
                mit': seq<MapIterator>, ms': seq<Entry>)
    requires Indexed(nodes, mit, ms, size, 0, 0) && |mit'| == |ms'| && size <= |ms'|
    requires forall i :: 0 <= i < size ==> mit'[i] == mit[i] && ms'[i] == ms[i]
    requires forall i :: size <= i < |mit'| ==> mit'[i] == Dead
    ensures Indexed(nodes, mit', ms', size, 0, 0)
  {
  }

  /** The last member takes the place of member `i`. */
  ghost function SwapRemoved(ms: seq<Entry>, i: nat): (r: seq<Entry>)
    requires i < |ms|
    ensures |r| == |ms| - 1
    ensures forall j :: 0 <= j < |r| && j != i ==> r[j] == ms[j]
    ensures i < |r| ==> r[i] == ms[|ms| - 1]
  {
    ms[i := ms[|ms| - 1]][..|ms| - 1]
  }

  ghost function RangeRemoved(ms: seq<Entry>, first: nat, last: nat): (r: seq<Entry>)
    requires first <= last <= |ms|
    ensures |r| == |ms| - (last - first)
    ensures forall j :: 0 <= j < first ==> r[j] == ms[j]
    ensures forall j :: first <= j < |r| ==> r[j] == ms[j + (last - first)]
  {
    ms[..first] + ms[last..]
  }

  lemma SlicesOf(all: seq<Entry>, size: nat, first: nat, last: nat)
    requires first <= last <= size <= |all|
    ensures all[..first] + all[last..size] == RangeRemoved(all[..size], first, last)
    ensures first < size ==> all[first := all[size - 1]][..size - 1] == SwapRemoved(all[..size], first)
  {
  }

  class ObjectData {
    var size: nat
    var members: array<Entry>
    var mit: array<MapIterator>
    var nodes: map<nat, MapPair>

    /** The identity of the next map node; stands for the allocator. */
    var nextNode: nat

    ghost predicate Valid()
      reads this, members, mit
    {
      Indexed(nodes, mit[..], members[..], size, 0, 0) && Numbered(nodes, nextNode)
    }

    ghost function Members(): seq<Entry>
      reads this, members, mit
      requires Valid()
      ensures |Members()| == size
    {
      members[..size]
    }

    constructor ()
      ensures Valid() && fresh(members) && fresh(mit) && Members() == []
    {
      size, nodes, nextNode := 0, map[], 0;
      members, mit := new Entry[0], new MapIterator[0];
    }

    /** `DoReserveMembers` */
    method Reserve(newCapacity: nat)
      requires Valid()
      modifies this
      ensures Valid() && Members() == old(Members()) && size == old(size)
      ensures members.Length == if newCapacity > old(members.Length) then newCapacity else old(members.Length)
      ensures newCapacity <= old(members.Length) ==> members == old(members) && mit == old(mit)
      ensures newCapacity > old(members.Length) ==> fresh(members) && fresh(mit)
    {
      if newCapacity <= members.Length {
        return;
      }
      assert size <= members.Length == |mit[..]|;
      hide Indexed, Numbered;
      NodeCount(nodes, mit[..], members[..], size);
      var newMembers, newMit := Reallocate(|nodes|, newCapacity);
      GrowTo(newMembers, newMit);
    }

    method GrowTo(newMembers: array<Entry>, newMit: array<MapIterator>)
      requires Valid() && size <= newMembers.Length == newMit.Length
      requires size <= members.Length == mit.Length && newMembers[..size] == members[..size]
      requires forall i :: 0 <= i < newMit.Length ==> newMit[i] == if i < size then mit[i] else Dead
      modifies this
      ensures Valid() && members == newMembers && mit == newMit
      ensures size == old(size) && Members() == old(Members())
    {
      hide Indexed, Numbered;
      forall i | 0 <= i < size ensures newMembers[..][i] == members[..][i] {
        assert newMembers[..size][i] == members[..size][i];
      }
      Regrown(nodes, mit[..], members[..], size, newMit[..], newMembers[..]);
      members, mit := newMembers, newMit;
    }

    /** `DoReallocMap` */
    method Reallocate(count: nat, newCapacity: nat) returns (newMembers: array<Entry>, newMit: array<MapIterator>)
      requires count <= members.Length == mit.Length <= newCapacity
      ensures fresh(newMembers) && fresh(newMit) && newMembers.Length == newMit.Length == newCapacity
      ensures newMembers[..count] == members[..count]
      ensures forall i :: 0 <= i < newCapacity ==> newMit[i] == if i < count then mit[i] else Dead
    {
      var blank := Entry("", Null);
      newMembers := new Entry[newCapacity](i requires 0 <= i reads this, members =>
        if i < count && i < members.Length then members[i] else blank);
      newMit := new MapIterator[newCapacity](_ => Dead);
      MoveIterators(mit, newMit, count);
    }

    /** `DoAddMember` */
    method Add(e: Entry)
      requires Valid()
      modifies this, members, mit
      ensures Valid() && Members() == old(Members()) + [e]
      ensures old(size) < old(members.Length) ==> members == old(members) && mit == old(mit)
      ensures old(size) >= old(members.Length) ==>
        fresh(members) && fresh(mit) &&
        members.Length == if old(members.Length) == 0 then 16 else old(members.Length + (members.Length + 1) / 2)
    {
      if size >= members.Length {
        var capacity := members.Length;
        Reserve(if capacity != 0 then capacity + (capacity + 1) / 2 else DEFAULT_OBJECT_CAPACITY);
      }
      Append(e);
    }

    method Append(e: Entry)
      requires Valid() && size < members.Length
      modifies this, members, mit
      ensures Valid() && Members() == old(Members()) + [e]
      ensures members == old(members) && mit == old(mit)
    {
      ghost var ms, its := members[..], mit[..];
      assert |its| == |ms|;
      hide Indexed;
      var k := nextNode;
      nextNode := nextNode + 1;
      InsertExtends(nodes, its, ms, size, k, e);
      members[size] := e;
      nodes := nodes[k := MapPair(e.name, size)];
      mit[size] := Node(k);
      assert members[..] == ms[size := e] && mit[..] == its[size := Node(k)];
      size := size + 1;
    }

    /** One more position is erased behind the hole [first, itr). */
    method EraseAt(first: nat, itr: nat, ghost ms: seq<Entry>)
      requires Indexed(nodes, mit[..], ms, size, first, itr) && itr < size && Numbered(nodes, nextNode)
      modifies this`nodes, mit
      ensures Indexed(nodes, mit[..], ms, size, first, itr + 1) && Numbered(nodes, nextNode)
    {
      assert size <= |mit[..]|;
      hide Indexed;
      EraseWidensHole(nodes, mit[..], ms, size, first, itr);
      EraseNode(itr);
    }

    /** `map->erase(DropMapIterator(mit[i]))` */
    method EraseNode(i: nat)
      requires i < mit.Length && mit[i].Node?
      modifies this`nodes, mit
      ensures nodes == old(nodes) - {old(mit[i].id)}
      ensures mit[..] == old(mit[..])[i := Dead]
    {
      nodes := nodes - {mit[i].id};
      mit[i] := Dead;
    }

    /** `new (&mit[to]) MapIterator(DropMapIterator(mit[from]))`, the update of
        the node's position and the move of the member itself. */
    method MoveEntry(from: nat, to: nat)
      requires from < members.Length == mit.Length && to < members.Length && from != to
      requires mit[from].Node? && mit[from].id in nodes
      modifies this`nodes, members, mit
      ensures var k := old(mit[from].id); nodes == old(nodes)[k := old(nodes)[k].(pos := to)]
      ensures mit[..] == old(mit[..])[from := Dead][to := old(mit[from])]
      ensures members[..] == old(members[..])[to := old(members[from])]
    {
      var k := mit[from].id;
      mit[from], mit[to] := Dead, Node(k);
      nodes := nodes[k := nodes[k].(pos := to)];
      members[to] := members[from];
    }

    /** `DoRemoveMember`: the last member takes the free place. */
    method Remove(mpos: nat)
      requires Valid() && mpos < size
      modifies this, members, mit
      ensures Valid() && members == old(members) && mit == old(mit)
      ensures Members() == SwapRemoved(old(Members()), mpos)
    {
      assert size <= members.Length == |mit[..]|;
      hide Indexed, Numbered, SwapRemoved, RangeRemoved;
      ghost var ms := members[..size];
      EraseNodes(mpos, mpos + 1);
      assert members[..size] == ms;
      FillGap(mpos);
    }

    method FillGap(mpos: nat)
      requires mpos < size <= members.Length == mit.Length
      requires Indexed(nodes, mit[..], members[..], size, mpos, mpos + 1)
      requires Numbered(nodes, nextNode)
      modifies this`nodes, this`size, members, mit
      ensures size == old(size) - 1 && Indexed(nodes, mit[..], members[..], size, 0, 0)
      ensures Numbered(nodes, nextNode)
      ensures members[..size] == SwapRemoved(old(members[..size]), mpos)
    {
      hide Indexed, Numbered, SwapRemoved, RangeRemoved;
      SlicesOf(members[..], size, mpos, mpos + 1);
      if size > 1 && mpos != size - 1 {
        MoveLast(mpos);
      } else {
        CutHole(nodes, mit[..], members[..], size, mpos);
      }
      size := size - 1;
    }

    method MoveLast(mpos: nat)
      requires mpos + 1 < size <= members.Length == mit.Length
      requires Indexed(nodes, mit[..], members[..], size, mpos, mpos + 1)
      requires Numbered(nodes, nextNode)
      modifies this`nodes, members, mit
      ensures Indexed(nodes, mit[..], members[..], size - 1, 0, 0)
      ensures Numbered(nodes, nextNode)
      ensures members[..] == old(members[..])[mpos := old(members[size - 1])]
    {
      hide Indexed;
      MoveLastClosesHole(nodes, mit[..], members[..], size, mpos);
      MoveEntry(size - 1, mpos);
    }

    /** `DoEraseMembers`: the rest moves down, in order. */
    method Erase(first: nat, last: nat)
      requires Valid() && first <= last <= size && size > 0
      modifies this, members, mit
      ensures Valid() && members == old(members) && mit == old(mit)
      ensures Members() == RangeRemoved(old(Members()), first, last)
    {
      assert size <= members.Length == |mit[..]|;
      hide Indexed, Numbered, SwapRemoved, RangeRemoved;
      ghost var ms := members[..size];
      EraseNodes(first, last);
      assert members[..size] == ms;
      CloseRange(first, last);
    }

    method CloseRange(first: nat, last: nat)
      requires first <= last <= size <= members.Length == mit.Length
      requires Indexed(nodes, mit[..], members[..], size, first, last) && Numbered(nodes, nextNode)
      modifies this`nodes, this`size, members, mit
      ensures size == old(size) - (last - first) && Indexed(nodes, mit[..], members[..], size, 0, 0)
      ensures Numbered(nodes, nextNode)
      ensures members[..size] == RangeRemoved(old(members[..size]), first, last)
    {
      hide Indexed, Numbered, SwapRemoved, RangeRemoved;
      SlicesOf(members[..], size, first, last);
      if first != last {
        MoveRest(first, last);
      } else {
        NoHole(nodes, mit[..], members[..], size, first);
      }
      size := size - (last - first);
    }

    method EraseNodes(first: nat, last: nat)
      requires Valid() && first <= last <= size
      modifies this`nodes, mit
      ensures Indexed(nodes, mit[..], members[..], size, first, last)
      ensures Numbered(nodes, nextNode)
    {
      ghost var ms := members[..];
      assert size <= |ms| == |mit[..]|;
      hide Indexed, Numbered;
      var itr := first;
      NoHole(nodes, mit[..], ms, size, first);
      while itr != last
        invariant first <= itr <= last
        invariant Indexed(nodes, mit[..], ms, size, first, itr)
        invariant Numbered(nodes, nextNode)
      {
        EraseAt(first, itr, ms);
        itr := itr + 1;
      }
    }

    method MoveRest(first: nat, last: nat)
      requires first < last <= size <= members.Length == mit.Length
      requires Indexed(nodes, mit[..], members[..], size, first, last)
      requires Numbered(nodes, nextNode)
      modifies this`nodes, members, mit
      ensures Indexed(nodes, mit[..], members[..], size - (last - first), 0, 0)
      ensures Numbered(nodes, nextNode)
      ensures members[..size - (last - first)] == old(members[..first] + members[last..size])
    {
      hide Indexed;
      ghost var ms := members[..];
      var itr, next := first, last;
      while next != size
        invariant first <= itr && last <= next <= size && itr - first == next - last
        invariant Indexed(nodes, mit[..], members[..], size, itr, next)
        invariant Numbered(nodes, nextNode)
        invariant members[..itr] == ms[..first] + ms[last..next]
        invariant members[next..] == ms[next..]
      {
        MoveShiftsHole(nodes, mit[..], members[..], size, itr, next);
        ghost var before := members[..];
        MoveEntry(next, itr);
        assert members[..itr + 1] == before[..itr] + [before[next]];
        assert members[next + 1..] == before[next + 1..] == ms[next + 1..];
        assert before[next] == before[next..][0] == ms[next];
        itr, next := itr + 1, next + 1;
      }
      CutHole(nodes, mit[..], members[..], size, itr);
    }

    /** `DoClearMembers` */
    method Clear()
      requires Valid()
      modifies this, mit
      ensures Valid() && Members() == [] && nodes == map[]
      ensures members == old(members) && mit == old(mit)
    {
      var i := 0;
      while i < size
        invariant i <= size
        invariant Indexed(nodes, mit[..], members[..], size, 0, i) && Numbered(nodes, nextNode)
        invariant members == old(members) && mit == old(mit) && size == old(size)
      {
        EraseAt(0, i, members[..]);
        i := i + 1;
      }
      CutHole(nodes, mit[..], members[..], size, 0);
      size := 0;
    }

    /** `DoFindMember` with the map. */
    method FindByMap(name: string) returns (pos: nat)
      requires Valid()
      ensures pos <= size
      ensures pos < size <==> exists i :: 0 <= i < size && Members()[i].name == name
      ensures pos < size ==> Members()[pos].name == name
      ensures AtMostOnce(Members(), name) ==> pos == FirstOf(Members(), name)
    {
      if k :| k in nodes && nodes[k].key == name {
        pos := nodes[k].pos;
        assert mit[..][pos] == Node(k);
        assert Members()[pos].name == name;
      } else {
        pos := size;
        forall i | 0 <= i < size ensures Members()[i].name != name {
          assert mit[..][i].id in nodes;
        }
      }
    }

    /** `DoFindMember` without the map. */
    method FindLinearly(name: string) returns (pos: nat)
      requires Valid()
      ensures pos == FirstOf(Members(), name)
    {
      pos := 0;
      while pos != size
        invariant pos <= size
        invariant forall j :: 0 <= j < pos ==> members[j].name != name
      {
        if members[pos].name == name {
          break;
        }
        pos := pos + 1;
      }
    }
  }
}
