/** `GenericValue::operator==` against a denotation of values in which an
    object is a finite map from names to denotations. */
module JsonEquality {
  import opened JsonNumber
  import opened JsonValue

  /** String names and no doubles, at every level. */
  ghost predicate Plain(v: Value) {
    match v
    case Object(ms) => forall i :: 0 <= i < |ms| ==> ms[i].name.String? && Plain(ms[i].value)
    case Array(es) => forall i :: 0 <= i < |es| ==> Plain(es[i])
    case Num(n) => !n.IsDouble()
    case _ => true
  }

  ghost predicate PlainMembers(ms: seq<Member>) {
    forall i :: 0 <= i < |ms| ==> ms[i].name.String? && Plain(ms[i].value)
  }

  /** `FindMember`: a linear scan for the first member of that name. */
  function Find(ms: seq<Member>, name: string): (k: nat)
    requires forall i :: 0 <= i < |ms| ==> ms[i].name.String?
    ensures k <= |ms|
    ensures k < |ms| ==> ms[k].name.chars == name
    ensures forall i :: 0 <= i < k ==> ms[i].name.chars != name
  {
    if ms == [] then 0 else if ms[0].name.chars == name then 0 else 1 + Find(ms[1..], name)
  }

  /** `operator==` */
  ghost predicate Equal(a: Value, b: Value)
    requires Plain(a) && Plain(b)
    decreases a, 1
  {
    match (a, b)
    case (Object(ms), Object(ns)) =>
      |ms| == |ns| && forall i :: 0 <= i < |ms| ==> FoundEqual(ms[i], ns)
    case (Array(es), Array(fs)) =>
      |es| == |fs| && forall i :: 0 <= i < |es| ==> Equal(es[i], fs[i])
    case (String(s, _), String(t, _)) => s == t
    case (Num(m), Num(n)) => m.data == n.data
    case (Null, Null) => true
    case (False, False) => true
    case (True, True) => true
    case _ => false
  }

  /** The member of that name on the right has an equal value. */
  ghost predicate FoundEqual(m: Member, ns: seq<Member>)
    requires m.name.String? && Plain(m.value) && PlainMembers(ns)
    decreases m, 0
  {
    var j := Find(ns, m.name.chars);
    j < |ns| && Equal(m.value, ns[j].value)
  }

  // ----- The denotation -----

  datatype Meaning =
    | NullMeaning
    | BoolMeaning(b: bool)
    | TextMeaning(chars: string)
    | PatternMeaning(data: int)
    | ListMeaning(elements: seq<Meaning>)
    | MapMeaning(members: map<string, Meaning>)

  ghost function Denote(v: Value): Meaning
    requires Plain(v)
    decreases v, 1
  {
    match v
    case Null => NullMeaning
    case False => BoolMeaning(false)
    case True => BoolMeaning(true)
    case Object(ms) => MapMeaning(DenoteMembers(ms))
    case Array(es) => ListMeaning(DenoteElements(es))
    case String(chars, _) => TextMeaning(chars)
    case Num(n) => PatternMeaning(n.data)
  }

  /** The first member of a name counts. */
  ghost function DenoteMembers(ms: seq<Member>): map<string, Meaning>
    requires PlainMembers(ms)
    decreases ms, 0
  {
    if ms == [] then map[]
    else DenoteMembers(ms[1..])[ms[0].name.chars := DenoteValue(ms[0])]
  }

  ghost function DenoteValue(m: Member): Meaning
    requires Plain(m.value)
    decreases m, 0
  {
    Denote(m.value)
  }

  ghost function DenoteElements(es: seq<Value>): (r: seq<Meaning>)
    requires forall i :: 0 <= i < |es| ==> Plain(es[i])
    ensures |r| == |es|
    decreases es, 0
  {
    if es == [] then [] else [Denote(es[0])] + DenoteElements(es[1..])
  }

  /** No object, at any level, has two members of the same name. */
  ghost predicate Distinct(v: Value)
    requires Plain(v)
  {
    match v
    case Object(ms) => DistinctNames(ms) && forall i :: 0 <= i < |ms| ==> Distinct(ms[i].value)
    case Array(es) => forall i :: 0 <= i < |es| ==> Distinct(es[i])
    case _ => true
  }

  ghost predicate DistinctNames(ms: seq<Member>)
    requires PlainMembers(ms)
  {
    forall i, j :: 0 <= i < j < |ms| ==> ms[i].name.chars != ms[j].name.chars
  }

  lemma {:induction false} MapOfMembers(ms: seq<Member>, name: string)
    requires PlainMembers(ms)
    ensures var k := Find(ms, name);
      var m := DenoteMembers(ms);
      (name in m <==> k < |ms|) && (k < |ms| ==> m[name] == Denote(ms[k].value))
  {
    if ms != [] {
      MapOfMembers(ms[1..], name);
    }
  }

  lemma {:induction false} MapSize(ms: seq<Member>)
    requires PlainMembers(ms)
    ensures |DenoteMembers(ms)| <= |ms|
    ensures |DenoteMembers(ms)| == |ms| <==> DistinctNames(ms)
  {
    if ms != [] {
      MapSize(ms[1..]);
      var rest, name := DenoteMembers(ms[1..]), ms[0].name.chars;
      MapOfMembers(ms[1..], name);
      assert DenoteMembers(ms).Keys == rest.Keys + {name};
      NamesTail(ms);
    }
  }

  lemma NamesTail(ms: seq<Member>)
    requires PlainMembers(ms) && ms != []
    ensures DistinctNames(ms) <==> DistinctNames(ms[1..]) && Find(ms[1..], ms[0].name.chars) == |ms| - 1
  {
    var rest, name := ms[1..], ms[0].name.chars;
    if DistinctNames(ms) {
      forall i | 0 <= i < |rest| ensures rest[i].name.chars != name {
        assert rest[i] == ms[i + 1];
      }
    } else {
      var i, j :| 0 <= i < j < |ms| && ms[i].name.chars == ms[j].name.chars;
      assert ms[j] == rest[j - 1];
      assert i > 0 ==> ms[i] == rest[i - 1];
    }
  }

  lemma {:induction false} ElementAt(es: seq<Value>, i: nat)
    requires i < |es| && forall k :: 0 <= k < |es| ==> Plain(es[k])
    ensures DenoteElements(es)[i] == Denote(es[i])
  {
    if i > 0 {
      ElementAt(es[1..], i - 1);
    }
  }

  /** The pigeonhole step: an inclusion between maps of equal size is onto. */
  lemma SameSizeSubset(s: set<string>, t: set<string>)
    requires s <= t && |s| == |t|
    ensures s == t
  {
    if x :| x in t && x !in s {
      assert s <= t - {x};
      SubsetSize(s, t - {x});
    }
  }

  lemma {:induction false} SubsetSize(s: set<string>, t: set<string>)
    requires s <= t
    ensures |s| <= |t|
  {
    if x :| x in s {
      SubsetSize(s - {x}, t - {x});
    }
  }

  ghost predicate Matches(m: Member, ns: seq<Member>)
    requires m.name.String? && Plain(m.value) && PlainMembers(ns)
  {
    var j := Find(ns, m.name.chars);
    j < |ns| && Denote(m.value) == Denote(ns[j].value)
  }

  /** `operator==` decides equality of denotations, when names are distinct. */
  lemma {:induction false} EqualMeansSame(a: Value, b: Value)
    requires Plain(a) && Plain(b) && Distinct(a) && Distinct(b)
    ensures Equal(a, b) <==> Denote(a) == Denote(b)
    decreases a
  {
    match (a, b) {
      case (Object(ms), Object(ns)) =>
        forall i | 0 <= i < |ms| ensures FoundEqual(ms[i], ns) <==> Matches(ms[i], ns) {
          var j := Find(ns, ms[i].name.chars);
          if j < |ns| {
            EqualMeansSame(ms[i].value, ns[j].value);
          }
        }
        if Equal(a, b) {
          ObjectsSame(ms, ns);
        }
        if Denote(a) == Denote(b) {
          ObjectsEqual(ms, ns);
        }
      case (Array(es), Array(fs)) =>
        if |es| == |fs| {
          forall i | 0 <= i < |es|
            ensures Equal(es[i], fs[i]) <==> DenoteElements(es)[i] == DenoteElements(fs)[i]
          {
            ElementAt(es, i);
            ElementAt(fs, i);
            EqualMeansSame(es[i], fs[i]);
          }
        }
      case _ =>
    }
  }

  lemma FindSelf(ms: seq<Member>, i: nat)
    requires PlainMembers(ms) && DistinctNames(ms) && i < |ms|
    ensures Find(ms, ms[i].name.chars) == i
  {
  }

  lemma ObjectsSame(ms: seq<Member>, ns: seq<Member>)
    requires PlainMembers(ms) && PlainMembers(ns) && DistinctNames(ms) && DistinctNames(ns)
    requires |ms| == |ns| && forall i :: 0 <= i < |ms| ==> Matches(ms[i], ns)
    ensures DenoteMembers(ms) == DenoteMembers(ns)
  {
    var m, n := DenoteMembers(ms), DenoteMembers(ns);
    MapSize(ms);
    MapSize(ns);
    forall name | name in m ensures name in n && m[name] == n[name] {
      MapOfMembers(ms, name);
      MapOfMembers(ns, name);
      assert Matches(ms[Find(ms, name)], ns);
    }
    SameSizeSubset(m.Keys, n.Keys);
  }

  lemma ObjectsEqual(ms: seq<Member>, ns: seq<Member>)
    requires PlainMembers(ms) && PlainMembers(ns) && DistinctNames(ms) && DistinctNames(ns)
    requires DenoteMembers(ms) == DenoteMembers(ns)
    ensures |ms| == |ns| && forall i :: 0 <= i < |ms| ==> Matches(ms[i], ns)
  {
    MapSize(ms);
    MapSize(ns);
    forall i | 0 <= i < |ms| ensures Matches(ms[i], ns) {
      FindSelf(ms, i);
      MapOfMembers(ms, ms[i].name.chars);
      MapOfMembers(ns, ms[i].name.chars);
    }
  }

  // ----- Without the denotation -----

  /** No object at any level. */
  ghost predicate Flat(v: Value) {
    match v
    case Object(_) => false
    case Array(es) => forall i :: 0 <= i < |es| ==> Flat(es[i])
    case _ => true
  }

  /** The value without the storage of its strings and the flags of its numbers. */
  ghost function Bare(v: Value): Value {
    match v
    case Array(es) => Array(seq(|es|, i requires 0 <= i < |es| => Bare(es[i])))
    case String(chars, _) => String(chars, ConstString)
    case Num(n) => Num(Number({}, n.data))
    case _ => v
  }

  /** Without objects, equality is equality of the values as written, up to how
      strings are stored and which flags numbers have. */
  lemma {:induction false} FlatEqualExactly(a: Value, b: Value)
    requires Plain(a) && Plain(b) && Flat(a) && Flat(b)
    ensures Equal(a, b) <==> Bare(a) == Bare(b)
    decreases a
  {
    match (a, b) {
      case (Array(es), Array(fs)) =>
        BareElements(es, fs);
        if |es| == |fs| {
          forall i | 0 <= i < |es| ensures Equal(es[i], fs[i]) <==> Bare(es[i]) == Bare(fs[i]) {
            FlatEqualExactly(es[i], fs[i]);
          }
        }
      case _ =>
    }
  }

  lemma BareElements(es: seq<Value>, fs: seq<Value>)
    ensures Bare(Array(es)) == Bare(Array(fs)) <==>
      |es| == |fs| && forall i :: 0 <= i < |es| ==> Bare(es[i]) == Bare(fs[i])
  {
    var x, y := Bare(Array(es)).elements, Bare(Array(fs)).elements;
    assert |x| == |es| && |y| == |fs|;
    assert forall i :: 0 <= i < |es| ==> x[i] == Bare(es[i]);
    assert forall i :: 0 <= i < |fs| ==> y[i] == Bare(fs[i]);
  }

  ghost predicate HasEqual(m: Member, ns: seq<Member>)
    requires m.name.String? && Plain(m.value) && PlainMembers(ns)
  {
    exists j :: 0 <= j < |ns| && ns[j].name.chars == m.name.chars && Equal(m.value, ns[j].value)
  }

  lemma FoundIsHad(m: Member, ns: seq<Member>)
    requires m.name.String? && Plain(m.value) && PlainMembers(ns) && DistinctNames(ns)
    ensures FoundEqual(m, ns) <==> HasEqual(m, ns)
  {
    if HasEqual(m, ns) {
      var j :| 0 <= j < |ns| && ns[j].name.chars == m.name.chars && Equal(m.value, ns[j].value);
      FindSelf(ns, j);
    }
  }

  /** With distinct names, objects are equal if there are equally many members and
      every member on the left has an equal one of its name on the right. */
  lemma ObjectsEqualMemberwise(ms: seq<Member>, ns: seq<Member>)
    requires PlainMembers(ms) && PlainMembers(ns) && DistinctNames(ns)
    ensures Equal(Object(ms), Object(ns)) <==>
      |ms| == |ns| && forall i :: 0 <= i < |ms| ==> HasEqual(ms[i], ns)
  {
    forall i | 0 <= i < |ms| ensures FoundEqual(ms[i], ns) <==> HasEqual(ms[i], ns) {
      FoundIsHad(ms[i], ns);
    }
    hide FoundEqual, HasEqual;
  }

  // ----- Consequences -----

  lemma EqualIsEquivalence(a: Value, b: Value, c: Value)
    requires Plain(a) && Plain(b) && Plain(c) && Distinct(a) && Distinct(b) && Distinct(c)
    ensures Equal(a, a)
    ensures Equal(a, b) == Equal(b, a)
    ensures Equal(a, b) && Equal(b, c) ==> Equal(a, c)
  {
    EqualMeansSame(a, a);
    EqualMeansSame(a, b);
    EqualMeansSame(b, a);
    EqualMeansSame(b, c);
    EqualMeansSame(a, c);
  }

  /** The order of members does not matter. */
  lemma MemberOrderIsIrrelevant(ms: seq<Member>, ns: seq<Member>)
    requires PlainMembers(ms) && PlainMembers(ns)
    requires Distinct(Object(ms)) && Distinct(Object(ns))
    requires multiset(ms) == multiset(ns)
    ensures Equal(Object(ms), Object(ns))
  {
    SizeOfMultiset(ms, ns);
    forall i | 0 <= i < |ms| ensures Matches(ms[i], ns) {
      assert ms[i] in multiset(ns);
      var j :| 0 <= j < |ns| && ns[j] == ms[i];
      FindSelf(ns, j);
    }
    ObjectsSame(ms, ns);
    EqualMeansSame(Object(ms), Object(ns));
  }

  lemma SizeOfMultiset(ms: seq<Member>, ns: seq<Member>)
    requires multiset(ms) == multiset(ns)
    ensures |ms| == |ns|
  {
    assert |multiset(ms)| == |ms| && |multiset(ns)| == |ns|;
  }

  // ----- Repeated names -----

  /** Any names, repeated or not; the values below have distinct names. */
  ghost predicate DistinctBelow(ms: seq<Member>) {
    PlainMembers(ms) && forall i :: 0 <= i < |ms| ==> Distinct(ms[i].value)
  }

  /** Members of the same name have the same value. */
  ghost predicate Consistent(ms: seq<Member>)
    requires PlainMembers(ms)
  {
    forall i, j :: 0 <= i < |ms| && 0 <= j < |ms| && ms[i].name.chars == ms[j].name.chars ==>
      Denote(ms[i].value) == Denote(ms[j].value)
  }

  ghost predicate Submap(m: map<string, Meaning>, n: map<string, Meaning>) {
    forall name :: name in m ==> name in n && m[name] == n[name]
  }

  /** What the comparison of objects decides, whatever names are repeated: equal
      sizes, a consistent left side, and as maps an inclusion. */
  lemma ObjectsEqualExactly(ms: seq<Member>, ns: seq<Member>)
    requires DistinctBelow(ms) && DistinctBelow(ns)
    ensures Equal(Object(ms), Object(ns)) <==>
      |ms| == |ns| && Consistent(ms) && Submap(DenoteMembers(ms), DenoteMembers(ns))
  {
    forall i | 0 <= i < |ms| ensures FoundEqual(ms[i], ns) <==> Matches(ms[i], ns) {
      var j := Find(ns, ms[i].name.chars);
      if j < |ns| {
        EqualMeansSame(ms[i].value, ns[j].value);
      }
    }
    AllMatchExactly(ms, ns);
  }

  lemma AllMatchExactly(ms: seq<Member>, ns: seq<Member>)
    requires PlainMembers(ms) && PlainMembers(ns)
    ensures (forall i :: 0 <= i < |ms| ==> Matches(ms[i], ns)) <==>
      Consistent(ms) && Submap(DenoteMembers(ms), DenoteMembers(ns))
  {
    var m, n := DenoteMembers(ms), DenoteMembers(ns);
    hide Denote, DenoteMembers;
    if forall i :: 0 <= i < |ms| ==> Matches(ms[i], ns) {
      forall name | name in m ensures name in n && m[name] == n[name] {
        MapOfMembers(ms, name);
        MapOfMembers(ns, name);
        assert Matches(ms[Find(ms, name)], ns);
      }
    }
    if Consistent(ms) && Submap(m, n) {
      forall i | 0 <= i < |ms| ensures Matches(ms[i], ns) {
        MapOfMembers(ms, ms[i].name.chars);
        MapOfMembers(ns, ms[i].name.chars);
      }
    }
  }

  /** An object with repeated names is equal to itself exactly if equal names
      carry equal values. */
  lemma SelfEqualExactly(ms: seq<Member>)
    requires DistinctBelow(ms)
    ensures Equal(Object(ms), Object(ms)) <==> Consistent(ms)
  {
    ObjectsEqualExactly(ms, ms);
  }

  /** On the left of the comparison: false with every object exactly if two
      members of one name differ. */
  lemma LeftMatchedExactly(ms: seq<Member>)
    requires DistinctBelow(ms)
    ensures Consistent(ms) <==>
      exists ns :: DistinctBelow(ns) && Equal(Object(ms), Object(ns))
  {
    SelfEqualExactly(ms);
    if ns :| DistinctBelow(ns) && Equal(Object(ms), Object(ns)) {
      ObjectsEqualExactly(ms, ns);
    }
  }

  /** On the right: never false with every object, repeated names or not. */
  lemma RightAlwaysMatched(ns: seq<Member>)
    requires DistinctBelow(ns)
    ensures exists ms :: DistinctBelow(ms) && Equal(Object(ms), Object(ns))
  {
    if ns == [] {
      ObjectsEqualExactly(ns, ns);
    } else {
      var ms := seq(|ns|, _ => ns[0]);
      assert PlainMembers(ms) && DistinctBelow(ms);
      forall i | 0 <= i < |ms| ensures Matches(ms[i], ns) {
        assert ms[i] == ns[0];
      }
      AllMatchExactly(ms, ns);
      ObjectsEqualExactly(ms, ns);
    }
  }

  /** A comparison that is true holds in the other direction as well exactly if
      the right side is consistent and brings no further name. */
  lemma SymmetricExactly(ms: seq<Member>, ns: seq<Member>)
    requires DistinctBelow(ms) && DistinctBelow(ns) && Equal(Object(ms), Object(ns))
    ensures Equal(Object(ns), Object(ms)) <==>
      Consistent(ns) && forall j :: 0 <= j < |ns| ==> exists i :: 0 <= i < |ms| && ms[i].name.chars == ns[j].name.chars
  {
    ObjectsEqualExactly(ms, ns);
    ObjectsEqualExactly(ns, ms);
    NamesIncluded(ns, ms);
  }

  lemma NamesIncluded(ns: seq<Member>, ms: seq<Member>)
    requires PlainMembers(ms) && PlainMembers(ns)
    ensures DenoteMembers(ns).Keys <= DenoteMembers(ms).Keys <==>
      forall j :: 0 <= j < |ns| ==> exists i :: 0 <= i < |ms| && ms[i].name.chars == ns[j].name.chars
  {
    var m, n := DenoteMembers(ms), DenoteMembers(ns);
    hide DenoteMembers;
    if n.Keys <= m.Keys {
      forall j | 0 <= j < |ns| ensures exists i :: 0 <= i < |ms| && ms[i].name.chars == ns[j].name.chars {
        var name := ns[j].name.chars;
        MapOfMembers(ns, name);
        MapOfMembers(ms, name);
        assert ms[Find(ms, name)].name.chars == name;
      }
    } else {
      var name :| name in n && name !in m;
      MapOfMembers(ns, name);
      MapOfMembers(ms, name);
      assert ns[Find(ns, name)].name.chars == name;
    }
  }

  /** Objects with repeated names can be equal to themselves, equal in one
      direction only, or equal on the right without being equal to themselves. */
  lemma RepeatedNames()
    ensures var a := Member(String("a", ConstString), Null);
      var b := Member(String("b", ConstString), Null);
      var a' := Member(String("a", ConstString), True);
      Plain(Object([a, a])) && Plain(Object([a, b])) && Plain(Object([a, a'])) &&
      Equal(Object([a, a]), Object([a, a])) &&
      Equal(Object([a, a]), Object([a, b])) && !Equal(Object([a, b]), Object([a, a])) &&
      Equal(Object([a, a]), Object([a, a'])) && !Equal(Object([a, a']), Object([a, a']))
  {
    var a := Member(String("a", ConstString), Null);
    var b := Member(String("b", ConstString), Null);
    var a' := Member(String("a", ConstString), True);
    assert Find([a, a], "a") == Find([a, b], "a") == Find([a, a'], "a") == 0;
    assert Find([a, a], "b") == 2;
    assert [a, b][1].name.chars == "b" && [a, a'][1] == a';
    assert !FoundEqual([a, a'][1], [a, a']);
  }

  /** The numbers -1 and 2^64 - 1 share their pattern. */
  lemma MinusOneEqualsLargest()
    ensures Equal(Num(FromInt64(-1)), Num(FromUint64(TWO64 - 1)))
    ensures Stores(FromInt64(-1), -1) && Stores(FromUint64(TWO64 - 1), TWO64 - 1)
  {
    Int64sStore(-1, TWO64 - 1);
  }
}
