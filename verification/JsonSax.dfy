/** Values as event streams (`Accept`) and event streams as values (the handler
    methods of `GenericDocument`, a machine with a stack of values). */
module JsonSax {
  import opened JsonNumber
  import opened JsonValue

  datatype Event =
    | NullEvent
    | BoolEvent(b: bool)
    | IntEvent(i: Int32)
    | UintEvent(u: Uint32)
    | Int64Event(i64: Int64)
    | Uint64Event(u64: Uint64)
    | DoubleEvent(d: Uint64)
    | StringEvent(chars: string, copy: bool)
    | KeyEvent(key: string, copyKey: bool)
    | StartObject
    | EndObject(memberCount: nat)
    | StartArray
    | EndArray(elementCount: nat)

  datatype Stack = Failed | Ok(values: seq<Value>)

  function NumberEvent(n: Number): Event {
    if n.IsDouble() then DoubleEvent(n.data)
    else if n.IsInt() then IntEvent(n.GetInt())
    else if n.IsUint() then UintEvent(n.GetUint())
    else if n.IsInt64() then Int64Event(n.GetInt64())
    else Uint64Event(n.GetUint64())
  }

  /** The number that the handler makes of `NumberEvent(n)`. */
  function RemadeNumber(n: Number): Number {
    if n.IsDouble() then FromDouble(n.data)
    else if n.IsInt() then FromInt(n.GetInt())
    else if n.IsUint() then FromUint(n.GetUint())
    else if n.IsInt64() then FromInt64(n.GetInt64())
    else FromUint64(n.GetUint64())
  }

  function KeyOf(name: Value): Event
    requires name.String?
  {
    KeyEvent(name.chars, !name.storage.ConstString?)
  }

  /** `Accept`: the events of a value, in order. */
  ghost function Events(v: Value): seq<Event>
    requires Named(v)
    decreases v, 1
  {
    match v
    case Null => [NullEvent]
    case False => [BoolEvent(false)]
    case True => [BoolEvent(true)]
    case Object(ms) => [StartObject] + MemberEvents(ms) + [EndObject(|ms|)]
    case Array(es) => [StartArray] + ElementEvents(es) + [EndArray(|es|)]
    case String(chars, storage) => [StringEvent(chars, !storage.ConstString?)]
    case Num(n) => [NumberEvent(n)]
  }

  ghost predicate NamedMembers(ms: seq<Member>) {
    forall i :: 0 <= i < |ms| ==> ms[i].name.String? && Named(ms[i].value)
  }

  ghost predicate NamedElements(es: seq<Value>) {
    forall i :: 0 <= i < |es| ==> Named(es[i])
  }

  ghost function MemberEvents(ms: seq<Member>): seq<Event>
    requires NamedMembers(ms)
    decreases ms, 0
  {
    if ms == [] then []
    else [KeyOf(ms[0].name)] + EventsIn(ms[0]) + MemberEvents(ms[1..])
  }

  ghost function EventsIn(m: Member): seq<Event>
    requires Named(m.value)
    decreases m, 0
  {
    Events(m.value)
  }

  ghost function ElementEvents(es: seq<Value>): seq<Event>
    requires NamedElements(es)
    decreases es, 0
  {
    if es == [] then [] else Events(es[0]) + ElementEvents(es[1..])
  }

  // ----- What any reader of the events can rely on -----

  /** An open bracket: an object with the number of its finished members and
      whether a name is waiting for its value, or an array with its elements. */
  datatype Open = OpenObject(members: nat, named: bool) | OpenArray(elements: nat)

  datatype Reading = Rejected | Reading(open: seq<Open>, finished: nat)

  predicate TakesValue(open: seq<Open>) {
    open == [] || open[|open| - 1].OpenArray? || open[|open| - 1].named
  }

  /** A value has been read, inside the innermost bracket or outside of all. */
  function OneMore(open: seq<Open>, finished: nat): Reading {
    if !TakesValue(open) then Rejected
    else if open == [] then Reading([], finished + 1)
    else
      var outer, top := open[..|open| - 1], open[|open| - 1];
      Reading(outer + [if top.OpenArray? then OpenArray(top.elements + 1) else OpenObject(top.members + 1, false)],
              finished)
  }

  /** A reader that insists on matching brackets with the right counts, on names
      and values in turn inside objects, and on no names anywhere else. */
  function ReadOne(r: Reading, e: Event): Reading {
    if r.Rejected? then Rejected
    else
      var outer := if r.open == [] then [] else r.open[..|r.open| - 1];
      match e
      case StartObject => if TakesValue(r.open) then Reading(r.open + [OpenObject(0, false)], r.finished) else Rejected
      case StartArray => if TakesValue(r.open) then Reading(r.open + [OpenArray(0)], r.finished) else Rejected
      case KeyEvent(_, _) =>
        if r.open != [] && r.open[|r.open| - 1].OpenObject? && !r.open[|r.open| - 1].named then
          Reading(outer + [OpenObject(r.open[|r.open| - 1].members, true)], r.finished)
        else Rejected
      case EndObject(n) =>
        if r.open != [] && r.open[|r.open| - 1] == OpenObject(n, false) then OneMore(outer, r.finished) else Rejected
      case EndArray(n) =>
        if r.open != [] && r.open[|r.open| - 1] == OpenArray(n) then OneMore(outer, r.finished) else Rejected
      case _ => OneMore(r.open, r.finished)
  }

  ghost function ReadAll(r: Reading, es: seq<Event>): Reading
    decreases |es|
  {
    if es == [] then r else ReadAll(ReadOne(r, es[0]), es[1..])
  }

  lemma {:induction false} ReadConcat(r: Reading, a: seq<Event>, b: seq<Event>)
    ensures ReadAll(r, a + b) == ReadAll(ReadAll(r, a), b)
    decreases |a|
  {
    hide ReadOne;
    if a == [] {
      assert a + b == b;
    } else {
      assert (a + b)[1..] == a[1..] + b && (a + b)[0] == a[0];
      ReadConcat(ReadOne(r, a[0]), a[1..], b);
    }
  }

  lemma ReadSingle(r: Reading, e: Event)
    ensures ReadAll(r, [e]) == ReadOne(r, e)
  {
    assert [e][1..] == [];
  }

  lemma ReadBracketed(r: Reading, first: Event, body: seq<Event>, last: Event)
    ensures ReadAll(r, [first] + body + [last]) == ReadOne(ReadAll(ReadOne(r, first), body), last)
  {
    hide ReadAll, ReadOne;
    ReadConcat(r, [first] + body, [last]);
    ReadConcat(r, [first], body);
    ReadSingle(r, first);
    ReadSingle(ReadAll(ReadOne(r, first), body), last);
  }

  /** Wherever a value may stand, the events of any value are read as exactly
      one value. */
  lemma {:induction false} EventsReadAsOne(open: seq<Open>, finished: nat, v: Value)
    requires Named(v) && TakesValue(open)
    ensures ReadAll(Reading(open, finished), Events(v)) == OneMore(open, finished)
    decreases v, 1
  {
    match v
    case Object(ms) => ObjectReadsAsOne(open, finished, ms);
    case Array(es) => ArrayReadsAsOne(open, finished, es);
    case _ => ReadSingle(Reading(open, finished), Events(v)[0]);
  }

  lemma {:induction false} ObjectReadsAsOne(open: seq<Open>, finished: nat, ms: seq<Member>)
    requires NamedMembers(ms) && TakesValue(open)
    ensures ReadAll(Reading(open, finished), [StartObject] + MemberEvents(ms) + [EndObject(|ms|)]) ==
      OneMore(open, finished)
    decreases ms, 1
  {
    hide ReadAll, MemberEvents;
    ReadBracketed(Reading(open, finished), StartObject, MemberEvents(ms), EndObject(|ms|));
    MembersReadAsAll(open, finished, 0, ms);
    assert (open + [OpenObject(|ms|, false)])[..|open|] == open;
  }

  lemma {:induction false} ArrayReadsAsOne(open: seq<Open>, finished: nat, es: seq<Value>)
    requires NamedElements(es) && TakesValue(open)
    ensures ReadAll(Reading(open, finished), [StartArray] + ElementEvents(es) + [EndArray(|es|)]) ==
      OneMore(open, finished)
    decreases es, 1
  {
    hide ReadAll, ElementEvents;
    ReadBracketed(Reading(open, finished), StartArray, ElementEvents(es), EndArray(|es|));
    ElementsReadAsAll(open, finished, 0, es);
    assert (open + [OpenArray(|es|)])[..|open|] == open;
  }

  lemma {:induction false} MembersReadAsAll(outer: seq<Open>, finished: nat, k: nat, ms: seq<Member>)
    requires NamedMembers(ms)
    ensures ReadAll(Reading(outer + [OpenObject(k, false)], finished), MemberEvents(ms)) ==
      Reading(outer + [OpenObject(k + |ms|, false)], finished)
    decreases ms, 0
  {
    if ms != [] {
      var r := Reading(outer + [OpenObject(k, false)], finished);
      var named := outer + [OpenObject(k, true)];
      var key, first, rest := [KeyOf(ms[0].name)], EventsIn(ms[0]), MemberEvents(ms[1..]);
      hide ReadAll, Events, EventsIn;
      ReadConcat(r, key + first, rest);
      ReadConcat(r, key, first);
      ReadSingle(r, key[0]);
      assert r.open[..|outer|] == outer && named[..|outer|] == outer;
      MemberReadsAsOne(named, finished, ms[0]);
      MembersReadAsAll(outer, finished, k + 1, ms[1..]);
    }
  }

  lemma {:induction false} MemberReadsAsOne(open: seq<Open>, finished: nat, m: Member)
    requires Named(m.value) && TakesValue(open)
    ensures ReadAll(Reading(open, finished), EventsIn(m)) == OneMore(open, finished)
    decreases m, 0
  {
    EventsReadAsOne(open, finished, m.value);
  }

  lemma {:induction false} ElementsReadAsAll(outer: seq<Open>, finished: nat, k: nat, es: seq<Value>)
    requires NamedElements(es)
    ensures ReadAll(Reading(outer + [OpenArray(k)], finished), ElementEvents(es)) ==
      Reading(outer + [OpenArray(k + |es|)], finished)
    decreases es, 0
  {
    if es != [] {
      var r := Reading(outer + [OpenArray(k)], finished);
      hide ReadAll, Events;
      ReadConcat(r, Events(es[0]), ElementEvents(es[1..]));
      assert r.open[..|outer|] == outer;
      EventsReadAsOne(r.open, finished, es[0]);
      ElementsReadAsAll(outer, finished, k + 1, es[1..]);
    }
  }

  /** The first event tells the kind of the value and, except for brackets, the
      value itself. */
  lemma EventKinds(v: Value)
    requires Named(v)
    ensures Events(v) != []
    ensures v.Object? <==> Events(v)[0] == StartObject
    ensures v.Array? <==> Events(v)[0] == StartArray
    ensures v.Null? ==> Events(v) == [NullEvent]
    ensures v.True? ==> Events(v) == [BoolEvent(true)]
    ensures v.False? ==> Events(v) == [BoolEvent(false)]
    ensures v.String? ==> Events(v) == [StringEvent(v.chars, v.storage.CopyString? || v.storage.ShortString?)]
    ensures v.Object? ==> Events(v)[|Events(v)| - 1] == EndObject(|v.members|)
    ensures v.Array? ==> Events(v)[|Events(v)| - 1] == EndArray(|v.elements|)
  {
  }

  /** A stored integer is announced with its value, by the first of the four
      types in whose range it lies; a double by its pattern. */
  lemma NumberKinds(n: Number, i: int)
    ensures Stores(n, i) ==> Events(Num(n)) == [
      if -TWO31 <= i < TWO31 then IntEvent(i)
      else if 0 <= i < TWO32 then UintEvent(i)
      else if i < TWO63 then Int64Event(i)
      else Uint64Event(i)]
    ensures n.IsDouble() ==> Events(Num(n)) == [DoubleEvent(n.data)]
  {
  }

  /** A stack segment read as an array of members, two values each. */
  function Paired(vs: seq<Value>): seq<Member>
    requires |vs| % 2 == 0
  {
    if vs == [] then [] else [Member(vs[0], vs[1])] + Paired(vs[2..])
  }

  /** One handler call; the assertions of the stack make it fail. */
  function Handle(s: seq<Value>, e: Event): Stack {
    match e
    case NullEvent => Ok(s + [Null])
    case BoolEvent(b) => Ok(s + [if b then True else False])
    case IntEvent(i) => Ok(s + [Num(FromInt(i))])
    case UintEvent(u) => Ok(s + [Num(FromUint(u))])
    case Int64Event(i) => Ok(s + [Num(FromInt64(i))])
    case Uint64Event(u) => Ok(s + [Num(FromUint64(u))])
    case DoubleEvent(d) => Ok(s + [Num(FromDouble(d))])
    case StringEvent(chars, copy) => Ok(s + [MakeString(chars, copy)])
    case KeyEvent(chars, copy) => Ok(s + [MakeString(chars, copy)])
    case StartObject => Ok(s + [Object([])])
    case StartArray => Ok(s + [Array([])])
    case EndObject(n) => CloseObject(s, n)
    case EndArray(n) => CloseArray(s, n)
  }

  /** Pops `n` members and overwrites the value below them. */
  function CloseObject(s: seq<Value>, n: nat): Stack {
    var base := |s| - 2 * n;
    if base < 1 then Failed else Ok(s[..base - 1] + [Object(Paired(s[base..]))])
  }

  function CloseArray(s: seq<Value>, n: nat): Stack {
    var base := |s| - n;
    if base < 1 then Failed else Ok(s[..base - 1] + [Array(s[base..])])
  }

  ghost function HandleAll(s: Stack, es: seq<Event>): Stack
    decreases |es|
  {
    if s.Failed? || es == [] then s else HandleAll(Handle(s.values, es[0]), es[1..])
  }

  lemma {:induction false} HandleConcat(s: Stack, a: seq<Event>, b: seq<Event>)
    ensures HandleAll(s, a + b) == HandleAll(HandleAll(s, a), b)
    decreases |a|
  {
    if a == [] || s.Failed? {
      assert a == [] ==> a + b == b;
    } else {
      assert (a + b)[1..] == a[1..] + b;
      HandleConcat(Handle(s.values, a[0]), a[1..], b);
    }
  }

  lemma HandleOne(s: Stack, e: Event)
    requires s.Ok?
    ensures HandleAll(s, [e]) == Handle(s.values, e)
  {
    assert [e][1..] == [];
  }

  // ----- What comes out of the round trip -----

  ghost function Remade(v: Value): Value
    requires Named(v)
    decreases v, 1
  {
    match v
    case Object(ms) => Object(RemadeMembers(ms))
    case Array(es) => Array(RemadeElements(es))
    case String(chars, storage) => MakeString(chars, !storage.ConstString?)
    case Num(n) => Num(RemadeNumber(n))
    case _ => v
  }

  ghost function RemadeName(name: Value): Value
    requires name.String?
  {
    MakeString(name.chars, !name.storage.ConstString?)
  }

  ghost function RemadeMember(m: Member): Member
    requires m.name.String? && Named(m.value)
    decreases m, 0
  {
    Member(RemadeName(m.name), Remade(m.value))
  }

  ghost function RemadeMembers(ms: seq<Member>): (r: seq<Member>)
    requires NamedMembers(ms)
    ensures |r| == |ms|
    decreases ms, 0
  {
    if ms == [] then []
    else [RemadeMember(ms[0])] + RemadeMembers(ms[1..])
  }

  ghost function RemadeElements(es: seq<Value>): (r: seq<Value>)
    requires NamedElements(es)
    ensures |r| == |es|
    decreases es, 0
  {
    if es == [] then [] else [Remade(es[0])] + RemadeElements(es[1..])
  }

  /** Members as they lie on the stack. */
  ghost function Flat(ms: seq<Member>): (r: seq<Value>)
    ensures |r| == 2 * |ms|
  {
    if ms == [] then [] else [ms[0].name, ms[0].value] + Flat(ms[1..])
  }

  lemma {:induction false} PairedFlat(ms: seq<Member>)
    ensures Paired(Flat(ms)) == ms
  {
    if ms != [] {
      assert Flat(ms)[2..] == Flat(ms[1..]);
      PairedFlat(ms[1..]);
    }
  }

  /** The closing events wrap up what lies above the open value. */
  lemma ObjectCloses(s: seq<Value>, ms: seq<Member>)
    ensures CloseObject(s + [Object([])] + Flat(ms), |ms|) == Ok(s + [Object(ms)])
  {
    SplitAtOpen(s, Object([]), Flat(ms));
    PairedFlat(ms);
  }

  lemma SplitAtOpen(s: seq<Value>, open: Value, above: seq<Value>)
    ensures (s + [open] + above)[..|s|] == s
    ensures (s + [open] + above)[|s| + 1..] == above
  {
  }

  lemma ArrayCloses(s: seq<Value>, es: seq<Value>)
    ensures CloseArray(s + [Array([])] + es, |es|) == Ok(s + [Array(es)])
  {
    var full := s + [Array([])] + es;
    assert full[..|s|] == s && full[|s| + 1..] == es;
  }

  lemma HandleBracketed(s: seq<Value>, open: Event, body: seq<Event>, close: Event)
    ensures HandleAll(Ok(s), [open] + body + [close]) ==
      HandleAll(HandleAll(Handle(s, open), body), [close])
  {
    HandleConcat(Ok(s), [open] + body, [close]);
    HandleConcat(Ok(s), [open], body);
    HandleOne(Ok(s), open);
  }

  /** The handler, fed with the events of `v`, pushes exactly one value. */
  lemma {:induction false} EventsPushOne(s: seq<Value>, v: Value)
    requires Named(v)
    ensures HandleAll(Ok(s), Events(v)) == Ok(s + [Remade(v)])
    decreases v, 1
  {
    if v.Object? {
      var ms := v.members;
      BracketedMembers(s, ms);
    } else if v.Array? {
      var es := v.elements;
      BracketedElements(s, es);
    } else {
      HandleOne(Ok(s), Events(v)[0]);
      assert Events(v) == [Events(v)[0]];
    }
  }

  lemma {:induction false} BracketedMembers(s: seq<Value>, ms: seq<Member>)
    requires NamedMembers(ms)
    ensures HandleAll(Ok(s), [StartObject] + MemberEvents(ms) + [EndObject(|ms|)]) ==
      Ok(s + [Object(RemadeMembers(ms))])
    decreases ms, 1
  {
    hide HandleAll, CloseObject, CloseArray, Flat;
    var r := RemadeMembers(ms);
    HandleBracketed(s, StartObject, MemberEvents(ms), EndObject(|ms|));
    MembersPushAll(s + [Object([])], ms);
    HandleOne(Ok(s + [Object([])] + Flat(r)), EndObject(|ms|));
    ObjectCloses(s, r);
  }

  lemma {:induction false} BracketedElements(s: seq<Value>, es: seq<Value>)
    requires NamedElements(es)
    ensures HandleAll(Ok(s), [StartArray] + ElementEvents(es) + [EndArray(|es|)]) ==
      Ok(s + [Array(RemadeElements(es))])
    decreases es, 1
  {
    hide HandleAll, CloseObject, CloseArray;
    var r := RemadeElements(es);
    HandleBracketed(s, StartArray, ElementEvents(es), EndArray(|es|));
    ElementsPushAll(s + [Array([])], es);
    HandleOne(Ok(s + [Array([])] + r), EndArray(|es|));
    ArrayCloses(s, r);
  }

  lemma {:induction false} MembersPushAll(s: seq<Value>, ms: seq<Member>)
    requires NamedMembers(ms)
    ensures HandleAll(Ok(s), MemberEvents(ms)) == Ok(s + Flat(RemadeMembers(ms)))
    decreases ms, 0
  {
    if ms == [] {
      assert s + [] == s;
    } else {
      var key, first, rest := [KeyOf(ms[0].name)], EventsIn(ms[0]), MemberEvents(ms[1..]);
      var s1 := s + [RemadeName(ms[0].name)];
      var s2 := s1 + [Remade(ms[0].value)];
      HandleConcat(Ok(s), key + first, rest);
      HandleConcat(Ok(s), key, first);
      HandleOne(Ok(s), key[0]);
      MemberPushesOne(s1, ms[0]);
      MembersPushAll(s2, ms[1..]);
      var r := RemadeMembers(ms);
      assert r[0] == RemadeMember(ms[0]) && r[1..] == RemadeMembers(ms[1..]);
      assert s2 + Flat(r[1..]) == s + Flat(r);
    }
  }

  lemma {:induction false} MemberPushesOne(s: seq<Value>, m: Member)
    requires Named(m.value)
    ensures HandleAll(Ok(s), EventsIn(m)) == Ok(s + [Remade(m.value)])
    decreases m, 0
  {
    EventsPushOne(s, m.value);
  }

  lemma {:induction false} ElementsPushAll(s: seq<Value>, es: seq<Value>)
    requires NamedElements(es)
    ensures HandleAll(Ok(s), ElementEvents(es)) == Ok(s + RemadeElements(es))
    decreases es, 0
  {
    if es == [] {
      assert s + [] == s;
    } else {
      hide Handle, HandleAll;
      HandleConcat(Ok(s), Events(es[0]), ElementEvents(es[1..]));
      EventsPushOne(s, es[0]);
      ElementsPushAll(s + [Remade(es[0])], es[1..]);
      assert RemadeElements(es) == [Remade(es[0])] + RemadeElements(es[1..]);
      hide Remade, RemadeElements, Events, ElementEvents;
      Regroup(s, [Remade(es[0])], RemadeElements(es[1..]));
    }
  }

  lemma Regroup(a: seq<Value>, b: seq<Value>, c: seq<Value>)
    ensures a + b + c == a + (b + c)
  {
  }

  // ----- When the round trip is the identity -----

  /** Copied strings are stored inline exactly when they are short. */
  predicate StorageOk(v: Value)
    requires v.String?
  {
    v.storage.ConstString? || (v.storage.ShortString? <==> |v.chars| <= MAX_SHORT)
  }

  ghost predicate AsConstructed(v: Value) {
    match v
    case Object(ms) =>
      forall i :: 0 <= i < |ms| ==> ms[i].name.String? && StorageOk(ms[i].name) && AsConstructed(ms[i].value)
    case Array(es) => forall i :: 0 <= i < |es| ==> AsConstructed(es[i])
    case String(_, _) => StorageOk(v)
    case Num(n) => Canonical(n)
    case _ => true
  }

  lemma NumberRoundTrip(n: Number)
    ensures RemadeNumber(n) == n <==> Canonical(n)
  {
    if n.IsDouble() {
      assert forall v :: !Stores(n, v);
    } else {
      var i: Int32, u: Uint32, i64: Int64, u64: Uint64 := n.GetInt(), n.GetUint(), n.GetInt64(), n.GetUint64();
      Int32sStore(i, u);
      Int64sStore(i64, u64);
      if v :| Stores(n, v) {
        OneRepresentation(RemadeNumber(n), n, v);
      }
    }
  }

  /** The round trip through events gives back the original value if and only
      if every number and string in it is as its constructors make it. */
  lemma {:induction false} RoundTripExactly(v: Value)
    requires Named(v)
    ensures Remade(v) == v <==> AsConstructed(v)
    decreases v, 1
  {
    match v
    case Object(ms) => MembersExactly(ms);
    case Array(es) => ElementsExactly(es);
    case Num(n) => NumberRoundTrip(n);
    case _ =>
  }

  lemma {:induction false} MemberExactly(m: Member)
    requires m.name.String? && Named(m.value)
    ensures RemadeMember(m) == m <==> StorageOk(m.name) && AsConstructed(m.value)
    decreases m, 0
  {
    RoundTripExactly(m.value);
  }

  lemma {:induction false} MembersExactly(ms: seq<Member>)
    requires NamedMembers(ms)
    ensures RemadeMembers(ms) == ms <==>
      forall i :: 0 <= i < |ms| ==> StorageOk(ms[i].name) && AsConstructed(ms[i].value)
    decreases ms, 0
  {
    if ms != [] {
      MemberExactly(ms[0]);
      MembersExactly(ms[1..]);
      var r := RemadeMembers(ms);
      assert r[0] == RemadeMember(ms[0]) && r[1..] == RemadeMembers(ms[1..]);
      assert ms == [ms[0]] + ms[1..];
      assert r == ms <==> r[0] == ms[0] && r[1..] == ms[1..];
      assert forall i :: 0 <= i < |ms[1..]| ==> ms[1..][i] == ms[i + 1];
      assert forall i :: 1 <= i < |ms| ==> ms[i] == ms[1..][i - 1];
    }
  }

  lemma {:induction false} ElementsExactly(es: seq<Value>)
    requires NamedElements(es)
    ensures RemadeElements(es) == es <==> forall i :: 0 <= i < |es| ==> AsConstructed(es[i])
    decreases es, 0
  {
    if es != [] {
      RoundTripExactly(es[0]);
      ElementsExactly(es[1..]);
      var r := RemadeElements(es);
      assert r[0] == Remade(es[0]) && r[1..] == RemadeElements(es[1..]);
      assert es == [es[0]] + es[1..];
      assert r == es <==> r[0] == es[0] && r[1..] == es[1..];
      assert forall i :: 1 <= i < |es| ==> es[i] == es[1..][i - 1];
    }
  }

  /** `Value(kNumberType)` comes back as the double 0.0. */
  lemma DefaultNumberChanges()
    ensures var v := Num(Number(NUMBER_ANY, 0)); Remade(v) == Num(FromDouble(0)) != v
  {
    assert UintFlag in NUMBER_ANY && UintFlag !in NUMBER_DOUBLE;
  }

  // ----- The document and the recursive generator -----

  class Document {
    var stack: seq<Value>
    var failed: bool

    /** All events received. */
    ghost var log: seq<Event>

    constructor ()
      ensures stack == [] && !failed && log == []
    {
      stack, failed, log := [], false, [];
    }

    /** All handler methods; `failed` stands for a failed stack assertion. */
    method On(e: Event)
      requires !failed
      modifies this
      ensures (if failed then Failed else Ok(stack)) == Handle(old(stack), e)
      ensures log == old(log) + [e]
    {
      log := log + [e];
      match e
      case EndObject(n) =>
        if |stack| < 2 * n + 1 {
          failed := true;
        } else {
          var members := stack[|stack| - 2 * n..];
          stack := stack[..|stack| - 2 * n];
          stack := stack[|stack| - 1 := Object(Paired(members))];
        }
      case EndArray(n) =>
        if |stack| < n + 1 {
          failed := true;
        } else {
          var elements := stack[|stack| - n..];
          stack := stack[..|stack| - n];
          stack := stack[|stack| - 1 := Array(elements)];
        }
      case NullEvent => stack := stack + [Null];
      case BoolEvent(b) => stack := stack + [if b then True else False];
      case IntEvent(i) => stack := stack + [Num(FromInt(i))];
      case UintEvent(u) => stack := stack + [Num(FromUint(u))];
      case Int64Event(i) => stack := stack + [Num(FromInt64(i))];
      case Uint64Event(u) => stack := stack + [Num(FromUint64(u))];
      case DoubleEvent(d) => stack := stack + [Num(FromDouble(d))];
      case StringEvent(chars, copy) => stack := stack + [MakeString(chars, copy)];
      case KeyEvent(chars, copy) => stack := stack + [MakeString(chars, copy)];
      case StartObject => stack := stack + [Object([])];
      case StartArray => stack := stack + [Array([])];
    }
  }

  /** `v.Accept(doc)` */
  method Accept(v: Value, doc: Document)
    requires Named(v) && !doc.failed
    modifies doc
    ensures !doc.failed && doc.stack == old(doc.stack) + [Remade(v)]
    ensures doc.log == old(doc.log) + Events(v)
    decreases v, 1
  {
    match v
    case Null => doc.On(NullEvent);
    case False => doc.On(BoolEvent(false));
    case True => doc.On(BoolEvent(true));
    case Object(ms) => AcceptMembers(v, doc);
    case Array(es) => AcceptElements(v, doc);
    case String(chars, storage) => doc.On(StringEvent(chars, !storage.ConstString?));
    case Num(n) => doc.On(NumberEvent(n));
  }

  method AcceptMembers(v: Value, doc: Document)
    requires v.Object? && Named(v) && !doc.failed
    modifies doc
    ensures !doc.failed && doc.stack == old(doc.stack) + [Remade(v)]
    ensures doc.log == old(doc.log) + Events(v)
    decreases v, 0
  {
    hide HandleAll, Flat, Paired, RemadeMembers, MemberEvents, CloseObject, CloseArray, StorageOk;
    var ms := v.members;
    ghost var r := RemadeMembers(ms);
    NoEvents();
    doc.On(StartObject);
    for i := 0 to |ms|
      invariant !doc.failed && doc.stack == old(doc.stack) + [Object([])] + Flat(r[..i])
      invariant doc.log == old(doc.log) + [StartObject] + MemberEvents(ms[..i])
    {
      MemberEventsSnoc(ms, i);
      doc.On(KeyOf(ms[i].name));
      Accept(ms[i].value, doc);
      FlatSnoc(r, i);
      RemadeMemberAt(ms, i);
    }
    assert r[..|ms|] == r && ms[..|ms|] == ms;
    ObjectCloses(old(doc.stack), r);
    doc.On(EndObject(|ms|));
  }

  method AcceptElements(v: Value, doc: Document)
    requires v.Array? && Named(v) && !doc.failed
    modifies doc
    ensures !doc.failed && doc.stack == old(doc.stack) + [Remade(v)]
    ensures doc.log == old(doc.log) + Events(v)
    decreases v, 0
  {
    hide HandleAll, RemadeElements, ElementEvents, CloseObject, CloseArray, Paired, StorageOk;
    var es := v.elements;
    ghost var r := RemadeElements(es);
    NoEvents();
    doc.On(StartArray);
    for i := 0 to |es|
      invariant !doc.failed && doc.stack == old(doc.stack) + [Array([])] + r[..i]
      invariant doc.log == old(doc.log) + [StartArray] + ElementEvents(es[..i])
    {
      ElementEventsSnoc(es, i);
      Accept(es[i], doc);
      RemadeElementAt(es, i);
      assert r[..i + 1] == r[..i] + [r[i]];
    }
    assert r[..|es|] == r && es[..|es|] == es;
    ArrayCloses(old(doc.stack), r);
    doc.On(EndArray(|es|));
  }

  lemma NoEvents()
    ensures MemberEvents([]) == [] && ElementEvents([]) == [] && Flat([]) == []
  {
  }

  lemma {:induction false} MemberEventsSnoc(ms: seq<Member>, i: nat)
    requires NamedMembers(ms) && i < |ms|
    ensures MemberEvents(ms[..i + 1]) == MemberEvents(ms[..i]) + [KeyOf(ms[i].name)] + Events(ms[i].value)
  {
    if i > 0 {
      assert ms[..i + 1][1..] == ms[1..][..i] && ms[..i][1..] == ms[1..][..i - 1];
      MemberEventsSnoc(ms[1..], i - 1);
    }
  }

  lemma {:induction false} ElementEventsSnoc(es: seq<Value>, i: nat)
    requires NamedElements(es) && i < |es|
    ensures ElementEvents(es[..i + 1]) == ElementEvents(es[..i]) + Events(es[i])
  {
    if i > 0 {
      assert es[..i + 1][1..] == es[1..][..i] && es[..i][1..] == es[1..][..i - 1];
      ElementEventsSnoc(es[1..], i - 1);
    }
  }

  lemma {:induction false} FlatSnoc(ms: seq<Member>, i: nat)
    requires i < |ms|
    ensures Flat(ms[..i + 1]) == Flat(ms[..i]) + [ms[i].name, ms[i].value]
  {
    if i > 0 {
      assert ms[..i + 1][1..] == ms[1..][..i] && ms[..i][1..] == ms[1..][..i - 1];
      FlatSnoc(ms[1..], i - 1);
    }
  }

  lemma {:induction false} RemadeMemberAt(ms: seq<Member>, i: nat)
    requires NamedMembers(ms) && i < |ms|
    ensures RemadeMembers(ms)[i] == RemadeMember(ms[i])
  {
    if i > 0 {
      RemadeMemberAt(ms[1..], i - 1);
    }
  }

  lemma {:induction false} RemadeElementAt(es: seq<Value>, i: nat)
    requires NamedElements(es) && i < |es|
    ensures RemadeElements(es)[i] == Remade(es[i])
  {
    if i > 0 {
      RemadeElementAt(es[1..], i - 1);
    }
  }

  /** `Populate` with the generator `v.Accept`: a deep copy through events. */
  method Clone(v: Value) returns (r: Value)
    requires Named(v)
    ensures AsConstructed(v) <==> r == v
    ensures Ok([r]) == HandleAll(Ok([]), Events(v))
  {
    var doc := new Document();
    Accept(v, doc);
    assert |doc.stack| == 1;
    r := doc.stack[0];
    RoundTripExactly(v);
    EventsPushOne([], v);
  }
}
