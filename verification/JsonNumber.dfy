/** Number representation of `GenericValue`: an 8-byte pattern and a set of
    flags that tells which getters may be called.  Patterns are the integers
    0 .. 2^64 - 1; a mask test for "no bit at position k or above" is a
    comparison of the quotient by 2^k with zero. */
module JsonNumber {

  const TWO31: int := 0x8000_0000
  const TWO32: int := 0x1_0000_0000
  const TWO63: int := 0x8000_0000_0000_0000
  const TWO64: int := 0x1_0000_0000_0000_0000

  type Int32 = i: int | -TWO31 <= i < TWO31
  type Uint32 = u: int | 0 <= u < TWO32
  type Int64 = i: int | -TWO63 <= i < TWO63
  type Uint64 = u: int | 0 <= u < TWO64

  datatype Flag = NumberFlag | IntFlag | UintFlag | Int64Flag | Uint64Flag | DoubleFlag

  const NUMBER_INT: set<Flag> := {NumberFlag, IntFlag, Int64Flag}
  const NUMBER_UINT: set<Flag> := {NumberFlag, UintFlag, Uint64Flag, Int64Flag}
  const NUMBER_INT64: set<Flag> := {NumberFlag, Int64Flag}
  const NUMBER_UINT64: set<Flag> := {NumberFlag, Uint64Flag}
  const NUMBER_DOUBLE: set<Flag> := {NumberFlag, DoubleFlag}
  const NUMBER_ANY: set<Flag> := {NumberFlag, IntFlag, Int64Flag, UintFlag, Uint64Flag, DoubleFlag}

  datatype Number = Number(flags: set<Flag>, data: Uint64) {
    predicate IsInt() { IntFlag in flags }
    predicate IsUint() { UintFlag in flags }
    predicate IsInt64() { Int64Flag in flags }
    predicate IsUint64() { Uint64Flag in flags }
    predicate IsDouble() { DoubleFlag in flags }

    /** The getters, as reads of the union on a little-endian machine. */
    function GetInt(): Int32 {
      if data % TWO32 < TWO31 then data % TWO32 else data % TWO32 - TWO32
    }
    function GetUint(): Uint32 { data % TWO32 }
    function GetInt64(): Int64 {
      if data < TWO63 then data else data - TWO64
    }
    function GetUint64(): Uint64 { data }
  }

  /** The pattern of a signed integer. */
  function Pattern(i: Int64): Uint64 {
    if i < 0 then i + TWO64 else i
  }

  // ----- The constructors -----

  function FromInt(i: Int32): Number {
    Number(if i >= 0 then NUMBER_INT + {UintFlag} + {Uint64Flag} else NUMBER_INT, Pattern(i))
  }

  function FromUint(u: Uint32): Number {
    Number(if u / TWO31 % 2 == 1 then NUMBER_UINT else NUMBER_UINT + {IntFlag} + {Int64Flag}, u)
  }

  function FromInt64(i: Int64): Number {
    var flags :=
      if i >= 0 then
        NUMBER_INT64 + NUMBER_UINT64 +
        (if i / TWO32 == 0 then {UintFlag} else {}) +
        (if i / TWO31 == 0 then {IntFlag} else {})
      else if i >= -TWO31 then NUMBER_INT64 + {IntFlag}
      else NUMBER_INT64;
    Number(flags, Pattern(i))
  }

  function FromUint64(u: Uint64): Number {
    Number(NUMBER_UINT64 +
           (if u / TWO63 == 0 then {Int64Flag} else {}) +
           (if u / TWO32 == 0 then {UintFlag} else {}) +
           (if u / TWO31 == 0 then {IntFlag} else {}),
           u)
  }

  /** Doubles are patterns; their arithmetic is not modelled. */
  function FromDouble(d: Uint64): Number {
    Number(NUMBER_DOUBLE, d)
  }

  // ----- What the flags promise -----

  /** `n` stores the integer `v`: its flags name exactly the C++ types whose
      range contains `v`, and every permitted getter returns `v`. */
  ghost predicate Stores(n: Number, v: int) {
    -TWO63 <= v < TWO64 && NumberFlag in n.flags && !n.IsDouble() &&
    (n.IsInt() <==> -TWO31 <= v < TWO31) && (n.IsUint() <==> 0 <= v < TWO32) &&
    (n.IsInt64() <==> -TWO63 <= v < TWO63) && (n.IsUint64() <==> 0 <= v < TWO64) &&
    (n.IsInt() ==> n.GetInt() == v) && (n.IsUint() ==> n.GetUint() == v) &&
    (n.IsInt64() ==> n.GetInt64() == v) && (n.IsUint64() ==> n.GetUint64() == v)
  }

  /** The integer constructors set flags that say exactly which ranges the
      integer fits. */
  lemma Int32sStore(i: Int32, u: Uint32)
    ensures Stores(FromInt(i), i) && Stores(FromUint(u), u)
  {
  }

  lemma Int64sStore(i: Int64, u: Uint64)
    ensures Stores(FromInt64(i), i) && Stores(FromUint64(u), u)
  {
  }

  /** An integer has one representation, whichever constructor made it. */
  lemma OneRepresentation(m: Number, n: Number, v: int)
    requires Stores(m, v) && Stores(n, v)
    ensures m == n
  {
    forall f: Flag ensures f in m.flags <==> f in n.flags {
      match f
      case NumberFlag =>
      case IntFlag => assert m.IsInt() == n.IsInt();
      case UintFlag => assert m.IsUint() == n.IsUint();
      case Int64Flag => assert m.IsInt64() == n.IsInt64();
      case Uint64Flag => assert m.IsUint64() == n.IsUint64();
      case DoubleFlag => assert m.IsDouble() == n.IsDouble();
    }
  }

  /** Widening an integer before storing it changes nothing. */
  lemma WideningIsInvisible(i: Int32, u: Uint32, w: Int64)
    ensures FromInt64(i) == FromInt(i)
    ensures FromInt64(u) == FromUint64(u) == FromUint(u)
    ensures w >= 0 ==> FromInt64(w) == FromUint64(w)
    ensures 0 <= i ==> FromUint(i) == FromInt(i)
  {
    Int32sStore(i, u);
    Int64sStore(i, u);
    OneRepresentation(FromInt64(i), FromInt(i), i);
    Int64sStore(u, u);
    OneRepresentation(FromInt64(u), FromUint(u), u);
    OneRepresentation(FromUint64(u), FromUint(u), u);
    if w >= 0 {
      Int64sStore(w, w);
      OneRepresentation(FromInt64(w), FromUint64(w), w);
    }
    if 0 <= i {
      Int32sStore(i, i);
      OneRepresentation(FromUint(i), FromInt(i), i);
    }
  }

  /** `operator==` compares patterns.  Two integers are equal for it if they are
      equal or lie exactly 2^64 apart. */
  lemma PatternsIdentify(m: Number, n: Number, v: int, w: int)
    requires Stores(m, v) && Stores(n, w)
    ensures m.data == n.data <==> v == w || v == w + TWO64 || w == v + TWO64
  {
    assert m.data == if v < 0 then v + TWO64 else v;
    assert n.data == if w < 0 then w + TWO64 else w;
  }

  /** The numbers the value constructors make.  `Value(kNumberType)`, whose
      flags are `NUMBER_ANY`, is not among them. */
  ghost predicate Canonical(n: Number) {
    (exists v :: Stores(n, v)) || n.flags == NUMBER_DOUBLE
  }
}
