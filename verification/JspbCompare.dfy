/** Message values in array form, how the library compares and copies them, and the meaning
    of "equal": two values are equal when they have one canonical form. */
module JspbCompare {
  datatype Number = NaN | Finite(x: real) | Infinite(negative: bool)

  /** A value inside a message array. `null` and `undefined` are one value here: no code
      below tells them apart. An extension object maps field numbers to values. */
  datatype Value =
    | Null
    | Bool(b: bool)
    | Num(n: Number)
    | Str(s: string)
    | Bytes(bytes: seq<nat>)
    | List(items: seq<Value>)
    | Ext(fields: map<nat, Value>)

  const NOT_A_NUMBER: Value := Num(NaN)

  predicate IsObject(v: Value) {
    v.Bytes? || v.List? || v.Ext?
  }

  function Last(xs: seq<Value>): Value
    requires xs != []
  {
    xs[|xs| - 1]
  }

  /** The fields of a message array, without the extension object at its end. */
  function Body(xs: seq<Value>): (body: seq<Value>)
    ensures body <= xs
  {
    if xs != [] && Last(xs).Ext? then xs[..|xs| - 1] else xs
  }

  function Tail(xs: seq<Value>): map<nat, Value> {
    if xs != [] && Last(xs).Ext? then Last(xs).fields else map[]
  }

  function At(xs: seq<Value>, i: nat): Value {
    if i < |xs| then xs[i] else Null
  }

  function Get(m: map<nat, Value>, k: nat): Value {
    if k in m then m[k] else Null
  }

  /** What the library's assertions ask of an array: an extension object stands only at
      the end. */
  predicate WellFormed(v: Value) {
    match v
    case List(xs) => forall i :: 0 <= i < |xs| ==> WellFormed(xs[i]) && (xs[i].Ext? ==> i == |xs| - 1)
    case Ext(m) => forall k :: k in m ==> WellFormed(m[k])
    case _ => true
  }

  // ----- Canonical form -----

  function Trim(xs: seq<Value>): seq<Value> {
    if xs == [] then [] else if Last(xs).Null? then Trim(xs[..|xs| - 1]) else xs
  }

  /** A number that is not finite equals the string that spells it. */
  function Plain(v: Value): Value {
    match v
    case Num(NaN) => Str("NaN")
    case Num(Infinite(negative)) => Str(if negative then "-Infinity" else "Infinity")
    case _ => v
  }

  function ExtPart(m: map<nat, Value>): seq<Value> {
    if m == map[] then [] else [Ext(m)]
  }

  /** Trailing nulls trimmed, null-valued extensions and empty extension objects dropped,
      at every depth. */
  function Canon(v: Value): Value {
    match v
    case List(xs) =>
      var body := seq(|Body(xs)|, i requires 0 <= i < |Body(xs)| => Canon(xs[i]));
      List(Trim(body) + ExtPart(map k | k in Tail(xs) && Tail(xs)[k] != Null :: Canon(Tail(xs)[k])))
    case Ext(m) => Ext(map k | k in m && m[k] != Null :: Canon(m[k]))
    case _ => Plain(v)
  }

  // ----- Comparison -----

  datatype Kind = Nothing | Flag | Number | Text | Blob | Array | Object

  function KindOf(v: Value): Kind {
    match v
    case Null => Nothing
    case Bool(_) => Flag
    case Num(_) => Number
    case Str(_) => Text
    case Bytes(_) => Blob
    case List(_) => Array
    case Ext(_) => Object
  }

  /** The strings that spell a number that is not finite. */
  predicate SpellsNumber(s: string) {
    s == "NaN" || s == "Infinity" || s == "-Infinity"
  }

  predicate NumberAndSpelling(a: Value, b: Value) {
    a.Num? && b.Str? && (a.n == NaN || SpellsNumber(b.s))
  }

  /** Compared without conversion: one kind, or a number and a string of which one means
      "not a number" or the string spells a number that is not finite. */
  predicate Alike(a: Value, b: Value) {
    KindOf(a) == KindOf(b) || NumberAndSpelling(a, b) || NumberAndSpelling(b, a)
  }

  /** The comparison as a predicate. `coerce` says which values of different kinds the
      language's `==` takes to be equal. */
  predicate Compare(coerce: (Value, Value) -> bool, a: Value, b: Value)
    decreases a
  {
    if a.Null? || b.Null? then a == b
    else if !Alike(a, b) then coerce(a, b)
    else if a.List? then
      && (forall i :: 0 <= i < |Body(a.items)| && i < |Body(b.items)| ==> Compare(coerce, a.items[i], b.items[i]))
      && (forall i :: |Body(a.items)| <= i < |Body(b.items)| ==> b.items[i].Null?)
      && (forall i :: |Body(b.items)| <= i < |Body(a.items)| ==> a.items[i].Null?)
      && (forall k :: k in Tail(a.items) && k in Tail(b.items) ==> Compare(coerce, Tail(a.items)[k], Tail(b.items)[k]))
      && OthersNull(Tail(a.items), Tail(b.items))
    else if a.Ext? then
      && (forall k :: k in a.fields && k in b.fields ==> Compare(coerce, a.fields[k], b.fields[k]))
      && OthersNull(a.fields, b.fields)
    else Plain(a) == Plain(b)
  }

  predicate OthersNull(m: map<nat, Value>, n: map<nat, Value>) {
    && (forall k :: k in m && k !in n ==> m[k].Null?)
    && (forall k :: k in n && k !in m ==> n[k].Null?)
  }

  /** At every place where both values have something, they have things of one kind. */
  predicate Aligned(a: Value, b: Value)
    decreases a
  {
    || a.Null? || b.Null?
    || (&& Alike(a, b)
        && (a.List? ==>
              && (forall i :: 0 <= i < |Body(a.items)| && i < |Body(b.items)| ==> Aligned(a.items[i], b.items[i]))
              && (forall k :: k in Tail(a.items) && k in Tail(b.items) ==> Aligned(Tail(a.items)[k], Tail(b.items)[k])))
        && (a.Ext? ==> forall k :: k in a.fields && k in b.fields ==> Aligned(a.fields[k], b.fields[k])))
  }

  // ----- Canonical forms, place by place -----

  predicate NoExt(xs: seq<Value>) {
    forall i :: 0 <= i < |xs| ==> !xs[i].Ext?
  }

  function CanonBody(xs: seq<Value>): (body: seq<Value>) {
    seq(|Body(xs)|, i requires 0 <= i < |Body(xs)| => Canon(xs[i]))
  }

  function CanonMap(m: map<nat, Value>): map<nat, Value> {
    map k | k in m && m[k] != Null :: Canon(m[k])
  }

  lemma {:induction false} TrimAt(xs: seq<Value>, i: nat)
    ensures Trim(xs) <= xs && At(Trim(xs), i) == At(xs, i)
    ensures Trim(xs) != [] ==> !Last(Trim(xs)).Null?
    decreases |xs|
  {
    if xs != [] && Last(xs).Null? {
      TrimAt(xs[..|xs| - 1], i);
    }
  }

  /** Trimming forgets nothing but trailing nulls. */
  lemma TrimEqual(xs: seq<Value>, ys: seq<Value>)
    ensures Trim(xs) == Trim(ys) <==> forall i: nat :: i < |xs| || i < |ys| ==> At(xs, i) == At(ys, i)
  {
    if Trim(xs) == Trim(ys) {
      forall i: nat | i < |xs| || i < |ys| ensures At(xs, i) == At(ys, i) {
        TrimAt(xs, i);
        TrimAt(ys, i);
      }
    }
    if forall i: nat :: i < |xs| || i < |ys| ==> At(xs, i) == At(ys, i) {
      TrimLength(xs, ys);
      TrimLength(ys, xs);
      forall i | 0 <= i < |Trim(xs)| ensures Trim(xs)[i] == Trim(ys)[i] {
        TrimAt(xs, i);
        TrimAt(ys, i);
      }
    }
  }

  lemma TrimLength(xs: seq<Value>, ys: seq<Value>)
    requires forall i: nat :: i < |xs| || i < |ys| ==> At(xs, i) == At(ys, i)
    ensures |Trim(xs)| <= |Trim(ys)|
  {
    var n := |Trim(xs)|;
    TrimAt(xs, 0);
    if n > 0 {
      TrimAt(xs, n - 1);
      TrimAt(ys, n - 1);
    }
  }

  lemma SplitEnd(s: seq<Value>, m: map<nat, Value>, t: seq<Value>, n: map<nat, Value>)
    requires NoExt(s) && NoExt(t)
    ensures s + ExtPart(m) == t + ExtPart(n) <==> s == t && m == n
  {
    var x, y := s + ExtPart(m), t + ExtPart(n);
    assert m != map[] ==> x != [] && x[|s|] == Ext(m) && x[..|s|] == s;
    assert n != map[] ==> y != [] && y[|t|] == Ext(n) && y[..|t|] == t;
    assert m == map[] ==> x == s;
    assert n == map[] ==> y == t;
  }

  lemma TrimNoExt(xs: seq<Value>)
    requires NoExt(xs)
    ensures NoExt(Trim(xs))
  {
    TrimAt(xs, 0);
  }

  predicate SameValue(x: Value, y: Value) {
    Canon(x) == Canon(y)
  }

  ghost predicate SamePlaces(xs: seq<Value>, ys: seq<Value>) {
    forall i: nat :: i < |xs| || i < |ys| ==> SameValue(At(xs, i), At(ys, i))
  }

  lemma CanonBodyAt(xs: seq<Value>, i: nat)
    ensures At(CanonBody(xs), i) == Canon(At(Body(xs), i))
  {
  }

  lemma CanonBodyNoExt(xs: seq<Value>)
    requires WellFormed(List(xs))
    ensures NoExt(CanonBody(xs))
  {
    assert WellFormed(List(xs)) ==> forall i :: 0 <= i < |Body(xs)| ==> !xs[i].Ext?;
  }

  lemma CanonBodyEqual(xs: seq<Value>, ys: seq<Value>)
    ensures Trim(CanonBody(xs)) == Trim(CanonBody(ys)) <==> SamePlaces(Body(xs), Body(ys))
  {
    var s, t := CanonBody(xs), CanonBody(ys);
    TrimEqual(s, t);
    forall i: nat ensures (At(s, i) == At(t, i)) == SameValue(At(Body(xs), i), At(Body(ys), i)) {
      CanonBodyAt(xs, i);
      CanonBodyAt(ys, i);
    }
  }

  lemma CanonOfList(xs: seq<Value>)
    ensures Canon(List(xs)) == List(Trim(CanonBody(xs)) + ExtPart(CanonMap(Tail(xs))))
  {
  }

  /** Two arrays have one canonical form exactly when their bodies, padded with nulls, and
      their extensions, with absent ones read as null, have place by place. */
  lemma ListCanon(xs: seq<Value>, ys: seq<Value>)
    requires WellFormed(List(xs)) && WellFormed(List(ys))
    ensures SameValue(List(xs), List(ys)) <==>
              SamePlaces(Body(xs), Body(ys)) && CanonMap(Tail(xs)) == CanonMap(Tail(ys))
  {
    CanonOfList(xs);
    CanonOfList(ys);
    CanonBodyNoExt(xs);
    CanonBodyNoExt(ys);
    TrimNoExt(CanonBody(xs));
    TrimNoExt(CanonBody(ys));
    SplitEnd(Trim(CanonBody(xs)), CanonMap(Tail(xs)), Trim(CanonBody(ys)), CanonMap(Tail(ys)));
    CanonBodyEqual(xs, ys);
  }

  lemma CanonMapAt(m: map<nat, Value>, k: nat)
    ensures k in CanonMap(m) <==> k in m && m[k] != Null
    ensures k in CanonMap(m) ==> CanonMap(m)[k] == Canon(m[k])
  {
  }

  /** Whether the fields under one key have one canonical form, absent ones read as null. */
  predicate SameAt(m: map<nat, Value>, n: map<nat, Value>, k: nat) {
    if k in m && k in n then SameValue(m[k], n[k]) else Get(m, k) == Get(n, k)
  }

  lemma CanonMapSame(m: map<nat, Value>, n: map<nat, Value>, k: nat)
    ensures SameAt(m, n, k) <==> if k in CanonMap(m) then k in CanonMap(n) && CanonMap(m)[k] == CanonMap(n)[k]
                                 else k !in CanonMap(n)
  {
    CanonMapAt(m, k);
    CanonMapAt(n, k);
  }

  lemma MapsAlike(m: map<nat, Value>, n: map<nat, Value>)
    requires forall k: nat :: SameAt(m, n, k)
    ensures CanonMap(m) == CanonMap(n)
  {
    forall k: nat
      ensures if k in CanonMap(m) then k in CanonMap(n) && CanonMap(m)[k] == CanonMap(n)[k] else k !in CanonMap(n)
    {
      assert SameAt(m, n, k);
      CanonMapSame(m, n, k);
    }
  }

  lemma MapCanon(m: map<nat, Value>, n: map<nat, Value>)
    ensures CanonMap(m) == CanonMap(n) <==>
              (forall k :: k in m && k in n ==> SameValue(m[k], n[k])) && OthersNull(m, n)
  {
    if CanonMap(m) == CanonMap(n) {
      forall k: nat ensures SameAt(m, n, k) {
        CanonMapSame(m, n, k);
      }
      forall k | k in m || k in n
        ensures k in m && k in n ==> SameValue(m[k], n[k])
        ensures k !in n ==> m[k].Null?
        ensures k !in m ==> n[k].Null?
      {
        assert SameAt(m, n, k);
      }
    }
    if (forall k :: k in m && k in n ==> SameValue(m[k], n[k])) && OthersNull(m, n) {
      forall k: nat ensures SameAt(m, n, k) {
      }
      MapsAlike(m, n);
    }
  }

  // ----- Comparison decides equality of canonical forms -----

  ghost predicate SamePairs(m: map<nat, Value>, n: map<nat, Value>) {
    forall k :: k in m && k in n ==> SameValue(m[k], n[k])
  }

  lemma ExtCanon(m: map<nat, Value>, n: map<nat, Value>)
    ensures SameValue(Ext(m), Ext(n)) <==> SamePairs(m, n) && OthersNull(m, n)
  {
    MapCanon(m, n);
    assert Canon(Ext(m)) == Ext(CanonMap(m)) && Canon(Ext(n)) == Ext(CanonMap(n));
  }

  /** The places both arrays have, and the rest. */
  lemma PlacesSplit(xs: seq<Value>, ys: seq<Value>)
    ensures SamePlaces(xs, ys) <==>
              && (forall i :: 0 <= i < |xs| && i < |ys| ==> SameValue(xs[i], ys[i]))
              && (forall i :: |xs| <= i < |ys| ==> ys[i].Null?)
              && (forall i :: |ys| <= i < |xs| ==> xs[i].Null?)
  {
    if SamePlaces(xs, ys) {
      forall i | 0 <= i < |xs| && i < |ys| ensures SameValue(xs[i], ys[i]) {
        assert SameValue(At(xs, i), At(ys, i));
      }
      forall i | |xs| <= i < |ys| ensures ys[i].Null? {
        assert SameValue(At(xs, i), At(ys, i));
      }
      forall i | |ys| <= i < |xs| ensures xs[i].Null? {
        assert SameValue(At(xs, i), At(ys, i));
      }
    }
  }

  /** What is left of the longer body is null. */
  predicate RestNull(xs: seq<Value>, ys: seq<Value>) {
    && (forall i :: |xs| <= i < |ys| ==> ys[i].Null?)
    && (forall i :: |ys| <= i < |xs| ==> xs[i].Null?)
  }

  ghost predicate SameCommon(xs: seq<Value>, ys: seq<Value>) {
    forall i :: 0 <= i < |xs| && i < |ys| ==> SameValue(xs[i], ys[i])
  }

  lemma SameList(xs: seq<Value>, ys: seq<Value>)
    requires WellFormed(List(xs)) && WellFormed(List(ys))
    ensures SameValue(List(xs), List(ys)) <==>
              && SameCommon(Body(xs), Body(ys)) && RestNull(Body(xs), Body(ys))
              && SamePairs(Tail(xs), Tail(ys)) && OthersNull(Tail(xs), Tail(ys))
  {
    ListCanon(xs, ys);
    PlacesSplit(Body(xs), Body(ys));
    MapCanon(Tail(xs), Tail(ys));
  }

  ghost predicate EqualCommon(coerce: (Value, Value) -> bool, xs: seq<Value>, ys: seq<Value>) {
    forall i :: 0 <= i < |xs| && i < |ys| ==> Compare(coerce, xs[i], ys[i])
  }

  ghost predicate EqualPairs(coerce: (Value, Value) -> bool, m: map<nat, Value>, n: map<nat, Value>) {
    forall k :: k in m && k in n ==> Compare(coerce, m[k], n[k])
  }

  lemma CompareOfList(coerce: (Value, Value) -> bool, xs: seq<Value>, ys: seq<Value>)
    ensures Compare(coerce, List(xs), List(ys)) <==>
              && EqualCommon(coerce, Body(xs), Body(ys)) && RestNull(Body(xs), Body(ys))
              && EqualPairs(coerce, Tail(xs), Tail(ys)) && OthersNull(Tail(xs), Tail(ys))
  {
  }

  lemma CommonAgree(coerce: (Value, Value) -> bool, xs: seq<Value>, ys: seq<Value>)
    requires forall i :: 0 <= i < |xs| && i < |ys| ==> Compare(coerce, xs[i], ys[i]) == SameValue(xs[i], ys[i])
    ensures EqualCommon(coerce, xs, ys) <==> SameCommon(xs, ys)
  {
  }

  lemma PairsAgree(coerce: (Value, Value) -> bool, m: map<nat, Value>, n: map<nat, Value>)
    requires forall k :: k in m && k in n ==> Compare(coerce, m[k], n[k]) == SameValue(m[k], n[k])
    ensures EqualPairs(coerce, m, n) <==> SamePairs(m, n)
  {
  }

  lemma CompareList(coerce: (Value, Value) -> bool, xs: seq<Value>, ys: seq<Value>)
    requires WellFormed(List(xs)) && WellFormed(List(ys))
    requires EqualCommon(coerce, Body(xs), Body(ys)) <==> SameCommon(Body(xs), Body(ys))
    requires EqualPairs(coerce, Tail(xs), Tail(ys)) <==> SamePairs(Tail(xs), Tail(ys))
    ensures Compare(coerce, List(xs), List(ys)) == SameValue(List(xs), List(ys))
  {
    SameList(xs, ys);
    CompareOfList(coerce, xs, ys);
  }

  lemma TailWellFormed(xs: seq<Value>, k: nat)
    requires WellFormed(List(xs)) && k in Tail(xs)
    ensures WellFormed(Tail(xs)[k])
  {
    assert WellFormed(Last(xs));
  }

  /** For values of one kind at every place, comparison is equality of canonical forms,
      whatever the language's conversions do. */
  lemma {:induction false} AlignedCompare(coerce: (Value, Value) -> bool, a: Value, b: Value)
    requires WellFormed(a) && WellFormed(b) && Aligned(a, b)
    ensures Compare(coerce, a, b) == SameValue(a, b)
    decreases a
  {
    if a.List? && b.List? {
      forall i | 0 <= i < |Body(a.items)| && i < |Body(b.items)|
        ensures Compare(coerce, a.items[i], b.items[i]) == SameValue(a.items[i], b.items[i])
      {
        AlignedCompare(coerce, a.items[i], b.items[i]);
      }
      CommonAgree(coerce, Body(a.items), Body(b.items));
      forall k | k in Tail(a.items) && k in Tail(b.items)
        ensures Compare(coerce, Tail(a.items)[k], Tail(b.items)[k]) == SameValue(Tail(a.items)[k], Tail(b.items)[k])
      {
        TailWellFormed(a.items, k);
        TailWellFormed(b.items, k);
        AlignedCompare(coerce, Tail(a.items)[k], Tail(b.items)[k]);
      }
      PairsAgree(coerce, Tail(a.items), Tail(b.items));
      CompareList(coerce, a.items, b.items);
    } else if a.Ext? && b.Ext? {
      forall k | k in a.fields && k in b.fields
        ensures Compare(coerce, a.fields[k], b.fields[k]) == SameValue(a.fields[k], b.fields[k])
      {
        AlignedCompare(coerce, a.fields[k], b.fields[k]);
      }
      ExtCanon(a.fields, b.fields);
    }
  }

  /** One canonical form means one kind at every place. */
  lemma {:induction false} SameIsAligned(a: Value, b: Value)
    requires WellFormed(a) && WellFormed(b) && SameValue(a, b)
    ensures Aligned(a, b)
    decreases a
  {
    if a.List? && b.List? {
      SameList(a.items, b.items);
      forall i | 0 <= i < |Body(a.items)| && i < |Body(b.items)| ensures Aligned(a.items[i], b.items[i]) {
        SameIsAligned(Body(a.items)[i], Body(b.items)[i]);
      }
      forall k | k in Tail(a.items) && k in Tail(b.items) ensures Aligned(Tail(a.items)[k], Tail(b.items)[k]) {
        TailWellFormed(a.items, k);
        TailWellFormed(b.items, k);
        SameIsAligned(Tail(a.items)[k], Tail(b.items)[k]);
      }
    } else if a.Ext? && b.Ext? {
      ExtCanon(a.fields, b.fields);
      forall k | k in a.fields && k in b.fields ensures Aligned(a.fields[k], b.fields[k]) {
        SameIsAligned(a.fields[k], b.fields[k]);
      }
    }
  }

  /** The string spells the number: only a number that is not finite is spelled. */
  predicate Spells(s: string, n: Number) {
    match n
    case NaN => s == "NaN"
    case Infinite(negative) => s == if negative then "-Infinity" else "Infinity"
    case Finite(_) => false
  }

  /** What equality is on values without parts: the same value, where "not a number" is itself
      and a number that is not finite is also the string that spells it. */
  lemma LeavesCompare(coerce: (Value, Value) -> bool, a: Value, b: Value)
    requires !a.List? && !a.Ext? && !b.List? && !b.Ext? && Aligned(a, b)
    ensures var equal := a == b || (a.Num? && b.Str? && Spells(b.s, a.n)) || (a.Str? && b.Num? && Spells(a.s, b.n));
            Compare(coerce, a, b) == equal && SameValue(a, b) == equal
  {
    assert "NaN" != "Infinity" && "NaN" != "-Infinity" && "Infinity" != "-Infinity" by {
      assert |"NaN"| == 3 && |"Infinity"| == 8 && |"-Infinity"| == 9;
    }
    AlignedCompare(coerce, a, b);
  }

  lemma CompareSelf(coerce: (Value, Value) -> bool, v: Value)
    requires WellFormed(v)
    ensures Compare(coerce, v, v)
  {
    SameIsAligned(v, v);
    AlignedCompare(coerce, v, v);
  }

  /** Values with one canonical form compare equal, whatever conversions the language makes. */
  lemma SameCompareEqual(coerce: (Value, Value) -> bool, a: Value, b: Value)
    requires WellFormed(a) && WellFormed(b) && Canon(a) == Canon(b)
    ensures Compare(coerce, a, b) && Compare(coerce, b, a)
  {
    SameIsAligned(a, b);
    SameIsAligned(b, a);
    AlignedCompare(coerce, a, b);
    AlignedCompare(coerce, b, a);
  }

  /** Values of any two kinds taken to be equal. */
  function AnyEqual(): (Value, Value) -> bool {
    (x, y) => true
  }

  lemma {:induction false} AnyEqualIsWeakest(coerce: (Value, Value) -> bool, a: Value, b: Value)
    requires Compare(coerce, a, b)
    ensures Compare(AnyEqual(), a, b)
    decreases a
  {
    if a.List? && b.List? {
      forall i | 0 <= i < |Body(a.items)| && i < |Body(b.items)| ensures Compare(AnyEqual(), a.items[i], b.items[i]) {
        AnyEqualIsWeakest(coerce, a.items[i], b.items[i]);
      }
      var m, n := Tail(a.items), Tail(b.items);
      forall k | k in m && k in n ensures Compare(AnyEqual(), m[k], n[k]) {
        AnyEqualIsWeakest(coerce, m[k], n[k]);
      }
    } else if a.Ext? && b.Ext? {
      forall k | k in a.fields && k in b.fields ensures Compare(AnyEqual(), a.fields[k], b.fields[k]) {
        AnyEqualIsWeakest(coerce, a.fields[k], b.fields[k]);
      }
    }
  }

  ghost predicate MeansEquality(a: Value, b: Value) {
    forall coerce: (Value, Value) -> bool :: Compare(coerce, a, b) == (Canon(a) == Canon(b))
  }

  /** For any conversions, the language's own among them: an answer "different" is always
      right, and an answer "equal" is right if and only if the two values have things of one
      kind at every place. */
  lemma AnswerRightIff(coerce: (Value, Value) -> bool, a: Value, b: Value)
    requires WellFormed(a) && WellFormed(b)
    ensures !Compare(coerce, a, b) ==> Canon(a) != Canon(b)
    ensures Compare(coerce, a, b) ==> (Canon(a) == Canon(b) <==> Aligned(a, b))
  {
    if Canon(a) == Canon(b) {
      SameCompareEqual(coerce, a, b);
      SameIsAligned(a, b);
    }
    if Aligned(a, b) {
      AlignedCompare(coerce, a, b);
    }
  }

  lemma AnswerRight(coerce: (Value, Value) -> bool, a: Value, b: Value)
    requires WellFormed(a) && WellFormed(b) && (Aligned(a, b) || !Compare(AnyEqual(), a, b))
    ensures Compare(coerce, a, b) == SameValue(a, b)
  {
    AnswerRightIff(coerce, a, b);
    if Compare(coerce, a, b) {
      AnyEqualIsWeakest(coerce, a, b);
    }
  }

  /** The exact condition. Comparison means equality of canonical forms, independently of
      the language's conversions, if and only if the two values have things of one kind at
      every place, or differ even when values of different kinds are let pass. */
  lemma MeansEqualityIff(a: Value, b: Value)
    requires WellFormed(a) && WellFormed(b)
    ensures MeansEquality(a, b) <==> Aligned(a, b) || !Compare(AnyEqual(), a, b)
  {
    if Aligned(a, b) || !Compare(AnyEqual(), a, b) {
      forall coerce: (Value, Value) -> bool ensures Compare(coerce, a, b) == SameValue(a, b) {
        AnswerRight(coerce, a, b);
      }
    } else {
      AnswerRightIff(AnyEqual(), a, b);
    }
  }

  // ----- Values of one message type -----

  datatype Schema =
    | FlagField
    | NumberField
    | TextField
    | BlobField
    | Repeated(element: Schema)
    | Message(members: seq<Schema>, extensions: map<nat, Schema>)

  /** The value is null or what the type asks for. A number field may hold a string that
      spells a number that is not finite. */
  predicate Conforms(v: Value, schema: Schema)
    decreases v
  {
    || v.Null?
    || match schema
       case FlagField => v.Bool?
       case NumberField => v.Num? || (v.Str? && SpellsNumber(v.s))
       case TextField => v.Str?
       case BlobField => v.Bytes?
       case Repeated(e) => v.List? && forall i :: 0 <= i < |v.items| ==> Conforms(v.items[i], e)
       case Message(ms, es) =>
         && v.List? && |Body(v.items)| <= |ms| && Tail(v.items).Keys <= es.Keys
         && (forall i :: 0 <= i < |Body(v.items)| ==> Conforms(v.items[i], ms[i]))
         && (forall k :: k in Tail(v.items) ==> Conforms(Tail(v.items)[k], es[k]))
  }

  lemma {:induction false} ConformingIsWellFormed(v: Value, schema: Schema)
    requires Conforms(v, schema)
    ensures WellFormed(v) && !v.Ext?
    decreases v
  {
    if v.List? {
      forall i | 0 <= i < |v.items| ensures WellFormed(v.items[i]) && (v.items[i].Ext? ==> i == |v.items| - 1) {
        if schema.Repeated? {
          ConformingIsWellFormed(v.items[i], schema.element);
        } else if i < |Body(v.items)| {
          ConformingIsWellFormed(v.items[i], schema.members[i]);
        } else {
          forall k | k in Tail(v.items) ensures WellFormed(Tail(v.items)[k]) {
            ConformingIsWellFormed(Tail(v.items)[k], schema.extensions[k]);
          }
        }
      }
    }
  }

  lemma {:induction false} ConformingIsAligned(a: Value, b: Value, schema: Schema)
    requires Conforms(a, schema) && Conforms(b, schema)
    ensures Aligned(a, b)
    decreases a
  {
    if a.List? && b.List? {
      forall i | 0 <= i < |Body(a.items)| && i < |Body(b.items)| ensures Aligned(a.items[i], b.items[i]) {
        ConformingIsAligned(a.items[i], b.items[i], if schema.Repeated? then schema.element else schema.members[i]);
      }
      var m, n := Tail(a.items), Tail(b.items);
      forall k | k in m && k in n ensures Aligned(m[k], n[k]) {
        if schema.Repeated? {
          ConformingIsWellFormed(Last(a.items), schema.element);
        } else {
          ConformingIsAligned(m[k], n[k], schema.extensions[k]);
        }
      }
    }
  }

  /** On the values of one message type, comparison is equality of canonical forms. */
  lemma TypedCompare(coerce: (Value, Value) -> bool, a: Value, b: Value, schema: Schema)
    requires Conforms(a, schema) && Conforms(b, schema)
    ensures Compare(coerce, a, b) <==> Canon(a) == Canon(b)
  {
    ConformingIsWellFormed(a, schema);
    ConformingIsWellFormed(b, schema);
    ConformingIsAligned(a, b, schema);
    AlignedCompare(coerce, a, b);
  }

  /** Hence comparison is an equivalence there. */
  lemma TypedEquivalence(coerce: (Value, Value) -> bool, a: Value, b: Value, c: Value, schema: Schema)
    requires Conforms(a, schema) && Conforms(b, schema) && Conforms(c, schema)
    ensures Compare(coerce, a, a)
    ensures Compare(coerce, a, b) ==> Compare(coerce, b, a)
    ensures Compare(coerce, a, b) && Compare(coerce, b, c) ==> Compare(coerce, a, c)
  {
    TypedCompare(coerce, a, a, schema);
    TypedCompare(coerce, a, b, schema);
    TypedCompare(coerce, b, a, schema);
    TypedCompare(coerce, b, c, schema);
    TypedCompare(coerce, a, c, schema);
  }

  // ----- Copies -----

  /** What a deep copy holds: arrays of the same length, extension objects without their
      null-valued fields. */
  function CloneOf(v: Value): Value {
    match v
    case List(xs) => List(seq(|xs|, i requires 0 <= i < |xs| => CloneOf(xs[i])))
    case Ext(m) => Ext(map k | k in m && m[k] != Null :: CloneOf(m[k]))
    case _ => v
  }

  lemma CloneKind(v: Value)
    ensures KindOf(CloneOf(v)) == KindOf(v)
  {
  }

  lemma CloneBody(xs: seq<Value>)
    ensures var ys := CloneOf(List(xs)).items;
            && |Body(ys)| == |Body(xs)| && (forall i :: 0 <= i < |Body(xs)| ==> ys[i] == CloneOf(xs[i]))
            && Tail(ys) == map k | k in Tail(xs) && Tail(xs)[k] != Null :: CloneOf(Tail(xs)[k])
  {
    var ys := CloneOf(List(xs)).items;
    if xs != [] {
      assert Last(ys) == CloneOf(Last(xs));
    }
  }

  /** A copy has the canonical form of the original. */
  lemma {:induction false} CloneCanon(v: Value)
    ensures SameValue(CloneOf(v), v)
    decreases v
  {
    match v
    case List(xs) =>
      var ys := CloneOf(v).items;
      CloneBody(xs);
      forall i | 0 <= i < |Body(xs)| ensures Canon(ys[i]) == Canon(xs[i]) {
        CloneCanon(xs[i]);
      }
      assert CanonBody(ys) == CanonBody(xs);
      forall k | k in Tail(xs) ensures SameValue(CloneOf(Tail(xs)[k]), Tail(xs)[k]) {
        CloneCanon(Tail(xs)[k]);
      }
      MapCanon(Tail(ys), Tail(xs));
      CanonOfList(xs);
      CanonOfList(ys);
    case Ext(m) =>
      forall k | k in m ensures SameValue(CloneOf(m[k]), m[k]) {
        CloneCanon(m[k]);
      }
      ExtCanon(CloneOf(v).fields, m);
    case _ =>
  }

  /** It is well formed when the original is. */
  lemma {:induction false} CloneIsSame(v: Value)
    requires WellFormed(v)
    ensures WellFormed(CloneOf(v)) && SameValue(CloneOf(v), v)
    decreases v
  {
    CloneCanon(v);
    match v
    case List(xs) =>
      forall i | 0 <= i < |xs| ensures WellFormed(CloneOf(xs[i])) && (CloneOf(xs[i]).Ext? <==> xs[i].Ext?) {
        CloneIsSame(xs[i]);
        CloneKind(xs[i]);
      }
    case Ext(m) =>
      forall k | k in m ensures WellFormed(CloneOf(m[k])) {
        CloneIsSame(m[k]);
      }
    case _ =>
  }

  lemma CloneComparesEqual(coerce: (Value, Value) -> bool, v: Value)
    requires WellFormed(v)
    ensures Compare(coerce, CloneOf(v), v) && Compare(coerce, v, CloneOf(v))
  {
    CloneIsSame(v);
    SameCompareEqual(coerce, CloneOf(v), v);
  }

  lemma CanonParts(xs: seq<Value>)
    requires WellFormed(List(xs))
    ensures var ys := Canon(List(xs)).items;
            Body(ys) == Trim(CanonBody(xs)) && Tail(ys) == CanonMap(Tail(xs))
  {
    CanonOfList(xs);
    CanonBodyNoExt(xs);
    TrimNoExt(CanonBody(xs));
    var s := Trim(CanonBody(xs));
    var m := CanonMap(Tail(xs));
    assert m != map[] ==> Last(s + ExtPart(m)) == Ext(m) && (s + ExtPart(m))[..|s|] == s;
    assert m == map[] ==> s + ExtPart(m) == s;
  }

  /** A canonical form is its own canonical form. */
  lemma {:induction false} CanonIsNormal(v: Value)
    requires WellFormed(v)
    ensures WellFormed(Canon(v)) && Canon(Canon(v)) == Canon(v)
    decreases v
  {
    match v
    case List(xs) =>
      forall i | 0 <= i < |xs| ensures WellFormed(Canon(xs[i])) && SameValue(Canon(xs[i]), xs[i]) {
        CanonIsNormal(xs[i]);
      }
      var m := Tail(xs);
      forall k | k in m ensures WellFormed(Canon(m[k])) && SameValue(Canon(m[k]), m[k]) {
        CanonIsNormal(m[k]);
      }
      CanonListNormal(xs);
    case Ext(m) =>
      forall k | k in m ensures WellFormed(Canon(m[k])) && SameValue(Canon(m[k]), m[k]) {
        CanonIsNormal(m[k]);
      }
      ExtCanon(CanonMap(m), m);
    case _ =>
  }

  lemma PartsWellFormed(ys: seq<Value>)
    requires NoExt(Body(ys)) && WellFormed(Ext(Tail(ys)))
    requires forall i: nat :: WellFormed(At(Body(ys), i))
    ensures WellFormed(List(ys))
  {
    forall i | 0 <= i < |Body(ys)| ensures WellFormed(ys[i]) {
      assert WellFormed(At(Body(ys), i));
    }
  }

  /** Place by place, the body of a canonical form holds the canonical forms. */
  lemma CanonPlaces(xs: seq<Value>)
    requires WellFormed(List(xs))
    requires forall i :: 0 <= i < |xs| ==> WellFormed(Canon(xs[i])) && SameValue(Canon(xs[i]), xs[i])
    ensures var body := Trim(CanonBody(xs));
            SamePlaces(body, Body(xs)) && forall i: nat :: WellFormed(At(body, i))
  {
    var body := Trim(CanonBody(xs));
    forall i: nat ensures SameValue(At(body, i), At(Body(xs), i)) && WellFormed(At(body, i)) {
      TrimAt(CanonBody(xs), i);
      CanonBodyAt(xs, i);
    }
  }

  lemma CanonListNormal(xs: seq<Value>)
    requires WellFormed(List(xs))
    requires forall i :: 0 <= i < |xs| ==> WellFormed(Canon(xs[i])) && SameValue(Canon(xs[i]), xs[i])
    requires forall k :: k in Tail(xs) ==> WellFormed(Canon(Tail(xs)[k])) && SameValue(Canon(Tail(xs)[k]), Tail(xs)[k])
    ensures WellFormed(Canon(List(xs))) && SameValue(Canon(List(xs)), List(xs))
  {
    var ys := Canon(List(xs)).items;
    CanonParts(xs);
    CanonPlaces(xs);
    CanonBodyNoExt(xs);
    TrimNoExt(CanonBody(xs));
    assert WellFormed(Ext(CanonMap(Tail(xs))));
    PartsWellFormed(ys);
    MapCanon(CanonMap(Tail(xs)), Tail(xs));
    ListCanon(ys, xs);
  }
}
