/** The comparison and copy routines as the library runs them, loop by loop, and the
    language's own conversions between kinds of values. */
module JspbRoutines {
  import opened Wrappers
  import opened JspbCompare

  /** What the language decides: the number a string stands for, the text of an object and
      of a number. */
  datatype Language = Language(
    toNumber: string -> Number,
    text: Value -> string,
    digits: Number -> string)

  ghost predicate Sound(js: Language) {
    && js.toNumber("NaN") == NaN
    && js.toNumber("Infinity") == Infinite(false) && js.toNumber("-Infinity") == Infinite(true)
    && forall n :: n != NaN ==> js.digits(n) != "NaN"
  }

  function Primitive(js: Language, v: Value): Value {
    if IsObject(v) then Str(js.text(v)) else v
  }

  function AsNumber(js: Language, v: Value): Number {
    match v
    case Bool(b) => Finite(if b then 1.0 else 0.0)
    case Num(n) => n
    case Str(s) => js.toNumber(s)
    case _ => NaN
  }

  /** The language's `==` on values that share no storage: two objects are never equal, an
      object meets a primitive as its text, and primitives of different kinds meet as
      numbers. */
  predicate LooseEqual(js: Language, a: Value, b: Value) {
    if a.Null? || b.Null? then a == b
    else if IsObject(a) && IsObject(b) then false
    else
      var p, q := Primitive(js, a), Primitive(js, b);
      if p.Str? && q.Str? then p == q
      else AsNumber(js, p) == AsNumber(js, q) && AsNumber(js, p) != NaN
  }

  function TextOf(js: Language, v: Value): string {
    match v
    case Null => "null"
    case Bool(b) => if b then "true" else "false"
    case Num(n) => if n == NaN then "NaN" else js.digits(n)
    case Str(s) => s
    case _ => js.text(v)
  }

  /** Values of different kinds are taken to be equal when `==` says so, or when one is not
      a number and the other reads "NaN". */
  function Coercion(js: Language): (Value, Value) -> bool {
    (a, b) =>
      || LooseEqual(js, a, b)
      || ((!IsObject(a) || !IsObject(b)) && (a == NOT_A_NUMBER || b == NOT_A_NUMBER) && TextOf(js, a) == TextOf(js, b))
  }

  lemma CoercionSymmetric(js: Language, a: Value, b: Value)
    ensures Coercion(js)(a, b) == Coercion(js)(b, a)
  {
  }

  /** Comparison does not depend on the order of its arguments, even between values of
      different kinds. */
  lemma {:induction false} CompareSymmetric(js: Language, a: Value, b: Value)
    ensures Compare(Coercion(js), a, b) == Compare(Coercion(js), b, a)
    decreases a
  {
    CoercionSymmetric(js, a, b);
    if a.List? && b.List? {
      forall i | 0 <= i < |Body(a.items)| && i < |Body(b.items)|
        ensures Compare(Coercion(js), a.items[i], b.items[i]) == Compare(Coercion(js), b.items[i], a.items[i])
      {
        CompareSymmetric(js, a.items[i], b.items[i]);
      }
      var m, n := Tail(a.items), Tail(b.items);
      forall k | k in m && k in n ensures Compare(Coercion(js), m[k], n[k]) == Compare(Coercion(js), n[k], m[k]) {
        CompareSymmetric(js, m[k], n[k]);
      }
    } else if a.Ext? && b.Ext? {
      forall k | k in a.fields && k in b.fields
        ensures Compare(Coercion(js), a.fields[k], b.fields[k]) == Compare(Coercion(js), b.fields[k], a.fields[k])
      {
        CompareSymmetric(js, a.fields[k], b.fields[k]);
      }
    }
  }

  /** Across kinds comparison is not transitive: a zero equals both the string "0" and the
      empty string, which differ. */
  lemma NotTransitiveAcrossKinds(js: Language)
    requires js.toNumber("0") == Finite(0.0) && js.toNumber("") == Finite(0.0)
    ensures var a, b, c := Str("0"), Num(Finite(0.0)), Str("");
            Compare(Coercion(js), a, b) && Compare(Coercion(js), b, c) && !Compare(Coercion(js), a, c)
  {
    assert "0" != "";
  }

  lemma LooseCompare(js: Language, a: Value, b: Value)
    requires Sound(js) && LooseEqual(js, a, b)
    ensures Compare(Coercion(js), a, b)
  {
  }

  /** What the text of "not a number" decides, where `==` does not say equal. */
  lemma TextCompare(js: Language, a: Value, b: Value)
    requires Sound(js) && !LooseEqual(js, a, b) && (!IsObject(a) || !IsObject(b))
    ensures Compare(Coercion(js), a, b) == ((a == NOT_A_NUMBER || b == NOT_A_NUMBER) && TextOf(js, a) == TextOf(js, b))
  {
    if KindOf(a) == KindOf(b) {
      SameKindText(js, a, b);
    }
  }

  lemma SameKindText(js: Language, a: Value, b: Value)
    requires Sound(js) && !LooseEqual(js, a, b) && !IsObject(a) && KindOf(a) == KindOf(b)
    ensures (Plain(a) == Plain(b)) == ((a == NOT_A_NUMBER || b == NOT_A_NUMBER) && TextOf(js, a) == TextOf(js, b))
  {
  }

  lemma OtherKindsDiffer(js: Language, a: Value, b: Value)
    requires IsObject(a) && IsObject(b) && KindOf(a) != KindOf(b)
    ensures !Compare(Coercion(js), a, b)
  {
  }

  // ----- Arrays, place by place -----

  predicate PlaceEqual(coerce: (Value, Value) -> bool, xs: seq<Value>, ys: seq<Value>, i: nat) {
    Compare(coerce, At(Body(xs), i), At(Body(ys), i))
  }

  predicate FieldEqual(coerce: (Value, Value) -> bool, m: map<nat, Value>, n: map<nat, Value>, k: nat) {
    Compare(coerce, Get(m, k), Get(n, k))
  }

  predicate FieldsEqual(coerce: (Value, Value) -> bool, m: map<nat, Value>, n: map<nat, Value>) {
    forall k :: k in m.Keys + n.Keys ==> FieldEqual(coerce, m, n, k)
  }

  ghost predicate PlacesEqual(coerce: (Value, Value) -> bool, xs: seq<Value>, ys: seq<Value>, n: nat) {
    forall i: nat :: i < n ==> PlaceEqual(coerce, xs, ys, i)
  }

  lemma PlacesStep(coerce: (Value, Value) -> bool, xs: seq<Value>, ys: seq<Value>, n: nat)
    ensures PlacesEqual(coerce, xs, ys, n + 1) <==> PlacesEqual(coerce, xs, ys, n) && PlaceEqual(coerce, xs, ys, n)
  {
  }

  lemma PlacesFail(coerce: (Value, Value) -> bool, xs: seq<Value>, ys: seq<Value>, i: nat, n: nat)
    requires i < n && !PlaceEqual(coerce, xs, ys, i)
    ensures !PlacesEqual(coerce, xs, ys, n)
  {
  }

  lemma FieldsCompare(coerce: (Value, Value) -> bool, m: map<nat, Value>, n: map<nat, Value>)
    ensures FieldsEqual(coerce, m, n) <==>
              (forall k :: k in m && k in n ==> Compare(coerce, m[k], n[k])) && OthersNull(m, n)
  {
    if FieldsEqual(coerce, m, n) {
      forall k | k in m.Keys + n.Keys ensures k in m && k in n ==> Compare(coerce, m[k], n[k])
        ensures k in m && k !in n ==> m[k].Null? ensures k in n && k !in m ==> n[k].Null?
      {
        assert FieldEqual(coerce, m, n, k);
      }
    }
  }

  lemma BodiesCompare(coerce: (Value, Value) -> bool, xs: seq<Value>, ys: seq<Value>, n: nat)
    requires n >= |Body(xs)| && n >= |Body(ys)|
    ensures PlacesEqual(coerce, xs, ys, n) <==>
              && (forall i :: 0 <= i < |Body(xs)| && i < |Body(ys)| ==> Compare(coerce, xs[i], ys[i]))
              && RestNull(Body(xs), Body(ys))
  {
    if PlacesEqual(coerce, xs, ys, n) {
      forall i | 0 <= i < |Body(xs)| || 0 <= i < |Body(ys)|
        ensures i < |Body(xs)| && i < |Body(ys)| ==> Compare(coerce, xs[i], ys[i])
        ensures |Body(xs)| <= i ==> ys[i].Null?
        ensures |Body(ys)| <= i ==> xs[i].Null?
      {
        assert PlaceEqual(coerce, xs, ys, i);
      }
    }
  }

  lemma ListsCompare(coerce: (Value, Value) -> bool, xs: seq<Value>, ys: seq<Value>, n: nat)
    requires n >= |Body(xs)| && n >= |Body(ys)|
    ensures Compare(coerce, List(xs), List(ys)) <==>
              PlacesEqual(coerce, xs, ys, n) && FieldsEqual(coerce, Tail(xs), Tail(ys))
  {
    BodiesCompare(coerce, xs, ys, n);
    FieldsCompare(coerce, Tail(xs), Tail(ys));
  }

  lemma ExtsCompare(coerce: (Value, Value) -> bool, m: map<nat, Value>, n: map<nat, Value>)
    ensures Compare(coerce, Ext(m), Ext(n)) <==> FieldsEqual(coerce, m, n)
  {
    FieldsCompare(coerce, m, n);
  }

  function OrEmpty(ext: Option<map<nat, Value>>): map<nat, Value> {
    if ext.Some? then ext.value else map[]
  }

  /** The extension object found once the first `i` places were seen. */
  function Found(xs: seq<Value>, i: nat): Option<map<nat, Value>> {
    if i >= |xs| && Body(xs) != xs then Some(Tail(xs)) else None
  }

  /** An extension object at a place makes it the last, found there and read as null. */
  lemma FoundStep(xs: seq<Value>, i: nat)
    requires WellFormed(List(xs))
    ensures At(xs, i).Ext? ==> i == |xs| - 1 && Found(xs, i) == None && Found(xs, i + 1) == Some(At(xs, i).fields)
    ensures !At(xs, i).Ext? ==> Found(xs, i + 1) == Found(xs, i)
    ensures At(Body(xs), i) == if At(xs, i).Ext? then Null else At(xs, i)
    ensures WellFormed(At(Body(xs), i))
    ensures At(Body(xs), i).Null? || (List(xs) decreases to At(Body(xs), i))
  {
    assert WellFormed(List(xs)) ==> i < |xs| ==> WellFormed(xs[i]) && (xs[i].Ext? ==> i == |xs| - 1);
  }

  lemma FoundAll(xs: seq<Value>, n: nat)
    requires WellFormed(List(xs)) && n >= |xs|
    ensures OrEmpty(Found(xs, n)) == Tail(xs)
    ensures forall k :: k in Tail(xs) ==> WellFormed(Tail(xs)[k])
  {
    assert Tail(xs) != map[] ==> WellFormed(Last(xs));
  }

  /** The fields are part of `v`: its extension object, or the one at its end. */
  predicate PartOf(m: map<nat, Value>, v: Value) {
    v == Ext(m) || (v.List? && m == Tail(v.items))
  }

  /** Decides the comparison, and never runs into the assertions about where an extension
      object may stand. */
  method CompareFields(js: Language, a: Value, b: Value) returns (same: bool)
    requires Sound(js) && WellFormed(a) && WellFormed(b)
    ensures same == Compare(Coercion(js), a, b)
    decreases !a.Null? && !b.Null?, a, 2
  {
    if LooseEqual(js, a, b) {
      LooseCompare(js, a, b);
      return true;
    }
    if !IsObject(a) || !IsObject(b) {
      TextCompare(js, a, b);
      if a == NOT_A_NUMBER || b == NOT_A_NUMBER {
        return TextOf(js, a) == TextOf(js, b);
      }
      return false;
    }
    if KindOf(a) != KindOf(b) {
      OtherKindsDiffer(js, a, b);
      return false;
    }
    if a.Bytes? {
      same := CompareBytes(a.bytes, b.bytes);
    } else if a.List? {
      same := CompareArrays(js, a.items, b.items);
    } else {
      ExtsCompare(Coercion(js), a.fields, b.fields);
      same := CompareExtensions(js, Some(a.fields), Some(b.fields), a);
    }
  }

  method CompareBytes(xs: seq<nat>, ys: seq<nat>) returns (same: bool)
    ensures same == (xs == ys)
  {
    if |xs| != |ys| {
      return false;
    }
    for i := 0 to |xs|
      invariant xs[..i] == ys[..i]
    {
      if xs[i] != ys[i] {
        return false;
      }
    }
    return true;
  }

  method CompareArrays(js: Language, xs: seq<Value>, ys: seq<Value>) returns (same: bool)
    requires Sound(js) && WellFormed(List(xs)) && WellFormed(List(ys))
    ensures same == Compare(Coercion(js), List(xs), List(ys))
    decreases true, List(xs), 1
  {
    var ext1, ext2 := None, None;
    var length := if |xs| < |ys| then |ys| else |xs|;
    ListsCompare(Coercion(js), xs, ys, length);
    for i := 0 to length
      invariant ext1 == Found(xs, i) && ext2 == Found(ys, i)
      invariant PlacesEqual(Coercion(js), xs, ys, i)
    {
      var val1, val2 := At(xs, i), At(ys, i);
      FoundStep(xs, i);
      FoundStep(ys, i);
      if val1.Ext? {
        assert ext1 == None;
        assert i == |xs| - 1;
        ext1 := Some(val1.fields);
        val1 := Null;
      }
      if val2.Ext? {
        assert ext2 == None;
        assert i == |ys| - 1;
        ext2 := Some(val2.fields);
        val2 := Null;
      }
      var equal := CompareFields(js, val1, val2);
      PlacesStep(Coercion(js), xs, ys, i);
      if !equal {
        PlacesFail(Coercion(js), xs, ys, i, length);
        return false;
      }
    }
    FoundAll(xs, length);
    FoundAll(ys, length);
    if ext1.Some? || ext2.Some? {
      same := CompareExtensions(js, ext1, ext2, List(xs));
    } else {
      same := true;
    }
  }

  /** Compares the fields under every key either object has, in any order. */
  method CompareExtensions(js: Language, ext1: Option<map<nat, Value>>, ext2: Option<map<nat, Value>>,
                           ghost whole: Value)
    returns (same: bool)
    requires Sound(js) && PartOf(OrEmpty(ext1), whole)
    requires forall k :: k in OrEmpty(ext1) ==> WellFormed(OrEmpty(ext1)[k])
    requires forall k :: k in OrEmpty(ext2) ==> WellFormed(OrEmpty(ext2)[k])
    ensures same == FieldsEqual(Coercion(js), OrEmpty(ext1), OrEmpty(ext2))
    decreases true, whole, 0
  {
    var m, n := OrEmpty(ext1), OrEmpty(ext2);
    var keys := m.Keys + n.Keys;
    while keys != {}
      invariant keys <= m.Keys + n.Keys
      invariant forall k :: k in m.Keys + n.Keys - keys ==> FieldEqual(Coercion(js), m, n, k)
      decreases keys
    {
      var name :| name in keys;
      var equal := CompareFields(js, Get(m, name), Get(n, name));
      if !equal {
        return false;
      }
      keys := keys - {name};
    }
    return true;
  }

  // ----- Copies -----

  method Clone(v: Value) returns (copy: Value)
    requires IsObject(v)
    ensures copy == CloneOf(v)
    decreases v
  {
    match v {
      case List(xs) =>
        var items := [];
        for i := 0 to |xs|
          invariant items == CloneOf(v).items[..i]
        {
          var o := xs[i];
          if IsObject(o) {
            o := Clone(o);
          }
          items := items + [o];
        }
        copy := List(items);
      case Ext(m) =>
        var keys := m.Keys;
        var fields := map[];
        while keys != {}
          invariant keys <= m.Keys
          invariant fields == map k | k in m && k !in keys && m[k] != Null :: CloneOf(m[k])
          decreases keys
        {
          var key :| key in keys;
          if m[key] != Null {
            var o := m[key];
            if IsObject(o) {
              o := Clone(o);
            }
            fields := fields[key := o];
          }
          keys := keys - {key};
        }
        copy := Ext(fields);
      case _ =>
        copy := v;
    }
  }
}
