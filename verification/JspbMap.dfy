/** A map field: entries by the text of their key, and the array of the message, brought up
    to date only when it is asked for. */
module JspbMap {
  import opened Wrappers

  newtype CodeUnit = x: int | 0 <= x < 0x1_0000

  /** A string of the language, compared by code units. */
  type Text = seq<CodeUnit>

  datatype Entry<K, V> = Entry(key: K, value: V)

  predicate Less(s: Text, t: Text) {
    t != [] && (s == [] || s[0] < t[0] || (s[0] == t[0] && Less(s[1..], t[1..])))
  }

  predicate Ascending(keys: seq<Text>) {
    forall i, j :: 0 <= i < j < |keys| ==> Less(keys[i], keys[j])
  }

  function Elements(keys: seq<Text>): set<Text> {
    set k | k in keys
  }

  // ----- The order of strings -----

  lemma {:induction false} LessIrreflexive(s: Text)
    ensures !Less(s, s)
  {
    if s != [] {
      LessIrreflexive(s[1..]);
    }
  }

  lemma {:induction false} LessTransitive(s: Text, t: Text, u: Text)
    requires Less(s, t) && Less(t, u)
    ensures Less(s, u)
  {
    if s != [] && s[0] == t[0] && t[0] == u[0] {
      LessTransitive(s[1..], t[1..], u[1..]);
    }
  }

  lemma {:induction false} LessTotal(s: Text, t: Text)
    ensures Less(s, t) || s == t || Less(t, s)
  {
    if s != [] && t != [] && s[0] == t[0] {
      LessTotal(s[1..], t[1..]);
      assert s == [s[0]] + s[1..] && t == [t[0]] + t[1..];
    }
  }

  /** Strings in order: they part at some place, where the first ends or has the smaller code
      unit. */
  ghost predicate PartsAt(s: Text, t: Text, n: nat) {
    && n <= |s| && n < |t| && s[..n] == t[..n]
    && (n == |s| || s[n] < t[n])
  }

  lemma SameStart(s: Text, t: Text, n: nat)
    requires s != [] && t != []
    ensures PartsAt(s, t, n) && n > 0 ==> s[0] == t[0]
  {
    if PartsAt(s, t, n) && n > 0 {
      assert s[..n][0] == t[..n][0];
    }
  }

  lemma {:induction false} LessParts(s: Text, t: Text)
    ensures Less(s, t) <==> exists n: nat :: PartsAt(s, t, n)
  {
    if s == [] && t != [] {
      assert PartsAt(s, t, 0);
    } else if s != [] && t != [] {
      if s[0] < t[0] {
        assert PartsAt(s, t, 0);
      } else if s[0] == t[0] {
        LessParts(s[1..], t[1..]);
        if n: nat :| PartsAt(s[1..], t[1..], n) {
          assert s[..n + 1] == [s[0]] + s[1..][..n];
          assert t[..n + 1] == [t[0]] + t[1..][..n];
          assert PartsAt(s, t, n + 1);
        }
        if n: nat :| PartsAt(s, t, n) {
          assert n > 0;
          assert s[1..][..n - 1] == s[..n][1..] && t[1..][..n - 1] == t[..n][1..];
          assert PartsAt(s[1..], t[1..], n - 1);
        }
      } else {
        forall n: nat ensures !PartsAt(s, t, n) {
          SameStart(s, t, n);
        }
      }
    }
  }

  // ----- Sorted listings -----

  lemma AscendingTail(keys: seq<Text>)
    requires keys != [] && Ascending(keys)
    ensures Ascending(keys[1..]) && Elements(keys[1..]) == Elements(keys) - {keys[0]}
  {
    forall k | k in keys[1..] ensures k != keys[0] {
      LessIrreflexive(k);
    }
    assert keys == [keys[0]] + keys[1..];
  }

  lemma SameEmptiness(a: seq<Text>, b: seq<Text>)
    requires Elements(a) == Elements(b)
    ensures a == [] <==> b == []
  {
    assert a != [] ==> a[0] in Elements(a);
    assert b != [] ==> b[0] in Elements(b);
  }

  /** There is only one way to list a set of strings in ascending order. */
  lemma {:induction false} AscendingUnique(a: seq<Text>, b: seq<Text>)
    requires Ascending(a) && Ascending(b) && Elements(a) == Elements(b)
    ensures a == b
    decreases |a|
  {
    SameEmptiness(a, b);
    if a != [] {
      assert a[0] in Elements(a) && b[0] in Elements(b);
      if a[0] != b[0] {
        FirstIsLeast(a, b[0]);
        FirstIsLeast(b, a[0]);
        LessTransitive(a[0], b[0], a[0]);
        LessIrreflexive(a[0]);
      }
      AscendingTail(a);
      AscendingTail(b);
      AscendingUnique(a[1..], b[1..]);
      assert a == [a[0]] + a[1..] && b == [b[0]] + b[1..];
    }
  }

  lemma FirstIsLeast(a: seq<Text>, k: Text)
    requires a != [] && Ascending(a) && k in Elements(a) && k != a[0]
    ensures Less(a[0], k)
  {
  }

  function Insert(keys: seq<Text>, k: Text): seq<Text> {
    if keys == [] || Less(k, keys[0]) then [k] + keys else [keys[0]] + Insert(keys[1..], k)
  }

  /** Sorting, by the language's default order of strings. */
  function Sort(keys: seq<Text>): seq<Text> {
    if keys == [] then [] else Insert(Sort(keys[1..]), keys[0])
  }

  lemma {:induction false} InsertElements(keys: seq<Text>, k: Text)
    ensures Elements(Insert(keys, k)) == Elements(keys) + {k}
  {
    if keys != [] && !Less(k, keys[0]) {
      InsertElements(keys[1..], k);
      assert keys == [keys[0]] + keys[1..];
      assert Elements([keys[0]] + Insert(keys[1..], k)) == {keys[0]} + Elements(Insert(keys[1..], k));
    }
  }

  lemma {:induction false} InsertAscending(keys: seq<Text>, k: Text)
    requires Ascending(keys) && k !in keys
    ensures Ascending(Insert(keys, k))
  {
    if keys != [] && Less(k, keys[0]) {
      forall j | 1 <= j < |keys| ensures Less(k, keys[j]) {
        LessTransitive(k, keys[0], keys[j]);
      }
    } else if keys != [] {
      LessTotal(k, keys[0]);
      InsertAscending(keys[1..], k);
      InsertElements(keys[1..], k);
      var rest := Insert(keys[1..], k);
      forall j | 0 <= j < |rest| ensures Less(keys[0], rest[j]) {
        assert rest[j] in Elements(rest);
      }
    }
  }

  predicate NoRepeats(keys: seq<Text>) {
    forall i, j :: 0 <= i < j < |keys| ==> keys[i] != keys[j]
  }

  lemma {:induction false} SortLaws(keys: seq<Text>)
    requires NoRepeats(keys)
    ensures Ascending(Sort(keys)) && Elements(Sort(keys)) == Elements(keys)
  {
    if keys != [] {
      SortLaws(keys[1..]);
      assert keys[0] !in Elements(keys[1..]);
      assert keys[0] !in Sort(keys[1..]) by {
        assert forall k :: k in Sort(keys[1..]) ==> k in Elements(Sort(keys[1..]));
      }
      InsertAscending(Sort(keys[1..]), keys[0]);
      InsertElements(Sort(keys[1..]), keys[0]);
      assert keys == [keys[0]] + keys[1..];
    }
  }

  /** The strings of a set in ascending order. */
  ghost function Sorted(keys: set<Text>): seq<Text> {
    if keys == {} then [] else var k :| k in keys; Insert(Sorted(keys - {k}), k)
  }

  lemma {:induction false} SortedLaws(keys: set<Text>)
    ensures Ascending(Sorted(keys)) && Elements(Sorted(keys)) == keys
    decreases keys
  {
    if keys != {} {
      var k :| k in keys && Sorted(keys) == Insert(Sorted(keys - {k}), k);
      SortedLaws(keys - {k});
      assert forall j :: j in Sorted(keys - {k}) ==> j in Elements(Sorted(keys - {k}));
      InsertAscending(Sorted(keys - {k}), k);
      InsertElements(Sorted(keys - {k}), k);
    }
  }

  // ----- Names an object inherits -----

  function Ascii(s: string): Text
    requires forall i :: 0 <= i < |s| ==> s[i] <= '~'
  {
    seq(|s|, i requires 0 <= i < |s| => s[i] as int as CodeUnit)
  }

  /** Assigning this property sets an object's prototype instead of making a property. */
  const PROTO: Text := Ascii("__proto__")

  /** The method `del` asks; a property of this name takes its place. */
  const HAS_OWN: Text := Ascii("hasOwnProperty")

  /** What a plain object inherits. */
  const INHERITED: set<Text> := {
    PROTO, HAS_OWN, Ascii("constructor"), Ascii("isPrototypeOf"), Ascii("propertyIsEnumerable"),
    Ascii("toLocaleString"), Ascii("toString"), Ascii("valueOf"), Ascii("__defineGetter__"),
    Ascii("__defineSetter__"), Ascii("__lookupGetter__"), Ascii("__lookupSetter__")
  }

  /** What it inherits besides once an entry is its prototype. */
  const ENTRY_FIELDS: set<Text> := {Ascii("key"), Ascii("value"), Ascii("valueWrapper")}

  // ----- Maps and their listings -----

  /** The entries that are properties of the object's own. */
  type Table<K, V> = map<Text, Entry<K, V>>

  /** The entries in the order of their keys' text. */
  ghost function Listing<K, V>(m: Table<K, V>): (list: seq<Entry<K, V>>)
  {
    SortedLaws(m.Keys);
    var keys := Sorted(m.Keys);
    seq(|keys|, i requires 0 <= i < |keys| => assert keys[i] in Elements(keys); m[keys[i]])
  }

  /** What is read from an array: of two entries under one key the later counts. */
  function Load<K, V>(text: K -> Text, arr: seq<Entry<K, V>>): Table<K, V> {
    if arr == [] then map[]
    else
      var last := arr[|arr| - 1];
      var rest := Load(text, arr[..|arr| - 1]);
      if text(last.key) == PROTO then rest else rest[text(last.key) := last]
  }

  /** The entry that became the prototype. */
  function LoadProto<K, V>(text: K -> Text, arr: seq<Entry<K, V>>): Option<Entry<K, V>> {
    if arr == [] then None
    else if text(arr[|arr| - 1].key) == PROTO then Some(arr[|arr| - 1])
    else LoadProto(text, arr[..|arr| - 1])
  }

  /** Every entry stands under its own key. */
  ghost predicate Keyed<K, V>(text: K -> Text, m: Table<K, V>) {
    PROTO !in m && forall k :: k in m ==> text(m[k].key) == k
  }

  lemma {:induction false} LoadKeyed<K, V>(text: K -> Text, arr: seq<Entry<K, V>>)
    ensures Keyed(text, Load(text, arr))
    ensures Load(text, arr).Keys == set i | 0 <= i < |arr| && text(arr[i].key) != PROTO :: text(arr[i].key)
    decreases |arr|
  {
    if arr != [] {
      LoadKeyed(text, arr[..|arr| - 1]);
    }
  }

  /** Of the entries under one key the last counts, also under the prototype's name. */
  lemma {:induction false} LastEntryCounts<K, V>(text: K -> Text, arr: seq<Entry<K, V>>, i: nat)
    requires i < |arr| && forall j :: i < j < |arr| ==> text(arr[j].key) != text(arr[i].key)
    ensures var k := text(arr[i].key);
            if k == PROTO then LoadProto(text, arr) == Some(arr[i])
            else k in Load(text, arr) && Load(text, arr)[k] == arr[i]
    decreases |arr|
  {
    if i < |arr| - 1 {
      LastEntryCounts(text, arr[..|arr| - 1], i);
    }
  }

  lemma ListingAt<K, V>(text: K -> Text, m: Table<K, V>)
    requires Keyed(text, m)
    ensures var list, keys := Listing(m), Sorted(m.Keys);
            && |list| == |keys| && Ascending(keys) && Elements(keys) == m.Keys
            && (forall i :: 0 <= i < |list| ==> keys[i] in m && list[i] == m[keys[i]] && text(list[i].key) == keys[i])
  {
    SortedLaws(m.Keys);
    var keys := Sorted(m.Keys);
    forall i | 0 <= i < |keys| ensures keys[i] in m {
      assert keys[i] in Elements(keys);
    }
  }

  /** Round trip: the map read back from its listing is the map. */
  lemma LoadListing<K, V>(text: K -> Text, m: Table<K, V>)
    requires Keyed(text, m)
    ensures Load(text, Listing(m)) == m
  {
    var list, keys := Listing(m), Sorted(m.Keys);
    ListingAt(text, m);
    LoadKeyed(text, list);
    forall a, b | 0 <= a < b < |list| ensures text(list[a].key) != text(list[b].key) {
      LessIrreflexive(keys[a]);
    }
    forall k | k in m ensures k in Load(text, list) && Load(text, list)[k] == m[k] {
      assert k in Elements(keys);
      var i :| 0 <= i < |keys| && keys[i] == k;
      LastEntryCounts(text, list, i);
    }
    forall k | k in Load(text, list) ensures k in m {
      var i :| 0 <= i < |list| && text(list[i].key) == k;
    }
  }

  // ----- Runs -----

  /** A map object: its own properties, the entry that became the prototype of its table, the
      array it was loaded from or last wrote, and whether the two are known to agree. */
  datatype Contents<K, V> = Contents(table: Table<K, V>, proto: Option<Entry<K, V>>, arr: seq<Entry<K, V>>, clean: bool)

  ghost predicate Valid<K, V>(text: K -> Text, c: Contents<K, V>) {
    Keyed(text, c.table) && (c.clean ==> Load(text, c.arr) == c.table)
  }

  datatype Call<K, V> = SetKey(key: K, value: V) | Del(key: K) | Clear | ToArray

  function Loaded<K, V>(text: K -> Text, arr: seq<Entry<K, V>>): Contents<K, V> {
    Contents(Load(text, arr), LoadProto(text, arr), arr, true)
  }

  /** `del` fails, with nothing changed, once an entry has taken the place of the method it
      calls. */
  predicate DelFails<K, V>(c: Contents<K, V>) {
    HAS_OWN in c.table
  }

  ghost function Step<K, V>(text: K -> Text, c: Contents<K, V>, call: Call<K, V>): Contents<K, V> {
    match call
    case SetKey(k, v) =>
      if text(k) == PROTO then c.(proto := Some(Entry(k, v)), clean := false)
      else c.(table := c.table[text(k) := Entry(k, v)], clean := false)
    case Del(k) => if DelFails(c) then c else c.(table := c.table - {text(k)}, clean := false)
    case Clear => c.(table := map[], proto := None, clean := false)
    case ToArray => if c.clean then c else c.(arr := Listing(c.table), clean := true)
  }

  ghost function Run<K, V>(text: K -> Text, c: Contents<K, V>, calls: seq<Call<K, V>>): Contents<K, V>
    decreases |calls|
  {
    if calls == [] then c else Run(text, Step(text, c, calls[0]), calls[1..])
  }

  /** Some call puts the array out of step. */
  ghost predicate Changes<K, V>(text: K -> Text, c: Contents<K, V>, calls: seq<Call<K, V>>)
    decreases |calls|
  {
    calls != [] && var d := Step(text, c, calls[0]); !d.clean || Changes(text, d, calls[1..])
  }

  lemma StepValid<K, V>(text: K -> Text, c: Contents<K, V>, call: Call<K, V>)
    requires Valid(text, c)
    ensures Valid(text, Step(text, c, call))
  {
    LoadListing(text, c.table);
  }

  /** Out of step with its table, or the listing of it. */
  ghost predicate Listed<K, V>(c: Contents<K, V>) {
    c.clean ==> c.arr == Listing(c.table)
  }

  lemma {:induction false} RunValid<K, V>(text: K -> Text, c: Contents<K, V>, calls: seq<Call<K, V>>)
    requires Valid(text, c)
    ensures var d := Run(text, c, calls);
            Valid(text, d) && (Listed(c) || Changes(text, c, calls) ==> Listed(d))
    decreases |calls|
  {
    if calls != [] {
      StepValid(text, c, calls[0]);
      RunValid(text, Step(text, c, calls[0]), calls[1..]);
    }
  }

  lemma {:induction false} UnchangedArray<K, V>(text: K -> Text, c: Contents<K, V>, calls: seq<Call<K, V>>)
    requires c.clean && !Changes(text, c, calls)
    ensures Run(text, c, calls) == c
    decreases |calls|
  {
    if calls != [] {
      UnchangedArray(text, Step(text, c, calls[0]), calls[1..]);
    }
  }

  /** Map and array agree, whatever the keys: after any run of calls on a map loaded from any
      array, a map loaded from what `toArray` gives has the same table. As long as no call has
      put the array out of step it is the very array; from then on it is the listing of the
      table and so determined by it alone. */
  lemma MapAndArrayAgree<K, V>(text: K -> Text, arr: seq<Entry<K, V>>, calls: seq<Call<K, V>>)
    ensures var d := Run(text, Loaded(text, arr), calls);
            var result := Step(text, d, ToArray).arr;
            && Load(text, result) == d.table
            && (if Changes(text, Loaded(text, arr), calls) then result == Listing(d.table) else result == arr)
  {
    LoadKeyed(text, arr);
    if !Changes(text, Loaded(text, arr), calls) {
      UnchangedArray(text, Loaded(text, arr), calls);
    }
    RunValid(text, Loaded(text, arr), calls);
    StepValid(text, Run(text, Loaded(text, arr), calls), ToArray);
  }

  // ----- When a map object is a map -----

  /** What the calls mean for the mathematical map from keys to values. */
  function Meaning<K(!new), V>(m: map<K, V>, call: Call<K, V>): map<K, V> {
    match call
    case SetKey(k, v) => m[k := v]
    case Del(k) => m - {k}
    case Clear => map[]
    case ToArray => m
  }

  function MeaningOfRun<K(!new), V>(m: map<K, V>, calls: seq<Call<K, V>>): map<K, V>
    decreases |calls|
  {
    if calls == [] then m else MeaningOfRun(Meaning(m, calls[0]), calls[1..])
  }

  /** What an array means: its entries set one after the other. */
  function MeaningOfArray<K(!new), V>(arr: seq<Entry<K, V>>): map<K, V> {
    if arr == [] then map[]
    else
      var last := arr[|arr| - 1];
      MeaningOfArray(arr[..|arr| - 1])[last.key := last.value]
  }

  ghost predicate Injective<K(!new)>(text: K -> Text) {
    forall j, k :: text(j) == text(k) ==> j == k
  }

  ghost predicate Avoids<K(!new)>(text: K -> Text, names: set<Text>) {
    forall k :: text(k) !in names
  }

  /** The table holds exactly the map: under the text of every key, that key and its value. */
  ghost predicate Represents<K(!new), V>(text: K -> Text, table: Table<K, V>, m: map<K, V>) {
    && Keyed(text, table)
    && (forall k :: k in m <==> text(k) in table)
    && (forall k :: k in m ==> table[text(k)] == Entry(k, m[k]))
  }

  /** What `has` answers: inherited properties count. */
  predicate HasAnswer<K, V>(c: Contents<K, V>, k: Text) {
    k in c.table || k in INHERITED || (c.proto.Some? && k in ENTRY_FIELDS)
  }

  /** What `get` answers. An inherited property has no value, except the entry that became
      the prototype. */
  function GetAnswer<K, V>(c: Contents<K, V>, k: Text): Option<V> {
    if k in c.table then Some(c.table[k].value)
    else if k == PROTO && c.proto.Some? then Some(c.proto.value.value)
    else None
  }

  /** What `get` answers after the calls, from the calls alone and what it answered before. A
      key that reads like the prototype's name is never removed but by `clear`, and once a key
      reads like the method that `del` asks, `del` does nothing until the next `clear`. */
  function AnswerAfter<K(!new), V>(text: K -> Text, calls: seq<Call<K, V>>, k: Text, answer: Option<V>, blocked: bool)
    : Option<V>
    decreases |calls|
  {
    if calls == [] then answer
    else
      var rest := calls[1..];
      match calls[0]
      case SetKey(j, v) =>
        AnswerAfter(text, rest, k, if text(j) == k then Some(v) else answer, blocked || text(j) == HAS_OWN)
      case Del(j) =>
        AnswerAfter(text, rest, k, if text(j) == k && k != PROTO && !blocked then None else answer, blocked)
      case Clear => AnswerAfter(text, rest, k, None, false)
      case ToArray => AnswerAfter(text, rest, k, answer, blocked)
  }

  lemma StepAnswers<K(!new), V>(text: K -> Text, c: Contents<K, V>, call: Call<K, V>, k: Text)
    requires Keyed(text, c.table)
    ensures var d := Step(text, c, call);
            && Keyed(text, d.table)
            && AnswerAfter(text, [call], k, GetAnswer(c, k), HAS_OWN in c.table) == GetAnswer(d, k)
            && (HAS_OWN in d.table) == match call
                                       case SetKey(j, _) => HAS_OWN in c.table || text(j) == HAS_OWN
                                       case Clear => false
                                       case _ => HAS_OWN in c.table
  {
    assert [call][1..] == [];
    assert |PROTO| != |HAS_OWN|;
  }

  /** `get` over every run and for every key, whatever the texts of the keys are. */
  lemma {:induction false} RunAnswers<K(!new), V>(text: K -> Text, c: Contents<K, V>, calls: seq<Call<K, V>>, k: Text)
    requires Keyed(text, c.table)
    ensures GetAnswer(Run(text, c, calls), k) == AnswerAfter(text, calls, k, GetAnswer(c, k), HAS_OWN in c.table)
    decreases |calls|
  {
    if calls != [] {
      StepAnswers(text, c, calls[0], k);
      RunAnswers(text, Step(text, c, calls[0]), calls[1..], k);
      assert [calls[0]][1..] == [];
    }
  }

  lemma StepRepresents<K(!new), V>(text: K -> Text, c: Contents<K, V>, m: map<K, V>, call: Call<K, V>)
    requires Injective(text) && Avoids(text, {PROTO, HAS_OWN}) && Represents(text, c.table, m) && c.proto == None
    ensures Represents(text, Step(text, c, call).table, Meaning(m, call)) && Step(text, c, call).proto == None
  {
    assert HAS_OWN in c.table ==> text(c.table[HAS_OWN].key) == HAS_OWN;
  }

  lemma {:induction false} RunRepresents<K(!new), V>(text: K -> Text, c: Contents<K, V>, m: map<K, V>,
                                                     calls: seq<Call<K, V>>)
    requires Injective(text) && Avoids(text, {PROTO, HAS_OWN}) && Represents(text, c.table, m) && c.proto == None
    ensures Represents(text, Run(text, c, calls).table, MeaningOfRun(m, calls)) && Run(text, c, calls).proto == None
    decreases |calls|
  {
    if calls != [] {
      StepRepresents(text, c, m, calls[0]);
      RunRepresents(text, Step(text, c, calls[0]), Meaning(m, calls[0]), calls[1..]);
    }
  }

  lemma {:induction false} LoadRepresents<K(!new), V>(text: K -> Text, arr: seq<Entry<K, V>>)
    requires Injective(text) && Avoids(text, {PROTO, HAS_OWN})
    ensures Represents(text, Load(text, arr), MeaningOfArray(arr)) && LoadProto(text, arr) == None
    decreases |arr|
  {
    if arr != [] {
      LoadRepresents(text, arr[..|arr| - 1]);
      assert text(arr[|arr| - 1].key) !in {PROTO, HAS_OWN};
    }
  }

  ghost predicate RunsAreMaps<K(!new), V(!new)>(text: K -> Text, arr: seq<Entry<K, V>>, calls: seq<Call<K, V>>) {
    Represents(text, Run(text, Loaded(text, arr), calls).table, MeaningOfRun(MeaningOfArray(arr), calls))
  }

  /** The table after every run on a map loaded from any array holds exactly what the array and
      the calls make of a mathematical map, key by key, if and only if different keys have
      different texts and no key's text is one of the two names that `set` and `del` trip
      over. */
  lemma RunsAreMapsIff<K(!new), V(!new)>(text: K -> Text, v: V)
    ensures (forall arr: seq<Entry<K, V>>, calls: seq<Call<K, V>> :: RunsAreMaps(text, arr, calls))
            <==> Injective(text) && Avoids(text, {PROTO, HAS_OWN})
  {
    if Injective(text) && Avoids(text, {PROTO, HAS_OWN}) {
      forall arr: seq<Entry<K, V>>, calls: seq<Call<K, V>> ensures RunsAreMaps(text, arr, calls) {
        LoadRepresents(text, arr);
        RunRepresents(text, Loaded(text, arr), MeaningOfArray(arr), calls);
      }
    }
    if forall arr: seq<Entry<K, V>>, calls: seq<Call<K, V>> :: RunsAreMaps(text, arr, calls) {
      forall k ensures text(k) !in {PROTO, HAS_OWN} {
        assert RunsAreMaps(text, [], [Call<K, V>.SetKey(k, v)]);
        assert RunsAreMaps(text, [], [Call<K, V>.SetKey(k, v), Call<K, V>.Del(k)]);
        TrippingCalls(text, k, v);
      }
      forall j, k | text(j) == text(k) ensures j == k {
        assert RunsAreMaps(text, [], [Call<K, V>.SetKey(j, v), Call<K, V>.SetKey(k, v)]);
        TwoSets(text, j, k, v);
      }
    }
  }

  /** After the run the table holds the map, and `has` and `get` answer for the key as the map
      would. */
  ghost predicate AnswersLikeMap<K(!new), V(!new)>(text: K -> Text, arr: seq<Entry<K, V>>,
                                                   calls: seq<Call<K, V>>, k: K)
  {
    var c, m := Run(text, Loaded(text, arr), calls), MeaningOfRun(MeaningOfArray(arr), calls);
    && RunsAreMaps(text, arr, calls)
    && HasAnswer(c, text(k)) == (k in m)
    && GetAnswer(c, text(k)) == if k in m then Some(m[k]) else None
  }

  /** With `has` taken into account no key may have the name of anything an object inherits:
      every run answers as a map if and only if different keys have different texts and none
      of them is such a name. */
  lemma AnswersIff<K(!new), V(!new)>(text: K -> Text, v: V)
    ensures (forall arr: seq<Entry<K, V>>, calls: seq<Call<K, V>>, k: K :: AnswersLikeMap(text, arr, calls, k))
            <==> Injective(text) && Avoids(text, INHERITED)
  {
    if Injective(text) && Avoids(text, INHERITED) {
      forall arr: seq<Entry<K, V>>, calls: seq<Call<K, V>>, k: K ensures AnswersLikeMap(text, arr, calls, k) {
        LoadRepresents(text, arr);
        RunRepresents(text, Loaded(text, arr), MeaningOfArray(arr), calls);
      }
    }
    if forall arr: seq<Entry<K, V>>, calls: seq<Call<K, V>>, k: K :: AnswersLikeMap(text, arr, calls, k) {
      forall k ensures text(k) !in INHERITED {
        var none: seq<Call<K, V>> := [];
        assert AnswersLikeMap(text, [], none, k);
      }
      forall j, k | text(j) == text(k) ensures j == k {
        assert AnswersLikeMap(text, [], [Call<K, V>.SetKey(j, v), Call<K, V>.SetKey(k, v)], k);
        TwoSets(text, j, k, v);
      }
    }
  }

  lemma RunTwo<K(!new), V(!new)>(text: K -> Text, a: Call<K, V>, b: Call<K, V>)
    ensures Run(text, Loaded(text, []), [a]) == Step(text, Loaded(text, []), a)
    ensures MeaningOfRun(map[], [a]) == Meaning(map[], a)
    ensures Run(text, Loaded(text, []), [a, b]) == Step(text, Step(text, Loaded(text, []), a), b)
    ensures MeaningOfRun(map[], [a, b]) == Meaning(Meaning(map[], a), b)
  {
    assert [a, b][1..] == [b] && [b][1..] == [] && [a][1..] == [];
    var c := Step(text, Loaded(text, []), a);
    assert Run(text, Step(text, c, b), []) == Step(text, c, b) == Run(text, c, [b]);
    assert Run(text, c, []) == c;
    var m := Meaning(map[], a);
    assert MeaningOfRun(Meaning(m, b), []) == Meaning(m, b) == MeaningOfRun(m, [b]);
    assert MeaningOfRun(m, []) == m;
  }

  lemma TrippingCalls<K(!new), V(!new)>(text: K -> Text, k: K, v: V)
    ensures text(k) == PROTO ==> !RunsAreMaps(text, [], [Call<K, V>.SetKey(k, v)])
    ensures text(k) == HAS_OWN ==> !RunsAreMaps(text, [], [Call<K, V>.SetKey(k, v), Call<K, V>.Del(k)])
  {
    RunTwo(text, Call<K, V>.SetKey(k, v), Call<K, V>.Del(k));
    assert |PROTO| != |HAS_OWN|;
    assert k in map[k := v] && k !in map[k := v] - {k};
  }

  lemma TwoSets<K(!new), V(!new)>(text: K -> Text, j: K, k: K, v: V)
    requires text(j) == text(k) && RunsAreMaps(text, [], [Call<K, V>.SetKey(j, v), Call<K, V>.SetKey(k, v)])
    ensures j == k
  {
    RunTwo(text, Call<K, V>.SetKey(j, v), Call<K, V>.SetKey(k, v));
    var m := map[j := v][k := v];
    assert j in m && k in m;
  }

  // ----- The object -----

  class JspbMapObject<K(!new), V(!new)> {
    const text: K -> Text
    var table: Table<K, V>
    var proto: Option<Entry<K, V>>
    var arr: seq<Entry<K, V>>
    var arrClean: bool

    ghost function View(): Contents<K, V>
      reads this
    {
      Contents(table, proto, arr, arrClean)
    }

    constructor (text: K -> Text, arr: seq<Entry<K, V>>)
      ensures this.text == text && View() == Loaded(text, arr) && Valid(text, View())
    {
      this.text := text;
      this.arr := arr;
      table, proto := map[], None;
      arrClean := true;
      new;
      LoadKeyed(text, arr);
      if |arr| > 0 {
        LoadFromArray();
      }
    }

    /** Assigns a property: one name sets the prototype instead. */
    method Assign(key: Text, entry: Entry<K, V>)
      modifies this`table, this`proto
      ensures table == if key == PROTO then old(table) else old(table)[key := entry]
      ensures proto == if key == PROTO then Some(entry) else old(proto)
    {
      if key == PROTO {
        proto := Some(entry);
      } else {
        table := table[key := entry];
      }
    }

    method LoadFromArray()
      requires table == map[] && proto == None
      modifies this`table, this`proto, this`arrClean
      ensures table == Load(text, arr) && proto == LoadProto(text, arr) && arrClean
    {
      for i := 0 to |arr|
        invariant table == Load(text, arr[..i]) && proto == LoadProto(text, arr[..i])
      {
        assert arr[..i + 1][..i] == arr[..i];
        var record := arr[i];
        Assign(text(record.key), record);
      }
      assert arr[..|arr|] == arr;
      arrClean := true;
    }

    /** The texts of the keys, each once, in no order in particular. */
    method StringKeys() returns (keys: seq<Text>)
      ensures NoRepeats(keys) && Elements(keys) == table.Keys
    {
      keys := [];
      var rest := table.Keys;
      while rest != {}
        invariant NoRepeats(keys) && rest <= table.Keys && Elements(keys) == table.Keys - rest
        decreases rest
      {
        var p :| p in rest;
        assert p !in Elements(keys);
        assert Elements(keys + [p]) == Elements(keys) + {p};
        keys := keys + [p];
        rest := rest - {p};
      }
    }

    method GetLength() returns (n: nat)
      ensures n == |table|
    {
      var keys := StringKeys();
      CountElements(keys);
      return |keys|;
    }

    method SortedKeys() returns (strKeys: seq<Text>)
      ensures strKeys == Sorted(table.Keys)
    {
      strKeys := StringKeys();
      SortLaws(strKeys);
      SortedLaws(table.Keys);
      AscendingUnique(Sort(strKeys), Sorted(table.Keys));
      strKeys := Sort(strKeys);
    }

    /** The entries in the order of their keys' text. */
    method GetEntryList() returns (entries: seq<Entry<K, V>>)
      requires Keyed(text, table)
      ensures entries == Listing(table)
    {
      var strKeys := SortedKeys();
      ListingAt(text, table);
      entries := [];
      for i := 0 to |strKeys|
        invariant entries == Listing(table)[..i]
      {
        entries := entries + [table[strKeys[i]]];
      }
    }

    /** Brings the array up to date, if it is not, and gives it. */
    method ToArray() returns (result: seq<Entry<K, V>>)
      requires Valid(text, View())
      modifies this`arr, this`arrClean
      ensures View() == Step(text, old(View()), Call<K, V>.ToArray) && Valid(text, View()) && result == arr
    {
      StepValid(text, View(), Call<K, V>.ToArray);
      if !arrClean {
        arr := GetEntryList();
        arrClean := true;
      }
      return arr;
    }

    method Clear()
      requires Valid(text, View())
      modifies this`table, this`proto, this`arrClean
      ensures View() == Step(text, old(View()), Call<K, V>.Clear) && Valid(text, View())
    {
      table, proto := map[], None;
      arrClean := false;
    }

    /** Removes the key and says whether it was there; nothing when the call throws. */
    method Del(key: K) returns (hadKey: Option<bool>)
      requires Valid(text, View())
      modifies this`table, this`arrClean
      ensures hadKey == if DelFails(old(View())) then None else Some(text(key) in old(table))
      ensures View() == Step(text, old(View()), Call<K, V>.Del(key)) && Valid(text, View())
    {
      var keyValue := text(key);
      if HAS_OWN in table {
        return None;
      }
      hadKey := Some(keyValue in table);
      table := table - {keyValue};
      arrClean := false;
    }

    method Set(key: K, value: V)
      requires Valid(text, View())
      modifies this`table, this`proto, this`arrClean
      ensures View() == Step(text, old(View()), Call<K, V>.SetKey(key, value)) && Valid(text, View())
    {
      Assign(text(key), Entry(key, value));
      arrClean := false;
    }

    /** The value under the key. For a table that represents a map it is that map's. */
    method Get(key: K) returns (value: Option<V>)
      ensures value == GetAnswer(View(), text(key))
      ensures forall m: map<K, V> :: Represents(text, table, m) && proto == None ==>
                value == if key in m then Some(m[key]) else None
    {
      var keyValue := text(key);
      if keyValue in table {
        value := Some(table[keyValue].value);
      } else if keyValue == PROTO && proto.Some? {
        value := Some(proto.value.value);
      } else {
        value := None;
      }
    }

    /** Whether there is such a property, inherited ones included. */
    method Has(key: K) returns (found: bool)
      ensures found == HasAnswer(View(), text(key))
      ensures forall m: map<K, V> :: Represents(text, table, m) && proto == None ==>
                found == (key in m || text(key) in INHERITED)
    {
      var keyValue := text(key);
      found := keyValue in table || keyValue in INHERITED || (proto.Some? && keyValue in ENTRY_FIELDS);
    }
  }

  lemma {:induction false} CountElements(keys: seq<Text>)
    requires NoRepeats(keys)
    ensures |Elements(keys)| == |keys|
  {
    if keys != [] {
      CountElements(keys[1..]);
      assert keys[0] !in Elements(keys[1..]);
      assert keys == [keys[0]] + keys[1..];
      assert Elements(keys) == Elements(keys[1..]) + {keys[0]};
    }
  }
}
