/** Fields of a message: numbers below the pivot live in the slots, the others in the
    extension object, which is made when first needed. At most one field of each one-of
    group is set. */
module JspbMessage {
  import opened Wrappers
  import opened JspbCompare

  /** What an array slot or an extension field holds. The sentinel stands for a repeated
      field with no elements until it is first read. */
  datatype Slot = Undefined | EmptyListSentinel | ExtensionObject | Held(v: Value)

  type Field = n: int | 1 <= n witness 1

  /** A message. No pivot means that every field lives in the array. */
  datatype Msg = Msg(slots: seq<Slot>, extension: Option<map<nat, Slot>>, pivot: Option<int>, offset: int)

  predicate Truthy(s: Slot) {
    match s
    case Undefined => false
    case Held(Null) => false
    case Held(Bool(b)) => b
    case Held(Num(n)) => n != NaN && n != Finite(0.0)
    case Held(Str(t)) => t != ""
    case _ => true
  }

  predicate IsNull(s: Slot) {
    s == Undefined || s == Held(Value.Null)
  }

  function SlotAt(slots: seq<Slot>, i: int): Slot {
    if 0 <= i < |slots| then slots[i] else Undefined
  }

  /** Writing past the end makes the array longer. */
  function Put(slots: seq<Slot>, i: nat, s: Slot): (result: seq<Slot>)
    ensures |slots| <= |result| && i < |result|
    ensures forall j :: SlotAt(result, j) == if j == i then s else SlotAt(slots, j)
  {
    if i < |slots| then slots[i := s] else slots + seq(i - |slots|, _ => Undefined) + [s]
  }

  predicate InArray(m: Msg, f: Field) {
    m.pivot.None? || f < m.pivot.value
  }

  /** What a field may hold: normal fields are never plain objects. */
  predicate Storable(s: Slot) {
    s != ExtensionObject && !(s.Held? && s.v.Ext?)
  }

  predicate IsExtension(s: Slot) {
    s.Held? && s.v.Ext? && forall k :: k in s.v.fields ==> !s.v.fields[k].Ext?
  }

  function PivotIndex(m: Msg): int
    requires m.pivot.Some?
  {
    m.pivot.value + m.offset
  }

  /** Where a plain object may stand: the message's extension object at the pivot, or, there
      and not at the end, one the message took no notice of. */
  predicate MayBeObject(m: Msg, i: int) {
    && m.pivot.Some? && i == PivotIndex(m)
    && (m.extension.Some? || (i < |m.slots| - 1 && IsExtension(SlotAt(m.slots, i))))
  }

  ghost predicate Valid(m: Msg) {
    && -1 <= m.offset <= 0
    && (m.pivot.Some? ==> 0 <= PivotIndex(m))
    && (m.extension.Some? ==> m.pivot.Some? && SlotAt(m.slots, PivotIndex(m)) == ExtensionObject)
    && (m.extension.Some? ==> forall k :: k in m.extension.value ==> Storable(m.extension.value[k]))
    && (forall i :: 0 <= i < |m.slots| ==> Storable(m.slots[i]) || MayBeObject(m, i))
  }

  /** The place of the field as it is. */
  function Raw(m: Msg, f: Field): Slot {
    if InArray(m, f) then SlotAt(m.slots, f + m.offset)
    else if m.extension.Some? && f in m.extension.value then m.extension.value[f]
    else Undefined
  }

  function Opened(s: Slot): Slot {
    if s == EmptyListSentinel then Held(List([])) else s
  }

  /** A value the caller may give: no sentinel and no extension object. */
  predicate IsValue(s: Slot) {
    Storable(s) && s != EmptyListSentinel
  }

  /** What a caller reads. */
  function Read(m: Msg, f: Field): (s: Slot)
    ensures Valid(m) ==> IsValue(s)
  {
    Opened(Raw(m, f))
  }

  predicate IsSet(m: Msg, f: Field) {
    !IsNull(Raw(m, f))
  }

  function Write(m: Msg, f: Field, s: Slot): Msg
    requires -1 <= m.offset && (InArray(m, f) || m.extension.Some?)
  {
    if InArray(m, f) then m.(slots := Put(m.slots, f + m.offset, s))
    else m.(extension := Some(m.extension.value[f := s]))
  }

  /** The extension object, if there is one, ends the array. */
  predicate ExtensionAtEnd(m: Msg) {
    m.extension.Some? ==> m.pivot.Some? && PivotIndex(m) == |m.slots| - 1
  }

  /** There is an extension object, or room for one at the pivot. */
  predicate CanExtend(m: Msg) {
    m.extension.Some? || (m.pivot.Some? && !Truthy(SlotAt(m.slots, PivotIndex(m))))
  }

  /** Setting the field does not fail. */
  predicate Accepts(m: Msg, f: Field) {
    InArray(m, f) || CanExtend(m)
  }

  /** The pivot stays, an extension object stays where it is, and the same fields can be set. */
  predicate KeepsShape(m: Msg, t: Msg) {
    && t.pivot == m.pivot && t.offset == m.offset && CanExtend(t) == CanExtend(m)
    && (m.extension.Some? ==> t.extension.Some? && (ExtensionAtEnd(m) ==> ExtensionAtEnd(t)))
  }

  /** An extension object is made when the slot at the pivot holds nothing that counts as
      true. */
  function WithExtension(m: Msg): (t: Msg)
    requires Valid(m)
    ensures Valid(t) && KeepsShape(m, t)
  {
    if m.pivot.Some? && !Truthy(SlotAt(m.slots, PivotIndex(m)))
    then m.(slots := Put(m.slots, PivotIndex(m), ExtensionObject), extension := Some(map[]))
    else m
  }

  /** The message after a field is set; unchanged when that fails. */
  function Stored(m: Msg, f: Field, s: Slot): (t: Msg)
    requires Valid(m) && Storable(s)
    ensures Valid(t) && KeepsShape(m, t)
  {
    if InArray(m, f) then Write(m, f, s)
    else if WithExtension(m).extension.Some? then Write(WithExtension(m), f, s)
    else m
  }

  /** Reading opens the sentinel into a list of the field's own. */
  function AfterGet(m: Msg, f: Field): (t: Msg)
    requires Valid(m)
    ensures Valid(t) && KeepsShape(m, t)
  {
    if Raw(m, f) == EmptyListSentinel then Stored(m, f, Held(List([]))) else m
  }

  function Cleared(m: Msg, oneof: seq<Field>): (t: Msg)
    requires Valid(m)
    ensures Valid(t) && KeepsShape(m, t)
  {
    if oneof == [] then m
    else
      var t := Cleared(m, oneof[..|oneof| - 1]);
      var f := oneof[|oneof| - 1];
      if IsSet(t, f) then Stored(t, f, Undefined) else t
  }

  /** The field of the group met last that was still set, or 0. */
  function LastSet(m: Msg, oneof: seq<Field>): nat
    requires Valid(m)
  {
    if oneof == [] then 0
    else
      var f := oneof[|oneof| - 1];
      var rest := oneof[..|oneof| - 1];
      if IsSet(Cleared(m, rest), f) then f else LastSet(m, rest)
  }

  /** The message after a group was reduced to its last field that is set. */
  function Reduced(m: Msg, oneof: seq<Field>): (t: Msg)
    requires Valid(m)
    ensures Valid(t) && KeepsShape(m, t)
  {
    var c := LastSet(m, oneof);
    if c == 0 then Cleared(m, oneof) else Stored(Cleared(m, oneof), c, Read(m, c))
  }

  // ----- Field laws -----

  /** Get after set, and the frame: what was set is read back and every other field reads as
      before, on either side of the pivot; when setting fails nothing changes. */
  lemma StoredLaws(m: Msg, f: Field, s: Slot)
    requires Valid(m) && Storable(s)
    ensures Raw(Stored(m, f, s), f) == if Accepts(m, f) then s else Raw(m, f)
    ensures forall g: Field :: g != f ==> Raw(Stored(m, f, s), g) == Raw(m, g)
    ensures !Accepts(m, f) ==> Stored(m, f, s) == m
  {
  }

  /** Reading a field changes no field's reading. What was read is kept in place of the
      sentinel, and nothing else changes. */
  lemma GetKeepsReadings(m: Msg, f: Field)
    requires Valid(m)
    ensures Valid(AfterGet(m, f)) && forall g: Field :: Read(AfterGet(m, f), g) == Read(m, g)
    ensures Raw(AfterGet(m, f), f) == Read(m, f) && forall g: Field :: g != f ==> Raw(AfterGet(m, f), g) == Raw(m, g)
  {
    StoredLaws(m, f, Held(List([])));
  }

  // ----- One-of groups -----

  lemma {:induction false} ClearedLaws(m: Msg, oneof: seq<Field>)
    requires Valid(m)
    ensures forall f: Field ::
              Raw(Cleared(m, oneof), f) == if f in oneof && IsSet(m, f) then Undefined else Raw(m, f)
    decreases |oneof|
  {
    if oneof != [] {
      var rest, f := oneof[..|oneof| - 1], oneof[|oneof| - 1];
      assert oneof == rest + [f];
      ClearedLaws(m, rest);
      StoredLaws(Cleared(m, rest), f, Undefined);
    }
  }

  lemma {:induction false} LastSetLaws(m: Msg, oneof: seq<Field>)
    requires Valid(m)
    ensures var c := LastSet(m, oneof);
            if c == 0 then forall f :: f in oneof ==> !IsSet(m, f) else c in oneof && IsSet(m, c)
    decreases |oneof|
  {
    if oneof != [] {
      var rest, f := oneof[..|oneof| - 1], oneof[|oneof| - 1];
      assert oneof == rest + [f];
      ClearedLaws(m, rest);
      LastSetLaws(m, rest);
    }
  }

  predicate Distinct(fields: seq<Field>) {
    forall i, j :: 0 <= i < j < |fields| ==> fields[i] != fields[j]
  }

  /** When no field is listed twice, the one chosen is the last that is set. */
  lemma {:induction false} LastSetIsLast(m: Msg, oneof: seq<Field>, i: nat)
    requires Valid(m) && Distinct(oneof) && i < |oneof| && IsSet(m, oneof[i])
    requires forall j :: i < j < |oneof| ==> !IsSet(m, oneof[j])
    ensures LastSet(m, oneof) == oneof[i]
    decreases |oneof|
  {
    var rest, f := oneof[..|oneof| - 1], oneof[|oneof| - 1];
    ClearedLaws(m, rest);
    assert f !in rest;
    if i < |oneof| - 1 {
      assert !IsSet(m, f);
      LastSetIsLast(m, rest, i);
    }
  }

  ghost predicate AtMostOne(m: Msg, oneof: seq<Field>) {
    forall f, g :: f in oneof && g in oneof && IsSet(m, f) && IsSet(m, g) ==> f == g
  }

  /** A field once its group was reduced: the chosen one as it reads, the others cleared if
      they were set. */
  function AfterReduce(m: Msg, oneof: seq<Field>, f: Field): Slot
    requires Valid(m)
  {
    if LastSet(m, oneof) == f then Read(m, f)
    else if f in oneof && IsSet(m, f) then Undefined
    else Raw(m, f)
  }

  /** Reducing a group leaves the chosen field as it reads, nothing else of the group, and
      every other field untouched. */
  lemma ReducedLaws(m: Msg, oneof: seq<Field>)
    requires Valid(m)
    ensures var c, t := LastSet(m, oneof), Reduced(m, oneof);
            && AtMostOne(t, oneof)
            && (forall f: Field :: Raw(t, f) == AfterReduce(m, oneof, f))
            && (forall f :: f in oneof ==> (IsSet(t, f) <==> c == f))
            && (c != 0 ==> c in oneof && IsSet(m, c) && Read(t, c) == Read(m, c))
            && (forall f: Field :: f !in oneof || !IsSet(m, f) ==> Raw(t, f) == Raw(m, f))
  {
    ClearedLaws(m, oneof);
    LastSetLaws(m, oneof);
    var c := LastSet(m, oneof);
    if c != 0 {
      StoredLaws(Cleared(m, oneof), c, Read(m, c));
    }
  }

  lemma {:induction false} ClearedPlain(m: Msg, oneof: seq<Field>)
    requires Valid(m) && AtMostOne(m, oneof)
    ensures var c := LastSet(m, oneof); Cleared(m, oneof) == if c == 0 then m else Stored(m, c, Undefined)
    decreases |oneof|
  {
    if oneof != [] {
      var rest, f := oneof[..|oneof| - 1], oneof[|oneof| - 1];
      assert forall g :: g in rest ==> g in oneof;
      assert AtMostOne(m, rest);
      ClearedPlain(m, rest);
      if IsSet(Cleared(m, rest), f) {
        ClearedLaws(m, rest);
        LastSetLaws(m, rest);
        assert f in oneof && f !in rest && IsSet(m, f);
        assert LastSet(m, rest) == 0;
      }
    }
  }

  lemma StoredBack(m: Msg, f: Field)
    requires Valid(m) && IsSet(m, f)
    ensures Stored(Stored(m, f, Undefined), f, Raw(m, f)) == m
  {
    var t := Stored(Stored(m, f, Undefined), f, Raw(m, f));
    if InArray(m, f) {
      assert t.slots == m.slots;
    } else {
      assert t.extension.value == m.extension.value;
    }
  }

  /** Asking which field of a group is set changes the message if and only if more than one
      is, or the one that is set holds the sentinel. */
  lemma UnchangedIff(m: Msg, oneof: seq<Field>)
    requires Valid(m)
    ensures Reduced(m, oneof) == m <==>
              AtMostOne(m, oneof) && forall f :: f in oneof ==> Raw(m, f) != EmptyListSentinel
  {
    ReducedLaws(m, oneof);
    LastSetLaws(m, oneof);
    var c := LastSet(m, oneof);
    if AtMostOne(m, oneof) && forall f :: f in oneof ==> Raw(m, f) != EmptyListSentinel {
      ClearedPlain(m, oneof);
      if c != 0 {
        StoredBack(m, c);
      }
    }
    if Reduced(m, oneof) == m {
      forall f | f in oneof ensures Raw(m, f) != EmptyListSentinel {
        if IsSet(m, f) {
          assert c == f;
        }
      }
    }
  }

  // ----- Setting a field of a group -----

  /** The message after a field of a group is set, and whether that succeeds. Nothing is
      cleared for the value `undefined`, and what is cleared stays so when setting fails. */
  function SetOneof(m: Msg, f: Field, oneof: seq<Field>, s: Slot): (t: Msg)
    requires Valid(m) && Storable(s)
    ensures Valid(t) && KeepsShape(m, t)
  {
    var c := LastSet(m, oneof);
    var t := Reduced(m, oneof);
    if c != 0 && c != f && s != Undefined then Stored(Stored(t, c, Undefined), f, s)
    else Stored(t, f, s)
  }

  /** The field set reads as the value given. No other field of its group is set when the
      value is not `undefined`; when it is, the chosen field reads as it did. Fields outside
      the group are untouched. */
  lemma SetOneofLaws(m: Msg, f: Field, oneof: seq<Field>, s: Slot)
    requires Valid(m) && f in oneof && IsValue(s)
    ensures var t := SetOneof(m, f, oneof, s);
            && Valid(t) && AtMostOne(t, oneof)
            && (Accepts(m, f) ==> Read(t, f) == s)
            && (s != Undefined ==> forall g :: g in oneof && g != f ==> !IsSet(t, g))
            && (var c := LastSet(m, oneof); s == Undefined && c != 0 && c != f ==> Read(t, c) == Read(m, c))
            && (forall g: Field :: g !in oneof ==> Raw(t, g) == Raw(m, g))
  {
    ReducedLaws(m, oneof);
    var c, t := LastSet(m, oneof), Reduced(m, oneof);
    if c != 0 && c != f && s != Undefined {
      StoredLaws(t, c, Undefined);
      StoredLaws(Stored(t, c, Undefined), f, s);
    } else {
      StoredLaws(t, f, s);
    }
  }

  // ----- Whole runs -----

  ghost predicate Disjoint(groups: seq<seq<Field>>) {
    forall i, j :: 0 <= i < |groups| && 0 <= j < |groups| && i != j ==> forall f :: f in groups[i] ==> f !in groups[j]
  }

  ghost predicate GroupsHold(m: Msg, groups: seq<seq<Field>>) {
    forall i :: 0 <= i < |groups| ==> AtMostOne(m, groups[i])
  }

  lemma GroupUntouched(m: Msg, t: Msg, oneof: seq<Field>)
    requires AtMostOne(m, oneof) && forall f :: f in oneof ==> Raw(t, f) == Raw(m, f)
    ensures AtMostOne(t, oneof)
  {
  }

  datatype Call =
    | Get(f: Field)
    | Set(f: Field, s: Slot)
    | SetMember(f: Field, group: nat, s: Slot)
    | AskCase(group: nat)

  /** What generated code does: a field of a group is set through the group. */
  ghost predicate Proper(groups: seq<seq<Field>>, call: Call) {
    match call
    case Get(_) => true
    case Set(f, s) => IsValue(s) && forall i :: 0 <= i < |groups| ==> f !in groups[i]
    case SetMember(f, g, s) => IsValue(s) && g < |groups| && f in groups[g]
    case AskCase(g) => g < |groups|
  }

  ghost function Step(m: Msg, groups: seq<seq<Field>>, call: Call): (t: Msg)
    requires Valid(m) && Proper(groups, call)
    ensures Valid(t) && KeepsShape(m, t)
  {
    match call
    case Get(f) => AfterGet(m, f)
    case Set(f, s) => Stored(m, f, s)
    case SetMember(f, g, s) => SetOneof(m, f, groups[g], s)
    case AskCase(g) => Reduced(m, groups[g])
  }

  lemma StepKeepsGroups(m: Msg, groups: seq<seq<Field>>, call: Call)
    requires Valid(m) && Proper(groups, call) && Disjoint(groups) && GroupsHold(m, groups)
    ensures Valid(Step(m, groups, call)) && GroupsHold(Step(m, groups, call), groups)
  {
    var t := Step(m, groups, call);
    match call {
      case Get(f) => GetKeepsReadings(m, f);
      case Set(f, s) => StoredLaws(m, f, s);
      case SetMember(f, g, s) => SetOneofLaws(m, f, groups[g], s);
      case AskCase(g) => ReducedLaws(m, groups[g]);
    }
    forall i | 0 <= i < |groups| ensures AtMostOne(t, groups[i]) {
      if call.Get? {
        assert forall g: Field :: Read(t, g) == Read(m, g);
        assert forall g: Field :: IsSet(t, g) == !IsNull(Read(t, g)) && IsSet(m, g) == !IsNull(Read(m, g));
      } else if !((call.SetMember? || call.AskCase?) && call.group == i) {
        GroupUntouched(m, t, groups[i]);
      }
    }
  }

  ghost predicate AllProper(groups: seq<seq<Field>>, calls: seq<Call>) {
    forall i :: 0 <= i < |calls| ==> Proper(groups, calls[i])
  }

  /** The message after a run of calls. A call that fails leaves what it had done. */
  ghost function Run(m: Msg, groups: seq<seq<Field>>, calls: seq<Call>): (t: Msg)
    requires Valid(m) && AllProper(groups, calls)
    ensures Valid(t) && KeepsShape(m, t)
    decreases |calls|
  {
    if calls == [] then m else Run(Step(m, groups, calls[0]), groups, calls[1..])
  }

  /** Over every run of proper calls each group keeps at most one field set. */
  lemma {:induction false} RunKeepsGroups(m: Msg, groups: seq<seq<Field>>, calls: seq<Call>)
    requires Valid(m) && Disjoint(groups) && GroupsHold(m, groups) && AllProper(groups, calls)
    ensures Valid(Run(m, groups, calls)) && GroupsHold(Run(m, groups, calls), groups)
    decreases |calls|
  {
    if calls != [] {
      StepKeepsGroups(m, groups, calls[0]);
      RunKeepsGroups(Step(m, groups, calls[0]), groups, calls[1..]);
    }
  }

  // ----- What a run of calls does to the readings -----

  /** The reading of a field after a call, from the call and the reading before it alone.
      Setting a member to a value other than `undefined` clears the rest of its group. */
  function ReadingAfter(groups: seq<seq<Field>>, call: Call, accepted: bool, f: Field, before: Slot): Slot
    requires call.SetMember? ==> call.group < |groups|
  {
    match call
    case Get(_) => before
    case Set(g, s) => if f == g && accepted then s else before
    case SetMember(g, i, s) =>
      if f == g then (if accepted then s else before)
      else if f in groups[i] && s != Undefined && !IsNull(before) then Undefined
      else before
    case AskCase(_) => before
  }

  /** Setting the field named in the call does not fail. */
  predicate Accepted(m: Msg, call: Call) {
    !call.AskCase? && Accepts(m, call.f)
  }

  lemma StepReads(m: Msg, groups: seq<seq<Field>>, call: Call, f: Field)
    requires Valid(m) && Proper(groups, call) && GroupsHold(m, groups)
    ensures Read(Step(m, groups, call), f) == ReadingAfter(groups, call, Accepted(m, call), f, Read(m, f))
  {
    match call {
      case Get(g) => GetKeepsReadings(m, g);
      case Set(g, s) => StoredLaws(m, g, s);
      case SetMember(g, i, s) => MemberReads(m, groups[i], g, s, f);
      case AskCase(i) => AskingReads(m, groups[i], f);
    }
  }

  /** Asking a group with at most one field set changes no reading. */
  lemma AskingReads(m: Msg, oneof: seq<Field>, f: Field)
    requires Valid(m) && AtMostOne(m, oneof)
    ensures Read(Reduced(m, oneof), f) == Read(m, f)
  {
    ReducedLaws(m, oneof);
    LastSetLaws(m, oneof);
  }

  lemma MemberReads(m: Msg, oneof: seq<Field>, g: Field, s: Slot, f: Field)
    requires Valid(m) && AtMostOne(m, oneof) && g in oneof && IsValue(s)
    ensures Read(SetOneof(m, g, oneof, s), f) ==
              if f == g then (if Accepts(m, g) then s else Read(m, g))
              else if f in oneof && s != Undefined && IsSet(m, f) then Undefined
              else Read(m, f)
  {
    AskingReads(m, oneof, f);
    ReducedLaws(m, oneof);
    LastSetLaws(m, oneof);
    var c, t := LastSet(m, oneof), Reduced(m, oneof);
    if c != 0 && c != g && s != Undefined {
      StoredLaws(t, c, Undefined);
      StoredLaws(Stored(t, c, Undefined), g, s);
    } else {
      StoredLaws(t, g, s);
    }
  }

  /** The reading of a field after a run of calls on the message, call by call. */
  function ReadingAfterAll(m: Msg, groups: seq<seq<Field>>, calls: seq<Call>, f: Field, before: Slot): Slot
    requires forall i :: 0 <= i < |calls| && calls[i].SetMember? ==> calls[i].group < |groups|
  {
    if calls == [] then before
    else
      var after := ReadingAfter(groups, calls[0], Accepted(m, calls[0]), f, before);
      ReadingAfterAll(m, groups, calls[1..], f, after)
  }

  lemma {:induction false} SameAccepts(m: Msg, t: Msg, groups: seq<seq<Field>>, calls: seq<Call>, f: Field, s: Slot)
    requires KeepsShape(m, t) && AllProper(groups, calls)
    ensures ReadingAfterAll(t, groups, calls, f, s) == ReadingAfterAll(m, groups, calls, f, s)
    decreases |calls|
  {
    if calls != [] {
      assert Proper(groups, calls[0]);
      var after := ReadingAfter(groups, calls[0], Accepted(m, calls[0]), f, s);
      SameAccepts(m, t, groups, calls[1..], f, after);
    }
  }

  /** Every field reads after a run as the calls say: whether a field can be set does not
      change on the way, and nothing but the calls changes a reading. */
  lemma {:induction false} RunReads(m: Msg, groups: seq<seq<Field>>, calls: seq<Call>, f: Field)
    requires Valid(m) && Disjoint(groups) && GroupsHold(m, groups) && AllProper(groups, calls)
    ensures Read(Run(m, groups, calls), f) == ReadingAfterAll(m, groups, calls, f, Read(m, f))
    decreases |calls|
  {
    if calls != [] {
      var t := Step(m, groups, calls[0]);
      StepReads(m, groups, calls[0], f);
      StepKeepsGroups(m, groups, calls[0]);
      RunReads(t, groups, calls[1..], f);
      SameAccepts(m, t, groups, calls[1..], f, Read(t, f));
    }
  }

  // ----- Making a message from its array -----

  /** Whether the first slot of the array is the message's own identifier. */
  datatype MessageId = NotResponse | Response(id: string)

  /** An array as it comes in: a plain object stands at the end, or otherwise at most at
      the pivot asked for. */
  predicate ValidData(data: seq<Slot>, id: MessageId, suggestedPivot: int) {
    forall i :: 0 <= i < |data| ==>
      || Storable(data[i])
      || (IsExtension(data[i])
          && (|| i == |data| - 1
              || (!IsExtension(data[|data| - 1]) && suggestedPivot > -1 && i == suggestedPivot + OffsetOf(id))))
  }

  /** A pivot is asked for by its field number, or none is. */
  predicate ValidPivot(id: MessageId, suggestedPivot: int) {
    suggestedPivot > -1 && id.NotResponse? ==> suggestedPivot > 0
  }

  function PivotOf(suggestedPivot: int): Option<int> {
    if suggestedPivot > -1 then Some(suggestedPivot) else None
  }

  function OffsetOf(id: MessageId): int {
    if id.NotResponse? then -1 else 0
  }

  /** The message as found in its array: an object at the end is the extension object and
      its place the pivot. */
  function Initial(data: seq<Slot>, id: MessageId, suggestedPivot: int): (m: Msg)
    requires ValidData(data, id, suggestedPivot) && ValidPivot(id, suggestedPivot)
    ensures Valid(m)
  {
    if data != [] && IsExtension(data[|data| - 1]) then
      var fields := data[|data| - 1].v.fields;
      Msg(data[|data| - 1 := ExtensionObject], Some(map k | k in fields :: Held(fields[k])),
          Some(|data| - 1 - OffsetOf(id)), OffsetOf(id))
    else Msg(data, None, PivotOf(suggestedPivot), OffsetOf(id))
  }

  predicate EndsWithObject(data: seq<Slot>) {
    data != [] && IsExtension(data[|data| - 1])
  }

  /** Where the fields of a new message are. Field f is the slot at f - 1, or at f when the
      first slot is the message's identifier. Where the array ends with an object, the slots
      before it are the fields up to there and the object holds the others under their
      numbers. Otherwise no field from the pivot on is set, whatever the array holds there. */
  lemma FoundPlaces(data: seq<Slot>, id: MessageId, suggestedPivot: int, f: Field)
    requires ValidData(data, id, suggestedPivot) && ValidPivot(id, suggestedPivot)
    ensures var s, i := Raw(Initial(data, id, suggestedPivot), f), if id.NotResponse? then f - 1 else f;
            if EndsWithObject(data) then
              if i < |data| - 1 then s == data[i]
              else
                var fields := data[|data| - 1].v.fields;
                if f in fields then s == Held(fields[f]) else s == Undefined
            else if i < |data| && (suggestedPivot <= -1 || f < suggestedPivot) then s == data[i]
            else s == Undefined
  {
    var m := Initial(data, id, suggestedPivot);
    if EndsWithObject(data) {
      assert InArray(m, f) <==> f + m.offset < |data| - 1;
    }
  }

  function EmptyData(id: MessageId): seq<Slot> {
    if id.Response? && id.id != "" then [Held(Str(id.id))] else []
  }

  /** What does not count as true. */
  predicate Falsy(s: Slot) {
    || s == Undefined
    || (s.Held? && s.v in {Value.Null, Bool(false), Str(""), Num(NaN), Num(Finite(0.0))})
  }

  /** A repeated field that holds nothing counting as true gets the sentinel. */
  function Filled(m: Msg, f: Field): (s: Slot)
    requires Valid(m)
    ensures Storable(s)
  {
    if Truthy(Raw(m, f)) then Raw(m, f) else EmptyListSentinel
  }

  function WithRepeated(m: Msg, repeated: seq<Field>): (t: Msg)
    requires Valid(m)
    ensures Valid(t) && KeepsShape(m, t)
  {
    if repeated == [] then m
    else
      var t := WithRepeated(m, repeated[..|repeated| - 1]);
      var f := repeated[|repeated| - 1];
      Stored(t, f, Filled(t, f))
  }

  /** Every field of the list can be set. */
  predicate AcceptsAll(m: Msg, fields: seq<Field>) {
    forall i :: 0 <= i < |fields| ==> Accepts(m, fields[i])
  }

  function WithGroups(m: Msg, groups: seq<seq<Field>>): (t: Msg)
    requires Valid(m)
    ensures Valid(t) && KeepsShape(m, t)
  {
    if groups == [] then m
    else Reduced(WithGroups(m, groups[..|groups| - 1]), groups[|groups| - 1])
  }

  lemma {:induction false} RepeatedLaws(m: Msg, repeated: seq<Field>)
    requires Valid(m)
    ensures var t := WithRepeated(m, repeated);
            forall f: Field :: Raw(t, f) == if f in repeated && Accepts(m, f) then Filled(m, f) else Raw(m, f)
    decreases |repeated|
  {
    if repeated != [] {
      var rest, f := repeated[..|repeated| - 1], repeated[|repeated| - 1];
      assert repeated == rest + [f];
      RepeatedLaws(m, rest);
      var t := WithRepeated(m, rest);
      StoredLaws(t, f, Filled(t, f));
    }
  }

  ghost predicate InNoGroup(groups: seq<seq<Field>>, f: Field) {
    forall i :: 0 <= i < |groups| ==> f !in groups[i]
  }

  ghost predicate SameOn(m: Msg, u: Msg, oneof: seq<Field>) {
    forall f :: f in oneof ==> Raw(m, f) == Raw(u, f)
  }

  lemma {:induction false} LastSetLocal(m: Msg, u: Msg, oneof: seq<Field>)
    requires Valid(m) && Valid(u) && SameOn(m, u, oneof)
    ensures LastSet(m, oneof) == LastSet(u, oneof)
    decreases |oneof|
  {
    if oneof != [] {
      var rest, f := oneof[..|oneof| - 1], oneof[|oneof| - 1];
      assert oneof == rest + [f];
      LastSetLocal(m, u, rest);
      ClearedLaws(m, rest);
      ClearedLaws(u, rest);
    }
  }

  /** Disjoint groups are reduced independently of one another. */
  lemma {:induction false} GroupsLaws(m: Msg, groups: seq<seq<Field>>, f: Field)
    requires Valid(m) && Disjoint(groups)
    ensures InNoGroup(groups, f) ==> Raw(WithGroups(m, groups), f) == Raw(m, f)
    ensures forall i :: 0 <= i < |groups| && f in groups[i] ==>
              Raw(WithGroups(m, groups), f) == AfterReduce(m, groups[i], f)
    decreases |groups|
  {
    if groups != [] {
      var rest, last := groups[..|groups| - 1], groups[|groups| - 1];
      assert groups == rest + [last];
      DisjointRest(rest, last);
      forall g | g in last ensures Raw(WithGroups(m, rest), g) == Raw(m, g) {
        GroupsLaws(m, rest, g);
      }
      GroupsLaws(m, rest, f);
      GroupReduced(m, WithGroups(m, rest), last);
      if f !in last && InNoGroup(groups, f) {
        assert forall i :: 0 <= i < |rest| ==> f !in groups[i];
      }
    }
  }

  lemma DisjointRest(rest: seq<seq<Field>>, last: seq<Field>)
    requires Disjoint(rest + [last])
    ensures Disjoint(rest) && forall g :: g in last ==> InNoGroup(rest, g)
  {
    var groups := rest + [last];
    forall i | 0 <= i < |rest| ensures groups[i] == rest[i] && forall g :: g in last ==> g !in rest[i] {
      assert groups[|rest|] == last;
    }
  }

  lemma GroupReduced(m: Msg, u: Msg, oneof: seq<Field>)
    requires Valid(m) && Valid(u) && SameOn(u, m, oneof)
    ensures forall f: Field ::
              Raw(Reduced(u, oneof), f) == if f in oneof then AfterReduce(m, oneof, f) else Raw(u, f)
  {
    ReducedLaws(u, oneof);
    LastSetLocal(u, m, oneof);
    LastSetLaws(u, oneof);
  }

  lemma GroupsReducedHold(m: Msg, groups: seq<seq<Field>>)
    requires Valid(m) && Disjoint(groups)
    ensures GroupsHold(WithGroups(m, groups), groups)
  {
    var t := WithGroups(m, groups);
    forall i | 0 <= i < |groups| ensures AtMostOne(t, groups[i]) {
      ReducedLaws(m, groups[i]);
      forall f | f in groups[i] ensures Raw(t, f) == Raw(Reduced(m, groups[i]), f) {
        GroupsLaws(m, groups, f);
      }
    }
  }

  datatype MessageType = MessageType(id: MessageId, suggestedPivot: int, repeated: seq<Field>, groups: seq<seq<Field>>)

  predicate ValidInput(ty: MessageType, data: Option<seq<Slot>>) {
    ValidPivot(ty.id, ty.suggestedPivot) && (data.Some? ==> ValidData(data.value, ty.id, ty.suggestedPivot))
  }

  function Found(ty: MessageType, data: Option<seq<Slot>>): (m: Msg)
    requires ValidInput(ty, data)
    ensures Valid(m)
  {
    Initial(if data.Some? then data.value else EmptyData(ty.id), ty.id, ty.suggestedPivot)
  }

  /** The message is made unless some repeated field cannot be set. */
  predicate CanInitialize(ty: MessageType, data: Option<seq<Slot>>)
    requires ValidInput(ty, data)
  {
    AcceptsAll(Found(ty, data), ty.repeated)
  }

  function Initialized(ty: MessageType, data: Option<seq<Slot>>): (m: Msg)
    requires ValidInput(ty, data)
    ensures Valid(m) && KeepsShape(Found(ty, data), m)
  {
    WithGroups(WithRepeated(Found(ty, data), ty.repeated), ty.groups)
  }

  /** At most one field of each group is set when a message is made and after every run of
      calls on it, whatever array it is made from. */
  lemma OneofUniqueness(ty: MessageType, data: Option<seq<Slot>>, calls: seq<Call>)
    requires Disjoint(ty.groups) && ValidInput(ty, data) && AllProper(ty.groups, calls)
    ensures GroupsHold(Run(Initialized(ty, data), ty.groups, calls), ty.groups)
  {
    GroupsReducedHold(WithRepeated(Found(ty, data), ty.repeated), ty.groups);
    RunKeepsGroups(Initialized(ty, data), ty.groups, calls);
  }

  /** A message made from no array has no field set, and its identifier, if that is not empty,
      in the first slot. */
  lemma EmptyMessage(ty: MessageType, f: Field)
    requires ValidPivot(ty.id, ty.suggestedPivot)
    ensures var m := Found(ty, None);
            && Raw(m, f) == Undefined
            && (if ty.id == NotResponse || ty.id == Response("") then m.slots == []
                else m.slots == [Held(Str(ty.id.id))])
  {
    FoundPlaces(EmptyData(ty.id), ty.id, ty.suggestedPivot, f);
  }

  /** After every run on a message made from an array, clearing a member that is not set
      changes no reading. */
  lemma ClearingUnsetMember(ty: MessageType, data: Option<seq<Slot>>, calls: seq<Call>, f: Field, group: nat, g: Field)
    requires Disjoint(ty.groups) && ValidInput(ty, data) && AllProper(ty.groups, calls)
    requires group < |ty.groups| && f in ty.groups[group]
    ensures var m := Run(Initialized(ty, data), ty.groups, calls);
            IsNull(Read(m, f)) ==>
              var r := Read(SetOneof(m, f, ty.groups[group], Undefined), g);
              if g == f then IsNull(r) else r == Read(m, g)
  {
    var m := Run(Initialized(ty, data), ty.groups, calls);
    OneofUniqueness(ty, data, calls);
    MemberReads(m, ty.groups[group], f, Undefined, g);
  }

  /** A field in no group reads from the new message as it stands in the array, an absent
      repeated field as an empty list. */
  lemma InitializedReads(ty: MessageType, data: Option<seq<Slot>>, f: Field)
    requires Disjoint(ty.groups) && ValidInput(ty, data) && CanInitialize(ty, data)
    requires InNoGroup(ty.groups, f)
    ensures Read(Initialized(ty, data), f) ==
              if f in ty.repeated && Falsy(Raw(Found(ty, data), f)) then Held(List([])) else Read(Found(ty, data), f)
  {
    var m := Found(ty, data);
    RepeatedLaws(m, ty.repeated);
    GroupsLaws(WithRepeated(m, ty.repeated), ty.groups, f);
  }

  // ----- Copying a message through its array -----

  function CopyValue(s: Slot): Value {
    match s
    case Held(v) => JspbCompare.CloneOf(v)
    case EmptyListSentinel => List([])
    case _ => Value.Null
  }

  /** A copied slot: nulls become holes, the sentinel a list, the extension object a copy
      without its null-valued fields. */
  function CopySlot(m: Msg, s: Slot): Slot {
    if IsNull(s) then Undefined
    else if s == ExtensionObject && m.extension.Some? then
      var e := m.extension.value;
      Held(Ext(map k | k in e && !IsNull(e[k]) :: CopyValue(e[k])))
    else Held(CopyValue(s))
  }

  function Copied(m: Msg): seq<Slot> {
    seq(|m.slots|, i requires 0 <= i < |m.slots| => CopySlot(m, m.slots[i]))
  }

  /** The same value; for a list, bytes or an extension object one with the same canonical
      form, and of the same length. */
  predicate SameContents(v: Value, w: Value) {
    if IsObject(v) then
      && KindOf(v) == KindOf(w) && JspbCompare.Canon(v) == JspbCompare.Canon(w)
      && (v.List? ==> |v.items| == |w.items|)
    else v == w
  }

  /** The field reads the same in both messages. */
  predicate SameReading(m: Msg, t: Msg, f: Field) {
    var a, b := Read(m, f), Read(t, f);
    if IsNull(a) then IsNull(b) else a.Held? && b.Held? && SameContents(a.v, b.v)
  }

  lemma CopySameContents(v: Value)
    ensures SameContents(v, JspbCompare.CloneOf(v))
  {
    CloneCanon(v);
    CloneKind(v);
  }

  ghost predicate SameReadings(m: Msg, t: Msg) {
    forall f: Field :: SameReading(m, t, f)
  }

  predicate NoExtensionSet(m: Msg) {
    m.extension.Some? ==>
      forall k :: k in m.extension.value && 1 <= k && !InArray(m, k) ==> IsNull(m.extension.value[k])
  }

  /** The message has the pivot its type asks for, unless an object was found at the end of
      its array. */
  predicate OfType(m: Msg, id: MessageId, suggestedPivot: int) {
    m.offset == OffsetOf(id) && (m.pivot == PivotOf(suggestedPivot) || (m.extension.Some? && ExtensionAtEnd(m)))
  }

  lemma CopyValueKind(s: Slot)
    ensures Storable(s) ==> !CopyValue(s).Ext?
    ensures IsExtension(s) ==> IsExtension(Held(CopyValue(s)))
  {
    if s.Held? {
      CloneKind(s.v);
      if IsExtension(s) {
        forall k | k in s.v.fields ensures KindOf(JspbCompare.CloneOf(s.v.fields[k])) == KindOf(s.v.fields[k]) {
          CloneKind(s.v.fields[k]);
        }
      }
    }
  }

  lemma CopySlotKind(m: Msg, s: Slot)
    requires Valid(m)
    ensures Storable(s) ==> Storable(CopySlot(m, s))
    ensures IsExtension(s) || (s == ExtensionObject && m.extension.Some?) ==> IsExtension(CopySlot(m, s))
  {
    CopyValueKind(s);
    if m.extension.Some? {
      forall k | k in m.extension.value ensures !CopyValue(m.extension.value[k]).Ext? {
        CopyValueKind(m.extension.value[k]);
      }
    }
  }

  /** A copied array is again one a message can be made from, with the extension object, if
      there is one, where it was. */
  lemma CopiedIsValid(m: Msg, id: MessageId, suggestedPivot: int)
    requires Valid(m) && OfType(m, id, suggestedPivot)
    ensures ValidData(Copied(m), id, suggestedPivot)
    ensures forall i :: 0 <= i < |m.slots| ==>
              (IsExtension(Copied(m)[i]) <==> m.pivot.Some? && i == PivotIndex(m) && !Storable(m.slots[i]))
  {
    forall i | 0 <= i < |m.slots|
      ensures Storable(m.slots[i]) ==> Storable(Copied(m)[i])
      ensures !Storable(m.slots[i]) ==> IsExtension(Copied(m)[i])
    {
      CopySlotKind(m, m.slots[i]);
    }
  }

  /** In the array part a copied field reads as before. */
  lemma CopiedSlot(m: Msg, t: Msg, f: Field)
    requires Valid(m) && InArray(m, f) && InArray(t, f) && t.offset == m.offset
    requires |t.slots| == |m.slots| && SlotAt(t.slots, f + t.offset) == SlotAt(Copied(m), f + m.offset)
    ensures SameReading(m, t, f)
  {
    if 0 <= f + m.offset < |m.slots| {
      assert m.pivot.Some? ==> f + m.offset < PivotIndex(m);
      CopySlotKind(m, m.slots[f + m.offset]);
      if Read(m, f).Held? {
        CopySameContents(Read(m, f).v);
      }
    }
  }

  /** No field is both repeated and in a group. */
  ghost predicate RepeatedApart(ty: MessageType) {
    forall f :: f in ty.repeated ==> InNoGroup(ty.groups, f)
  }

  /** Every repeated field holds something that counts as true, an empty list included. */
  predicate RepeatedHeld(m: Msg, repeated: seq<Field>) {
    forall f :: f in repeated ==> Truthy(Read(m, f))
  }

  /** The copy is made, and every field of it reads as in the original. */
  ghost predicate CopySucceeds(m: Msg, ty: MessageType)
    requires ValidInput(ty, Some(Copied(m)))
  {
    CanInitialize(ty, Some(Copied(m))) && SameReadings(m, Initialized(ty, Some(Copied(m))))
  }

  lemma TruthyCopy(v: Value)
    ensures Truthy(Held(JspbCompare.CloneOf(v))) == Truthy(Held(v))
  {
  }

  /** Setting up the groups changes no reading when each has at most one field set. */
  lemma GroupsKeepReadings(m: Msg, groups: seq<seq<Field>>, f: Field)
    requires Valid(m) && Disjoint(groups) && GroupsHold(m, groups)
    ensures Read(WithGroups(m, groups), f) == Read(m, f)
  {
    GroupsLaws(m, groups, f);
    if i :| 0 <= i < |groups| && f in groups[i] {
      ReducedLaws(m, groups[i]);
      LastSetLaws(m, groups[i]);
      assert AtMostOne(m, groups[i]);
    }
  }

  /** Where the array part or the extension object is kept, the found message has no more
      fields set than the original. */
  lemma FoundGroupsHold(m: Msg, i: Msg, groups: seq<seq<Field>>)
    requires GroupsHold(m, groups) && forall f: Field :: IsSet(i, f) ==> IsSet(m, f)
    ensures GroupsHold(i, groups)
  {
    forall g | 0 <= g < |groups| ensures AtMostOne(i, groups[g]) {
      assert AtMostOne(m, groups[g]);
    }
  }

  /** A field of the copied message: an absent repeated field reads as an empty list, any
      other as it was found in the array. */
  lemma CopyRead(m: Msg, ty: MessageType, f: Field)
    requires Valid(m) && OfType(m, ty.id, ty.suggestedPivot) && ValidPivot(ty.id, ty.suggestedPivot)
    requires Disjoint(ty.groups) && RepeatedApart(ty) && GroupsHold(m, ty.groups)
    requires ValidInput(ty, Some(Copied(m))) && CanInitialize(ty, Some(Copied(m)))
    ensures var i := Found(ty, Some(Copied(m)));
            Read(Initialized(ty, Some(Copied(m))), f) ==
              if f in ty.repeated && !Truthy(Raw(i, f)) then Held(List([])) else Read(i, f)
  {
    var i := Found(ty, Some(Copied(m)));
    if f in ty.repeated {
      InitializedReads(ty, Some(Copied(m)), f);
    } else {
      RepeatedLaws(i, ty.repeated);
      var u := WithRepeated(i, ty.repeated);
      forall g: Field ensures IsSet(i, g) ==> IsSet(m, g) {
        CopyReads(m, ty.id, ty.suggestedPivot, g);
      }
      FoundGroupsHold(m, i, ty.groups);
      GroupsApart(i, u, ty);
      GroupsKeepReadings(u, ty.groups, f);
    }
  }

  lemma GroupsApart(i: Msg, u: Msg, ty: MessageType)
    requires Valid(i) && RepeatedApart(ty) && GroupsHold(i, ty.groups)
    requires forall f: Field :: f !in ty.repeated ==> Raw(u, f) == Raw(i, f)
    ensures GroupsHold(u, ty.groups)
  {
    forall g | 0 <= g < |ty.groups| ensures AtMostOne(u, ty.groups[g]) {
      forall f | f in ty.groups[g] ensures Raw(u, f) == Raw(i, f) {
        assert f in ty.repeated ==> InNoGroup(ty.groups, f);
      }
      GroupUntouched(i, u, ty.groups[g]);
    }
  }

  /** The exact condition for copying a message through its array: the copy is made and every
      field of it reads as in the original if and only if every repeated field holds
      something that counts as true, and the extension object ends the array or holds
      nothing. */
  lemma CopyReadsSameIff(m: Msg, ty: MessageType)
    requires Valid(m) && OfType(m, ty.id, ty.suggestedPivot) && ValidPivot(ty.id, ty.suggestedPivot)
    requires Disjoint(ty.groups) && RepeatedApart(ty) && GroupsHold(m, ty.groups)
    ensures ValidInput(ty, Some(Copied(m)))
    ensures CopySucceeds(m, ty) <==> RepeatedHeld(m, ty.repeated) && (ExtensionAtEnd(m) || NoExtensionSet(m))
  {
    CopiedIsValid(m, ty.id, ty.suggestedPivot);
    if RepeatedHeld(m, ty.repeated) && (ExtensionAtEnd(m) || NoExtensionSet(m)) {
      CopyWorks(m, ty);
    }
    if CopySucceeds(m, ty) {
      CopyNeedsRepeated(m, ty);
      CopyNeedsExtension(m, ty);
    }
  }

  lemma CopyWorks(m: Msg, ty: MessageType)
    requires Valid(m) && OfType(m, ty.id, ty.suggestedPivot) && ValidPivot(ty.id, ty.suggestedPivot)
    requires Disjoint(ty.groups) && RepeatedApart(ty) && GroupsHold(m, ty.groups)
    requires ValidInput(ty, Some(Copied(m)))
    requires RepeatedHeld(m, ty.repeated) && (ExtensionAtEnd(m) || NoExtensionSet(m))
    ensures CopySucceeds(m, ty)
  {
    var i := Found(ty, Some(Copied(m)));
    forall f: Field ensures SameReading(m, i, f) && (f in ty.repeated ==> Accepts(i, f) && Truthy(Raw(i, f))) {
      CopyReads(m, ty.id, ty.suggestedPivot, f);
      FoundReads(m, ty, f);
      if f in ty.repeated {
        assert Truthy(Read(m, f));
        TruthyReading(m, i, f);
      }
    }
    forall f: Field ensures SameReading(m, Initialized(ty, Some(Copied(m))), f) {
      CopyRead(m, ty, f);
    }
  }

  lemma TruthyReading(m: Msg, i: Msg, f: Field)
    requires Valid(m) && SameReading(m, i, f) && Truthy(Read(m, f))
    ensures Truthy(Raw(i, f))
  {
    TruthyCopy(Read(m, f).v);
  }

  /** In the found message a field reads as before when the extension object is kept or has
      nothing to lose, and can be set if it reads as something. */
  lemma FoundReads(m: Msg, ty: MessageType, f: Field)
    requires Valid(m) && OfType(m, ty.id, ty.suggestedPivot) && ValidPivot(ty.id, ty.suggestedPivot)
    requires ValidInput(ty, Some(Copied(m))) && (ExtensionAtEnd(m) || NoExtensionSet(m))
    ensures var i := Found(ty, Some(Copied(m))); SameReading(m, i, f) && (!IsNull(Read(m, f)) ==> Accepts(i, f))
  {
    CopyReads(m, ty.id, ty.suggestedPivot, f);
  }

  lemma CopyNeedsRepeated(m: Msg, ty: MessageType)
    requires Valid(m) && OfType(m, ty.id, ty.suggestedPivot) && ValidPivot(ty.id, ty.suggestedPivot)
    requires Disjoint(ty.groups) && RepeatedApart(ty) && GroupsHold(m, ty.groups)
    requires ValidInput(ty, Some(Copied(m))) && CopySucceeds(m, ty)
    ensures RepeatedHeld(m, ty.repeated)
  {
    var t := Initialized(ty, Some(Copied(m)));
    forall f | f in ty.repeated ensures Truthy(Read(m, f)) {
      CopyRead(m, ty, f);
      assert SameReading(m, t, f);
      assert Truthy(Read(t, f));
      TruthyCopy(Read(m, f).v);
    }
  }

  lemma CopyNeedsExtension(m: Msg, ty: MessageType)
    requires Valid(m) && OfType(m, ty.id, ty.suggestedPivot) && ValidPivot(ty.id, ty.suggestedPivot)
    requires Disjoint(ty.groups) && RepeatedApart(ty) && GroupsHold(m, ty.groups)
    requires ValidInput(ty, Some(Copied(m))) && CopySucceeds(m, ty)
    ensures ExtensionAtEnd(m) || NoExtensionSet(m)
  {
    var i, t := Found(ty, Some(Copied(m))), Initialized(ty, Some(Copied(m)));
    if !ExtensionAtEnd(m) {
      forall k | k in m.extension.value && 1 <= k && !InArray(m, k) ensures IsNull(m.extension.value[k]) {
        var f: Field := k;
        CopyReads(m, ty.id, ty.suggestedPivot, f);
        CopyRead(m, ty, f);
        LostCannotBeSet(m, ty, f);
        assert SameReading(m, t, f);
      }
    }
  }

  /** With the extension object in the middle of the array, no field beyond the pivot can be
      set in the found message, so a repeated one there makes the copy fail. */
  lemma LostCannotBeSet(m: Msg, ty: MessageType, f: Field)
    requires Valid(m) && OfType(m, ty.id, ty.suggestedPivot) && ValidPivot(ty.id, ty.suggestedPivot)
    requires ValidInput(ty, Some(Copied(m))) && !ExtensionAtEnd(m) && !InArray(m, f)
    ensures !Accepts(Found(ty, Some(Copied(m))), f)
    ensures CanInitialize(ty, Some(Copied(m))) ==> f !in ty.repeated
  {
    CopiedIsValid(m, ty.id, ty.suggestedPivot);
    CopySlotKind(m, m.slots[PivotIndex(m)]);
  }

  /** The message found in a copied array has its pivot where it was, its slots before the
      pivot, and an extension object exactly when that ends the array. */
  lemma CopiedInitial(m: Msg, id: MessageId, suggestedPivot: int)
    requires Valid(m) && OfType(m, id, suggestedPivot) && ValidPivot(id, suggestedPivot)
    requires ValidData(Copied(m), id, suggestedPivot)
    ensures var t := Initial(Copied(m), id, suggestedPivot);
            && t.pivot == m.pivot && t.offset == m.offset && |t.slots| == |m.slots|
            && (forall i :: 0 <= i < |m.slots| && (m.pivot.Some? ==> i < PivotIndex(m)) ==> t.slots[i] == Copied(m)[i])
            && t.extension == (if m.extension.Some? && ExtensionAtEnd(m) then Some(CopiedFields(m)) else None)
  {
    CopiedIsValid(m, id, suggestedPivot);
    if m.extension.Some? && ExtensionAtEnd(m) {
      var fields := Copied(m)[|m.slots| - 1].v.fields;
      var e := m.extension.value;
      assert fields == map k | k in e && !IsNull(e[k]) :: CopyValue(e[k]);
      assert CopiedFields(m) == map k | k in fields :: Held(fields[k]);
    }
  }

  /** The fields of the extension object that are not null, copied. */
  function CopiedFields(m: Msg): map<nat, Slot>
    requires m.extension.Some?
  {
    var e := m.extension.value;
    map k | k in e && !IsNull(e[k]) :: Held(CopyValue(e[k]))
  }

  lemma CopyReads(m: Msg, id: MessageId, suggestedPivot: int, f: Field)
    requires Valid(m) && OfType(m, id, suggestedPivot) && ValidPivot(id, suggestedPivot)
    requires ValidData(Copied(m), id, suggestedPivot)
    ensures var t := Initial(Copied(m), id, suggestedPivot);
            && (InArray(m, f) || ExtensionAtEnd(m) ==> SameReading(m, t, f))
            && (!InArray(m, f) && !ExtensionAtEnd(m) ==> Raw(t, f) == Undefined)
  {
    var t := Initial(Copied(m), id, suggestedPivot);
    CopiedInitial(m, id, suggestedPivot);
    if InArray(m, f) {
      assert m.pivot.Some? ==> f + m.offset < PivotIndex(m);
      CopiedSlot(m, t, f);
    } else if ExtensionAtEnd(m) {
      CopiedField(m, t, f);
    }
  }

  lemma CopiedField(m: Msg, t: Msg, f: Field)
    requires Valid(m) && !InArray(m, f) && t.pivot == m.pivot
    requires t.extension == if m.extension.Some? then Some(CopiedFields(m)) else None
    ensures SameReading(m, t, f)
  {
    if m.extension.Some? && f in m.extension.value && Read(m, f).Held? {
      assert Storable(m.extension.value[f]);
      CopySameContents(Read(m, f).v);
    }
  }

  /** So for every message made from an array and changed by any run of calls. */
  lemma CopyAfterRun(ty: MessageType, data: Option<seq<Slot>>, calls: seq<Call>)
    requires ValidInput(ty, data) && Disjoint(ty.groups) && RepeatedApart(ty) && AllProper(ty.groups, calls)
    ensures var m := Run(Initialized(ty, data), ty.groups, calls);
            && ValidInput(ty, Some(Copied(m)))
            && (CopySucceeds(m, ty) <==> RepeatedHeld(m, ty.repeated) && (ExtensionAtEnd(m) || NoExtensionSet(m)))
  {
    OneofUniqueness(ty, data, calls);
    CopyReadsSameIff(Run(Initialized(ty, data), ty.groups, calls), ty);
  }

  /** A case where the copy loses a field: the array goes on past the pivot, so the
      extension object made later stands in its middle. */
  lemma CopyLosesExtension()
    ensures var ty := MessageType(NotResponse, 1, [], []);
            var m := Stored(Initialized(ty, Some([Undefined, Held(Str("x"))])), 5, Held(Str("y")));
            && Read(m, 5) == Held(Str("y")) && ValidInput(ty, Some(Copied(m)))
            && IsNull(Read(Initialized(ty, Some(Copied(m))), 5))
  {
    var ty := MessageType(NotResponse, 1, [], []);
    var m := Stored(Initialized(ty, Some([Undefined, Held(Str("x"))])), 5, Held(Str("y")));
    assert m.extension == Some(map[5 := Held(Str("y"))]);
    CopiedIsValid(m, NotResponse, 1);
    CopyReads(m, NotResponse, 1, 5);
  }

  lemma RunOne(m: Msg, call: Call)
    requires Valid(m) && Proper([], call)
    ensures Run(m, [], [call]) == Step(m, [], call)
  {
    assert [call][1..] == [];
    assert Run(Step(m, [], call), [], []) == Step(m, [], call);
  }

  /** Another: a repeated field set to `undefined` reads as an empty list in the copy. */
  lemma AbsentBecomesEmpty()
    ensures var ty := MessageType(NotResponse, -1, [1], []);
            var m := Run(Initialized(ty, None), [], [Set(1, Undefined)]);
            && IsNull(Read(m, 1)) && ValidInput(ty, Some(Copied(m)))
            && Read(Initialized(ty, Some(Copied(m))), 1) == Held(List([]))
  {
    var ty := MessageType(NotResponse, -1, [1], []);
    var made := Initialized(ty, None);
    RunOne(made, Set(1, Undefined));
    var m := Stored(made, 1, Undefined);
    StoredLaws(made, 1, Undefined);
    CopiedIsValid(m, NotResponse, -1);
    CopyReads(m, NotResponse, -1, 1);
    InitializedReads(ty, Some(Copied(m)), 1);
  }

  /** And one that makes the copy fail: a repeated field beyond the pivot, with the extension
      object in the middle of the array. */
  lemma RepeatedBeyondPivot()
    ensures var ty := MessageType(NotResponse, 1, [5], []);
            var m := Run(Initialized(ty, Some([Undefined, Held(Str("x"))])), [], [Set(5, Undefined)]);
            && NoExtensionSet(m) && ValidInput(ty, Some(Copied(m))) && !CanInitialize(ty, Some(Copied(m)))
  {
    BeyondPivotState();
    var ty := MessageType(NotResponse, 1, [5], []);
    var m := Msg([ExtensionObject, Held(Str("x"))], Some(map[5 := Undefined]), Some(1), -1);
    CopiedIsValid(m, NotResponse, 1);
    assert ty.repeated[0] == 5;
    LostCannotBeSet(m, ty, 5);
  }

  lemma BeyondPivotState()
    ensures var ty := MessageType(NotResponse, 1, [5], []);
            Run(Initialized(ty, Some([Undefined, Held(Str("x"))])), [], [Set(5, Undefined)])
            == Msg([ExtensionObject, Held(Str("x"))], Some(map[5 := Undefined]), Some(1), -1)
  {
    var ty := MessageType(NotResponse, 1, [5], []);
    var found := Found(ty, Some([Undefined, Held(Str("x"))]));
    var filled := Stored(found, 5, EmptyListSentinel);
    assert [5][..0] == [];
    assert WithRepeated(found, []) == found;
    assert WithRepeated(found, [5]) == filled == WithGroups(filled, []);
    assert filled == Msg([ExtensionObject, Held(Str("x"))], Some(map[5 := EmptyListSentinel]), Some(1), -1);
    RunOne(filled, Set(5, Undefined));
    var e: map<nat, Slot> := map[5 := EmptyListSentinel];
    assert e[5 := Undefined] == map[5 := Undefined];
  }
}
