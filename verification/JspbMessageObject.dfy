/** The message object itself, updated in place by its accessors. */
module JspbMessageObject {
  import opened Wrappers
  import opened JspbCompare
  import opened JspbMessage

  /** Filling the repeated fields stopped at the first that cannot be set. */
  ghost predicate StoppedAt(m: Msg, t: Msg, repeated: seq<Field>, i: nat)
    requires Valid(m)
  {
    && i < |repeated| && AcceptsAll(m, repeated[..i]) && !Accepts(m, repeated[i])
    && t == WithRepeated(m, repeated[..i])
  }

  /** The array, the extension object once there is one, the pivot, the offset of field
      numbers into the array, and the fields with a cached wrapper. */
  class Message {
    var slots: seq<Slot>
    var extension: Option<map<nat, Slot>>
    var pivot: Option<int>
    var offset: int
    var wrappers: set<Field>

    ghost function View(): Msg
      reads this
    {
      Msg(slots, extension, pivot, offset)
    }

    /** Makes the message from its array; false when a repeated field cannot be set, and then
        the ones before it have been. */
    method Initialize(ty: MessageType, data: Option<seq<Slot>>) returns (ok: bool)
      requires ValidInput(ty, data)
      modifies this
      ensures ok == CanInitialize(ty, data)
      ensures ok ==> View() == Initialized(ty, data)
      ensures !ok ==> exists i: nat :: StoppedAt(Found(ty, data), View(), ty.repeated, i)
      ensures wrappers == {}
    {
      wrappers := {};
      slots := if data.Some? then data.value else EmptyData(ty.id);
      offset := OffsetOf(ty.id);
      InitPivotAndExtensionObject(ty, data);
      ok := InitRepeatedFields(ty.repeated);
      if ok {
        InitOneofs(ty.groups);
      }
    }

    method InitRepeatedFields(repeated: seq<Field>) returns (ok: bool)
      requires Valid(View())
      modifies this`slots, this`extension
      ensures ok == AcceptsAll(old(View()), repeated)
      ensures ok ==> View() == WithRepeated(old(View()), repeated)
      ensures !ok ==> exists i: nat :: StoppedAt(old(View()), View(), repeated, i)
    {
      ghost var m := View();
      for i := 0 to |repeated|
        invariant Valid(View()) && View() == WithRepeated(m, repeated[..i])
        invariant AcceptsAll(m, repeated[..i])
      {
        NextField(m, repeated, i);
        ok := InitRepeatedField(repeated[i]);
        if !ok {
          assert StoppedAt(m, View(), repeated, i);
          return;
        }
      }
      assert repeated[..|repeated|] == repeated;
      ok := true;
    }

    /** Leaves at most one field of each group set. */
    method InitOneofs(groups: seq<seq<Field>>)
      requires Valid(View())
      modifies this`slots, this`extension
      ensures View() == WithGroups(old(View()), groups)
    {
      ghost var m := View();
      for i := 0 to |groups|
        invariant Valid(View()) && View() == WithGroups(m, groups[..i])
      {
        assert groups[..i + 1][..i] == groups[..i];
        var _ := ComputeOneofCase(groups[i]);
      }
      assert groups[..|groups|] == groups;
    }

    /** Puts the sentinel where a repeated field holds nothing that counts as true. */
    method InitRepeatedField(f: Field) returns (ok: bool)
      requires Valid(View())
      modifies this`slots, this`extension
      ensures ok == Accepts(old(View()), f) && View() == Stored(old(View()), f, Filled(old(View()), f))
    {
      if pivot.None? || f < pivot.value {
        var index := f + offset;
        slots := Put(slots, index, if Truthy(SlotAt(slots, index)) then slots[index] else EmptyListSentinel);
        return true;
      }
      MaybeInitEmptyExtensionObject();
      if extension.None? {
        return false;
      }
      var fields := extension.value;
      extension := Some(fields[f := if f in fields && Truthy(fields[f]) then fields[f] else EmptyListSentinel]);
      return true;
    }

    /** Takes an object found at the end of the array as the extension object. */
    method InitPivotAndExtensionObject(ty: MessageType, ghost data: Option<seq<Slot>>)
      requires ValidInput(ty, data)
      requires slots == (if data.Some? then data.value else EmptyData(ty.id)) && offset == OffsetOf(ty.id)
      modifies this`slots, this`extension, this`pivot
      ensures View() == Found(ty, data)
    {
      if slots != [] {
        var foundIndex := |slots| - 1;
        var obj := slots[foundIndex];
        if IsExtension(obj) {
          pivot := Some(foundIndex - offset);
          extension := Some(map k | k in obj.v.fields :: Held(obj.v.fields[k]));
          slots := slots[foundIndex := ExtensionObject];
          return;
        }
      }
      pivot := if ty.suggestedPivot > -1 then Some(ty.suggestedPivot) else None;
      extension := None;
    }

    method MaybeInitEmptyExtensionObject()
      requires Valid(View()) && pivot.Some?
      modifies this`slots, this`extension
      ensures View() == WithExtension(old(View()))
    {
      var pivotIndex := pivot.value + offset;
      if !Truthy(SlotAt(slots, pivotIndex)) {
        extension := Some(map[]);
        slots := Put(slots, pivotIndex, ExtensionObject);
      }
    }

    /** Reads the field; the sentinel is replaced by an empty list of the field's own. */
    method GetField(f: Field) returns (s: Slot)
      requires Valid(View())
      modifies this`slots, this`extension
      ensures s == Read(old(View()), f) && View() == AfterGet(old(View()), f)
    {
      if pivot.None? || f < pivot.value {
        var index := f + offset;
        s := SlotAt(slots, index);
        if s == EmptyListSentinel {
          s := Held(List([]));
          slots := Put(slots, index, s);
        }
      } else {
        if extension.None? || f !in extension.value {
          return Undefined;
        }
        s := extension.value[f];
        if s == EmptyListSentinel {
          s := Held(List([]));
          extension := Some(extension.value[f := s]);
        }
      }
    }

    /** Sets the field; false, with nothing changed, when the slot at the pivot is taken by
        something else than the extension object. */
    method SetField(f: Field, s: Slot) returns (ok: bool)
      requires Valid(View()) && Storable(s)
      modifies this`slots, this`extension
      ensures ok == Accepts(old(View()), f) && View() == Stored(old(View()), f, s)
    {
      if pivot.None? || f < pivot.value {
        slots := Put(slots, f + offset, s);
        return true;
      }
      MaybeInitEmptyExtensionObject();
      if extension.None? {
        return false;
      }
      extension := Some(extension.value[f := s]);
      return true;
    }

    /** Reads the field and clears it if it is set. */
    method TakeField(f: Field) returns (value: Slot)
      requires Valid(View())
      modifies this`slots, this`extension
      ensures value == Read(old(View()), f)
      ensures View() == if IsSet(old(View()), f) then Stored(old(View()), f, Undefined) else old(View())
    {
      ghost var before := View();
      value := GetField(f);
      if !IsNull(value) {
        var _ := SetField(f, Undefined);
        StoredTwice(before, f, Held(List([])));
      }
    }

    /** The field of the group that is set, or 0; no other stays set. */
    method ComputeOneofCase(oneof: seq<Field>) returns (c: nat)
      requires Valid(View())
      modifies this`slots, this`extension
      ensures c == LastSet(old(View()), oneof) && View() == Reduced(old(View()), oneof)
    {
      ghost var m := View();
      var oneofValue := Undefined;
      c := 0;
      for i := 0 to |oneof|
        invariant Valid(View()) && View() == Cleared(m, oneof[..i]) && c == LastSet(m, oneof[..i])
        invariant c != 0 ==> oneofValue == Read(m, c)
        invariant IsValue(oneofValue)
      {
        assert oneof[..i + 1][..i] == oneof[..i];
        ClearedLaws(m, oneof[..i]);
        var value := TakeField(oneof[i]);
        if !IsNull(value) {
          c := oneof[i];
          oneofValue := value;
        }
      }
      assert oneof[..|oneof|] == oneof;
      if c != 0 {
        var _ := SetField(c, oneofValue);
      }
    }

    /** Sets a field of the group and clears the one set before, with its wrapper, unless the
        value is `undefined`. */
    method SetOneofField(f: Field, oneof: seq<Field>, s: Slot) returns (ok: bool)
      requires Valid(View()) && Storable(s)
      modifies this`slots, this`extension, this`wrappers
      ensures ok == Accepts(old(View()), f) && View() == SetOneof(old(View()), f, oneof, s)
      ensures var c := LastSet(old(View()), oneof);
              && wrappers == (if c != 0 && c != f && s != Undefined then old(wrappers) - {c} else old(wrappers))
              && (s == Undefined && c != 0 && c != f ==> Read(View(), c) == Read(old(View()), c))
    {
      ghost var m := View();
      var currentCase := ComputeOneofCase(oneof);
      ReducedLaws(m, oneof);
      if currentCase != 0 && currentCase != f && s != Undefined {
        StoredLaws(View(), currentCase, Undefined);
        wrappers := wrappers - {currentCase};
        var _ := SetField(currentCase, Undefined);
      }
      StoredLaws(View(), f, s);
      ok := SetField(f, s);
    }
  }

  lemma NextField(m: Msg, repeated: seq<Field>, i: nat)
    requires Valid(m) && i < |repeated|
    ensures var done := repeated[..i];
            && WithRepeated(m, repeated[..i + 1])
               == Stored(WithRepeated(m, done), repeated[i], Filled(WithRepeated(m, done), repeated[i]))
            && Accepts(WithRepeated(m, done), repeated[i]) == Accepts(m, repeated[i])
            && AcceptsAll(m, repeated[..i + 1]) == (AcceptsAll(m, done) && Accepts(m, repeated[i]))
            && (AcceptsAll(m, repeated) ==> Accepts(m, repeated[i]))
  {
    assert repeated[..i + 1][..i] == repeated[..i];
    assert repeated[..i + 1] == repeated[..i] + [repeated[i]];
  }

  lemma PutTwice(slots: seq<Slot>, i: nat, s: Slot, t: Slot)
    ensures Put(Put(slots, i, s), i, t) == Put(slots, i, t)
  {
  }

  lemma ExtensionStored(m: Msg, f: Field, s: Slot)
    requires Valid(m) && Storable(s) && !InArray(m, f) && Accepts(m, f)
    ensures var w := WithExtension(m); var t := Stored(m, f, s);
            w.extension.Some? && t == w.(extension := Some(w.extension.value[f := s])) && WithExtension(t) == t
  {
  }

  /** Only the last of two writes to a field is seen. */
  lemma StoredTwice(m: Msg, f: Field, s: Slot)
    requires Valid(m) && Storable(s)
    ensures Stored(Stored(m, f, s), f, Undefined) == Stored(m, f, Undefined)
  {
    if InArray(m, f) {
      PutTwice(m.slots, f + m.offset, s, Undefined);
    } else if Accepts(m, f) {
      ExtensionStored(m, f, s);
      ExtensionStored(m, f, Undefined);
      ExtensionStored(Stored(m, f, s), f, Undefined);
      var e: map<nat, Slot>, k: nat := WithExtension(m).extension.value, f;
      assert e[k := s][k := Undefined] == e[k := Undefined];
    }
  }
}
