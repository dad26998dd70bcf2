/** The nested locale object as the script builds it, changed in place. */
module TranslationObject {
  import opened Collections
  import opened Text
  import opened TranslationTree

  datatype Cell = TextCell(text: string) | ObjectCell(child: TranslationMap)

  datatype Slot = Slot(name: string, cell: Cell)

  /** The position of a name among distinct names decides what putting it does. */
  lemma {:induction false} PutAt(props: seq<Prop>, i: nat, name: string, value: Value)
    requires i < |props| && props[i].name == name && forall k :: 0 <= k < i ==> props[k].name != name
    ensures Find(props, name) == Some(props[i].value)
    ensures Put(props, name, value) == props[i := Prop(name, value)]
  {
    if i > 0 {
      PutAt(props[1..], i - 1, name, value);
    }
  }

  lemma {:induction false} NotAmong(props: seq<Prop>, name: string)
    requires forall k :: 0 <= k < |props| ==> props[k].name != name
    ensures Find(props, name).None?
  {
    if props != [] {
      NotAmong(props[1..], name);
    }
  }

  lemma {:induction false} PutTwice(props: seq<Prop>, name: string, first: Value, second: Value)
    ensures Put(Put(props, name, first), name, second) == Put(props, name, second)
  {
    if props != [] && props[0].name != name {
      PutTwice(props[1..], name, first, second);
    }
  }

  class TranslationMap {
    var slots: seq<Slot>
    ghost var Repr: set<TranslationMap>

    /** Nested objects are owned by one slot each: the object is a tree. */
    ghost predicate Valid()
      reads this, Repr
      decreases Repr
    {
      && this in Repr
      && (forall i :: 0 <= i < |slots| ==> Owned(i))
      && (forall i, j :: 0 <= i < j < |slots| ==> Apart(i, j))
    }

    ghost predicate Owned(i: nat)
      requires this in Repr && i < |slots|
      reads this, Repr
      decreases Repr, 0
    {
      slots[i].cell.ObjectCell? ==>
        var nested := slots[i].cell.child;
        nested in Repr && nested in nested.Repr && nested.Repr < Repr && this !in nested.Repr && nested.Valid()
    }

    ghost predicate Apart(i: nat, j: nat)
      requires i < j < |slots|
      reads this, Repr
    {
      slots[i].cell.ObjectCell? && slots[j].cell.ObjectCell? ==>
        slots[i].cell.child in Repr && slots[j].cell.child in Repr ==>
          slots[i].cell.child.Repr !! slots[j].cell.child.Repr
    }

    /** The object as a value. */
    function Contents(): (props: seq<Prop>)
      requires Valid()
      reads this, Repr
      ensures |props| == |slots|
      ensures forall i :: 0 <= i < |slots| ==> props[i] == Prop(slots[i].name, CellValue(i))
      decreases Repr, 1
    {
      seq(|slots|, i requires 0 <= i < |slots| && Valid() reads this, Repr => Prop(slots[i].name, CellValue(i)))
    }

    function CellValue(i: nat): Value
      requires Valid() && i < |slots|
      reads this, Repr
      decreases Repr, 0
    {
      assert Owned(i);
      match slots[i].cell
      case TextCell(text) => Leaf(text)
      case ObjectCell(nested) => Object(nested.Contents())
    }

    constructor ()
      ensures Valid() && fresh(Repr) && Contents() == []
    {
      slots := [];
      Repr := {this};
    }

    method IndexOf(name: string) returns (i: nat)
      requires Valid()
      ensures i <= |slots|
      ensures forall k :: 0 <= k < i ==> slots[k].name != name
      ensures i < |slots| ==> slots[i].name == name
    {
      i := 0;
      while i < |slots| && slots[i].name != name
        invariant i <= |slots| && forall k :: 0 <= k < i ==> slots[k].name != name
      {
        i := i + 1;
      }
    }

    /** The text of a dotted key, set along its path; what stands in the way is replaced. */
    method SetNestedValue(dottedKey: string, text: string)
      requires Valid()
      modifies Repr
      ensures Valid() && fresh(Repr - old(Repr))
      ensures Contents() == TranslationTree.SetNestedValue(old(Contents()), dottedKey, text)
    {
      SetPath(Split(dottedKey, '.'), text);
    }

    method SetPath(path: Path, text: string)
      requires Valid() && |path| > 0
      modifies Repr
      ensures Valid() && fresh(Repr - old(Repr))
      ensures Contents() == TranslationTree.SetPath(old(Contents()), path, text)
      decreases |path|
    {
      if |path| == 1 {
        SetText(path[0], text);
        return;
      }

      ghost var value := Object(TranslationTree.SetPath(ChildProps(Contents(), path[0]), path[1..], text));
      var i, nested := ObjectAt(path[0], value);
      ghost var before := Contents();
      assert Owned(i) && before[i] == Prop(path[0], CellValue(i));
      label Descent:
      nested.SetPath(path[1..], text);
      Repr := Repr + nested.Repr;
      Regrown@Descent(i);
      PutAt(before, i, path[0], value);
    }

    /** The object a name leads to; a missing one or a text is replaced by an empty object. */
    method ObjectAt(name: string, ghost value: Value) returns (i: nat, nested: TranslationMap)
      requires Valid()
      modifies this
      ensures Valid() && fresh(Repr - old(Repr))
      ensures i < |slots| && slots[i] == Slot(name, ObjectCell(nested))
      ensures forall k :: 0 <= k < i ==> slots[k].name != name
      ensures nested.Valid() && nested.Contents() == ChildProps(old(Contents()), name)
      ensures Put(Contents(), name, value) == Put(old(Contents()), name, value)
    {
      i := IndexOf(name);
      if i < |slots| && slots[i].cell.ObjectCell? {
        nested := slots[i].cell.child;
        assert Owned(i);
        PutAt(Contents(), i, name, value);
        return;
      }
      nested := new TranslationMap();
      NoObject(i, name);
      PutTwice(Contents(), name, Object([]), value);
      SetSlot(i, Slot(name, ObjectCell(nested)));
    }

    lemma NoObject(i: nat, name: string)
      requires Valid() && i <= |slots|
      requires forall k :: 0 <= k < i ==> slots[k].name != name
      requires i < |slots| ==> slots[i].name == name && slots[i].cell.TextCell?
      ensures ChildProps(Contents(), name) == []
    {
      if i < |slots| {
        PutAt(Contents(), i, name, Leaf(""));
      } else {
        NotAmong(Contents(), name);
      }
    }

    /** Only the object in slot i has changed, and it has grown by new objects only. */
    twostate lemma Regrown(i: nat)
      requires old(Valid()) && i < |slots| && slots == old(slots) && slots[i].cell.ObjectCell?
      requires slots[i].cell.child.Valid() && this !in slots[i].cell.child.Repr
      requires Repr == old(Repr) + slots[i].cell.child.Repr
      requires fresh(slots[i].cell.child.Repr - old(slots[i].cell.child.Repr))
      requires forall o :: o in old(Repr) && o != this && o !in old(slots[i].cell.child.Repr) ==> unchanged(o)
      ensures Valid()
      ensures Contents() == old(Contents())[i := Prop(slots[i].name, Object(slots[i].cell.child.Contents()))]
    {
      assert old(Owned(i));
      forall j | 0 <= j < |slots| ensures Owned(j) {
        assert old(Owned(j));
        assert j < i ==> old(Apart(j, i));
        assert i < j ==> old(Apart(i, j));
      }
      forall j | 0 <= j < |slots| && j != i && slots[j].cell.ObjectCell?
        ensures slots[j].cell.child.Repr == old(slots[j].cell.child.Repr) <= old(Repr)
        ensures slots[j].cell.child.Repr !! slots[i].cell.child.Repr
      {
        assert old(Owned(j));
        assert j < i ==> old(Apart(j, i));
        assert i < j ==> old(Apart(i, j));
      }
      forall j, k | 0 <= j < k < |slots| ensures Apart(j, k) {
        assert old(Owned(j)) && old(Owned(k)) && old(Apart(j, k));
      }
      forall j | 0 <= j < |slots| && j != i ensures CellValue(j) == old(CellValue(j)) {
        assert old(Owned(j));
        assert j < i ==> old(Apart(j, i));
        assert i < j ==> old(Apart(i, j));
      }
    }

    method SetText(name: string, text: string)
      requires Valid()
      modifies this
      ensures Valid() && Repr == old(Repr)
      ensures Contents() == Put(old(Contents()), name, Leaf(text))
    {
      var i := IndexOf(name);
      SetSlot(i, Slot(name, TextCell(text)));
    }

    /** The slot found for a name, or a new one at the end, gets a text or a new object. */
    method SetSlot(i: nat, slot: Slot)
      requires Valid() && i <= |slots|
      requires forall k :: 0 <= k < i ==> slots[k].name != slot.name
      requires i < |slots| ==> slots[i].name == slot.name
      requires slot.cell.ObjectCell? ==> slot.cell.child.Valid() && slot.cell.child.Repr !! Repr
      modifies this
      ensures Valid() && Repr == old(Repr) + SlotRepr(slot)
      ensures Contents() == Put(old(Contents()), slot.name, SlotValue(slot))
      ensures i < |slots| && slots[i] == slot && forall k :: 0 <= k < i ==> slots[k].name != slot.name
    {
      if i < |slots| {
        PutAt(Contents(), i, slot.name, SlotValue(slot));
      } else {
        NotAmong(Contents(), slot.name);
        PutNew(Contents(), slot.name, SlotValue(slot));
      }
      StoreSlot(i, slot);
    }

    method StoreSlot(i: nat, slot: Slot)
      requires Valid() && i <= |slots|
      requires slot.cell.ObjectCell? ==> slot.cell.child.Valid() && slot.cell.child.Repr !! Repr
      modifies this
      ensures Valid() && Repr == old(Repr) + SlotRepr(slot)
      ensures slots == if i < |old(slots)| then old(slots)[i := slot] else old(slots) + [slot]
      ensures slot.cell.ObjectCell? ==> slot.cell.child.Valid()
      ensures Contents() == if i < |old(slots)| then old(Contents())[i := Prop(slot.name, SlotValue(slot))]
                            else old(Contents()) + [Prop(slot.name, SlotValue(slot))]
    {
      slots := if i < |slots| then slots[i := slot] else slots + [slot];
      Repr := Repr + SlotRepr(slot);
      forall j | 0 <= j < |slots| ensures Owned(j) {
        assert j != i ==> old(Owned(j));
      }
      forall j, k | 0 <= j < k < |slots| ensures Apart(j, k) {
        assert j != i ==> old(Owned(j));
        assert k != i ==> old(Owned(k));
        assert j != i && k != i ==> old(Apart(j, k));
      }
      forall j | 0 <= j < |slots| && j != i ensures CellValue(j) == old(CellValue(j)) {
        assert old(Owned(j));
      }
    }

    ghost function SlotRepr(slot: Slot): set<TranslationMap>
      reads if slot.cell.ObjectCell? then {slot.cell.child} else {}
    {
      if slot.cell.ObjectCell? then slot.cell.child.Repr else {}
    }

    ghost function SlotValue(slot: Slot): Value
      requires slot.cell.ObjectCell? ==> slot.cell.child.Valid()
      reads if slot.cell.ObjectCell? then {slot.cell.child} + slot.cell.child.Repr else {}
    {
      match slot.cell
      case TextCell(text) => Leaf(text)
      case ObjectCell(nested) => Object(nested.Contents())
    }
  }
}
