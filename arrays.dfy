/** DeXArray: the positional, read-only view of a table's values. */
module Arrays {
  import opened Wrappers
  import opened Values

  /**
    The values copied from the parent table when the view was made, the
    parent's tag, and the parent itself (the back reference `table`).
  */
  datatype DeXArray = DeXArray(values: seq<Obj>, tag: string, table: Table)

  /** `new DeXArray(parent, parent.values())`: one copy, in the parent's entry order. */
  function NewArray(parent: Table): (a: DeXArray)
    ensures |a.values| == |parent.entries|
    ensures forall i :: 0 <= i < |parent.entries| ==> a.values[i] == parent.entries[i].value
    ensures a.tag == parent.tag && a.table == parent
  {
    DeXArray(ValuesOf(parent.entries), parent.tag, parent)
  }

  /** `get(int index)`: the value at a position, or IndexOutOfBoundsException. */
  function GetAt(a: DeXArray, index: int): (r: Result<Obj>)
    ensures r.Ok? <==> 0 <= index < |a.values|
    ensures r.Ok? ==> r.value == a.values[index]
    ensures r.Err? ==> r.error == IndexOutOfBounds
  {
    if 0 <= index < |a.values| then Ok(a.values[index]) else Err(IndexOutOfBounds)
  }

  /** `get(Integer key)`: a null key throws NullPointerException, any other is a position. */
  function Get(a: DeXArray, key: Obj): (r: Result<Obj>)
    requires key.Null? || key.Integer?
    ensures key.Null? ==> r == Err(NullPointer)
    ensures key.Integer? ==> r == GetAt(a, key.i)
  {
    if key.Null? then Err(NullPointer) else GetAt(a, key.i)
  }

  /** `size()` */
  function Size(a: DeXArray): nat {
    |a.values|
  }

  /** `toDeXTable()`: the parent, without a copy. */
  function ToDeXTable(a: DeXArray): Table {
    a.table
  }

  /**
    On a table whose keys are 0 .. size-1 (what `isArray()` promises),
    positional access through the view answers what key lookup answers.
  */
  lemma ViewAgreesWithLookup(t: Table, i: Int32)
    requires KeysAreIndices(t.entries)
    requires 0 <= i < |t.entries|
    ensures GetAt(NewArray(t), i) == Ok(Lookup(t, Integer(i)))
  {
    forall m | 0 <= m < i
      ensures !Equals(Integer(i), t.entries[m].key)
    {
      assert IsIndexKey(t.entries[m].key, m);
    }
    assert IsIndexKey(t.entries[i].key, i);
    LookupFindsFirst(t, Integer(i), 0, i);
  }
}
