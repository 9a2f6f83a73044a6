/**
  DeXTable and its one-shot Builder.

  A table is an insertion-ordered set of `(key, value)` entries with a tag.
  The builder owns the table until `create()` hands it over; until then
  `put` and `add` grow the entry set in place and `put` may clear the
  table's `isArray` flag. The pure functions `PutStep` and `AddStep` say
  what one call does to the table's content; the class methods are proved
  against them.
*/
module Tables {
  import opened Wrappers
  import opened Values
  import opened Arrays

  /** Integer.MAX_VALUE: the largest size an auto key can be boxed from. */
  const MAX_INT: int := 0x7fff_ffff

  /** The entry set holds no two Java-equal entries (it is a set). */
  predicate NoEqualEntries(es: seq<Entry>) {
    forall i, j :: 0 <= i < j < |es| ==> !EntryEquals(es[j], es[i])
  }

  /** What every DeXTable's content satisfies. */
  predicate Inv(t: Table) {
    && (t.isArray ==> KeysAreIndices(t.entries))
    && NoEqualEntries(t.entries)
    && WellFormed(t)
  }

  /** A key or value the caller may hand over: any table it holds is itself a DeXTable. */
  predicate Admissible(o: Obj) {
    o.Tbl? ==> WellFormed(o.t)
  }

  /** The content of `new DeXTable(size, tag)`: no entries, `isArray` true. */
  function EmptyTable(tag: string): (t: Table)
    ensures Inv(t) && t.tag == tag && t.entries == [] && t.isArray
  {
    Table(tag, [], true)
  }

  /** Some entry of `es` is Java-equal to `e`. */
  predicate Contains(es: seq<Entry>, e: Entry) {
    exists j :: 0 <= j < |es| && EntryEquals(e, es[j])
  }

  /** LinkedHashSet.add: append `e` unless an equal entry is already there. */
  function Insert(es: seq<Entry>, e: Entry): (r: seq<Entry>)
    ensures r == es <==> Contains(es, e)
    ensures es <= r && |r| <= |es| + 1
    ensures Contains(r, e)
    ensures |r| == |es| + 1 ==> r[|es|] == e
  {
    if Contains(es, e) then es else assert EntryEquals(e, (es + [e])[|es|]); es + [e]
  }

  /** What `builder.put(key, value)` does to the table's content, or the exception it throws. */
  function PutStep(t: Table, key: Obj, value: Obj): (r: Result<Table>)
    ensures r.Err? <==> !(Storable(key) && Storable(value))
    ensures r.Err? ==> r.error == IllegalArgument
    ensures r.Ok? ==> r.value.tag == t.tag
    ensures r.Ok? ==> (r.value.isArray <==> t.isArray && IsIndexKey(key, |t.entries|))
    ensures r.Ok? ==> (r.value.entries == t.entries <==> Contains(t.entries, Entry(key, value)))
    ensures r.Ok? && !Contains(t.entries, Entry(key, value)) ==>
      r.value.entries == t.entries + [Entry(key, value)]
  {
    if key.Null? || value.Null? then Err(IllegalArgument)
    else if Storable(value) && Storable(key) then
      Ok(Table(t.tag, Insert(t.entries, Entry(key, value)), t.isArray && IsIndexKey(key, |t.entries|)))
    else Err(IllegalArgument)
  }

  /** What `builder.add(value)` does: the value goes in under the Integer key `size()`. */
  function AddStep(t: Table, value: Obj): (r: Result<Table>)
    requires |t.entries| <= MAX_INT
    ensures r.Err? <==> !Storable(value)
    ensures r.Err? ==> r.error == IllegalArgument
    ensures r.Ok? ==> r.value.tag == t.tag && r.value.isArray == t.isArray
    ensures r.Ok? ==> t.entries <= r.value.entries && |r.value.entries| <= |t.entries| + 1
    ensures r.Ok? ==> (r.value.entries == t.entries <==> Contains(t.entries, Entry(Integer(|t.entries|), value)))
    ensures r.Ok? && !Contains(t.entries, Entry(Integer(|t.entries|), value)) ==>
      r.value.entries == t.entries + [Entry(Integer(|t.entries|), value)]
  {
    if value.Null? then Err(IllegalArgument)
    else if Storable(value) then
      Ok(Table(t.tag, Insert(t.entries, Entry(Integer(|t.entries|), value)), t.isArray))
    else Err(IllegalArgument)
  }

  /** The content after a sequence of `add` calls, and how the sequence ended. */
  datatype Applied = Applied(table: Table, outcome: Outcome)

  /** `addAll(iterable)`: one `add` per element, stopping at the first exception. */
  function AddAllSteps(t: Table, vs: seq<Obj>): Applied
    requires |t.entries| + |vs| <= MAX_INT + 1
    decreases |vs|
  {
    if vs == [] then Applied(t, Pass)
    else match AddStep(t, vs[0])
      case Err(e) => Applied(t, Fail(e))
      case Ok(t') => AddAllSteps(t', vs[1..])
  }

  /** One turn of `addAll(iterable)` from element `i`: the `add` of `vs[i]`, then the rest unless it threw. */
  lemma AddAllStepsAdvance(t: Table, vs: seq<Obj>, i: nat, after: Table, r: Outcome)
    requires i < |vs| && |t.entries| + |vs| - i <= MAX_INT + 1
    requires AddStep(t, vs[i]).Ok? ==> r == Pass && after == AddStep(t, vs[i]).value
    requires AddStep(t, vs[i]).Err? ==> r == Fail(AddStep(t, vs[i]).error) && after == t
    ensures r.Pass? ==> |after.entries| + |vs| - (i + 1) <= MAX_INT + 1
    ensures r.Pass? ==> AddAllSteps(t, vs[i..]) == AddAllSteps(after, vs[i + 1..])
    ensures r.Fail? ==> AddAllSteps(t, vs[i..]) == Applied(after, r)
  {
    assert vs[i..][0] == vs[i] && vs[i..][1..] == vs[i + 1..];
  }

  /** `addAll(map)`: one `put` per entry of the map, stopping at the first exception. */
  function PutAllSteps(t: Table, es: seq<Entry>): Applied
    decreases |es|
  {
    if es == [] then Applied(t, Pass)
    else match PutStep(t, es[0].key, es[0].value)
      case Err(e) => Applied(t, Fail(e))
      case Ok(t') => PutAllSteps(t', es[1..])
  }

  /** One turn of `addAll(map)` from entry `i`: the `put` of `es[i]`, then the rest unless it threw. */
  lemma PutAllStepsAdvance(t: Table, es: seq<Entry>, i: nat, after: Table, r: Outcome)
    requires i < |es|
    requires PutStep(t, es[i].key, es[i].value).Ok? ==> r == Pass && after == PutStep(t, es[i].key, es[i].value).value
    requires PutStep(t, es[i].key, es[i].value).Err? ==>
      r == Fail(PutStep(t, es[i].key, es[i].value).error) && after == t
    ensures r.Pass? ==> PutAllSteps(t, es[i..]) == PutAllSteps(after, es[i + 1..])
    ensures r.Fail? ==> PutAllSteps(t, es[i..]) == Applied(after, r)
  {
    assert es[i..][0] == es[i] && es[i..][1..] == es[i + 1..];
  }

  /** `put` keeps the table's invariant: an array flag still means keys 0 .. size-1, no equal entries. */
  lemma PutStepKeepsInv(t: Table, key: Obj, value: Obj)
    requires Inv(t) && Admissible(key) && Admissible(value)
    ensures PutStep(t, key, value).Ok? ==> Inv(PutStep(t, key, value).value)
  {
    var r := PutStep(t, key, value);
    if r.Ok? && !Contains(t.entries, Entry(key, value)) {
      InsertKeepsInv(t, Entry(key, value), r.value.isArray);
    }
  }

  /** `add` keeps the table's invariant. */
  lemma AddStepKeepsInv(t: Table, value: Obj)
    requires Inv(t) && Admissible(value) && |t.entries| <= MAX_INT
    ensures AddStep(t, value).Ok? ==> Inv(AddStep(t, value).value)
  {
    var r := AddStep(t, value);
    var e := Entry(Integer(|t.entries|), value);
    if r.Ok? && !Contains(t.entries, e) {
      InsertKeepsInv(t, e, t.isArray);
    }
  }

  /** Appending a new, storable entry keeps the invariant when the flag is kept only for the next index. */
  lemma InsertKeepsInv(t: Table, e: Entry, isArray: bool)
    requires Inv(t) && !Contains(t.entries, e)
    requires Storable(e.key) && Storable(e.value) && Admissible(e.key) && Admissible(e.value)
    requires isArray ==> t.isArray && IsIndexKey(e.key, |t.entries|)
    ensures Inv(Table(t.tag, t.entries + [e], isArray))
  {
    var es := t.entries + [e];
    forall i, j | 0 <= i < j < |es|
      ensures !EntryEquals(es[j], es[i])
    {
      if j == |t.entries| {
        assert es[i] == t.entries[i];
      }
    }
    assert WellFormedObj(e.key) && WellFormedObj(e.value);
    assert forall i :: 0 <= i < |t.entries| ==>
      WellFormedObj(t.entries[i].key) && WellFormedObj(t.entries[i].value);
  }

  /** On an array table, `add` always appends: no existing entry can have the key `size()`. */
  lemma {:induction false} AddOnArrayAppends(t: Table, value: Obj)
    requires Inv(t) && t.isArray && |t.entries| <= MAX_INT && Storable(value)
    ensures AddStep(t, value) == Ok(Table(t.tag, t.entries + [Entry(Integer(|t.entries|), value)], true))
  {
    var e := Entry(Integer(|t.entries|), value);
    forall j | 0 <= j < |t.entries|
      ensures !EntryEquals(e, t.entries[j])
    {
      assert IsIndexKey(t.entries[j].key, j);
    }
  }

  /** The entries `adds` produce from index `from` on: value `vs[j]` under the Integer key `from + j`. */
  function Indexed(vs: seq<Obj>, from: nat): (es: seq<Entry>)
    requires from + |vs| <= MAX_INT + 1
    ensures |es| == |vs|
    ensures forall j :: 0 <= j < |vs| ==> es[j] == Entry(Integer(from + j), vs[j])
  {
    seq(|vs|, j requires 0 <= j < |vs| => Entry(Integer(from + j), vs[j]))
  }

  /** Adding `vs` after `es` is adding `vs[0]` and then the rest. */
  lemma IndexedSplit(es: seq<Entry>, vs: seq<Obj>)
    requires vs != [] && |es| + |vs| <= MAX_INT + 1
    ensures es + Indexed(vs, |es|)
         == (es + [Entry(Integer(|es|), vs[0])]) + Indexed(vs[1..], |es| + 1)
  {
    var n := |es|;
    var head, all, rest := [Entry(Integer(n), vs[0])], Indexed(vs, n), Indexed(vs[1..], n + 1);
    forall j | 0 <= j < |all|
      ensures all[j] == (head + rest)[j]
    {
      if j > 0 {
        assert vs[1..][j - 1] == vs[j];
      }
    }
    assert all == head + rest;
    assert es + (head + rest) == (es + head) + rest;
  }

  /** One `add` on an array table: it appends under the next index and leaves the rest of `vs` addable. */
  lemma AddOnArrayStep(t: Table, vs: seq<Obj>)
    requires Inv(t) && t.isArray && vs != []
    requires |t.entries| + |vs| <= MAX_INT + 1
    requires forall j :: 0 <= j < |vs| ==> Storable(vs[j]) && Admissible(vs[j])
    ensures var t' := Table(t.tag, t.entries + [Entry(Integer(|t.entries|), vs[0])], true);
      && Inv(t')
      && AddAllSteps(t, vs) == AddAllSteps(t', vs[1..])
      && forall j :: 0 <= j < |vs[1..]| ==> Storable(vs[1..][j]) && Admissible(vs[1..][j])
  {
    AddOnArrayAppends(t, vs[0]);
    AddStepKeepsInv(t, vs[0]);
    assert forall j :: 0 <= j < |vs[1..]| ==> vs[1..][j] == vs[j + 1];
  }

  /** The array table after adding `vs[0]` and then the rest of `vs` is the one after adding all of `vs`. */
  lemma IndexedSplitTable(t: Table, vs: seq<Obj>)
    requires vs != [] && |t.entries| + |vs| <= MAX_INT + 1
    ensures var es' := t.entries + [Entry(Integer(|t.entries|), vs[0])];
      Table(t.tag, es' + Indexed(vs[1..], |es'|), true) == Table(t.tag, t.entries + Indexed(vs, |t.entries|), true)
  {
    IndexedSplit(t.entries, vs);
  }

  /**
    A builder that only ever calls `add` yields an array table: `isArray`
    stays true and value `vs[j]` sits under key `j`, in order.
  */
  lemma {:induction false} AddsOnlyYieldArray(t: Table, vs: seq<Obj>)
    requires Inv(t) && t.isArray
    requires |t.entries| + |vs| <= MAX_INT + 1
    requires forall j :: 0 <= j < |vs| ==> Storable(vs[j]) && Admissible(vs[j])
    ensures AddAllSteps(t, vs) ==
      Applied(Table(t.tag, t.entries + Indexed(vs, |t.entries|), true), Pass)
    decreases |vs|
  {
    if vs != [] {
      var t' := Table(t.tag, t.entries + [Entry(Integer(|t.entries|), vs[0])], true);
      AddOnArrayStep(t, vs);
      AddsOnlyYieldArray(t', vs[1..]);
      IndexedSplitTable(t, vs);
    } else {
      assert Indexed(vs, |t.entries|) == [];
      assert t.entries + [] == t.entries;
    }
  }

  /** Once `isArray` is false, no sequence of `add` calls sets it again. */
  lemma {:induction false} AddsKeepFlagOff(t: Table, vs: seq<Obj>)
    requires !t.isArray && |t.entries| + |vs| <= MAX_INT + 1
    ensures !AddAllSteps(t, vs).table.isArray
    decreases |vs|
  {
    if vs != [] && AddStep(t, vs[0]).Ok? {
      AddsKeepFlagOff(AddStep(t, vs[0]).value, vs[1..]);
    }
  }

  /** Once `isArray` is false, no sequence of `put` calls sets it again. */
  lemma {:induction false} PutsKeepFlagOff(t: Table, es: seq<Entry>)
    requires !t.isArray
    ensures !PutAllSteps(t, es).table.isArray
    decreases |es|
  {
    if es != [] && PutStep(t, es[0].key, es[0].value).Ok? {
      PutsKeepFlagOff(PutStep(t, es[0].key, es[0].value).value, es[1..]);
    }
  }

  /**
    `put(0, "a")` after `add("a")` clears `isArray` although nothing is
    inserted and the only key is still 0: the flag is decided before the
    set rejects the duplicate pair.
  */
  lemma DuplicatePutClearsArrayFlag()
    ensures var t := AddStep(EmptyTable(""), Str("a")).value;
      && t == Table("", [Entry(Integer(0), Str("a"))], true)
      && PutStep(t, Integer(0), Str("a")) == Ok(Table("", t.entries, false))
      && KeysAreIndices(t.entries)
  {
    var t := AddStep(EmptyTable(""), Str("a")).value;
    assert Insert([], Entry(Integer(0), Str("a"))) == [Entry(Integer(0), Str("a"))];
    assert Contains(t.entries, Entry(Integer(0), Str("a"))) by {
      assert EntryEquals(Entry(Integer(0), Str("a")), t.entries[0]);
    }
  }

  /** There is no duplicate-key check: `put(1, "x")` then `add("y")` stores key 1 twice. */
  lemma NoDuplicateKeyCheck()
    ensures var t1 := PutStep(EmptyTable(""), Integer(1), Str("x")).value;
      AddStep(t1, Str("y")) ==
        Ok(Table("", [Entry(Integer(1), Str("x")), Entry(Integer(1), Str("y"))], false))
  {
    var t1 := PutStep(EmptyTable(""), Integer(1), Str("x")).value;
    assert t1 == Table("", [Entry(Integer(1), Str("x"))], false) by {
      assert Insert([], Entry(Integer(1), Str("x"))) == [Entry(Integer(1), Str("x"))];
    }
    var e := Entry(Integer(1), Str("y"));
    assert Insert(t1.entries, e) == [Entry(Integer(1), Str("x")), e] by {
      assert !EntryEquals(e, t1.entries[0]);
      assert !Contains(t1.entries, e);
    }
  }

  /** Keys compare with Java's equals: the Double 0.0 is a different key from the Integer 0. */
  lemma DoubleZeroIsNotIndexZero(v: Obj)
    requires IsPrimitive(v)
    ensures var t := AddStep(EmptyTable(""), v).value;
      PutStep(t, Double(Finite(0.0)), v) ==
        Ok(Table("", [Entry(Integer(0), v), Entry(Double(Finite(0.0)), v)], false))
    ensures !PutStep(EmptyTable(""), Double(Finite(0.0)), v).value.isArray
  {
    var t := AddStep(EmptyTable(""), v).value;
    assert Insert([], Entry(Integer(0), v)) == [Entry(Integer(0), v)];
    assert t == Table("", [Entry(Integer(0), v)], true);
    assert !Contains(t.entries, Entry(Double(Finite(0.0)), v)) by {
      assert !EntryEquals(Entry(Double(Finite(0.0)), v), t.entries[0]);
    }
    assert t.entries + [Entry(Double(Finite(0.0)), v)]
        == [Entry(Integer(0), v), Entry(Double(Finite(0.0)), v)];
  }

  /** An immutable table. Only its builder changes its entries and flag; `values()` fills a cache. */
  class DeXTable {
    const tag: string
    var underlying: seq<Entry>
    var isArray: bool
    var cache: Option<DeXArray>

    ghost predicate Valid()
      reads this
    {
      Inv(Content()) && (cache.Some? ==> cache.value == NewArray(Content()))
    }

    /** The table as a value: what equality, printing and the accessors see. */
    function Content(): Table
      reads this
    {
      Table(tag, underlying, isArray)
    }

    /** `new DeXTable(size, tag)` (the capacity hint does not change the content). */
    constructor (tag: string)
      ensures Valid() && Content() == EmptyTable(tag) && cache.None?
    {
      this.tag := tag;
      underlying := [];
      isArray := true;
      cache := None;
    }

    /** `size()`: the number of entries, which is also the size of its array view. */
    function Size(): (n: nat)
      reads this
      ensures n == Arrays.Size(NewArray(Content()))
    {
      |underlying|
    }

    /** `isArray()`: when true, the keys are the Integers 0 .. size()-1 in entry order. */
    function IsArray(): (b: bool)
      reads this
      requires Valid()
      ensures b ==> forall j :: 0 <= j < Size() ==> IsIndexKey(underlying[j].key, j)
    {
      isArray
    }

    /** `values()`: the array view, built on the first call and returned from the cache after. */
    method Values() returns (a: DeXArray)
      requires Valid()
      modifies this`cache
      ensures Valid() && cache == Some(a)
      ensures a == NewArray(Content())
      ensures old(cache).Some? ==> a == old(cache).value
    {
      if cache.None? {
        cache := Some(NewArray(Content()));
      }
      a := cache.value;
    }

    /** `toDeXArray()`: another name for `values()`. */
    method ToDeXArray() returns (a: DeXArray)
      requires Valid()
      modifies this`cache
      ensures Valid() && cache == Some(a)
      ensures a == NewArray(Content())
      ensures old(cache).Some? ==> a == old(cache).value
    {
      a := Values();
    }
  }

  /** `DeXTable.builder(tag, size)`: a negative capacity makes the LinkedHashSet throw. */
  method NewBuilder(tag: string, size: int) returns (r: Result<Builder>)
    ensures r.Err? <==> size < 0
    ensures r.Err? ==> r.error == IllegalArgument
    ensures r.Ok? ==> fresh(r.value) && fresh(r.value.table) && r.value.Valid()
    ensures r.Ok? ==> r.value.table != null && r.value.table.Content() == EmptyTable(tag)
  {
    if size < 0 {
      return Err(IllegalArgument);
    }
    var b := new Builder(tag);
    return Ok(b);
  }

  /** The one-shot builder: it owns `table` until `create()` hands it over. */
  class Builder {
    var table: DeXTable?

    ghost predicate Valid()
      reads this, table
    {
      table != null ==> table.Valid() && table.cache.None?
    }

    constructor (tag: string)
      ensures Valid() && table != null && fresh(table)
      ensures table.Content() == EmptyTable(tag)
    {
      table := new DeXTable(tag);
    }

    /** `put(key, value)` */
    method Put(key: Obj, value: Obj) returns (r: Outcome)
      requires Valid() && Admissible(key) && Admissible(value)
      modifies table
      ensures Valid() && table == old(table)
      ensures old(table) == null ==> r == Fail(IllegalState)
      ensures old(table) != null ==>
        var step := PutStep(old(table.Content()), key, value);
        && (step.Ok? ==> r == Pass && table.Content() == step.value)
        && (step.Err? ==> r == Fail(step.error) && table.Content() == old(table.Content()))
    {
      if table == null {
        return Fail(IllegalState);
      }
      ghost var before := table.Content();
      var i := |table.underlying|;
      if key.Null? || value.Null? {
        return Fail(IllegalArgument);
      }
      if Storable(value) && Storable(key) {
        if table.isArray && !IsIndexKey(key, i) {
          table.isArray := false;
        }
        table.underlying := Insert(table.underlying, Entry(key, value));
        PutStepKeepsInv(before, key, value);
        return Pass;
      }
      return Fail(IllegalArgument);
    }

    /** `add(value)`: the value goes in under the Integer key `size()`. */
    method Add(value: Obj) returns (r: Outcome)
      requires Valid() && Admissible(value)
      requires table != null ==> |table.underlying| <= MAX_INT
      modifies table
      ensures Valid() && table == old(table)
      ensures old(table) == null ==> r == Fail(IllegalState)
      ensures old(table) != null ==>
        var step := AddStep(old(table.Content()), value);
        && (step.Ok? ==> r == Pass && table.Content() == step.value)
        && (step.Err? ==> r == Fail(step.error) && table.Content() == old(table.Content()))
    {
      if table == null {
        return Fail(IllegalState);
      }
      if value.Null? {
        return Fail(IllegalArgument);
      }
      if Storable(value) {
        ghost var before := table.Content();
        table.underlying := Insert(table.underlying, Entry(Integer(|table.underlying|), value));
        AddStepKeepsInv(before, value);
        return Pass;
      }
      return Fail(IllegalArgument);
    }

    /** `addAll(iterable)`: `add` each element in turn; an exception ends the loop, earlier adds stay. */
    method AddAll(vs: seq<Obj>) returns (r: Outcome)
      requires Valid() && forall j :: 0 <= j < |vs| ==> Admissible(vs[j])
      requires table != null ==> |table.underlying| + |vs| <= MAX_INT + 1
      modifies table
      ensures Valid() && table == old(table)
      ensures old(table) == null ==> r == (if vs == [] then Pass else Fail(IllegalState))
      ensures old(table) != null ==>
        AddAllSteps(old(table.Content()), vs) == Applied(table.Content(), r)
    {
      if table == null {
        return if vs == [] then Pass else Fail(IllegalState);
      }
      ghost var start := table.Content();
      var i := 0;
      r := Pass;
      while i < |vs|
        invariant 0 <= i <= |vs|
        invariant Valid() && table == old(table)
        invariant |table.underlying| + |vs| - i <= MAX_INT + 1
        invariant AddAllSteps(start, vs) == AddAllSteps(table.Content(), vs[i..])
        invariant r == Pass
      {
        r := AddNext(vs, i);
        if r.Fail? {
          return;
        }
        i := i + 1;
      }
      assert vs[i..] == [];
    }

    /** One turn of the loop in `addAll(iterable)`: `add(vs[i])`, which takes the remaining adds one step on. */
    method AddNext(vs: seq<Obj>, i: nat) returns (r: Outcome)
      requires Valid() && table != null && i < |vs| && Admissible(vs[i])
      requires |table.underlying| + |vs| - i <= MAX_INT + 1
      modifies table
      ensures Valid() && table == old(table)
      ensures r.Pass? ==> |table.underlying| + |vs| - (i + 1) <= MAX_INT + 1
      ensures r.Pass? ==> AddAllSteps(old(table.Content()), vs[i..]) == AddAllSteps(table.Content(), vs[i + 1..])
      ensures r.Fail? ==> AddAllSteps(old(table.Content()), vs[i..]) == Applied(table.Content(), r)
    {
      ghost var before := table.Content();
      r := Add(vs[i]);
      AddAllStepsAdvance(before, vs, i, table.Content(), r);
    }

    /** `addAll(map)`: `put` each entry in the map's iteration order; an exception ends the loop. */
    method AddAllMap(es: seq<Entry>) returns (r: Outcome)
      requires Valid()
      requires forall j :: 0 <= j < |es| ==> Admissible(es[j].key) && Admissible(es[j].value)
      modifies table
      ensures Valid() && table == old(table)
      ensures old(table) == null ==> r == (if es == [] then Pass else Fail(IllegalState))
      ensures old(table) != null ==>
        PutAllSteps(old(table.Content()), es) == Applied(table.Content(), r)
    {
      if table == null {
        return if es == [] then Pass else Fail(IllegalState);
      }
      ghost var start := table.Content();
      var i := 0;
      r := Pass;
      while i < |es|
        invariant 0 <= i <= |es|
        invariant Valid() && table == old(table)
        invariant PutAllSteps(start, es) == PutAllSteps(table.Content(), es[i..])
        invariant r == Pass
      {
        r := PutNext(es, i);
        if r.Fail? {
          return;
        }
        i := i + 1;
      }
      assert es[i..] == [];
    }

    /** One turn of the loop in `addAll(map)`: `put(es[i])`, which takes the remaining puts one step on. */
    method PutNext(es: seq<Entry>, i: nat) returns (r: Outcome)
      requires Valid() && table != null && i < |es| && Admissible(es[i].key) && Admissible(es[i].value)
      modifies table
      ensures Valid() && table == old(table)
      ensures r.Pass? ==> PutAllSteps(old(table.Content()), es[i..]) == PutAllSteps(table.Content(), es[i + 1..])
      ensures r.Fail? ==> PutAllSteps(old(table.Content()), es[i..]) == Applied(table.Content(), r)
    {
      ghost var before := table.Content();
      r := Put(es[i].key, es[i].value);
      PutAllStepsAdvance(before, es, i, table.Content(), r);
    }

    /** `create()`: hand the table over and make the builder unusable; a second call returns null. */
    method Create() returns (t: DeXTable?)
      requires Valid()
      modifies this
      ensures t == old(table) && table == null && Valid()
      ensures t != null ==> t.Valid()
    {
      t := table;
      table := null;
    }
  }
}
