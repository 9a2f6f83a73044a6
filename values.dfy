/**
  The Java objects a DeX table may hold, Java's `equals` on them, and the
  `Number.doubleValue()` conversions the accessors and the printer go through.

  A created DeXTable never changes its entries again, so a nested table is
  represented here by its content (`Table`), not by a reference.
*/
module Values {
  import opened Wrappers

  type Int8 = x: int | -0x80 <= x < 0x80
  type Int16 = x: int | -0x8000 <= x < 0x8000
  type Int32 = x: int | -0x8000_0000 <= x < 0x8000_0000
  type Int64 = x: int | -0x8000_0000_0000_0000 <= x < 0x8000_0000_0000_0000

  /** A Java `char`: one UTF-16 code unit. */
  type CodeUnit = x: int | 0 <= x < 0x1_0000

  /**
    The UTF-16 code units of one character: the character itself below
    U+10000, and a high and a low surrogate above, which decode back to it.
  */
  function Utf16Char(c: char): (r: seq<CodeUnit>)
    ensures 1 <= |r| <= 2
    ensures |r| == 1 <==> c as int < 0x1_0000
    ensures |r| == 1 ==> r[0] == c as int
    ensures |r| == 2 ==> 0xD800 <= r[0] < 0xDC00 <= r[1] < 0xE000
    ensures |r| == 2 ==> (r[0] as int - 0xD800) * 0x400 + (r[1] as int - 0xDC00) + 0x1_0000 == c as int
  {
    var v := c as int;
    if v < 0x1_0000 then [v]
    else
      var hi := 0xD800 + (v - 0x1_0000) / 0x400;
      var lo := 0xDC00 + (v - 0x1_0000) % 0x400;
      [hi, lo]
  }

  /** A string as Java holds it: its UTF-16 code units, which `length()` counts and `charAt` reads. */
  function Utf16(s: string): (r: seq<CodeUnit>)
    ensures |s| <= |r| <= 2 * |s|
    ensures |s| > 0 ==> Utf16Char(s[0]) <= r
    decreases |s|
  {
    if s == [] then [] else Utf16Char(s[0]) + Utf16(s[1..])
  }

  /**
    A binary floating-point value. Datatype equality is Java's
    `Double.equals`/`Float.equals`: every NaN equals NaN, and -0.0 differs
    from 0.0 (which is `Finite(0.0)`).
  */
  datatype Fp = Finite(value: real) | NegZero | NaN | PosInf | NegInf

  /** A Java reference as the tables see it: null, a boxed primitive, a table, or anything else. */
  datatype Obj =
    | Null
    | Str(s: string)
    | Integer(i: Int32)
    | Boolean(z: bool)
    | Double(d: Fp)
    | Float(f: Fp)
    | Byte(int8: Int8)
    | Short(int16: Int16)
    | Long(int64: Int64)
    | Character(c: char)
    | Tbl(t: Table)
    | Other(id: nat)

  /** An immutable `(key, value)` entry of a table's entry set. */
  datatype Entry = Entry(key: Obj, value: Obj)

  /** The content of a created DeXTable: tag, entries in insertion order, and its `isArray` flag. */
  datatype Table = Table(tag: string, entries: seq<Entry>, isArray: bool)

  /** `DeX.isPrimitive`: the boxed types a table accepts besides tables. */
  predicate IsPrimitive(o: Obj) {
    o.Str? || o.Integer? || o.Boolean? || o.Double? || o.Float?
    || o.Byte? || o.Short? || o.Long? || o.Character?
  }

  /** `o instanceof Number` */
  predicate IsNumber(o: Obj) {
    o.Integer? || o.Double? || o.Float? || o.Byte? || o.Short? || o.Long?
  }

  /** What the builder accepts as key or value: a table or a primitive. */
  predicate Storable(o: Obj) {
    o.Tbl? || IsPrimitive(o)
  }

  /** `key.equals(n)` with `n` boxed to an Integer. */
  predicate IsIndexKey(k: Obj, n: int) {
    k.Integer? && k.i == n
  }

  /** The keys are the Integers 0, 1, ..., in entry order. */
  predicate KeysAreIndices(es: seq<Entry>) {
    forall j :: 0 <= j < |es| ==> IsIndexKey(es[j].key, j)
  }

  /**
    Java's `x.equals(y)` (with `x == null` read as `y == null`, as the
    collections do). Boxed values are equal only to the same class with the
    same value; a table is equal to itself (the `o == this` shortcut of
    AbstractMap.equals, which here also covers another table with the same
    content) and to a map of the same size in which every one of its keys
    maps to an equal value.
  */
  function Equals(x: Obj, y: Obj): (r: bool)
    ensures x == y ==> r
    ensures !x.Tbl? ==> (r <==> x == y)
    ensures x.Tbl? && r ==> y.Tbl? && |x.t.entries| == |y.t.entries|
    decreases x, 0, 0
  {
    match x
    case Null => y.Null?
    case Tbl(a) =>
      y.Tbl? &&
      (a == y.t ||
        (|a.entries| == |y.t.entries| &&
         forall j :: 0 <= j < |a.entries| ==>
           Equals(a.entries[j].value, LookupFrom(y.t, a.entries[j].key, 0))))
    case _ => x == y
  }

  /** AbstractMap.get: the value of the first entry from index `from` on whose key `k` equals, or null. */
  function LookupFrom(t: Table, k: Obj, from: nat): Obj
    decreases k, 1, |t.entries| - from
  {
    if from >= |t.entries| then Null
    else if Equals(k, t.entries[from].key) then t.entries[from].value
    else LookupFrom(t, k, from + 1)
  }

  /** `table.get(k)` */
  function Lookup(t: Table, k: Obj): Obj {
    LookupFrom(t, k, 0)
  }

  /** SimpleImmutableEntry.equals, with the new entry as receiver (as HashMap does). */
  predicate EntryEquals(e: Entry, f: Entry) {
    Equals(e.key, f.key) && Equals(e.value, f.value)
  }

  /** The table's values in entry order (`AbstractMap.values()`). */
  function ValuesOf(es: seq<Entry>): (vs: seq<Obj>)
    ensures |vs| == |es| && forall i :: 0 <= i < |es| ==> vs[i] == es[i].value
  {
    seq(|es|, i requires 0 <= i < |es| => es[i].value)
  }

  /** Every key and value, at every depth, is a table or a primitive (never null). */
  predicate WellFormedObj(o: Obj)
    decreases o
  {
    IsPrimitive(o) ||
    (o.Tbl? &&
     forall i :: 0 <= i < |o.t.entries| ==>
       WellFormedObj(o.t.entries[i].key) && WellFormedObj(o.t.entries[i].value))
  }

  predicate WellFormed(t: Table) {
    WellFormedObj(Tbl(t))
  }

  /** AbstractMap.equals without its `o == this` shortcut: same size, and each key of `a` maps in `b` to an equal value. */
  predicate EntrywiseEqual(a: Table, b: Table) {
    |a.entries| == |b.entries| &&
    forall j :: 0 <= j < |a.entries| ==> Equals(a.entries[j].value, Lookup(b, a.entries[j].key))
  }

  /** No key of `es` equals an earlier one. */
  predicate DistinctKeys(es: seq<Entry>) {
    forall i, j :: 0 <= i < j < |es| ==> !Equals(es[j].key, es[i].key)
  }

  /**
    With no repeated key, a table is entrywise equal to itself, so the
    shortcut that makes a table equal to any table with the same content
    agrees with Java's entrywise comparison of two such copies.
  */
  lemma DistinctKeysEntrywiseEqual(t: Table)
    requires DistinctKeys(t.entries)
    ensures EntrywiseEqual(t, t)
  {
    forall j | 0 <= j < |t.entries|
      ensures Equals(t.entries[j].value, Lookup(t, t.entries[j].key))
    {
      LookupFindsFirst(t, t.entries[j].key, 0, j);
    }
  }

  /**
    With a repeated key, two separately built tables with the same content
    are unequal in Java (the second entry's key looks up the first entry's
    value), while the content-level `Equals` takes them to be one object.
  */
  lemma RepeatedKeyCopiesDiffer()
    ensures var t := Table("", [Entry(Integer(1), Str("x")), Entry(Integer(1), Str("y"))], false);
      Equals(Tbl(t), Tbl(t)) && !EntrywiseEqual(t, t)
  {
    var t := Table("", [Entry(Integer(1), Str("x")), Entry(Integer(1), Str("y"))], false);
    assert Lookup(t, Integer(1)) == Str("x");
    assert !Equals(t.entries[1].value, Lookup(t, t.entries[1].key));
  }

  /** The first entry whose key equals `k` decides the lookup. */
  lemma {:induction false} LookupFindsFirst(t: Table, k: Obj, from: nat, j: nat)
    requires from <= j < |t.entries|
    requires Equals(k, t.entries[j].key)
    requires forall m :: from <= m < j ==> !Equals(k, t.entries[m].key)
    ensures LookupFrom(t, k, from) == t.entries[j].value
    decreases j - from
  {
    if from < j {
      LookupFindsFirst(t, k, from + 1, j);
    }
  }

  /** A lookup with no equal key answers null, and only then. */
  lemma {:induction false} LookupAbsent(t: Table, k: Obj, from: nat)
    requires WellFormed(t)
    ensures LookupFrom(t, k, from).Null? <==>
      forall m :: from <= m < |t.entries| ==> !Equals(k, t.entries[m].key)
    decreases |t.entries| - from
  {
    if from < |t.entries| {
      LookupAbsent(t, k, from + 1);
      assert WellFormedObj(t.entries[from].value);
    }
  }

  // ----- Number.doubleValue() and the (long) cast -----

  /** 2^53: every integer of at most this magnitude is a double. */
  const SIGNIFICAND_LIMIT: nat := 0x20_0000_0000_0000

  function Pow2(k: nat): (p: nat)
    ensures p >= 1
  {
    if k == 0 then 1 else 2 * Pow2(k - 1)
  }

  /** How many low bits of `m` do not fit in a 53-bit significand. */
  function ExcessBits(m: nat): nat
  {
    if m < SIGNIFICAND_LIMIT then 0 else 1 + ExcessBits(m / 2)
  }

  /** `m` rounded to the nearest double, ties to an even significand (JLS 5.1.2). */
  function RoundMagnitude(m: nat): nat
  {
    var u := Pow2(ExcessBits(m));
    var q := m / u;
    var r := m % u;
    if 2 * r < u || (2 * r == u && q % 2 == 0) then q * u else (q + 1) * u
  }

  /** The value of `(double) n`. */
  function RoundToDouble(n: int): int
  {
    if n < 0 then -(RoundMagnitude(-n) as int) else RoundMagnitude(n)
  }

  /** `((Number) o).doubleValue()` */
  function DoubleValue(o: Obj): Fp
    requires IsNumber(o)
  {
    match o
    case Integer(i) => Finite(i as real)
    case Short(v) => Finite(v as real)
    case Byte(v) => Finite(v as real)
    case Long(v) => Finite(RoundToDouble(v) as real)
    case Double(d) => d
    case Float(f) => f
  }

  /** `d % 1 == 0` */
  predicate IsIntegral(d: Fp) {
    d.NegZero? || (d.Finite? && d.value.Floor as real == d.value)
  }

  const LONG_MIN: int := -0x8000_0000_0000_0000
  const LONG_MAX: int := 0x7fff_ffff_ffff_ffff

  /** `(long) d` for an integral `d`: the value, saturated to the long range (JLS 5.1.3). */
  function CastToLong(d: Fp): (l: Int64)
    requires IsIntegral(d)
    ensures d.Finite? && LONG_MIN <= d.value.Floor <= LONG_MAX ==> l == d.value.Floor
  {
    if d.NegZero? then 0
    else if d.value.Floor > LONG_MAX then LONG_MAX
    else if d.value.Floor < LONG_MIN then LONG_MIN
    else d.value.Floor
  }

  /** Conversion to double is exact up to 2^53 in magnitude. */
  lemma RoundToDoubleExact(n: int)
    requires -(SIGNIFICAND_LIMIT as int) <= n <= SIGNIFICAND_LIMIT
    ensures RoundToDouble(n) == n
  {
    var m := if n < 0 then -n else n;
    if m == SIGNIFICAND_LIMIT {
      assert ExcessBits(m / 2) == 0;
      assert ExcessBits(m) == 1;
    } else {
      assert ExcessBits(m) == 0;
    }
  }

  /** Just past 2^53 conversion loses the low bit: 2^53 + 1 becomes 2^53. */
  lemma RoundToDoubleFirstLoss()
    ensures RoundToDouble(SIGNIFICAND_LIMIT + 1) == SIGNIFICAND_LIMIT
  {
    var m := SIGNIFICAND_LIMIT + 1;
    assert ExcessBits(m / 2) == 0;
    assert ExcessBits(m) == 1;
    assert Pow2(1) == 2;
  }
}
