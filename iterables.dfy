/**
  DeXIterable: the typed accessors shared by DeXTable (keyed by any object)
  and DeXArray (keyed by Integer). Every accessor is a function of
  `get(key)`, the tag, or both; a thrown exception is an `Err`.
*/
module Iterables {
  import opened Wrappers
  import opened Values
  import opened Arrays

  /** The two implementations of DeXIterable. */
  datatype Iterable = OfTable(table: Table) | OfArray(view: DeXArray)

  /** The key type `E`: any object for a table, an Integer (or null) for an array. */
  predicate KeyFits(it: Iterable, key: Obj) {
    it.OfTable? || key.Null? || key.Integer?
  }

  /** `get(key)`: table lookup by Java equals, or the array's positional get. */
  function Get(it: Iterable, key: Obj): Result<Obj>
    requires KeyFits(it, key)
  {
    match it
    case OfTable(t) => Ok(Lookup(t, key))
    case OfArray(a) => Arrays.Get(a, key)
  }

  /** `tag()` */
  function Tag(it: Iterable): string {
    match it
    case OfTable(t) => t.tag
    case OfArray(a) => a.tag
  }

  /** The iteration order: a table iterates over its values, an array over its elements. */
  function Elements(it: Iterable): seq<Obj> {
    match it
    case OfTable(t) => ValuesOf(t.entries)
    case OfArray(a) => a.values
  }

  /** `get(key)` answered null: the key is absent. */
  predicate Absent(it: Iterable, key: Obj)
    requires KeyFits(it, key)
  {
    Get(it, key) == Ok(Null)
  }

  /** `hasTag()`: the tag is not empty; an array view answers as its parent does. */
  function HasTag(it: Iterable): (b: bool)
    ensures b <==> Tag(it) != []
  {
    |Tag(it)| > 0
  }

  /** `hasKey(key)`: `get(key)` is not null (and throws when `get` does). */
  function HasKey(it: Iterable, key: Obj): (r: Result<bool>)
    requires KeyFits(it, key)
    ensures r.Err? <==> Get(it, key).Err?
    ensures r.Ok? ==> (r.value <==> !Absent(it, key))
  {
    match Get(it, key)
    case Err(e) => Err(e)
    case Ok(o) => Ok(!o.Null?)
  }

  /** `get(type, sel, key, def)`: the default when `get` answers null, otherwise the coercion of the value. */
  function GetOr<T>(it: Iterable, key: Obj, def: T, coerce: Obj -> Result<T>): (r: Result<T>)
    requires KeyFits(it, key)
    ensures Absent(it, key) ==> r == Ok(def)
    ensures Get(it, key).Ok? && !Absent(it, key) ==> r == coerce(Get(it, key).value)
    ensures Get(it, key).Err? ==> r == Err(Get(it, key).error)
  {
    match Get(it, key)
    case Err(e) => Err(e)
    case Ok(o) => if o.Null? then Ok(def) else coerce(o)
  }

  /** `getTable(key)`: the cast `(DeXTable) get(key)`. */
  function GetTable(it: Iterable, key: Obj): (r: Result<Option<Table>>)
    requires KeyFits(it, key)
    ensures r == Ok(None) <==> Absent(it, key)
    ensures r.Ok? && r.value.Some? <==> Get(it, key).Ok? && Get(it, key).value.Tbl?
    ensures r.Ok? && r.value.Some? ==> r.value.value == Get(it, key).value.t
    ensures Get(it, key).Ok? && !Get(it, key).value.Null? && !Get(it, key).value.Tbl? ==> r == Err(ClassCast)
    ensures Get(it, key).Err? ==> r == Err(Get(it, key).error)
  {
    match Get(it, key)
    case Err(e) => Err(e)
    case Ok(o) =>
      if o.Null? then Ok(None)
      else if o.Tbl? then Ok(Some(o.t))
      else Err(ClassCast)
  }

  /** `getArray(key)`: the array view of a table value whose `isArray()` holds, else null. */
  function GetArray(it: Iterable, key: Obj): (r: Result<Option<DeXArray>>)
    requires KeyFits(it, key)
    ensures r.Ok? && r.value.Some? <==>
      Get(it, key).Ok? && Get(it, key).value.Tbl? && Get(it, key).value.t.isArray
    ensures r.Ok? && r.value.Some? ==> r.value.value == NewArray(Get(it, key).value.t)
    ensures r == Ok(None) <==>
      Absent(it, key) || (Get(it, key).Ok? && Get(it, key).value.Tbl? && !Get(it, key).value.t.isArray)
    ensures Get(it, key).Ok? && !Get(it, key).value.Null? && !Get(it, key).value.Tbl? ==> r == Err(ClassCast)
    ensures Get(it, key).Err? ==> r == Err(Get(it, key).error)
  {
    match GetTable(it, key)
    case Err(e) => Err(e)
    case Ok(ot) =>
      if ot.Some? && ot.value.isArray then Ok(Some(NewArray(ot.value))) else Ok(None)
  }

  /** DeX.coerce(String.class, o, null): strings as they are, numbers formatted, booleans spelled out. */
  function CoerceToString(o: Obj, fmt: Fp -> string): (r: Result<Option<string>>)
    ensures r == Ok(None) <==> o.Null?
    ensures r.Err? <==> !o.Null? && !(IsPrimitive(o) && !o.Character?)
    ensures r.Err? ==> r.error == IllegalArgument
    ensures o.Str? ==> r == Ok(Some(o.s))
    ensures IsNumber(o) ==> r == Ok(Some(fmt(DoubleValue(o))))
  {
    if o.Null? then Ok(None)
    else if o.Str? then Ok(Some(o.s))
    else if IsNumber(o) then Ok(Some(fmt(DoubleValue(o))))
    else if o.Boolean? then Ok(Some(if o.z then "true" else "false"))
    else Err(IllegalArgument)
  }

  /** `getString(key)` */
  function GetString(it: Iterable, key: Obj, fmt: Fp -> string): (r: Result<Option<string>>)
    requires KeyFits(it, key)
    ensures Absent(it, key) ==> r == Ok(None)
    ensures Get(it, key).Ok? && Get(it, key).value.Str? ==> r == Ok(Some(Get(it, key).value.s))
    ensures Get(it, key).Ok? && !IsPrimitive(Get(it, key).value) && !Get(it, key).value.Null? ==>
      r == Err(IllegalArgument)
    ensures Get(it, key).Ok? && Get(it, key).value.Character? ==> r == Err(IllegalArgument)
    ensures Get(it, key).Err? ==> r == Err(Get(it, key).error)
  {
    match Get(it, key)
    case Err(e) => Err(e)
    case Ok(o) => CoerceToString(o, fmt)
  }

  /** `getString(key, def)` */
  function GetStringOr(it: Iterable, key: Obj, def: Option<string>, fmt: Fp -> string): (r: Result<Option<string>>)
    requires KeyFits(it, key)
    ensures Absent(it, key) ==> r == Ok(def)
    ensures !Absent(it, key) ==> r == GetString(it, key, fmt)
  {
    GetOr(it, key, def, o => CoerceToString(o, fmt))
  }

  /** The number conversion shared by `getDouble`: a number's doubleValue, anything else is not a number. */
  function NumberValue(o: Obj): Result<Fp>
    requires !o.Null?
  {
    if IsNumber(o) then Ok(DoubleValue(o)) else Err(Arithmetic)
  }

  /** `getDouble(key)` */
  function GetDouble(it: Iterable, key: Obj): (r: Result<Fp>)
    requires KeyFits(it, key)
    ensures Absent(it, key) ==> r == Err(NullPointer)
    ensures Get(it, key).Ok? && IsNumber(Get(it, key).value) ==> r == Ok(DoubleValue(Get(it, key).value))
    ensures !Absent(it, key) && Get(it, key).Ok? && !IsNumber(Get(it, key).value) ==> r == Err(Arithmetic)
    ensures Get(it, key).Err? ==> r == Err(Get(it, key).error)
  {
    match Get(it, key)
    case Err(e) => Err(e)
    case Ok(o) => if o.Null? then Err(NullPointer) else NumberValue(o)
  }

  /** `getDouble(key, def)` */
  function GetDoubleOr(it: Iterable, key: Obj, def: Fp): (r: Result<Fp>)
    requires KeyFits(it, key)
    ensures Absent(it, key) ==> r == Ok(def)
    ensures !Absent(it, key) ==> r == GetDouble(it, key)
  {
    match Get(it, key)
    case Err(e) => Err(e)
    case Ok(o) => if o.Null? then Ok(def) else NumberValue(o)
  }

  /** The body of `getLong`: an integral doubleValue cast to long; a fraction or a non-number throws. */
  function LongValue(o: Obj): (r: Result<Int64>)
    requires !o.Null?
    ensures r.Ok? <==> IsNumber(o) && IsIntegral(DoubleValue(o))
    ensures r.Err? ==> r.error == Arithmetic
  {
    if IsNumber(o) then
      var d := DoubleValue(o);
      if IsIntegral(d) then Ok(CastToLong(d)) else Err(Arithmetic)
    else Err(Arithmetic)
  }

  /** `getLong(key)` */
  function GetLong(it: Iterable, key: Obj): (r: Result<Int64>)
    requires KeyFits(it, key)
    ensures Absent(it, key) ==> r == Err(NullPointer)
    ensures !Absent(it, key) && Get(it, key).Ok? ==> r == LongValue(Get(it, key).value)
    ensures Get(it, key).Err? ==> r == Err(Get(it, key).error)
  {
    match Get(it, key)
    case Err(e) => Err(e)
    case Ok(o) => if o.Null? then Err(NullPointer) else LongValue(o)
  }

  /** `getLong(key, def)` */
  function GetLongOr(it: Iterable, key: Obj, def: Int64): (r: Result<Int64>)
    requires KeyFits(it, key)
    ensures Absent(it, key) ==> r == Ok(def)
    ensures !Absent(it, key) ==> r == GetLong(it, key)
  {
    match Get(it, key)
    case Err(e) => Err(e)
    case Ok(o) => if o.Null? then Ok(def) else LongValue(o)
  }

  const INT_MIN: int := -0x8000_0000
  const INT_MAX: int := 0x7fff_ffff
  const SHORT_MIN: int := -0x8000
  const SHORT_MAX: int := 0x7fff
  const BYTE_MIN: int := -0x80
  const BYTE_MAX: int := 0x7f

  /** The range check of getInt/getShort/getByte: out of `lo .. hi` throws, otherwise the long unchanged. */
  function Narrow(l: Result<Int64>, lo: int, hi: int): (r: Result<int>)
    ensures r.Ok? <==> l.Ok? && lo <= l.value <= hi
    ensures r.Ok? ==> r.value == l.value
    ensures l.Ok? && !(lo <= l.value <= hi) ==> r == Err(Arithmetic)
    ensures l.Err? ==> r == Err(l.error)
  {
    match l
    case Err(e) => Err(e)
    case Ok(v) => if v > hi || v < lo then Err(Arithmetic) else Ok(v)
  }

  /** `getInt(key)` */
  function GetInt(it: Iterable, key: Obj): (r: Result<Int32>)
    requires KeyFits(it, key)
    ensures r == Narrow(GetLong(it, key), INT_MIN, INT_MAX)
  {
    match GetLong(it, key)
    case Err(e) => Err(e)
    case Ok(l) => if l > INT_MAX || l < INT_MIN then Err(Arithmetic) else Ok(l)
  }

  /** `getInt(key, def)` */
  function GetIntOr(it: Iterable, key: Obj, def: Int32): (r: Result<Int32>)
    requires KeyFits(it, key)
    ensures Absent(it, key) ==> r == Ok(def)
    ensures !Absent(it, key) ==> r == GetInt(it, key)
  {
    match GetLongOr(it, key, def)
    case Err(e) => Err(e)
    case Ok(l) => if l > INT_MAX || l < INT_MIN then Err(Arithmetic) else Ok(l)
  }

  /** `getShort(key)` */
  function GetShort(it: Iterable, key: Obj): (r: Result<Int16>)
    requires KeyFits(it, key)
    ensures r == Narrow(GetLong(it, key), SHORT_MIN, SHORT_MAX)
  {
    match GetLong(it, key)
    case Err(e) => Err(e)
    case Ok(l) => if l > SHORT_MAX || l < SHORT_MIN then Err(Arithmetic) else Ok(l)
  }

  /** `getShort(key, def)`: the source declares the default as a byte. */
  function GetShortOr(it: Iterable, key: Obj, def: Int8): (r: Result<Int16>)
    requires KeyFits(it, key)
    ensures Absent(it, key) ==> r == Ok(def)
    ensures !Absent(it, key) ==> r == GetShort(it, key)
  {
    match GetLongOr(it, key, def)
    case Err(e) => Err(e)
    case Ok(l) => if l > SHORT_MAX || l < SHORT_MIN then Err(Arithmetic) else Ok(l)
  }

  /** `getByte(key)` */
  function GetByte(it: Iterable, key: Obj): (r: Result<Int8>)
    requires KeyFits(it, key)
    ensures r == Narrow(GetLong(it, key), BYTE_MIN, BYTE_MAX)
  {
    match GetLong(it, key)
    case Err(e) => Err(e)
    case Ok(l) => if l > BYTE_MAX || l < BYTE_MIN then Err(Arithmetic) else Ok(l)
  }

  /** `getByte(key, def)` */
  function GetByteOr(it: Iterable, key: Obj, def: Int8): (r: Result<Int8>)
    requires KeyFits(it, key)
    ensures Absent(it, key) ==> r == Ok(def)
    ensures !Absent(it, key) ==> r == GetByte(it, key)
  {
    match GetLongOr(it, key, def)
    case Err(e) => Err(e)
    case Ok(l) => if l > BYTE_MAX || l < BYTE_MIN then Err(Arithmetic) else Ok(l)
  }

  /** `getBoolean(key)`: the cast `(boolean) get(key)`, which unboxes. */
  function GetBoolean(it: Iterable, key: Obj): (r: Result<bool>)
    requires KeyFits(it, key)
    ensures Absent(it, key) ==> r == Err(NullPointer)
    ensures r.Ok? <==> Get(it, key).Ok? && Get(it, key).value.Boolean?
    ensures r.Ok? ==> r.value == Get(it, key).value.z
    ensures !Absent(it, key) && Get(it, key).Ok? && !Get(it, key).value.Boolean? ==> r == Err(ClassCast)
  {
    match Get(it, key)
    case Err(e) => Err(e)
    case Ok(o) =>
      if o.Null? then Err(NullPointer)
      else if o.Boolean? then Ok(o.z)
      else Err(ClassCast)
  }

  /** `getBoolean(key, def)`: the cast `(Boolean) get(key)`, then the default for null. */
  function GetBooleanOr(it: Iterable, key: Obj, def: bool): (r: Result<bool>)
    requires KeyFits(it, key)
    ensures Absent(it, key) ==> r == Ok(def)
    ensures !Absent(it, key) ==> r == GetBoolean(it, key)
  {
    match Get(it, key)
    case Err(e) => Err(e)
    case Ok(o) =>
      if o.Null? then Ok(def)
      else if o.Boolean? then Ok(o.z)
      else Err(ClassCast)
  }

  /**
    `getChar(key)`: `charAt(0)` of `getString(key)`, the first UTF-16 code
    unit, which is a high surrogate when the first character lies above U+FFFF.
  */
  function GetChar(it: Iterable, key: Obj, fmt: Fp -> string): (r: Result<CodeUnit>)
    requires KeyFits(it, key)
    ensures Absent(it, key) ==> r == Err(NullPointer)
    ensures r.Ok? <==>
      (GetString(it, key, fmt).Ok? && GetString(it, key, fmt).value.Some? && |GetString(it, key, fmt).value.value| > 0)
    ensures r.Ok? ==> r.value == Utf16Char(GetString(it, key, fmt).value.value[0])[0]
  {
    match GetString(it, key, fmt)
    case Err(e) => Err(e)
    case Ok(os) =>
      if os.None? then Err(NullPointer)
      else if |Utf16(os.value)| == 0 then Err(StringIndexOutOfBounds)
      else Ok(Utf16(os.value)[0])
  }

  /**
    `getChar(key, def)`: the default for null; a string whose `length()`,
    counted in UTF-16 code units, exceeds one throws, so only a single
    character below U+10000 comes back.
  */
  function GetCharOr(it: Iterable, key: Obj, def: CodeUnit, fmt: Fp -> string): (r: Result<CodeUnit>)
    requires KeyFits(it, key)
    ensures Absent(it, key) ==> r == Ok(def)
    ensures r.Ok? && !Absent(it, key) ==> r == GetChar(it, key, fmt)
    ensures r.Ok? && !Absent(it, key) ==>
      GetString(it, key, fmt).Ok? && GetString(it, key, fmt).value.Some? &&
      |GetString(it, key, fmt).value.value| == 1 && r.value == GetString(it, key, fmt).value.value[0] as int
    ensures (GetString(it, key, fmt).Ok? && GetString(it, key, fmt).value.Some?
      && |Utf16(GetString(it, key, fmt).value.value)| > 1) ==> r == Err(NoChar)
  {
    match GetString(it, key, fmt)
    case Err(e) => Err(e)
    case Ok(os) =>
      if os.None? then Ok(def)
      else if |Utf16(os.value)| > 1 then Err(NoChar)
      else if |Utf16(os.value)| == 0 then Err(StringIndexOutOfBounds)
      else Ok(Utf16(os.value)[0])
  }

  // ----- What the accessors promise -----

  /** A table answers `hasKey` with whether some key of it equals the given key. */
  lemma TableHasKey(t: Table, k: Obj)
    requires WellFormed(t)
    ensures HasKey(OfTable(t), k) == Ok(exists m :: 0 <= m < |t.entries| && Equals(k, t.entries[m].key))
  {
    LookupAbsent(t, k, 0);
  }

  /**
    An array view never answers `hasKey` with false: a position in range
    holds a non-null value, and any other position throws.
  */
  lemma ArrayHasKey(t: Table, i: Int32)
    requires WellFormed(t)
    ensures 0 <= i < |t.entries| ==> HasKey(OfArray(NewArray(t)), Integer(i)) == Ok(true)
    ensures !(0 <= i < |t.entries|) ==> HasKey(OfArray(NewArray(t)), Integer(i)) == Err(IndexOutOfBounds)
  {
    if 0 <= i < |t.entries| {
      assert WellFormedObj(t.entries[i].value);
    }
  }

  /**
    On a table whose keys are its indices, the array view answers every
    accessor as the table does, and carries the same tag.
  */
  lemma ArrayViewAgrees(t: Table, i: Int32, fmt: Fp -> string)
    requires KeysAreIndices(t.entries)
    requires 0 <= i < |t.entries|
    ensures Get(OfArray(NewArray(t)), Integer(i)) == Get(OfTable(t), Integer(i))
    ensures GetLong(OfArray(NewArray(t)), Integer(i)) == GetLong(OfTable(t), Integer(i))
    ensures GetString(OfArray(NewArray(t)), Integer(i), fmt) == GetString(OfTable(t), Integer(i), fmt)
    ensures HasTag(OfArray(NewArray(t))) == HasTag(OfTable(t))
  {
    ViewAgreesWithLookup(t, i);
  }

  /** An Integer, Short or Byte comes back from `getLong` unchanged. */
  lemma GetLongOfSmallIntegers(it: Iterable, key: Obj)
    requires KeyFits(it, key)
    requires Get(it, key).Ok?
    requires Get(it, key).value.Integer? || Get(it, key).value.Short? || Get(it, key).value.Byte?
    ensures GetLong(it, key) == Ok(match Get(it, key).value
      case Integer(v) => v case Short(v) => v case Byte(v) => v case _ => 0)
  {
  }

  /** A Long comes back from `getLong` unchanged while its magnitude is at most 2^53. */
  lemma GetLongOfLong(it: Iterable, key: Obj, v: Int64)
    requires KeyFits(it, key)
    requires Get(it, key) == Ok(Long(v))
    requires -(SIGNIFICAND_LIMIT as int) <= v <= SIGNIFICAND_LIMIT
    ensures GetLong(it, key) == Ok(v)
  {
    RoundToDoubleExact(v);
  }

  /** `getLong` goes through `doubleValue()`: the Long 2^53 + 1 comes back as 2^53. */
  lemma GetLongRoundsBeyondSignificand(it: Iterable, key: Obj)
    requires KeyFits(it, key)
    requires Get(it, key) == Ok(Long(SIGNIFICAND_LIMIT + 1))
    ensures GetLong(it, key) == Ok(SIGNIFICAND_LIMIT)
  {
    RoundToDoubleFirstLoss();
  }

  /** A double with a fraction, NaN or an infinity is not an integer to `getLong`. */
  lemma GetLongRejectsNonIntegral(it: Iterable, key: Obj, d: Fp)
    requires KeyFits(it, key)
    requires Get(it, key) == Ok(Double(d))
    requires d.NaN? || d.PosInf? || d.NegInf? || (d.Finite? && d.value.Floor as real != d.value)
    ensures GetLong(it, key) == Err(Arithmetic)
    ensures GetInt(it, key) == Err(Arithmetic)
  {
  }

  /** A stored Integer comes back through `getInt`, and through `getShort` exactly when it fits. */
  lemma GetIntOfInteger(it: Iterable, key: Obj, i: Int32)
    requires KeyFits(it, key)
    requires Get(it, key) == Ok(Integer(i))
    ensures GetInt(it, key) == Ok(i)
    ensures SHORT_MIN <= i <= SHORT_MAX ==> GetShort(it, key) == Ok(i)
    ensures !(SHORT_MIN <= i <= SHORT_MAX) ==> GetShort(it, key) == Err(Arithmetic)
  {
    assert GetLong(it, key) == Ok(i);
  }

  /** A stored Character is refused by the String coercion behind `getChar`. */
  lemma GetCharOfCharacter(it: Iterable, key: Obj, c: char, def: CodeUnit, fmt: Fp -> string)
    requires KeyFits(it, key)
    requires Get(it, key) == Ok(Character(c))
    ensures GetChar(it, key, fmt) == Err(IllegalArgument)
    ensures GetCharOr(it, key, def, fmt) == Err(IllegalArgument)
  {
  }

  /**
    A string of one character below U+10000 gives that character. The empty
    string throws from `charAt(0)`. Otherwise `getChar(k)` gives the first
    code unit and `getChar(k, def)` throws, which includes a single
    character above U+FFFF, since Java counts its two surrogates.
  */
  lemma GetCharOfString(it: Iterable, key: Obj, s: string, def: CodeUnit, fmt: Fp -> string)
    requires KeyFits(it, key)
    requires Get(it, key) == Ok(Str(s))
    ensures |s| == 1 && s[0] as int < 0x1_0000 ==>
      GetChar(it, key, fmt) == Ok(s[0] as int) && GetCharOr(it, key, def, fmt) == Ok(s[0] as int)
    ensures |s| == 0 ==> GetChar(it, key, fmt) == Err(StringIndexOutOfBounds)
    ensures |s| == 0 ==> GetCharOr(it, key, def, fmt) == Err(StringIndexOutOfBounds)
    ensures |s| > 0 ==> GetChar(it, key, fmt) == Ok(Utf16Char(s[0])[0])
    ensures |s| > 1 || (|s| == 1 && s[0] as int >= 0x1_0000) ==> GetCharOr(it, key, def, fmt) == Err(NoChar)
  {
  }

  /** U+1F600 is two code units in Java: `getChar(k)` gives the high surrogate and `getChar(k, def)` throws. */
  lemma SupplementaryCharIsTwoUnits(it: Iterable, key: Obj, def: CodeUnit, fmt: Fp -> string)
    requires KeyFits(it, key)
    requires Get(it, key) == Ok(Str("\U{1F600}"))
    ensures GetChar(it, key, fmt) == Ok(0xD83D)
    ensures GetCharOr(it, key, def, fmt) == Err(NoChar)
  {
    assert Utf16Char('\U{1F600}') == [0xD83D, 0xDE00];
  }

  /** `getString` formats a number through `doubleValue()`, and spells out a boolean. */
  lemma GetStringOfPrimitive(it: Iterable, key: Obj, fmt: Fp -> string)
    requires KeyFits(it, key)
    requires Get(it, key).Ok? && (IsNumber(Get(it, key).value) || Get(it, key).value.Boolean?)
    ensures IsNumber(Get(it, key).value) ==>
      GetString(it, key, fmt) == Ok(Some(fmt(DoubleValue(Get(it, key).value))))
    ensures Get(it, key) == Ok(Boolean(true)) ==> GetString(it, key, fmt) == Ok(Some("true"))
    ensures Get(it, key) == Ok(Boolean(false)) ==> GetString(it, key, fmt) == Ok(Some("false"))
  {
  }
}
