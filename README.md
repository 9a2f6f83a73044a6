# DeX tables, printer and number helpers in Dafny

This project models the core of DeX, a Java library for a JSON-like text
format. Its data are immutable tagged tables whose entries map keys to values.
A key or value is a string, a boxed number, a boolean, a character or another
table. The model covers four Java classes.

- **`DeXTable` and its one-shot `Builder`** (`tables.dfy`). A table is an
  insertion-ordered `LinkedHashSet` of `(key, value)` entries with a tag.
  - The `isArray` flag starts true. `put` clears it when the key is not
    Java-equal to the boxed current size.
  - `add` stores a value under the Integer key `size()`.
  - `create()` hands the table over and makes the builder unusable.
  - `values()` builds the array view once and caches it.
  - `DeXTable` and `Builder` are Dafny classes that update their fields in
    place. Each builder method is proved against a pure step function
    (`PutStep`, `AddStep`, `AddAllSteps`, `PutAllSteps`), and the table's
    invariant is proved about those functions.
- **`DeXArray`** (`arrays.dfy`). A positional copy of a table's values that
  keeps the parent's tag and the parent itself.
- **`DeXIterable`'s accessors** (`iterables.dfy`). These are `hasTag`,
  `hasKey`, `get` with a default, `getTable`/`getArray`, `getString`,
  `getDouble`, `getLong`, the range-checked `getInt`/`getShort`/`getByte`,
  `getBoolean` and `getChar`. They are stated over both implementations,
  a table and an array view.
- **`DeX`'s helpers** (`printer.dfy`, `numbers.dfy`, `queries.dfy`). These are:
  - the `escape` table;
  - compact and pretty string quoting;
  - compact and pretty table printing onto a `StringBuilder`;
  - `parseDeXNumber`;
  - `getByTag`/`getAllByTag`;
  - `ensure`.

  Each printing method is proved to append exactly a specification text to
  the builder. The specification texts are shown to read back
  (`EscapedRoundTrip`, `PrettyStringRoundTrip`) and to be well nested
  (`braces.dfy`).

Shared definitions:
- `values.dfy` models Java objects, Java `equals`, `Number.doubleValue()`
  and the `(long)` cast. `Obj` is a datatype. Datatype equality is Java
  equality on boxed primitives, so a `Double` 0.0 is not an `Integer` 0.
  `Fp` is a double as a real number plus NaN, the infinities and -0.0.
- `wrappers.dfy` holds `Result`, `Option` and the Java exceptions.
- A thrown exception is an `Err` carrying the exception class. A Java null
  is `None` or the `Null` object.

Behaviour of the code worth knowing:
- **`isArray` is updated one call at a time.** It is not recomputed from the
  final key set. So `add("a")` then `put(0, "a")` clears the flag although
  the set rejects the duplicate entry
  (`Tables.DuplicatePutClearsArrayFlag`).
- **Keys compare with Java's `equals`, not as normalized numbers.** A
  `Double` 0.0 key never makes an index (`Tables.DoubleZeroIsNotIndexZero`).
- **`parseDeXNumber` reads `chars[0]` without a bounds check.** An empty
  token throws, and so do `"+"` and `"-"`, after the sign is skipped. The
  model returns that error instead of requiring a non-empty token.

## Model

| member | source | states |
|---|---|---|
| Values.ValuesOf | DeX/src/main/java/moe/nightfall/dex/DeXTable.java:133-138 | the values collection has one value per entry, at the entry's position |
| Values.Equals | DeX/src/main/java/moe/nightfall/dex/DeXTable.java:18 | Java `equals` (the boxed classes' and `AbstractMap.equals` for tables) holds between an object and itself; on anything but a table it holds exactly between the same boxed type and value (Integer 0 is not Long 0 or Double 0.0); a table is equal only to a table of the same size |
| Values.DistinctKeysEntrywiseEqual | DeX/src/main/java/moe/nightfall/dex/DeXTable.java:18 | for a table whose keys are distinct, `AbstractMap.equals`'s entry-by-entry comparison of two copies succeeds at the top level. Agreement with Java at every depth needs the same of each nested table |
| Values.RepeatedKeyCopiesDiffer | DeX/src/main/java/moe/nightfall/dex/DeXTable.java:18 | with a repeated key (`(1,"x"),(1,"y")`), the entry-by-entry comparison of two copies fails although the content is the same: Java calls two such copies unequal, the model calls them equal |
| Values.LookupFindsFirst | DeX/src/main/java/moe/nightfall/dex/DeXTable.java:128-131 | `get(key)` answers the value of the first entry whose key equals `key` |
| Values.LookupAbsent | DeX/src/main/java/moe/nightfall/dex/DeXTable.java:128-131 | `get(key)` answers null exactly when no entry's key equals `key` |
| Values.CastToLong | DeX/src/main/java/moe/nightfall/dex/DeXIterable.java:117 | the cast of an integral double within the long range is that integer |
| Values.RoundToDoubleExact | DeX/src/main/java/moe/nightfall/dex/DeXIterable.java:116 | `doubleValue()` of a long is exact while its magnitude is at most 2^53 |
| Values.RoundToDoubleFirstLoss | DeX/src/main/java/moe/nightfall/dex/DeXIterable.java:116 | `doubleValue()` of the long 2^53+1 is 2^53 |
| Arrays.NewArray | DeX/src/main/java/moe/nightfall/dex/DeXArray.java:26-30 | the view holds the parent's entry values in entry order (so `size()` is the parent's entry count), the parent's tag, and the parent that `toDeXTable()` returns |
| Arrays.GetAt | DeX/src/main/java/moe/nightfall/dex/DeXArray.java:44-47 | `get(int)` answers element `index` when it is in range and throws IndexOutOfBounds otherwise |
| Arrays.Get | DeX/src/main/java/moe/nightfall/dex/DeXArray.java:38-42 | `get(Integer)` throws NullPointerException for null and otherwise is `get(int)` |
| Arrays.ViewAgreesWithLookup | DeX/src/main/java/moe/nightfall/dex/DeXTable.java:140-155 | on an array table, element `i` of the view is the value the table stores under the Integer key `i` |
| Tables.EmptyTable | DeX/src/main/java/moe/nightfall/dex/DeXTable.java:50-54 | a new table has the given tag, no entries and `isArray` true, and satisfies the table invariant |
| Tables.PutStep | DeX/src/main/java/moe/nightfall/dex/DeXTable.java:69-81 | `put` throws IllegalArgument exactly when the key or value is null or neither a table nor a primitive. Otherwise `isArray` stays true exactly when it was true and the key equals the old size, the tag is kept, and the entries are unchanged exactly when an equal entry exists, else gain the new entry at the end |
| Tables.Insert | DeX/src/main/java/moe/nightfall/dex/DeXTable.java:76 | `LinkedHashSet.add` leaves the entries unchanged exactly when an equal entry is already there, otherwise appends the entry at the end; either way an equal entry is then present |
| Tables.AddStep | DeX/src/main/java/moe/nightfall/dex/DeXTable.java:83-92 | `add` throws IllegalArgument exactly when the value is null or not storable. Otherwise the tag and `isArray` are kept, the entries stay the same exactly when an equal `(Integer(size), value)` entry is already there, and otherwise that entry is appended |
| Tables.PutStepKeepsInv | DeX/src/main/java/moe/nightfall/dex/DeXTable.java:69-81 | `put` keeps the invariant: no two equal entries, and `isArray` implies the keys are Integers 0 .. size-1 in order |
| Tables.AddStepKeepsInv | DeX/src/main/java/moe/nightfall/dex/DeXTable.java:83-92 | `add` keeps the same invariant |
| Tables.InsertKeepsInv | DeX/src/main/java/moe/nightfall/dex/DeXTable.java:76 | appending an entry with no equal entry present keeps the invariant, given that the flag stays true only for the next index key |
| Tables.AddOnArrayAppends | DeX/src/main/java/moe/nightfall/dex/DeXTable.java:83-89 | on an array table, `add(v)` appends exactly `(size, v)` and the table stays an array |
| Tables.AddsOnlyYieldArray | DeX/src/main/java/moe/nightfall/dex/DeXTable.java:94-97 | adding storable values to an array table succeeds and yields an array whose new keys run on from the old size, with the values in order |
| Tables.AddsKeepFlagOff | DeX/src/main/java/moe/nightfall/dex/DeXTable.java:83-97 | once `isArray` is false, no sequence of `add` calls sets it again |
| Tables.PutsKeepFlagOff | DeX/src/main/java/moe/nightfall/dex/DeXTable.java:99-104 | once `isArray` is false, no sequence of `put` calls sets it again |
| Tables.DuplicatePutClearsArrayFlag | DeX/src/main/java/moe/nightfall/dex/DeXTable.java:74-76 | `add("a")` then `put(0, "a")` leaves the single entry `(0, "a")` but clears `isArray` |
| Tables.NoDuplicateKeyCheck | DeX/src/main/java/moe/nightfall/dex/DeXTable.java:69-92 | `put(1, "x")` then `add("y")` stores the key 1 twice |
| Tables.DoubleZeroIsNotIndexZero | DeX/src/main/java/moe/nightfall/dex/DeXTable.java:75 | after `add(v)`, `put(0.0, v)` adds a second entry, since Double 0.0 is not Integer 0; and `put(0.0, v)` on an empty table clears `isArray`, since 0.0 does not equal the index 0 |
| Tables.DeXTable.constructor | DeX/src/main/java/moe/nightfall/dex/DeXTable.java:50-54 | the new table's content is the empty table with the given tag, and no array view is cached |
| Tables.DeXTable.Size | DeX/src/main/java/moe/nightfall/dex/DeXTable.java:113-116 | `size()` equals the size of the table's array view |
| Tables.DeXTable.IsArray | DeX/src/main/java/moe/nightfall/dex/DeXTable.java:140-150 | when `isArray()` is true, the key of entry `j` is the Integer `j` for every `j` below `size()` |
| Tables.DeXTable.Values | DeX/src/main/java/moe/nightfall/dex/DeXTable.java:133-138 | `values()` returns the view of the current content, and once cached it returns the cached view |
| Tables.DeXTable.ToDeXArray | DeX/src/main/java/moe/nightfall/dex/DeXTable.java:152-155 | `toDeXArray()` returns the same view as `values()` |
| Tables.NewBuilder | DeX/src/main/java/moe/nightfall/dex/DeXTable.java:56-59 | `builder(tag, size)` gives a fresh builder owning a fresh empty table with that tag, and a negative capacity throws IllegalArgument |
| Tables.Builder.constructor | DeX/src/main/java/moe/nightfall/dex/DeXTable.java:65-67 | the builder owns a fresh empty table with the given tag |
| Tables.Builder.Put | DeX/src/main/java/moe/nightfall/dex/DeXTable.java:69-81 | after `create()`, `put` throws IllegalState. Otherwise the table's new content is `PutStep` of the old content, or on an exception the content is unchanged |
| Tables.Builder.Add | DeX/src/main/java/moe/nightfall/dex/DeXTable.java:83-92 | after `create()`, `add` throws IllegalState. Otherwise the table's new content is `AddStep` of the old content, or on an exception the content is unchanged |
| Tables.Builder.AddAll | DeX/src/main/java/moe/nightfall/dex/DeXTable.java:94-97 | the content and outcome are those of adding each element in turn, stopping at the first exception |
| Tables.Builder.AddNext | DeX/src/main/java/moe/nightfall/dex/DeXTable.java:95 | one turn of `addAll(iterable)`'s loop: `add(vs[i])` either takes the remaining adds one element on, or throws and ends them with the content as it was |
| Tables.AddAllStepsAdvance | DeX/src/main/java/moe/nightfall/dex/DeXTable.java:94-97 | the adds from element `i` are the add of `vs[i]` followed by the adds from `i + 1`, unless that add throws, which ends the sequence there |
| Tables.Builder.AddAllMap | DeX/src/main/java/moe/nightfall/dex/DeXTable.java:99-104 | the content and outcome are those of putting each map entry in turn, stopping at the first exception |
| Tables.Builder.PutNext | DeX/src/main/java/moe/nightfall/dex/DeXTable.java:100-101 | one turn of `addAll(map)`'s loop: `put` of entry `i` either takes the remaining puts one entry on, or throws and ends them with the content as it was |
| Tables.PutAllStepsAdvance | DeX/src/main/java/moe/nightfall/dex/DeXTable.java:99-104 | the puts from entry `i` are the put of `es[i]` followed by the puts from `i + 1`, unless that put throws, which ends the sequence there |
| Tables.Builder.Create | DeX/src/main/java/moe/nightfall/dex/DeXTable.java:106-110 | `create()` returns the table the builder owned, or null on a second call, and leaves the builder without a table |
| Iterables.HasTag | DeX/src/main/java/moe/nightfall/dex/DeXIterable.java:22-24 | `hasTag()` holds exactly when the tag is not empty |
| Iterables.HasKey | DeX/src/main/java/moe/nightfall/dex/DeXIterable.java:26-28 | `hasKey(k)` throws exactly when `get(k)` throws, and otherwise holds exactly when `get(k)` is not null |
| Iterables.GetOr | DeX/src/main/java/moe/nightfall/dex/DeXIterable.java:65-70 | the default when the key is absent, the coercion of the value when it is present, and `get`'s exception when `get` throws |
| Iterables.GetTable | DeX/src/main/java/moe/nightfall/dex/DeXIterable.java:72-74 | `getTable(k)` is null exactly when `get(k)` is null, the table when the value is a table, and throws ClassCast for any other value; `get`'s exception passes through |
| Iterables.GetArray | DeX/src/main/java/moe/nightfall/dex/DeXIterable.java:76-80 | `getArray` gives the view of the value exactly when the value is a table whose `isArray()` holds. It gives null exactly when the key is absent or the table is not an array, and a value that is not a table throws ClassCast. `get`'s exception passes through |
| Iterables.CoerceToString | DeX/src/main/java/moe/nightfall/dex/DeX.java:23-40 | `coerce(String.class, o, null)` is null exactly for null, a String as it is, a number as `fmt` of its `doubleValue()`, and throws IllegalArgument exactly for a Character, a table or any other non-primitive |
| Iterables.GetString | DeX/src/main/java/moe/nightfall/dex/DeXIterable.java:86-88 | `getString(k)` is null for an absent key, a String as it is, and throws IllegalArgument for a Character, a table or any other non-primitive; `get`'s exception passes through |
| Iterables.GetStringOr | DeX/src/main/java/moe/nightfall/dex/DeXIterable.java:82-84 | `getString(k, def)` is `def` for an absent key and otherwise `getString(k)` |
| Iterables.GetDouble | DeX/src/main/java/moe/nightfall/dex/DeXIterable.java:97-102 | `getDouble(k)` throws NullPointer for an absent key, gives `doubleValue()` for a number, throws Arithmetic for anything else, and passes `get`'s exception through |
| Iterables.GetDoubleOr | DeX/src/main/java/moe/nightfall/dex/DeXIterable.java:90-95 | `getDouble(k, def)` is `def` for an absent key and otherwise `getDouble(k)` |
| Iterables.LongValue | DeX/src/main/java/moe/nightfall/dex/DeXIterable.java:125-129 | a value converts to a long exactly when it is a number whose `doubleValue()` is integral, and otherwise throws Arithmetic |
| Iterables.GetLong | DeX/src/main/java/moe/nightfall/dex/DeXIterable.java:122-130 | `getLong(k)` throws NullPointer for an absent key and otherwise is the long conversion of the value (see `LongValue`) |
| Iterables.GetLongOr | DeX/src/main/java/moe/nightfall/dex/DeXIterable.java:112-120 | `getLong(k, def)` is `def` for an absent key and otherwise `getLong(k)` |
| Iterables.Narrow | DeX/src/main/java/moe/nightfall/dex/DeXIterable.java:139-144 | the narrowing succeeds exactly when the long lies in `lo .. hi` and then returns it unchanged. Out of range it throws Arithmetic, and an earlier exception passes through |
| Iterables.GetInt | DeX/src/main/java/moe/nightfall/dex/DeXIterable.java:139-144 | `getInt(k)` is `getLong(k)` checked against the int range |
| Iterables.GetIntOr | DeX/src/main/java/moe/nightfall/dex/DeXIterable.java:132-137 | `getInt(k, def)` is `def` for an absent key and otherwise `getInt(k)` |
| Iterables.GetShort | DeX/src/main/java/moe/nightfall/dex/DeXIterable.java:167-172 | `getShort(k)` is `getLong(k)` checked against the short range |
| Iterables.GetShortOr | DeX/src/main/java/moe/nightfall/dex/DeXIterable.java:160-165 | `getShort(k, def)`, whose default is a byte, is `def` for an absent key and otherwise `getShort(k)` |
| Iterables.GetByte | DeX/src/main/java/moe/nightfall/dex/DeXIterable.java:153-158 | `getByte(k)` is `getLong(k)` checked against the byte range |
| Iterables.GetByteOr | DeX/src/main/java/moe/nightfall/dex/DeXIterable.java:146-151 | `getByte(k, def)` is `def` for an absent key and otherwise `getByte(k)` |
| Iterables.GetBoolean | DeX/src/main/java/moe/nightfall/dex/DeXIterable.java:180-182 | `getBoolean(k)` throws NullPointer for an absent key, succeeds exactly on a Boolean value and gives it, and throws ClassCast on anything else |
| Iterables.GetBooleanOr | DeX/src/main/java/moe/nightfall/dex/DeXIterable.java:174-178 | `getBoolean(k, def)` is `def` for an absent key and otherwise `getBoolean(k)` |
| Iterables.GetChar | DeX/src/main/java/moe/nightfall/dex/DeXIterable.java:193-195 | `getChar(k)` throws NullPointer for an absent key, succeeds exactly when `getString(k)` is a non-empty string, and then gives `charAt(0)`: the first UTF-16 code unit of the first character, a high surrogate above U+FFFF |
| Iterables.GetCharOr | DeX/src/main/java/moe/nightfall/dex/DeXIterable.java:184-191 | `getChar(k, def)` is `def` for an absent key. A success on a present key is a one-char string's char and agrees with `getChar(k)`. A string longer than one UTF-16 code unit throws |
| Iterables.TableHasKey | DeX/src/main/java/moe/nightfall/dex/DeXIterable.java:26-28 | a table has a key exactly when some entry's key equals it |
| Iterables.ArrayHasKey | DeX/src/main/java/moe/nightfall/dex/DeXIterable.java:26-28 | an array view answers true for an index in range and throws IndexOutOfBounds otherwise: it never answers false |
| Iterables.ArrayViewAgrees | DeX/src/main/java/moe/nightfall/dex/DeXIterable.java:18-20 | on an array table, the view and the table give the same `get`, `getLong`, `getString` and `hasTag` for every index |
| Iterables.GetLongOfSmallIntegers | DeX/src/main/java/moe/nightfall/dex/DeXIterable.java:122-130 | an Integer, Short or Byte value comes back from `getLong` unchanged |
| Iterables.GetLongOfLong | DeX/src/main/java/moe/nightfall/dex/DeXIterable.java:122-130 | a Long of magnitude at most 2^53 comes back from `getLong` unchanged |
| Iterables.GetLongRoundsBeyondSignificand | DeX/src/main/java/moe/nightfall/dex/DeXIterable.java:126-127 | the Long 2^53+1 comes back from `getLong` as 2^53, because `getLong` goes through `doubleValue()` |
| Iterables.GetLongRejectsNonIntegral | DeX/src/main/java/moe/nightfall/dex/DeXIterable.java:122-144 | a double with a fraction, NaN or an infinity makes `getLong` and `getInt` throw Arithmetic |
| Iterables.GetIntOfInteger | DeX/src/main/java/moe/nightfall/dex/DeXIterable.java:139-172 | an Integer value comes back from `getInt`, and from `getShort` exactly when it fits a short (else Arithmetic) |
| Iterables.GetCharOfCharacter | DeX/src/main/java/moe/nightfall/dex/DeXIterable.java:184-195 | a Character value makes both `getChar` forms throw IllegalArgument, because the String coercion refuses it |
| Iterables.GetCharOfString | DeX/src/main/java/moe/nightfall/dex/DeXIterable.java:184-195 | a string of one character below U+10000 gives that character. An empty string throws StringIndexOutOfBounds. Any other string gives its first code unit from `getChar(k)` and throws from `getChar(k, def)`; this includes a single character above U+FFFF |
| Iterables.SupplementaryCharIsTwoUnits | DeX/src/main/java/moe/nightfall/dex/DeXIterable.java:184-195 | the string U+1F600 is two code units: `getChar(k)` gives the high surrogate 0xD83D and `getChar(k, def)` throws "No char!" |
| Iterables.GetStringOfPrimitive | DeX/src/main/java/moe/nightfall/dex/DeX.java:28-35 | `getString` formats a number's `doubleValue()` and spells a boolean as `true`/`false` |
| Printer.Escape | DeX/src/main/java/moe/nightfall/dex/DeX.java:339-350 | `escape(c)` is non-null exactly for `" \t \n \r \f \b \\`, and is then a backslash followed by a letter that reads back as `c` |
| Printer.EscapedRoundTrip | DeX/src/main/java/moe/nightfall/dex/DeX.java:308-324 | reading back the escaped text of a string gives the string |
| Printer.QuotedInjective | DeX/src/main/java/moe/nightfall/dex/DeX.java:299-326 | distinct strings have distinct compact texts |
| Printer.PrettyStringRoundTrip | DeX/src/main/java/moe/nightfall/dex/DeX.java:305-331 | the pretty text of a string, quoted or bare, reads back as the string |
| Printer.PrettyStringBareIff | DeX/src/main/java/moe/nightfall/dex/DeX.java:307-331 | the pretty text of a string is the string itself exactly when no char of it is escape-worthy or one of `{ } : ,` |
| Printer.PlainIsEscaped | DeX/src/main/java/moe/nightfall/dex/DeX.java:308-324 | a string with no escape-worthy char is copied as it is |
| Printer.PrintString | DeX/src/main/java/moe/nightfall/dex/DeX.java:299-331 | appends the quoted escaped string in compact mode, and in pretty mode the string bare or quoted as the quoting rule says, inserting the opening quote afterwards |
| Printer.PrintObject | DeX/src/main/java/moe/nightfall/dex/DeX.java:299-337 | appends a string's text, a number's formatted `doubleValue()`, a boolean's name or a char as it is |
| Printer.PrintTable | DeX/src/main/java/moe/nightfall/dex/DeX.java:271-295 | appends exactly the compact text of the table |
| Printer.PrintEntry | DeX/src/main/java/moe/nightfall/dex/DeX.java:279-293 | appends one entry's compact text: a comma unless first, then `key:value`, or only the value in an array |
| Printer.PrintItem | DeX/src/main/java/moe/nightfall/dex/DeX.java:284-292 | appends a nested table's compact text, or the primitive's text |
| Printer.Spaces | DeX/src/main/java/moe/nightfall/dex/DeX.java:236 | `n` spaces, and none for a negative `n` |
| Printer.AppendSpaces | DeX/src/main/java/moe/nightfall/dex/DeX.java:236 | the counting loop appends exactly `n` spaces |
| Printer.PrettyPrintTable | DeX/src/main/java/moe/nightfall/dex/DeX.java:226-258 | appends exactly the pretty text of the table at the given level |
| Printer.PrettyPrintEntry | DeX/src/main/java/moe/nightfall/dex/DeX.java:235-252 | appends one entry's pretty text: an indented `key : value` line, or in an array the value after `, ` for all but the first |
| Printer.PrettyPrintItem | DeX/src/main/java/moe/nightfall/dex/DeX.java:241-249 | appends a nested table's pretty text two levels deeper, or the primitive's pretty text |
| Printer.Print | DeX/src/main/java/moe/nightfall/dex/DeX.java:265-269 | `print(table)` is the compact text of the table's content |
| Printer.PrettyPrint | DeX/src/main/java/moe/nightfall/dex/DeX.java:220-224 | `prettyPrint(table)` is the pretty text at level 2 |
| Printer.PrintMode | DeX/src/main/java/moe/nightfall/dex/DeX.java:260-263 | `print(table, pretty)` is the pretty text when asked, else the compact text |
| Braces.RunEscaped | DeX/src/main/java/moe/nightfall/dex/DeX.java:339-350 | inside quotes, an escaped string never closes the quotes: every quote in it is escaped |
| Braces.RunQuoted | DeX/src/main/java/moe/nightfall/dex/DeX.java:299-326 | a compact string text leaves a reader outside quotes at the same brace depth |
| Braces.RunPrettyString | DeX/src/main/java/moe/nightfall/dex/DeX.java:307-331 | so does a pretty string text, since a bare one holds no brace and no quote |
| Braces.RunObjText | DeX/src/main/java/moe/nightfall/dex/DeX.java:299-337 | so does the text of a primitive, when neither a char value nor the number format writes a brace or a quote |
| Braces.CompactRuns | DeX/src/main/java/moe/nightfall/dex/DeX.java:271-295 | the compact text of a table returns a reader to the depth it started at |
| Braces.CompactEntriesRun | DeX/src/main/java/moe/nightfall/dex/DeX.java:278-293 | so do the first `n` entries of the compact text |
| Braces.CompactEntryRun | DeX/src/main/java/moe/nightfall/dex/DeX.java:279-293 | so does one entry of the compact text |
| Braces.CompactItemRun | DeX/src/main/java/moe/nightfall/dex/DeX.java:284-292 | so does one key or value of the compact text |
| Braces.PrettyRuns | DeX/src/main/java/moe/nightfall/dex/DeX.java:226-258 | the pretty text of a table returns a reader to the depth it started at |
| Braces.PrettyOpeningRun | DeX/src/main/java/moe/nightfall/dex/DeX.java:227-232 | the pretty opening (tag and `{`) opens exactly one brace |
| Braces.PrettyClosingRun | DeX/src/main/java/moe/nightfall/dex/DeX.java:253-257 | the pretty closing closes exactly one brace |
| Braces.PrettyEntriesRun | DeX/src/main/java/moe/nightfall/dex/DeX.java:234-252 | the first `n` pretty entries leave the depth unchanged |
| Braces.PrettyEntryRun | DeX/src/main/java/moe/nightfall/dex/DeX.java:235-252 | one pretty entry leaves the depth unchanged |
| Braces.PrettyItemRun | DeX/src/main/java/moe/nightfall/dex/DeX.java:241-249 | one pretty key or value leaves the depth unchanged |
| Braces.PrintedBalanced | DeX/src/main/java/moe/nightfall/dex/DeX.java:220-295 | both printed forms of a table are well nested: no `}` without a `{` and none left open, outside quoted strings |
| Braces.BraceCharacterUnbalances | DeX/src/main/java/moe/nightfall/dex/DeX.java:335 | a Character `{` value is printed bare and leaves the compact text unbalanced |
| Numbers.ParseLong | DeX/src/main/java/moe/nightfall/dex/DeX.java:381 | `Long.valueOf(text, radix)` succeeds exactly when, after one optional sign, the text is a non-empty run of digits of the radix whose value is at most 2^63 - 1, or 2^63 after `-`. The value is the digits' value, negated after `-` |
| Numbers.ParseDeXNumber | DeX/src/main/java/moe/nightfall/dex/DeX.java:352-387 | the method that moves the index past the sign and the radix prefix computes `DeXNumber`, the token's value |
| Numbers.ZeroTokens | DeX/src/main/java/moe/nightfall/dex/DeX.java:358-367 | `0`, `+0` and `-0` all give 0.0 |
| Numbers.ShortTokensThrow | DeX/src/main/java/moe/nightfall/dex/DeX.java:358-365 | the empty token, `+` and `-` throw IndexOutOfBounds |
| Numbers.PrefixedToken | DeX/src/main/java/moe/nightfall/dex/DeX.java:365-381 | a token with a `0x`/`0o`/`0b` prefix is the rest read by `Long.valueOf` in radix 16/8/2, with `-` in front when the token has a minus sign |
| Numbers.SignedToken | DeX/src/main/java/moe/nightfall/dex/DeX.java:356-361 | the sign is read first: the rest of the token is read with a `-` kept in front and a `+` dropped |
| Numbers.PrefixedBody | DeX/src/main/java/moe/nightfall/dex/DeX.java:364-381 | after the sign, `0` and a radix letter hand the remaining text, behind the kept `-`, to `Long.valueOf` in that radix |
| Numbers.PrefixedValue | DeX/src/main/java/moe/nightfall/dex/DeX.java:364-381 | after a radix prefix, digits of that radix within the long range give their value as a double, negated behind a `-` |
| Numbers.UnsignedPrefixedValue | DeX/src/main/java/moe/nightfall/dex/DeX.java:352-381 | a whole unsigned token `0x`/`0o`/`0b` followed by digits within the long range gives their value as a double |
| Numbers.HexExample | DeX/src/test/java/moe/nightfall/dex/DeXNumberTest.java:26 | `0xABCDEF` gives 11259375 |
| Numbers.BinaryExample | DeX/src/test/java/moe/nightfall/dex/DeXNumberTest.java:27 | `0b110110001110001` gives 27761 |
| Numbers.OctalExample | DeX/src/test/java/moe/nightfall/dex/DeXNumberTest.java:28 | `0o777` gives 511 |
| Numbers.InvalidDigitGivesNull | DeX/src/main/java/moe/nightfall/dex/DeX.java:376-386 | a char after the prefix that is no sign and no digit of the radix makes the whole token null, never a partial value |
| Numbers.EmptyRemainderGivesNull | DeX/src/main/java/moe/nightfall/dex/DeX.java:376-386 | a radix prefix with nothing after it gives null |
| Numbers.SignAfterPrefix | DeX/src/main/java/moe/nightfall/dex/DeX.java:356-381 | `0x-5` gives -5, while `-0x-5` gives null |
| Numbers.DecimalTokens | DeX/src/main/java/moe/nightfall/dex/DeX.java:376-379 | a token without a radix prefix, other than a lone zero, goes to the decimal parser with a `+` dropped and a `-` kept |
| Numbers.ParseLongOfDigits | DeX/src/main/java/moe/nightfall/dex/DeX.java:381 | a digit string within the long range reads as its value, also after `+`, and with `-` in front as its negation. At 2^63 only the negated form reads |
| Numbers.LongMinParses | DeX/src/main/java/moe/nightfall/dex/DeX.java:381 | in every radix, `-` followed by the digits of 2^63 reads as the most negative long, and the digits alone throw |
| Numbers.RadixRoundTrip | DeX/src/main/java/moe/nightfall/dex/DeX.java:365-381 | any long from 0 upward, written in radix 16, 8 or 2 behind its prefix, parses back to its nearest double, and with a leading `-` to the nearest double of its negation |
| Queries.GetAllByTag | DeX/src/main/java/moe/nightfall/dex/DeX.java:207-218 | the loop collects exactly the matching tables in iteration order |
| Queries.GetByTag | DeX/src/main/java/moe/nightfall/dex/DeX.java:197-205 | null exactly when no element is a matching table, otherwise the first matching table, which is also the first that `getAllByTag` collects |
| Queries.MatchingMembers | DeX/src/main/java/moe/nightfall/dex/DeX.java:207-218 | a table is collected exactly when some element is that table and matches the tag (a null tag matches any table) |
| Queries.FirstMatch | DeX/src/main/java/moe/nightfall/dex/DeX.java:197-218 | the first matching element is the first table collected |
| Queries.NoneMatching | DeX/src/main/java/moe/nightfall/dex/DeX.java:197-218 | nothing is collected when no element matches |
| Queries.Ensure | DeX/src/main/java/moe/nightfall/dex/DeX.java:70-75 | `ensure` succeeds exactly on a table or a primitive. A table comes back as it is, a primitive as element 0 of a new untagged array table, and anything else throws IllegalArgument |

## Left out

- The text parser. `DeXParser.parse()` is a stub that returns null, so there is nothing to model.
- The serialization layer. This covers `coerce` towards anything but String, `decompose`, both `compose` overloads, `deserialize`, `arrayToTable`/`iterableToTable`/`mapToTable` and the whole `serialize` package. They work by reflection and class registries. The `get(type, sel, key)` accessors appear only with the String coercion, and any other coercion is a function parameter.
- `getFloat`. It is `(float) getDouble(...)`, and float rounding is not modelled.
- Number formatting and decimal parsing are parameters. `DecimalFormat("0.#")` is the parameter `fmt`. `Double.parseDouble`, which also handles NaN and Infinity, is the parameter `parseDouble`.
- Strings and chars: a string is a sequence of Unicode scalar values. Java's `length()` and `charAt` are modelled through its UTF-16 code units (`Values.Utf16`), which is all the accessors look at. A string or a Character holding a lone surrogate cannot be represented. So `Values.Obj.Character` covers only the chars that are not surrogates.
- Numbers.Digit: it models `Character.digit` on ASCII digits and letters only; the Unicode digits Java also accepts are not modelled.
- Identity. Reference identity and `hashCode` are not modelled. Created tables never change their entries, so a nested table is held as its content.
- Values.Equals: tables with equal content are treated as one object, because the `o == this` shortcut of `AbstractMap.equals` is applied to the content. For tables without repeated keys at any depth this agrees with Java; `DistinctKeysEntrywiseEqual` proves the step for one level. Two separately built tables that repeat a key are unequal in Java but equal in the model (`RepeatedKeyCopiesDiffer`). So `put(k, T1)` then `put(k, T2)`, with T1 and T2 two such copies, keeps two entries in Java and one in the model.
- Null tags and null tokens. A table's tag and the token given to `parseDeXNumber` are strings, never null. So the model leaves out these NullPointerException paths: `builder((String) null)` storing a null tag, which makes `hasTag()` throw at `tag().length()`; `getByTag`/`getAllByTag` with a non-null tag throwing at `table.tag().equals(tag)` on such a table; and `parseDeXNumber(null)` throwing at `s.toCharArray()`.
- The `LinkedHashSet` capacity hint has no effect on the content. Only a negative capacity matters, and it throws.
- Tables.Builder.Add: requires fewer than 2^31 entries, because `size()` returns an int and the auto key is an Integer. `AddAll` has the same bound.
- Tables.Builder.Put: requires that a table passed as key or value is itself a built DeXTable (`Admissible`). The same holds for `Add`, `AddAll` and `AddAllMap`. Any other table class is outside the model.
- The static `create(...)` shorthands. They are `builder(...)`, then `addAll`, then `create()`, and are covered by those methods.
- `copy()`, `toString()` and `deserialize` on a table, and `toString()` on an array. They are conversions to Java collections or delegate to modelled printing.
- `rec`. It is an unchecked generic cast, with no check at run time to model.
- `getByTag`/`getAllByTag` on `DeXIterable`. They only delegate to the `DeX` statics, which are modelled.
- `DeXTable.iterator()`. It iterates over `values()`. The ordering is modelled by `Elements`, and the cache it fills by `DeXTable.Values`.
- `StringBuilder`. It is a string threaded through the printing methods. `ensureCapacity` has no visible effect.
- Braces.PrintedBalanced: it holds only when no Character value is a brace or a quote and the number format writes neither. `BraceCharacterUnbalances` shows that the first condition is needed.
