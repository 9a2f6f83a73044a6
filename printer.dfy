/**
  The DeX printer: the compact form (`print(table)`), the indented form
  (`prettyPrint(table)`), and the string quoting both share.

  Each printing method appends to the text built so far, as the source
  appends to a StringBuilder, and is proved to append exactly the text that
  a specification function gives. Numbers are formatted by `fmt`, which
  stands for the DecimalFormat "0.#" of the source.
*/
module Printer {
  import opened Wrappers
  import opened Values
  import opened Tables

  /** The chars `escape` replaces by a backslash sequence. */
  const ESCAPED: set<char> := {'"', '\t', '\n', '\r', '\U{000C}', '\U{0008}', '\\'}

  /** The chars that, unescaped, force quotes around a pretty-printed string. */
  const STRUCTURAL: set<char> := {'{', '}', ':', ','}

  /** The char a backslash sequence `\letter` stands for (the inverse of `Escape`). */
  function Unescape(letter: char): Option<char> {
    match letter
    case '"' => Some('"')
    case 't' => Some('\t')
    case 'n' => Some('\n')
    case 'r' => Some('\r')
    case 'f' => Some('\U{000C}')
    case 'b' => Some('\U{0008}')
    case '\\' => Some('\\')
    case _ => None
  }

  /** `escape(c)`: a backslash and a letter for the seven chars of ESCAPED, nothing for the others. */
  function Escape(c: char): (r: Option<string>)
    ensures r.Some? <==> c in ESCAPED
    ensures r.Some? ==> |r.value| == 2 && r.value[0] == '\\' && Unescape(r.value[1]) == Some(c)
  {
    match c
    case '"' => Some("\\\"")
    case '\t' => Some("\\t")
    case '\n' => Some("\\n")
    case '\r' => Some("\\r")
    case '\U{000C}' => Some("\\f")
    case '\U{0008}' => Some("\\b")
    case '\\' => Some("\\\\")
    case _ => None
  }

  /** What one char of a string becomes in the printed text. */
  function EscapeChar(c: char): string {
    if Escape(c).Some? then Escape(c).value else [c]
  }

  /** A string with every char of ESCAPED replaced by its backslash sequence. */
  function Escaped(s: string): string {
    if s == [] then [] else EscapeChar(s[0]) + Escaped(s[1..])
  }

  /** Reads back a text written by `Escaped`, one backslash sequence or char at a time. */
  function Unescaped(e: string): string
    decreases |e|
  {
    if e == [] then []
    else if e[0] == '\\' && |e| >= 2 && Unescape(e[1]).Some? then [Unescape(e[1]).value] + Unescaped(e[2..])
    else [e[0]] + Unescaped(e[1..])
  }

  /** The compact form of a string: always quoted. */
  function Quoted(s: string): string {
    "\"" + Escaped(s) + "\""
  }

  /** A char that the pretty form may print bare. */
  predicate Plain(c: char) {
    c !in ESCAPED && c !in STRUCTURAL
  }

  /** Some char of `s` is escaped or structural, so the pretty form must quote it. */
  predicate NeedsQuotes(s: string) {
    exists i :: 0 <= i < |s| && !Plain(s[i])
  }

  /** The pretty form of a string: bare when nothing in it needs quoting. */
  function PrettyString(s: string): string {
    if NeedsQuotes(s) then Quoted(s) else s
  }

  function StringText(s: string, pretty: bool): string {
    if pretty then PrettyString(s) else Quoted(s)
  }

  /** The text of a primitive key, value or tag: `print(Object, sb, pretty)`. */
  function ObjText(o: Obj, pretty: bool, fmt: Fp -> string): string
    requires IsPrimitive(o)
  {
    if o.Str? then StringText(o.s, pretty)
    else if IsNumber(o) then fmt(DoubleValue(o))
    else if o.Boolean? then (if o.z then "true" else "false")
    else [o.c]
  }

  /** Appending one char's escaped form extends the escaped text. */
  lemma {:induction false} EscapedSnoc(s: string, c: char)
    ensures Escaped(s + [c]) == Escaped(s) + EscapeChar(c)
    decreases |s|
  {
    if s == [] {
      assert [c][1..] == [];
    } else {
      assert (s + [c])[0] == s[0];
      assert (s + [c])[1..] == s[1..] + [c];
      EscapedSnoc(s[1..], c);
    }
  }

  /** `Unescaped` undoes `Escaped`. */
  lemma {:induction false} EscapedRoundTrip(s: string)
    ensures Unescaped(Escaped(s)) == s
    decreases |s|
  {
    if s != [] {
      var rest := Escaped(s[1..]);
      var e := EscapeChar(s[0]) + rest;
      assert Escaped(s) == e;
      if Escape(s[0]).Some? {
        assert e[0] == '\\' && e[1] == Escape(s[0]).value[1];
        assert e[2..] == rest;
      } else {
        assert e[0] == s[0] && s[0] != '\\';
        assert e[1..] == rest;
      }
      EscapedRoundTrip(s[1..]);
    }
  }

  /** Distinct strings print as distinct compact texts. */
  lemma QuotedInjective(s: string, t: string)
    requires Quoted(s) == Quoted(t)
    ensures s == t
  {
    assert Escaped(s) == Quoted(s)[1..|Quoted(s)| - 1];
    assert Escaped(t) == Quoted(t)[1..|Quoted(t)| - 1];
    EscapedRoundTrip(s);
    EscapedRoundTrip(t);
  }

  /** Reads back a pretty-printed string: a quoted text is unescaped, a bare one is taken as it is. */
  function ReadPretty(e: string): string {
    if |e| >= 2 && e[0] == '"' && e[|e| - 1] == '"' then Unescaped(e[1..|e| - 1]) else e
  }

  /** Whether bare or quoted, the pretty form of a string reads back as that string. */
  lemma PrettyStringRoundTrip(s: string)
    ensures ReadPretty(PrettyString(s)) == s
  {
    if NeedsQuotes(s) {
      var q := Quoted(s);
      assert q[1..|q| - 1] == Escaped(s);
      EscapedRoundTrip(s);
    } else if |s| >= 2 {
      assert Plain(s[0]);
    }
  }

  /** The escaped text is never shorter than the string. */
  lemma {:induction false} EscapedLonger(s: string)
    ensures |Escaped(s)| >= |s|
    decreases |s|
  {
    if s != [] {
      EscapedLonger(s[1..]);
    }
  }

  /** The pretty form is the string itself exactly when nothing in it needs quoting. */
  lemma PrettyStringBareIff(s: string)
    ensures PrettyString(s) == s <==> !NeedsQuotes(s)
  {
    EscapedLonger(s);
  }

  /** A string with nothing to escape is its own escaped form. */
  lemma {:induction false} PlainIsEscaped(s: string)
    requires forall i :: 0 <= i < |s| ==> s[i] !in ESCAPED
    ensures Escaped(s) == s
    decreases |s|
  {
    if s != [] {
      assert s[0] !in ESCAPED;
      PlainIsEscaped(s[1..]);
    }
  }

  /**
    `print(String, sb, pretty)`: the compact form opens a quote first; the
    pretty form writes the string bare and, once it turns out to need
    quoting, inserts the opening quote where the string began.
  */
  method PrintString(s: string, sb: string, pretty: bool) returns (out: string)
    ensures out == sb + StringText(s, pretty)
  {
    var start := |sb|;
    out := sb;
    if !pretty {
      out := out + "\"";
    }
    ghost var head := out;
    var isValid := pretty;
    var i := 0;
    while i < |s|
      invariant 0 <= i <= |s|
      invariant out == head + Escaped(s[..i])
      invariant isValid <==> pretty && forall j :: 0 <= j < i ==> Plain(s[j])
    {
      var c := s[i];
      var s2 := Escape(c);
      if s2.Some? {
        out := out + s2.value;
        isValid := false;
      } else {
        if isValid && (c == '{' || c == '}' || c == ':' || c == ',') {
          isValid := false;
        }
        out := out + [c];
      }
      EscapedStep(s, i, head);
      i := i + 1;
    }
    assert s[..i] == s;
    if !pretty {
      out := out + "\"";
    } else if !isValid {
      assert NeedsQuotes(s);
      assert out[..start] == sb && out[start..] == Escaped(s);
      out := out[..start] + "\"" + out[start..];
      out := out + "\"";
    } else {
      PlainIsEscaped(s);
    }
  }

  /** One turn of the loop in `PrintString`: the escaped prefix grows by one char's form. */
  lemma EscapedStep(s: string, i: nat, head: string)
    requires i < |s|
    ensures head + Escaped(s[..i + 1]) == head + Escaped(s[..i]) + EscapeChar(s[i])
  {
    assert s[..i + 1] == s[..i] + [s[i]];
    EscapedSnoc(s[..i], s[i]);
  }

  /** `print(Object, sb, pretty)` for a key, value or tag that is not a table. */
  method PrintObject(o: Obj, sb: string, pretty: bool, fmt: Fp -> string) returns (out: string)
    requires IsPrimitive(o)
    ensures out == sb + ObjText(o, pretty, fmt)
  {
    if o.Str? {
      out := PrintString(o.s, sb, pretty);
    } else if IsNumber(o) {
      out := sb + fmt(DoubleValue(o));
    } else if o.Boolean? {
      out := sb + (if o.z then "true" else "false");
    } else {
      out := sb + [o.c];
    }
  }

  // ----- The compact form -----

  /** The compact text of a table: the quoted tag if any, then the entries in braces. */
  function Compact(t: Table, fmt: Fp -> string): string
    requires WellFormed(t)
    decreases t, 3, 0
  {
    (if |t.tag| > 0 then Quoted(t.tag) else "") + "{" + CompactEntries(t, |t.entries|, fmt) + "}"
  }

  /** The first `n` entries. */
  function CompactEntries(t: Table, n: nat, fmt: Fp -> string): string
    requires WellFormed(t) && n <= |t.entries|
    decreases t, 2, n
  {
    if n == 0 then "" else CompactEntries(t, n - 1, fmt) + CompactEntry(t, n - 1, fmt)
  }

  /** Entry `i`: a comma before all but the first, then `key:value`, or the value alone in an array. */
  function CompactEntry(t: Table, i: nat, fmt: Fp -> string): string
    requires WellFormed(t) && i < |t.entries|
    decreases t, 1, 0
  {
    (if i > 0 then "," else "")
    + (if t.isArray then "" else CompactItem(t, i, true, fmt) + ":")
    + CompactItem(t, i, false, fmt)
  }

  /** The key (or the value) of entry `i`: a nested table's compact text, or the primitive's text. */
  function CompactItem(t: Table, i: nat, ofKey: bool, fmt: Fp -> string): string
    requires WellFormed(t) && i < |t.entries|
    decreases t, 0, 0
  {
    var o := if ofKey then t.entries[i].key else t.entries[i].value;
    assert WellFormedObj(o);
    if o.Tbl? then Compact(o.t, fmt) else ObjText(o, false, fmt)
  }

  /** `print(table, sb)` */
  method PrintTable(t: Table, sb: string, fmt: Fp -> string) returns (out: string)
    requires WellFormed(t)
    ensures out == sb + Compact(t, fmt)
    decreases t, 2
  {
    ghost var opening := (if |t.tag| > 0 then Quoted(t.tag) else "") + "{";
    out := sb;
    if |t.tag| > 0 {
      out := PrintString(t.tag, out, false);
    }
    out := out + "{";
    assert out == sb + opening;
    ghost var head := out;
    var first := true;
    for i := 0 to |t.entries|
      invariant out == head + CompactEntries(t, i, fmt)
      invariant first <==> i == 0
    {
      out := PrintEntry(t, i, first, out, fmt);
      first := false;
      assert out == head + CompactEntries(t, i + 1, fmt) by {
        AppendAssoc(head, CompactEntries(t, i, fmt), CompactEntry(t, i, fmt));
      }
    }
    out := out + "}";
    Concat3(sb, opening, CompactEntries(t, |t.entries|, fmt), "}");
  }

  /** The body of the loop over the entries in `print(table, sb)`. */
  method PrintEntry(t: Table, i: nat, first: bool, sb: string, fmt: Fp -> string) returns (out: string)
    requires WellFormed(t) && i < |t.entries|
    requires first <==> i == 0
    ensures out == sb + CompactEntry(t, i, fmt)
    decreases t, 1
  {
    ghost var sepText := if i > 0 then "," else "";
    ghost var keyText := if t.isArray then "" else CompactItem(t, i, true, fmt) + ":";
    ghost var valueText := CompactItem(t, i, false, fmt);
    assert CompactEntry(t, i, fmt) == sepText + keyText + valueText;
    out := sb;
    if !first {
      out := out + ",";
    }
    assert out == sb + sepText;
    ghost var sep := out;
    if !t.isArray {
      out := PrintItem(t, i, true, out, fmt);
      out := out + ":";
    }
    assert out == sep + keyText;
    ghost var keyed := out;
    out := PrintItem(t, i, false, out, fmt);
    assert out == keyed + valueText;
    Concat3(sb, sepText, keyText, valueText);
  }

  /** Regrouping an appended text; as a lemma it is proved apart from the printing methods' larger context. */
  lemma Concat3(a: string, b: string, c: string, d: string)
    ensures ((a + b) + c) + d == a + ((b + c) + d)
  {
  }

  /** Prints the key (or the value) of entry `i`: a nested table by recursion, anything else directly. */
  method PrintItem(t: Table, i: nat, ofKey: bool, sb: string, fmt: Fp -> string) returns (out: string)
    requires WellFormed(t) && i < |t.entries|
    ensures out == sb + CompactItem(t, i, ofKey, fmt)
    decreases t, 0
  {
    var o := if ofKey then t.entries[i].key else t.entries[i].value;
    assert WellFormedObj(o);
    if o.Tbl? {
      out := PrintTable(o.t, sb, fmt);
    } else {
      out := PrintObject(o, sb, false, fmt);
    }
  }

  lemma AppendAssoc(a: string, b: string, c: string)
    ensures (a + b) + c == a + (b + c)
  {
  }

  // ----- The indented form -----

  /** `n` spaces (none for a negative `n`). */
  function Spaces(n: int): (r: string)
    ensures |r| == if n > 0 then n else 0
    ensures forall i :: 0 <= i < |r| ==> r[i] == ' '
    decreases n
  {
    if n <= 0 then "" else " " + Spaces(n - 1)
  }

  /**
    The indented text of a table at indentation `level`: a table that is
    not an array puts each entry on its own line, indented by `level`; an
    array stays on one line, its values separated by ", ".
  */
  function Pretty(t: Table, level: int, fmt: Fp -> string): string
    requires WellFormed(t)
    decreases t, 3, 0
  {
    PrettyOpening(t) + PrettyEntries(t, level, |t.entries|, fmt) + PrettyClosing(t, level)
  }

  /** The tag (bare when it can be) and the opening brace, then a line break unless an array. */
  function PrettyOpening(t: Table): string {
    (if |t.tag| > 0 then PrettyString(t.tag) + " { " else "{ ") + (if t.isArray then "" else "\n")
  }

  /** The closing brace, indented two less than the entries, or after a space in an array. */
  function PrettyClosing(t: Table, level: int): string {
    (if t.isArray then " " else if level > 0 then Spaces(level - 2) else "") + "}"
  }

  /** The first `n` entries. */
  function PrettyEntries(t: Table, level: int, n: nat, fmt: Fp -> string): string
    requires WellFormed(t) && n <= |t.entries|
    decreases t, 2, n
  {
    if n == 0 then "" else PrettyEntries(t, level, n - 1, fmt) + PrettyEntry(t, level, n - 1, fmt)
  }

  /** Entry `i`: an indented `key : value` line, or in an array the value after ", " for all but the first. */
  function PrettyEntry(t: Table, level: int, i: nat, fmt: Fp -> string): string
    requires WellFormed(t) && i < |t.entries|
    decreases t, 1, 0
  {
    (if !t.isArray && level > 0 then Spaces(level) else "")
    + (if i > 0 && t.isArray then ", " else "")
    + (if t.isArray then "" else PrettyItem(t, level, i, true, fmt) + " : ")
    + PrettyItem(t, level, i, false, fmt)
    + (if t.isArray then "" else "\n")
  }

  /** The key (or the value) of entry `i`: a nested table two deeper, or the primitive's pretty text. */
  function PrettyItem(t: Table, level: int, i: nat, ofKey: bool, fmt: Fp -> string): string
    requires WellFormed(t) && i < |t.entries|
    decreases t, 0, 0
  {
    var o := if ofKey then t.entries[i].key else t.entries[i].value;
    assert WellFormedObj(o);
    if o.Tbl? then Pretty(o.t, level + 2, fmt) else ObjText(o, true, fmt)
  }

  /** The source's `for (j = 0; j < n; j++) sb.append(" ")`. */
  method AppendSpaces(sb: string, n: int) returns (out: string)
    ensures out == sb + Spaces(n)
  {
    out := sb;
    var j := 0;
    while j < n
      invariant 0 <= j && (n > 0 ==> j <= n) && (n <= 0 ==> j == 0)
      invariant out == sb + Spaces(j)
    {
      SpacesSnoc(j);
      out := out + " ";
      j := j + 1;
    }
  }

  lemma {:induction false} SpacesSnoc(n: nat)
    ensures Spaces(n + 1) == Spaces(n) + " "
  {
    if n > 0 {
      SpacesSnoc(n - 1);
    }
  }

  /** `prettyPrint(table, sb, level)` */
  method PrettyPrintTable(t: Table, sb: string, level: int, fmt: Fp -> string) returns (out: string)
    requires WellFormed(t)
    ensures out == sb + Pretty(t, level, fmt)
    decreases t, 2
  {
    var isArray := t.isArray;
    out := sb;
    if |t.tag| > 0 {
      out := PrintString(t.tag, out, true);
      out := out + " { ";
    } else {
      out := out + "{ ";
    }
    if !isArray {
      out := out + "\n";
    }
    assert out == sb + PrettyOpening(t);
    ghost var head := out;
    var first := true;
    for i := 0 to |t.entries|
      invariant out == head + PrettyEntries(t, level, i, fmt)
      invariant first <==> i == 0
    {
      out := PrettyPrintEntry(t, level, i, first, out, fmt);
      first := false;
      assert out == head + PrettyEntries(t, level, i + 1, fmt) by {
        AppendAssoc(head, PrettyEntries(t, level, i, fmt), PrettyEntry(t, level, i, fmt));
      }
    }
    ghost var body := out;
    if !isArray {
      if level > 0 {
        out := AppendSpaces(out, level - 2);
      }
    } else {
      out := out + " ";
    }
    out := out + "}";
    assert out == body + PrettyClosing(t, level);
    Concat3(sb, PrettyOpening(t), PrettyEntries(t, level, |t.entries|, fmt), PrettyClosing(t, level));
  }

  /** The body of the loop over the entries in `prettyPrint(table, sb, level)`. */
  method PrettyPrintEntry(t: Table, level: int, i: nat, first: bool, sb: string, fmt: Fp -> string)
    returns (out: string)
    requires WellFormed(t) && i < |t.entries|
    requires first <==> i == 0
    ensures out == sb + PrettyEntry(t, level, i, fmt)
    decreases t, 1
  {
    var isArray := t.isArray;
    ghost var indent := if !isArray && level > 0 then Spaces(level) else "";
    ghost var sepText := if i > 0 && isArray then ", " else "";
    ghost var keyText := if isArray then "" else PrettyItem(t, level, i, true, fmt) + " : ";
    ghost var valueText := PrettyItem(t, level, i, false, fmt);
    ghost var lineEnd := if isArray then "" else "\n";
    out := sb;
    if !isArray && level > 0 {
      out := AppendSpaces(out, level);
    }
    if !first && isArray {
      out := out + ", ";
    }
    assert out == (sb + indent) + sepText;
    ghost var sep := out;
    if !isArray {
      out := PrettyPrintItem(t, level, i, true, out, fmt);
      out := out + " : ";
    }
    assert out == sep + keyText;
    ghost var keyed := out;
    out := PrettyPrintItem(t, level, i, false, out, fmt);
    if !isArray {
      out := out + "\n";
    }
    assert out == (keyed + valueText) + lineEnd;
    Concat5(sb, indent, sepText, keyText, valueText, lineEnd);
  }

  lemma Concat5(a: string, b: string, c: string, d: string, e: string, f: string)
    ensures ((((a + b) + c) + d) + e) + f == a + ((((b + c) + d) + e) + f)
  {
  }

  /** Prints the key (or the value) of entry `i`: a nested table by recursion, anything else directly. */
  method PrettyPrintItem(t: Table, level: int, i: nat, ofKey: bool, sb: string, fmt: Fp -> string)
    returns (out: string)
    requires WellFormed(t) && i < |t.entries|
    ensures out == sb + PrettyItem(t, level, i, ofKey, fmt)
    decreases t, 0
  {
    var o := if ofKey then t.entries[i].key else t.entries[i].value;
    assert WellFormedObj(o);
    if o.Tbl? {
      out := PrettyPrintTable(o.t, sb, level + 2, fmt);
    } else {
      out := PrintObject(o, sb, true, fmt);
    }
  }

  /** `print(table)`: the compact text alone. */
  method Print(table: DeXTable, fmt: Fp -> string) returns (s: string)
    requires table.Valid()
    ensures s == Compact(table.Content(), fmt)
  {
    s := PrintTable(table.Content(), "", fmt);
  }

  /** `prettyPrint(table)`: the indented text, starting at level 2. */
  method PrettyPrint(table: DeXTable, fmt: Fp -> string) returns (s: string)
    requires table.Valid()
    ensures s == Pretty(table.Content(), 2, fmt)
  {
    s := PrettyPrintTable(table.Content(), "", 2, fmt);
  }

  /** `print(table, pretty)` */
  method PrintMode(table: DeXTable, pretty: bool, fmt: Fp -> string) returns (s: string)
    requires table.Valid()
    ensures pretty ==> s == Pretty(table.Content(), 2, fmt)
    ensures !pretty ==> s == Compact(table.Content(), fmt)
  {
    if pretty {
      s := PrettyPrint(table, fmt);
    } else {
      s := Print(table, fmt);
    }
  }
}
