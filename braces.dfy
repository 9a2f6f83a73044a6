/**
  The printed text is well nested: reading it left to right, skipping what
  lies between quotes (where a backslash escapes the next char), every `}`
  closes an earlier `{` and every `{` is closed by the end.

  Two things the printer writes without quoting can break this: a Character
  value or key (written as the char itself) and a formatted number. The
  lemmas require that neither writes a brace or a quote.
*/
module Braces {
  import opened Wrappers
  import opened Values
  import opened Printer

  /** Where a left-to-right reader stands: open braces, inside quotes, just after a backslash. */
  datatype Scan = Scan(depth: nat, inString: bool, escaped: bool)

  function Outside(d: nat): Scan {
    Scan(d, false, false)
  }

  function Inside(d: nat): Scan {
    Scan(d, true, false)
  }

  /** One char; `None` when a `}` has no `{` to close. */
  function Step(st: Scan, c: char): Option<Scan> {
    if st.inString then
      if st.escaped then Some(Inside(st.depth))
      else if c == '\\' then Some(Scan(st.depth, true, true))
      else if c == '"' then Some(Outside(st.depth))
      else Some(st)
    else if c == '"' then Some(Inside(st.depth))
    else if c == '{' then Some(Outside(st.depth + 1))
    else if c == '}' then (if st.depth == 0 then None else Some(Outside(st.depth - 1)))
    else Some(st)
  }

  function Run(st: Scan, s: string): Option<Scan>
    decreases |s|
  {
    if s == [] then Some(st)
    else
      match Step(st, s[0])
      case None => None
      case Some(next) => Run(next, s[1..])
  }

  /** Read from the start, the text never closes an unopened brace and ends with none open. */
  predicate Balanced(s: string) {
    Run(Outside(0), s) == Some(Outside(0))
  }

  /** No brace and no quote. */
  predicate Inert(s: string) {
    forall i :: 0 <= i < |s| ==> s[i] != '{' && s[i] != '}' && s[i] != '"'
  }

  /** The number format writes no brace and no quote. */
  ghost predicate InertFormat(fmt: Fp -> string) {
    forall d :: Inert(fmt(d))
  }

  /** No Character key or value, at any depth, is a brace or a quote. */
  predicate QuietObj(o: Obj)
    decreases o
  {
    (o.Character? ==> o.c != '{' && o.c != '}' && o.c != '"') &&
    (o.Tbl? ==>
      forall i :: 0 <= i < |o.t.entries| ==> QuietObj(o.t.entries[i].key) && QuietObj(o.t.entries[i].value))
  }

  /** Reading `a + b` is reading `a`, then `b` from where `a` left off. */
  lemma {:induction false} RunConcat(st: Scan, a: string, b: string, mid: Scan)
    requires Run(st, a) == Some(mid)
    ensures Run(st, a + b) == Run(mid, b)
    decreases |a|
  {
    if a == [] {
      assert a + b == b;
    } else {
      assert (a + b)[0] == a[0];
      assert (a + b)[1..] == a[1..] + b;
      RunConcat(Step(st, a[0]).value, a[1..], b, mid);
    }
  }

  /** An inert text leaves a reader outside quotes where it was. */
  lemma {:induction false} RunInert(d: nat, s: string)
    requires Inert(s)
    ensures Run(Outside(d), s) == Some(Outside(d))
    decreases |s|
  {
    if s != [] {
      assert s[0] != '{' && s[0] != '}' && s[0] != '"';
      assert Inert(s[1..]) by {
        forall i | 0 <= i < |s[1..]|
          ensures s[1..][i] != '{' && s[1..][i] != '}' && s[1..][i] != '"'
        {
          assert s[1..][i] == s[i + 1];
        }
      }
      RunInert(d, s[1..]);
    }
  }

  /** An escaped string leaves a reader inside quotes where it was: every quote in it is escaped. */
  lemma {:induction false} RunEscaped(d: nat, s: string)
    ensures Run(Inside(d), Escaped(s)) == Some(Inside(d))
    decreases |s|
  {
    if s != [] {
      var piece := EscapeChar(s[0]);
      if Escape(s[0]).Some? {
        assert piece == [piece[0], piece[1]] && piece[0] == '\\';
        assert piece[1..] == [piece[1]] && piece[1..][1..] == [];
        assert Run(Inside(d), piece) == Some(Inside(d));
      } else {
        assert s[0] != '\\' && s[0] != '"';
        assert piece == [s[0]] && piece[1..] == [];
        assert Run(Inside(d), piece) == Some(Inside(d));
      }
      RunEscaped(d, s[1..]);
      RunConcat(Inside(d), piece, Escaped(s[1..]), Inside(d));
    }
  }

  /** A quoted string leaves a reader outside quotes where it was. */
  lemma RunQuoted(d: nat, s: string)
    ensures Run(Outside(d), Quoted(s)) == Some(Outside(d))
  {
    var q: string := "\"";
    assert Run(Outside(d), q) == Some(Inside(d));
    RunEscaped(d, s);
    RunConcat(Outside(d), q, Escaped(s), Inside(d));
    assert Run(Inside(d), q) == Some(Outside(d));
    RunConcat(Outside(d), q + Escaped(s), q, Inside(d));
  }

  /** So does a pretty-printed string: bare only when it holds no brace and no quote. */
  lemma RunPrettyString(d: nat, s: string)
    ensures Run(Outside(d), PrettyString(s)) == Some(Outside(d))
  {
    if NeedsQuotes(s) {
      RunQuoted(d, s);
    } else {
      assert Inert(s) by {
        forall i | 0 <= i < |s|
          ensures s[i] != '{' && s[i] != '}' && s[i] != '"'
        {
          assert Plain(s[i]);
        }
      }
      RunInert(d, s);
    }
  }

  /** The text of a primitive leaves a reader outside quotes where it was. */
  lemma RunObjText(d: nat, o: Obj, pretty: bool, fmt: Fp -> string)
    requires IsPrimitive(o) && QuietObj(o) && InertFormat(fmt)
    ensures Run(Outside(d), ObjText(o, pretty, fmt)) == Some(Outside(d))
  {
    if o.Str? {
      if pretty {
        RunPrettyString(d, o.s);
      } else {
        RunQuoted(d, o.s);
      }
    } else if IsNumber(o) {
      assert Inert(fmt(DoubleValue(o)));
      RunInert(d, fmt(DoubleValue(o)));
    } else {
      RunInert(d, ObjText(o, pretty, fmt));
    }
  }

  /** Two texts read one after the other. */
  lemma RunThen(st: Scan, a: string, b: string, mid: Scan, end: Scan)
    requires Run(st, a) == Some(mid) && Run(mid, b) == Some(end)
    ensures Run(st, a + b) == Some(end)
  {
    RunConcat(st, a, b, mid);
  }

  // ----- The compact form -----

  lemma CompactRuns(d: nat, t: Table, fmt: Fp -> string)
    requires WellFormed(t) && QuietObj(Tbl(t)) && InertFormat(fmt)
    ensures Run(Outside(d), Compact(t, fmt)) == Some(Outside(d))
    decreases t, 3, 0
  {
    var tagText := if |t.tag| > 0 then Quoted(t.tag) else "";
    if |t.tag| > 0 {
      RunQuoted(d, t.tag);
    }
    assert Run(Outside(d), tagText) == Some(Outside(d));
    assert Run(Outside(d), "{") == Some(Outside(d + 1));
    RunThen(Outside(d), tagText, "{", Outside(d), Outside(d + 1));
    CompactEntriesRun(d + 1, t, |t.entries|, fmt);
    RunThen(Outside(d), tagText + "{", CompactEntries(t, |t.entries|, fmt), Outside(d + 1), Outside(d + 1));
    assert Run(Outside(d + 1), "}") == Some(Outside(d));
    RunThen(Outside(d), tagText + "{" + CompactEntries(t, |t.entries|, fmt), "}", Outside(d + 1), Outside(d));
  }

  lemma CompactEntriesRun(d: nat, t: Table, n: nat, fmt: Fp -> string)
    requires WellFormed(t) && QuietObj(Tbl(t)) && InertFormat(fmt) && n <= |t.entries|
    ensures Run(Outside(d), CompactEntries(t, n, fmt)) == Some(Outside(d))
    decreases t, 2, n
  {
    if n > 0 {
      CompactEntriesRun(d, t, n - 1, fmt);
      CompactEntryRun(d, t, n - 1, fmt);
      RunThen(Outside(d), CompactEntries(t, n - 1, fmt), CompactEntry(t, n - 1, fmt), Outside(d), Outside(d));
    }
  }

  lemma CompactEntryRun(d: nat, t: Table, i: nat, fmt: Fp -> string)
    requires WellFormed(t) && QuietObj(Tbl(t)) && InertFormat(fmt) && i < |t.entries|
    ensures Run(Outside(d), CompactEntry(t, i, fmt)) == Some(Outside(d))
    decreases t, 1, 0
  {
    var sep := if i > 0 then "," else "";
    var keyText := if t.isArray then "" else CompactItem(t, i, true, fmt) + ":";
    var valueText := CompactItem(t, i, false, fmt);
    RunInert(d, sep);
    if !t.isArray {
      CompactItemRun(d, t, i, true, fmt);
      RunInert(d, ":");
      RunThen(Outside(d), CompactItem(t, i, true, fmt), ":", Outside(d), Outside(d));
    }
    CompactItemRun(d, t, i, false, fmt);
    RunThen(Outside(d), sep, keyText, Outside(d), Outside(d));
    RunThen(Outside(d), sep + keyText, valueText, Outside(d), Outside(d));
  }

  lemma CompactItemRun(d: nat, t: Table, i: nat, ofKey: bool, fmt: Fp -> string)
    requires WellFormed(t) && QuietObj(Tbl(t)) && InertFormat(fmt) && i < |t.entries|
    ensures Run(Outside(d), CompactItem(t, i, ofKey, fmt)) == Some(Outside(d))
    decreases t, 0, 0
  {
    var o := if ofKey then t.entries[i].key else t.entries[i].value;
    assert WellFormedObj(o) && QuietObj(o);
    if o.Tbl? {
      assert o == Tbl(o.t);
      CompactRuns(d, o.t, fmt);
    } else {
      RunObjText(d, o, false, fmt);
    }
  }

  // ----- The indented form -----

  lemma PrettyRuns(d: nat, t: Table, level: int, fmt: Fp -> string)
    requires WellFormed(t) && QuietObj(Tbl(t)) && InertFormat(fmt)
    ensures Run(Outside(d), Pretty(t, level, fmt)) == Some(Outside(d))
    decreases t, 3, 0
  {
    PrettyOpeningRun(d, t);
    PrettyEntriesRun(d + 1, t, level, |t.entries|, fmt);
    RunThen(Outside(d), PrettyOpening(t), PrettyEntries(t, level, |t.entries|, fmt), Outside(d + 1), Outside(d + 1));
    PrettyClosingRun(d, t, level);
    RunThen(Outside(d), PrettyOpening(t) + PrettyEntries(t, level, |t.entries|, fmt), PrettyClosing(t, level),
      Outside(d + 1), Outside(d));
  }

  lemma PrettyOpeningRun(d: nat, t: Table)
    ensures Run(Outside(d), PrettyOpening(t)) == Some(Outside(d + 1))
  {
    var tagText := if |t.tag| > 0 then PrettyString(t.tag) + " { " else "{ ";
    var lineBreak := if t.isArray then "" else "\n";
    if |t.tag| > 0 {
      RunPrettyString(d, t.tag);
      assert Run(Outside(d), " { ") == Some(Outside(d + 1));
      RunThen(Outside(d), PrettyString(t.tag), " { ", Outside(d), Outside(d + 1));
    } else {
      assert Run(Outside(d), "{ ") == Some(Outside(d + 1));
    }
    RunInert(d + 1, lineBreak);
    RunThen(Outside(d), tagText, lineBreak, Outside(d + 1), Outside(d + 1));
  }

  lemma PrettyClosingRun(d: nat, t: Table, level: int)
    ensures Run(Outside(d + 1), PrettyClosing(t, level)) == Some(Outside(d))
  {
    var indent := if t.isArray then " " else if level > 0 then Spaces(level - 2) else "";
    RunInert(d + 1, indent);
    assert Run(Outside(d + 1), "}") == Some(Outside(d));
    RunThen(Outside(d + 1), indent, "}", Outside(d + 1), Outside(d));
  }

  lemma PrettyEntriesRun(d: nat, t: Table, level: int, n: nat, fmt: Fp -> string)
    requires WellFormed(t) && QuietObj(Tbl(t)) && InertFormat(fmt) && n <= |t.entries|
    ensures Run(Outside(d), PrettyEntries(t, level, n, fmt)) == Some(Outside(d))
    decreases t, 2, n
  {
    if n > 0 {
      PrettyEntriesRun(d, t, level, n - 1, fmt);
      PrettyEntryRun(d, t, level, n - 1, fmt);
      RunThen(Outside(d), PrettyEntries(t, level, n - 1, fmt), PrettyEntry(t, level, n - 1, fmt),
        Outside(d), Outside(d));
    }
  }

  lemma PrettyEntryRun(d: nat, t: Table, level: int, i: nat, fmt: Fp -> string)
    requires WellFormed(t) && QuietObj(Tbl(t)) && InertFormat(fmt) && i < |t.entries|
    ensures Run(Outside(d), PrettyEntry(t, level, i, fmt)) == Some(Outside(d))
    decreases t, 1, 0
  {
    var indent := if !t.isArray && level > 0 then Spaces(level) else "";
    var sep := if i > 0 && t.isArray then ", " else "";
    var keyText := if t.isArray then "" else PrettyItem(t, level, i, true, fmt) + " : ";
    var valueText := PrettyItem(t, level, i, false, fmt);
    var lineEnd := if t.isArray then "" else "\n";
    RunInert(d, indent);
    RunInert(d, sep);
    RunInert(d, lineEnd);
    if !t.isArray {
      PrettyItemRun(d, t, level, i, true, fmt);
      RunInert(d, " : ");
      RunThen(Outside(d), PrettyItem(t, level, i, true, fmt), " : ", Outside(d), Outside(d));
    }
    PrettyItemRun(d, t, level, i, false, fmt);
    RunThen(Outside(d), indent, sep, Outside(d), Outside(d));
    RunThen(Outside(d), indent + sep, keyText, Outside(d), Outside(d));
    RunThen(Outside(d), indent + sep + keyText, valueText, Outside(d), Outside(d));
    RunThen(Outside(d), indent + sep + keyText + valueText, lineEnd, Outside(d), Outside(d));
  }

  lemma PrettyItemRun(d: nat, t: Table, level: int, i: nat, ofKey: bool, fmt: Fp -> string)
    requires WellFormed(t) && QuietObj(Tbl(t)) && InertFormat(fmt) && i < |t.entries|
    ensures Run(Outside(d), PrettyItem(t, level, i, ofKey, fmt)) == Some(Outside(d))
    decreases t, 0, 0
  {
    var o := if ofKey then t.entries[i].key else t.entries[i].value;
    assert WellFormedObj(o) && QuietObj(o);
    if o.Tbl? {
      assert o == Tbl(o.t);
      PrettyRuns(d, o.t, level + 2, fmt);
    } else {
      RunObjText(d, o, true, fmt);
    }
  }

  /** Both printed forms of a table are well nested. */
  lemma PrintedBalanced(t: Table, level: int, fmt: Fp -> string)
    requires WellFormed(t) && QuietObj(Tbl(t)) && InertFormat(fmt)
    ensures Balanced(Compact(t, fmt))
    ensures Balanced(Pretty(t, level, fmt))
  {
    CompactRuns(0, t, fmt);
    PrettyRuns(0, t, level, fmt);
  }

  /** A Character value `{` is printed bare and leaves the compact text unbalanced. */
  lemma BraceCharacterUnbalances(fmt: Fp -> string)
    ensures !Balanced(Compact(Table("", [Entry(Integer(0), Character('{'))], true), fmt))
  {
    var t := Table("", [Entry(Integer(0), Character('{'))], true);
    assert WellFormedObj(t.entries[0].value);
    assert CompactItem(t, 0, false, fmt) == "{";
    assert CompactEntry(t, 0, fmt) == "{";
    assert CompactEntries(t, 1, fmt) == "{";
    assert Compact(t, fmt) == "{{}";
    assert Run(Outside(0), "{{}") == Some(Outside(1));
  }
}
