/** The guard's parser against the compose tree it reads, for every layout the tree can be printed in. */
module ComposeLaws {
  import opened Results
  import opened Compose

  // ----- compose trees and their printed forms -----

  /** A mapping's value: a scalar; the empty mapping `{}`; a nested mapping, indented by `shift` relative to its
      key; or a list, whose dashes are indented by `dash`.  Every block chooses its own indent. */
  datatype Node =
    | Scalar(text: string)
    | Braces
    | Nested(shift: nat, entries: seq<Entry>)
    | Items(dash: nat, items: seq<Item>)

  datatype Entry = Entry(key: string, node: Node)

  /** A list item: a scalar, or a mapping whose first line carries the dash. */
  datatype Item = Word(text: string) | Dashed(entries: seq<Entry>)

  predicate IsName(s: string) { s != "" && forall i | 0 <= i < |s| :: IsKeyChar(s[i]) }

  predicate IsText(s: string) {
    s != "" && s != "{}" && !IsSpace(s[0]) && !IsSpace(s[|s| - 1])
  }

  /** The text starts with key characters and a colon, as a key with a value does. */
  predicate Splits(text: string) {
    var n := KeyEnd(text);
    0 < n < |text| && text[n] == ':'
  }

  function SplitKey(text: string): string
    requires Splits(text)
  {
    text[..KeyEnd(text)]
  }

  function SplitValue(text: string): string
    requires Splits(text)
  {
    text[KeyEnd(text) + 1..]
  }

  /** A scalar item; one that ended in a colon, or had a blank after it, would be a mapping. */
  predicate IsWord(text: string) {
    && text != "" && !IsSpace(text[0]) && !IsSpace(text[|text| - 1])
    && (Splits(text) ==> SplitValue(text) != "" && !IsSpace(SplitValue(text)[0]))
  }

  predicate Printable(entries: seq<Entry>) { forall e | e in entries :: PrintableEntry(e) }

  predicate PrintableEntry(e: Entry) {
    IsName(e.key) &&
    match e.node
    case Scalar(text) => IsText(text)
    case Braces => true
    case Nested(shift, entries) => shift > 0 && forall x | x in entries :: PrintableEntry(x)
    case Items(_, items) => forall x | x in items :: PrintableItem(x)
  }

  predicate PrintableItem(x: Item) {
    match x
    case Word(text) => IsWord(text)
    case Dashed(entries) => entries != [] && forall e | e in entries :: PrintableEntry(e)
  }

  function Spaces(n: nat): (s: string)
    ensures |s| == n
  {
    if n == 0 then "" else " " + Spaces(n - 1)
  }

  function KeyLine(indent: nat, key: string): string { Spaces(indent) + (key + ":") }

  function ValueLine(indent: nat, key: string, text: string): string { Spaces(indent) + (key + ": " + text) }

  function Print(indent: nat, entries: seq<Entry>): (lines: seq<string>)
    ensures entries != [] ==> lines != [] && |lines[0]| >= indent
    decreases entries, 1
  {
    if entries == [] then [] else PrintEntry(indent, entries[0]) + Print(indent, entries[1..])
  }

  function PrintEntry(indent: nat, e: Entry): (lines: seq<string>)
    ensures lines != [] && |lines[0]| >= indent
    decreases e, 0
  {
    match e.node
    case Scalar(text) => [ValueLine(indent, e.key, text)]
    case Braces => [ValueLine(indent, e.key, "{}")]
    case Nested(shift, entries) => [KeyLine(indent, e.key)] + Print(indent + shift, entries)
    case Items(dash, items) => [KeyLine(indent, e.key)] + PrintItems(indent + dash, items)
  }

  function PrintItems(dash: nat, items: seq<Item>): seq<string>
    decreases items, 1
  {
    if items == [] then [] else PrintItem(dash, items[0]) + PrintItems(dash, items[1..])
  }

  function DashLine(dash: nat, text: string): string { Spaces(dash) + ("- " + text) }

  /** A mapping is printed like any block two columns further in, with the dash in front of its first key. */
  function PrintItem(dash: nat, x: Item): seq<string>
    decreases x, 0
  {
    match x
    case Word(text) => [DashLine(dash, text)]
    case Dashed(entries) =>
      if entries == [] then [] else
      var lines := Print(dash + 2, entries);
      [DashLine(dash, lines[0][dash + 2..])] + lines[1..]
  }

  // ----- what the tree says, with no lines and no indents -----

  /** A key or list item under its true ancestors. */
  datatype Occurrence = Occurrence(path: seq<string>, key: string, val: Option<string>)

  /** With `read` set, the occurrences as the parser takes them: it splits a scalar item that looks like a key with
      a value. */
  function WordOccurrence(read: bool, path: seq<string>, text: string): Occurrence {
    if read && Splits(text) then Occurrence(path, SplitKey(text), Some(SplitValue(text)))
    else Occurrence(path, text, None)
  }

  function Occurrences(read: bool, path: seq<string>, entries: seq<Entry>): seq<Occurrence>
    decreases entries, 1
  {
    if entries == [] then [] else EntryOccurrences(read, path, entries[0]) + Occurrences(read, path, entries[1..])
  }

  function EntryOccurrences(read: bool, path: seq<string>, e: Entry): seq<Occurrence>
    decreases e, 0
  {
    match e.node
    case Scalar(text) => [Occurrence(path, e.key, Some(text))]
    case Braces => [Occurrence(path, e.key, Some("{}"))]
    case Nested(_, entries) => [Occurrence(path, e.key, Some(""))] + Occurrences(read, path + [e.key], entries)
    case Items(_, items) => [Occurrence(path, e.key, Some(""))] + ItemsOccurrences(read, path + [e.key], items)
  }

  function ItemsOccurrences(read: bool, path: seq<string>, items: seq<Item>): seq<Occurrence>
    decreases items, 1
  {
    if items == [] then [] else ItemOccurrences(read, path, items[0]) + ItemsOccurrences(read, path, items[1..])
  }

  function ItemOccurrences(read: bool, path: seq<string>, x: Item): seq<Occurrence>
    decreases x, 0
  {
    match x
    case Word(text) => [WordOccurrence(read, path, text)]
    case Dashed(entries) => Occurrences(read, path, entries)
  }

  function NoteAll(file: string, f: Facts, os: seq<Occurrence>): Facts
    decreases os
  {
    if os == [] then f else NoteAll(file, Note(file, f, os[0].path, os[0].key, os[0].val), os[1..])
  }

  lemma NoteCons(file: string, f: Facts, o: Occurrence, os: seq<Occurrence>)
    ensures NoteAll(file, f, [o] + os) == NoteAll(file, Note(file, f, o.path, o.key, o.val), os)
  {
    assert ([o] + os)[1..] == os;
  }

  lemma {:induction false} NoteAllCat(file: string, f: Facts, os: seq<Occurrence>, more: seq<Occurrence>)
    ensures NoteAll(file, f, os + more) == NoteAll(file, NoteAll(file, f, os), more)
    decreases os
  {
    if os == [] {
      assert os + more == more;
    } else {
      assert (os + more)[1..] == os[1..] + more;
      NoteAllCat(file, Note(file, f, os[0].path, os[0].key, os[0].val), os[1..], more);
    }
  }

  // ----- one printed line -----

  lemma {:induction false} SpacesThen(n: nat, body: string)
    requires body != "" && !IsSpace(body[0])
    ensures LeadingSpaces(Spaces(n) + body) == n && StripLeft(Spaces(n) + body) == body
  {
    if n == 0 {
      assert Spaces(n) + body == body;
    } else {
      SpacesThen(n - 1, body);
      assert (Spaces(n) + body)[1..] == Spaces(n - 1) + body;
    }
  }

  lemma {:induction false} KeyEndThen(key: string, rest: string)
    requires (forall i | 0 <= i < |key| :: IsKeyChar(key[i])) && (rest == "" || !IsKeyChar(rest[0]))
    ensures KeyEnd(key + rest) == |key|
  {
    if key == "" {
      assert key + rest == rest;
    } else {
      KeyEndThen(key[1..], rest);
      assert (key + rest)[1..] == key[1..] + rest;
    }
  }

  lemma StripLine(n: nat, body: string)
    requires body != "" && !IsSpace(body[0]) && !IsSpace(body[|body| - 1])
    ensures Strip(Spaces(n) + body) == body && LeadingSpaces(Spaces(n) + body) == n
  {
    SpacesThen(n, body);
  }

  lemma KeyBody(key: string, tail: string)
    requires IsName(key)
    ensures
      var body := key + (":" + tail);
      && body != "" && body[0] == key[0] && body[|body| - 1] == (":" + tail)[|tail|]
      && |body| >= 2 && !(body[0] == '-' && body[1] == ' ')
      && KeyEnd(body) == |key| && |key| < |body|
      && body[|key|] == ':' && body[..|key|] == key && body[|key| + 1..] == tail
  {
    var rest := ":" + tail;
    var body := key + rest;
    assert body[|body| - 1] == rest[|rest| - 1];
    assert body[1] == (if |key| > 1 then key[1] else ':');
    KeyEndThen(key, rest);
  }

  /** `key:` followed by nothing, or by a space and a value. */
  lemma LexKey(n: nat, key: string, tail: string)
    requires IsName(key)
    requires tail == "" || (|tail| >= 2 && tail[0] == ' ' && !IsSpace(tail[1]) && !IsSpace(tail[|tail| - 1]))
    ensures Lex(Spaces(n) + (key + (":" + tail))) == Says(n, key, Some(if tail == "" then "" else tail[1..]))
  {
    KeyBody(key, tail);
    StripLine(n, key + (":" + tail));
    StripTail(tail);
  }

  lemma StripTail(tail: string)
    requires tail == "" || (|tail| >= 2 && tail[0] == ' ' && !IsSpace(tail[1]) && !IsSpace(tail[|tail| - 1]))
    ensures Strip(tail) == if tail == "" then "" else tail[1..]
  {
    if tail != "" { assert StripLeft(tail) == StripLeft(tail[1..]) == tail[1..]; }
  }

  lemma StripDash(n: nat, text: string)
    requires text != "" && !IsSpace(text[|text| - 1])
    ensures
      var body := "- " + text;
      && Strip(DashLine(n, text)) == body && LeadingSpaces(DashLine(n, text)) == n
      && body[0] == '-' && body[1] == ' ' && body[2..] == text
  {
    var body := "- " + text;
    assert body[2..] == text && body[|body| - 1] == text[|text| - 1];
    StripLine(n, body);
  }

  lemma {:induction false} KeyEndChars(s: string)
    ensures forall i | 0 <= i < KeyEnd(s) :: IsKeyChar(s[i])
    ensures KeyEnd(s) < |s| ==> !IsKeyChar(s[KeyEnd(s)])
  {
    if s != "" && IsKeyChar(s[0]) {
      KeyEndChars(s[1..]);
    }
  }

  lemma StripWhole(s: string)
    requires s != "" && !IsSpace(s[0]) && !IsSpace(s[|s| - 1])
    ensures Strip(s) == s
  {
  }

  /** A scalar item: its text, or what it splits into. */
  lemma LexWord(n: nat, text: string)
    requires IsWord(text)
    ensures Lex(DashLine(n, text)) ==
      if Splits(text) then Says(n + 2, SplitKey(text), Some(SplitValue(text))) else Says(n + 2, text, None)
  {
    StripDash(n, text);
    if Splits(text) {
      assert SplitValue(text)[|SplitValue(text)| - 1] == text[|text| - 1];
      StripWhole(SplitValue(text));
    }
  }

  /** A key behind a dash says what it says two columns further in without it. */
  lemma LexDashedKey(n: nat, key: string, tail: string)
    requires IsName(key)
    requires tail == "" || (|tail| >= 2 && tail[0] == ' ' && !IsSpace(tail[1]) && !IsSpace(tail[|tail| - 1]))
    ensures Lex(DashLine(n, key + (":" + tail))) == Says(n + 2, key, Some(if tail == "" then "" else tail[1..]))
  {
    KeyBody(key, tail);
    StripDash(n, key + (":" + tail));
    StripTail(tail);
  }

  lemma LexDashedFirst(n: nat, entries: seq<Entry>)
    requires Printable(entries) && entries != []
    ensures var line := Print(n + 2, entries)[0]; Lex(DashLine(n, line[n + 2..])) == Lex(line)
  {
    var e := entries[0];
    assert e in entries;
    var line := Print(n + 2, entries)[0];
    assert line == PrintEntry(n + 2, e)[0];
    var tail := match e.node case Scalar(text) => " " + text case Braces => " {}" case _ => "";
    FirstLine(n + 2, e, tail);
    assert line[n + 2..] == e.key + (":" + tail);
    LexKey(n + 2, e.key, tail);
    LexDashedKey(n, e.key, tail);
  }

  lemma FirstLine(indent: nat, e: Entry, tail: string)
    requires tail == match e.node case Scalar(text) => " " + text case Braces => " {}" case _ => ""
    ensures PrintEntry(indent, e)[0] == Spaces(indent) + (e.key + (":" + tail))
  {
    match e.node {
      case Scalar(text) => assert e.key + ": " + text == e.key + (":" + (" " + text));
      case Braces => assert e.key + ": " + "{}" == e.key + (":" + " {}");
      case _ => assert ":" + "" == ":";
    }
  }

  lemma LexNested(n: nat, key: string)
    requires IsName(key)
    ensures Lex(KeyLine(n, key)) == Says(n, key, Some(""))
  {
    LexKey(n, key, "");
    assert ":" + "" == ":";
  }

  lemma LexScalar(n: nat, key: string, text: string)
    requires IsName(key) && text != "" && !IsSpace(text[0]) && !IsSpace(text[|text| - 1])
    ensures Lex(ValueLine(n, key, text)) == Says(n, key, Some(text))
  {
    LexKey(n, key, " " + text);
    assert key + (":" + (" " + text)) == key + ": " + text;
    assert (" " + text)[1..] == text;
  }

  // ----- the stack -----

  predicate Below(stack: seq<Open>, indent: nat) { forall i | 0 <= i < |stack| :: stack[i].indent < indent }

  predicate AtLeast(stack: seq<Open>, indent: nat) { forall i | 0 <= i < |stack| :: stack[i].indent >= indent }

  /** Popping to an indent removes exactly what was opened at it or deeper. */
  lemma {:induction false} PopsJunk(base: seq<Open>, junk: seq<Open>, indent: nat)
    requires Below(base, indent) && AtLeast(junk, indent)
    ensures PopTo(base + junk, indent) == base
    decreases |junk|
  {
    if junk == [] {
      assert base + junk == base;
    } else {
      assert (base + junk)[..|base + junk| - 1] == base + junk[..|junk| - 1];
      PopsJunk(base, junk[..|junk| - 1], indent);
    }
  }

  lemma {:induction false} RunCat(file: string, st: State, xs: seq<Line>, ys: seq<Line>)
    ensures Run(file, st, xs + ys) == Run(file, Run(file, st, xs), ys)
    decreases xs
  {
    if xs == [] {
      assert xs + ys == ys;
    } else {
      assert (xs + ys)[1..] == xs[1..] + ys;
      RunCat(file, Step(file, st, xs[0]), xs[1..], ys);
    }
  }

  lemma RunOne(file: string, st: State, line: Line)
    ensures Run(file, st, [line]) == Step(file, st, line)
  {
    assert [line][1..] == [];
    assert Run(file, Step(file, st, line), []) == Step(file, st, line);
  }

  lemma {:induction false} LexCat(xs: seq<string>, ys: seq<string>)
    ensures LexAll(xs + ys) == LexAll(xs) + LexAll(ys)
  {
    if xs == [] {
      assert xs + ys == ys;
    } else {
      LexCat(xs[1..], ys);
      assert (xs + ys)[1..] == xs[1..] + ys;
      var l, m, n := [Lex(xs[0])], LexAll(xs[1..]), LexAll(ys);
      assert l + (m + n) == (l + m) + n;
    }
  }

  lemma LexOne(x: string)
    ensures LexAll([x]) == [Lex(x)]
  {
    assert [x][1..] == [];
  }

  lemma {:induction false} RunItems(file: string, base: seq<Open>, junk: seq<Open>, facts: Facts, dash: nat,
      items: seq<Item>)
    returns (left: seq<Open>)
    requires Below(base, dash + 2) && AtLeast(junk, dash + 2) && forall x | x in items :: PrintableItem(x)
    ensures AtLeast(left, dash + 2)
    ensures Run(file, State(base + junk, facts), LexAll(PrintItems(dash, items)))
         == State(base + left, NoteAll(file, facts, ItemsOccurrences(true, KeysOf(base), items)))
    decreases items, 1
  {
    if items == [] {
      left := junk;
    } else {
      var x := items[0];
      assert x in items && forall y | y in items[1..] :: y in items;
      var mid := RunItem(file, base, junk, facts, dash, x);
      var os := ItemOccurrences(true, KeysOf(base), x);
      LexCat(PrintItem(dash, x), PrintItems(dash, items[1..]));
      RunCat(file, State(base + junk, facts), LexAll(PrintItem(dash, x)), LexAll(PrintItems(dash, items[1..])));
      left := RunItems(file, base, mid, NoteAll(file, facts, os), dash, items[1..]);
      NoteAllCat(file, facts, os, ItemsOccurrences(true, KeysOf(base), items[1..]));
    }
  }

  lemma {:induction false} RunItem(file: string, base: seq<Open>, junk: seq<Open>, facts: Facts, dash: nat, x: Item)
    returns (left: seq<Open>)
    requires Below(base, dash + 2) && AtLeast(junk, dash + 2) && PrintableItem(x)
    ensures AtLeast(left, dash + 2)
    ensures Run(file, State(base + junk, facts), LexAll(PrintItem(dash, x)))
         == State(base + left, NoteAll(file, facts, ItemOccurrences(true, KeysOf(base), x)))
    decreases x, 0
  {
    match x {
      case Word(text) =>
        left := RunWord(file, base, junk, facts, dash, text);
      case Dashed(entries) =>
        DashedLines(dash, entries);
        left := RunBlock(file, base, junk, facts, dash + 2, entries);
    }
  }

  lemma DashedLines(dash: nat, entries: seq<Entry>)
    requires entries != [] && Printable(entries)
    ensures LexAll(PrintItem(dash, Dashed(entries))) == LexAll(Print(dash + 2, entries))
  {
    var lines := Print(dash + 2, entries);
    LexDashedFirst(dash, entries);
    assert PrintItem(dash, Dashed(entries))[1..] == lines[1..];
  }

  lemma RunWord(file: string, base: seq<Open>, junk: seq<Open>, facts: Facts, dash: nat, text: string)
    returns (left: seq<Open>)
    requires Below(base, dash + 2) && AtLeast(junk, dash + 2) && IsWord(text)
    ensures AtLeast(left, dash + 2)
    ensures Run(file, State(base + junk, facts), LexAll([DashLine(dash, text)]))
         == State(base + left, NoteAll(file, facts, [WordOccurrence(true, KeysOf(base), text)]))
  {
    var line := DashLine(dash, text);
    LexWord(dash, text);
    LexOne(line);
    RunOne(file, State(base + junk, facts), Lex(line));
    PopsJunk(base, junk, dash + 2);
    NoteOne(file, facts, WordOccurrence(true, KeysOf(base), text));
    left := if Splits(text) && SplitValue(text) == "{}" then [Open(dash + 2, SplitKey(text))] else [];
    assert base + [] == base;
  }

  /** The parser runs over a printed block and sees each of its keys under its true ancestors; what it leaves
      open on the stack lies at the block's own indent or deeper. */
  lemma {:induction false} RunBlock(file: string, base: seq<Open>, junk: seq<Open>, facts: Facts, indent: nat,
      entries: seq<Entry>)
    returns (left: seq<Open>)
    requires Below(base, indent) && AtLeast(junk, indent) && Printable(entries)
    ensures AtLeast(left, indent)
    ensures Run(file, State(base + junk, facts), LexAll(Print(indent, entries)))
         == State(base + left, NoteAll(file, facts, Occurrences(true, KeysOf(base), entries)))
    decreases entries, 1
  {
    if entries == [] {
      left := junk;
    } else {
      var e := entries[0];
      assert e in entries && forall x | x in entries[1..] :: x in entries;
      var mid := RunEntry(file, base, junk, facts, indent, e);
      var os := EntryOccurrences(true, KeysOf(base), e);
      LexCat(PrintEntry(indent, e), Print(indent, entries[1..]));
      RunCat(file, State(base + junk, facts), LexAll(PrintEntry(indent, e)), LexAll(Print(indent, entries[1..])));
      left := RunBlock(file, base, mid, NoteAll(file, facts, os), indent, entries[1..]);
      NoteAllCat(file, facts, os, Occurrences(true, KeysOf(base), entries[1..]));
    }
  }

  /** The line that opens a mapping or a list. */
  lemma RunOpening(file: string, base: seq<Open>, junk: seq<Open>, facts: Facts, indent: nat, key: string,
      rest: seq<string>)
    requires Below(base, indent) && AtLeast(junk, indent) && IsName(key)
    ensures Run(file, State(base + junk, facts), LexAll([KeyLine(indent, key)] + rest))
         == Run(file, State(base + [Open(indent, key)], Note(file, facts, KeysOf(base), key, Some(""))), LexAll(rest))
    ensures KeysOf(base + [Open(indent, key)]) == KeysOf(base) + [key]
  {
    var line := KeyLine(indent, key);
    LexNested(indent, key);
    LexCat([line], rest);
    LexOne(line);
    RunCat(file, State(base + junk, facts), [Lex(line)], LexAll(rest));
    RunOne(file, State(base + junk, facts), Lex(line));
    PopsJunk(base, junk, indent);
  }

  /** A line with its value on it. */
  lemma RunScalar(file: string, base: seq<Open>, junk: seq<Open>, facts: Facts, indent: nat, key: string, text: string)
    returns (left: seq<Open>)
    requires Below(base, indent) && AtLeast(junk, indent) && IsName(key)
    requires text != "" && !IsSpace(text[0]) && !IsSpace(text[|text| - 1])
    ensures AtLeast(left, indent)
    ensures Run(file, State(base + junk, facts), LexAll([ValueLine(indent, key, text)]))
         == State(base + left, Note(file, facts, KeysOf(base), key, Some(text)))
  {
    var line := ValueLine(indent, key, text);
    LexScalar(indent, key, text);
    LexOne(line);
    RunOne(file, State(base + junk, facts), Lex(line));
    PopsJunk(base, junk, indent);
    left := if text == "{}" then [Open(indent, key)] else [];
    assert base + [] == base;
  }

  lemma {:induction false} RunEntry(file: string, base: seq<Open>, junk: seq<Open>, facts: Facts, indent: nat, e: Entry)
    returns (left: seq<Open>)
    requires Below(base, indent) && AtLeast(junk, indent) && PrintableEntry(e)
    ensures AtLeast(left, indent)
    ensures Run(file, State(base + junk, facts), LexAll(PrintEntry(indent, e)))
         == State(base + left, NoteAll(file, facts, EntryOccurrences(true, KeysOf(base), e)))
    decreases e, 0
  {
    if e.node.Nested? {
      left := RunNestedEntry(file, base, junk, facts, indent, e);
    } else if e.node.Items? {
      left := RunItemsEntry(file, base, junk, facts, indent, e);
    } else {
      left := RunLeaf(file, base, junk, facts, indent, e);
    }
  }

  lemma RunLeaf(file: string, base: seq<Open>, junk: seq<Open>, facts: Facts, indent: nat, e: Entry)
    returns (left: seq<Open>)
    requires Below(base, indent) && AtLeast(junk, indent) && PrintableEntry(e) && (e.node.Scalar? || e.node.Braces?)
    ensures AtLeast(left, indent)
    ensures Run(file, State(base + junk, facts), LexAll(PrintEntry(indent, e)))
         == State(base + left, NoteAll(file, facts, EntryOccurrences(true, KeysOf(base), e)))
  {
    var text := if e.node.Scalar? then e.node.text else "{}";
    left := RunScalar(file, base, junk, facts, indent, e.key, text);
    NoteOne(file, facts, Occurrence(KeysOf(base), e.key, Some(text)));
  }

  lemma {:induction false} RunItemsEntry(file: string, base: seq<Open>, junk: seq<Open>, facts: Facts, indent: nat,
      e: Entry)
    returns (left: seq<Open>)
    requires Below(base, indent) && AtLeast(junk, indent) && PrintableEntry(e) && e.node.Items?
    ensures AtLeast(left, indent)
    ensures Run(file, State(base + junk, facts), LexAll(PrintEntry(indent, e)))
         == State(base + left, NoteAll(file, facts, EntryOccurrences(true, KeysOf(base), e)))
    decreases e.node, 3
  {
    var open, items, dash := Open(indent, e.key), e.node.items, indent + e.node.dash;
    var noted := Note(file, facts, KeysOf(base), e.key, Some(""));
    RunOpening(file, base, junk, facts, indent, e.key, PrintItems(dash, items));
    BelowPush(base, open, dash + 2);
    var inner := RunItems(file, base + [open], [], noted, dash, items);
    assert (base + [open]) + [] == base + [open];
    left := [open] + inner;
    LeftJoin(base, open, inner, dash + 2);
    NoteCons(file, facts, Occurrence(KeysOf(base), e.key, Some("")),
      ItemsOccurrences(true, KeysOf(base) + [e.key], items));
    assert PrintEntry(indent, e) == [KeyLine(indent, e.key)] + PrintItems(dash, items);
    assert EntryOccurrences(true, KeysOf(base), e) ==
      [Occurrence(KeysOf(base), e.key, Some(""))] + ItemsOccurrences(true, KeysOf(base) + [e.key], items);
  }

  lemma {:induction false} RunNestedEntry(file: string, base: seq<Open>, junk: seq<Open>, facts: Facts, indent: nat,
      e: Entry)
    returns (left: seq<Open>)
    requires Below(base, indent) && AtLeast(junk, indent) && PrintableEntry(e) && e.node.Nested?
    ensures AtLeast(left, indent)
    ensures Run(file, State(base + junk, facts), LexAll(PrintEntry(indent, e)))
         == State(base + left, NoteAll(file, facts, EntryOccurrences(true, KeysOf(base), e)))
    decreases e.node, 3
  {
    var entries, deeper := e.node.entries, indent + e.node.shift;
    var open, path := Open(indent, e.key), KeysOf(base);
    left := RunNested(file, base, junk, facts, open, deeper, entries);
    assert PrintEntry(indent, e) == [KeyLine(indent, e.key)] + Print(deeper, entries);
    assert EntryOccurrences(true, path, e) ==
      [Occurrence(path, e.key, Some(""))] + Occurrences(true, path + [e.key], entries);
  }

  lemma NoteOne(file: string, f: Facts, o: Occurrence)
    ensures NoteAll(file, f, [o]) == Note(file, f, o.path, o.key, o.val)
  {
    NoteCons(file, f, o, []);
    assert [o] + [] == [o];
  }

  lemma {:induction false} RunNested(file: string, base: seq<Open>, junk: seq<Open>, facts: Facts, open: Open,
      deeper: nat, entries: seq<Entry>)
    returns (left: seq<Open>)
    requires Below(base, open.indent) && AtLeast(junk, open.indent) && IsName(open.key) && open.indent < deeper
    requires Printable(entries)
    ensures AtLeast(left, open.indent)
    ensures Run(file, State(base + junk, facts), LexAll([KeyLine(open.indent, open.key)] + Print(deeper, entries)))
         == State(base + left, NoteAll(file, facts,
              [Occurrence(KeysOf(base), open.key, Some(""))] + Occurrences(true, KeysOf(base) + [open.key], entries)))
    decreases entries, 2
  {
    var noted := Note(file, facts, KeysOf(base), open.key, Some(""));
    RunOpening(file, base, junk, facts, open.indent, open.key, Print(deeper, entries));
    BelowPush(base, open, deeper);
    var inner := RunBlock(file, base + [open], [], noted, deeper, entries);
    assert (base + [open]) + [] == base + [open];
    left := [open] + inner;
    LeftJoin(base, open, inner, deeper);
    NoteCons(file, facts, Occurrence(KeysOf(base), open.key, Some("")),
      Occurrences(true, KeysOf(base) + [open.key], entries));
  }

  lemma BelowPush(base: seq<Open>, open: Open, deeper: nat)
    requires Below(base, open.indent) && open.indent < deeper
    ensures Below(base + [open], deeper)
  {
  }

  lemma LeftJoin(base: seq<Open>, open: Open, inner: seq<Open>, deeper: nat)
    requires AtLeast(inner, deeper) && open.indent <= deeper
    ensures AtLeast([open] + inner, open.indent) && base + ([open] + inner) == (base + [open]) + inner
  {
  }

  /** Whatever the layout, the parser collects exactly what the tree says, up to scalar items it splits. */
  lemma ParserReadsTree(file: string, indent: nat, entries: seq<Entry>)
    requires Printable(entries)
    ensures FactsOf(file, Print(indent, entries)) == NoteAll(file, NO_FACTS, Occurrences(true, [], entries))
  {
    var left := RunBlock(file, [], [], NO_FACTS, indent, entries);
    var none: seq<Open> := [];
    assert none + none == none;
    assert KeysOf([]) == [];
  }

  // ----- items the parser splits -----

  /** `services.<svc>... .networks`: what is listed here are networks. */
  predicate IsNetworkList(path: seq<string>) {
    var n := |path|;
    n >= 3 && path[0] == "services" && path[n - 1] == "networks"
  }

  /** Splitting this item here makes a difference: a listed network whose text has a colon after key characters, or
      an item that reads as an address or as `internal:true` where these mean something. */
  predicate Misread(path: seq<string>, text: string) {
    var n := |path|;
    && Splits(text)
    && (|| IsNetworkList(path)
        || (SplitKey(text) == "ipv4_address" && n >= 4 && path[0] == "services" && path[n - 2] == "networks")
        || (SplitKey(text) == "internal" && SplitValue(text) == "true" && n >= 2 && path[0] == "networks"))
  }

  function Noted(file: string, f: Facts, o: Occurrence): Facts { Note(file, f, o.path, o.key, o.val) }

  /** An item is taken as it is written exactly when it is not one of those. */
  lemma WordReadRightIff(file: string, path: seq<string>, text: string)
    requires IsWord(text)
    ensures
      var (read, written) := (WordOccurrence(true, path, text), WordOccurrence(false, path, text));
      Noted(file, NO_FACTS, read) == Noted(file, NO_FACTS, written) <==> !Misread(path, text)
  {
    if !Misread(path, text) {
      WordReadRight(file, NO_FACTS, path, text);
    } else {
      var read := Noted(file, NO_FACTS, WordOccurrence(true, path, text));
      var written := Noted(file, NO_FACTS, WordOccurrence(false, path, text));
      WordsAreNoKeys(text);
      if IsNetworkList(path) {
        assert Member(file, path[1], text) in written.memberships;
        assert SplitKey(text) != text;
        assert Member(file, path[1], text) !in read.memberships;
      } else if SplitKey(text) == "ipv4_address" {
        assert Member(file, path[1], path[|path| - 1]) in read.ips;
      } else {
        assert path[1] in read.internal;
      }
    }
  }

  lemma WordsAreNoKeys(text: string)
    requires Splits(text)
    ensures text != "ipv4_address" && text != "internal"
  {
    assert ':' in text;
  }

  lemma WordReadRight(file: string, f: Facts, path: seq<string>, text: string)
    requires IsWord(text) && !Misread(path, text)
    ensures Noted(file, f, WordOccurrence(true, path, text)) == Noted(file, f, WordOccurrence(false, path, text))
  {
    if Splits(text) {
      WordsAreNoKeys(text);
    }
  }

  predicate ReadRight(path: seq<string>, entries: seq<Entry>)
    decreases entries, 1
  {
    entries == [] || (EntryReadRight(path, entries[0]) && ReadRight(path, entries[1..]))
  }

  predicate EntryReadRight(path: seq<string>, e: Entry)
    decreases e, 0
  {
    match e.node
    case Nested(_, entries) => ReadRight(path + [e.key], entries)
    case Items(_, items) => ItemsReadRight(path + [e.key], items)
    case _ => true
  }

  predicate ItemsReadRight(path: seq<string>, items: seq<Item>)
    decreases items, 1
  {
    items == [] || (ItemReadRight(path, items[0]) && ItemsReadRight(path, items[1..]))
  }

  predicate ItemReadRight(path: seq<string>, x: Item)
    decreases x, 0
  {
    match x
    case Word(text) => !Misread(path, text)
    case Dashed(entries) => ReadRight(path, entries)
  }

  /** Without such items splitting goes unnoticed. */
  lemma {:induction false} BlockReadRight(file: string, f: Facts, path: seq<string>, entries: seq<Entry>)
    requires Printable(entries) && ReadRight(path, entries)
    ensures NoteAll(file, f, Occurrences(true, path, entries)) == NoteAll(file, f, Occurrences(false, path, entries))
    decreases entries, 1
  {
    if entries != [] {
      var e, rest := entries[0], entries[1..];
      assert e in entries && forall x | x in rest :: x in entries;
      OneReadRight(file, f, path, e);
      BlockReadRight(file, NoteAll(file, f, EntryOccurrences(true, path, e)), path, rest);
      NoteAllCat(file, f, EntryOccurrences(true, path, e), Occurrences(true, path, rest));
      NoteAllCat(file, f, EntryOccurrences(false, path, e), Occurrences(false, path, rest));
    }
  }

  lemma {:induction false} OneReadRight(file: string, f: Facts, path: seq<string>, e: Entry)
    requires PrintableEntry(e) && EntryReadRight(path, e)
    ensures NoteAll(file, f, EntryOccurrences(true, path, e)) == NoteAll(file, f, EntryOccurrences(false, path, e))
    decreases e, 0
  {
    var top := Occurrence(path, e.key, Some(""));
    match e.node {
      case Nested(_, entries) =>
        BlockReadRight(file, Noted(file, f, top), path + [e.key], entries);
        NoteCons(file, f, top, Occurrences(true, path + [e.key], entries));
        NoteCons(file, f, top, Occurrences(false, path + [e.key], entries));
      case Items(_, items) =>
        ListReadRight(file, Noted(file, f, top), path + [e.key], items);
        NoteCons(file, f, top, ItemsOccurrences(true, path + [e.key], items));
        NoteCons(file, f, top, ItemsOccurrences(false, path + [e.key], items));
      case _ =>
    }
  }

  lemma {:induction false} ListReadRight(file: string, f: Facts, path: seq<string>, items: seq<Item>)
    requires (forall x | x in items :: PrintableItem(x)) && ItemsReadRight(path, items)
    ensures NoteAll(file, f, ItemsOccurrences(true, path, items)) ==
      NoteAll(file, f, ItemsOccurrences(false, path, items))
    decreases items, 1
  {
    if items != [] {
      var x, rest := items[0], items[1..];
      assert x in items && forall y | y in rest :: y in items;
      match x {
        case Word(text) =>
          WordReadRight(file, f, path, text);
          NoteOne(file, f, WordOccurrence(true, path, text));
          NoteOne(file, f, WordOccurrence(false, path, text));
        case Dashed(entries) =>
          assert PrintableItem(x) && Printable(entries);
          BlockReadRight(file, f, path, entries);
      }
      ListReadRight(file, NoteAll(file, f, ItemOccurrences(true, path, x)), path, rest);
      NoteAllCat(file, f, ItemOccurrences(true, path, x), ItemsOccurrences(true, path, rest));
      NoteAllCat(file, f, ItemOccurrences(false, path, x), ItemsOccurrences(false, path, rest));
    }
  }
}
