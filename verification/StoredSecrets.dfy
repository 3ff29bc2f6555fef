/** What the secrets section of a file stores: a block mapping of one entry a line. Of several
    sections, or several entries of a key, the last one counts; entries indented differently
    do not parse. */
module StoredSecrets {
  import opened Text
  import opened SecretsFile

  datatype Section = Section(open: bool, indent: Option<string>, values: map<string, string>, broken: bool)

  const START := Section(false, None, map[], false)

  /** The text before the first colon, and the text after it. */
  function KeyPart(s: string): (key: string)
    ensures Free(key, ':') && StartsWith(s, key)
    ensures ':' in s ==> |key| < |s| && s[|key|] == ':'
  {
    if s == "" || s[0] == ':' then ""
    else
      var rest := KeyPart(s[1..]);
      assert [s[0]] + rest == s[..1 + |rest|];
      FreeAppend([s[0]], rest, ':');
      [s[0]] + rest
  }

  function UpToQuote(s: string): string {
    if s == "" || s[0] == '\'' then "" else [s[0]] + UpToQuote(s[1..])
  }

  /** A quoted value without its quotes, or a plain one as it is. */
  function Scalar(s: string): string {
    var value := Unindented(s);
    if value != "" && value[0] == '\'' then UpToQuote(value[1..]) else value
  }

  /** The entry of a line in the section, when it is one: a key, a colon, and a blank before
      the value. */
  function EntryOf(line: string): Option<(string, string)> {
    var s := Unindented(line);
    if ':' !in s then None
    else
      var rest := s[|KeyPart(s)| + 1..];
      if rest == "" || rest[0] == ' ' then Some((KeyPart(s), Scalar(rest))) else None
  }

  predicate IsAside(line: string) {
    Unindented(line) == "" || Unindented(line)[0] == '#'
  }

  function NextEntry(s: Section, indent: string, entry: Option<(string, string)>): Section {
    if entry.None? || '\t' in indent || (s.indent.Some? && s.indent.value != indent) then s.(broken := true)
    else s.(indent := Some(indent), values := s.values[entry.value.0 := entry.value.1])
  }

  function Next(s: Section, line: string): Section {
    if IsHeader(line) then Section(true, None, map[], s.broken)
    else if IsAside(line) then s
    else if Indent(line) == "" then s.(open := false)
    else if !s.open then s
    else NextEntry(s, Indent(line), EntryOf(line))
  }

  function Scan(s: Section, lines: Lines): Section
    decreases lines
  {
    if lines == [] then s else Scan(Next(s, lines[0]), lines[1..])
  }

  /** The stored secrets, when the section parses. */
  function Stored(lines: Lines): Option<map<string, string>> {
    var s := Scan(START, lines);
    if s.broken then None else Some(s.values)
  }

  lemma {:induction false} ScanJoined(s: Section, a: Lines, b: Lines)
    ensures Scan(s, a + b) == Scan(Scan(s, a), b)
    decreases a
  {
    if a == [] {
      assert a + b == b;
    } else {
      assert (a + b)[1..] == a[1..] + b;
      ScanJoined(Next(s, a[0]), a[1..], b);
    }
  }

  // ------------------------------------------------------------------ an edit keeps other keys

  predicate AgreeOff(a: map<string, string>, b: map<string, string>, key: string) {
    forall k :: k in a.Keys + b.Keys && k != key ==> k in a && k in b && a[k] == b[k]
  }

  /** Two scans that differ in one key, the second perhaps stricter about the indentation. */
  predicate Alike(s: Section, t: Section, key: string) {
    t.broken || (s.open == t.open && AgreeOff(s.values, t.values, key) && (s.indent == t.indent || s.indent.None?))
  }

  lemma AlikeNext(s: Section, t: Section, line: string, key: string)
    requires Alike(s, t, key)
    ensures Alike(Next(s, line), Next(t, line), key)
  {
  }

  lemma {:induction false} AlikeScan(s: Section, t: Section, lines: Lines, key: string)
    requires Alike(s, t, key)
    ensures Alike(Scan(s, lines), Scan(t, lines), key)
    decreases lines
  {
    if lines != [] {
      AlikeNext(s, t, lines[0], key);
      AlikeScan(Next(s, lines[0]), Next(t, lines[0]), lines[1..], key);
    }
  }

  lemma {:induction false} KeyPartIs(key: string, rest: string)
    requires Free(key, ':')
    ensures KeyPart(key + ":" + rest) == key
  {
    var s := key + ":" + rest;
    if key != "" {
      assert s[1..] == key[1..] + ":" + rest;
      assert s[0] in key;
      FreePart(key, 1, |key|, ':');
      assert key[1..] == key[1..|key|];
      KeyPartIs(key[1..], rest);
    }
  }

  lemma KeyOfEntry(line: string, key: string)
    requires IsKey(key) && IsEntry(line, key)
    ensures !IsHeader(line) && !IsAside(line) && ':' in Unindented(line) && KeyPart(Unindented(line)) == key
  {
    var s := Unindented(line);
    ColonAfter(s, key);
    assert s[|key|] in s;
    assert s[0] == key[0];
    assert s == key + ":" + s[|key| + 1..];
    KeyPartIs(key, s[|key| + 1..]);
    assert IsHeader(line) ==> !IsEntry(line, key) by {
      if IsHeader(line) {
        HeaderNoEntry(line, key);
      }
    }
  }

  lemma {:induction false} NextOfEntry(s: Section, line: string, key: string)
    requires IsKey(key) && IsEntry(line, key)
    ensures Next(s, line) == if s.open then NextEntry(s, Indent(line), EntryOf(line)) else s
    ensures EntryOf(line).Some? ==> EntryOf(line).value.0 == key
  {
    KeyOfEntry(line, key);
  }

  lemma AlikeEntries(s: Section, indent: string, a: Option<(string, string)>, b: Option<(string, string)>, key: string)
    requires (a.Some? ==> a.value.0 == key) && b.Some? && b.value.0 == key
    ensures Alike(NextEntry(s, indent, a), NextEntry(s, indent, b), key)
  {
  }

  lemma {:induction false} StepOfEntry(s: Section, line: string, other: string, key: string)
    requires IsKey(key) && IsEntry(line, key) && IsEntry(other, key) && Indent(line) == Indent(other)
    requires EntryOf(other).Some?
    ensures Alike(Next(s, line), Next(s, other), key)
  {
    NextOfEntry(s, line, key);
    NextOfEntry(s, other, key);
    AlikeEntries(s, Indent(line), EntryOf(line), EntryOf(other), key);
  }

  /** The value that is written reads back. */
  lemma WrittenReads(indent: string, key: string, value: string)
    requires IsKey(key) && indent != "" && (forall c :: c in indent ==> IsBlank(c)) && Free(value, '\'')
    ensures EntryOf(indent + EntryText(key, value)) == Some((key, value))
  {
    var line := indent + EntryText(key, value);
    WrittenEntry(indent, key, value);
    KeyOfEntry(line, key);
    assert Unindented(line)[|key| + 1..] == Quoted(value);
    QuotedReads(value);
  }

  lemma QuotedReads(value: string)
    requires Free(value, '\'')
    ensures Quoted(value)[0] == ' ' && Scalar(Quoted(value)) == value
  {
    var quoted := "'" + value + "'";
    assert Quoted(value) == " " + quoted;
    IndentOf(" ", quoted);
    assert quoted[1..] == value + "'";
    QuoteEnds(value);
  }

  lemma {:induction false} QuoteEnds(value: string)
    requires Free(value, '\'')
    ensures UpToQuote(value + "'") == value
  {
    if value == "" {
      assert value + "'" == "'";
    } else {
      assert (value + "'")[1..] == value[1..] + "'";
      QuoteEnds(value[1..]);
    }
  }

  /** Setting one key leaves what is stored for every other key, as long as the file parses
      before and after. */
  lemma OtherKeysKept(lines: Lines, key: string, value: string)
    requires IsKey(key) && Free(value, '\'') && lines != []
    ensures var before, after := Stored(lines), Stored(SetLine(lines, key, value));
      before.Some? && after.Some? ==> AgreeOff(before.value, after.value, key)
  {
    var entry, header := FirstEntry(lines, key), FirstHeader(lines);
    if entry.Some? {
      EntryReplaced(lines, entry.value, key, value);
    } else if header.Some? {
      EntryInserted(lines, header.value, key, value);
    } else {
      SectionAppended(lines, key, value);
    }
  }

  lemma Regrouped(lines: Lines, i: nat, line: string)
    requires i < |lines|
    ensures var front, back := lines[..i], lines[i + 1..];
      && lines == front + ([lines[i]] + back) && lines[i := line] == front + ([line] + back)
      && lines[..i + 1] + [line] + back == front + ([lines[i]] + ([line] + back))
  {
  }

  lemma EntryReplaced(lines: Lines, i: nat, key: string, value: string)
    requires IsKey(key) && Free(value, '\'') && i < |lines| && IsEntry(lines[i], key)
    ensures Alike(Scan(START, lines), Scan(START, lines[i := Indent(lines[i]) + EntryText(key, value)]), key)
  {
    var line := Indent(lines[i]) + EntryText(key, value);
    var front, back := lines[..i], lines[i + 1..];
    Regrouped(lines, i, line);
    ScanJoined(START, front, [lines[i]] + back);
    ScanJoined(START, front, [line] + back);
    ReplacedBelow(Scan(START, front), lines[i], line, back, key, value);
  }

  lemma {:induction false} ReplacedBelow(s: Section, was: string, line: string, back: Lines, key: string, value: string)
    requires IsKey(key) && Free(value, '\'') && IsEntry(was, key) && line == Indent(was) + EntryText(key, value)
    ensures Alike(Scan(s, [was] + back), Scan(s, [line] + back), key)
  {
    IndentIsBlank(was);
    WrittenEntry(Indent(was), key, value);
    WrittenReads(Indent(was), key, value);
    ScanFirst(s, was, back);
    ScanFirst(s, line, back);
    StepOfEntry(s, was, line, key);
    AlikeScan(Next(s, was), Next(s, line), back, key);
  }

  lemma {:induction false} ScanFirst(s: Section, line: string, back: Lines)
    ensures Scan(s, [line] + back) == Scan(Next(s, line), back)
  {
    assert ([line] + back)[1..] == back;
  }

  lemma {:induction false} EntryInserted(lines: Lines, i: nat, key: string, value: string)
    requires IsKey(key) && Free(value, '\'') && i < |lines| && IsHeader(lines[i])
    ensures Alike(Scan(START, lines), Scan(START, lines[..i + 1] + ["  " + EntryText(key, value)] + lines[i + 1..]), key)
  {
    var line := "  " + EntryText(key, value);
    var front, back := lines[..i], lines[i + 1..];
    Regrouped(lines, i, line);
    ScanJoined(START, front, [lines[i]] + back);
    ScanJoined(START, front, [lines[i]] + ([line] + back));
    InsertedBelow(Scan(START, front), lines[i], line, back, key, value);
  }

  lemma {:induction false} InsertedBelow(s: Section, header: string, line: string, back: Lines, key: string,
          value: string)
    requires IsKey(key) && Free(value, '\'') && IsHeader(header) && line == "  " + EntryText(key, value)
    ensures Alike(Scan(s, [header] + back), Scan(s, [header] + ([line] + back)), key)
  {
    ScanFirst(s, header, back);
    ScanFirst(s, header, [line] + back);
    var below := Next(s, header);
    ScanFirst(below, line, back);
    EntryBelow(below, line, key, value);
    AlikeScan(below, Next(below, line), back, key);
  }

  lemma EntryBelow(s: Section, line: string, key: string, value: string)
    requires IsKey(key) && Free(value, '\'') && line == "  " + EntryText(key, value)
    requires s.open && s.indent.None? && s.values == map[]
    ensures Alike(s, Next(s, line), key)
  {
    WrittenEntry("  ", key, value);
    WrittenReads("  ", key, value);
    KeyOfEntry(line, key);
  }

  lemma {:induction false} NoSection(s: Section, lines: Lines)
    requires !s.open && forall j :: 0 <= j < |lines| ==> !IsHeader(lines[j])
    ensures Scan(s, lines) == s
  {
    if lines != [] {
      NoSection(s, lines[1..]);
    }
  }

  /** An entry of an open section whose indentation is the section's, or the first one. */
  lemma {:induction false} EntryStored(s: Section, line: string, key: string, value: string)
    requires s.open && (s.indent.None? || s.indent == Some(Indent(line))) && '\t' !in Indent(line)
    requires IsKey(key) && IsEntry(line, key) && EntryOf(line) == Some((key, value))
    ensures Next(s, line) == s.(indent := Some(Indent(line)), values := s.values[key := value])
  {
    NextOfEntry(s, line, key);
  }

  lemma {:induction false} ScanFour(s: Section, a: string, b: string, c: string, d: string, t: Section,
          u: Section, v: Section)
    requires Next(s, a) == t && Next(t, b) == u && Next(u, c) == v
    ensures Scan(s, [a, b, c, d]) == Next(v, d)
  {
    assert [a, b, c, d] == [a] + ([b] + ([c] + ([d] + [])));
    ScanFirst(s, a, [b] + ([c] + ([d] + [])));
    ScanFirst(t, b, [c] + ([d] + []));
    ScanFirst(u, c, [d] + []);
    ScanFirst(v, d, []);
  }

  lemma InEitherOrder(key: string, value: string, other: string, otherValue: string)
    requires key != other
    ensures map[other := otherValue][key := value] == map[key := value, other := otherValue]
  {
  }

  lemma BlankLine(s: Section)
    ensures Next(s, "") == s
  {
  }

  lemma {:induction false} SectionScan(s: Section, header: string, line: string, key: string, value: string)
    requires !s.open && IsHeader(header) && IsKey(key) && IsEntry(line, key) && EntryOf(line) == Some((key, value))
    requires '\t' !in Indent(line)
    ensures Scan(s, ["", header, line, ""]) == Section(true, Some(Indent(line)), map[key := value], s.broken)
  {
    var below := Section(true, None, map[], s.broken);
    var one := below.(indent := Some(Indent(line)), values := below.values[key := value]);
    BlankLine(s);
    BlankLine(one);
    EntryStored(below, line, key, value);
    ScanFour(s, "", header, line, "", s, below, one);
  }

  /** The lines of a section of its own for one key, where no section was before. */
  lemma {:induction false} OneStored(front: Lines, header: string, line: string, key: string, value: string)
    requires IsHeader(header) && IsKey(key) && '\t' !in Indent(line)
    requires forall j :: 0 <= j < |front| ==> !IsHeader(front[j])
    requires IsEntry(line, key) && EntryOf(line) == Some((key, value))
    ensures Stored(front + ["", header, line, ""]) == Some(map[key := value])
  {
    NoSection(START, front);
    ScanJoined(START, front, ["", header, line, ""]);
    SectionScan(START, header, line, key, value);
  }

  lemma WrittenLine(key: string, value: string)
    requires IsKey(key) && Free(value, '\'')
    ensures var line := "  " + EntryText(key, value);
      Indent(line) == "  " && IsEntry(line, key) && EntryOf(line) == Some((key, value))
  {
    WrittenEntry("  ", key, value);
    WrittenReads("  ", key, value);
  }

  lemma HeaderOfBlock()
    ensures IsHeader("secrets:")
  {
    assert "secrets:"[8..] == "";
  }

  /** A file without the section gets one that stores exactly the value set. */
  lemma {:induction false} SectionAppended(lines: Lines, key: string, value: string)
    requires IsKey(key) && Free(value, '\'') && lines != []
    requires FirstEntry(lines, key).None? && FirstHeader(lines).None?
    ensures Stored(lines) == Some(map[]) && Stored(SetLine(lines, key, value)) == Some(map[key := value])
  {
    NoSection(START, lines);
    WrittenLine(key, value);
    HeaderOfBlock();
    OneStored(Stripped(lines), "secrets:", "  " + EntryText(key, value), key, value);
  }

  lemma {:induction false} NoEntryIn(front: Lines, header: string, line: string, other: string)
    requires IsHeader(header) && !IsEntry(line, other) && forall j :: 0 <= j < |front| ==> !IsEntry(front[j], other)
    ensures FirstEntry(front + ["", header, line, ""], other).None?
  {
    var lines, n := front + ["", header, line, ""], |front|;
    HeaderNoEntry(header, other);
    assert forall j :: 0 <= j < n ==> lines[j] == front[j];
    assert lines[n] == "" && lines[n + 1] == header && lines[n + 2] == line && lines[n + 3] == "";
  }

  lemma {:induction false} HeaderIn(front: Lines, header: string, line: string)
    requires IsHeader(header) && forall j :: 0 <= j < |front| ==> !IsHeader(front[j])
    ensures FirstHeader(front + ["", header, line, ""]) == Some(|front| + 1)
  {
    var lines, n := front + ["", header, line, ""], |front|;
    assert forall j :: 0 <= j < n ==> lines[j] == front[j];
    assert lines[n] == "" && lines[n + 1] == header;
  }

  /** A second entry goes directly below the header. */
  lemma InsertedBelowHeader(front: Lines, header: string, line: string, other: string, value: string)
    requires IsHeader(header) && !IsEntry(line, other)
    requires forall j :: 0 <= j < |front| ==> !IsHeader(front[j]) && !IsEntry(front[j], other)
    ensures SetLine(front + ["", header, line, ""], other, value) == front + ["", header, "  " + EntryText(other, value), line, ""]
  {
    var lines, n := front + ["", header, line, ""], |front|;
    NoEntryIn(front, header, line, other);
    HeaderIn(front, header, line);
    assert lines[..n + 2] == front + ["", header] && lines[n + 2..] == [line, ""];
  }

  lemma {:induction false} TwoEntriesScan(s: Section, header: string, first: string, second: string,
                       key: string, value: string, other: string, otherValue: string)
    requires !s.open && IsHeader(header) && IsKey(key) && IsKey(other) && key != other
    requires Indent(first) == Indent(second) && '\t' !in Indent(first)
    requires IsEntry(first, other) && EntryOf(first) == Some((other, otherValue))
    requires IsEntry(second, key) && EntryOf(second) == Some((key, value))
    ensures Scan(s, ["", header, first, second, ""])
            == Section(true, Some(Indent(first)), map[key := value, other := otherValue], s.broken)
  {
    var below := Section(true, None, map[], s.broken);
    var one := below.(indent := Some(Indent(first)), values := below.values[other := otherValue]);
    var both := one.(values := one.values[key := value]);
    BlankLine(s);
    BlankLine(both);
    EntryStored(below, first, other, otherValue);
    EntryStored(one, second, key, value);
    assert ["", header, first, second, ""] == [""] + [header, first, second, ""];
    ScanFirst(s, "", [header, first, second, ""]);
    ScanFour(s, header, first, second, "", below, one, both);
    InEitherOrder(key, value, other, otherValue);
  }

  /** The lines of a section of its own for both keys, where no section was before. */
  lemma {:induction false} BothStored(front: Lines, header: string, line: string, otherLine: string,
                   key: string, value: string, other: string, otherValue: string)
    requires IsHeader(header) && IsKey(key) && IsKey(other) && key != other
    requires forall j :: 0 <= j < |front| ==> !IsHeader(front[j])
    requires Indent(otherLine) == Indent(line) && '\t' !in Indent(otherLine)
    requires IsEntry(otherLine, other) && EntryOf(otherLine) == Some((other, otherValue))
    requires IsEntry(line, key) && EntryOf(line) == Some((key, value))
    ensures Stored(front + ["", header, otherLine, line, ""]) == Some(map[key := value, other := otherValue])
  {
    NoSection(START, front);
    ScanJoined(START, front, ["", header, otherLine, line, ""]);
    TwoEntriesScan(START, header, otherLine, line, key, value, other, otherValue);
  }

  /** A file without the section stores exactly both values once both keys are set. */
  lemma {:induction false} BothAppended(lines: Lines, key: string, value: string, other: string, otherValue: string)
    requires IsKey(key) && IsKey(other) && key != other && Free(value, '\'') && Free(otherValue, '\'') && lines != []
    requires FirstEntry(lines, key).None? && FirstEntry(lines, other).None? && FirstHeader(lines).None?
    ensures Stored(SetLine(SetLine(lines, key, value), other, otherValue)) == Some(map[key := value, other := otherValue])
  {
    var line, otherLine := "  " + EntryText(key, value), "  " + EntryText(other, otherValue);
    WrittenLine(key, value);
    WrittenLine(other, otherValue);
    KeysDiffer(line, key, other);
    HeaderOfBlock();
    InsertedBelowHeader(Stripped(lines), "secrets:", line, other, otherValue);
    BothStored(Stripped(lines), "secrets:", line, otherLine, key, value, other, otherValue);
  }
}
