/** Editing the secrets section of a config.yaml line by line, and what the file then stores. */
module SecretsFile {
  import opened Text

  type Lines = seq<string>

  predicate IsBlank(c: char) {
    c == ' ' || c == '\t'
  }

  function Indent(line: string): (r: string)
    ensures StartsWith(line, r)
  {
    if line != "" && IsBlank(line[0]) then
      var rest := Indent(line[1..]);
      assert ([line[0]] + rest) == line[..1 + |rest|];
      [line[0]] + rest
    else ""
  }

  function Unindented(line: string): string {
    line[|Indent(line)|..]
  }

  /** `^[ \t]+key:.*$` */
  predicate IsEntry(line: string, key: string) {
    Indent(line) != "" && StartsWith(Unindented(line), key + ":")
  }

  /** `^secrets:[ \t]*(#.*)?$` */
  predicate IsHeader(line: string) {
    StartsWith(line, "secrets:") && var rest := Unindented(line[8..]); rest == "" || rest[0] == '#'
  }

  function Quoted(value: string): string {
    " '" + value + "'"
  }

  function EntryText(key: string, value: string): string {
    key + ":" + Quoted(value)
  }

  /** The first line that is an entry of the key. */
  function FirstEntry(lines: Lines, key: string): (i: Option<nat>)
    ensures i.Some? ==> i.value < |lines| && IsEntry(lines[i.value], key)
    ensures i.Some? ==> forall j :: 0 <= j < i.value ==> !IsEntry(lines[j], key)
    ensures i.None? ==> forall j :: 0 <= j < |lines| ==> !IsEntry(lines[j], key)
  {
    if lines == [] then None
    else if IsEntry(lines[0], key) then Some(0)
    else
      var rest := FirstEntry(lines[1..], key);
      if rest.Some? then Some(rest.value + 1) else None
  }

  function FirstHeader(lines: Lines): (i: Option<nat>)
    ensures i.Some? ==> i.value < |lines| && IsHeader(lines[i.value])
    ensures i.Some? ==> forall j :: 0 <= j < i.value ==> !IsHeader(lines[j])
    ensures i.None? ==> forall j :: 0 <= j < |lines| ==> !IsHeader(lines[j])
  {
    if lines == [] then None
    else if IsHeader(lines[0]) then Some(0)
    else
      var rest := FirstHeader(lines[1..]);
      if rest.Some? then Some(rest.value + 1) else None
  }

  /** `rstrip("\n")` */
  function Stripped(lines: Lines): (r: Lines)
    ensures lines != [] ==> r != [] && r <= lines
    ensures forall j :: |r| <= j < |lines| ==> lines[j] == ""
  {
    if |lines| >= 2 && lines[|lines| - 1] == "" then Stripped(lines[..|lines| - 1]) else lines
  }

  function Block(key: string, value: string): Lines {
    ["", "secrets:", "  " + EntryText(key, value), ""]
  }

  /** `_set_secret_line`: replaces the first entry of the key, keeping its indentation; or adds
      an entry below the first header of the section; or appends a section. */
  function SetLine(lines: Lines, key: string, value: string): Lines {
    var entry, header := FirstEntry(lines, key), FirstHeader(lines);
    if entry.Some? then lines[entry.value := Indent(lines[entry.value]) + EntryText(key, value)]
    else if header.Some? then
      lines[..header.value + 1] + ["  " + EntryText(key, value)] + lines[header.value + 1..]
    else Stripped(lines) + Block(key, value)
  }

  // ------------------------------------------------------------------ the two patterns

  /** A key of the model: it has no colon and does not begin with a blank or a comment sign. */
  predicate IsKey(key: string) {
    key != "" && !IsBlank(key[0]) && key[0] != '#' && Free(key, ':')
  }

  lemma {:induction false} IndentOf(indent: string, rest: string)
    requires forall c :: c in indent ==> IsBlank(c)
    requires rest == "" || !IsBlank(rest[0])
    ensures Indent(indent + rest) == indent && Unindented(indent + rest) == rest
  {
    if indent == "" {
      assert indent + rest == rest;
    } else {
      assert (indent + rest)[1..] == indent[1..] + rest;
      IndentOf(indent[1..], rest);
      assert (indent + rest)[|indent|..] == rest;
    }
  }

  lemma {:induction false} IndentIsBlank(line: string)
    ensures forall c :: c in Indent(line) ==> IsBlank(c)
    ensures line == Indent(line) + Unindented(line)
    ensures Unindented(line) == "" || !IsBlank(Unindented(line)[0])
  {
    if line != "" && IsBlank(line[0]) {
      IndentIsBlank(line[1..]);
      assert Unindented(line) == Unindented(line[1..]);
    }
  }

  predicate BlankBetween(line: string, from: nat, to: nat) {
    from <= to <= |line| && forall j :: from <= j < to ==> IsBlank(line[j])
  }

  /** Blanks, the key, a colon. */
  predicate ReadsAsEntry(line: string, key: string) {
    exists n :: 0 < n <= |line| && BlankBetween(line, 0, n) && StartsWith(line[n..], key + ":")
  }

  /** The section's name at the very beginning, then blanks at most, and perhaps a comment. */
  predicate ReadsAsHeader(line: string) {
    && StartsWith(line, "secrets:")
    && exists n :: 8 <= n <= |line| && BlankBetween(line, 8, n) && (n < |line| ==> line[n] == '#')
  }

  lemma {:induction false} IndentEnds(line: string, n: nat)
    requires n <= |line| && BlankBetween(line, 0, n) && (n < |line| ==> !IsBlank(line[n]))
    ensures Indent(line) == line[..n]
  {
    if n > 0 {
      IndentEnds(line[1..], n - 1);
      assert line[..n] == [line[0]] + line[1..][..n - 1];
    }
  }

  lemma {:induction false} EntriesRead(line: string, key: string)
    requires IsKey(key)
    ensures IsEntry(line, key) <==> ReadsAsEntry(line, key)
  {
    IndentIsBlank(line);
    var indent := |Indent(line)|;
    assert forall j :: 0 <= j < indent ==> line[j] == Indent(line)[j];
    if IsEntry(line, key) {
      assert BlankBetween(line, 0, indent);
    }
    if ReadsAsEntry(line, key) {
      var n :| 0 < n <= |line| && BlankBetween(line, 0, n) && StartsWith(line[n..], key + ":");
      assert line[n] == line[n..][0] == (key + ":")[0] == key[0];
      IndentEnds(line, n);
    }
  }

  lemma {:induction false} HeadersRead(line: string)
    ensures IsHeader(line) <==> ReadsAsHeader(line)
  {
    if StartsWith(line, "secrets:") {
      var rest := line[8..];
      IndentIsBlank(rest);
      var indent := |Indent(rest)|;
      assert forall j :: 0 <= j < indent ==> rest[j] == Indent(rest)[j];
      if IsHeader(line) {
        assert BlankBetween(line, 8, 8 + indent);
        assert 8 + indent < |line| ==> line[8 + indent] == Unindented(rest)[0];
      }
      if ReadsAsHeader(line) {
        var n :| 8 <= n <= |line| && BlankBetween(line, 8, n) && (n < |line| ==> line[n] == '#');
        IndentEnds(rest, n - 8);
      }
    }
  }

  // ------------------------------------------------------------------ locality

  predicate FirstSuch(lines: Lines, such: string -> bool, i: int) {
    0 <= i < |lines| && such(lines[i]) && forall j :: 0 <= j < i ==> !such(lines[j])
  }

  /** One line is replaced, the first entry of the key; where there is none, one is inserted below
      the first header of the section; where there is no header either, a block is appended.
      Every other line is there in order, but for empty lines that ended the file before an
      appended block. */
  ghost predicate LocalEdit(lines: Lines, edited: Lines, key: string, value: string) {
    var isEntry, text := (line: string) => ReadsAsEntry(line, key), key + ": '" + value + "'";
    if exists i :: FirstSuch(lines, isEntry, i) then
      exists i :: FirstSuch(lines, isEntry, i) && edited == lines[i := Indent(lines[i]) + text]
    else if exists i :: FirstSuch(lines, ReadsAsHeader, i) then
      exists i :: FirstSuch(lines, ReadsAsHeader, i) && edited == lines[..i + 1] + ["  " + text] + lines[i + 1..]
    else
      exists n :: 0 < n <= |lines| && (n > 1 ==> lines[n - 1] != "")
                  && (forall j :: n <= j < |lines| ==> lines[j] == "")
                  && edited == lines[..n] + ["", "secrets:", "  " + text, ""]
  }

  lemma TextOfEntry(key: string, value: string)
    ensures EntryText(key, value) == key + ": '" + value + "'"
  {
    assert key + ":" + (" '" + value + "'") == key + ": '" + value + "'";
  }

  lemma {:induction false} StrippedEnds(lines: Lines)
    requires lines != []
    ensures Stripped(lines) != [] && (|Stripped(lines)| > 1 ==> Stripped(lines)[|Stripped(lines)| - 1] != "")
  {
    if |lines| >= 2 && lines[|lines| - 1] == "" {
      StrippedEnds(lines[..|lines| - 1]);
    }
  }

  lemma {:induction false} EditIsLocal(lines: Lines, key: string, value: string)
    requires lines != [] && IsKey(key)
    ensures LocalEdit(lines, SetLine(lines, key, value), key, value)
  {
    var isEntry := (line: string) => ReadsAsEntry(line, key);
    forall line ensures IsEntry(line, key) <==> ReadsAsEntry(line, key) {
      EntriesRead(line, key);
    }
    forall line ensures IsHeader(line) <==> ReadsAsHeader(line) {
      HeadersRead(line);
    }
    var entry, header := FirstEntry(lines, key), FirstHeader(lines);
    TextOfEntry(key, value);
    if entry.Some? {
      assert FirstSuch(lines, isEntry, entry.value);
    } else if header.Some? {
      assert FirstSuch(lines, ReadsAsHeader, header.value);
    } else {
      var r := Stripped(lines);
      StrippedEnds(lines);
      assert r == lines[..|r|];
    }
  }

  // ------------------------------------------------------------------ setting again

  /** The line written is an entry of its key, indented as asked. */
  lemma WrittenEntry(indent: string, key: string, value: string)
    requires IsKey(key) && forall c :: c in indent ==> IsBlank(c)
    ensures var line := indent + EntryText(key, value);
      && Indent(line) == indent && Unindented(line) == EntryText(key, value)
      && (indent != "" ==> IsEntry(line, key))
  {
    IndentOf(indent, EntryText(key, value));
    assert EntryText(key, value)[..|key + ":"|] == key + ":";
  }

  lemma ColonAfter(rest: string, key: string)
    requires Free(key, ':')
    ensures StartsWith(rest, key + ":") ==>
      |key| < |rest| && rest[|key|] == ':' && rest[..|key|] == key && forall j :: 0 <= j < |key| ==> rest[j] != ':'
  {
    if StartsWith(rest, key + ":") {
      assert rest[..|key| + 1] == key + ":";
      assert forall j :: 0 <= j < |key| ==> rest[j] == (key + ":")[j] && key[j] in key;
      assert rest[..|key|] == (key + ":")[..|key|];
    }
  }

  lemma KeysDiffer(line: string, a: string, b: string)
    requires IsKey(a) && IsKey(b) && a != b && IsEntry(line, a)
    ensures !IsEntry(line, b)
  {
    ColonAfter(Unindented(line), a);
    ColonAfter(Unindented(line), b);
  }

  lemma {:induction false} FirstEntryIs(lines: Lines, key: string, i: nat)
    requires i < |lines| && IsEntry(lines[i], key) && forall j :: 0 <= j < i ==> !IsEntry(lines[j], key)
    ensures FirstEntry(lines, key) == Some(i)
  {
  }

  lemma {:induction false} ReplacedAgain(lines: Lines, i: nat, key: string, first: string, second: string)
    requires IsKey(key) && FirstEntry(lines, key) == Some(i)
    ensures SetLine(SetLine(lines, key, first), key, second) == SetLine(lines, key, second)
  {
    IndentIsBlank(lines[i]);
    WrittenEntry(Indent(lines[i]), key, first);
    FirstEntryIs(SetLine(lines, key, first), key, i);
  }

  lemma InsertedHere(lines: Lines, i: nat, key: string, line: string, next: string)
    requires i < |lines| && FirstEntry(lines, key).None? && IsEntry(line, key)
    ensures var edited := lines[..i + 1] + [line] + lines[i + 1..];
      && FirstEntry(edited, key) == Some(i + 1) && edited[i + 1] == line
      && edited[i + 1 := next] == lines[..i + 1] + [next] + lines[i + 1..]
  {
    var edited := lines[..i + 1] + [line] + lines[i + 1..];
    assert forall j :: 0 <= j <= i ==> edited[j] == lines[j];
    FirstEntryIs(edited, key, i + 1);
  }

  lemma {:induction false} InsertedAgain(lines: Lines, i: nat, key: string, first: string, second: string)
    requires IsKey(key) && FirstEntry(lines, key).None? && FirstHeader(lines) == Some(i)
    ensures SetLine(SetLine(lines, key, first), key, second) == SetLine(lines, key, second)
  {
    var line, next := "  " + EntryText(key, first), "  " + EntryText(key, second);
    WrittenEntry("  ", key, first);
    InsertedHere(lines, i, key, line, next);
  }

  lemma {:induction false} AppendedAgain(lines: Lines, key: string, first: string, second: string)
    requires IsKey(key) && FirstEntry(lines, key).None? && FirstHeader(lines).None? && lines != []
    ensures SetLine(SetLine(lines, key, first), key, second) == SetLine(lines, key, second)
  {
    WrittenEntry("  ", key, first);
    HeaderNoEntry("secrets:", key);
    EntryInBlock(Stripped(lines), Block(key, first), 2, key, "  " + EntryText(key, second));
    assert SetLine(lines, key, first) == Stripped(lines) + Block(key, first);
    assert Block(key, first)[2 := "  " + EntryText(key, second)] == Block(key, second);
  }

  lemma {:induction false} EntryInBlock(front: Lines, block: Lines, k: nat, key: string, line: string)
    requires k < |block| && IsEntry(block[k], key)
    requires forall j :: 0 <= j < |front| ==> !IsEntry(front[j], key)
    requires forall j :: 0 <= j < k ==> !IsEntry(block[j], key)
    ensures FirstEntry(front + block, key) == Some(|front| + k)
    ensures (front + block)[|front| + k := line] == front + block[k := line]
  {
    FirstEntryIs(front + block, key, |front| + k);
  }

  /** Setting a key again leaves only the last value: an edit can be repeated. */
  lemma SetAgain(lines: Lines, key: string, first: string, second: string)
    requires IsKey(key) && lines != []
    ensures SetLine(SetLine(lines, key, first), key, second) == SetLine(lines, key, second)
  {
    var entry, header := FirstEntry(lines, key), FirstHeader(lines);
    if entry.Some? {
      ReplacedAgain(lines, entry.value, key, first, second);
    } else if header.Some? {
      InsertedAgain(lines, header.value, key, first, second);
    } else {
      AppendedAgain(lines, key, first, second);
    }
  }

  lemma HeaderNoEntry(line: string, key: string)
    requires IsHeader(line)
    ensures !IsEntry(line, key)
  {
    assert line[..8][0] == line[0];
  }

  /** Setting two different keys that both exist commutes. */
  lemma {:induction false} SetCommutes(lines: Lines, a: string, x: string, b: string, y: string)
    requires IsKey(a) && IsKey(b) && a != b
    requires FirstEntry(lines, a).Some? && FirstEntry(lines, b).Some?
    ensures SetLine(SetLine(lines, a, x), b, y) == SetLine(SetLine(lines, b, y), a, x)
  {
    var i, j := FirstEntry(lines, a).value, FirstEntry(lines, b).value;
    OtherEntryStays(lines, a, x, b);
    OtherEntryStays(lines, b, y, a);
    KeysDiffer(lines[i], a, b);
    assert lines[i := Indent(lines[i]) + EntryText(a, x)][j] == lines[j];
  }

  lemma {:induction false} OtherEntryStays(lines: Lines, a: string, x: string, b: string)
    requires IsKey(a) && IsKey(b) && a != b && FirstEntry(lines, a).Some? && FirstEntry(lines, b).Some?
    ensures FirstEntry(SetLine(lines, a, x), b) == FirstEntry(lines, b)
  {
    var i, j := FirstEntry(lines, a).value, FirstEntry(lines, b).value;
    var edited := SetLine(lines, a, x);
    IndentIsBlank(lines[i]);
    WrittenEntry(Indent(lines[i]), a, x);
    KeysDiffer(edited[i], a, b);
    KeysDiffer(lines[i], a, b);
    FirstEntryIs(edited, b, j);
  }

  // ------------------------------------------------------------------ the text

  lemma WrittenFree(indent: string, key: string, value: string)
    requires Free(indent, '\n') && Free(key, '\n') && Free(value, '\n')
    ensures Free(indent + EntryText(key, value), '\n')
  {
    FreeAppend(" '", value, '\n');
    FreeAppend(" '" + value, "'", '\n');
    FreeAppend(key, ":", '\n');
    FreeAppend(key + ":", Quoted(value), '\n');
    FreeAppend(indent, EntryText(key, value), '\n');
  }

  /** The edited text, read again, has exactly the edited lines. */
  lemma {:induction false} TextOfLines(text: string, key: string, value: string)
    requires Free(key, '\n') && Free(value, '\n')
    ensures var edited := SetLine(Split(text, '\n'), key, value);
      edited != [] && Split(Join(edited, '\n'), '\n') == edited
  {
    var lines := Split(text, '\n');
    SplitFree(text, '\n');
    var entry := FirstEntry(lines, key);
    WrittenFree("  ", key, value);
    if entry.Some? {
      var line := lines[entry.value];
      FreePart(line, 0, |Indent(line)|, '\n');
      assert Indent(line) == line[0..|Indent(line)|];
      WrittenFree(Indent(line), key, value);
    }
    SplitJoin(SetLine(lines, key, value), '\n');
  }
}
