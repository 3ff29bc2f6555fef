/** The kernel command line of a snapshot's boot entry: what the sed and tr pipeline of
    `build_snapshot_cmdline` does to the installed system's line, character by character, and
    what that means parameter by parameter. */
module SnapshotCmdline {
  import opened Text
  import opened Replacement

  const ROOTFLAGS := "rootflags="
  const SUBVOL := "subvol="

  // ---- s|rootflags=([^[:space:]]*)?subvol=[^,[:space:]]*|rootflags=\1subvol=X| ----

  /** The characters up to the next space. */
  function Run(t: string): (r: string)
    ensures |r| <= |t| && t[..|r|] == r && Free(r, ' ')
    ensures |r| < |t| ==> t[|r|] == ' '
  {
    if t == "" || t[0] == ' ' then "" else [t[0]] + Run(t[1..])
  }

  predicate HasSubvol(s: string) {
    Has(s, SUBVOL)
  }

  /** The mount options with the value after the last "subvol=" replaced. */
  function RewriteFlags(flags: string, subvolume: string): string
    requires HasSubvol(flags)
  {
    ReplaceLast(flags, SUBVOL, ',', subvolume)
  }

  function RewrittenParameter(flags: string, subvolume: string): string
    requires HasSubvol(flags)
  {
    ROOTFLAGS + RewriteFlags(flags, subvolume)
  }

  predicate MatchHere(t: string) {
    StartsWith(t, ROOTFLAGS) && HasSubvol(Run(t[|ROOTFLAGS|..]))
  }

  predicate Matches(t: string) {
    t != "" && (MatchHere(t) || Matches(t[1..]))
  }

  /** The first match is replaced. */
  function Substitute(t: string, subvolume: string): string {
    if t == "" then ""
    else if MatchHere(t) then
      var flags := Run(t[|ROOTFLAGS|..]);
      RewrittenParameter(flags, subvolume) + t[|ROOTFLAGS| + |flags|..]
    else [t[0]] + Substitute(t[1..], subvolume)
  }

  // ---- s/\brw\b//g; s/\bro\b//g, then tr -s ' ' ----

  predicate IsWordCharacter(c: char) {
    'a' <= c <= 'z' || 'A' <= c <= 'Z' || IsDigit(c) || c == '_'
  }

  function RemoveWord(t: string, afterWord: bool, word: string): string
    requires word != ""
  {
    if t == "" then ""
    else if !afterWord && StartsWith(t, word) && (|t| == |word| || !IsWordCharacter(t[|word|])) then
      RemoveWord(t[|word|..], true, word)
    else [t[0]] + RemoveWord(t[1..], IsWordCharacter(t[0]), word)
  }

  function Squeeze(t: string): string {
    if |t| < 2 then t
    else if t[0] == ' ' && t[1] == ' ' then Squeeze(t[1..])
    else [t[0]] + Squeeze(t[1..])
  }

  function WithoutMode(t: string): string {
    RemoveWord(RemoveWord(t, false, "rw"), false, "ro")
  }

  // ---- build_snapshot_cmdline ----

  /** `grep -q "rd.luks"`, where the dot is any character. */
  predicate HasLuks(t: string) {
    exists i :: 0 <= i <= |t| && LuksHere(t[i..])
  }

  predicate LuksHere(t: string) {
    |t| >= 7 && t[..2] == "rd" && t[3..7] == "luks"
  }

  function WithLuks(base: string, luksUuid: Option<string>): string {
    if HasLuks(base) || luksUuid.None? then base
    else "rd.luks.name=" + luksUuid.value + "=cryptroot" + " " + "root=/dev/mapper/cryptroot" + " " + base
  }

  function WithSubvolume(line: string, subvolume: string): string {
    if Contains(line, ROOTFLAGS) then Substitute(line, subvolume)
    else line + " " + ROOTFLAGS + SUBVOL + subvolume
  }

  function BuildSnapshotCmdline(base: string, luksUuid: Option<string>, subvolume: string, mode: string): string {
    Squeeze(WithoutMode(WithSubvolume(WithLuks(base, luksUuid), subvolume))) + " " + mode
  }

  // ---- the same, parameter by parameter ----

  function NonEmpty(words: seq<string>): seq<string> {
    if words == [] then []
    else if words[0] == "" then NonEmpty(words[1..])
    else [words[0]] + NonEmpty(words[1..])
  }

  /** The parameters the kernel sees. */
  function Parameters(line: string): seq<string> {
    NonEmpty(Split(line, ' '))
  }

  function SubstituteFirst(words: seq<string>, subvolume: string): seq<string> {
    if words == [] then []
    else if Matches(words[0]) then [Substitute(words[0], subvolume)] + words[1..]
    else [words[0]] + SubstituteFirst(words[1..], subvolume)
  }

  function EachWithout(words: seq<string>, word: string): (r: seq<string>)
    requires word != ""
    ensures |r| == |words|
  {
    if words == [] then [] else [RemoveWord(words[0], false, word)] + EachWithout(words[1..], word)
  }

  lemma {:induction false} NonEmptyAppend(a: seq<string>, b: seq<string>)
    ensures NonEmpty(a + b) == NonEmpty(a) + NonEmpty(b)
  {
    if a == [] {
      assert a + b == b;
    } else {
      assert (a + b)[1..] == a[1..] + b;
      NonEmptyAppend(a[1..], b);
    }
  }

  lemma {:induction false} RunStopsAtSpace(a: string, rest: string)
    requires Free(a, ' ')
    ensures Run(a + " " + rest) == a && Run(a) == a
  {
    if a != "" {
      assert a[0] in a;
      assert (a + " " + rest)[1..] == a[1..] + " " + rest;
      RunStopsAtSpace(a[1..], rest);
    }
  }

  lemma PrefixWithinWord(a: string, rest: string, prefix: string)
    requires Free(prefix, ' ')
    ensures StartsWith(a + " " + rest, prefix) <==> StartsWith(a, prefix)
  {
    assert a + " " + rest == a + (" " + rest);
    PrefixBefore(a, " " + rest, prefix, ' ');
  }

  lemma MatchWithinWord(a: string, rest: string)
    requires Free(a, ' ') && StartsWith(a, ROOTFLAGS)
    ensures var t := a + " " + rest;
            && StartsWith(t, ROOTFLAGS)
            && Run(t[|ROOTFLAGS|..]) == Run(a[|ROOTFLAGS|..]) == a[|ROOTFLAGS|..]
            && t[|ROOTFLAGS| + |a[|ROOTFLAGS|..]|..] == " " + rest
            && a[|ROOTFLAGS| + |a[|ROOTFLAGS|..]|..] == ""
  {
    var t := a + " " + rest;
    PrefixWithinWord(a, rest, ROOTFLAGS);
    var tail := a[|ROOTFLAGS|..];
    assert t[|ROOTFLAGS|..] == tail + " " + rest;
    RunStopsAtSpace(tail, rest);
  }

  lemma MatchIsWithinWord(a: string, rest: string)
    requires Free(a, ' ')
    ensures MatchHere(a + " " + rest) <==> MatchHere(a)
  {
    PrefixWithinWord(a, rest, ROOTFLAGS);
    if StartsWith(a, ROOTFLAGS) {
      MatchWithinWord(a, rest);
    }
  }

  lemma {:induction false} SubstituteMatchedWord(a: string, rest: string, x: string)
    requires Free(a, ' ') && MatchHere(a)
    ensures Substitute(a + " " + rest, x) == Substitute(a, x) + " " + rest
  {
    MatchIsWithinWord(a, rest);
    MatchWithinWord(a, rest);
    var flags, t := a[|ROOTFLAGS|..], a + " " + rest;
    SubstituteHere(a, flags, "", x);
    SubstituteHere(t, flags, " " + rest, x);
    AppendRest(RewrittenParameter(flags, x), rest);
  }

  lemma {:induction false} SubstituteHere(t: string, flags: string, tail: string, x: string)
    requires MatchHere(t) && Run(t[|ROOTFLAGS|..]) == flags && t[|ROOTFLAGS| + |flags|..] == tail
    ensures Substitute(t, x) == RewrittenParameter(flags, x) + tail
  {
  }

  lemma AppendRest(rewritten: string, rest: string)
    ensures rewritten + "" == rewritten && rewritten + (" " + rest) == rewritten + " " + rest
  {
  }

  /** sed's match lies within one parameter, so the first matching parameter is rewritten. */
  lemma {:induction false} SubstituteWord(a: string, rest: string, x: string)
    requires Free(a, ' ')
    ensures Substitute(a + " " + rest, x)
            == if Matches(a) then Substitute(a, x) + " " + rest else a + " " + Substitute(rest, x)
  {
    MatchIsWithinWord(a, rest);
    if MatchHere(a) {
      SubstituteMatchedWord(a, rest, x);
    } else if a == "" {
      assert (a + " " + rest)[1..] == rest;
    } else {
      assert a[0] in a && (a + " " + rest)[1..] == a[1..] + " " + rest;
      SubstituteWord(a[1..], rest, x);
      Prepend(a[0], a[1..], Substitute(a[1..], x), rest, Substitute(rest, x), a);
    }
  }

  lemma Prepend(c: char, tail: string, tail': string, rest: string, rest': string, a: string)
    requires a == [c] + tail
    ensures [c] + (tail' + " " + rest) == ([c] + tail') + " " + rest
    ensures [c] + (tail + " " + rest') == a + " " + rest'
  {
  }

  lemma {:induction false} NoMatchNoChange(a: string, x: string)
    requires !Matches(a)
    ensures Substitute(a, x) == a
  {
    if a != "" {
      NoMatchNoChange(a[1..], x);
    }
  }

  lemma {:induction false} SubstituteLine(words: seq<string>, x: string)
    requires |words| >= 1 && AllFree(words, ' ')
    ensures |SubstituteFirst(words, x)| == |words|
    ensures Substitute(Join(words, ' '), x) == Join(SubstituteFirst(words, x), ' ')
  {
    if |words| == 1 {
      if !Matches(words[0]) {
        NoMatchNoChange(words[0], x);
      }
    } else {
      SubstituteWord(words[0], Join(words[1..], ' '), x);
      assert AllFree(words[1..], ' ');
      SubstituteLine(words[1..], x);
      var r := SubstituteFirst(words, x);
      assert r[1..] == if Matches(words[0]) then words[1..] else SubstituteFirst(words[1..], x);
    }
  }

  // ---- what removing a word between word boundaries removes ----

  /** The word stands at i with a word boundary on both sides; `afterWord` tells what precedes
      the text. */
  predicate StandsAt(t: string, afterWord: bool, word: string, i: nat) {
    && i + |word| <= |t| && t[i..i + |word|] == word
    && (if i == 0 then !afterWord else !IsWordCharacter(t[i - 1]))
    && (i + |word| == |t| || !IsWordCharacter(t[i + |word|]))
  }

  /** The word stands nowhere in the text. */
  predicate StandsNowhere(t: string, word: string) {
    forall i: nat :: i <= |t| ==> !StandsAt(t, false, word, i)
  }

  lemma StandsFurtherOn(t: string, afterWord: bool, word: string, i: nat)
    requires t != "" && i < |t|
    ensures StandsAt(t, afterWord, word, i + 1) <==> StandsAt(t[1..], IsWordCharacter(t[0]), word, i)
  {
    if i + 1 + |word| <= |t| {
      assert t[1..][i..i + |word|] == t[i + 1..i + 1 + |word|];
    }
  }

  lemma CutFurtherOn(t: string, i: nat, word: string, rest: string)
    requires 0 < i && i + |word| <= |t|
    ensures [t[0]] + (t[1..][..i - 1] + rest) == t[..i] + rest
    ensures t[1..][i - 1 + |word|..] == t[i + |word|..]
  {
  }

  /** The first occurrence that stands is cut out, and so are those in what follows it. */
  lemma {:induction false} FirstIsCut(t: string, afterWord: bool, word: string, i: nat)
    requires word != "" && StandsAt(t, afterWord, word, i)
    requires forall j: nat :: j < i ==> !StandsAt(t, afterWord, word, j)
    ensures RemoveWord(t, afterWord, word) == t[..i] + RemoveWord(t[i + |word|..], true, word)
  {
    if i == 0 {
      assert t[..|word|] == word;
    } else {
      var n: nat := i - 1;
      assert !StandsAt(t, afterWord, word, 0);
      assert t[0..|word|] == t[..|word|];
      forall j: nat | j < n
        ensures !StandsAt(t[1..], IsWordCharacter(t[0]), word, j)
      {
        StandsFurtherOn(t, afterWord, word, j);
        assert !StandsAt(t, afterWord, word, j + 1);
      }
      StandsFurtherOn(t, afterWord, word, n);
      FirstIsCut(t[1..], IsWordCharacter(t[0]), word, n);
      CutFurtherOn(t, i, word, RemoveWord(t[i + |word|..], true, word));
    }
  }

  lemma {:induction false} NothingIsCut(t: string, afterWord: bool, word: string)
    requires word != "" && forall i: nat :: i <= |t| ==> !StandsAt(t, afterWord, word, i)
    ensures RemoveWord(t, afterWord, word) == t
  {
    if t != "" {
      assert !StandsAt(t, afterWord, word, 0);
      if |word| <= |t| {
        assert t[0..|word|] == t[..|word|];
      }
      forall i: nat | i <= |t[1..]|
        ensures !StandsAt(t[1..], IsWordCharacter(t[0]), word, i)
      {
        if i < |t| {
          StandsFurtherOn(t, afterWord, word, i);
          assert !StandsAt(t, afterWord, word, i + 1);
        }
      }
      NothingIsCut(t[1..], IsWordCharacter(t[0]), word);
    }
  }

  lemma {:induction false} NeverLonger(t: string, afterWord: bool, word: string)
    requires word != ""
    ensures |RemoveWord(t, afterWord, word)| <= |t|
    decreases |t|
  {
    if t == "" {
    } else if !afterWord && StartsWith(t, word) && (|t| == |word| || !IsWordCharacter(t[|word|])) {
      NeverLonger(t[|word|..], true, word);
    } else {
      NeverLonger(t[1..], IsWordCharacter(t[0]), word);
    }
  }

  lemma {:induction false} ShorterUnlessSame(t: string, afterWord: bool, word: string)
    requires word != ""
    ensures RemoveWord(t, afterWord, word) == t || |RemoveWord(t, afterWord, word)| < |t|
    decreases |t|
  {
    if t == "" {
    } else if !afterWord && StartsWith(t, word) && (|t| == |word| || !IsWordCharacter(t[|word|])) {
      NeverLonger(t[|word|..], true, word);
    } else {
      ShorterUnlessSame(t[1..], IsWordCharacter(t[0]), word);
    }
  }

  function FirstStanding(t: string, word: string, i: nat): (j: nat)
    requires i <= |t| && exists k: nat :: i <= k <= |t| && StandsAt(t, false, word, k)
    requires forall k: nat :: k < i ==> !StandsAt(t, false, word, k)
    ensures j <= |t| && StandsAt(t, false, word, j) && forall k: nat :: k < j ==> !StandsAt(t, false, word, k)
    decreases |t| - i
  {
    if StandsAt(t, false, word, i) then i else FirstStanding(t, word, i + 1)
  }

  /** A text is left as it is exactly when the word stands nowhere in it. */
  lemma {:induction false} RemovesWhatStands(t: string, word: string)
    requires word != ""
    ensures RemoveWord(t, false, word) == t <==> StandsNowhere(t, word)
  {
    if StandsNowhere(t, word) {
      NothingIsCut(t, false, word);
    } else {
      var i := FirstStanding(t, word, 0);
      FirstIsCut(t, false, word, i);
      NeverLonger(t[i + |word|..], true, word);
    }
  }

  predicate AllWordCharacters(t: string) {
    forall i :: 0 <= i < |t| ==> IsWordCharacter(t[i])
  }

  /** In a run of word characters only the whole can stand. */
  lemma WholeRunStands(t: string, word: string)
    requires AllWordCharacters(t) && word != "" && t != word
    ensures StandsNowhere(t, word)
  {
    assert t[0..|t|] == t;
    forall i: nat | i <= |t|
      ensures !StandsAt(t, false, word, i)
    {
      if 0 < i {
        assert IsWordCharacter(t[i - 1]);
      } else if |word| < |t| {
        assert IsWordCharacter(t[|word|]);
      }
    }
  }

  lemma StandsBefore(a: string, c: char, b: string, word: string, i: nat)
    requires !IsWordCharacter(c) && i + |word| <= |a|
    ensures StandsAt(a + [c] + b, false, word, i) <==> StandsAt(a, false, word, i)
  {
    var t := a + [c] + b;
    assert t[i..i + |word|] == a[i..i + |word|];
  }

  lemma StandsAfter(a: string, c: char, b: string, word: string, i: nat)
    requires !IsWordCharacter(c) && i + |word| <= |b|
    ensures StandsAt(a + [c] + b, false, word, |a| + 1 + i) <==> StandsAt(b, false, word, i)
  {
    var t, j := a + [c] + b, |a| + 1 + i;
    assert t[j..j + |word|] == b[i..i + |word|];
    assert t[j - 1] == if i == 0 then c else b[i - 1];
    assert i + |word| < |b| ==> t[j + |word|] == b[i + |word|];
  }

  lemma StandsAcross(a: string, c: char, b: string, word: string, i: nat)
    requires !IsWordCharacter(c) && Free(word, c) && i <= |a| < i + |word|
    ensures !StandsAt(a + [c] + b, false, word, i)
  {
    var t := a + [c] + b;
    if i + |word| <= |t| {
      assert t[i..i + |word|][|a| - i] == c;
    }
  }

  /** A character outside words separates: what stands, stands on one side of it. */
  lemma StandsOnOneSide(a: string, c: char, b: string, word: string)
    requires !IsWordCharacter(c) && Free(word, c)
    ensures StandsNowhere(a + [c] + b, word) <==> StandsNowhere(a, word) && StandsNowhere(b, word)
  {
    var t := a + [c] + b;
    forall i: nat | i <= |a|
      ensures StandsAt(a, false, word, i) ==> StandsAt(t, false, word, i)
    {
      if i + |word| <= |a| {
        StandsBefore(a, c, b, word, i);
      }
    }
    forall i: nat | i <= |b|
      ensures StandsAt(b, false, word, i) ==> StandsAt(t, false, word, |a| + 1 + i)
    {
      if i + |word| <= |b| {
        StandsAfter(a, c, b, word, i);
      }
    }
    if StandsNowhere(a, word) && StandsNowhere(b, word) {
      forall i: nat | i <= |t|
        ensures !StandsAt(t, false, word, i)
      {
        if i + |word| <= |a| {
          StandsBefore(a, c, b, word, i);
        } else if i <= |a| {
          StandsAcross(a, c, b, word, i);
        } else if i + |word| <= |t| {
          StandsAfter(a, c, b, word, i - |a| - 1);
        }
      }
    }
  }

  lemma {:induction false} RemoveWithinWord(a: string, rest: string, afterWord: bool, word: string)
    requires word != "" && Free(word, ' ')
    ensures RemoveWord(a + " " + rest, afterWord, word)
            == RemoveWord(a, afterWord, word) + " " + RemoveWord(rest, false, word)
    decreases |a|
  {
    var t := a + " " + rest;
    PrefixWithinWord(a, rest, word);
    if a == "" {
      assert t[0] == ' ' && t[1..] == rest;
      assert !StartsWith("", word);
    } else if StartsWith(a, word) && !afterWord && (|a| == |word| || !IsWordCharacter(a[|word|])) {
      assert t[|word|..] == a[|word|..] + " " + rest;
      assert t[|word|] == if |a| == |word| then ' ' else a[|word|];
      RemoveWithinWord(a[|word|..], rest, true, word);
    } else {
      assert t[1..] == a[1..] + " " + rest;
      assert StartsWith(a, word) ==> t[|word|] == if |a| == |word| then ' ' else a[|word|];
      RemoveWithinWord(a[1..], rest, IsWordCharacter(a[0]), word);
    }
  }

  lemma {:induction false} RemoveFromLine(words: seq<string>, word: string)
    requires |words| >= 1 && word != "" && Free(word, ' ')
    ensures RemoveWord(Join(words, ' '), false, word) == Join(EachWithout(words, word), ' ')
  {
    if |words| > 1 {
      RemoveWithinWord(words[0], Join(words[1..], ' '), false, word);
      RemoveFromLine(words[1..], word);
      assert EachWithout(words, word)[1..] == EachWithout(words[1..], word);
    }
  }

  lemma {:induction false} RemoveAddsNothing(t: string, afterWord: bool, word: string, c: char)
    requires word != "" && Free(t, c)
    ensures Free(RemoveWord(t, afterWord, word), c)
    decreases |t|
  {
    if t == "" {
    } else if !afterWord && StartsWith(t, word) && (|t| == |word| || !IsWordCharacter(t[|word|])) {
      RemoveAddsNothing(t[|word|..], true, word, c);
    } else {
      assert t[0] in t;
      RemoveAddsNothing(t[1..], IsWordCharacter(t[0]), word, c);
    }
  }

  lemma {:induction false} EachWithoutIsFree(words: seq<string>, word: string)
    requires word != "" && AllFree(words, ' ')
    ensures AllFree(EachWithout(words, word), ' ')
  {
    if words != [] {
      assert Free(words[0], ' ');
      RemoveAddsNothing(words[0], false, word, ' ');
      assert AllFree(words[1..], ' ');
      EachWithoutIsFree(words[1..], word);
    }
  }

  lemma {:induction false} SqueezeKeepsParameters(t: string)
    ensures Split(Squeeze(t), ' ')[0] == Split(t, ' ')[0]
    ensures NonEmpty(Split(Squeeze(t), ' ')[1..]) == NonEmpty(Split(t, ' ')[1..])
  {
    if |t| >= 2 {
      SqueezeKeepsParameters(t[1..]);
      var parts, squeezed := Split(t[1..], ' '), Split(Squeeze(t[1..]), ' ');
      if t[0] == ' ' {
        assert Split(t, ' ')[1..] == parts;
        assert parts == [parts[0]] + parts[1..];
        assert squeezed == [squeezed[0]] + squeezed[1..];
        if t[1] != ' ' {
          assert (" " + Squeeze(t[1..]))[1..] == Squeeze(t[1..]);
          assert Split(Squeeze(t), ' ')[1..] == squeezed;
        }
      } else {
        assert ([t[0]] + Squeeze(t[1..]))[1..] == Squeeze(t[1..]);
        assert Split(Squeeze(t), ' ')[1..] == squeezed[1..];
        assert Split(t, ' ')[1..] == parts[1..];
      }
    }
  }

  lemma {:induction false} SqueezedParameters(t: string)
    ensures Parameters(Squeeze(t)) == Parameters(t)
  {
    SqueezeKeepsParameters(t);
    var a, b := Split(Squeeze(t), ' '), Split(t, ' ');
    assert a == [a[0]] + a[1..] && b == [b[0]] + b[1..];
  }
}
