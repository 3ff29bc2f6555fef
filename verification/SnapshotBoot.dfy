/** What a snapshot's command line makes the kernel do, given the installed system's line. */
module SnapshotBoot {
  import opened Text
  import opened Replacement
  import opened SnapshotCmdline

  // ---- the whole pipeline, parameter by parameter ----

  lemma {:induction false} SubstituteIsFree(a: string, x: string)
    requires Free(a, ' ') && Free(x, ' ')
    ensures Free(Substitute(a, x), ' ')
  {
    if a == "" {
    } else if MatchHere(a) {
      var flags := a[|ROOTFLAGS|..];
      FreePart(a, |ROOTFLAGS|, |a|, ' ');
      RunOfFree(flags);
      ReplaceIsFree(flags, SUBVOL, ',', x, ' ');
      FreeAppend(ROOTFLAGS, RewriteFlags(flags, x), ' ');
      assert a[|ROOTFLAGS| + |flags|..] == "";
    } else {
      assert a[0] in a;
      FreePart(a, 1, |a|, ' ');
      SubstituteIsFree(a[1..], x);
    }
  }

  lemma {:induction false} SubstituteFirstIsFree(words: seq<string>, x: string)
    requires AllFree(words, ' ') && Free(x, ' ')
    ensures AllFree(SubstituteFirst(words, x), ' ')
  {
    if words != [] {
      assert Free(words[0], ' ');
      SubstituteIsFree(words[0], x);
      assert AllFree(words[1..], ' ');
      SubstituteFirstIsFree(words[1..], x);
    }
  }

  /** The words of the line with the snapshot's subvolume in it. */
  function SubvolumeWords(line: string, x: string): seq<string> {
    if Contains(line, ROOTFLAGS) then SubstituteFirst(Split(line, ' '), x)
    else Split(line, ' ') + [ROOTFLAGS + SUBVOL + x]
  }

  lemma SubvolumeWordsOfLine(line: string, x: string)
    requires Free(x, ' ')
    ensures Split(WithSubvolume(line, x), ' ') == SubvolumeWords(line, x)
  {
    var words := Split(line, ' ');
    SplitFree(line, ' ');
    JoinSplit(line, ' ');
    if Contains(line, ROOTFLAGS) {
      SubstituteLine(words, x);
      SubstituteFirstIsFree(words, x);
      SplitJoin(SubstituteFirst(words, x), ' ');
    } else {
      var parameter := ROOTFLAGS + SUBVOL + x;
      assert WithSubvolume(line, x) == line + [' '] + parameter;
      SplitAppend(line, parameter, ' ');
      SplitOne(parameter, ' ');
    }
  }

  lemma {:induction false} WithoutModeByWord(line: string)
    ensures Split(WithoutMode(line), ' ') == EachWithout(EachWithout(Split(line, ' '), "rw"), "ro")
  {
    var words := Split(line, ' ');
    SplitFree(line, ' ');
    JoinSplit(line, ' ');
    RemoveFromLine(words, "rw");
    EachWithoutIsFree(words, "rw");
    var once := EachWithout(words, "rw");
    RemoveFromLine(once, "ro");
    EachWithoutIsFree(once, "ro");
    SplitJoin(EachWithout(once, "ro"), ' ');
  }

  /** For every line: the pipeline acts on each parameter by itself. */
  lemma SnapshotLineByWord(base: string, x: string, mode: string)
    requires Free(x, ' ') && Free(mode, ' ') && mode != ""
    ensures Parameters(BuildSnapshotCmdline(base, None, x, mode))
            == NonEmpty(EachWithout(EachWithout(SubvolumeWords(base, x), "rw"), "ro")) + [mode]
  {
    var bare := WithoutMode(WithSubvolume(base, x));
    SubvolumeWordsOfLine(base, x);
    WithoutModeByWord(WithSubvolume(base, x));
    SplitAppend(Squeeze(bare), mode, ' ');
    SplitOne(mode, ' ');
    NonEmptyAppend(Split(Squeeze(bare), ' '), [mode]);
    assert NonEmpty([mode]) == [mode];
    SqueezedParameters(bare);
  }

  // ---- lines such as the installer writes ----

  predicate IsMode(p: string) {
    p == "rw" || p == "ro"
  }

  function WithoutModes(words: seq<string>): seq<string> {
    if words == [] then []
    else if IsMode(words[0]) then WithoutModes(words[1..])
    else [words[0]] + WithoutModes(words[1..])
  }

  /** Neither rw nor ro stands as a word in the text. */
  predicate NoMode(p: string) {
    StandsNowhere(p, "rw") && StandsNowhere(p, "ro")
  }

  /** Neither rw nor ro is a word inside the parameter. */
  predicate Steady(p: string) {
    IsMode(p) || NoMode(p)
  }

  predicate AllSteady(words: seq<string>) {
    forall i :: 0 <= i < |words| ==> Steady(words[i])
  }

  predicate HasRootflags(s: string) {
    Has(s, ROOTFLAGS)
  }

  /** Parameter k is the only one with root flags in it. */
  predicate OnlyRootflags(words: seq<string>, k: nat, flags: string) {
    && k < |words| && words[k] == ROOTFLAGS + flags && Free(flags, ' ')
    && !HasRootflags(words[k][1..])
    && forall i :: 0 <= i < |words| && i != k ==> !HasRootflags(words[i])
  }

  function NewFlags(flags: string, x: string): string {
    if HasSubvol(flags) then RewriteFlags(flags, x) else flags
  }

  lemma {:induction false} NoRootflagsNoMatch(s: string)
    requires !HasRootflags(s)
    ensures !Matches(s)
  {
    if s != "" {
      NoRootflagsNoMatch(s[1..]);
    }
  }

  lemma {:induction false} RunOfFree(s: string)
    requires Free(s, ' ')
    ensures Run(s) == s
  {
    if s != "" {
      assert s[0] in s;
      RunOfFree(s[1..]);
    }
  }

  lemma {:induction false} RewriteParameter(p: string, flags: string, x: string)
    requires p == ROOTFLAGS + flags && Free(flags, ' ') && !HasRootflags(p[1..])
    ensures Matches(p) <==> HasSubvol(flags)
    ensures Matches(p) ==> Substitute(p, x) == ROOTFLAGS + NewFlags(flags, x)
  {
    assert p[..|ROOTFLAGS|] == ROOTFLAGS && p[|ROOTFLAGS|..] == flags;
    RunOfFree(flags);
    NoRootflagsNoMatch(p[1..]);
    assert p[|ROOTFLAGS| + |flags|..] == "";
  }

  lemma UpdateParts(words: seq<string>, k: nat, p: string)
    requires k < |words|
    ensures words[k := p] == if k == 0 then [p] + words[1..] else [words[0]] + words[1..][k - 1 := p]
  {
  }

  lemma {:induction false} RewrittenAt(words: seq<string>, k: nat, p: string, x: string)
    requires k < |words|
    requires if Matches(words[k]) then Substitute(words[k], x) == p else words[k] == p
    requires forall i :: 0 <= i < |words| && i != k ==> !Matches(words[i])
    ensures SubstituteFirst(words, x) == words[k := p]
  {
    UpdateParts(words, k, p);
    if k == 0 {
      NothingIsRewritten(words[1..], x);
    } else {
      RewrittenAt(words[1..], k - 1, p, x);
    }
  }

  lemma {:induction false} NothingIsRewritten(words: seq<string>, x: string)
    requires forall i :: 0 <= i < |words| ==> !Matches(words[i])
    ensures SubstituteFirst(words, x) == words
  {
    if words != [] {
      NothingIsRewritten(words[1..], x);
    }
  }

  lemma {:induction false} OnlyOneIsRewritten(words: seq<string>, k: nat, flags: string, x: string)
    requires OnlyRootflags(words, k, flags)
    ensures SubstituteFirst(words, x) == words[k := ROOTFLAGS + NewFlags(flags, x)]
  {
    RewriteParameter(words[k], flags, x);
    forall i | 0 <= i < |words| && i != k
      ensures !Matches(words[i])
    {
      NoRootflagsNoMatch(words[i]);
    }
    RewrittenAt(words, k, ROOTFLAGS + NewFlags(flags, x), x);
  }

  /** Removing the modes takes something from a parameter exactly when one stands in it. */
  lemma ModesStand(p: string)
    ensures |WithoutMode(p)| <= |p| && (WithoutMode(p) == p <==> NoMode(p))
    ensures WithoutMode(p) != p ==> |WithoutMode(p)| < |p|
  {
    var once := RemoveWord(p, false, "rw");
    RemovesWhatStands(p, "rw");
    RemovesWhatStands(once, "ro");
    ShorterUnlessSame(p, false, "rw");
    ShorterUnlessSame(once, false, "ro");
  }

  function TotalLength(words: seq<string>): nat {
    if words == [] then 0 else |words[0]| + TotalLength(words[1..])
  }

  function EachWithoutMode(words: seq<string>): seq<string> {
    EachWithout(EachWithout(words, "rw"), "ro")
  }

  lemma {:induction false} ModesRemovedFromEach(words: seq<string>)
    requires words != []
    ensures EachWithoutMode(words) == [WithoutMode(words[0])] + EachWithoutMode(words[1..])
  {
    assert EachWithout(words, "rw")[1..] == EachWithout(words[1..], "rw");
  }

  lemma {:induction false} EachShorter(words: seq<string>)
    ensures TotalLength(NonEmpty(EachWithoutMode(words))) <= TotalLength(WithoutModes(NonEmpty(words)))
    ensures NonEmpty(EachWithoutMode(words)) == WithoutModes(NonEmpty(words)) ==> AllSteady(words)
    ensures !AllSteady(words) ==>
      TotalLength(NonEmpty(EachWithoutMode(words))) < TotalLength(WithoutModes(NonEmpty(words)))
  {
    if words != [] {
      EachShorter(words[1..]);
      ModesRemovedFromEach(words);
      ModesVanish();
      ModesStand(words[0]);
      assert AllSteady(words) <==> Steady(words[0]) && AllSteady(words[1..]);
      OneNonEmpty(WithoutMode(words[0]), EachWithoutMode(words[1..]));
      assert words == [words[0]] + words[1..];
      OneNonEmpty(words[0], words[1..]);
    }
  }

  lemma {:induction false} OneNonEmpty(word: string, rest: seq<string>)
    ensures NonEmpty([word] + rest) == if word == "" then NonEmpty(rest) else [word] + NonEmpty(rest)
    ensures TotalLength(NonEmpty([word] + rest)) == |word| + TotalLength(NonEmpty(rest))
    ensures WithoutModes(NonEmpty([word] + rest))
      == if word == "" || IsMode(word) then WithoutModes(NonEmpty(rest)) else [word] + WithoutModes(NonEmpty(rest))
    ensures TotalLength(WithoutModes(NonEmpty([word] + rest)))
      == (if IsMode(word) then 0 else |word|) + TotalLength(WithoutModes(NonEmpty(rest)))
  {
    assert ([word] + rest)[1..] == rest;
    if word != "" {
      assert ([word] + NonEmpty(rest))[1..] == NonEmpty(rest);
      assert ([word] + WithoutModes(NonEmpty(rest)))[1..] == WithoutModes(NonEmpty(rest));
    }
  }

  /** Removing the modes from each word leaves out the modes and keeps the other words, exactly
      when no mode stands inside another word. */
  lemma {:induction false} SteadyWords(words: seq<string>)
    ensures NonEmpty(EachWithoutMode(words)) == WithoutModes(NonEmpty(words)) <==> AllSteady(words)
  {
    EachShorter(words);
    if AllSteady(words) {
      SteadyWordsStay(words);
    }
  }

  lemma {:induction false} SteadyWordsStay(words: seq<string>)
    requires AllSteady(words)
    ensures NonEmpty(EachWithoutMode(words)) == WithoutModes(NonEmpty(words))
  {
    if words != [] {
      assert Steady(words[0]);
      assert AllSteady(words[1..]);
      SteadyWordsStay(words[1..]);
      ModesVanish();
      ModesStand(words[0]);
      ModesRemovedFromEach(words);
      OneNonEmpty(WithoutMode(words[0]), EachWithoutMode(words[1..]));
      assert words == [words[0]] + words[1..];
      OneNonEmpty(words[0], words[1..]);
    }
  }

  lemma ModesVanish()
    ensures WithoutMode("rw") == "" && WithoutMode("ro") == ""
  {
    assert "rw"[2..] == "" && "ro"[2..] == "";
    assert "ro"[1..] == "o" && "o"[1..] == "";
  }

  lemma {:induction false} SubstituteAmongNonEmpty(words: seq<string>, x: string)
    ensures NonEmpty(SubstituteFirst(words, x)) == SubstituteFirst(NonEmpty(words), x)
  {
    if words != [] {
      if Matches(words[0]) {
        assert SubstituteFirst(words, x)[1..] == words[1..];
        assert NonEmpty(words)[1..] == NonEmpty(words[1..]);
        assert Substitute(words[0], x) != "";
      } else {
        SubstituteAmongNonEmpty(words[1..], x);
        assert SubstituteFirst(words, x)[1..] == SubstituteFirst(words[1..], x);
        if words[0] != "" {
          assert NonEmpty(words)[1..] == NonEmpty(words[1..]);
        }
      }
    }
  }

  lemma {:induction false} SteadyFromNonEmpty(words: seq<string>)
    ensures AllSteady(NonEmpty(words)) <==> AllSteady(words)
  {
    if words != [] {
      if words[0] == "" {
        assert Steady("");
      } else {
        assert NonEmpty(words)[0] == words[0] && NonEmpty(words)[1..] == NonEmpty(words[1..]);
      }
      SteadyFromNonEmpty(words[1..]);
    }
  }

  lemma {:induction false} NonEmptyFromWords(words: seq<string>, k: nat) returns (i: nat)
    requires k < |NonEmpty(words)|
    ensures i < |words| && words[i] == NonEmpty(words)[k]
  {
    if words[0] == "" {
      i := NonEmptyFromWords(words[1..], k);
      i := i + 1;
    } else if k == 0 {
      i := 0;
    } else {
      assert NonEmpty(words)[k] == NonEmpty(words[1..])[k - 1];
      i := NonEmptyFromWords(words[1..], k - 1);
      i := i + 1;
    }
  }

  lemma ParameterOccurs(line: string, k: nat, prefix: string)
    requires k < |Parameters(line)| && StartsWith(Parameters(line)[k], prefix)
    ensures Contains(line, prefix)
  {
    var i := NonEmptyFromWords(Split(line, ' '), k);
    PartOccurs(line, ' ', i, prefix);
  }

  /** The parameters of the snapshot's line, as the installer's line calls for them. */
  function SnapshotParameters(ps: seq<string>, k: nat, flags: string, x: string, mode: string): seq<string>
    requires k < |ps|
  {
    WithoutModes(ps[k := ROOTFLAGS + NewFlags(flags, x)]) + [mode]
  }

  lemma RootFlagsIsNoMode(flags: string)
    ensures !IsMode(ROOTFLAGS + flags)
  {
    assert |ROOTFLAGS + flags| > 2;
  }

  /** All other parameters survive in order, only the subvol option changes, and the line ends
      in a single mode: exactly when neither mode stands as a word inside a parameter. */
  lemma SnapshotLineKeepsParameters(base: string, uuid: Option<string>, k: nat, flags: string, x: string, mode: string)
    requires Free(x, ' ') && IsMode(mode)
    requires HasLuks(base) || uuid.None?
    requires OnlyRootflags(Parameters(base), k, flags)
    ensures Parameters(BuildSnapshotCmdline(base, uuid, x, mode)) == SnapshotParameters(Parameters(base), k, flags, x, mode)
            <==> AllSteady(Parameters(base)[k := ROOTFLAGS + NewFlags(flags, x)])
  {
    var words := Split(base, ' ');
    assert StartsWith(Parameters(base)[k], ROOTFLAGS);
    ParameterOccurs(base, k, ROOTFLAGS);
    assert Free(mode, ' ') && mode != "";
    SnapshotLineByWord(base, x, mode);
    SubstituteAmongNonEmpty(words, x);
    OnlyOneIsRewritten(Parameters(base), k, flags, x);
    SteadyFromNonEmpty(SubstituteFirst(words, x));
    SteadyWords(SubstituteFirst(words, x));
    SameBeforeMode(NonEmpty(EachWithoutMode(SubstituteFirst(words, x))),
                   WithoutModes(NonEmpty(SubstituteFirst(words, x))), mode);
  }

  lemma SameBeforeMode(a: seq<string>, b: seq<string>, mode: string)
    ensures a + [mode] == b + [mode] <==> a == b
  {
    assert (a + [mode])[..|a|] == a && (b + [mode])[..|b|] == b;
    assert |a + [mode]| == |a| + 1;
  }

  // ---- which subvolume the kernel mounts as root ----

  /** The value of the last subvol option: later mount options override earlier ones. */
  function LastSubvolumeOption(options: seq<string>): Option<string> {
    if options == [] then None
    else
      match LastSubvolumeOption(options[1..])
      case Some(v) => Some(v)
      case None =>
        if StartsWith(options[0], SUBVOL) then Some(options[0][|SUBVOL|..]) else None
  }

  function MountedSubvolume(flags: string): Option<string> {
    LastSubvolumeOption(Split(flags, ','))
  }

  /** The last rootflags parameter is the one in force. */
  function RootFlags(ps: seq<string>): Option<string> {
    if ps == [] then None
    else
      match RootFlags(ps[1..])
      case Some(f) => Some(f)
      case None => if StartsWith(ps[0], ROOTFLAGS) then Some(ps[0][|ROOTFLAGS|..]) else None
  }

  function BootedSubvolume(ps: seq<string>): Option<string> {
    match RootFlags(ps)
    case None => None
    case Some(flags) => MountedSubvolume(flags)
  }

  /** The last "subvol=" of the root flags is the name of an option of its own. */
  predicate SubvolIsOption(flags: string) {
    HasSubvol(flags) && var j := LastAt(flags, SUBVOL); j == 0 || flags[j - 1] == ','
  }

  lemma {:induction false} LastSubvolumeOptionAppend(a: seq<string>, b: seq<string>)
    ensures LastSubvolumeOption(a + b)
            == if LastSubvolumeOption(b).Some? then LastSubvolumeOption(b) else LastSubvolumeOption(a)
  {
    if a == [] {
      assert a + b == b;
    } else {
      assert (a + b)[1..] == a[1..] + b;
      LastSubvolumeOptionAppend(a[1..], b);
    }
  }

  lemma {:induction false} NoSubvolNoOption(s: string)
    requires !HasSubvol(s)
    ensures MountedSubvolume(s).None?
    ensures !StartsWith(Split(s, ',')[0], SUBVOL)
  {
    if s != "" {
      NoSubvolNoOption(s[1..]);
      var rest := Split(s[1..], ',');
      assert rest == [rest[0]] + rest[1..];
      if StartsWith(Split(s, ',')[0], SUBVOL) {
        PartOccurs(s, ',', 0, SUBVOL);
      }
      assert Split(s, ',')[1..] == if s[0] == ',' then rest else rest[1..];
    }
  }

  /** What is mounted when `value` stands after the last "subvol=", after the options in `a`. */
  function MountedAfter(a: string, value: string): Option<string> {
    var last := LastPart(a, ',');
    if last == "" then Some(value)
    else if StartsWith(last, SUBVOL) then Some(last[|SUBVOL|..] + SUBVOL + value)
    else LastSubvolumeOption(PartsBefore(a, ','))
  }

  lemma MountedWith(a: string, value: string, rest: string)
    requires Free(value, ',') && (rest == "" || rest[0] == ',') && !HasSubvol(rest)
    ensures MountedSubvolume(a + SUBVOL + value + rest) == MountedAfter(a, value)
  {
    var head := a + (SUBVOL + value);
    assert head == a + SUBVOL + value;
    MountedAtEnd(a, value);
    if rest == "" {
      assert head + rest == head;
    } else {
      NoSubvolNoOption(rest[1..]);
      assert head + rest == head + [','] + rest[1..];
      SplitAppend(head, rest[1..], ',');
      LastSubvolumeOptionAppend(Split(head, ','), Split(rest[1..], ','));
    }
  }

  lemma MountedAtEnd(a: string, value: string)
    requires Free(value, ',')
    ensures MountedSubvolume(a + (SUBVOL + value)) == MountedAfter(a, value)
  {
    FreeAppend(SUBVOL, value, ',');
    SplitGlue(a, SUBVOL + value, ',');
    var option := LastPart(a, ',') + (SUBVOL + value);
    LastSubvolumeOptionAppend(PartsBefore(a, ','), [option]);
    assert [option][1..] == [] && LastSubvolumeOption([]) == None;
    OptionStart(LastPart(a, ','), value);
  }

  lemma OptionStart(last: string, value: string)
    ensures StartsWith(last + (SUBVOL + value), SUBVOL) <==> last == "" || StartsWith(last, SUBVOL)
    ensures last == "" ==> (last + (SUBVOL + value))[|SUBVOL|..] == value
    ensures StartsWith(last, SUBVOL)
            ==> (last + (SUBVOL + value))[|SUBVOL|..] == last[|SUBVOL|..] + SUBVOL + value
  {
    var option := last + (SUBVOL + value);
    if last == "" {
      assert option == SUBVOL + value;
    } else if |last| < |SUBVOL| {
      assert option[|last|] == 's' && SUBVOL[|last|] != 's';
      assert option[..|SUBVOL|][|last|] == option[|last|];
    } else {
      assert option[..|SUBVOL|] == last[..|SUBVOL|];
    }
  }

  /** The entry boots its snapshot exactly when the last "subvol=" of the root flags is an
      option of its own; otherwise it boots whatever the installed line boots. */
  lemma RewrittenFlagsMount(flags: string, x: string)
    requires Free(x, ',') && !HasSubvol(x)
    ensures MountedSubvolume(NewFlags(flags, x)) == Some(x)
            <==> SubvolIsOption(flags) || MountedSubvolume(flags) == Some(x)
  {
    if HasSubvol(flags) {
      var a, rest := Before(flags, SUBVOL), After(flags, SUBVOL, ',');
      var value := ReplacedAround(flags, SUBVOL, ',');
      MountedWith(a, x, rest);
      MountedWith(a, value, rest);
      LastPartEmpty(a, ',');
      var last := LastPart(a, ',');
      if last != "" && StartsWith(last, SUBVOL) {
        NotItsOwnTail(last[|SUBVOL|..], SUBVOL, value, x);
        NotItsOwnTail(last[|SUBVOL|..], SUBVOL, x, x);
      }
    }
  }

  lemma {:induction false} NotItsOwnTail(head: string, word: string, tail: string, x: string)
    requires word != "" && !Has(x, word)
    ensures head + word + tail != x
  {
    assert (word + tail)[..|word|] == word;
    HasAfter(head, word + tail, word);
    assert head + (word + tail) == head + word + tail;
  }

  lemma {:induction false} NoRootflagsParameter(ps: seq<string>)
    requires forall i :: 0 <= i < |ps| ==> !HasRootflags(ps[i])
    ensures RootFlags(ps).None?
  {
    if ps != [] {
      NoRootflagsParameter(ps[1..]);
    }
  }

  lemma {:induction false} RootFlagsAppend(a: seq<string>, b: seq<string>)
    ensures RootFlags(a + b) == if RootFlags(b).Some? then RootFlags(b) else RootFlags(a)
  {
    if a == [] {
      assert a + b == b;
    } else {
      assert (a + b)[1..] == a[1..] + b;
      RootFlagsAppend(a[1..], b);
    }
  }

  lemma {:induction false} WithoutModesAppend(a: seq<string>, b: seq<string>)
    ensures WithoutModes(a + b) == WithoutModes(a) + WithoutModes(b)
  {
    if a == [] {
      assert a + b == b;
    } else {
      assert (a + b)[1..] == a[1..] + b;
      WithoutModesAppend(a[1..], b);
    }
  }

  lemma {:induction false} WithoutModesKeeps(ps: seq<string>)
    ensures forall p :: p in WithoutModes(ps) <==> p in ps && !IsMode(p)
  {
    if ps != [] {
      WithoutModesKeeps(ps[1..]);
      assert ps == [ps[0]] + ps[1..];
    }
  }

  lemma ModesRemovedAround(ps: seq<string>, k: nat, p: string)
    requires k < |ps| && !IsMode(p)
    ensures WithoutModes(ps[k := p]) == WithoutModes(ps[..k]) + [p] + WithoutModes(ps[k + 1..])
  {
    assert ps[k := p] == ps[..k] + ([p] + ps[k + 1..]);
    WithoutModesAppend(ps[..k], [p] + ps[k + 1..]);
    assert ([p] + ps[k + 1..])[1..] == ps[k + 1..];
  }

  /** The snapshot's parameters around its root flags. */
  lemma SnapshotParametersAre(ps: seq<string>, k: nat, flags: string, x: string, mode: string)
    requires k < |ps|
    ensures SnapshotParameters(ps, k, flags, x, mode)
            == WithoutModes(ps[..k]) + [ROOTFLAGS + NewFlags(flags, x)]
               + (WithoutModes(ps[k + 1..]) + [mode])
  {
    RootFlagsIsNoMode(NewFlags(flags, x));
    ModesRemovedAround(ps, k, ROOTFLAGS + NewFlags(flags, x));
  }

  lemma {:induction false} OnlyFlagsInForce(before: seq<string>, p: string, flags: string, after: seq<string>)
    requires p == ROOTFLAGS + flags
    requires forall q :: q in before || q in after ==> !HasRootflags(q)
    ensures RootFlags(before + [p] + after) == Some(flags)
  {
    NoRootflagsParameter(after);
    RootFlagsAppend(before + [p], after);
    RootFlagsAppend(before, [p]);
    assert p[..|ROOTFLAGS|] == ROOTFLAGS && p[|ROOTFLAGS|..] == flags;
    assert [p][1..] == [];
  }

  /** Which subvolume a snapshot's entry boots. */
  lemma EntryBootsItsSnapshot(base: string, uuid: Option<string>, k: nat, flags: string, x: string, mode: string)
    requires Free(x, ' ') && Free(x, ',') && !HasSubvol(x) && IsMode(mode)
    requires HasLuks(base) || uuid.None?
    requires OnlyRootflags(Parameters(base), k, flags)
    requires AllSteady(Parameters(base)[k := ROOTFLAGS + NewFlags(flags, x)])
    ensures BootedSubvolume(Parameters(BuildSnapshotCmdline(base, uuid, x, mode))) == Some(x)
            <==> SubvolIsOption(flags) || BootedSubvolume(Parameters(base)) == Some(x)
  {
    var ps := Parameters(base);
    SnapshotLineKeepsParameters(base, uuid, k, flags, x, mode);
    SnapshotParametersAre(ps, k, flags, x, mode);
    WithoutModesKeeps(ps[..k]);
    WithoutModesKeeps(ps[k + 1..]);
    ModeHasNoRootflags();
    OnlyFlagsInForce(WithoutModes(ps[..k]), ROOTFLAGS + NewFlags(flags, x), NewFlags(flags, x),
                     WithoutModes(ps[k + 1..]) + [mode]);
    assert ps == ps[..k] + [ps[k]] + ps[k + 1..];
    OnlyFlagsInForce(ps[..k], ps[k], flags, ps[k + 1..]);
    RewrittenFlagsMount(flags, x);
  }

  // ---- rewriting for one snapshot and then for another ----

  /** After the rewrite there is still a single parameter with root flags. */
  lemma RootflagsStayAlone(ps: seq<string>, k: nat, flags: string, x: string)
    requires OnlyRootflags(ps, k, flags)
    requires Free(x, ' ') && !HasRootflags((ROOTFLAGS + NewFlags(flags, x))[1..])
    ensures OnlyRootflags(SnapshotParameters(ps, k, flags, x, "rw"), |WithoutModes(ps[..k])|, NewFlags(flags, x))
  {
    var first := SnapshotParameters(ps, k, flags, x, "rw");
    var before, after := WithoutModes(ps[..k]), WithoutModes(ps[k + 1..]);
    SnapshotParametersAre(ps, k, flags, x, "rw");
    WithoutModesKeeps(ps[..k]);
    WithoutModesKeeps(ps[k + 1..]);
    if HasSubvol(flags) {
      ReplaceIsFree(flags, SUBVOL, ',', x, ' ');
    }
    ModeHasNoRootflags();
    forall i | 0 <= i < |first| && i != |before|
      ensures !HasRootflags(first[i])
    {
      if i < |before| {
        assert first[i] in before;
      } else {
        assert first[i] == (after + ["rw"])[i - |before| - 1];
        assert first[i] in after || first[i] == "rw";
      }
    }
  }

  lemma ModeHasNoRootflags()
    ensures !HasRootflags("rw") && !HasRootflags("ro")
  {
    assert "rw"[1..] == "w" && "w"[1..] == "" && "ro"[1..] == "o" && "o"[1..] == "";
  }

  /** Rewriting the line of one snapshot for another one gives the other one's line. */
  lemma RewritingOverwrites(ps: seq<string>, k: nat, flags: string, x: string, y: string)
    requires OnlyRootflags(ps, k, flags)
    requires Free(x, ',') && !HasSubvol(x)
    ensures var first := SnapshotParameters(ps, k, flags, x, "rw");
            var k' := |WithoutModes(ps[..k])|;
            k' < |first|
            && SnapshotParameters(first, k', NewFlags(flags, x), y, "rw")
               == SnapshotParameters(ps, k, flags, y, "rw")
  {
    if HasSubvol(flags) {
      ReplaceTwice(flags, SUBVOL, ',', x, y);
    }
    RootFlagsIsNoMode(NewFlags(flags, x));
    RootFlagsIsNoMode(NewFlags(flags, y));
    ReplaceParameterTwice(ps, k, ROOTFLAGS + NewFlags(flags, x), ROOTFLAGS + NewFlags(flags, y), "rw");
  }

  lemma ReplaceParameterTwice(ps: seq<string>, k: nat, p: string, q: string, mode: string)
    requires k < |ps| && !IsMode(p) && !IsMode(q) && IsMode(mode)
    ensures var first := WithoutModes(ps[k := p]) + [mode];
            var k' := |WithoutModes(ps[..k])|;
            k' < |first| && WithoutModes(first[k' := q]) == WithoutModes(ps[k := q])
  {
    var first := WithoutModes(ps[k := p]) + [mode];
    var before, after := WithoutModes(ps[..k]), WithoutModes(ps[k + 1..]);
    ModesRemovedAround(ps, k, p);
    ModesRemovedAround(ps, k, q);
    Around3(before, p, after + [mode]);
    assert first == before + [p] + (after + [mode]);
    ModesRemovedAround(first, |before|, q);
    NoModesLeft(ps[..k]);
    NoModesLeft(ps[k + 1..]);
    WithoutModesAppend(after, [mode]);
    assert [mode][1..] == [] && WithoutModes([mode]) == [];
  }

  lemma Around3(before: seq<string>, p: string, after: seq<string>)
    ensures (before + [p] + after)[..|before|] == before
    ensures (before + [p] + after)[|before| + 1..] == after
  {
  }

  lemma {:induction false} NoModesLeft(ps: seq<string>)
    ensures WithoutModes(WithoutModes(ps)) == WithoutModes(ps)
  {
    if ps != [] {
      NoModesLeft(ps[1..]);
      if !IsMode(ps[0]) {
        assert WithoutModes(ps)[1..] == WithoutModes(ps[1..]);
      }
    }
  }

  /** The same for the lines themselves. */
  lemma RewritingLineOverwrites(base: string, k: nat, flags: string, x: string, y: string)
    requires OnlyRootflags(Parameters(base), k, flags)
    requires Free(x, ' ') && Free(x, ',') && !HasSubvol(x) && Free(y, ' ')
    requires !HasRootflags((ROOTFLAGS + NewFlags(flags, x))[1..])
    requires AllSteady(Parameters(base)[k := ROOTFLAGS + NewFlags(flags, x)])
    requires AllSteady(Parameters(base)[k := ROOTFLAGS + NewFlags(flags, y)])
    ensures Parameters(BuildSnapshotCmdline(BuildSnapshotCmdline(base, None, x, "rw"), None, y, "rw"))
            == Parameters(BuildSnapshotCmdline(base, None, y, "rw"))
  {
    var ps := Parameters(base);
    SnapshotLineKeepsParameters(base, None, k, flags, x, "rw");
    SnapshotLineKeepsParameters(base, None, k, flags, y, "rw");
    RootflagsStayAlone(ps, k, flags, x);
    RewritingOverwrites(ps, k, flags, x, y);
    NewFlagsTwice(flags, x, y);
    var k' := |WithoutModes(ps[..k])|;
    assert Steady(ps[k := ROOTFLAGS + NewFlags(flags, y)][k]);
    SteadyAfter(ps, k, ROOTFLAGS + NewFlags(flags, x), k', ROOTFLAGS + NewFlags(flags, y), "rw");
    SecondRewrite(BuildSnapshotCmdline(base, None, x, "rw"), SnapshotParameters(ps, k, flags, x, "rw"), k',
                  NewFlags(flags, x), y);
  }

  lemma SecondRewrite(first: string, ps: seq<string>, k: nat, flags: string, y: string)
    requires Parameters(first) == ps && OnlyRootflags(ps, k, flags) && Free(y, ' ')
    requires AllSteady(ps[k := ROOTFLAGS + NewFlags(flags, y)])
    ensures Parameters(BuildSnapshotCmdline(first, None, y, "rw")) == SnapshotParameters(ps, k, flags, y, "rw")
  {
    SnapshotLineKeepsParameters(first, None, k, flags, y, "rw");
  }

  lemma NewFlagsTwice(flags: string, x: string, y: string)
    requires Free(x, ',') && !HasSubvol(x)
    ensures NewFlags(NewFlags(flags, x), y) == NewFlags(flags, y)
  {
    if HasSubvol(flags) {
      ReplaceTwice(flags, SUBVOL, ',', x, y);
    }
  }

  lemma SteadyAfter(ps: seq<string>, k: nat, p: string, k': nat, q: string, mode: string)
    requires k < |ps| && AllSteady(ps[k := p]) && Steady(q) && IsMode(mode)
    requires k' < |WithoutModes(ps[k := p])| + 1
    ensures AllSteady((WithoutModes(ps[k := p]) + [mode])[k' := q])
  {
    var first := WithoutModes(ps[k := p]) + [mode];
    WithoutModesKeeps(ps[k := p]);
    forall i | 0 <= i < |first|
      ensures Steady(first[i])
    {
      if i < |first| - 1 {
        assert first[i] in WithoutModes(ps[k := p]);
        var j :| 0 <= j < |ps| && ps[k := p][j] == first[i];
      }
    }
  }
}
