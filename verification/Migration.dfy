/** Migration: what is staged from the old system, and where it is restored. */
module Migration {
  import opened Text
  import opened Trees
  import opened Machine
  import opened Plans

  const HOME: Path := ["home"]
  const SBCTL: Path := ["var", "lib", "sbctl"]
  const SBCTL_LEGACY: Path := ["usr", "share", "secureboot"]
  const STAGED_HOME: Path := ["home"]
  const STAGED_KEYS: Path := ["sbctl"]
  const STAGED_PATHS: Path := ["additional"]
  const STAGING_HEADROOM_MB := 256

  // ------------------------------------------------------------------ the old system

  function SubvolumeFiles(v: Volume, name: string): Files {
    if v.Btrfs? && name in v.subs then v.subs[name] else map[]
  }

  predicate DirectoryExists(files: Files, path: Path) {
    exists k :: k in files.Keys && path < k
  }

  /** The listing of all subvolumes is searched for the text `@home`. */
  predicate ListsHome(v: Volume) {
    v.Btrfs? && exists n :: n in v.subs.Keys && Contains(n, "@home")
  }

  function HomeFiles(p: Plan, v: Volume): Files {
    if p.preserveHome && ListsHome(v) then SubvolumeFiles(v, "@home") else map[]
  }

  function KeyFiles(p: Plan, v: Volume): Files {
    var root := SubvolumeFiles(v, "@");
    if !p.preserveKeys then map[]
    else if DirectoryExists(root, SBCTL + ["keys"]) then Subtree(root, SBCTL)
    else if DirectoryExists(root, SBCTL_LEGACY + ["keys"]) then Subtree(root, SBCTL_LEGACY)
    else map[]
  }

  // ------------------------------------------------------------------ the staged copy

  function StagedAt(path: Path): Path {
    STAGED_PATHS + path
  }

  /** The name under which `cp` puts what it copies into a directory. The old system's root is
      its subvolume. */
  function LastName(path: Path): string {
    if path == [] then "@" else path[|path| - 1]
  }

  /** `cp -a SOURCE DESTINATION` goes into a directory that already exists. */
  function Destination(staging: Files, path: Path): Path {
    if DirectoryExists(staging, StagedAt(path)) then StagedAt(path + [LastName(path)]) else StagedAt(path)
  }

  function AddPath(staging: Files, root: Files, path: Path): Files {
    if Exists(root, path) then Copied(staging, Subtree(root, path), Destination(staging, path)) else staging
  }

  function AddPaths(staging: Files, root: Files, paths: seq<Path>): Files {
    if paths == [] then staging
    else AddPath(AddPaths(staging, root, paths[..|paths| - 1]), root, paths[|paths| - 1])
  }

  function StagedDirectories(p: Plan, v: Volume): Files {
    Copied(Copied(map[], HomeFiles(p, v), STAGED_HOME), KeyFiles(p, v), STAGED_KEYS)
  }

  function StagedFiles(p: Plan, v: Volume): Files {
    AddPaths(StagedDirectories(p, v), SubvolumeFiles(v, "@"), p.additional)
  }

  function RequiredMb(p: Plan, homeMb: nat, pathsMb: seq<nat>): nat {
    STAGING_HEADROOM_MB + (if p.preserveHome then homeMb else 0) + Sum(pathsMb)
  }

  function Sum(sizes: seq<nat>): nat {
    if sizes == [] then 0 else Sum(sizes[..|sizes| - 1]) + sizes[|sizes| - 1]
  }

  predicate Holds(files: Files, path: Path, content: Files) {
    forall k :: k in content ==> path + k in files && files[path + k] == content[k]
  }

  // ------------------------------------------------------------------ what is to be preserved

  /** k is a file of the home directories to preserve: of the subvolume `@home`. */
  ghost predicate IsPreservedHome(p: Plan, v: Volume, k: Path, text: string) {
    p.preserveHome && v.Btrfs? && "@home" in v.subs && k in v.subs["@home"] && v.subs["@home"][k] == text
  }

  /** k is a file of the Secure Boot keys to preserve: of sbctl's directory in `@`, or of the one
      older versions used when only that one holds keys. */
  ghost predicate IsPreservedKey(p: Plan, v: Volume, k: Path, text: string) {
    && p.preserveKeys && v.Btrfs? && "@" in v.subs
    && var root := v.subs["@"];
       if exists q :: q in root && SBCTL + ["keys"] < q then SBCTL + k in root && root[SBCTL + k] == text
       else
         && (exists q :: q in root && SBCTL_LEGACY + ["keys"] < q)
         && SBCTL_LEGACY + k in root && root[SBCTL_LEGACY + k] == text
  }

  /** q is a file of the old system at or below a path to preserve. */
  ghost predicate IsPreservedPath(p: Plan, v: Volume, q: Path, text: string) {
    && v.Btrfs? && "@" in v.subs && q in v.subs["@"] && v.subs["@"][q] == text
    && exists i :: 0 <= i < |p.additional| && p.additional[i] <= q
  }

  /** Every preserved item is complete in staging. */
  ghost predicate AllStaged(p: Plan, v: Volume, staging: Files) {
    && (forall k, text :: IsPreservedHome(p, v, k, text) ==>
          STAGED_HOME + k in staging && staging[STAGED_HOME + k] == text)
    && (forall k, text :: IsPreservedKey(p, v, k, text) ==>
          STAGED_KEYS + k in staging && staging[STAGED_KEYS + k] == text)
    && forall q, text :: IsPreservedPath(p, v, q, text) ==> StagedAt(q) in staging && staging[StagedAt(q)] == text
  }

  /** What is staged under the name of a kind of item is of that kind. */
  ghost predicate OnlyAskedStaged(p: Plan, v: Volume, staging: Files) {
    forall q :: q in staging ==>
      || (STAGED_HOME <= q && IsPreservedHome(p, v, q[|STAGED_HOME|..], staging[q]))
      || (STAGED_KEYS <= q && IsPreservedKey(p, v, q[|STAGED_KEYS|..], staging[q]))
      || (STAGED_PATHS <= q && IsListed(p.additional, q[|STAGED_PATHS|..]))
  }

  /** The copied trees are complete in staging. */
  ghost predicate TreesStaged(p: Plan, v: Volume, staging: Files) {
    && Holds(staging, STAGED_HOME, HomeFiles(p, v))
    && Holds(staging, STAGED_KEYS, KeyFiles(p, v))
    && forall i :: 0 <= i < |p.additional| ==>
      Holds(staging, StagedAt(p.additional[i]), Subtree(SubvolumeFiles(v, "@"), p.additional[i]))
  }

  lemma HomeIsCopied(p: Plan, v: Volume, k: Path, text: string)
    ensures IsPreservedHome(p, v, k, text) <==> k in HomeFiles(p, v) && HomeFiles(p, v)[k] == text
  {
    if p.preserveHome && v.Btrfs? && "@home" in v.subs {
      var name := "@home";
      assert name[0..] == name && StartsWith(name[0..], "@home") && Contains(name, "@home");
    }
  }

  lemma KeysAreCopied(p: Plan, v: Volume, k: Path, text: string)
    ensures IsPreservedKey(p, v, k, text) <==> k in KeyFiles(p, v) && KeyFiles(p, v)[k] == text
  {
    var root := SubvolumeFiles(v, "@");
    InSubtree(root, SBCTL, k);
    InSubtree(root, SBCTL_LEGACY, k);
  }

  /** Copying below a path that nothing lies under leaves what lies elsewhere. */
  lemma CopiedBeside(files: Files, source: Files, path: Path, other: Path, content: Files)
    requires Holds(files, other, content) && !Nested(path, other)
    ensures Holds(Copied(files, source, path), other, content)
  {
    forall k | k in content
      ensures other + k in Copied(files, source, path) && Copied(files, source, path)[other + k] == content[k]
    {
      if path <= other + k {
        PrefixesNest(path, other, other + k);
      }
    }
  }

  // ------------------------------------------------------------------ when a staging is complete

  predicate IsListed(paths: seq<Path>, q: Path) {
    exists i :: 0 <= i < |paths| && paths[i] <= q
  }

  /** A file of the old root is staged at its own place. */
  predicate InPlace(staging: Files, root: Files, q: Path)
    requires q in root
  {
    StagedAt(q) in staging && staging[StagedAt(q)] == root[q]
  }

  /** Every file of the old root at or below a listed path is staged at its own place. */
  ghost predicate AllInPlace(staging: Files, root: Files, paths: seq<Path>) {
    forall q :: q in root && IsListed(paths, q) ==> InPlace(staging, root, q)
  }

  /** Whether q is in its place once `path` is copied to the place of `at`. */
  predicate EndsInPlace(staging: Files, root: Files, path: Path, at: Path, q: Path)
    requires q in root
  {
    if at <= q && path + q[|at|..] in root then root[path + q[|at|..]] == root[q] else InPlace(staging, root, q)
  }

  /** The turn of a path: its place is free, or copying it into the directory that is already
      there leaves the files listed so far in their places, those of the path among them. */
  ghost predicate TurnFits(staging: Files, root: Files, listed: seq<Path>, path: Path) {
    Exists(root, path) && DirectoryExists(staging, StagedAt(path)) ==>
      forall q :: q in root && IsListed(listed + [path], q) ==>
        EndsInPlace(staging, root, path, path + [if path == [] then "@" else path[|path| - 1]], q)
  }

  ghost predicate AllFit(staging: Files, root: Files, paths: seq<Path>) {
    paths != [] ==>
      var front, last := paths[..|paths| - 1], paths[|paths| - 1];
      AllFit(staging, root, front) && TurnFits(AddPaths(staging, root, front), root, front, last)
  }

  lemma InPlaceAfterCopy(staging: Files, root: Files, path: Path, at: Path, q: Path)
    requires q in root
    ensures InPlace(Copied(staging, Subtree(root, path), StagedAt(at)), root, q) <==> EndsInPlace(staging, root, path, at, q)
  {
    var place := StagedAt(at);
    assert place <= StagedAt(q) <==> at <= q by {
      assert place[1..] == at && StagedAt(q)[1..] == q;
    }
    if at <= q {
      var k := q[|at|..];
      InSubtree(root, path, k);
      assert place + k == StagedAt(q) && StagedAt(q)[|place|..] == k;
    }
  }

  lemma ListedOneMore(listed: seq<Path>, path: Path, q: Path)
    ensures IsListed(listed + [path], q) <==> IsListed(listed, q) || path <= q
  {
    var paths := listed + [path];
    assert paths[|listed|] == path && forall i :: 0 <= i < |listed| ==> paths[i] == listed[i];
  }

  /** A path that goes to its own place completes the staging by its files. */
  lemma FreePlaceFits(staging: Files, root: Files, listed: seq<Path>, path: Path)
    requires AllInPlace(staging, root, listed) && !(Exists(root, path) && DirectoryExists(staging, StagedAt(path)))
    ensures AllInPlace(AddPath(staging, root, path), root, listed + [path])
  {
    forall q | q in root && IsListed(listed + [path], q)
      ensures InPlace(AddPath(staging, root, path), root, q)
    {
      ListedOneMore(listed, path, q);
      InPlaceAfterCopy(staging, root, path, path, q);
      if path <= q {
        assert path + q[|path|..] == q;
      }
    }
  }

  /** What is listed so far is complete after a turn exactly when the path fits. */
  lemma TurnIsExact(staging: Files, root: Files, listed: seq<Path>, path: Path)
    requires AllInPlace(staging, root, listed)
    ensures AllInPlace(AddPath(staging, root, path), root, listed + [path]) <==> TurnFits(staging, root, listed, path)
  {
    if Exists(root, path) && DirectoryExists(staging, StagedAt(path)) {
      forall q | q in root && IsListed(listed + [path], q)
        ensures InPlace(AddPath(staging, root, path), root, q) <==>
          EndsInPlace(staging, root, path, path + [LastName(path)], q)
      {
        InPlaceAfterCopy(staging, root, path, path + [LastName(path)], q);
      }
    } else {
      FreePlaceFits(staging, root, listed, path);
    }
  }

  /** After the first k turns, the first k paths are complete. */
  ghost predicate CompleteAfter(staging: Files, root: Files, paths: seq<Path>, k: nat)
    requires k <= |paths|
  {
    AllInPlace(AddPaths(staging, root, paths[..k]), root, paths[..k])
  }

  lemma {:induction false} LastTurn(staging: Files, root: Files, paths: seq<Path>, n: nat, front: seq<Path>, last: Path)
    requires paths == front + [last] && n == |front|
    requires CompleteAfter(staging, root, paths, n)
    ensures CompleteAfter(staging, root, paths, n + 1) <==> TurnFits(AddPaths(staging, root, front), root, front, last)
  {
    assert paths[..n] == front && paths[..n + 1] == paths;
    TurnIsExact(AddPaths(staging, root, front), root, front, last);
  }

  /** The first k paths are complete after k turns, for every k up to n. */
  ghost predicate CompleteUpTo(staging: Files, root: Files, paths: seq<Path>, n: nat)
    requires n <= |paths|
  {
    forall k :: 0 <= k <= n ==> CompleteAfter(staging, root, paths, k)
  }

  lemma FrontTurns(staging: Files, root: Files, paths: seq<Path>, front: seq<Path>)
    requires front <= paths
    ensures CompleteUpTo(staging, root, front, |front|) <==> CompleteUpTo(staging, root, paths, |front|)
  {
    forall k | 0 <= k <= |front|
      ensures CompleteAfter(staging, root, front, k) <==> CompleteAfter(staging, root, paths, k)
    {
      assert front[..k] == paths[..k];
    }
  }

  lemma OneTurnMore(staging: Files, root: Files, paths: seq<Path>, n: nat)
    requires n < |paths|
    ensures CompleteUpTo(staging, root, paths, n + 1) <==>
      CompleteUpTo(staging, root, paths, n) && CompleteAfter(staging, root, paths, n + 1)
    ensures CompleteUpTo(staging, root, paths, n) ==> CompleteAfter(staging, root, paths, n)
  {
  }

  /** The listed paths are complete after every turn exactly when each fits at its turn. */
  lemma {:induction false} TurnsAreExact(staging: Files, root: Files, paths: seq<Path>)
    ensures AllFit(staging, root, paths) <==> CompleteUpTo(staging, root, paths, |paths|)
  {
    if paths == [] {
      assert paths[..0] == [];
    } else {
      var n: nat := |paths| - 1;
      var front, last := paths[..n], paths[n];
      assert paths == front + [last];
      TurnsAreExact(staging, root, front);
      FrontTurns(staging, root, paths, front);
      OneTurnMore(staging, root, paths, n);
      if CompleteUpTo(staging, root, paths, n) {
        LastTurn(staging, root, paths, n, front, last);
      }
    }
  }

  /** Whether q ends in its place when the second path is copied into the directory there. */
  predicate EndsUnder(root: Files, first: Path, second: Path, q: Path)
    requires q in root
  {
    var inner := second + [if second == [] then "@" else second[|second| - 1]];
    if inner <= q && second + q[|inner|..] in root then root[second + q[|inner|..]] == root[q] else first <= q
  }

  /** Where two paths are listed, no directory is at the second one's place at its turn, or its
      files all end in their places. */
  ghost predicate PairFits(root: Files, first: Path, second: Path) {
    || (forall q :: q in root && first <= q ==> !(second < q))
    || forall q :: q in root && second <= q ==> EndsUnder(root, first, second, q)
  }

  lemma FirstTurn(staging: Files, root: Files, first: Path, q: Path)
    requires forall q :: q in staging ==> !(STAGED_PATHS <= q)
    ensures StagedAt(q) in AddPath(staging, root, first) <==> first <= q && q in root
    ensures q in root ==> (InPlace(AddPath(staging, root, first), root, q) <==> first <= q)
  {
    assert STAGED_PATHS <= StagedAt(q) && StagedAt(q)[1..] == q && StagedAt(first)[1..] == first;
    assert !DirectoryExists(staging, StagedAt(first));
    if first <= q {
      InSubtree(root, first, q[|first|..]);
      assert first + q[|first|..] == q && StagedAt(first) + q[|first|..] == StagedAt(q);
    }
  }

  lemma DirectoryAfterFirst(staging: Files, root: Files, first: Path, second: Path)
    requires forall q :: q in staging ==> !(STAGED_PATHS <= q)
    ensures DirectoryExists(AddPath(staging, root, first), StagedAt(second)) <==>
      exists q :: q in root && first <= q && second < q
  {
    var r := AddPath(staging, root, first);
    if q :| q in r.Keys && StagedAt(second) < q {
      assert q == StagedAt(q[1..]) && second == StagedAt(second)[1..] < q[1..];
      FirstTurn(staging, root, first, q[1..]);
    }
    if q :| q in root && first <= q && second < q {
      FirstTurn(staging, root, first, q);
      assert StagedAt(second) < StagedAt(q);
    }
  }

  lemma PairTurn(r: Files, root: Files, first: Path, second: Path)
    requires forall q :: q in root ==> (InPlace(r, root, q) <==> first <= q)
    requires DirectoryExists(r, StagedAt(second)) <==> exists q :: q in root && first <= q && second < q
    ensures TurnFits(r, root, [first], second) <==> PairFits(root, first, second)
  {
    var inner := second + [LastName(second)];
    forall q | q in root
      ensures IsListed([first] + [second], q) <==> first <= q || second <= q
      ensures EndsInPlace(r, root, second, inner, q) <==> EndsUnder(root, first, second, q)
      ensures first <= q && !(second <= q) ==> EndsUnder(root, first, second, q)
    {
      ListedOneMore([first], second, q);
      assert IsListed([first], q) <==> first <= q by {
        assert [first][0] == first;
      }
      assert second <= inner;
    }
    assert (exists q :: q in root && first <= q && second < q) ==> Exists(root, second);
  }

  lemma {:induction false} TwoTurns(staging: Files, root: Files, first: Path, second: Path)
    ensures AddPaths(staging, root, [first, second]) == AddPath(AddPath(staging, root, first), root, second)
  {
    assert [first, second][..1] == [first] && [first][..0] == [];
    assert AddPaths(staging, root, [first]) == AddPath(staging, root, first);
  }

  lemma CompleteAfterFirst(staging: Files, root: Files, first: Path)
    requires forall q :: q in staging ==> !(STAGED_PATHS <= q)
    ensures AllInPlace(AddPath(staging, root, first), root, [first])
    ensures forall q :: q in root ==> (InPlace(AddPath(staging, root, first), root, q) <==> first <= q)
  {
    forall q | q in root
      ensures InPlace(AddPath(staging, root, first), root, q) <==> first <= q
    {
      FirstTurn(staging, root, first, q);
    }
  }

  /** Two listed paths are staged completely exactly when they fit, in their order. */
  lemma {:induction false} NestedPathsMisplace(staging: Files, root: Files, first: Path, second: Path)
    requires forall q :: q in staging ==> !(STAGED_PATHS <= q)
    ensures AllInPlace(AddPaths(staging, root, [first, second]), root, [first, second]) <==> PairFits(root, first, second)
  {
    var r := AddPath(staging, root, first);
    CompleteAfterFirst(staging, root, first);
    DirectoryAfterFirst(staging, root, first, second);
    PairTurn(r, root, first, second);
    TurnIsExact(r, root, [first], second);
    TwoTurns(staging, root, first, second);
    assert [first] + [second] == [first, second];
  }

  lemma OneListedMore(before: Files, root: Files, front: seq<Path>, last: Path, q: Path)
    requires StagedAt(q) in AddPath(before, root, last) && StagedAt(q) !in before
    ensures IsListed(front + [last], q)
  {
    ListedOneMore(front, last, q);
    assert StagedAt(last) <= StagedAt(last + [LastName(last)]) && StagedAt(last) <= StagedAt(q);
    assert last == StagedAt(last)[1..] <= StagedAt(q)[1..] == q;
  }

  lemma {:induction false} NothingElse(staging: Files, root: Files, paths: seq<Path>, q: Path)
    requires StagedAt(q) in AddPaths(staging, root, paths)
    ensures StagedAt(q) in staging || IsListed(paths, q)
  {
    if paths != [] {
      var front, last := paths[..|paths| - 1], paths[|paths| - 1];
      var before := AddPaths(staging, root, front);
      assert paths == front + [last];
      if StagedAt(q) in before {
        NothingElse(staging, root, front, q);
        ListedOneMore(front, last, q);
      } else {
        OneListedMore(before, root, front, last, q);
      }
    }
  }

  lemma {:induction false} OthersStay(staging: Files, root: Files, paths: seq<Path>, q: Path)
    requires !(STAGED_PATHS <= q)
    ensures q in AddPaths(staging, root, paths) <==> q in staging
    ensures q in staging ==> AddPaths(staging, root, paths)[q] == staging[q]
  {
    if paths != [] {
      var last := paths[|paths| - 1];
      OthersStay(staging, root, paths[..|paths| - 1], q);
      assert STAGED_PATHS <= StagedAt(last) && STAGED_PATHS <= StagedAt(last + [LastName(last)]);
    }
  }

  lemma {:induction false} OthersHeld(staging: Files, root: Files, paths: seq<Path>, other: Path, content: Files)
    requires Holds(staging, other, content) && !Nested(STAGED_PATHS, other)
    ensures Holds(AddPaths(staging, root, paths), other, content)
  {
    forall k | k in content
      ensures other + k in AddPaths(staging, root, paths) && AddPaths(staging, root, paths)[other + k] == content[k]
    {
      if STAGED_PATHS <= other + k {
        PrefixesNest(STAGED_PATHS, other, other + k);
      }
      OthersStay(staging, root, paths, other + k);
    }
  }

  lemma CompleteHolds(staging: Files, root: Files, paths: seq<Path>, i: nat)
    requires AllInPlace(staging, root, paths) && i < |paths|
    ensures Holds(staging, StagedAt(paths[i]), Subtree(root, paths[i]))
  {
    var path := paths[i];
    forall k | k in Subtree(root, path)
      ensures StagedAt(path) + k in staging && staging[StagedAt(path) + k] == Subtree(root, path)[k]
    {
      InSubtree(root, path, k);
      assert path <= path + k && IsListed(paths, path + k) && InPlace(staging, root, path + k);
      assert StagedAt(path) + k == StagedAt(path + k);
    }
  }

  lemma DirectoriesAreApart(p: Plan, v: Volume)
    ensures !Nested(STAGED_PATHS, STAGED_HOME) && !Nested(STAGED_PATHS, STAGED_KEYS) && !Nested(STAGED_KEYS, STAGED_HOME)
    ensures forall q :: q in StagedDirectories(p, v) ==> STAGED_HOME <= q || STAGED_KEYS <= q
    ensures forall q :: q in StagedDirectories(p, v) ==> !(STAGED_PATHS <= q) && q != []
  {
    assert |"home"| != |"additional"| && |"sbctl"| != |"additional"| && |"home"| != |"sbctl"|;
    assert STAGED_PATHS[0] == "additional" && STAGED_HOME[0] == "home" && STAGED_KEYS[0] == "sbctl";
  }

  /** Each additional path fits at its turn. */
  ghost predicate PathsFit(p: Plan, v: Volume) {
    AllFit(StagedDirectories(p, v), SubvolumeFiles(v, "@"), p.additional)
  }

  lemma HomeStaged(p: Plan, v: Volume, staging: Files)
    ensures Holds(staging, STAGED_HOME, HomeFiles(p, v)) <==>
      forall k, text :: IsPreservedHome(p, v, k, text) ==> STAGED_HOME + k in staging && staging[STAGED_HOME + k] == text
  {
    forall k, text {
      HomeIsCopied(p, v, k, text);
    }
    assert forall k :: k in HomeFiles(p, v) ==> IsPreservedHome(p, v, k, HomeFiles(p, v)[k]);
  }

  lemma KeysStaged(p: Plan, v: Volume, staging: Files)
    ensures Holds(staging, STAGED_KEYS, KeyFiles(p, v)) <==>
      forall k, text :: IsPreservedKey(p, v, k, text) ==> STAGED_KEYS + k in staging && staging[STAGED_KEYS + k] == text
  {
    forall k, text {
      KeysAreCopied(p, v, k, text);
    }
    assert forall k :: k in KeyFiles(p, v) ==> IsPreservedKey(p, v, k, KeyFiles(p, v)[k]);
  }

  lemma PathStaged(p: Plan, v: Volume, staging: Files, q: Path, text: string)
    requires TreesStaged(p, v, staging) && IsPreservedPath(p, v, q, text)
    ensures StagedAt(q) in staging && staging[StagedAt(q)] == text
  {
    var i :| 0 <= i < |p.additional| && p.additional[i] <= q;
    var path, k := p.additional[i], q[|p.additional[i]|..];
    InSubtree(SubvolumeFiles(v, "@"), path, k);
    assert path + k == q && StagedAt(path) + k == StagedAt(q);
  }

  /** To have staged the trees is to have staged the items. */
  lemma TreesAreItems(p: Plan, v: Volume, staging: Files)
    ensures TreesStaged(p, v, staging) <==> AllStaged(p, v, staging)
  {
    HomeStaged(p, v, staging);
    KeysStaged(p, v, staging);
    if AllStaged(p, v, staging) {
      forall i | 0 <= i < |p.additional| {
        ListedStaged(p, v, staging, i);
      }
    }
    if TreesStaged(p, v, staging) {
      forall q, text | IsPreservedPath(p, v, q, text) {
        PathStaged(p, v, staging, q, text);
      }
    }
  }

  lemma ListedStaged(p: Plan, v: Volume, staging: Files, i: nat)
    requires AllStaged(p, v, staging) && i < |p.additional|
    ensures Holds(staging, StagedAt(p.additional[i]), Subtree(SubvolumeFiles(v, "@"), p.additional[i]))
  {
    var root, path := SubvolumeFiles(v, "@"), p.additional[i];
    forall k | k in Subtree(root, path)
      ensures StagedAt(path) + k in staging && staging[StagedAt(path) + k] == Subtree(root, path)[k]
    {
      InSubtree(root, path, k);
      assert path <= path + k && IsPreservedPath(p, v, path + k, root[path + k]);
      assert StagedAt(path) + k == StagedAt(path + k);
    }
  }

  /** Whatever the paths, nothing is staged that was not asked for. */
  lemma StagedOnlyAsked(p: Plan, v: Volume)
    ensures OnlyAskedStaged(p, v, StagedFiles(p, v))
  {
    var directories, root, staging := StagedDirectories(p, v), SubvolumeFiles(v, "@"), StagedFiles(p, v);
    forall q | q in staging
      ensures (STAGED_HOME <= q && IsPreservedHome(p, v, q[|STAGED_HOME|..], staging[q]))
           || (STAGED_KEYS <= q && IsPreservedKey(p, v, q[|STAGED_KEYS|..], staging[q]))
           || (STAGED_PATHS <= q && IsListed(p.additional, q[|STAGED_PATHS|..]))
    {
      DirectoriesAreApart(p, v);
      if STAGED_PATHS <= q {
        assert q == StagedAt(q[|STAGED_PATHS|..]);
        NothingElse(directories, root, p.additional, q[|STAGED_PATHS|..]);
      } else {
        OthersStay(directories, root, p.additional, q);
        DirectoryHolds(p, v, q);
      }
    }
  }

  lemma DirectoryHolds(p: Plan, v: Volume, q: Path)
    requires q in StagedDirectories(p, v)
    ensures var text := StagedDirectories(p, v)[q];
      || (STAGED_HOME <= q && IsPreservedHome(p, v, q[|STAGED_HOME|..], text))
      || (STAGED_KEYS <= q && IsPreservedKey(p, v, q[|STAGED_KEYS|..], text))
  {
    DirectoriesAreApart(p, v);
    var text := StagedDirectories(p, v)[q];
    if STAGED_KEYS <= q {
      KeysAreCopied(p, v, q[|STAGED_KEYS|..], text);
    } else {
      HomeIsCopied(p, v, q[|STAGED_HOME|..], text);
    }
  }

  /** A staging that ends well, and whose paths fit, holds every preserved item. */
  lemma StagedComplete(p: Plan, v: Volume)
    requires PathsFit(p, v)
    ensures AllStaged(p, v, StagedFiles(p, v))
  {
    TreesComplete(p, v);
    TreesAreItems(p, v, StagedFiles(p, v));
  }

  lemma TreesComplete(p: Plan, v: Volume)
    requires PathsFit(p, v)
    ensures TreesStaged(p, v, StagedFiles(p, v))
  {
    var directories, root := StagedDirectories(p, v), SubvolumeFiles(v, "@");
    var home := Copied(map[], HomeFiles(p, v), STAGED_HOME);
    DirectoriesAreApart(p, v);
    CopiedBeside(home, KeyFiles(p, v), STAGED_KEYS, STAGED_HOME, HomeFiles(p, v));
    OthersHeld(directories, root, p.additional, STAGED_HOME, HomeFiles(p, v));
    OthersHeld(directories, root, p.additional, STAGED_KEYS, KeyFiles(p, v));
    TurnsAreExact(directories, root, p.additional);
    assert CompleteAfter(directories, root, p.additional, |p.additional|);
    assert p.additional[..|p.additional|] == p.additional;
    forall i | 0 <= i < |p.additional|
      ensures Holds(StagedFiles(p, v), StagedAt(p.additional[i]), Subtree(root, p.additional[i]))
    {
      CompleteHolds(StagedFiles(p, v), root, p.additional, i);
    }
  }

  /** No copy of a listed path meets a file for a directory, or a directory for a file. */
  predicate NoneClash(staging: Files, root: Files, paths: seq<Path>) {
    paths != [] ==>
      var front, last := paths[..|paths| - 1], paths[|paths| - 1];
      var before := AddPaths(staging, root, front);
      NoneClash(staging, root, front) && !Clashes(before, Subtree(root, last), Destination(before, last))
  }

  // ------------------------------------------------------------------ the restored system

  /** What a mounted filesystem holds. */
  function Content(s: State): Source -> Files {
    (source: Source) =>
      match source
      case Top(_) => map[]
      case Sub(k, n) => SubvolumeFiles(VolumeOf(s, k), n)
      case Esp => s.esp
  }

  /** What a path under the target reads. */
  function TargetReads(s: State, q: Path): Option<string> {
    Read(s.mounts, Content(s), q)
  }

  /** The target is mounted from subvolumes of the open volume and the EFI partition. */
  ghost predicate TargetMounted(s: State) {
    && s.mounts != [] && s.mounts[0].path == [] && MountedOnce(s.mounts) && OpenVolume(s).Btrfs?
    && forall i :: 0 <= i < |s.mounts| ==>
      && (s.mounts[i].source.Sub? ==>
            s.mounts[i].source.key == OpenKey(s) && s.mounts[i].source.name in OpenVolume(s).subs)
      && !s.mounts[i].source.Top?
  }

  lemma ContentAfter(s: State, copy: Files, path: Path, source: Source)
    requires OpenVolume(s).Btrfs? && s.mounts != []
    requires source.Sub? ==> source.key == OpenKey(s) && source.name in OpenVolume(s).subs
    requires !source.Top?
    ensures Content(CopyToTarget(s, copy, path).after)(source) == Share(s.mounts, source, Content(s)(source), copy, path)
  {
  }

  lemma StillMounted(s: State, copy: Files, path: Path)
    requires TargetMounted(s)
    ensures TargetMounted(CopyToTarget(s, copy, path).after)
  {
    var t := CopyToTarget(s, copy, path).after;
    assert OpenVolume(t).Btrfs? && OpenVolume(t).subs.Keys == OpenVolume(s).subs.Keys;
  }

  lemma CopyReads(s: State, copy: Files, path: Path, q: Path)
    requires TargetMounted(s)
    ensures TargetReads(CopyToTarget(s, copy, path).after, q) ==
      if InCopy(copy, path, q) then Some(copy[q[|path|..]]) else TargetReads(s, q)
  {
    var t := CopyToTarget(s, copy, path).after;
    var before, after := Content(s), Content(t);
    forall i | 0 <= i < |s.mounts|
      ensures after(s.mounts[i].source) == Share(s.mounts, s.mounts[i].source, before(s.mounts[i].source), copy, path)
    {
      ContentAfter(s, copy, path, s.mounts[i].source);
    }
    ReadAfterCopy(s.mounts, before, after, copy, path, q);
    assert s.mounts[0].path <= q && Resolve(s.mounts, q).Some?;
    assert t.mounts == s.mounts;
  }

  /** A staged directory, empty when it does not exist. */
  function StagedTree(staging: Files, path: Path): Files {
    if DirectoryExists(staging, path) then Subtree(staging, path) else map[]
  }

  /** What restoring puts at a path of the target: the directories are copied home first and
      the additional paths last. */
  function RestoredAt(staging: Files, q: Path): Option<string> {
    var home, keys, paths :=
      StagedTree(staging, STAGED_HOME), StagedTree(staging, STAGED_KEYS), StagedTree(staging, STAGED_PATHS);
    if q in paths then Some(paths[q])
    else if InCopy(keys, SBCTL, q) then Some(keys[q[|SBCTL|..]])
    else if InCopy(home, HOME, q) then Some(home[q[|HOME|..]])
    else None
  }

  ghost predicate Restored(staging: Files, s: State, t: State) {
    forall q :: TargetReads(t, q) == if RestoredAt(staging, q).Some? then RestoredAt(staging, q) else TargetReads(s, q)
  }

  /** Every preserved item is complete at its own path of the target. */
  ghost predicate AllRestored(p: Plan, v: Volume, s: State) {
    && (forall k, text :: IsPreservedHome(p, v, k, text) ==> TargetReads(s, HOME + k) == Some(text))
    && (forall k, text :: IsPreservedKey(p, v, k, text) ==> TargetReads(s, SBCTL + k) == Some(text))
    && forall q, text :: IsPreservedPath(p, v, q, text) ==> TargetReads(s, q) == Some(text)
  }

  /** No file lies below another file, and the root is a directory. */
  ghost predicate IsTree(files: Files) {
    [] !in files && forall a, b :: a in files && b in files ==> !(a < b)
  }

  ghost predicate OldSystem(v: Volume) {
    IsTree(SubvolumeFiles(v, "@")) && IsTree(SubvolumeFiles(v, "@home"))
  }

  lemma StagedTreeHolds(staging: Files, path: Path, content: Files, k: Path)
    requires Holds(staging, path, content) && k in content && k != []
    ensures k in StagedTree(staging, path) && StagedTree(staging, path)[k] == content[k]
  {
    assert path < path + k;
  }

  /** Where a restored home directory or key also lies below a listed path, both are the same. */
  ghost predicate Unshadowed(p: Plan, v: Volume, staging: Files) {
    var paths := StagedTree(staging, STAGED_PATHS);
    && (forall k, text :: IsPreservedHome(p, v, k, text) && HOME + k in paths ==> paths[HOME + k] == text)
    && (forall k, text :: IsPreservedKey(p, v, k, text) && SBCTL + k in paths ==> paths[SBCTL + k] == text)
  }

  lemma HomeRestored(p: Plan, v: Volume, staging: Files, k: Path)
    requires Holds(staging, STAGED_HOME, HomeFiles(p, v)) && OldSystem(v) && k in HomeFiles(p, v)
    ensures var paths := StagedTree(staging, STAGED_PATHS);
            RestoredAt(staging, HOME + k) == Some(if HOME + k in paths then paths[HOME + k] else HomeFiles(p, v)[k])
  {
    StagedTreeHolds(staging, STAGED_HOME, HomeFiles(p, v), k);
    assert (HOME + k)[|HOME|..] == k;
    assert (HOME + k)[0] == "home" && |"home"| != |"var"| && SBCTL[0] == "var";
  }

  lemma KeysAreBelow(p: Plan, v: Volume, k: Path)
    requires OldSystem(v) && k in KeyFiles(p, v)
    ensures k != []
  {
    var root := SubvolumeFiles(v, "@");
    forall path: Path | DirectoryExists(root, path + ["keys"])
      ensures path !in root
    {
      var below :| below in root.Keys && path + ["keys"] < below;
      assert path < below;
    }
    assert SBCTL + [] == SBCTL && SBCTL_LEGACY + [] == SBCTL_LEGACY;
  }

  lemma KeysRestored(p: Plan, v: Volume, staging: Files, k: Path)
    requires Holds(staging, STAGED_KEYS, KeyFiles(p, v)) && OldSystem(v) && k in KeyFiles(p, v)
    ensures var paths := StagedTree(staging, STAGED_PATHS);
            RestoredAt(staging, SBCTL + k) == Some(if SBCTL + k in paths then paths[SBCTL + k] else KeyFiles(p, v)[k])
  {
    KeysAreBelow(p, v, k);
    StagedTreeHolds(staging, STAGED_KEYS, KeyFiles(p, v), k);
    assert (SBCTL + k)[|SBCTL|..] == k;
  }

  lemma StagedPathHolds(staging: Files, path: Path, content: Files, k: Path)
    requires Holds(staging, StagedAt(path), content) && k in content && path + k != []
    ensures path + k in StagedTree(staging, STAGED_PATHS)
    ensures StagedTree(staging, STAGED_PATHS)[path + k] == content[k]
  {
    assert StagedAt(path) + k == STAGED_PATHS + (path + k);
    assert STAGED_PATHS < STAGED_PATHS + (path + k);
  }

  lemma PathRestored(p: Plan, v: Volume, staging: Files, i: nat, k: Path)
    requires i < |p.additional| && OldSystem(v) && p.additional[i] + k in SubvolumeFiles(v, "@")
    requires Holds(staging, StagedAt(p.additional[i]), Subtree(SubvolumeFiles(v, "@"), p.additional[i]))
    ensures RestoredAt(staging, p.additional[i] + k) == Some(SubvolumeFiles(v, "@")[p.additional[i] + k])
  {
    InSubtree(SubvolumeFiles(v, "@"), p.additional[i], k);
    StagedPathHolds(staging, p.additional[i], Subtree(SubvolumeFiles(v, "@"), p.additional[i]), k);
  }

  lemma RestoredReads(staging: Files, s: State, t: State, q: Path)
    requires Restored(staging, s, t) && RestoredAt(staging, q).Some?
    ensures TargetReads(t, q) == RestoredAt(staging, q)
  {
  }

  lemma RestoredTrees(p: Plan, v: Volume, staging: Files, s: State, t: State)
    requires OldSystem(v) && TreesStaged(p, v, staging) && Restored(staging, s, t)
    ensures var paths := StagedTree(staging, STAGED_PATHS);
      && (forall k :: k in HomeFiles(p, v) ==>
            TargetReads(t, HOME + k) == Some(if HOME + k in paths then paths[HOME + k] else HomeFiles(p, v)[k]))
      && (forall k :: k in KeyFiles(p, v) ==>
            TargetReads(t, SBCTL + k) == Some(if SBCTL + k in paths then paths[SBCTL + k] else KeyFiles(p, v)[k]))
  {
    forall k | k in HomeFiles(p, v)
      ensures TargetReads(t, HOME + k) == RestoredAt(staging, HOME + k)
    {
      HomeRestored(p, v, staging, k);
      RestoredReads(staging, s, t, HOME + k);
    }
    forall k | k in HomeFiles(p, v) {
      HomeRestored(p, v, staging, k);
    }
    forall k | k in KeyFiles(p, v)
      ensures TargetReads(t, SBCTL + k) == RestoredAt(staging, SBCTL + k)
    {
      KeysRestored(p, v, staging, k);
      RestoredReads(staging, s, t, SBCTL + k);
    }
    forall k | k in KeyFiles(p, v) {
      KeysRestored(p, v, staging, k);
    }
  }

  lemma RestoredPaths(p: Plan, v: Volume, staging: Files, s: State, t: State)
    requires OldSystem(v) && TreesStaged(p, v, staging) && Restored(staging, s, t)
    ensures forall i, k :: 0 <= i < |p.additional| && p.additional[i] + k in SubvolumeFiles(v, "@") ==>
      TargetReads(t, p.additional[i] + k) == Some(SubvolumeFiles(v, "@")[p.additional[i] + k])
  {
    forall i, k | 0 <= i < |p.additional| && p.additional[i] + k in SubvolumeFiles(v, "@")
      ensures TargetReads(t, p.additional[i] + k) == Some(SubvolumeFiles(v, "@")[p.additional[i] + k])
    {
      PathRestored(p, v, staging, i, k);
      RestoredReads(staging, s, t, p.additional[i] + k);
    }
  }

  /** To have restored the listed trees is to have restored their files. */
  lemma RestoredAreItems(p: Plan, v: Volume, s: State)
    ensures (forall i, k :: 0 <= i < |p.additional| && p.additional[i] + k in SubvolumeFiles(v, "@") ==>
               TargetReads(s, p.additional[i] + k) == Some(SubvolumeFiles(v, "@")[p.additional[i] + k]))
            <==> forall q, text :: IsPreservedPath(p, v, q, text) ==> TargetReads(s, q) == Some(text)
  {
    var root := SubvolumeFiles(v, "@");
    forall i, k | 0 <= i < |p.additional| && p.additional[i] + k in root
      ensures IsPreservedPath(p, v, p.additional[i] + k, root[p.additional[i] + k])
    {
      assert p.additional[i] <= p.additional[i] + k;
    }
    forall q, text | IsPreservedPath(p, v, q, text)
      ensures exists i, k :: 0 <= i < |p.additional| && p.additional[i] + k == q
    {
      var i :| 0 <= i < |p.additional| && p.additional[i] <= q;
      assert p.additional[i] + q[|p.additional[i]|..] == q;
    }
  }

  /** What was staged completely is restored completely, each item at its own path, exactly when
      no listed path brings another file for one of the home directories or keys. */
  lemma RestoredItems(p: Plan, v: Volume, staging: Files, s: State, t: State)
    requires OldSystem(v) && AllStaged(p, v, staging) && Restored(staging, s, t)
    ensures AllRestored(p, v, t) <==> Unshadowed(p, v, staging)
  {
    TreesAreItems(p, v, staging);
    forall k, text {
      HomeIsCopied(p, v, k, text);
    }
    forall k, text {
      KeysAreCopied(p, v, k, text);
    }
    RestoredAreItems(p, v, t);
    RestoredTrees(p, v, staging, s, t);
    RestoredPaths(p, v, staging, s, t);
  }

  // ------------------------------------------------------------------ paths beside one another

  /** The preserved paths do not contain one another. */
  predicate Apart(p: Plan) {
    && (forall i, j :: 0 <= i < j < |p.additional| ==> !Nested(p.additional[i], p.additional[j]))
    && forall i :: 0 <= i < |p.additional| ==>
      && (p.preserveHome ==> !Nested(p.additional[i], HOME))
      && (p.preserveKeys ==> !Nested(p.additional[i], SBCTL))
  }

  /** Below a path, and beside all listed ones, nothing is staged. */
  lemma {:induction false} NothingListedThere(staging: Files, root: Files, front: seq<Path>, last: Path, q: Path)
    requires forall i :: 0 <= i < |front| ==> !Nested(front[i], last)
    requires StagedAt(q) !in staging && last <= q
    ensures StagedAt(q) !in AddPaths(staging, root, front)
  {
    if StagedAt(q) in AddPaths(staging, root, front) {
      NothingElse(staging, root, front, q);
      var i :| 0 <= i < |front| && front[i] <= q;
      PrefixesNest(front[i], last, q);
    }
  }

  lemma {:induction false} FreePlace(staging: Files, root: Files, front: seq<Path>, last: Path)
    requires forall q :: q in staging ==> !(STAGED_PATHS <= q)
    requires forall i :: 0 <= i < |front| ==> !Nested(front[i], last)
    ensures !DirectoryExists(AddPaths(staging, root, front), StagedAt(last))
  {
    forall q | q in AddPaths(staging, root, front) && StagedAt(last) < q
      ensures false
    {
      assert q == StagedAt(q[1..]) && last == StagedAt(last)[1..] <= q[1..];
      NothingListedThere(staging, root, front, last, q[1..]);
    }
  }

  lemma BelowApart(a: Path, b: Path, q: Path, w: Path)
    requires !Nested(a, b) && a <= q && b <= w
    ensures !Nested(StagedAt(q), StagedAt(w))
  {
    assert StagedAt(q)[1..] == q && StagedAt(w)[1..] == w;
    if q <= w {
      PrefixesNest(a, b, w);
    }
    if w <= q {
      PrefixesNest(a, b, q);
    }
  }

  lemma {:induction false} NoClashBeside(staging: Files, root: Files, front: seq<Path>, last: Path)
    requires forall q :: q in staging ==> !(STAGED_PATHS <= q) && q != []
    requires forall i :: 0 <= i < |front| ==> !Nested(front[i], last)
    ensures !Clashes(AddPaths(staging, root, front), Subtree(root, last), StagedAt(last))
  {
    var r := AddPaths(staging, root, front);
    forall k, q | k in Subtree(root, last) && q in r
      ensures !(StagedAt(last) + k < q) && !(q < StagedAt(last) + k)
    {
      assert StagedAt(last) + k == StagedAt(last + k);
      if STAGED_PATHS <= q {
        assert q == StagedAt(q[1..]);
        NothingElse(staging, root, front, q[1..]);
        var i :| 0 <= i < |front| && front[i] <= q[1..];
        BelowApart(front[i], last, q[1..], last + k);
      } else {
        OthersStay(staging, root, front, q);
        assert Nested(q, StagedAt(last + k)) && q != [] ==> STAGED_PATHS <= q;
      }
    }
  }

  /** Paths that do not contain one another fit, in every order, and do not clash. */
  lemma {:induction false} PathsBesideFit(staging: Files, root: Files, paths: seq<Path>)
    requires forall q :: q in staging ==> !(STAGED_PATHS <= q) && q != []
    requires forall i, j :: 0 <= i < j < |paths| ==> !Nested(paths[i], paths[j])
    ensures AllFit(staging, root, paths) && NoneClash(staging, root, paths)
  {
    if paths != [] {
      var front, last := paths[..|paths| - 1], paths[|paths| - 1];
      PathsBesideFit(staging, root, front);
      FreePlace(staging, root, front, last);
      NoClashBeside(staging, root, front, last);
    }
  }

  lemma NotUnderAdditional(p: Plan, v: Volume, own: Path, q: Path)
    requires own <= q && forall i :: 0 <= i < |p.additional| ==> !Nested(p.additional[i], own)
    ensures q !in StagedTree(StagedFiles(p, v), STAGED_PATHS)
  {
    DirectoriesAreApart(p, v);
    assert STAGED_PATHS <= StagedAt(q);
    NothingListedThere(StagedDirectories(p, v), SubvolumeFiles(v, "@"), p.additional, own, q);
    InSubtree(StagedFiles(p, v), STAGED_PATHS, q);
  }

  /** Preserved paths that do not contain one another are staged and restored completely. */
  lemma ApartIsEnough(p: Plan, v: Volume)
    requires Apart(p)
    ensures PathsFit(p, v) && Unshadowed(p, v, StagedFiles(p, v))
    ensures NoneClash(StagedDirectories(p, v), SubvolumeFiles(v, "@"), p.additional)
  {
    DirectoriesAreApart(p, v);
    PathsBesideFit(StagedDirectories(p, v), SubvolumeFiles(v, "@"), p.additional);
    forall k, text | IsPreservedHome(p, v, k, text)
      ensures HOME + k !in StagedTree(StagedFiles(p, v), STAGED_PATHS)
    {
      NotUnderAdditional(p, v, HOME, HOME + k);
    }
    forall k, text | IsPreservedKey(p, v, k, text)
      ensures SBCTL + k !in StagedTree(StagedFiles(p, v), STAGED_PATHS)
    {
      NotUnderAdditional(p, v, SBCTL, SBCTL + k);
    }
  }
}
