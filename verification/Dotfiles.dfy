/** Pushing configuration files to a repository and pulling them on another machine. */
module Dotfiles {
  import opened Trees
  import opened FileTree

  /** A path on the machine and the path of its copy in the repository. */
  datatype Mapping = Mapping(source: Path, destination: Path)

  /** A machine's files, and for which existing paths the permission check passes. */
  datatype Host = Host(files: Tree, readable: set<Path>, writable: set<Path>, sensitive: set<Path>)

  datatype Version = Version(major: nat, minor: nat, patch: nat)

  // ------------------------------------------------------------------ the version

  function Incremented(v: Version): Version {
    var patch := v.patch + 1;
    var minor := if patch > 99 then v.minor + 1 else v.minor;
    Version(if minor > 99 then v.major + 1 else v.major,
            if minor > 99 then 0 else minor,
            if patch > 99 then 0 else patch)
  }

  /** The number the components are the base-100 digits of. */
  function Code(v: Version): nat {
    v.major * 10000 + v.minor * 100 + v.patch
  }

  /** A version is raised by exactly one exactly when its patch is a digit and its minor, with
      the carry, is at most one more than a digit. */
  lemma VersionRaisedByOne(v: Version)
    ensures Code(Incremented(v)) == Code(v) + 1 <==>
      v.patch <= 99 && v.minor + (if v.patch == 99 then 1 else 0) <= 100
    ensures v.minor <= 99 && v.patch <= 99 ==> Incremented(v).minor <= 99 && Incremented(v).patch <= 99
  {
  }

  // ------------------------------------------------------------------ push

  predicate Pushable(m: Host, x: Mapping) {
    x.source in m.files && x.source in m.readable
  }

  /** One mapping of a push. */
  function PushedOne(repo: Tree, m: Host, x: Mapping): Tree {
    if Pushable(m, x) then Updated(repo, x.destination, m.files, x.source) else repo
  }

  /** The repository after the first k mappings. */
  function Pushed(repo: Tree, m: Host, mappings: seq<Mapping>, k: nat): Tree
    requires k <= |mappings|
  {
    if k == 0 then repo else PushedOne(Pushed(repo, m, mappings, k - 1), m, mappings[k - 1])
  }

  /** Whether one of the first k mappings needed an update. */
  predicate PushUpdates(repo: Tree, m: Host, mappings: seq<Mapping>, k: nat)
    requires k <= |mappings|
  {
    k > 0 && (PushUpdates(repo, m, mappings, k - 1)
              || var x := mappings[k - 1];
                 Pushable(m, x) && NeedsUpdate(Pushed(repo, m, mappings, k - 1), x.destination, m.files, x.source))
  }

  /** Mappings do not overlap, on the machine or in the repository. */
  predicate MappingsApart(mappings: seq<Mapping>) {
    forall i, j :: 0 <= i < j < |mappings| ==>
      !Nested(mappings[i].source, mappings[j].source) && !Nested(mappings[i].destination, mappings[j].destination)
  }

  /** Files and directories are of the same kind on both sides of every mapping. */
  predicate Agree(a: Tree, b: Tree, mappings: seq<Mapping>) {
    forall i :: 0 <= i < |mappings| ==>
      && SoundAt(a, mappings[i].source) && SoundAt(b, mappings[i].destination)
      && SameKind(b, mappings[i].destination, a, mappings[i].source)
  }

  lemma PushedHere(before: Tree, repo: Tree, files: Tree, x: Mapping)
    requires Subtree(before, x.destination) == Subtree(repo, x.destination) && x.source in files
    requires SoundAt(files, x.source) && SoundAt(repo, x.destination) && SameKind(repo, x.destination, files, x.source)
    ensures Subtree(Updated(before, x.destination, files, x.source), x.destination) == Subtree(files, x.source)
  {
    SameSubtree(before, x.destination, repo, x.destination);
    UpdatedHere(before, x.destination, files, x.source);
  }

  /** What is in the repository at a mapped path when a push is over, or not there yet. */
  function Shared(repo: Tree, m: Host, x: Mapping, over: bool): Tree {
    if over && Pushable(m, x) then Subtree(m.files, x.source) else Subtree(repo, x.destination)
  }

  lemma {:induction false} PushedStep(repo: Tree, m: Host, mappings: seq<Mapping>, j: nat, k: nat,
          before: Tree, after: Tree)
    requires k == j + 1 && k <= |mappings|
    requires before == Pushed(repo, m, mappings, j) && after == Pushed(repo, m, mappings, k)
    ensures after == PushedOne(before, m, mappings[j])
  {
  }

  lemma PushedNext(repo: Tree, m: Host, mappings: seq<Mapping>, j: nat, k: nat, i: nat, before: Tree, after: Tree)
    requires MappingsApart(mappings) && Agree(m.files, repo, mappings) && i < |mappings| && k <= |mappings| && k == j + 1
    requires after == PushedOne(before, m, mappings[j])
    requires Subtree(before, mappings[i].destination) == Shared(repo, m, mappings[i], i < j)
    ensures Subtree(after, mappings[i].destination) == Shared(repo, m, mappings[i], i < k)
  {
    var x, y := mappings[i], mappings[j];
    if Pushable(m, y) {
      if i == j {
        PushedHere(before, repo, m.files, x);
      } else {
        UpdatedElsewhere(before, y.destination, m.files, y.source, x.destination);
      }
    }
  }

  lemma {:induction false} PushedSoFar(repo: Tree, m: Host, mappings: seq<Mapping>, k: nat, i: nat, after: Tree)
    requires MappingsApart(mappings) && Agree(m.files, repo, mappings) && i < |mappings| && k <= |mappings|
    requires after == Pushed(repo, m, mappings, k)
    ensures Subtree(after, mappings[i].destination) == Shared(repo, m, mappings[i], i < k)
  {
    if k > 0 {
      var j: nat := k - 1;
      var before := Pushed(repo, m, mappings, j);
      PushedSoFar(repo, m, mappings, j, i, before);
      PushedStep(repo, m, mappings, j, k, before, after);
      PushedNext(repo, m, mappings, j, k, i, before, after);
    }
  }

  /** After a push every mapped path that is there and readable is in the repository as it is on
      the machine, and the others are there as they were. */
  lemma {:induction false} PushTransfers(repo: Tree, m: Host, mappings: seq<Mapping>, after: Tree, i: nat)
    requires MappingsApart(mappings) && Agree(m.files, repo, mappings) && i < |mappings|
    requires after == Pushed(repo, m, mappings, |mappings|)
    ensures var x := mappings[i];
      Subtree(after, x.destination) ==
      if x.source in m.files && x.source in m.readable then Subtree(m.files, x.source) else Subtree(repo, x.destination)
  {
    PushedSoFar(repo, m, mappings, |mappings|, i, after);
  }

  lemma PushAgain(after: Tree, files: Tree, x: Mapping)
    requires Subtree(after, x.destination) == Subtree(files, x.source) && x.source in files && SoundAt(files, x.source)
    ensures !NeedsUpdate(after, x.destination, files, x.source)
  {
    SameSubtree(after, x.destination, files, x.source);
    UpToDate(after, x.destination, files, x.source);
  }

  /** What is at a mapped path can be read and differs from the repository. */
  predicate OutOfSync(repo: Tree, m: Host, x: Mapping) {
    Pushable(m, x) && NeedsUpdate(repo, x.destination, m.files, x.source)
  }

  /** No mapping needs an update. */
  ghost predicate InSync(repo: Tree, m: Host, mappings: seq<Mapping>) {
    forall i :: 0 <= i < |mappings| ==> !OutOfSync(repo, m, mappings[i])
  }

  lemma {:induction false} IdlePush(repo: Tree, m: Host, mappings: seq<Mapping>, k: nat)
    requires InSync(repo, m, mappings) && k <= |mappings|
    ensures Pushed(repo, m, mappings, k) == repo && !PushUpdates(repo, m, mappings, k)
  {
    if k > 0 {
      IdlePush(repo, m, mappings, k - 1);
    }
  }

  /** A push updates something exactly when some mapping needs it, overlapping ones or not. */
  lemma {:induction false} UpdatesWhenOutOfSync(repo: Tree, m: Host, mappings: seq<Mapping>)
    ensures PushUpdates(repo, m, mappings, |mappings|) <==> !InSync(repo, m, mappings)
  {
    if InSync(repo, m, mappings) {
      IdlePush(repo, m, mappings, |mappings|);
    } else if !PushUpdates(repo, m, mappings, |mappings|) {
      forall i | 0 <= i < |mappings|
        ensures !OutOfSync(repo, m, mappings[i])
      {
        NoUpdateBefore(repo, m, mappings, |mappings|, i);
      }
    }
  }

  lemma {:induction false} NoUpdateBefore(repo: Tree, m: Host, mappings: seq<Mapping>, k: nat, i: nat)
    requires i < k <= |mappings| && !PushUpdates(repo, m, mappings, k)
    ensures Pushed(repo, m, mappings, k) == repo
    ensures !OutOfSync(repo, m, mappings[i])
  {
    if k > 1 {
      NoUpdateBefore(repo, m, mappings, k - 1, if i < k - 1 then i else 0);
    } else {
      assert Pushed(repo, m, mappings, 0) == repo;
    }
  }

  /** A push right after a push changes nothing. */
  lemma {:induction false} SecondPushIdle(repo: Tree, m: Host, mappings: seq<Mapping>, after: Tree)
    requires MappingsApart(mappings) && Agree(m.files, repo, mappings) && after == Pushed(repo, m, mappings, |mappings|)
    ensures InSync(after, m, mappings)
    ensures Pushed(after, m, mappings, |mappings|) == after && !PushUpdates(after, m, mappings, |mappings|)
  {
    forall i | 0 <= i < |mappings| && Pushable(m, mappings[i])
      ensures !OutOfSync(after, m, mappings[i])
    {
      PushTransfers(repo, m, mappings, after, i);
      PushAgain(after, m.files, mappings[i]);
    }
    IdlePush(after, m, mappings, |mappings|);
  }

  /** Whether a push that starts from `after` updates anything. */
  predicate EitherNeedsUpdate(after: Tree, files: Tree, inner: Mapping, outer: Mapping)
    requires inner.source in files && outer.source in files
  {
    NeedsUpdate(after, inner.destination, files, inner.source) || NeedsUpdate(after, outer.destination, files, outer.source)
  }

  lemma {:induction false} TwoMappings(repo: Tree, m: Host, a: Mapping, b: Mapping)
    requires Pushable(m, a) && Pushable(m, b)
    ensures Pushed(repo, m, [a, b], 2) ==
      Updated(Updated(repo, a.destination, m.files, a.source), b.destination, m.files, b.source)
    ensures PushUpdates(repo, m, [a, b], 2) <==> EitherNeedsUpdate(repo, m.files, a, b)
  {
    var mappings := [a, b];
    assert Pushed(repo, m, mappings, 0) == repo && !PushUpdates(repo, m, mappings, 0);
    assert Pushed(repo, m, mappings, 1) == Updated(repo, a.destination, m.files, a.source);
    assert PushUpdates(repo, m, mappings, 1) <==> NeedsUpdate(repo, a.destination, m.files, a.source);
  }

  /** The outer mapping came last. */
  lemma OuterLast(before: Tree, files: Tree, inner: Mapping, outer: Mapping, f: Path, after: Tree)
    requires inner.source in files && files[inner.source].File? && IsDir(files, outer.source)
    requires inner.destination == outer.destination + f
    requires after == Updated(before, outer.destination, files, outer.source)
    ensures EitherNeedsUpdate(after, files, inner, outer) <==>
      !(f in Subtree(files, outer.source) && Subtree(files, outer.source)[f] == files[inner.source])
  {
    DirectoryUpdated(before, outer.destination, files, outer.source);
    InSubtree(after, outer.destination, f);
    SubtreeRoot(after, outer.destination);
    SubtreeRoot(files, outer.source);
  }

  /** The inner mapping came last. */
  lemma InnerLast(before: Tree, files: Tree, inner: Mapping, outer: Mapping, f: Path, between: Tree, after: Tree)
    requires inner.source in files && files[inner.source].File? && IsDir(files, outer.source)
    requires inner.destination == outer.destination + f
    requires between == Updated(before, outer.destination, files, outer.source)
    requires after == Updated(between, inner.destination, files, inner.source)
    ensures EitherNeedsUpdate(after, files, inner, outer) <==>
      !(f in Subtree(files, outer.source) && Subtree(files, outer.source)[f] == files[inner.source])
  {
    DirectoryUpdated(before, outer.destination, files, outer.source);
    InSubtree(between, outer.destination, f);
    InSubtree(after, outer.destination, f);
    SubtreeRoot(between, outer.destination);
    SubtreeRoot(after, outer.destination);
    SubtreeRoot(files, outer.source);
  }

  /** With one destination inside another, in either order, a push after a push changes the
      repository again, exactly unless the directory holds the same file in that place. */
  lemma {:induction false} OverlapNeverSettles(repo: Tree, m: Host, inner: Mapping, outer: Mapping, f: Path,
          mappings: seq<Mapping>, after: Tree)
    requires Pushable(m, inner) && Pushable(m, outer) && m.files[inner.source].File? && m.files[outer.source].Dir?
    requires inner.destination == outer.destination + f
    requires mappings == [inner, outer] || mappings == [outer, inner]
    requires after == Pushed(repo, m, mappings, 2)
    ensures PushUpdates(after, m, mappings, 2) <==>
      !(f in Subtree(m.files, outer.source) && Subtree(m.files, outer.source)[f] == m.files[inner.source])
  {
    var a, b := mappings[0], mappings[1];
    TwoMappings(repo, m, a, b);
    TwoMappings(after, m, a, b);
    var between := Updated(repo, a.destination, m.files, a.source);
    if a == inner {
      OuterLast(between, m.files, inner, outer, f, after);
    } else {
      InnerLast(repo, m.files, inner, outer, f, between, after);
    }
  }

  // ------------------------------------------------------------------ pull

  /** A copy of what a pull overwrites, next to the path it was at. */
  datatype Backup = Backup(of: Path, tree: Tree)

  predicate Pullable(m: Host, files: Tree, repo: Tree, x: Mapping, force: bool) {
    && x.destination in repo && (force || x.source !in m.sensitive)
    && (x.source in files ==> x.source in m.writable)
  }

  /** One mapping of a pull. */
  function PulledOne(files: Tree, repo: Tree, m: Host, x: Mapping, force: bool): Tree {
    if Pullable(m, files, repo, x, force) then Updated(files, x.source, repo, x.destination) else files
  }

  /** The machine's files after the first k mappings. */
  function Pulled(repo: Tree, m: Host, mappings: seq<Mapping>, force: bool, k: nat): Tree
    requires k <= |mappings|
  {
    if k == 0 then m.files
    else PulledOne(Pulled(repo, m, mappings, force, k - 1), repo, m, mappings[k - 1], force)
  }

  function BackedUpOne(files: Tree, repo: Tree, m: Host, x: Mapping, force: bool): seq<Backup> {
    if Pullable(m, files, repo, x, force) && NeedsUpdate(files, x.source, repo, x.destination) && x.source in files
    then [Backup(x.source, Subtree(files, x.source))] else []
  }

  /** The backups of the first k mappings. */
  function BackedUp(repo: Tree, m: Host, mappings: seq<Mapping>, force: bool, k: nat): seq<Backup>
    requires k <= |mappings|
  {
    if k == 0 then []
    else
      BackedUp(repo, m, mappings, force, k - 1)
      + BackedUpOne(Pulled(repo, m, mappings, force, k - 1), repo, m, mappings[k - 1], force)
  }

  /** Mappings i to k do not overlap a path on the machine, or are skipped as sensitive. */
  predicate PullElsewhere(sensitive: set<Path>, mappings: seq<Mapping>, i: nat, k: nat, q: Path)
    requires i <= k <= |mappings|
  {
    forall j :: i <= j < k ==> !Nested(mappings[j].source, q) || mappings[j].source in sensitive
  }

  lemma PulledOneElsewhere(files: Tree, repo: Tree, m: Host, x: Mapping, force: bool, q: Path)
    requires !Nested(x.source, q) || (!force && x.source in m.sensitive)
    ensures Subtree(PulledOne(files, repo, m, x, force), q) == Subtree(files, q)
  {
    if Pullable(m, files, repo, x, force) {
      UpdatedElsewhere(files, x.source, repo, x.destination, q);
    }
  }

  /** Such mappings of an unforced pull leave the path alone. */
  lemma {:induction false} PulledElsewhere(repo: Tree, m: Host, mappings: seq<Mapping>, i: nat, k: nat, q: Path)
    requires i <= k <= |mappings| && PullElsewhere(m.sensitive, mappings, i, k, q)
    ensures Subtree(Pulled(repo, m, mappings, false, k), q) == Subtree(Pulled(repo, m, mappings, false, i), q)
  {
    if i < k {
      PulledElsewhere(repo, m, mappings, i, k - 1, q);
      PulledOneElsewhere(Pulled(repo, m, mappings, false, k - 1), repo, m, mappings[k - 1], false, q);
    }
  }

  lemma PulledHere(before: Tree, files: Tree, repo: Tree, x: Mapping)
    requires Subtree(before, x.source) == Subtree(files, x.source)
    requires SoundAt(files, x.source) && SoundAt(repo, x.destination) && SameKind(repo, x.destination, files, x.source)
    ensures x.source in before <==> x.source in files
    ensures x.destination in repo ==>
      Subtree(Updated(before, x.source, repo, x.destination), x.source) == Subtree(repo, x.destination)
  {
    SameSubtree(before, x.source, files, x.source);
    if x.destination in repo {
      UpdatedHere(before, x.source, repo, x.destination);
    }
  }

  /** What is on the machine at a mapped path when a pull is over, or not there yet. */
  function Fetched(repo: Tree, m: Host, x: Mapping, force: bool, over: bool): Tree {
    if over && Pullable(m, m.files, repo, x, force) then Subtree(repo, x.destination) else Subtree(m.files, x.source)
  }

  lemma {:induction false} PulledStep(repo: Tree, m: Host, mappings: seq<Mapping>, force: bool, j: nat, k: nat,
          before: Tree, after: Tree)
    requires k == j + 1 && k <= |mappings|
    requires before == Pulled(repo, m, mappings, force, j) && after == Pulled(repo, m, mappings, force, k)
    ensures after == PulledOne(before, repo, m, mappings[j], force)
    ensures BackedUp(repo, m, mappings, force, k) ==
      BackedUp(repo, m, mappings, force, j) + BackedUpOne(before, repo, m, mappings[j], force)
  {
  }

  lemma PulledNext(repo: Tree, m: Host, mappings: seq<Mapping>, force: bool, j: nat, k: nat, i: nat,
          before: Tree, after: Tree)
    requires MappingsApart(mappings) && Agree(m.files, repo, mappings) && i < |mappings| && k <= |mappings| && k == j + 1
    requires after == PulledOne(before, repo, m, mappings[j], force)
    requires Subtree(before, mappings[i].source) == Fetched(repo, m, mappings[i], force, i < j)
    ensures Subtree(after, mappings[i].source) == Fetched(repo, m, mappings[i], force, i < k)
  {
    if i == j {
      PulledHere(before, m.files, repo, mappings[i]);
    } else {
      PulledOneElsewhere(before, repo, m, mappings[j], force, mappings[i].source);
    }
  }

  lemma {:induction false} PulledSoFar(repo: Tree, m: Host, mappings: seq<Mapping>, force: bool, k: nat,
          i: nat, after: Tree)
    requires MappingsApart(mappings) && Agree(m.files, repo, mappings) && i < |mappings| && k <= |mappings|
    requires after == Pulled(repo, m, mappings, force, k)
    ensures Subtree(after, mappings[i].source) == Fetched(repo, m, mappings[i], force, i < k)
  {
    if k > 0 {
      var j: nat := k - 1;
      var before := Pulled(repo, m, mappings, force, j);
      PulledSoFar(repo, m, mappings, force, j, i, before);
      PulledStep(repo, m, mappings, force, j, k, before, after);
      PulledNext(repo, m, mappings, force, j, k, i, before, after);
    }
  }

  /** After a pull every mapped path that the repository has, that may be written if it is there,
      and that is not sensitive, or pulled with force, is on the machine as it is in the
      repository, and the others are as they were. */
  lemma {:induction false} PullTransfers(repo: Tree, m: Host, mappings: seq<Mapping>, force: bool, after: Tree, i: nat)
    requires MappingsApart(mappings) && Agree(m.files, repo, mappings) && i < |mappings|
    requires after == Pulled(repo, m, mappings, force, |mappings|)
    ensures var x := mappings[i];
      Subtree(after, x.source) ==
      if && x.destination in repo && (x.source in m.files ==> x.source in m.writable)
         && (x.source in m.sensitive ==> force)
      then Subtree(repo, x.destination) else Subtree(m.files, x.source)
  {
    PulledSoFar(repo, m, mappings, force, |mappings|, i, after);
  }

  /** Where the mappings so far changed the path, what was there is backed up. */
  predicate ChangedOnlyAfterBackup(files: Tree, after: Tree, path: Path, backups: seq<Backup>) {
    Subtree(after, path) != Subtree(files, path) ==> Backup(path, Subtree(files, path)) in backups
  }

  lemma BackedUpNext(repo: Tree, m: Host, mappings: seq<Mapping>, force: bool, j: nat, k: nat, i: nat,
          before: Tree, after: Tree,
                     backups: seq<Backup>)
    requires MappingsApart(mappings) && i < |mappings| && mappings[i].source in m.files && k <= |mappings| && k == j + 1
    requires after == PulledOne(before, repo, m, mappings[j], force)
    requires j <= i ==> Subtree(before, mappings[i].source) == Subtree(m.files, mappings[i].source)
    requires ChangedOnlyAfterBackup(m.files, before, mappings[i].source, backups)
    ensures k <= i ==> Subtree(after, mappings[i].source) == Subtree(m.files, mappings[i].source)
    ensures ChangedOnlyAfterBackup(m.files, after, mappings[i].source,
                                   backups + BackedUpOne(before, repo, m, mappings[j], force))
  {
    var x := mappings[i];
    if i == j {
      SameSubtree(before, x.source, m.files, x.source);
    } else {
      PulledOneElsewhere(before, repo, m, mappings[j], force, x.source);
    }
  }

  lemma {:induction false} BackedUpSoFar(repo: Tree, m: Host, mappings: seq<Mapping>, force: bool, k: nat,
          i: nat, after: Tree)
    requires MappingsApart(mappings) && i < |mappings| && mappings[i].source in m.files && k <= |mappings|
    requires after == Pulled(repo, m, mappings, force, k)
    ensures k <= i ==> Subtree(after, mappings[i].source) == Subtree(m.files, mappings[i].source)
    ensures ChangedOnlyAfterBackup(m.files, after, mappings[i].source, BackedUp(repo, m, mappings, force, k))
  {
    if k > 0 {
      var j: nat := k - 1;
      var before, backups := Pulled(repo, m, mappings, force, j), BackedUp(repo, m, mappings, force, j);
      BackedUpSoFar(repo, m, mappings, force, j, i, before);
      PulledStep(repo, m, mappings, force, j, k, before, after);
      BackedUpNext(repo, m, mappings, force, j, k, i, before, after, backups);
    }
  }

  /** Whatever a pull changes at a mapped path, it backed up what was there. */
  lemma {:induction false} OverwrittenIsBackedUp(repo: Tree, m: Host, mappings: seq<Mapping>, force: bool,
          after: Tree, i: nat)
    requires MappingsApart(mappings) && i < |mappings| && mappings[i].source in m.files
    requires after == Pulled(repo, m, mappings, force, |mappings|)
    requires Subtree(after, mappings[i].source) != Subtree(m.files, mappings[i].source)
    ensures Backup(mappings[i].source, Subtree(m.files, mappings[i].source)) in BackedUp(repo, m, mappings, force, |mappings|)
  {
    BackedUpSoFar(repo, m, mappings, force, |mappings|, i, after);
  }

  // ------------------------------------------------------------------ sensitive paths

  /** What an unforced pull from any repository leaves alone, on every machine with these
      sensitive paths. */
  ghost predicate LeftAlone(mappings: seq<Mapping>, sensitive: set<Path>, s: Path) {
    forall repo: Tree, m: Host :: m.sensitive == sensitive ==>
      Subtree(Pulled(repo, m, mappings, false, |mappings|), s) == Subtree(m.files, s)
  }

  /** The directories on the way to a path, and the path itself. */
  function Way(p: Path): Tree {
    map q | q in Prefixes(p) :: Dir
  }

  function Prefixes(p: Path): set<Path> {
    set i: nat | i <= |p| :: p[..i]
  }

  lemma OnTheWay(p: Path, q: Path)
    ensures q in Way(p) <==> q <= p
  {
    if q <= p {
      assert p[..|q|] == q;
      assert q in Prefixes(p);
    }
  }

  /** The mapping overlaps a path on the machine and is not skipped as sensitive. */
  predicate Exposes(x: Mapping, sensitive: set<Path>, s: Path) {
    Nested(x.source, s) && x.source !in sensitive
  }

  lemma {:induction false} LastExposing(mappings: seq<Mapping>, sensitive: set<Path>, s: Path, i: nat) returns (j: nat)
    requires i < |mappings| && Exposes(mappings[i], sensitive, s)
    ensures j < |mappings| && Exposes(mappings[j], sensitive, s)
    ensures PullElsewhere(sensitive, mappings, j + 1, |mappings|, s)
    decreases |mappings| - i
  {
    if k: nat :| i < k < |mappings| && Exposes(mappings[k], sensitive, s) {
      j := LastExposing(mappings, sensitive, s, k);
    } else {
      j := i;
    }
  }

  /** A mapping that overlaps s puts a directory at n, at or below s. */
  lemma PutsDirectory(before: Tree, repo: Tree, m: Host, x: Mapping, s: Path, n: Path)
    requires x.source !in m.sensitive && x.source in m.writable && x.source <= n && s <= n
    requires IsDir(repo, x.destination) && x.destination + n[|x.source|..] in repo
    ensures n[|s|..] in Subtree(PulledOne(before, repo, m, x, false), s)
  {
    var after, rest := PulledOne(before, repo, m, x, false), n[|x.source|..];
    DirectoryUpdated(before, x.source, repo, x.destination);
    InSubtree(repo, x.destination, rest);
    InSubtree(after, x.source, rest);
    assert x.source + rest == n == s + n[|s|..];
    InSubtree(after, s, n[|s|..]);
  }

  /** A repository and a machine whose pull changes what mapping i exposes. */
  lemma ExposedChanges(mappings: seq<Mapping>, sensitive: set<Path>, s: Path, i: nat) returns (repo: Tree, m: Host)
    requires i < |mappings| && Exposes(mappings[i], sensitive, s)
    requires PullElsewhere(sensitive, mappings, i + 1, |mappings|, s)
    ensures m.sensitive == sensitive && s in m.files
    ensures Subtree(Pulled(repo, m, mappings, false, |mappings|), s) != Subtree(m.files, s)
  {
    var x := mappings[i];
    var n := if x.source <= s then s + ["new"] else x.source;
    repo, m := Way(x.destination + n[|x.source|..]), Host(Way(s), {}, {x.source}, sensitive);
    OnTheWay(s, s);
    OnTheWay(s, n);
    OnTheWay(x.destination + n[|x.source|..], x.destination);
    OnTheWay(x.destination + n[|x.source|..], x.destination + n[|x.source|..]);
    PulledElsewhere(repo, m, mappings, i + 1, |mappings|, s);
    PutsDirectory(Pulled(repo, m, mappings, false, i), repo, m, x, s, n);
    InSubtree(m.files, s, n[|s|..]);
    assert s + n[|s|..] == n;
  }

  /** Unforced pulls leave a path alone, whatever the repository, exactly when every mapping
      that overlaps it is a sensitive one. */
  lemma SensitiveUntouched(mappings: seq<Mapping>, sensitive: set<Path>, s: Path)
    ensures LeftAlone(mappings, sensitive, s) <==>
      forall i :: 0 <= i < |mappings| && Nested(mappings[i].source, s) ==> mappings[i].source in sensitive
  {
    if i: nat :| i < |mappings| && Exposes(mappings[i], sensitive, s) {
      var j := LastExposing(mappings, sensitive, s, i);
      var repo, m := ExposedChanges(mappings, sensitive, s, j);
    } else {
      assert forall i :: 0 <= i < |mappings| ==> !Exposes(mappings[i], sensitive, s);
      forall repo: Tree, m: Host | m.sensitive == sensitive
        ensures Subtree(Pulled(repo, m, mappings, false, |mappings|), s) == Subtree(m.files, s)
      {
        PulledElsewhere(repo, m, mappings, 0, |mappings|, s);
      }
    }
  }

  /** Below a mapped directory nothing is protected: only the mapped path itself is compared
      with the sensitive ones, and what is below becomes what the repository has. */
  lemma {:induction false} SensitiveBelowDirectory(repo: Tree, m: Host, x: Mapping, s: Path)
    requires x.source <= s && x.source !in m.sensitive && IsDir(repo, x.destination)
    requires x.source in m.files ==> x.source in m.writable
    ensures Subtree(Pulled(repo, m, [x], false, 1), s) == Subtree(repo, x.destination + s[|x.source|..])
  {
    var after := PulledOne(m.files, repo, m, x, false);
    assert Pulled(repo, m, [x], false, 0) == m.files;
    DirectoryUpdated(m.files, x.source, repo, x.destination);
    SameFurtherDown(after, x.source, repo, x.destination, s[|x.source|..]);
    assert x.source + s[|x.source|..] == s;
  }

  /** A push on one machine and a pull on another bring over every path that is there and
      readable on the first, writable on the second, and not sensitive. */
  lemma {:induction false} PushThenPull(repo: Tree, a: Host, b: Host, mappings: seq<Mapping>, shared: Tree,
          after: Tree, i: nat)
    requires MappingsApart(mappings) && i < |mappings|
    requires shared == Pushed(repo, a, mappings, |mappings|) && after == Pulled(shared, b, mappings, false, |mappings|)
    requires Agree(a.files, repo, mappings) && Agree(b.files, shared, mappings)
    requires mappings[i].source in a.files && mappings[i].source in a.readable && mappings[i].source !in b.sensitive
    requires mappings[i].source in b.files ==> mappings[i].source in b.writable
    ensures Subtree(after, mappings[i].source) == Subtree(a.files, mappings[i].source)
  {
    PushTransfers(repo, a, mappings, shared, i);
    SameSubtree(shared, mappings[i].destination, a.files, mappings[i].source);
    PullTransfers(shared, b, mappings, false, after, i);
  }

  // ------------------------------------------------------------------ the script

  class DotfilesSync {
    const mappings: seq<Mapping>
    var machine: Host
    var repo: Tree
    var version: Version
    var backups: seq<Backup>

    constructor (mappings: seq<Mapping>, machine: Host, repo: Tree, version: Version)
      ensures this.mappings == mappings && this.machine == machine && this.repo == repo && this.version == version
      ensures backups == []
    {
      this.mappings := mappings;
      this.machine := machine;
      this.repo := repo;
      this.version := version;
      backups := [];
    }

    /** `push_changes`: the version is raised once when something changed. A dry run tells
        whether there is something to push. */
    method PushChanges(dryRun: bool) returns (changed: bool)
      modifies this`repo, this`version
      ensures changed <==> exists i :: 0 <= i < |mappings| && OutOfSync(old(repo), machine, mappings[i])
      ensures dryRun ==> repo == old(repo) && version == old(version)
      ensures !dryRun ==>
        && repo == Pushed(old(repo), machine, mappings, |mappings|)
        && changed == PushUpdates(old(repo), machine, mappings, |mappings|)
        && version == if changed then Incremented(old(version)) else old(version)
    {
      changed := false;
      var i := 0;
      while i < |mappings|
        invariant 0 <= i <= |mappings| && version == old(version)
        invariant dryRun ==> repo == old(repo)
        invariant !dryRun ==> repo == Pushed(old(repo), machine, mappings, i)
        invariant !dryRun ==> changed == PushUpdates(old(repo), machine, mappings, i)
        invariant dryRun ==> (changed <==> exists j :: 0 <= j < i && OutOfSync(repo, machine, mappings[j]))
      {
        var x := mappings[i];
        if Pushable(machine, x) && NeedsUpdate(repo, x.destination, machine.files, x.source) {
          if !dryRun {
            repo := CopyOver(repo, x.destination, machine.files, x.source);
          }
          changed := true;
        }
        i := i + 1;
      }
      UpdatesWhenOutOfSync(old(repo), machine, mappings);
      if changed && !dryRun {
        version := Incremented(version);
      }
    }

    /** `pull_changes`: what is overwritten is backed up first; the repository is only read. */
    method PullChanges(dryRun: bool, force: bool)
      modifies this`machine, this`backups
      ensures dryRun ==> machine == old(machine) && backups == old(backups)
      ensures !dryRun ==>
        && machine == old(machine).(files := Pulled(repo, old(machine), mappings, force, |mappings|))
        && backups == old(backups) + BackedUp(repo, old(machine), mappings, force, |mappings|)
    {
      if dryRun {
        return;
      }
      var i := 0;
      while i < |mappings|
        invariant 0 <= i <= |mappings|
        invariant machine == old(machine).(files := Pulled(repo, old(machine), mappings, force, i))
        invariant backups == old(backups) + BackedUp(repo, old(machine), mappings, force, i)
      {
        PullMapping(mappings[i], force);
        i := i + 1;
      }
    }

    method PullMapping(x: Mapping, force: bool)
      modifies this`machine, this`backups
      ensures var files, pulls := old(machine).files, Pullable(old(machine), old(machine).files, repo, x, force);
        && machine == old(machine).(files := if pulls then Updated(files, x.source, repo, x.destination) else files)
        && backups == old(backups) +
             if pulls && NeedsUpdate(files, x.source, repo, x.destination) && x.source in files
             then [Backup(x.source, Subtree(files, x.source))] else []
    {
      if Pullable(machine, machine.files, repo, x, force) && NeedsUpdate(machine.files, x.source, repo, x.destination) {
        if x.source in machine.files {
          backups := backups + [Backup(x.source, Subtree(machine.files, x.source))];
        }
        machine := machine.(files := CopyOver(machine.files, x.source, repo, x.destination));
      }
    }
  }
}
