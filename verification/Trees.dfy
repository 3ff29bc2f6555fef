/** File trees as maps from paths, copying between them, and a tree composed of several
    filesystems by a mount table. */
module Trees {
  import opened Text

  type Path = seq<string>
  type Files = map<Path, string>

  /** A path is a file, or a directory with something below it. */
  predicate Exists(files: Files, path: Path) {
    exists k :: k in files.Keys && path <= k
  }

  predicate Nested(a: Path, b: Path) {
    a <= b || b <= a
  }

  lemma PrefixesCompare(a: Path, b: Path, q: Path)
    requires a <= q && b <= q && |a| <= |b|
    ensures a <= b
  {
  }

  lemma PrefixesNest(a: Path, b: Path, q: Path)
    requires a <= q && b <= q
    ensures Nested(a, b)
  {
    if |a| <= |b| {
      PrefixesCompare(a, b, q);
    } else {
      PrefixesCompare(b, a, q);
    }
  }

  function NamesBelow<V>(t: map<Path, V>, path: Path): set<Path> {
    set q | q in t.Keys && path <= q :: q[|path|..]
  }

  lemma NamedBelow<V>(t: map<Path, V>, path: Path, k: Path)
    ensures k in NamesBelow(t, path) <==> path + k in t
  {
    if path + k in t {
      assert (path + k)[|path|..] == k;
    }
    if k in NamesBelow(t, path) {
      var q :| q in t.Keys && path <= q && q[|path|..] == k;
      assert path + k == q;
    }
  }

  function At<V>(t: map<Path, V>, path: Path, k: Path): V
    requires k in NamesBelow(t, path)
  {
    NamedBelow(t, path, k);
    t[path + k]
  }

  /** Everything at and below a path, named relative to it. */
  function Subtree<V>(t: map<Path, V>, path: Path): map<Path, V> {
    map k | k in NamesBelow(t, path) :: At(t, path, k)
  }

  lemma InSubtree<V>(t: map<Path, V>, path: Path, k: Path)
    ensures k in Subtree(t, path) <==> path + k in t
    ensures k in Subtree(t, path) ==> Subtree(t, path)[k] == t[path + k]
  {
    NamedBelow(t, path, k);
  }

  /** The files of a tree once `cp -a` has put another one below a path. */
  function Copied(files: Files, source: Files, path: Path): (r: Files)
    ensures forall k :: k in source ==> path + k in r && r[path + k] == source[k]
    ensures forall q :: q in files && !(path <= q && q[|path|..] in source) ==> q in r && r[q] == files[q]
    ensures forall q :: q in r ==> q in files || path <= q
  {
    var placed := set k | k in source.Keys :: path + k;
    assert forall k :: k in source ==> path + k in placed && (path + k)[|path|..] == k;
    map q | q in files.Keys + placed :: if q in placed then source[q[|path|..]] else files[q]
  }

  /** A copy would put a file where a directory is, or a directory where a file is. */
  predicate Clashes(files: Files, source: Files, path: Path) {
    exists k, q :: k in source && q in files && (path + k < q || q < path + k)
  }

  datatype Mounting<S> = Mounting(path: Path, source: S)

  /** The mount a path resolves to: the last one mounted over it. */
  function Resolve<S>(mounts: seq<Mounting<S>>, q: Path): (i: Option<nat>)
    ensures i.Some? ==> i.value < |mounts| && mounts[i.value].path <= q
    ensures i.Some? ==> forall j :: i.value < j < |mounts| ==> !(mounts[j].path <= q)
    ensures i.None? ==> forall j :: 0 <= j < |mounts| ==> !(mounts[j].path <= q)
  {
    if mounts == [] then None
    else
      var last := |mounts| - 1;
      if mounts[last].path <= q then Some(last) else Resolve(mounts[..last], q)
  }

  /** Where a filesystem is mounted last. */
  function Where<S(==)>(mounts: seq<Mounting<S>>, source: S): (i: Option<nat>)
    ensures i.Some? ==> i.value < |mounts| && mounts[i.value].source == source
    ensures i.None? ==> forall j :: 0 <= j < |mounts| ==> mounts[j].source != source
  {
    if mounts == [] then None
    else
      var last := |mounts| - 1;
      if mounts[last].source == source then Some(last) else Where(mounts[..last], source)
  }

  /** No filesystem is mounted twice. */
  predicate MountedOnce<S(==)>(mounts: seq<Mounting<S>>) {
    forall i, j :: 0 <= i < j < |mounts| ==> mounts[i].source != mounts[j].source
  }

  /** A path of the copy of a tree below `path`. */
  predicate InCopy(copy: Files, path: Path, q: Path) {
    path <= q && q[|path|..] in copy
  }

  /** A path of the i-th mount, relative to it, that a copy below `path` writes. */
  predicate Arrives<S>(mounts: seq<Mounting<S>>, i: nat, copy: Files, path: Path, r: Path)
    requires i < |mounts|
  {
    Resolve(mounts, mounts[i].path + r) == Some(i) && InCopy(copy, path, mounts[i].path + r)
  }

  /** The paths a copy below `path` names, cut to the length they have relative to `base`. */
  function CopiedNames(base: Path, copy: Files, path: Path): set<Path> {
    set k | k in copy.Keys && base <= path + k :: (path + k)[|base|..]
  }

  lemma NamesAll(base: Path, copy: Files, path: Path, r: Path)
    requires InCopy(copy, path, base + r)
    ensures r in CopiedNames(base, copy, path)
  {
    var k := (base + r)[|path|..];
    assert path + k == base + r;
    assert (base + r)[|base|..] == r;
  }

  /** What a copy below `path` makes of one of the mounted filesystems. */
  function Share<S(==)>(mounts: seq<Mounting<S>>, source: S, files: Files, copy: Files, path: Path): Files {
    var i := Where(mounts, source);
    if i.None? then files
    else
      var base := mounts[i.value].path;
      map r | r in files.Keys + CopiedNames(base, copy, path)
              && (r in files || Arrives(mounts, i.value, copy, path, r)) ::
        if Arrives(mounts, i.value, copy, path, r) then copy[(base + r)[|path|..]] else files[r]
  }

  /** What a path of the composed tree reads. */
  function Read<S>(mounts: seq<Mounting<S>>, contents: S -> Files, q: Path): Option<string> {
    var i := Resolve(mounts, q);
    if i.None? then None
    else
      var m := mounts[i.value];
      var r := q[|m.path|..];
      if r in contents(m.source) then Some(contents(m.source)[r]) else None
  }

  lemma {:induction false} WhereOnce<S>(mounts: seq<Mounting<S>>, i: nat)
    requires MountedOnce(mounts) && i < |mounts|
    ensures Where(mounts, mounts[i].source) == Some(i)
  {
  }

  /** Copying through the mount table changes exactly the paths copied, wherever they land. */
  lemma {:induction false} ReadAfterCopy<S>(mounts: seq<Mounting<S>>, before: S -> Files, after: S -> Files,
                         copy: Files, path: Path, q: Path)
    requires MountedOnce(mounts)
    requires forall i :: 0 <= i < |mounts| ==>
      after(mounts[i].source) == Share(mounts, mounts[i].source, before(mounts[i].source), copy, path)
    ensures Read(mounts, after, q) ==
      if Resolve(mounts, q).Some? && InCopy(copy, path, q) then Some(copy[q[|path|..]])
      else Read(mounts, before, q)
  {
    var found := Resolve(mounts, q);
    if found.Some? {
      var m := mounts[found.value];
      WhereOnce(mounts, found.value);
      var r := q[|m.path|..];
      assert m.path + r == q;
      if InCopy(copy, path, q) {
        NamesAll(m.path, copy, path, r);
      }
    }
  }

  /** No mount covers an earlier one: none is mounted at, or above, the path of one before it. */
  predicate Ordered<S>(mounts: seq<Mounting<S>>) {
    forall i, j :: 0 <= i < j < |mounts| ==> !(mounts[j].path <= mounts[i].path)
  }

  /** A path belongs to the deepest mount above it, and to no other. */
  predicate DeepestWins<S>(mounts: seq<Mounting<S>>, q: Path) {
    forall i :: 0 <= i < |mounts| && mounts[i].path <= q ==>
      var r := Resolve(mounts, q);
      r == Some(i) || |mounts[i].path| < |mounts[r.value].path|
  }

  lemma OrderedDeepest<S>(mounts: seq<Mounting<S>>, q: Path)
    requires Ordered(mounts)
    ensures DeepestWins(mounts, q)
  {
    var r := Resolve(mounts, q);
    forall i | 0 <= i < |mounts| && mounts[i].path <= q
      ensures r == Some(i) || |mounts[i].path| < |mounts[r.value].path|
    {
      if |mounts[r.value].path| <= |mounts[i].path| {
        PrefixesCompare(mounts[r.value].path, mounts[i].path, q);
      }
    }
  }

  /** Exactly the tables without a covered mount send every path to its deepest mountpoint. */
  lemma MountTableCorrect<S(!new)>(mounts: seq<Mounting<S>>)
    ensures (forall q :: DeepestWins(mounts, q)) <==> Ordered(mounts)
  {
    if Ordered(mounts) {
      forall q ensures DeepestWins(mounts, q) {
        OrderedDeepest(mounts, q);
      }
    } else {
      var i, j :| 0 <= i < j < |mounts| && mounts[j].path <= mounts[i].path;
      assert !DeepestWins(mounts, mounts[i].path);
    }
  }
}
