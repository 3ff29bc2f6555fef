/** File trees with directories, and putting one tree in place of another. */
module FileTree {
  import opened Trees

  datatype Node = File(content: string) | Dir

  type Tree = map<Path, Node>

  predicate IsDir(t: Tree, p: Path) {
    p in t && t[p].Dir?
  }

  /** The paths of a tree that was copied to p. */
  function Pasted(p: Path, sub: Tree): set<Path> {
    set k | k in sub.Keys :: p + k
  }

  function Outside(t: Tree, p: Path): set<Path> {
    set q | q in t.Keys && !(p <= q)
  }

  lemma InPasted(p: Path, sub: Tree, q: Path)
    ensures q in Pasted(p, sub) <==> p <= q && q[|p|..] in sub
  {
    if p <= q && q[|p|..] in sub {
      assert p + q[|p|..] == q;
    }
    if q in Pasted(p, sub) {
      var k :| k in sub.Keys && p + k == q;
      assert q[|p|..] == k;
    }
  }

  function ReplacedAt(t: Tree, p: Path, sub: Tree, q: Path): Node
    requires q in Outside(t, p) + Pasted(p, sub)
  {
    InPasted(p, sub, q);
    if p <= q then sub[q[|p|..]] else t[q]
  }

  /** `rm -rf` at a path, then a copy of a tree there. */
  function Replaced(t: Tree, p: Path, sub: Tree): Tree {
    map q | q in Outside(t, p) + Pasted(p, sub) :: ReplacedAt(t, p, sub, q)
  }

  lemma InReplaced(t: Tree, p: Path, sub: Tree, q: Path)
    ensures p <= q ==> (q in Replaced(t, p, sub) <==> q[|p|..] in sub)
    ensures p <= q && q in Replaced(t, p, sub) ==> Replaced(t, p, sub)[q] == sub[q[|p|..]]
    ensures !(p <= q) ==> (q in Replaced(t, p, sub) <==> q in t)
    ensures !(p <= q) && q in t ==> Replaced(t, p, sub)[q] == t[q]
  {
    InPasted(p, sub, q);
  }

  lemma ReplacedSubtree(t: Tree, p: Path, sub: Tree)
    ensures Subtree(Replaced(t, p, sub), p) == sub
  {
    var r := Replaced(t, p, sub);
    forall k
      ensures k in Subtree(r, p) <==> k in sub
      ensures k in sub ==> Subtree(r, p)[k] == sub[k]
    {
      InSubtree(r, p, k);
      InReplaced(t, p, sub, p + k);
      assert (p + k)[|p|..] == k;
    }
  }

  lemma SameBelow(t: Tree, u: Tree, q: Path)
    requires forall k :: (q + k in t <==> q + k in u) && (q + k in t ==> t[q + k] == u[q + k])
    ensures Subtree(t, q) == Subtree(u, q)
  {
    forall k
      ensures k in Subtree(t, q) <==> k in Subtree(u, q)
      ensures k in Subtree(t, q) ==> Subtree(t, q)[k] == Subtree(u, q)[k]
    {
      InSubtree(t, q, k);
      InSubtree(u, q, k);
    }
  }

  lemma Beside(p: Path, q: Path, k: Path)
    requires !Nested(p, q)
    ensures !(p <= q + k)
  {
    if p <= q + k {
      PrefixesNest(p, q, q + k);
    }
  }

  /** Replacing at one path leaves every path that is neither above nor below it. */
  lemma ReplacedElsewhere(t: Tree, p: Path, sub: Tree, q: Path)
    requires !Nested(p, q)
    ensures Subtree(Replaced(t, p, sub), q) == Subtree(t, q)
  {
    var r := Replaced(t, p, sub);
    forall k
      ensures (q + k in t <==> q + k in r) && (q + k in t ==> t[q + k] == r[q + k])
    {
      Beside(p, q, k);
      InReplaced(t, p, sub, q + k);
    }
    SameBelow(r, t, q);
  }

  lemma SubtreeRoot(t: Tree, p: Path)
    ensures [] in Subtree(t, p) <==> p in t
    ensures p in t ==> Subtree(t, p)[[]] == t[p]
  {
    InSubtree(t, p, []);
    assert p + [] == p;
  }

  /** At a path there is nothing, or a file and nothing below it, or a directory. */
  predicate SoundAt(t: Tree, p: Path) {
    Sound(Subtree(t, p))
  }

  predicate Sound(sub: Tree) {
    sub.Keys != {} ==> [] in sub && (sub[[]].File? ==> sub.Keys == {[]})
  }

  predicate SameKind(a: Tree, p: Path, b: Tree, q: Path) {
    p in a && q in b ==> (a[p].Dir? <==> b[q].Dir?)
  }

  /** What is at and below two paths decides whether they are the same. */
  lemma SameSubtree(a: Tree, p: Path, b: Tree, q: Path)
    requires Subtree(a, p) == Subtree(b, q)
    ensures SoundAt(a, p) <==> SoundAt(b, q)
    ensures p in a <==> q in b
    ensures p in a ==> a[p] == b[q]
  {
    SubtreeRoot(a, p);
    SubtreeRoot(b, q);
  }

  // ------------------------------------------------------------------ copying

  /** What `cp`, or `rm -rf` and `cp -r`, makes of the target: a file copied onto a directory
      goes into it. */
  function CopyOver(target: Tree, p: Path, from: Tree, q: Path): Tree
    requires q in from
  {
    if from[q].Dir? then Replaced(target, p, Subtree(from, q))
    else if IsDir(target, p) && q != [] then target[p + [q[|q| - 1]] := from[q]]
    else target[p := from[q]]
  }

  /** `diff` finds a difference, or the kinds differ. */
  predicate NeedsUpdate(target: Tree, p: Path, from: Tree, q: Path)
    requires q in from
  {
    if from[q].Dir? then !IsDir(target, p) || Subtree(target, p) != Subtree(from, q)
    else p !in target || target[p] != from[q]
  }

  lemma FileCopied(target: Tree, p: Path, file: Node)
    requires SoundAt(target, p) && file.File? && !IsDir(target, p)
    ensures Subtree(target[p := file], p) == map[[] := file]
  {
    var r := target[p := file];
    SubtreeRoot(target, p);
    forall k
      ensures k in Subtree(r, p) <==> k == []
    {
      InSubtree(r, p, k);
      InSubtree(target, p, k);
      assert p + k == p <==> k == [];
    }
    SubtreeRoot(r, p);
  }

  lemma CopiedHere(target: Tree, p: Path, from: Tree, q: Path)
    requires SoundAt(target, p) && SoundAt(from, q) && q in from && SameKind(target, p, from, q)
    ensures Subtree(CopyOver(target, p, from, q), p) == Subtree(from, q)
  {
    if from[q].Dir? {
      ReplacedSubtree(target, p, Subtree(from, q));
    } else {
      SubtreeRoot(from, q);
      FileCopied(target, p, from[q]);
    }
  }

  lemma CopiedElsewhere(target: Tree, p: Path, from: Tree, q: Path, other: Path)
    requires q in from && !Nested(p, other)
    ensures Subtree(CopyOver(target, p, from, q), other) == Subtree(target, other)
  {
    if from[q].Dir? {
      ReplacedElsewhere(target, p, Subtree(from, q), other);
    } else {
      var r := CopyOver(target, p, from, q);
      forall k
        ensures (other + k in r <==> other + k in target) && (other + k in target ==> r[other + k] == target[other + k])
      {
        Beside(p, other, k);
        assert q != [] ==> p <= p + [q[|q| - 1]];
      }
      SameBelow(r, target, other);
    }
  }

  /** Nothing needs an update exactly when both sides are the same. */
  lemma UpToDate(target: Tree, p: Path, from: Tree, q: Path)
    requires SoundAt(target, p) && SoundAt(from, q) && q in from
    ensures !NeedsUpdate(target, p, from, q) <==> Subtree(target, p) == Subtree(from, q)
  {
    SubtreeRoot(target, p);
    SubtreeRoot(from, q);
  }

  /** One mapping of a push or a pull: copied when something differs. */
  function Updated(target: Tree, p: Path, from: Tree, q: Path): Tree
    requires q in from
  {
    if NeedsUpdate(target, p, from, q) then CopyOver(target, p, from, q) else target
  }

  lemma UpdatedHere(target: Tree, p: Path, from: Tree, q: Path)
    requires SoundAt(target, p) && SoundAt(from, q) && q in from && SameKind(target, p, from, q)
    ensures Subtree(Updated(target, p, from, q), p) == Subtree(from, q)
  {
    UpToDate(target, p, from, q);
    CopiedHere(target, p, from, q);
  }

  lemma UpdatedElsewhere(target: Tree, p: Path, from: Tree, q: Path, other: Path)
    requires q in from && !Nested(p, other)
    ensures Subtree(Updated(target, p, from, q), other) == Subtree(target, other)
  {
    CopiedElsewhere(target, p, from, q, other);
  }

  /** An update leaves nothing to update, exactly unless a file was to replace a directory: then
      it went into the directory. */
  lemma SettlesUnlessFileOnDirectory(target: Tree, p: Path, from: Tree, q: Path, after: Tree)
    requires q in from && q != [] && after == Updated(target, p, from, q)
    ensures NeedsUpdate(after, p, from, q) <==> from[q].File? && IsDir(target, p)
    ensures from[q].File? && IsDir(target, p) ==> after == target[p + [q[|q| - 1]] := from[q]]
  {
    if from[q].Dir? {
      DirectoryUpdated(target, p, from, q);
      SubtreeRoot(after, p);
      SubtreeRoot(from, q);
    } else {
      assert p + [q[|q| - 1]] != p;
    }
  }

  /** Where the source is a directory, both sides are the same after an update. */
  lemma DirectoryUpdated(target: Tree, p: Path, from: Tree, q: Path)
    requires IsDir(from, q)
    ensures Subtree(Updated(target, p, from, q), p) == Subtree(from, q)
  {
    if NeedsUpdate(target, p, from, q) {
      ReplacedSubtree(target, p, Subtree(from, q));
    }
  }

  /** Two paths that are the same are the same further down. */
  lemma SameFurtherDown(a: Tree, p: Path, b: Tree, q: Path, r: Path)
    requires Subtree(a, p) == Subtree(b, q)
    ensures Subtree(a, p + r) == Subtree(b, q + r)
  {
    forall k
      ensures k in Subtree(a, p + r) <==> k in Subtree(b, q + r)
      ensures k in Subtree(a, p + r) ==> Subtree(a, p + r)[k] == Subtree(b, q + r)[k]
    {
      InSubtree(a, p + r, k);
      InSubtree(b, q + r, k);
      InSubtree(a, p, r + k);
      InSubtree(b, q, r + k);
      assert p + r + k == p + (r + k) && q + r + k == q + (r + k);
    }
  }
}
