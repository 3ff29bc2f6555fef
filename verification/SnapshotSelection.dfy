/** Which snapshots get a boot entry, and what their files are called. */
module SnapshotSelection {
  import opened Text

  const SNAPSHOT_UKI_PREFIX := "arch-snapshot"
  const UKI_EXTENSION := ".efi"

  /** The snapshots in s taken after x. */
  function Newer(x: nat, s: set<nat>): set<nat> {
    set y | y in s && y > x
  }

  /** The count newest snapshots: those with fewer than count newer ones. */
  function Newest(count: nat, s: set<nat>): set<nat> {
    set x | x in s && |Newer(x, s)| < count
  }

  lemma {:induction false} MaximumExists(s: set<nat>)
    requires s != {}
    ensures exists m :: m in s && forall y :: y in s ==> y <= m
  {
    var x :| x in s;
    var rest := s - {x};
    if rest == {} {
      assert forall y :: y in s && y != x ==> y in rest;
    } else {
      MaximumExists(rest);
      var m :| m in rest && forall y :: y in rest ==> y <= m;
      var top := if m < x then x else m;
      assert top in s;
      forall y | y in s
        ensures y <= top
      {
        assert y == x || y in rest;
      }
    }
  }

  function Maximum(s: set<nat>): (m: nat)
    requires s != {}
    ensures m in s && forall y :: y in s ==> y <= m
  {
    MaximumExists(s);
    var m :| m in s && forall y :: y in s ==> y <= m;
    m
  }

  predicate IsDescending(q: seq<nat>) {
    forall i, j :: 0 <= i < j < |q| ==> q[i] > q[j]
  }

  /** `sort -rn` over distinct numbers. */
  function Descending(s: set<nat>): (r: seq<nat>)
    ensures Members(r) == s
    ensures IsDescending(r)
  {
    if s == {} then [] else
      var m := Maximum(s);
      var rest := Descending(s - {m});
      MembersAreMembers(rest);
      [m] + rest
  }

  function Members(q: seq<nat>): set<nat> {
    if q == [] then {} else {q[0]} + Members(q[1..])
  }

  lemma {:induction false} MembersAreMembers(q: seq<nat>)
    ensures forall x :: x in q <==> x in Members(q)
  {
    if q != [] {
      MembersAreMembers(q[1..]);
      assert q == [q[0]] + q[1..];
    }
  }

  lemma {:induction false} MembersCount(q: seq<nat>)
    requires IsDescending(q)
    ensures |Members(q)| == |q|
  {
    if q != [] {
      MembersCount(q[1..]);
      MembersAreMembers(q[1..]);
    }
  }

  /** A walk along q has come to i: each number it met is either gone or taken. */
  ghost predicate Walked(q: seq<nat>, i: nat, gone: set<nat>, taken: set<nat>) {
    && i <= |q|
    && (forall k :: 0 <= k < i ==> (q[k] in gone <==> q[k] !in taken))
    && (forall k :: i <= k < |q| ==> q[k] !in gone && q[k] !in taken)
    && (forall n :: n in gone ==> n in q)
    && (forall n :: n in taken ==> n in q)
  }

  lemma WalkStep(q: seq<nat>, i: nat, gone: set<nat>, taken: set<nat>)
    requires IsDescending(q) && i < |q| && Walked(q, i, gone, taken)
    ensures Walked(q, i + 1, gone + {q[i]}, taken)
    ensures Walked(q, i + 1, gone, taken + {q[i]})
    ensures |taken + {q[i]}| == |taken| + 1
  {
  }

  /** A walk that stops after count takings, or at the end, took the newest that remained. */
  lemma {:induction false} WalkEnds(q: seq<nat>, i: nat, gone: set<nat>, taken: set<nat>, count: nat)
    requires IsDescending(q) && Walked(q, i, gone, taken)
    requires |taken| == count || (i == |q| && |taken| < count)
    ensures gone <= Members(q) && taken == Newest(count, Members(q) - gone)
  {
    MembersAreMembers(q);
    var present := Members(q) - gone;
    forall x, y | x in taken && y in present && y !in taken
      ensures x > y
    {
      var a :| 0 <= a < |q| && q[a] == x;
      var b :| 0 <= b < |q| && q[b] == y;
      assert a < i <= b;
    }
    forall x | x in taken
      ensures x in present
    {
      var a :| 0 <= a < |q| && q[a] == x;
      assert a < i;
    }
    if i == |q| {
      forall y | y in present
        ensures y in taken
      {
        var b :| 0 <= b < |q| && q[b] == y;
      }
    }
    NewestOfWalk(count, present, taken);
  }

  /** The walk over the descending list stops at exactly the newest ones. */
  lemma NewestOfWalk(count: nat, s: set<nat>, taken: set<nat>)
    requires taken <= s
    requires forall x, y :: x in taken && y in s && y !in taken ==> x > y
    requires |taken| == count || (|taken| < count && taken == s)
    ensures taken == Newest(count, s)
  {
    forall x | x in taken
      ensures |Newer(x, s)| < count
    {
      assert Newer(x, s) <= taken - {x};
      SubsetSize(Newer(x, s), taken - {x});
    }
    forall y | y in s - taken
      ensures |Newer(y, s)| >= count
    {
      assert taken <= Newer(y, s);
      SubsetSize(taken, Newer(y, s));
    }
  }

  lemma {:induction false} SubsetSize<T>(a: set<T>, b: set<T>)
    requires a <= b
    ensures |a| <= |b|
  {
    if a != {} {
      var x :| x in a;
      SubsetSize(a - {x}, b - {x});
    }
  }

  /** Newest is the set meant: the right number of members, none passed over for an older one,
      and all of them as soon as count reaches far enough. */
  lemma NewestIsNewest(count: nat, s: set<nat>)
    ensures |Newest(count, s)| == if count < |s| then count else |s|
    ensures forall x, y :: x in Newest(count, s) && y in s && y > x ==> y in Newest(count, s)
  {
    var walk := Descending(s);
    var k := if count < |s| then count else |s|;
    MembersCount(walk);
    MembersAreMembers(walk);
    MembersCount(walk[..k]);
    MembersAreMembers(walk[..k]);
    NewestOfWalk(count, s, Members(walk[..k]));
  }

  /** The file a snapshot's boot entry is written to. */
  function SnapshotUkiName(number: nat, kernel: string): string {
    SNAPSHOT_UKI_PREFIX + "-" + Decimal(number) + "-" + kernel + UKI_EXTENSION
  }

  /** The file a kernel's own boot entry is written to. */
  function KernelUkiName(kernel: string, variantSuffix: string): string {
    "arch-" + kernel + "-" + variantSuffix + UKI_EXTENSION
  }

  /** What the shell pattern `arch-snapshot*.efi` matches. */
  predicate IsSnapshotUki(file: string) {
    |file| >= |SNAPSHOT_UKI_PREFIX| + |UKI_EXTENSION|
    && StartsWith(file, SNAPSHOT_UKI_PREFIX) && EndsWith(file, UKI_EXTENSION)
  }

  /** The snapshot an entry's file name stands for. */
  function EntryNumber(file: string, kernel: string): nat {
    var start, tail := |SNAPSHOT_UKI_PREFIX| + 1, |kernel| + 1 + |UKI_EXTENSION|;
    if |file| >= start + tail && AllDigits(file[start..|file| - tail])
    then Number(file[start..|file| - tail]) else 0
  }

  lemma EntryNumberOfName(n: nat, kernel: string)
    ensures EntryNumber(SnapshotUkiName(n, kernel), kernel) == n
  {
    var file := SnapshotUkiName(n, kernel);
    var start, tail := |SNAPSHOT_UKI_PREFIX| + 1, |kernel| + 1 + |UKI_EXTENSION|;
    assert file[start..|file| - tail] == Decimal(n);
    DecimalRoundTrip(n);
  }

  lemma SnapshotUkiIsMatched(number: nat, kernel: string)
    ensures IsSnapshotUki(SnapshotUkiName(number, kernel))
  {
    var file := SnapshotUkiName(number, kernel);
    assert file[..|SNAPSHOT_UKI_PREFIX|] == SNAPSHOT_UKI_PREFIX;
    assert file[|file| - |UKI_EXTENSION|..] == UKI_EXTENSION;
  }

  /** A file naming from which the snapshot can be read back, all of it matched by the cleanup. */
  ghost predicate Naming(name: nat -> string, numberOf: string -> nat) {
    && (forall n: nat :: numberOf(name(n)) == n)
    && Cleaned(name)
  }

  ghost predicate Cleaned(name: nat -> string) {
    forall n: nat :: IsSnapshotUki(name(n))
  }

  function EntryNames(kernel: string): nat -> string {
    (n: nat) => SnapshotUkiName(n, kernel)
  }

  function EntryNumbers(kernel: string): string -> nat {
    (file: string) => EntryNumber(file, kernel)
  }

  /** The names of the snapshot entries: every one matched by the cleanup pattern, no two
      snapshots sharing one. */
  lemma SnapshotNaming(kernel: string)
    ensures Naming(EntryNames(kernel), EntryNumbers(kernel))
  {
    forall n: nat
      ensures EntryNumbers(kernel)(EntryNames(kernel)(n)) == n && IsSnapshotUki(EntryNames(kernel)(n))
    {
      EntryNumberOfName(n, kernel);
      SnapshotUkiIsMatched(n, kernel);
    }
  }

  /** Cleaning up the snapshot entries spares a kernel's own entry exactly when the kernel's
      name does not start with "snapshot". */
  lemma CleanupSparesKernels(kernel: string, variantSuffix: string)
    ensures IsSnapshotUki(KernelUkiName(kernel, variantSuffix)) <==> StartsWith(kernel, "snapshot")
  {
    var file := KernelUkiName(kernel, variantSuffix);
    assert file[|file| - |UKI_EXTENSION|..] == UKI_EXTENSION;
    var rest := kernel + "-" + variantSuffix + UKI_EXTENSION;
    assert file == "arch-" + rest;
    assert SNAPSHOT_UKI_PREFIX == "arch-" + "snapshot";
    if |kernel| < 8 {
      assert file[5 + |kernel|] == '-' && SNAPSHOT_UKI_PREFIX[5 + |kernel|] != '-';
    } else {
      assert file[..13] == "arch-" + kernel[..8];
      assert file[..13][5..] == kernel[..8];
    }
  }
}
