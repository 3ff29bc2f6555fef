/** Which configured subvolume lists mount so that nothing is shadowed. */
module MountOrder {
  import opened Trees
  import opened Machine
  import opened Plans
  import opened Storage

  /** Some mount lies at or below a path. */
  predicate Covers<S>(mounts: seq<Mounting<S>>, path: Path) {
    exists i :: 0 <= i < |mounts| && path <= mounts[i].path
  }

  predicate MountsBelow(subvolumes: seq<Subvolume>, path: Path) {
    exists i :: 0 <= i < |subvolumes| && subvolumes[i].name != "@" && path <= subvolumes[i].mountpoint
  }

  /** Every mountpoint but that of `@` is below the root, and listed after the mountpoints
      above it. */
  predicate Listed(subvolumes: seq<Subvolume>) {
    forall j :: 0 <= j < |subvolumes| && subvolumes[j].name != "@" ==>
      subvolumes[j].mountpoint != [] && !MountsBelow(subvolumes[..j], subvolumes[j].mountpoint)
  }

  lemma OrderedSnoc<S>(mounts: seq<Mounting<S>>, last: Mounting<S>)
    ensures Ordered(mounts + [last]) <==> Ordered(mounts) && !Covers(mounts, last.path)
  {
    var all := mounts + [last];
    if Ordered(all) {
      assert forall i :: 0 <= i < |mounts| ==> all[i] == mounts[i] && !(all[|mounts|].path <= all[i].path);
    }
  }

  lemma CoversOne<S>(first: Mounting<S>, mounts: seq<Mounting<S>>, path: Path)
    ensures Covers([first] + mounts, path) <==> path <= first.path || Covers(mounts, path)
  {
    var all := [first] + mounts;
    assert all[0] == first;
    assert forall i :: 0 < i < |all| ==> all[i] == mounts[i - 1];
    if Covers(mounts, path) {
      var i :| 0 <= i < |mounts| && path <= mounts[i].path;
      assert all[i + 1] == mounts[i];
    }
  }

  lemma CoversSnoc<S>(mounts: seq<Mounting<S>>, last: Mounting<S>, path: Path)
    ensures Covers(mounts + [last], path) <==> Covers(mounts, path) || path <= last.path
  {
    var all := mounts + [last];
    assert forall i :: 0 <= i < |mounts| ==> all[i] == mounts[i];
    assert all[|mounts|] == last;
  }

  lemma {:induction false} OthersCover(subvolumes: seq<Subvolume>, k: Key, path: Path)
    ensures Covers(Others(subvolumes, k), path) <==> MountsBelow(subvolumes, path)
  {
    if subvolumes != [] {
      var front, last := subvolumes[..|subvolumes| - 1], subvolumes[|subvolumes| - 1];
      OthersCover(front, k, path);
      CoversSnoc(Others(front, k), Mounting(last.mountpoint, Sub(k, last.name)), path);
      assert forall i :: 0 <= i < |front| ==> subvolumes[i] == front[i];
    }
  }

  lemma ListedSnoc(subvolumes: seq<Subvolume>)
    requires subvolumes != []
    ensures var front, last := subvolumes[..|subvolumes| - 1], subvolumes[|subvolumes| - 1];
      Listed(subvolumes) <==>
        Listed(front) && (last.name != "@" ==> last.mountpoint != [] && !MountsBelow(front, last.mountpoint))
  {
    var front := subvolumes[..|subvolumes| - 1];
    assert forall j :: 0 <= j < |front| ==> front[j] == subvolumes[j] && front[..j] == subvolumes[..j];
  }

  lemma {:induction false} OthersOrdered(subvolumes: seq<Subvolume>, k: Key, root: Mount)
    requires root.path == []
    ensures Ordered([root] + Others(subvolumes, k)) <==> Listed(subvolumes)
  {
    if subvolumes != [] {
      var front, last := subvolumes[..|subvolumes| - 1], subvolumes[|subvolumes| - 1];
      OthersOrdered(front, k, root);
      ListedSnoc(subvolumes);
      if last.name != "@" {
        var mount := Mounting(last.mountpoint, Sub(k, last.name));
        assert [root] + Others(subvolumes, k) == [root] + Others(front, k) + [mount];
        OrderedSnoc([root] + Others(front, k), mount);
        CoversOne(root, Others(front, k), last.mountpoint);
        OthersCover(front, k, last.mountpoint);
      }
    }
  }

  /** After the mounting loop every path under the target resolves to the filesystem with the
      deepest mountpoint above it, exactly when the list puts each mountpoint after those
      above it, and none at or below the EFI partition's. */
  lemma NothingShadowed(p: Plan, k: Key)
    ensures (forall q :: DeepestWins(MountTable(p, k), q)) <==>
      Listed(p.subvolumes) && !MountsBelow(p.subvolumes, ["efi"])
  {
    var root := Mounting([], Sub(k, "@"));
    var before := [root] + Others(p.subvolumes, k);
    MountTableCorrect(MountTable(p, k));
    OthersOrdered(p.subvolumes, k, root);
    OrderedSnoc(before, Mounting(["efi"], Esp));
    CoversOne(root, Others(p.subvolumes, k), ["efi"]);
    OthersCover(p.subvolumes, k, ["efi"]);
  }

  lemma {:induction false} OthersMountedOnce(subvolumes: seq<Subvolume>, k: Key)
    requires forall i, j :: 0 <= i < j < |subvolumes| ==> subvolumes[i].name != subvolumes[j].name
    ensures MountedOnce(Others(subvolumes, k))
    ensures forall i :: 0 <= i < |Others(subvolumes, k)| ==>
      exists j :: 0 <= j < |subvolumes| && subvolumes[j].name != "@"
                  && Others(subvolumes, k)[i] == Mounting(subvolumes[j].mountpoint, Sub(k, subvolumes[j].name))
  {
    if subvolumes != [] {
      var front := subvolumes[..|subvolumes| - 1];
      OthersMountedOnce(front, k);
      assert forall j :: 0 <= j < |front| ==> front[j] == subvolumes[j];
    }
  }

  /** Distinct subvolumes are each mounted once. */
  lemma TableMountedOnce(p: Plan, k: Key)
    requires Declares(p)
    ensures MountedOnce(MountTable(p, k))
  {
    OthersMountedOnce(p.subvolumes, k);
    var others := Others(p.subvolumes, k);
    forall i | 0 <= i < |others|
      ensures others[i].source != Esp && others[i].source != Sub(k, "@")
    {
    }
  }
}
