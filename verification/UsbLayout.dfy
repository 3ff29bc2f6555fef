/** Sizes on the USB boot drive. */
module UsbLayout {
  import opened UsbBoot

  const MEBIBYTE: nat := 1024 * 1024

  function CeilingMb(bytes: nat): nat {
    (bytes + MEBIBYTE - 1) / MEBIBYTE
  }

  function RecoveryPartitionSizeMb(isoBytes: nat): nat {
    CeilingMb(isoBytes) + CeilingMb(isoBytes) / 10 + 64
  }

  /** The recovery partition has room for the ISO, a tenth of it, and 63 MiB, and not much more. */
  lemma RecoveryHasRoom(isoBytes: nat)
    ensures 10 * (RecoveryPartitionSizeMb(isoBytes) * MEBIBYTE) >= 11 * isoBytes + 10 * (63 * MEBIBYTE)
    ensures 10 * (RecoveryPartitionSizeMb(isoBytes) * MEBIBYTE) <= 11 * isoBytes + 10 * (66 * MEBIBYTE)
  {
    var c := CeilingMb(isoBytes);
    assert isoBytes <= c * MEBIBYTE < isoBytes + MEBIBYTE;
    assert 10 * RecoveryPartitionSizeMb(isoBytes) >= 11 * c + 630;
  }

  /** Where the partitions of these sizes begin when each one follows the one before. Section
      5.3 of the UEFI specification keeps the first MiB for the primary table. */
  function Start(sizesMb: seq<nat>, i: nat): nat
    requires i <= |sizesMb|
  {
    if i == 0 then 1 else Start(sizesMb, i - 1) + sizesMb[i - 1]
  }

  function Layout(efiMb: nat, recoveryMb: nat): seq<nat> {
    [efiMb, LUKS_HEADER_PARTITION_SIZE_MB] + if recoveryMb > 0 then [recoveryMb] else []
  }

  /** The backup table of section 5.3 of the UEFI specification: 16 KiB of entries and a
      header of one sector at the end of the drive. */
  predicate EndsBeforeBackup(endMb: nat, driveBytes: nat, sectorBytes: nat) {
    endMb * MEBIBYTE + 16 * 1024 + sectorBytes <= driveBytes
  }

  lemma {:induction false} StartsInOrder(sizesMb: seq<nat>, i: nat, j: nat)
    requires i < j <= |sizesMb|
    ensures 1 <= Start(sizesMb, i) && Start(sizesMb, i) + sizesMb[i] <= Start(sizesMb, j)
    decreases j
  {
    if i < j - 1 {
      StartsInOrder(sizesMb, i, j - 1);
    } else if i > 0 {
      StartsInOrder(sizesMb, i - 1, i);
    }
  }

  /** When the capacity check passes, the partitions are disjoint and end before the backup
      table; on a drive of whole MiB it passes exactly when they do. */
  lemma LayoutFits(efiMb: nat, recoveryMb: nat, driveBytes: nat, sectorBytes: nat)
    requires sectorBytes == 512 || sectorBytes == 4096
    ensures var sizes := Layout(efiMb, recoveryMb);
      var fits := EndsBeforeBackup(Start(sizes, |sizes|), driveBytes, sectorBytes);
      var checked := Fits(efiMb, recoveryMb, driveBytes / MEBIBYTE);
      && (forall i, j :: 0 <= i < j < |sizes| ==> Start(sizes, i) + sizes[i] <= Start(sizes, j))
      && (checked ==> fits)
      && (driveBytes % MEBIBYTE == 0 ==> (checked <==> fits))
  {
    var sizes := Layout(efiMb, recoveryMb);
    forall i, j | 0 <= i < j < |sizes|
      ensures Start(sizes, i) + sizes[i] <= Start(sizes, j)
    {
      StartsInOrder(sizes, i, j);
    }
    assert Start(sizes, 1) == 1 + efiMb;
    assert Start(sizes, 2) == 1 + efiMb + LUKS_HEADER_PARTITION_SIZE_MB;
    assert Start(sizes, |sizes|) == 1 + efiMb + LUKS_HEADER_PARTITION_SIZE_MB + recoveryMb;
  }
}
