/**
 * `file_systems`: one `DiskInfo` per disk of the refreshed disk list, in list order, with
 * the three sizes rendered by `format_memory_size`.
 */
module Disks {
  import opened Uint
  import opened Format

  /** What the disk list reports about one disk. */
  datatype Disk = Disk(name: string, mountPoint: string, fileSystem: string, totalSpace: U64, availableSpace: U64)

  /** The record `file_systems` returns per disk (`DiskInfo`; `fsType` is the field `type`). */
  datatype DiskInfo = DiskInfo(device: string, directory: string, fsType: string,
                               total: string, available: string, used: string)

  /**
   * `disk.total_space() - disk.available_space()` on u64, without a clamp: equal to the
   * difference when the disk is consistent, wrapped past 2^64 otherwise.
   */
  function UsedSpace(d: Disk): (r: U64)
    ensures d.availableSpace <= d.totalSpace ==> r + d.availableSpace == d.totalSpace
    ensures d.totalSpace < d.availableSpace ==> r == U64_MODULUS - (d.availableSpace - d.totalSpace)
  {
    WrappingSub(d.totalSpace, d.availableSpace)
  }

  /** The struct literal built in the loop body: names copied, sizes rendered. */
  function Describe(d: Disk, fixed2: real -> string): (info: DiskInfo)
    ensures info.device == d.name && info.directory == d.mountPoint && info.fsType == d.fileSystem
  {
    DiskInfo(d.name, d.mountPoint, d.fileSystem,
             FormatMemorySize(d.totalSpace, fixed2),
             FormatMemorySize(d.availableSpace, fixed2),
             FormatMemorySize(UsedSpace(d), fixed2))
  }

  /** The loop over the disk list that pushes one record per disk. */
  method FileSystems(disks: seq<Disk>, fixed2: real -> string) returns (r: seq<DiskInfo>)
    ensures |r| == |disks|
    ensures forall i :: 0 <= i < |disks| ==> r[i] == Describe(disks[i], fixed2)
  {
    r := [];
    for i := 0 to |disks|
      invariant |r| == i
      invariant forall j :: 0 <= j < i ==> r[j] == Describe(disks[j], fixed2)
    {
      var info := Describe(disks[i], fixed2);
      r := r + [info];
    }
  }

  /** Each size in a record is shown in the unit its byte count selects. */
  lemma DescribeUnits(d: Disk, fixed2: real -> string)
    ensures var info := Describe(d, fixed2);
      && ParseUnit(info.total) == SelectUnit(d.totalSpace)
      && ParseUnit(info.available) == SelectUnit(d.availableSpace)
      && ParseUnit(info.used) == SelectUnit(UsedSpace(d))
  {
    ParseUnitOfFormat(d.totalSpace, fixed2);
    ParseUnitOfFormat(d.availableSpace, fixed2);
    ParseUnitOfFormat(UsedSpace(d), fixed2);
  }

  /** On a consistent disk the used size is never shown in a larger unit than the total. */
  lemma UsedUnitAtMostTotal(d: Disk, fixed2: real -> string)
    requires d.availableSpace <= d.totalSpace
    ensures Rank(ParseUnit(Describe(d, fixed2).used)) <= Rank(ParseUnit(Describe(d, fixed2).total))
  {
    DescribeUnits(d, fixed2);
    SelectUnitMonotone(UsedSpace(d), d.totalSpace);
  }

  /**
   * Without a clamp, a disk that reports slightly more available than total space is shown
   * as using terabytes.
   */
  lemma UsedWrapsToTerabytes(d: Disk, fixed2: real -> string)
    requires d.totalSpace < d.availableSpace <= d.totalSpace + (U64_MODULUS - Scale(TB))
    ensures ParseUnit(Describe(d, fixed2).used) == TB
  {
    DescribeUnits(d, fixed2);
  }
}
