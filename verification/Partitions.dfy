/** Finding partitions: partition_probe on a disk (kernel/fs/partition.cpp:49-86, 162-265). */
module Partitions {
  import opened Bytes
  import opened FatTable

  datatype Kind = Unknown | Raw | Fat12 | Fat16 | Fat32Kind | Ntfs | Ext2

  datatype Partition = Partition(start: nat, sectors: nat, bootable: bool, kind: Kind)

  /** What the probe found.  Disks with a GUID partition table are read by other code. */
  datatype Found = NoTable | Guid | Partitioned(parts: seq<Partition>)

  const ENTRIES := 446
  const ENTRY := 16

  predicate Holds(s: seq<byte>, o: nat, x: seq<byte>) { o + |x| <= |s| && s[o..o + |x|] == x }

  /** partition_detect_filesystem, from a boot sector. */
  function Detected(s: seq<byte>): Kind
    requires |s| == SECTOR
  {
    if !Holds(s, 510, [0x55, 0xAA]) then Raw
    else if Holds(s, 0x52, Text("FAT32")) then Fat32Kind
    else if Holds(s, 0x36, Text("FAT16")) then Fat16
    else if Holds(s, 0x36, Text("FAT12")) then Fat12
    else if Holds(s, 3, Text("NTFS")) || Holds(s, 3, Text("EXFAT")) then Ntfs
    else if Le16(s, 11) == 512 && s[13] > 0 && Le32(s, 36) > 0 then Fat32Kind
    else Unknown
  }

  /** The sector at `lba`, if the disk has it. */
  function SectorAt(d: seq<byte>, lba: nat): (s: Option<seq<byte>>)
    ensures s.Some? ==> |s.value| == SECTOR
  {
    if (lba + 1) * SECTOR <= |d| then Some(d[lba * SECTOR..(lba + 1) * SECTOR]) else None
  }

  function DetectedAt(d: seq<byte>, lba: nat): Kind {
    var s := SectorAt(d, lba);
    if s.None? then Unknown else Detected(s.value)
  }

  /** The type byte of partition entry `i`. */
  function TypeOf(s: seq<byte>, i: nat): byte
    requires |s| == SECTOR && i < 4
  {
    s[ENTRIES + ENTRY * i + 4]
  }

  function KindOf(t: byte, d: seq<byte>, lba: nat): Kind {
    if t == 0x0B || t == 0x0C then Fat32Kind
    else if t == 0x04 || t == 0x06 || t == 0x0E then Fat16
    else if t == 0x01 then Fat12
    else if t == 0x07 then Ntfs
    else if t == 0x83 then Ext2
    else DetectedAt(d, lba)
  }

  /** Entry `i` names a partition. */
  predicate Used(s: seq<byte>, i: nat)
    requires |s| == SECTOR && i < 4
  {
    Le32(s, ENTRIES + ENTRY * i + 12) != 0 && TypeOf(s, i) != 0
  }

  function EntryAt(s: seq<byte>, d: seq<byte>, i: nat): Partition
    requires |s| == SECTOR && i < 4
  {
    var o := ENTRIES + ENTRY * i;
    Partition(Le32(s, o + 8), Le32(s, o + 12), s[o] == 0x80, KindOf(TypeOf(s, i), d, Le32(s, o + 8)))
  }

  /** The partitions of the first `n` entries, in order. */
  function Listed(s: seq<byte>, d: seq<byte>, n: nat): seq<Partition>
    requires |s| == SECTOR && n <= 4
  {
    if n == 0 then [] else Listed(s, d, n - 1) + if Used(s, n - 1) then [EntryAt(s, d, n - 1)] else []
  }

  /** A protective entry in the first sector, or the signature of a GUID partition table in the second. */
  predicate IsGuid(s: seq<byte>, d: seq<byte>)
    requires |s| == SECTOR
  {
    (exists i :: 0 <= i < 4 && TypeOf(s, i) == 0xEE)
        || (SectorAt(d, 1).Some? && Holds(SectorAt(d, 1).value, 0, Text("EFI PART")))
  }

  /** Without a partition the whole disk counts as one, if it holds anything known. */
  function WholeDisk(d: seq<byte>): seq<Partition> {
    if DetectedAt(d, 0) == Unknown then [] else [Partition(0, |d| / SECTOR, false, DetectedAt(d, 0))]
  }

  function Probed(d: seq<byte>): Found {
    if SectorAt(d, 0).None? then NoTable
    else
      var s := SectorAt(d, 0).value;
      if !Holds(s, 510, [0x55, 0xAA]) then NoTable
      else if IsGuid(s, d) then Guid
      else
        var ps := Listed(s, d, 4);
        Partitioned(if ps == [] then WholeDisk(d) else ps)
  }

  /** partition_probe, after partition_init. */
  method PartitionProbe(d: seq<byte>) returns (found: Found)
    ensures found == Probed(d)
  {
    hide Detected, DetectedAt, Le32, Holds;
    if |d| < SECTOR { return NoTable; }
    var s := d[..SECTOR];
    assert s == d[0 * SECTOR..(0 + 1) * SECTOR];
    if !Holds(s, 510, [0x55, 0xAA]) { return NoTable; }
    var i := 0;
    while i < 4
      invariant 0 <= i <= 4 && forall k :: 0 <= k < i ==> TypeOf(s, k) != 0xEE
    {
      assert TypeOf(s, i) == s[ENTRIES + ENTRY * i + 4];
      if s[ENTRIES + ENTRY * i + 4] == 0xEE { return Guid; }
      i := i + 1;
    }
    if |d| >= 2 * SECTOR {
      if Holds(d[SECTOR..2 * SECTOR], 0, Text("EFI PART")) { return Guid; }
    }
    var ps: seq<Partition> := [];
    i := 0;
    while i < 4
      invariant 0 <= i <= 4 && ps == Listed(s, d, i)
    {
      var o := ENTRIES + ENTRY * i;
      if !(Le32(s, o + 12) == 0 || s[o + 4] == 0) {
        var start := Le32(s, o + 8);
        ps := ps + [Partition(start, Le32(s, o + 12), s[o] == 0x80, KindOf(s[o + 4], d, start))];
      }
      i := i + 1;
    }
    if ps == [] {
      var kind := DetectedAt(d, 0);
      if kind != Unknown { ps := [Partition(0, |d| / SECTOR, false, kind)]; }
    }
    found := Partitioned(ps);
  }

  /** The used ones of the first `n` entries of a boot record, in order: those with a size and a type. */
  ghost predicate UsedOnes(s: seq<byte>, n: nat, js: seq<nat>)
    requires |s| == SECTOR && n <= 4
  {
    && (forall a, b :: 0 <= a < b < |js| ==> js[a] < js[b])
    && (forall a :: 0 <= a < |js| ==> js[a] < n)
    && forall i :: 0 <= i < n ==> (i in js <==> Le32(s, 458 + 16 * i) != 0 && s[450 + 16 * i] != 0)
  }

  const FAT32_TYPES: set<int> := {0x0B, 0x0C}
  const FAT16_TYPES: set<int> := {0x04, 0x06, 0x0E}
  const KNOWN_TYPES: set<int> := FAT32_TYPES + FAT16_TYPES + {0x01, 0x07, 0x83}

  /** The file system goes by the type byte, and for a type not known by the partition's first sector. */
  ghost predicate KindFits(k: Kind, t: byte, d: seq<byte>, lba: nat) {
    && (t in FAT32_TYPES ==> k == Fat32Kind) && (t in FAT16_TYPES ==> k == Fat16) && (t == 0x01 ==> k == Fat12)
    && (t == 0x07 ==> k == Ntfs) && (t == 0x83 ==> k == Ext2) && (t !in KNOWN_TYPES ==> k == DetectedAt(d, lba))
  }

  /** A partition is where its entry says. */
  ghost predicate Describes(p: Partition, s: seq<byte>, d: seq<byte>, i: nat)
    requires |s| == SECTOR && i < 4
  {
    && p.start == Le32(s, 454 + 16 * i) && p.sectors == Le32(s, 458 + 16 * i)
    && (p.bootable <==> s[446 + 16 * i] == 0x80)
    && KindFits(p.kind, s[450 + 16 * i], d, p.start)
  }

  ghost predicate DescribesAll(ps: seq<Partition>, s: seq<byte>, d: seq<byte>, n: nat, js: seq<nat>)
    requires |s| == SECTOR && n <= 4
  {
    UsedOnes(s, n, js) && |ps| == |js| && forall a :: 0 <= a < |js| ==> Describes(ps[a], s, d, js[a])
  }

  lemma {:induction false} ListedOnes(s: seq<byte>, d: seq<byte>, n: nat) returns (js: seq<nat>)
    requires |s| == SECTOR && n <= 4
    ensures DescribesAll(Listed(s, d, n), s, d, n, js)
  {
    hide Detected, DetectedAt, Le32;
    js := [];
    if n > 0 {
      js := ListedOnes(s, d, n - 1);
      if Used(s, n - 1) {
        js := js + [n - 1];
      }
    }
  }

  /** A disk with a boot record and no GUID table has the partitions its used entries describe, in their order; with
      none used the whole disk counts, if it holds anything known. */
  lemma ProbeLists(d: seq<byte>) returns (js: seq<nat>)
    requires Probed(d).Partitioned?
    ensures |d| >= 512 && d[510] == 0x55 && d[511] == 0xAA && UsedOnes(d[..512], 4, js)
    ensures var ps := Probed(d).parts;
            if js != [] then DescribesAll(ps, d[..512], d, 4, js)
            else ps == [] || exists k :: k != Unknown && ps == [Partition(0, |d| / 512, false, k)]
  {
    hide Detected, DetectedAt, Listed;
    var s := SectorAt(d, 0).value;
    assert s == d[..512] && s[510..512] == [0x55, 0xAA];
    assert d[510] == s[510..512][0] && d[511] == s[510..512][1];
    js := ListedOnes(s, d, 4);
  }

  /** When there is a GUID table: the boot record has a protective entry, or the next sector starts with its
      signature. */
  lemma GuidIff(d: seq<byte>)
    ensures Probed(d) == Guid <==>
            |d| >= 512 && d[510] == 0x55 && d[511] == 0xAA
            && ((d[450] == 0xEE || d[466] == 0xEE || d[482] == 0xEE || d[498] == 0xEE)
                || (|d| >= 1024 && d[512..520] == Text("EFI PART")))
  {
    hide Detected, DetectedAt, Listed;
    if |d| >= 512 {
      var s := SectorAt(d, 0).value;
      assert s == d[..512] && s[510..512] == [d[510], d[511]];
      assert TypeOf(s, 0) == d[450] && TypeOf(s, 1) == d[466] && TypeOf(s, 2) == d[482] && TypeOf(s, 3) == d[498];
      if |d| >= 1024 {
        assert SectorAt(d, 1).value[0..8] == d[512..520];
      }
    }
  }

  /** Boot sectors of the four file systems the probe knows by their marks: without the signature at the end nothing is
      known, the mark at 82 says FAT32, else that at 54 FAT16 or FAT12, else that at 3 NTFS. */
  lemma MarksDecide(s: seq<byte>)
    requires |s| == SECTOR
    ensures Detected(s) == Raw <==> !(s[510] == 0x55 && s[511] == 0xAA)
    ensures Detected(s) != Raw && s[82..87] == Text("FAT32") ==> Detected(s) == Fat32Kind
    ensures Detected(s) == Fat16 ==> s[54..59] == Text("FAT16")
    ensures Detected(s) == Fat12 ==> s[54..59] == Text("FAT12")
    ensures Detected(s) == Ntfs ==> s[3..7] == Text("NTFS") || s[3..8] == Text("EXFAT")
    ensures Detected(s) == Unknown ==> s[54..59] != Text("FAT16") && s[54..59] != Text("FAT12")
                                       && s[3..7] != Text("NTFS")
    ensures Detected(s) != Ext2
  {
    hide Le16, Le32;
    assert s[510..512] == [s[510], s[511]];
  }
}
