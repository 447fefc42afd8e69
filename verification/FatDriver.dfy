/**
 The FAT32 driver's table operations (kernel/fs/fat32.cpp:35-127): sector reads
 and writes on a disk whose sector I/O succeeds, following and setting links,
 taking the lowest free cluster and freeing a chain.
*/
module FatDriver {
  import opened Bytes
  import opened FatTable
  import opened FatChains

  /** A mounted volume (Fat32Instance) together with the disk it lives on. */
  class Fat32 {
    const g: Geometry
    var disk: seq<byte>
    ghost var vol: Volume  // the links and clusters the disk holds

    ghost predicate Valid()
      reads this
    {
      Fits(g, disk) && vol == View(g, disk) && Shaped(g, vol)
    }

    constructor (g: Geometry, image: seq<byte>)
      requires Fits(g, image)
      ensures Valid() && this.g == g && disk == image
    {
      this.g := g;
      disk := image;
      vol := View(g, image);
    }

    method ReadSector(lba: nat) returns (buf: seq<byte>)
      requires (lba + 1) * SECTOR <= |disk|
      ensures buf == disk[lba * SECTOR..lba * SECTOR + SECTOR]
    {
      buf := disk[lba * SECTOR..(lba + 1) * SECTOR];
    }

    method WriteSector(lba: nat, buf: seq<byte>)
      requires (lba + 1) * SECTOR <= |disk| && |buf| == SECTOR
      modifies this`disk
      ensures disk == Splice(old(disk), lba * SECTOR, buf)
    {
      disk := Splice(disk, lba * SECTOR, buf);
    }

    method GetNextCluster(cluster: nat) returns (next: nat)
      requires Valid() && (2 <= cluster < BAD ==> cluster < g.Entries())
      ensures next == Next(vol.table, cluster)
    {
      if cluster < 2 || cluster >= BAD { return EOC; }
      var fatOffset := cluster * 4;
      var fatSector := g.fatStart + fatOffset / SECTOR;
      var entOffset := fatOffset % SECTOR;
      EntryInSector(g, disk, 0, cluster);
      var buf := ReadSector(fatSector);
      next := Le32(buf, entOffset) % LOW28;
    }

    method SetNextCluster(cluster: nat, next: nat) returns (ok: bool)
      requires Valid() && (cluster >= 2 ==> cluster < g.Entries())
      modifies this
      ensures ok <==> cluster >= 2
      ensures !ok ==> disk == old(disk) && vol == old(vol)
      ensures ok ==> Valid() && Kept(g, old(disk), disk)
      ensures ok ==> vol == old(vol).(table := old(vol).table[cluster := next % LOW28])
    {
      if cluster < 2 { return false; }
      var fatOffset := cluster * 4;
      var fatSectorRel := fatOffset / SECTOR;
      var entOffset := fatOffset % SECTOR;
      ghost var d := disk;
      RelinkNone(g, d, cluster, next);
      hide View, Fits, Kept, Relinked, Raw, Le32, PutLe32, Merge;
      var f := 0;
      while f < g.fatCount
        invariant 0 <= f <= g.fatCount
        invariant Fits(g, disk) && Relinked(g, d, disk, cluster, next, f)
      {
        RelinkStep(g, d, disk, cluster, next, f);
        EntryInSector(g, disk, f, cluster);
        var fatSector := g.FatSector(f) + fatSectorRel;
        var buf := ReadSector(fatSector);
        var val := Le32(buf, entOffset);
        var merged := PutLe32(Merge(val, next));
        SectorUpdate(disk, fatSector, entOffset, merged);
        WriteSector(fatSector, Splice(buf, entOffset, merged));
        f := f + 1;
      }
      RelinkedView(g, d, disk, cluster, next);
      vol := View(g, disk);
      ok := true;
    }

    /** The loops `for s < sectors_per_cluster` that fill and flush the 4096-byte cluster buffer. */
    method ReadCluster(c: nat) returns (buf: seq<byte>)
      requires Valid() && 2 <= c < g.End()
      ensures buf == vol.data[c - 2]
    {
      ClusterInData(g, c);
      var lba := g.ClusterLba(c);
      buf := [];
      var s := 0;
      while s < g.spc
        invariant 0 <= s <= g.spc
        invariant buf == disk[lba * SECTOR..lba * SECTOR + s * SECTOR]
      {
        var sector := ReadSector(lba + s);
        buf := buf + sector;
        s := s + 1;
      }
    }

    method WriteCluster(c: nat, buf: seq<byte>)
      requires Valid() && 2 <= c < g.End() && |buf| == g.Bpc()
      modifies this
      ensures Valid() && Kept(g, old(disk), disk)
      ensures vol == old(vol).(data := old(vol).data[c - 2 := buf])
    {
      hide Kept, View, Fits;
      ClusterInData(g, c);
      ClusterWrittenView(g, disk, c, buf);
      var lba := g.ClusterLba(c);
      ghost var d := disk;
      var s := 0;
      assert disk == Splice(d, lba * SECTOR, buf[..0]);
      while s < g.spc
        invariant 0 <= s <= g.spc
        invariant disk == Splice(d, lba * SECTOR, buf[..s * SECTOR])
      {
        WriteSector(lba + s, buf[s * SECTOR..(s + 1) * SECTOR]);
        s := s + 1;
      }
      assert buf[..g.spc * SECTOR] == buf;
      vol := View(g, disk);
    }

    /** Claims a free cluster: marks it end-of-chain, appends it to the chain of `prev`, zeroes it. */
    method TakeCluster(prev: nat, c: nat)
      requires Valid() && prev < g.End() && 2 <= c < g.End() && vol.table[c] == FREE
      requires prev >= 2 ==> vol.table[prev] != FREE
      modifies this
      ensures Valid() && Kept(g, old(disk), disk) && vol == Taken(g, old(vol), prev, c)
    {
      hide View, Fits, Kept;
      assert EOC % LOW28 == EOC && c % LOW28 == c;
      ghost var v := vol;
      var _ := SetNextCluster(c, EOC);
      assert vol.table == v.table[c := EOC];
      ghost var d := disk;
      if prev >= 2 {
        var _ := SetNextCluster(prev, c);
        KeptTransitive(g, old(disk), d, disk);
        d := disk;
      }
      assert vol.table == Taken(g, v, prev, c).table && vol.data == v.data;
      WriteCluster(c, Zeros(g.Bpc()));
      KeptTransitive(g, old(disk), d, disk);
    }

    /** The inner loop of the allocator: the first free entry (from 2 on) in FAT sector `sec`, or 0. */
    method ScanSector(sec: nat) returns (idx: nat)
      requires Valid() && sec < g.fatSize
      ensures idx == 0 ==> forall k :: 2 <= k && sec * ENTRIES_PER_SECTOR <= k < (sec + 1) * ENTRIES_PER_SECTOR ==>
              vol.table[k] != FREE
      ensures idx != 0 ==> 2 <= idx && sec * ENTRIES_PER_SECTOR <= idx < (sec + 1) * ENTRIES_PER_SECTOR
                           && vol.table[idx] == FREE
      ensures idx != 0 ==> forall k :: 2 <= k && sec * ENTRIES_PER_SECTOR <= k < idx ==> vol.table[k] != FREE
    {
      hide View, Fits, Shaped, Le32;
      EntryOfSector(g, disk, sec, 0);
      var buf := ReadSector(g.fatStart + sec);
      ghost var t := vol.table;
      var i := 0;
      ghost var w := 0;
      while i < SECTOR
        invariant 0 <= w <= ENTRIES_PER_SECTOR && i == 4 * w
        invariant forall k :: 2 <= k && sec * ENTRIES_PER_SECTOR <= k < sec * ENTRIES_PER_SECTOR + w ==> t[k] != FREE
      {
        EntryOfSector(g, disk, sec, w);
        assert i / 4 == w;
        idx := sec * ENTRIES_PER_SECTOR + i / 4;
        if idx >= 2 && Le32(buf, i) % LOW28 == FREE { return; }
        i, w := i + 4, w + 1;
      }
      idx := 0;
    }

    method AllocateCluster(prev: nat) returns (c: nat)
      requires Valid() && prev < g.End() && Allocatable(g, vol.table)
      requires prev >= 2 ==> vol.table[prev] != FREE
      modifies this
      ensures Valid() && Kept(g, old(disk), disk)
      ensures IsLowestFree(old(vol).table, c)
      ensures c == 0 ==> disk == old(disk) && vol == old(vol)
      ensures c != 0 ==> c < g.End() && vol == Taken(g, old(vol), prev, c)
    {
      hide Kept, View, Fits;
      KeptSelf(g, disk);
      var sec := 0;
      while sec < g.fatSize
        invariant 0 <= sec <= g.fatSize
        invariant disk == old(disk) && vol == old(vol)
        invariant forall i :: 2 <= i < sec * ENTRIES_PER_SECTOR ==> vol.table[i] != FREE
      {
        c := ScanSector(sec);
        if c != 0 {
          AllocatableIff(g, vol.table, c);
          TakeCluster(prev, c);
          return;
        }
        sec := sec + 1;
      }
      c := 0;
    }

    /** The body of the freeing loop: read the link, then mark the entry free. */
    method FreeOne(curr: nat) returns (next: nat)
      requires Valid() && LinksInRange(g, vol.table) && 2 <= curr < g.End()
      modifies this
      ensures Valid() && Kept(g, old(disk), disk) && LinksInRange(g, vol.table)
      ensures next == old(vol).table[curr] && LinkInRange(g, next)
      ensures vol == old(vol).(table := old(vol).table[curr := FREE])
    {
      next := GetNextCluster(curr);
      var _ := SetNextCluster(curr, FREE);
    }

    /** Terminates on every table whose links are in range, cyclic ones included:
        each turn frees a non-free entry or reads the free mark left by an earlier turn. */
    method FreeClusterChain(start: nat)
      requires Valid() && LinksInRange(g, vol.table) && LinkInRange(g, start)
      modifies this
      ensures Valid() && Kept(g, old(disk), disk) && LinksInRange(g, vol.table)
      ensures FreedAll(old(vol).table, vol.table, start)
      ensures vol.data == old(vol).data
    {
      hide Kept, View, Fits, LinksInRange, FreedTo, FreedAll, Met, NonFree;
      KeptSelf(g, disk);
      var curr: nat := start;
      ghost var k: nat := 0;
      ghost var t := vol.table;
      FreedNone(t, start);
      while curr >= 2 && curr < EOC
        invariant Valid() && Kept(g, old(disk), disk) && LinksInRange(g, vol.table) && LinkInRange(g, curr)
        invariant FreedTo(t, vol.table, start, k) && |vol.table| == |t|
        invariant curr == Follow(t, start, k) || (curr == 0 && Follow(t, start, k) in Met(t, start, k))
        invariant vol.data == old(vol).data
        decreases NonFree(vol.table), if 2 <= curr < EOC then 1 else 0
      {
        ghost var d := disk;
        FreeStep(t, vol.table, start, k);
        NonFreeUpdate(vol.table, curr, FREE);
        ghost var seen := curr in Met(t, start, k);
        curr := FreeOne(curr);
        KeptTransitive(g, old(disk), d, disk);
        if !seen {
          k := k + 1;
        }
      }
      FreedToAll(t, vol.table, start, k);
    }
  }

  /** Where the driver finds entry `c` of copy `f`: sector and offset computed by division. */
  lemma EntryInSector(g: Geometry, d: seq<byte>, f: nat, c: nat)
    requires Fits(g, d) && f < g.fatCount && c < g.Entries()
    ensures var sector, off := g.FatSector(f) + c * 4 / SECTOR, c * 4 % SECTOR;
            && c * 4 / SECTOR == c / ENTRIES_PER_SECTOR && off == c % ENTRIES_PER_SECTOR * 4
            && (sector + 1) * SECTOR <= |d|
            && off + 4 <= SECTOR
            && sector * SECTOR + off == g.EntryOffset(f, c)
            && Le32(d[sector * SECTOR..sector * SECTOR + SECTOR], off) == Raw(g, d, f, c)
  {
    EntryInFat(g, f, c);
    var sector, off := g.FatSector(f) + c * 4 / SECTOR, c * 4 % SECTOR;
    assert sector * SECTOR + off == g.EntryOffset(f, c);
  }

  /** Word `w` of FAT sector `sec` is the link of cluster `sec * 128 + w`. */
  lemma EntryOfSector(g: Geometry, d: seq<byte>, sec: nat, w: nat)
    requires Fits(g, d) && sec < g.fatSize && w < ENTRIES_PER_SECTOR
    ensures var lba, c := g.fatStart + sec, sec * ENTRIES_PER_SECTOR + w;
            && (lba + 1) * SECTOR <= |d| && c < g.Entries()
            && Le32(d[lba * SECTOR..lba * SECTOR + SECTOR], 4 * w) % LOW28 == View(g, d).table[c]
  {
    var c := sec * ENTRIES_PER_SECTOR + w;
    assert c < g.Entries() && c / ENTRIES_PER_SECTOR == sec && c % ENTRIES_PER_SECTOR == w;
    EntryInSector(g, d, 0, c);
    assert g.FatSector(0) == g.fatStart;
  }

  /** Rewriting a sector with four bytes changed is changing those four bytes of the disk. */
  lemma SectorUpdate(d: seq<byte>, sector: nat, off: nat, x: seq<byte>)
    requires (sector + 1) * SECTOR <= |d| && off + |x| <= SECTOR
    ensures var buf := d[sector * SECTOR..sector * SECTOR + SECTOR];
            Splice(d, sector * SECTOR, Splice(buf, off, x)) == Splice(d, sector * SECTOR + off, x)
  {
  }
}
