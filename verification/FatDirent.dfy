/** The 32-byte FAT directory entry (kernel/fs/fat32.hpp:54-67) and updating one on disk. */
module FatDirent {
  import opened Bytes
  import opened FatTable
  import opened FatDriver

  const ENTRY_SIZE := 32
  const ATTR_VOLUME_ID := 0x08
  const ATTR_DIRECTORY := 0x10
  const ATTR_ARCHIVE := 0x20
  const ATTR_LFN := 0x0F
  const DELETED := 0xE5

  function Name(e: seq<byte>): seq<byte>
    requires |e| == ENTRY_SIZE
  {
    e[..11]
  }

  function Attributes(e: seq<byte>): byte
    requires |e| == ENTRY_SIZE
  {
    e[11]
  }

  /** cluster_high : cluster_low */
  function StartCluster(e: seq<byte>): (c: nat)
    requires |e| == ENTRY_SIZE
    ensures c < U32
  {
    Le16(e, 20) * U16 + Le16(e, 26)
  }

  function FileSize(e: seq<byte>): (n: nat)
    requires |e| == ENTRY_SIZE
    ensures n < U32
  {
    Le32(e, 28)
  }

  function WithCluster(e: seq<byte>, c: nat): (r: seq<byte>)
    requires |e| == ENTRY_SIZE && c < U32
    ensures |r| == ENTRY_SIZE && StartCluster(r) == c
    ensures Name(r) == Name(e) && Attributes(r) == Attributes(e) && FileSize(r) == FileSize(e)
  {
    var r := Splice(Splice(e, 26, PutLe16(c % U16)), 20, PutLe16(c / U16));
    assert r[26..28] == PutLe16(c % U16) && r[20..22] == PutLe16(c / U16);
    r
  }

  function WithSize(e: seq<byte>, n: nat): (r: seq<byte>)
    requires |e| == ENTRY_SIZE && n < U32
    ensures |r| == ENTRY_SIZE && FileSize(r) == n
    ensures Name(r) == Name(e) && Attributes(r) == Attributes(e) && StartCluster(r) == StartCluster(e)
  {
    var r := Splice(e, 28, PutLe32(n));
    assert r[28..32] == PutLe32(n);
    r
  }

  /** The entry at byte `o` of a cluster. */
  function EntryIn(cluster: seq<byte>, o: nat): (e: seq<byte>)
    requires o + ENTRY_SIZE <= |cluster|
    ensures |e| == ENTRY_SIZE
  {
    cluster[o..o + ENTRY_SIZE]
  }

  /** The sector that holds the entry at byte `o` of cluster `c`, and the entry's place in it. */
  lemma SectorInCluster(g: Geometry, d: seq<byte>, c: nat, o: nat)
    requires Fits(g, d) && 2 <= c < g.End() && o % ENTRY_SIZE == 0 && o + ENTRY_SIZE <= g.Bpc()
    ensures var lba, at := g.ClusterLba(c) + o / SECTOR, o % SECTOR;
            && (lba + 1) * SECTOR <= |d| && at + ENTRY_SIZE <= SECTOR
            && lba * SECTOR + at == g.ClusterOffset(c) + o
            && g.ClusterOffset(c) + g.Bpc() <= |d|
            && d[lba * SECTOR..lba * SECTOR + SECTOR][at..at + ENTRY_SIZE] == EntryIn(Cluster(g, d, c), o)
  {
    hide Geometry.ClusterLba, Geometry.Total, Geometry.ClusterOffset, Geometry.Bpc, Geometry.Valid, Geometry.End,
         EntryIn, Fits, Cluster;
    var base := g.ClusterOffset(c);
    var lba, at := g.ClusterLba(c) + o / SECTOR, o % SECTOR;
    EntryInCluster(g, d, c, o);
    SectorOfEntry(g.ClusterLba(c), g.spc, g.Total(), o);
    Subslices(d, lba * SECTOR, SECTOR, at, base, g.Bpc(), o, ENTRY_SIZE);
  }

  lemma SectorOfEntry(first: nat, spc: nat, total: nat, o: nat)
    requires first + spc <= total && o % ENTRY_SIZE == 0 && o + ENTRY_SIZE <= spc * SECTOR
    ensures var lba, at := first + o / SECTOR, o % SECTOR;
            (lba + 1) * SECTOR <= total * SECTOR && at + ENTRY_SIZE <= SECTOR && lba * SECTOR + at == first * SECTOR + o
  {
    var q, r := o / SECTOR, o % SECTOR;
    assert o == SECTOR * q + r && q < spc;
    assert r == ENTRY_SIZE * (o / ENTRY_SIZE - 16 * q);
  }

  lemma EntryInCluster(g: Geometry, d: seq<byte>, c: nat, o: nat)
    requires Fits(g, d) && 2 <= c < g.End() && o + ENTRY_SIZE <= g.Bpc()
    ensures g.ClusterLba(c) + g.spc <= g.Total() && g.Total() * SECTOR <= |d|
    ensures g.ClusterOffset(c) == g.ClusterLba(c) * SECTOR && g.Bpc() == g.spc * SECTOR
    ensures g.ClusterOffset(c) + g.Bpc() <= |d|
            && EntryIn(Cluster(g, d, c), o) == d[g.ClusterOffset(c)..g.ClusterOffset(c) + g.Bpc()][o..o + ENTRY_SIZE]
  {
    ClusterInData(g, c);
  }

  lemma Subslices<T>(d: seq<T>, p: nat, n: nat, i: nat, q: nat, m: nat, j: nat, k: nat)
    requires p + n <= |d| && q + m <= |d| && i + k <= n && j + k <= m && p + i == q + j
    ensures d[p..p + n][i..i + k] == d[q..q + m][j..j + k]
  {
    SliceOfSlice(d, p, n, i, k);
    SliceOfSlice(d, q, m, j, k);
  }

  lemma SpliceInside<T>(d: seq<T>, p: nat, n: nat, o: nat, x: seq<T>)
    requires p + n <= |d| && o + |x| <= n
    ensures Splice(d, p, Splice(d[p..p + n], o, x)) == Splice(d, p + o, x)
  {
  }

  /** Storing a changed entry through its sector is storing it in its cluster. */
  lemma EntryStored(g: Geometry, d: seq<byte>, c: nat, o: nat, e: seq<byte>)
    requires Fits(g, d) && 2 <= c < g.End() && o % ENTRY_SIZE == 0 && o + ENTRY_SIZE <= g.Bpc() && |e| == ENTRY_SIZE
    ensures var lba, at := g.ClusterLba(c) + o / SECTOR, o % SECTOR;
            (lba + 1) * SECTOR <= |d| && at + ENTRY_SIZE <= SECTOR
            && var d' := Splice(d, lba * SECTOR, Splice(d[lba * SECTOR..lba * SECTOR + SECTOR], at, e));
            && Fits(g, d') && Kept(g, d, d')
            && View(g, d') == View(g, d).(data := View(g, d).data[c - 2 := Splice(Cluster(g, d, c), o, e)])
  {
    hide Splice, Kept, Fits;
    SectorInCluster(g, d, c, o);
    var lba, at := g.ClusterLba(c) + o / SECTOR, o % SECTOR;
    SpliceInside(d, lba * SECTOR, SECTOR, at, e);
    SpliceInside(d, g.ClusterOffset(c), g.Bpc(), o, e);
    ClusterWrittenView(g, d, c, Splice(Cluster(g, d, c), o, e));
  }

  /** The volume with the entry at byte `o` of directory cluster `c` replaced. */
  function WithEntry(v: Volume, c: nat, o: nat, e: seq<byte>): Volume
    requires 2 <= c < |v.data| + 2 && o + |e| <= |v.data[c - 2]|
  {
    v.(data := v.data[c - 2 := Splice(v.data[c - 2], o, e)])
  }

  /** kernel/fs/fat32.cpp:338-350 */
  method StoreStartCluster(fs: Fat32, dirCluster: nat, o: nat, start: nat)
    requires fs.Valid() && 2 <= dirCluster < fs.g.End() && o % ENTRY_SIZE == 0 && o + ENTRY_SIZE <= fs.g.Bpc()
             && start < U32
    modifies fs
    ensures fs.Valid() && Kept(fs.g, old(fs.disk), fs.disk)
    ensures fs.vol == WithEntry(old(fs.vol), dirCluster, o,
                                WithCluster(EntryIn(old(fs.vol).data[dirCluster - 2], o), start))
  {
    hide Kept, Fits, View, WithCluster, Splice;
    var lba, at := fs.g.ClusterLba(dirCluster) + o / SECTOR, o % SECTOR;
    SectorInCluster(fs.g, fs.disk, dirCluster, o);
    EntryStored(fs.g, fs.disk, dirCluster, o, WithCluster(EntryIn(fs.vol.data[dirCluster - 2], o), start));
    var buf := fs.ReadSector(lba);
    fs.WriteSector(lba, Splice(buf, at, WithCluster(buf[at..at + ENTRY_SIZE], start)));
    fs.vol := View(fs.g, fs.disk);
  }

  /** kernel/fs/fat32.cpp:412-423 */
  method StoreFileSize(fs: Fat32, dirCluster: nat, o: nat, size: nat)
    requires fs.Valid() && 2 <= dirCluster < fs.g.End() && o % ENTRY_SIZE == 0 && o + ENTRY_SIZE <= fs.g.Bpc()
             && size < U32
    modifies fs
    ensures fs.Valid() && Kept(fs.g, old(fs.disk), fs.disk)
    ensures fs.vol == WithEntry(old(fs.vol), dirCluster, o,
                                WithSize(EntryIn(old(fs.vol).data[dirCluster - 2], o), size))
  {
    hide Kept, Fits, View, WithSize, Splice;
    var lba, at := fs.g.ClusterLba(dirCluster) + o / SECTOR, o % SECTOR;
    SectorInCluster(fs.g, fs.disk, dirCluster, o);
    EntryStored(fs.g, fs.disk, dirCluster, o, WithSize(EntryIn(fs.vol.data[dirCluster - 2], o), size));
    var buf := fs.ReadSector(lba);
    fs.WriteSector(lba, Splice(buf, at, WithSize(buf[at..at + ENTRY_SIZE], size)));
    fs.vol := View(fs.g, fs.disk);
  }
}
