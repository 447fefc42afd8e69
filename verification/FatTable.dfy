/**
 The FAT32 on-disk layout of kernel/fs/fat32.cpp: several copies of a table of
 32-bit entries, then a data area cut into clusters.  A disk is a string of
 bytes; `View` gives its table and clusters as values.
*/
module FatTable {
  import opened Bytes

  const SECTOR := 512
  const ENTRIES_PER_SECTOR := 128
  const LOW28 := 0x1000_0000
  const FREE := 0
  const BAD := 0x0FFF_FFF7
  const EOC := 0x0FFF_FFF8

  /** The fields of Fat32Instance the driver computes with; `clusters` counts the clusters of the data area. */
  datatype Geometry = Geometry(spc: nat, fatStart: nat, fatSize: nat, fatCount: nat, clusters: nat) {

    function Bpc(): nat { spc * SECTOR }

    function Entries(): nat { fatSize * ENTRIES_PER_SECTOR }

    /** One past the last cluster of the data area. */
    function End(): nat { clusters + 2 }

    function DataStart(): nat { fatStart + fatCount * fatSize }

    function FatSector(f: nat): nat { fatStart + f * fatSize }

    function EntryOffset(f: nat, c: nat): nat { FatSector(f) * SECTOR + c * 4 }

    function ClusterLba(c: nat): nat
      requires 2 <= c
    {
      DataStart() + (c - 2) * spc
    }

    function ClusterOffset(c: nat): nat
      requires 2 <= c
    {
      ClusterLba(c) * SECTOR
    }

    /** Sectors up to the end of the data area. */
    function Total(): nat { DataStart() + clusters * spc }

    /** A volume the driver can serve: the 4096-byte cluster buffer fits a cluster, every
        data cluster has a FAT entry, and sector numbers fit the 28-bit LBA of the ATA driver. */
    predicate Valid() {
      1 <= spc <= 8 && 1 <= fatCount && 1 <= fatSize && End() <= Entries() <= BAD && Total() <= LOW28
    }
  }

  /** A disk image that holds the whole volume. */
  predicate Fits(g: Geometry, d: seq<byte>) {
    g.Valid() && |d| % SECTOR == 0 && g.Total() * SECTOR <= |d| <= LOW28 * SECTOR
  }

  lemma EntryInFat(g: Geometry, f: nat, c: nat)
    requires f < g.fatCount && c < g.Entries()
    ensures g.fatStart * SECTOR <= g.EntryOffset(f, c)
    ensures g.EntryOffset(f, c) + 4 <= g.FatSector(f + 1) * SECTOR <= g.DataStart() * SECTOR <= g.Total() * SECTOR
  {
    MulLe(f + 1, g.fatCount, g.fatSize);
    MulSucc(f, g.fatSize);
  }

  lemma EntriesApart(g: Geometry, f: nat, c: nat, f': nat, c': nat)
    requires f < g.fatCount && f' < g.fatCount && c < g.Entries() && c' < g.Entries()
    requires (f, c) != (f', c')
    ensures g.EntryOffset(f, c) + 4 <= g.EntryOffset(f', c') || g.EntryOffset(f', c') + 4 <= g.EntryOffset(f, c)
  {
    if f < f' {
      EntryInFat(g, f, c);
      MulLe(f + 1, f', g.fatSize);
    } else if f' < f {
      EntryInFat(g, f', c');
      MulLe(f' + 1, f, g.fatSize);
    }
  }

  lemma ClusterInData(g: Geometry, c: nat)
    requires 2 <= c < g.End()
    ensures g.DataStart() * SECTOR <= g.ClusterOffset(c)
    ensures g.ClusterLba(c) + g.spc <= g.Total()
    ensures g.ClusterOffset(c) + g.Bpc() <= g.Total() * SECTOR
  {
    MulLe(c - 1, g.clusters, g.spc);
    MulSucc(c - 2, g.spc);
  }

  lemma ClustersApart(g: Geometry, c: nat, c': nat)
    requires 2 <= c < c'
    ensures g.ClusterOffset(c) + g.Bpc() <= g.ClusterOffset(c')
  {
    MulLe(c - 1, c' - 2, g.spc);
    MulSucc(c - 2, g.spc);
  }

  /** Entry `c` of FAT copy `f`, all 32 bits. */
  function Raw(g: Geometry, d: seq<byte>, f: nat, c: nat): (r: int)
    requires Fits(g, d) && f < g.fatCount && c < g.Entries()
    ensures 0 <= r < U32
  {
    EntryInFat(g, f, c);
    Le32(d, g.EntryOffset(f, c))
  }

  /** The link stored for cluster `c`: the low 28 bits of the first copy. */
  function Link(g: Geometry, d: seq<byte>, c: nat): (r: nat)
    requires Fits(g, d) && c < g.Entries()
    ensures r < LOW28
  {
    Raw(g, d, 0, c) % LOW28
  }

  function Cluster(g: Geometry, d: seq<byte>, c: nat): (r: seq<byte>)
    requires Fits(g, d) && 2 <= c < g.End()
    ensures |r| == g.Bpc()
  {
    ClusterInData(g, c);
    d[g.ClusterOffset(c)..g.ClusterOffset(c) + g.Bpc()]
  }

  /** The abstract volume: links of all clusters, and the bytes of cluster c at index c - 2. */
  datatype Volume = Volume(table: seq<nat>, data: seq<seq<byte>>)

  function View(g: Geometry, d: seq<byte>): (v: Volume)
    requires Fits(g, d)
    ensures |v.table| == g.Entries() && |v.data| == g.clusters
    ensures forall c {:trigger v.table[c]} :: 0 <= c < g.Entries() ==> v.table[c] == Link(g, d, c)
    ensures forall i {:trigger v.data[i]} :: 0 <= i < g.clusters ==> v.data[i] == Cluster(g, d, i + 2)
  {
    Volume(seq(g.Entries(), c requires 0 <= c < g.Entries() => Link(g, d, c)),
           seq(g.clusters, i requires 0 <= i < g.clusters => Cluster(g, d, i + 2)))
  }

  /** The sizes every abstract volume has. */
  ghost predicate Shaped(g: Geometry, v: Volume) {
    && g.Valid() && |v.table| == g.Entries() && |v.data| == g.clusters
    && forall i :: 0 <= i < |v.data| ==> |v.data[i]| == g.Bpc()
  }

  /** What no driver operation may disturb: the disk size, the sectors before the FATs and after
      the data area, the four reserved top bits of every entry, and agreement of the copies. */
  ghost predicate Kept(g: Geometry, d: seq<byte>, d': seq<byte>)
    requires Fits(g, d)
  {
    && |d'| == |d|
    && (forall b :: 0 <= b < g.fatStart * SECTOR || g.Total() * SECTOR <= b < |d| ==> d'[b] == d[b])
    && (forall f, c :: 0 <= f < g.fatCount && 0 <= c < g.Entries() ==> Raw(g, d', f, c) / LOW28 == Raw(g, d, f,
                                                                       c) / LOW28)
    && (CopiesAgree(g, d) ==> CopiesAgree(g, d'))
  }

  /** All FAT copies hold the same links. */
  ghost predicate CopiesAgree(g: Geometry, d: seq<byte>)
    requires Fits(g, d)
  {
    forall f, c :: 0 <= f < g.fatCount && 0 <= c < g.Entries() ==> Raw(g, d, f, c) % LOW28 == Link(g, d, c)
  }

  lemma KeptSelf(g: Geometry, d: seq<byte>)
    requires Fits(g, d)
    ensures Kept(g, d, d)
  {
  }

  lemma KeptTransitive(g: Geometry, d0: seq<byte>, d1: seq<byte>, d2: seq<byte>)
    requires Fits(g, d0) && Kept(g, d0, d1) && Kept(g, d1, d2)
    ensures Kept(g, d0, d2)
  {
    forall f, c | 0 <= f < g.fatCount && 0 <= c < g.Entries()
      ensures Raw(g, d2, f, c) / LOW28 == Raw(g, d0, f, c) / LOW28
    {
      assert Raw(g, d1, f, c) / LOW28 == Raw(g, d0, f, c) / LOW28;
    }
  }

  /** Along any run of driver calls, each of which keeps what it must, the last disk keeps it from the first. */
  lemma {:induction false} KeptAlong(g: Geometry, disks: seq<seq<byte>>, i: nat)
    requires i < |disks| && forall k :: 0 <= k < |disks| ==> Fits(g, disks[k])
    requires forall k :: 0 <= k < |disks| - 1 ==> Kept(g, disks[k], disks[k + 1])
    ensures Kept(g, disks[0], disks[i])
  {
    hide Kept, Fits;
    if i == 0 {
      KeptSelf(g, disks[0]);
    } else {
      KeptAlong(g, disks, i - 1);
      KeptTransitive(g, disks[0], disks[i - 1], disks[i]);
    }
  }

  /** The masked update of a FAT entry: `(val & 0xF0000000) | (next & 0x0FFFFFFF)`. */
  function Merge(val: int, next: nat): (r: int)
    requires 0 <= val < U32
    ensures 0 <= r < U32 && r % LOW28 == next % LOW28 && r / LOW28 == val / LOW28
  {
    val / LOW28 * LOW28 + next % LOW28
  }

  /** `d'` is `d` with the link of cluster `c` set to `next` in the first `n` FAT copies and nothing else changed. */
  ghost predicate Relinked(g: Geometry, d: seq<byte>, d': seq<byte>, c: nat, next: nat, n: nat)
    requires Fits(g, d) && c < g.Entries() && n <= g.fatCount
  {
    && |d'| == |d|
    && (forall b :: 0 <= b < g.fatStart * SECTOR || g.DataStart() * SECTOR <= b < |d| ==> d'[b] == d[b])
    && (forall f, k :: 0 <= f < g.fatCount && 0 <= k < g.Entries() ==>
          Raw(g, d', f, k) == if f < n && k == c then Merge(Raw(g, d, f, k), next) else Raw(g, d, f, k))
  }

  lemma RelinkNone(g: Geometry, d: seq<byte>, c: nat, next: nat)
    requires Fits(g, d) && c < g.Entries()
    ensures Relinked(g, d, d, c, next, 0)
  {
  }

  lemma RelinkStep(g: Geometry, d: seq<byte>, d': seq<byte>, c: nat, next: nat, n: nat)
    requires Fits(g, d) && c < g.Entries() && n < g.fatCount
    requires Relinked(g, d, d', c, next, n)
    ensures Fits(g, d') && Raw(g, d', n, c) == Raw(g, d, n, c) && g.EntryOffset(n, c) + 4 <= |d'|
    ensures Relinked(g, d, Splice(d', g.EntryOffset(n, c), PutLe32(Merge(Raw(g, d, n, c), next))), c, next, n + 1)
  {
    EntryInFat(g, n, c);
    var o := g.EntryOffset(n, c);
    assert g.DataStart() * SECTOR <= g.Total() * SECTOR;
    var x := PutLe32(Merge(Raw(g, d, n, c), next));
    var e := Splice(d', o, x);
    assert e[o..o + 4] == x;
    forall f, k | 0 <= f < g.fatCount && 0 <= k < g.Entries()
      ensures Raw(g, e, f, k) == if f < n + 1 && k == c then Merge(Raw(g, d, f, k), next) else Raw(g, d, f, k)
    {
      EntryInFat(g, f, k);
      if (f, k) != (n, c) {
        EntriesApart(g, f, k, n, c);
        assert Raw(g, e, f, k) == Raw(g, d', f, k);
      }
    }
  }

  lemma ClusterSame(g: Geometry, d: seq<byte>, d': seq<byte>, c: nat)
    requires Fits(g, d) && |d'| == |d| && 2 <= c < g.End()
    requires forall b :: g.ClusterOffset(c) <= b < g.ClusterOffset(c) + g.Bpc() && b < |d| ==> d'[b] == d[b]
    ensures Cluster(g, d', c) == Cluster(g, d, c)
  {
    ClusterInData(g, c);
  }

  lemma EntrySame(g: Geometry, d: seq<byte>, d': seq<byte>, f: nat, c: nat)
    requires Fits(g, d) && |d'| == |d| && f < g.fatCount && c < g.Entries()
    requires forall b :: 0 <= b < g.DataStart() * SECTOR && b < |d| ==> d'[b] == d[b]
    ensures Raw(g, d', f, c) == Raw(g, d, f, c)
  {
    EntryInFat(g, f, c);
  }

  lemma RelinkedData(g: Geometry, d: seq<byte>, d': seq<byte>, c: nat, next: nat, n: nat)
    requires Fits(g, d) && c < g.Entries() && n <= g.fatCount && Relinked(g, d, d', c, next, n)
    ensures View(g, d').data == View(g, d).data
  {
    forall i | 0 <= i < g.clusters
      ensures View(g, d').data[i] == View(g, d).data[i]
    {
      ClusterInData(g, i + 2);
      ClusterSame(g, d, d', i + 2);
    }
  }

  lemma RelinkedKept(g: Geometry, d: seq<byte>, d': seq<byte>, c: nat, next: nat)
    requires Fits(g, d) && c < g.Entries() && Relinked(g, d, d', c, next, g.fatCount)
    ensures Kept(g, d, d')
  {
    EntryInFat(g, 0, c);
    if CopiesAgree(g, d) {
      forall f, k | 0 <= f < g.fatCount && 0 <= k < g.Entries()
        ensures Raw(g, d', f, k) % LOW28 == Link(g, d', k)
      {
        assert Raw(g, d, f, k) % LOW28 == Link(g, d, k);
      }
    }
  }

  /** Setting a link in every copy is setting one element of the table, and is `Kept`. */
  lemma RelinkedView(g: Geometry, d: seq<byte>, d': seq<byte>, c: nat, next: nat)
    requires Fits(g, d) && c < g.Entries() && Relinked(g, d, d', c, next, g.fatCount)
    ensures Fits(g, d') && Kept(g, d, d')
    ensures View(g, d') == View(g, d).(table := View(g, d).table[c := next % LOW28])
  {
    RelinkedData(g, d, d', c, next, g.fatCount);
    RelinkedKept(g, d, d', c, next);
    assert View(g, d').table == View(g, d).table[c := next % LOW28];
  }

  lemma ClusterWrittenTable(g: Geometry, d: seq<byte>, d': seq<byte>)
    requires Fits(g, d) && |d'| == |d|
    requires forall b :: 0 <= b < g.DataStart() * SECTOR || g.Total() * SECTOR <= b < |d| ==> b < |d| && d'[b] == d[b]
    ensures Kept(g, d, d') && View(g, d').table == View(g, d).table
  {
    forall f, k | 0 <= f < g.fatCount && 0 <= k < g.Entries()
      ensures Raw(g, d', f, k) == Raw(g, d, f, k)
    {
      EntrySame(g, d, d', f, k);
    }
    assert g.fatStart <= g.DataStart();
    assert View(g, d').table == View(g, d).table;
  }

  lemma ClusterWrittenData(g: Geometry, d: seq<byte>, d': seq<byte>, c: nat, x: seq<byte>)
    requires Fits(g, d) && 2 <= c < g.End() && |x| == g.Bpc() && |d'| == |d|
    requires g.ClusterOffset(c) + g.Bpc() <= |d| && d' == Splice(d, g.ClusterOffset(c), x)
    ensures View(g, d').data == View(g, d).data[c - 2 := x]
  {
    forall i | 0 <= i < g.clusters
      ensures View(g, d').data[i] == View(g, d).data[c - 2 := x][i]
    {
      if i + 2 < c {
        ClustersApart(g, i + 2, c);
        ClusterSame(g, d, d', i + 2);
      } else if c < i + 2 {
        ClustersApart(g, c, i + 2);
        ClusterSame(g, d, d', i + 2);
      } else {
        assert Cluster(g, d', c) == x;
      }
    }
  }

  /** Overwriting one cluster changes that cluster and nothing else. */
  lemma ClusterWrittenView(g: Geometry, d: seq<byte>, c: nat, x: seq<byte>)
    requires Fits(g, d) && 2 <= c < g.End() && |x| == g.Bpc()
    ensures g.ClusterOffset(c) + g.Bpc() <= |d|
    ensures var d' := Splice(d, g.ClusterOffset(c), x);
            Fits(g, d') && Kept(g, d, d') && View(g, d') == View(g, d).(data := View(g, d).data[c - 2 := x])
  {
    ClusterInData(g, c);
    var d' := Splice(d, g.ClusterOffset(c), x);
    ClusterWrittenTable(g, d, d');
    ClusterWrittenData(g, d, d', c, x);
  }
}
