/** Writing the disk image (tools/package_toolchain_disk.py:63-221). */
module ImageBuilder {
  import opened Bytes
  import opened FatTable
  import opened FatChains
  import opened FatContents
  import opened FatDirent
  import opened FatDirectory
  import opened FatDirOps
  import opened ImageLayout

  /** `disk_data` and `allocated_clusters` while the image is being built. */
  class DiskImage {
    var disk: seq<byte>
    var links: seq<nat>
    ghost var data: seq<seq<byte>>  // the clusters the disk holds

    ghost predicate Valid()
      reads this
    {
      && Fits(IMAGE, disk) && data == View(IMAGE, disk).data && HoldsParameters(disk)
      && FIRST_FILE <= |links| <= IMAGE.End()
      && (forall c :: 0 <= c < |links| ==> links[c] < LOW28 && LinkInRange(IMAGE, links[c]))
      && Unwritten(data, |links|)
    }

    /** The reserved entries, the root and the four directories, one cluster each. */
    constructor ()
      ensures Valid() && links == [EOC] + seq(6, _ => END_MARK)
    {
      disk := BootSectors();
      links := [EOC] + seq(6, _ => END_MARK);
      data := View(IMAGE, BootSectors()).data;
      new;
      BlankClusters();
    }

    method AllocCluster() returns (c: nat)
      requires Valid() && |links| < IMAGE.End()
      modifies this
      ensures Valid() && c == |old(links)| && links == old(links) + [END_MARK]
      ensures data == old(data) && disk == old(disk)
    {
      hide View, Fits, HoldsParameters;
      c := |links|;
      links := links + [END_MARK];
    }

    method LinkClusters(c1: nat, c2: nat)
      requires Valid() && c1 < |links| && c2 < IMAGE.End()
      modifies this
      ensures Valid() && links == old(links)[c1 := c2] && data == old(data) && disk == old(disk)
    {
      hide View, Fits, HoldsParameters;
      links := links[c1 := c2];
    }

    method WriteClusterData(c: nat, x: seq<byte>)
      requires Valid() && 2 <= c < |links| && |x| <= CLUSTER
      modifies this
      ensures Valid() && links == old(links)
      ensures |old(data)| == IMAGE.clusters && |old(data)[c - 2]| == CLUSTER
              && data == old(data)[c - 2 := Splice(old(data)[c - 2], 0, x)]
    {
      hide View, Fits, Splice, HoldsParameters;
      PartWritten(disk, c, x);
      DiskSize(disk);
      ParametersStay(disk, 2592 * SECTOR + (c - 2) * CLUSTER, x);
      disk := Splice(disk, 2592 * SECTOR + (c - 2) * CLUSTER, x);
      data := data[c - 2 := Splice(data[c - 2], 0, x)];
    }

    /** One turn of the loop at lines 190-195: a new cluster, linked from the one before, filled with `part`. */
    method AppendChunk(curr: nat, part: seq<byte>) returns (next: nat)
      requires Valid() && |links| < IMAGE.End() && curr < |links| && |part| <= CLUSTER
      modifies this
      ensures Valid() && next == |old(links)| && links == (old(links) + [END_MARK])[curr := next]
      ensures |old(data)| == IMAGE.clusters && data == old(data)[next - 2 := Splice(Zeros(CLUSTER), 0, part)]
    {
      hide View, Fits, Unwritten, Splice, HoldsParameters;
      ImageGeometry();
      NextIsBlank(data, |links|);
      next := AllocCluster();
      LinkClusters(curr, next);
      WriteClusterData(next, part);
    }

    /** Lines 184-195: stores one file in as many new clusters as it needs, linked in order. */
    method AddFile(x: seq<byte>) returns (start: nat)
      requires Valid() && |links| + Needed(|x|) <= IMAGE.End()
      modifies this
      ensures Valid() && start == |old(links)| && links == old(links) + Links(start, Needed(|x|))
      ensures ChunksAdded(old(data), data, start, x, Needed(|x|))
    {
      hide View, Fits, HoldsParameters, Links, Chunk, Unwritten, Needed, ChunksAdded, Splice;
      ghost var before, chunks := links, data;
      ImageGeometry();
      NeedsOne(|x|);
      NextIsBlank(data, |links|);
      start := AllocCluster();
      var curr := start;
      FirstChunk(x);
      WriteClusterData(curr, x[..Min(|x|, CLUSTER)]);
      LinksOne(before);
      ChunksFirst(chunks, data, start, x);
      var ci := 1;
      while ci < Needed(|x|)
        invariant Valid() && 1 <= ci <= Needed(|x|) && curr == start + ci - 1
        invariant |links| == start + ci && links == before + Links(start, ci)
        invariant ChunksAdded(chunks, data, start, x, ci)
      {
        ghost var now := data;
        ChunkWritten(x, ci);
        LinksStep(before, start, ci);
        curr := AppendChunk(curr, x[Min(|x|, ci * CLUSTER)..Min(|x|, (ci + 1) * CLUSTER)]);
        ChunksStep(chunks, now, data, start, x, ci);
        ci := ci + 1;
      }
    }

    /** Lines 214-221: both copies of the table. */
    method WriteTables()
      requires Valid()
      modifies this
      ensures Valid() && links == old(links) && data == old(data)
      ensures forall f, c :: 0 <= f < 2 && 0 <= c < IMAGE.Entries() ==> Raw(IMAGE, disk, f, c) == if c < |links|
              then links[c] else 0
    {
      hide View, Fits, Unwritten, Splice, Raw, Le32, HoldsParameters;
      ImageGeometry();
      var fatBuf := PackTable(links);
      TablesWritten(disk, fatBuf);
      DiskSize(disk);
      ParametersStay(disk, 2080 * SECTOR, fatBuf);
      ParametersStay(Splice(disk, 2080 * SECTOR, fatBuf), 2336 * SECTOR, fatBuf);
      disk := Splice(disk, 2080 * SECTOR, fatBuf);
      disk := Splice(disk, 2336 * SECTOR, fatBuf);
    }
  }

  /** Clusters `start`, `start + 1`, ... were overwritten by the first `n` chunks of `x`. */
  ghost predicate ChunksAdded(data: seq<seq<byte>>, data': seq<seq<byte>>, start: nat, x: seq<byte>, n: nat) {
    && |data'| == |data| && 2 <= start && start + n <= |data| + 2
    && forall i :: 0 <= i < |data| ==> data'[i] == if start <= i + 2 < start + n then Chunk(x, i + 2 - start)
    else data[i]
  }

  lemma ChunksFirst(data: seq<seq<byte>>, data': seq<seq<byte>>, start: nat, x: seq<byte>)
    requires 2 <= start < |data| + 2 && data' == data[start - 2 := Chunk(x, 0)]
    ensures ChunksAdded(data, data', start, x, 1)
  {
  }

  lemma ChunksStep(data: seq<seq<byte>>, now: seq<seq<byte>>, data': seq<seq<byte>>, start: nat, x: seq<byte>, n: nat)
    requires ChunksAdded(data, now, start, x, n) && start + n < |data| + 2 && data' == now[start + n - 2 := Chunk(x, n)]
    ensures ChunksAdded(data, data', start, x, n + 1)
  {
    hide Chunk;
  }

  lemma NeedsOne(n: nat)
    ensures Needed(n) >= 1
  {
  }

  lemma NextIsBlank(data: seq<seq<byte>>, n: nat)
    requires Unwritten(data, n) && 2 <= n
    ensures |data| == IMAGE.clusters && (n < IMAGE.End() ==> data[n - 2] == Zeros(CLUSTER))
  {
  }

  lemma ChunkWritten(x: seq<byte>, k: nat)
    ensures var part := x[Min(|x|, k * CLUSTER)..Min(|x|, (k + 1) * CLUSTER)];
            |part| <= CLUSTER && Splice(Zeros(CLUSTER), 0, part) == Chunk(x, k)
  {
  }

  lemma FirstChunk(x: seq<byte>)
    ensures Splice(Zeros(CLUSTER), 0, x[..Min(|x|, CLUSTER)]) == Chunk(x, 0)
  {
    ChunkWritten(x, 0);
  }

  lemma LinksOne(before: seq<nat>)
    ensures before + [END_MARK] == before + Links(|before|, 1)
  {
    assert Links(|before|, 1) == [END_MARK];
  }

  lemma LinksStep(before: seq<nat>, start: nat, n: nat)
    requires n >= 1
    ensures (before + Links(start, n) + [END_MARK])[|before| + n - 1 := start + n] == before + Links(start, n + 1)
  {
  }

  // ---- the tables ----

  const TABLE := 256 * SECTOR

  /** The table in bytes: `struct.pack_into` entry by entry. */
  method PackTable(links: seq<nat>) returns (buf: seq<byte>)
    requires |links| <= IMAGE.Entries() && forall c :: 0 <= c < |links| ==> links[c] < LOW28
    ensures |buf| == TABLE
    ensures forall c :: 0 <= c < IMAGE.Entries() ==> Le32(buf, 4 * c) == if c < |links| then links[c] else 0
  {
    hide Le32, Splice, PutLe32;
    ImageGeometry();
    buf := Zeros(TABLE);
    ZeroField();
    var idx := 0;
    while idx < |links|
      invariant 0 <= idx <= |links| && |buf| == TABLE
      invariant forall c :: 0 <= c < IMAGE.Entries() ==> Le32(buf, 4 * c) == if c < idx then links[c] else 0
    {
      forall c | 0 <= c < IMAGE.Entries()
        ensures Le32(Splice(buf, 4 * idx, PutLe32(links[idx])), 4 * c) == if c == idx then links[idx]
                else Le32(buf, 4 * c)
      {
        FieldPut(buf, idx, links[idx], c);
      }
      buf := Splice(buf, 4 * idx, PutLe32(links[idx]));
      idx := idx + 1;
    }
  }

  lemma ZeroField()
    ensures forall c :: 0 <= c < IMAGE.Entries() ==> Le32(Zeros(TABLE), 4 * c) == 0
  {
  }

  lemma FieldPut(buf: seq<byte>, i: nat, v: nat, c: nat)
    requires |buf| == TABLE && 4 * i + 4 <= TABLE && 4 * c + 4 <= TABLE && v < U32
    ensures Le32(Splice(buf, 4 * i, PutLe32(v)), 4 * c) == if c == i then v else Le32(buf, 4 * c)
  {
    var x := Splice(buf, 4 * i, PutLe32(v));
    assert x[4 * i..4 * i + 4] == PutLe32(v);
  }

  /** Writing both copies changes no cluster, and entry `c` of each copy is field `c` of the buffer. */
  lemma TablesWritten(d: seq<byte>, buf: seq<byte>)
    requires Fits(IMAGE, d) && |buf| == TABLE
    ensures 2336 * SECTOR + TABLE <= |d|
    ensures var d' := Splice(Splice(d, 2080 * SECTOR, buf), 2336 * SECTOR, buf);
            && Fits(IMAGE, d') && View(IMAGE, d').data == View(IMAGE, d).data
            && forall f, c :: 0 <= f < 2 && 0 <= c < IMAGE.Entries() ==> Raw(IMAGE, d', f, c) == Le32(buf, 4 * c)
  {
    ImageGeometry();
    var d' := Splice(Splice(d, 2080 * SECTOR, buf), 2336 * SECTOR, buf);
    forall i | 0 <= i < IMAGE.clusters
      ensures View(IMAGE, d').data[i] == View(IMAGE, d).data[i]
    {
      ClusterInData(IMAGE, i + 2);
      ClusterSame(IMAGE, d, d', i + 2);
    }
    forall f, c | 0 <= f < 2 && 0 <= c < IMAGE.Entries()
      ensures Raw(IMAGE, d', f, c) == Le32(buf, 4 * c)
    {
      EntryInFat(IMAGE, f, c);
      assert IMAGE.EntryOffset(f, c) == (2080 + 256 * f) * SECTOR + 4 * c;
    }
  }

  /** The first sector of the disk is the master boot record, that of the partition the parameter block. */
  ghost predicate HoldsParameters(d: seq<byte>) {
    && |d| == 65536 * SECTOR && d[2048 * SECTOR..2049 * SECTOR] == ParameterBlock()
    && d[..SECTOR] == MasterBootRecord() && d[SECTOR..2 * SECTOR] == Zeros(SECTOR)
  }

  lemma DiskSize(d: seq<byte>)
    requires HoldsParameters(d)
    ensures |d| == 65536 * SECTOR
  {
  }

  lemma ParametersStay(d: seq<byte>, o: nat, x: seq<byte>)
    requires HoldsParameters(d) && 2049 * SECTOR <= o && o + |x| <= |d|
    ensures HoldsParameters(Splice(d, o, x))
  {
    hide ParameterBlock, MasterBootRecord;
    var d' := Splice(d, o, x);
    assert d'[2048 * SECTOR..2049 * SECTOR] == d[2048 * SECTOR..2049 * SECTOR];
    assert d'[..SECTOR] == d[..SECTOR] && d'[SECTOR..2 * SECTOR] == d[SECTOR..2 * SECTOR];
  }

  /** Clusters that were never handed out are still zero. */
  ghost predicate Unwritten(data: seq<seq<byte>>, n: nat) {
    |data| == IMAGE.clusters && forall i :: n - 2 <= i < IMAGE.clusters && i >= 0 ==> data[i] == Zeros(CLUSTER)
  }

  // ---- the boot sectors ----

  /** The BIOS parameter block, lines 93-115. */
  function ParameterBlock(): (b: seq<byte>)
    ensures |b| == SECTOR
  {
    var head := [0xEB, 0x58, 0x90] + [0x4D, 0x53, 0x57, 0x49, 0x4E, 0x34, 0x2E,
                                      0x31] + PutLe16(512) + [8] + PutLe16(32) + [2] + Zeros(4) + [0xF8] + Zeros(2);
    var middle := PutLe16(63) + PutLe16(255) + PutLe32(2048) + PutLe32(63488) + PutLe32(256) + Zeros(4) + PutLe32(ROOT);
    var tail := PutLe16(1) + PutLe16(6) + Zeros(12) + [0x80, 0x00, 0x29] + PutLe32(0x47434331)
      + [0x5A, 0x57, 0x45, 0x49, 0x54, 0x4F, 0x4F, 0x4C, 0x53, 0x20, 0x20] + [0x46, 0x41, 0x54, 0x33, 0x32, 0x20, 0x20,
          0x20];
    head + middle + tail + Zeros(420) + [0x55, 0xAA]
  }

  /** The partition entry of the master boot record, lines 82-89. */
  function MasterBootRecord(): (b: seq<byte>)
    ensures |b| == SECTOR
  {
    Zeros(446) + [0x80, 0x01] + PutLe16(0x0001) + [0x0C,
                                                   0xFE] + PutLe16(0xFFFF) + PutLe32(2048) + PutLe32(63488) + Zeros(48)
                                                   + [0x55, 0xAA]
  }

  function BootSectors(): (d: seq<byte>)
    ensures |d| == 65536 * SECTOR
  {
    var d := Zeros(65536 * SECTOR);
    Splice(Splice(Splice(d, 0, MasterBootRecord()), 2048 * SECTOR, ParameterBlock()), 2054 * SECTOR, ParameterBlock())
  }

  lemma BlankClusters()
    ensures HoldsParameters(BootSectors()) && Fits(IMAGE, BootSectors())
            && Unwritten(View(IMAGE, BootSectors()).data, 2)
  {
    hide MasterBootRecord, ParameterBlock;
    var d := BootSectors();
    ImageGeometry();
    assert d[2048 * SECTOR..2049 * SECTOR] == ParameterBlock();
    assert d[..SECTOR] == MasterBootRecord() && d[SECTOR..2 * SECTOR] == Zeros(SECTOR);
    assert forall b :: 2055 * SECTOR <= b < |d| ==> d[b] == 0;
    forall i | 0 <= i < IMAGE.clusters
      ensures View(IMAGE, d).data[i] == Zeros(CLUSTER)
    {
      ImageOffset(i + 2);
      assert Cluster(IMAGE, d, i + 2) == Zeros(CLUSTER);
    }
  }

  /** Writing part of a cluster. */
  lemma PartWritten(d: seq<byte>, c: nat, x: seq<byte>)
    requires Fits(IMAGE, d) && 2 <= c < IMAGE.End() && |x| <= CLUSTER
    ensures var o := 2592 * SECTOR + (c - 2) * CLUSTER;
            && o + |x| <= |d| && Fits(IMAGE, Splice(d, o, x)) && |View(IMAGE, d).data[c - 2]| == CLUSTER
            && View(IMAGE, Splice(d, o, x)).data == View(IMAGE,
                                                         d).data[c - 2 := Splice(View(IMAGE, d).data[c - 2], 0, x)]
  {
    hide Kept, Splice;
    ImageOffset(c);
    ImageGeometry();
    ClusterIs(IMAGE, d, c);
    SpliceInside(d, IMAGE.ClusterOffset(c), CLUSTER, 0, x);
    ClusterWrittenView(IMAGE, d, c, Splice(View(IMAGE, d).data[c - 2], 0, x));
  }

  // ---- directories ----

  lemma DirentFields(buf: seq<byte>, o: nat, r: Record)
    requires o + ENTRY_SIZE <= |buf| && EntryIn(buf, o) == Zeros(ENTRY_SIZE) && r.start < U32 && r.size < U32
    ensures var b1 := Splice(buf, o, BuilderName(r.name))[o + 11 := r.attributes];
            var b2 := Splice(Splice(b1, o + 20, PutLe16(r.start / U16)), o + 26, PutLe16(r.start % U16));
            Splice(b2, o + 28, PutLe32(r.size)) == Splice(buf, o, DiskEntry(r))
  {
    hide BuilderName, PutLe16, PutLe32;
    var b1 := Splice(buf, o, BuilderName(r.name))[o + 11 := r.attributes];
    var b2 := Splice(Splice(b1, o + 20, PutLe16(r.start / U16)), o + 26, PutLe16(r.start % U16));
    var b, e := Splice(b2, o + 28, PutLe32(r.size)), DiskEntry(r);
    forall k | 0 <= k < |buf|
      ensures b[k] == Splice(buf, o, e)[k]
    {
      if o <= k < o + ENTRY_SIZE {
        assert EntryIn(buf, o)[k - o] == buf[k];
      }
    }
  }

  /** Lines 143-151. */
  method Write83Dirent(buf: seq<byte>, o: nat, r: Record) returns (b: seq<byte>)
    requires o + ENTRY_SIZE <= |buf| && EntryIn(buf, o) == Zeros(ENTRY_SIZE) && r.start < U32 && r.size < U32
    ensures b == Splice(buf, o, DiskEntry(r))
  {
    hide Splice, BuilderName, DiskEntry, PutLe16, PutLe32, EntryIn;
    DirentFields(buf, o, r);
    b := Splice(buf, o, BuilderName(r.name));
    b := b[o + 11 := r.attributes];
    b := Splice(b, o + 20, PutLe16(r.start / U16));
    b := Splice(b, o + 26, PutLe16(r.start % U16));
    b := Splice(b, o + 28, PutLe32(r.size));
  }

  const MAX_RECORDS := 128

  /** A cluster that holds the records `rs` and nothing else. */
  ghost predicate HoldsRecords(buf: seq<byte>, rs: seq<Record>) {
    && |buf| == CLUSTER && |rs| <= MAX_RECORDS && RecordsFit(rs)
    && EntriesOf(buf) == DiskEntries(rs) + ZeroEntries(MAX_RECORDS - |rs|)
  }

  lemma NoRecords()
    ensures HoldsRecords(Zeros(CLUSTER), [])
  {
    EntriesOfZeros(MAX_RECORDS);
  }

  lemma NextRecord(buf: seq<byte>, rs: seq<Record>, r: Record)
    requires HoldsRecords(buf, rs) && |rs| < MAX_RECORDS && r.start < U32 && r.size < U32
    ensures |rs| * ENTRY_SIZE + ENTRY_SIZE <= |buf| && EntryIn(buf, |rs| * ENTRY_SIZE) == Zeros(ENTRY_SIZE)
    ensures HoldsRecords(Splice(buf, |rs| * ENTRY_SIZE, DiskEntry(r)), rs + [r])
  {
    hide DiskEntry, Splice;
    var es := EntriesOf(buf);
    assert es[|rs|] == ZeroEntries(MAX_RECORDS - |rs|)[0] == Zeros(ENTRY_SIZE);
    EntriesSpliced(buf, |rs|, DiskEntry(r));
    var now := EntriesOf(Splice(buf, |rs| * ENTRY_SIZE, DiskEntry(r)));
    var want := DiskEntries(rs + [r]) + ZeroEntries(MAX_RECORDS - |rs| - 1);
    assert |now| == |want|;
    forall i | 0 <= i < MAX_RECORDS
      ensures now[i] == want[i]
    {
    }
  }

  /** The buffer of one directory, lines 202-211. */
  method DirectoryBuffer(rs: seq<Record>) returns (buf: seq<byte>)
    requires |rs| <= MAX_RECORDS && RecordsFit(rs)
    ensures HoldsRecords(buf, rs)
  {
    hide HoldsRecords, DiskEntry, Splice, EntryIn;
    buf := Zeros(CLUSTER);
    NoRecords();
    assert rs[..0] == [];
    var idx: nat := 0;
    while idx < |rs|
      invariant idx <= |rs| && HoldsRecords(buf, rs[..idx])
    {
      NextRecord(buf, rs[..idx], rs[idx]);
      assert rs[..idx] + [rs[idx]] == rs[..idx + 1];
      buf := Write83Dirent(buf, idx * ENTRY_SIZE, rs[idx]);
      idx := idx + 1;
    }
    assert rs[..idx] == rs;
  }

  // ---- the whole image ----

  /** The k-th file in the links and clusters of an image under construction. */
  ghost predicate FileIn(files: seq<File>, k: nat, links: seq<nat>, data: seq<seq<byte>>)
    requires k < |files|
  {
    var start, n := StartOf(files, k), Needed(|files[k].data|);
    && start + n <= |links| && start + n <= |data| + 2 && links[start..start + n] == Links(start, n)
    && forall i {:trigger data[i]} :: start - 2 <= i < start - 2 + n ==> data[i] == Chunk(files[k].data, i + 2 - start)
  }

  /** The first `k` files are stored, one after the other. */
  ghost predicate FilesIn(files: seq<File>, k: nat, links: seq<nat>, data: seq<seq<byte>>)
    requires k <= |files|
  {
    && |links| == StartOf(files, k) && |data| == IMAGE.clusters && links[..FIRST_FILE] == [EOC] + seq(6, _ => END_MARK)
    && forall i :: 0 <= i < k ==> FileIn(files, i, links, data)
  }

  lemma FileAdded(files: seq<File>, k: nat, links: seq<nat>, data: seq<seq<byte>>, links': seq<nat>,
                  data': seq<seq<byte>>)
    requires k < |files| && FilesIn(files, k, links, data)
    requires links' == links + Links(|links|, Needed(|files[k].data|))
    requires ChunksAdded(data, data', |links|, files[k].data, Needed(|files[k].data|))
    ensures FilesIn(files, k + 1, links', data')
  {
    hide Links, Chunk, Needed;
    var n := Needed(|files[k].data|);
    assert StartOf(files, k + 1) == |links| + n;
    assert links'[..FIRST_FILE] == links[..FIRST_FILE];
    forall i | 0 <= i < k + 1
      ensures FileIn(files, i, links', data')
    {
      if i < k {
        StartsGrow(files, i, k);
        var start, m := StartOf(files, i), Needed(|files[i].data|);
        assert FileIn(files, i, links, data);
        assert links'[start..start + m] == links[start..start + m];
      }
    }
  }

  /** Writing the directory clusters does not disturb the files. */
  lemma FilesStay(files: seq<File>, links: seq<nat>, data: seq<seq<byte>>, data': seq<seq<byte>>)
    requires FilesIn(files, |files|, links, data) && |data'| == |data|
    requires forall i :: FIRST_FILE - 2 <= i < |data| ==> data'[i] == data[i]
    ensures FilesIn(files, |files|, links, data')
  {
    hide Links, Chunk, Needed;
    forall i | 0 <= i < |files|
      ensures FileIn(files, i, links, data')
    {
      assert FileIn(files, i, links, data);
    }
  }

  /** Files that fit the data area have small records. */
  lemma {:induction false} RecordsAreSmall(files: seq<File>, k: nat, d: nat)
    requires k <= |files| && PathsOk(files) && StartOf(files, k) <= IMAGE.End() && d < 5
    ensures RecordsFit(Records(files, k, d)) && RecordsFit(AllRecords(d, Records(files, k, d)))
  {
    hide PathParts, DirectoryOf, FileNameOf;
    if k > 0 {
      RecordsAreSmall(files, k - 1, d);
    }
  }

  /** Files the builder can lay out: every path has a part, the data area holds all clusters, and every
      directory fits its one cluster. */
  ghost predicate Packable(files: seq<File>) {
    && PathsOk(files) && StartOf(files, |files|) <= IMAGE.End()
    && forall d :: 0 <= d < 5 ==> |AllRecords(d, Records(files, |files|, d))| <= MAX_RECORDS
  }

  /** The directories' clusters 2 to 6 below `n` hold their records. */
  ghost predicate DirectoriesIn(files: seq<File>, n: nat, data: seq<seq<byte>>)
    requires PathsOk(files)
  {
    |data| == IMAGE.clusters && n <= 5 && forall d :: 0 <= d < n ==>
        HoldsRecords(data[d], AllRecords(d, Records(files, |files|, d)))
  }

  lemma DirectoryAdded(files: seq<File>, n: nat, data: seq<seq<byte>>, buf: seq<byte>)
    requires PathsOk(files) && DirectoriesIn(files, n, data) && n < 5
             && HoldsRecords(buf, AllRecords(n, Records(files, |files|, n)))
    ensures DirectoriesIn(files, n + 1, data[n := buf])
  {
    hide HoldsRecords, AllRecords, Records;
  }

  lemma WholeCluster(before: seq<byte>, buf: seq<byte>)
    requires |before| == |buf|
    ensures Splice(before, 0, buf) == buf
  {
  }

  lemma BufferSize(buf: seq<byte>, rs: seq<Record>)
    requires HoldsRecords(buf, rs)
    ensures |buf| == CLUSTER
  {
  }

  /** The table of the finished image. */
  ghost predicate TablesHold(d: seq<byte>, links: seq<nat>) {
    Fits(IMAGE, d) && forall f, c :: 0 <= f < 2 && 0 <= c < IMAGE.Entries() ==>
        Raw(IMAGE, d, f, c) == if c < |links| then links[c] else 0
  }

  /** What `dirs` holds after `k` files. */
  ghost predicate DirsHold(files: seq<File>, k: nat, dirs: seq<seq<Record>>)
    requires k <= |files| && PathsOk(files)
  {
    |dirs| == 5 && forall d :: 0 <= d < 5 ==> dirs[d] == Records(files, k, d)
  }

  lemma DirsStart(files: seq<File>)
    requires PathsOk(files)
    ensures DirsHold(files, 0, [RootRecords(), [], [], [], []])
  {
  }

  lemma DirsGrow(files: seq<File>, k: nat, dirs: seq<seq<Record>>)
    requires k < |files| && PathsOk(files) && DirsHold(files, k, dirs)
    ensures PathParts(files[k].path) != [] && |dirs| == 5
    ensures var d := DirectoryOf(PathParts(files[k].path));
            DirsHold(files, k + 1, if d < 0 then dirs else dirs[d := dirs[d] + [RecordOf(files, k)]])
  {
    hide RecordOf, PathParts;
    forall d | 0 <= d < 5
      ensures Records(files, k + 1, d) == if DirectoryOf(PathParts(files[k].path)) == d
              then dirs[d] + [RecordOf(files, k)] else dirs[d]
    {
      assert Records(files, k, d) == dirs[d];
    }
  }

  lemma {:induction false} StartsBelow(files: seq<File>, k: nat)
    requires k < |files|
    ensures StartOf(files, k) + Needed(|files[k].data|) <= StartOf(files, |files|)
  {
    StartsGrow(files, k, |files|);
  }

  /** The whole of generate_fat32_image. */
  method BuildImage(files: seq<File>) returns (image: DiskImage)
    requires Packable(files)
    ensures fresh(image) && image.Valid() && TablesHold(image.disk, image.links)
    ensures FilesIn(files, |files|, image.links, image.data) && PathsOk(files) && DirectoriesIn(files, 5, image.data)
  {
    hide View, Fits, HoldsParameters, Unwritten, FilesIn, DirectoriesIn, Records, AllRecords, HoldsRecords, Needed,
         Links, ChunksAdded, RecordOf, PathParts, DirsHold, Splice, Raw;
    image := new DiskImage();
    ImageGeometry();
    FilesStart(files, image.links, image.data);
    DirsStart(files);
    var dirs := [RootRecords(), [], [], [], []];
    var k := 0;
    while k < |files|
      invariant 0 <= k <= |files| && image.Valid() && FilesIn(files, k, image.links, image.data)
                && DirsHold(files, k, dirs)
    {
      ghost var links, data := image.links, image.data;
      DirsGrow(files, k, dirs);
      StartsBelow(files, k);
      FilesCount(files, k, image.links, image.data);
      var parts := PathParts(files[k].path);
      var d, name := DirectoryOf(parts), FileNameOf(parts);
      var start := image.AddFile(files[k].data);
      FileAdded(files, k, links, data, image.links, image.data);
      RecordIs(files, k);
      dirs := AppendRecord(dirs, d, Record(name, ATTR_ARCHIVE, start, |files[k].data|));
      k := k + 1;
    }
    StoreDirectories(image, files, dirs);
    image.WriteTables();
  }

  /** Lines 200-212, for the five directories. */
  method StoreDirectories(image: DiskImage, ghost files: seq<File>, dirs: seq<seq<Record>>)
    requires image.Valid() && Packable(files) && FilesIn(files, |files|, image.links, image.data)
             && DirsHold(files, |files|, dirs)
    modifies image
    ensures image.Valid() && image.links == old(image.links)
    ensures FilesIn(files, |files|, image.links, image.data) && DirectoriesIn(files, 5, image.data)
  {
    hide View, Fits, HoldsParameters, Unwritten, FilesIn, Records, AllRecords, HoldsRecords, Splice, StartOf,
         DirectoriesIn;
    var d: nat := 0;
    FilesCount(files, |files|, image.links, image.data);
    NoDirectories(files, image.data);
    while d < 5
      invariant 0 <= d <= 5 && image.Valid() && image.links == old(image.links) && |image.data| == IMAGE.clusters
      invariant DirectoriesIn(files, d, image.data)
      invariant forall i :: FIRST_FILE - 2 <= i < |image.data| ==> image.data[i] == old(image.data)[i]
    {
      RecordsAreSmall(files, |files|, d);
      var rs := AllRecords(d, dirs[d]);
      var buf := DirectoryBuffer(rs);
      BufferSize(buf, rs);
      DirectoryAdded(files, d, image.data, buf);
      ghost var data := image.data;
      image.WriteClusterData(ROOT + d, buf);
      WholeCluster(data[d], buf);
      d := d + 1;
    }
    FilesStay(files, image.links, old(image.data), image.data);
  }

  lemma NoDirectories(files: seq<File>, data: seq<seq<byte>>)
    requires PathsOk(files) && |data| == IMAGE.clusters
    ensures DirectoriesIn(files, 0, data)
  {
  }

  method AppendRecord(dirs: seq<seq<Record>>, d: int, r: Record) returns (after: seq<seq<Record>>)
    requires |dirs| == 5 && -1 <= d < 5
    ensures after == if d < 0 then dirs else dirs[d := dirs[d] + [r]]
  {
    after := if d >= 0 then dirs[d := dirs[d] + [r]] else dirs;
  }

  lemma RecordIs(files: seq<File>, k: nat)
    requires k < |files| && PathParts(files[k].path) != []
    ensures RecordOf(files, k) == Record(FileNameOf(PathParts(files[k].path)), ATTR_ARCHIVE, StartOf(files, k),
                                         |files[k].data|)
  {
  }

  lemma FilesCount(files: seq<File>, k: nat, links: seq<nat>, data: seq<seq<byte>>)
    requires k <= |files| && FilesIn(files, k, links, data)
    ensures |links| == StartOf(files, k) && |data| == IMAGE.clusters
  {
  }

  lemma FilesStart(files: seq<File>, links: seq<nat>, data: seq<seq<byte>>)
    requires links == [EOC] + seq(6, _ => END_MARK) && |data| == IMAGE.clusters
    ensures FilesIn(files, 0, links, data)
  {
  }
}
