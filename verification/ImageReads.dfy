/** What the kernel reads from an image the builder made. */
module ImageReads {
  import opened Bytes
  import opened FatTable
  import opened FatChains
  import opened FatContents
  import opened FatDriver
  import opened FatDirent
  import opened FatFile
  import opened FatNames
  import opened FatDirectory
  import opened FatDirOps
  import opened ImageLayout
  import opened ImageBuilder
  import Partitions
  import Paths

  /** A finished image: the tables hold the links, the clusters the files and directories. */
  ghost predicate Finished(files: seq<File>, d: seq<byte>) {
    && Packable(files) && Fits(IMAGE, d) && |d| == 65536 * SECTOR
    && exists links: seq<nat> :: LinksOk(links) && TablesHold(d, links)
                                 && FilesIn(files, |files|, links, View(IMAGE, d).data)
                                 && DirectoriesIn(files, 5, View(IMAGE, d).data)
  }

  ghost predicate LinksOk(links: seq<nat>) {
    FIRST_FILE <= |links| <= IMAGE.End() && forall c :: 0 <= c < |links| ==> links[c] < LOW28
                                                                             && LinkInRange(IMAGE, links[c])
  }

  lemma TableIs(d: seq<byte>, links: seq<nat>)
    requires TablesHold(d, links) && LinksOk(links)
    ensures Fits(IMAGE, d) && |View(IMAGE, d).table| == IMAGE.Entries()
    ensures forall c :: 0 <= c < IMAGE.Entries() ==> View(IMAGE, d).table[c] == if c < |links| then links[c] else FREE
    ensures CopiesAgree(IMAGE, d) && LinksInRange(IMAGE, View(IMAGE, d).table)
  {
    hide Fits;
    ImageGeometry();
    forall c | 0 <= c < IMAGE.Entries()
      ensures Link(IMAGE, d, c) == if c < |links| then links[c] else FREE
    {
      assert Raw(IMAGE, d, 0, c) == if c < |links| then links[c] else 0;
    }
  }

  /** Every file has a complete chain of its own, and the clusters on it hold its bytes followed by zeros. */
  lemma FileOnImage(files: seq<File>, d: seq<byte>, k: nat)
    requires Finished(files, d) && k < |files|
    ensures IsChain(IMAGE, View(IMAGE, d).table, ChainOf(files, k)) && ChainOf(files, k)[0] == StartOf(files, k)
    ensures InData(View(IMAGE, d), ChainOf(files, k))
    ensures |files[k].data| <= Needed(|files[k].data|) * CLUSTER
    ensures Contents(View(IMAGE, d),
                     ChainOf(files, k)) == files[k].data + Zeros(Needed(|files[k].data|) * CLUSTER - |files[k].data|)
  {
    hide DirectoriesIn, Chunk, Contents, Needed, Links, PathsOk, View, Fits, TablesHold, LinksOk;
    var v := View(IMAGE, d);
    var links: seq<nat> :| LinksOk(links) && TablesHold(d, links) && FilesIn(files, |files|, links, v.data)
        && DirectoriesIn(files, 5, v.data);
    TableIs(d, links);
    ImageGeometry();
    var start, n, x := StartOf(files, k), Needed(|files[k].data|), files[k].data;
    assert FileIn(files, k, links, v.data);
    assert v.table[start..start + n] == links[start..start + n];
    LinksChain(v.table, start, n);
    assert forall i :: 0 <= i < n ==> v.data[start - 2 + i] == Chunk(x, i);
    ChunksContents(v, start, x, n, n);
    assert (x + Zeros(n * CLUSTER - |x|))[..n * CLUSTER] == x + Zeros(n * CLUSTER - |x|);
  }

  /** A directory is one cluster with its records. */
  lemma DirectoryOnImage(files: seq<File>, d: seq<byte>, n: nat)
    requires Finished(files, d) && n < 5
    ensures IsChain(IMAGE, View(IMAGE, d).table, [ROOT + n]) && InData(View(IMAGE, d), [ROOT + n])
    ensures RecordsFit(AllRecords(n, Records(files, |files|, n)))
            && |AllRecords(n, Records(files, |files|, n))| <= MAX_RECORDS
    ensures var rs := AllRecords(n, Records(files, |files|, n));
            DirEntries(View(IMAGE, d), [ROOT + n]) == DiskEntries(rs) + ZeroEntries(MAX_RECORDS - |rs|)
  {
    hide Chunk, Links, PathsOk, Records, AllRecords, EntriesOf, DiskEntries, RecordsFit;
    var v := View(IMAGE, d);
    var links: seq<nat> :| LinksOk(links) && TablesHold(d, links) && FilesIn(files, |files|, links, v.data)
        && DirectoriesIn(files, 5, v.data);
    TableIs(d, links);
    ImageGeometry();
    assert links[..FIRST_FILE][ROOT + n] == links[ROOT + n] == END_MARK;
    assert HoldsRecords(v.data[n], AllRecords(n, Records(files, |files|, n)));
    assert Contents(v, [ROOT + n]) == v.data[n] + Contents(v, []);
    assert v.data[n] + [] == v.data[n];
  }

  lemma ClipPadded(x: seq<byte>, zeros: seq<byte>, offset: nat, size: nat)
    ensures Clip(x + zeros, offset, Wanted(false, |x|, offset, size)) == Clip(x, offset, size)
  {
  }

  // ---- mounting ----

  datatype Probe = NotFat | Fat(g: Geometry, root: nat)

  /** Sector and cluster numbers in 32-bit arithmetic. */
  function DataStartOf(fatStart: nat, fatCount: nat, fatSize: nat): nat { (fatStart + fatCount * fatSize) % U32 }

  function ClusterCount(total: int, dataStart: nat, startLba: nat, spc: nat): nat
    requires spc > 0
  {
    (total - (dataStart - startLba)) % U32 / spc
  }

  /** fat32_probe (kernel/fs/fat32.cpp:217-267) on the first sector of the partition. */
  method Fat32Probe(sector: seq<byte>, startLba: nat) returns (p: Probe)
    requires |sector| == SECTOR && startLba < LOW28
    ensures p == Probed(sector, startLba)
  {
    hide Le16, Le32, DataStartOf, ClusterCount;
    if Le16(sector, 510) != 0xAA55 { return NotFat; }
    var spc: nat, reserved, fatCount: nat := sector[13], Le16(sector, 14), sector[16];
    if Le16(sector, 11) != 512 || spc == 0 || reserved == 0 || fatCount == 0 { return NotFat; }
    var fatSize := if Le16(sector, 22) != 0 then Le16(sector, 22) else Le32(sector, 36);
    if fatSize == 0 || Le32(sector, 44) < 2 { return NotFat; }
    var fatStart := (startLba + reserved) % U32;
    var dataStart := DataStartOf(fatStart, fatCount, fatSize);
    var total := if Le16(sector, 19) != 0 then Le16(sector, 19) else Le32(sector, 32);
    p := Fat(Geometry(spc, fatStart, fatSize, fatCount, ClusterCount(total, dataStart, startLba, spc)),
             Le32(sector, 44));
  }

  /** What the probe answers, from the fields of the parameter block. */
  function Probed(sector: seq<byte>, startLba: nat): Probe
    requires |sector| == SECTOR
  {
    var spc, reserved, fatCount: nat := sector[13], Le16(sector, 14), sector[16];
    var fatSize := if Le16(sector, 22) != 0 then Le16(sector, 22) else Le32(sector, 36);
    var total := if Le16(sector, 19) != 0 then Le16(sector, 19) else Le32(sector, 32);
    var fatStart := (startLba + reserved) % U32;
    var dataStart := DataStartOf(fatStart, fatCount, fatSize);
    if Le16(sector, 510) == 0xAA55 && Le16(sector, 11) == 512 && spc > 0 && reserved > 0 && fatCount > 0 && fatSize > 0
        && Le32(sector, 44) >= 2
    then Fat(Geometry(spc, fatStart, fatSize, fatCount, ClusterCount(total, dataStart, startLba, spc)),
             Le32(sector, 44))
    else NotFat
  }

  lemma ParameterFields()
    ensures var b := ParameterBlock();
            && Le16(b, 11) == 512 && b[13] == 8 && Le16(b, 14) == 32 && b[16] == 2 && Le16(b, 19) == 0
            && Le16(b, 22) == 0
            && Le32(b, 32) == 63488 && Le32(b, 36) == 256 && Le32(b, 44) == ROOT && Le16(b, 510) == 0xAA55
  {
    hide PutLe16, PutLe32;
    var b := ParameterBlock();
    assert b[11..13] == PutLe16(512) && b[14..16] == PutLe16(32);
    assert b[32..36] == PutLe32(63488) && b[36..40] == PutLe32(256) && b[44..48] == PutLe32(ROOT);
  }

  lemma BootRecordFields()
    ensures var b := MasterBootRecord();
            && b[510..] == [0x55, 0xAA] && b[446] == 0x80 && b[450] == 0x0C && Le32(b, 454) == 2048
            && Le32(b, 458) == 63488
            && forall i :: 462 <= i < 510 ==> b[i] == 0
  {
    hide PutLe16, PutLe32;
    var b := MasterBootRecord();
    assert b[454..458] == PutLe32(2048) && b[458..462] == PutLe32(63488);
  }

  /** The kernel finds one partition on a built image: the one the image was laid out for. */
  lemma ProbeFindsThePartition(image: DiskImage)
    requires image.Valid()
    ensures Partitions.Probed(image.disk)
            == Partitions.Partitioned([Partitions.Partition(2048, 63488, true, Partitions.Fat32Kind)])
  {
    hide MasterBootRecord, ParameterBlock, Partitions.Detected, Partitions.DetectedAt;
    ImageParameters(image);
    var d := image.disk;
    var b := MasterBootRecord();
    BootRecordFields();
    assert d[0 * SECTOR..(0 + 1) * SECTOR] == b && d[1 * SECTOR..(1 + 1) * SECTOR] == Zeros(SECTOR);
    assert Partitions.TypeOf(b, 0) == 0x0C;
    assert Partitions.TypeOf(b, 1) == 0 && Partitions.TypeOf(b, 2) == 0 && Partitions.TypeOf(b, 3) == 0;
    assert Zeros(SECTOR)[0..0 + |Text("EFI PART")|][0] == 0;
    assert !Partitions.IsGuid(b, d);
    assert Partitions.Listed(b, d, 1) == [Partitions.Partition(2048, 63488, true, Partitions.Fat32Kind)];
    assert Partitions.Listed(b, d, 2) == Partitions.Listed(b, d, 1);
    assert Partitions.Listed(b, d, 3) == Partitions.Listed(b, d, 1);
  }

  lemma ImageParameters(image: DiskImage)
    requires image.Valid()
    ensures HoldsParameters(image.disk)
  {
  }

  /** The kernel's probe recovers the geometry the builder used. */
  lemma ProbeFindsTheVolume(image: DiskImage)
    requires image.Valid()
    ensures |image.disk| == 65536 * SECTOR
    ensures Probed(image.disk[2048 * SECTOR..2049 * SECTOR], 2048) == Fat(IMAGE, ROOT)
  {
    hide ParameterBlock, Le16, Le32;
    ParameterFields();
  }

  // ---- reading ----

  /** Builds an image, mounts it, and reads a file from the start cluster and size the builder recorded. */
  method BuildAndRead(files: seq<File>, k: nat, offset: nat, size: nat) returns (r: int, bytes: seq<byte>)
    requires Packable(files) && k < |files| && size < 0x8000_0000 && offset / CLUSTER < U32 && offset + size < U32 * U32
    ensures bytes == Clip(files[k].data, offset, size) && r == |bytes|
  {
    hide Packable, FilesIn, DirectoriesIn, TablesHold, Finished, Contents, View, Fits, Clip, Wanted, Position, IsChain,
         PathsOk, Needed;
    var image := BuildImage(files);
    ImageGeometry();
    ghost var d := image.disk;
    BuiltIsFinished(files, image);
    FileOnImage(files, d, k);
    var fs := new Fat32(IMAGE, image.disk);
    var node := new FatNode(|files[k].data|, StartOf(files, k), 0, 0, false, ChainOf(files, k));
    PositionIsOffset(IMAGE, offset);
    MountedReadable(fs, node);
    r, bytes := VnodeRead(fs, node, offset, size);
    ClipPadded(files[k].data, Zeros(Needed(|files[k].data|) * CLUSTER - |files[k].data|), offset, size);
  }

  lemma BuiltIsFinished(files: seq<File>, image: DiskImage)
    requires image.Valid() && TablesHold(image.disk, image.links) && Packable(files)
    requires FilesIn(files, |files|, image.links, image.data) && PathsOk(files) && DirectoriesIn(files, 5, image.data)
    ensures Finished(files, image.disk)
  {
    hide FilesIn, DirectoriesIn, TablesHold, Fits, Packable;
    assert LinksOk(image.links);
  }

  lemma MountedReadable(fs: Fat32, node: FatNode)
    requires fs.Valid() && IsChain(fs.g, fs.vol.table, node.chain) && node.chain[0] == node.firstCluster
    ensures NodeReadable(fs, node) && fs.vol == View(fs.g, fs.disk)
  {
  }

  // ---- finding a file by name ----

  /** Characters the builder can encode. */
  predicate Ascii(s: seq<byte>) { forall i :: 0 <= i < |s| ==> 0 < s[i] < 128 }

  lemma {:induction false} AsciiParts(p: seq<byte>, cur: seq<byte>, i: nat)
    requires Ascii(p) && Ascii(cur) && i < |Paths.Parts(p, cur)|
    ensures Ascii(Paths.Parts(p, cur)[i])
    decreases |p|
  {
    if p != [] {
      assert Ascii(p[1..]);
      if p[0] == Paths.SLASH {
        var n := |Paths.Whole(cur)|;
        if i >= n {
          AsciiParts(p[1..], [], i - n);
        }
      } else {
        AsciiParts(p[1..], cur + [p[0]], i);
      }
    }
  }

  lemma AsciiName(path: seq<byte>)
    requires Ascii(path) && PathParts(path) != []
    ensures Ascii(FileNameOf(PathParts(path)))
  {
    hide Paths.Parts;
    assert Ascii(UpperAll(path));
    AsciiParts(UpperAll(path), [], 0);
    if |PathParts(path)| > 1 {
      AsciiParts(UpperAll(path), [], 1);
    }
  }

  /** A record of an ASCII name is neither an end marker nor deleted, and it is visible. */
  lemma RecordVisible(r: Record)
    requires Ascii(r.name) && r.start < U32 && r.size < U32
             && (r.attributes == ATTR_DIRECTORY || r.attributes == ATTR_ARCHIVE)
    ensures IsVisible(DiskEntry(r)) && Attributes(DiskEntry(r)) == r.attributes
            && Key(DiskEntry(r)) == LongName(BuilderName(r.name))
    ensures StartCluster(DiskEntry(r)) == r.start && FileSize(DiskEntry(r)) == r.size
  {
    hide BuilderName, NewEntry, WithSize, LongName, StartCluster, FileSize;
    BuilderNameStart(r.name);
    NewEntryReads(BuilderName(r.name), r.attributes, r.start);
    var e := DiskEntry(r);
    assert e[0] == Name(e)[0];
  }

  lemma BuilderNameStart(s: seq<byte>)
    requires Ascii(s)
    ensures 0 < BuilderName(s)[0] < 128
  {
  }

  ghost predicate RecordsAscii(rs: seq<Record>) {
    forall i :: 0 <= i < |rs| ==> Ascii(rs[i].name)
                                  && (rs[i].attributes == ATTR_DIRECTORY || rs[i].attributes == ATTR_ARCHIVE)
  }

  ghost predicate PathsAscii(files: seq<File>) {
    forall k :: 0 <= k < |files| ==> Ascii(files[k].path)
  }

  lemma AsciiTogether(a: seq<Record>, b: seq<Record>)
    requires RecordsAscii(a) && RecordsAscii(b)
    ensures RecordsAscii(a + b)
  {
    hide Ascii;
  }

  lemma AsciiStart(d: nat)
    ensures RecordsAscii(if d == 0 then RootRecords() else [])
    ensures RecordsAscii(AllRecords(d, []))
  {
  }

  lemma AllRecordsSplit(d: nat, rs: seq<Record>)
    ensures AllRecords(d, rs) == AllRecords(d, []) + rs
  {
  }

  lemma {:induction false} RecordsAreAscii(files: seq<File>, k: nat, d: nat)
    requires k <= |files| && PathsOk(files) && PathsAscii(files)
    ensures RecordsAscii(Records(files, k, d)) && RecordsAscii(AllRecords(d, Records(files, k, d)))
  {
    hide PathParts, FileNameOf, DirectoryOf, Ascii, RecordsAscii, RecordsIn, AllRecords, PathsAscii, RootRecords;
    AsciiStart(d);
    if k > 0 {
      RecordsAreAscii(files, k - 1, d);
      NewRecordAscii(files, k - 1, d);
      AsciiTogether(Records(files, k - 1, d), RecordsIn(files, k - 1, d));
    }
    AsciiTogether(AllRecords(d, []), Records(files, k, d));
    AllRecordsSplit(d, Records(files, k, d));
  }

  lemma NewRecordAscii(files: seq<File>, k: nat, d: nat)
    requires k < |files| && PathsOk(files) && PathsAscii(files)
    ensures RecordsAscii(RecordsIn(files, k, d))
  {
    hide PathParts, FileNameOf, DirectoryOf, Ascii;
    AsciiName(files[k].path);
  }

  /** No other record of the directory has the name of record `r`, in the form stored on disk. */
  ghost predicate NamedOnce(rs: seq<Record>, r: Record) {
    forall i :: 0 <= i < |rs| && rs[i] != r ==> LongName(BuilderName(rs[i].name)) != LongName(BuilderName(r.name))
  }

  /** A scan of the directory finds the one entry with that name. */
  lemma RecordFound(rs: seq<Record>, n: nat, r: Record)
    requires RecordsFit(rs) && RecordsAscii(rs) && r in rs && NamedOnce(rs, r)
    ensures NoLongNames(DiskEntries(rs) + ZeroEntries(n))
    ensures var es, key := DiskEntries(rs) + ZeroEntries(n), LongName(BuilderName(r.name));
            key in Listing(es) && Listing(es)[key] == DiskEntry(r)
  {
    hide BuilderName, LongName, DiskEntry, Key, IsLive, Listing;
    var es, key := DiskEntries(rs) + ZeroEntries(n), LongName(BuilderName(r.name));
    forall j | 0 <= j < |rs|
      ensures IsVisible(es[j]) && Attributes(es[j]) != ATTR_LFN && Key(es[j]) == LongName(BuilderName(rs[j].name))
    {
      RecordVisible(rs[j]);
    }
    var i: nat := FirstOf(rs, r);
    ListingHit(es, i, key);
  }

  lemma {:induction false} FirstOf(rs: seq<Record>, r: Record) returns (i: nat)
    requires r in rs
    ensures i < |rs| && rs[i] == r && forall j :: 0 <= j < i ==> rs[j] != r
  {
    if rs[0] == r {
      i := 0;
    } else {
      i := FirstOf(rs[1..], r);
      i := i + 1;
    }
  }

  /** In a directory that starts with the builder's `.` record, `.` and `..` are not found; the empty name finds that
      record. */
  lemma DotsListed(rs: seq<Record>, n: nat)
    requires RecordsFit(rs) && RecordsAscii(rs) && rs != [] && rs[0].name == [DOT]
    ensures var es := DiskEntries(rs) + ZeroEntries(n);
            [DOT] !in Listing(es) && [DOT, DOT] !in Listing(es) && [] in Listing(es)
                && Listing(es)[[]] == DiskEntry(rs[0])
  {
    hide BuilderName, LongName, DiskEntry, Key, IsLive, Listing;
    var es := DiskEntries(rs) + ZeroEntries(n);
    forall j | 0 <= j < |rs|
      ensures IsVisible(es[j]) && Key(es[j]) != [DOT] && Key(es[j]) != [DOT, DOT]
    {
      RecordVisible(rs[j]);
      NeverDots(rs[j].name);
    }
    ListingMiss(es, |rs|, [DOT]);
    ListingMiss(es, |rs|, [DOT, DOT]);
    RecordVisible(rs[0]);
    BlankKey();
    ListingHit(es, 0, []);
  }

  lemma BlankKey()
    ensures LongName(BuilderName([DOT])) == []
  {
    hide BuilderName, Strip;
    DotEntriesAreBlank();
    StripSpaces(8);
    StripSpaces(3);
    assert Spaces(11)[..8] == Spaces(8) && Spaces(11)[8..] == Spaces(3);
  }

  /** What the kernel answers in a directory the builder made: looking up `.` or `..` finds nothing, so there is no way
      up; the empty name finds the entry of the directory itself. */
  lemma DotsOnImage(files: seq<File>, d: seq<byte>, n: nat)
    requires Finished(files, d) && PathsAscii(files) && 1 <= n < 5
    ensures IsChain(IMAGE, View(IMAGE, d).table, [ROOT + n]) && InData(View(IMAGE, d), [ROOT + n])
    ensures var es := DirEntries(View(IMAGE, d), [ROOT + n]);
            [DOT] !in Listing(es) && [DOT, DOT] !in Listing(es) && [] in Listing(es)
                && StartCluster(Listing(es)[[]]) == ROOT + n
                && |es| >= 2 && IsBlankDirectory(es[0], ROOT + n) && IsBlankDirectory(es[1], ROOT)
  {
    hide Finished, View, IsChain, Records, DirEntries, Listing, DiskEntry, StartCluster, PathsAscii, RecordsAscii,
         Ascii, PathsOk, Fits, IsBlankDirectory;
    DirectoryOnImage(files, d, n);
    PathsAreOk(files, d);
    RecordsAreAscii(files, |files|, n);
    var rs := AllRecords(n, Records(files, |files|, n));
    DotsListed(rs, MAX_RECORDS - |rs|);
    DotRecord(rs[0]);
    BlankRecord(rs[0]);
    BlankRecord(rs[1]);
  }

  /** A directory's entry with nothing in its name. */
  predicate IsBlankDirectory(e: Entry, start: nat) {
    Name(e) == Spaces(11) && Attributes(e) == 0x10 && StartCluster(e) == start && FileSize(e) == 0
  }

  lemma BlankRecord(r: Record)
    requires r.name in {[DOT], [DOT, DOT]} && r.attributes == ATTR_DIRECTORY && r.start < U32 && r.size == 0
    ensures IsBlankDirectory(DiskEntry(r), r.start)
  {
    hide StartCluster, FileSize;
    NewEntryReads(BuilderName(r.name), r.attributes, r.start);
    assert NextDot(r.name, 0) == 0 && NextDot(r.name, 1) == 1;
    assert BuilderName(r.name) == Spaces(11);
  }

  lemma PathsAreOk(files: seq<File>, d: seq<byte>)
    requires Finished(files, d)
    ensures PathsOk(files)
  {
  }

  lemma DotRecord(r: Record)
    requires r.name == [DOT] && r.attributes == ATTR_DIRECTORY && r.start < U32 && r.size < U32
    ensures StartCluster(DiskEntry(r)) == r.start
  {
    hide DiskEntry, StartCluster;
    RecordVisible(r);
  }

  lemma RecordIn(files: seq<File>, k: nat)
    requires Packable(files) && k < |files| && DirectoryOf(PathParts(files[k].path)) >= 0
    ensures var d := DirectoryOf(PathParts(files[k].path));
            RecordOf(files, k) in AllRecords(d, Records(files, |files|, d))
  {
    hide PathParts, DirectoryOf, FileNameOf, Records;
    Recorded(files, |files|, k);
  }

  /** Builds an image, probes and mounts it, and opens a file by name through its directory: the kernel finds it and
      reads its bytes. */
  method BuildLookupRead(files: seq<File>, k: nat, name: seq<byte>, offset: nat, size: nat)
      returns (found: bool, bytes: seq<byte>)
    requires Packable(files) && PathsAscii(files) && k < |files| && PathParts(files[k].path) != []
             && DirectoryOf(PathParts(files[k].path)) >= 0
    requires PathsOk(files)
             && NamedOnce(AllRecords(DirectoryOf(PathParts(files[k].path)),
                                     Records(files, |files|, DirectoryOf(PathParts(files[k].path)))),
                                     RecordOf(files, k))
    requires LowerAll(name) == LongName(BuilderName(FileNameOf(PathParts(files[k].path))))
    requires size < 0x8000_0000 && offset / CLUSTER < U32 && offset + size < U32 * U32
    ensures found && bytes == Clip(files[k].data, offset, size)
  {
    hide Packable, FilesIn, DirectoriesIn, TablesHold, Finished, Contents, View, Fits, Clip, Wanted, Position, IsChain,
         PathsOk, Needed, PathParts, DirectoryOf;
    hide FileNameOf, Records, AllRecords, DirEntries, LowerAll, LongName, BuilderName, Listing, NoLongNames,
         RecordsFit, RecordsAscii, NamedOnce, ChainFrom, DiskEntry;
    hide NodeReadable, StartCluster, FileSize, Fat32.Valid, EntryIn, Probed;
    var image := BuildImage(files);
    ImageGeometry();
    ghost var d := image.disk;
    BuiltIsFinished(files, image);
    FileOnImage(files, d, k);
    var n := DirectoryOf(PathParts(files[k].path));
    DirectoryOnImage(files, d, n);
    ghost var rs, r := AllRecords(n, Records(files, |files|, n)), RecordOf(files, k);
    RecordIn(files, k);
    RecordsAreAscii(files, |files|, n);
    RecordFound(rs, MAX_RECORDS - |rs|, r);
    RecordIsOk(rs, r);
    RecordFields(files, k, r);

    ProbeFindsTheVolume(image);
    var p := Fat32Probe(image.disk[2048 * SECTOR..2049 * SECTOR], 2048);
    var fs := new Fat32(p.g, image.disk);
    var dir := new FatNode(0, ROOT + n, 0, 0, true, [ROOT + n]);
    Mounted(fs);
    MountedReadable(fs, dir);
    var node := VnodeLookup(fs, dir, name);
    found, bytes := node != null, [];
    if node != null {
      ChainFromUnique(IMAGE, fs.vol.table, node.firstCluster, ChainOf(files, k));
      MountedReadable(fs, node);
      PositionIsOffset(IMAGE, offset);
      var _, got := VnodeRead(fs, node, offset, size);
      bytes := got;
      ClipPadded(files[k].data, Zeros(Needed(|files[k].data|) * CLUSTER - |files[k].data|), offset, size);
    }
  }

  lemma Mounted(fs: Fat32)
    requires fs.Valid()
    ensures fs.vol == View(fs.g, fs.disk)
  {
  }

  lemma RecordIsOk(rs: seq<Record>, r: Record)
    requires r in rs && RecordsFit(rs) && RecordsAscii(rs)
    ensures r.start < U32 && r.size < U32 && Ascii(r.name)
  {
  }

  lemma RecordFields(files: seq<File>, k: nat, r: Record)
    requires k < |files| && PathParts(files[k].path) != [] && r == RecordOf(files, k)
    requires r.start < U32 && r.size < U32 && Ascii(r.name)
    ensures r.name == FileNameOf(PathParts(files[k].path))
    ensures StartCluster(DiskEntry(r)) == StartOf(files, k) && FileSize(DiskEntry(r)) == |files[k].data|
    ensures Attributes(DiskEntry(r)) / ATTR_DIRECTORY % 2 == 0
  {
    hide DiskEntry, StartCluster, FileSize, PathParts, FileNameOf, StartOf, Ascii;
    RecordVisible(r);
  }

  /** A file is found under its own name exactly when 8.3 can hold it and it has at most one dot: the builder drops what
      comes after a second one. */
  lemma OwnNameIff(s: seq<byte>)
    ensures LowerAll(s) == LongName(BuilderName(s))
            <==> FitsShort(s) && OneDotAtMost(s)
  {
    hide OneDotAtMost, BuilderName, ShortName, LongName, LowerAll, FitsShort;
    if OneDotAtMost(s) {
      BuilderNameIsShort(s);
      FormatUndoesCreateIff(s);
    } else {
      TwoDots(s);
    }
  }

  /** A.B.C fits 8.3, but is stored as A.B. */
  lemma DroppedExtension()
    ensures var s: seq<byte> := [0x41, DOT, 0x42, DOT, 0x43];
            FitsShort([0x41, DOT, 0x42, DOT, 0x43]) && BuilderName(s) == BuilderName([0x41, DOT, 0x42])
  {
    var s: seq<byte> := [0x41, DOT, 0x42, DOT, 0x43];
    var t: seq<byte> := [0x41, DOT, 0x42];
    LastDotUnique(s, 3);
    assert NextDot(s, 0) == 1 && NextDot(t, 0) == 1 by {
      assert NextDot(s, 1) == 1 && NextDot(t, 1) == 1;
    }
    assert NextDot(s, 2) == 3 && NextDot(t, 2) == 3 by {
      assert NextDot(s, 3) == 3 && NextDot(t, 3) == 3;
    }
    assert FirstPart(s) == [0x41] == FirstPart(t) && SecondPart(s) == [0x42] == SecondPart(t);
    assert Base(s) == s[..3] && Extension(s) == [0x43];
  }
}
