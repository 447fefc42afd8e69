/**
 A built image as the kernel's starting point: who owns which cluster, where the allocator goes from there,
 and what happens on an image whose data area the builder filled.
*/
module ImageState {
  import opened Bytes
  import opened FatTable
  import opened FatChains
  import opened FatDriver
  import opened FatContents
  import opened FatDirent
  import opened FatFile
  import opened FatWrite
  import opened FatNames
  import opened FatOwnership
  import opened FatDirectory
  import opened FatDirOps
  import opened FatSession
  import opened ImageLayout
  import opened ImageBuilder
  import opened ImageReads
  import Paths

  /** The five directories are numbers 0 to 4, the k-th file is number 5 + k. */
  function OwnChain(files: seq<File>, id: nat): seq<nat>
    requires id < 5 + |files|
  {
    if id < 5 then [ROOT + id] else ChainOf(files, id - 5)
  }

  /** Some directory of the image has a record of the k-th file; the builder stores the others all the same. */
  ghost predicate Listed(files: seq<File>, k: nat)
    requires k < |files| && PathsOk(files)
  {
    DirectoryOf(PathParts(files[k].path)) >= 0
  }

  /** The directory of each number but 0, the root. */
  ghost function HomeOf(files: seq<File>, id: nat): (n: nat)
    requires PathsOk(files) && id < 5 + |files| && (id >= 5 ==> Listed(files, id - 5))
    ensures n < 5
  {
    if id < 5 then 0 else DirectoryOf(PathParts(files[id - 5].path))
  }

  /** An entry on the image leads to number `id`. */
  ghost predicate Present(files: seq<File>, id: nat)
    requires PathsOk(files)
  {
    id < 5 + |files| && (id >= 5 ==> Listed(files, id - 5))
  }

  ghost function ImageChains(files: seq<File>): map<nat, seq<nat>>
    requires PathsOk(files)
  {
    map id: nat | id < 5 + |files| && Present(files, id) :: OwnChain(files, id)
  }

  ghost function ImageHome(files: seq<File>): map<nat, nat>
    requires PathsOk(files)
  {
    map id: nat | id < 5 + |files| && Present(files, id) && id != 0 :: HomeOf(files, id)
  }

  ghost function StartState(files: seq<File>, d: seq<byte>): State
    requires Fits(IMAGE, d) && PathsOk(files)
  {
    State(View(IMAGE, d).table, ImageChains(files), ImageHome(files))
  }

  /** The clusters of files that no directory lists. */
  ghost function Unlisted(files: seq<File>): set<nat>
    requires PathsOk(files)
  {
    set k: nat, c | k < |files| && !Listed(files, k) && c in ChainOf(files, k) :: c
  }

  /** The first cluster the builder did not hand out. */
  function FirstFree(files: seq<File>): nat { StartOf(files, |files|) }

  lemma OwnChainsApart(files: seq<File>, i: nat, j: nat)
    requires i < 5 + |files| && j < 5 + |files| && i != j
    ensures Disjoint(OwnChain(files, i), OwnChain(files, j))
  {
    hide StartOf, Needed;
    if i >= 5 && j >= 5 {
      if i < j {
        ChainsDisjoint(files, i - 5, j - 5);
      } else {
        ChainsDisjoint(files, j - 5, i - 5);
      }
    }
  }

  lemma OwnChainOnImage(files: seq<File>, d: seq<byte>, id: nat)
    requires Finished(files, d) && id < 5 + |files|
    ensures IsChain(IMAGE, View(IMAGE, d).table, OwnChain(files, id))
  {
    hide View, Finished, IsChain, StartOf, Needed;
    if id < 5 {
      DirectoryOnImage(files, d, id);
    } else {
      FileOnImage(files, d, id - 5);
    }
  }

  /** Every cluster below the first one not handed out is a directory's or some file's. */
  lemma {:induction false} Handed(files: seq<File>, k: nat, c: nat) returns (i: nat)
    requires k <= |files| && FIRST_FILE <= c < StartOf(files, k)
    ensures i < k && c in ChainOf(files, i)
  {
    hide Needed;
    if c >= StartOf(files, k - 1) {
      i := k - 1;
      assert ChainOf(files, i)[c - StartOf(files, i)] == c;
    } else {
      i := Handed(files, k - 1, c);
    }
  }

  lemma ImageTable(files: seq<File>, d: seq<byte>)
    requires Finished(files, d)
    ensures Fits(IMAGE, d) && |d| == 65536 * SECTOR && CopiesAgree(IMAGE, d)
            && LinksInRange(IMAGE, View(IMAGE, d).table)
    ensures |View(IMAGE, d).table| == IMAGE.Entries() && PathsOk(files)
    ensures FIRST_FILE <= FirstFree(files) <= IMAGE.End()
    ensures forall c :: FirstFree(files) <= c < IMAGE.Entries() ==> View(IMAGE, d).table[c] == FREE
  {
    hide FileIn, DirectoriesIn, PathsOk, View, Fits, TablesHold, StartOf;
    var links: seq<nat> :| LinksOk(links) && TablesHold(d, links) && FilesIn(files, |files|, links, View(IMAGE, d).data)
                           && DirectoriesIn(files, 5, View(IMAGE, d).data);
    TableIs(d, links);
    ImageGeometry();
  }

  /** Whose cluster `c` is: number `id`'s. */
  lemma HandedTo(files: seq<File>, d: seq<byte>, c: nat) returns (id: nat)
    requires Finished(files, d) && 2 <= c < FirstFree(files)
    ensures id < 5 + |files| && c in OwnChain(files, id)
    ensures Fits(IMAGE, d) && c < |View(IMAGE, d).table| && View(IMAGE, d).table[c] != FREE
  {
    hide View, Finished, IsChain, StartOf, Needed, ChainOf, Fits;
    ImageTable(files, d);
    if c < FIRST_FILE {
      id := c - 2;
    } else {
      var i: nat := Handed(files, |files|, c);
      id := i + 5;
    }
    OwnChainOnImage(files, d, id);
    InChainUsed(IMAGE, View(IMAGE, d).table, OwnChain(files, id), c);
  }

  /** A cluster handed out is owned unless it went to a file that no directory lists. */
  lemma OwnedIff(files: seq<File>, d: seq<byte>, c: nat, id: nat)
    requires Fits(IMAGE, d) && PathsOk(files) && id < 5 + |files| && c in OwnChain(files, id)
    ensures Owned(StartState(files, d), c) <==> Present(files, id)
    ensures c in Unlisted(files) <==> !Present(files, id)
  {
    hide View, StartOf, Needed, ChainOf, Fits, Listed, PathsOk;
    var chains := StartState(files, d).chains;
    if Present(files, id) {
      assert id in chains && c in chains[id];
    }
    forall j: nat | j < 5 + |files| && c in OwnChain(files, j)
      ensures j == id
    {
      if j != id {
        OwnChainsApart(files, j, id);
      }
    }
    if !Present(files, id) {
      assert c in ChainOf(files, id - 5);
    }
    if k: nat :| k < |files| && !Listed(files, k) && c in ChainOf(files, k) {
      assert c in OwnChain(files, k + 5);
    }
  }

  lemma UnlistedEmptyIff(files: seq<File>)
    requires PathsOk(files)
    ensures Unlisted(files) == {} <==> forall k: nat :: k < |files| ==> Listed(files, k)
  {
    hide StartOf, Listed, PathsOk;
    if k: nat :| k < |files| && !Listed(files, k) {
      assert ChainOf(files, k)[0] in ChainOf(files, k);
      assert ChainOf(files, k)[0] in Unlisted(files);
    }
  }

  /** Runs of the driver can start on a built image: every directory and listed file owns its chain, what is lost is the
      clusters of files that no directory lists, and the free entries are those from the first cluster not handed out to
      the end of the table. */
  lemma ImageIsStartState(files: seq<File>, d: seq<byte>)
    requires Finished(files, d)
    ensures Fits(IMAGE, d) && PathsOk(files) && WellOwned(IMAGE, StartState(files, d))
            && Lost(StartState(files, d)) == Unlisted(files)
    ensures Lost(StartState(files, d)) == {} <==> forall k: nat :: k < |files| ==> Listed(files, k)
    ensures forall c: nat :: c in Free(View(IMAGE, d).table) <==> FirstFree(files) <= c < IMAGE.Entries()
  {
    hide View, Finished, IsChain, StartOf, ChainOf, Fits, Listed, PathsOk, Unlisted;
    ImageTable(files, d);
    ImageGeometry();
    UnlistedEmptyIff(files);
    var s := StartState(files, d);
    forall id | id in s.chains
      ensures IsChain(IMAGE, s.table, s.chains[id])
    {
      OwnChainOnImage(files, d, id);
    }
    forall i, j | i in s.chains && j in s.chains && i != j
      ensures Disjoint(s.chains[i], s.chains[j])
    {
      OwnChainsApart(files, i, j);
    }
    forall c: nat | 2 <= c < FirstFree(files)
      ensures s.table[c] != FREE && (Owned(s, c) <==> c !in Unlisted(files))
    {
      var id: nat := HandedTo(files, d, c);
      OwnedIff(files, d, c, id);
    }
    UnlistedInside(files);
  }

  lemma UnlistedInside(files: seq<File>)
    requires PathsOk(files)
    ensures forall c :: c in Unlisted(files) ==> 2 <= c < FirstFree(files)
  {
    hide Needed, PathsOk, Listed;
    forall c | c in Unlisted(files)
      ensures 2 <= c < FirstFree(files)
    {
      var k: nat :| k < |files| && !Listed(files, k) && c in ChainOf(files, k);
      StartsBelow(files, k);
    }
  }

  /** A visible entry of the directory leads to cluster `start`. */
  ghost predicate EntryLeadsTo(v: Volume, cs: seq<nat>, start: nat) {
    InData(v, cs)
    && var es := DirEntries(v, cs); exists i :: 0 <= i < |es| && IsVisible(es[i]) && StartCluster(es[i]) == start
  }

  /** What owns a chain is reached: its directory has a visible entry with the chain's first cluster. */
  lemma ImageEntry(files: seq<File>, d: seq<byte>, id: nat)
    requires Finished(files, d) && PathsAscii(files) && PathsOk(files) && id != 0 && Present(files, id)
    ensures EntryLeadsTo(View(IMAGE, d), [ROOT + HomeOf(files, id)], OwnChain(files, id)[0])
  {
    hide View, Finished, Records, AllRecords, DirEntries, PathsAscii, StartCluster, IsLive, OwnChain, HomeOf;
    var r := OwnRecord(files, id);
    ImageTable(files, d);
    RecordOnImage(files, d, HomeOf(files, id), r);
  }

  /** The record of a file, or of one of the four directories in the root. */
  lemma OwnRecord(files: seq<File>, id: nat) returns (r: Record)
    requires PathsOk(files) && id != 0 && Present(files, id)
    ensures HomeOf(files, id) < 5 && r in AllRecords(HomeOf(files, id), Records(files, |files|, HomeOf(files, id)))
    ensures OwnChain(files, id) != [] && r.start == OwnChain(files, id)[0]
  {
    hide Records, PathParts, DirectoryOf, FileNameOf, StartOf, Needed, BuilderName;
    r := if id < 5 then RootRecords()[id - 1] else RecordOf(files, id - 5);
    if id < 5 {
      RootRecordsKept(files, |files|);
    } else {
      Recorded(files, |files|, id - 5);
    }
  }

  /** Every record of a directory is an entry on the disk. */
  lemma RecordOnImage(files: seq<File>, d: seq<byte>, n: nat, r: Record)
    requires Finished(files, d) && PathsAscii(files) && PathsOk(files) && Fits(IMAGE, d) && n < 5
    requires r in AllRecords(n, Records(files, |files|, n))
    ensures EntryLeadsTo(View(IMAGE, d), [ROOT + n], r.start)
  {
    hide View, Finished, Records, AllRecords, DirEntries, PathsAscii, PathsOk, DiskEntry, StartCluster, IsLive,
         RecordsAscii, Fits, RecordsFit, IsChain;
    DirectoryOnImage(files, d, n);
    RecordsAreAscii(files, |files|, n);
    var rs := AllRecords(n, Records(files, |files|, n));
    var i := FirstOf(rs, r);
    RecordAscii(rs, i);
    RecordVisible(r);
    assert DirEntries(View(IMAGE, d), [ROOT + n])[i] == DiskEntry(r);
  }

  lemma RecordAscii(rs: seq<Record>, i: nat)
    requires RecordsAscii(rs) && RecordsFit(rs) && i < |rs|
    ensures Ascii(rs[i].name) && rs[i].start < U32 && rs[i].size < U32
    ensures rs[i].attributes == ATTR_DIRECTORY || rs[i].attributes == ATTR_ARCHIVE
  {
  }

  lemma {:induction false} RootRecordsKept(files: seq<File>, k: nat)
    requires k <= |files| && PathsOk(files)
    ensures RootRecords() <= Records(files, k, 0)
  {
    hide PathParts, DirectoryOf, FileNameOf, PathsOk, RecordsIn;
    if k > 0 {
      RootRecordsKept(files, k - 1);
    }
  }

  lemma Interval(a: nat, b: nat) returns (s: set<nat>)
    requires a <= b
    ensures |s| == b - a && forall c: nat :: c in s <==> a <= c < b
  {
    s := {};
    if a < b {
      s := Interval(a, b - 1);
      s := s + {b - 1};
    }
  }

  /** The room on a built image is the data clusters not handed out, and not one more: the entries past the data are
      free. */
  lemma ImageRoomIff(files: seq<File>, d: seq<byte>, n: nat)
    requires Finished(files, d)
    ensures Fits(IMAGE, d) && Room(IMAGE, View(IMAGE, d).table, n) <==> FirstFree(files) + n <= IMAGE.End()
  {
    hide View, Finished, StartOf, Fits, LinksInRange, CopiesAgree;
    ImageTable(files, d);
    ImageIsStartState(files, d);
    ImageGeometry();
    var t := View(IMAGE, d).table;
    var s := Interval(FirstFree(files), IMAGE.End());
    assert FreeData(IMAGE, t) == s by {
      forall c: nat
        ensures c in FreeData(IMAGE, t) <==> c in s
      {
        assert c in FreeData(IMAGE, t) <==> c in Free(t) && c < IMAGE.End();
      }
    }
    assert t[7870] == FREE;
  }

  /** On a built image the allocator picks the first cluster not handed out.  That is a cluster of the data area
      exactly when the builder left one; otherwise its first sector is the one after the last of the disk. */
  lemma ImageAllocates(files: seq<File>, d: seq<byte>, c: nat)
    requires Finished(files, d) && IsLowestFree(View(IMAGE, d).table, c)
    ensures c == FirstFree(files)
    ensures c < IMAGE.End() <==> Allocatable(IMAGE, View(IMAGE, d).table)
    ensures if c < IMAGE.End() then (IMAGE.ClusterLba(c) + IMAGE.spc) * SECTOR <= |d|
            else IMAGE.ClusterLba(c) * SECTOR >= |d|
  {
    hide View, Finished, StartOf, LinksInRange, CopiesAgree, TablesHold, FilesIn;
    ImageTable(files, d);
    ImageIsStartState(files, d);
    ImageGeometry();
    AllocatableIff(IMAGE, View(IMAGE, d).table, c);
    assert FirstFree(files) in Free(View(IMAGE, d).table);
    assert c == 0 || c in Free(View(IMAGE, d).table);
  }

  /** A list of files that fills the data area: one file of 7863 clusters. */
  function FillingFiles(): seq<File> { [File([0x46], Zeros(7863 * CLUSTER))] }

  lemma FillingFilesPackable()
    ensures Packable(FillingFiles()) && FirstFree(FillingFiles()) == IMAGE.End()
  {
    hide Zeros;
    ImageGeometry();
    var files := FillingFiles();
    OnePart(0x46);
    assert |files[0].data| == 7863 * CLUSTER;
    assert StartOf(files, 0) == FIRST_FILE;
    assert Needed(|files[0].data|) == 7863;
    assert StartOf(files, 1) == 7870;
    forall d | 0 <= d < 5
      ensures |AllRecords(d, Records(files, |files|, d))| <= MAX_RECORDS
    {
      assert |Records(files, 0, d)| <= 4;
      assert |RecordsIn(files, 0, d)| <= 1;
    }
  }

  lemma OnePart(b: byte)
    requires b != Paths.SLASH && Upper(b) == b
    ensures PathParts([b]) == [[b]]
  {
    assert UpperAll([b]) == [b];
    assert [b][1..] == [] && [] + [b] == [b];
    assert Paths.Parts([], [b]) == Paths.Whole([b]) == [[b]];
    assert Paths.Parts([b], []) == Paths.Parts([b][1..], [] + [b]);
  }

  /** On the image built from these files the next creation or growing write would get an entry that is no cluster. */
  lemma FullImageAllocatesOutside(d: seq<byte>, c: nat)
    requires Finished(FillingFiles(), d) && IsLowestFree(View(IMAGE, d).table, c)
    ensures c == IMAGE.End() && !Allocatable(IMAGE, View(IMAGE, d).table) && IMAGE.ClusterLba(c) * SECTOR == |d|
  {
    hide View, Finished, FillingFiles, Allocatable;
    FillingFilesPackable();
    ImageAllocates(FillingFiles(), d, c);
    FinishedSize(FillingFiles(), d);
    ImageGeometry();
  }

  lemma FinishedSize(files: seq<File>, d: seq<byte>)
    requires Finished(files, d)
    ensures |d| == 65536 * SECTOR
  {
  }

  lemma StartTable(files: seq<File>, d: seq<byte>)
    requires Fits(IMAGE, d) && PathsOk(files)
    ensures StartState(files, d).table == View(IMAGE, d).table
  {
  }

  /** Every run on a built image: chains stay complete and disjoint, just the clusters are lost that the builder hid and
      the calls lose, and what the builder left less what the run took is still there to take. */
  lemma ImageRuns(files: seq<File>, d: seq<byte>, calls: seq<Call>, states: seq<State>, i: nat)
    requires Finished(files, d) && Run(IMAGE, calls, states) && PathsOk(files) && Fits(IMAGE, d)
    requires states[0] == StartState(files, d) && i <= |calls|
    ensures WellOwned(IMAGE, states[i]) && |Lost(states[i])| == |Unlisted(files)| + LossesBy(calls, states, i)
    ensures Room(IMAGE, states[i].table, IMAGE.End() - FirstFree(files) - TakenBy(IMAGE, states, i))
  {
    hide *;
    ImageTable(files, d);
    ImageIsStartState(files, d);
    ImageRoomIff(files, d, IMAGE.End() - FirstFree(files));
    StartTable(files, d);
    RunsKeepOwnership(IMAGE, calls, states, i);
    RoomAlongRun(IMAGE, calls, states, i, IMAGE.End() - FirstFree(files));
  }

  // ---- a session on a built image ----

  ghost predicate StartsInside(rs: seq<Record>) {
    forall i :: 0 <= i < |rs| ==> rs[i].start < IMAGE.End()
  }

  lemma {:induction false} RecordsStartInside(files: seq<File>, k: nat, n: nat)
    requires k <= |files| && PathsOk(files) && StartOf(files, |files|) <= IMAGE.End() && n < 5
    ensures StartsInside(Records(files, k, n)) && StartsInside(AllRecords(n, Records(files, k, n)))
  {
    hide StartsInside, RecordsIn, AllRecords, RootRecords, Needed, PathParts;
    if k > 0 {
      RecordsStartInside(files, k - 1, n);
      RecordStartsInside(files, k - 1, n);
      InsideTogether(Records(files, k - 1, n), RecordsIn(files, k - 1, n));
    } else {
      RootStartsInside();
    }
    DotsStartInside(n, Records(files, k, n));
  }

  lemma RecordStartsInside(files: seq<File>, k: nat, n: nat)
    requires k < |files| && PathParts(files[k].path) != [] && StartOf(files, |files|) <= IMAGE.End()
    ensures StartsInside(RecordsIn(files, k, n))
  {
    hide PathParts, DirectoryOf, FileNameOf, Needed;
    StartsBelow(files, k);
  }

  lemma InsideTogether(a: seq<Record>, b: seq<Record>)
    requires StartsInside(a) && StartsInside(b)
    ensures StartsInside(a + b)
  {
  }

  lemma RootStartsInside()
    ensures StartsInside(RootRecords()) && StartsInside([])
  {
    ImageGeometry();
  }

  lemma DotsStartInside(n: nat, rs: seq<Record>)
    requires StartsInside(rs) && n < 5
    ensures StartsInside(AllRecords(n, rs))
  {
    ImageGeometry();
  }

  /** No record is stored under `key`. */
  ghost predicate NameUnused(rs: seq<Record>, key: seq<byte>) {
    forall i :: 0 <= i < |rs| ==> LongName(BuilderName(rs[i].name)) != key
  }

  /** A directory as the builder leaves it is well formed, and lists no name that no record is stored under. */
  lemma BuiltDirectoryOk(rs: seq<Record>, n: nat, key: seq<byte>)
    requires RecordsFit(rs) && RecordsAscii(rs) && StartsInside(rs)
    ensures var es := DiskEntries(rs) + ZeroEntries(n);
            DirectoryOk(IMAGE, es) && (NameUnused(rs, key) ==> key !in Listing(es)) && (HasSlot(es) <==> n > 0)
  {
    hide BuilderName, LongName, DiskEntry, Key, IsLive, Listing, StartCluster, FileSize, Ascii;
    var es := DiskEntries(rs) + ZeroEntries(n);
    forall j | 0 <= j < |rs|
      ensures IsVisible(es[j]) && !IsSlot(es[j]) && Attributes(es[j]) != ATTR_LFN && StartCluster(es[j]) == rs[j].start
      ensures Key(es[j]) == LongName(BuilderName(rs[j].name))
    {
      RecordVisible(rs[j]);
      VisibleIsNoSlot(es[j]);
    }
    if NameUnused(rs, key) {
      ListingMiss(es, |rs|, key);
    }
    assert n > 0 ==> IsSlot(es[|rs|]);
  }

  lemma VisibleIsNoSlot(e: Entry)
    requires IsVisible(e)
    ensures !IsSlot(e)
  {
  }

  /** The records of the n-th directory of the image. */
  function RecordsOf(files: seq<File>, n: nat): seq<Record>
    requires PathsOk(files)
  {
    AllRecords(n, Records(files, |files|, n))
  }

  /** A directory of a built image, as the sessions need it. */
  lemma DirectoryIsReady(files: seq<File>, d: seq<byte>, n: nat, key: seq<byte>)
    requires Finished(files, d) && PathsOk(files) && PathsAscii(files) && n < 5
    ensures var v, rs := View(IMAGE, d), RecordsOf(files, n);
            && IsChain(IMAGE, v.table, [ROOT + n]) && InData(v, [ROOT + n])
            && DirectoryOk(IMAGE, DirEntries(v, [ROOT + n]))
            && (NameUnused(rs, key) ==> key !in Listing(DirEntries(v, [ROOT + n]))) && |rs| <= MAX_RECORDS
            && (HasSlot(DirEntries(v, [ROOT + n])) <==> |rs| < MAX_RECORDS)
  {
    hide Finished, View, IsChain, Records, AllRecords, DirEntries, Listing, DirectoryOk, HasSlot, PathsAscii, PathsOk,
         NameUnused, RecordsAscii, RecordsFit, StartsInside, StartOf;
    DirectoryOnImage(files, d, n);
    ImageTable(files, d);
    var rs := RecordsOf(files, n);
    RecordsAreAscii(files, |files|, n);
    RecordsStartInside(files, |files|, n);
    BuiltDirectoryOk(rs, MAX_RECORDS - |rs|, key);
  }

  // ---- opening a directory of the image by name ----

  function DirectoryName(n: nat): seq<byte>
    requires 1 <= n < 5
  {
    RootRecords()[n - 1].name
  }

  /** The four names are stored as they are and differ from each other. */
  lemma DirectoryNames(i: nat, j: nat)
    requires 1 <= i < 5 && 1 <= j < 5
    ensures LongName(BuilderName(DirectoryName(i))) == LowerAll(DirectoryName(i))
    ensures LowerAll(DirectoryName(i)) == LowerAll(DirectoryName(j)) ==> i == j
  {
    hide BuilderName, LongName;
    PlainName(DirectoryName(i));
    var a, b := DirectoryName(i), DirectoryName(j);
    if LowerAll(a) == LowerAll(b) {
      assert |a| == |LowerAll(a)| == |b|;
      assert LowerAll(a)[0] == LowerAll(b)[0];
    }
  }

  /** Names of at most eight characters without dot and space. */
  lemma PlainName(s: seq<byte>)
    requires |s| <= 8 && DOT !in s && SPACE !in s
    ensures LongName(BuilderName(s)) == LowerAll(s)
  {
    hide BuilderName, LongName, LowerAll;
    NoDots(s);
    OwnNameIff(s);
  }

  lemma NoDots(s: seq<byte>)
    requires |s| <= 8 && DOT !in s && SPACE !in s
    ensures NextDot(s, 0) == |s| && FitsShort(s)
  {
    hide LastDot, NextDot;
    LastDotUnique(s, -1);
  }

  /** The root lists each of the four directories under its name, whatever files the root holds besides. */
  lemma DirectoryListed(files: seq<File>, d: seq<byte>, n: nat)
    requires Finished(files, d) && PathsOk(files) && PathsAscii(files) && 1 <= n < 5
    ensures IsChain(IMAGE, View(IMAGE, d).table, [ROOT]) && InData(View(IMAGE, d), [ROOT])
    ensures var es := DirEntries(View(IMAGE, d), [ROOT]);
            && NoLongNames(es) && LowerAll(DirectoryName(n)) in Listing(es)
            && StartCluster(Listing(es)[LowerAll(DirectoryName(n))]) == ROOT + n
            && Attributes(Listing(es)[LowerAll(DirectoryName(n))]) == ATTR_DIRECTORY
  {
    hide Finished, View, IsChain, Records, DirEntries, Listing, PathsAscii, PathsOk, RecordsAscii, DiskEntry,
         StartCluster, IsLive, Key, LowerAll, LongName, BuilderName, FileSize;
    ImageTable(files, d);
    DirectoryOnImage(files, d, 0);
    RecordsAreAscii(files, |files|, 0);
    RootRecordsKept(files, |files|);
    var rs := Records(files, |files|, 0);
    assert AllRecords(0, rs) == rs;
    NoLongRecords(rs, MAX_RECORDS - |rs|);
    var es := DirEntries(View(IMAGE, d), [ROOT]);
    forall j: nat | j < 4
      ensures es[j] == DiskEntry(RootRecords()[j]) && IsVisible(es[j]) && Key(es[j]) == LowerAll(DirectoryName(j + 1))
      ensures StartCluster(es[j]) == ROOT + j + 1 && Attributes(es[j]) == ATTR_DIRECTORY
      ensures j + 1 != n ==> Key(es[j]) != LowerAll(DirectoryName(n))
    {
      assert rs[j] == RootRecords()[j];
      RecordAscii(rs, j);
      RecordVisible(RootRecords()[j]);
      DirectoryNames(j + 1, n);
    }
    ListingHit(es, n - 1, LowerAll(DirectoryName(n)));
  }

  lemma NoLongRecords(rs: seq<Record>, n: nat)
    requires RecordsFit(rs) && RecordsAscii(rs)
    ensures NoLongNames(DiskEntries(rs) + ZeroEntries(n))
  {
    hide DiskEntry, IsLive, Ascii;
    forall j | 0 <= j < |rs|
      ensures Attributes(DiskEntry(rs[j])) != ATTR_LFN
    {
      RecordVisible(rs[j]);
    }
  }

  /** The root, or one of the four directories looked up in it by name. */
  method OpenDirectory(fs: Fat32, ghost files: seq<File>, n: nat, name: seq<byte>) returns (dir: FatNode?)
    requires fs.g == IMAGE && fs.Valid() && Finished(files, fs.disk) && PathsOk(files) && PathsAscii(files)
    requires n < 5 && (n > 0 ==> LowerAll(name) == LowerAll(DirectoryName(n)))
    ensures dir != null && fresh(dir) && NodeOk(fs, dir) && dir.chain == [ROOT + n] && dir.dirCluster in [0, ROOT]
  {
    hide NodeOk, NodeReadable, Finished, View, IsChain, PathsOk, PathsAscii, Listing, LowerAll, DirEntries,
         NoLongNames, ChainFrom, StartCluster, FileSize, Fat32.Valid, Fits, InData, EntryIn;
    ImageGeometry();
    ghost var d := fs.disk;
    Mounted(fs);
    RootOnImage(files, d, n);
    var root := new FatNode(0, ROOT, 0, 0, true, [ROOT]);
    RootNode(fs, root);
    if n == 0 { return root; }
    DirectoryListed(files, d, n);
    MountedReadable(fs, root);
    dir := VnodeLookup(fs, root, name);
    ChainFromUnique(IMAGE, fs.vol.table, ROOT + n, [ROOT + n]);
    SubdirectoryNode(fs, dir, n);
  }

  lemma RootOnImage(files: seq<File>, d: seq<byte>, n: nat)
    requires Finished(files, d) && n < 5
    ensures Fits(IMAGE, d) && IsChain(IMAGE, View(IMAGE, d).table, [ROOT]) && InData(View(IMAGE, d), [ROOT])
    ensures IsChain(IMAGE, View(IMAGE, d).table, [ROOT + n])
  {
    hide *;
    ImageTable(files, d);
    DirectoryOnImage(files, d, 0);
    DirectoryOnImage(files, d, n);
    assert [ROOT + 0] == [ROOT];
  }

  lemma SubdirectoryNode(fs: Fat32, dir: FatNode, n: nat)
    requires fs.g == IMAGE && fs.Valid() && 1 <= n < 5 && IsChain(IMAGE, fs.vol.table, [ROOT])
             && IsChain(IMAGE, fs.vol.table, [ROOT + n])
    requires dir.firstCluster == ROOT + n && dir.chain == [ROOT + n] && dir.dirCluster in [ROOT]
             && dir.dirEntryOffset % ENTRY_SIZE == 0
    requires 2 <= dir.dirCluster < |fs.vol.data| + 2
             && dir.dirEntryOffset + ENTRY_SIZE <= |fs.vol.data[dir.dirCluster - 2]|
    ensures NodeOk(fs, dir)
  {
  }

  /** An entry past the data is still free after a session, so the volume did not fill up. */
  lemma NeverFull(t: seq<nat>, t': seq<nat>)
    requires |t| == IMAGE.Entries() && t[7870] == FREE && OutsideKept(IMAGE, t, t')
    ensures !NoFree(t')
  {
    ImageGeometry();
    assert t'[7870] == FREE;
  }

  lemma FreeOutside(files: seq<File>, d: seq<byte>)
    requires Finished(files, d)
    ensures Fits(IMAGE, d) && |View(IMAGE, d).table| == IMAGE.Entries() > 7870 && View(IMAGE, d).table[7870] == FREE
  {
    hide View, Finished, StartOf, Fits;
    ImageTable(files, d);
    ImageGeometry();
  }

  lemma RootNode(fs: Fat32, dir: FatNode)
    requires fs.g == IMAGE && fs.Valid() && IsChain(IMAGE, fs.vol.table, [ROOT]) && dir.chain == [ROOT]
    requires dir.firstCluster == ROOT && dir.dirCluster == 0
    ensures NodeOk(fs, dir)
  {
  }

  /** Builds an image, mounts it, opens one of its five directories, creates a file there, writes it and reads it back
      by name: as long as the builder left the clusters needed, it works and gives the bytes written. */
  method BuildAndRoundTrip(files: seq<File>, n: nat, dirName: seq<byte>, name: seq<byte>, buffer: seq<byte>)
      returns (back: seq<byte>)
    requires Packable(files) && PathsOk(files) && PathsAscii(files)
    requires n < 5 && (n > 0 ==> LowerAll(dirName) == LowerAll(DirectoryName(n)))
    requires Storable(name) && 0 !in name && 0 < |buffer| < 0x8000_0000
             && NameUnused(RecordsOf(files, n), LowerAll(name))
    requires FirstFree(files) + (if |RecordsOf(files, n)| < MAX_RECORDS
                                 then 1 else 2) + (|buffer| - 1) / CLUSTER <= IMAGE.End()
    ensures back == buffer
  {
    hide Packable, FilesIn, DirectoriesIn, TablesHold, Finished, View, Fits, IsChain, PathsOk, PathsAscii, RecordsOf,
         DirEntries, LowerAll, Listing, Storable;
    hide NameUnused, HasSlot, DirectoryOk, Room, NoFree, Kept, NodeOk, StartOf, OutsideKept, InData, Fat32.Valid,
         DirectoryName;
    var image := BuildImage(files);
    ImageGeometry();
    ghost var d := image.disk;
    BuiltIsFinished(files, image);
    DirectoryIsReady(files, d, n, LowerAll(name));
    FreeOutside(files, d);
    var fs := new Fat32(IMAGE, image.disk);
    Mounted(fs);
    var dir := OpenDirectory(fs, files, n, dirName);
    ghost var takes := SessionTakes(IMAGE, fs.vol, [ROOT + n], |buffer|);
    ImageRoomIff(files, d, takes);
    ghost var t := fs.vol.table;
    var full, got := RoundTrip(fs, dir, name, buffer);
    NeverFull(t, fs.vol.table);
    back := got;
  }
}
