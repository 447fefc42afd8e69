/** Files of a built image, found by walking their paths from its root. */
module ImageWalk {
  import opened Bytes
  import opened FatTable
  import opened FatChains
  import opened FatDriver
  import opened FatContents
  import opened FatDirent
  import opened FatFile
  import opened FatNames
  import opened FatDirectory
  import opened FatDirOps
  import opened FatWalk
  import opened ImageLayout
  import opened ImageBuilder
  import opened ImageReads
  import opened ImageState
  import Partitions
  import Paths

  // ---- what a path of the image says ----

  /** The first part of a path of two or more, in upper case. */
  function ParentOf(path: seq<byte>): seq<byte> {
    var parts := PathParts(path);
    if |parts| <= 1 then [] else parts[0]
  }

  /** The name its file is stored under: that of the only or the second part. */
  function StoredName(path: seq<byte>): seq<byte> {
    var parts := PathParts(path);
    if parts == [] then [] else LongName(BuilderName(if |parts| == 1 then parts[0] else parts[1]))
  }

  /** The path lies in the root or in one of the directories the image has. */
  predicate HasPlace(path: seq<byte>) {
    var parts := PathParts(path);
    |parts| == 1 || (|parts| > 1 && parts[0] in [Text("BIN"), Text("LIB"), Text("INCLUDE"), Text("HOME")])
  }

  predicate SamePlace(a: seq<byte>, b: seq<byte>) { HasPlace(a) && ParentOf(a) == ParentOf(b) }

  /** No other path of the image, and nothing the builder adds, is stored in the same place under the same name. */
  ghost predicate StoredAlone(files: seq<File>, k: nat)
    requires k < |files|
  {
    var path := files[k].path;
    && (forall j :: 0 <= j < |files| && j != k && SamePlace(files[j].path, path) ==>
          StoredName(files[j].path) != StoredName(path))
    && if ParentOf(path) == [] then StoredName(path) !in [Text("bin"), Text("lib"), Text("include"), Text("home")]
       else StoredName(path) != []
  }

  /** The tokens of `path` are the place of `own` and the name stored there. */
  ghost predicate Leads(path: seq<byte>, own: seq<byte>) {
    var ts, parts := Tokens(path), PathParts(own);
    if |parts| == 1 then |ts| == 1 && LowerAll(ts[0]) == StoredName(own)
    else |parts| > 1 && |ts| == 2 && LowerAll(ts[0]) == LowerAll(parts[0]) && LowerAll(ts[1]) == StoredName(own)
  }

  // ---- its record ----

  /** Where the records of a directory come from. */
  lemma {:induction false} RecordSource(files: seq<File>, k: nat, n: nat, r: Record)
    requires k <= |files| && PathsOk(files) && r in Records(files, k, n)
    ensures (n == 0 && r in RootRecords())
            || exists j :: 0 <= j < k && DirectoryOf(PathParts(files[j].path)) == n && r == RecordOf(files, j)
  {
    hide PathParts, DirectoryOf, RecordOf, RootRecords;
    if k > 0 && r in Records(files, k - 1, n) {
      RecordSource(files, k - 1, n, r);
    } else if k > 0 {
      assert r in RecordsIn(files, k - 1, n);
    }
  }

  lemma KnownNames()
    ensures Text("BIN") == BIN && Text("LIB") == LIB && Text("INCLUDE") == INCLUDE && Text("HOME") == HOME
    ensures BIN != LIB && BIN != INCLUDE && BIN != HOME && LIB != INCLUDE && LIB != HOME && INCLUDE != HOME
    ensures LowerAll(BIN) == Text("bin") && LowerAll(LIB) == Text("lib") && LowerAll(INCLUDE) == Text("include")
    ensures LowerAll(HOME) == Text("home")
  {
    hide LowerAll;
    LowerNames();
    assert |BIN| == |LIB| == 3 && BIN[0] != LIB[0] && |HOME| == 4 && |INCLUDE| == 7;
  }

  lemma LowerNames()
    ensures LowerAll(BIN) == Text("bin") && LowerAll(LIB) == Text("lib") && LowerAll(INCLUDE) == Text("include")
    ensures LowerAll(HOME) == Text("home")
  {
  }

  /** Files go to the directory their path names. */
  lemma DirectoryIsParent(path: seq<byte>)
    requires PathParts(path) != []
    ensures DirectoryOf(PathParts(path)) >= 0 <==> HasPlace(path)
    ensures DirectoryOf(PathParts(path)) == 0 <==> ParentOf(path) == [] && HasPlace(path)
    ensures DirectoryOf(PathParts(path)) > 0 ==> DirectoryName(DirectoryOf(PathParts(path))) == ParentOf(path) != []
  {
    hide PathParts;
    KnownNames();
  }

  lemma NameIsStored(path: seq<byte>)
    requires PathParts(path) != []
    ensures LongName(BuilderName(FileNameOf(PathParts(path)))) == StoredName(path)
  {
    hide PathParts, LongName, BuilderName;
  }

  lemma BuilderRecordNames(n: nat, r: Record)
    requires n < 5 && ((n == 0 && r in RootRecords()) || (n > 0 && r in AllRecords(n, [])))
    ensures var key := LongName(BuilderName(r.name));
            if n == 0 then key in [Text("bin"), Text("lib"), Text("include"), Text("home")] else key == []
  {
    hide LongName, BuilderName;
    KnownNames();
    if n == 0 {
      var i :| 0 <= i < 4 && RootRecords()[i] == r;
      DirectoryNames(i + 1, i + 1);
    } else {
      DotsBlank();
    }
  }

  lemma DotsBlank()
    ensures LongName(BuilderName([DOT])) == [] && LongName(BuilderName([DOT, DOT])) == []
  {
    hide LongName, BuilderName;
    BlankKey();
    DotEntriesAreBlank();
  }

  lemma OtherRecord(files: seq<File>, k: nat, r: Record)
    requires k < |files| && PathsOk(files) && HasPlace(files[k].path) && StoredAlone(files, k)
    requires var n := DirectoryOf(PathParts(files[k].path)); n >= 0 && r in AllRecords(n, Records(files, |files|, n))
    requires r != RecordOf(files, k)
    ensures LongName(BuilderName(r.name)) != StoredName(files[k].path)
  {
    hide PathParts, LongName, BuilderName, StoredName, RootRecords, Records, HasPlace, DirectoryOf, ParentOf, RecordOf;
    var path := files[k].path;
    var n := DirectoryOf(PathParts(path));
    DirectoryIsParent(path);
    RecordsSplit(n, Records(files, |files|, n), r);
    if r in Records(files, |files|, n) {
      RecordSource(files, |files|, n, r);
      if n == 0 && r in RootRecords() {
        BuilderRecordNames(0, r);
      } else {
        var j: nat :| j < |files| && DirectoryOf(PathParts(files[j].path)) == n && r == RecordOf(files, j);
        DirectoryIsParent(files[j].path);
        NameIsStored(files[j].path);
        RecordName(files, j);
        assert SamePlace(files[j].path, path);
      }
    } else {
      BuilderRecordNames(n, r);
    }
  }

  lemma RecordsSplit(n: nat, rs: seq<Record>, r: Record)
    requires r in AllRecords(n, rs)
    ensures r in rs || (n > 0 && r in AllRecords(n, []))
  {
  }

  lemma RecordName(files: seq<File>, k: nat)
    requires k < |files| && PathParts(files[k].path) != []
    ensures RecordOf(files, k).name == FileNameOf(PathParts(files[k].path))
  {
  }

  lemma AloneIsNamedOnce(files: seq<File>, k: nat)
    requires k < |files| && PathsOk(files) && HasPlace(files[k].path) && StoredAlone(files, k)
    ensures var n := DirectoryOf(PathParts(files[k].path));
            n >= 0 && NamedOnce(AllRecords(n, Records(files, |files|, n)), RecordOf(files, k))
  {
    hide PathParts, LongName, BuilderName, StoredName, RootRecords, Records, AllRecords, HasPlace, DirectoryOf,
         StoredAlone, RecordOf;
    DirectoryIsParent(files[k].path);
    NameIsStored(files[k].path);
    RecordName(files, k);
    var n := DirectoryOf(PathParts(files[k].path));
    var rs := AllRecords(n, Records(files, |files|, n));
    forall i | 0 <= i < |rs| && rs[i] != RecordOf(files, k)
      ensures LongName(BuilderName(rs[i].name)) != StoredName(files[k].path)
    {
      OtherRecord(files, k, rs[i]);
    }
  }

  // ---- the walk ----

  /** The n-th directory of the image as a place; the size an entry gives it plays no part. */
  ghost predicate IsDirectoryPlace(p: Place, n: nat) { p.first == ROOT + n && p.isDirectory }

  lemma DirectoryListable(files: seq<File>, d: seq<byte>, n: nat, p: Place)
    requires Finished(files, d) && PathsOk(files) && PathsAscii(files) && n < 5 && IsDirectoryPlace(p, n)
    ensures Fits(IMAGE, d) && Listable(IMAGE, View(IMAGE, d), p) && Chain(IMAGE, View(IMAGE, d), p) == [ROOT + n]
  {
    hide Finished, View, Fits, IsChain, PathsOk, PathsAscii, DirEntries, ChainFrom, Listing, HasSlot, DirectoryOk,
         NameUnused, RecordsOf, Geometry.End;
    ImageTable(files, d);
    ImageGeometry();
    DirectoryIsReady(files, d, n, []);
    ChainFromUnique(IMAGE, View(IMAGE, d).table, ROOT + n, [ROOT + n]);
    DirectoryParts2(DirEntries(View(IMAGE, d), [ROOT + n]));
  }

  lemma DirectoryParts2(es: seq<Entry>)
    requires DirectoryOk(IMAGE, es)
    ensures NoLongNames(es)
  {
  }

  /** The root leads to each of the four directories. */
  lemma RootLeads(files: seq<File>, d: seq<byte>, n: nat, root: Place, name: seq<byte>)
    requires Finished(files, d) && PathsOk(files) && PathsAscii(files) && 1 <= n < 5 && IsDirectoryPlace(root, 0)
    requires LowerAll(name) == LowerAll(DirectoryName(n))
    ensures Fits(IMAGE, d) && Listable(IMAGE, View(IMAGE, d), root)
    ensures var q := Child(IMAGE, View(IMAGE, d), root, name); q.Some? && IsDirectoryPlace(q.value, n)
  {
    hide Finished, View, Fits, PathsOk, PathsAscii, DirEntries, Listing, Listable, LowerAll, DirectoryName,
         StartCluster, FileSize, Chain, IsChain;
    DirectoryListable(files, d, 0, root);
    DirectoryListed(files, d, n);
    ListableParts(View(IMAGE, d), root);
  }

  lemma ListableParts(v: Volume, p: Place)
    requires Listable(IMAGE, v, p)
    ensures InData(v, Chain(IMAGE, v, p))
  {
  }

  /** A directory leads to the files put there. */
  lemma DirectoryLeads(files: seq<File>, d: seq<byte>, k: nat, p: Place, name: seq<byte>)
    requires Finished(files, d) && PathsOk(files) && PathsAscii(files) && k < |files|
    requires HasPlace(files[k].path) && StoredAlone(files, k) && LowerAll(name) == StoredName(files[k].path)
    requires DirectoryOf(PathParts(files[k].path)) >= 0 && IsDirectoryPlace(p, DirectoryOf(PathParts(files[k].path)))
    ensures Fits(IMAGE, d) && Listable(IMAGE, View(IMAGE, d), p)
    ensures Child(IMAGE, View(IMAGE, d), p, name) == Some(Place(StartOf(files, k), |files[k].data|, false))
  {
    hide Finished, View, Fits, PathsAscii, DirEntries, Listing, Listable, LowerAll, StartCluster, FileSize, Chain,
         IsChain, PathParts, DirectoryOf, HasPlace, StoredAlone, StoredName, Records, AllRecords, RecordsFit,
             RecordsAscii,
         NamedOnce, DiskEntry, LongName, BuilderName, FileNameOf, Ascii, StartOf, RecordOf;
    var n := DirectoryOf(PathParts(files[k].path));
    DirectoryListable(files, d, n, p);
    ListableParts(View(IMAGE, d), p);
    DirectoryOnImage(files, d, n);
    RecordsAreAscii(files, |files|, n);
    var rs, r := AllRecords(n, Records(files, |files|, n)), RecordOf(files, k);
    Recorded(files, |files|, k);
    AmongAll(n, Records(files, |files|, n), r);
    AloneIsNamedOnce(files, k);
    RecordFound(rs, MAX_RECORDS - |rs|, r);
    RecordIsOk(rs, r);
    RecordFields(files, k, r);
    NameIsStored(files[k].path);
  }

  lemma AmongAll(n: nat, rs: seq<Record>, r: Record)
    requires r in rs
    ensures r in AllRecords(n, rs)
  {
  }

  lemma NotDot(name: seq<byte>)
    ensures LowerAll(name) != [DOT] ==> name != [DOT]
  {
    LowerDots();
  }

  lemma StoredNoDot(path: seq<byte>)
    ensures StoredName(path) != [DOT]
  {
    hide PathParts, LongName, BuilderName;
    var parts := PathParts(path);
    if parts != [] {
      NeverDots(if |parts| == 1 then parts[0] else parts[1]);
    }
  }

  lemma DirectoryNoDot(n: nat)
    requires 1 <= n < 5
    ensures LowerAll(DirectoryName(n)) != [DOT]
  {
    KnownNames();
    assert DirectoryName(n)[0] != DOT;
  }

  /** One step of a walk that ends where the path does. */
  lemma LastStep(v: Volume, p: Place, name: seq<byte>, q: Place)
    requires name != [DOT] && p.isDirectory && Listable(IMAGE, v, p) && Child(IMAGE, v, p, name) == Some(q)
    ensures Walkable(IMAGE, v, p, [name]) && Walk(IMAGE, v, p, [name]) == Some(q)
  {
    hide Child, Listable;
    assert [name][1..] == [];
    assert Walkable(IMAGE, v, q, []);
  }

  lemma FirstStep(v: Volume, p: Place, name: seq<byte>, q: Place, last: seq<byte>)
    requires name != [DOT] && p.isDirectory && Listable(IMAGE, v, p) && Child(IMAGE, v, p, name) == Some(q)
    requires Walkable(IMAGE, v, q, [last])
    ensures Walkable(IMAGE, v, p, [name, last]) && Walk(IMAGE, v, p, [name, last]) == Walk(IMAGE, v, q, [last])
  {
    hide Child, Listable;
    assert [name, last][1..] == [last];
  }

  /** The path of a file leads from the root to it. */
  lemma PathLeads(files: seq<File>, d: seq<byte>, k: nat, path: seq<byte>, root: Place)
    requires Finished(files, d) && PathsOk(files) && PathsAscii(files) && k < |files| && IsDirectoryPlace(root, 0)
    requires HasPlace(files[k].path) && StoredAlone(files, k) && Leads(path, files[k].path)
    ensures Fits(IMAGE, d) && Walkable(IMAGE, View(IMAGE, d), root, Tokens(path))
    ensures Walk(IMAGE, View(IMAGE, d), root, Tokens(path)) == Some(Place(StartOf(files, k), |files[k].data|, false))
  {
    hide Finished, View, Fits, PathsAscii, Listable, LowerAll, Chain, PathParts, DirectoryOf, StoredAlone, StoredName,
         StartOf, Child, Walk, Walkable, Tokens, DirectoryName, HasPlace, ParentOf;
    var own, ts := files[k].path, Tokens(path);
    DirectoryIsParent(own);
    StoredNoDot(own);
    var n := DirectoryOf(PathParts(own));
    var last := ts[|ts| - 1];
    NotDot(last);
    if n == 0 {
      RootParts(own);
      DirectoryLeads(files, d, k, root, last);
      LastStep(View(IMAGE, d), root, last, Place(StartOf(files, k), |files[k].data|, false));
      assert ts == [last];
    } else {
      ParentParts(own);
      DirectoryNoDot(n);
      NotDot(ts[0]);
      RootLeads(files, d, n, root, ts[0]);
      var q := Child(IMAGE, View(IMAGE, d), root, ts[0]).value;
      DirectoryLeads(files, d, k, q, last);
      LastStep(View(IMAGE, d), q, last, Place(StartOf(files, k), |files[k].data|, false));
      FirstStep(View(IMAGE, d), root, ts[0], q, last);
      assert ts == [ts[0], last];
    }
  }

  /** A path that goes on behind a file leads nowhere. */
  lemma DeeperLeadsNowhere(files: seq<File>, d: seq<byte>, k: nat, path: seq<byte>, root: Place)
    requires Finished(files, d) && PathsOk(files) && PathsAscii(files) && k < |files| && IsDirectoryPlace(root, 0)
    requires HasPlace(files[k].path) && StoredAlone(files, k) && ParentOf(files[k].path) != []
    requires var ts := Tokens(path);
             && |ts| > 2 && LowerAll(ts[0]) == LowerAll(ParentOf(files[k].path))
             && LowerAll(ts[1]) == StoredName(files[k].path) && ts[2] != [DOT]
    ensures Fits(IMAGE, d) && Walkable(IMAGE, View(IMAGE, d), root, Tokens(path))
    ensures Walk(IMAGE, View(IMAGE, d), root, Tokens(path)).None?
  {
    hide Finished, View, Fits, PathsAscii, Listable, LowerAll, Chain, PathParts, DirectoryOf, StoredAlone, StoredName,
         StartOf, Child, Walk, Walkable, Tokens, DirectoryName, HasPlace, ParentOf;
    var own, ts := files[k].path, Tokens(path);
    DirectoryIsParent(own);
    StoredNoDot(own);
    var n := DirectoryOf(PathParts(own));
    DirectoryNoDot(n);
    NotDot(ts[0]);
    NotDot(ts[1]);
    RootLeads(files, d, n, root, ts[0]);
    var v := View(IMAGE, d);
    var q := Child(IMAGE, v, root, ts[0]).value;
    DirectoryLeads(files, d, k, q, ts[1]);
    var f := Child(IMAGE, v, q, ts[1]).value;
    NotThroughFile(v, f, ts[2..]);
    StepInto(v, q, ts[1..], f);
    StepInto(v, root, ts, q);
    assert ts[1..][1..] == ts[2..];
  }

  lemma NotThroughFile(v: Volume, f: Place, ts: seq<seq<byte>>)
    requires !f.isDirectory && ts != [] && ts[0] != [DOT]
    ensures Walkable(IMAGE, v, f, ts) && Walk(IMAGE, v, f, ts).None?
  {
  }

  lemma StepInto(v: Volume, p: Place, ts: seq<seq<byte>>, q: Place)
    requires ts != [] && ts[0] != [DOT] && p.isDirectory && Listable(IMAGE, v, p)
             && Child(IMAGE, v, p, ts[0]) == Some(q)
    requires Walkable(IMAGE, v, q, ts[1..])
    ensures Walkable(IMAGE, v, p, ts) && Walk(IMAGE, v, p, ts) == Walk(IMAGE, v, q, ts[1..])
  {
    hide Child, Listable;
  }

  lemma RootParts(path: seq<byte>)
    requires HasPlace(path) && ParentOf(path) == []
    ensures |PathParts(path)| == 1
  {
    hide PathParts;
    KnownNames();
  }

  lemma ParentParts(path: seq<byte>)
    requires ParentOf(path) != []
    ensures |PathParts(path)| > 1 && PathParts(path)[0] == ParentOf(path)
  {
    hide PathParts;
  }

  // ---- a file's own path ----

  lemma {:induction false} UpperParts(p: seq<byte>, cur: seq<byte>)
    ensures |Paths.Parts(UpperAll(p), UpperAll(cur))| == |Paths.Parts(p, cur)|
    ensures forall i :: 0 <= i < |Paths.Parts(p, cur)| ==>
              Paths.Parts(UpperAll(p), UpperAll(cur))[i] == UpperAll(Paths.Parts(p, cur)[i])
    decreases |p|
  {
    var u := UpperAll(p);
    if p == [] {
      assert u == [] && (UpperAll(cur) == [] <==> cur == []);
    } else {
      assert u[1..] == UpperAll(p[1..]) && (u[0] == Paths.SLASH <==> p[0] == Paths.SLASH);
      if p[0] == Paths.SLASH {
        UpperParts(p[1..], []);
        assert UpperAll([]) == [] && (UpperAll(cur) == [] <==> cur == []);
      } else {
        UpperParts(p[1..], cur + [p[0]]);
        assert UpperAll(cur + [p[0]]) == UpperAll(cur) + [u[0]];
      }
    }
  }

  lemma LowerUpper(s: seq<byte>)
    ensures LowerAll(UpperAll(s)) == LowerAll(s)
  {
  }

  lemma UpperLower(s: seq<byte>)
    ensures UpperAll(LowerAll(s)) == UpperAll(s)
  {
  }

  lemma UpperNames()
    ensures UpperAll(Text("bin")) == BIN && UpperAll(Text("lib")) == LIB && UpperAll(Text("include")) == INCLUDE
    ensures UpperAll(Text("home")) == HOME
  {
  }

  /** In whatever case it is written, a path has a place on the image exactly when it has one component, or its first
      one is `bin`, `lib`, `include` or `home`. */
  lemma HasPlaceIff(path: seq<byte>)
    ensures var cs := Paths.Components(path);
            HasPlace(path) <==>
            |cs| == 1 || (|cs| > 1 && LowerAll(cs[0]) in [Text("bin"), Text("lib"), Text("include"), Text("home")])
  {
    hide LowerAll, UpperAll, Paths.Parts, Text;
    UpperNone();
    UpperParts(path, []);
    KnownNames();
    UpperNames();
    var cs := Paths.Components(path);
    if |cs| > 1 {
      LowerUpper(cs[0]);
      UpperLower(cs[0]);
    }
  }

  /** Paths of one or two parts, as the packaging tool uses them, lead to their files exactly when 8.3 can hold the name
      and it has at most one dot; a path of more parts does not: only its second part is kept. */
  lemma OwnPathLeadsIff(path: seq<byte>)
    requires Plain(path) && PathParts(path) != []
    ensures Leads(path, path)
            <==> |PathParts(path)| <= 2
                 && var name := PathParts(path)[|PathParts(path)| - 1]; FitsShort(name) && OneDotAtMost(name)
  {
    hide FitsShort, OneDotAtMost, LongName, BuilderName, LowerAll, UpperAll, Plain, Tokens, Paths.Parts;
    TokensAreComponents(path);
    UpperNone();
    UpperParts(path, []);
    var ts, parts := Tokens(path), PathParts(path);
    var i := |parts| - 1;
    OwnNameIff(parts[i]);
    LowerUpper(ts[i]);
    LowerUpper(ts[0]);
  }

  lemma UpperNone()
    ensures UpperAll([]) == []
  {
  }

  // ---- building, mounting, walking, reading ----

  lemma RootStands(fs: Fat32, root: FatNode)
    requires fs.g == IMAGE && IsChain(IMAGE, fs.vol.table, [ROOT]) && root.chain == [ROOT] && root.firstCluster == ROOT
    ensures StandsAt(fs, root, PlaceOf(root))
  {
    hide IsChain, ChainFrom;
    ImageGeometry();
    ChainFromUnique(IMAGE, fs.vol.table, ROOT, [ROOT]);
  }

  /** Builds an image, finds its partition, mounts it, and walks a path that leads to a file from the root, directory by
      directory: the kernel gets there, and reads the file's bytes. */
  method BuildWalkRead(files: seq<File>, k: nat, path: seq<byte>, offset: nat, size: nat)
      returns (found: bool, bytes: seq<byte>)
    requires Packable(files) && PathsAscii(files) && PathsOk(files) && k < |files| && 0 !in path
    requires HasPlace(files[k].path) && StoredAlone(files, k) && Leads(path, files[k].path)
    requires size < 0x8000_0000 && offset / CLUSTER < U32 && offset + size < U32 * U32
    ensures found && bytes == Clip(files[k].data, offset, size)
  {
    hide Packable, FilesIn, DirectoriesIn, TablesHold, Finished, Contents, View, Fits, Clip, Wanted, Position, IsChain,
         PathsOk, Needed, PathParts, HasPlace, StoredAlone, Leads, Walkable, Walk, Tokens, StartOf;
    hide NodeReadable, Fat32.Valid, Probed, ChainFrom, Partitions.Probed;
    var image := BuildImage(files);
    ImageGeometry();
    ghost var d := image.disk;
    BuiltIsFinished(files, image);
    FileOnImage(files, d, k);
    RootOnImage(files, d, 0);
    ProbeFindsThePartition(image);
    ProbeFindsTheVolume(image);
    var table := Partitions.PartitionProbe(image.disk);
    var start := table.parts[0].start;
    var p := Fat32Probe(image.disk[start * SECTOR..(start + 1) * SECTOR], start);
    var fs := new Fat32(p.g, image.disk);
    Mounted(fs);
    var root := new FatNode(0, p.root, 0, 0, true, [ROOT]);
    RootStands(fs, root);
    PathLeads(files, d, k, path, PlaceOf(root));
    var node := ResolveRelative(fs, root, path);
    found, bytes := node != null, [];
    if node != null {
      ChainFromUnique(IMAGE, fs.vol.table, node.firstCluster, ChainOf(files, k));
      MountedReadable(fs, node);
      PositionIsOffset(IMAGE, offset);
      var _, got := VnodeRead(fs, node, offset, size);
      bytes := got;
      ClipPadded(files[k].data, Zeros(Needed(|files[k].data|) * CLUSTER - |files[k].data|), offset, size);
    }
  }
}