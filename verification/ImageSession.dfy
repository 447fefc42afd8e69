/** Any sequence of calls on a directory of a built image: programs get the files the image was built from. */
module ImageSession {
  import opened Bytes
  import opened FatTable
  import opened FatChains
  import opened FatDriver
  import opened FatContents
  import opened FatDirent
  import opened FatFile
  import opened FatWrite
  import opened FatNames
  import opened FatOwnership
  import opened FatDirectory
  import opened FatDirOps
  import opened FatSession
  import opened ImageLayout
  import opened ImageBuilder
  import opened ImageReads
  import opened ImageState
  import opened FatRuns

  // ---- the files of a directory of the image ----

  function RecordKey(r: Record): seq<byte> { LongName(BuilderName(r.name)) }

  /** No two records are stored under `key`. */
  ghost predicate RecordedOnce(rs: seq<Record>, key: seq<byte>) {
    forall i, j :: 0 <= i < j < |rs| ==> !(RecordKey(rs[i]) == key && RecordKey(rs[j]) == key)
  }

  /** File `k` was put into the n-th directory under `key`, and nothing else was. */
  ghost predicate StoredUnder(files: seq<File>, n: nat, k: nat, key: seq<byte>)
    requires PathsOk(files)
  {
    && k < |files| && DirectoryOf(PathParts(files[k].path)) == n && RecordKey(RecordOf(files, k)) == key
    && RecordedOnce(RecordsOf(files, n), key)
  }

  /** Any files of the directory that have names of their own, by these names. */
  ghost predicate Chosen(files: seq<File>, n: nat, which: map<seq<byte>, nat>)
    requires PathsOk(files)
  {
    forall key :: key in which ==> StoredUnder(files, n, which[key], key)
  }

  ghost function ImageFiles(files: seq<File>, which: map<seq<byte>, nat>): Files
    requires forall key :: key in which ==> which[key] < |files|
  {
    map key | key in which :: files[which[key]].data
  }

  ghost function ImageFileChains(files: seq<File>, which: map<seq<byte>, nat>): Chains
    requires forall key :: key in which ==> which[key] < |files|
  {
    map key | key in which :: ChainOf(files, which[key])
  }

  // ---- each of them is stored as the runs need it ----

  lemma OnceIsNamedOnce(rs: seq<Record>, r: Record)
    requires r in rs && RecordedOnce(rs, RecordKey(r))
    ensures NamedOnce(rs, r)
  {
    hide BuilderName, LongName;
    var j :| 0 <= j < |rs| && rs[j] == r;
    forall i | 0 <= i < |rs| && rs[i] != r
      ensures LongName(BuilderName(rs[i].name)) != LongName(BuilderName(r.name))
    {
      assert RecordKey(rs[i]) == LongName(BuilderName(rs[i].name)) && RecordKey(rs[j]) == RecordKey(r);
    }
  }

  lemma OnceIsKeyOnce(rs: seq<Record>, n: nat, key: seq<byte>)
    requires RecordsFit(rs) && RecordsAscii(rs) && RecordedOnce(rs, key)
    ensures KeyOnce(DiskEntries(rs) + ZeroEntries(n), key)
  {
    hide BuilderName, LongName, DiskEntry, Key, IsLive;
    var es := DiskEntries(rs) + ZeroEntries(n);
    forall j | 0 <= j < |rs|
      ensures Key(es[j]) == RecordKey(rs[j])
    {
      RecordVisible(rs[j]);
    }
  }

  lemma PaddedHolds(contents: seq<byte>, data: seq<byte>, n: nat)
    requires contents == data + Zeros(n)
    ensures Holds(contents, data)
  {
  }

  /** The entry of file `k` and what it leads to. */
  lemma EntryOfFile(files: seq<File>, d: seq<byte>, n: nat, k: nat, key: seq<byte>)
    requires Finished(files, d) && PathsOk(files) && PathsAscii(files) && n < 5 && StoredUnder(files, n, k, key)
    ensures InData(View(IMAGE, d), [ROOT + n])
    ensures var es := DirEntries(View(IMAGE, d), [ROOT + n]);
            && KeyOnce(es, key) && key in Listing(es) && StartCluster(Listing(es)[key]) == StartOf(files, k)
            && FileSize(Listing(es)[key]) == |files[k].data| && Attributes(Listing(es)[key]) / ATTR_DIRECTORY % 2 == 0
  {
    hide Finished, View, IsChain, Records, AllRecords, DirEntries, Listing, PathsAscii, RecordsFit, RecordsAscii,
         NamedOnce, DiskEntry, StartCluster, FileSize, KeyOnce, LongName, BuilderName, PathParts, DirectoryOf,
         FileNameOf, Ascii, RecordedOnce, StartOf;
    DirectoryOnImage(files, d, n);
    RecordsAreAscii(files, |files|, n);
    var rs, r := AllRecords(n, Records(files, |files|, n)), RecordOf(files, k);
    Recorded(files, |files|, k);
    RecordAmongAll(n, Records(files, |files|, n), r);
    OnceIsNamedOnce(rs, r);
    RecordFound(rs, MAX_RECORDS - |rs|, r);
    OnceIsKeyOnce(rs, MAX_RECORDS - |rs|, key);
    RecordIsOk(rs, r);
    RecordFields(files, k, r);
  }

  lemma RecordAmongAll(n: nat, rs: seq<Record>, r: Record)
    requires r in rs
    ensures r in AllRecords(n, rs)
  {
  }

  lemma ImageFileOf(files: seq<File>, d: seq<byte>, k: nat, e: Entry)
    requires Finished(files, d) && k < |files| && StartCluster(e) == StartOf(files, k)
    requires FileSize(e) == |files[k].data| && Attributes(e) / ATTR_DIRECTORY % 2 == 0
    ensures FileOf(IMAGE, View(IMAGE, d), e, ChainOf(files, k), files[k].data)
  {
    hide Finished, View, IsChain, StartCluster, FileSize, Contents, Holds, StartOf, Needed;
    ImageTable(files, d);
    FileOnImage(files, d, k);
    PaddedHolds(Contents(View(IMAGE, d), ChainOf(files, k)), files[k].data,
                Needed(|files[k].data|) * CLUSTER - |files[k].data|);
  }

  /** File chains start behind the directories. */
  lemma BehindDirectories(files: seq<File>, k: nat, around: seq<nat>)
    requires k < |files| && forall c :: c in around ==> c < FIRST_FILE
    ensures Disjoint(ChainOf(files, k), around)
  {
    hide StartOf, Needed;
  }

  lemma ImageFilesOk(files: seq<File>, d: seq<byte>, n: nat, which: map<seq<byte>, nat>, around: seq<nat>)
    requires Finished(files, d) && PathsOk(files) && PathsAscii(files) && n < 5 && Chosen(files, n, which)
    requires forall c :: c in around ==> c < FIRST_FILE
    ensures InData(View(IMAGE, d), [ROOT + n])
    ensures FilesOk(IMAGE, View(IMAGE, d), DirEntries(View(IMAGE, d), [ROOT + n]), around, ImageFiles(files, which),
                    ImageFileChains(files, which))
  {
    hide Finished, View, DirEntries, Listing, PathsAscii, PathsOk, StartCluster, FileSize, KeyOnce, FileOf,
         StoredUnder, ChainOf, Disjoint;
    ImageTable(files, d);
    DirectoryOnImage(files, d, n);
    var v, es := View(IMAGE, d), DirEntries(View(IMAGE, d), [ROOT + n]);
    forall key | key in which
      ensures which[key] < |files| && Stored(IMAGE, v, es, around, key, ChainOf(files, which[key]),
                                             files[which[key]].data)
    {
      UnderIsFile(files, n, which[key], key);
      EntryOfFile(files, d, n, which[key], key);
      ImageFileOf(files, d, which[key], Listing(es)[key]);
      BehindDirectories(files, which[key], around);
    }
    forall i, j | i in which && j in which && i != j
      ensures Disjoint(ChainOf(files, which[i]), ChainOf(files, which[j]))
    {
      OtherFile(files, n, which[i], i, which[j], j);
      if which[i] < which[j] {
        ChainsApart(files, which[i], which[j]);
      } else {
        ChainsApart(files, which[j], which[i]);
      }
    }
  }

  lemma UnderIsFile(files: seq<File>, n: nat, k: nat, key: seq<byte>)
    requires PathsOk(files) && StoredUnder(files, n, k, key)
    ensures k < |files|
  {
  }

  lemma OtherFile(files: seq<File>, n: nat, i: nat, a: seq<byte>, j: nat, b: seq<byte>)
    requires PathsOk(files) && StoredUnder(files, n, i, a) && StoredUnder(files, n, j, b) && a != b
    ensures i < |files| && j < |files| && i != j
  {
    hide RecordedOnce, RecordKey;
  }

  lemma ChainsApart(files: seq<File>, i: nat, j: nat)
    requires i < j < |files|
    ensures Disjoint(ChainOf(files, i), ChainOf(files, j)) && Disjoint(ChainOf(files, j), ChainOf(files, i))
  {
    hide StartOf, Needed;
    StartsGrow(files, i, j);
  }

  // ---- runs ----

  ghost predicate MayAsk(files: seq<File>, n: nat, which: map<seq<byte>, nat>, ops: seq<Op>)
    requires PathsOk(files)
  {
    forall i :: 0 <= i < |ops| ==>
      Allowed(ops[i]) && (LowerAll(ops[i].name) in which || NameUnused(RecordsOf(files, n), LowerAll(ops[i].name)))
  }

  lemma ImageMayRun(files: seq<File>, d: seq<byte>, n: nat, which: map<seq<byte>, nat>, ops: seq<Op>)
    requires Finished(files, d) && PathsOk(files) && PathsAscii(files) && n < 5 && Chosen(files, n, which)
             && MayAsk(files, n, which, ops)
    ensures InData(View(IMAGE, d), [ROOT + n])
    ensures MayRun(ops, Listing(DirEntries(View(IMAGE, d), [ROOT + n])) - ImageFiles(files, which).Keys)
  {
    hide Finished, View, DirEntries, Listing, PathsAscii, PathsOk, StoredUnder, NameUnused, LowerAll, Allowed,
         DirectoryOk, HasSlot, IsChain, RecordsOf;
    ImageTable(files, d);
    DirectoryOnImage(files, d, n);
    forall key | key in which
      ensures which[key] < |files|
    {
      UnderIsFile(files, n, which[key], key);
    }
    forall i | 0 <= i < |ops|
      ensures LowerAll(ops[i].name) in which
              || LowerAll(ops[i].name) !in Listing(DirEntries(View(IMAGE, d), [ROOT + n]))
    {
      DirectoryIsReady(files, d, n, LowerAll(ops[i].name));
    }
  }

  lemma ImageRepresents(fs: Fat32, dir: FatNode, files: seq<File>, n: nat, which: map<seq<byte>, nat>)
    requires fs.g == IMAGE && fs.Valid() && Finished(files, fs.disk) && PathsOk(files) && PathsAscii(files) && n < 5
             && Chosen(files, n, which)
    requires NodeOk(fs, dir) && dir.chain == [ROOT + n] && dir.dirCluster in [0, ROOT]
    ensures forall key :: key in which ==> which[key] < |files|
    ensures Represents(fs, dir, ImageFiles(files, which), ImageFileChains(files, which))
    ensures InData(fs.vol, dir.chain)
    ensures Others(fs, dir, ImageFiles(files, which)) == Listing(DirEntries(fs.vol, dir.chain)) - ImageFiles(files,
            which).Keys
  {
    hide Finished, View, DirEntries, Listing, PathsAscii, PathsOk, StoredUnder, DirectoryOk, HasSlot, IsChain,
         RecordsOf, NodeOk, Fat32.Valid, FilesOk, NameUnused, LinksInRange, Fits;
    var d := fs.disk;
    Mounted(fs);
    ImageTable(files, d);
    DirectoryIsReady(files, d, n, []);
    forall key | key in which
      ensures which[key] < |files|
    {
      UnderIsFile(files, n, which[key], key);
    }
    ImageFilesOk(files, d, n, which, Around(dir));
    RepresentsAgain(fs, dir, ImageFiles(files, which), ImageFileChains(files, which));
  }

  lemma NoneFailed(ops: seq<Op>, answers: seq<Answer>, tables: seq<seq<nat>>, t: seq<nat>)
    requires FailsWhenFull(ops, answers, tables) && AllOutside(IMAGE, t, tables) && |t| == IMAGE.Entries() > 7870
             && t[7870] == FREE
    ensures forall i :: 0 <= i < |answers| ==> !Failed(ops[i], answers[i])
  {
    hide Failed, NoFree;
    forall i | 0 <= i < |answers|
      ensures !Failed(ops[i], answers[i])
    {
      NeverFull(t, tables[i]);
    }
  }

  /** Builds an image, mounts it, opens one of its five directories and makes any sequence of calls there: if the
      builder left the clusters they may take, every answer is the one a map that starts with the image's files
      gives. */
  method BuildAndRun(files: seq<File>, n: nat, dirName: seq<byte>, ops: seq<Op>, ghost which: map<seq<byte>, nat>)
      returns (answers: seq<Answer>)
    requires Packable(files) && PathsOk(files) && PathsAscii(files)
    requires n < 5 && (n > 0 ==> LowerAll(dirName) == LowerAll(DirectoryName(n)))
    requires Chosen(files, n, which) && MayAsk(files, n, which, ops) && IMAGE.Valid()
    requires FirstFree(files) + AllTake(IMAGE, ops) <= IMAGE.End()
    ensures |answers| == |ops| && forall key :: key in which ==> which[key] < |files|
    ensures forall i :: 0 <= i < |ops| ==> answers[i] == Reply(AppliedAll(ImageFiles(files, which), ops[..i]), ops[i])
  {
    hide *;
    var image := BuildImage(files);
    ghost var d := image.disk;
    BuiltIsFinished(files, image);
    FreeOutside(files, d);
    var fs := new Fat32(IMAGE, image.disk);
    Mounted(fs);
    var dir := OpenDirectory(fs, files, n, dirName);
    ImageRepresents(fs, dir, files, n, which);
    ImageMayRun(files, d, n, which, ops);
    ImageRoomIff(files, d, AllTake(IMAGE, ops));
    ghost var t := fs.vol.table;
    ghost var trace, tables, chains;
    answers, trace, tables, chains := RunAll(fs, dir, ops, ImageFiles(files, which), ImageFileChains(files, which));
    NoneFailed(ops, answers, tables, t);
    RunIsApplied(ops, answers, trace, |ops|);
  }
}
