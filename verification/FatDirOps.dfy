/** Looking up, creating and removing directory entries on disk (kernel/fs/fat32.cpp:533-807). */
module FatDirOps {
  import opened Bytes
  import opened FatTable
  import opened FatChains
  import opened FatDriver
  import opened FatContents
  import opened FatDirent
  import opened FatFile
  import opened FatWrite
  import opened FatNames
  import opened FatOwnership
  import opened FatDirectory

  /** Directory entries per cluster. */
  function PerCluster(g: Geometry): nat { g.spc * 16 }

  /** The position in the directory of entry `i` of the k-th cluster. */
  function EntryPosition(g: Geometry, k: nat, i: nat): nat { k * PerCluster(g) + i }

  ghost function DirEntries(v: Volume, cs: seq<nat>): seq<Entry>
    requires InData(v, cs)
  {
    EntriesOf(Contents(v, cs))
  }

  lemma EntryAt(g: Geometry, v: Volume, cs: seq<nat>, k: nat, i: nat)
    requires Shaped(g, v) && InData(v, cs) && k < |cs| && i < PerCluster(g)
    ensures |EntriesOf(v.data[cs[k] - 2])| == PerCluster(g)
    ensures |DirEntries(v, cs)| == |cs| * PerCluster(g) && k * PerCluster(g) + i < |cs| * PerCluster(g)
    ensures DirEntries(v, cs)[k * PerCluster(g) + i] == EntriesOf(v.data[cs[k] - 2])[i]
    ensures i * ENTRY_SIZE + ENTRY_SIZE <= g.Bpc()
  {
    hide Contents, Geometry.Valid, InData;
    EntryCount(g, v, cs);
    ReadStep(g, v, cs, k, i * ENTRY_SIZE, ENTRY_SIZE);
    EntryIndex(g, k, i);
    MulLe(k + 1, |cs|, PerCluster(g));
    MulSucc(k, PerCluster(g));
  }

  lemma EntryIndex(g: Geometry, k: nat, i: nat)
    ensures (k * PerCluster(g) + i) * ENTRY_SIZE == k * g.Bpc() + i * ENTRY_SIZE
  {
    assert PerCluster(g) * ENTRY_SIZE == g.Bpc();
    MulAssociative(k, PerCluster(g), ENTRY_SIZE);
  }

  lemma MulAssociative(a: nat, b: nat, c: nat)
    ensures a * b * c == a * (b * c)
  {
  }

  lemma EntryCount(g: Geometry, v: Volume, cs: seq<nat>)
    requires Shaped(g, v) && InData(v, cs)
    ensures |DirEntries(v, cs)| == |cs| * PerCluster(g)
  {
    ContentsLength(g, v, cs);
    EntryIndex(g, |cs|, 0);
  }

  lemma EntriesSpliced(d: seq<byte>, at: nat, e: Entry)
    requires at * ENTRY_SIZE + ENTRY_SIZE <= |d|
    ensures at < |EntriesOf(d)| && EntriesOf(Splice(d, at * ENTRY_SIZE, e)) == EntriesOf(d)[at := e]
  {
    var a, b := EntriesOf(Splice(d, at * ENTRY_SIZE, e)), EntriesOf(d)[at := e];
    forall i | 0 <= i < |b|
      ensures a[i] == b[i]
    {
      assert i < at ==> i * ENTRY_SIZE + ENTRY_SIZE <= at * ENTRY_SIZE;
      assert i > at ==> at * ENTRY_SIZE + ENTRY_SIZE <= i * ENTRY_SIZE;
    }
  }

  /** From `v` to `v'` the directory with chain `cs` had entry `at` replaced by `e`. */
  ghost predicate EntrySet(v: Volume, v': Volume, cs: seq<nat>, at: nat, e: Entry) {
    InData(v, cs) && InData(v', cs) && at < |DirEntries(v, cs)| && DirEntries(v', cs) == DirEntries(v, cs)[at := e]
  }

  /** Storing an entry in a directory cluster is replacing one entry of the directory. */
  lemma EntryWritten(g: Geometry, v: Volume, v': Volume, cs: seq<nat>, k: nat, i: nat, e: Entry)
    requires Shaped(g, v) && IsChain(g, v.table, cs) && k < |cs| && i < PerCluster(g)
    requires 2 <= cs[k] < |v.data| + 2 && i * ENTRY_SIZE + ENTRY_SIZE <= |v.data[cs[k] - 2]|
    requires v' == WithEntry(v, cs[k], i * ENTRY_SIZE, e)
    ensures EntrySet(v, v', cs, k * PerCluster(g) + i, e)
  {
    hide Contents, Splice;
    ContentsSplice(g, v, v', cs, k, i * ENTRY_SIZE, e);
    EntryIndex(g, k, i);
    EntriesSpliced(Contents(v, cs), k * PerCluster(g) + i, e);
  }

  /** Scanning one cluster further. */
  lemma PassedCluster(g: Geometry, v: Volume, cs: seq<nat>, k: nat, i: nat, key: seq<byte>)
    requires Shaped(g, v) && InData(v, cs) && k < |cs| && i <= PerCluster(g)
    requires Passed(DirEntries(v, cs), k * PerCluster(g), key) && Passed(EntriesOf(v.data[cs[k] - 2]), i, key)
    ensures Passed(DirEntries(v, cs), k * PerCluster(g) + i, key)
  {
    hide DirEntries, Key, IsLive, Contents, EntriesOf;
    var es, cluster := DirEntries(v, cs), EntriesOf(v.data[cs[k] - 2]);
    EntryCount(g, v, cs);
    MulLe(k + 1, |cs|, PerCluster(g));
    MulSucc(k, PerCluster(g));
    forall j | 0 <= j < k * PerCluster(g) + i
      ensures !IsEnd(es[j]) && !(IsLive(es[j]) && Key(es[j]) == key)
    {
      if j >= k * PerCluster(g) {
        EntryAt(g, v, cs, k, j - k * PerCluster(g));
        assert es[j] == cluster[j - k * PerCluster(g)];
      }
    }
  }

  datatype Scan = Found(i: nat) | Ended(i: nat) | Exhausted

  /** The inner loop of lookup and remove, on one cluster, as far as it compares short names. */
  method ScanCluster(buf: seq<byte>, name: seq<byte>) returns (s: Scan)
    ensures match s
            case Found(i) => i < |EntriesOf(buf)| && Passed(EntriesOf(buf), i, LowerAll(name))
                && IsVisible(EntriesOf(buf)[i])
                             && Key(EntriesOf(buf)[i]) == LowerAll(name)
            case Ended(i) => i < |EntriesOf(buf)| && Passed(EntriesOf(buf), i, LowerAll(name))
                && IsEnd(EntriesOf(buf)[i])
            case Exhausted => Passed(EntriesOf(buf), |EntriesOf(buf)|, LowerAll(name))
  {
    hide LowerAll, Strip, LongName, EntriesOf;
    ghost var es := EntriesOf(buf);
    var i := 0;
    while i < |buf| / ENTRY_SIZE
      invariant 0 <= i <= |es| == |buf| / ENTRY_SIZE && Passed(es, i, LowerAll(name))
    {
      var ent: Entry := EntryIn(buf, i * ENTRY_SIZE);
      assert ent == es[i];
      KeyIsLower(ent, name);
      var firstByte := ent[0];
      if firstByte == 0x00 { return Ended(i); }
      if firstByte != DELETED && Attributes(ent) != ATTR_LFN && Attributes(ent) / ATTR_VOLUME_ID % 2 == 0 {
        var formatted := FormatShortName(Name(ent), 64);
        assert formatted == Key(ent);
        var matched := EqualsIgnoreCase(formatted, name);
        if matched { return Found(i); }
      }
      i := i + 1;
    }
    s := Exhausted;
  }

  /** The entry a lookup or removal works on: position `at` of the directory, entry `i` of its k-th cluster. */
  ghost predicate HitAt(g: Geometry, es: seq<Entry>, k: nat, i: nat, key: seq<byte>) {
    && i < PerCluster(g) && EntryPosition(g, k, i) < |es|
    && Passed(es, EntryPosition(g, k, i), key) && IsVisible(es[EntryPosition(g, k, i)])
    && Key(es[EntryPosition(g, k, i)]) == key
  }

  ghost predicate NothingBefore(g: Geometry, es: seq<Entry>, k: nat, key: seq<byte>) {
    Passed(es, k * PerCluster(g), key)
  }

  lemma ClusterEntries(g: Geometry, v: Volume, cs: seq<nat>, k: nat)
    requires Shaped(g, v) && InData(v, cs) && k < |cs|
    ensures |EntriesOf(v.data[cs[k] - 2])| == PerCluster(g)
  {
  }

  /** What one cluster's scan says about the directory. */
  lemma ScanMeans(g: Geometry, v: Volume, cs: seq<nat>, k: nat, s: Scan, key: seq<byte>)
    requires Shaped(g, v) && InData(v, cs) && k < |cs| && NothingBefore(g, DirEntries(v, cs), k, key)
    requires var es := EntriesOf(v.data[cs[k] - 2]);
             match s
             case Found(i) => i < |es| && Passed(es, i, key) && IsVisible(es[i]) && Key(es[i]) == key
             case Ended(i) => i < |es| && Passed(es, i, key) && IsEnd(es[i])
             case Exhausted => Passed(es, |es|, key)
    ensures s.Found? ==> HitAt(g, DirEntries(v, cs), k, s.i, key)
    ensures s.Ended? ==> key !in Listing(DirEntries(v, cs))
    ensures s.Exhausted? ==> NothingBefore(g, DirEntries(v, cs), k + 1, key)
  {
    hide DirEntries, Key, IsLive, Contents, EntriesOf, Listing, Passed;
    assert |EntriesOf(v.data[cs[k] - 2])| == PerCluster(g);
    MulSucc(k, PerCluster(g));
    match s
    case Found(i) =>
      PassedCluster(g, v, cs, k, i, key);
      EntryAt(g, v, cs, k, i);
    case Ended(i) =>
      PassedCluster(g, v, cs, k, i, key);
      EntryAt(g, v, cs, k, i);
      ListingMiss(DirEntries(v, cs), k * PerCluster(g) + i, key);
    case Exhausted =>
      PassedCluster(g, v, cs, k, PerCluster(g), key);
  }

  /** The two nested loops of lookup and remove up to the match. */
  method FindEntry(fs: Fat32, dir: FatNode, name: seq<byte>)
      returns (curr: nat, i: nat, found: bool, ghost k: nat, buf: seq<byte>)
    requires NodeReadable(fs, dir) && InData(fs.vol, dir.chain)
    ensures !found ==> LowerAll(name) !in Listing(DirEntries(fs.vol, dir.chain))
    ensures found ==> k < |dir.chain| && curr == dir.chain[k] && 2 <= curr < fs.g.End()
                      && |fs.vol.data| == fs.g.clusters
    ensures found ==> buf == fs.vol.data[curr - 2] && HitAt(fs.g, DirEntries(fs.vol, dir.chain), k, i, LowerAll(name))
  {
    hide *;
    ReadableFacts(fs, dir);
    ghost var cs, es, key := dir.chain, DirEntries(fs.vol, dir.chain), LowerAll(name);
    curr, k, i, found, buf := dir.firstCluster, 0, 0, false, [];
    NothingBeforeFirst(fs.g, es, key);
    while curr >= 2 && curr < EOC
      invariant AtCluster(fs.g, cs, k, curr) && NothingBefore(fs.g, es, k, key) && k <= |cs|
      decreases |cs| - k
    {
      AtNext(fs.g, fs.vol.table, cs, k, curr);
      ClusterEntries(fs.g, fs.vol, cs, k);
      buf := fs.ReadCluster(curr);
      var s := ScanCluster(buf, name);
      ScanMeans(fs.g, fs.vol, cs, k, s, key);
      match s
      case Ended(_) => return;
      case Found(at) =>
        i, found := at, true;
        return;
      case Exhausted =>
      curr := fs.GetNextCluster(curr);
      k := k + 1;
    }
    NothingLeft(fs.g, fs.vol, cs, k, curr, key);
  }

  lemma NothingBeforeFirst(g: Geometry, es: seq<Entry>, key: seq<byte>)
    ensures NothingBefore(g, es, 0, key)
  {
  }

  lemma NothingLeft(g: Geometry, v: Volume, cs: seq<nat>, k: nat, curr: nat, key: seq<byte>)
    requires Shaped(g, v) && InData(v, cs) && k <= |cs| && NothingBefore(g, DirEntries(v, cs), k, key)
    requires AtCluster(g, cs, k, curr) && (curr < 2 || curr >= EOC)
    ensures key !in Listing(DirEntries(v, cs))
  {
    hide DirEntries, Contents, Listing;
    EntryCount(g, v, cs);
    ListingMiss(DirEntries(v, cs), |cs| * PerCluster(g), key);
  }

  // ---- lookup ----

  /** The complete chain that starts at `start`, if there is one. */
  ghost function ChainFrom(g: Geometry, t: seq<nat>, start: nat): (cs: seq<nat>)
    ensures cs != [] ==> IsChain(g, t, cs) && cs[0] == start
  {
    if exists cs: seq<nat> :: IsChain(g, t, cs) && cs[0] == start then
      var cs: seq<nat> :| IsChain(g, t, cs) && cs[0] == start;
      cs
    else []
  }

  lemma ChainFromUnique(g: Geometry, t: seq<nat>, start: nat, cs: seq<nat>)
    requires g.End() <= EOC && IsChain(g, t, cs) && cs[0] == start
    ensures ChainFrom(g, t, start) == cs
  {
    ChainsMerge(g, t, ChainFrom(g, t, start), cs, 0, 0);
    assert ChainFrom(g, t, start)[0..] == ChainFrom(g, t, start) && cs[0..] == cs;
  }

  /** `node` is what opening directory entry `e` gives: the fields of the entry, and the place where it lies. */
  ghost predicate Opens(v: Volume, cs: seq<nat>, e: Entry, node: FatNode)
    reads node
  {
    && node.firstCluster == StartCluster(e) && node.size == FileSize(e)
    && (node.isDirectory <==> Attributes(e) / ATTR_DIRECTORY % 2 == 1)
    && node.dirCluster in cs && 2 <= node.dirCluster < |v.data| + 2
    && node.dirEntryOffset % ENTRY_SIZE == 0 && node.dirEntryOffset + ENTRY_SIZE <= |v.data[node.dirCluster - 2]|
    && EntryIn(v.data[node.dirCluster - 2], node.dirEntryOffset) == e
  }

  /** Facts about the entry a scan stopped at. */
  lemma HitFacts(g: Geometry, v: Volume, cs: seq<nat>, k: nat, i: nat, key: seq<byte>)
    requires Shaped(g, v) && InData(v, cs) && k < |cs| && HitAt(g, DirEntries(v, cs), k, i, key)
    ensures 2 <= cs[k] < |v.data| + 2 && |v.data[cs[k] - 2]| == g.Bpc() && i * ENTRY_SIZE + ENTRY_SIZE <= g.Bpc()
    ensures i < PerCluster(g)
    ensures key in Listing(DirEntries(v, cs))
    ensures Listing(DirEntries(v, cs))[key] == EntryIn(v.data[cs[k] - 2], i * ENTRY_SIZE)
    ensures DirEntries(v, cs)[EntryPosition(g, k, i)] == EntryIn(v.data[cs[k] - 2], i * ENTRY_SIZE)
  {
    hide DirEntries, Key, IsLive, Listing, Passed;
    EntryAt(g, v, cs, k, i);
    ListingHit(DirEntries(v, cs), EntryPosition(g, k, i), key);
  }

  /** kernel/fs/fat32.cpp:533-644: finds exactly the names that are listed, and opens the entry listed. */
  method VnodeLookup(fs: Fat32, dir: FatNode, name: seq<byte>) returns (node: FatNode?)
    requires NodeReadable(fs, dir) && InData(fs.vol, dir.chain) && NoLongNames(DirEntries(fs.vol, dir.chain))
    ensures node == null <==> LowerAll(name) !in Listing(DirEntries(fs.vol, dir.chain))
    ensures node != null ==> fresh(node)
                             && Opens(fs.vol, dir.chain, Listing(DirEntries(fs.vol, dir.chain))[LowerAll(name)], node)
    ensures node != null ==> node.chain == ChainFrom(fs.g, fs.vol.table, node.firstCluster)
  {
    hide NodeReadable, DirEntries, Listing, LowerAll, Key, IsLive, Shaped, Fat32.Valid, HitAt, StartCluster, FileSize,
         Passed, PerCluster, EntryPosition;
    ReadableFacts(fs, dir);
    var curr: nat, i: nat, found, k, buf := FindEntry(fs, dir, name);
    if !found { return null; }
    HitFacts(fs.g, fs.vol, dir.chain, k, i, LowerAll(name));
    var ent: Entry := EntryIn(buf, i * ENTRY_SIZE);
    node := new FatNode(FileSize(ent), StartCluster(ent), curr, i * ENTRY_SIZE,
                        Attributes(ent) / ATTR_DIRECTORY % 2 == 1, ChainFrom(fs.g, fs.vol.table, StartCluster(ent)));
  }

  /** A looked-up file is ready for reading and writing when its entry names no cluster, or a complete
      chain disjoint from the directory's. */
  lemma OpenedOk(fs: Fat32, dir: FatNode, e: Entry, node: FatNode, cs: seq<nat>)
    requires NodeOk(fs, dir) && Opens(fs.vol, dir.chain, e, node)
    requires node.chain == ChainFrom(fs.g, fs.vol.table, node.firstCluster)
    requires if StartCluster(e) == 0 then cs == [] else IsChain(fs.g, fs.vol.table, cs) && cs[0] == StartCluster(e)
    requires forall c :: c in cs ==> c !in dir.chain
    ensures NodeOk(fs, node) && node.chain == cs
  {
    hide StartCluster, FileSize, ChainFrom;
    NodeFacts(fs, dir);
    InChainUsed(fs.g, fs.vol.table, dir.chain, node.dirCluster);
    if cs != [] {
      ChainFromUnique(fs.g, fs.vol.table, node.firstCluster, cs);
    }
  }

  // ---- removal ----

  lemma SameData(v: Volume, v': Volume, cs: seq<nat>)
    requires InData(v, cs) && v'.data == v.data
    ensures InData(v', cs) && DirEntries(v', cs) == DirEntries(v, cs)
  {
    ContentsSame(v, v', cs);
  }

  lemma MarkedDeleted(buf: seq<byte>, o: nat)
    requires o + ENTRY_SIZE <= |buf|
    ensures Splice(buf, o, [DELETED]) == Splice(buf, o, Deleted(EntryIn(buf, o)))
  {
  }

  ghost predicate FreedFrom(t: seq<nat>, t': seq<nat>, start: nat) {
    if start >= 2 then FreedAll(t, t', start) else t' == t
  }

  /** What removing entry `at` does to the volume. */
  ghost predicate Removed(v: Volume, v': Volume, cs: seq<nat>, at: nat, key: seq<byte>) {
    && InData(v, cs) && at < |DirEntries(v, cs)|
    && var es := DirEntries(v, cs);
    && Passed(es, at, key) && IsVisible(es[at]) && Key(es[at]) == key
    && EntrySet(v, v', cs, at, Deleted(es[at]))
    && FreedFrom(v.table, v'.table, StartCluster(es[at]))
    && |v'.data| == |v.data| && forall c :: 0 <= c < |v.data| && c + 2 !in cs ==> v'.data[c] == v.data[c]
  }

  lemma RemovedFacts(g: Geometry, v: Volume, v': Volume, cs: seq<nat>, k: nat, i: nat, key: seq<byte>, e: Entry)
    requires Shaped(g, v) && IsChain(g, v.table, cs) && InData(v, cs) && k < |cs|
             && HitAt(g, DirEntries(v, cs), k, i, key)
    requires 2 <= cs[k] < |v.data| + 2 && i * ENTRY_SIZE + ENTRY_SIZE <= |v.data[cs[k] - 2]|
             && e == EntryIn(v.data[cs[k] - 2], i * ENTRY_SIZE)
    requires v'.data == WithEntry(v, cs[k], i * ENTRY_SIZE, Deleted(e)).data
             && FreedFrom(v.table, v'.table, StartCluster(e))
    ensures Removed(v, v', cs, EntryPosition(g, k, i), key)
  {
    hide Key, IsLive, Listing, Passed, DirEntries, StartCluster, FreedAll, Splice;
    HitFacts(g, v, cs, k, i, key);
    var w := WithEntry(v, cs[k], i * ENTRY_SIZE, Deleted(e));
    EntryWritten(g, v, w, cs, k, i, Deleted(e));
    SameData(w, v', cs);
    assert cs[k] in cs;
  }

  lemma RemovalInRange(g: Geometry, es: seq<Entry>, at: nat)
    requires StartsInRange(g, es) && at < |es| && IsVisible(es[at])
    ensures LinkInRange(g, StartCluster(es[at]))
  {
  }

  /** kernel/fs/fat32.cpp:728-807. The buffer for long names stays empty there, so with long-name entries about only the
      empty name would be answered by the entry after one. */
  method VnodeRemove(fs: Fat32, dir: FatNode, name: seq<byte>) returns (r: int, ghost at: nat)
    requires NodeOk(fs, dir) && LinksInRange(fs.g, fs.vol.table)
    requires InData(fs.vol, dir.chain) && StartsInRange(fs.g, DirEntries(fs.vol, dir.chain))
    requires name != [] || NoLongNames(DirEntries(fs.vol, dir.chain))
    modifies fs
    ensures fs.Valid() && Kept(fs.g, old(fs.disk), fs.disk) && LinksInRange(fs.g, fs.vol.table)
    ensures r == if LowerAll(name) in Listing(old(DirEntries(fs.vol, dir.chain))) then 0 else -1
    ensures r == -1 ==> fs.vol == old(fs.vol) && fs.disk == old(fs.disk)
    ensures r == 0 ==> Removed(old(fs.vol), fs.vol, dir.chain, at, LowerAll(name))
  {
    hide NodeOk, DirEntries, Listing, LowerAll, Key, IsLive, Shaped, Fat32.Valid, HitAt, StartCluster, Passed, Removed,
         StartsInRange;
    hide Kept, View, Fits, LinksInRange, NoLongNames, FreedAll, Deleted, Splice;
    at := 0;
    ghost var v, d, cs := fs.vol, fs.disk, dir.chain;
    NodeFacts(fs, dir);
    KeptSelf(fs.g, d);
    var curr: nat, i: nat, found, k, buf := FindEntry(fs, dir, name);
    if !found { return -1, 0; }
    HitFacts(fs.g, v, cs, k, i, LowerAll(name));
    HitVisible(fs.g, v, cs, k, i, LowerAll(name));
    var ent: Entry := EntryIn(buf, i * ENTRY_SIZE);
    var startClus := StartCluster(ent);
    RemovalInRange(fs.g, DirEntries(v, cs), EntryPosition(fs.g, k, i));
    if startClus >= 2 {
      fs.FreeClusterChain(startClus);
    }
    MarkedDeleted(buf, i * ENTRY_SIZE);
    ghost var d1 := fs.disk;
    fs.WriteCluster(curr, Splice(buf, i * ENTRY_SIZE, [DELETED]));
    KeptTransitive(fs.g, d, d1, fs.disk);
    RemovedFacts(fs.g, v, fs.vol, cs, k, i, LowerAll(name), ent);
    at := EntryPosition(fs.g, k, i);
    r := 0;
  }

  lemma HitVisible(g: Geometry, v: Volume, cs: seq<nat>, k: nat, i: nat, key: seq<byte>)
    requires InData(v, cs) && HitAt(g, DirEntries(v, cs), k, i, key)
    ensures EntryPosition(g, k, i) < |DirEntries(v, cs)| && IsVisible(DirEntries(v, cs)[EntryPosition(g, k, i)])
  {
  }

  /** Removal keeps a directory well formed, and deletes exactly the binding of the name if and only if one entry
      answers to it. */
  lemma RemovedListing(g: Geometry, v: Volume, v': Volume, cs: seq<nat>, at: nat, key: seq<byte>)
    requires Removed(v, v', cs, at, key) && DirectoryOk(g, DirEntries(v, cs))
    ensures InData(v', cs) && DirectoryOk(g, DirEntries(v', cs)) && StayOnce(DirEntries(v, cs), DirEntries(v', cs))
    ensures Listing(DirEntries(v', cs)) == Listing(DirEntries(v, cs)) - {key} <==> KeyOnce(DirEntries(v, cs), key)
  {
    hide Key, IsLive, Listing, DirEntries, FreedAll, StartCluster, StayOnce;
    RemovedOk(g, DirEntries(v, cs), at);
    RemoveExactIff(DirEntries(v, cs), at);
    OnceIff(DirEntries(v, cs), at);
  }

  // ---- creation ----

  /** The inner loop of create: the first slot of a cluster, or the number of entries. */
  method SlotInCluster(buf: seq<byte>) returns (i: nat)
    ensures i <= |EntriesOf(buf)| && (i < |EntriesOf(buf)| ==> IsSlot(EntriesOf(buf)[i]))
    ensures forall j :: 0 <= j < i ==> !IsSlot(EntriesOf(buf)[j])
  {
    i := 0;
    while i < |buf| / ENTRY_SIZE
      invariant 0 <= i <= |EntriesOf(buf)| && forall j :: 0 <= j < i ==> !IsSlot(EntriesOf(buf)[j])
    {
      var fb := EntryIn(buf, i * ENTRY_SIZE)[0];
      assert EntriesOf(buf)[i][0] == fb;
      if fb == 0x00 || fb == DELETED { return; }
      i := i + 1;
    }
  }

  ghost predicate HasSlot(es: seq<Entry>) {
    exists j :: 0 <= j < |es| && IsSlot(es[j])
  }

  function ZeroEntries(n: nat): (es: seq<Entry>)
    ensures |es| == n && forall i :: 0 <= i < n ==> IsEnd(es[i])
  {
    seq(n, _ => Zeros(ENTRY_SIZE))
  }

  lemma EntriesConcat(a: seq<byte>, b: seq<byte>)
    requires |a| % ENTRY_SIZE == 0
    ensures EntriesOf(a + b) == EntriesOf(a) + EntriesOf(b)
  {
    var n := |a| / ENTRY_SIZE;
    forall i | 0 <= i < |EntriesOf(a + b)|
      ensures EntriesOf(a + b)[i] == (EntriesOf(a) + EntriesOf(b))[i]
    {
      if i < n {
        assert EntryIn(a + b, i * ENTRY_SIZE) == EntryIn(a, i * ENTRY_SIZE);
      } else {
        assert EntryIn(a + b, i * ENTRY_SIZE) == EntryIn(b, (i - n) * ENTRY_SIZE);
      }
    }
  }

  lemma EntriesOfZeros(n: nat)
    ensures EntriesOf(Zeros(n * ENTRY_SIZE)) == ZeroEntries(n)
  {
    forall i | 0 <= i < n
      ensures EntriesOf(Zeros(n * ENTRY_SIZE))[i] == ZeroEntries(n)[i]
    {
      assert EntryIn(Zeros(n * ENTRY_SIZE), i * ENTRY_SIZE) == Zeros(ENTRY_SIZE);
    }
  }

  /** More end markers at the end of a directory. */
  ghost predicate EntriesGrown(g: Geometry, v: Volume, v': Volume, cs: seq<nat>, cs': seq<nat>) {
    && |cs| <= |cs'| && InData(v, cs) && InData(v', cs')
    && DirEntries(v', cs') == DirEntries(v, cs) + ZeroEntries((|cs'| - |cs|) * PerCluster(g))
  }

  /** A directory that took more clusters has more end markers. */
  lemma GrownEntries(g: Geometry, v: Volume, v': Volume, cs: seq<nat>, cs': seq<nat>)
    requires Lengthened(g, v, v', cs, cs', 0)
    ensures EntriesGrown(g, v, v', cs, cs')
  {
    hide EntriesOf, Extended, ZeroEntries, Contents;
    var n := |cs'| - |cs|;
    assert Shaped(g, v) by { LengthenedShaped(g, v, v', cs, cs'); }
    ContentsLength(g, v, cs);
    EntryIndex(g, |cs|, 0);
    EntryIndex(g, n, 0);
    EntriesConcat(Contents(v, cs), ZeroClusters(g, n));
    EntriesOfZeros(n * PerCluster(g));
  }

  lemma LengthenedShaped(g: Geometry, v: Volume, v': Volume, cs: seq<nat>, cs': seq<nat>)
    requires Lengthened(g, v, v', cs, cs', 0)
    ensures Shaped(g, v) && Shaped(g, v') && cs <= cs'
  {
  }

  /** Taking a cluster for the new file leaves every used chain and its bytes alone. */
  lemma TakenApart(g: Geometry, v: Volume, c: nat, cs: seq<nat>, first: nat, dir: nat, o: nat)
    requires Shaped(g, v) && 2 <= c < g.End() && v.table[c] == FREE
    requires Owns(g, v.table, first, cs) && EntryPlaced(g, v.table, dir, o, cs)
    ensures var v' := Taken(g, v, 0, c);
            && c !in cs && Owns(g, v'.table, first, cs) && EntryPlaced(g, v'.table, dir, o, cs)
            && InData(v, cs) && InData(v', cs) && DirEntries(v', cs) == DirEntries(v, cs)
  {
    var v' := Taken(g, v, 0, c);
    if c in cs {
      InChainUsed(g, v.table, cs, c);
      assert false;
    }
    forall i | 0 <= i < |cs|
      ensures cs[i] != c && v'.table[cs[i]] == v.table[cs[i]] && v'.data[cs[i] - 2] == v.data[cs[i] - 2]
    {
      assert cs[i] in cs;
    }
    ContentsSame(v, v', cs);
  }

  /** No slot in the first `k` clusters. */
  ghost predicate NoSlotBefore(g: Geometry, es: seq<Entry>, k: nat) {
    k * PerCluster(g) <= |es| && forall j :: 0 <= j < k * PerCluster(g) ==> !IsSlot(es[j])
  }

  /** The result of scanning the k-th cluster for a slot. */
  lemma SlotMeans(g: Geometry, v: Volume, cs: seq<nat>, k: nat, i: nat)
    requires Shaped(g, v) && InData(v, cs) && k < |cs| && NoSlotBefore(g, DirEntries(v, cs), k)
    requires var es := EntriesOf(v.data[cs[k] - 2]);
             i <= |es| && (i < |es| ==> IsSlot(es[i])) && forall j :: 0 <= j < i ==> !IsSlot(es[j])
    ensures |EntriesOf(v.data[cs[k] - 2])| == PerCluster(g)
    ensures if i < PerCluster(g) then FirstSlot(DirEntries(v, cs), EntryPosition(g, k, i))
            else NoSlotBefore(g, DirEntries(v, cs), k + 1)
  {
    hide DirEntries, EntriesOf, Contents, IsSlot;
    var es, cluster := DirEntries(v, cs), EntriesOf(v.data[cs[k] - 2]);
    EntryAt(g, v, cs, k, 0);
    MulSucc(k, PerCluster(g));
    MulLe(k + 1, |cs|, PerCluster(g));
    forall j | 0 <= j < k * PerCluster(g) + i
      ensures !IsSlot(es[j])
    {
      if j >= k * PerCluster(g) {
        EntryAt(g, v, cs, k, j - k * PerCluster(g));
        assert !IsSlot(cluster[j - k * PerCluster(g)]);
      }
    }
    if i < PerCluster(g) {
      EntryAt(g, v, cs, k, i);
    }
  }

  /** The search for a slot, up to the k-th cluster: the directory took at most one cluster, and only
      when everything before it was full. */
  ghost predicate Searching(g: Geometry, v: Volume, cs: seq<nat>, v': Volume, cs': seq<nat>, k: nat) {
    && Lengthened(g, v, v', cs, cs', 0) && k <= |cs| <= |cs'| <= |cs| + 1
    && InData(v', cs') && NoSlotBefore(g, DirEntries(v', cs'), k)
    && (if |cs'| == |cs| + 1 then k == |cs| else v' == v)
  }

  lemma SearchStarts(g: Geometry, v: Volume, cs: seq<nat>)
    requires Shaped(g, v) && (cs == [] || IsChain(g, v.table, cs))
    ensures Searching(g, v, cs, v, cs, 0)
  {
    LengthenedSelf(g, v, cs, 0);
  }

  /** In a cluster the directory just took there is a slot. */
  lemma NewClusterHasSlot(g: Geometry, v: Volume, cs: seq<nat>, v': Volume, cs': seq<nat>, k: nat)
    requires Searching(g, v, cs, v', cs', k) && |cs'| == |cs| + 1
    ensures !NoSlotBefore(g, DirEntries(v', cs'), k + 1)
  {
    hide DirEntries, Lengthened;
    LengthenedShaped(g, v, v', cs, cs');
    GrownEntries(g, v, v', cs, cs');
    EntryCount(g, v, cs);
    MulSucc(k, PerCluster(g));
    assert IsSlot(DirEntries(v', cs')[k * PerCluster(g)]);
  }

  /** Moving on to the next cluster, possibly a new one. */
  lemma SearchContinues(g: Geometry, v: Volume, cs: seq<nat>, v1: Volume, cs1: seq<nat>, k: nat, v2: Volume,
                        cs2: seq<nat>)
    requires Searching(g, v, cs, v1, cs1, k) && NoSlotBefore(g, DirEntries(v1, cs1), k + 1)
    requires Lengthened(g, v1, v2, cs1, cs2, 0) && (|cs2| == |cs1| ==> v2 == v1)
    requires k < |cs1| && k + 1 < |cs2| == (if |cs1| >= k + 2 then |cs1| else k + 2)
    ensures Searching(g, v, cs, v2, cs2, k + 1)
  {
    hide DirEntries, Lengthened, IsSlot;
    if |cs1| == |cs| + 1 {
      NewClusterHasSlot(g, v, cs, v1, cs1, k);
    }
    LengthenedTransitive(g, v, v1, v2, cs, cs1, cs2, 0);
    GrownEntries(g, v1, v2, cs1, cs2);
  }

  /** A creation that reached the disk: the directory, one cluster longer if it had no slot, has its first slot filled
      by an entry for a file whose only cluster is `c`; nothing else changed. */
  ghost predicate Created(g: Geometry, v: Volume, v': Volume, cs: seq<nat>, cs': seq<nat>, at: nat, e: Entry, c: nat,
                          first: seq<byte>) {
    && |v.table| == |v'.table| == g.Entries() && |v.data| == |v'.data| == g.clusters
    && InData(v, cs) && InData(v', cs') && [] != cs <= cs' && c !in cs'
    && |cs'| == |cs| + (if HasSlot(DirEntries(v, cs)) then 0 else 1)
    && 2 <= c < g.End() <= g.Entries() && v'.table[c] == EOC && IsChain(g, v'.table, cs') && v'.data[c - 2] == first
    && (forall x :: 0 <= x < |v.table| && x != c && x !in cs' ==> v'.table[x] == v.table[x])
    && (forall x :: 2 <= x < g.End() && x != c && x !in cs' ==> v'.data[x - 2] == v.data[x - 2])
    && (|cs'| == |cs| + 1 ==> v.table[cs'[|cs|]] == FREE)
    && var es := DirEntries(v, cs) + ZeroEntries((|cs'| - |cs|) * PerCluster(g));
       FirstSlot(es, at) && DirEntries(v', cs') == es[at := e]
  }

  /** From `w` to `w1` the cluster `c` of a directory was rewritten so that entry `at` became `e`. */
  ghost predicate Rewritten(w: Volume, w1: Volume, cs: seq<nat>, c: nat, at: nat, e: Entry) {
    && EntrySet(w, w1, cs, at, e) && c in cs && w1.table == w.table && |w1.data| == |w.data|
    && forall x :: 0 <= x < |w.data| && x + 2 != c ==> w1.data[x] == w.data[x]
  }

  lemma RewrittenEntry(g: Geometry, v: Volume, v': Volume, cs: seq<nat>, k: nat, i: nat, e: Entry)
    requires Shaped(g, v) && IsChain(g, v.table, cs) && k < |cs| && i < PerCluster(g)
    requires 2 <= cs[k] < |v.data| + 2 && i * ENTRY_SIZE + ENTRY_SIZE <= |v.data[cs[k] - 2]|
    requires v' == WithEntry(v, cs[k], i * ENTRY_SIZE, e)
    ensures Rewritten(v, v', cs, cs[k], k * PerCluster(g) + i, e)
  {
    hide EntrySet, Splice;
    EntryWritten(g, v, v', cs, k, i, e);
    assert cs[k] in cs;
  }

  /** The directory grew exactly when it had no slot. */
  lemma GrewForSlot(g: Geometry, v: Volume, cs: seq<nat>, w: Volume, cs': seq<nat>, k: nat, at: nat)
    requires Searching(g, v, cs, w, cs', k) && FirstSlot(DirEntries(w, cs'), at)
    ensures InData(v, cs) && |cs'| == |cs| + (if HasSlot(DirEntries(v, cs)) then 0 else 1)
  {
    hide DirEntries, IsSlot, ZeroEntries, Lengthened, PerCluster;
    GrownEntries(g, v, w, cs, cs');
    if |cs'| == |cs| {
      assert IsSlot(DirEntries(v, cs)[at]);
    } else {
      LengthenedShaped(g, v, w, cs, cs');
      EntryCount(g, v, cs);
      NoSlotInFirst(DirEntries(v, cs), DirEntries(w, cs'), k * PerCluster(g));
    }
  }

  lemma NoSlotInFirst(es: seq<Entry>, all: seq<Entry>, n: nat)
    requires es <= all && n == |es| && forall j :: 0 <= j < n ==> !IsSlot(all[j])
    ensures !HasSlot(es)
  {
  }

  lemma CreatedFacts(g: Geometry, v: Volume, v1: Volume, c: nat, cs: seq<nat>, w: Volume, cs': seq<nat>, k: nat,
                     at: nat, d: nat, e: Entry, w1: Volume, v': Volume, first: seq<byte>)
    requires Shaped(g, v) && 2 <= c < g.End() && v.table[c] == FREE && c !in cs && v1 == Taken(g, v, 0, c)
    requires cs != [] && InData(v, cs) && InData(v1, cs) && DirEntries(v1, cs) == DirEntries(v, cs)
    requires Searching(g, v1, cs, w, cs', k) && FirstSlot(DirEntries(w, cs'), at) && Rewritten(w, w1, cs', d, at, e)
    requires v'.table == w1.table && |w1.data| == g.clusters && v'.data == w1.data[c - 2 := first]
    ensures Created(g, v, v', cs, cs', at, e, c, first)
  {
    hide DirEntries, Contents, Splice, ZeroEntries, IsSlot;
    UsedStaysOutside(g, v1, w, cs, cs', 0, c);
    GrownEntries(g, v1, w, cs, cs');
    GrewForSlot(g, v1, cs, w, cs', k, at);
    EntriesUntouched(w1, v', cs', c);
    if |cs'| == |cs| + 1 {
      assert v1.table[cs'[|cs|]] == FREE;
    }
  }

  lemma EntriesUntouched(v: Volume, v': Volume, cs: seq<nat>, c: nat)
    requires InData(v, cs) && 2 <= c < |v.data| + 2 && c !in cs && |v'.data| == |v.data|
    requires forall x :: 0 <= x < |v.data| && x != c - 2 ==> v'.data[x] == v.data[x]
    ensures InData(v', cs) && DirEntries(v', cs) == DirEntries(v, cs)
  {
    forall i | 0 <= i < |cs|
      ensures v'.data[cs[i] - 2] == v.data[cs[i] - 2]
    {
      assert cs[i] in cs;
    }
    ContentsSame(v, v', cs);
  }

  /** The first cluster of a new file. */
  function FirstCluster(g: Geometry, isDirectory: bool, c: nat, parent: nat): (r: seq<byte>)
    requires g.Valid() && c < U32 && parent < U32
    ensures |r| == g.Bpc()
  {
    if isDirectory then DotsCluster(g.Bpc() - 2 * ENTRY_SIZE, c, parent) else Zeros(g.Bpc())
  }

  lemma DotsSector(n: nat, c: nat, parent: nat)
    requires n >= SECTOR && c < U32 && parent < U32
    ensures Splice(Zeros(n), 0, DotsCluster(SECTOR - 2 * ENTRY_SIZE, c, parent)) == DotsCluster(n - 2 * ENTRY_SIZE, c,
            parent)
  {
    hide NewEntry;
  }

  /** kernel/fs/fat32.cpp:694-711: the `.` and `..` entries, in the first sector of the new cluster. */
  method WriteDots(fs: Fat32, c: nat, parent: nat)
    requires fs.Valid() && 2 <= c < fs.g.End() && c < U32 && parent < U32 && fs.vol.data[c - 2] == Zeros(fs.g.Bpc())
    modifies fs
    ensures fs.Valid() && Kept(fs.g, old(fs.disk), fs.disk)
    ensures fs.vol == old(fs.vol).(data := old(fs.vol).data[c - 2 := FirstCluster(fs.g, true, c, parent)])
  {
    hide Kept, Fits, View, Splice, DotsCluster;
    var sub := DotsCluster(SECTOR - 2 * ENTRY_SIZE, c, parent);
    DotsSector(fs.g.Bpc(), c, parent);
    ClusterInData(fs.g, c);
    ClusterIs(fs.g, fs.disk, c);
    SpliceInside(fs.disk, fs.g.ClusterOffset(c), fs.g.Bpc(), 0, sub);
    ClusterWrittenView(fs.g, fs.disk, c, FirstCluster(fs.g, true, c, parent));
    fs.WriteSector(fs.g.ClusterLba(c), sub);
    fs.vol := View(fs.g, fs.disk);
  }

  lemma ClusterIs(g: Geometry, d: seq<byte>, c: nat)
    requires Fits(g, d) && 2 <= c < g.End()
    ensures g.ClusterOffset(c) + g.Bpc() <= |d| && g.Total() * SECTOR <= |d|
    ensures View(g, d).data[c - 2] == d[g.ClusterOffset(c)..g.ClusterOffset(c) + g.Bpc()]
  {
    ClusterInData(g, c);
  }

  lemma NodeOkFrom(fs: Fat32, node: FatNode)
    requires fs.Valid() && Owns(fs.g, fs.vol.table, node.firstCluster, node.chain)
    requires EntryPlaced(fs.g, fs.vol.table, node.dirCluster, node.dirEntryOffset, node.chain)
    ensures NodeOk(fs, node)
  {
  }

  lemma NodeOkAgain(fs: Fat32, node: FatNode)
    requires NodeOk(fs, node)
    ensures Owns(fs.g, fs.vol.table, node.firstCluster, node.chain) && |fs.vol.table| == fs.g.Entries()
    ensures fs.g.End() <= fs.g.Entries() <= BAD
  {
  }

  /** kernel/fs/fat32.cpp:677-711: fills the slot, and starts a new directory with its two entries. */
  method PlaceEntry(fs: Fat32, dir: FatNode, ghost k: nat, curr: nat, i: nat, buf: seq<byte>, e: Entry,
                    isDirectory: bool, c: nat)
      returns (ghost w: Volume)
    requires NodeOk(fs, dir) && k < |dir.chain| && curr == dir.chain[k] && 2 <= curr < fs.g.End()
             && i < PerCluster(fs.g)
    requires |fs.vol.data| == fs.g.clusters && buf == fs.vol.data[curr - 2]
    requires 2 <= c < fs.g.End() && c < U32 && dir.firstCluster < U32 && fs.vol.data[c - 2] == Zeros(fs.g.Bpc())
             && c !in dir.chain
    modifies fs
    ensures NodeOk(fs, dir) && Kept(fs.g, old(fs.disk), fs.disk)
    ensures Rewritten(old(fs.vol), w, dir.chain, curr, EntryPosition(fs.g, k, i), e) && |w.data| == fs.g.clusters
            && fs.g.Valid()
    ensures fs.vol.table == w.table
            && fs.vol.data == w.data[c - 2 := FirstCluster(fs.g, isDirectory, c, dir.firstCluster)]
  {
    hide Kept, Fits, View, Splice, Rewritten, Contents, FirstCluster, IsChain, DirEntries;
    NodeFacts(fs, dir);
    NodeOkAgain(fs, dir);
    ghost var d, v := fs.disk, fs.vol;
    EntryAt(fs.g, v, dir.chain, k, i);
    fs.WriteCluster(curr, Splice(buf, i * ENTRY_SIZE, e));
    RewrittenEntry(fs.g, v, fs.vol, dir.chain, k, i, e);
    w := fs.vol;
    assert curr in dir.chain;
    if isDirectory {
      ghost var d1 := fs.disk;
      WriteDots(fs, c, dir.firstCluster);
      KeptTransitive(fs.g, d, d1, fs.disk);
    } else {
      FileCluster(fs.g, c, dir.firstCluster);
    }
    NodeOkFrom(fs, dir);
  }

  lemma FileCluster(g: Geometry, c: nat, parent: nat)
    requires g.Valid() && c < U32 && parent < U32
    ensures FirstCluster(g, false, c, parent) == Zeros(g.Bpc())
  {
  }

  /** The volume and chain right after the new file's cluster was taken. */
  lemma AfterTaking(fs: Fat32, dir: FatNode, v: Volume, c: nat)
    requires Shaped(fs.g, v) && c != 0 && IsLowestFree(v.table, c)
    requires Owns(fs.g, v.table, dir.firstCluster, dir.chain)
             && EntryPlaced(fs.g, v.table, dir.dirCluster, dir.dirEntryOffset, dir.chain)
    requires fs.Valid() && c < fs.g.End() && fs.vol == Taken(fs.g, v, 0, c)
    ensures NodeOk(fs, dir) && 2 <= c && v.table[c] == FREE && c !in dir.chain && InData(v, dir.chain)
    ensures InData(fs.vol, dir.chain) && DirEntries(fs.vol, dir.chain) == DirEntries(v, dir.chain)
  {
    hide DirEntries, Contents;
    TakenApart(fs.g, v, c, dir.chain, dir.firstCluster, dir.dirCluster, dir.dirEntryOffset);
    NodeOkFrom(fs, dir);
  }

  /** The new file's cluster stays as it was taken while the directory is searched. */
  lemma TakenStays(g: Geometry, v: Volume, c: nat, cs: seq<nat>, w: Volume, cs': seq<nat>, k: nat)
    requires Shaped(g, v) && 2 <= c < g.End() && c !in cs && Searching(g, Taken(g, v, 0, c), cs, w, cs', k)
    ensures c !in cs' && |w.data| == g.clusters && w.data[c - 2] == Zeros(g.Bpc())
  {
    hide DirEntries, Contents;
    UsedStaysOutside(g, Taken(g, v, 0, c), w, cs, cs', 0, c);
  }

  lemma AtIndex(g: Geometry, t: seq<nat>, cs: seq<nat>, k: nat)
    requires IsChain(g, t, cs) && k < |cs|
    ensures AtCluster(g, cs, k, cs[k])
  {
  }

  lemma NoSlotAtAll(g: Geometry, v: Volume, cs: seq<nat>)
    requires Shaped(g, v) && InData(v, cs) && NoSlotBefore(g, DirEntries(v, cs), |cs|)
    ensures forall j :: 0 <= j < |DirEntries(v, cs)| ==> !IsSlot(DirEntries(v, cs)[j])
  {
    hide DirEntries;
    EntryCount(g, v, cs);
  }

  lemma SearchFacts(g: Geometry, v: Volume, cs: seq<nat>, v': Volume, cs': seq<nat>, k: nat)
    requires Searching(g, v, cs, v', cs', k)
    ensures InData(v', cs') && k <= |cs| <= |cs'| && NoSlotBefore(g, DirEntries(v', cs'), k)
    ensures |cs'| == |cs| ==> v' == v && cs' == cs
    ensures |cs'| != |cs| ==> !NoSlotBefore(g, DirEntries(v', cs'), k + 1)
  {
    hide DirEntries;
    if |cs'| == |cs| + 1 {
      NewClusterHasSlot(g, v, cs, v', cs', k);
    }
  }

  lemma EntriesIn(buf: seq<byte>)
    ensures ENTRY_SIZE > 0 && |EntriesOf(buf)| == |buf| / ENTRY_SIZE
  {
  }

  lemma ChainStart(fs: Fat32, dir: FatNode)
    requires NodeOk(fs, dir)
    ensures dir.firstCluster < fs.g.End() <= BAD < U32
  {
  }

  // ---- what a creation comes to ----

  /** A creation leaves a full volume alone, loses the cluster it took exactly when `Leaks` says so, and succeeds
      otherwise. */
  ghost predicate CreateOutcome(g: Geometry, v: Volume, v': Volume, cs: seq<nat>, cs': seq<nat>, r: int, at: nat,
                                e: Entry, c: nat, first: seq<byte>) {
    && Shaped(g, v) && InData(v, cs) && IsLowestFree(v.table, c) && c < g.End()
    && if c == 0 then r == -1 && v' == v && cs' == cs
       else if Leaks(v.table, cs, HasSlot(DirEntries(v, cs))) then r == -1 && v' == Taken(g, v, 0, c) && cs' == cs
       else r == 0 && Created(g, v, v', cs, cs', at, e, c, first)
  }

  lemma CreateFindsNone(g: Geometry, v: Volume, cs: seq<nat>, at: nat, e: Entry, c: nat, first: seq<byte>)
    requires Shaped(g, v) && InData(v, cs) && IsLowestFree(v.table, c) && c == 0
    ensures CreateOutcome(g, v, v, cs, cs, -1, at, e, c, first) && Free(v.table) == {}
  {
    hide DirEntries, Shaped, Leaks;
    assert Free(v.table) == {};
  }

  /** After the only free cluster was taken none is free, and the other way round. */
  lemma LastOneTaken(g: Geometry, v: Volume, c: nat)
    requires Shaped(g, v) && 2 <= c < g.End() && v.table[c] == FREE
    ensures c in Free(v.table) && (NoFree(Taken(g, v, 0, c).table) <==> |Free(v.table)| == 1)
  {
    var t, f := Taken(g, v, 0, c).table, Free(v.table);
    assert Free(t) == f - {c};
    assert f == {c} + (f - {c}) && |f| == 1 + |f - {c}|;
    assert NoFree(t) <==> f - {c} == {} by {
      assert forall x :: 2 <= x < |t| ==> (t[x] == FREE <==> x in Free(t));
    }
  }

  lemma CreateLeaks(g: Geometry, v: Volume, cs: seq<nat>, at: nat, e: Entry, c: nat, first: seq<byte>)
    requires Shaped(g, v) && InData(v, cs) && IsLowestFree(v.table, c) && 2 <= c < g.End()
    requires (cs == [] || NoFree(Taken(g, v, 0, c).table)) && !HasSlot(DirEntries(v, cs))
    ensures CreateOutcome(g, v, Taken(g, v, 0, c), cs, cs, -1, at, e, c, first)
  {
    hide DirEntries, Shaped, Taken, HasSlot;
    LastOneTaken(g, v, c);
  }

  lemma CreateSucceeds(g: Geometry, v: Volume, v': Volume, cs: seq<nat>, cs': seq<nat>, at: nat, e: Entry, c: nat,
                       first: seq<byte>)
    requires Shaped(g, v) && IsLowestFree(v.table, c) && Created(g, v, v', cs, cs', at, e, c, first)
    ensures CreateOutcome(g, v, v', cs, cs', 0, at, e, c, first)
  {
    hide DirEntries, ZeroEntries, Shaped, IsSlot, Free;
    if |cs'| == |cs| + 1 {
      TwoFree(v.table, c, cs'[|cs|]);
    }
  }

  lemma TwoFree(t: seq<nat>, c: nat, x: nat)
    requires 2 <= c < |t| && 2 <= x < |t| && t[c] == t[x] == FREE && c != x
    ensures |Free(t)| > 1
  {
    assert {c, x} <= Free(t);
    SubsetSize({c, x}, Free(t));
  }

  lemma SubsetSize<T>(a: set<T>, b: set<T>)
    requires a <= b
    ensures |a| <= |b|
  {
    assert |b| == |a| + |b - a|;
  }

  /** The room a creation needs, after the new file's cluster and `grown` more were taken. */
  ghost predicate RoomLeft(g: Geometry, t: seq<nat>, cs: seq<nat>, slot: bool, grown: int) {
    Room(g, t, CreateTakes(cs, slot) - 1 - grown)
  }

  lemma RoomAtStart(g: Geometry, v: Volume, cs: seq<nat>, slot: bool, c: nat)
    requires Shaped(g, v) && Room(g, v.table, CreateTakes(cs, slot)) && IsLowestFree(v.table, c)
    ensures Allocatable(g, v.table)
    ensures 2 <= c < g.End() ==> RoomLeft(g, Taken(g, v, 0, c).table, cs, slot, 0)
  {
    hide Room, Allocatable;
    RoomAllocates(g, v.table, CreateTakes(cs, slot));
    if 2 <= c < g.End() {
      RoomTaken(g, v.table, 0, c, CreateTakes(cs, slot));
    }
  }

  /** A directory whose clusters so far hold no slot has room to grow once. */
  lemma RoomToGrow(g: Geometry, v: Volume, cs: seq<nat>, w: Volume, cs': seq<nat>, k: nat, slot: bool)
    requires Searching(g, v, cs, w, cs', k) && k < |cs'| && NoSlotBefore(g, DirEntries(w, cs'), k + 1) && cs != []
    requires slot == HasSlot(DirEntries(v, cs)) && RoomLeft(g, w.table, cs, slot, |cs'| - |cs|)
    ensures var room := CreateTakes(cs, slot) - 1 - (|cs'| - |cs|);
            Room(g, w.table, room) && (k + 1 == |cs'| ==> room >= 1)
  {
    hide DirEntries, Room, Lengthened, NoSlotBefore;
    SearchFacts(g, v, cs, w, cs', k);
    if |cs'| == |cs| && k + 1 == |cs| {
      LengthenedShaped(g, v, w, cs, cs');
      NoSlotAtAll(g, v, cs);
    }
  }

  lemma NotGrown(g: Geometry, v: Volume, cs: seq<nat>, w: Volume, cs': seq<nat>, k: nat)
    requires Searching(g, v, cs, w, cs', k) && NoSlotBefore(g, DirEntries(w, cs'), k + 1) && k + 1 == |cs'|
    ensures w == v && cs' == cs && !HasSlot(DirEntries(v, cs))
  {
    hide DirEntries, Lengthened, NoSlotBefore;
    SearchFacts(g, v, cs, w, cs', k);
    LengthenedShaped(g, v, w, cs, cs');
    NoSlotAtAll(g, v, cs);
  }

  /** The state of a creation that took cluster `c` and is about to look at the k-th cluster of the directory. */
  ghost predicate Creating(fs: Fat32, dir: FatNode, d0: seq<byte>, v0: Volume, cs0: seq<nat>, c: nat, k: nat)
    reads fs, dir
  {
    && Shaped(fs.g, v0) && |v0.table| >= fs.g.End() && |v0.data| == fs.g.clusters && InData(v0, cs0) && Fits(fs.g, d0)
    && c < U32 && 2 <= c < fs.g.End() && IsLowestFree(v0.table, c) && c !in cs0
    && var v1 := Taken(fs.g, v0, 0, c);
    && InData(v1, cs0) && DirEntries(v1, cs0) == DirEntries(v0, cs0) && dir.firstCluster < U32
    && NodeOk(fs, dir) && Kept(fs.g, d0, fs.disk) && Searching(fs.g, v1, cs0, fs.vol, dir.chain, k) && k <= |cs0|
    && (dir.chain != [] ==> k < |dir.chain| && cs0 != [])
    && RoomLeft(fs.g, fs.vol.table, cs0, HasSlot(DirEntries(v0, cs0)), |dir.chain| - |cs0|)
  }

  lemma CreatingStarts(fs: Fat32, dir: FatNode, d0: seq<byte>, v0: Volume, c: nat)
    requires Shaped(fs.g, v0) && InData(v0, dir.chain) && 2 <= c < fs.g.End() <= BAD && IsLowestFree(v0.table, c)
    requires Owns(fs.g, v0.table, dir.firstCluster, dir.chain)
             && EntryPlaced(fs.g, v0.table, dir.dirCluster, dir.dirEntryOffset, dir.chain)
    requires dir.firstCluster < U32 && fs.Valid() && Fits(fs.g, d0) && Kept(fs.g, d0, fs.disk)
             && fs.vol == Taken(fs.g, v0, 0, c)
    requires Room(fs.g, v0.table, CreateTakes(dir.chain, HasSlot(DirEntries(v0, dir.chain))))
    ensures Creating(fs, dir, d0, v0, dir.chain, c, 0)
  {
    hide NodeOk, Kept, View, Fits, Contents, DirEntries, IsChain, Searching, Taken, EntryPlaced, HasSlot, Room,
         IsLowestFree, Fat32.Valid, RoomLeft;
    AfterTaking(fs, dir, v0, c);
    NodeFacts(fs, dir);
    SearchStarts(fs.g, fs.vol, dir.chain);
    RoomAtStart(fs.g, v0, dir.chain, HasSlot(DirEntries(v0, dir.chain)), c);
  }

  /** What a turn of the search needs to know. */
  lemma CreatingFacts(fs: Fat32, dir: FatNode, d0: seq<byte>, v0: Volume, cs0: seq<nat>, c: nat, k: nat, curr: nat)
    requires Creating(fs, dir, d0, v0, cs0, c, k) && AtCluster(fs.g, dir.chain, k, curr) && 2 <= curr < EOC
    ensures fs.Valid() && NodeOk(fs, dir) && Shaped(fs.g, fs.vol) && |fs.vol.data| == fs.g.clusters
            && InData(fs.vol, dir.chain)
    ensures k < |dir.chain| && curr == dir.chain[k] && 2 <= curr < fs.g.End() && cs0 != []
    ensures |v0.table| >= fs.g.End() && |v0.data| == fs.g.clusters && Fits(fs.g, d0)
    ensures NoSlotBefore(fs.g, DirEntries(fs.vol, dir.chain), k) && c !in dir.chain
            && fs.vol.data[c - 2] == Zeros(fs.g.Bpc())
  {
    hide NodeOk, Kept, View, Fits, Contents, DirEntries, IsChain, Searching, Taken, HasSlot, Room, Fat32.Valid,
         RoomLeft;
    LowestFreeIs(v0.table, c);
    NodeFacts(fs, dir);
    SearchFacts(fs.g, Taken(fs.g, v0, 0, c), cs0, fs.vol, dir.chain, k);
    AtNext(fs.g, fs.vol.table, dir.chain, k, curr);
    TakenStays(fs.g, v0, c, cs0, fs.vol, dir.chain, k);
  }

  /** The entry went into the slot found. */
  lemma CreatingEnds(g: Geometry, v0: Volume, cs0: seq<nat>, w: Volume, cs: seq<nat>, c: nat, k: nat, at: nat, d: nat,
                     e: Entry, w1: Volume, v: Volume, first: seq<byte>)
    requires Shaped(g, v0) && InData(v0, cs0) && 2 <= c < g.End() && IsLowestFree(v0.table, c) && c !in cs0 && cs0 != []
    requires var v1 := Taken(g, v0, 0, c);
             InData(v1, cs0) && DirEntries(v1, cs0) == DirEntries(v0, cs0) && Searching(g, v1, cs0, w, cs, k)
    requires InData(w, cs) && FirstSlot(DirEntries(w, cs), at) && Rewritten(w, w1, cs, d, at, e)
    requires |w1.data| == g.clusters && v.table == w1.table && v.data == w1.data[c - 2 := first]
    ensures CreateOutcome(g, v0, v, cs0, cs, 0, at, e, c, first)
  {
    hide DirEntries, Searching, Rewritten, Taken, FirstSlot, Created;
    LowestFreeIs(v0.table, c);
    CreatedFacts(g, v0, Taken(g, v0, 0, c), c, cs0, w, cs, k, at, d, e, w1, v, first);
    CreateSucceeds(g, v0, v, cs0, cs, at, e, c, first);
  }

  /** One cluster of the directory: fills its first slot, or moves on to the next cluster, a new one if need be. */
  method CreateTurn(fs: Fat32, dir: FatNode, ghost d0: seq<byte>, ghost v0: Volume, ghost cs0: seq<nat>, c: nat,
                    ghost k: nat, curr: nat, e: Entry, isDirectory: bool) returns (r: int, next: nat, ghost at: nat)
    requires Creating(fs, dir, d0, v0, cs0, c, k) && AtCluster(fs.g, dir.chain, k, curr) && 2 <= curr < EOC
             && fs.g.Valid()
    modifies fs, dir`chain
    ensures fs.g.Valid() && dir.firstCluster < U32 && c < U32 && NodeOk(fs, dir) && Kept(fs.g, d0, fs.disk)
    ensures r != 1 ==> CreateOutcome(fs.g, v0, fs.vol, cs0, dir.chain, r, at, e, c,
                                     FirstCluster(fs.g, isDirectory, c, dir.firstCluster))
    ensures r == 1 ==> Creating(fs, dir, d0, v0, cs0, c, k + 1) && k < |cs0| && AtCluster(fs.g, dir.chain, k + 1, next)
  {
    hide NodeOk, Kept, View, Fits, Shaped, Contents, DirEntries, IsChain, Searching, AtCluster, Taken, Owns,
         EntryPlaced, NoSlotBefore, RoomLeft;
    hide IsLowestFree, NoFree, CreateOutcome, Rewritten, Splice, Lengthened, FirstSlot, IsSlot, FirstCluster, HasSlot,
         Room, CreateTakes;
    hide PerCluster, EntryPosition, EntriesOf, InData, Fat32.Valid, Geometry.Valid, Geometry.Bpc, Geometry.Entries;
    at, next := 0, 0;
    CreatingFacts(fs, dir, d0, v0, cs0, c, k, curr);
    var buf := fs.ReadCluster(curr);
    EntriesIn(buf);
    var i: nat := SlotInCluster(buf);
    SlotMeans(fs.g, fs.vol, dir.chain, k, i);
    ghost var d, w, cs, v1 := fs.disk, fs.vol, dir.chain, Taken(fs.g, v0, 0, c);
    if i < |buf| / ENTRY_SIZE {
      ghost var w1 := PlaceEntry(fs, dir, k, curr, i, buf, e, isDirectory, c);
      KeptTransitive(fs.g, d0, d, fs.disk);
      at := EntryPosition(fs.g, k, i);
      CreatingEnds(fs.g, v0, cs0, w, cs, c, k, at, curr, e, w1, fs.vol,
                   FirstCluster(fs.g, isDirectory, c, dir.firstCluster));
      return 0, 0, at;
    }
    ghost var slot := HasSlot(DirEntries(v0, cs0));
    RoomToGrow(fs.g, v1, cs0, w, cs, k, slot);
    next := Advance(fs, dir, k, curr, CreateTakes(cs0, slot) - 1 - (|cs| - |cs0|));
    KeptTransitive(fs.g, d0, d, fs.disk);
    if next == 0 {
      NotGrown(fs.g, v1, cs0, w, cs, k);
      CreateLeaks(fs.g, v0, cs0, 0, e, c, FirstCluster(fs.g, isDirectory, c, dir.firstCluster));
      return -1, 0, 0;
    }
    SearchContinues(fs.g, v1, cs0, w, cs, k, fs.vol, dir.chain);
    SearchFacts(fs.g, v1, cs0, fs.vol, dir.chain, k + 1);
    RoomIs(fs.g, fs.vol.table, cs0, slot, |cs| - |cs0|, |dir.chain| - |cs|);
    NodeFacts(fs, dir);
    AtIndex(fs.g, fs.vol.table, dir.chain, k + 1);
    r := 1;
  }

  /** The directory is over, which only happens when it has no cluster at all. */
  lemma CreatingStuck(fs: Fat32, dir: FatNode, d0: seq<byte>, v0: Volume, cs0: seq<nat>, c: nat, k: nat, curr: nat,
                      at: nat, e: Entry, first: seq<byte>)
    requires Creating(fs, dir, d0, v0, cs0, c, k) && AtCluster(fs.g, dir.chain, k, curr) && (curr < 2 || curr >= EOC)
    ensures CreateOutcome(fs.g, v0, fs.vol, cs0, dir.chain, -1, at, e, c, first) && NodeOk(fs, dir)
            && Kept(fs.g, d0, fs.disk)
  {
    hide NodeOk, Kept, View, Fits, Shaped, Contents, DirEntries, IsChain, Searching, Taken, HasSlot, Room, Fat32.Valid,
         RoomLeft, IsLowestFree, CreateOutcome;
    NodeFacts(fs, dir);
    SearchFacts(fs.g, Taken(fs.g, v0, 0, c), cs0, fs.vol, dir.chain, k);
    ChainEnds(fs, dir);
    NoMoreClusters(fs.g, dir.chain, k, curr);
    NoEntries(v0, cs0);
    CreateLeaks(fs.g, v0, cs0, at, e, c, first);
  }

  lemma ChainEnds(fs: Fat32, dir: FatNode)
    requires NodeOk(fs, dir)
    ensures fs.g.End() <= BAD
  {
  }

  lemma FirstTaken(g: Geometry, v: Volume, cs: seq<nat>)
    requires Shaped(g, v) && InData(v, cs) && Room(g, v.table, CreateTakes(cs, HasSlot(DirEntries(v, cs))))
    ensures Allocatable(g, v.table)
  {
    hide DirEntries, Room, HasSlot, Allocatable;
    RoomAllocates(g, v.table, CreateTakes(cs, HasSlot(DirEntries(v, cs))));
  }

  /** kernel/fs/fat32.cpp:646-726.  Takes a cluster first, and loses it when the directory is full and cannot grow. */
  method VnodeCreate(fs: Fat32, dir: FatNode, name: seq<byte>, isDirectory: bool)
      returns (r: int, ghost c: nat, ghost at: nat)
    requires NodeOk(fs, dir) && InData(fs.vol, dir.chain)
    requires Room(fs.g, fs.vol.table, CreateTakes(dir.chain, HasSlot(DirEntries(fs.vol, dir.chain))))
    modifies fs, dir`chain
    ensures NodeOk(fs, dir) && Kept(fs.g, old(fs.disk), fs.disk) && fs.g.Valid() && dir.firstCluster < U32 && c < U32
    ensures CreateOutcome(fs.g, old(fs.vol), fs.vol, old(dir.chain), dir.chain, r, at,
                          NewEntry(ShortName(name), TypeAttribute(isDirectory), c), c, FirstCluster(fs.g, isDirectory,
                              c, dir.firstCluster))
  {
    hide NodeOk, Kept, View, Fits, Shaped, Contents, DirEntries, IsChain, Creating, AtCluster, Taken, Owns, EntryPlaced;
    hide IsLowestFree, CreateOutcome, NewEntry, ShortName, FirstCluster, HasSlot, Room, CreateTakes, Allocatable,
         InData, Fat32.Valid, Geometry.Valid, Geometry.Entries;
    ghost var d0, v0, cs0 := fs.disk, fs.vol, dir.chain;
    NodeFacts(fs, dir);
    NodeOkAgain(fs, dir);
    ChainStart(fs, dir);
    KeptSelf(fs.g, d0);
    FirstTaken(fs.g, v0, cs0);
    var newCluster: nat := fs.AllocateCluster(0);
    c, at := newCluster, 0;
    if newCluster == 0 {
      NodeOkFrom(fs, dir);
      CreateFindsNone(fs.g, v0, cs0, 0, NewEntry(ShortName(name), TypeAttribute(isDirectory), c), c,
                      FirstCluster(fs.g, isDirectory, c, dir.firstCluster));
      return -1, c, 0;
    }
    LowestFreeIs(v0.table, c);
    CreatingStarts(fs, dir, d0, v0, c);
    var fatName := CreateShortName(name);
    var e: Entry := NewEntry(fatName, TypeAttribute(isDirectory), newCluster);
    var curr: nat := dir.firstCluster;
    ghost var k: nat := 0;
    while curr >= 2 && curr < EOC
      invariant Creating(fs, dir, d0, v0, cs0, c, k) && AtCluster(fs.g, dir.chain, k, curr) && k <= |cs0|
      decreases |cs0| + 1 - k
    {
      r, curr, at := CreateTurn(fs, dir, d0, v0, cs0, newCluster, k, curr, e, isDirectory);
      if r != 1 { return r, c, at; }
      k := k + 1;
    }
    CreatingStuck(fs, dir, d0, v0, cs0, c, k, curr, at, e, FirstCluster(fs.g, isDirectory, c, dir.firstCluster));
    r := -1;
  }

  lemma RoomIs(g: Geometry, t: seq<nat>, cs: seq<nat>, slot: bool, grown: int, more: int)
    requires Room(g, t, CreateTakes(cs, slot) - 1 - grown - more)
    ensures RoomLeft(g, t, cs, slot, grown + more)
  {
  }

  lemma NoMoreClusters(g: Geometry, cs: seq<nat>, k: nat, curr: nat)
    requires AtCluster(g, cs, k, curr) && (curr < 2 || curr >= EOC) && g.End() <= BAD
    ensures k >= |cs|
  {
  }

  lemma NoEntries(v: Volume, cs: seq<nat>)
    requires InData(v, cs)
    ensures cs == [] ==> !HasSlot(DirEntries(v, cs))
  {
  }

  lemma ExtendedOnce(es: seq<Entry>, zs: seq<Entry>)
    requires forall i :: 0 <= i < |zs| ==> IsEnd(zs[i])
    ensures StayOnce(es, es + zs)
  {
    hide Key, IsLive;
  }

  lemma AbsentOnce(es: seq<Entry>, key: seq<byte>)
    requires TailEnded(es) && key !in Listing(es)
    ensures KeyOnce(es, key)
  {
    hide Key, IsLive, Listing;
    ListingKeys(es, key);
  }

  /** Creating an absent name in a well-formed directory adds exactly that binding, to an empty file of the right
      type in its own new cluster, and keeps the directory well formed; a name 8.3 cannot hold, or that starts with
      the deletion mark, is not found afterwards. */
  lemma CreatedListing(g: Geometry, v: Volume, v': Volume, cs: seq<nat>, cs': seq<nat>, at: nat, name: seq<byte>,
                       isDirectory: bool, c: nat, first: seq<byte>)
    requires c < U32 && Created(g, v, v', cs, cs', at, NewEntry(ShortName(name), TypeAttribute(isDirectory), c), c,
                                first)
    requires DirectoryOk(g, DirEntries(v, cs)) && 0 !in name
    requires LowerAll(name) !in Listing(DirEntries(v, cs)) && LongName(ShortName(name)) !in Listing(DirEntries(v, cs))
    ensures DirectoryOk(g, DirEntries(v', cs')) && StayOnce(DirEntries(v, cs), DirEntries(v', cs'))
    ensures KeyOnce(DirEntries(v', cs'), LowerAll(name))
    ensures LowerAll(name) in Listing(DirEntries(v', cs')) <==> Storable(name)
    ensures var e := NewEntry(ShortName(name), TypeAttribute(isDirectory), c);
            && StartCluster(e) == c && FileSize(e) == 0 && Attributes(e) == TypeAttribute(isDirectory)
            && (Attributes(e) / ATTR_DIRECTORY % 2 == 1 <==> isDirectory)
            && (Storable(name) ==> Listing(DirEntries(v', cs')) == Listing(DirEntries(v, cs))[LowerAll(name) := e])
  {
    hide Key, IsLive, Listing, DirEntries, LowerAll, LongName, ShortName, FitsShort, NewEntry, StartCluster, FileSize,
         Storable;
    var e: Entry := NewEntry(ShortName(name), TypeAttribute(isDirectory), c);
    var zs := ZeroEntries((|cs'| - |cs|) * PerCluster(g));
    var es := DirEntries(v, cs) + zs;
    ListingExtended(DirEntries(v, cs), zs);
    ExtendedOk(g, DirEntries(v, cs), zs);
    ExtendedOnce(DirEntries(v, cs), zs);
    AbsentOnce(DirEntries(v, cs), LowerAll(name));
    NewEntryReads(ShortName(name), TypeAttribute(isDirectory), c);
    NewEntryVisible(name, isDirectory, c);
    CreatedOk(g, es, at, e);
    CreatedFoundIff(es, at, name, isDirectory, c);
  }

  /** A name the driver files as deleted: it starts with the deletion mark. */
  predicate Hidden(name: seq<byte>) { name != [] && name[0] == DELETED }

  /** A creation under such a name succeeds, but the directory lists what it listed before, and the slot it filled is
      again the first one: nothing leads to the new file's cluster, and the next creation overwrites its entry. */
  lemma HiddenCreated(es: seq<Entry>, at: nat, name: seq<byte>, isDirectory: bool, c: nat)
    requires TailEnded(es) && FirstSlot(es, at) && c < U32 && 0 !in name && Hidden(name)
    ensures var es' := es[at := NewEntry(ShortName(name), TypeAttribute(isDirectory), c)];
            Listing(es') == Listing(es) && FirstSlot(es', at)
  {
    hide Key, Listing, LongName, ShortName, NewEntry;
    var e: Entry := NewEntry(ShortName(name), TypeAttribute(isDirectory), c);
    NewEntryVisible(name, isDirectory, c);
    ListingCreated(es, at, e);
    HiddenIsSlot(name, isDirectory, c);
  }

  lemma HiddenIsSlot(name: seq<byte>, isDirectory: bool, c: nat)
    requires c < U32 && 0 !in name && Hidden(name)
    ensures IsSlot(NewEntry(ShortName(name), TypeAttribute(isDirectory), c))
  {
    hide LastDot, Base, ShortName;
    ShortNameStart(name);
    NewEntryReads(ShortName(name), TypeAttribute(isDirectory), c);
    var e := NewEntry(ShortName(name), TypeAttribute(isDirectory), c);
    assert e[0] == Name(e)[0];
  }

  /** In terms of ownership every outcome of a creation is a CreateFile call. The new entry leads to the file unless the
      name reads as deleted. */
  lemma CreateIsCall(g: Geometry, v: Volume, v': Volume, s: State, dirId: nat, id: nat, cs': seq<nat>, r: int, at: nat,
                     name: seq<byte>, isDirectory: bool, c: nat, first: seq<byte>)
    requires s.table == v.table && dirId in s.chains && id !in s.chains && 0 !in name && c < U32
    requires CreateOutcome(g, v, v', s.chains[dirId], cs', r, at,
                           NewEntry(ShortName(name), TypeAttribute(isDirectory), c), c, first)
    requires Room(g, v.table, CreateTakes(s.chains[dirId], HasSlot(DirEntries(v, s.chains[dirId]))))
    ensures IsLive(NewEntry(ShortName(name), TypeAttribute(isDirectory), c)) <==> !Hidden(name)
    ensures var grown := s.chains[dirId := cs'];
            var s' := if r != 0 then State(v'.table, s.chains, s.home)
                      else if Hidden(name) then State(v'.table, grown, s.home)
                      else State(v'.table, s.chains[id := [c]][dirId := cs'], s.home[id := dirId]);
            Performs(g, CreateFile(dirId, id, HasSlot(DirEntries(v, s.chains[dirId])), Hidden(name)), s, s')
  {
    hide DirEntries, FirstSlot, ZeroEntries, HasSlot, Room, Leaks, Created, Shaped, NewEntry, ShortName, Grow;
    var e := NewEntry(ShortName(name), TypeAttribute(isDirectory), c);
    var slot := HasSlot(DirEntries(v, s.chains[dirId]));
    NewEntryVisible(name, isDirectory, c);
    if c == 0 {
      assert Free(v.table) == {};
    } else {
      assert c in Free(v.table);
      if Leaks(v.table, s.chains[dirId], slot) {
        assert Forfeit(g, s, State(v'.table, s.chains, s.home), c);
      } else if Hidden(name) {
        HiddenIsSteps(g, v, v', s, dirId, cs', at, e, c, first);
      } else {
        CreatedIsSteps(g, v, v', s, dirId, id, cs', at, e, c, first);
      }
    }
  }

  /** A successful one is the new file taking its cluster and then the directory growing. */
  lemma CreatedIsSteps(g: Geometry, v: Volume, v': Volume, s: State, dirId: nat, id: nat, cs': seq<nat>, at: nat,
                       e: Entry, c: nat, first: seq<byte>)
    requires s.table == v.table && dirId in s.chains && id !in s.chains && IsLowestFree(v.table, c)
    requires Created(g, v, v', s.chains[dirId], cs', at, e, c, first)
    ensures var s' := State(v'.table, s.chains[id := [c]][dirId := cs'], s.home[id := dirId]);
            exists s1, c :: Create(g, s, s1, dirId, id, c) && Grow(g, s1, s', dirId)
  {
    hide DirEntries, FirstSlot, ZeroEntries;
    var s' := State(v'.table, s.chains[id := [c]][dirId := cs'], s.home[id := dirId]);
    var s1 := State(v.table[c := EOC], s.chains[id := [c]], s.home[id := dirId]);
    assert Create(g, s, s1, dirId, id, c);
    assert s'.chains == s1.chains[dirId := s'.chains[dirId]];
    assert |cs'| == |s.chains[dirId]| + 1 ==> cs'[|s.chains[dirId]|] in cs';
    assert Grow(g, s1, s', dirId);
  }

  lemma HiddenIsSteps(g: Geometry, v: Volume, v': Volume, s: State, dirId: nat, cs': seq<nat>, at: nat, e: Entry,
                      c: nat, first: seq<byte>)
    requires s.table == v.table && dirId in s.chains && IsLowestFree(v.table, c)
    requires Created(g, v, v', s.chains[dirId], cs', at, e, c, first)
    ensures var s' := State(v'.table, s.chains[dirId := cs'], s.home);
            exists s1, c :: Forfeit(g, s, s1, c) && Grow(g, s1, s', dirId)
  {
    hide DirEntries, FirstSlot, ZeroEntries;
    var s' := State(v'.table, s.chains[dirId := cs'], s.home);
    var s1 := State(v.table[c := EOC], s.chains, s.home);
    assert Forfeit(g, s, s1, c);
    assert |cs'| == |s.chains[dirId]| + 1 ==> cs'[|s.chains[dirId]|] in cs';
    assert Grow(g, s1, s', dirId);
  }

  /** Removing the entry of a file or directory is a RemoveFile call. */
  lemma RemovedIsStep(g: Geometry, v: Volume, v': Volume, s: State, cs: seq<nat>, at: nat, key: seq<byte>, id: nat)
    requires s.table == v.table && Removed(v, v', cs, at, key) && id in s.chains
    requires if s.chains[id] == [] then StartCluster(DirEntries(v, cs)[at]) == 0
             else StartCluster(DirEntries(v, cs)[at]) == s.chains[id][0] >= 2
    ensures Performs(g, RemoveFile(id), s, State(v'.table, s.chains - Subtree(s, id), s.home - Subtree(s, id)))
  {
    hide DirEntries, Passed, EntrySet, StartCluster, Key, IsLive, FreedAll, Subtree;
  }
}
