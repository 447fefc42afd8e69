/**
 Any sequence of calls on the files of one directory.  What the callers see is a map from names to byte strings:
 each call finds its file by name, as vfs_open does, and then writes it, reads it or removes it.
*/
module FatRuns {
  import opened Bytes
  import opened FatTable
  import opened FatChains
  import opened FatDriver
  import opened FatContents
  import opened FatDirent
  import opened FatFile
  import opened FatWrite
  import opened FatNames
  import opened FatOwnership
  import opened FatDirectory
  import opened FatDirOps
  import opened FatSession

  // ---- the map ----

  /** The files of a directory, by the lower-case form of their names. */
  type Files = map<seq<byte>, seq<byte>>

  type Chains = map<seq<byte>, seq<nat>>

  datatype Op =
    | Open(name: seq<byte>)  // with the flag that creates what is missing
    | Write(name: seq<byte>, offset: nat, buffer: seq<byte>)
    | Read(name: seq<byte>, offset: nat, size: nat)
    | Remove(name: seq<byte>)

  datatype Answer = Missing | Refused | Done | Wrote(count: int) | Got(data: seq<byte>)

  /** A file after `x` was written at `offset`; writing nothing leaves it as it is. */
  function Patched(data: seq<byte>, offset: nat, x: seq<byte>): seq<byte> {
    if x == [] then data else Overwritten(data, offset, x)
  }

  /** What a call may do to the map and answer: a creation may be refused, and a write may take only part of its
      buffer. */
  ghost predicate Step(files: Files, op: Op, a: Answer, files': Files) {
    var key := LowerAll(op.name);
    match op
    case Open(_) =>
      if key in files || a != Refused then a == Done && files' == (if key in files then files else files[key := []])
      else files' == files
    case Write(_, offset, buffer) =>
      if key !in files then a == Missing && files' == files
      else
        && a.Wrote? && -1 <= a.count <= |buffer|
        && files' == files[key := Patched(files[key], offset, if a.count > 0 then buffer[..a.count] else [])]
    case Read(_, offset, size) =>
      files' == files && a == if key in files then Got(Clip(files[key], offset, size)) else Missing
    case Remove(_) =>
      files' == files - {key} && a == if key in files then Done else Missing
  }

  /** The call did not get all it asked for. */
  predicate Failed(op: Op, a: Answer) {
    a == Refused || (op.Write? && a.Wrote? && a.count < |op.buffer|)
  }

  // ---- how a directory on the disk holds the map ----

  /** The entry leads to a file with these bytes, in this chain, and zeros after them. */
  ghost predicate FileOf(g: Geometry, v: Volume, e: Entry, cs: seq<nat>, data: seq<byte>) {
    && Attributes(e) / ATTR_DIRECTORY % 2 == 0 && FileSize(e) == |data|
    && Owns(g, v.table, StartCluster(e), cs) && InData(v, cs) && Holds(Contents(v, cs), data)
  }

  ghost predicate Stored(g: Geometry, v: Volume, es: seq<Entry>, around: seq<nat>, key: seq<byte>, cs: seq<nat>,
                         data: seq<byte>) {
    KeyOnce(es, key) && key in Listing(es) && FileOf(g, v, Listing(es)[key], cs, data) && Disjoint(cs, around)
  }

  ghost predicate FilesOk(g: Geometry, v: Volume, es: seq<Entry>, around: seq<nat>, files: Files, chains: Chains) {
    && files.Keys == chains.Keys
    && (forall k :: k in files ==> Stored(g, v, es, around, k, chains[k], files[k]))
    && (forall i, j :: i in files && j in files && i != j ==> Disjoint(chains[i], chains[j]))
  }

  /** The clusters of the directory, and the one its own entry lies in. */
  ghost function Around(dir: FatNode): seq<nat>
    reads dir
  {
    dir.chain + [dir.dirCluster]
  }

  ghost predicate DirectoryReady(fs: Fat32, dir: FatNode)
    reads fs, dir
  {
    && NodeOk(fs, dir) && dir.chain != [] && InData(fs.vol, dir.chain)
    && LinksInRange(fs.g, fs.vol.table) && DirectoryOk(fs.g, DirEntries(fs.vol, dir.chain))
  }

  ghost predicate Represents(fs: Fat32, dir: FatNode, files: Files, chains: Chains)
    reads fs, dir
  {
    && DirectoryReady(fs, dir)
    && FilesOk(fs.g, fs.vol, DirEntries(fs.vol, dir.chain), Around(dir), files, chains)
  }

  /** The entries of the directory that are none of these files. */
  ghost function Others(fs: Fat32, dir: FatNode, files: Files): map<seq<byte>, Entry>
    reads fs, dir
    requires InData(fs.vol, dir.chain)
  {
    Listing(DirEntries(fs.vol, dir.chain)) - files.Keys
  }

  // ---- one file changes ----

  /** Nothing about these clusters changed. */
  ghost predicate Spared(v: Volume, v': Volume, cs: seq<nat>) {
    && |v'.table| == |v.table| && |v'.data| == |v.data|
    && forall c :: c in cs ==> 2 <= c < |v.data| + 2 && c < |v.table| && v'.table[c] == v.table[c]
                               && v'.data[c - 2] == v.data[c - 2]
  }

  lemma FileSpared(g: Geometry, v: Volume, v': Volume, e: Entry, cs: seq<nat>, data: seq<byte>)
    requires FileOf(g, v, e, cs, data) && Spared(v, v', cs)
    ensures FileOf(g, v', e, cs, data)
  {
    hide StartCluster, FileSize, Contents, Holds;
    if cs != [] {
      ChainSurvives(g, v.table, v'.table, cs);
    }
    forall i | 0 <= i < |cs|
      ensures v'.data[cs[i] - 2] == v.data[cs[i] - 2]
    {
      assert cs[i] in cs;
    }
    ContentsSame(v, v', cs);
  }

  /** A step that touches one name and spares the clusters of all other files keeps those files. */
  lemma OneTouched(g: Geometry, v: Volume, v': Volume, es: seq<Entry>, es': seq<Entry>, around: seq<nat>,
                   around': seq<nat>, files: Files, chains: Chains, key: seq<byte>, files': Files, chains': Chains)
    requires FilesOk(g, v, es, around, files, chains) && StayOnce(es, es') && NoOtherName(es, es', key)
    requires forall k :: k in files && k != key ==> Spared(v, v', chains[k]) && Disjoint(chains[k], around')
    requires files'.Keys == chains'.Keys && files' - {key} == files - {key} && chains' - {key} == chains - {key}
    requires key in files' ==> Stored(g, v', es', around', key, chains'[key], files'[key])
    requires key in files' ==> forall k :: k in files && k != key ==> Disjoint(chains[k], chains'[key])
    ensures FilesOk(g, v', es', around', files', chains')
  {
    hide Stored, Spared, StayOnce, NoOtherName, Disjoint;
    forall k | k in files' && k != key
      ensures k in files && files'[k] == files[k] && chains'[k] == chains[k]
              && Stored(g, v', es', around', k, chains'[k], files'[k])
    {
      SameBinding(files, files', key, k);
      SameBinding(chains, chains', key, k);
      StoredElsewhere(g, v, v', es, es', around, around', key, k, chains[k], files[k]);
    }
    forall i, j | i in files' && j in files' && i != j
      ensures Disjoint(chains'[i], chains'[j])
    {
      DisjointBack(chains'[i], chains'[j]);
    }
  }

  lemma StoredElsewhere(g: Geometry, v: Volume, v': Volume, es: seq<Entry>, es': seq<Entry>, around: seq<nat>,
                        around': seq<nat>, key: seq<byte>, k: seq<byte>, cs: seq<nat>, data: seq<byte>)
    requires Stored(g, v, es, around, k, cs, data) && StayOnce(es, es') && NoOtherName(es, es', key) && k != key
    requires Spared(v, v', cs) && Disjoint(cs, around')
    ensures Stored(g, v', es', around', k, cs, data)
  {
    hide FileOf, Listing, Spared, KeyOnce, StayOnce;
    SameBinding(Listing(es), Listing(es'), key, k);
    StillOnce(es, es', k);
    FileSpared(g, v, v', Listing(es)[k], cs, data);
  }

  lemma DisjointBack(a: seq<nat>, b: seq<nat>)
    ensures Disjoint(a, b) <==> Disjoint(b, a)
  {
  }

  lemma SameBinding<K, V>(m: map<K, V>, m': map<K, V>, key: K, k: K)
    requires m' - {key} == m - {key} && k != key
    ensures k in m' <==> k in m
    ensures k in m ==> m'[k] == m[k]
  {
    assert k in m <==> k in m - {key};
    assert k in m' <==> k in m' - {key};
  }

  /** The names that are none of the files stay as they were. */
  lemma OthersStay<V, W>(m: map<seq<byte>, V>, m': map<seq<byte>, V>, key: seq<byte>, files: map<seq<byte>, W>,
                         files': map<seq<byte>, W>)
    requires m' - {key} == m - {key} && files' - {key} == files - {key}
    requires (key in files || key !in m) && (key in files' || key !in m')
    ensures m' - files'.Keys == m - files.Keys
  {
    forall k
      ensures k in m' - files'.Keys <==> k in m - files.Keys
      ensures k in m - files.Keys ==> m'[k] == m[k]
    {
      if k != key {
        SameBinding(m, m', key, k);
        SameBinding(files, files', key, k);
      }
    }
  }

  /** The clusters of a stored file are in use. */
  lemma StoredUsed(g: Geometry, v: Volume, es: seq<Entry>, around: seq<nat>, key: seq<byte>, cs: seq<nat>,
                   data: seq<byte>, c: nat)
    requires Stored(g, v, es, around, key, cs, data) && c in cs
    ensures 2 <= c < |v.table| && c < |v.data| + 2 && v.table[c] != FREE && c !in around
  {
    hide Listing, StartCluster, FileSize, Contents, Holds, KeyOnce;
    InChainUsed(g, v.table, cs, c);
    var i :| 0 <= i < |cs| && cs[i] == c;
  }

  /** Clusters in use; 0 stands for the place of the root's own entry, which has none. */
  ghost predicate InUse(t: seq<nat>, cs: seq<nat>) {
    forall c :: c in cs && c >= 2 ==> c < |t| && t[c] != FREE
  }

  lemma AroundInUse(fs: Fat32, dir: FatNode)
    requires NodeOk(fs, dir)
    ensures InUse(fs.vol.table, Around(dir))
  {
    forall c | c in Around(dir) && c >= 2
      ensures c < |fs.vol.table| && fs.vol.table[c] != FREE
    {
      if c in dir.chain {
        InChainUsed(fs.g, fs.vol.table, dir.chain, c);
      }
    }
  }

  // ---- finding a file ----

  /** The name is that of a file of the map or of nothing in the directory. */
  ghost predicate Usable(fs: Fat32, dir: FatNode, files: Files, key: seq<byte>)
    reads fs, dir
    requires InData(fs.vol, dir.chain)
  {
    key in files || key !in Listing(DirEntries(fs.vol, dir.chain))
  }

  ghost predicate Found(fs: Fat32, dir: FatNode, node: FatNode, name: seq<byte>, cs: seq<nat>, data: seq<byte>)
    reads fs, dir, node
  {
    && OpenIn(fs, dir, node, name) && node.chain == cs && node.size == |data| && !node.isDirectory
    && Stored(fs.g, fs.vol, DirEntries(fs.vol, dir.chain), Around(dir), LowerAll(name), cs, data)
  }

  method Find(fs: Fat32, dir: FatNode, name: seq<byte>, ghost files: Files, ghost chains: Chains)
      returns (node: FatNode?)
    requires Represents(fs, dir, files, chains) && Usable(fs, dir, files, LowerAll(name))
    ensures node == null <==> LowerAll(name) !in files
    ensures node != null ==> fresh(node) && Found(fs, dir, node, name, chains[LowerAll(name)], files[LowerAll(name)])
  {
    hide NodeOk, NodeReadable, DirEntries, Listing, LowerAll, DirectoryOk, ChainFrom, StartCluster, FileSize, IsChain,
         Contents, KeyOnce, Holds;
    NodeFacts(fs, dir);
    DirectoryParts(fs.g, DirEntries(fs.vol, dir.chain));
    node := VnodeLookup(fs, dir, name);
    if node != null {
      ghost var key := LowerAll(name);
      ghost var e := Listing(DirEntries(fs.vol, dir.chain))[key];
      assert Stored(fs.g, fs.vol, DirEntries(fs.vol, dir.chain), Around(dir), key, chains[key], files[key]);
      ApartFromDirectory(dir, chains[key]);
      OwnsChain(fs.g, fs.vol.table, StartCluster(e), chains[key]);
      OpenedOk(fs, dir, e, node, chains[key]);
    }
  }

  lemma ApartFromDirectory(dir: FatNode, cs: seq<nat>)
    requires Disjoint(cs, Around(dir))
    ensures forall c :: c in cs ==> c !in dir.chain && c != dir.dirCluster
  {
    assert dir.dirCluster in Around(dir);
    assert forall c :: c in dir.chain ==> c in Around(dir);
  }

  lemma OwnsChain(g: Geometry, t: seq<nat>, first: nat, cs: seq<nat>)
    requires Owns(g, t, first, cs)
    ensures if first == 0 then cs == [] else IsChain(g, t, cs) && cs[0] == first
  {
  }

  // ---- writing ----

  lemma OutsideSelf(g: Geometry, t: seq<nat>)
    ensures OutsideKept(g, t, t)
  {
  }

  lemma OutsideTransitive(g: Geometry, t0: seq<nat>, t1: seq<nat>, t2: seq<nat>)
    requires OutsideKept(g, t0, t1) && OutsideKept(g, t1, t2)
    ensures OutsideKept(g, t0, t2)
  {
  }

  /** A write spares the clusters of every other file, and what it takes was nobody's. */
  lemma WriteSpares(g: Geometry, v: Volume, v': Volume, cs': seq<nat>, d: nat, es: seq<Entry>, around: seq<nat>,
                    files: Files, chains: Chains, key: seq<byte>, k: seq<byte>)
    requires FilesOk(g, v, es, around, files, chains) && key in files && k in files && k != key
    requires Extended(g, v, v', chains[key], cs', d) && d in around
    ensures Spared(v, v', chains[k]) && Disjoint(chains[k], cs')
  {
    hide Stored, IsChain;
    forall c | c in chains[k]
      ensures c !in cs' && c != d && 2 <= c < |v.data| + 2 && c < |v.table| && v.table[c] != FREE
    {
      StoredUsed(g, v, es, around, k, chains[k], files[k], c);
      NotTaken(g, v, v', chains[key], cs', d, c);
    }
  }

  lemma NotTaken(g: Geometry, v: Volume, v': Volume, cs: seq<nat>, cs': seq<nat>, d: nat, c: nat)
    requires Extended(g, v, v', cs, cs', d) && 2 <= c < |v.table| && v.table[c] != FREE && c !in cs
    ensures c !in cs'
  {
    forall i | 0 <= i < |cs'|
      ensures cs'[i] != c
    {
      if i < |cs| {
        assert cs[i] == cs'[i];
      }
    }
  }

  lemma WriteStaysApart(g: Geometry, v: Volume, v': Volume, cs: seq<nat>, cs': seq<nat>, d: nat, around: seq<nat>)
    requires Extended(g, v, v', cs, cs', d) && Disjoint(cs, around) && InUse(v.table, around)
    ensures Disjoint(cs', around)
  {
    hide IsChain;
    forall i | 0 <= i < |cs'|
      ensures cs'[i] !in around
    {
      if i < |cs| {
        assert cs[i] == cs'[i] && cs[i] in cs;
      } else {
        InChainUsed(g, v'.table, cs', cs'[i]);
        assert v.table[cs'[i]] == FREE;
      }
    }
  }

  /** The bytes of the file after a write, whatever its outcome. */
  lemma WrittenData(g: Geometry, v: Volume, v': Volume, cs: seq<nat>, cs': seq<nat>, d: nat, offset: nat,
                    buffer: seq<byte>, r: int, data: seq<byte>)
    requires g.Valid() && -1 <= r <= |buffer| && offset + |buffer| < U32 && InData(v, cs)
             && Holds(Contents(v, cs), data)
    requires if r <= 0 then Lengthened(g, v, v', cs, cs', d)
             else Writing(g, v, cs, d, Position(g, offset), buffer, v', cs', r)
    ensures Extended(g, v, v', cs, cs', d) && InData(v', cs')
    ensures Holds(Contents(v', cs'), Patched(data, offset, if r > 0 then buffer[..r] else []))
  {
    hide Contents, Extended, Overwritten, IsChain, WroteSoFar, Position;
    if r > 0 {
      SmallOffset(g, offset);
      WriteFills(g, v, cs, d, offset, buffer, v', cs', r, data);
    }
  }

  lemma SmallOffset(g: Geometry, offset: nat)
    requires g.Valid() && offset < U32
    ensures Position(g, offset) == offset
  {
    hide Position;
    PositionIsOffset(g, offset);
  }

  /** Room left after a chain grew. */
  lemma ExtendedRoom(g: Geometry, v: Volume, v': Volume, cs: seq<nat>, cs': seq<nat>, d: nat, n: int)
    requires Extended(g, v, v', cs, cs', d) && (cs == [] || IsChain(g, v.table, cs)) && Room(g, v.table, n)
    ensures Room(g, v'.table, n - (|cs'| - |cs|))
  {
    if FreeInData(g, v.table) {
      forall c | g.End() <= c < |v'.table|
        ensures v'.table[c] != FREE
      {
        if c in cs' {
          InChainUsed(g, v'.table, cs', c);
        }
      }
    } else {
      var added := cs'[|cs|..];
      forall c | c in FreeData(g, v.table) - Elems(added)
        ensures c !in cs'
      {
        FreeIsAdded(g, v, v', cs, cs', d, c);
      }
      ElemsSize(added);
      LeftOver(FreeData(g, v.table), FreeData(g, v'.table));
      SubsetSize(FreeData(g, v.table) - FreeData(g, v'.table), Elems(added));
    }
  }

  lemma FreeIsAdded(g: Geometry, v: Volume, v': Volume, cs: seq<nat>, cs': seq<nat>, d: nat, c: nat)
    requires Extended(g, v, v', cs, cs', d) && (cs == [] || IsChain(g, v.table, cs)) && 2 <= c < |v.table|
             && v.table[c] == FREE
    ensures c in cs' ==> c in cs'[|cs|..]
  {
    if c in cs' {
      var i :| 0 <= i < |cs'| && cs'[i] == c;
      if i < |cs| {
        assert cs[i] == c;
        InChainUsed(g, v.table, cs, c);
      } else {
        assert cs'[|cs|..][i - |cs|] == c;
      }
    }
  }

  lemma {:induction false} ElemsSize(cs: seq<nat>)
    ensures |Elems(cs)| <= |cs|
  {
    if cs != [] {
      ElemsSize(cs[1..]);
      assert Elems(cs) == Elems(cs[1..]) + {cs[0]};
    }
  }

  /** How many clusters a write may take. */
  ghost function WriteTakes(g: Geometry, offset: nat, n: nat): nat
    requires g.Valid()
  {
    ClustersFor(g, Position(g, offset), Max(n, 1))
  }

  lemma ClustersForGrows(g: Geometry, pos: nat, n: nat, m: nat)
    requires g.Valid() && n <= m && m > 0
    ensures ClustersFor(g, pos, n) <= ClustersFor(g, pos, m)
  {
    hide Geometry.Bpc, Geometry.Valid;
    BpcPositive(g);
    if n > 0 {
      QuotientGrows(pos + n - 1, pos + m - 1, g.Bpc());
    }
  }

  lemma BpcPositive(g: Geometry)
    requires g.Valid()
    ensures g.Bpc() > 0
  {
  }

  lemma QuotientGrows(a: nat, b: nat, n: nat)
    requires a <= b && n > 0
    ensures a / n <= b / n
  {
    DivMod(a, n);
    QuotientAtLeast(b, n, a / n);
  }

  lemma WriteTakesEnough(g: Geometry, offset: nat, n: nat)
    requires g.Valid()
    ensures ClustersFor(g, Position(g, offset), n) <= WriteTakes(g, offset, n)
  {
    hide ClustersFor, Position;
    ClustersForGrows(g, Position(g, offset), n, Max(n, 1));
  }

  /** A chain grows by no more than that. */
  lemma WriteGrowth(g: Geometry, offset: nat, n: nat, r: int, before: nat, after: nat)
    requires g.Valid() && -1 <= r <= n
    requires if r >= 0 then after == Max(before, ClustersFor(g, Position(g, offset), r))
             else after <= Max(before, ClusterIndex(g, offset))
    ensures after - before <= WriteTakes(g, offset, n)
  {
    hide ClustersFor, Position, ClusterIndex;
    if r >= 0 {
      ClustersForGrows(g, Position(g, offset), r, Max(n, 1));
    } else {
      IndexNeeded(g, offset, Max(n, 1));
    }
  }

  /** The file's entry after a write leads to what was written. */
  lemma FileAfterWrite(g: Geometry, v: Volume, v': Volume, e: Entry, e': Entry, cs: seq<nat>, cs': seq<nat>,
                       first: nat, offset: nat, n: nat, r: int, data: seq<byte>, data': seq<byte>, size: nat)
    requires FileOf(g, v, e, cs, data) && cs <= cs' && -1 <= r <= n && offset + n < U32
    requires Owns(g, v'.table, first, cs') && InData(v', cs') && Holds(Contents(v', cs'), data')
    requires |data'| == (if r > 0 then Max(|data|, offset + r) else |data|) && size == |data'|
    requires StartCluster(e') == (if cs == [] && cs' != [] then first else StartCluster(e))
             && Attributes(e') == Attributes(e)
    requires FileSize(e') == if size != |data| then size % U32 else FileSize(e)
    ensures FileOf(g, v', e', cs', data')
  {
    hide StartCluster, FileSize, Contents, Holds, IsChain;
  }

  lemma FilePart(g: Geometry, v: Volume, es: seq<Entry>, around: seq<nat>, files: Files, chains: Chains, key: seq<byte>)
    requires FilesOk(g, v, es, around, files, chains) && key in files
    ensures key in Listing(es) && FileOf(g, v, Listing(es)[key], chains[key], files[key])
            && Disjoint(chains[key], around)
    ensures InData(v, chains[key]) && Holds(Contents(v, chains[key]), files[key])
  {
    hide StartCluster, FileSize, Contents, Holds, IsChain, KeyOnce, Listing;
  }

  lemma ReadyParts(fs: Fat32, dir: FatNode)
    requires DirectoryReady(fs, dir)
    ensures NodeOk(fs, dir) && InData(fs.vol, dir.chain) && LinksInRange(fs.g, fs.vol.table)
            && DirectoryOk(fs.g, DirEntries(fs.vol, dir.chain))
  {
  }

  lemma MissingStep(files: Files, op: Op)
    requires LowerAll(op.name) !in files && !op.Open?
    ensures Step(files, op, Missing, files) && !Failed(op, Missing)
  {
    hide LowerAll;
    assert files - {LowerAll(op.name)} == files;
  }

  lemma WroteStep(files: Files, name: seq<byte>, offset: nat, buffer: seq<byte>, n: int, data: seq<byte>)
    requires LowerAll(name) in files && -1 <= n <= |buffer|
    requires data == Patched(files[LowerAll(name)], offset, if n > 0 then buffer[..n] else [])
    ensures Step(files, Write(name, offset, buffer), Wrote(n), files[LowerAll(name) := data])
    ensures Failed(Write(name, offset, buffer), Wrote(n)) ==> n < |buffer|
  {
    hide LowerAll, Patched;
  }

  lemma PatchedSize(data: seq<byte>, offset: nat, x: seq<byte>)
    ensures |Patched(data, offset, x)| == if x == [] then |data| else Max(|data|, offset + |x|)
  {
    hide Overwritten;
  }

  lemma FoundParts(fs: Fat32, dir: FatNode, node: FatNode, name: seq<byte>, cs: seq<nat>, data: seq<byte>)
    requires Found(fs, dir, node, name, cs, data)
    ensures OpenIn(fs, dir, node, name) && node.chain == cs && node.size == |data| && !node.isDirectory
    ensures LowerAll(name) in Listing(DirEntries(fs.vol, dir.chain)) && InData(fs.vol, cs)
    ensures FileOf(fs.g, fs.vol, Listing(DirEntries(fs.vol, dir.chain))[LowerAll(name)], cs, data)
            && Disjoint(cs, Around(dir))
    ensures Holds(Contents(fs.vol, cs), data)
  {
    hide Listing, DirEntries, OpenIn, LowerAll, KeyOnce, Contents, Holds, Owns;
  }

  lemma InDirectory(dir: FatNode, d: nat)
    requires d in dir.chain
    ensures d in Around(dir)
  {
  }

  /** What the map needs of the directory after a write. */
  lemma WriteRepresents(fs: Fat32, dir: FatNode, v: Volume, cs': seq<nat>, d: nat, files: Files, chains: Chains,
                        key: seq<byte>, e': Entry, data: seq<byte>)
    requires InData(v, dir.chain) && FilesOk(fs.g, v, DirEntries(v, dir.chain), Around(dir), files, chains)
             && key in files
    requires DirectoryReady(fs, dir) && StayOnce(DirEntries(v, dir.chain), DirEntries(fs.vol, dir.chain))
    requires Listing(DirEntries(fs.vol, dir.chain)) == Listing(DirEntries(v, dir.chain))[key := e']
             && KeyOnce(DirEntries(fs.vol, dir.chain), key)
    requires Extended(fs.g, v, fs.vol, chains[key], cs', d) && d in Around(dir) && InUse(v.table, Around(dir))
    requires FileOf(fs.g, fs.vol, e', cs', data)
    ensures Represents(fs, dir, files[key := data], chains[key := cs'])
    ensures Others(fs, dir, files[key := data]) == Listing(DirEntries(v, dir.chain)) - files.Keys
  {
    hide DirectoryReady, DirEntries, FileOf, Listing, KeyOnce, StayOnce, Extended, Spared, InUse;
    ReadyParts(fs, dir);
    var es, es' := DirEntries(v, dir.chain), DirEntries(fs.vol, dir.chain);
    FilePart(fs.g, v, es, Around(dir), files, chains, key);
    ListingPlus(Listing(es), key, e');
    WriteStaysApart(fs.g, v, fs.vol, chains[key], cs', d, Around(dir));
    forall k | k in files && k != key
      ensures Spared(v, fs.vol, chains[k]) && Disjoint(chains[k], Around(dir)) && Disjoint(chains[k], cs')
    {
      WriteSpares(fs.g, v, fs.vol, cs', d, es, Around(dir), files, chains, key, k);
      FilePart(fs.g, v, es, Around(dir), files, chains, k);
    }
    OneTouched(fs.g, v, fs.vol, es, es', Around(dir), Around(dir), files, chains, key, files[key := data],
               chains[key := cs']);
    OthersStay(Listing(es), Listing(es'), key, files, files[key := data]);
  }

  lemma ReadyFrom(fs: Fat32, dir: FatNode)
    requires NodeOk(fs, dir) && dir.chain != [] && InData(fs.vol, dir.chain)
    requires LinksInRange(fs.g, fs.vol.table) && DirectoryOk(fs.g, DirEntries(fs.vol, dir.chain))
    ensures DirectoryReady(fs, dir)
  {
  }

  lemma RepresentsParts(fs: Fat32, dir: FatNode, files: Files, chains: Chains)
    requires Represents(fs, dir, files, chains)
    ensures DirectoryReady(fs, dir) && dir.chain != [] && files.Keys == chains.Keys && Fits(fs.g, fs.disk)
    ensures InData(fs.vol, dir.chain)
            && FilesOk(fs.g, fs.vol, DirEntries(fs.vol, dir.chain), Around(dir), files, chains)
    ensures Others(fs, dir, files) == Listing(DirEntries(fs.vol, dir.chain)) - files.Keys
  {
    hide Stored, DirEntries, Listing, DirectoryOk;
  }

  lemma ExtendedParts(g: Geometry, v: Volume, v': Volume, cs: seq<nat>, cs': seq<nat>, dir: nat)
    requires Extended(g, v, v', cs, cs', dir)
    ensures cs <= cs'
  {
  }

  method WriteFound(fs: Fat32, dir: FatNode, node: FatNode, name: seq<byte>, offset: nat, buffer: seq<byte>,
                    ghost files: Files, ghost chains: Chains, ghost room: int)
      returns (n: int, ghost files': Files, ghost chains': Chains)
    requires Represents(fs, dir, files, chains) && LowerAll(name) in files && dir != node && fs.g.Valid()
    requires Found(fs, dir, node, name, chains[LowerAll(name)], files[LowerAll(name)])
    requires |buffer| < 0x8000_0000 && offset + |buffer| < U32
    requires Room(fs.g, fs.vol.table, room) && room >= WriteTakes(fs.g, offset, |buffer|)
    modifies fs, node`size, node`firstCluster, node`chain
    ensures Represents(fs, dir, files', chains') && Step(files, Write(name, offset, buffer), Wrote(n), files')
    ensures Others(fs, dir, files') == old(Others(fs, dir, files))
    ensures Kept(fs.g, old(fs.disk), fs.disk) && (n < |buffer| ==> NoFree(fs.vol.table))
    ensures OutsideKept(fs.g, old(fs.vol.table), fs.vol.table)
    ensures Room(fs.g, fs.vol.table, room - WriteTakes(fs.g, offset, |buffer|)) && fs.g.Valid()
  {
    hide *;
    ghost var v, key, g := fs.vol, LowerAll(name), fs.g;
    RepresentsParts(fs, dir, files, chains);
    ghost var cs, data := chains[key], files[key];
    FoundParts(fs, dir, node, name, cs, data);
    ReadyParts(fs, dir);
    AroundInUse(fs, dir);
    ghost var e := OpenParts(fs, dir, node, name);
    InDirectory(dir, node.dirCluster);
    n := WriteFoundBytes(fs, node, offset, buffer, room);
    ghost var data' := Patched(data, offset, if n > 0 then buffer[..n] else []);
    ghost var gotFirst := cs == [] && node.chain != [];
    WrittenData(g, v, fs.vol, cs, node.chain, node.dirCluster, offset, buffer, n, data);
    PatchedSize(data, offset, if n > 0 then buffer[..n] else []);
    MaxIs(|data|, offset + n);
    StaysOpen(fs, dir, node, v, cs, gotFirst, |data|, e, key);
    ghost var e': Entry := EntryAfter(e, gotFirst, node.firstCluster, node.size != |data|, node.size);
    ExtendedTable(g, v, fs.vol, cs, node.chain, node.dirCluster);
    ReadyFrom(fs, dir);
    NodeOkAgain(fs, node);
    ExtendedParts(g, v, fs.vol, cs, node.chain, node.dirCluster);
    FileAfterWrite(g, v, fs.vol, e, e', cs, node.chain, node.firstCluster, offset, |buffer|, n, data, data', node.size);
    WriteRepresents(fs, dir, v, node.chain, node.dirCluster, files, chains, key, e', data');
    WroteStep(files, name, offset, buffer, n, data');
    files', chains' := files[key := data'], chains[key := node.chain];
  }

  /** The call itself, with the room it leaves. */
  method WriteFoundBytes(fs: Fat32, node: FatNode, offset: nat, buffer: seq<byte>, ghost room: int) returns (n: int)
    requires NodeOk(fs, node) && |buffer| < 0x8000_0000 && offset + |buffer| < U32 && fs.g.Valid()
    requires Room(fs.g, fs.vol.table, room) && room >= WriteTakes(fs.g, offset, |buffer|)
    modifies fs, node`size, node`firstCluster, node`chain
    ensures NodeOk(fs, node) && Kept(fs.g, old(fs.disk), fs.disk)
    ensures -1 <= n <= |buffer| && (n < |buffer| ==> NoFree(fs.vol.table))
    ensures if n <= 0 then Lengthened(fs.g, old(fs.vol), fs.vol, old(node.chain), node.chain, node.dirCluster)
            else Writing(fs.g, old(fs.vol), old(node.chain), node.dirCluster, Position(fs.g, offset), buffer, fs.vol,
                         node.chain, n)
    ensures node.size == if n > 0 && offset + n > old(node.size) then offset + n else old(node.size)
    ensures EntryResult(old(fs.vol), fs.vol, node.dirCluster, node.dirEntryOffset,
                        old(node.chain) == [] && node.chain != [], node.firstCluster, node.size != old(node.size),
                        node.size)
    ensures OutsideKept(fs.g, old(fs.vol.table), fs.vol.table)
    ensures Room(fs.g, fs.vol.table, room - WriteTakes(fs.g, offset, |buffer|))
  {
    hide *;
    ghost var v, cs, g := fs.vol, node.chain, fs.g;
    NodeFacts(fs, node);
    WriteTakesEnough(g, offset, |buffer|);
    RoomLess(g, v.table, room, ClustersFor(g, Position(g, offset), |buffer|) - |cs|);
    n := VnodeWrite(fs, node, offset, buffer);
    WriteOutside(g, v, cs, node.dirCluster, Position(g, offset), buffer, fs.vol, node.chain, n);
    if n <= 0 {
      LengthenedIs(g, v, fs.vol, cs, node.chain, node.dirCluster);
    } else {
      WritingExtended(g, v, cs, node.dirCluster, Position(g, offset), buffer, fs.vol, node.chain, n);
    }
    ExtendedRoom(g, v, fs.vol, cs, node.chain, node.dirCluster, room);
    WriteGrowth(g, offset, |buffer|, n, |cs|, |node.chain|);
    RoomLess(g, fs.vol.table, room - (|node.chain| - |cs|), room - WriteTakes(g, offset, |buffer|));
  }

  lemma LengthenedIs(g: Geometry, v: Volume, v': Volume, cs: seq<nat>, cs': seq<nat>, dir: nat)
    requires Lengthened(g, v, v', cs, cs', dir)
    ensures Extended(g, v, v', cs, cs', dir)
  {
  }

  method WriteFile(fs: Fat32, dir: FatNode, name: seq<byte>, offset: nat, buffer: seq<byte>, ghost files: Files,
                   ghost chains: Chains, ghost room: int)
      returns (a: Answer, ghost files': Files, ghost chains': Chains)
    requires Represents(fs, dir, files, chains) && Usable(fs, dir, files, LowerAll(name)) && fs.g.Valid()
    requires |buffer| < 0x8000_0000 && offset + |buffer| < U32
    requires Room(fs.g, fs.vol.table, room) && room >= WriteTakes(fs.g, offset, |buffer|)
    modifies fs
    ensures Represents(fs, dir, files', chains') && Step(files, Write(name, offset, buffer), a, files')
    ensures Others(fs, dir, files') == old(Others(fs, dir, files)) && fs.g.Valid()
    ensures Kept(fs.g, old(fs.disk), fs.disk) && (Failed(Write(name, offset, buffer), a) ==> NoFree(fs.vol.table))
    ensures OutsideKept(fs.g, old(fs.vol.table), fs.vol.table)
    ensures Room(fs.g, fs.vol.table, room - WriteTakes(fs.g, offset, |buffer|))
  {
    hide *;
    var node := Find(fs, dir, name, files, chains);
    RepresentsParts(fs, dir, files, chains);
    OutsideSelf(fs.g, fs.vol.table);
    if node == null {
      KeptSelf(fs.g, fs.disk);
      RoomLess(fs.g, fs.vol.table, room, room - WriteTakes(fs.g, offset, |buffer|));
      MissingStep(files, Write(name, offset, buffer));
      return Missing, files, chains;
    }
    var n: int;
    n, files', chains' := WriteFound(fs, dir, node, name, offset, buffer, files, chains, room);
    FailedWrite(name, offset, buffer, n);
    a := Wrote(n);
  }

  lemma FailedWrite(name: seq<byte>, offset: nat, buffer: seq<byte>, n: int)
    ensures Failed(Write(name, offset, buffer), Wrote(n)) <==> n < |buffer|
  {
  }

  // ---- reading ----

  lemma ReadHeld(g: Geometry, contents: seq<byte>, data: seq<byte>, offset: nat, size: nat)
    requires g.Valid() && Holds(contents, data) && |data| < U32
    ensures Clip(contents, Position(g, offset), Wanted(false, |data|, offset, size)) == Clip(data, offset, size)
  {
    hide Position;
    if offset < |data| {
      SmallOffset(g, offset);
    }
  }

  method ReadFile(fs: Fat32, dir: FatNode, name: seq<byte>, offset: nat, size: nat, ghost files: Files,
                  ghost chains: Chains) returns (a: Answer)
    requires Represents(fs, dir, files, chains) && Usable(fs, dir, files, LowerAll(name))
    requires size < 0x8000_0000 && offset + size < U32 * U32 && fs.g.Valid()
    ensures Step(files, Read(name, offset, size), a, files) && !Failed(Read(name, offset, size), a)
  {
    hide *;
    var node := Find(fs, dir, name, files, chains);
    if node == null {
      MissingStep(files, Read(name, offset, size));
      return Missing;
    }
    RepresentsParts(fs, dir, files, chains);
    ghost var data := files[LowerAll(name)];
    FoundParts(fs, dir, node, name, chains[LowerAll(name)], data);
    ghost var e := OpenParts(fs, dir, node, name);
    SizeFits(e);
    NodeFacts(fs, node);
    var _, buffer := VnodeRead(fs, node, offset, size);
    ReadHeld(fs.g, Contents(fs.vol, node.chain), data, offset, size);
    GotStep(files, name, offset, size);
    a := Got(buffer);
  }

  lemma SizeFits(e: Entry)
    ensures FileSize(e) < U32
  {
  }

  lemma GotStep(files: Files, name: seq<byte>, offset: nat, size: nat)
    requires LowerAll(name) in files
    ensures var a := Got(Clip(files[LowerAll(name)], offset, size));
            Step(files, Read(name, offset, size), a, files) && !Failed(Read(name, offset, size), a)
  {
    hide LowerAll;
  }

  // ---- creating ----

  /** A creation spares the clusters of every file. */
  lemma CreateSpares(g: Geometry, v: Volume, v': Volume, cs: seq<nat>, cs': seq<nat>, at: nat, e: Entry, c: nat,
                     first: seq<byte>, d: nat, files: Files, chains: Chains, k: seq<byte>)
    requires Created(g, v, v', cs, cs', at, e, c, first) && v.table[c] == FREE
    requires FilesOk(g, v, DirEntries(v, cs), cs + [d], files, chains) && k in files
    ensures Spared(v, v', chains[k]) && Disjoint(chains[k], cs' + [d]) && c !in chains[k]
  {
    hide Stored, IsChain, DirEntries, FirstSlot, ZeroEntries, HasSlot;
    forall x | x in chains[k]
      ensures x != c && x !in cs' && x != d && 2 <= x < |v.data| + 2 && x < |v.table|
    {
      StoredUsed(g, v, DirEntries(v, cs), cs + [d], k, chains[k], files[k], x);
      GrownByFree(v.table, cs, cs', x);
      assert x !in cs && d in cs + [d];
    }
  }

  lemma GrownByFree(t: seq<nat>, cs: seq<nat>, cs': seq<nat>, x: nat)
    requires cs <= cs' && |cs'| <= |cs| + 1 && x < |t| && t[x] != FREE && x !in cs
    requires |cs'| == |cs| + 1 ==> cs'[|cs|] < |t| && t[cs'[|cs|]] == FREE
    ensures x !in cs'
  {
    forall i | 0 <= i < |cs'|
      ensures cs'[i] != x
    {
      if i < |cs| {
        assert cs[i] == cs'[i];
      }
    }
  }

  lemma NewFile(g: Geometry, v: Volume, e: Entry, c: nat)
    requires StartCluster(e) == c && FileSize(e) == 0 && Attributes(e) == TypeAttribute(false)
    requires IsChain(g, v.table, [c]) && 2 <= c < |v.data| + 2 && v.data[c - 2] == Zeros(g.Bpc())
    ensures FileOf(g, v, e, [c], [])
  {
    hide StartCluster, FileSize, IsChain;
    assert Contents(v, [c]) == v.data[c - 2] + Contents(v, []);
  }

  lemma CreatedRepresents(fs: Fat32, dir: FatNode, v: Volume, cs: seq<nat>, at: nat, name: seq<byte>, c: nat,
                          files: Files, chains: Chains)
    requires c < U32 && fs.g.Valid() && NodeOk(fs, dir) && LinksInRange(fs.g, v.table) && c < |v.table|
             && v.table[c] == FREE
    requires Created(fs.g, v, fs.vol, cs, dir.chain, at, NewEntry(ShortName(name), TypeAttribute(false), c), c,
                     Zeros(fs.g.Bpc()))
    requires DirectoryOk(fs.g, DirEntries(v, cs)) && Storable(name) && 0 !in name
             && LowerAll(name) !in Listing(DirEntries(v, cs))
    requires FilesOk(fs.g, v, DirEntries(v, cs), cs + [dir.dirCluster], files, chains)
             && InUse(v.table, cs + [dir.dirCluster])
    ensures Represents(fs, dir, files[LowerAll(name) := []], chains[LowerAll(name) := [c]])
    ensures Others(fs, dir, files[LowerAll(name) := []]) == Listing(DirEntries(v, cs)) - files.Keys
  {
    hide NodeOk, DirEntries, Listing, LowerAll, LongName, ShortName, DirectoryOk, Storable, NewEntry, LinksInRange,
         Stored, FileOf, StartCluster, FileSize, KeyOnce, StayOnce, Spared, Zeros, IsChain, Created, InData;
    var g, v', key, cs', e: Entry := fs.g, fs.vol, LowerAll(name), dir.chain, NewEntry(ShortName(name),
        TypeAttribute(false), c);
    CreatedCluster(g, v, v', cs, cs', at, e, c, Zeros(g.Bpc()));
    var es := DirEntries(v, cs);
    StorableFits(name);
    CreatedChain(g, v, v', cs, cs', at, e, c, Zeros(g.Bpc()));
    CreatedListing(g, v, v', cs, cs', at, name, false, c, Zeros(g.Bpc()));
    CreatedTable(g, v, v', cs, cs', at, e, c, Zeros(g.Bpc()));
    NewFile(g, v', e, c);
    ReadyFrom(fs, dir);
    ListingPlus(Listing(es), key, e);
    NewApart(v.table, c, cs, cs', dir.dirCluster);
    forall k | k in files && k != key
      ensures Spared(v, v', chains[k]) && Disjoint(chains[k], Around(dir)) && Disjoint(chains[k], [c])
    {
      CreateSpares(g, v, v', cs, cs', at, e, c, Zeros(g.Bpc()), dir.dirCluster, files, chains, k);
    }
    StoredFrom(g, v', DirEntries(v', cs'), Around(dir), key, e, [c], []);
    OneTouched(g, v, v', es, DirEntries(v', cs'), cs + [dir.dirCluster], Around(dir), files, chains, key,
               files[key := []], chains[key := [c]]);
    OthersStay(Listing(es), Listing(DirEntries(v', cs')), key, files, files[key := []]);
  }

  lemma StoredFrom(g: Geometry, v: Volume, es: seq<Entry>, around: seq<nat>, key: seq<byte>, e: Entry, cs: seq<nat>,
                   data: seq<byte>)
    requires KeyOnce(es, key) && key in Listing(es) && Listing(es)[key] == e && FileOf(g, v, e, cs, data)
             && Disjoint(cs, around)
    ensures Stored(g, v, es, around, key, cs, data)
  {
  }

  lemma NewApart(t: seq<nat>, c: nat, cs: seq<nat>, cs': seq<nat>, d: nat)
    requires InUse(t, cs + [d]) && 2 <= c < |t| && t[c] == FREE && c !in cs'
    ensures Disjoint([c], cs' + [d])
  {
    assert d in cs + [d];
  }

  lemma CreatedCluster(g: Geometry, v: Volume, v': Volume, cs: seq<nat>, cs': seq<nat>, at: nat, e: Entry, c: nat,
                       first: seq<byte>)
    requires Created(g, v, v', cs, cs', at, e, c, first)
    ensures 2 <= c < |v'.data| + 2 && v'.data[c - 2] == first && c !in cs' && cs' != []
    ensures InData(v, cs) && InData(v', cs')
  {
    hide DirEntries, FirstSlot, ZeroEntries, HasSlot;
  }

  lemma AroundIs(dir: FatNode)
    ensures Around(dir) == dir.chain + [dir.dirCluster]
  {
  }

  lemma TakesAtMost(cs: seq<nat>, hasSlot: bool)
    ensures CreateTakes(cs, hasSlot) <= 2
  {
  }

  lemma RepresentsAgain(fs: Fat32, dir: FatNode, files: Files, chains: Chains)
    requires NodeOk(fs, dir) && dir.chain != [] && InData(fs.vol, dir.chain)
    requires LinksInRange(fs.g, fs.vol.table) && DirectoryOk(fs.g, DirEntries(fs.vol, dir.chain))
    requires FilesOk(fs.g, fs.vol, DirEntries(fs.vol, dir.chain), Around(dir), files, chains)
    ensures Represents(fs, dir, files, chains)
    ensures Others(fs, dir, files) == Listing(DirEntries(fs.vol, dir.chain)) - files.Keys
  {
  }

  /** A creation that fails takes at most one cluster, and nobody's. */
  lemma RefusedRepresents(fs: Fat32, dir: FatNode, v: Volume, c: nat, files: Files, chains: Chains)
    requires fs.g.Valid() && NodeOk(fs, dir) && LinksInRange(fs.g, v.table) && Shaped(fs.g, v) && InData(v, dir.chain)
    requires 2 <= c < fs.g.End() <= |v.table| && v.table[c] == FREE && fs.vol == Taken(fs.g, v, 0, c)
    requires dir.chain != [] && InUse(v.table, Around(dir)) && DirectoryOk(fs.g, DirEntries(v, dir.chain))
    requires FilesOk(fs.g, v, DirEntries(v, dir.chain), Around(dir), files, chains)
    ensures Represents(fs, dir, files, chains)
            && Others(fs, dir, files) == Listing(DirEntries(v, dir.chain)) - files.Keys
  {
    hide NodeOk, DirEntries, Listing, DirectoryOk, Stored;
    forall x | x in dir.chain
      ensures x != c
    {
      assert x in Around(dir);
    }
    SameInside(fs.g, v, fs.vol, dir.chain);
    var es := DirEntries(v, dir.chain);
    forall k | k in files
      ensures Stored(fs.g, fs.vol, es, Around(dir), k, chains[k], files[k])
    {
      forall x | x in chains[k]
        ensures x != c && 2 <= x < |v.data| + 2 && x < |v.table|
      {
        StoredUsed(fs.g, v, es, Around(dir), k, chains[k], files[k], x);
      }
      StoredSpared(fs.g, v, fs.vol, es, Around(dir), k, chains[k], files[k]);
    }
  }

  lemma StoredSpared(g: Geometry, v: Volume, v': Volume, es: seq<Entry>, around: seq<nat>, key: seq<byte>,
                     cs: seq<nat>, data: seq<byte>)
    requires Stored(g, v, es, around, key, cs, data) && Spared(v, v', cs)
    ensures Stored(g, v', es, around, key, cs, data)
  {
    hide Listing, FileOf, Spared, KeyOnce;
    FileSpared(g, v, v', Listing(es)[key], cs, data);
  }

  lemma OpenSteps(files: Files, name: seq<byte>)
    ensures LowerAll(name) in files ==> Step(files, Open(name), Done, files)
    ensures LowerAll(name) !in files ==> Step(files, Open(name), Done, files[LowerAll(name) := []])
                                         && Step(files, Open(name), Refused, files)
    ensures !Failed(Open(name), Done)
  {
    hide LowerAll;
  }

  lemma CreateRoom(g: Geometry, v: Volume, cs: seq<nat>, room: int)
    requires InData(v, cs) && Room(g, v.table, room) && room >= 2
    ensures Room(g, v.table, CreateTakes(cs, HasSlot(DirEntries(v, cs))))
  {
    hide Room, DirEntries, HasSlot;
    RoomLess(g, v.table, room, CreateTakes(cs, HasSlot(DirEntries(v, cs))));
  }

  lemma RefusedOutcome(g: Geometry, v: Volume, v': Volume, cs: seq<nat>, cs': seq<nat>, r: int, at: nat, e: Entry,
                       c: nat, first: seq<byte>, n: int)
    requires CreateOutcome(g, v, v', cs, cs', r, at, e, c, first) && r != 0 && Room(g, v.table, n)
    ensures cs' == cs && Room(g, v'.table, n - 1)
    ensures c == 0 ==> v' == v
    ensures c != 0 ==> 2 <= c < g.End() <= |v.table| && v.table[c] == FREE && |v.data| == g.clusters
    ensures c != 0 ==> v' == Taken(g, v, 0, c)
  {
    hide Room, DirEntries, HasSlot, Created, Leaks;
    LowestFreeIs(v.table, c);
    if c != 0 {
      RoomTaken(g, v.table, 0, c, n);
    } else {
      RoomLess(g, v.table, n, n - 1);
    }
  }

  method CreateMissing(fs: Fat32, dir: FatNode, name: seq<byte>, ghost files: Files, ghost chains: Chains,
                       ghost room: int)
      returns (created: bool, ghost files': Files, ghost chains': Chains)
    requires Represents(fs, dir, files, chains) && LowerAll(name) !in Listing(DirEntries(fs.vol, dir.chain))
             && fs.g.Valid()
    requires Storable(name) && 0 !in name && Room(fs.g, fs.vol.table, room) && room >= 2
    modifies fs, dir`chain
    ensures Represents(fs, dir, files', chains') && files' == if created then files[LowerAll(name) := []] else files
    ensures Others(fs, dir, files') == old(Others(fs, dir, files)) && fs.g.Valid()
    ensures Kept(fs.g, old(fs.disk), fs.disk) && (!created ==> NoFree(fs.vol.table))
    ensures OutsideKept(fs.g, old(fs.vol.table), fs.vol.table)
    ensures Room(fs.g, fs.vol.table, room - 2)
  {
    hide *;
    ghost var g, v, cs := fs.g, fs.vol, dir.chain;
    AroundIs(dir);
    RepresentsParts(fs, dir, files, chains);
    ReadyParts(fs, dir);
    NodeFacts(fs, dir);
    AroundInUse(fs, dir);
    CreateRoom(g, v, cs, room);
    var r, c, at := VnodeCreate(fs, dir, name, false);
    ghost var e: Entry := NewEntry(ShortName(name), TypeAttribute(false), c);
    FileCluster(g, c, dir.firstCluster);
    OutcomeParts(g, v, fs.vol, cs, dir.chain, r, at, e, c, Zeros(g.Bpc()));
    OutcomeOutside(g, v, fs.vol, cs, dir.chain, r, at, e, c, Zeros(g.Bpc()));
    created, files', chains' := r == 0, files, chains;
    if r != 0 {
      RefusedOutcome(g, v, fs.vol, cs, dir.chain, r, at, e, c, Zeros(g.Bpc()), room);
      RoomLess(g, fs.vol.table, room - 1, room - 2);
      AroundIs(dir);
      if c == 0 {
        RepresentsAgain(fs, dir, files, chains);
      } else {
        RefusedRepresents(fs, dir, v, c, files, chains);
      }
    } else {
      CreatedRoom(g, v, fs.vol, cs, dir.chain, at, e, c, Zeros(g.Bpc()), room);
      TakesAtMost(cs, HasSlot(DirEntries(v, cs)));
      RoomLess(g, fs.vol.table, room - 1 - (|dir.chain| - |cs|), room - 2);
      CreatedRepresents(fs, dir, v, cs, at, name, c, files, chains);
      files', chains' := files[LowerAll(name) := []], chains[LowerAll(name) := [c]];
    }
  }

  method OpenFile(fs: Fat32, dir: FatNode, name: seq<byte>, ghost files: Files, ghost chains: Chains, ghost room: int)
      returns (a: Answer, ghost files': Files, ghost chains': Chains)
    requires Represents(fs, dir, files, chains) && Usable(fs, dir, files, LowerAll(name)) && fs.g.Valid()
    requires Storable(name) && 0 !in name && Room(fs.g, fs.vol.table, room) && room >= 2
    modifies fs, dir`chain
    ensures Represents(fs, dir, files', chains') && Step(files, Open(name), a, files')
    ensures Others(fs, dir, files') == old(Others(fs, dir, files)) && fs.g.Valid()
    ensures Kept(fs.g, old(fs.disk), fs.disk) && (Failed(Open(name), a) ==> NoFree(fs.vol.table))
    ensures OutsideKept(fs.g, old(fs.vol.table), fs.vol.table)
    ensures Room(fs.g, fs.vol.table, room - 2)
  {
    hide *;
    OpenSteps(files, name);
    OutsideSelf(fs.g, fs.vol.table);
    RepresentsParts(fs, dir, files, chains);
    var node := Find(fs, dir, name, files, chains);
    if node != null {
      KeptSelf(fs.g, fs.disk);
      RoomLess(fs.g, fs.vol.table, room, room - 2);
      return Done, files, chains;
    }
    UsableName(fs, dir, files, LowerAll(name));
    var created;
    created, files', chains' := CreateMissing(fs, dir, name, files, chains, room);
    if !created { return Refused, files', chains'; }
    RepresentsParts(fs, dir, files', chains');
    MappedIsUsable(fs, dir, files', LowerAll(name));
    node := Find(fs, dir, name, files', chains');
    a := if node == null then Refused else Done;
  }

  lemma UsableName(fs: Fat32, dir: FatNode, files: Files, key: seq<byte>)
    requires InData(fs.vol, dir.chain) && Usable(fs, dir, files, key) && key !in files
    ensures key !in Listing(DirEntries(fs.vol, dir.chain))
  {
  }

  lemma MappedIsUsable(fs: Fat32, dir: FatNode, files: Files, key: seq<byte>)
    requires DirectoryReady(fs, dir) && key in files
    ensures InData(fs.vol, dir.chain) && Usable(fs, dir, files, key)
  {
  }

  // ---- removing ----

  /** A removal changes no link outside the chain of the file removed. */
  lemma RemovedLinks(g: Geometry, v: Volume, v': Volume, dirCs: seq<nat>, at: nat, key: seq<byte>, cs: seq<nat>)
    requires Removed(v, v', dirCs, at, key) && DirectoryOk(g, DirEntries(v, dirCs))
             && key in Listing(DirEntries(v, dirCs))
    requires Owns(g, v.table, StartCluster(Listing(DirEntries(v, dirCs))[key]), cs) && |v.table| <= BAD
             && g.End() <= BAD
    ensures |v'.table| == |v.table| && forall c :: 0 <= c < |v.table| ==> v'.table[c] == if c in cs then FREE
            else v.table[c]
  {
    hide Key, IsLive, Listing, DirEntries, StartCluster, Passed, EntrySet, Deleted;
    ListingHit(DirEntries(v, dirCs), at, key);
    forall c | 0 <= c < |v.table|
      ensures v'.table[c] == if c in cs then FREE else v.table[c]
    {
      if cs != [] {
        ChainReachable(g, v.table, cs, c);
        if c in cs {
          InChainUsed(g, v.table, cs, c);
        }
      }
    }
  }

  lemma RemovedData(v: Volume, v': Volume, cs: seq<nat>, at: nat, key: seq<byte>)
    requires Removed(v, v', cs, at, key)
    ensures |v'.data| == |v.data| && forall c :: 0 <= c < |v.data| && c + 2 !in cs ==> v'.data[c] == v.data[c]
  {
    hide DirEntries, EntrySet, Key, IsLive, Passed, StartCluster, FreedFrom;
  }

  /** The directory itself after a removal. */
  lemma RemovedDirectory(fs: Fat32, dir: FatNode, v: Volume, cs: seq<nat>)
    requires fs.Valid() && Owns(fs.g, v.table, dir.firstCluster, dir.chain) && dir.chain != []
    requires EntryPlaced(fs.g, v.table, dir.dirCluster, dir.dirEntryOffset, dir.chain) && Disjoint(cs, Around(dir))
    requires |fs.vol.table| == |v.table| && forall c :: 0 <= c < |v.table| && c !in cs ==> fs.vol.table[c] == v.table[c]
    ensures NodeOk(fs, dir)
  {
    hide IsChain, Fat32.Valid;
    ApartFromDirectory(dir, cs);
    assert forall c :: c in dir.chain ==> c !in cs;
    ChainSurvives(fs.g, v.table, fs.vol.table, dir.chain);
    assert dir.dirCluster !in cs;
  }

  lemma RemovedSpares(v: Volume, v': Volume, dirCs: seq<nat>, g: Geometry, es: seq<Entry>,
                      around: seq<nat>, files: Files, chains: Chains, key: seq<byte>, k: seq<byte>)
    requires FilesOk(g, v, es, around, files, chains) && key in files && k in files && k != key
    requires forall c :: c in dirCs ==> c in around
    requires |v'.table| == |v.table| && forall c :: 0 <= c < |v.table| && c !in chains[key] ==>
             v'.table[c] == v.table[c]
    requires |v'.data| == |v.data| && forall c :: 0 <= c < |v.data| && c + 2 !in dirCs ==> v'.data[c] == v.data[c]
    ensures Spared(v, v', chains[k])
  {
    hide Stored;
    forall c | c in chains[k]
      ensures 2 <= c < |v.data| + 2 && c < |v.table| && c !in chains[key] && c !in dirCs
    {
      StoredUsed(g, v, es, around, k, chains[k], files[k], c);
    }
  }

  lemma RemovedRepresents(fs: Fat32, dir: FatNode, v: Volume, at: nat, files: Files, chains: Chains, key: seq<byte>)
    requires fs.Valid() && Removed(v, fs.vol, dir.chain, at, key) && LinksInRange(fs.g, fs.vol.table) && dir.chain != []
    requires Owns(fs.g, v.table, dir.firstCluster, dir.chain)
             && EntryPlaced(fs.g, v.table, dir.dirCluster, dir.dirEntryOffset, dir.chain)
    requires |v.table| <= BAD && fs.g.End() <= BAD && InData(v, dir.chain)
             && DirectoryOk(fs.g, DirEntries(v, dir.chain))
    requires FilesOk(fs.g, v, DirEntries(v, dir.chain), Around(dir), files, chains) && key in files
    ensures Represents(fs, dir, files - {key}, chains - {key})
    ensures Others(fs, dir, files - {key}) == Listing(DirEntries(v, dir.chain)) - files.Keys
  {
    hide NodeOk, DirEntries, Listing, DirectoryOk, FileOf, StartCluster, KeyOnce, StayOnce, Spared, Removed,
         Fat32.Valid, Owns, EntryPlaced, LinksInRange, Stored;
    var g, v', es, around := fs.g, fs.vol, DirEntries(v, dir.chain), Around(dir);
    FilePart(g, v, es, around, files, chains, key);
    OnceAndOwned(g, v, es, around, files, chains, key);
    RemovedLinks(g, v, v', dir.chain, at, key, chains[key]);
    RemovedData(v, v', dir.chain, at, key);
    RemovedDirectory(fs, dir, v, chains[key]);
    RemovedListing(g, v, v', dir.chain, at, key);
    ReadyFrom(fs, dir);
    var es' := DirEntries(v', dir.chain);
    forall k | k in files && k != key
      ensures Spared(v, v', chains[k]) && Disjoint(chains[k], around)
    {
      RemovedSpares(v, v', dir.chain, g, es, around, files, chains, key, k);
      FilePart(g, v, es, around, files, chains, k);
    }
    assert Listing(es') - {key} == Listing(es) - {key} - {key};
    OneTouched(g, v, v', es, es', around, around, files, chains, key, files - {key}, chains - {key});
    OthersStay(Listing(es), Listing(es'), key, files, files - {key});
  }

  lemma OnceAndOwned(g: Geometry, v: Volume, es: seq<Entry>, around: seq<nat>, files: Files, chains: Chains,
                     key: seq<byte>)
    requires FilesOk(g, v, es, around, files, chains) && key in files
    ensures KeyOnce(es, key) && key in Listing(es) && Owns(g, v.table, StartCluster(Listing(es)[key]), chains[key])
  {
    hide StartCluster, FileSize, Contents, Holds, Owns, KeyOnce, Listing;
  }

  lemma RemovedRoom(g: Geometry, t: seq<nat>, t': seq<nat>, cs: seq<nat>, n: int)
    requires Room(g, t, n) && |t'| == |t| && (cs == [] || IsChain(g, t, cs))
    requires forall c :: 0 <= c < |t| ==> t'[c] == if c in cs then FREE else t[c]
    ensures Room(g, t', n)
  {
    if !FreeInData(g, t) {
      SubsetSize(FreeData(g, t), FreeData(g, t'));
    }
  }

  lemma RemovedOutside(g: Geometry, t: seq<nat>, t': seq<nat>, cs: seq<nat>)
    requires |t'| == |t| && (cs == [] || IsChain(g, t, cs)) && forall c :: 0 <= c < |t| ==>
             t'[c] == if c in cs then FREE else t[c]
    ensures OutsideKept(g, t, t')
  {
  }

  lemma RemoveSteps(files: Files, name: seq<byte>)
    ensures LowerAll(name) in files ==> Step(files, Remove(name), Done, files - {LowerAll(name)})
    ensures !Failed(Remove(name), Done)
  {
    hide LowerAll;
  }

  method RemoveFile(fs: Fat32, dir: FatNode, name: seq<byte>, ghost files: Files, ghost chains: Chains, ghost room: int)
      returns (a: Answer, ghost files': Files, ghost chains': Chains)
    requires Represents(fs, dir, files, chains) && Usable(fs, dir, files, LowerAll(name))
             && Room(fs.g, fs.vol.table, room) && fs.g.Valid()
    modifies fs
    ensures Represents(fs, dir, files', chains') && Step(files, Remove(name), a, files')
    ensures Others(fs, dir, files') == old(Others(fs, dir, files)) && fs.g.Valid()
    ensures OutsideKept(fs.g, old(fs.vol.table), fs.vol.table)
    ensures Kept(fs.g, old(fs.disk), fs.disk) && !Failed(Remove(name), a) && Room(fs.g, fs.vol.table, room)
  {
    hide *;
    ghost var g, v, key := fs.g, fs.vol, LowerAll(name);
    RepresentsParts(fs, dir, files, chains);
    ReadyParts(fs, dir);
    NodeFacts(fs, dir);
    NodeOkAgain(fs, dir);
    DirectoryParts(g, DirEntries(v, dir.chain));
    UsableIff(fs, dir, files, chains, key);
    OutsideSelf(g, v.table);
    var r, at := VnodeRemove(fs, dir, name);
    if r != 0 {
      RepresentsAgain(fs, dir, files, chains);
      MissingStep(files, Remove(name));
      return Missing, files, chains;
    }
    OnceAndOwned(g, v, DirEntries(v, dir.chain), Around(dir), files, chains, key);
    RemovedRepresents(fs, dir, v, at, files, chains, key);
    RemovedLinks(g, v, fs.vol, dir.chain, at, key, chains[key]);
    OwnsChain(g, v.table, StartCluster(Listing(DirEntries(v, dir.chain))[key]), chains[key]);
    RemovedRoom(g, v.table, fs.vol.table, chains[key], room);
    RemovedOutside(g, v.table, fs.vol.table, chains[key]);
    RemoveSteps(files, name);
    a, files', chains' := Done, files - {key}, chains - {key};
  }

  lemma UsableIff(fs: Fat32, dir: FatNode, files: Files, chains: Chains, key: seq<byte>)
    requires InData(fs.vol, dir.chain) && Usable(fs, dir, files, key)
    requires FilesOk(fs.g, fs.vol, DirEntries(fs.vol, dir.chain), Around(dir), files, chains)
    ensures key in Listing(DirEntries(fs.vol, dir.chain)) <==> key in files
  {
    hide Listing, DirEntries, KeyOnce, FileOf;
    if key in files {
      assert Stored(fs.g, fs.vol, DirEntries(fs.vol, dir.chain), Around(dir), key, chains[key], files[key]);
    }
  }

  // ---- runs ----

  /** What a call's arguments must meet: names 8.3 can hold for new files, and no file of 4 GiB or more. */
  predicate Allowed(op: Op) {
    match op
    case Open(name) => Storable(name) && 0 !in name
    case Write(_, offset, buffer) => |buffer| < 0x8000_0000 && offset + |buffer| < U32
    case Read(_, offset, size) => size < 0x8000_0000 && offset + size < U32 * U32
    case Remove(_) => true
  }

  /** How many clusters a call may take. */
  ghost function Takes(g: Geometry, op: Op): nat
    requires g.Valid()
  {
    match op
    case Open(_) => 2
    case Write(_, offset, buffer) => WriteTakes(g, offset, |buffer|)
    case _ => 0
  }

  ghost function AllTake(g: Geometry, ops: seq<Op>): nat
    requires g.Valid()
  {
    if ops == [] then 0 else Takes(g, ops[0]) + AllTake(g, ops[1..])
  }

  method Perform(fs: Fat32, dir: FatNode, op: Op, ghost files: Files, ghost chains: Chains, ghost room: int)
      returns (a: Answer, ghost files': Files, ghost chains': Chains)
    requires Represents(fs, dir, files, chains) && LowerAll(op.name) !in Others(fs, dir, files) && Allowed(op)
             && fs.g.Valid()
    requires Room(fs.g, fs.vol.table, room) && room >= Takes(fs.g, op)
    modifies fs, dir`chain
    ensures Represents(fs, dir, files', chains') && Step(files, op, a, files')
            && Others(fs, dir, files') == old(Others(fs, dir, files))
    ensures Kept(fs.g, old(fs.disk), fs.disk) && (Failed(op, a) ==> NoFree(fs.vol.table)) && fs.g.Valid()
    ensures OutsideKept(fs.g, old(fs.vol.table), fs.vol.table)
    ensures Room(fs.g, fs.vol.table, room - Takes(fs.g, op))
  {
    hide Represents, LowerAll, Storable, Room, WriteTakes, Kept, NoFree, Failed, Step, Geometry.Valid, Listing,
         DirEntries, Fat32.Valid, OutsideKept;
    RepresentsParts(fs, dir, files, chains);
    match op
    case Open(name) =>
      a, files', chains' := OpenFile(fs, dir, name, files, chains, room);
    case Write(name, offset, buffer) =>
      a, files', chains' := WriteFile(fs, dir, name, offset, buffer, files, chains, room);
    case Read(name, offset, size) =>
      KeptSelf(fs.g, fs.disk);
      OutsideSelf(fs.g, fs.vol.table);
      a := ReadFile(fs, dir, name, offset, size, files, chains);
      files', chains' := files, chains;
    case Remove(name) =>
      a, files', chains' := RemoveFile(fs, dir, name, files, chains, room);
  }

  /** `trace` is what the first calls, with these answers, do to the map. */
  ghost predicate MapRun(ops: seq<Op>, answers: seq<Answer>, trace: seq<Files>) {
    && |answers| <= |ops| && |trace| == |answers| + 1
    && forall i :: 0 <= i < |answers| ==> Step(trace[i], ops[i], answers[i], trace[i + 1])
  }

  /** `tables` are the tables after each call: a call fails only when no cluster is left. */
  ghost predicate FailsWhenFull(ops: seq<Op>, answers: seq<Answer>, tables: seq<seq<nat>>) {
    && |tables| == |answers| <= |ops|
    && forall i :: 0 <= i < |answers| && Failed(ops[i], answers[i]) ==> NoFree(tables[i])
  }

  /** No table differs from the first one past the data area. */
  ghost predicate AllOutside(g: Geometry, t: seq<nat>, tables: seq<seq<nat>>) {
    forall i :: 0 <= i < |tables| ==> OutsideKept(g, t, tables[i])
  }

  lemma AllOutsideMore(g: Geometry, t: seq<nat>, tables: seq<seq<nat>>, t1: seq<nat>, t2: seq<nat>)
    requires AllOutside(g, t, tables) && OutsideKept(g, t, t1) && OutsideKept(g, t1, t2)
    ensures AllOutside(g, t, tables + [t2]) && OutsideKept(g, t, t2)
  {
    hide OutsideKept;
    OutsideTransitive(g, t, t1, t2);
  }

  ghost predicate MayRun(ops: seq<Op>, others: map<seq<byte>, Entry>) {
    forall i :: 0 <= i < |ops| ==> Allowed(ops[i]) && LowerAll(ops[i].name) !in others
  }

  lemma MapRunMore(ops: seq<Op>, answers: seq<Answer>, trace: seq<Files>, a: Answer, files: Files)
    requires MapRun(ops, answers, trace) && |answers| < |ops| && Step(trace[|answers|], ops[|answers|], a, files)
    ensures MapRun(ops, answers + [a], trace + [files]) && |trace| == |answers| + 1
  {
    hide Step;
  }

  lemma FailsWhenFullMore(ops: seq<Op>, answers: seq<Answer>, tables: seq<seq<nat>>, a: Answer, t: seq<nat>)
    requires FailsWhenFull(ops, answers, tables) && |answers| < |ops| && (Failed(ops[|answers|], a) ==> NoFree(t))
    ensures FailsWhenFull(ops, answers + [a], tables + [t]) && |tables| == |answers|
  {
    hide Failed, NoFree;
  }

  lemma TakesFirst(g: Geometry, ops: seq<Op>, i: nat)
    requires g.Valid() && i < |ops|
    ensures AllTake(g, ops[i..]) == Takes(g, ops[i]) + AllTake(g, ops[i + 1..]) && AllTake(g, ops[i + 1..]) >= 0
  {
    hide Takes;
    assert ops[i..][0] == ops[i] && ops[i..][1..] == ops[i + 1..];
  }

  lemma NoTables(g: Geometry, t: seq<nat>)
    ensures AllOutside(g, t, []) && OutsideKept(g, t, t)
  {
  }

  lemma NothingRun(ops: seq<Op>, files: Files)
    ensures MapRun(ops, [], [files]) && FailsWhenFull(ops, [], []) && ops[0..] == ops
  {
  }

  /** Any sequence of calls: the answers are those of a run of the map, the directory holds the map the run ends in, its
      other entries and everything outside the volume stay, and only a call that met a full volume failed. */
  method RunAll(fs: Fat32, dir: FatNode, ops: seq<Op>, ghost files: Files, ghost chains: Chains)
      returns (answers: seq<Answer>, ghost trace: seq<Files>, ghost tables: seq<seq<nat>>, ghost chains': Chains)
    requires Represents(fs, dir, files, chains) && fs.g.Valid() && MayRun(ops, Others(fs, dir, files))
    requires Room(fs.g, fs.vol.table, AllTake(fs.g, ops))
    modifies fs, dir`chain
    ensures |answers| == |ops| && MapRun(ops, answers, trace) && trace[0] == files
    ensures Represents(fs, dir, trace[|ops|], chains') && Others(fs, dir, trace[|ops|]) == old(Others(fs, dir, files))
    ensures Kept(fs.g, old(fs.disk), fs.disk)
    ensures FailsWhenFull(ops, answers, tables) && (ops != [] ==> tables[|ops| - 1] == fs.vol.table)
    ensures AllOutside(fs.g, old(fs.vol.table), tables)
  {
    hide *;
    RepresentsParts(fs, dir, files, chains);
    ghost var others, d0, now := Others(fs, dir, files), fs.disk, files;
    KeptSelf(fs.g, d0);
    answers, trace, tables, chains' := [], [files], [], chains;
    NothingRun(ops, files);
    ghost var t0 := fs.vol.table;
    NoTables(fs.g, t0);
    while |answers| < |ops|
      invariant |answers| <= |ops| && MapRun(ops, answers, trace) && |trace| == |answers| + 1 && trace[0] == files
                && trace[|answers|] == now
      invariant fs.g.Valid() && FailsWhenFull(ops, answers, tables) && |tables| == |answers|
                && (answers != [] ==> tables[|answers| - 1] == fs.vol.table)
      invariant Represents(fs, dir, now, chains') && InData(fs.vol, dir.chain) && Others(fs, dir, now) == others
      invariant Kept(fs.g, d0, fs.disk) && AllOutside(fs.g, t0, tables) && OutsideKept(fs.g, t0, fs.vol.table)
      invariant Room(fs.g, fs.vol.table, AllTake(fs.g, ops[|answers|..]))
    {
      ghost var d, t, room := fs.disk, fs.vol.table, AllTake(fs.g, ops[|answers|..]);
      MayCall(ops, others, |answers|);
      TakesFirst(fs.g, ops, |answers|);
      var a: Answer;
      ghost var was := now;
      a, now, chains' := Perform(fs, dir, ops[|answers|], was, chains', room);
      RepresentsParts(fs, dir, now, chains');
      KeptTransitive(fs.g, d0, d, fs.disk);
      AllOutsideMore(fs.g, t0, tables, t, fs.vol.table);
      MapRunMore(ops, answers, trace, a, now);
      FailsWhenFullMore(ops, answers, tables, a, fs.vol.table);
      answers, trace, tables := answers + [a], trace + [now], tables + [fs.vol.table];
    }
  }

  lemma MayCall(ops: seq<Op>, others: map<seq<byte>, Entry>, i: nat)
    requires MayRun(ops, others) && i < |ops|
    ensures Allowed(ops[i]) && LowerAll(ops[i].name) !in others
  {
    hide Allowed, LowerAll;
  }

  // ---- what runs of the map promise ----

  /** The map after a call that got all it asked for. */
  function Applied(files: Files, op: Op): Files {
    var key := LowerAll(op.name);
    match op
    case Open(_) => if key in files then files else files[key := []]
    case Write(_, offset, buffer) => if key in files then files[key := Patched(files[key], offset, buffer)] else files
    case Read(_, _, _) => files
    case Remove(_) => files - {key}
  }

  function Reply(files: Files, op: Op): Answer {
    var key := LowerAll(op.name);
    match op
    case Open(_) => Done
    case Write(_, _, buffer) => if key in files then Wrote(|buffer|) else Missing
    case Read(_, offset, size) => if key in files then Got(Clip(files[key], offset, size)) else Missing
    case Remove(_) => if key in files then Done else Missing
  }

  function AppliedAll(files: Files, ops: seq<Op>): Files {
    if ops == [] then files else Applied(AppliedAll(files, ops[..|ops| - 1]), ops[|ops| - 1])
  }

  lemma StepIsApplied(files: Files, op: Op, a: Answer, files': Files)
    requires Step(files, op, a, files')
    ensures !Failed(op, a) <==> files' == Applied(files, op) && a == Reply(files, op)
  {
    hide LowerAll, Patched;
    if op.Write? && a.Wrote? && a.count == |op.buffer| {
      assert op.buffer[..a.count] == op.buffer;
    }
  }

  /** As long as no call failed, maps and answers are those of the calls applied one after the other. */
  lemma {:induction false} RunIsApplied(ops: seq<Op>, answers: seq<Answer>, trace: seq<Files>, n: nat)
    requires MapRun(ops, answers, trace) && n <= |answers| && forall i :: 0 <= i < n ==> !Failed(ops[i], answers[i])
    ensures trace[n] == AppliedAll(trace[0], ops[..n])
    ensures forall i :: 0 <= i < n ==> answers[i] == Reply(AppliedAll(trace[0], ops[..i]), ops[i])
  {
    hide Step, Failed, Applied, Reply;
    if n > 0 {
      RunIsApplied(ops, answers, trace, n - 1);
      assert ops[..n][..n - 1] == ops[..n - 1];
      StepIsApplied(trace[n - 1], ops[n - 1], answers[n - 1], trace[n]);
    }
  }

  /** The call leaves this file alone. */
  predicate Spares(op: Op, key: seq<byte>) {
    op.Read? || LowerAll(op.name) != key
  }

  lemma StepSpares(files: Files, op: Op, a: Answer, files': Files, key: seq<byte>)
    requires Step(files, op, a, files') && Spares(op, key)
    ensures key in files' <==> key in files
    ensures key in files ==> files'[key] == files[key]
  {
    hide LowerAll, Patched;
  }

  /** A file keeps its bytes through calls on other files and through reads, whether those fail or not. */
  lemma {:induction false} RunSpares(ops: seq<Op>, answers: seq<Answer>, trace: seq<Files>, key: seq<byte>, m: nat,
                                     n: nat)
    requires MapRun(ops, answers, trace) && m <= n <= |answers| && forall i :: m <= i < n ==> Spares(ops[i], key)
    ensures key in trace[n] <==> key in trace[m]
    ensures key in trace[m] ==> trace[n][key] == trace[m][key]
  {
    hide Step, Spares;
    if m < n {
      RunSpares(ops, answers, trace, key, m, n - 1);
      StepSpares(trace[n - 1], ops[n - 1], answers[n - 1], trace[n], key);
    }
  }

  /** What call `m` wrote is what call `n` reads at that place, whatever was done to other files between. */
  lemma WriteThenRead(ops: seq<Op>, answers: seq<Answer>, trace: seq<Files>, key: seq<byte>, m: nat, n: nat)
    requires MapRun(ops, answers, trace) && m < n < |answers| && forall i :: m < i < n ==> Spares(ops[i], key)
    requires ops[m].Write? && LowerAll(ops[m].name) == key && key in trace[m] && !Failed(ops[m], answers[m])
    requires ops[n] == Read(ops[m].name, ops[m].offset, |ops[m].buffer|)
    ensures answers[n] == Got(ops[m].buffer)
  {
    hide LowerAll, Spares, Step, Failed, Patched;
    StepIsApplied(trace[m], ops[m], answers[m], trace[m + 1]);
    RunSpares(ops, answers, trace, key, m + 1, n);
    StepIsApplied(trace[n], ops[n], answers[n], trace[n + 1]);
    ReadNeverFails(trace[n], ops[n], answers[n], trace[n + 1]);
    PatchedReads(trace[m][key], ops[m].offset, ops[m].buffer);
  }

  lemma ReadNeverFails(files: Files, op: Op, a: Answer, files': Files)
    requires Step(files, op, a, files') && op.Read?
    ensures !Failed(op, a)
  {
    hide LowerAll;
  }

  lemma PatchedReads(data: seq<byte>, offset: nat, x: seq<byte>)
    ensures Clip(Patched(data, offset, x), offset, |x|) == x
  {
    hide Overwritten;
  }
}